/** The memory of which endpoints a domain has blocked recently (internal/domain/tracker.go:20-88). */
module Tracker {
  import opened Basics

  const DEFAULT_BLOCK_TTL := 5 * 60 * 1_000_000_000
  const DEFAULT_BLOCK_PENALTY := 0.1

  datatype Key = Key(endpoint: int, domain: string)

  /** A stored record; `id` is the identity of its pointer. */
  datatype Entry = Entry(id: nat, blockedAt: int)

  /** One RecordBlock call that had a domain. */
  datatype Block = Block(key: Key, at: int)

  /** When the key was last blocked. */
  function Latest(log: seq<Block>, key: Key): Option<int> {
    if log == [] then None
    else if log[|log| - 1].key == key then Some(log[|log| - 1].at)
    else Latest(log[..|log| - 1], key)
  }

  /** The promise: the penalty for ttl after the last block, full weight otherwise. */
  function PenaltyAt(log: seq<Block>, ttl: int, penalty: real, key: Key, now: int): real {
    match Latest(log, key)
    case Some(at) => if key.domain != "" && now - at <= ttl then penalty else 1.0
    case None => 1.0
  }

  lemma LatestAppend(log: seq<Block>, b: Block, key: Key)
    ensures Latest(log + [b], key) == if b.key == key then Some(b.at) else Latest(log, key)
  {
    assert (log + [b])[..|log|] == log;
  }

  /** A block for one endpoint and domain leaves every other pair's penalty alone, at every later time. */
  lemma BlocksAreIsolated(log: seq<Block>, b: Block, ttl: int, penalty: real, key: Key, now: int)
    requires b.key != key
    ensures PenaltyAt(log + [b], ttl, penalty, key, now) == PenaltyAt(log, ttl, penalty, key, now)
  {
    LatestAppend(log, b, key);
  }

  /** A block holds from the moment it is recorded for exactly ttl. */
  lemma BlockLastsTtl(log: seq<Block>, b: Block, ttl: int, penalty: real, now: int)
    requires b.key.domain != ""
    ensures PenaltyAt(log + [b], ttl, penalty, b.key, now) == if now <= b.at + ttl then penalty else 1.0
  {
    LatestAppend(log, b, b.key);
  }

  /** What was never blocked has full weight. */
  lemma {:induction false} NeverBlocked(log: seq<Block>, ttl: int, penalty: real, key: Key, now: int)
    requires forall i :: 0 <= i < |log| ==> log[i].key != key
    ensures PenaltyAt(log, ttl, penalty, key, now) == 1.0
    decreases |log|
  {
    if log != [] {
      NeverBlocked(log[..|log| - 1], ttl, penalty, key, now);
    }
  }

  class BlockTracker {
    var blocks: map<Key, Entry>
    var stored: nat
    const ttl: int
    const penalty: real

    /** Every block recorded so far, oldest first, and the last time the tracker was shown. */
    ghost var log: seq<Block>
    ghost var clock: int

    /** What the map holds is the newest record of its key; what it lacks was never recorded, or has expired. */
    ghost predicate Valid()
      reads this
    {
      && ttl > 0 && penalty > 0.0
      && (forall k :: k in blocks ==>
            k.domain != "" && Latest(log, k) == Some(blocks[k].blockedAt) && blocks[k].id < stored)
      && (forall k :: k !in blocks && Latest(log, k).Some? ==> clock - Latest(log, k).value > ttl)
    }

    constructor (ttl: int, penalty: real)
      ensures Valid() && log == [] && blocks == map[]
      ensures this.ttl == if ttl <= 0 then DEFAULT_BLOCK_TTL else ttl
      ensures this.penalty == if penalty <= 0.0 then DEFAULT_BLOCK_PENALTY else penalty
      ensures ttl <= 0 ==> this.ttl == 300_000_000_000
      ensures penalty <= 0.0 ==> this.penalty == 0.1
    {
      this.ttl := if ttl <= 0 then DEFAULT_BLOCK_TTL else ttl;
      this.penalty := if penalty <= 0.0 then DEFAULT_BLOCK_PENALTY else penalty;
      blocks, stored := map[], 0;
      log, clock := [], 0;
    }

    method RecordBlock(endpoint: int, domain: string, now: int)
      requires Valid() && clock <= now
      modifies this
      ensures Valid() && clock == now
      ensures log == if domain == "" then old(log) else old(log) + [Block(Key(endpoint, domain), now)]
      ensures domain != "" ==> Key(endpoint, domain) in blocks && blocks[Key(endpoint, domain)].blockedAt == now
      ensures forall k :: k != Key(endpoint, domain) ==> (k in blocks <==> k in old(blocks))
      ensures forall k :: k in old(blocks) && (domain == "" || k != Key(endpoint, domain)) ==>
                k in blocks && blocks[k] == old(blocks)[k]
    {
      clock := now;
      if domain == "" {
        return;
      }
      var key := Key(endpoint, domain);
      blocks := blocks[key := Entry(stored, now)];
      stored := stored + 1;
      ghost var before := log;
      log := log + [Block(key, now)];
      forall k ensures Latest(log, k) == if k == key then Some(now) else Latest(before, k) {
        LatestAppend(before, Block(key, now), k);
      }
    }

    /** Expired records are removed on read, yet every answer is the one the plain log gives. */
    method PenaltyFor(endpoint: int, domain: string, now: int) returns (p: real)
      requires Valid() && clock <= now
      modifies this
      ensures Valid() && clock == now && log == old(log)
      ensures p == PenaltyAt(log, ttl, penalty, Key(endpoint, domain), now)
      ensures p == 1.0 || p == penalty
      ensures forall k :: k in blocks ==> k in old(blocks) && blocks[k] == old(blocks)[k]
      ensures forall k :: k in old(blocks) && (k != Key(endpoint, domain) || now - old(blocks)[k].blockedAt <= ttl) ==>
                k in blocks
    {
      clock := now;
      if domain == "" {
        return 1.0;
      }
      var key := Key(endpoint, domain);
      if key !in blocks {
        return 1.0;
      }
      var existing := blocks[key];
      if now - existing.blockedAt > ttl {
        // CompareAndDelete
        if key in blocks && blocks[key].id == existing.id {
          blocks := blocks - {key};
        }
        return 1.0;
      }
      p := penalty;
    }
  }
}

/**
  The tracker shared by concurrent readers and writers. RecordBlock is two steps, reading the clock and
  storing a fresh entry; PenaltyFor is three, the load, the expiry test and the compare-and-delete.
*/
module TrackerProtocol {
  import opened Basics
  import opened Runs
  import opened Tracker

  type Thread = nat

  datatype Pc =
    | Idle
    | Stamping(key: Key)
    | Storing(key: Key, at: int)
    | Loading(key: Key)
    | Testing(key: Key, loaded: Entry)
    | Deleting(key: Key, loaded: Entry)

  /** `log` lists the stores in order; the entry of the i-th store has identity i. */
  datatype Memory = Memory(ttl: int, clock: int, blocks: map<Key, Entry>, log: seq<Block>)

  datatype State = State(mem: Memory, pcs: map<Thread, Pc>)

  datatype Event =
    | Tick(d: nat)
    | Record(t: Thread, key: Key)
    | Query(t: Thread, key: Key)
    | Advance(t: Thread)

  predicate Init(st: State) {
    && st.mem.blocks == map[] && st.mem.log == [] && st.mem.ttl > 0
    && forall t :: t in st.pcs ==> st.pcs[t] == Idle
  }

  predicate Enabled(st: State, e: Event) {
    match e
    case Tick(_) => true
    case Record(t, key) => t in st.pcs && st.pcs[t].Idle? && key.domain != ""
    case Query(t, key) => t in st.pcs && st.pcs[t].Idle? && key.domain != ""
    case Advance(t) => t in st.pcs && !st.pcs[t].Idle?
  }

  function Goto(st: State, t: Thread, pc: Pc): State {
    st.(pcs := st.pcs[t := pc])
  }

  function Apply(st: State, e: Event): State {
    if !Enabled(st, e) then st else
    var m := st.mem;
    match e
    case Tick(d) => st.(mem := m.(clock := m.clock + d))
    case Record(t, key) => Goto(st, t, Stamping(key))
    case Query(t, key) => Goto(st, t, Loading(key))
    case Advance(t) =>
      match st.pcs[t]
      case Idle => st
      case Stamping(key) => Goto(st, t, Storing(key, m.clock))
      case Storing(key, at) =>
        Goto(st, t, Idle).(mem := m.(blocks := m.blocks[key := Entry(|m.log|, at)], log := m.log + [Block(key, at)]))
      case Loading(key) => Goto(st, t, if key in m.blocks then Testing(key, m.blocks[key]) else Idle)
      case Testing(key, loaded) =>
        Goto(st, t, if m.clock - loaded.blockedAt > m.ttl then Deleting(key, loaded) else Idle)
      case Deleting(key, loaded) =>
        Goto(st, t, Idle)
        .(mem := m.(blocks := if key in m.blocks && m.blocks[key].id == loaded.id then m.blocks - {key} else m.blocks))
  }

  const SYSTEM: System<State, Event> := System(Enabled, Apply)

  /** The entry is the one some store created for the key. */
  predicate Stored(m: Memory, key: Key, e: Entry) {
    e.id < |m.log| && m.log[e.id] == Block(key, e.blockedAt)
  }

  predicate Knows(m: Memory, pc: Pc) {
    match pc
    case Testing(key, loaded) => Stored(m, key, loaded)
    case Deleting(key, loaded) => Stored(m, key, loaded) && m.clock - loaded.blockedAt > m.ttl
    case _ => true
  }

  ghost predicate Inv(st: State) {
    var m := st.mem;
    && (forall k :: k in m.blocks ==> Stored(m, k, m.blocks[k]) && Latest(m.log, k) == Some(m.blocks[k].blockedAt))
    && (forall k :: k !in m.blocks && Latest(m.log, k).Some? ==> m.clock - Latest(m.log, k).value > m.ttl)
    && (forall t :: t in st.pcs ==> Knows(m, st.pcs[t]))
  }

  lemma StepInv(st: State, e: Event)
    requires Inv(st) && Enabled(st, e)
    ensures Inv(Apply(st, e))
  {
    if e.Advance? && st.pcs[e.t].Storing? {
      var m, b := st.mem, Block(st.pcs[e.t].key, st.pcs[e.t].at);
      forall k ensures Latest(m.log + [b], k) == if b.key == k then Some(b.at) else Latest(m.log, k) {
        LatestAppend(m.log, b, k);
      }
    }
  }

  lemma RunInv(st: State, es: seq<Event>)
    requires Inv(st) && IsRun(SYSTEM, st, es)
    ensures Inv(After(SYSTEM, st, es))
  {
    forall s: State, e: Event | Inv(s) && SYSTEM.enabled(s, e) ensures Inv(SYSTEM.apply(s, e)) {
      StepInv(s, e);
    }
    Invariant(SYSTEM, (s: State) => Inv(s), st, es);
  }

  ghost predicate Reachable(st: State) {
    exists init: State, es: seq<Event> :: Init(init) && IsRun(SYSTEM, init, es) && After(SYSTEM, init, es) == st
  }

  lemma ReachableInv(st: State)
    requires Reachable(st)
    ensures Inv(st)
  {
    var init: State, es: seq<Event> :| Init(init) && IsRun(SYSTEM, init, es) && After(SYSTEM, init, es) == st;
    RunInv(init, es);
  }

  /** However readers and writers interleave, the newest block of a key is in the map until it has expired. */
  lemma LiveBlocksStay(st: State, key: Key)
    requires Reachable(st) && Latest(st.mem.log, key).Some?
    requires st.mem.clock - Latest(st.mem.log, key).value <= st.mem.ttl
    ensures key in st.mem.blocks && st.mem.blocks[key].blockedAt == Latest(st.mem.log, key).value
  {
    ReachableInv(st);
  }

  /** A step that removes an entry is a reader removing the very entry it loaded, after that entry expired. */
  lemma DeletesOnlyWhatItLoaded(st: State, e: Event, key: Key)
    requires Reachable(st) && Enabled(st, e) && key in st.mem.blocks && key !in Apply(st, e).mem.blocks
    ensures e.Advance? && st.pcs[e.t] == Deleting(key, st.mem.blocks[key])
    ensures st.mem.clock - st.mem.blocks[key].blockedAt > st.mem.ttl
  {
    ReachableInv(st);
    assert Knows(st.mem, st.pcs[e.t]);
  }

  // ---------------------------------------------------------------------------
  // Calls that nothing interleaves with

  lemma SoloStep(st: State, t: Thread, es: seq<Event>) returns (fs: seq<Event>)
    requires Enabled(st, Advance(t)) && IsRun(SYSTEM, Apply(st, Advance(t)), es)
    ensures fs == [Advance(t)] + es
    ensures IsRun(SYSTEM, st, fs) && After(SYSTEM, st, fs) == After(SYSTEM, Apply(st, Advance(t)), es)
  {
    Cons(SYSTEM, st, Advance(t), es);
    fs := [Advance(t)] + es;
  }

  /** A block run alone is stored with the time at which it is recorded. */
  lemma SoloRecord(st: State, t: Thread, key: Key) returns (es: seq<Event>)
    requires t in st.pcs && st.pcs[t] == Idle && key.domain != ""
    ensures IsRun(SYSTEM, st, es)
    ensures var m := st.mem;
            After(SYSTEM, st, es)
            == State(m.(blocks := m.blocks[key := Entry(|m.log|, m.clock)], log := m.log + [Block(key, m.clock)]),
                     st.pcs)
  {
    var st1 := Apply(st, Record(t, key));
    var st2 := Apply(st1, Advance(t));
    var st3 := Apply(st2, Advance(t));
    assert st3.pcs == st.pcs;
    es := SoloStep(st2, t, []);
    es := SoloStep(st1, t, es);
    Cons(SYSTEM, st, Record(t, key), es);
    es := [Record(t, key)] + es;
  }

  /** A lookup run alone removes the record of its key if that has expired, and nothing else. */
  lemma SoloQuery(st: State, t: Thread, key: Key) returns (es: seq<Event>)
    requires t in st.pcs && st.pcs[t] == Idle && key.domain != ""
    ensures IsRun(SYSTEM, st, es)
    ensures var m := st.mem;
            var expired := key in m.blocks && m.clock > m.blocks[key].blockedAt + m.ttl;
            After(SYSTEM, st, es) == State(if expired then m.(blocks := m.blocks - {key}) else m, st.pcs)
  {
    var st1 := Apply(st, Query(t, key));
    var st2 := Apply(st1, Advance(t));
    es := [];
    if key in st.mem.blocks {
      var st3 := Apply(st2, Advance(t));
      if st3.pcs[t] != Idle {
        es := SoloStep(st3, t, es);
      }
      es := SoloStep(st2, t, es);
    }
    es := SoloStep(st1, t, es);
    Cons(SYSTEM, st, Query(t, key), es);
    es := [Query(t, key)] + es;
    assert After(SYSTEM, st, es).pcs == st.pcs;
  }
}
