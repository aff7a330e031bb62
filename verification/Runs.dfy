/** Finite runs of a labelled transition system, and what every run preserves. */
module Runs {
  /** `apply` matters only where `enabled` holds. */
  datatype System<!S, !E> = System(enabled: (S, E) -> bool, apply: (S, E) -> S)

  ghost predicate IsRun<S, E>(sys: System<S, E>, s: S, es: seq<E>) {
    es == [] || (sys.enabled(s, es[0]) && IsRun(sys, sys.apply(s, es[0]), es[1..]))
  }

  ghost function After<S, E>(sys: System<S, E>, s: S, es: seq<E>): S {
    if es == [] then s else After(sys, sys.apply(s, es[0]), es[1..])
  }

  lemma Cons<S, E>(sys: System<S, E>, s: S, e: E, es: seq<E>)
    requires sys.enabled(s, e) && IsRun(sys, sys.apply(s, e), es)
    ensures IsRun(sys, s, [e] + es) && After(sys, s, [e] + es) == After(sys, sys.apply(s, e), es)
  {
    assert ([e] + es)[1..] == es;
  }

  lemma {:induction false} Concat<S, E>(sys: System<S, E>, s: S, es: seq<E>, fs: seq<E>)
    requires IsRun(sys, s, es) && IsRun(sys, After(sys, s, es), fs)
    ensures IsRun(sys, s, es + fs) && After(sys, s, es + fs) == After(sys, After(sys, s, es), fs)
  {
    if es == [] {
      assert es + fs == fs;
    } else {
      Concat(sys, sys.apply(s, es[0]), es[1..], fs);
      assert (es + fs)[1..] == es[1..] + fs;
    }
  }

  /** What holds at the start and is kept by every step holds at the end. */
  lemma {:induction false} Invariant<S(!new), E(!new)>(sys: System<S, E>, inv: S -> bool, s: S, es: seq<E>)
    requires inv(s) && IsRun(sys, s, es)
    requires forall t: S, e: E :: inv(t) && sys.enabled(t, e) ==> inv(sys.apply(t, e))
    ensures inv(After(sys, s, es))
  {
    if es != [] {
      Invariant(sys, inv, sys.apply(s, es[0]), es[1..]);
    }
  }
}
