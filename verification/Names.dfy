/** The order of pool names: what `sort.Strings` makes of them (client.go:75). */
module Names {
  /** The order of strings: by the first character in which they differ, a prefix first. */
  predicate Precedes(a: string, b: string) {
    a == [] || (b != [] && (a[0] < b[0] || (a[0] == b[0] && Precedes(a[1..], b[1..]))))
  }

  /** Where the two strings first differ the smaller character decides; otherwise one is the other's prefix. */
  lemma {:induction false} PrecedesIff(a: string, b: string)
    ensures Precedes(a, b) <==>
              exists k :: 0 <= k <= |a| && k <= |b| && a[..k] == b[..k] && (k == |a| || (k < |b| && a[k] < b[k]))
    decreases |a|
  {
    if a != [] && b != [] && a[0] == b[0] {
      var a', b' := a[1..], b[1..];
      PrecedesIff(a', b');
      if k :| 0 <= k <= |a'| && k <= |b'| && a'[..k] == b'[..k] && (k == |a'| || (k < |b'| && a'[k] < b'[k])) {
        assert a[..k + 1] == [a[0]] + a'[..k] && b[..k + 1] == [b[0]] + b'[..k];
        assert a[..k + 1] == b[..k + 1];
      }
      if k :| 0 <= k <= |a| && k <= |b| && a[..k] == b[..k] && (k == |a| || (k < |b| && a[k] < b[k])) {
        assert k > 0;
        assert a'[..k - 1] == a[..k][1..] && b'[..k - 1] == b[..k][1..];
      }
    } else if a == [] {
      assert a[..0] == b[..0];
    } else if b != [] && a[0] < b[0] {
      assert a[..0] == b[..0];
    } else if k :| 0 <= k <= |a| && k <= |b| && a[..k] == b[..k] && (k == |a| || (k < |b| && a[k] < b[k])) {
      assert k > 0 ==> a[..k][0] == b[..k][0];
    }
  }

  lemma {:induction false} PrecedesTotal(a: string, b: string)
    ensures Precedes(a, b) || Precedes(b, a)
    decreases |a|
  {
    if a != [] && b != [] {
      PrecedesTotal(a[1..], b[1..]);
    }
  }

  lemma {:induction false} PrecedesTransitive(a: string, b: string, c: string)
    requires Precedes(a, b) && Precedes(b, c)
    ensures Precedes(a, c)
    decreases |a|
  {
    if a != [] && b != [] && c != [] && a[0] == b[0] == c[0] {
      PrecedesTransitive(a[1..], b[1..], c[1..]);
    }
  }

  ghost predicate Ordered(names: seq<string>) {
    forall i, j :: 0 <= i < j < |names| ==> Precedes(names[i], names[j])
  }

  function Insert(name: string, names: seq<string>): (r: seq<string>)
    ensures multiset(r) == multiset(names) + multiset{name}
  {
    if names == [] || Precedes(names[|names| - 1], name) then names + [name]
    else
      var last := |names| - 1;
      assert names == names[..last] + [names[last]];
      Insert(name, names[..last]) + [names[last]]
  }

  function Sorted(names: seq<string>): (r: seq<string>)
    ensures multiset(r) == multiset(names)
  {
    if names == [] then []
    else
      assert names == names[..|names| - 1] + [names[|names| - 1]];
      Insert(names[|names| - 1], Sorted(names[..|names| - 1]))
  }

  lemma {:induction false} InsertOrdered(name: string, names: seq<string>)
    requires Ordered(names)
    ensures Ordered(Insert(name, names))
    decreases |names|
  {
    if names != [] {
      var last := |names| - 1;
      if Precedes(names[last], name) {
        forall i | 0 <= i < last ensures Precedes(names[i], name) {
          PrecedesTransitive(names[i], names[last], name);
        }
      } else {
        var front := Insert(name, names[..last]);
        PrecedesTotal(name, names[last]);
        InsertOrdered(name, names[..last]);
        forall i | 0 <= i < |front| ensures Precedes(front[i], names[last]) {
          assert front[i] in multiset(front);
        }
      }
    }
  }

  /** The sorted names are the given ones, in order. */
  lemma {:induction false} SortedIsOrdered(names: seq<string>)
    ensures Ordered(Sorted(names)) && multiset(Sorted(names)) == multiset(names)
    decreases |names|
  {
    if names != [] {
      SortedIsOrdered(names[..|names| - 1]);
      InsertOrdered(names[|names| - 1], Sorted(names[..|names| - 1]));
    }
  }
}
