/** Python's `sorted` on lists of strings: by code points, lexicographically. */
module NameOrder {

  predicate AtMost(a: string, b: string) {
    a == "" || (b != "" && (a[0] < b[0] || (a[0] == b[0] && AtMost(a[1..], b[1..]))))
  }

  /** `a` and `b` agree up to position `k`, where `a` has the smaller character. */
  predicate SmallerAt(a: string, b: string, k: nat) {
    k < |a| && k < |b| && a[..k] == b[..k] && a[k] < b[k]
  }

  lemma SmallerStart(a: string, b: string, k: nat)
    requires SmallerAt(a, b, k)
    ensures a[0] < b[0] || (a[0] == b[0] && k > 0)
  {
    if k > 0 {
      assert a[0] == a[..k][0] && b[0] == b[..k][0];
    }
  }

  /** The first difference decides, and a string comes before those that continue it. */
  lemma {:induction false} AtMostExactly(a: string, b: string)
    ensures AtMost(a, b) <==> a <= b || exists k: nat :: SmallerAt(a, b, k)
  {
    if a != "" && b != "" && a[0] == b[0] {
      AtMostExactly(a[1..], b[1..]);
      assert a == [a[0]] + a[1..] && b == [b[0]] + b[1..];
      if k: nat :| SmallerAt(a[1..], b[1..], k) {
        assert a[..k + 1] == [a[0]] + a[1..][..k] && b[..k + 1] == [b[0]] + b[1..][..k];
        assert SmallerAt(a, b, k + 1);
      }
      if k: nat :| SmallerAt(a, b, k) {
        assert k > 0 && a[1..][..k - 1] == a[..k][1..] && b[1..][..k - 1] == b[..k][1..];
        assert SmallerAt(a[1..], b[1..], k - 1);
      }
    } else if a != "" && b != "" {
      assert a[..0] == b[..0];
      if k: nat :| SmallerAt(a, b, k) {
        SmallerStart(a, b, k);
      }
      assert a[0] < b[0] ==> SmallerAt(a, b, 0);
    }
  }

  lemma {:induction false} AtMostTotal(a: string, b: string)
    ensures AtMost(a, b) || AtMost(b, a)
  {
    if a != "" && b != "" && a[0] == b[0] {
      AtMostTotal(a[1..], b[1..]);
    }
  }

  lemma {:induction false} AtMostTransitive(a: string, b: string, c: string)
    requires AtMost(a, b) && AtMost(b, c)
    ensures AtMost(a, c)
  {
    if a != "" && a[0] == b[0] == c[0] {
      AtMostTransitive(a[1..], b[1..], c[1..]);
    }
  }

  lemma {:induction false} AtMostAntisymmetric(a: string, b: string)
    requires AtMost(a, b) && AtMost(b, a)
    ensures a == b
  {
    if a != "" {
      AtMostAntisymmetric(a[1..], b[1..]);
      assert a == [a[0]] + a[1..] && b == [b[0]] + b[1..];
    }
  }

  predicate Ascending(names: seq<string>) {
    forall j, k | 0 <= j < k < |names| :: AtMost(names[j], names[k])
  }

  function Insert(name: string, names: seq<string>): seq<string> {
    if names == [] || AtMost(name, names[0]) then [name] + names
    else [names[0]] + Insert(name, names[1..])
  }

  function Sorted(names: seq<string>): seq<string> {
    if names == [] then [] else Insert(names[0], Sorted(names[1..]))
  }

  lemma {:induction false} InsertKeeps(name: string, names: seq<string>)
    ensures multiset(Insert(name, names)) == multiset(names) + multiset{name}
    ensures Ascending(names) ==> Ascending(Insert(name, names))
  {
    if names == [] {
    } else if AtMost(name, names[0]) {
      InFront(name, names);
    } else {
      AtMostTotal(name, names[0]);
      var tail := Insert(name, names[1..]);
      InsertKeeps(name, names[1..]);
      assert names == [names[0]] + names[1..];
      if Ascending(names) {
        forall other | other in tail ensures AtMost(names[0], other) {
          assert other in multiset(tail);
          assert other == name || other in names[1..];
        }
        LeastFirst(names[0], tail);
      }
    }
  }

  lemma LeastFirst(name: string, names: seq<string>)
    requires Ascending(names) && forall other | other in names :: AtMost(name, other)
    ensures Ascending([name] + names)
  {
  }

  lemma InFront(name: string, names: seq<string>)
    requires names != [] && AtMost(name, names[0])
    ensures multiset([name] + names) == multiset(names) + multiset{name}
    ensures Ascending(names) ==> Ascending([name] + names)
  {
    if Ascending(names) {
      forall other | other in names ensures AtMost(name, other) {
        if other != names[0] {
          AtMostTransitive(name, names[0], other);
        }
      }
      LeastFirst(name, names);
    }
  }

  /** The result is in order and a permutation of the names. */
  lemma {:induction false} SortedIsAscending(names: seq<string>)
    ensures Ascending(Sorted(names)) && multiset(Sorted(names)) == multiset(names)
  {
    if names != [] {
      SortedIsAscending(names[1..]);
      InsertKeeps(names[0], Sorted(names[1..]));
      assert names == [names[0]] + names[1..];
    }
  }

  lemma FirstIsLeast(names: seq<string>, name: string)
    requires Ascending(names) && name in names
    ensures AtMost(names[0], name)
  {
    AtMostTotal(name, name);
  }

  lemma SameFirst(a: seq<string>, b: seq<string>)
    requires Ascending(a) && Ascending(b) && multiset(a) == multiset(b) && a != []
    ensures |a| == |b| && a[0] == b[0]
  {
    assert |a| == |multiset(a)| == |multiset(b)| == |b|;
    assert a[0] in multiset(b) && b[0] in multiset(a);
    FirstIsLeast(a, b[0]);
    FirstIsLeast(b, a[0]);
    AtMostAntisymmetric(a[0], b[0]);
  }

  lemma WithoutFirst(names: seq<string>)
    requires names != []
    ensures multiset(names[1..]) == multiset(names) - multiset{names[0]}
    ensures Ascending(names) ==> Ascending(names[1..])
  {
    assert names == [names[0]] + names[1..];
  }

  lemma SameTail(a: seq<string>, b: seq<string>)
    requires a != [] && b != [] && a[0] == b[0] && a[1..] == b[1..]
    ensures a == b
  {
    assert a == [a[0]] + a[1..] && b == [b[0]] + b[1..];
  }

  /** No other sequence is: the order of the manifest does not depend on the order of the sources. */
  lemma {:induction false} AscendingIsUnique(a: seq<string>, b: seq<string>)
    requires Ascending(a) && Ascending(b) && multiset(a) == multiset(b)
    ensures a == b
  {
    if a == [] {
      assert |b| == |multiset(b)|;
    } else {
      SameFirst(a, b);
      WithoutFirst(a);
      WithoutFirst(b);
      AscendingIsUnique(a[1..], b[1..]);
      SameTail(a, b);
    }
  }
}
