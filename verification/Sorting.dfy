/** Sorting by a comparator, as `Array.prototype.sort` does: stable, negative means first. */
module Sorting {
  import opened Wrappers

  function Insert<T>(cmp: (T, T) -> real, e: T, es: seq<T>): (r: seq<T>)
    ensures |r| == |es| + 1
  {
    if es == [] || cmp(e, es[0]) <= 0.0 then [e] + es else [es[0]] + Insert(cmp, e, es[1..])
  }

  function SortBy<T>(cmp: (T, T) -> real, es: seq<T>): (r: seq<T>)
    ensures |r| == |es|
  {
    if es == [] then [] else Insert(cmp, es[0], SortBy(cmp, es[1..]))
  }

  /** On these elements the comparator is a strict total order. */
  ghost predicate Consistent<T(!new)>(cmp: (T, T) -> real, dom: iset<T>) {
    && (forall a, b | a in dom && b in dom && a != b :: cmp(a, b) < 0.0 <==> cmp(b, a) > 0.0)
    && (forall a, b | a in dom && b in dom && a != b :: cmp(a, b) != 0.0)
    && (forall a, b, c | a in dom && b in dom && c in dom && a != c && cmp(a, b) < 0.0
        && cmp(b, c) < 0.0 :: cmp(a, c) < 0.0)
  }

  ghost predicate SortedBy<T(!new)>(cmp: (T, T) -> real, es: seq<T>) {
    forall i, j | 0 <= i < j < |es| :: cmp(es[i], es[j]) < 0.0
  }

  ghost predicate Within<T(!new)>(es: seq<T>, dom: iset<T>) {
    forall i | 0 <= i < |es| :: es[i] in dom
  }

  lemma {:induction false} InsertMembers<T(!new)>(cmp: (T, T) -> real, e: T, es: seq<T>)
    ensures forall x :: x in Insert(cmp, e, es) <==> x == e || x in es
  {
    if es == [] || cmp(e, es[0]) <= 0.0 {
    } else {
      InsertMembers(cmp, e, es[1..]);
    }
  }

  lemma {:induction false} HeadBefore<T(!new)>(cmp: (T, T) -> real, es: seq<T>, x: T)
    requires es != [] && SortedBy(cmp, es) && x in es[1..]
    ensures cmp(es[0], x) < 0.0
  {
    var k :| 0 <= k < |es[1..]| && es[1..][k] == x;
    assert es[k + 1] == x;
  }

  lemma {:induction false} SortedCons<T(!new)>(cmp: (T, T) -> real, e: T, es: seq<T>)
    requires SortedBy(cmp, es) && forall x | x in es :: cmp(e, x) < 0.0
    ensures SortedBy(cmp, [e] + es)
  {
  }

  lemma {:induction false} InsertSorted<T(!new)>(cmp: (T, T) -> real, e: T, es: seq<T>, dom: iset<T>)
    requires Consistent(cmp, dom) && Within(es, dom) && e in dom && e !in es && SortedBy(cmp, es) && Distinct(es)
    ensures SortedBy(cmp, Insert(cmp, e, es))
  {
    if es == [] {
    } else if cmp(e, es[0]) <= 0.0 {
      assert cmp(e, es[0]) < 0.0;
      forall x | x in es ensures cmp(e, x) < 0.0 {
        if x != es[0] {
          assert x in es[1..];
          HeadBefore(cmp, es, x);
        }
      }
      SortedCons(cmp, e, es);
    } else {
      InsertSorted(cmp, e, es[1..], dom);
      InsertMembers(cmp, e, es[1..]);
      assert cmp(es[0], e) < 0.0;
      forall x | x in Insert(cmp, e, es[1..]) ensures cmp(es[0], x) < 0.0 {
        if x != e {
          HeadBefore(cmp, es, x);
        }
      }
      SortedCons(cmp, es[0], Insert(cmp, e, es[1..]));
    }
  }

  lemma {:induction false} InsertDistinct<T(!new)>(cmp: (T, T) -> real, e: T, es: seq<T>)
    requires Distinct(es) && e !in es
    ensures Distinct(Insert(cmp, e, es))
  {
    if es == [] || cmp(e, es[0]) <= 0.0 {
    } else {
      InsertDistinct(cmp, e, es[1..]);
      InsertMembers(cmp, e, es[1..]);
      var rest := Insert(cmp, e, es[1..]);
      forall j | 0 <= j < |rest| ensures es[0] != rest[j] {
        assert rest[j] in rest;
      }
    }
  }

  /** The result has the same elements, each once, in the comparator's order. */
  lemma {:induction false} SortByIsSort<T(!new)>(cmp: (T, T) -> real, es: seq<T>, dom: iset<T>)
    requires Consistent(cmp, dom) && Within(es, dom) && Distinct(es)
    ensures SortedBy(cmp, SortBy(cmp, es)) && Distinct(SortBy(cmp, es)) && Within(SortBy(cmp, es), dom)
    ensures forall x :: x in SortBy(cmp, es) <==> x in es
  {
    if es != [] {
      SortByIsSort(cmp, es[1..], dom);
      var rest := SortBy(cmp, es[1..]);
      assert es[0] !in es[1..];
      InsertSorted(cmp, es[0], rest, dom);
      InsertDistinct(cmp, es[0], rest);
      InsertMembers(cmp, es[0], rest);
      var r := SortBy(cmp, es);
      forall i | 0 <= i < |r| ensures r[i] in dom {
        assert r[i] in r;
      }
    }
  }

  lemma {:induction false} TailMembers<T(!new)>(es: seq<T>)
    requires es != [] && Distinct(es)
    ensures forall x :: x in es[1..] <==> x in es && x != es[0]
  {
    assert es == [es[0]] + es[1..];
  }

  lemma {:induction false} SameHead<T(!new)>(cmp: (T, T) -> real, a: seq<T>, b: seq<T>, dom: iset<T>)
    requires Consistent(cmp, dom) && Within(a, dom) && Within(b, dom) && a != [] && b != []
    requires SortedBy(cmp, a) && SortedBy(cmp, b) && a[0] in b && b[0] in a
    ensures a[0] == b[0]
  {
    var k :| 0 <= k < |b| && b[k] == a[0];
    var m :| 0 <= m < |a| && a[m] == b[0];
    if k > 0 && m > 0 {
      assert cmp(b[0], b[k]) < 0.0 && cmp(a[0], a[m]) < 0.0;
    }
  }

  /** A set of elements has only one sorted listing. */
  lemma {:induction false} SortedUnique<T(!new)>(cmp: (T, T) -> real, a: seq<T>, b: seq<T>, dom: iset<T>)
    requires Consistent(cmp, dom) && Within(a, dom) && Within(b, dom)
    requires SortedBy(cmp, a) && SortedBy(cmp, b) && Distinct(a) && Distinct(b)
    requires forall x :: x in a <==> x in b
    ensures a == b
  {
    assert b != [] ==> b[0] in b;
    if a != [] {
      assert a[0] in b;
      assert b[0] in a;
      SameHead(cmp, a, b, dom);
      TailMembers(a);
      TailMembers(b);
      SortedUnique(cmp, a[1..], b[1..], dom);
      assert a == [a[0]] + a[1..] && b == [b[0]] + b[1..];
    }
  }

  // ----- Any comparator -----

  ghost function Elements<T(!new)>(es: seq<T>): iset<T> {
    iset e | e in es
  }

  lemma {:induction false} SortMembers<T(!new)>(cmp: (T, T) -> real, es: seq<T>)
    ensures forall x :: x in SortBy(cmp, es) <==> x in es
  {
    if es != [] {
      SortMembers(cmp, es[1..]);
      InsertMembers(cmp, es[0], SortBy(cmp, es[1..]));
      assert es == [es[0]] + es[1..];
    }
  }

  lemma {:induction false} SortDistinct<T(!new)>(cmp: (T, T) -> real, es: seq<T>)
    requires Distinct(es)
    ensures Distinct(SortBy(cmp, es))
  {
    if es != [] {
      SortDistinct(cmp, es[1..]);
      SortMembers(cmp, es[1..]);
      assert es[0] !in es[1..];
      InsertDistinct(cmp, es[0], SortBy(cmp, es[1..]));
    }
  }

  /** `y` stands somewhere before `x`. */
  ghost predicate Precedes<T(!new)>(es: seq<T>, y: T, x: T) {
    exists i, j :: 0 <= i < j < |es| && es[i] == y && es[j] == x
  }

  lemma {:induction false} PrecedesTail<T(!new)>(e: T, es: seq<T>, y: T, x: T)
    requires Precedes(es, y, x) || (e == y && x in es)
    ensures Precedes([e] + es, y, x)
  {
    var all := [e] + es;
    if Precedes(es, y, x) {
      var i, j :| 0 <= i < j < |es| && es[i] == y && es[j] == x;
      assert all[i + 1] == y && all[j + 1] == x;
    } else {
      var j :| 0 <= j < |es| && es[j] == x;
      assert all[0] == y && all[j + 1] == x;
    }
  }

  lemma {:induction false} InsertKeepsOrder<T(!new)>(cmp: (T, T) -> real, e: T, es: seq<T>, y: T, x: T)
    requires Precedes(es, y, x)
    ensures Precedes(Insert(cmp, e, es), y, x)
  {
    if cmp(e, es[0]) <= 0.0 {
      PrecedesTail(e, es, y, x);
    } else {
      var i, j :| 0 <= i < j < |es| && es[i] == y && es[j] == x;
      assert es[1..][j - 1] == x;
      if i > 0 {
        assert es[1..][i - 1] == y;
        InsertKeepsOrder(cmp, e, es[1..], y, x);
      } else {
        InsertMembers(cmp, e, es[1..]);
      }
      PrecedesTail(es[0], Insert(cmp, e, es[1..]), y, x);
    }
  }

  /** The last two elements keep an order the comparator approves, whatever comes before them. */
  lemma {:induction false} SortKeepsLastTwo<T(!new)>(cmp: (T, T) -> real, es: seq<T>, y: T, x: T)
    requires cmp(y, x) <= 0.0
    ensures Precedes(SortBy(cmp, es + [y, x]), y, x)
  {
    if es == [] {
      var two := [y, x];
      assert es + two == two && two[1..] == [x] && [x][1..] == [];
      assert SortBy(cmp, [x]) == Insert(cmp, x, SortBy(cmp, [])) == [x];
      assert SortBy(cmp, two) == Insert(cmp, y, [x]) == [y] + [x];
      assert ([y] + [x])[0] == y && ([y] + [x])[1] == x;
    } else {
      assert (es + [y, x])[1..] == es[1..] + [y, x];
      SortKeepsLastTwo(cmp, es[1..], y, x);
      InsertKeepsOrder(cmp, es[0], SortBy(cmp, es[1..] + [y, x]), y, x);
    }
  }

  // ----- When sorting ignores the order of its input -----

  /** Any two different elements are compared one way or the other. */
  ghost predicate Antisymmetric<T(!new)>(cmp: (T, T) -> real, dom: iset<T>) {
    forall a, b | a in dom && b in dom && a != b :: cmp(a, b) != 0.0 && (cmp(a, b) < 0.0 <==> cmp(b, a) > 0.0)
  }

  /** No three elements chase each other round. */
  ghost predicate Acyclic<T(!new)>(cmp: (T, T) -> real, dom: iset<T>) {
    forall a, b, c | a in dom && b in dom && c in dom && a != b && b != c && a != c ::
      !(cmp(a, b) < 0.0 && cmp(b, c) < 0.0 && cmp(c, a) < 0.0)
  }

  lemma {:induction false} AcyclicIsConsistent<T(!new)>(cmp: (T, T) -> real, dom: iset<T>)
    requires Antisymmetric(cmp, dom) && Acyclic(cmp, dom)
    ensures Consistent(cmp, dom)
  {
    forall a, b, c | a in dom && b in dom && c in dom && a != c && cmp(a, b) < 0.0 && cmp(b, c) < 0.0
      ensures cmp(a, c) < 0.0
    {
      if a != b && b != c {
        assert !(cmp(a, b) < 0.0 && cmp(b, c) < 0.0 && cmp(c, a) < 0.0);
        assert cmp(a, c) != 0.0 && (cmp(c, a) < 0.0 <==> cmp(a, c) > 0.0);
      }
    }
  }

  lemma {:induction false} ConsistentIsAcyclic<T(!new)>(cmp: (T, T) -> real, dom: iset<T>)
    requires Consistent(cmp, dom)
    ensures Acyclic(cmp, dom)
  {
    forall a, b, c | a in dom && b in dom && c in dom && a != b && b != c && a != c
      ensures !(cmp(a, b) < 0.0 && cmp(b, c) < 0.0 && cmp(c, a) < 0.0)
    {
      assert cmp(c, a) < 0.0 <==> cmp(a, c) > 0.0;
    }
  }

  lemma {:induction false} CycleUnsortable<T(!new)>(cmp: (T, T) -> real, r: seq<T>, a: T, b: T, c: T)
    requires a in r && b in r && c in r && a != b && b != c && a != c
    requires cmp(b, a) > 0.0 && cmp(c, b) > 0.0 && cmp(a, c) > 0.0
    ensures !SortedBy(cmp, r)
  {
    var i :| 0 <= i < |r| && r[i] == a;
    var j :| 0 <= j < |r| && r[j] == b;
    var k :| 0 <= k < |r| && r[k] == c;
  }

  /** `fs` lists the same elements in another order. */
  ghost predicate Permuted<T(!new)>(es: seq<T>, fs: seq<T>) {
    Distinct(es) && Distinct(fs) && forall x :: x in es <==> x in fs
  }

  /** The place of the `k`-th element once places `i` and `j` are left out. */
  function SkipTwo(i: nat, j: nat, k: nat): nat
    requires i < j
  {
    if k < i then k else if k < j - 1 then k + 1 else k + 2
  }

  lemma {:induction false} OthersAndTwo<T(!new)>(r: seq<T>, i: nat, j: nat, os: seq<T>)
    requires Distinct(r) && i < j < |r| && |os| == |r| - 2
    requires forall k: nat | k < |os| :: os[k] == r[SkipTwo(i, j, k)]
    ensures Distinct(os + [r[j], r[i]])
    ensures forall x | x in os + [r[j], r[i]] :: x in r
  {
  }

  lemma {:induction false} PermutedOutOfOrder<T(!new)>(r: seq<T>, i: nat, j: nat) returns (os: seq<T>)
    requires Distinct(r) && i < j < |r|
    ensures Permuted(r, os + [r[j], r[i]])
  {
    os := seq(|r| - 2, k requires 0 <= k < |r| - 2 => r[SkipTwo(i, j, k)]);
    var fs := os + [r[j], r[i]];
    OthersAndTwo(r, i, j, os);
    forall x | x in r ensures x in fs {
      var k :| 0 <= k < |r| && r[k] == x;
      if k == i {
        assert fs[|os| + 1] == x;
      } else if k == j {
        assert fs[|os|] == x;
      } else {
        assert fs[if k < i then k else if k < j then k - 1 else k - 2] == x;
      }
    }
  }

  lemma {:induction false} DistinctOrder<T(!new)>(r: seq<T>, i: nat, j: nat)
    requires Distinct(r) && i < j < |r|
    ensures !Precedes(r, r[j], r[i])
  {
  }

  /** A result that is not sorted is not the result for every order. */
  lemma {:induction false} UnsortedDepends<T(!new)>(cmp: (T, T) -> real, es: seq<T>) returns (fs: seq<T>)
    requires Distinct(es) && Antisymmetric(cmp, Elements(es)) && !SortedBy(cmp, SortBy(cmp, es))
    ensures Permuted(es, fs) && SortBy(cmp, fs) != SortBy(cmp, es)
  {
    var r := SortBy(cmp, es);
    SortMembers(cmp, es);
    SortDistinct(cmp, es);
    var i, j :| 0 <= i < j < |r| && cmp(r[i], r[j]) >= 0.0;
    assert r[i] in r && r[j] in r && r[i] != r[j];
    var os := PermutedOutOfOrder(r, i, j);
    fs := os + [r[j], r[i]];
    SortKeepsLastTwo(cmp, os, r[j], r[i]);
    DistinctOrder(r, i, j);
  }

  /** Sorting gives one result for every order of its input exactly when no three elements form a cycle. */
  lemma {:induction false} SortIgnoresOrderExactly<T(!new)>(cmp: (T, T) -> real, es: seq<T>)
    requires Distinct(es) && Antisymmetric(cmp, Elements(es))
    ensures (forall fs | Permuted(es, fs) :: SortBy(cmp, fs) == SortBy(cmp, es)) <==> Acyclic(cmp, Elements(es))
  {
    var dom := Elements(es);
    if Acyclic(cmp, dom) {
      AcyclicIsConsistent(cmp, dom);
      SortByIsSort(cmp, es, dom);
      forall fs | Permuted(es, fs) ensures SortBy(cmp, fs) == SortBy(cmp, es) {
        SortByIsSort(cmp, fs, dom);
        SortedUnique(cmp, SortBy(cmp, fs), SortBy(cmp, es), dom);
      }
    } else {
      var a, b, c :| a in dom && b in dom && c in dom && a != b && b != c && a != c
                     && cmp(a, b) < 0.0 && cmp(b, c) < 0.0 && cmp(c, a) < 0.0;
      SortMembers(cmp, es);
      CycleUnsortable(cmp, SortBy(cmp, es), a, b, c);
      var fs := UnsortedDepends(cmp, es);
    }
  }
}
