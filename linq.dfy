/** The LINQ operators the services and controllers chain: Where, Skip, Take and the stable OrderBy. */
module Linq {
  import opened Base

  /** `Where(p)`: the elements satisfying `p`, in their original order. */
  function Where<T>(s: seq<T>, p: T -> bool): (r: seq<T>)
    ensures |r| <= |s|
    ensures forall i :: 0 <= i < |r| ==> p(r[i])
  {
    if s == [] then [] else (if p(s[0]) then [s[0]] else []) + Where(s[1..], p)
  }

  /** `Where` keeps every occurrence of an element satisfying `p` and nothing else. */
  lemma {:induction false} WhereCount<T>(s: seq<T>, p: T -> bool, x: T)
    ensures multiset(Where(s, p))[x] == if p(x) then multiset(s)[x] else 0
    ensures x in Where(s, p) <==> x in s && p(x)
  {
    if s != [] {
      WhereCount(s[1..], p, x);
      var head := if p(s[0]) then [s[0]] else [];
      assert Where(s, p) == head + Where(s[1..], p);
      assert multiset(Where(s, p)) == multiset(head) + multiset(Where(s[1..], p));
      assert s == [s[0]] + s[1..];
      assert multiset(s) == multiset([s[0]]) + multiset(s[1..]);
    }
  }

  /** Filtering distributes over concatenation, so it keeps the relative order of what it keeps. */
  lemma {:induction false} WhereConcat<T>(a: seq<T>, b: seq<T>, p: T -> bool)
    ensures Where(a + b, p) == Where(a, p) + Where(b, p)
  {
    if a == [] {
      assert a + b == b;
    } else {
      assert (a + b)[0] == a[0];
      assert (a + b)[1..] == a[1..] + b;
      WhereConcat(a[1..], b, p);
    }
  }

  /** `Select(f)`: `f` applied to every element, in order. */
  function Select<T, U>(s: seq<T>, f: T -> U): (r: seq<U>)
    ensures |r| == |s|
    ensures forall i :: 0 <= i < |s| ==> r[i] == f(s[i])
  {
    if s == [] then [] else [f(s[0])] + Select(s[1..], f)
  }

  lemma SelectConcat<T, U>(a: seq<T>, b: seq<T>, f: T -> U)
    ensures Select(a + b, f) == Select(a, f) + Select(b, f)
  {
    assert forall i :: 0 <= i < |a| ==> (a + b)[i] == a[i];
    assert forall i :: |a| <= i < |a| + |b| ==> (a + b)[i] == b[i - |a|];
  }

  /** `Skip(n)`; a count of zero or less skips nothing. */
  function Skip<T>(s: seq<T>, n: int): (r: seq<T>)
    ensures n <= 0 ==> r == s
    ensures 0 <= n <= |s| ==> r == s[n..]
    ensures n >= |s| ==> r == []
  {
    if n <= 0 then s else s[Min(n, |s|)..]
  }

  /** `Take(n)`; a count of zero or less takes nothing. */
  function Take<T>(s: seq<T>, n: int): (r: seq<T>)
    ensures n <= 0 ==> r == []
    ensures 0 <= n <= |s| ==> r == s[..n]
    ensures n >= |s| ==> r == s
  {
    if n <= 0 then [] else s[..Min(n, |s|)]
  }

  // ---------------------------------------------------------------------
  // Sort keys. A culture's string order is modelled as its sort key (a
  // sequence of weights compared lexicographically, as .NET's SortKey is);
  // dates and numbers are keys of length one.

  /** Lexicographic order on sort keys. */
  predicate LexLe(a: seq<int>, b: seq<int>) {
    a == [] || (b != [] && (a[0] < b[0] || (a[0] == b[0] && LexLe(a[1..], b[1..]))))
  }

  lemma {:induction false} LexLeReflexive(a: seq<int>)
    ensures LexLe(a, a)
  {
    if a != [] { LexLeReflexive(a[1..]); }
  }

  lemma {:induction false} LexLeTotal(a: seq<int>, b: seq<int>)
    ensures LexLe(a, b) || LexLe(b, a)
  {
    if a != [] && b != [] && a[0] == b[0] { LexLeTotal(a[1..], b[1..]); }
  }

  lemma {:induction false} LexLeAntisymmetric(a: seq<int>, b: seq<int>)
    requires LexLe(a, b) && LexLe(b, a)
    ensures a == b
  {
    if a != [] && b != [] {
      LexLeAntisymmetric(a[1..], b[1..]);
      assert a == [a[0]] + a[1..] && b == [b[0]] + b[1..];
    }
  }

  lemma {:induction false} LexLeTransitive(a: seq<int>, b: seq<int>, c: seq<int>)
    requires LexLe(a, b) && LexLe(b, c)
    ensures LexLe(a, c)
  {
    if a != [] && b != [] && c != [] && a[0] == b[0] == c[0] {
      LexLeTransitive(a[1..], b[1..], c[1..]);
    }
  }

  /** The order a sort by key produces: ascending, or descending when `desc`. */
  predicate Before(a: seq<int>, b: seq<int>, desc: bool) {
    if desc then LexLe(b, a) else LexLe(a, b)
  }

  predicate Sorted<T>(s: seq<T>, key: T -> seq<int>, desc: bool) {
    forall i, j :: 0 <= i < j < |s| ==> Before(key(s[i]), key(s[j]), desc)
  }

  /** The elements whose key is exactly `k`. */
  function KeyIs<T>(key: T -> seq<int>, k: seq<int>): T -> bool {
    x => key(x) == k
  }

  /** Putting in front an element that sorts before everything keeps a sequence sorted. */
  lemma ConsSorted<T>(x: T, t: seq<T>, key: T -> seq<int>, desc: bool)
    requires Sorted(t, key, desc)
    requires forall j :: 0 <= j < |t| ==> Before(key(x), key(t[j]), desc)
    ensures Sorted([x] + t, key, desc)
  {
    var r := [x] + t;
    forall i, j | 0 <= i < j < |r| ensures Before(key(r[i]), key(r[j]), desc) {
      assert r[j] == t[j - 1];
      if i > 0 { assert r[i] == t[i - 1]; }
    }
  }

  /** Places `x` after every element that sorts strictly before it and before all others. */
  function Insert<T>(x: T, t: seq<T>, key: T -> seq<int>, desc: bool): (r: seq<T>)
    ensures multiset(r) == multiset(t) + multiset{x}
    ensures Sorted(t, key, desc) ==> Sorted(r, key, desc)
  {
    if t == [] then [x]
    else if Before(key(x), key(t[0]), desc) then
      InsertFront(x, t, key, desc);
      [x] + t
    else
      var rest := Insert(x, t[1..], key, desc);
      assert t == [t[0]] + t[1..];
      InsertBehind(x, t, rest, key, desc);
      [t[0]] + rest
  }

  lemma InsertFront<T>(x: T, t: seq<T>, key: T -> seq<int>, desc: bool)
    requires t != [] && Before(key(x), key(t[0]), desc)
    ensures Sorted(t, key, desc) ==> Sorted([x] + t, key, desc)
  {
    if Sorted(t, key, desc) {
      forall j | 0 <= j < |t| ensures Before(key(x), key(t[j]), desc) {
        if j > 0 {
          if desc { LexLeTransitive(key(t[j]), key(t[0]), key(x)); }
          else { LexLeTransitive(key(x), key(t[0]), key(t[j])); }
        }
      }
      ConsSorted(x, t, key, desc);
    }
  }

  lemma InsertBehind<T>(x: T, t: seq<T>, rest: seq<T>, key: T -> seq<int>, desc: bool)
    requires t != [] && !Before(key(x), key(t[0]), desc)
    requires multiset(rest) == multiset(t[1..]) + multiset{x}
    requires Sorted(t[1..], key, desc) ==> Sorted(rest, key, desc)
    ensures Sorted(t, key, desc) ==> Sorted([t[0]] + rest, key, desc)
  {
    if Sorted(t, key, desc) {
      assert Before(key(t[0]), key(x), desc) by { LexLeTotal(key(x), key(t[0])); }
      assert Sorted(t[1..], key, desc);
      forall j | 0 <= j < |rest| ensures Before(key(t[0]), key(rest[j]), desc) {
        assert rest[j] in multiset(rest);
        if rest[j] != x {
          assert rest[j] in multiset(t[1..]);
          var m :| 0 <= m < |t[1..]| && t[1..][m] == rest[j];
          assert t[m + 1] == rest[j];
        }
      }
      ConsSorted(t[0], rest, key, desc);
    }
  }

  /**
   * `OrderBy(key)` / `OrderByDescending(key)`: LINQ's stable sort. Elements with equal keys keep
   * their input order (see OrderByStable).
   */
  function OrderBy<T>(s: seq<T>, key: T -> seq<int>, desc: bool): (r: seq<T>)
    ensures multiset(r) == multiset(s)
    ensures Sorted(r, key, desc)
  {
    if s == [] then []
    else
      assert s == [s[0]] + s[1..];
      Insert(s[0], OrderBy(s[1..], key, desc), key, desc)
  }

  lemma {:induction false} InsertKeyClass<T>(x: T, t: seq<T>, key: T -> seq<int>, desc: bool, k: seq<int>)
    ensures Where(Insert(x, t, key, desc), KeyIs(key, k))
         == if key(x) == k then [x] + Where(t, KeyIs(key, k)) else Where(t, KeyIs(key, k))
  {
    var p := KeyIs(key, k);
    if t == [] {
      WhereCons(x, [], p);
    } else if Before(key(x), key(t[0]), desc) {
      WhereCons(x, t, p);
    } else {
      var rest := Insert(x, t[1..], key, desc);
      InsertKeyClass(x, t[1..], key, desc, k);
      WhereCons(t[0], rest, p);
      assert t == [t[0]] + t[1..];
      WhereCons(t[0], t[1..], p);
      if key(t[0]) == key(x) { LexLeReflexive(key(x)); }
    }
  }

  lemma WhereCons<T>(h: T, s: seq<T>, p: T -> bool)
    ensures Where([h] + s, p) == (if p(h) then [h] else []) + Where(s, p)
  {
    assert ([h] + s)[1..] == s;
  }

  /** Stability: for every key, the elements with that key appear in the same order as in the input. */
  lemma {:induction false} OrderByStable<T>(s: seq<T>, key: T -> seq<int>, desc: bool, k: seq<int>)
    ensures Where(OrderBy(s, key, desc), KeyIs(key, k)) == Where(s, KeyIs(key, k))
  {
    if s != [] {
      OrderByStable(s[1..], key, desc, k);
      InsertKeyClass(s[0], OrderBy(s[1..], key, desc), key, desc, k);
    }
  }

  /** The first element of a sorted sequence sorts before every element. */
  lemma SortedHead<T>(s: seq<T>, key: T -> seq<int>, desc: bool, x: T)
    requires Sorted(s, key, desc) && x in s
    ensures Before(key(s[0]), key(x), desc)
  {
    var m :| 0 <= m < |s| && s[m] == x;
    if m == 0 { LexLeReflexive(key(x)); }
  }

  /** In a non-empty sorted sequence, the elements with the head's key start with the head. */
  lemma WhereHead<T>(s: seq<T>, key: T -> seq<int>, k: seq<int>)
    requires s != []
    ensures Where(s, KeyIs(key, k)) == (if key(s[0]) == k then [s[0]] else []) + Where(s[1..], KeyIs(key, k))
  {
  }

  /** If `r2` holds the element heading `r1` (found through its key class), `r2`'s head sorts before it. */
  lemma HeadBefore<T>(r1: seq<T>, r2: seq<T>, key: T -> seq<int>, desc: bool)
    requires r1 != [] && Sorted(r2, key, desc)
    requires Where(r1, KeyIs(key, key(r1[0]))) == Where(r2, KeyIs(key, key(r1[0])))
    ensures r2 != [] && Before(key(r2[0]), key(r1[0]), desc)
  {
    WhereCount(r1, KeyIs(key, key(r1[0])), r1[0]);
    WhereCount(r2, KeyIs(key, key(r1[0])), r1[0]);
    SortedHead(r2, key, desc, r1[0]);
  }

  /** Two sorted sequences with the same per-key order start with the same element. */
  lemma SameHead<T>(r1: seq<T>, r2: seq<T>, key: T -> seq<int>, desc: bool)
    requires r1 != [] && r2 != []
    requires Sorted(r1, key, desc) && Sorted(r2, key, desc)
    requires Where(r1, KeyIs(key, key(r1[0]))) == Where(r2, KeyIs(key, key(r1[0])))
    requires Where(r1, KeyIs(key, key(r2[0]))) == Where(r2, KeyIs(key, key(r2[0])))
    ensures r1[0] == r2[0]
  {
    HeadBefore(r1, r2, key, desc);
    HeadBefore(r2, r1, key, desc);
    LexLeAntisymmetric(key(r1[0]), key(r2[0]));
    WhereHead(r1, key, key(r1[0]));
    WhereHead(r2, key, key(r1[0]));
    assert Where(r1, KeyIs(key, key(r1[0])))[0] == r1[0];
  }

  /**
   * Sortedness and stability determine the result: any two sorted sequences that list the
   * elements of each key in the same order are equal. So OrderBy is THE stable sort.
   */
  lemma {:induction false} SortedStableUnique<T>(r1: seq<T>, r2: seq<T>, key: T -> seq<int>, desc: bool)
    requires Sorted(r1, key, desc) && Sorted(r2, key, desc)
    requires forall k :: Where(r1, KeyIs(key, k)) == Where(r2, KeyIs(key, k))
    ensures r1 == r2
    decreases |r1| + |r2|
  {
    if r1 == [] && r2 == [] {
    } else if r1 == [] || r2 == [] {
      var x := if r1 == [] then r2[0] else r1[0];
      WhereCount(r1, KeyIs(key, key(x)), x);
      WhereCount(r2, KeyIs(key, key(x)), x);
    } else {
      assert Where(r1, KeyIs(key, key(r1[0]))) == Where(r2, KeyIs(key, key(r1[0])));
      assert Where(r1, KeyIs(key, key(r2[0]))) == Where(r2, KeyIs(key, key(r2[0])));
      SameHead(r1, r2, key, desc);
      forall k ensures Where(r1[1..], KeyIs(key, k)) == Where(r2[1..], KeyIs(key, k)) {
        assert Where(r1, KeyIs(key, k)) == Where(r2, KeyIs(key, k));
        WhereHead(r1, key, k);
        WhereHead(r2, key, k);
        var h := if key(r1[0]) == k then [r1[0]] else [];
        assert (h + Where(r1[1..], KeyIs(key, k)))[|h|..] == Where(r1[1..], KeyIs(key, k));
        assert (h + Where(r2[1..], KeyIs(key, k)))[|h|..] == Where(r2[1..], KeyIs(key, k));
      }
      SortedStableUnique(r1[1..], r2[1..], key, desc);
      assert r1 == [r1[0]] + r1[1..] && r2 == [r2[0]] + r2[1..];
    }
  }
}
