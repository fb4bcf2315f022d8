/** Python's `sorted(..., key=lambda x: x[1])` on a channel's records: a
    stable sort by start sample. */
module StableSort {
  import opened Fragments

  predicate Sorted(s: seq<Fragment>) {
    forall i, j :: 0 <= i < j < |s| ==> s[i].start <= s[j].start
  }

  /** The records of s whose start is k, in the order s lists them. */
  function WithStart(s: seq<Fragment>, k: int): seq<Fragment> {
    if s == [] then []
    else (if s[0].start == k then [s[0]] else []) + WithStart(s[1..], k)
  }

  lemma {:induction false} WithStartAppend(a: seq<Fragment>, b: seq<Fragment>, k: int)
    ensures WithStart(a + b, k) == WithStart(a, k) + WithStart(b, k)
    decreases |a|
  {
    if a == [] {
      assert a + b == b;
    } else {
      var head := if a[0].start == k then [a[0]] else [];
      assert (a + b)[0] == a[0];
      assert (a + b)[1..] == a[1..] + b;
      WithStartAppend(a[1..], b, k);
      assert WithStart(a + b, k) == head + WithStart(a[1..] + b, k);
      assert WithStart(a, k) == head + WithStart(a[1..], k);
    }
  }

  lemma {:induction false} WithStartMember(s: seq<Fragment>, k: int, x: Fragment)
    requires x in WithStart(s, k)
    ensures x in s && x.start == k
    decreases |s|
  {
    if s != [] && !(s[0].start == k && x == s[0]) {
      WithStartMember(s[1..], k, x);
    }
  }

  lemma SortedTail(r: seq<Fragment>)
    requires Sorted(r) && r != []
    ensures Sorted(r[1..])
  {
    forall i, j | 0 <= i < j < |r| - 1 ensures r[1..][i].start <= r[1..][j].start {
      assert r[i + 1].start <= r[j + 1].start;
    }
  }

  lemma SortedCons(y: Fragment, r: seq<Fragment>)
    requires Sorted(r) && (r != [] ==> y.start <= r[0].start)
    ensures Sorted([y] + r)
  {
    forall i, j | 0 <= i < j < |[y] + r| ensures ([y] + r)[i].start <= ([y] + r)[j].start {
      if i == 0 {
        assert r[0].start <= r[j - 1].start;
      }
    }
  }

  /** Places x before the first record whose start is not below x's, so x
      precedes every record of t with the same start. */
  function Insert(x: Fragment, t: seq<Fragment>): (r: seq<Fragment>)
    ensures |r| == |t| + 1 && multiset(r) == multiset(t) + multiset{x}
    ensures r[0] == x || (t != [] && r[0] == t[0])
  {
    if t == [] || x.start <= t[0].start then
      [x] + t
    else
      var rest := Insert(x, t[1..]);
      assert multiset(t) == multiset{t[0]} + multiset(t[1..]) by {
        assert t == [t[0]] + t[1..];
      }
      [t[0]] + rest
  }

  /** Inserting into a sorted sequence keeps it sorted. */
  lemma {:induction false} InsertSorted(x: Fragment, t: seq<Fragment>)
    requires Sorted(t)
    ensures Sorted(Insert(x, t))
    decreases |t|
  {
    if t == [] || x.start <= t[0].start {
      SortedCons(x, t);
    } else {
      SortedTail(t);
      InsertSorted(x, t[1..]);
      var rest := Insert(x, t[1..]);
      assert t[0].start <= rest[0].start by {
        if rest[0] != x {
          assert rest[0] == t[1..][0];
        }
      }
      SortedCons(t[0], rest);
    }
  }

  /** Inserting x adds it in front of the records of t with its start and
      leaves the order of every other start alone. */
  lemma {:induction false} InsertOrder(x: Fragment, t: seq<Fragment>, k: int)
    ensures WithStart(Insert(x, t), k) == (if x.start == k then [x] else []) + WithStart(t, k)
    decreases |t|
  {
    var hx := if x.start == k then [x] else [];
    if t == [] || x.start <= t[0].start {
      assert ([x] + t)[1..] == t;
      assert WithStart([x] + t, k) == hx + WithStart(t, k);
    } else {
      var rest := Insert(x, t[1..]);
      var ht := if t[0].start == k then [t[0]] else [];
      InsertOrder(x, t[1..], k);
      assert ([t[0]] + rest)[1..] == rest;
      assert Insert(x, t) == [t[0]] + rest;
      assert WithStart([t[0]] + rest, k) == ht + WithStart(rest, k);
      assert WithStart(t, k) == ht + WithStart(t[1..], k);
      assert hx == [] || ht == [];
      assert ht + (hx + WithStart(t[1..], k)) == hx + (ht + WithStart(t[1..], k));
    }
  }

  /** Stable sort by start: sorted, a permutation, and for every start value
      the records with that start appear in their original order. */
  function SortByStart(s: seq<Fragment>): (r: seq<Fragment>)
    ensures Sorted(r)
    ensures |r| == |s| && multiset(r) == multiset(s)
    ensures forall k :: WithStart(r, k) == WithStart(s, k)
  {
    if s == [] then []
    else
      var rest := SortByStart(s[1..]);
      assert s == [s[0]] + s[1..];
      InsertSorted(s[0], rest);
      assert forall k :: WithStart(Insert(s[0], rest), k) == WithStart(s, k) by {
        forall k ensures WithStart(Insert(s[0], rest), k) == WithStart(s, k) {
          InsertOrder(s[0], rest, k);
        }
      }
      Insert(s[0], rest)
  }

  /** Sortedness together with the per-start order pins the result down:
      any such sequence is the one SortByStart returns. */
  lemma {:induction false} StableSortUnique(s: seq<Fragment>, r: seq<Fragment>)
    requires Sorted(r)
    requires forall k :: WithStart(r, k) == WithStart(s, k)
    ensures r == SortByStart(s)
  {
    SameOrderEqual(r, SortByStart(s));
  }

  lemma HeadListed(s: seq<Fragment>)
    ensures s != [] ==> WithStart(s, s[0].start) != []
    ensures forall k :: s == [] ==> WithStart(s, k) == []
  {
  }

  /** Two sorted lists with the same records at every start begin with
      the same record. */
  lemma SameHead(a: seq<Fragment>, b: seq<Fragment>)
    requires Sorted(a) && Sorted(b) && a != [] && b != []
    requires forall k :: WithStart(a, k) == WithStart(b, k)
    ensures a[0] == b[0]
  {
    var m, n := a[0].start, b[0].start;
    assert WithStart(a, m)[0] == a[0];
    assert WithStart(b, n)[0] == b[0];
    var y := WithStart(b, m)[0];
    var x := WithStart(a, n)[0];
    WithStartMember(b, m, y);
    WithStartMember(a, n, x);
    var i :| 0 <= i < |b| && b[i] == y;
    var j :| 0 <= j < |a| && a[j] == x;
    assert n <= m;
    assert m <= n;
  }

  /** Dropping the same first record keeps the per-start order equal. */
  lemma SameTail(a: seq<Fragment>, b: seq<Fragment>)
    requires a != [] && b != [] && a[0] == b[0]
    requires forall k :: WithStart(a, k) == WithStart(b, k)
    ensures forall k :: WithStart(a[1..], k) == WithStart(b[1..], k)
  {
    forall k ensures WithStart(a[1..], k) == WithStart(b[1..], k) {
      var head := if a[0].start == k then [a[0]] else [];
      assert WithStart(a, k) == head + WithStart(a[1..], k);
      assert WithStart(b, k) == head + WithStart(b[1..], k);
      assert WithStart(a[1..], k) == WithStart(a, k)[|head|..];
      assert WithStart(b[1..], k) == WithStart(b, k)[|head|..];
    }
  }

  lemma {:induction false} SameOrderEqual(a: seq<Fragment>, b: seq<Fragment>)
    requires Sorted(a) && Sorted(b)
    requires forall k :: WithStart(a, k) == WithStart(b, k)
    ensures a == b
    decreases |a|
  {
    if a == [] || b == [] {
      HeadListed(a);
      HeadListed(b);
    } else {
      SameHead(a, b);
      SameTail(a, b);
      SameOrderEqual(a[1..], b[1..]);
      assert a == [a[0]] + a[1..];
      assert b == [b[0]] + b[1..];
    }
  }

  /** An already sorted list is left exactly as it is. */
  lemma SortedUnchanged(s: seq<Fragment>)
    requires Sorted(s)
    ensures SortByStart(s) == s
  {
    StableSortUnique(s, s);
  }
}
