/** Redis stream identifiers, their order, and the id-ordered reads that every stream command performs. */
module StreamIds {

  /** A stream id "ms-seq". */
  datatype ID = ID(ms: nat, counter: nat)

  const ZERO := ID(0, 0)

  predicate Lt(a: ID, b: ID) {
    a.ms < b.ms || (a.ms == b.ms && a.counter < b.counter)
  }

  predicate Le(a: ID, b: ID) {
    a == b || Lt(a, b)
  }

  predicate Sorted(q: seq<ID>) {
    forall i, j :: 0 <= i < j < |q| ==> Lt(q[i], q[j])
  }

  function Elems(q: seq<ID>): set<ID> {
    set x | x in q
  }

  lemma {:induction false} LeastExists(s: set<ID>)
    requires s != {}
    ensures exists m :: m in s && forall x :: x in s ==> Le(m, x)
  {
    var y :| y in s;
    if s == {y} {
      assert y in s && forall x :: x in s ==> Le(y, x);
    } else {
      var rest := s - {y};
      LeastExists(rest);
      var m :| m in rest && forall x :: x in rest ==> Le(m, x);
      assert forall x :: x in s ==> x == y || x in rest;
      if Le(y, m) {
        assert y in s && forall x :: x in s ==> Le(y, x);
      } else {
        assert m in s && forall x :: x in s ==> Le(m, x);
      }
    }
  }

  function Least(s: set<ID>): (m: ID)
    requires s != {}
    ensures m in s && forall x :: x in s ==> Le(m, x)
  {
    LeastExists(s);
    var m :| m in s && forall x :: x in s ==> Le(m, x);
    m
  }

  /** q lists the ids of s in the order Redis lists them. */
  ghost predicate Listing(q: seq<ID>, s: set<ID>) {
    |q| == |s| && Sorted(q) && forall x :: x in q <==> x in s
  }

  lemma {:induction false} ListingExists(s: set<ID>)
    ensures exists q :: Listing(q, s)
  {
    if s == {} {
      assert Listing([], s);
    } else {
      var m := Least(s);
      ListingExists(s - {m});
      var q :| Listing(q, s - {m});
      ListingPrepend(q, s, m);
    }
  }

  lemma ListingPrepend(q: seq<ID>, s: set<ID>, m: ID)
    requires m in s && (forall x :: x in s ==> Le(m, x)) && Listing(q, s - {m})
    ensures Listing([m] + q, s)
  {
    forall i, j | 0 <= i < j < |q| + 1 ensures Lt(([m] + q)[i], ([m] + q)[j]) {
      assert q[j - 1] in s - {m};
    }
  }

  ghost function Ascending(s: set<ID>): (q: seq<ID>)
    ensures Listing(q, s)
  {
    ListingExists(s);
    var q :| Listing(q, s);
    q
  }

  lemma SortedTail(q: seq<ID>)
    requires Sorted(q) && q != []
    ensures Sorted(q[1..]) && forall x :: x in q[1..] <==> x in q && x != q[0]
  {
    forall x | x in q && x != q[0] ensures x in q[1..] {
      var j :| 0 <= j < |q| && q[j] == x;
      assert q[1..][j - 1] == x;
    }
  }

  /** A set has one listing. */
  lemma {:induction false} ListingUnique(p: seq<ID>, q: seq<ID>, s: set<ID>)
    requires Listing(p, s) && Listing(q, s)
    ensures p == q
  {
    if s == {} {
    } else {
      ListingHead(p, s);
      ListingHead(q, s);
      SortedTail(p);
      SortedTail(q);
      ListingUnique(p[1..], q[1..], s - {Least(s)});
    }
  }

  lemma ListingHead(q: seq<ID>, s: set<ID>)
    requires Listing(q, s) && s != {}
    ensures q != [] && q[0] == Least(s)
  {
    assert Least(s) in q;
    assert q[0] in s;
    var i :| 0 <= i < |q| && q[i] == Least(s);
  }

  /** The first n ids of a set, in order: what a command with COUNT n returns. */
  ghost function First(s: set<ID>, n: nat): seq<ID> {
    if |s| <= n then Ascending(s) else Ascending(s)[..n]
  }

  /** x is returned exactly when it does not come after the last id returned. */
  lemma FirstMember(s: set<ID>, n: nat, x: ID)
    requires First(s, n) != []
    ensures var q := First(s, n); x in q <==> x in s && Le(x, q[|q| - 1])
  {
    var a := Ascending(s);
    var q := First(s, n);
    if x in s && Le(x, q[|q| - 1]) {
      var i :| 0 <= i < |a| && a[i] == x;
      assert i < |q|;
      assert q[i] == x;
    }
    if x in q {
      var i :| 0 <= i < |q| && q[i] == x;
      assert a[i] == x;
    }
  }

  lemma FirstSorted(s: set<ID>, n: nat)
    ensures Sorted(First(s, n)) && |First(s, n)| == if |s| <= n then |s| else n
  {
  }

  lemma SortedSplit(q: seq<ID>, n: nat, x: ID)
    requires Sorted(q) && n <= |q|
    ensures Sorted(q[n..])
    ensures x in q[n..] <==> x in q && x !in q[..n]
  {
    if x in q && x !in q[..n] {
      var j :| 0 <= j < |q| && q[j] == x;
      assert q[n..][j - n] == x;
    }
  }

  lemma {:induction false} SortedDistinct(q: seq<ID>)
    requires Sorted(q)
    ensures |Elems(q)| == |q|
  {
    if q == [] {
    } else {
      SortedTail(q);
      SortedDistinct(q[1..]);
      assert Elems(q) == Elems(q[1..]) + {q[0]};
    }
  }

  /** Removing the first n ids leaves the tail of the listing. */
  lemma {:induction false} AscendingAfterFirst(s: set<ID>, n: nat)
    requires n <= |s|
    ensures Ascending(s - Elems(Ascending(s)[..n])) == Ascending(s)[n..]
    ensures |s - Elems(Ascending(s)[..n])| == |s| - n
  {
    var a := Ascending(s);
    var rest := s - Elems(a[..n]);
    forall x ensures x in a[n..] <==> x in rest { SortedSplit(a, n, x); }
    SortedSplit(a, n, ZERO);
    SortedDistinct(a[..n]);
    assert Elems(a[..n]) <= s;
    ListingUnique(a[n..], Ascending(rest), rest);
  }

  /** A sorted part of a set that comes before all the rest is what a bounded read of the set returns. */
  lemma ListingPrefix(ids: seq<ID>, all: set<ID>, left: set<ID>)
    requires left <= all && Listing(ids, all - left) && forall x, y :: x in ids && y in left ==> Lt(x, y)
    ensures ids == First(all, |ids|)
  {
    var rest := Ascending(left);
    var q := ids + rest;
    assert |all| == |all - left| + |left|;
    assert Listing(q, all) by {
      forall i, j | 0 <= i < j < |q| ensures Lt(q[i], q[j]) {
        if i < |ids| <= j { assert q[i] in ids && q[j] in left; }
      }
    }
    ListingUnique(q, Ascending(all), all);
  }

  /** A bounded read, as a server performs it: the smallest remaining id, count times. */
  method FirstOf(all: set<ID>, count: nat) returns (ids: seq<ID>)
    ensures ids == First(all, count)
  {
    var left := all;
    ids := [];
    while left != {} && |ids| < count
      invariant left <= all && |ids| <= count && |ids| + |left| == |all|
      invariant Listing(ids, all - left)
      invariant forall x, y :: x in ids && y in left ==> Lt(x, y)
      decreases left
    {
      var m := Least(left);
      assert all - (left - {m}) == (all - left) + {m};
      forall i | 0 <= i < |ids| ensures Lt(ids[i], m) { assert ids[i] in ids; }
      ids := ids + [m];
      left := left - {m};
    }
    ListingPrefix(ids, all, left);
  }
}
