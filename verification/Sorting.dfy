/** Sorting of id lists, as far as the model needs it: the result depends only on
    the multiset of elements. */
module Sorting {

  ghost predicate NonDecreasing(q: seq<nat>) {
    forall i, j :: 0 <= i <= j < |q| ==> q[i] <= q[j]
  }

  function Insert(x: nat, q: seq<nat>): (r: seq<nat>)
    ensures |r| == |q| + 1
  {
    if q == [] || x <= q[0] then [x] + q else [q[0]] + Insert(x, q[1..])
  }

  lemma {:induction false} InsertElements(x: nat, q: seq<nat>)
    ensures multiset(Insert(x, q)) == multiset{x} + multiset(q)
  {
    if !(q == [] || x <= q[0]) {
      InsertElements(x, q[1..]);
      assert q == [q[0]] + q[1..];
    }
  }

  lemma InsertMember(x: nat, q: seq<nat>, y: nat)
    ensures y in Insert(x, q) <==> y == x || y in q
  {
    InsertElements(x, q);
    assert y in Insert(x, q) <==> y in multiset(Insert(x, q));
    assert y in q <==> y in multiset(q);
  }

  lemma {:induction false} InsertSorted(x: nat, q: seq<nat>)
    requires NonDecreasing(q)
    ensures NonDecreasing(Insert(x, q))
  {
    if !(q == [] || x <= q[0]) {
      var rest := Insert(x, q[1..]);
      InsertSorted(x, q[1..]);
      forall k | 0 <= k < |rest| ensures q[0] <= rest[k] {
        InsertMember(x, q[1..], rest[k]);
      }
    }
  }

  function Sorted(q: seq<nat>): (r: seq<nat>)
    ensures |r| == |q|
  {
    if q == [] then [] else Insert(q[0], Sorted(q[1..]))
  }

  lemma {:induction false} SortedSorts(q: seq<nat>)
    ensures multiset(Sorted(q)) == multiset(q) && NonDecreasing(Sorted(q))
  {
    if q != [] {
      SortedSorts(q[1..]);
      InsertElements(q[0], Sorted(q[1..]));
      InsertSorted(q[0], Sorted(q[1..]));
      assert q == [q[0]] + q[1..];
    }
  }

  lemma SameHead(p: seq<nat>, q: seq<nat>)
    requires NonDecreasing(p) && NonDecreasing(q) && multiset(p) == multiset(q) && p != []
    ensures q != [] && p[0] == q[0]
  {
    assert p[0] in multiset(q);
    assert q[0] in multiset(p);
    assert q[0] in p && p[0] in q;
  }

  lemma TailElements(p: seq<nat>)
    requires p != []
    ensures p == [p[0]] + p[1..] && multiset(p[1..]) == multiset(p) - multiset{p[0]}
  {
    assert p == [p[0]] + p[1..];
  }

  lemma {:induction false} SortedUnique(p: seq<nat>, q: seq<nat>)
    requires NonDecreasing(p) && NonDecreasing(q) && multiset(p) == multiset(q)
    ensures p == q
  {
    if p == [] {
      assert multiset(q) == multiset{};
      assert |multiset(q)| == |q|;
    } else {
      SameHead(p, q);
      TailElements(p);
      TailElements(q);
      SortedUnique(p[1..], q[1..]);
    }
  }

  /** Sorted lists agree exactly when the lists have the same elements equally often. */
  lemma SortedIffSameElements(p: seq<nat>, q: seq<nat>)
    ensures Sorted(p) == Sorted(q) <==> multiset(p) == multiset(q)
  {
    SortedSorts(p);
    SortedSorts(q);
    if multiset(p) == multiset(q) {
      SortedUnique(Sorted(p), Sorted(q));
    }
  }

  lemma SortedTwice(q: seq<nat>)
    ensures Sorted(Sorted(q)) == Sorted(q)
  {
    SortedSorts(q);
    SortedIffSameElements(Sorted(q), q);
  }

  function Least(q: seq<nat>): (m: nat)
    requires q != []
    ensures m in q && forall x :: x in q ==> m <= x
  {
    if |q| == 1 then q[0]
    else
      var m := Least(q[1..]);
      assert q == [q[0]] + q[1..];
      if q[0] <= m then q[0] else m
  }

  /** The least element is the first after sorting. */
  lemma LeastIsFirst(q: seq<nat>)
    requires q != []
    ensures Sorted(q) != [] && Sorted(q)[0] == Least(q)
  {
    var s := Sorted(q);
    SortedSorts(q);
    assert Least(q) in multiset(q) && s[0] in multiset(s);
    assert Least(q) in s && s[0] in q;
  }
}
