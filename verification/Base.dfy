/** Values shared by the whole model: ascending sequences stand for the standard
    library's ordered sets, and a few facts about them. */
module Base {

  ghost function ToSet<T>(q: seq<T>): set<T>
  {
    set x | x in q
  }

  /** Sorted and without duplicates. */
  ghost predicate StrictlyAscending(q: seq<nat>) {
    forall i, j :: 0 <= i < j < |q| ==> q[i] < q[j]
  }

  ghost predicate Distinct<T>(q: seq<T>) {
    forall i, j :: 0 <= i < j < |q| ==> q[i] != q[j]
  }

  /** Offsets, displacements and distributions: never decreasing. */
  ghost predicate Monotone(q: seq<nat>) {
    forall i, j :: 0 <= i <= j < |q| ==> q[i] <= q[j]
  }

  lemma MonotoneSnoc(q: seq<nat>, v: nat)
    requires Monotone(q) && (q != [] ==> q[|q| - 1] <= v)
    ensures Monotone(q + [v])
  {}

  predicate IsMinimum(s: set<nat>, m: nat) {
    m in s && forall x :: x in s ==> m <= x
  }

  lemma {:induction false} HasMinimum(s: set<nat>)
    requires s != {}
    ensures exists m :: IsMinimum(s, m)
  {
    var k :| k in s;
    var rest := s - {k};
    assert forall x :: x in s ==> x == k || x in rest;
    if rest == {} {
      assert IsMinimum(s, k);
    } else {
      HasMinimum(rest);
      var m :| IsMinimum(rest, m);
      assert IsMinimum(s, if m < k then m else k);
    }
  }

  function Minimum(s: set<nat>): (m: nat)
    requires s != {}
    ensures m in s && forall x :: x in s ==> m <= x
  {
    HasMinimum(s);
    var m :| m in s && IsMinimum(s, m);
    m
  }

  /** The iteration order of an ordered set: its elements, smallest first. */
  function Ascending(s: set<nat>): (q: seq<nat>)
    ensures StrictlyAscending(q)
    ensures forall x :: x in q <==> x in s
    ensures |q| == |s|
  {
    if s == {} then [] else
      var m := Minimum(s);
      var rest := Ascending(s - {m});
      assert forall i :: 0 <= i < |rest| ==> rest[i] in s - {m};
      [m] + rest
  }

  /** Sorting and removing duplicates, as std::sort followed by std::unique. */
  function SortUnique(q: seq<nat>): (r: seq<nat>)
    ensures StrictlyAscending(r)
    ensures forall x :: x in r <==> x in q
  {
    Ascending(set x | x in q)
  }

  /** An ascending sequence is determined by its elements. */
  lemma {:induction false} AscendingUnique(p: seq<nat>, q: seq<nat>)
    requires StrictlyAscending(p) && StrictlyAscending(q)
    requires forall x :: x in p <==> x in q
    ensures p == q
  {
    assert q != [] ==> q[0] in p;
    if p != [] {
      assert p[0] in q && q != [];
      assert q[0] in p;
      assert p[0] == q[0];
      forall x ensures x in p[1..] <==> x in q[1..] {
        if x in p[1..] { var i :| 1 <= i < |p| && p[i] == x; assert x in q; assert x != q[0]; }
        if x in q[1..] { var i :| 1 <= i < |q| && q[i] == x; assert x in p; assert x != p[0]; }
      }
      AscendingUnique(p[1..], q[1..]);
      assert p == [p[0]] + p[1..] && q == [q[0]] + q[1..];
    }
  }

  /** The next element while iterating an ascending sequence. */
  lemma NextElement(q: seq<nat>, i: nat)
    requires StrictlyAscending(q) && i < |q|
    ensures q[i] in q && q[i] !in q[..i] && q[..i + 1] == q[..i] + [q[i]]
    ensures forall x :: x in q[..i] ==> x < q[i]
  {}

  /** Appending something larger keeps a sequence ascending. */
  lemma AscendingSnoc(q: seq<nat>, x: nat)
    requires StrictlyAscending(q) && forall y :: y in q ==> y < x
    ensures StrictlyAscending(q + [x])
    ensures forall y :: y in q + [x] <==> y in q || y == x
  {
    assert forall k :: 0 <= k < |q| ==> q[k] in q;
  }

  lemma AscendingDistinct(q: seq<nat>)
    requires StrictlyAscending(q)
    ensures Distinct(q)
  {}

  lemma {:induction false} DistinctSize<T>(q: seq<T>)
    requires Distinct(q)
    ensures |ToSet(q)| == |q|
  {
    if q != [] {
      var front := q[..|q| - 1];
      DistinctSize(front);
      assert q == front + [q[|q| - 1]] && q[|q| - 1] !in front;
      assert ToSet(q) == ToSet(front) + {q[|q| - 1]};
    }
  }

  lemma {:induction false} SubsetSize<T>(a: set<T>, b: set<T>)
    requires a <= b
    ensures |a| <= |b|
  {
    if x :| x in a {
      SubsetSize(a - {x}, b - {x});
    }
  }

  /** Concatenation of blocks in order. */
  function Flatten<T>(blocks: seq<seq<T>>): seq<T>
  {
    if blocks == [] then [] else blocks[0] + Flatten(blocks[1..])
  }

  lemma {:induction false} FlattenAppend<T>(a: seq<seq<T>>, b: seq<seq<T>>)
    ensures Flatten(a + b) == Flatten(a) + Flatten(b)
  {
    if a == [] {
      assert a + b == b;
    } else {
      assert (a + b)[1..] == a[1..] + b;
      FlattenAppend(a[1..], b);
    }
  }

  lemma FlattenSnoc<T>(a: seq<seq<T>>, b: seq<T>)
    ensures Flatten(a + [b]) == Flatten(a) + b
  {
    FlattenAppend(a, [b]);
    assert Flatten([b]) == b + Flatten([b][1..]);
  }
}
