/** Sums over sequences, for the counting arguments about concurrent steps. */
module Tallies {

  ghost function Tally<A>(f: A -> nat, q: seq<A>): nat {
    if q == [] then 0 else f(q[0]) + Tally(f, q[1..])
  }

  lemma {:induction false} TallyAppend<A>(f: A -> nat, a: seq<A>, b: seq<A>)
    ensures Tally(f, a + b) == Tally(f, a) + Tally(f, b)
  {
    if a == [] {
      assert a + b == b;
    } else {
      assert (a + b)[1..] == a[1..] + b;
      TallyAppend(f, a[1..], b);
    }
  }

  lemma {:induction false} TallyUpdate<A>(f: A -> nat, q: seq<A>, i: nat, x: A)
    requires i < |q|
    ensures Tally(f, q[i := x]) == Tally(f, q) - f(q[i]) + f(x)
    ensures Tally(f, q) >= f(q[i])
  {
    if i > 0 {
      assert q[i := x][1..] == q[1..][i - 1 := x];
      TallyUpdate(f, q[1..], i - 1, x);
    } else {
      assert q[0 := x][1..] == q[1..];
    }
  }

  lemma TallySnoc<A>(f: A -> nat, q: seq<A>, x: A)
    ensures Tally(f, q + [x]) == Tally(f, q) + f(x)
  {
    TallyAppend(f, q, [x]);
    assert Tally(f, [x]) == f(x) + Tally(f, [x][1..]);
  }

  /** A sum is zero exactly when every term is. */
  lemma {:induction false} TallyZero<A>(f: A -> nat, q: seq<A>)
    ensures Tally(f, q) == 0 <==> forall i :: 0 <= i < |q| ==> f(q[i]) == 0
  {
    if q != [] {
      TallyZero(f, q[1..]);
      if forall i :: 0 <= i < |q| ==> f(q[i]) == 0 {
        forall i | 0 <= i < |q| - 1 ensures f(q[1..][i]) == 0 {
          var next := i + 1;
          assert f(q[next]) == 0;
        }
      } else {
        var i :| 0 <= i < |q| && f(q[i]) != 0;
        assert i > 0 ==> q[1..][i - 1] == q[i];
      }
    }
  }
}
