/** A vector interface over a fixed array of slots, of which the first ones hold
    elements. */
module VectorRef {

  /** A slot is dead until an element is constructed in it. An element that was moved from
      is still alive, but has no value to speak of. */
  datatype Slot<T> = Dead | Hollow | Live(value: T)

  ghost function Values<T>(slots: seq<Slot<T>>): seq<T>
    requires forall k :: 0 <= k < |slots| ==> slots[k].Live?
  {
    seq(|slots|, k requires 0 <= k < |slots| => slots[k].value)
  }

  ghost predicate AllLive<T>(slots: seq<Slot<T>>, lo: nat, hi: nat) {
    hi <= |slots| && forall k :: lo <= k < hi ==> slots[k].Live?
  }

  ghost predicate AllDead<T>(slots: seq<Slot<T>>, lo: nat) {
    forall k :: lo <= k < |slots| ==> slots[k].Dead?
  }

  /** Exactly the slots before end hold elements. */
  ghost predicate InOrder<T>(slots: seq<Slot<T>>, end: nat) {
    end <= |slots| && AllLive(slots, 0, end) && AllDead(slots, end)
  }

  /** The caller has filled the part of the gap that lies behind the old end. */
  ghost predicate GapFilled<T>(slots: seq<Slot<T>>, end: nat, i: nat, n: nat) {
    i <= end && end + n <= |slots| && AllLive(slots, 0, end) &&
    AllLive(slots, end, if n <= end - i then end else i + n) &&
    AllDead(slots, if n <= end - i then end else i + n)
  }

  /** The elements from i on are n slots further; the slots they left are alive. */
  ghost predicate Slid<T>(before: seq<Slot<T>>, after: seq<Slot<T>>, end: nat, i: nat, n: nat)
    requires i <= end && end + n <= |before| == |after|
  {
    (forall k :: 0 <= k < i ==> after[k] == before[k]) &&
    (forall k :: i <= k < end ==> after[k + n] == before[k]) &&
    (forall k :: i <= k < i + n && k < end ==> !after[k].Dead?) &&
    (forall k :: end <= k < i + n ==> after[k] == before[k]) &&
    (forall k :: end + n <= k < |before| ==> after[k] == before[k])
  }

  /** The part of the inserted range that lands behind the old end is in place. */
  ghost predicate Filled<T>(before: seq<Slot<T>>, filled: seq<Slot<T>>, end: nat, i: nat, vs: seq<T>) {
    |filled| == |before| && i <= end && end + |vs| <= |before| &&
    (forall k :: end <= k < i + |vs| ==> filled[k] == Live(vs[k - i])) &&
    forall k :: 0 <= k < |before| && (k < end || i + |vs| <= k) ==> filled[k] == before[k]
  }

  lemma GapIsFilled<T>(before: seq<Slot<T>>, filled: seq<Slot<T>>, end: nat, i: nat, vs: seq<T>)
    requires InOrder(before, end) && Filled(before, filled, end, i, vs)
    ensures GapFilled(filled, end, i, |vs|)
  {}

  /** ... and the other part after the tail has been moved. */
  ghost predicate Finished<T>(slid: seq<Slot<T>>, after: seq<Slot<T>>, end: nat, i: nat, vs: seq<T>) {
    |after| == |slid| && i <= end && end + |vs| <= |slid| &&
    (forall k :: i <= k < i + |vs| && k < end ==> after[k] == Live(vs[k - i])) &&
    forall k :: 0 <= k < |slid| && (k < i || i + |vs| <= k || end <= k) ==> after[k] == slid[k]
  }

  lemma InsertedAt<T>(before: seq<Slot<T>>, filled: seq<Slot<T>>, slid: seq<Slot<T>>, after: seq<Slot<T>>, end: nat,
        i: nat, vs: seq<T>, k: nat)
    requires Filled(before, filled, end, i, vs) && |slid| == |before| && Slid(filled, slid, end, i, |vs|) &&
      Finished(slid, after, end, i, vs)
    requires k < |after|
    ensures after[k] ==
      if k < i then before[k] else if k < i + |vs| then Live(vs[k - i]) else if k < end + |vs| then before[k - |vs|]
        else before[k]
  {
    if i + |vs| <= k < end + |vs| {
      var m := k - |vs|;
      assert slid[m + |vs|] == filled[m];
    }
  }

  /** The three steps of an insertion together. */
  lemma Inserted<T>(before: seq<Slot<T>>, filled: seq<Slot<T>>, slid: seq<Slot<T>>, after: seq<Slot<T>>, end: nat,
        i: nat, vs: seq<T>)
    requires InOrder(before, end) && |slid| == |before|
    requires Filled(before, filled, end, i, vs) && Slid(filled, slid, end, i, |vs|) && Finished(slid, after, end, i, vs)
    ensures InOrder(after, end + |vs|)
    ensures Values(after[..end + |vs|]) == Values(before[..end])[..i] + vs + Values(before[..end])[i..]
  {
    var n := |vs|;
    forall k | 0 <= k < |after|
      ensures after[k] == if k < i then before[k] else if k < i + n then Live(vs[k - i]) else if k < end + n
        then before[k - n] else before[k]
    {
      InsertedAt(before, filled, slid, after, end, i, vs, k);
    }
    forall k | 0 <= k < end + n ensures after[k].Live? {
      if k >= i + n { var m := k - n; assert before[m].Live?; }
    }
    InsertedValues(before, after, end, i, vs);
  }

  lemma InsertedValues<T>(before: seq<Slot<T>>, after: seq<Slot<T>>, end: nat, i: nat, vs: seq<T>)
    requires |before| == |after| && i <= end && end + |vs| <= |after| && AllLive(before, 0, end) &&
      AllLive(after, 0, end + |vs|)
    requires forall k {:trigger after[k]} :: 0 <= k < end + |vs| ==>
      after[k] == if k < i then before[k] else if k < i + |vs| then Live(vs[k - i]) else before[k - |vs|]
    ensures Values(after[..end + |vs|]) == Values(before[..end])[..i] + vs + Values(before[..end])[i..]
  {
    var all, q := Values(after[..end + |vs|]), Values(before[..end]);
    var want := q[..i] + vs + q[i..];
    forall k | 0 <= k < |all| ensures all[k] == want[k] {
      assert all[k] == after[k].value;
      if k < i {
        assert want[k] == q[k] == before[k].value && after[k] == before[k];
      } else if k < i + |vs| {
        assert want[k] == vs[k - i] && after[k] == Live(vs[k - i]);
      } else {
        assert want[k] == q[i..][k - i - |vs|] == q[k - |vs|] == before[k - |vs|].value;
        assert after[k] == before[k - |vs|];
      }
    }
  }

  class Vector<T> {
    const slots: array<Slot<T>>
    var end: nat

    ghost predicate Valid()
      reads this, slots
    {
      InOrder(slots[..], end)
    }

    ghost function Contents(): (q: seq<T>)
      requires Valid()
      reads this, slots
      ensures |q| == end
    {
      Values(slots[..end])
    }

    constructor (capacity: nat)
      ensures Valid() && Contents() == [] && slots.Length == capacity && fresh(slots)
    {
      slots := new Slot<T>[capacity](_ => Dead);
      end := 0;
    }

    // ----- what may be done to one slot ------------------------------------------------------------

    /** Placement of a new element, only where there is none. */
    method Construct(k: nat, v: T)
      requires k < slots.Length && slots[k].Dead?
      modifies slots
      ensures slots[..] == old(slots[..])[k := Live(v)]
    {
      slots[k] := Live(v);
    }

    /** Assignment, only to an element that is alive. */
    method Assign(k: nat, v: T)
      requires k < slots.Length && !slots[k].Dead?
      modifies slots
      ensures slots[..] == old(slots[..])[k := Live(v)]
    {
      slots[k] := Live(v);
    }

    /** Moves the value out; the element stays alive. */
    method MoveOut(k: nat) returns (v: T)
      requires k < slots.Length && slots[k].Live?
      modifies slots
      ensures v == old(slots[k]).value && slots[..] == old(slots[..])[k := Hollow]
    {
      v := slots[k].value;
      slots[k] := Hollow;
    }

    method Destroy(k: nat)
      requires k < slots.Length && !slots[k].Dead?
      modifies slots
      ensures slots[..] == old(slots[..])[k := Dead]
    {
      slots[k] := Dead;
    }

    // ----- one element at the end -------------------------------------------------------------------

    /** False stands for the length error. */
    method Append(v: T) returns (ok: bool)
      requires Valid()
      modifies this, slots
      ensures Valid() && (ok <==> old(end) < slots.Length)
      ensures Contents() == if ok then old(Contents()) + [v] else old(Contents())
    {
      if end == slots.Length {
        return false;
      }
      Construct(end, v);
      end := end + 1;
      ok := true;
    }

    method PopBack()
      requires Valid() && end > 0
      modifies this, slots
      ensures Valid() && Contents() == old(Contents())[..old(end) - 1]
    {
      end := end - 1;
      Destroy(end);
    }

    method Clear()
      requires Valid()
      modifies this, slots
      ensures Valid() && Contents() == []
    {
      while end > 0
        invariant Valid()
        decreases end
      {
        PopBack();
      }
    }

    // ----- making room --------------------------------------------------------------------------------

    /** Constructs copies behind the end, without counting them as elements yet. */
    method ConstructAll(at: nat, vs: seq<T>)
      requires at + |vs| <= slots.Length && AllDead(slots[..], at)
      modifies slots
      ensures forall k :: at <= k < at + |vs| ==> slots[k] == Live(vs[k - at])
      ensures forall k :: 0 <= k < slots.Length && (k < at || at + |vs| <= k) ==> slots[k] == old(slots[k])
    {
      assert forall k :: at <= k < slots.Length ==> slots[..][k].Dead?;
      var j := 0;
      while j < |vs|
        invariant 0 <= j <= |vs|
        invariant forall k :: at <= k < at + j ==> slots[k] == Live(vs[k - at])
        invariant forall k :: 0 <= k < slots.Length && (k < at || at + j <= k) ==> slots[k] == old(slots[k])
      {
        ghost var before := slots[..];
        Construct(at + j, vs[j]);
        assert forall k :: 0 <= k < slots.Length ==> slots[k] == slots[..][k];
        assert forall k :: 0 <= k < slots.Length && k != at + j ==> slots[..][k] == before[k];
        j := j + 1;
      }
    }

    method AssignAll(at: nat, vs: seq<T>)
      requires at + |vs| <= slots.Length && forall k :: at <= k < at + |vs| ==> !slots[k].Dead?
      modifies slots
      ensures forall k :: at <= k < at + |vs| ==> slots[k] == Live(vs[k - at])
      ensures forall k :: 0 <= k < slots.Length && (k < at || at + |vs| <= k) ==> slots[k] == old(slots[k])
    {
      var j := 0;
      while j < |vs|
        invariant 0 <= j <= |vs|
        invariant forall k :: at <= k < at + j ==> slots[k] == Live(vs[k - at])
        invariant forall k :: 0 <= k < slots.Length && (k < at || at + j <= k) ==> slots[k] == old(slots[k])
      {
        ghost var before := slots[..];
        Assign(at + j, vs[j]);
        assert forall k :: 0 <= k < slots.Length ==> slots[k] == slots[..][k];
        assert forall k :: 0 <= k < slots.Length && k != at + j ==> slots[..][k] == before[k];
        j := j + 1;
      }
    }

    /** The last elements go into slots that hold none yet. */
    method MoveIntoDead(um: nat, nun: nat, n: nat)
      requires nun <= n && um + nun + n <= slots.Length && AllLive(slots[..], um, um + nun)
      requires AllDead(slots[..], um + n)
      modifies slots
      ensures forall k :: um <= k < um + nun ==> slots[k + n] == old(slots[k]) && slots[k] == Hollow
      ensures forall k :: 0 <= k < slots.Length && !(um <= k < um + nun) && !(um + n <= k < um + n + nun) ==>
        slots[k] == old(slots[k])
    {
      assert forall k :: um <= k < um + nun ==> slots[..][k].Live?;
      assert forall k :: um + n <= k < slots.Length ==> slots[..][k].Dead?;
      var j := um;
      while j < um + nun
        invariant um <= j <= um + nun
        invariant forall k :: um <= k < j ==> slots[k + n] == old(slots[k]) && slots[k] == Hollow
        invariant forall k :: 0 <= k < slots.Length && !(um <= k < j) && !(um + n <= k < j + n) ==>
          slots[k] == old(slots[k])
      {
        ghost var before := slots[..];
        var v := MoveOut(j);
        Construct(j + n, v);
        assert slots[..] == before[j := Hollow][j + n := before[j]];
        assert forall k :: 0 <= k < slots.Length ==> slots[k] == slots[..][k];
        assert forall k :: 0 <= k < slots.Length && k != j && k != j + n ==> slots[..][k] == before[k];
        j := j + 1;
      }
    }

    /** The others go, last first, into slots that hold elements. */
    method MoveBackward(i: nat, um: nat, n: nat)
      requires 0 < n && i <= um && um + n <= slots.Length && AllLive(slots[..], i, um)
      requires forall k :: um <= k < um + n ==> !slots[k].Dead?
      modifies slots
      ensures forall k :: i <= k < um ==> slots[k + n] == old(slots[k])
      ensures forall k :: i <= k < i + n ==> !slots[k].Dead?
      ensures forall k :: 0 <= k < slots.Length && (k < i || um + n <= k || i == um) ==> slots[k] == old(slots[k])
    {
      assert forall k :: i <= k < um ==> slots[..][k].Live?;
      var j := um;
      while j > i
        invariant i <= j <= um
        invariant j == um ==> forall k :: 0 <= k < slots.Length ==> slots[k] == old(slots[k])
        invariant forall k :: j <= k < um ==> slots[k + n] == old(slots[k])
        invariant forall k :: j <= k < j + n ==> !slots[k].Dead?
        invariant forall k :: 0 <= k < slots.Length && (k < j || um + n <= k) ==> slots[k] == old(slots[k])
      {
        ghost var before := slots[..];
        j := j - 1;
        var v := MoveOut(j);
        Assign(j + n, v);
        assert slots[..] == before[j := Hollow][j + n := before[j]];
        assert forall k :: 0 <= k < slots.Length ==> slots[k] == slots[..][k];
        assert forall k :: 0 <= k < slots.Length && k != j && k != j + n ==> slots[..][k] == before[k];
      }
    }

    /** Moves the elements from i on by n slots; what is behind the old end and before
        i + n must have been filled before. */
    method Slide(i: nat, n: nat)
      requires GapFilled(slots[..], end, i, n)
      modifies this, slots
      ensures end == old(end) + n && Slid(old(slots[..]), slots[..], old(end), i, n)
    {
      if n == 0 {
        return;
      }
      var mv := end - i;
      var nun := if n < mv then n else mv;
      var um := end - nun;
      assert forall k :: 0 <= k < slots.Length ==> slots[k] == slots[..][k];
      end := end + (n - nun);
      MoveIntoDead(um, nun, n);
      end := end + nun;
      MoveBackward(i, um, n);
    }

    // ----- inserting --------------------------------------------------------------------------------------

    /** Inserts a range before position i: the part that lands behind the old end is
        constructed, then the tail is moved, then the rest is assigned. */
    method InsertRange(i: nat, vs: seq<T>) returns (ok: bool)
      requires Valid() && i <= end
      modifies this, slots
      ensures Valid() && (ok <==> old(end) + |vs| <= slots.Length)
      ensures Contents() == if ok then old(Contents())[..i] + vs + old(Contents())[i..] else old(Contents())
    {
      var n := |vs|;
      if end + n > slots.Length {
        return false;
      }
      ghost var before, end0 := slots[..], end;
      var mid := if n < end - i then n else end - i;
      FillGap(i, vs, mid);
      ghost var filled := slots[..];
      GapIsFilled(before, filled, end0, i, vs);
      Slide(i, n);
      ghost var slid := slots[..];
      AssignFront(i, vs, mid, filled, end0);
      Inserted(before, filled, slid, slots[..], end0, i, vs);
      ok := true;
    }

    method FillGap(i: nat, vs: seq<T>, mid: nat)
      requires Valid() && i <= end && end + |vs| <= slots.Length && mid == if |vs| < end - i then |vs| else end - i
      modifies slots
      ensures Filled(old(slots[..]), slots[..], end, i, vs)
    {
      assert forall k :: end <= k < slots.Length ==> slots[..][k].Dead?;
      ConstructAll(end, vs[mid..]);
    }

    method AssignFront(i: nat, vs: seq<T>, mid: nat, ghost filled: seq<Slot<T>>, ghost end0: nat)
      requires |filled| == slots.Length && i <= end0 && end0 + |vs| <= slots.Length &&
        mid == (if |vs| < end0 - i then |vs| else end0 - i)
      requires Slid(filled, slots[..], end0, i, |vs|)
      modifies slots
      ensures Finished(old(slots[..]), slots[..], end0, i, vs)
    {
      assert forall k :: i <= k < i + mid ==> !slots[..][k].Dead?;
      AssignAll(i, vs[..mid]);
    }

    /** Inserts n copies of a value. */
    method InsertCopies(i: nat, n: nat, v: T) returns (ok: bool)
      requires Valid() && i <= end
      modifies this, slots
      ensures Valid() && (ok <==> old(end) + n <= slots.Length)
      ensures Contents() == if ok then old(Contents())[..i] + seq(n, _ => v) + old(Contents())[i..] else old(Contents())
    {
      ok := InsertRange(i, seq(n, _ => v));
    }

    /** Inserts one value: appended at the end, otherwise assigned after making room. */
    method Put(i: nat, v: T) returns (ok: bool)
      requires Valid() && i <= end
      modifies this, slots
      ensures Valid() && (ok <==> old(end) < slots.Length)
      ensures Contents() == if ok then old(Contents())[..i] + [v] + old(Contents())[i..] else old(Contents())
    {
      ghost var q := Contents();
      if i == end {
        ok := Append(v);
        assert q[..i] == q && q[i..] == [] && q + [v] == q[..i] + [v] + q[i..];
        return;
      }
      if end + 1 > slots.Length {
        return false;
      }
      ghost var before, end0 := slots[..], end;
      assert GapFilled(before, end0, i, 1);
      Slide(i, 1);
      ghost var slid := slots[..];
      assert !slid[i].Dead?;
      Assign(i, v);
      Inserted(before, before, slid, slots[..], end0, i, [v]);
      ok := true;
    }
  }
}
