/** The exchange every distributed step is built from: each rank counts the
    words it sends to every rank, turns the counts into displacements, fills one
    flat buffer block by block, and the blocks are swapped between ranks. */
module Exchange {
  import opened Base
  import Distribution
  import Origins

  /** One record for one rank; its words lie consecutively in the buffer. */
  datatype Message = Message(dest: nat, words: seq<nat>)

  ghost predicate Addressed(msgs: seq<Message>, P: nat) {
    forall k :: 0 <= k < |msgs| ==> msgs[k].dest < P
  }

  /** The records for rank r, in the order they were produced. */
  ghost function RecordsTo(msgs: seq<Message>, r: nat): seq<seq<nat>> {
    if msgs == [] then []
    else
      var m := msgs[|msgs| - 1];
      RecordsTo(msgs[..|msgs| - 1], r) + if m.dest == r then [m.words] else []
  }

  /** What rank r must receive: those records without gaps. */
  ghost function Block(msgs: seq<Message>, r: nat): seq<nat> {
    Flatten(RecordsTo(msgs, r))
  }

  lemma BlockSnoc(msgs: seq<Message>, m: Message, r: nat)
    ensures Block(msgs + [m], r) == Block(msgs, r) + if m.dest == r then m.words else []
  {
    assert (msgs + [m])[..|msgs|] == msgs;
    if m.dest == r {
      FlattenSnoc(RecordsTo(msgs, r), m.words);
    } else {
      assert RecordsTo(msgs, r) + [] == RecordsTo(msgs, r);
    }
  }

  lemma {:induction false} RecordsToMember(msgs: seq<Message>, r: nat)
    ensures forall rec :: rec in RecordsTo(msgs, r) <==> Message(r, rec) in msgs
  {
    if msgs != [] {
      var k := |msgs| - 1;
      RecordsToMember(msgs[..k], r);
      assert msgs == msgs[..k] + [msgs[k]];
    }
  }

  ghost function WordsOf(msgs: seq<Message>): (ws: seq<seq<nat>>)
    ensures |ws| == |msgs| && forall i :: 0 <= i < |msgs| ==> ws[i] == msgs[i].words
  {
    seq(|msgs|, i requires 0 <= i < |msgs| => msgs[i].words)
  }

  ghost function DestsOf(msgs: seq<Message>): (ds: seq<nat>)
    ensures |ds| == |msgs| && forall i :: 0 <= i < |msgs| ==> ds[i] == msgs[i].dest
  {
    seq(|msgs|, i requires 0 <= i < |msgs| => msgs[i].dest)
  }

  lemma {:induction false} RecordsAreSelected(msgs: seq<Message>, r: nat)
    ensures RecordsTo(msgs, r) == Origins.Select(WordsOf(msgs), DestsOf(msgs), r)
  {
    if msgs != [] {
      var k := |msgs| - 1;
      RecordsAreSelected(msgs[..k], r);
      assert WordsOf(msgs)[..k] == WordsOf(msgs[..k]) && DestsOf(msgs)[..k] == DestsOf(msgs[..k]);
    }
  }

  /** A block holds the records for its rank, each once and in the order they were produced. */
  lemma RecordsInOrder(msgs: seq<Message>, r: nat) returns (at: seq<nat>)
    ensures StrictlyAscending(at) && |at| == |RecordsTo(msgs, r)|
    ensures forall i: nat :: i in at <==> i < |msgs| && msgs[i].dest == r
    ensures forall k :: 0 <= k < |at| ==> at[k] < |msgs| && RecordsTo(msgs, r)[k] == msgs[at[k]].words
  {
    RecordsAreSelected(msgs, r);
    at := Origins.SelectedAt(WordsOf(msgs), DestsOf(msgs), r);
  }

  /** Reading records off a buffer: the next record starts where the last one
      ended, and the buffer ends exactly when the records do. */
  lemma NextRecord(words: seq<nat>, i: nat, recs: seq<seq<nat>>, k: nat)
    requires i <= |words| && k <= |recs| && words[i..] == Flatten(recs[k..])
    requires forall j :: 0 <= j < |recs| ==> recs[j] != []
    ensures i < |words| <==> k < |recs|
    ensures k < |recs| ==>
      i + |recs[k]| <= |words| && words[i..i + |recs[k]|] == recs[k] &&
      words[i + |recs[k]|..] == Flatten(recs[k + 1..])
  {
    if k < |recs| {
      assert recs[k..][1..] == recs[k + 1..];
      var rest := Flatten(recs[k + 1..]);
      assert words[i..] == recs[k] + rest;
      assert words[i..i + |recs[k]|] == words[i..][..|recs[k]|];
      assert words[i + |recs[k]|..] == words[i..][|recs[k]|..];
    }
  }

  /** Records start with a key; no two records for the same rank share it. */
  ghost predicate DistinctKeys(msgs: seq<Message>) {
    (forall k :: 0 <= k < |msgs| ==> msgs[k].words != []) &&
    forall i, j :: 0 <= i < j < |msgs| && msgs[i].dest == msgs[j].dest ==> msgs[i].words[0] != msgs[j].words[0]
  }

  lemma DistinctKeysAppend(a: seq<Message>, b: seq<Message>)
    requires DistinctKeys(a) && DistinctKeys(b)
    requires forall m, n :: m in a && n in b && m.dest == n.dest ==> m.words[0] != n.words[0]
    ensures DistinctKeys(a + b)
  {
    var ab := a + b;
    forall i, j | 0 <= i < j < |ab| && ab[i].dest == ab[j].dest ensures ab[i].words[0] != ab[j].words[0] {
      if i < |a| <= j {
        assert ab[i] in a && ab[j] in b;
      }
    }
  }

  ghost predicate DistinctHeads(recs: seq<seq<nat>>) {
    (forall k :: 0 <= k < |recs| ==> recs[k] != []) &&
    forall i, j :: 0 <= i < j < |recs| ==> recs[i][0] != recs[j][0]
  }

  lemma {:induction false} RecordsToDistinct(msgs: seq<Message>, r: nat)
    requires DistinctKeys(msgs)
    ensures DistinctHeads(RecordsTo(msgs, r))
  {
    if msgs != [] {
      var k := |msgs| - 1;
      var front := RecordsTo(msgs[..k], r);
      RecordsToDistinct(msgs[..k], r);
      forall i | 0 <= i < |front| && msgs[k].dest == r ensures front[i][0] != msgs[k].words[0] {
        RecordsToMember(msgs[..k], r);
        assert front[i] in front;
        var j :| 0 <= j < k && msgs[j] == Message(r, front[i]);
      }
    }
  }

  /** Blocks only grow while messages are appended. */
  lemma {:induction false} BlockGrows(msgs: seq<Message>, k: nat, r: nat)
    requires k <= |msgs|
    ensures |Block(msgs[..k], r)| <= |Block(msgs, r)|
    decreases |msgs| - k
  {
    if k < |msgs| {
      BlockSnoc(msgs[..k], msgs[k], r);
      assert msgs[..k] + [msgs[k]] == msgs[..k + 1];
      BlockGrows(msgs, k + 1, r);
    } else {
      assert msgs[..k] == msgs;
    }
  }

  /** Counting pass: how many words go to each rank. */
  method CountWords(P: nat, msgs: seq<Message>) returns (counts: seq<nat>)
    requires Addressed(msgs, P)
    ensures |counts| == P
    ensures forall r :: 0 <= r < P ==> counts[r] == |Block(msgs, r)|
  {
    counts := seq(P, _ => 0);
    var i := 0;
    while i < |msgs|
      invariant 0 <= i <= |msgs| && |counts| == P
      invariant forall r :: 0 <= r < P ==> counts[r] == |Block(msgs[..i], r)|
    {
      var m := msgs[i];
      counts := counts[m.dest := counts[m.dest] + |m.words|];
      assert msgs[..i + 1] == msgs[..i] + [m];
      forall r | 0 <= r < P ensures counts[r] == |Block(msgs[..i + 1], r)| {
        BlockSnoc(msgs[..i], m, r);
      }
      i := i + 1;
    }
    assert msgs[..i] == msgs;
  }

  method WriteWords(buf: array<nat>, at: nat, words: seq<nat>)
    requires at + |words| <= buf.Length
    modifies buf
    ensures buf[at..at + |words|] == words
    ensures forall k :: 0 <= k < buf.Length && (k < at || at + |words| <= k) ==> buf[k] == old(buf[k])
  {
    var j := 0;
    while j < |words|
      invariant 0 <= j <= |words|
      invariant forall k :: 0 <= k < j ==> buf[at + k] == words[k]
      invariant forall k :: 0 <= k < buf.Length && (k < at || at + |words| <= k) ==> buf[k] == old(buf[k])
    {
      buf[at + j] := words[j];
      j := j + 1;
    }
  }

  /** The first used words of block r are those of the messages so far. */
  ghost predicate Filled(buf: seq<nat>, displs: seq<nat>, used: nat, msgs: seq<Message>, r: nat)
    requires r + 1 < |displs|
  {
    used == |Block(msgs, r)| && displs[r] + used <= displs[r + 1] <= |buf| &&
    buf[displs[r]..displs[r] + used] == Block(msgs, r)
  }

  ghost predicate WrittenAt(before: seq<nat>, after: seq<nat>, at: nat, words: seq<nat>) {
    |before| == |after| && at + |words| <= |after| && after[at..at + |words|] == words &&
    forall k :: 0 <= k < |after| && (k < at || at + |words| <= k) ==> after[k] == before[k]
  }

  lemma OutsideKept(before: seq<nat>, after: seq<nat>, at: nat, words: seq<nat>, lo: nat, hi: nat)
    requires WrittenAt(before, after, at, words) && lo <= hi <= |after| && (hi <= at || at + |words| <= lo)
    ensures after[lo..hi] == before[lo..hi]
  {}

  lemma WrittenBehind(before: seq<nat>, after: seq<nat>, at: nat, words: seq<nat>, lo: nat)
    requires WrittenAt(before, after, at, words) && lo <= at
    ensures after[lo..at + |words|] == before[lo..at] + words
  {
    OutsideKept(before, after, at, words, lo, at);
    assert after[lo..at + |words|] == after[lo..at] + after[at..at + |words|];
  }

  /** One record is appended to its block; the other blocks keep their words. */
  method PackOne(buf: array<nat>, displs: seq<nat>, counts: seq<nat>, m: Message, ghost done: seq<Message>)
    returns (counts': seq<nat>)
    requires |displs| == |counts| + 1 && Monotone(displs) && m.dest < |counts|
    requires forall r :: 0 <= r < |counts| ==> Filled(buf[..], displs, counts[r], done, r)
    requires displs[m.dest] + counts[m.dest] + |m.words| <= displs[m.dest + 1]
    modifies buf
    ensures |counts'| == |counts|
    ensures forall r :: 0 <= r < |counts| ==> Filled(buf[..], displs, counts'[r], done + [m], r)
  {
    var d := m.dest;
    var at := displs[d] + counts[d];
    assert Filled(buf[..], displs, counts[d], done, d);
    ghost var before := buf[..];
    WriteWords(buf, at, m.words);
    ghost var after := buf[..];
    assert WrittenAt(before, after, at, m.words);
    counts' := counts[d := counts[d] + |m.words|];
    forall r | 0 <= r < |counts| ensures Filled(after, displs, counts'[r], done + [m], r) {
      assert Filled(before, displs, counts[r], done, r);
      StillFilled(before, after, displs, counts, m, done, r);
    }
  }

  lemma StillFilled(before: seq<nat>, after: seq<nat>, displs: seq<nat>, counts: seq<nat>, m: Message,
        done: seq<Message>, r: nat)
    requires |displs| == |counts| + 1 && Monotone(displs) && m.dest < |counts| && r < |counts|
    requires Filled(before, displs, counts[r], done, r)
    requires displs[m.dest] + counts[m.dest] + |m.words| <= displs[m.dest + 1]
    requires WrittenAt(before, after, displs[m.dest] + counts[m.dest], m.words)
    ensures Filled(after, displs, counts[r] + (if r == m.dest then |m.words| else 0), done + [m], r)
  {
    var d := m.dest;
    var at := displs[d] + counts[d];
    BlockSnoc(done, m, r);
    if r == d {
      WrittenBehind(before, after, at, m.words, displs[r]);
    } else {
      assert displs[r + 1] <= displs[d] || displs[d + 1] <= displs[r];
      OutsideKept(before, after, at, m.words, displs[r], displs[r] + counts[r]);
    }
  }

  /** Filling pass: every record lands behind the earlier ones of its block, so
      no block disturbs another and every slot is written. */
  method PackBuffer(P: nat, msgs: seq<Message>) returns (counts: seq<nat>, displs: seq<nat>, buf: array<nat>)
    requires Addressed(msgs, P)
    ensures fresh(buf)
    ensures |counts| == P && |displs| == P + 1 && displs[0] == 0 && Monotone(displs) && displs[P] == buf.Length
    ensures forall r :: 0 <= r < P ==> displs[r + 1] == displs[r] + counts[r]
    ensures forall r :: 0 <= r < P ==> buf[displs[r]..displs[r + 1]] == Block(msgs, r)
  {
    var total := CountWords(P, msgs);
    displs := Distribution.PrefixSums(total);
    buf := new nat[displs[P]];
    counts := seq(P, _ => 0);
    assert forall r :: 0 <= r < P ==> Filled(buf[..], displs, 0, [], r);
    var i := 0;
    while i < |msgs|
      invariant 0 <= i <= |msgs| && |counts| == P
      invariant forall r :: 0 <= r < P ==> Filled(buf[..], displs, counts[r], msgs[..i], r)
    {
      var m := msgs[i];
      assert msgs[..i + 1] == msgs[..i] + [m];
      assert displs[m.dest] + counts[m.dest] + |m.words| <= displs[m.dest + 1] by {
        BlockSnoc(msgs[..i], m, m.dest);
        BlockGrows(msgs, i + 1, m.dest);
        assert Filled(buf[..], displs, counts[m.dest], msgs[..i], m.dest);
      }
      counts := PackOne(buf, displs, counts, m, msgs[..i]);
      i := i + 1;
    }
    assert msgs[..i] == msgs;
    forall r | 0 <= r < P
      ensures counts[r] == total[r] && buf[displs[r]..displs[r + 1]] == Block(msgs, r)
    {
      assert Filled(buf[..], displs, counts[r], msgs, r);
    }
  }

  /** Point-to-point transfer of one block in pieces of at most chunk words. */
  method Transfer(src: seq<nat>, dst: array<nat>, at: nat, chunk: nat)
    requires chunk > 0
    requires at + |src| <= dst.Length
    modifies dst
    ensures dst[at..at + |src|] == src
    ensures forall k :: 0 <= k < dst.Length && (k < at || at + |src| <= k) ==> dst[k] == old(dst[k])
  {
    var count, start := |src|, 0;
    while count > 0
      invariant 0 <= count && start + count == |src|
      invariant forall k :: 0 <= k < start ==> dst[at + k] == src[k]
      invariant forall k :: 0 <= k < dst.Length && (k < at || at + |src| <= k) ==> dst[k] == old(dst[k])
    {
      var sz := if count < chunk then count else chunk;
      ghost var before := dst[..];
      WriteWords(dst, at + start, src[start..start + sz]);
      forall k | 0 <= k < start + sz ensures dst[at + k] == src[k] {
        if k < start {
          assert dst[at + k] == before[at + k];
        } else {
          assert dst[at + k] == dst[at + start..at + start + sz][k - start];
        }
      }
      count, start := count - sz, start + sz;
    }
  }

  /** The receiving side of one rank: room is made from the announced counts,
      then every sender's block arrives behind the earlier ones. */
  method Receive(blocks: seq<seq<nat>>, chunk: nat) returns (recv: seq<seq<nat>>)
    requires chunk > 0
    ensures recv == blocks
  {
    var counts := seq(|blocks|, s requires 0 <= s < |blocks| => |blocks[s]|);
    var displs := Distribution.PrefixSums(counts);
    var buf := new nat[displs[|blocks|]];
    var s := 0;
    while s < |blocks|
      invariant 0 <= s <= |blocks|
      invariant forall k :: 0 <= k < s ==> buf[displs[k]..displs[k + 1]] == blocks[k]
    {
      ghost var before := buf[..];
      assert displs[s + 1] <= displs[|blocks|];
      Transfer(blocks[s], buf, displs[s], chunk);
      forall k | 0 <= k < s ensures buf[displs[k]..displs[k + 1]] == blocks[k] {
        assert displs[k + 1] <= displs[s];
        assert before[displs[k]..displs[k + 1]] == blocks[k];
        assert forall j :: displs[k] <= j < displs[k + 1] ==> buf[j] == before[j];
      }
      s := s + 1;
    }
    recv := seq(|blocks|, k requires 0 <= k < |blocks| reads buf => buf[displs[k]..displs[k + 1]]);
  }

  /** The blocks change hands: rank r receives from every rank s the block that s
      holds for r. */
  method Swap(P: nat, chunk: nat, sent: seq<seq<seq<nat>>>) returns (recv: seq<seq<seq<nat>>>)
    requires chunk > 0 && |sent| == P && forall s :: 0 <= s < P ==> |sent[s]| == P
    ensures |recv| == P
    ensures forall r :: 0 <= r < P ==> |recv[r]| == P
    ensures forall r, s :: 0 <= r < P && 0 <= s < P ==> recv[r][s] == sent[s][r]
  {
    recv := [];
    var r := 0;
    while r < P
      invariant 0 <= r <= P && |recv| == r
      invariant forall k :: 0 <= k < r ==> |recv[k]| == P
      invariant forall k, s :: 0 <= k < r && 0 <= s < P ==> recv[k][s] == sent[s][k]
    {
      var got := Receive(seq(P, s requires 0 <= s < P => sent[s][r]), chunk);
      recv := recv + [got];
      r := r + 1;
    }
  }

  /** All ranks exchange: rank r receives from every rank s exactly the block
      that s packed for r. */
  method AllToAll(P: nat, chunk: nat, outs: seq<seq<Message>>) returns (recv: seq<seq<seq<nat>>>)
    requires chunk > 0 && |outs| == P
    requires forall s :: 0 <= s < P ==> Addressed(outs[s], P)
    ensures |recv| == P
    ensures forall r :: 0 <= r < P ==> |recv[r]| == P
    ensures forall r, s :: 0 <= r < P && 0 <= s < P ==> recv[r][s] == Block(outs[s], r)
  {
    var sent: seq<seq<seq<nat>>> := [];
    var s := 0;
    while s < P
      invariant 0 <= s <= P && |sent| == s
      invariant forall k :: 0 <= k < s ==> |sent[k]| == P
      invariant forall k, r :: 0 <= k < s && 0 <= r < P ==> sent[k][r] == Block(outs[k], r)
    {
      var counts, displs, buf := PackBuffer(P, outs[s]);
      var blocks := seq(P, r requires 0 <= r < P reads buf => buf[displs[r]..displs[r + 1]]);
      sent := sent + [blocks];
      s := s + 1;
    }
    recv := Swap(P, chunk, sent);
  }
}
