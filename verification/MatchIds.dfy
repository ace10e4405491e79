/** One global numbering for entities known only by their vertices. Every entity goes
    to the directory rank of its least vertex, which numbers the distinct vertex lists
    it sees; the ranks' numberings are then laid end to end. */
module MatchIds {
  import opened Base
  import opened Distribution
  import opened Exchange
  import opened Sorting
  import opened KeyOrder

  ghost predicate Usable(lists: Entities, dist: seq<nat>, P: nat) {
    IsDistribution(dist, P) &&
    forall i :: 0 <= i < |lists| ==> lists[i] != [] && forall v :: v in lists[i] ==> v < dist[P]
  }

  // ----- numbering distinct keys ---------------------------------------------------------

  ghost predicate HasId(m: map<Key, nat>, i: nat) {
    exists k :: k in m && m[k] == i
  }

  /** Keys are numbered 0, 1, ... without gaps or repetitions. */
  ghost predicate Numbering(m: map<Key, nat>) {
    (forall k :: k in m ==> m[k] < |m|) &&
    (forall k, l :: k in m && l in m && m[k] == m[l] ==> k == l) &&
    forall i: nat :: i < |m| ==> HasId(m, i)
  }

  lemma AddNumbers(m: map<Key, nat>, k: Key)
    requires Numbering(m)
    ensures Numbering(Add(m, k))
    ensures Add(m, k).Keys == m.Keys + {k}
    ensures forall l :: l in m ==> Add(m, k)[l] == m[l]
  {
    var m' := Add(m, k);
    if k !in m {
      assert |m'| == |m| + 1 by { assert m'.Keys == m.Keys + {k}; }
      forall i: nat | i < |m'| ensures HasId(m', i) {
        if i < |m| {
          assert HasId(m, i);
          var l :| l in m && m[l] == i;
          assert l in m' && m'[l] == i;
        } else {
          assert k in m' && m'[k] == i;
        }
      }
    }
  }

  ghost predicate Extends(m: map<Key, nat>, m': map<Key, nat>) {
    Numbering(m') && m.Keys <= m'.Keys && forall k :: k in m ==> m'[k] == m[k]
  }

  // ----- sending entities home -------------------------------------------------------------

  ghost predicate IsEntity(lists: Entities, n: nat, dist: seq<nat>, P: nat, d: nat, rec: seq<nat>)
    requires IsDistribution(dist, P)
  {
    exists i: nat :: i < n <= |lists| && IsEntityRecord(lists[i], dist, P, d, rec)
  }

  ghost predicate IsEntityRecord(list: seq<nat>, dist: seq<nat>, P: nat, d: nat, rec: seq<nat>)
    requires IsDistribution(dist, P)
  {
    HomeOfKey(dist, P, Sorted(list)) == d && rec == [|list|] + list
  }

  ghost predicate OwnKey(lists: Entities, n: nat, dist: seq<nat>, P: nat, me: nat, k: Key)
    requires IsDistribution(dist, P)
  {
    HomeOfKey(dist, P, k) == me && HasKey(lists, n, k)
  }

  ghost predicate HasKey(lists: Entities, n: nat, k: Key) {
    exists i: nat :: i < n <= |lists| && Sorted(lists[i]) == k
  }

  ghost function KeyOf(rec: seq<nat>): Key {
    if rec == [] then [] else Sorted(rec[1..])
  }

  /** The keys that records name, in order. */
  ghost predicate Names(recs: seq<seq<nat>>, ks: seq<Key>) {
    |ks| == |recs| && forall j :: 0 <= j < |recs| ==> ks[j] == KeyOf(recs[j])
  }

  /** The records for rank d name the keys that are at home there, in order. */
  ghost predicate SentInOrder(lists: Entities, n: nat, dist: seq<nat>, P: nat, me: nat, msgs: seq<Message>, d: nat)
    requires IsDistribution(dist, P) && n <= |lists|
  {
    forall ks :: Names(RecordsTo(msgs, d), ks) ==> ks == if d == me then [] else KeysFor(lists[..n], dist, P, d)
  }

  ghost predicate AllSentInOrder(lists: Entities, n: nat, dist: seq<nat>, P: nat, me: nat, msgs: seq<Message>)
    requires IsDistribution(dist, P) && n <= |lists|
  {
    forall d: nat :: SentInOrder(lists, n, dist, P, me, msgs, d)
  }

  ghost predicate EntitiesSent(lists: Entities, n: nat, dist: seq<nat>, P: nat, me: nat, msgs: seq<Message>)
    requires IsDistribution(dist, P)
  {
    Addressed(msgs, P) && n <= |lists| && AllSentInOrder(lists, n, dist, P, me, msgs) &&
    forall d, rec :: Message(d, rec) in msgs <==> d != me && IsEntity(lists, n, dist, P, d, rec)
  }

  ghost predicate OwnNumbered(lists: Entities, n: nat, dist: seq<nat>, P: nat, me: nat, m: map<Key, nat>)
    requires IsDistribution(dist, P)
  {
    Numbering(m) && n <= |lists| && InOwnOrder(lists[..n], dist, P, me, m) &&
    forall k :: k in m <==> OwnKey(lists, n, dist, P, me, k)
  }

  lemma EntityNext(lists: Entities, n: nat, dist: seq<nat>, P: nat, d: nat, rec: seq<nat>)
    requires IsDistribution(dist, P) && n < |lists|
    ensures IsEntity(lists, n + 1, dist, P, d, rec) <==>
      IsEntity(lists, n, dist, P, d, rec) || IsEntityRecord(lists[n], dist, P, d, rec)
  {
    var next := n + 1;
    if i: nat :| i < next && IsEntityRecord(lists[i], dist, P, d, rec) { assert i < n || i == n; }
    if IsEntityRecord(lists[n], dist, P, d, rec) { assert IsEntity(lists, next, dist, P, d, rec); }
  }

  lemma HasKeyNext(lists: Entities, n: nat, k: Key)
    requires n < |lists|
    ensures HasKey(lists, n + 1, k) <==> HasKey(lists, n, k) || k == Sorted(lists[n])
  {
    var next := n + 1;
    if i: nat :| i < next && Sorted(lists[i]) == k { assert i < n || i == n; }
    if k == Sorted(lists[n]) { assert HasKey(lists, next, k); }
  }

  lemma SentNextInOrder(lists: Entities, n: nat, dist: seq<nat>, P: nat, me: nat, msgs: seq<Message>, d: nat,
        msgs': seq<Message>)
    requires IsDistribution(dist, P) && n < |lists| && SentInOrder(lists, n, dist, P, me, msgs, d)
    requires
      var vs, home := lists[n], HomeOfKey(dist, P, Sorted(lists[n]));
      msgs' == if home != me then msgs + [Message(home, [|vs|] + vs)] else msgs
    ensures SentInOrder(lists, n + 1, dist, P, me, msgs', d)
  {
    var vs, home := lists[n], HomeOfKey(dist, P, Sorted(lists[n]));
    var rec := [|vs|] + vs;
    assert rec[1..] == vs;
    KeysForSnoc(lists, dist, P, d, n);
    if home != me { assert msgs'[..|msgs|] == msgs; }
    forall ks | Names(RecordsTo(msgs', d), ks)
      ensures ks == if d == me then [] else KeysFor(lists[..n + 1], dist, P, d)
    {
      if home != me && home == d {
        NamesFront(RecordsTo(msgs, d), rec, ks);
        assert ks == ks[..|ks| - 1] + [ks[|ks| - 1]];
      } else {
        assert Names(RecordsTo(msgs, d), ks);
      }
    }
  }

  lemma AllSentNext(lists: Entities, n: nat, dist: seq<nat>, P: nat, me: nat, msgs: seq<Message>, msgs': seq<Message>)
    requires IsDistribution(dist, P) && n < |lists| && AllSentInOrder(lists, n, dist, P, me, msgs)
    requires
      var vs, home := lists[n], HomeOfKey(dist, P, Sorted(lists[n]));
      msgs' == if home != me then msgs + [Message(home, [|vs|] + vs)] else msgs
    ensures AllSentInOrder(lists, n + 1, dist, P, me, msgs')
  {
    var next := n + 1;
    forall q: nat ensures SentInOrder(lists, next, dist, P, me, msgs', q) {
      SentNextInOrder(lists, n, dist, P, me, msgs, q, msgs');
    }
  }

  lemma SentNext(lists: Entities, n: nat, dist: seq<nat>, P: nat, me: nat, msgs: seq<Message>, d: nat)
    requires IsDistribution(dist, P) && n < |lists| && EntitiesSent(lists, n, dist, P, me, msgs)
    requires d < P && HomeOfKey(dist, P, Sorted(lists[n])) == d
    ensures EntitiesSent(lists, n + 1, dist, P, me, if d != me then msgs + [Message(d, [|lists[n]|] + lists[n])]
      else msgs)
  {
    var msgs' := if d != me then msgs + [Message(d, [|lists[n]|] + lists[n])] else msgs;
    forall q, rec ensures Message(q, rec) in msgs' <==> q != me && IsEntity(lists, n + 1, dist, P, q, rec) {
      EntityNext(lists, n, dist, P, q, rec);
    }
    AllSentNext(lists, n, dist, P, me, msgs, msgs');
  }

  lemma OwnKeyNext(lists: Entities, n: nat, dist: seq<nat>, P: nat, me: nat, k: Key)
    requires IsDistribution(dist, P) && n < |lists|
    ensures OwnKey(lists, n + 1, dist, P, me, k) <==>
      OwnKey(lists, n, dist, P, me, k) || (k == Sorted(lists[n]) && HomeOfKey(dist, P, k) == me)
  {
    HasKeyNext(lists, n, k);
  }

  lemma OwnNext(lists: Entities, n: nat, dist: seq<nat>, P: nat, me: nat, m: map<Key, nat>)
    requires IsDistribution(dist, P) && n < |lists| && OwnNumbered(lists, n, dist, P, me, m)
    ensures OwnNumbered(lists, n + 1, dist, P, me,
                        if HomeOfKey(dist, P, Sorted(lists[n])) == me then Add(m, Sorted(lists[n])) else m)
  {
    var key := Sorted(lists[n]);
    OwnOrderNext(lists, dist, P, me, n, m);
    if HomeOfKey(dist, P, key) == me {
      AddNumbers(m, key);
      OwnKeysNext(lists, n, dist, P, me, m.Keys, m.Keys + {key});
    } else {
      OwnKeysNext(lists, n, dist, P, me, m.Keys, m.Keys);
    }
  }

  lemma OwnKeysNext(lists: Entities, n: nat, dist: seq<nat>, P: nat, me: nat, keys: set<Key>, keys': set<Key>)
    requires IsDistribution(dist, P) && n < |lists| && forall k :: k in keys <==> OwnKey(lists, n, dist, P, me, k)
    requires keys' == if HomeOfKey(dist, P, Sorted(lists[n])) == me then keys + {Sorted(lists[n])} else keys
    ensures forall k :: k in keys' <==> OwnKey(lists, n + 1, dist, P, me, k)
  {
    forall k ensures k in keys' <==> OwnKey(lists, n + 1, dist, P, me, k) {
      OwnKeyNext(lists, n, dist, P, me, k);
      assert k in keys <==> OwnKey(lists, n, dist, P, me, k);
    }
  }

  method PackEntity(lists: Entities, n: nat, dist: seq<nat>, P: nat, me: nat, msgs: seq<Message>, m: map<Key, nat>)
    returns (msgs': seq<Message>, m': map<Key, nat>)
    requires Usable(lists, dist, P) && n < |lists|
    requires EntitiesSent(lists, n, dist, P, me, msgs) && OwnNumbered(lists, n, dist, P, me, m)
    ensures EntitiesSent(lists, n + 1, dist, P, me, msgs') && OwnNumbered(lists, n + 1, dist, P, me, m')
  {
    var vs := lists[n];
    var d := RankOwner(dist, P, Least(vs));
    HomeIsLeast(dist, P, vs);
    msgs' := if d != me then msgs + [Message(d, [|vs|] + vs)] else msgs;
    m' := if d == me then Add(m, Sorted(vs)) else m;
    SentNext(lists, n, dist, P, me, msgs, d);
    OwnNext(lists, n, dist, P, me, m);
  }

  method PackEntities(lists: Entities, dist: seq<nat>, P: nat, me: nat) returns (msgs: seq<Message>, m: map<Key, nat>)
    requires Usable(lists, dist, P)
    ensures EntitiesSent(lists, |lists|, dist, P, me, msgs) && OwnNumbered(lists, |lists|, dist, P, me, m)
  {
    msgs, m := [], map[];
    var i := 0;
    while i < |lists|
      invariant 0 <= i <= |lists|
      invariant EntitiesSent(lists, i, dist, P, me, msgs) && OwnNumbered(lists, i, dist, P, me, m)
    {
      msgs, m := PackEntity(lists, i, dist, P, me, msgs, m);
      i := i + 1;
    }
  }

  // ----- the directory numbers what it receives ----------------------------------------------

  ghost predicate ListRecord(rec: seq<nat>) {
    rec != [] && rec[0] == |rec| - 1
  }

  ghost predicate NamesKey(recs: seq<seq<nat>>, k: Key) {
    exists j :: 0 <= j < |recs| && KeyOf(recs[j]) == k
  }

  lemma NamesSnoc(recs: seq<seq<nat>>, rec: seq<nat>, k: Key)
    ensures NamesKey(recs + [rec], k) <==> NamesKey(recs, k) || k == KeyOf(rec)
  {
    var all := recs + [rec];
    assert all[|recs|] == rec;
    if j :| 0 <= j < |recs| && KeyOf(recs[j]) == k { assert all[j] == recs[j]; }
    if j :| 0 <= j < |all| && KeyOf(all[j]) == k { assert j < |recs| ==> all[j] == recs[j]; }
  }

  /** The keys that records name were added one after the other. */
  ghost predicate AddedInOrder(recs: seq<seq<nat>>, m: map<Key, nat>, m': map<Key, nat>) {
    forall ks :: Names(recs, ks) ==> m' == AddAll(m, ks)
  }

  lemma AddedNext(recs: seq<seq<nat>>, rec: seq<nat>, m: map<Key, nat>, m': map<Key, nat>)
    requires AddedInOrder(recs, m, m')
    ensures AddedInOrder(recs + [rec], m, Add(m', KeyOf(rec)))
  {
    forall ks | Names(recs + [rec], ks) ensures Add(m', KeyOf(rec)) == AddAll(m, ks) {
      NamesFront(recs, rec, ks);
    }
  }

  lemma NamesFront(recs: seq<seq<nat>>, rec: seq<nat>, ks: seq<Key>)
    requires Names(recs + [rec], ks)
    ensures ks != [] && Names(recs, ks[..|ks| - 1]) && ks[|ks| - 1] == KeyOf(rec)
  {
    var k := |ks| - 1;
    assert ks[k] == KeyOf((recs + [rec])[k]);
    forall j | 0 <= j < k ensures ks[j] == KeyOf(recs[j]) { assert ks[j] == KeyOf((recs + [rec])[j]); }
  }

  ghost predicate NumberedFrom(recs: seq<seq<nat>>, m: map<Key, nat>, m': map<Key, nat>, asked: seq<Key>) {
    Extends(m, m') && AddedInOrder(recs, m, m') && (forall k :: k in m' <==> k in m || NamesKey(recs, k)) &&
    forall k :: k in asked <==> NamesKey(recs, k)
  }

  lemma NumberedOneMore(recs: seq<seq<nat>>, rec: seq<nat>, m: map<Key, nat>, m': map<Key, nat>, asked: seq<Key>)
    requires NumberedFrom(recs, m, m', asked)
    ensures NumberedFrom(recs + [rec], m, Add(m', KeyOf(rec)), asked + [KeyOf(rec)])
  {
    AddNumbers(m', KeyOf(rec));
    AddedNext(recs, rec, m, m');
    forall k ensures NamesKey(recs + [rec], k) <==> NamesKey(recs, k) || k == KeyOf(rec) {
      NamesSnoc(recs, rec, k);
    }
  }

  method NumberOne(words: seq<nat>, i: nat, ghost recs: seq<seq<nat>>, ghost k: nat, ghost m: map<Key, nat>,
        m1: map<Key, nat>, asked: seq<Key>)
    returns (m2: map<Key, nat>, asked': seq<Key>, next: nat)
    requires k < |recs| && ListRecord(recs[k]) && i + |recs[k]| <= |words| && words[i..i + |recs[k]|] == recs[k]
    requires NumberedFrom(recs[..k], m, m1, asked)
    ensures NumberedFrom(recs[..k + 1], m, m2, asked') && next == i + |recs[k]|
  {
    var vs := ReadList(words, i, recs[k]);
    NumberedOneMore(recs[..k], recs[k], m, m1, asked);
    assert recs[..k + 1] == recs[..k] + [recs[k]];
    m2, asked', next := Add(m1, Sorted(vs)), asked + [Sorted(vs)], i + 1 + |vs|;
  }

  method NumberFrom(words: seq<nat>, ghost recs: seq<seq<nat>>, m: map<Key, nat>)
    returns (m': map<Key, nat>, asked: seq<Key>)
    requires Numbering(m) && words == Flatten(recs) && forall j :: 0 <= j < |recs| ==> ListRecord(recs[j])
    ensures NumberedFrom(recs, m, m', asked)
  {
    m', asked := m, [];
    var i := 0;
    ghost var k := 0;
    NextRecord(words, 0, recs, 0);
    while i < |words|
      invariant 0 <= i <= |words| && 0 <= k <= |recs| && words[i..] == Flatten(recs[k..])
      invariant NumberedFrom(recs[..k], m, m', asked)
      decreases |words| - i
    {
      NextRecord(words, i, recs, k);
      m', asked, i := NumberOne(words, i, recs, k, m, m', asked);
      k := k + 1;
    }
    NextRecord(words, i, recs, k);
    assert recs[..k] == recs;
  }

  method ReadList(words: seq<nat>, i: nat, ghost rec: seq<nat>) returns (vs: seq<nat>)
    requires ListRecord(rec) && i + |rec| <= |words| && words[i..i + |rec|] == rec
    ensures vs == rec[1..]
  {
    assert words[i] == rec[0];
    var n := words[i];
    vs := words[i + 1..i + 1 + n];
  }

  ghost predicate ReceivedEntities(lists: Entities, dist: seq<nat>, P: nat, me: nat, r: nat, recs: seq<seq<nat>>)
    requires IsDistribution(dist, P)
  {
    (forall ks :: Names(recs, ks) ==> ks == if me == r then [] else KeysFor(lists, dist, P, me)) &&
    forall rec :: rec in recs <==> me != r && IsEntity(lists, |lists|, dist, P, me, rec)
  }

  lemma ReceivedKeys(lists: Entities, dist: seq<nat>, P: nat, me: nat, r: nat, recs: seq<seq<nat>>, k: Key)
    requires IsDistribution(dist, P) && ReceivedEntities(lists, dist, P, me, r, recs)
    ensures forall j :: 0 <= j < |recs| ==> ListRecord(recs[j])
    ensures NamesKey(recs, k) <==> me != r && OwnKey(lists, |lists|, dist, P, me, k)
  {
    forall j | 0 <= j < |recs|
      ensures ListRecord(recs[j]) && OwnKey(lists, |lists|, dist, P, me, KeyOf(recs[j])) && me != r
    {
      assert recs[j] in recs;
      var i: nat :| i < |lists| && IsEntityRecord(lists[i], dist, P, me, recs[j]);
      assert recs[j][1..] == lists[i];
    }
    if me != r && OwnKey(lists, |lists|, dist, P, me, k) {
      var i: nat :| i < |lists| && Sorted(lists[i]) == k;
      var rec := [|lists[i]|] + lists[i];
      assert IsEntityRecord(lists[i], dist, P, me, rec);
      assert rec in recs && rec[1..] == lists[i];
    }
  }

  /** Directory me has numbered its own keys and those of the ranks below upto. */
  ghost predicate KnownKey(all: seq<Entities>, dist: seq<nat>, me: nat, upto: nat, k: Key)
    requires IsDistribution(dist, |all|)
  {
    exists r: nat :: r < |all| && (r < upto || r == me) && OwnKey(all[r], |all[r]|, dist, |all|, me, k)
  }

  ghost predicate Numbered(all: seq<Entities>, dist: seq<nat>, me: nat, upto: nat, m: map<Key, nat>)
    requires IsDistribution(dist, |all|)
  {
    Numbering(m) && ByMention(all, dist, me, upto, m) && forall k :: k in m <==> KnownKey(all, dist, me, upto, k)
  }

  ghost predicate AskedBy(lists: Entities, dist: seq<nat>, P: nat, me: nat, r: nat, asked: seq<Key>)
    requires IsDistribution(dist, P)
  {
    forall k :: k in asked <==> me != r && OwnKey(lists, |lists|, dist, P, me, k)
  }

  lemma KnownOneMore(all: seq<Entities>, dist: seq<nat>, me: nat, r: nat, k: Key)
    requires IsDistribution(dist, |all|) && r < |all|
    ensures KnownKey(all, dist, me, r + 1, k) <==>
      KnownKey(all, dist, me, r, k) || (me != r && OwnKey(all[r], |all[r]|, dist, |all|, me, k))
  {
    var next := r + 1;
    if q: nat :| q < |all| && (q < next || q == me) && OwnKey(all[q], |all[q]|, dist, |all|, me, k) {
      assert (q < r || q == me) || (q == r && me != r);
    }
  }

  /** The words from rank r are the records of its entities that are at home here. */
  ghost predicate RankReceived(all: seq<Entities>, dist: seq<nat>, me: nat, r: nat, words: seq<nat>,
        recs: seq<seq<nat>>)
    requires IsDistribution(dist, |all|) && r < |all|
  {
    words == Flatten(recs) && ReceivedEntities(all[r], dist, |all|, me, r, recs)
  }

  method NumberRank(ghost all: seq<Entities>, ghost dist: seq<nat>, me: nat, r: nat, m: map<Key, nat>, words: seq<nat>,
        ghost recs: seq<seq<nat>>)
    returns (m': map<Key, nat>, asked: seq<Key>)
    requires IsDistribution(dist, |all|) && r < |all|
    requires Numbered(all, dist, me, r, m) && RankReceived(all, dist, me, r, words, recs)
    ensures Numbered(all, dist, me, r + 1, m') && AskedBy(all[r], dist, |all|, me, r, asked)
  {
    ReceivedKeys(all[r], dist, |all|, me, r, recs, []);
    m', asked := NumberFrom(words, recs, m);
    RankMentioned(all, dist, me, r, recs, m, m');
    forall k
      ensures k in m' <==> KnownKey(all, dist, me, r + 1, k)
      ensures k in asked <==> me != r && OwnKey(all[r], |all[r]|, dist, |all|, me, k)
    {
      ReceivedKeys(all[r], dist, |all|, me, r, recs, k);
      KnownOneMore(all, dist, me, r, k);
    }
  }

  lemma OwnMentions(all: seq<Entities>, dist: seq<nat>, me: nat, own: map<Key, nat>)
    requires IsDistribution(dist, |all|) && me < |all| && InOwnOrder(all[me][..|all[me]|], dist, |all|, me, own)
    ensures ByMention(all, dist, me, 0, own)
  {
    assert all[me][..|all[me]|] == all[me];
    assert IsKeysFor(all[me], dist, |all|, me, KeysFor(all[me], dist, |all|, me));
    assert Mentions(all, dist, me, 0) == KeysFor(all[me], dist, |all|, me);
  }

  lemma OwnIsNumbered(all: seq<Entities>, dist: seq<nat>, me: nat, own: map<Key, nat>)
    requires IsDistribution(dist, |all|) && me < |all| && OwnNumbered(all[me], |all[me]|, dist, |all|, me, own)
    ensures Numbered(all, dist, me, 0, own)
  {
    OwnMentions(all, dist, me, own);
    forall k ensures k in own <==> KnownKey(all, dist, me, 0, k) {
      assert OwnKey(all[me], |all[me]|, dist, |all|, me, k) ==> KnownKey(all, dist, me, 0, k);
    }
  }

  lemma RankMentioned(all: seq<Entities>, dist: seq<nat>, me: nat, r: nat, recs: seq<seq<nat>>, m: map<Key, nat>,
        m': map<Key, nat>)
    requires IsDistribution(dist, |all|) && r < |all| && ByMention(all, dist, me, r, m) && AddedInOrder(recs, m, m')
    requires ReceivedEntities(all[r], dist, |all|, me, r, recs)
    ensures ByMention(all, dist, me, r + 1, m')
  {
    var ks := seq(|recs|, j requires 0 <= j < |recs| => KeyOf(recs[j]));
    assert Names(recs, ks);
    assert Told(all, dist, me, r, Mentions(all, dist, me, r));
    MentionsNext(all, dist, me, r);
    AddAllTwice(map[], Mentions(all, dist, me, r), ks);
    assert Mentions(all, dist, me, r + 1) == Mentions(all, dist, me, r) + ks;
  }

  /** Directory me has dealt with the ranks below r. */
  ghost predicate Collected(all: seq<Entities>, dist: seq<nat>, me: nat, r: nat, m: map<Key, nat>,
        asked: seq<seq<Key>>)
    requires IsDistribution(dist, |all|)
  {
    r == |asked| <= |all| && Numbered(all, dist, me, r, m) &&
    forall q :: 0 <= q < r ==> AskedBy(all[q], dist, |all|, me, q, asked[q])
  }

  lemma CollectedNext(all: seq<Entities>, dist: seq<nat>, me: nat, r: nat, m: map<Key, nat>, asked: seq<seq<Key>>,
        m': map<Key, nat>, ks: seq<Key>)
    requires IsDistribution(dist, |all|) && r < |all| && Collected(all, dist, me, r, m, asked)
    requires Numbered(all, dist, me, r + 1, m') && AskedBy(all[r], dist, |all|, me, r, ks)
    ensures Collected(all, dist, me, r + 1, m', asked + [ks])
  {}

  method NumberAllRanks(ghost all: seq<Entities>, ghost dist: seq<nat>, me: nat, own: map<Key, nat>,
        recv: seq<seq<nat>>, ghost recs: seq<seq<seq<nat>>>)
    returns (m: map<Key, nat>, asked: seq<seq<Key>>)
    requires IsDistribution(dist, |all|) && me < |all| == |recv| == |recs|
    requires Numbered(all, dist, me, 0, own)
    requires forall r :: 0 <= r < |all| ==> RankReceived(all, dist, me, r, recv[r], recs[r])
    ensures Numbered(all, dist, me, |all|, m) && |asked| == |all|
    ensures forall r :: 0 <= r < |all| ==> AskedBy(all[r], dist, |all|, me, r, asked[r])
  {
    m, asked := own, [];
    var r := 0;
    while r < |recv|
      invariant 0 <= r <= |recv| && Collected(all, dist, me, r, m, asked)
    {
      var m', ks := NumberRank(all, dist, me, r, m, recv[r], recs[r]);
      CollectedNext(all, dist, me, r, m, asked, m', ks);
      m, asked, r := m', asked + [ks], r + 1;
    }
  }

  // ----- numbers travel back -------------------------------------------------------------------

  ghost predicate IsAnswer(m: map<Key, nat>, base: nat, k: Key, rec: seq<nat>) {
    k in m && rec == [base + m[k], |k|] + k
  }

  ghost predicate AnswersSent(asked: seq<seq<Key>>, m: map<Key, nat>, base: nat, P: nat, me: nat, msgs: seq<Message>) {
    Addressed(msgs, P) &&
    forall d: nat, rec :: Message(d, rec) in msgs <==>
      d < |asked| && d != me && exists k :: k in asked[d] && IsAnswer(m, base, k, rec)
  }

  ghost predicate AnsweredIds(ks: seq<Key>, m: map<Key, nat>, base: nat, d: nat, ids: seq<nat>, rec: seq<nat>)
    requires forall k :: k in ks ==> k in m
  {
    exists k :: k in ks && m[k] in ids && IsAnswer(m, base, k, rec)
  }

  ghost predicate AnsweredTo(ks: seq<Key>, m: map<Key, nat>, base: nat, P: nat, d: nat, ids: seq<nat>,
        msgs: seq<Message>)
    requires forall k :: k in ks ==> k in m
  {
    Addressed(msgs, P) && forall q, rec :: Message(q, rec) in msgs <==> q == d && AnsweredIds(ks, m, base, d, ids, rec)
  }

  lemma AnswerNext(ks: seq<Key>, m: map<Key, nat>, base: nat, P: nat, d: nat, ids: seq<nat>, msgs: seq<Message>,
        key: Key)
    requires d < P && Numbering(m) && key in ks && forall k :: k in ks ==> k in m
    requires AnsweredTo(ks, m, base, P, d, ids, msgs)
    ensures AnsweredTo(ks, m, base, P, d, ids + [m[key]], msgs + [Message(d, [base + m[key], |key|] + key)])
  {
    var rec0 := [base + m[key], |key|] + key;
    forall rec ensures AnsweredIds(ks, m, base, d, ids + [m[key]], rec) <==>
      AnsweredIds(ks, m, base, d, ids, rec) || rec == rec0 {
      assert IsAnswer(m, base, key, rec0);
      if k :| k in ks && m[k] in ids + [m[key]] && IsAnswer(m, base, k, rec) {
        assert m[k] == m[key] ==> k == key;
      }
    }
  }

  lemma AllAnswered(ks: seq<Key>, m: map<Key, nat>, base: nat, P: nat, d: nat, ids: seq<nat>, msgs: seq<Message>)
    requires forall k :: k in ks ==> k in m
    requires AnsweredTo(ks, m, base, P, d, ids, msgs) && forall k :: k in ks ==> m[k] in ids
    ensures Addressed(msgs, P)
    ensures forall q, rec :: Message(q, rec) in msgs <==> q == d && exists k :: k in ks && IsAnswer(m, base, k, rec)
  {
    forall rec ensures AnsweredIds(ks, m, base, d, ids, rec) <==> exists k :: k in ks && IsAnswer(m, base, k, rec) {}
  }

  /** The keys in ks by their numbers. */
  function ByNumber(ks: seq<Key>, m: map<Key, nat>): (byId: map<nat, Key>)
    requires Numbering(m) && forall k :: k in ks ==> k in m
    ensures forall id :: id in byId ==> byId[id] in ks && byId[id] in m && m[byId[id]] == id
    ensures forall k :: k in ks ==> m[k] in byId
  {
    map k | k in ks :: m[k] := k
  }

  /** The keys one rank asked for, by ascending number and without repetition. */
  method AnswerRank(ks: seq<Key>, m: map<Key, nat>, base: nat, P: nat, d: nat) returns (msgs: seq<Message>)
    requires d < P && Numbering(m) && forall k :: k in ks ==> k in m
    ensures Addressed(msgs, P)
    ensures forall q, rec :: Message(q, rec) in msgs <==> q == d && exists k :: k in ks && IsAnswer(m, base, k, rec)
  {
    var byId := ByNumber(ks, m);
    var order := Ascending(byId.Keys);
    msgs := AnswerInOrder(ks, m, base, P, d, byId, order);
    AllAnswered(ks, m, base, P, d, order, msgs);
  }

  method AnswerInOrder(ks: seq<Key>, m: map<Key, nat>, base: nat, P: nat, d: nat, byId: map<nat, Key>, order: seq<nat>)
    returns (msgs: seq<Message>)
    requires d < P && Numbering(m) && forall k :: k in ks ==> k in m
    requires forall i :: 0 <= i < |order| ==> order[i] in byId && byId[order[i]] in ks && m[byId[order[i]]] == order[i]
    ensures AnsweredTo(ks, m, base, P, d, order, msgs)
  {
    msgs := [];
    var i := 0;
    while i < |order|
      invariant 0 <= i <= |order|
      invariant AnsweredTo(ks, m, base, P, d, order[..i], msgs)
    {
      var key := byId[order[i]];
      AnswerNext(ks, m, base, P, d, order[..i], msgs, key);
      msgs := msgs + [Message(d, [base + m[key], |key|] + key)];
      assert order[..i + 1] == order[..i] + [m[key]];
      i := i + 1;
    }
    assert order[..i] == order;
  }

  method AnswerAll(asked: seq<seq<Key>>, m: map<Key, nat>, base: nat, me: nat) returns (msgs: seq<Message>)
    requires Numbering(m) && forall d, k :: 0 <= d < |asked| && k in asked[d] ==> k in m
    ensures AnswersSent(asked, m, base, |asked|, me, msgs)
  {
    msgs := [];
    var d := 0;
    while d < |asked|
      invariant 0 <= d <= |asked|
      invariant Addressed(msgs, |asked|)
      invariant forall q: nat, rec :: Message(q, rec) in msgs <==>
        q < d && q != me && exists k :: k in asked[q] && IsAnswer(m, base, k, rec)
    {
      if d != me {
        var more := AnswerRank(asked[d], m, base, |asked|, d);
        ghost var was := msgs;
        msgs := msgs + more;
        forall q: nat, rec ensures Message(q, rec) in msgs <==> Message(q, rec) in was || Message(q, rec) in more {}
      }
      d := d + 1;
    }
  }

  ghost predicate AnswerRecord(rec: seq<nat>) {
    |rec| >= 2 && rec[1] == |rec| - 2
  }

  ghost predicate TableOf(recs: seq<seq<nat>>, m: map<Key, nat>, m': map<Key, nat>) {
    (forall k :: k in m ==> k in m' && m'[k] == m[k]) &&
    (forall j :: 0 <= j < |recs| && AnswerRecord(recs[j]) ==> Sorted(recs[j][2..]) in m') &&
    forall k :: k in m' && k !in m ==>
      exists j :: 0 <= j < |recs| && AnswerRecord(recs[j]) && k == Sorted(recs[j][2..]) && m'[k] == recs[j][0]
  }

  lemma TableOneMore(recs: seq<seq<nat>>, rec: seq<nat>, m: map<Key, nat>, m': map<Key, nat>)
    requires TableOf(recs, m, m') && AnswerRecord(rec)
    ensures
      var k := Sorted(rec[2..]);
      TableOf(recs + [rec], m, if k in m' then m' else m'[k := rec[0]])
  {
    var key := Sorted(rec[2..]);
    var m2 := if key in m' then m' else m'[key := rec[0]];
    var all := recs + [rec];
    assert all[|recs|] == rec;
    forall k | k in m2 && k !in m
      ensures exists j :: 0 <= j < |all| && AnswerRecord(all[j]) && k == Sorted(all[j][2..]) && m2[k] == all[j][0]
    {
      if k in m' {
        var j :| 0 <= j < |recs| && AnswerRecord(recs[j]) && k == Sorted(recs[j][2..]) && m'[k] == recs[j][0];
        assert all[j] == recs[j];
      }
    }
    forall j | 0 <= j < |all| && AnswerRecord(all[j]) ensures Sorted(all[j][2..]) in m2 {
      assert j < |recs| ==> all[j] == recs[j];
    }
  }

  method ReadAnswer(words: seq<nat>, i: nat, ghost rec: seq<nat>) returns (gid: nat, vs: seq<nat>)
    requires AnswerRecord(rec) && i + |rec| <= |words| && words[i..i + |rec|] == rec
    ensures gid == rec[0] && vs == rec[2..]
  {
    assert forall j :: 0 <= j < |rec| ==> words[i + j] == rec[j];
    var n := words[i + 1];
    gid, vs := words[i], words[i + 2..i + 2 + n];
  }

  method LearnFrom(words: seq<nat>, ghost recs: seq<seq<nat>>, m: map<Key, nat>) returns (m': map<Key, nat>)
    requires words == Flatten(recs) && forall j :: 0 <= j < |recs| ==> AnswerRecord(recs[j])
    ensures TableOf(recs, m, m')
  {
    m' := m;
    var i := 0;
    ghost var k := 0;
    NextRecord(words, 0, recs, 0);
    while i < |words|
      invariant 0 <= i <= |words| && 0 <= k <= |recs| && words[i..] == Flatten(recs[k..])
      invariant TableOf(recs[..k], m, m')
      decreases |words| - i
    {
      NextRecord(words, i, recs, k);
      var gid, vs := ReadAnswer(words, i, recs[k]);
      TableOneMore(recs[..k], recs[k], m, m');
      assert recs[..k + 1] == recs[..k] + [recs[k]];
      var key := Sorted(vs);
      if key !in m' {
        m' := m'[key := gid];
      }
      i, k := i + 2 + |vs|, k + 1;
    }
    NextRecord(words, i, recs, k);
    assert recs[..k] == recs;
  }

  // ----- the joint numbering ---------------------------------------------------------------------

  /** What all directories together say about a key. */
  ghost predicate GlobalId(all: seq<Entities>, dist: seq<nat>, tables: seq<map<Key, nat>>, base: seq<nat>, k: Key,
        gid: nat)
    requires IsDistribution(dist, |all|) && |tables| == |all| && |base| == |all| + 1
  {
    var d := HomeOfKey(dist, |all|, k);
    d < |all| && k in tables[d] && gid == base[d] + tables[d][k]
  }

  ghost predicate AllNumbered(all: seq<Entities>, dist: seq<nat>, tables: seq<map<Key, nat>>, base: seq<nat>) {
    IsDistribution(dist, |all|) && |tables| == |all| && IsDistribution(base, |all|) &&
    forall d :: 0 <= d < |all| ==> Numbered(all, dist, d, |all|, tables[d]) && base[d + 1] == base[d] + |tables[d]|
  }

  lemma IdBelongsTo(all: seq<Entities>, dist: seq<nat>, tables: seq<map<Key, nat>>, base: seq<nat>, k: Key, gid: nat)
    requires AllNumbered(all, dist, tables, base) && GlobalId(all, dist, tables, base, k, gid)
    ensures Owns(base, gid, HomeOfKey(dist, |all|, k)) && gid < base[|all|]
  {
    var d := HomeOfKey(dist, |all|, k);
    assert Numbered(all, dist, d, |all|, tables[d]);
    assert base[d + 1] <= base[|all|];
  }

  /** Different keys never share an id, the same key never has two. */
  lemma IdsAreInjective(all: seq<Entities>, dist: seq<nat>, tables: seq<map<Key, nat>>, base: seq<nat>, k: Key,
        gid: nat, l: Key, gid': nat)
    requires AllNumbered(all, dist, tables, base)
    requires GlobalId(all, dist, tables, base, k, gid) && GlobalId(all, dist, tables, base, l, gid')
    ensures k == l <==> gid == gid'
  {
    IdBelongsTo(all, dist, tables, base, k, gid);
    IdBelongsTo(all, dist, tables, base, l, gid');
    if gid == gid' {
      var d := HomeOfKey(dist, |all|, k);
      Distribution.OwnerUnique(base, gid, d, HomeOfKey(dist, |all|, l));
      assert Numbered(all, dist, d, |all|, tables[d]);
    }
  }

  /** Every id below the total is the id of some rank's entity. */
  lemma IdsAreDense(all: seq<Entities>, dist: seq<nat>, tables: seq<map<Key, nat>>, base: seq<nat>, gid: nat)
    returns (r: nat, i: nat)
    requires AllNumbered(all, dist, tables, base) && gid < base[|all|]
    ensures r < |all| && i < |all[r]| && GlobalId(all, dist, tables, base, Sorted(all[r][i]), gid)
  {
    var d := Owner(base, |all|, gid);
    assert Numbered(all, dist, d, |all|, tables[d]);
    assert HasId(tables[d], gid - base[d]);
    var k :| k in tables[d] && tables[d][k] == gid - base[d];
    assert KnownKey(all, dist, d, |all|, k);
    r :| r < |all| && OwnKey(all[r], |all[r]|, dist, |all|, d, k);
    i :| i < |all[r]| && Sorted(all[r][i]) == k;
  }

  // ----- one rank learns its ids ---------------------------------------------------------------------

  ghost predicate HomeSpoken(dist: seq<nat>, P: nat, me: nat, upto: nat, k: Key)
    requires IsDistribution(dist, P)
  {
    var d := HomeOfKey(dist, P, k);
    d < P && (d < upto || d == me)
  }

  /** The table of rank me, when the directories below upto have answered. */
  ghost predicate Learned(all: seq<Entities>, dist: seq<nat>, tables: seq<map<Key, nat>>, base: seq<nat>, me: nat,
        upto: nat, m: map<Key, nat>)
    requires AllNumbered(all, dist, tables, base) && me < |all|
  {
    (forall k :: k in m ==> GlobalId(all, dist, tables, base, k, m[k])) &&
    forall k :: HasKey(all[me], |all[me]|, k) && HomeSpoken(dist, |all|, me, upto, k) ==> k in m
  }

  ghost predicate ReceivedAnswers(ks: seq<Key>, m: map<Key, nat>, base: nat, me: nat, d: nat, recs: seq<seq<nat>>) {
    forall rec :: rec in recs <==> me != d && exists k :: k in ks && IsAnswer(m, base, k, rec)
  }

  lemma AnswerMeans(all: seq<Entities>, dist: seq<nat>, tables: seq<map<Key, nat>>, base: seq<nat>, me: nat, d: nat,
        asked: seq<Key>, rec: seq<nat>, k: Key)
    requires AllNumbered(all, dist, tables, base) && me < |all| && d < |all|
    requires AskedBy(all[me], dist, |all|, d, me, asked) && k in asked && IsAnswer(tables[d], base[d], k, rec)
    ensures AnswerRecord(rec) && rec[2..] == k && Sorted(k) == k
    ensures GlobalId(all, dist, tables, base, k, rec[0])
  {
    var i: nat :| i < |all[me]| && Sorted(all[me][i]) == k;
    SortedTwice(all[me][i]);
    assert rec[2..] == k;
  }

  method LearnRank(ghost all: seq<Entities>, ghost dist: seq<nat>, ghost tables: seq<map<Key, nat>>,
        ghost base: seq<nat>, me: nat, d: nat, ghost asked: seq<Key>, m: map<Key, nat>, words: seq<nat>,
        ghost recs: seq<seq<nat>>)
    returns (m': map<Key, nat>)
    requires AllNumbered(all, dist, tables, base) && me < |all| && d < |all| && words == Flatten(recs)
    requires AskedBy(all[me], dist, |all|, d, me, asked) && ReceivedAnswers(asked, tables[d], base[d], me, d, recs)
    requires Learned(all, dist, tables, base, me, d, m)
    ensures Learned(all, dist, tables, base, me, d + 1, m')
  {
    AnswersMean(all, dist, tables, base, me, d, asked, recs);
    m' := LearnFrom(words, recs, m);
    LearnedNext(all, dist, tables, base, me, d, asked, recs, m, m');
  }

  lemma AnswersMean(all: seq<Entities>, dist: seq<nat>, tables: seq<map<Key, nat>>, base: seq<nat>, me: nat, d: nat,
        asked: seq<Key>, recs: seq<seq<nat>>)
    requires AllNumbered(all, dist, tables, base) && me < |all| && d < |all|
    requires AskedBy(all[me], dist, |all|, d, me, asked) && ReceivedAnswers(asked, tables[d], base[d], me, d, recs)
    ensures forall j :: 0 <= j < |recs| ==>
      AnswerRecord(recs[j]) && GlobalId(all, dist, tables, base, Sorted(recs[j][2..]), recs[j][0])
  {
    forall j | 0 <= j < |recs|
      ensures AnswerRecord(recs[j]) && GlobalId(all, dist, tables, base, Sorted(recs[j][2..]), recs[j][0])
    {
      assert recs[j] in recs;
      var k :| k in asked && IsAnswer(tables[d], base[d], k, recs[j]);
      AnswerMeans(all, dist, tables, base, me, d, asked, recs[j], k);
    }
  }

  lemma LearnedNext(all: seq<Entities>, dist: seq<nat>, tables: seq<map<Key, nat>>, base: seq<nat>, me: nat, d: nat,
        asked: seq<Key>, recs: seq<seq<nat>>, m: map<Key, nat>, m': map<Key, nat>)
    requires AllNumbered(all, dist, tables, base) && me < |all| && d < |all|
    requires AskedBy(all[me], dist, |all|, d, me, asked) && ReceivedAnswers(asked, tables[d], base[d], me, d, recs)
    requires Learned(all, dist, tables, base, me, d, m) && TableOf(recs, m, m')
    requires forall j :: 0 <= j < |recs| ==>
      AnswerRecord(recs[j]) && GlobalId(all, dist, tables, base, Sorted(recs[j][2..]), recs[j][0])
    ensures Learned(all, dist, tables, base, me, d + 1, m')
  {
    forall k | k in m' ensures GlobalId(all, dist, tables, base, k, m'[k]) {
      if k !in m {
        var j :| 0 <= j < |recs| && AnswerRecord(recs[j]) && k == Sorted(recs[j][2..]) && m'[k] == recs[j][0];
      }
    }
    forall k | HasKey(all[me], |all[me]|, k) && HomeOfKey(dist, |all|, k) == d && d != me ensures k in m' {
      LearnsKey(all, dist, tables, base, me, d, asked, recs, m, m', k);
    }
  }

  lemma LearnsKey(all: seq<Entities>, dist: seq<nat>, tables: seq<map<Key, nat>>, base: seq<nat>, me: nat, d: nat,
        asked: seq<Key>, recs: seq<seq<nat>>, m: map<Key, nat>, m': map<Key, nat>, k: Key)
    requires AllNumbered(all, dist, tables, base) && me < |all| && d < |all| && me != d
    requires AskedBy(all[me], dist, |all|, d, me, asked) && ReceivedAnswers(asked, tables[d], base[d], me, d, recs)
    requires TableOf(recs, m, m')
    requires HasKey(all[me], |all[me]|, k) && HomeOfKey(dist, |all|, k) == d
    ensures k in m'
  {
    assert OwnKey(all[me], |all[me]|, dist, |all|, d, k);
    assert k in asked;
    assert Numbered(all, dist, d, |all|, tables[d]);
    assert KnownKey(all, dist, d, |all|, k);
    var rec := [base[d] + tables[d][k], |k|] + k;
    assert IsAnswer(tables[d], base[d], k, rec);
    AnswerMeans(all, dist, tables, base, me, d, asked, rec, k);
    assert rec in recs;
    var j :| 0 <= j < |recs| && recs[j] == rec;
  }
}
