/** Where every queued and every applied event comes from, in every interleaving: an untagged message,
    or a transaction that was opened, not closed since, and then committed. Events that were aborted,
    tagged with an unknown id or never committed are never seen by the render thread. */
module Provenance {
  import opened Events
  import opened Segments
  import opened Session
  import opened Transactions
  import opened EventPlane
  import opened Determinism
  import opened Atomicity

  predicate Closes(m: Msg, id: nat)
  {
    m == Abort(id) || (m.Commit? && m.id == id)
  }

  /** The begin at `b` opened `id`, and nothing has closed it before message `k`. */
  ghost predicate OpenSince(msgs: seq<Msg>, b: nat, k: nat, id: nat)
  {
    && b < k <= |msgs| && msgs[b] == Begin(id) && id !in OpenIds(msgs, b) && id in OpenIds(msgs, b + 1)
    && forall j :: b < j < k ==> !Closes(msgs[j], id)
  }

  /** The events tagged `id` by the messages from `from` up to `k`, as many as a transaction holds. */
  ghost function Tagged(msgs: seq<Msg>, from: nat, k: nat, id: nat): seq<Event>
    requires k <= |msgs|
  {
    if k <= from then []
    else
      Buffering(Tagged(msgs, from, k - 1, id), msgs[k - 1], id)
  }

  /** An open transaction was opened by a begin and was not closed since. */
  lemma {:induction false} OpenedAt(msgs: seq<Msg>, k: nat, id: nat) returns (b: nat)
    requires k <= |msgs| && id in OpenIds(msgs, k)
    ensures OpenSince(msgs, b, k, id)
    decreases k
  {
    var p := k - 1;
    if id !in OpenIds(msgs, p) {
      b := p;
      JustOpened(msgs, p, k, id);
    } else {
      b := OpenedAt(msgs, p, id);
      StaysOpen(msgs, b, p, k, id);
    }
  }

  lemma JustOpened(msgs: seq<Msg>, p: nat, k: nat, id: nat)
    requires k == p + 1 <= |msgs| && id !in OpenIds(msgs, p) && id in OpenIds(msgs, k)
    ensures OpenSince(msgs, p, k, id)
  {
    assert msgs[p] == Begin(id);
  }

  lemma StaysOpen(msgs: seq<Msg>, b: nat, p: nat, k: nat, id: nat)
    requires k == p + 1 <= |msgs| && OpenSince(msgs, b, p, id) && id in OpenIds(msgs, k)
    ensures OpenSince(msgs, b, k, id)
  {
    assert !Closes(msgs[p], id) by { ClosedIsGone(msgs, p, k, id); }
  }

  lemma ClosedIsGone(msgs: seq<Msg>, p: nat, k: nat, id: nat)
    requires k == p + 1 <= |msgs|
    ensures Closes(msgs[p], id) ==> id !in OpenIds(msgs, k)
  {
  }

  /** It buffers exactly what was tagged with it since. */
  lemma {:induction false} BuffersTagged(msgs: seq<Msg>, b: nat, from: nat, k: nat, id: nat)
    requires OpenSince(msgs, b, k, id) && from == b + 1
    ensures id in OpenIds(msgs, k) && Buffered(msgs, k, id) == Tagged(msgs, from, k, id)
    decreases k
  {
    if k == from {
      assert Buffered(msgs, k, id) == [];
    } else {
      var p := k - 1;
      BuffersTagged(msgs, b, from, p, id);
      StillOpen(msgs, p, k, id);
      TaggedNext(msgs, from, p, k, id);
    }
  }

  ghost function Buffering(t: seq<Event>, m: Msg, id: nat): seq<Event>
  {
    if m.Submit? && m.id == id && |t| < TXN_EVENTS_MAX then t + [m.ev] else t
  }

  lemma StillOpen(msgs: seq<Msg>, p: nat, k: nat, id: nat)
    requires k == p + 1 <= |msgs| && id in OpenIds(msgs, p) && !Closes(msgs[p], id)
    ensures id in OpenIds(msgs, k) && Buffered(msgs, k, id) == Buffering(Buffered(msgs, p, id), msgs[p], id)
  {
  }

  lemma TaggedNext(msgs: seq<Msg>, from: nat, p: nat, k: nat, id: nat)
    requires from <= p && k == p + 1 <= |msgs|
    ensures Tagged(msgs, from, k, id) == Buffering(Tagged(msgs, from, p, id), msgs[p], id)
  {
  }

  lemma {:induction false} TaggedFrom(msgs: seq<Msg>, from: nat, k: nat, id: nat, i: nat) returns (j: nat)
    requires k <= |msgs| && i < |Tagged(msgs, from, k, id)|
    ensures from <= j < k && msgs[j] == Submit(id, Tagged(msgs, from, k, id)[i])
    decreases k
  {
    if i < |Tagged(msgs, from, k - 1, id)| {
      j := TaggedFrom(msgs, from, k - 1, id, i);
    } else {
      j := k - 1;
    }
  }

  // ---------------- blocks ----------------

  /** The message hands over its event by itself. */
  predicate Direct(m: Msg, b: Block)
  {
    ((m.Submit? && m.id == 0) || m.Push? || m.Release? || m.Panic?) && b == [m.ev]
  }

  /** The commit at `k` hands over what was tagged since the begin at `o`. */
  ghost predicate ByCommit(msgs: seq<Msg>, o: nat, k: nat, b: Block)
  {
    && k < |msgs| && msgs[k].Commit? && OpenSince(msgs, o, k, msgs[k].id)
    && b == Restamp(Tagged(msgs, o + 1, k, msgs[k].id), msgs[k].ts)
  }

  ghost predicate HasOrigin(msgs: seq<Msg>, m: nat, b: Block)
    requires m <= |msgs|
  {
    || (exists j :: 0 <= j < m && Direct(msgs[j], b))
    || (exists o, k :: 0 <= o < k < m && ByCommit(msgs, o, k, b))
  }

  lemma CommitOrigin(msgs: seq<Msg>, m: nat, id: nat, ts: nat)
    requires m < |msgs| && msgs[m] == Commit(id, ts) && id in OpenIds(msgs, m)
    ensures HasOrigin(msgs, m + 1, Restamp(Buffered(msgs, m, id), ts))
  {
    var o := OpenedAt(msgs, m, id);
    BuffersTagged(msgs, o, o + 1, m, id);
    assert ByCommit(msgs, o, m, Restamp(Buffered(msgs, m, id), ts));
  }

  lemma DirectOrigin(msgs: seq<Msg>, m: nat, b: Block)
    requires m < |msgs| && Direct(msgs[m], b)
    ensures HasOrigin(msgs, m + 1, b)
  {
  }

  lemma EmittedOrigin(msgs: seq<Msg>, m: nat, b: Block)
    requires m < |msgs| && b in Emitted(SpecTxns(msgs, m), msgs[m])
    ensures HasOrigin(msgs, m + 1, b)
  {
    if msgs[m].Commit? {
      CommitEmits(msgs, m, msgs[m].id, msgs[m].ts);
      CommitOrigin(msgs, m, msgs[m].id, msgs[m].ts);
    } else {
      DirectOrigin(msgs, m, b);
    }
  }

  lemma {:induction false} SpecOrigin(msgs: seq<Msg>, m: nat, b: Block)
    requires m <= |msgs| && b in SpecBlocks(msgs, m)
    ensures HasOrigin(msgs, m, b)
  {
    if m > 0 {
      if b in SpecBlocks(msgs, m - 1) {
        SpecOrigin(msgs, m - 1, b);
      } else {
        EmittedOrigin(msgs, m - 1, b);
      }
    }
  }

  lemma {:induction false} SubsequenceMember(small: seq<Block>, big: seq<Block>, b: Block)
    requires Subsequence(small, big) && b in small
    ensures b in big
    decreases |big|
  {
    var p := big[..|big| - 1];
    if Subsequence(small, p) {
      SubsequenceMember(small, p, b);
    } else if b != small[|small| - 1] {
      SubsequenceMember(small[..|small| - 1], p, b);
    }
  }

  /** Every block the queue ever accepted is the event of one untagged message, or exactly the events
      tagged with an id between its begin and its commit, with nothing that closed it in between. */
  lemma AcceptedHasOrigin<E>(c: Script<E>, moves: seq<Move>, b: Block)
    requires b in After(c, moves).accepted
    ensures After(c, moves).ses.m <= |c.msgs| && HasOrigin(c.msgs, After(c, moves).ses.m, b)
  {
    var _, _ := BlocksAreAtomic(c, moves);
    SubsequenceMember(After(c, moves).accepted, After(c, moves).handed, b);
    SpecOrigin(c.msgs, After(c, moves).ses.m, b);
  }

  // ---------------- events ----------------

  lemma {:induction false} GatherMember(bs: seq<Block>, ids: seq<nat>, ev: Event) returns (b: Block)
    requires Within(ids, |bs|) && ev in Gather(bs, ids)
    ensures b in bs && ev in b
    decreases |ids|
  {
    if ev in bs[ids[|ids| - 1]] {
      b := bs[ids[|ids| - 1]];
    } else {
      b := GatherMember(bs, ids[..|ids| - 1], ev);
    }
  }

  lemma {:induction false} ReplayMember(bs: seq<Block>, done: seq<Done>, a: Applied) returns (b: Block)
    requires DoneWithin(done, |bs|) && a in Replay(bs, done)
    ensures b in bs && a.ev in b
    decreases |done|
  {
    var d := done[|done| - 1];
    if a in Stamp(bs[d.block], d.pos) {
      b := bs[d.block];
    } else {
      b := ReplayMember(bs, done[..|done| - 1], a);
    }
  }

  /** The render thread can see the event: it is queued, or has been applied. */
  ghost predicate Visible<E>(s: Plane<E>, ev: Event)
  {
    ev in s.queue || exists pos :: Applied(pos, ev) in s.au.history
  }

  lemma VisibleInBlock<E>(c: Script<E>, moves: seq<Move>, ev: Event) returns (b: Block)
    requires Visible(After(c, moves), ev)
    ensures b in After(c, moves).accepted && ev in b
  {
    var s := After(c, moves);
    var done, waiting := BlocksAreAtomic(c, moves);
    if ev in s.queue {
      b := GatherMember(s.accepted, waiting, ev);
    } else {
      var pos :| Applied(pos, ev) in s.au.history;
      b := ReplayMember(s.accepted, done, Applied(pos, ev));
    }
  }

  /** The same event up to its timestamp, which a commit replaces. */
  predicate Same(a: Event, b: Event)
  {
    a.(ts := 0) == b.(ts := 0)
  }

  predicate Carries(m: Msg, ev: Event)
  {
    (m.Submit? || m.Push? || m.Release? || m.Panic?) && Same(m.ev, ev)
  }

  /** The tagged submission at `j` falls into a transaction that a later commit closes first. */
  ghost predicate CommittedLater(msgs: seq<Msg>, j: nat)
    requires j < |msgs| && msgs[j].Submit?
  {
    exists o: nat, k: nat :: o < j < k < |msgs| && OpenSince(msgs, o, k, msgs[j].id)
      && msgs[k].Commit? && msgs[k].id == msgs[j].id
  }

  /** Every message that carries the event is tagged, and none is committed: aborted, unknown, or left
      open. */
  ghost predicate Withheld(msgs: seq<Msg>, ev: Event)
  {
    forall j :: 0 <= j < |msgs| && Carries(msgs[j], ev) ==>
      msgs[j].Submit? && msgs[j].id != 0 && !CommittedLater(msgs, j)
  }

  lemma CommitCarries(msgs: seq<Msg>, o: nat, k: nat, b: Block, ev: Event)
    requires ByCommit(msgs, o, k, b) && ev in b
    ensures !Withheld(msgs, ev)
  {
    var id := msgs[k].id;
    var i :| 0 <= i < |b| && b[i] == ev;
    var j := TaggedFrom(msgs, o + 1, k, id, i);
    assert msgs[j].id == id && Carries(msgs[j], ev);
    assert o < j < k && OpenSince(msgs, o, k, msgs[j].id);
    assert CommittedLater(msgs, j);
  }

  lemma OriginCarries(msgs: seq<Msg>, m: nat, b: Block, ev: Event)
    requires m <= |msgs| && HasOrigin(msgs, m, b) && ev in b
    ensures !Withheld(msgs, ev)
  {
    if j :| 0 <= j < m && Direct(msgs[j], b) {
      assert Carries(msgs[j], ev);
    } else {
      var o, k :| 0 <= o < k < m && ByCommit(msgs, o, k, b);
      CommitCarries(msgs, o, k, b, ev);
    }
  }

  /** In every interleaving, a withheld event is never queued and never applied. */
  lemma WithheldNeverVisible<E>(c: Script<E>, moves: seq<Move>, ev: Event)
    requires Withheld(c.msgs, ev)
    ensures !Visible(After(c, moves), ev)
  {
    if Visible(After(c, moves), ev) {
      var b := VisibleInBlock(c, moves, ev);
      AcceptedHasOrigin(c, moves, b);
      OriginCarries(c.msgs, After(c, moves).ses.m, b, ev);
    }
  }
}
