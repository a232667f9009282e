/** The bounded transaction table against the meaning of begin / submit / commit / abort: a set of
    open ids, and for each the events tagged with it since it was opened. */
module Transactions {
  import opened Events
  import opened Session
  import opened Counting

  /** The open transactions after `k` messages. */
  ghost function OpenIds(msgs: seq<Msg>, k: nat): set<nat>
    requires k <= |msgs|
  {
    if k == 0 then {}
    else
      var open := OpenIds(msgs, k - 1);
      match msgs[k - 1]
      case Begin(id) => if id != 0 && id !in open && |open| < TXN_MAX then open + {id} else open
      case Commit(id, _) => open - {id}
      case Abort(id) => open - {id}
      case _ => open
  }

  /** The events tagged `id` since it was last opened, up to the advertised limit. */
  ghost function Buffered(msgs: seq<Msg>, k: nat, id: nat): seq<Event>
    requires k <= |msgs|
  {
    if k == 0 then []
    else
      var open, b := id in OpenIds(msgs, k - 1), Buffered(msgs, k - 1, id);
      var m := msgs[k - 1];
      if m == Begin(id) && !open then []
      else if m.Submit? && m.id == id && open && |b| < TXN_EVENTS_MAX then b + [m.ev]
      else b
  }

  ghost predicate DistinctIds(slots: seq<Txn>)
  {
    && |slots| == TXN_MAX
    && (forall i :: 0 <= i < |slots| && slots[i].open ==> slots[i].id != 0)
    && (forall i, j :: 0 <= i < j < |slots| && slots[i].open && slots[j].open ==> slots[i].id != slots[j].id)
  }

  ghost function Ids(slots: seq<Txn>): set<nat>
  {
    set i | 0 <= i < |slots| && slots[i].open :: slots[i].id
  }

  ghost predicate Holds(slots: seq<Txn>, msgs: seq<Msg>, k: nat)
    requires k <= |msgs|
  {
    forall i :: 0 <= i < |slots| && slots[i].open ==> slots[i].evs == Buffered(msgs, k, slots[i].id)
  }

  ghost predicate Agrees(msgs: seq<Msg>, k: nat)
    requires k <= |msgs|
  {
    var slots := SpecTxns(msgs, k).slots;
    DistinctIds(slots) && Ids(slots) == OpenIds(msgs, k) && Holds(slots, msgs, k)
  }

  lemma FindIsMember(slots: seq<Txn>, id: nat)
    ensures Find(slots, id) < |slots| <==> id in Ids(slots)
  {
    if id in Ids(slots) {
      var i :| 0 <= i < |slots| && slots[i].open && slots[i].id == id;
      assert !(i < Find(slots, id));
    }
  }

  lemma FullIsFour(slots: seq<Txn>)
    requires DistinctIds(slots)
    ensures FindFree(slots) < |slots| <==> |Ids(slots)| < TXN_MAX
  {
    var a, b, c, d := slots[0], slots[1], slots[2], slots[3];
    var all := {a.id, b.id, c.id, d.id};
    var i := FindFree(slots);
    if i == |slots| {
      assert Ids(slots) == all;
    } else {
      Narrow(slots, i);
    }
  }

  lemma Narrow(slots: seq<Txn>, free: nat)
    requires |slots| == TXN_MAX && free < |slots| && !slots[free].open
    ensures |Ids(slots)| < TXN_MAX
  {
    var others := set j | 0 <= j < |slots| && j != free :: slots[j].id;
    assert Ids(slots) <= others;
    SubsetSize(Ids(slots), others);
    var three: set<nat> :=
      if free == 0 then {slots[1].id, slots[2].id, slots[3].id}
      else if free == 1 then {slots[0].id, slots[2].id, slots[3].id}
      else if free == 2 then {slots[0].id, slots[1].id, slots[3].id}
      else {slots[0].id, slots[1].id, slots[2].id};
    assert others == three;
  }

  lemma OpenSlot(slots: seq<Txn>, i: nat, id: nat)
    requires DistinctIds(slots) && i < |slots| && !slots[i].open && id != 0 && id !in Ids(slots)
    ensures var slots' := slots[i := Txn(true, id, [])];
            DistinctIds(slots') && Ids(slots') == Ids(slots) + {id}
  {
    var slots' := slots[i := Txn(true, id, [])];
    assert slots'[i].open;
    forall x | x in Ids(slots) ensures x in Ids(slots') {
      var j :| 0 <= j < |slots| && slots[j].open && slots[j].id == x;
      assert slots'[j] == slots[j];
    }
  }

  /** A begin opens a free slot when the reference opens the id, and is refused when it is not. */
  lemma BeginStep(t: Txns, id: nat)
    requires DistinctIds(t.slots)
    ensures var opens := id != 0 && id !in Ids(t.slots) && |Ids(t.slots)| < TXN_MAX;
            && (opens ==> FindFree(t.slots) < |t.slots|
                          && BeginTxn(t, id).slots == t.slots[FindFree(t.slots) := Txn(true, id, [])])
            && (!opens ==> BeginTxn(t, id).slots == t.slots)
  {
    FindIsMember(t.slots, id);
    FullIsFour(t.slots);
  }

  lemma BeginAgrees(msgs: seq<Msg>, k: nat, id: nat)
    requires k < |msgs| && msgs[k] == Begin(id) && Agrees(msgs, k)
    ensures Agrees(msgs, k + 1)
  {
    var t := SpecTxns(msgs, k);
    BeginStep(t, id);
    if id != 0 && id !in Ids(t.slots) && |Ids(t.slots)| < TXN_MAX {
      var i := FindFree(t.slots);
      OpenSlot(t.slots, i, id);
      OpenHolds(t.slots, i, msgs, k, id);
    } else {
      RefusedHolds(t.slots, msgs, k, id);
    }
  }

  lemma RefusedHolds(slots: seq<Txn>, msgs: seq<Msg>, k: nat, id: nat)
    requires k < |msgs| && msgs[k] == Begin(id) && Holds(slots, msgs, k) && Ids(slots) == OpenIds(msgs, k)
    ensures Holds(slots, msgs, k + 1)
  {
    forall j | 0 <= j < |slots| && slots[j].open ensures slots[j].evs == Buffered(msgs, k + 1, slots[j].id) {
      assert slots[j].id in Ids(slots);
    }
  }

  lemma OpenHolds(slots: seq<Txn>, i: nat, msgs: seq<Msg>, k: nat, id: nat)
    requires k < |msgs| && msgs[k] == Begin(id) && Holds(slots, msgs, k) && i < |slots|
    requires Ids(slots) == OpenIds(msgs, k) && id !in Ids(slots)
    ensures Holds(slots[i := Txn(true, id, [])], msgs, k + 1)
  {
    assert forall j :: 0 <= j < |slots| && slots[j].open ==> slots[j].id in Ids(slots);
    assert Buffered(msgs, k + 1, id) == [];
  }

  lemma SubmitAgrees(msgs: seq<Msg>, k: nat)
    requires k < |msgs| && msgs[k].Submit? && Agrees(msgs, k)
    ensures Agrees(msgs, k + 1)
  {
    var slots, slots', id := SpecTxns(msgs, k).slots, SpecTxns(msgs, k + 1).slots, msgs[k].id;
    FindIsMember(slots, id);
    assert forall j :: 0 <= j < |slots| ==> slots'[j].open == slots[j].open && slots'[j].id == slots[j].id;
    assert Ids(slots') == Ids(slots);
  }

  lemma CloseSlot(slots: seq<Txn>, i: nat, id: nat)
    requires DistinctIds(slots) && i < |slots| && slots[i].open && slots[i].id == id
    ensures var slots' := slots[i := slots[i].(open := false)];
            DistinctIds(slots') && Ids(slots') == Ids(slots) - {id}
  {
    var slots' := slots[i := slots[i].(open := false)];
    forall x | x in Ids(slots) && x != id ensures x in Ids(slots') {
      var j :| 0 <= j < |slots| && slots[j].open && slots[j].id == x;
      assert slots'[j] == slots[j];
    }
  }

  /** Messages that leave every open slot as it was leave what it holds as it was. */
  lemma HoldsOn(slots: seq<Txn>, slots': seq<Txn>, msgs: seq<Msg>, k: nat)
    requires k < |msgs| && Holds(slots, msgs, k) && |slots'| == |slots|
    requires forall i :: 0 <= i < |slots| && slots'[i].open ==> slots'[i] == slots[i]
    requires !msgs[k].Submit? && !msgs[k].Begin?
    ensures Holds(slots', msgs, k + 1)
  {
  }

  lemma CloseAgrees(msgs: seq<Msg>, k: nat, id: nat)
    requires k < |msgs| && (msgs[k] == Abort(id) || (msgs[k].Commit? && msgs[k].id == id)) && Agrees(msgs, k)
    ensures Agrees(msgs, k + 1)
  {
    var t := SpecTxns(msgs, k);
    var slots, slots' := t.slots, CloseTxn(t, id).slots;
    assert SpecTxns(msgs, k + 1).slots == slots';
    FindIsMember(slots, id);
    var i := Find(slots, id);
    if i < |slots| {
      CloseSlot(slots, i, id);
    }
    HoldsOn(slots, slots', msgs, k);
  }

  lemma OtherAgrees(msgs: seq<Msg>, k: nat)
    requires k < |msgs| && Agrees(msgs, k)
    requires msgs[k].Rejected? || msgs[k].Push? || msgs[k].Release? || msgs[k].Panic?
    ensures Agrees(msgs, k + 1)
  {
    HoldsOn(SpecTxns(msgs, k).slots, SpecTxns(msgs, k + 1).slots, msgs, k);
  }

  lemma NextAgrees(msgs: seq<Msg>, k: nat)
    requires k < |msgs| && Agrees(msgs, k)
    ensures Agrees(msgs, k + 1)
  {
    match msgs[k] {
      case Begin(id) => BeginAgrees(msgs, k, id);
      case Submit(_, _) => SubmitAgrees(msgs, k);
      case Commit(id, _) => CloseAgrees(msgs, k, id);
      case Abort(id) => CloseAgrees(msgs, k, id);
      case _ => OtherAgrees(msgs, k);
    }
  }

  /** The table of four slots holds exactly the open transactions, each with its buffered events. */
  lemma {:induction false} TableIsReference(msgs: seq<Msg>, k: nat)
    requires k <= |msgs|
    ensures Agrees(msgs, k)
  {
    if k == 0 {
      assert Ids(NO_TXNS.slots) == {};
    } else {
      TableIsReference(msgs, k - 1);
      NextAgrees(msgs, k - 1);
    }
  }

  lemma CommitEmits(msgs: seq<Msg>, k: nat, id: nat, ts: nat)
    requires k < |msgs| && msgs[k] == Commit(id, ts)
    ensures Emitted(SpecTxns(msgs, k), msgs[k])
         == if id in OpenIds(msgs, k) && Buffered(msgs, k, id) != [] then [Restamp(Buffered(msgs, k, id), ts)] else []
  {
    TableIsReference(msgs, k);
    FindIsMember(SpecTxns(msgs, k).slots, id);
  }

  /** A commit hands over, as one block, exactly the events submitted under its id since it was
      opened, all restamped to the commit instant; with an unknown id, or nothing buffered, nothing. */
  lemma CommitHandsOver(msgs: seq<Msg>, k: nat, id: nat, ts: nat)
    requires k < |msgs| && msgs[k] == Commit(id, ts)
    ensures SpecBlocks(msgs, k + 1) == SpecBlocks(msgs, k)
      + if id in OpenIds(msgs, k) && Buffered(msgs, k, id) != [] then [Restamp(Buffered(msgs, k, id), ts)] else []
  {
    CommitEmits(msgs, k, id, ts);
  }

  // ---------------- the counters ----------------

  /** The begins refused: a zero id, an id already open, or four transactions open. */
  ghost function RefusedBegins(msgs: seq<Msg>, k: nat): nat
    requires k <= |msgs|
  {
    if k == 0 then 0
    else
      var open, m := OpenIds(msgs, k - 1), msgs[k - 1];
      RefusedBegins(msgs, k - 1) + if m.Begin? && (m.id == 0 || m.id in open || |open| >= TXN_MAX) then 1 else 0
  }

  /** The tagged events a full transaction swallowed. */
  ghost function SwallowedEvents(msgs: seq<Msg>, k: nat): nat
    requires k <= |msgs|
  {
    if k == 0 then 0
    else
      var m := msgs[k - 1];
      SwallowedEvents(msgs, k - 1)
      + if m.Submit? && m.id in OpenIds(msgs, k - 1) && |Buffered(msgs, k - 1, m.id)| >= TXN_EVENTS_MAX then 1 else 0
  }

  /** The tagged events, commits and aborts that name no open transaction. */
  ghost function StrayMessages(msgs: seq<Msg>, k: nat): nat
    requires k <= |msgs|
  {
    if k == 0 then 0
    else
      var m := msgs[k - 1];
      var names := (m.Submit? && m.id != 0) || m.Commit? || m.Abort?;
      StrayMessages(msgs, k - 1) + if names && m.id !in OpenIds(msgs, k - 1) then 1 else 0
  }

  ghost predicate CountersAgree(t: Txns, msgs: seq<Msg>, k: nat)
    requires k <= |msgs|
  {
    && t.rejected == RefusedBegins(msgs, k) && t.overflow == SwallowedEvents(msgs, k)
    && t.unknown == StrayMessages(msgs, k)
  }

  /** The counters after one message, with the open ids and the message's buffer given. */
  ghost predicate CountersStep(t: Txns, t': Txns, m: Msg, open: set<nat>, full: bool)
  {
    && t'.rejected == t.rejected + (if m.Begin? && (m.id == 0 || m.id in open || |open| >= TXN_MAX) then 1 else 0)
    && t'.overflow == t.overflow + (if m.Submit? && m.id in open && full then 1 else 0)
    && t'.unknown
       == t.unknown + (if ((m.Submit? && m.id != 0) || m.Commit? || m.Abort?) && m.id !in open then 1 else 0)
  }

  /** The slot `m` names holds a full transaction exactly if `full` says so. */
  ghost predicate FullIf(slots: seq<Txn>, m: Msg, full: bool)
  {
    m.Submit? ==> forall i :: 0 <= i < |slots| && slots[i].open && slots[i].id == m.id ==>
      (full <==> |slots[i].evs| >= TXN_EVENTS_MAX)
  }

  lemma SubmitCounts(t: Txns, m: Msg, open: set<nat>, full: bool)
    requires m.Submit? && DistinctIds(t.slots) && Ids(t.slots) == open && FullIf(t.slots, m, full)
    ensures CountersStep(t, TxnsAfter(t, m), m, open, full)
  {
    FindIsMember(t.slots, m.id);
    assert m.id in open ==> m.id != 0;
  }

  lemma BeginCounts(t: Txns, m: Msg, open: set<nat>, full: bool)
    requires m.Begin? && DistinctIds(t.slots) && Ids(t.slots) == open
    ensures CountersStep(t, TxnsAfter(t, m), m, open, full)
  {
    FindIsMember(t.slots, m.id);
    FullIsFour(t.slots);
  }

  lemma TableCounts(t: Txns, m: Msg, open: set<nat>, full: bool)
    requires DistinctIds(t.slots) && Ids(t.slots) == open && FullIf(t.slots, m, full)
    ensures CountersStep(t, TxnsAfter(t, m), m, open, full)
  {
    match m {
      case Submit(_, _) => SubmitCounts(t, m, open, full);
      case Begin(_) => BeginCounts(t, m, open, full);
      case Commit(id, _) => FindIsMember(t.slots, id);
      case Abort(id) => FindIsMember(t.slots, id);
      case _ =>
    }
  }

  lemma CountersNext(msgs: seq<Msg>, p: nat, k: nat, t: Txns)
    requires k == p + 1 <= |msgs| && t == SpecTxns(msgs, p) && Agrees(msgs, p) && CountersAgree(t, msgs, p)
    ensures CountersAgree(TxnsAfter(t, msgs[p]), msgs, k)
  {
    var m := msgs[p];
    var full := m.Submit? && |Buffered(msgs, p, m.id)| >= TXN_EVENTS_MAX;
    TableCounts(t, m, OpenIds(msgs, p), full);
    ReferenceCounts(t, TxnsAfter(t, m), msgs, p, k, full);
  }

  lemma ReferenceCounts(t: Txns, t': Txns, msgs: seq<Msg>, p: nat, k: nat, full: bool)
    requires k == p + 1 <= |msgs| && CountersAgree(t, msgs, p) && CountersStep(t, t', msgs[p], OpenIds(msgs, p), full)
    requires full == (msgs[p].Submit? && |Buffered(msgs, p, msgs[p].id)| >= TXN_EVENTS_MAX)
    ensures CountersAgree(t', msgs, k)
  {
  }

  /** The table's three counters count exactly those messages. */
  lemma {:induction false} CountersAreReference(msgs: seq<Msg>, k: nat)
    requires k <= |msgs|
    ensures CountersAgree(SpecTxns(msgs, k), msgs, k)
  {
    if k > 0 {
      TableIsReference(msgs, k - 1);
      CountersAreReference(msgs, k - 1);
      CountersNext(msgs, k - 1, k, SpecTxns(msgs, k - 1));
    }
  }
}
