/** Whole runs of a table: whatever sequence of operations it serves, every slot keeps behaving as a plain map. */
module StoreRuns {
  import opened ChildIds
  import opened Collections
  import opened HashTables
  import opened IdAllocation
  import opened IdMapping
  import opened SlotGroups
  import opened Words

  datatype Op =
    | Lookup(ids: seq<int64>)
    | LookupReadOnly(ids: seq<int64>)
    | Insert(ids: seq<int64>, rows: seq<Row>)
    | Delete(ids: seq<int64>)
    | Clear(child: string)

  type View = map<int64, Row>

  /** What a run amounts to: a plain map, and whether an index was lost on the way. */
  datatype Model = Model(view: View, leaked: bool)

  datatype Reply = Found(rows: seq<Row>) | Done | Failed

  /** What callers of the table see to: deleted ids are distinct and present. */
  ghost predicate Legal(v: View, op: Op) {
    op.Delete? ==> Distinct(op.ids) && forall id :: id in op.ids ==> id in v
  }

  /** A batch that repeats an unknown id loses an index. */
  ghost predicate Leaks(v: View, op: Op) {
    match op
    case Lookup(ids) => !MissingDistinct(v, ids)
    case Insert(ids, rows) => |ids| == |rows| && !MissingDistinct(v, ids)
    case _ => false
  }

  /** Clearing goes through a snapshot of the ids, which fails for good once an index is lost. */
  ghost predicate Clears(m: Model, child: string, children: seq<string>) {
    !m.leaked && (child == "" || child in children)
  }

  /** A clear of one child, said of encoded ids: in every slot the ids of the child below 2048 are gone, and every other id
      reads as before. */
  lemma ClearsChild(m: Model, init: Row, isEmb: bool, children: seq<string>, child: string, id: int64, d: nat)
    requires child != "" && child in children && ValidChildren(children, true) && d < |children| && 0 <= id < ID_SPAN
    requires !m.leaked && EncodeId(id, d) in m.view
    ensures var after := Apply(m, Clear(child), init, isEmb, children).view;
            if children[d] == child && d < 2048 then EncodeId(id, d) !in after
            else EncodeId(id, d) in after && after[EncodeId(id, d)] == m.view[EncodeId(id, d)]
  {
    OwnedEncoded(m.view.Keys, children, child, id, d);
  }

  /** A read-only lookup answers zeros for an id that is not there. */
  ghost predicate ZeroIfUnknown(m: Model, op: Op, out: Reply, dim: nat) {
    op.LookupReadOnly? ==>
      out.Found? && |out.rows| == |op.ids| && forall i :: 0 <= i < |op.ids| && op.ids[i] !in m.view ==> IsZero(out.rows[i], dim)
  }

  /** The rows found are those the table has afterwards. */
  ghost predicate ReadsView(v: View, ids: seq<int64>, out: Reply) {
    out.Found? && |out.rows| == |ids| && forall i :: 0 <= i < |ids| && ids[i] in v ==> out.rows[i] == v[ids[i]]
  }

  /** The effect on a plain map; only the embedding slot receives inserted rows. */
  ghost function Apply(m: Model, op: Op, init: Row, isEmb: bool, children: seq<string>): Model {
    var v := m.view;
    var after :=
      match op
      case Lookup(ids) => Admitted(v, ids, init)
      case LookupReadOnly(_) => v
      case Insert(ids, rows) =>
        if |ids| != |rows| then v else if isEmb then Written(v, ids, rows) else Admitted(v, ids, init)
      case Delete(ids) => v - Elems(ids)
      case Clear(child) => if Clears(m, child, children) then v - OwnedBy(v.Keys, children, child) else v;
    Model(after, m.leaked || Leaks(v, op))
  }

  /** The rows of a batch; ids without one read as `other`. */
  ghost function Looked(v: View, ids: seq<int64>, other: Row): (r: seq<Row>)
    ensures |r| == |ids| && forall i :: 0 <= i < |ids| ==> r[i] == if ids[i] in v then v[ids[i]] else other
  {
    seq(|ids|, i requires 0 <= i < |ids| => if ids[i] in v then v[ids[i]] else other)
  }

  /** What an operation answers, from the plain map alone. */
  ghost function Answer(m: Model, op: Op, init: Row, dim: nat, children: seq<string>): Reply {
    var v := m.view;
    match op
    case Lookup(ids) => Found(Looked(v, ids, init))
    case LookupReadOnly(ids) => Found(Looked(v, ids, Zeros(dim)))
    case Insert(ids, rows) => if |ids| == |rows| then Done else Failed
    case Delete(_) => Done
    case Clear(child) => if Clears(m, child, children) then Done else Failed
  }

  ghost function ApplyAll(m: Model, ops: seq<Op>, init: Row, isEmb: bool, children: seq<string>): Model {
    if ops == [] then m
    else Apply(ApplyAll(m, ops[..|ops| - 1], init, isEmb, children), ops[|ops| - 1], init, isEmb, children)
  }

  ghost predicate LegalRun(m: Model, ops: seq<Op>, init: Row, children: seq<string>) {
    forall k :: 0 <= k < |ops| ==> Legal(ApplyAll(m, ops[..k], init, true, children).view, ops[k])
  }

  /** How many indexes an operation can draw at most. */
  function Draws(op: Op): nat {
    match op
    case Lookup(ids) => |ids|
    case Insert(ids, _) => |ids|
    case _ => 0
  }

  function TotalDraws(ops: seq<Op>): nat {
    if ops == [] then 0 else TotalDraws(ops[..|ops| - 1]) + Draws(ops[|ops| - 1])
  }

  lemma {:induction false} DrawsPrefix(ops: seq<Op>, k: nat)
    requires k <= |ops|
    ensures TotalDraws(ops[..k]) <= TotalDraws(ops)
  {
    if k == |ops| {
      assert ops[..k] == ops;
    } else {
      assert ops[..|ops| - 1][..k] == ops[..k];
      DrawsPrefix(ops[..|ops| - 1], k);
    }
  }

  /** One operation, seen from all slots at once. */
  ghost predicate Refines(t: Table, lost: bool, after: Table, lostAfter: bool, op: Op, children: seq<string>) {
    && t.Ok() && after.Ok() && after.inits == t.inits && t.cur <= after.cur <= t.cur + Draws(op)
    && forall j :: 0 <= j < |t.rows| && t.Clean(j) ==>
         && after.Clean(j)
         && Model(after.View(j), lostAfter) == Apply(Model(t.View(j), lost), op, t.inits[j], j == EMB, children)
  }

  lemma DrawFits(m: map<int64, nat>, ids: seq<int64>, free: nat, bound: nat)
    requires free <= bound && bound + |ids| < 0x8000_0000
    ensures CastFits(free, |MissingPositions(m, ids)|)
  {
    SubrangeSize(MissingPositions(m, ids), |ids|);
  }

  /** Which ids a batch repeats is seen the same in every slot. */
  lemma SameMissing(t: Table, j: nat, ids: seq<int64>)
    requires t.Ok() && j < |t.rows|
    ensures MissingDistinct(t.View(j), ids) <==> MissingDistinct(t.ids, ids)
  {
    assert t.View(j).Keys == t.ids.Keys;
    assert forall id :: id in t.View(j) <==> id in t.ids;
  }

  lemma InsertRefines(t: Table, lost: bool, after: Table, lostAfter: bool, ids: seq<int64>, rows: seq<Row>, children: seq<string>)
    requires if |ids| == |rows| then InsertStep(t, after, ids, rows) else t.Ok() && after == t
    requires lostAfter <==> lost || (|ids| == |rows| && !MissingDistinct(t.ids, ids))
    ensures Refines(t, lost, after, lostAfter, Insert(ids, rows), children)
  {
    forall j | 0 <= j < |t.rows|
      ensures MissingDistinct(t.View(j), ids) <==> MissingDistinct(t.ids, ids)
    {
      SameMissing(t, j, ids);
    }
  }

  lemma DropRefines(t: Table, lost: bool, after: Table, op: Op, children: seq<string>)
    requires op.Delete? || op.Clear?
    requires op.Delete? ==> DropStep(t, after, Elems(op.ids), -1)
    requires op.Clear? ==>
               if !lost && (op.child == "" || op.child in children)
               then DropStep(t, after, OwnedBy(t.ids.Keys, children, op.child), -1)
               else t.Ok() && after == t
    ensures Refines(t, lost, after, lost, op, children)
  {
  }

  ghost function Seen(ht: Hashtable): Model
    requires ht.Usable()
    reads ht, ht.idMap, ht.idMap.allocator, ht.slotGroup
  {
    Model(ht.State().View(EMB), !ht.Valid())
  }

  /** Runs one operation on the table object. */
  method Perform(ht: Hashtable, op: Op) returns (out: Reply)
    requires ht.Usable() && ht.State().Clean(EMB) && Legal(ht.State().View(EMB), op)
    requires ht.idMap.allocator.curSize + Draws(op) < 0x8000_0000
    modifies ht.idMap, ht.idMap.allocator, ht.slotGroup
    ensures ht.Usable() && ht.slotGroup.SameSlots()
    ensures Refines(old(ht.State()), old(!ht.Valid()), ht.State(), !ht.Valid(), op, ht.children)
    ensures out == Answer(old(Seen(ht)), op, old(ht.State()).inits[EMB], ht.slotGroup.slots[EMB].dim, ht.children)
    ensures ZeroIfUnknown(old(Seen(ht)), op, out, ht.slotGroup.slots[EMB].dim)
    ensures op.Lookup? || op.LookupReadOnly? ==> ReadsView(ht.State().View(EMB), op.ids, out)
  {
    ghost var t, lost := ht.State(), !ht.Valid();
    if op.Lookup? || op.LookupReadOnly? {
      var rows := PerformLookup(ht, op.ids, op.LookupReadOnly?);
      out := Found(rows);
    } else if op.Insert? {
      var ok := PerformInsert(ht, op.ids, op.rows);
      out := if ok then Done else Failed;
    } else {
      var ok := true;
      if op.Delete? {
        PerformDelete(ht, op.ids);
      } else {
        ok := ht.Clear(op.child);
      }
      DropRefines(t, lost, ht.State(), op, ht.children);
      out := if ok then Done else Failed;
    }
  }

  method PerformInsert(ht: Hashtable, ids: seq<int64>, rows: seq<Row>) returns (ok: bool)
    requires ht.Usable() && ht.idMap.allocator.curSize + |ids| < 0x8000_0000
    modifies ht.idMap, ht.idMap.allocator, ht.slotGroup
    ensures ht.Usable() && ht.slotGroup.SameSlots() && (ok <==> |ids| == |rows|)
    ensures Refines(old(ht.State()), old(!ht.Valid()), ht.State(), !ht.Valid(), Insert(ids, rows), ht.children)
  {
    ghost var t, lost := ht.State(), !ht.Valid();
    LiveCount(Live(ht.idMap.idsMap), ht.idMap.allocator.Stack(), ht.idMap.allocator.curSize);
    DrawFits(ht.idMap.idsMap, ids, ht.idMap.allocator.freeSize, ht.idMap.allocator.curSize);
    ok := ht.Insert(ids, rows);
    InsertRefines(t, lost, ht.State(), !ht.Valid(), ids, rows, ht.children);
  }

  method PerformLookup(ht: Hashtable, ids: seq<int64>, readonly: bool) returns (out: seq<Row>)
    requires ht.Usable() && ht.State().Clean(EMB)
    requires readonly || ht.idMap.allocator.curSize + |ids| < 0x8000_0000
    modifies ht.idMap, ht.idMap.allocator, ht.slotGroup
    ensures ht.Usable() && ht.slotGroup.SameSlots()
    ensures var op := if readonly then LookupReadOnly(ids) else Lookup(ids);
            && Refines(old(ht.State()), old(!ht.Valid()), ht.State(), !ht.Valid(), op, ht.children)
            && ReadsView(ht.State().View(EMB), ids, Found(out))
            && Found(out) == Answer(old(Seen(ht)), op, old(ht.State()).inits[EMB], ht.slotGroup.slots[EMB].dim, ht.children)
  {
    ghost var t, lost := ht.State(), !ht.Valid();
    LiveCount(Live(ht.idMap.idsMap), ht.idMap.allocator.Stack(), ht.idMap.allocator.curSize);
    if !readonly {
      DrawFits(ht.idMap.idsMap, ids, ht.idMap.allocator.freeSize, ht.idMap.allocator.curSize);
    }
    var index, emb := ht.EmbeddingLookup(ids, readonly);
    out := emb[..];
    LookupRefines(t, lost, ht.State(), !ht.Valid(), ids, readonly, ht.children);
    LookupAnswers(t, ht.State(), ids, readonly, index[..], out, ht.slotGroup.slots[EMB].dim);
  }

  lemma LookupAnswers(t: Table, after: Table, ids: seq<int64>, readonly: bool, index: seq<int>, emb: seq<Row>, dim: nat)
    requires AdmitStep(t, after, if readonly then [] else ids) && t.Clean(EMB) && Fetched(after, ids, index, emb, dim)
    requires !readonly ==> forall i :: 0 <= i < |ids| ==> ids[i] in after.ids
    ensures emb == Looked(t.View(EMB), ids, if readonly then Zeros(dim) else t.inits[EMB])
  {
    forall i | 0 <= i < |ids|
      ensures emb[i] == Looked(t.View(EMB), ids, if readonly then Zeros(dim) else t.inits[EMB])[i]
    {
      AdmitStepView(t, after, if readonly then [] else ids, EMB);
      FetchedRow(t, after, ids, readonly, emb, dim, i);
    }
  }

  lemma FetchedRow(t: Table, after: Table, ids: seq<int64>, readonly: bool, emb: seq<Row>, dim: nat, i: nat)
    requires t.Ok() && after.Ok() && i < |ids| == |emb|
    requires after.View(EMB) == Admitted(t.View(EMB), if readonly then [] else ids, t.inits[EMB])
    requires emb[i] == if ids[i] in after.ids then after.View(EMB)[ids[i]] else Zeros(dim)
    requires !readonly ==> ids[i] in after.ids
    ensures emb[i] == Looked(t.View(EMB), ids, if readonly then Zeros(dim) else t.inits[EMB])[i]
  {
    assert ids[i] in after.ids <==> ids[i] in after.View(EMB);
    assert ids[i] in after.View(EMB) <==> ids[i] in t.View(EMB) || (!readonly && ids[i] in Elems(ids));
  }

  lemma AdmitRefines(t: Table, lost: bool, after: Table, lostAfter: bool, ids: seq<int64>, children: seq<string>)
    requires AdmitStep(t, after, ids) && (lostAfter <==> lost || !MissingDistinct(t.ids, ids))
    ensures Refines(t, lost, after, lostAfter, Lookup(ids), children)
  {
    forall j | 0 <= j < |t.rows| && t.Clean(j)
      ensures after.Clean(j) && after.View(j) == Admitted(t.View(j), ids, t.inits[j])
      ensures MissingDistinct(t.View(j), ids) <==> MissingDistinct(t.ids, ids)
    {
      AdmitStepView(t, after, ids, j);
      SameMissing(t, j, ids);
    }
  }

  lemma NoneAdmitted(v: View, init: Row)
    ensures Admitted(v, [], init) == v
  {
    assert forall id :: id in Admitted(v, [], init) <==> id in v;
  }

  lemma ReadRefines(t: Table, lost: bool, after: Table, ids: seq<int64>, children: seq<string>)
    requires AdmitStep(t, after, [])
    ensures Refines(t, lost, after, lost, LookupReadOnly(ids), children)
  {
    forall j | 0 <= j < |t.rows| && t.Clean(j)
      ensures after.Clean(j) && after.View(j) == t.View(j)
    {
      AdmitStepView(t, after, [], j);
      NoneAdmitted(t.View(j), t.inits[j]);
    }
  }

  lemma LookupRefines(t: Table, lost: bool, after: Table, lostAfter: bool, ids: seq<int64>, readonly: bool, children: seq<string>)
    requires AdmitStep(t, after, if readonly then [] else ids)
    requires lostAfter <==> lost || (!readonly && !MissingDistinct(t.ids, ids))
    ensures Refines(t, lost, after, lostAfter, if readonly then LookupReadOnly(ids) else Lookup(ids), children)
  {
    if readonly {
      ReadRefines(t, lost, after, ids, children);
    } else {
      AdmitRefines(t, lost, after, lostAfter, ids, children);
    }
  }

  method PerformDelete(ht: Hashtable, ids: seq<int64>)
    requires ht.Usable() && Distinct(ids) && forall id :: id in ids ==> id in ht.idMap.idsMap
    modifies ht.idMap, ht.idMap.allocator, ht.slotGroup
    ensures ht.Usable() && ht.slotGroup.SameSlots() && (ht.Valid() <==> old(ht.Valid()))
    ensures DropStep(old(ht.State()), ht.State(), Elems(ids), -1)
  {
    var found := ht.idMap.LookupReadOnly(ids);
    var index: seq<nat> := [];
    for i := 0 to |ids|
      invariant |index| == i && ht.Usable() && ht.State() == old(ht.State())
      invariant forall k :: 0 <= k < i ==> index[k] == ht.idMap.idsMap[ids[k]]
    {
      assert ids[i] in ids;
      index := index + [found[i]];
    }
    ht.Delete(ids, index, "");
  }

  /** After the operations every slot is clean and equal to the plain map after the same operations, and an index is
      lost exactly if one of them lost one. */
  ghost predicate RunRefines(t: Table, lost: bool, after: Table, lostAfter: bool, ops: seq<Op>, children: seq<string>) {
    && t.Ok() && after.Ok() && after.inits == t.inits && after.cur <= t.cur + TotalDraws(ops)
    && forall j :: 0 <= j < |t.rows| ==>
         && after.Clean(j)
         && Model(after.View(j), lostAfter) == ApplyAll(Model(t.View(j), lost), ops, t.inits[j], j == EMB, children)
  }

  /** The answers a plain map would give along the run. */
  ghost function Answers(m: Model, ops: seq<Op>, init: Row, dim: nat, children: seq<string>): seq<Reply> {
    if ops == [] then []
    else
      var n := |ops| - 1;
      Answers(m, ops[..n], init, dim, children)
        + [Answer(ApplyAll(m, ops[..n], init, true, children), ops[n], init, dim, children)]
  }

  lemma RunStep(t: Table, lost: bool, now: Table, lostNow: bool, after: Table, lostAfter: bool, ops: seq<Op>, i: nat,
                children: seq<string>)
    requires i < |ops| && RunRefines(t, lost, now, lostNow, ops[..i], children)
    requires Refines(now, lostNow, after, lostAfter, ops[i], children)
    ensures RunRefines(t, lost, after, lostAfter, ops[..i + 1], children)
  {
    assert ops[..i + 1][..i] == ops[..i];
  }

  lemma AnswersStep(t: Table, lost: bool, now: Table, lostNow: bool, ops: seq<Op>, i: nat, dim: nat, children: seq<string>)
    requires i < |ops| && RunRefines(t, lost, now, lostNow, ops[..i], children)
    ensures var m := Model(t.View(EMB), lost);
            Answers(m, ops[..i + 1], t.inits[EMB], dim, children)
            == Answers(m, ops[..i], t.inits[EMB], dim, children)
               + [Answer(Model(now.View(EMB), lostNow), ops[i], t.inits[EMB], dim, children)]
  {
    assert ops[..i + 1][..i] == ops[..i];
  }

  lemma NextIsLegal(t: Table, lost: bool, now: Table, lostNow: bool, ops: seq<Op>, i: nat, children: seq<string>)
    requires i < |ops| && RunRefines(t, lost, now, lostNow, ops[..i], children)
    requires LegalRun(Model(t.View(EMB), lost), ops, t.inits[EMB], children)
    ensures Legal(now.View(EMB), ops[i]) && now.cur + Draws(ops[i]) <= t.cur + TotalDraws(ops)
  {
    DrawsPrefix(ops, i + 1);
    assert ops[..i + 1][..i] == ops[..i];
    assert Model(now.View(EMB), lostNow) == ApplyAll(Model(t.View(EMB), lost), ops[..i], t.inits[EMB], true, children);
  }

  /** Any legal run, of any length and with whatever batches, leaves every slot equal to the plain map after the same
      operations, and every operation in it answered what the plain map would. */
  method Run(ht: Hashtable, ops: seq<Op>) returns (outs: seq<Reply>)
    requires ht.Usable() && ht.idMap.allocator.curSize + TotalDraws(ops) < 0x8000_0000
    requires forall j :: 0 <= j < |ht.State().rows| ==> ht.State().Clean(j)
    requires LegalRun(Seen(ht), ops, ht.State().inits[EMB], ht.children)
    modifies ht.idMap, ht.idMap.allocator, ht.slotGroup
    ensures ht.Usable()
    ensures RunRefines(old(ht.State()), old(!ht.Valid()), ht.State(), !ht.Valid(), ops, ht.children)
    ensures outs == Answers(old(Seen(ht)), ops, old(ht.State()).inits[EMB], old(ht.slotGroup.slots[EMB].dim), ht.children)
    ensures |outs| == |ops| && forall k :: 0 <= k < |ops| ==>
              ZeroIfUnknown(ApplyAll(old(Seen(ht)), ops[..k], old(ht.State()).inits[EMB], true, ht.children), ops[k], outs[k],
                            old(ht.slotGroup.slots[EMB].dim))
  {
    ghost var t, lost, dim := ht.State(), !ht.Valid(), ht.slotGroup.slots[EMB].dim;
    outs := [];
    for i := 0 to |ops|
      invariant ht.Usable() && ht.slotGroup.SameSlots()
      invariant RunRefines(t, lost, ht.State(), !ht.Valid(), ops[..i], ht.children)
      invariant outs == Answers(Model(t.View(EMB), lost), ops[..i], t.inits[EMB], dim, ht.children)
    {
      ghost var now, lostNow := ht.State(), !ht.Valid();
      NextIsLegal(t, lost, now, lostNow, ops, i, ht.children);
      var out := Perform(ht, ops[i]);
      RunStep(t, lost, now, lostNow, ht.State(), !ht.Valid(), ops, i, ht.children);
      AnswersStep(t, lost, now, lostNow, ops, i, dim, ht.children);
      outs := outs + [out];
    }
    assert ops[..|ops|] == ops;
    AnswersZero(Model(t.View(EMB), lost), ops, t.inits[EMB], dim, ht.children);
  }

  /** The answer to operation `k` is that of the plain map after the operations before it. */
  lemma {:induction false} AnswersAt(m: Model, ops: seq<Op>, init: Row, dim: nat, children: seq<string>, k: nat)
    requires k < |ops|
    ensures |Answers(m, ops, init, dim, children)| == |ops|
    ensures Answers(m, ops, init, dim, children)[k]
            == Answer(ApplyAll(m, ops[..k], init, true, children), ops[k], init, dim, children)
  {
    var n := |ops| - 1;
    if n > 0 {
      var j: nat := if k < n then k else 0;
      AnswersAt(m, ops[..n], init, dim, children, j);
      assert ops[..n][..j] == ops[..j];
    }
  }

  lemma AnswerZero(m: Model, op: Op, init: Row, dim: nat, children: seq<string>)
    ensures ZeroIfUnknown(m, op, Answer(m, op, init, dim, children), dim)
  {
  }

  lemma AnswersZero(m: Model, ops: seq<Op>, init: Row, dim: nat, children: seq<string>)
    ensures var outs := Answers(m, ops, init, dim, children);
            |outs| == |ops| && forall k :: 0 <= k < |ops| ==>
              ZeroIfUnknown(ApplyAll(m, ops[..k], init, true, children), ops[k], outs[k], dim)
  {
    forall k | 0 <= k < |ops|
      ensures |Answers(m, ops, init, dim, children)| == |ops|
      ensures ZeroIfUnknown(ApplyAll(m, ops[..k], init, true, children), ops[k], Answers(m, ops, init, dim, children)[k], dim)
    {
      AnswersAt(m, ops, init, dim, children, k);
      AnswerZero(ApplyAll(m, ops[..k], init, true, children), ops[k], init, dim, children);
    }
  }
}
