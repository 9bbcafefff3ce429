// Whole runs of history operations.
module Runs {
  import opened Basics
  import opened HistoryModel
  import opened Forests
  import UpsertForest
  import DeleteForest
  import MergeForest
  import RepairForest

  datatype Op =
    | Write(id: Id, payload: Payload, now: int)
    | Remove(id: Id)
    | MergeIn(incoming: History)
    | Heal

  ghost predicate Sensible(op: Op) {
    op.MergeIn? ==> WellFormed(op.incoming)
  }

  ghost function Step(h: History, op: Op): (r: History)
    requires WellFormed(h) && Sensible(op)
    ensures WellFormed(r)
  {
    match op
    case Write(id, p, now) =>
      NoDupAppendFresh(h.order, id);
      Upsert(h, id, p, now)
    case Remove(d) =>
      RestrictNoDup(h.order, Elements(h.order) - DeletedIds(h.msgs, d));
      Delete(h, d)
    case MergeIn(b) =>
      MergeForest.MergedOrdered(h, b);
      Merge(h, b)
    case Heal => Repair(h)
  }

  lemma NoDupAppendFresh(s: seq<Id>, x: Id)
    ensures NoDup(s) && x !in s ==> NoDup(s + [x])
  {
  }

  // The caller's obligations: a well-behaved payload, a parent-closed copy.
  ghost predicate Allowed(h: History, op: Op)
    requires WellFormed(h) && Sensible(op)
  {
    match op
    case Write(id, p, _) => UpsertForest.UpsertOk(h, id, p)
    case MergeIn(b) => "" !in b.msgs && ParentClosedAcyclic(b.msgs)
    case _ => true
  }

  ghost function Run(h: History, ops: seq<Op>): (r: History)
    requires WellFormed(h) && forall op :: op in ops ==> Sensible(op)
    ensures WellFormed(r)
  {
    if ops == [] then h else Step(Run(h, ops[..|ops| - 1]), ops[|ops| - 1])
  }

  // A run performs its operations one after the other.
  lemma RunExtends(h: History, ops: seq<Op>, op: Op)
    requires WellFormed(h) && (forall o :: o in ops ==> Sensible(o)) && Sensible(op)
    ensures var before, after := Run(h, ops), Run(h, ops + [op]);
            && (op.Write? ==> after == Upsert(before, op.id, op.payload, op.now))
            && (op.Remove? ==> after == Delete(before, op.id))
            && (op.MergeIn? ==> after == Merge(before, op.incoming))
            && (op.Heal? ==> after == Repair(before))
  {
    assert (ops + [op])[..|ops|] == ops;
  }

  ghost predicate AllowedRun(h: History, ops: seq<Op>)
    requires WellFormed(h) && forall op :: op in ops ==> Sensible(op)
  {
    ops == [] ||
    (AllowedRun(h, ops[..|ops| - 1]) && Allowed(Run(h, ops[..|ops| - 1]), ops[|ops| - 1]))
  }

  lemma StepKeepsForest(h: History, op: Op)
    requires Forest(h) && Sensible(op) && Allowed(h, op)
    ensures Forest(Step(h, op))
  {
    match op
    case Write(id, p, now) => UpsertForest.UpsertForestIff(h, id, p, now);
    case Remove(d) => DeleteForest.DeleteKeepsForest(h, d);
    case MergeIn(b) => MergeForest.MergeKeepsForest(h, b);
    case Heal => RepairForest.RepairKeepsForest(h);
  }

  // Every run of upserts, deletes, merges and repairs keeps the forest.
  lemma {:induction false} RunKeepsForest(h: History, ops: seq<Op>)
    requires Forest(h) && (forall op :: op in ops ==> Sensible(op)) && AllowedRun(h, ops)
    ensures Forest(Run(h, ops))
  {
    if ops == [] {
    } else {
      var n := |ops| - 1;
      RunKeepsForest(h, ops[..n]);
      StepKeepsForest(Run(h, ops[..n]), ops[n]);
    }
  }

  // From the empty history: a parent-closed acyclic forest, child lists inverse
  // to parent links and free of duplicates, the cursor on a present message, and
  // no message its own ancestor.
  lemma EveryRunIsForest(ops: seq<Op>)
    requires (forall op :: op in ops ==> Sensible(op)) && AllowedRun(EMPTY, ops)
    ensures Forest(Run(EMPTY, ops))
    ensures forall x :: x in Run(EMPTY, ops).msgs ==> !Ancestor(Run(EMPTY, ops).msgs, x, x)
  {
    assert Ranked(EMPTY.msgs, map[]);
    RunKeepsForest(EMPTY, ops);
    forall x | x in Run(EMPTY, ops).msgs ensures !Ancestor(Run(EMPTY, ops).msgs, x, x) {
      NoCycle(Run(EMPTY, ops).msgs, x);
    }
  }

  // Whatever stale copies are merged in between, a message leaves the history
  // only through a deletion that names it or its parent.
  lemma {:induction false} LostOnlyByDelete(h: History, ops: seq<Op>, x: Id) returns (i: nat)
    requires WellFormed(h) && (forall op :: op in ops ==> Sensible(op))
    requires x in h.msgs && x !in Run(h, ops).msgs
    ensures i < |ops| && ops[i].Remove?
    ensures x in Run(h, ops[..i]).msgs && x in DeletedIds(Run(h, ops[..i]).msgs, ops[i].id)
  {
    var n := |ops| - 1;
    if x in Run(h, ops[..n]).msgs {
      i := n;
      StepLoses(Run(h, ops[..n]), ops[n], x);
    } else {
      i := LostOnlyByDelete(h, ops[..n], x);
      assert ops[..n][..i] == ops[..i];
    }
  }

  lemma StepLoses(h: History, op: Op, x: Id)
    requires WellFormed(h) && Sensible(op) && x in h.msgs && x !in Step(h, op).msgs
    ensures op.Remove? && x in DeletedIds(h.msgs, op.id)
  {
  }
}
