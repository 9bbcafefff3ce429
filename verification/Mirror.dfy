// The chat_message table that mirrors one chat's history without child lists
// (backend/open_webui/models/chat_messages.py), the dual writes that keep it in
// step, and the reads that heal it (backend/open_webui/models/chats.py).
module Mirror {
  import opened Basics
  import opened HistoryModel
  import opened Forests
  import DeleteForest
  import UpsertForest
  import RepairForest

  datatype Row = Row(parent: Option<Id>, role: Role, content: string, createdAt: int)

  type Rows = map<Id, Row>

  // An existing row keeps its creation time; a new one without role is a user's.
  function Applied(row: Row, data: Message): Row {
    row.(parent := data.parent, role := data.role, content := data.content)
  }

  function Built(data: Message): Row {
    Row(data.parent, if data.role == NoRole then User else data.role, data.content, data.timestamp)
  }

  function Written(rows: Rows, id: Id, data: Message): Row {
    if id in rows then Applied(rows[id], data) else Built(data)
  }

  // Messages without a role are not written.
  function Writable(m: Messages): set<Id> {
    set x | x in m && m[x].role != NoRole
  }

  function Backfilled(rows: Rows, m: Messages): Rows {
    PartlyFilled(rows, m, m.Keys)
  }

  // The dict built from the rows before any child list is filled in.
  function Bare(rows: Rows): Messages {
    map x | x in rows ::
      Message(x, rows[x].parent, [], rows[x].role, rows[x].createdAt, NoRole, false, rows[x].content)
  }

  // The rebuilt map; `rowOrder` is whatever order the query returned.
  function Rebuilt(rowOrder: seq<Id>, rows: Rows): Messages
    requires forall x :: x in rowOrder ==> x in rows
  {
    RepairLinks(rowOrder, Bare(rows))
  }

  // The rows once the messages of `done` have been looked at.
  function PartlyFilled(rows: Rows, m: Messages, done: set<Id>): Rows {
    rows + map x | x in Writable(m) * done :: Written(rows, x, m[x])
  }

  lemma FillStep(rows: Rows, m: Messages, done: set<Id>, x: Id)
    requires x in m && x !in done
    ensures var before := PartlyFilled(rows, m, done);
            PartlyFilled(rows, m, done + {x}) ==
            if m[x].role == NoRole then before else before[x := Written(before, x, m[x])]
  {
  }

  class ChatMessageTable {
    var rows: Rows

    constructor ()
      ensures rows == map[]
    {
      rows := map[];
    }

    method UpsertMessage(id: Id, data: Message)
      modifies this
      ensures rows == old(rows)[id := Written(old(rows), id, data)]
    {
      if id in rows {
        rows := rows[id := Applied(rows[id], data)];
      } else {
        rows := rows[id := Built(data)];
      }
    }

    // `upsert_messages` on the messages that carry a role.
    method Backfill(order: seq<Id>, m: Messages)
      requires Ordered(order, m)
      modifies this
      ensures rows == Backfilled(old(rows), m)
    {
      ghost var done: set<Id> := {};
      var i := 0;
      assert PartlyFilled(rows, m, done) == rows;
      while i < |order|
        invariant 0 <= i <= |order|
        invariant done <= m.Keys && forall j :: 0 <= j < |order| ==> (order[j] in done <==> j < i)
        invariant rows == PartlyFilled(old(rows), m, done)
      {
        var x := order[i];
        assert x in m;
        FillStep(old(rows), m, done, x);
        if m[x].role != NoRole {
          UpsertMessage(x, m[x]);
        }
        done := done + {x};
        i := i + 1;
      }
      assert done == m.Keys;
    }

    method DeleteMessageIds(ids: set<Id>)
      modifies this
      ensures rows == old(rows) - ids
    {
      if ids == {} {
        return;
      }
      rows := rows - ids;
    }

    method GetMessagesMap(rowOrder: seq<Id>) returns (r: Option<Messages>)
      requires NoDup(rowOrder) && forall x :: x in rowOrder <==> x in rows
      ensures r == if rows == map[] then None else Some(Rebuilt(rowOrder, rows))
    {
      if rows == map[] {
        return None;
      }
      var built := Bare(rows);
      var i := 0;
      while i < |rowOrder|
        invariant 0 <= i <= |rowOrder|
        invariant built == RepairLinks(rowOrder[..i], Bare(rows))
        invariant forall x :: x in built ==> x in rows && built[x].parent == rows[x].parent
      {
        var x := rowOrder[i];
        RepairLinksStep(rowOrder, Bare(rows), i);
        var p := built[x].parent;
        if p.Some? && p.value != "" && p.value in built {
          var children := built[p.value].children;
          if x !in children {
            built := built[p.value := built[p.value].(children := children + [x])];
          }
        }
        i := i + 1;
      }
      assert rowOrder[..i] == rowOrder;
      return Some(built);
    }
  }

  // ---- the mirror relation --------------------------------------------------

  ghost predicate Mirrors(rows: Rows, m: Messages) {
    rows.Keys == m.Keys &&
    forall x :: x in m ==>
      rows[x].parent == m[x].parent && rows[x].role == m[x].role && rows[x].content == m[x].content
  }

  ghost predicate HasRoles(m: Messages) {
    forall x :: x in m ==> m[x].role != NoRole
  }

  // A message that has a row reads as the row, with the time the row was created,
  // and lists the rows that name it as parent in the order they come.
  ghost predicate ReadsRow(rowOrder: seq<Id>, rows: Rows, view: Messages, x: Id) {
    x in rows && x in view &&
    view[x].id == x && view[x].parent == rows[x].parent && view[x].role == rows[x].role &&
    view[x].content == rows[x].content && view[x].timestamp == rows[x].createdAt &&
    (x != "" ==> view[x].children == Restrict(rowOrder, set c | c in rows && rows[c].parent == Some(x)))
  }

  lemma RebuiltReadsRows(rowOrder: seq<Id>, rows: Rows)
    requires Ordered(rowOrder, Bare(rows))
    ensures Rebuilt(rowOrder, rows).Keys == rows.Keys
    ensures forall x :: x in rows ==> ReadsRow(rowOrder, rows, Rebuilt(rowOrder, rows), x)
  {
    var bare := Bare(rows);
    forall x | x in rows ensures ReadsRow(rowOrder, rows, Rebuilt(rowOrder, rows), x) {
      RepairForest.RepairAppendsMissing(rowOrder, bare, x);
      var links := RepairForest.MissingLinks(rowOrder, bare, x);
      assert [] + links == links;
      assert ChildrenOf(bare, Some(x)) - Elements(bare[x].children) ==
             set c | c in rows && rows[c].parent == Some(x);
    }
  }

  // A row of a mirrored forest shows its message, and the children there are.
  ghost predicate ShowsNode(m: Messages, rowOrder: seq<Id>, view: Messages, x: Id) {
    x in m && x in view &&
    view[x].id == x && view[x].parent == m[x].parent && view[x].role == m[x].role &&
    view[x].content == m[x].content && NoDup(view[x].children) &&
    view[x].children == Restrict(rowOrder, Elements(m[x].children)) &&
    Elements(view[x].children) == Elements(m[x].children) * m.Keys
  }

  lemma MirroredNode(m: Messages, rows: Rows, rowOrder: seq<Id>, view: Messages, x: Id)
    requires ForestMap(m) && Mirrors(rows, m) && Ordered(rowOrder, Bare(rows))
    requires ReadsRow(rowOrder, rows, view, x)
    ensures ShowsNode(m, rowOrder, view, x)
  {
    var kids := set c | c in rows && rows[c].parent == Some(x);
    assert forall c :: c in kids <==> c in m && c in m[x].children;
    RestrictNoDup(rowOrder, kids);
    RestrictAgree(rowOrder, kids, Elements(m[x].children));
  }

  // Read through the table, a mirrored forest looks the same: ids, parents,
  // roles, contents and, in the order the rows come, the children.
  lemma MirrorView(h: History, rows: Rows, rowOrder: seq<Id>)
    requires Forest(h) && Mirrors(rows, h.msgs)
    requires Ordered(rowOrder, Bare(rows))
    ensures var view := Rebuilt(rowOrder, rows);
            && view.Keys == h.msgs.Keys
            && forall x :: x in view ==> ShowsNode(h.msgs, rowOrder, view, x) && view[x].timestamp == rows[x].createdAt
  {
    RebuiltReadsRows(rowOrder, rows);
    var view := Rebuilt(rowOrder, rows);
    forall x | x in view
      ensures ShowsNode(h.msgs, rowOrder, view, x) && view[x].timestamp == rows[x].createdAt
    {
      assert ReadsRow(rowOrder, rows, view, x);
      MirroredNode(h.msgs, rows, rowOrder, view, x);
    }
  }

  // ---- dual writes -----------------------------------------------------------

  datatype Chat = Chat(history: History, rows: Rows)

  datatype DualOp =
    | DualWrite(id: Id, payload: Payload, now: int)
    | DualRemove(id: Id)

  // Each wrapper first repairs the cursor, then edits the JSON copy, then the rows.
  ghost function DualStep(c: Chat, op: DualOp): (r: Chat)
    requires WellFormed(c.history)
  {
    var h := Repair(c.history);
    match op
    case DualWrite(id, p, now) =>
      var next := Upsert(h, id, p, now);
      Chat(next, c.rows[id := Written(c.rows, id, next.msgs[id])])
    case DualRemove(d) =>
      var deleted := DeletedIds(h.msgs, d);
      if deleted == {} then Chat(h, c.rows)
      else
        var next := Delete(h, d);
        Chat(next, Backfilled(c.rows, next.msgs) - deleted)
  }

  ghost predicate DualAllowed(c: Chat, op: DualOp)
    requires Forest(c.history)
  {
    op.DualWrite? ==>
      UpsertForest.UpsertOk(c.history, op.id, op.payload) &&
      (op.id in c.history.msgs ==> op.payload.role != Some(NoRole))
  }

  ghost predicate InStep(c: Chat) {
    Forest(c.history) && HasRoles(c.history.msgs) && Mirrors(c.rows, c.history.msgs)
  }

  lemma DualStepKeepsMirror(c: Chat, op: DualOp)
    requires InStep(c) && DualAllowed(c, op)
    ensures InStep(DualStep(c, op))
  {
    RepairForest.RepairKeepsForest(c.history);
    var h := Repair(c.history);
    match op
    case DualWrite(id, p, now) =>
      WriteKeepsMirror(h, c.rows, id, p, now);
    case DualRemove(d) =>
      if d in h.msgs {
        RemoveKeepsMirror(h, c.rows, d);
      }
  }

  lemma UpsertFields(h: History, id: Id, p: Payload, now: int)
    requires WellFormed(h)
    ensures var next := Upsert(h, id, p, now).msgs;
            && next.Keys == h.msgs.Keys + {id}
            && (forall x :: x in h.msgs && x != id ==>
                  next[x].parent == h.msgs[x].parent && next[x].role == h.msgs[x].role &&
                  next[x].content == h.msgs[x].content)
            && (id in h.msgs ==> next[id].role == Or(p.role, h.msgs[id].role))
            && (id !in h.msgs ==> next[id].role != NoRole)
  {
  }

  lemma WriteKeepsMirror(h: History, rows: Rows, id: Id, p: Payload, now: int)
    requires Forest(h) && HasRoles(h.msgs) && Mirrors(rows, h.msgs)
    requires UpsertForest.UpsertOk(h, id, p) && (id in h.msgs ==> p.role != Some(NoRole))
    ensures var next := Upsert(h, id, p, now);
            Forest(next) && HasRoles(next.msgs) && Mirrors(rows[id := Written(rows, id, next.msgs[id])], next.msgs)
  {
    UpsertForest.UpsertForestIff(h, id, p, now);
    UpsertFields(h, id, p, now);
    WrittenMirrors(h.msgs, rows, id, Upsert(h, id, p, now).msgs);
  }

  lemma WrittenMirrors(m: Messages, rows: Rows, id: Id, next: Messages)
    requires Mirrors(rows, m) && next.Keys == m.Keys + {id} && next[id].role != NoRole
    requires forall x :: x in m && x != id ==>
               next[x].parent == m[x].parent && next[x].role == m[x].role && next[x].content == m[x].content
    ensures Mirrors(rows[id := Written(rows, id, next[id])], next)
  {
  }

  // A row written for a message shows it; a new row takes its time.
  ghost predicate ShowsMessage(rows: Rows, after: Rows, m: Messages, x: Id) {
    x in m && x in after && after[x].parent == m[x].parent && after[x].role == m[x].role &&
    after[x].content == m[x].content && after[x].createdAt == if x in rows then rows[x].createdAt else m[x].timestamp
  }

  // A backfill writes the messages that carry a role and touches no other row.
  lemma BackfilledRows(rows: Rows, m: Messages)
    ensures var after := Backfilled(rows, m);
            && (forall x :: x in after <==> x in rows || (x in m && m[x].role != NoRole))
            && (forall x :: x in m && m[x].role != NoRole ==> ShowsMessage(rows, after, m, x))
            && (forall x :: x in rows && (x !in m || m[x].role == NoRole) ==> after[x] == rows[x])
  {
  }

  // A dual write shows the saved message in its row and leaves the others alone;
  // a message without role gets a new row as a user's.
  lemma WriteRows(c: Chat, id: Id, p: Payload, now: int)
    requires Forest(c.history)
    ensures var after := DualStep(c, DualWrite(id, p, now));
            var saved := after.history.msgs[id];
            && after.rows.Keys == c.rows.Keys + {id}
            && (forall x :: x in c.rows && x != id ==> after.rows[x] == c.rows[x])
            && (saved.role != NoRole ==> ShowsMessage(c.rows, after.rows, after.history.msgs, id))
            && (saved.role == NoRole && id !in c.rows ==> after.rows[id].role == User)
  {
  }

  // The wrappers edit the history as the plain operations do, after moving its
  // cursor as a repair does.
  lemma DualStepHistory(c: Chat, op: DualOp)
    requires Forest(c.history)
    ensures var repaired := History(c.history.order, c.history.msgs, Repair(c.history).current);
            DualStep(c, op).history ==
            if op.DualWrite? then Upsert(repaired, op.id, op.payload, op.now) else Delete(repaired, op.id)
  {
    RepairForest.RepairKeepsForest(c.history);
  }

  lemma RemoveKeepsMirror(h: History, rows: Rows, d: Id)
    requires Forest(h) && HasRoles(h.msgs) && Mirrors(rows, h.msgs) && d in h.msgs
    ensures var next := Delete(h, d);
            Forest(next) && HasRoles(next.msgs) &&
            Mirrors(Backfilled(rows, next.msgs) - DeletedIds(h.msgs, d), next.msgs)
  {
    DeleteForest.DeleteKeepsForest(h, d);
    RemovedFields(h.msgs, d);
    RemovedMirrors(h.msgs, rows, DeletedMsgs(h.msgs, d), DeletedIds(h.msgs, d));
  }

  lemma RemovedFields(m: Messages, d: Id)
    requires ForestMap(m) && HasRoles(m) && d in m
    ensures HasRoles(DeletedMsgs(m, d)) && DeletedMsgs(m, d).Keys == m.Keys - DeletedIds(m, d)
  {
  }

  lemma RemovedMirrors(m: Messages, rows: Rows, next: Messages, deleted: set<Id>)
    requires Mirrors(rows, m) && HasRoles(next) && next.Keys == m.Keys - deleted
    ensures Mirrors(Backfilled(rows, next) - deleted, next)
  {
  }

  // A row keeps the time it was created with.
  lemma DualStepKeepsCreation(c: Chat, op: DualOp, x: Id)
    requires WellFormed(c.history) && x in c.rows && x in DualStep(c, op).rows
    ensures DualStep(c, op).rows[x].createdAt == c.rows[x].createdAt
  {
  }

  ghost predicate DualRun(c: Chat, ops: seq<DualOp>, end: Chat)
    decreases |ops|
  {
    if ops == [] then c == end
    else Forest(c.history) && DualAllowed(c, ops[0]) && DualRun(DualStep(c, ops[0]), ops[1..], end)
  }

  lemma {:induction false} DualRunKeepsMirror(c: Chat, ops: seq<DualOp>, end: Chat)
    requires InStep(c) && DualRun(c, ops, end)
    ensures InStep(end)
    decreases |ops|
  {
    if ops == [] {
    } else {
      DualStepKeepsMirror(c, ops[0]);
      DualRunKeepsMirror(DualStep(c, ops[0]), ops[1..], end);
    }
  }

  // A chat without messages is where such runs begin.
  lemma NewChatInStep()
    ensures InStep(Chat(EMPTY, map[]))
  {
    assert Ranked(EMPTY.msgs, map[]);
  }

  // After every run of dual-written upserts and deletes the map rebuilt from the
  // rows shows the JSON history.
  lemma {:induction false} EveryDualRunMirrors(
      c: Chat, ops: seq<DualOp>, end: Chat, rowOrder: seq<Id>)
    requires InStep(c) && DualRun(c, ops, end) && Ordered(rowOrder, Bare(end.rows))
    ensures var view := Rebuilt(rowOrder, end.rows);
            && view.Keys == end.history.msgs.Keys
            && forall x :: x in view ==> ShowsNode(end.history.msgs, rowOrder, view, x)
  {
    DualRunKeepsMirror(c, ops, end);
    MirrorView(end.history, end.rows, rowOrder);
  }

  // ---- self-healing reads ------------------------------------------------------

  // get_unresolved_parent_ids
  function Unresolved(m: Messages): set<Id> {
    set x | x in m && m[x].parent.Some? && m[x].parent.value != "" && m[x].parent.value !in m ::
      m[x].parent.value
  }

  // What a read adds from the JSON copy.
  function Missing(json: Messages, view: Messages): Messages {
    map x | x in Unresolved(view) && x in json :: json[x]
  }

  // One read: the map it returns and the rows it leaves.
  function Read(json: Messages, rows: Rows, rowOrder: seq<Id>): (Messages, Rows)
    requires forall x :: x in rowOrder ==> x in rows
  {
    if rows == map[] then (json, Backfilled(rows, json))
    else
      var view := Rebuilt(rowOrder, rows);
      var missing := Missing(json, view);
      (view + missing, Backfilled(rows, missing))
  }

  // The rows are part of the JSON copy and link their messages the same way.
  ghost predicate Agrees(rows: Rows, json: Messages) {
    rows.Keys <= json.Keys && forall x :: x in rows ==> rows[x].parent == json[x].parent
  }

  ghost predicate Closed(json: Messages) {
    "" !in json && HasRoles(json) &&
    forall x :: x in json && json[x].parent.Some? ==> json[x].parent.value in json
  }

  ghost predicate Connected(rows: Rows) {
    forall x :: x in rows && rows[x].parent.Some? ==> rows[x].parent.value in rows
  }

  lemma MissingFound(json: Messages, rows: Rows, view: Messages)
    requires Closed(json) && Agrees(rows, json)
    requires view.Keys == rows.Keys && forall x :: x in rows ==> view[x].parent == rows[x].parent
    ensures Unresolved(view) == Missing(json, view).Keys && Missing(json, view).Keys !! rows.Keys
    ensures Connected(rows) <==> Unresolved(view) == {}
  {
    forall p | p in Unresolved(view) ensures p in json {
      var x :| x in view && view[x].parent == Some(p);
      assert json[x].parent == Some(p);
    }
    if x :| x in rows && rows[x].parent.Some? && rows[x].parent.value !in rows {
      assert json[x].parent == rows[x].parent;
      assert rows[x].parent.value in Unresolved(view);
    }
  }

  // What a read returns and leaves: the messages that have rows read as the rows,
  // the others are the JSON copy's and get rows, and every parent the rows name
  // is there.  It leaves the other rows alone.
  ghost predicate ReadGives(json: Messages, rows: Rows, rowOrder: seq<Id>, view: Messages, after: Rows) {
    && view.Keys == after.Keys && rows.Keys <= after.Keys <= json.Keys
    && (forall x :: x in rows ==> ReadsRow(rowOrder, rows, view, x) && after[x] == rows[x])
    && (forall x :: x in view && x !in rows ==> view[x] == json[x] && ShowsMessage(rows, after, json, x))
    && (forall x :: x in rows && rows[x].parent.Some? ==> rows[x].parent.value in view)
  }

  // A read either returns a map in which every parent is present, and leaves a
  // connected table, or strictly grows the table; it never drops a row.
  lemma ReadHeals(json: Messages, rows: Rows, rowOrder: seq<Id>)
    requires Closed(json) && Agrees(rows, json) && Ordered(rowOrder, Bare(rows))
    ensures var (view, after) := Read(json, rows, rowOrder);
            && ReadGives(json, rows, rowOrder, view, after)
            && Agrees(after, json)
            && (Connected(rows) && rows != map[] ==> Unresolved(view) == {} && after == rows)
            && (rows == map[] ==> view == json && Unresolved(view) == {})
            && (!Connected(rows) ==> |rows| < |after|)
  {
    if rows == map[] {
      BackfilledRows(rows, json);
    } else {
      RebuiltReadsRows(rowOrder, rows);
      var view := Rebuilt(rowOrder, rows);
      assert forall x :: x in rows ==> ReadsRow(rowOrder, rows, view, x);
      MissingGives(json, rows, rowOrder, view);
      GapsFilled(json, rows, view);
    }
  }

  lemma MissingGives(json: Messages, rows: Rows, rowOrder: seq<Id>, view: Messages)
    requires Closed(json) && Agrees(rows, json)
    requires view.Keys == rows.Keys && forall x :: x in rows ==> ReadsRow(rowOrder, rows, view, x)
    ensures var missing := Missing(json, view);
            ReadGives(json, rows, rowOrder, view + missing, Backfilled(rows, missing))
  {
    var missing := Missing(json, view);
    assert view.Keys == rows.Keys && forall x :: x in rows ==> view[x].parent == rows[x].parent by {
      forall x | x in rows ensures view[x].parent == rows[x].parent {
        assert ReadsRow(rowOrder, rows, view, x);
      }
    }
    MissingFound(json, rows, view);
    AddedGives(json, rows, rowOrder, view, missing);
  }

  lemma AddedGives(json: Messages, rows: Rows, rowOrder: seq<Id>, view: Messages, missing: Messages)
    requires HasRoles(json) && Agrees(rows, json)
    requires view.Keys == rows.Keys && forall x :: x in rows ==> ReadsRow(rowOrder, rows, view, x)
    requires missing.Keys !! rows.Keys && forall x :: x in missing ==> x in json && missing[x] == json[x]
    requires forall x :: x in rows && rows[x].parent.Some? ==>
               rows[x].parent.value in rows || rows[x].parent.value in missing
    ensures ReadGives(json, rows, rowOrder, view + missing, Backfilled(rows, missing))
  {
    BackfilledRows(rows, missing);
    forall x | x in missing ensures ShowsMessage(rows, Backfilled(rows, missing), json, x) {
      assert ShowsMessage(rows, Backfilled(rows, missing), missing, x);
    }
    forall x | x in rows ensures ReadsRow(rowOrder, rows, view + missing, x) {
      StillReadsRow(rowOrder, rows, view, missing, x);
    }
  }

  lemma StillReadsRow(rowOrder: seq<Id>, rows: Rows, view: Messages, missing: Messages, x: Id)
    requires ReadsRow(rowOrder, rows, view, x) && x !in missing
    ensures ReadsRow(rowOrder, rows, view + missing, x)
  {
  }

  lemma GapsFilled(json: Messages, rows: Rows, view: Messages)
    requires Closed(json) && Agrees(rows, json)
    requires view.Keys == rows.Keys && forall x :: x in rows ==> view[x].parent == rows[x].parent
    ensures var missing := Missing(json, view);
            var after := Backfilled(rows, missing);
            && Agrees(after, json)
            && if Connected(rows) then Unresolved(view + missing) == {} && after == rows else |rows| < |after|
  {
    MissingFound(json, rows, view);
    var missing := Missing(json, view);
    MissingAgrees(json, rows, missing);
    if Connected(rows) {
      NothingMissing(rows, view, missing);
    } else {
      var p :| p in Unresolved(view);
      SmallerSet(rows.Keys, Backfilled(rows, missing).Keys, p);
    }
  }

  lemma MissingAgrees(json: Messages, rows: Rows, missing: Messages)
    requires HasRoles(json) && Agrees(rows, json) && missing.Keys <= json.Keys
    requires forall x :: x in missing ==> missing[x] == json[x]
    ensures Agrees(Backfilled(rows, missing), json)
    ensures Backfilled(rows, missing).Keys == rows.Keys + missing.Keys
  {
  }

  lemma NothingMissing(rows: Rows, view: Messages, missing: Messages)
    requires missing.Keys == {}
    ensures view + missing == view && Backfilled(rows, missing) == rows
  {
  }

  lemma SmallerSet(a: set<Id>, b: set<Id>, x: Id)
    requires a <= b && x in b && x !in a
    ensures |a| < |b|
  {
    var rest := b - a;
    assert b == a + rest && x in rest;
  }

  lemma {:induction false} SubsetSize(a: set<Id>, b: set<Id>)
    requires a <= b
    ensures |a| <= |b|
  {
    assert b == a + (b - a);
  }

  // The rows after `|orders|` successive reads.
  ghost predicate Reads(json: Messages, rows: Rows, orders: seq<seq<Id>>, end: Rows)
    decreases |orders|
  {
    if orders == [] then rows == end
    else Ordered(orders[0], Bare(rows)) && Reads(json, Read(json, rows, orders[0]).1, orders[1..], end)
  }

  // As many reads as the JSON copy has messages beyond the rows leave a
  // connected table behind.
  lemma {:induction false} ReadsConverge(json: Messages, rows: Rows, orders: seq<seq<Id>>, end: Rows)
    requires Closed(json) && Agrees(rows, json) && Reads(json, rows, orders, end)
    requires |orders| >= |json| - |rows|
    ensures Agrees(end, json) && rows.Keys <= end.Keys && Connected(end)
    decreases |orders|
  {
    if orders == [] {
      SubsetSize(rows.Keys, json.Keys);
      if x :| x in json && x !in rows {
        SmallerSet(rows.Keys, json.Keys, x);
      }
    } else {
      ReadHeals(json, rows, orders[0]);
      var after := Read(json, rows, orders[0]).1;
      if !Connected(rows) || rows == map[] {
        ReadsConverge(json, after, orders[1..], end);
      } else {
        ConnectedStays(json, rows, orders, end);
      }
    }
  }

  lemma {:induction false} ConnectedStays(json: Messages, rows: Rows, orders: seq<seq<Id>>, end: Rows)
    requires Closed(json) && Agrees(rows, json) && Reads(json, rows, orders, end)
    requires Connected(rows) && rows != map[]
    ensures end == rows
    decreases |orders|
  {
    if orders == [] {
    } else {
      ReadHeals(json, rows, orders[0]);
      ConnectedStays(json, rows, orders[1..], end);
    }
  }

  // Self-healing converges: after |json| - |rows| reads, the next one returns a
  // map with no unresolved parent, and it changes the table no more.
  lemma HealingConverges(json: Messages, rows: Rows, orders: seq<seq<Id>>, end: Rows, rowOrder: seq<Id>)
    requires Closed(json) && Agrees(rows, json) && Reads(json, rows, orders, end)
    requires |orders| == |json| - |rows| && Ordered(rowOrder, Bare(end))
    ensures var (view, after) := Read(json, end, rowOrder);
            Unresolved(view) == {} && view.Keys >= rows.Keys &&
            (end != map[] ==> after == end)
  {
    ReadsConverge(json, rows, orders, end);
    ReadHeals(json, end, rowOrder);
    RebuiltReadsRows(rowOrder, end);
  }
}
