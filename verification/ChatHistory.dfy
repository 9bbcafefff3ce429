// The in-place form of the history operations: the loops and assignments of
// backend/open_webui/models/chats.py, each proved equal to its function in
// HistoryModel.
module ChatHistories {
  import opened Basics
  import opened HistoryModel

  method LastDescendantId(messages: Messages, start: Id) returns (id: Id)
    ensures id == LastDescendant(messages, start, {})
  {
    id := start;
    var seen := {};
    while id in messages && id !in seen
      invariant LastDescendant(messages, id, seen) == LastDescendant(messages, start, {})
      decreases messages.Keys - seen
    {
      var childIds := messages[id].children;
      var i := |childIds|;
      assert childIds[..i] == childIds;
      while i > 0 && childIds[i - 1] !in messages
        invariant 0 <= i <= |childIds|
        invariant LastPresent(childIds[..i], messages) == LastPresent(childIds, messages)
      {
        assert childIds[..i][..i - 1] == childIds[..i - 1];
        i := i - 1;
      }
      if i == 0 || childIds[i - 1] == "" {
        break;
      }
      assert LastPresent(childIds[..i], messages) == Some(childIds[i - 1]);
      seen := seen + {id};
      id := childIds[i - 1];
    }
  }

  // merge_history builds a new dict: first every message with an empty child
  // list, then one append per parent link.
  method MergeHistory(existing: History, incoming: History) returns (r: History)
    requires WellFormed(existing) && WellFormed(incoming)
    ensures r == Merge(existing, incoming)
  {
    var order := MergedOrder(existing, incoming);
    var merged := LinkMessages(order, existing.msgs + incoming.msgs);
    var current := incoming.current;
    if !(current.Some? && current.value in merged) {
      current := existing.current;
      if !(current.Some? && current.value in merged) {
        current := None;
      }
    }
    r := History(order, merged, current);
  }

  method LinkMessages(order: seq<Id>, base: Messages) returns (merged: Messages)
    requires forall x :: x in order ==> x in base
    ensures merged == Relinked(order, base)
  {
    merged := map x | x in base :: base[x].(children := []);
    assert merged == Relinked([], base);
    ghost var done: seq<Id> := [];
    var i := 0;
    while i < |order|
      invariant 0 <= i <= |order|
      invariant |done| == i && forall j :: 0 <= j < i ==> done[j] == order[j]
      invariant merged == Relinked(done, base)
    {
      assert order[i] in order;
      merged := LinkOne(order[i], merged, done, base);
      done := done + [order[i]];
      i := i + 1;
    }
    assert done == order;
  }

  method LinkOne(x: Id, merged: Messages, ghost done: seq<Id>, ghost base: Messages) returns (next: Messages)
    requires x in base && merged == Relinked(done, base)
    ensures next == Relinked(done + [x], base)
  {
    LinkStep(done, x, base);
    next := merged;
    var p := merged[x].parent;
    if p.Some? && p.value in merged {
      next := merged[p.value := merged[p.value].(children := merged[p.value].children + [x])];
    }
  }

  // Linking one more message adds to the list of its parent only.
  lemma LinkStep(done: seq<Id>, x: Id, base: Messages)
    requires x in base
    ensures var before, after, p := Relinked(done, base), Relinked(done + [x], base), base[x].parent;
            before[x].parent == p && before.Keys == after.Keys == base.Keys &&
            if p.Some? && p.value in base
            then after == before[p.value := before[p.value].(children := before[p.value].children + [x])]
            else after == before
  {
    forall y | y in base { LinkStepAt(done, x, base, y); }
    OneListChanged(Relinked(done, base), Relinked(done + [x], base), base[x].parent, x);
  }

  lemma OneListChanged(before: Messages, after: Messages, p: Option<Id>, x: Id)
    requires before.Keys == after.Keys
    requires forall y :: y in before ==>
               after[y] == if p == Some(y) then before[y].(children := before[y].children + [x]) else before[y]
    ensures after == if p.Some? && p.value in before
                     then before[p.value := before[p.value].(children := before[p.value].children + [x])]
                     else before
  {
  }

  lemma LinkStepAt(done: seq<Id>, x: Id, base: Messages, y: Id)
    requires x in base
    ensures y in base ==>
              var before := Relinked(done, base)[y];
              Relinked(done + [x], base)[y] ==
              if base[x].parent == Some(y) then before.(children := before.children + [x]) else before
  {
    assert (done + [x])[..|done|] == done;
  }

  // Same messages and parents, no list shorter.
  ghost predicate Grown(m: Messages, n: Messages) {
    m.Keys == n.Keys &&
    forall x :: x in m ==> n[x].parent == m[x].parent && |m[x].children| <= |n[x].children|
  }

  ghost predicate Longer(m: Messages, n: Messages) {
    exists x :: x in m && x in n && |m[x].children| < |n[x].children|
  }

  lemma GrownThen(a: Messages, b: Messages, c: Messages)
    requires Grown(a, b) && Grown(b, c)
    ensures Grown(a, c) && (Longer(a, b) || Longer(b, c) ==> Longer(a, c))
  {
  }

  // The messages once the grandchildren in `done` carry their new parent.
  ghost function ParentSetOn(m: Messages, done: set<Id>, parent: Option<Id>): Messages {
    map x | x in m :: if x in done then m[x].(parent := parent) else m[x]
  }

  lemma ParentSetStep(m: Messages, done: set<Id>, parent: Option<Id>, x: Id)
    requires x in m
    ensures var before := ParentSetOn(m, done, parent);
            ParentSetOn(m, done + {x}, parent) == before[x := before[x].(parent := parent)]
  {
  }

  class ChatHistory {
    var order: seq<Id>
    var msgs: Messages
    var current: Option<Id>

    constructor ()
      ensures Valid() && Value() == EMPTY
    {
      order, msgs, current := [], map[], None;
    }

    ghost function Value(): History
      reads this
    {
      History(order, msgs, current)
    }

    ghost predicate Valid()
      reads this
    {
      WellFormed(Value())
    }

    method AddChildIdToParent(parent: Option<Id>, child: Id) returns (changed: bool)
      modifies this`msgs
      ensures msgs == AddChild(old(msgs), parent, child)
      ensures changed <==> Linkable(old(msgs), parent) && child !in old(msgs)[parent.value].children
      ensures changed <==> msgs != old(msgs)
      ensures Grown(old(msgs), msgs) && (changed ==> Longer(old(msgs), msgs))
    {
      if !(parent.Some? && parent.value != "" && parent.value in msgs) {
        return false;
      }
      var childIds := msgs[parent.value].children;
      if child in childIds {
        return false;
      }
      msgs := msgs[parent.value := msgs[parent.value].(children := childIds + [child])];
      assert |msgs[parent.value].children| != |old(msgs)[parent.value].children|;
      return true;
    }

    method RepairChatCurrentId() returns (changed: bool)
      requires Valid()
      modifies this
      ensures Valid()
      ensures Value() == Repair(old(Value()))
      ensures changed <==> Value() != old(Value())
    {
      changed := LinkAll();
      ghost var linked := msgs;
      if GoodCursor(msgs, current) {
        if msgs[current.value].summary {
          var last := LastDescendantId(msgs, current.value);
          if last != current.value {
            current := Some(last);
            return true;
          }
        }
        return;
      }
      var leaf := FindLatestLeaf();
      if leaf.None? || leaf.value == "" || leaf == current {
        return;
      }
      current := leaf;
      return true;
    }

    method LinkAll() returns (changed: bool)
      requires Valid()
      modifies this`msgs
      ensures msgs == RepairLinks(order, old(msgs))
      ensures changed <==> msgs != old(msgs)
      ensures Valid()
    {
      changed := false;
      var i := 0;
      while i < |order|
        invariant 0 <= i <= |order|
        invariant msgs == RepairLinks(order[..i], old(msgs))
        invariant Grown(old(msgs), msgs)
        invariant if changed then Longer(old(msgs), msgs) else msgs == old(msgs)
      {
        RepairLinksStep(order, old(msgs), i);
        assert order[i] in order;
        ghost var before := msgs;
        var c := AddChildIdToParent(msgs[order[i]].parent, order[i]);
        GrownThen(old(msgs), before, msgs);
        changed := c || changed;
        i := i + 1;
      }
      assert order[..i] == order;
    }

    method FindLatestLeaf() returns (leaf: Option<Id>)
      requires Valid()
      ensures leaf == LatestLeaf(order, msgs).0
    {
      var latest := -1;
      leaf := None;
      var i := 0;
      while i < |order|
        invariant 0 <= i <= |order|
        invariant (leaf, latest) == LatestLeaf(order[..i], msgs)
      {
        var x := order[i];
        assert order[..i + 1][..i] == order[..i];
        if msgs[x].role != NoRole && |msgs[x].children| == 0 && msgs[x].timestamp > latest {
          leaf, latest := Some(x), msgs[x].timestamp;
        }
        i := i + 1;
      }
      assert order[..i] == order;
    }

    method DeleteMessage(d: Id) returns (deleted: set<Id>)
      requires Valid()
      modifies this
      ensures Valid()
      ensures Value() == Delete(old(Value()), d)
      ensures deleted == DeletedIds(old(msgs), d)
    {
      if d !in msgs {
        return {};
      }
      var parent := msgs[d].parent;
      deleted := DeletedIds(msgs, d);
      var adopted := CollectGrandchildren(d);
      Reparent(d, parent, adopted);
      msgs := msgs - deleted;
      order := Without(order, deleted);
      RestrictNoDup(old(order), Elements(old(order)) - deleted);
      MoveCursor(parent);
    }

    method CollectGrandchildren(d: Id) returns (adopted: seq<Id>)
      requires d in msgs
      ensures adopted == Adopted(msgs, d)
    {
      var childIds := Restrict(msgs[d].children, msgs.Keys);
      adopted := [];
      var i := 0;
      while i < |childIds|
        invariant 0 <= i <= |childIds|
        invariant adopted == Grandchildren(msgs, childIds[..i])
      {
        assert childIds[..i + 1][..i] == childIds[..i];
        adopted := adopted + Restrict(msgs[childIds[i]].children, msgs.Keys);
        i := i + 1;
      }
      assert childIds[..i] == childIds;
    }

    // The two re-parenting statements of the deletion.
    method Reparent(d: Id, parent: Option<Id>, adopted: seq<Id>)
      requires d in msgs && parent == msgs[d].parent && adopted == Adopted(msgs, d)
      modifies this`msgs
      ensures msgs == Reparented(old(msgs), d)
    {
      if parent.Some? && parent.value in msgs {
        msgs := msgs[parent.value :=
          msgs[parent.value].(children := Without(msgs[parent.value].children, {d}) + adopted)];
      }
      forall x | x in adopted ensures x in msgs {
        GrandchildrenAre(old(msgs), Restrict(old(msgs)[d].children, old(msgs).Keys), x);
      }
      SetParents(adopted, parent);
    }

    method SetParents(adopted: seq<Id>, parent: Option<Id>)
      requires forall x :: x in adopted ==> x in msgs
      modifies this`msgs
      ensures msgs == ParentSetOn(old(msgs), Elements(adopted), parent)
    {
      ghost var done: set<Id> := {};
      var i := 0;
      assert ParentSetOn(msgs, done, parent) == msgs;
      while i < |adopted|
        invariant 0 <= i <= |adopted|
        invariant done <= Elements(adopted) && forall j :: 0 <= j < i ==> adopted[j] in done
        invariant msgs == ParentSetOn(old(msgs), done, parent)
      {
        assert adopted[i] in adopted;
        ParentSetStep(old(msgs), done, parent, adopted[i]);
        msgs := msgs[adopted[i] := msgs[adopted[i]].(parent := parent)];
        done := done + {adopted[i]};
        i := i + 1;
      }
      assert done == Elements(adopted);
    }

    // The cursor walk after a deletion below `parent`.
    method MoveCursor(parent: Option<Id>)
      modifies this`current
      ensures current == DeleteCursor(order, msgs, parent)
    {
      var at := parent;
      var kids := WalkStart(order, msgs, parent);
      var visited := {};
      while kids != [] && kids[|kids| - 1] !in visited
        invariant Walk(msgs, at, kids, visited) == Walk(msgs, parent, WalkStart(order, msgs, parent), {})
        decreases msgs.Keys - visited, |kids|
      {
        var c := kids[|kids| - 1];
        at := Some(c);
        visited := visited + {c};
        kids := if c in msgs then msgs[c].children else [];
      }
      current := if at.Some? && at.value in msgs then at else None;
    }

    method UpsertMessage(id: Id, p: Payload, now: int) returns (saved: Message)
      requires Valid()
      modifies this
      ensures Valid()
      ensures Value() == Upsert(old(Value()), id, p, now)
      ensures id in msgs && saved == msgs[id]
    {
      if id in msgs {
        msgs := msgs[id := Overlay(msgs[id], p)];
      } else {
        var message := BuildMessage(id, p, now);
        msgs := msgs[id := message];
        order := order + [id];
        current := Some(id);
      }
      var _ := AddChildIdToParent(msgs[id].parent, id);
      saved := msgs[id];
    }

    method BuildMessage(id: Id, p: Payload, now: int) returns (message: Message)
      requires Valid()
      ensures message == NewMessage(order, msgs, id, p, now)
    {
      var parent := if p.parent.Some? then p.parent.value else None;
      if parent.None? {
        parent := FindClaimant(id);
      }
      var role := Or(p.role, NoRole);
      if role == NoRole {
        role := Or(p.output, NoRole);
      }
      if role == NoRole {
        var parentRole := if Linkable(msgs, parent) then msgs[parent.value].role else NoRole;
        role := if parentRole == User then Assistant else if parentRole == Assistant then User else Assistant;
      }
      message := Message(
        if Or(p.id, "") != "" then p.id.value else id, parent, Or(p.children, []), role,
        if Or(p.timestamp, 0) != 0 then p.timestamp.value else now,
        Or(p.output, NoRole), Or(p.summary, false), Or(p.content, ""));
    }

    method FindClaimant(id: Id) returns (claimant: Option<Id>)
      requires Valid()
      ensures claimant == FirstClaimant(order, msgs, id)
    {
      var i := 0;
      while i < |order|
        invariant 0 <= i <= |order|
        invariant FirstClaimant(order, msgs, id) == FirstClaimant(order[i..], msgs, id)
      {
        if id in msgs[order[i]].children {
          return Some(order[i]);
        }
        assert order[i..][1..] == order[i + 1..];
        i := i + 1;
      }
      return None;
    }
  }
}
