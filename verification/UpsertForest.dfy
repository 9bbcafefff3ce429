// When writing a message keeps the forest: an exact condition on the payload.
module UpsertForest {
  import opened Basics
  import opened HistoryModel
  import opened Forests
  import DeleteForest

  // A child list `kids` for message `id` claims no id that another message claims.
  ghost predicate Unclaimed(m: Messages, id: Id, kids: seq<Id>) {
    NoDup(kids) && forall c, q :: c in kids && q in m && q != id ==> c !in m[q].children
  }

  ghost predicate UpdateOk(m: Messages, id: Id, next: Message)
    requires id in m
  {
    && (next.parent == m[id].parent ||
        (m[id].parent.None? && next.parent.value in m && !AncestorOrSelf(m, id, next.parent.value)))
    && (forall c :: c in m ==> (c in next.children <==> m[c].parent == Some(id)))
    && Unclaimed(m, id, next.children)
  }

  ghost predicate InsertOk(m: Messages, id: Id, next: Message) {
    && id != ""
    && (next.parent.Some? ==> next.parent.value in m)
    && (forall q :: q in m && id in m[q].children ==> next.parent == Some(q))
    && (forall c :: c in next.children ==> c !in m && c != id)
    && Unclaimed(m, id, next.children)
  }

  // What a caller can check before the call: an update keeps the parent (or
  // gives a root a parent outside its own subtree) and keeps the present part of
  // the child list; an insertion names a present parent or none, the one that
  // already claims it if there is one, and only unclaimed absent children.
  ghost predicate UpsertOk(h: History, id: Id, p: Payload)
    requires WellFormed(h)
  {
    if id in h.msgs then UpdateOk(h.msgs, id, Overlay(h.msgs[id], p))
    else InsertOk(h.msgs, id, NewMessage(h.order, h.msgs, id, p, 0))
  }

  // ---- the written message, linked to its parent --------------------------

  function Linked(m: Messages, id: Id, next: Message): Messages {
    AddChild(m[id := next], next.parent, id)
  }

  lemma InsertRanked(m: Messages, id: Id, next: Message, rank: map<Id, nat>)
    requires Ranked(m, rank) && id !in m && (next.parent.Some? ==> next.parent.value in m)
    ensures ParentClosedAcyclic(Linked(m, id, next))
  {
    var r := if next.parent.Some? then rank[next.parent.value] + 1 else 0;
    assert Ranked(Linked(m, id, next), rank[id := r]);
  }

  // The new message, then its parent's list.
  lemma InsertEffect(m: Messages, id: Id, next: Message)
    requires ForestMap(m) && id !in m && InsertOk(m, id, next)
    ensures var after := Linked(m, id, next);
            && after.Keys == m.Keys + {id} && after[id] == next
            && forall q :: q in m ==>
                 after[q].parent == m[q].parent && NoDup(after[q].children) &&
                 (forall c :: c in after[q].children <==> c in m[q].children || (c == id && next.parent == Some(q)))
  {
  }

  lemma InsertInverse(m: Messages, id: Id, next: Message)
    requires ForestMap(m) && id !in m && InsertOk(m, id, next)
    ensures Inverse(Linked(m, id, next))
  {
    InsertEffect(m, id, next);
    var rank :| Ranked(m, rank);
    assert next.parent != Some(id);
  }

  lemma InsertClaims(m: Messages, id: Id, next: Message)
    requires ForestMap(m) && id !in m && InsertOk(m, id, next)
    ensures ClaimedOnce(Linked(m, id, next))
  {
  }

  lemma InsertKeepsForest(m: Messages, id: Id, next: Message)
    requires ForestMap(m) && id !in m && InsertOk(m, id, next)
    ensures ForestMap(Linked(m, id, next))
  {
    var rank :| Ranked(m, rank);
    InsertRanked(m, id, next, rank);
    InsertInverse(m, id, next);
    InsertClaims(m, id, next);
  }

  lemma InsertForestOnlyIf(m: Messages, id: Id, next: Message)
    requires ForestMap(m) && id !in m && ForestMap(Linked(m, id, next))
    ensures InsertOk(m, id, next)
  {
    var after := Linked(m, id, next);
    var rank, rank' :| Ranked(m, rank) && Ranked(after, rank');
    assert next.parent != Some(id);
    assert after[id] == next;
    forall q | q in m ensures q in after && after[q].parent == m[q].parent && m[q].children <= after[q].children {}
  }

  // The subtree of an adopted root is lifted above its new parent.
  ghost function LiftedRank(m: Messages, rank: map<Id, nat>, id: Id, lift: nat): map<Id, nat>
    requires forall x :: x in m ==> x in rank
  {
    map x | x in m :: if AncestorOrSelf(m, id, x) then rank[x] + lift else rank[x]
  }

  lemma AdoptionRanked(m: Messages, rank: map<Id, nat>, id: Id, q: Id, after: Messages)
    requires Ranked(m, rank) && id in m && q in m && !AncestorOrSelf(m, id, q) && after.Keys == m.Keys
    requires forall x :: x in m ==> after[x].parent == if x == id then Some(q) else m[x].parent
    ensures Ranked(after, LiftedRank(m, rank, id, rank[q] + 1))
  {
    assert Up(m, id, id, 0);
    forall x | x in m && x != id && m[x].parent.Some?
      ensures AncestorOrSelf(m, id, x) <==> AncestorOrSelf(m, id, m[x].parent.value)
    {
      if n: nat :| Up(m, id, x, n) {
        assert Up(m, id, m[x].parent.value, n - 1);
      }
      if n: nat :| Up(m, id, m[x].parent.value, n) {
        assert Up(m, id, x, n + 1);
      }
    }
  }

  lemma SameParentUpdate(m: Messages, id: Id, next: Message)
    requires ForestMap(m) && id in m && UpdateOk(m, id, next) && next.parent == m[id].parent
    ensures Linked(m, id, next) == m[id := next]
  {
  }

  lemma SameParentKeepsForest(m: Messages, id: Id, next: Message)
    requires ForestMap(m) && id in m && UpdateOk(m, id, next) && next.parent == m[id].parent
    ensures ForestMap(m[id := next])
  {
    var after := m[id := next];
    var rank :| Ranked(m, rank);
    assert Ranked(after, rank);
  }

  lemma AdoptionUpdate(m: Messages, id: Id, next: Message)
    requires ForestMap(m) && id in m && UpdateOk(m, id, next) && next.parent != m[id].parent
    ensures next.parent.value in m && next.parent.value != id && id !in m[next.parent.value].children
    ensures var q := next.parent.value;
            Linked(m, id, next) == m[id := next][q := m[q].(children := m[q].children + [id])]
  {
    assert Up(m, id, id, 0);
  }

  lemma AdoptionKeepsForest(m: Messages, id: Id, next: Message)
    requires ForestMap(m) && id in m && UpdateOk(m, id, next) && next.parent != m[id].parent
    ensures ForestMap(Linked(m, id, next))
  {
    var after, q := Linked(m, id, next), next.parent.value;
    AdoptionUpdate(m, id, next);
    var rank :| Ranked(m, rank);
    AdoptionRanked(m, rank, id, q, after);
    NoDupAppend(m[q].children, [id]);
    assert Inverse(after);
    AdoptionClaims(m, id, next, after);
  }

  lemma AdoptionClaims(m: Messages, id: Id, next: Message, after: Messages)
    requires ForestMap(m) && id in m && UpdateOk(m, id, next) && m[id].parent.None?
    requires next.parent.Some? && next.parent.value in m && next.parent.value != id
    requires var q := next.parent.value;
             after == m[id := next][q := m[q].(children := m[q].children + [id])]
    ensures ClaimedOnce(after)
  {
    var q := next.parent.value;
    forall x | x in m ensures id !in m[x].children {}
    NoDupAppend(m[q].children, [id]);
    assert id !in next.children;
  }

  lemma UpdateKeepsForest(m: Messages, id: Id, next: Message)
    requires ForestMap(m) && id in m && UpdateOk(m, id, next)
    ensures ForestMap(Linked(m, id, next))
  {
    if next.parent == m[id].parent {
      SameParentUpdate(m, id, next);
      SameParentKeepsForest(m, id, next);
    } else {
      AdoptionKeepsForest(m, id, next);
    }
  }

  // A chain of parents that leads to `id` only passes messages the update left alone.
  lemma {:induction false} UpUntouched(m: Messages, after: Messages, id: Id, y: Id, n: nat) returns (k: nat)
    requires Up(m, id, y, n)
    requires forall x :: x in m && x != id ==> x in after && after[x].parent == m[x].parent
    ensures Up(after, id, y, k)
    decreases n
  {
    k := 0;
    if y == id {
    } else {
      k := UpUntouched(m, after, id, m[y].parent.value, n - 1);
      k := k + 1;
    }
  }

  // A forest after the update still shows the parents and lists from before.
  lemma UpdateShowsOthers(m: Messages, id: Id, next: Message)
    requires ForestMap(m) && id in m && ForestMap(Linked(m, id, next))
    ensures next.parent != Some(id) && Linked(m, id, next)[id] == next
    ensures var after := Linked(m, id, next);
            forall q :: q in m && q != id ==>
              q in after && after[q].parent == m[q].parent && m[q].children <= after[q].children
  {
    var after := Linked(m, id, next);
    var rank :| Ranked(after, rank);
    assert after[id].parent == next.parent;
    assert next.parent != Some(id);
    assert after[id] == next;
    forall q | q in m && q != id
      ensures q in after && after[q].parent == m[q].parent && m[q].children <= after[q].children
    {
    }
  }

  lemma UpdateForestOnlyIf(m: Messages, id: Id, next: Message)
    requires ForestMap(m) && id in m && ForestMap(Linked(m, id, next))
    ensures UpdateOk(m, id, next)
  {
    var after := Linked(m, id, next);
    UpdateShowsOthers(m, id, next);
    if next.parent != m[id].parent {
      assert m[id].parent.None?;
      var rank :| Ranked(after, rank);
      AdoptionNotBelow(m, after, rank, id, next.parent.value);
    }
  }

  // A root adopted below itself would close a cycle.
  lemma AdoptionNotBelow(m: Messages, after: Messages, rank: map<Id, nat>, id: Id, q: Id)
    requires Ranked(after, rank) && id in after && after[id].parent == Some(q)
    requires forall x :: x in m && x != id ==> x in after && after[x].parent == m[x].parent
    ensures !AncestorOrSelf(m, id, q)
  {
    if n: nat :| Up(m, id, q, n) {
      var k := UpUntouched(m, after, id, q, n);
      UpLowersRank(after, rank, id, q, k);
    }
  }

  // ---- the main result ----------------------------------------------------

  // `upsert_message_to_history` keeps the forest if and only if its payload is
  // well behaved in the sense of UpsertOk.
  lemma UpsertForestIff(h: History, id: Id, p: Payload, now: int)
    requires Forest(h)
    ensures Forest(Upsert(h, id, p, now)) <==> UpsertOk(h, id, p)
  {
    var next := if id in h.msgs then Overlay(h.msgs[id], p) else NewMessage(h.order, h.msgs, id, p, now);
    var after := Upsert(h, id, p, now);
    assert after.msgs == Linked(h.msgs, id, next);
    if id in h.msgs {
      if UpsertOk(h, id, p) {
        UpdateKeepsForest(h.msgs, id, next);
      } else if ForestMap(after.msgs) {
        UpdateForestOnlyIf(h.msgs, id, next);
      }
    } else {
      NoDupAppend(h.order, [id]);
      var next0 := NewMessage(h.order, h.msgs, id, p, 0);
      assert next0.parent == next.parent && next0.children == next.children;
      assert InsertOk(h.msgs, id, next0) <==> InsertOk(h.msgs, id, next);
      if UpsertOk(h, id, p) {
        InsertKeepsForest(h.msgs, id, next);
      } else if ForestMap(after.msgs) {
        InsertForestOnlyIf(h.msgs, id, next);
      }
    }
  }

  // An update moves neither the message in the dict nor the cursor; it gives a
  // parent to a root at most and keeps the saved children.
  lemma UpdateEffect(h: History, id: Id, p: Payload, now: int)
    requires Forest(h) && id in h.msgs && UpsertOk(h, id, p)
    ensures var prev, after := h.msgs[id], Upsert(h, id, p, now);
            var next := after.msgs[id];
            && after.order == h.order && after.current == h.current
            && (next.parent == prev.parent || prev.parent.None?)
            && (forall c :: c in h.msgs ==> (c in next.children <==> c in prev.children))
  {
    OwnParentExcluded(h, id, p, now);
  }

  // The keys of `q` over those of `p`.
  function Over(p: Payload, q: Payload): Payload {
    Payload(if q.id.Some? then q.id else p.id,
            if q.parent.Some? then q.parent else p.parent,
            if q.children.Some? then q.children else p.children,
            if q.role.Some? then q.role else p.role,
            if q.timestamp.Some? then q.timestamp else p.timestamp,
            if q.output.Some? then q.output else p.output,
            if q.summary.Some? then q.summary else p.summary,
            if q.content.Some? then q.content else p.content)
  }

  // Two updates in a row are one update with both payloads, the later one on top.
  lemma UpdatesCompose(h: History, id: Id, p: Payload, q: Payload, now: int, later: int)
    requires Forest(h) && id in h.msgs && UpsertOk(h, id, p)
    requires UpsertOk(Upsert(h, id, p, now), id, q)
    ensures Upsert(Upsert(h, id, p, now), id, q, later) == Upsert(h, id, Over(p, q), now)
  {
    var mid := Upsert(h, id, p, now);
    var first, second := Overlay(h.msgs[id], p), Overlay(h.msgs[id], Over(p, q));
    UpsertForestIff(h, id, p, now);
    OwnParentExcluded(h, id, p, now);
    OwnParentExcluded(mid, id, q, later);
    assert Overlay(mid.msgs[id], q) == second;
    if second.parent == first.parent {
      SameParentUpdate(mid.msgs, id, second);
      Relink(h.msgs, id, first, second);
    } else {
      assert mid.msgs == h.msgs[id := first];
    }
  }

  // Linking looks at the parent only.
  lemma Relink(m: Messages, id: Id, first: Message, second: Message)
    requires first.parent == second.parent != Some(id)
    ensures Linked(m, id, first)[id := second] == Linked(m, id, second)
  {
  }

  const NOTHING := Payload(None, None, None, None, None, None, None, None)

  // An update that carries nothing changes nothing.
  lemma EmptyUpdate(h: History, id: Id, now: int)
    requires Forest(h) && id in h.msgs
    ensures Upsert(h, id, NOTHING, now) == h
  {
    var rank :| Ranked(h.msgs, rank);
    assert h.msgs[id := h.msgs[id]] == h.msgs;
  }

  function Full(x: Message): Payload {
    Payload(Some(x.id), Some(x.parent), Some(x.children), Some(x.role), Some(x.timestamp), Some(x.output),
            Some(x.summary), Some(x.content))
  }

  // A payload that carries every field leaves exactly its message, whatever was
  // saved before.
  lemma FullUpdateSaves(h: History, id: Id, x: Message, now: int)
    requires WellFormed(h) && id in h.msgs && x.parent != Some(id)
    ensures Upsert(h, id, Full(x), now).msgs[id] == x
  {
  }

  // What a new message saves of its payload: the role if it carries one, an
  // output's role only without one; id and time if they are truthy, else the key
  // and the present; every other field it carries.
  lemma InsertionSaves(h: History, id: Id, p: Payload, now: int)
    requires WellFormed(h) && id !in h.msgs && p.parent != Some(Some(id))
    ensures var next := Upsert(h, id, p, now).msgs[id];
            && (p.content.Some? ==> next.content == p.content.value)
            && (p.summary.Some? ==> next.summary == p.summary.value)
            && (p.children.Some? ==> next.children == p.children.value)
            && (p.output.Some? ==> next.output == p.output.value)
            && (p.role.Some? && p.role.value != NoRole ==> next.role == p.role.value)
            && (Or(p.role, NoRole) == NoRole && p.output.Some? && p.output.value != NoRole ==>
                  next.role == p.output.value)
            && (p.id.Some? && p.id.value != "" ==> next.id == p.id.value)
            && (Or(p.id, "") == "" ==> next.id == id)
            && (p.timestamp.Some? && p.timestamp.value != 0 ==> next.timestamp == p.timestamp.value)
            && (Or(p.timestamp, 0) == 0 ==> next.timestamp == now)
            && (p.parent.Some? && p.parent.value.Some? ==> next.parent == p.parent.value)
  {
  }

  // A new message without content, summary, children or output has none.
  lemma InsertionDefaults(h: History, id: Id, p: Payload, now: int)
    requires WellFormed(h) && id !in h.msgs && p.parent != Some(Some(id))
    ensures var next := Upsert(h, id, p, now).msgs[id];
            && (p.content.None? ==> next.content == "") && (p.summary.None? ==> !next.summary)
            && (p.children.None? ==> next.children == []) && (p.output.None? ==> next.output == NoRole)
  {
  }

  // An insertion puts the message at the end of the dict and the cursor on it.
  // The message always has id and role; its parent is the payload's or else one
  // that already claims it, and without any other role it takes the counterpart
  // of its parent's.
  lemma InsertionEffect(h: History, id: Id, p: Payload, now: int)
    requires Forest(h) && id !in h.msgs && UpsertOk(h, id, p)
    ensures var after := Upsert(h, id, p, now);
            var next := after.msgs[id];
            && after.order == h.order + [id] && after.current == Some(id)
            && next.id != "" && next.role != NoRole
            && (Or(p.parent, None).Some? ==> next.parent == p.parent.value)
            && (Or(p.parent, None).None? ==>
                  if next.parent.Some? then next.parent.value in h.msgs && id in h.msgs[next.parent.value].children
                  else forall q :: q in h.msgs ==> id !in h.msgs[q].children)
            && (Or(p.role, NoRole) == NoRole && Or(p.output, NoRole) == NoRole ==>
                  next.role == if next.parent.Some? && h.msgs[next.parent.value].role == Assistant
                               then User else Assistant)
  {
    OwnParentExcluded(h, id, p, now);
  }

  // Other messages change only in the list of the written message's parent.
  lemma OthersUnchanged(h: History, id: Id, p: Payload, now: int, x: Id)
    requires Forest(h) && UpsertOk(h, id, p) && x in h.msgs && x != id
    ensures var after := Upsert(h, id, p, now).msgs;
            after.Keys == h.msgs.Keys + {id} &&
            after[x] == h.msgs[x].(children :=
              if after[id].parent == Some(x) && id !in h.msgs[x].children then h.msgs[x].children + [id]
              else h.msgs[x].children)
  {
    OwnParentExcluded(h, id, p, now);
  }

  lemma OwnParentExcluded(h: History, id: Id, p: Payload, now: int)
    requires Forest(h) && UpsertOk(h, id, p)
    ensures var next := if id in h.msgs then Overlay(h.msgs[id], p) else NewMessage(h.order, h.msgs, id, p, now);
            next.parent != Some(id) && Linked(h.msgs, id, next)[id] == next
  {
    if id in h.msgs {
      var rank :| Ranked(h.msgs, rank);
      assert Up(h.msgs, id, id, 0);
    }
  }

  // A new message that takes its role from its parent keeps roles alternating.
  lemma UpsertKeepsAlternation(h: History, id: Id, p: Payload, now: int)
    requires Forest(h) && DeleteForest.Alternates(h.msgs) && id !in h.msgs && UpsertOk(h, id, p)
    requires Or(p.role, NoRole) == NoRole && Or(p.output, NoRole) == NoRole
    ensures DeleteForest.Alternates(Upsert(h, id, p, now).msgs)
  {
    var after := Upsert(h, id, p, now).msgs;
    OwnParentExcluded(h, id, p, now);
    var rank :| Ranked(h.msgs, rank);
    forall x | x in h.msgs
      ensures x in after && after[x].role == h.msgs[x].role && after[x].parent == h.msgs[x].parent
    {
      OthersUnchanged(h, id, p, now, x);
    }
  }
}
