// The embedded chat history as a value, and the operations of
// backend/open_webui/models/chats.py on it as functions.  The class in
// ChatHistory.dfy performs them in place and is proved equal to these functions.
module HistoryModel {
  import opened Basics

  type Id = string

  // A missing and an empty role are both falsy, hence one value.
  datatype Role = NoRole | User | Assistant | Other(name: string)

  // `children` is empty when the source has no list there; `timestamp` is 0 and
  // `id` is "" when absent.  `output` is the first role among the output items,
  // `content` stands for every other field of the message.
  datatype Message = Message(
    id: string, parent: Option<Id>, children: seq<Id>, role: Role,
    timestamp: int, output: Role, summary: bool, content: string)

  type Messages = map<Id, Message>

  // A Python dict keeps insertion order: `order` lists the keys of `msgs`.
  datatype History = History(order: seq<Id>, msgs: Messages, current: Option<Id>)

  const EMPTY := History([], map[], None)

  ghost predicate Ordered(order: seq<Id>, m: Messages) {
    NoDup(order) && forall x :: x in order <==> x in m
  }

  ghost predicate WellFormed(h: History) {
    Ordered(h.order, h.msgs)
  }

  // The messages whose `parentId` is `p`.
  function ChildrenOf(m: Messages, p: Option<Id>): set<Id> {
    set x | x in m && m[x].parent == p
  }

  // ---- links and descent -------------------------------------------------

  // The key looked up by `messages.get(parent_id) if parent_id else None`.
  predicate Linkable(m: Messages, parent: Option<Id>) {
    parent.Some? && parent.value != "" && parent.value in m
  }

  function AddChild(m: Messages, parent: Option<Id>, child: Id): Messages {
    if Linkable(m, parent) && child !in m[parent.value].children then
      m[parent.value := m[parent.value].(children := m[parent.value].children + [child])]
    else m
  }

  // The last element of `s` that names a present message.
  function LastPresent(s: seq<Id>, m: Messages): Option<Id> {
    if s == [] then None
    else if s[|s| - 1] in m then Some(s[|s| - 1])
    else LastPresent(s[..|s| - 1], m)
  }

  function LastDescendant(m: Messages, id: Id, seen: set<Id>): Id
    decreases m.Keys - seen
  {
    if id in m && id !in seen then
      var next := LastPresent(m[id].children, m);
      if next.None? || next.value == "" then id
      else LastDescendant(m, next.value, seen + {id})
    else id
  }

  // ---- repair ------------------------------------------------------------

  function RepairLinks(order: seq<Id>, m: Messages): (r: Messages)
    requires forall x :: x in order ==> x in m
    ensures r.Keys == m.Keys
  {
    if order == [] then m
    else
      var x := order[|order| - 1];
      AddChild(RepairLinks(order[..|order| - 1], m), m[x].parent, x)
  }

  lemma RepairLinksStep(order: seq<Id>, m: Messages, i: nat)
    requires i < |order| && forall x :: x in order ==> x in m
    ensures RepairLinks(order[..i + 1], m) ==
            AddChild(RepairLinks(order[..i], m), m[order[i]].parent, order[i])
  {
    assert order[..i + 1][..i] == order[..i];
  }

  predicate BadLeaf(m: Messages, x: Id)
    requires x in m
  {
    m[x].output == Assistant && m[x].parent.None? && m[x].timestamp == 0 && |m| > 1
  }

  predicate GoodCursor(m: Messages, current: Option<Id>) {
    current.Some? && current.value in m &&
    m[current.value].id != "" && m[current.value].role != NoRole && !BadLeaf(m, current.value)
  }

  predicate LeafCandidate(m: Messages, x: Id) {
    x in m && m[x].role != NoRole && m[x].children == []
  }

  // The scan for the newest leaf: the id found so far and its timestamp.
  function LatestLeaf(order: seq<Id>, m: Messages): (Option<Id>, int) {
    if order == [] then (None, -1)
    else
      var best := LatestLeaf(order[..|order| - 1], m);
      var x := order[|order| - 1];
      if LeafCandidate(m, x) && m[x].timestamp > best.1 then (Some(x), m[x].timestamp)
      else best
  }

  function RepairCursor(order: seq<Id>, m: Messages, current: Option<Id>): Option<Id> {
    if GoodCursor(m, current) then
      if m[current.value].summary then Some(LastDescendant(m, current.value, {})) else current
    else
      var leaf := LatestLeaf(order, m).0;
      if leaf.None? || leaf.value == "" then current else leaf
  }

  function Repair(h: History): History
    requires WellFormed(h)
  {
    var m := RepairLinks(h.order, h.msgs);
    History(h.order, m, RepairCursor(h.order, m, h.current))
  }

  // ---- merge -------------------------------------------------------------

  function MergedOrder(a: History, b: History): seq<Id> {
    a.order + Restrict(b.order, b.msgs.Keys - a.msgs.Keys)
  }

  // Child lists rebuilt from parent links, in the order of the dict.
  function Relinked(order: seq<Id>, m: Messages): Messages {
    map x | x in m :: m[x].(children := Restrict(order, ChildrenOf(m, Some(x))))
  }

  function MergedCursor(m: Messages, a: Option<Id>, b: Option<Id>): Option<Id> {
    if b.Some? && b.value in m then b
    else if a.Some? && a.value in m then a
    else None
  }

  function Merge(a: History, b: History): History {
    var order := MergedOrder(a, b);
    var m := Relinked(order, a.msgs + b.msgs);
    History(order, m, MergedCursor(m, a.current, b.current))
  }

  // ---- delete ------------------------------------------------------------

  // The child lists of `ids`, one after the other, present entries only.
  function Grandchildren(m: Messages, ids: seq<Id>): seq<Id>
    requires forall x :: x in ids ==> x in m
  {
    if ids == [] then []
    else
      var n := |ids| - 1;
      Grandchildren(m, ids[..n]) + Restrict(m[ids[n]].children, m.Keys)
  }

  lemma {:induction false} GrandchildrenAre(m: Messages, ids: seq<Id>, g: Id)
    requires forall x :: x in ids ==> x in m
    ensures g in Grandchildren(m, ids) <==> g in m && exists c :: c in ids && g in m[c].children
  {
    if ids == [] {
    } else {
      var n := |ids| - 1;
      GrandchildrenAre(m, ids[..n], g);
      assert forall x :: x in ids <==> x in ids[..n] || x == ids[n];
    }
  }

  function Adopted(m: Messages, d: Id): seq<Id>
    requires d in m
  {
    Grandchildren(m, Restrict(m[d].children, m.Keys))
  }

  function DeletedIds(m: Messages, d: Id): set<Id> {
    if d in m then {d} + Elements(Restrict(m[d].children, m.Keys)) else {}
  }

  // The children of the new parent first, then the grandchildren's parent.
  function Reparented(m: Messages, d: Id): (r: Messages)
    requires d in m
    ensures r.Keys == m.Keys
  {
    var p := m[d].parent;
    var adopted := Adopted(m, d);
    var m1 := if p.Some? && p.value in m
              then m[p.value := m[p.value].(children := Without(m[p.value].children, {d}) + adopted)]
              else m;
    map x | x in m1 :: if x in adopted then m1[x].(parent := p) else m1[x]
  }

  function DeletedMsgs(m: Messages, d: Id): Messages
    requires d in m
  {
    Reparented(m, d) - DeletedIds(m, d)
  }

  function Roots(order: seq<Id>, m: Messages): seq<Id> {
    Restrict(order, ChildrenOf(m, None))
  }

  // The cursor walk: always to the last entry of the child list, stopping at
  // an empty list or at an id visited before.
  function Walk(m: Messages, at: Option<Id>, kids: seq<Id>, visited: set<Id>): Option<Id>
    decreases m.Keys - visited
  {
    if kids == [] || kids[|kids| - 1] in visited then at
    else
      var c := kids[|kids| - 1];
      if c in m then Walk(m, Some(c), m[c].children, visited + {c}) else Some(c)
  }

  function WalkStart(order: seq<Id>, m: Messages, p: Option<Id>): seq<Id> {
    if p.None? then Roots(order, m)
    else if p.value in m then m[p.value].children
    else []
  }

  function DeleteCursor(order: seq<Id>, m: Messages, p: Option<Id>): Option<Id> {
    var end := Walk(m, p, WalkStart(order, m, p), {});
    if end.Some? && end.value in m then end else None
  }

  function Delete(h: History, d: Id): History {
    if d !in h.msgs then h
    else
      var order := Without(h.order, DeletedIds(h.msgs, d));
      var m := DeletedMsgs(h.msgs, d);
      History(order, m, DeleteCursor(order, m, h.msgs[d].parent))
  }

  // ---- upsert ------------------------------------------------------------

  // The keys a payload carries; an absent key is None.
  datatype Payload = Payload(
    id: Option<string>, parent: Option<Option<Id>>, children: Option<seq<Id>>, role: Option<Role>,
    timestamp: Option<int>, output: Option<Role>, summary: Option<bool>, content: Option<string>)

  function Or<T>(o: Option<T>, default: T): T {
    if o.Some? then o.value else default
  }

  // {**old, **message}
  function Overlay(prev: Message, p: Payload): Message {
    Message(Or(p.id, prev.id), Or(p.parent, prev.parent), Or(p.children, prev.children), Or(p.role, prev.role),
            Or(p.timestamp, prev.timestamp), Or(p.output, prev.output), Or(p.summary, prev.summary),
            Or(p.content, prev.content))
  }

  // The first message in dict order whose child list names `id`.
  function FirstClaimant(order: seq<Id>, m: Messages, id: Id): (r: Option<Id>)
    requires forall x :: x in order ==> x in m
    ensures r.Some? ==> exists i :: 0 <= i < |order| && order[i] == r.value && id in m[r.value].children &&
                                    forall j :: 0 <= j < i ==> id !in m[order[j]].children
    ensures r.None? ==> forall x :: x in order ==> id !in m[x].children
  {
    if order == [] then None
    else if id in m[order[0]].children then Some(order[0])
    else
      assert forall x :: x in order <==> x == order[0] || x in order[1..];
      FirstClaimant(order[1..], m, id)
  }

  function ResolvedParent(order: seq<Id>, m: Messages, id: Id, p: Payload): Option<Id>
    requires forall x :: x in order ==> x in m
  {
    if p.parent.Some? && p.parent.value.Some? then p.parent.value else FirstClaimant(order, m, id)
  }

  function DerivedRole(m: Messages, parent: Option<Id>, p: Payload): Role {
    if Or(p.role, NoRole) != NoRole then p.role.value
    else if Or(p.output, NoRole) != NoRole then p.output.value
    else if Linkable(m, parent) && m[parent.value].role == Assistant then User
    else Assistant
  }

  function NewMessage(order: seq<Id>, m: Messages, id: Id, p: Payload, now: int): Message
    requires forall x :: x in order ==> x in m
  {
    var parent := ResolvedParent(order, m, id, p);
    Message(if Or(p.id, "") != "" then p.id.value else id,
            parent,
            Or(p.children, []),
            DerivedRole(m, parent, p),
            if Or(p.timestamp, 0) != 0 then p.timestamp.value else now,
            Or(p.output, NoRole), Or(p.summary, false), Or(p.content, ""))
  }

  function Upsert(h: History, id: Id, p: Payload, now: int): History
    requires WellFormed(h)
  {
    if id in h.msgs then
      var m := h.msgs[id := Overlay(h.msgs[id], p)];
      History(h.order, AddChild(m, m[id].parent, id), h.current)
    else
      var m := h.msgs[id := NewMessage(h.order, h.msgs, id, p, now)];
      History(h.order + [id], AddChild(m, m[id].parent, id), Some(id))
  }
}
