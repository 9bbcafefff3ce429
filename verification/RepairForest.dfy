// What repairing a history guarantees.
module RepairForest {
  import opened Basics
  import opened HistoryModel
  import opened Forests

  // ---- links --------------------------------------------------------------

  // The children the repair appends to the list of `x`.
  function MissingLinks(order: seq<Id>, m: Messages, x: Id): seq<Id>
    requires x in m
  {
    if x == "" then [] else Restrict(order, ChildrenOf(m, Some(x)) - Elements(m[x].children))
  }

  ghost predicate RepairedAt(order: seq<Id>, m: Messages, x: Id)
    requires x in m && forall y :: y in order ==> y in m
  {
    RepairLinks(order, m)[x] == m[x].(children := m[x].children + MissingLinks(order, m, x))
  }

  // From any graph: every list keeps what it had, in order, followed by the
  // messages that name its owner as parent and were not listed; nothing else
  // changes.
  lemma {:induction false} RepairAppendsMissing(order: seq<Id>, m: Messages, x: Id)
    requires NoDup(order) && x in m && forall y :: y in order ==> y in m
    ensures RepairedAt(order, m, x)
  {
    if order == [] {
      assert m[x].children + MissingLinks(order, m, x) == m[x].children;
    } else {
      var n := |order| - 1;
      RepairAppendsMissing(order[..n], m, x);
      RepairStep(order, m, x);
    }
  }

  lemma RepairStep(order: seq<Id>, m: Messages, x: Id)
    requires NoDup(order) && order != [] && x in m && forall y :: y in order ==> y in m
    requires RepairedAt(order[..|order| - 1], m, x)
    ensures RepairedAt(order, m, x)
  {
  }

  // Every message is now in its parent's list.
  lemma RepairCompletesLinks(h: History, c: Id)
    requires WellFormed(h) && c in h.msgs && Linkable(h.msgs, h.msgs[c].parent)
    ensures c in Repair(h).msgs[h.msgs[c].parent.value].children
  {
    RepairAppendsMissing(h.order, h.msgs, h.msgs[c].parent.value);
  }

  // A repair touches neither the dict order nor anything of a message but its
  // list, which it only extends.
  lemma RepairOnlyLinks(h: History, x: Id)
    requires WellFormed(h) && x in h.msgs
    ensures var after := Repair(h);
            && after.order == h.order && after.msgs.Keys == h.msgs.Keys
            && h.msgs[x].children <= after.msgs[x].children
            && after.msgs[x] == h.msgs[x].(children := after.msgs[x].children)
  {
    RepairAppendsMissing(h.order, h.msgs, x);
  }

  lemma CompleteLinksUnchanged(order: seq<Id>, m: Messages)
    requires Ordered(order, m) && Inverse(m)
    ensures RepairLinks(order, m) == m
  {
    forall x | x in m ensures RepairLinks(order, m)[x] == m[x] {
      RepairAppendsMissing(order, m, x);
      RestrictNone(order, ChildrenOf(m, Some(x)) - Elements(m[x].children));
      assert m[x].children + [] == m[x].children;
    }
  }

  // A forest whose child lists may be incomplete but name no wrong child.
  ghost predicate ForestShaped(m: Messages) {
    "" !in m && ParentClosedAcyclic(m) && ClaimedOnce(m) &&
    forall p, c :: p in m && c in m && c in m[p].children ==> m[c].parent == Some(p)
  }

  // The repair turns it into a forest.
  lemma RepairMakesForest(order: seq<Id>, m: Messages)
    requires Ordered(order, m) && ForestShaped(m)
    ensures ForestMap(RepairLinks(order, m))
  {
    var after := RepairLinks(order, m);
    forall p | p in m
      ensures after[p].parent == m[p].parent && NoDup(after[p].children)
      ensures forall c :: c in after[p].children <==> c in m[p].children || (c in m && m[c].parent == Some(p))
    {
      RepairAppendsMissing(order, m, p);
      RestrictNoDup(order, ChildrenOf(m, Some(p)) - Elements(m[p].children));
      NoDupAppend(m[p].children, MissingLinks(order, m, p));
    }
    var rank :| Ranked(m, rank);
    assert Ranked(after, rank);
  }

  // ---- descent ------------------------------------------------------------

  lemma {:induction false} LastPresentIs(s: seq<Id>, m: Messages)
    ensures LastPresent(s, m).None? <==> forall x :: x in s ==> x !in m
    ensures LastPresent(s, m).Some? ==> LastIn(s, m.Keys, LastPresent(s, m).value)
  {
    if s == [] {
    } else {
      var n := |s| - 1;
      LastPresentIs(s[..n], m);
      assert forall x :: x in s <==> x in s[..n] || x == s[n];
      if s[n] in m {
        assert LastAt(s, m.Keys, s[n], n);
      } else if LastPresent(s, m).Some? {
        var i :| LastAt(s[..n], m.Keys, LastPresent(s, m).value, i);
        assert LastAt(s, m.Keys, LastPresent(s, m).value, i);
      }
    }
  }

  // The path descends to the last entry of each list that names a present message.
  ghost predicate Descends(m: Messages, path: seq<Id>) {
    |path| <= 1 ||
    (path[0] in m && LastIn(m[path[0]].children, m.Keys, path[1]) && Descends(m, path[1..]))
  }

  // On any graph the descent follows such a path, until no entry is present or
  // the message was visited before.
  lemma {:induction false} DescentTakesLast(m: Messages, id: Id, seen: set<Id>) returns (path: seq<Id>)
    requires "" !in m
    ensures path != [] && path[0] == id && Last(path) == LastDescendant(m, id, seen) && Descends(m, path)
    ensures Last(path) !in m || Last(path) in seen || Last(path) in path[..|path| - 1] ||
            forall c :: c in m[Last(path)].children ==> c !in m
    decreases m.Keys - seen
  {
    path := [id];
    if id !in m || id in seen {
    } else {
      LastPresentIs(m[id].children, m);
      var next := LastPresent(m[id].children, m);
      if next.Some? {
        var rest := DescentTakesLast(m, next.value, seen + {id});
        path := [id] + rest;
        assert path[1..] == rest && path[..|path| - 1] == [id] + rest[..|rest| - 1];
      }
    }
  }

  // `y` is reached from `x` by `n` steps through child lists.
  ghost predicate Down(m: Messages, x: Id, y: Id, n: nat)
    decreases n
  {
    if n == 0 then x == y
    else x in m && exists c :: c in m[x].children && c in m && Down(m, c, y, n - 1)
  }

  // On any graph, cycles included, the descent ends at a message reached
  // through child lists.
  lemma {:induction false} DescentReaches(m: Messages, id: Id, seen: set<Id>) returns (n: nat)
    ensures Down(m, id, LastDescendant(m, id, seen), n)
    ensures id in m ==> LastDescendant(m, id, seen) in m
    decreases m.Keys - seen
  {
    n := 0;
    if id !in m || id in seen {
    } else {
      LastPresentIs(m[id].children, m);
      var next := LastPresent(m[id].children, m);
      if next.Some? && next.value != "" {
        n := DescentReaches(m, next.value, seen + {id});
        n := n + 1;
      }
    }
  }

  // On a forest it ends at a leaf below its start.
  lemma {:induction false} DescentEndsAtLeaf(m: Messages, rank: map<Id, nat>, id: Id, seen: set<Id>)
    requires "" !in m && Inverse(m) && Ranked(m, rank) && id in m
    requires forall v :: v in seen ==> v in m && rank[v] < rank[id]
    ensures var last := LastDescendant(m, id, seen);
            last in m && ChildrenOf(m, Some(last)) == {} && AncestorOrSelf(m, id, last)
    decreases m.Keys - seen
  {
    assert Up(m, id, id, 0);
    LastPresentIs(m[id].children, m);
    var next := LastPresent(m[id].children, m);
    if next.Some? {
      DescentEndsAtLeaf(m, rank, next.value, seen + {id});
      var last := LastDescendant(m, next.value, seen + {id});
      var n: nat :| Up(m, next.value, last, n);
      assert Up(m, id, next.value, 1);
      UpCompose(m, id, next.value, last, 1, n);
    }
  }

  // ---- the newest leaf ----------------------------------------------------

  // The scan returns the first of the newest leaves, or None if there is none
  // with a timestamp of at least zero.
  lemma {:induction false} LatestLeafIsNewest(order: seq<Id>, m: Messages)
    requires NoDup(order)
    ensures var (leaf, time) := LatestLeaf(order, m);
            if leaf.None? then time == -1 && forall x :: x in order && LeafCandidate(m, x) ==> m[x].timestamp < 0
            else
              && leaf.value in order && LeafCandidate(m, leaf.value) && m[leaf.value].timestamp == time >= 0
              && (forall x :: x in order && LeafCandidate(m, x) ==> m[x].timestamp <= time)
              && exists k :: 0 <= k < |order| && order[k] == leaf.value &&
                   forall j :: 0 <= j < k && LeafCandidate(m, order[j]) ==> m[order[j]].timestamp < time
  {
    if order == [] {
    } else {
      var n := |order| - 1;
      LatestLeafIsNewest(order[..n], m);
      var best := LatestLeaf(order[..n], m);
      assert forall x :: x in order <==> x in order[..n] || x == order[n];
      if LeafCandidate(m, order[n]) && m[order[n]].timestamp > best.1 {
        assert forall j :: 0 <= j < n ==> order[j] in order[..n];
      } else if best.0.Some? {
        var k :| 0 <= k < n && order[..n][k] == best.0.value &&
                 forall j :: 0 <= j < k && LeafCandidate(m, order[..n][j]) ==> m[order[..n][j]].timestamp < best.1;
        assert forall j :: 0 <= j < k ==> order[j] == order[..n][j];
        assert order[k] == best.0.value;
      }
    }
  }

  // ---- the whole repair ---------------------------------------------------

  lemma RepairKeepsForest(h: History)
    requires Forest(h)
    ensures Forest(Repair(h)) && Repair(h).order == h.order && Repair(h).msgs == h.msgs
  {
    CompleteLinksUnchanged(h.order, h.msgs);
    RepairCursorPresent(h.order, h.msgs, h.current);
  }

  lemma RepairCursorPresent(order: seq<Id>, m: Messages, current: Option<Id>)
    requires Ordered(order, m)
    ensures var next := RepairCursor(order, m, current);
            next == current || (next.Some? && next.value in m)
  {
    LatestLeafIsNewest(order, m);
    if GoodCursor(m, current) {
      var n := DescentReaches(m, current.value, {});
    }
  }

  ghost predicate DescendsTo(m: Messages, x: Id, y: Id) {
    exists path :: path != [] && path[0] == x && Last(path) == y && Descends(m, path)
  }

  // A message a cursor can stay on: it has id and role, and it is no assistant's
  // output without parent and time, unless it is the only message.
  lemma GoodCursorIff(m: Messages, x: Id)
    requires x in m
    ensures GoodCursor(m, Some(x)) <==>
            m[x].id != "" && m[x].role != NoRole &&
            (m[x].output == Assistant && m[x].parent.None? && m[x].timestamp == 0 ==> m.Keys == {x})
  {
    assert m.Keys == {x} + (m.Keys - {x});
    assert |m| == 1 + |m.Keys - {x}|;
  }

  // The first of the newest messages with role and without children.
  ghost predicate FirstNewestLeaf(order: seq<Id>, m: Messages, x: Id) {
    exists k :: 0 <= k < |order| && order[k] == x && x in m && m[x].children == [] && m[x].role != NoRole &&
      m[x].timestamp >= 0 &&
      forall j :: 0 <= j < |order| && order[j] in m && m[order[j]].children == [] && m[order[j]].role != NoRole ==>
        m[order[j]].timestamp <= m[x].timestamp && (j < k ==> m[order[j]].timestamp < m[x].timestamp)
  }

  lemma LatestLeafIs(order: seq<Id>, m: Messages)
    requires NoDup(order)
    ensures LatestLeaf(order, m).0.Some? ==> FirstNewestLeaf(order, m, LatestLeaf(order, m).0.value)
    ensures LatestLeaf(order, m).0.None? ==> forall x :: !FirstNewestLeaf(order, m, x)
  {
    LatestLeafIsNewest(order, m);
    var leaf := LatestLeaf(order, m).0;
    if leaf.Some? {
      var k :| 0 <= k < |order| && order[k] == leaf.value &&
               forall j :: 0 <= j < k && LeafCandidate(m, order[j]) ==> m[order[j]].timestamp < m[leaf.value].timestamp;
      forall j | 0 <= j < |order| && LeafCandidate(m, order[j]) ensures order[j] in order {}
    }
  }

  // Where the repair leaves the cursor of a forest: a good cursor stays unless
  // it is on a summary, which moves it down the last entries to a leaf; a bad one
  // goes to the first of the newest leaves, if there is one.
  lemma RepairMovesCursor(h: History)
    requires Forest(h)
    ensures var next := Repair(h).current;
            if GoodCursor(h.msgs, h.current) && !h.msgs[h.current.value].summary then next == h.current
            else if GoodCursor(h.msgs, h.current) then
              next.Some? && next.value in h.msgs && ChildrenOf(h.msgs, Some(next.value)) == {} &&
              AncestorOrSelf(h.msgs, h.current.value, next.value) && DescendsTo(h.msgs, h.current.value, next.value)
            else if next.Some? && FirstNewestLeaf(h.order, h.msgs, next.value) then true
            else next == h.current && forall x :: !FirstNewestLeaf(h.order, h.msgs, x)
  {
    CompleteLinksUnchanged(h.order, h.msgs);
    LatestLeafIs(h.order, h.msgs);
    if GoodCursor(h.msgs, h.current) {
      var rank :| Ranked(h.msgs, rank);
      DescentEndsAtLeaf(h.msgs, rank, h.current.value, {});
      var path := DescentTakesLast(h.msgs, h.current.value, {});
    }
  }

  ghost predicate CarriesIdAndRole(m: Messages) {
    forall x :: x in m ==> m[x].id != "" && m[x].role != NoRole
  }

  // The repair moves a good cursor from a summary to a message that is no good
  // cursor itself, and there is a newest leaf elsewhere.
  ghost predicate MovesTwice(order: seq<Id>, m: Messages, current: Option<Id>) {
    GoodCursor(m, current) && m[current.value].summary &&
    var last, leaf := LastDescendant(m, current.value, {}), LatestLeaf(order, m).0;
    last in m && (m[last].id == "" || m[last].role == NoRole) && leaf.Some? && leaf.value != last
  }

  lemma RepairCursorStableIff(order: seq<Id>, m: Messages, current: Option<Id>)
    requires Ordered(order, m) && ForestMap(m)
    ensures var next := RepairCursor(order, m, current);
            RepairCursor(order, m, next) == next <==> !MovesTwice(order, m, current)
  {
    var next := RepairCursor(order, m, current);
    LatestLeafIsNewest(order, m);
    if GoodCursor(m, current) && m[current.value].summary {
      var rank :| Ranked(m, rank);
      DescentEndsAtLeaf(m, rank, current.value, {});
      LeafIsLastDescendant(m, next.value);
      if next != current {
        var n: nat :| Up(m, current.value, next.value, n);
        assert m[next.value].parent.Some?;
      }
    } else if !GoodCursor(m, current) && next != current {
      LeafIsLastDescendant(m, next.value);
    }
  }

  lemma LeafIsLastDescendant(m: Messages, x: Id)
    requires Inverse(m) && x in m && (ChildrenOf(m, Some(x)) == {} || m[x].children == [])
    ensures LastDescendant(m, x, {}) == x
  {
    LastPresentIs(m[x].children, m);
  }

  // On forest-shaped histories a second repair changes something if and only if
  // the cursor of the linked messages moves twice.
  lemma RepairIdempotentIff(h: History)
    requires WellFormed(h) && ForestShaped(h.msgs)
    ensures Repair(Repair(h)) == Repair(h) <==>
            !MovesTwice(h.order, RepairLinks(h.order, h.msgs), h.current)
  {
    var m := RepairLinks(h.order, h.msgs);
    RepairMakesForest(h.order, h.msgs);
    CompleteLinksUnchanged(h.order, m);
    RepairCursorStableIff(h.order, m, h.current);
  }

  // So it changes nothing when all messages carry id and role.
  lemma RepairIdempotent(h: History)
    requires WellFormed(h) && ForestShaped(h.msgs) && CarriesIdAndRole(h.msgs)
    ensures Repair(Repair(h)) == Repair(h)
  {
    var m := RepairLinks(h.order, h.msgs);
    forall x | x in h.msgs ensures m[x].id == h.msgs[x].id && m[x].role == h.msgs[x].role {
      RepairAppendsMissing(h.order, h.msgs, x);
    }
    RepairIdempotentIff(h);
  }
}
