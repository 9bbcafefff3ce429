// What deleting a message does to a forest.
module DeleteForest {
  import opened Basics
  import opened HistoryModel
  import opened Forests

  // `x` is a child of a child of `d`.
  ghost predicate Grandchild(m: Messages, d: Id, x: Id) {
    x in m && m[x].parent.Some? && m[x].parent.value in ChildrenOf(m, Some(d))
  }

  lemma DeletedExactly(m: Messages, d: Id)
    requires ForestMap(m) && d in m
    ensures DeletedIds(m, d) == {d} + ChildrenOf(m, Some(d))
  {
  }

  lemma AdoptedAre(m: Messages, d: Id, x: Id)
    requires Inverse(m) && d in m
    ensures x in Adopted(m, d) <==> Grandchild(m, d, x)
  {
    GrandchildrenAre(m, Restrict(m[d].children, m.Keys), x);
    if Grandchild(m, d, x) {
      var c := m[x].parent.value;
      assert c in Restrict(m[d].children, m.Keys) && x in m[c].children;
    }
  }

  lemma AdoptedExactly(m: Messages, d: Id)
    requires ForestMap(m) && d in m
    ensures forall x :: x in Adopted(m, d) <==> Grandchild(m, d, x)
    ensures NoDup(Adopted(m, d))
  {
    forall x { AdoptedAre(m, d, x); }
    RestrictNoDup(m[d].children, m.Keys);
    GrandchildrenNoDup(m, Restrict(m[d].children, m.Keys));
  }

  // `x` comes before `y` when its parent does, or in the list of the same parent.
  ghost predicate ListedEarlier(m: Messages, ids: seq<Id>, p: Id, q: Id, x: Id, y: Id) {
    p in m && q in m && x in m[p].children && y in m[q].children &&
    (Before(ids, p, q) || (p == q && p in ids && Before(m[p].children, x, y)))
  }

  lemma {:induction false} GrandchildrenInOrder(m: Messages, ids: seq<Id>, p: Id, q: Id, x: Id, y: Id)
    requires (forall z :: z in ids ==> z in m) && x in m && y in m && ListedEarlier(m, ids, p, q, x, y)
    ensures Before(Grandchildren(m, ids), x, y)
  {
    var n := |ids| - 1;
    var init, c := ids[..n], ids[n];
    BeforeAppend(Grandchildren(m, init), Restrict(m[c].children, m.Keys), x, y);
    if Before(ids, p, q) {
      var i, j :| 0 <= i < j < |ids| && ids[i] == p && ids[j] == q;
      assert init[i] == p;
      if j == n {
        GrandchildrenAre(m, init, x);
      } else {
        assert init[j] == q;
        GrandchildrenInOrder(m, init, p, q, x, y);
      }
    } else if p == c {
      RestrictBefore(m[c].children, m.Keys, x, y);
    } else {
      GrandchildrenInOrder(m, init, p, q, x, y);
    }
  }

  // The adopted ids keep the order of the deleted message's list and of its
  // children's lists.
  lemma AdoptedInOrder(m: Messages, d: Id, p: Id, q: Id, x: Id, y: Id)
    requires d in m && x in m && y in m && ListedEarlier(m, m[d].children, p, q, x, y)
    ensures Before(Adopted(m, d), x, y)
  {
    if Before(m[d].children, p, q) {
      RestrictBefore(m[d].children, m.Keys, p, q);
    }
    GrandchildrenInOrder(m, Restrict(m[d].children, m.Keys), p, q, x, y);
  }

  lemma {:induction false} GrandchildrenNoDup(m: Messages, ids: seq<Id>)
    requires ClaimedOnce(m) && NoDup(ids) && forall x :: x in ids ==> x in m
    ensures NoDup(Grandchildren(m, ids))
  {
    if ids == [] {
    } else {
      var n := |ids| - 1;
      GrandchildrenNoDup(m, ids[..n]);
      forall g | g in Grandchildren(m, ids[..n]) ensures g !in m[ids[n]].children {
        GrandchildrenAre(m, ids[..n], g);
      }
      RestrictNoDup(m[ids[n]].children, m.Keys);
      NoDupAppend(Grandchildren(m, ids[..n]), Restrict(m[ids[n]].children, m.Keys));
    }
  }

  // The deletion removes `d` and its direct children; it gives the
  // grandchildren the deleted message's parent, appends them to that parent's
  // list, and leaves everything else as it was.
  lemma DeleteEffect(m: Messages, d: Id)
    requires ForestMap(m) && d in m
    ensures var after, p := DeletedMsgs(m, d), m[d].parent;
            && after.Keys == m.Keys - {d} - ChildrenOf(m, Some(d))
            && (p.Some? ==> p.value in after)
            && forall x :: x in after ==>
                 after[x] == m[x].(
                   parent := if Grandchild(m, d, x) then p else m[x].parent,
                   children := if p == Some(x) then Without(m[x].children, {d}) + Adopted(m, d) else m[x].children)
  {
    DeletedExactly(m, d);
    AdoptedExactly(m, d);
    var p := m[d].parent;
    if p.Some? {
      var rank :| Ranked(m, rank);
      assert p.value !in ChildrenOf(m, Some(d));
    }
  }

  lemma DeleteKeepsRank(m: Messages, d: Id, rank: map<Id, nat>)
    requires ForestMap(m) && d in m && Ranked(m, rank)
    ensures Ranked(DeletedMsgs(m, d), rank)
  {
    DeleteEffect(m, d);
  }

  lemma DeleteKeepsInverse(m: Messages, d: Id)
    requires ForestMap(m) && d in m
    ensures Inverse(DeletedMsgs(m, d))
  {
    DeleteEffect(m, d);
    AdoptedExactly(m, d);
  }

  // The new parent's list has no duplicate: no grandchild was in it.
  lemma AdoptingListNoDup(m: Messages, d: Id, p: Id)
    requires ForestMap(m) && d in m && m[d].parent == Some(p)
    ensures NoDup(Without(m[p].children, {d}) + Adopted(m, d))
  {
    AdoptedExactly(m, d);
    RestrictNoDup(m[p].children, Elements(m[p].children) - {d});
    var rank :| Ranked(m, rank);
    forall x | x in Adopted(m, d) ensures x !in m[p].children {
      assert Grandchild(m, d, x);
    }
    NoDupAppend(Without(m[p].children, {d}), Adopted(m, d));
  }

  lemma DeleteKeepsClaims(m: Messages, d: Id)
    requires ForestMap(m) && d in m
    ensures ClaimedOnce(DeletedMsgs(m, d))
  {
    DeleteEffect(m, d);
    AdoptedExactly(m, d);
    var after, p := DeletedMsgs(m, d), m[d].parent;
    if p.Some? {
      AdoptingListNoDup(m, d, p.value);
    }
    forall x, q | x in Adopted(m, d) && q in after ensures x !in m[q].children {
      assert Grandchild(m, d, x);
    }
    forall q, r, c | q in after && r in after && c in after[q].children && c in after[r].children
      ensures q == r
    {
      assert c in m[q].children || c in Adopted(m, d);
      assert c in m[r].children || c in Adopted(m, d);
    }
  }

  lemma DeleteKeepsForest(h: History, d: Id)
    requires Forest(h)
    ensures Forest(Delete(h, d))
    ensures Delete(h, d).order == Restrict(h.order, Delete(h, d).msgs.Keys)
    ensures d !in h.msgs ==> Delete(h, d) == h
  {
    if d in h.msgs {
      var rank :| Ranked(h.msgs, rank);
      DeleteKeepsRank(h.msgs, d, rank);
      DeleteKeepsInverse(h.msgs, d);
      DeleteKeepsClaims(h.msgs, d);
      RestrictNoDup(h.order, Elements(h.order) - DeletedIds(h.msgs, d));
      RestrictAgree(h.order, Elements(h.order) - DeletedIds(h.msgs, d), Delete(h, d).msgs.Keys);
    } else {
      RestrictAll(h.order, h.msgs.Keys);
    }
  }

  // ---- ancestor order -----------------------------------------------------

  // How the parent links of `m` and of the history `after` the deletion relate.
  ghost predicate Spliced(m: Messages, d: Id, after: Messages) {
    && d in m && d !in after
    && (forall c :: c in ChildrenOf(m, Some(d)) ==> c !in after)
    && after.Keys <= m.Keys
    && (forall y :: y in after ==>
          after[y].parent == if Grandchild(m, d, y) then m[d].parent else m[y].parent)
    && (forall y :: y in after && after[y].parent.Some? ==> after[y].parent.value in after)
  }

  lemma DeleteSplices(m: Messages, d: Id)
    requires ForestMap(m) && d in m
    ensures Spliced(m, d, DeletedMsgs(m, d))
  {
    DeleteEffect(m, d);
    var rank :| Ranked(m, rank);
    DeleteKeepsRank(m, d, rank);
  }

  // One parent link after the deletion is one or three links before it.
  lemma {:induction false} UpAfterIsUpBefore(m: Messages, d: Id, after: Messages, x: Id, y: Id, n: nat)
    returns (k: nat)
    requires Spliced(m, d, after) && y in after && Up(after, x, y, n)
    ensures n <= k && Up(m, x, y, k)
    decreases n
  {
    k := 0;
    if n == 0 {
    } else {
      k := UpAfterIsUpBefore(m, d, after, x, after[y].parent.value, n - 1);
      if Grandchild(m, d, y) {
        assert Up(m, x, d, k + 1) && Up(m, x, m[y].parent.value, k + 2);
        k := k + 3;
      } else {
        k := k + 1;
      }
    }
  }

  lemma {:induction false} UpBeforeIsUpAfter(m: Messages, d: Id, after: Messages, x: Id, y: Id, n: nat)
    returns (k: nat)
    requires Spliced(m, d, after) && x in after && y in after && Up(m, x, y, n)
    ensures Up(after, x, y, k) && (n > 0 ==> k > 0)
    decreases n
  {
    k := 0;
    if n == 0 {
    } else {
      if Grandchild(m, d, y) {
        assert Up(m, x, m[y].parent.value, n - 1) && Up(m, x, d, n - 2) && Up(m, x, m[d].parent.value, n - 3);
        k := UpBeforeIsUpAfter(m, d, after, x, m[d].parent.value, n - 3);
      } else {
        k := UpBeforeIsUpAfter(m, d, after, x, m[y].parent.value, n - 1);
      }
      k := k + 1;
    }
  }

  // For every two survivors the ancestor order is what it was.
  lemma DeleteKeepsAncestors(m: Messages, d: Id, x: Id, y: Id)
    requires ForestMap(m) && d in m && x in DeletedMsgs(m, d) && y in DeletedMsgs(m, d)
    ensures Ancestor(DeletedMsgs(m, d), x, y) <==> Ancestor(m, x, y)
  {
    var after := DeletedMsgs(m, d);
    DeleteSplices(m, d);
    if Ancestor(after, x, y) {
      var n: nat :| n > 0 && Up(after, x, y, n);
      var k := UpAfterIsUpBefore(m, d, after, x, y, n);
    }
    if Ancestor(m, x, y) {
      var n: nat :| n > 0 && Up(m, x, y, n);
      var k := UpBeforeIsUpAfter(m, d, after, x, y, n);
    }
  }

  // ---- alternation of roles -----------------------------------------------

  // A user message is answered by assistant messages only, and conversely.
  ghost predicate Alternates(m: Messages) {
    forall x :: x in m && m[x].parent.Some? && m[x].parent.value in m ==>
      (m[m[x].parent.value].role == User ==> m[x].role == Assistant) &&
      (m[m[x].parent.value].role == Assistant ==> m[x].role == User)
  }

  lemma DeleteKeepsAlternation(m: Messages, d: Id)
    requires ForestMap(m) && d in m && Alternates(m)
    ensures Alternates(DeletedMsgs(m, d))
  {
    DeleteEffect(m, d);
    SplicingAlternates(m, d, DeletedMsgs(m, d));
  }

  // Taking two links at once keeps the roles alternating.
  lemma SplicingAlternates(m: Messages, d: Id, after: Messages)
    requires Alternates(m) && d in m && after.Keys <= m.Keys
    requires forall x :: x in after ==>
               after[x].role == m[x].role &&
               after[x].parent == if Grandchild(m, d, x) then m[d].parent else m[x].parent
    ensures Alternates(after)
  {
  }

  // ---- the cursor ---------------------------------------------------------

  // The chain of last entries that starts with the list `kids` runs into an id
  // that is not present.
  ghost predicate Dangles(m: Messages, kids: seq<Id>, visited: set<Id>)
    decreases m.Keys - visited
  {
    kids != [] && kids[|kids| - 1] !in visited &&
    (kids[|kids| - 1] !in m ||
     Dangles(m, m[kids[|kids| - 1]].children, visited + {kids[|kids| - 1]}))
  }

  lemma {:induction false} WalkDangles(m: Messages, at: Option<Id>, kids: seq<Id>, visited: set<Id>)
    requires at.Some? ==> at.value in m
    ensures var end := Walk(m, at, kids, visited);
            if Dangles(m, kids, visited) then end.Some? && end.value !in m
            else end.None? || end.value in m
    decreases m.Keys - visited
  {
    if kids == [] || kids[|kids| - 1] in visited || kids[|kids| - 1] !in m {
    } else {
      var c := kids[|kids| - 1];
      WalkDangles(m, Some(c), m[c].children, visited + {c});
    }
  }

  function ListOf(m: Messages, x: Id): seq<Id> {
    if x in m then m[x].children else []
  }

  // Each id but the first is the last entry of the list of the one before.
  ghost predicate FollowsLast(m: Messages, path: seq<Id>) {
    |path| <= 1 ||
    (ListOf(m, path[0]) != [] && path[1] == Last(ListOf(m, path[0])) && FollowsLast(m, path[1..]))
  }

  lemma FollowsLonger(m: Messages, c: Id, rest: seq<Id>)
    requires FollowsLast(m, rest) && (rest != [] ==> ListOf(m, c) != [] && rest[0] == Last(ListOf(m, c)))
    ensures FollowsLast(m, [c] + rest) && Last([c] + rest) == if rest == [] then c else Last(rest)
  {
    assert ([c] + rest)[1..] == rest;
  }

  // On any graph the walk takes the last entry at every step, until there is none
  // or it was visited before.
  lemma {:induction false} WalkFollowsLast(m: Messages, at: Option<Id>, kids: seq<Id>, visited: set<Id>)
    returns (path: seq<Id>)
    ensures FollowsLast(m, path) && (path != [] ==> kids != [] && path[0] == Last(kids))
    ensures Walk(m, at, kids, visited) == if path == [] then at else Some(Last(path))
    ensures var rest := if path == [] then kids else ListOf(m, Last(path));
            rest == [] || Last(rest) in visited || Last(rest) in path
    decreases m.Keys - visited
  {
    if kids == [] || Last(kids) in visited {
      path := [];
    } else {
      var c := Last(kids);
      path := [c];
      if c in m {
        var rest := WalkFollowsLast(m, Some(c), m[c].children, visited + {c});
        path := [c] + rest;
        FollowsLonger(m, c, rest);
      }
    }
  }

  // On a forest the walk never meets a visited id; it ends at an empty list,
  // below the message it started from.
  lemma {:induction false} WalkEndsAtLeaf(
      m: Messages, rank: map<Id, nat>, at: Option<Id>, kids: seq<Id>, visited: set<Id>)
    requires Inverse(m) && Ranked(m, rank)
    requires at.Some? ==> at.value in m && kids == m[at.value].children
    requires forall v :: v in visited ==> v in m && at.Some? && rank[v] <= rank[at.value]
    requires !Dangles(m, kids, visited) && (at.Some? || kids != [])
    ensures var end := Walk(m, at, kids, visited);
            end.Some? && end.value in m && m[end.value].children == [] &&
            (at.Some? ==> AncestorOrSelf(m, at.value, end.value))
    decreases m.Keys - visited
  {
    if kids == [] {
      assert Up(m, at.value, at.value, 0);
    } else {
      var c := kids[|kids| - 1];
      assert c in m ==> at.Some? ==> m[c].parent == at;
      assert c in visited ==> c in m;
      WalkEndsAtLeaf(m, rank, Some(c), m[c].children, visited + {c});
      if at.Some? {
        var end := Walk(m, Some(c), m[c].children, visited + {c}).value;
        var n: nat :| Up(m, c, end, n);
        assert Up(m, at.value, c, 1) by { assert Up(m, at.value, at.value, 0); }
        UpCompose(m, at.value, c, end, 1, n);
      }
    }
  }

  // Where the cursor walk of a deletion starts, read off the history before it.
  function StartBefore(h: History, d: Id): seq<Id>
    requires d in h.msgs
  {
    var m := h.msgs;
    if m[d].parent.None? then
      Restrict(h.order, ChildrenOf(m, None) - {d} + Elements(Adopted(m, d)))
    else if m[d].parent.value in m then
      Without(m[m[d].parent.value].children, {d}) + Adopted(m, d)
    else []
  }

  lemma StartIsStartBefore(h: History, d: Id)
    requires Forest(h) && d in h.msgs
    ensures WalkStart(Delete(h, d).order, Delete(h, d).msgs, h.msgs[d].parent) == StartBefore(h, d)
  {
    DeleteEffect(h.msgs, d);
    if h.msgs[d].parent.None? {
      RootsAfter(h, d);
    }
  }

  lemma RootsAfter(h: History, d: Id)
    requires Forest(h) && d in h.msgs && h.msgs[d].parent.None?
    ensures Roots(Delete(h, d).order, Delete(h, d).msgs) == StartBefore(h, d)
  {
    var m, after := h.msgs, DeletedMsgs(h.msgs, d);
    var kept := Elements(h.order) - DeletedIds(m, d);
    var roots := ChildrenOf(after, None);
    forall x | x in h.order
      ensures x in kept * roots <==> x in ChildrenOf(m, None) - {d} + Elements(Adopted(m, d))
    {
      RootAfter(m, d, x);
    }
    RestrictTwice(h.order, kept, roots);
    RestrictAgree(h.order, kept * roots, ChildrenOf(m, None) - {d} + Elements(Adopted(m, d)));
  }

  lemma RootAfter(m: Messages, d: Id, x: Id)
    requires ForestMap(m) && d in m && m[d].parent.None? && x in m
    ensures x !in DeletedIds(m, d) && x in ChildrenOf(DeletedMsgs(m, d), None) <==>
            x in ChildrenOf(m, None) - {d} || x in Adopted(m, d)
  {
    DeletedExactly(m, d);
    AdoptedExactly(m, d);
    DeleteSplices(m, d);
    var rank :| Ranked(m, rank);
    DeleteEffect(m, d);
  }

  // The survivors the walk can reach.
  ghost predicate Reachable(m: Messages, d: Id, rank: map<Id, nat>, v: Id)
    requires d in m && Ranked(m, rank)
  {
    v in m && v != d && v !in ChildrenOf(m, Some(d)) &&
    (m[d].parent.Some? ==> rank[m[d].parent.value] < rank[v])
  }

  lemma {:induction false} DanglesBefore(
      m: Messages, d: Id, rank: map<Id, nat>, after: Messages, kids: seq<Id>, visited: set<Id>)
    requires d in m && Inverse(m) && Ranked(m, rank) && after.Keys == m.Keys - {d} - ChildrenOf(m, Some(d))
    requires forall v :: v in after && m[d].parent != Some(v) ==> after[v].children == m[v].children
    requires forall v :: v in kids && v in m ==> Reachable(m, d, rank, v)
    ensures Dangles(m, kids, visited) <==> Dangles(after, kids, visited)
    decreases m.Keys - visited
  {
    if kids == [] || kids[|kids| - 1] in visited || kids[|kids| - 1] !in m {
    } else {
      var c := kids[|kids| - 1];
      assert Reachable(m, d, rank, c);
      forall v | v in m[c].children && v in m ensures Reachable(m, d, rank, v) {
        assert m[v].parent == Some(c);
      }
      DanglesBefore(m, d, rank, after, m[c].children, visited + {c});
    }
  }

  lemma StartReachable(h: History, d: Id, rank: map<Id, nat>)
    requires Forest(h) && d in h.msgs && Ranked(h.msgs, rank)
    ensures forall v :: v in StartBefore(h, d) && v in h.msgs ==> Reachable(h.msgs, d, rank, v)
  {
    AdoptedExactly(h.msgs, d);
  }

  // After a deletion `currentId` is a leaf of what remains, at or below the
  // deleted message's parent; it is None exactly when nothing remains or the
  // chain of last entries ran into an id that is not present.
  lemma DeleteCursorIsLeaf(h: History, d: Id)
    requires Forest(h) && d in h.msgs
    ensures var after, p := Delete(h, d), h.msgs[d].parent;
            && (after.current.None? <==> after.msgs == map[] || Dangles(h.msgs, StartBefore(h, d), {}))
            && (after.current.Some? ==>
                  after.current.value in after.msgs && after.msgs[after.current.value].children == [] &&
                  (p.Some? ==> AncestorOrSelf(after.msgs, p.value, after.current.value)))
  {
    var after, p := Delete(h, d), h.msgs[d].parent;
    var start := StartBefore(h, d);
    var rank :| Ranked(h.msgs, rank);
    DeleteEffect(h.msgs, d);
    DeleteKeepsForest(h, d);
    DeleteKeepsRank(h.msgs, d, rank);
    StartIsStartBefore(h, d);
    StartReachable(h, d, rank);
    DanglesBefore(h.msgs, d, rank, after.msgs, start, {});
    WalkDangles(after.msgs, p, start, {});
    if !Dangles(after.msgs, start, {}) && after.msgs != map[] {
      if p.None? {
        var y :| y in after.msgs;
        var root := HasRoot(after.msgs, rank, y);
        assert root in start;
      }
      WalkEndsAtLeaf(after.msgs, rank, p, start, {});
    }
  }

  // Which leaf it is, on any history: the cursor ends a path of last entries that
  // begins at the deleted message's parent or, without one, at the last root in
  // dict order, and that cannot be continued.
  lemma DeleteCursorPath(h: History, d: Id) returns (path: seq<Id>)
    requires WellFormed(h) && d in h.msgs && Delete(h, d).current.Some?
    ensures var after, p := Delete(h, d), h.msgs[d].parent;
            && path != [] && after.current == Some(Last(path)) && Last(path) in after.msgs
            && FollowsLast(after.msgs, path)
            && (if p.Some? then path[0] == p.value
                else LastIn(after.order, ChildrenOf(after.msgs, None), path[0]))
            && (ListOf(after.msgs, Last(path)) == [] || Last(ListOf(after.msgs, Last(path))) in path)
  {
    var after, p := Delete(h, d), h.msgs[d].parent;
    var start := WalkStart(after.order, after.msgs, p);
    path := WalkFollowsLast(after.msgs, p, start, {});
    if p.Some? {
      FollowsLonger(after.msgs, p.value, path);
      path := [p.value] + path;
    } else {
      assert path != [];
      RestrictLast(after.order, ChildrenOf(after.msgs, None));
    }
  }

  // A list that names every id it mentions as present never dangles, so on a
  // history without placeholders the cursor is lost only with the last message.
  lemma {:induction false} CompleteNeverDangles(m: Messages, kids: seq<Id>, visited: set<Id>)
    requires forall v :: v in m ==> forall c :: c in m[v].children ==> c in m
    requires forall c :: c in kids ==> c in m
    ensures !Dangles(m, kids, visited)
    decreases m.Keys - visited
  {
    if kids == [] || kids[|kids| - 1] in visited {
    } else {
      var c := kids[|kids| - 1];
      CompleteNeverDangles(m, m[c].children, visited + {c});
    }
  }

  lemma CompleteCursor(h: History, d: Id)
    requires Forest(h) && d in h.msgs
    requires forall v :: v in h.msgs ==> forall c :: c in h.msgs[v].children ==> c in h.msgs
    ensures Delete(h, d).current.None? <==> Delete(h, d).msgs == map[]
  {
    DeleteCursorIsLeaf(h, d);
    AdoptedExactly(h.msgs, d);
    CompleteNeverDangles(h.msgs, StartBefore(h, d), {});
  }

  // The exception is real: a user message `u` linked to an answer `b` that is
  // not saved yet loses the cursor when its other answer `a` is deleted.
  function WithPlaceholder(u: Id, a: Id, b: Id): History {
    History([u, a],
            map[u := Message(u, None, [a, b], User, 1, NoRole, false, ""),
                a := Message(a, Some(u), [], Assistant, 2, NoRole, false, "")],
            Some(a))
  }

  lemma PlaceholderIsForest(u: Id, a: Id, b: Id)
    requires u != a && u != b && a != b && "" !in {u, a, b}
    ensures Forest(WithPlaceholder(u, a, b))
  {
    assert Ranked(WithPlaceholder(u, a, b).msgs, map[u := 0, a := 1]);
  }

  lemma PlaceholderStart(m: Messages, u: Id, a: Id, b: Id)
    requires u != a && u != b && a != b && m == WithPlaceholder(u, a, b).msgs
    ensures Without(m[u].children, {a}) == [b] && Adopted(m, a) == []
  {
    var keep := Elements([a, b]) - {a};
    RestrictNone([a], keep);
    RestrictAll([b], keep);
    RestrictAppend([a], [b], keep);
    assert [a] + [b] == [a, b];
    var none: seq<Id> := Restrict(m[a].children, m.Keys);
    assert none == [];
  }

  lemma PlaceholderLosesCursor(u: Id, a: Id, b: Id)
    requires u != a && u != b && a != b && "" !in {u, a, b}
    ensures var h := WithPlaceholder(u, a, b);
            Forest(h) && u in Delete(h, a).msgs && Delete(h, a).current.None?
  {
    var h := WithPlaceholder(u, a, b);
    PlaceholderIsForest(u, a, b);
    PlaceholderStart(h.msgs, u, a, b);
    assert StartBefore(h, a) == [b];
    DeleteEffect(h.msgs, a);
    DeleteCursorIsLeaf(h, a);
  }
}
