// The algebra of merge_history: what merging a stale writer's copy keeps.
module MergeForest {
  import opened Basics
  import opened HistoryModel
  import opened Forests

  lemma MergedOrdered(a: History, b: History)
    requires WellFormed(a) && WellFormed(b)
    ensures Ordered(MergedOrder(a, b), a.msgs + b.msgs)
  {
    RestrictNoDup(b.order, b.msgs.Keys - a.msgs.Keys);
    NoDupAppend(a.order, Restrict(b.order, b.msgs.Keys - a.msgs.Keys));
  }

  // The stored messages come first, in their order, and then the ones only the
  // incoming copy has, in its order.
  lemma MergeOrder(a: History, b: History)
    requires WellFormed(a) && WellFormed(b)
    ensures var order := Merge(a, b).order;
            && NoDup(order) && a.order <= order
            && (forall x :: x in order[|a.order|..] <==> x in b.msgs && x !in a.msgs)
            && forall x, y :: Before(b.order, x, y) && x !in a.msgs && y !in a.msgs ==> Before(order, x, y)
  {
    MergedOrdered(a, b);
    var tail := Restrict(b.order, b.msgs.Keys - a.msgs.Keys);
    forall x, y | Before(b.order, x, y) && x !in a.msgs && y !in a.msgs
      ensures Before(Merge(a, b).order, x, y)
    {
      RestrictBefore(b.order, b.msgs.Keys - a.msgs.Keys, x, y);
      BeforeAppend(a.order, tail, x, y);
    }
    assert Merge(a, b).order[|a.order|..] == tail;
  }

  // The incoming cursor wins if its message is there, then the stored one.
  lemma MergeCursor(a: History, b: History)
    ensures var h := Merge(a, b);
            && (CursorIn(b.current, a) || CursorIn(b.current, b) ==> h.current == b.current)
            && (h.current != b.current ==> h.current == a.current || h.current.None?)
            && (h.current.None? <==> !CursorIn(a.current, a) && !CursorIn(a.current, b) &&
                                     !CursorIn(b.current, a) && !CursorIn(b.current, b))
  {
  }

  // From any two histories the merge rebuilds the child lists as the exact
  // inverse of the parent links, each in dict order; nothing absent is named.
  // Everything else of a message comes from the incoming copy if it has one.
  lemma MergeRelinks(a: History, b: History)
    requires WellFormed(a) && WellFormed(b)
    ensures var h := Merge(a, b);
            && WellFormed(h) && CursorPresent(h)
            && h.msgs.Keys == a.msgs.Keys + b.msgs.Keys
            && (forall p, c :: p in h.msgs ==>
                  (c in h.msgs[p].children <==> c in h.msgs && h.msgs[c].parent == Some(p)))
            && (forall p :: p in h.msgs ==>
                  h.msgs[p].children == Restrict(h.order, Elements(h.msgs[p].children)))
            && Inverse(h.msgs) && ClaimedOnce(h.msgs)
            && (forall x :: x in h.msgs ==>
                  h.msgs[x] == (if x in b.msgs then b.msgs[x] else a.msgs[x]).(children := h.msgs[x].children))
  {
    MergedOrdered(a, b);
    RelinkedLists(MergedOrder(a, b), a.msgs + b.msgs);
  }

  lemma RelinkedLists(order: seq<Id>, m: Messages)
    requires Ordered(order, m)
    ensures forall p :: p in m ==>
              var kids := Relinked(order, m)[p].children;
              NoDup(kids) && kids == Restrict(order, Elements(kids)) && Elements(kids) == ChildrenOf(m, Some(p))
  {
    forall p | p in m
      ensures var kids := Relinked(order, m)[p].children;
              NoDup(kids) && kids == Restrict(order, Elements(kids)) && Elements(kids) == ChildrenOf(m, Some(p))
    {
      var kids := Relinked(order, m)[p].children;
      RestrictNoDup(order, ChildrenOf(m, Some(p)));
      RestrictAgree(order, ChildrenOf(m, Some(p)), Elements(kids));
    }
  }

  // Incoming messages keep their rank; messages that only the stored history
  // has go above all of them.
  ghost function StackedRank(a: Messages, b: Messages, ra: map<Id, nat>, rb: map<Id, nat>, lift: nat): map<Id, nat>
    requires forall x :: x in a ==> x in ra
    requires forall x :: x in b ==> x in rb
  {
    map x | x in a.Keys + b.Keys :: if x in b then rb[x] else ra[x] + lift
  }

  lemma UnionRanked(a: Messages, b: Messages, ra: map<Id, nat>, rb: map<Id, nat>) returns (rank: map<Id, nat>)
    requires Ranked(a, ra) && Ranked(b, rb)
    ensures Ranked(a + b, rank)
  {
    var lift := RankBound(b.Keys, rb);
    rank := StackedRank(a, b, ra, rb, lift);
  }

  // Two parent-closed forests merge into one, however their ids overlap.
  lemma MergeKeepsForest(a: History, b: History)
    requires WellFormed(a) && WellFormed(b)
    requires "" !in a.msgs && "" !in b.msgs
    requires ParentClosedAcyclic(a.msgs) && ParentClosedAcyclic(b.msgs)
    ensures Forest(Merge(a, b))
  {
    var ra :| Ranked(a.msgs, ra);
    var rb :| Ranked(b.msgs, rb);
    var rank := UnionRanked(a.msgs, b.msgs, ra, rb);
    RelinkKeepsRank(MergedOrder(a, b), a.msgs + b.msgs, rank);
    MergeRelinks(a, b);
  }

  lemma RelinkKeepsRank(order: seq<Id>, m: Messages, rank: map<Id, nat>)
    requires Ranked(m, rank)
    ensures Ranked(Relinked(order, m), rank)
  {
  }

  // ---- algebra --------------------------------------------------------------

  // `n` has the messages of `m` up to their child lists.
  ghost predicate SameButLinks(m: Messages, n: Messages) {
    m.Keys == n.Keys && forall x :: x in m ==> m[x] == n[x].(children := m[x].children)
  }

  // Relinking looks at parents only.
  lemma RelinkAgree(order: seq<Id>, m: Messages, n: Messages)
    requires SameButLinks(m, n)
    ensures Relinked(order, m) == Relinked(order, n)
  {
    forall x | x in m ensures ChildrenOf(m, Some(x)) == ChildrenOf(n, Some(x)) {}
  }

  lemma RelinkedSame(order: seq<Id>, m: Messages)
    ensures SameButLinks(Relinked(order, m), m)
  {
  }

  lemma OverlaySame(a: Messages, b: Messages, a': Messages, b': Messages)
    requires SameButLinks(a, a') && SameButLinks(b, b')
    ensures SameButLinks(a + b, a' + b')
  {
  }

  lemma RelinkOverlay(order: seq<Id>, inner: seq<Id>, a: Messages, b: Messages)
    ensures Relinked(order, Relinked(inner, a) + b) == Relinked(order, a + b)
  {
    RelinkedSame(inner, a);
    OverlaySame(Relinked(inner, a), b, a, b);
    RelinkAgree(order, Relinked(inner, a) + b, a + b);
  }

  lemma RelinkUnderlay(order: seq<Id>, inner: seq<Id>, a: Messages, b: Messages)
    ensures Relinked(order, a + Relinked(inner, b)) == Relinked(order, a + b)
  {
    RelinkedSame(inner, b);
    OverlaySame(a, Relinked(inner, b), a, b);
    RelinkAgree(order, a + Relinked(inner, b), a + b);
  }

  lemma OverlayAssociative(a: Messages, b: Messages, c: Messages)
    ensures a + b + c == a + (b + c)
  {
  }

  // Merging the same copy a second time changes nothing.
  lemma MergeAbsorbs(a: History, b: History)
    requires WellFormed(a) && WellFormed(b)
    ensures Merge(Merge(a, b), b) == Merge(a, b)
  {
    var order, both := MergedOrder(a, b), a.msgs + b.msgs;
    OrderAbsorbs(order, b.order, Merge(a, b).msgs.Keys, b.msgs.Keys);
    RelinkOverlay(order, order, both, b.msgs);
    assert both + b.msgs == both;
  }

  // A merged history is a fixed point of merging with itself.
  lemma MergeIdempotent(a: History, b: History)
    requires WellFormed(a) && WellFormed(b)
    ensures Merge(Merge(a, b), Merge(a, b)) == Merge(a, b)
  {
    var order, both := MergedOrder(a, b), a.msgs + b.msgs;
    var h := Merge(a, b);
    OrderAbsorbs(order, order, h.msgs.Keys, h.msgs.Keys);
    assert h.msgs + h.msgs == h.msgs;
    RelinkedSame(order, both);
    RelinkAgree(order, h.msgs, both);
  }

  lemma OrderAbsorbs(a: seq<Id>, b: seq<Id>, A: set<Id>, B: set<Id>)
    requires B <= A
    ensures a + Restrict(b, B - A) == a
  {
  }

  lemma TailAssociative(b: seq<Id>, c: seq<Id>, A: set<Id>, B: set<Id>, C: set<Id>)
    requires (forall x :: x in b ==> x in B) && (forall x :: x in c ==> x in C)
    ensures Restrict(b + Restrict(c, C - B), B + C - A) == Restrict(b, B - A) + Restrict(c, C - (A + B))
  {
    var keep := B + C - A;
    RestrictAppend(b, Restrict(c, C - B), keep);
    RestrictAgree(b, keep, B - A);
    RestrictTwice(c, C - B, keep);
    RestrictAgree(c, (C - B) * keep, C - (A + B));
  }

  lemma OrderAssociative(a: seq<Id>, b: seq<Id>, c: seq<Id>, A: set<Id>, B: set<Id>, C: set<Id>)
    requires (forall x :: x in b ==> x in B) && (forall x :: x in c ==> x in C)
    ensures a + Restrict(b, B - A) + Restrict(c, C - (A + B)) == a + Restrict(b + Restrict(c, C - B), B + C - A)
  {
    TailAssociative(b, c, A, B, C);
  }

  lemma MergedOrderAssociative(a: History, b: History, c: History)
    requires WellFormed(a) && WellFormed(b) && WellFormed(c)
    ensures MergedOrder(Merge(a, b), c) == MergedOrder(a, Merge(b, c))
  {
    var A, B, C := a.msgs.Keys, b.msgs.Keys, c.msgs.Keys;
    OrderAssociative(a.order, b.order, c.order, A, B, C);
    MergedKeys(a, b);
    MergedKeys(b, c);
  }

  lemma MergedKeys(a: History, b: History)
    ensures Merge(a, b).msgs.Keys == a.msgs.Keys + b.msgs.Keys
  {
  }

  lemma RelinkAssociative(order: seq<Id>, ab: seq<Id>, bc: seq<Id>, a: Messages, b: Messages, c: Messages)
    ensures Relinked(order, Relinked(ab, a + b) + c) == Relinked(order, a + Relinked(bc, b + c))
  {
    RelinkOverlay(order, ab, a + b, c);
    RelinkUnderlay(order, bc, a, b + c);
    OverlayAssociative(a, b, c);
  }

  // Associative on the message map, order of the dict included.
  lemma MergeAssociative(a: History, b: History, c: History)
    requires WellFormed(a) && WellFormed(b) && WellFormed(c)
    ensures Merge(Merge(a, b), c).order == Merge(a, Merge(b, c)).order
    ensures Merge(Merge(a, b), c).msgs == Merge(a, Merge(b, c)).msgs
  {
    MergedOrderAssociative(a, b, c);
    RelinkAssociative(MergedOrder(Merge(a, b), c), MergedOrder(a, b), MergedOrder(b, c), a.msgs, b.msgs, c.msgs);
  }

  predicate CursorIn(cursor: Option<Id>, h: History) {
    cursor.Some? && cursor.value in h.msgs
  }

  // When the cursor does not depend on the grouping: read off the three copies,
  // the first cursor that is present where it counts must win either way.
  predicate CursorsAgree(a: History, b: History, c: History) {
    if CursorIn(c.current, b) || CursorIn(c.current, c) then true
    else if CursorIn(c.current, a) then
      !CursorIn(b.current, b) && !CursorIn(b.current, c) && a.current == c.current
    else if CursorIn(b.current, b) then true
    else if CursorIn(b.current, a) then CursorIn(b.current, c) || a.current == b.current
    else if CursorIn(b.current, c) then false
    else CursorIn(a.current, a) || CursorIn(a.current, b) || !CursorIn(a.current, c)
  }

  // Merging is associative, cursor included, if and only if the cursors agree.
  lemma MergeAssociativeIff(a: History, b: History, c: History)
    requires WellFormed(a) && WellFormed(b) && WellFormed(c)
    ensures Merge(Merge(a, b), c) == Merge(a, Merge(b, c)) <==> CursorsAgree(a, b, c)
  {
    MergeAssociative(a, b, c);
    MergedKeys(a, b);
    MergedKeys(b, c);
    MergedKeys(Merge(a, b), c);
    CursorAssociativeIff(a, b, c, Merge(a, b).msgs, Merge(b, c).msgs, Merge(Merge(a, b), c).msgs);
  }

  lemma CursorAssociativeIff(a: History, b: History, c: History, ab: Messages, bc: Messages, abc: Messages)
    requires ab.Keys == a.msgs.Keys + b.msgs.Keys && bc.Keys == b.msgs.Keys + c.msgs.Keys
    requires abc.Keys == a.msgs.Keys + b.msgs.Keys + c.msgs.Keys
    ensures CursorsAgree(a, b, c) <==>
            MergedCursor(abc, MergedCursor(ab, a.current, b.current), c.current) ==
            MergedCursor(abc, a.current, MergedCursor(bc, b.current, c.current))
  {
  }

  predicate OwnCursor(h: History) {
    h.current.Some? ==> h.current.value in h.msgs
  }

  // Copies whose cursor is among their own messages merge associatively.
  lemma MergeAssociativeWhole(a: History, b: History, c: History)
    requires WellFormed(a) && WellFormed(b) && WellFormed(c)
    requires OwnCursor(a) && OwnCursor(b) && OwnCursor(c)
    ensures Merge(Merge(a, b), c) == Merge(a, Merge(b, c))
  {
    MergeAssociativeIff(a, b, c);
  }

  // A copy that points at a message only the first one has can change the cursor.
  lemma CursorNotAssociative(x: Id, y: Id)
    requires x != y
    ensures var a := History([x], map[x := Message(x, None, [], User, 1, NoRole, false, "")], None);
            var b := History([y], map[y := Message(y, None, [], User, 1, NoRole, false, "")], Some(y));
            var c := History([], map[], Some(x));
            WellFormed(a) && WellFormed(b) && WellFormed(c) && !CursorsAgree(a, b, c) &&
            Merge(Merge(a, b), c).current == Some(x) && Merge(a, Merge(b, c)).current == Some(y)
  {
  }
}
