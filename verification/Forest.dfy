// The shape every history keeps: a parent-closed forest whose child lists are
// the inverse of the parent links.
module Forests {
  import opened Basics
  import opened HistoryModel

  // `rank` witnesses that every parent is present and that no chain of parents
  // comes back to its start.
  ghost predicate Ranked(m: Messages, rank: map<Id, nat>) {
    forall x :: x in m ==>
      x in rank &&
      (m[x].parent.Some? ==>
         m[x].parent.value in m && m[x].parent.value in rank && rank[m[x].parent.value] < rank[x])
  }

  ghost predicate ParentClosedAcyclic(m: Messages) {
    exists rank :: Ranked(m, rank)
  }

  // Restricted to present ids, the child lists are the inverse of `parentId`.
  ghost predicate Inverse(m: Messages) {
    forall p, c :: p in m && c in m ==> (c in m[p].children <==> m[c].parent == Some(p))
  }

  // A child list may name ids that are not present yet, but names each id once,
  // and no id is named by two messages.
  ghost predicate ClaimedOnce(m: Messages) {
    (forall p :: p in m ==> NoDup(m[p].children)) &&
    (forall p, q, c :: p in m && q in m && c in m[p].children && c in m[q].children ==> p == q)
  }

  ghost predicate ForestMap(m: Messages) {
    "" !in m && ParentClosedAcyclic(m) && Inverse(m) && ClaimedOnce(m)
  }

  ghost predicate CursorPresent(h: History) {
    h.current.Some? ==> h.current.value in h.msgs
  }

  ghost predicate Forest(h: History) {
    WellFormed(h) && ForestMap(h.msgs) && CursorPresent(h)
  }

  // ---- ancestors ----------------------------------------------------------

  // `x` is reached from `y` by `n` parent links.
  ghost predicate Up(m: Messages, x: Id, y: Id, n: nat)
    decreases n
  {
    if n == 0 then x == y
    else y in m && m[y].parent.Some? && Up(m, x, m[y].parent.value, n - 1)
  }

  ghost predicate Ancestor(m: Messages, x: Id, y: Id) {
    exists n: nat :: n > 0 && Up(m, x, y, n)
  }

  ghost predicate AncestorOrSelf(m: Messages, x: Id, y: Id) {
    exists n: nat :: Up(m, x, y, n)
  }

  lemma {:induction false} UpLowersRank(m: Messages, rank: map<Id, nat>, x: Id, y: Id, n: nat)
    requires Ranked(m, rank) && y in m && Up(m, x, y, n)
    ensures x in m && rank[x] + n <= rank[y]
    decreases n
  {
    if n == 0 {
    } else {
      UpLowersRank(m, rank, x, m[y].parent.value, n - 1);
    }
  }

  // On such a history no message is its own ancestor.
  lemma NoCycle(m: Messages, x: Id)
    requires ParentClosedAcyclic(m) && x in m
    ensures !Ancestor(m, x, x)
  {
    var rank :| Ranked(m, rank);
    forall n: nat | n > 0 && Up(m, x, x, n) ensures false {
      UpLowersRank(m, rank, x, x, n);
    }
  }

  // Every message hangs below a root.
  lemma {:induction false} HasRoot(m: Messages, rank: map<Id, nat>, y: Id) returns (root: Id)
    requires Ranked(m, rank) && y in m
    ensures root in m && m[root].parent.None? && AncestorOrSelf(m, root, y)
    decreases rank[y]
  {
    if m[y].parent.None? {
      root := y;
      assert Up(m, y, y, 0);
    } else {
      root := HasRoot(m, rank, m[y].parent.value);
      var n: nat :| Up(m, root, m[y].parent.value, n);
      assert Up(m, root, y, n + 1);
    }
  }

  lemma {:induction false} UpCompose(m: Messages, x: Id, y: Id, z: Id, a: nat, b: nat)
    requires Up(m, x, y, a) && Up(m, y, z, b)
    ensures Up(m, x, z, a + b)
    decreases b
  {
    if b == 0 {
    } else {
      UpCompose(m, x, y, m[z].parent.value, a, b - 1);
    }
  }

  // An upper bound of the ranks of a finite set of messages.
  lemma {:induction false} RankBound(ids: set<Id>, rank: map<Id, nat>) returns (bound: nat)
    requires forall x :: x in ids ==> x in rank
    ensures forall x :: x in ids ==> rank[x] < bound
  {
    bound := 0;
    if ids == {} {
    } else {
      var x :| x in ids;
      var b := RankBound(ids - {x}, rank);
      bound := if b > rank[x] then b else rank[x] + 1;
    }
  }
}
