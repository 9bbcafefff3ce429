// Claiming due automations (backend/open_webui/models/automations.py): rows are
// selected with FOR UPDATE SKIP LOCKED and rescheduled in the same transaction.
module Claims {
  import opened Basics

  type Id = string

  datatype Automation = Automation(active: bool, nextRun: Option<int>, lastRun: Option<int>)

  type Table = map<Id, Automation>

  predicate Due(a: Automation, now: int) {
    a.active && a.nextRun.Some? && a.nextRun.value <= now
  }

  function DueSet(t: Table, now: int): set<Id> {
    set x | x in t && Due(t[x], now)
  }

  // The scheduled time of a row; rows without one are never due.
  function When(t: Table, x: Id): int {
    if x in t && t[x].nextRun.Some? then t[x].nextRun.value else 0
  }

  // What the query may return: due unlocked rows, the earliest first, at most
  // `limit` of them and fewer only if there are no more.
  ghost predicate Selects(t: Table, locked: set<Id>, now: int, limit: nat, picked: seq<Id>) {
    && NoDup(picked) && |picked| <= limit
    && (forall x :: x in picked ==> x in DueSet(t, now) - locked)
    && (forall i, j :: 0 <= i < j < |picked| ==> When(t, picked[i]) <= When(t, picked[j]))
    && (forall x, y :: x in picked && y in DueSet(t, now) - locked && y !in picked ==>
          When(t, x) <= When(t, y))
    && (|picked| < limit ==> forall y :: y in DueSet(t, now) - locked ==> y in picked)
  }

  function Rescheduled(a: Automation, now: int, next: Option<int>): Automation {
    a.(lastRun := Some(now), nextRun := next)
  }

  // The table after the rows of `picked` were claimed at `now`.
  function Claimed(t: Table, picked: seq<Id>, now: int, next: Id -> Option<int>): Table {
    map x | x in t :: if x in picked then Rescheduled(t[x], now, next(x)) else t[x]
  }

  // next_run_ns yields no further run or one after the time of the claim.
  ghost predicate Advances(picked: seq<Id>, now: int, next: Id -> Option<int>) {
    forall x :: x in picked && next(x).Some? ==> next(x).value > now
  }

  class AutomationTable {
    var rows: Table

    constructor (rows: Table)
      ensures this.rows == rows
    {
      this.rows := rows;
    }

    // `picked` is the query's answer.
    method ClaimDue(now: int, limit: nat, picked: seq<Id>, next: Id -> Option<int>)
      requires Selects(rows, {}, now, limit, picked)
      modifies this
      ensures rows == Claimed(old(rows), picked, now, next)
    {
      var i := 0;
      while i < |picked|
        invariant 0 <= i <= |picked|
        invariant rows == Claimed(old(rows), picked[..i], now, next)
      {
        assert picked[..i + 1] == picked[..i] + [picked[i]];
        assert picked[i] in picked && picked[i] !in picked[..i];
        rows := rows[picked[i] := Rescheduled(rows[picked[i]], now, next(picked[i]))];
        i := i + 1;
      }
      assert picked[..i] == picked;
    }

    method Toggle(id: Id, next: Option<int>) returns (found: bool)
      modifies this
      ensures found <==> id in old(rows)
      ensures rows == if found then Toggled(old(rows), id, next) else old(rows)
    {
      if id !in rows {
        return false;
      }
      rows := rows[id := rows[id].(active := !rows[id].active)];
      rows := rows[id := rows[id].(nextRun := if rows[id].active then next else None)];
      return true;
    }

    method UpdateById(id: Id, active: Option<bool>, next: int) returns (found: bool)
      modifies this
      ensures found <==> id in old(rows)
      ensures rows == if found then Updated(old(rows), id, active, next) else old(rows)
    {
      if id !in rows {
        return false;
      }
      if active.Some? {
        rows := rows[id := rows[id].(active := active.value)];
      }
      rows := rows[id := rows[id].(nextRun := Some(next))];
      return true;
    }
  }

  function ToggledRow(a: Automation, next: Option<int>): Automation {
    a.(active := !a.active, nextRun := if a.active then None else next)
  }

  function UpdatedRow(a: Automation, active: Option<bool>, next: int): Automation {
    a.(active := if active.Some? then active.value else a.active, nextRun := Some(next))
  }

  function Toggled(t: Table, id: Id, next: Option<int>): (r: Table)
    requires id in t
    ensures r.Keys == t.Keys && r[id].active != t[id].active
    ensures !r[id].active ==> forall now :: !Due(r[id], now) && r[id].nextRun.None?
    ensures r[id].active ==> r[id].nextRun == next
    ensures r[id].lastRun == t[id].lastRun && forall x :: x in t && x != id ==> r[x] == t[x]
  {
    t[id := ToggledRow(t[id], next)]
  }

  function Updated(t: Table, id: Id, active: Option<bool>, next: int): (r: Table)
    requires id in t
    ensures r.Keys == t.Keys && r[id].nextRun == Some(next) && r[id].lastRun == t[id].lastRun
    ensures if active.Some? then r[id].active == active.value else r[id].active == t[id].active
    ensures forall x :: x in t && x != id ==> r[x] == t[x]
  {
    t[id := UpdatedRow(t[id], active, next)]
  }

  // ---- concurrent claims --------------------------------------------------------

  // A worker that has selected and locked `picked` and not committed yet.
  datatype Claim = Claim(now: int, picked: seq<Id>)

  // `log` lists the committed claims: automation and the time it was due.
  datatype System = System(table: Table, open: map<nat, Claim>, log: seq<(Id, int)>)

  ghost function Locked(s: System): set<Id> {
    set w, x | w in s.open && x in s.open[w].picked :: x
  }

  function Entries(t: Table, picked: seq<Id>): (r: seq<(Id, int)>)
    requires forall x :: x in picked ==> x in t && t[x].nextRun.Some?
    ensures |r| == |picked| && forall i :: 0 <= i < |r| ==> r[i] == (picked[i], t[picked[i]].nextRun.value)
  {
    seq(|picked|, i requires 0 <= i < |picked| => (assert picked[i] in picked; (picked[i], t[picked[i]].nextRun.value)))
  }

  datatype Event =
    | Begin(worker: nat, now: int, limit: nat, picked: seq<Id>)
    | Commit(worker: nat, reschedule: Id -> Option<int>)
    | Rollback(worker: nat)
    | Toggle(id: Id, resume: Option<int>)
    | Update(id: Id, active: Option<bool>, time: int)
    | Insert(id: Id, row: Automation)
    | Drop(id: Id)

  // Some committed claim of `id` was for `time` or for a later time.
  ghost predicate Reached(log: seq<(Id, int)>, id: Id, time: int) {
    exists e :: e in log && e.0 == id && e.1 >= time
  }

  // The row will become due at a time its claims have already reached.
  ghost predicate Stale(log: seq<(Id, int)>, id: Id, a: Automation) {
    a.active && a.nextRun.Some? && Reached(log, id, a.nextRun.value)
  }

  // Edits wait for row locks; an insertion uses a fresh id.
  ghost predicate Enabled(s: System, e: Event) {
    match e
    case Begin(w, now, limit, picked) => w !in s.open && Selects(s.table, Locked(s), now, limit, picked)
    case Commit(w, next) =>
      w in s.open && Advances(s.open[w].picked, s.open[w].now, next) &&
      forall x :: x in s.open[w].picked ==> x in s.table && s.table[x].nextRun.Some?
    case Rollback(w) => w in s.open
    case Toggle(id, _) => id in s.table && id !in Locked(s)
    case Update(id, _, _) => id in s.table && id !in Locked(s)
    case Insert(id, _) => id !in s.table && forall c :: c in s.log ==> c.0 != id
    case Drop(id) => id !in Locked(s)
  }

  ghost function After(s: System, e: Event): System
    requires Enabled(s, e)
  {
    match e
    case Begin(w, now, _, picked) => s.(open := s.open[w := Claim(now, picked)])
    case Commit(w, next) =>
      var c := s.open[w];
      System(Claimed(s.table, c.picked, c.now, next), s.open - {w}, s.log + Entries(s.table, c.picked))
    case Rollback(w) => s.(open := s.open - {w})
    case Toggle(id, next) => s.(table := Toggled(s.table, id, next))
    case Update(id, active, next) => s.(table := Updated(s.table, id, active, next))
    case Insert(id, row) => s.(table := s.table[id := row])
    case Drop(id) => s.(table := s.table - {id})
  }

  // The row an edit leaves is not stale.
  ghost predicate FreshEdit(s: System, e: Event) {
    match e
    case Toggle(id, next) => id in s.table ==> !Stale(s.log, id, ToggledRow(s.table[id], next))
    case Update(id, active, next) => id in s.table ==> !Stale(s.log, id, UpdatedRow(s.table[id], active, next))
    case _ => true
  }

  // A row's claims were for times up to its last run.
  ghost predicate RanSince(log: seq<(Id, int)>, t: Table) {
    forall e :: e in log && e.0 in t ==> t[e.0].lastRun.Some? && e.1 <= t[e.0].lastRun.value
  }

  // Workers hold disjoint due rows, and no row is stale.
  ghost predicate Consistent(s: System) {
    && NoDup(s.log)
    && (forall w :: w in s.open ==> NoDup(s.open[w].picked))
    && (forall w, x :: w in s.open && x in s.open[w].picked ==> x in s.table && Due(s.table[x], s.open[w].now))
    && (forall v, w, x :: v in s.open && w in s.open && x in s.open[v].picked && x in s.open[w].picked ==> v == w)
    && (forall x :: x in s.table ==> !Stale(s.log, x, s.table[x]))
    && RanSince(s.log, s.table)
  }

  lemma CommitKeepsConsistent(s: System, w: nat, next: Id -> Option<int>)
    requires Consistent(s) && Enabled(s, Commit(w, next))
    ensures Consistent(After(s, Commit(w, next)))
  {
    var now, picked, entries := s.open[w].now, s.open[w].picked, Entries(s.table, s.open[w].picked);
    var after := After(s, Commit(w, next));
    forall e | e in entries
      ensures e.0 in picked && s.table[e.0].nextRun == Some(e.1) && e.1 <= now
    {
      var i :| 0 <= i < |entries| && entries[i] == e;
      assert picked[i] in picked;
    }
    assert NoDup(entries);
    forall e | e in s.log && e.0 in picked ensures e.1 < s.table[e.0].nextRun.value <= now {
      assert !Stale(s.log, e.0, s.table[e.0]);
    }
    NoDupAppend(s.log, entries);
    forall x | x in after.table ensures !Stale(after.log, x, after.table[x]) {
      if x !in picked {
        assert !Stale(s.log, x, s.table[x]);
      }
    }
  }

  lemma BeginKeepsConsistent(s: System, e: Event)
    requires Consistent(s) && e.Begin? && Enabled(s, e)
    ensures Consistent(After(s, e))
  {
    forall v, x | v in s.open && x in s.open[v].picked ensures x in Locked(s) {}
  }

  // A rolled back claim leaves no trace: its rows can be picked by anyone else.
  lemma RollbackReleases(s: System, w: nat, x: Id)
    requires Consistent(s) && w in s.open && x in s.open[w].picked
    ensures var after := After(s, Rollback(w));
            after.table == s.table && after.log == s.log && x !in Locked(after) &&
            forall now :: s.open[w].now <= now ==> x in DueSet(after.table, now) - Locked(after)
  {
  }

  // The system with another row for `id`.
  function WithRow(s: System, id: Id, row: Automation): System {
    s.(table := s.table[id := row])
  }

  lemma RowKeepsConsistent(s: System, id: Id, row: Automation)
    requires Consistent(s) && id in s.table && id !in Locked(s)
    requires row.lastRun == s.table[id].lastRun && !Stale(s.log, id, row)
    ensures Consistent(WithRow(s, id, row))
  {
    forall v | v in s.open ensures id !in s.open[v].picked {}
  }

  lemma InsertKeepsConsistent(s: System, id: Id, row: Automation)
    requires Consistent(s) && Enabled(s, Insert(id, row))
    ensures Consistent(After(s, Insert(id, row)))
  {
  }

  lemma EventKeepsConsistent(s: System, e: Event)
    requires Consistent(s) && Enabled(s, e) && FreshEdit(s, e)
    ensures Consistent(After(s, e))
  {
    match e
    case Begin(_, _, _, _) => BeginKeepsConsistent(s, e);
    case Commit(w, next) => CommitKeepsConsistent(s, w, next);
    case Rollback(_) =>
    case Toggle(id, next) => RowKeepsConsistent(s, id, ToggledRow(s.table[id], next));
    case Update(id, active, next) => RowKeepsConsistent(s, id, UpdatedRow(s.table[id], active, next));
    case Insert(id, row) => InsertKeepsConsistent(s, id, row);
    case Drop(id) => forall v | v in s.open ensures id !in s.open[v].picked {}
  }

  ghost predicate Reaches(s: System, events: seq<Event>, end: System)
    decreases |events|
  {
    if events == [] then s == end
    else Enabled(s, events[0]) && FreshEdit(s, events[0]) && Reaches(After(s, events[0]), events[1..], end)
  }

  lemma {:induction false} RunKeepsConsistent(s: System, events: seq<Event>, end: System)
    requires Consistent(s) && Reaches(s, events, end)
    ensures Consistent(end)
    decreases |events|
  {
    if events == [] {
    } else {
      EventKeepsConsistent(s, events[0]);
      RunKeepsConsistent(After(s, events[0]), events[1..], end);
    }
  }

  // No set of workers claims an automation twice for the same scheduled time.
  lemma NoDoubleClaim(table: Table, events: seq<Event>, end: System)
    requires Reaches(System(table, map[], []), events, end)
    ensures forall i, j :: 0 <= i < j < |end.log| ==> end.log[i] != end.log[j]
    ensures forall v, w :: v in end.open && w in end.open && v != w ==>
              Elements(end.open[v].picked) !! Elements(end.open[w].picked)
  {
    RunKeepsConsistent(System(table, map[], []), events, end);
  }

  // ---- which edits are safe ----------------------------------------------------

  // Some run from here claims an automation twice for the same time.
  ghost predicate CanRepeat(s: System) {
    exists events, end :: Reaches(s, events, end) && !NoDup(end.log)
  }

  lemma {:induction false} ReachesThen(s: System, first: seq<Event>, mid: System, second: seq<Event>, end: System)
    requires Reaches(s, first, mid) && Reaches(mid, second, end)
    ensures Reaches(s, first + second, end)
    decreases |first|
  {
    if first == [] {
      assert first + second == second;
    } else {
      ReachesThen(After(s, first[0]), first[1..], mid, second, end);
      assert (first + second)[1..] == first[1..] + second;
    }
  }

  lemma ReachesOne(s: System, e: Event)
    requires Enabled(s, e) && FreshEdit(s, e)
    ensures Reaches(s, [e], After(s, e))
  {
    assert Reaches(After(s, e), [], After(s, e));
  }

  // An active unlocked row can be claimed at the time it is scheduled for and
  // rescheduled to any later time.
  lemma ClaimAtItsTime(s: System, id: Id, next: Option<int>) returns (events: seq<Event>, end: System)
    requires id in s.table && id !in Locked(s) && s.table[id].active && s.table[id].nextRun.Some?
    requires next.Some? ==> next.value > s.table[id].nextRun.value
    ensures Reaches(s, events, end) && end.open == s.open
    ensures s.log <= end.log && (id, s.table[id].nextRun.value) in end.log[|s.log|..]
    ensures id in end.table && end.table[id].active && end.table[id].nextRun == next
  {
    var now := s.table[id].nextRun.value;
    var limit := |DueSet(s.table, now)| + 1;
    var w := UnusedNumber(s.open.Keys);
    var picked := SelectionExists(s.table, Locked(s), now, limit);
    PickedAll(s, now, limit, picked);
    assert id in DueSet(s.table, now) - Locked(s);
    var begin, commit := Begin(w, now, limit, picked), Commit(w, x => if x == id then next else None);
    end := BeginThenCommit(s, begin, commit, id);
    ReachesOne(s, begin);
    ReachesOne(After(s, begin), commit);
    ReachesThen(s, [begin], After(s, begin), [commit], end);
    events := [begin] + [commit];
  }

  // A claim and its commit, nothing in between.
  lemma BeginThenCommit(s: System, begin: Event, commit: Event, id: Id) returns (end: System)
    requires begin.Begin? && commit.Commit? && commit.worker == begin.worker && Enabled(s, begin)
    requires id in begin.picked && Advances(begin.picked, begin.now, commit.reschedule)
    ensures Enabled(After(s, begin), commit) && end == After(After(s, begin), commit) && end.open == s.open
    ensures s.log <= end.log && (id, When(s.table, id)) in end.log[|s.log|..]
    ensures id in end.table && end.table[id].active && end.table[id].nextRun == commit.reschedule(id)
  {
    end := After(After(s, begin), commit);
    var entries := Entries(s.table, begin.picked);
    var i :| 0 <= i < |entries| && begin.picked[i] == id;
    assert entries[i] == (id, When(s.table, id));
    assert end.log == s.log + entries;
  }

  // A limit above the number of due rows leaves none out.
  lemma PickedAll(s: System, now: int, limit: nat, picked: seq<Id>)
    requires Selects(s.table, Locked(s), now, limit, picked) && limit > |DueSet(s.table, now)|
    ensures forall x :: x in DueSet(s.table, now) - Locked(s) ==> x in picked
  {
    ElementsSize(picked);
    SubsetSize(Elements(picked), DueSet(s.table, now));
  }

  lemma SubsetSize(a: set<Id>, b: set<Id>)
    requires a <= b
    ensures |a| <= |b|
  {
    assert b == a + (b - a);
  }

  // A stale row repeats a pair: at once, or after one claim that reschedules it
  // to a time claimed before.
  lemma StaleRepeats(s: System, id: Id)
    requires id in s.table && id !in Locked(s) && Stale(s.log, id, s.table[id])
    ensures CanRepeat(s)
  {
    var time := s.table[id].nextRun.value;
    var e :| e in s.log && e.0 == id && e.1 >= time;
    if e.1 == time {
      var events, end := ClaimAtItsTime(s, id, None);
      Repeats(s.log, end.log, e);
    } else {
      var first, mid := ClaimAtItsTime(s, id, Some(e.1));
      var second, end := ClaimAtItsTime(mid, id, None);
      ReachesThen(s, first, mid, second, end);
      assert e in mid.log;
      Repeats(mid.log, end.log, e);
    }
  }

  lemma Repeats(log: seq<(Id, int)>, longer: seq<(Id, int)>, e: (Id, int))
    requires log <= longer && e in log && e in longer[|log|..]
    ensures !NoDup(longer)
  {
    var i :| 0 <= i < |log| && log[i] == e;
    var j :| 0 <= j < |longer[|log|..]| && longer[|log|..][j] == e;
    assert longer[i] == longer[|log| + j];
  }

  // Replacing an unlocked row opens the way to a double claim if and only if it
  // leaves the row stale.
  lemma RepeatsIff(s: System, id: Id, row: Automation)
    requires Consistent(s) && id in s.table && id !in Locked(s) && row.lastRun == s.table[id].lastRun
    ensures CanRepeat(WithRow(s, id, row)) <==> Stale(s.log, id, row)
  {
    if Stale(s.log, id, row) {
      StaleRepeats(WithRow(s, id, row), id);
    } else {
      RowKeepsConsistent(s, id, row);
      forall events, end | Reaches(WithRow(s, id, row), events, end) ensures NoDup(end.log) {
        RunKeepsConsistent(WithRow(s, id, row), events, end);
      }
    }
  }

  // After an update some run claims a pair twice if and only if the update leaves
  // the row active with a time that a committed claim of the row has reached.
  lemma UpdateRepeatsIff(s: System, id: Id, active: Option<bool>, time: int)
    requires Consistent(s) && Enabled(s, Update(id, active, time))
    ensures CanRepeat(After(s, Update(id, active, time))) <==>
            (active == Some(true) || (active.None? && s.table[id].active)) &&
            exists e :: e in s.log && e.0 == id && e.1 >= time
  {
    RepeatsIff(s, id, UpdatedRow(s.table[id], active, time));
  }

  // The same of a toggle: it must activate the row.
  lemma ToggleRepeatsIff(s: System, id: Id, next: Option<int>)
    requires Consistent(s) && Enabled(s, Toggle(id, next))
    ensures CanRepeat(After(s, Toggle(id, next))) <==>
            !s.table[id].active && next.Some? && exists e :: e in s.log && e.0 == id && e.1 >= next.value
  {
    RepeatsIff(s, id, ToggledRow(s.table[id], next));
  }

  // What can be checked on the row before the edit, without the past claims: it
  // ends inactive or without a time, has not run, is written a time after its last
  // run, or was active and is not moved to an earlier time.
  predicate RowAllows(a: Automation, edited: Automation) {
    || !edited.active || edited.nextRun.None? || a.lastRun.None?
    || edited.nextRun.value > a.lastRun.value
    || (a.active && a.nextRun.Some? && edited.nextRun.value >= a.nextRun.value)
  }

  lemma RowCheckSuffices(s: System, id: Id, row: Automation)
    requires Consistent(s) && id in s.table && id !in Locked(s) && row.lastRun == s.table[id].lastRun
    requires RowAllows(s.table[id], row)
    ensures !Stale(s.log, id, row) && !CanRepeat(WithRow(s, id, row))
  {
    assert !Stale(s.log, id, s.table[id]);
    RepeatsIff(s, id, row);
  }

  // No weaker check on the row would do: any other edit repeats a pair after a
  // past the row does not show.
  lemma RowCheckNeeded(a: Automation, row: Automation, id: Id)
    returns (table: Table, events: seq<Event>, s: System)
    requires row.lastRun == a.lastRun && !RowAllows(a, row)
    ensures Reaches(System(table, map[], []), events, s)
    ensures s.table == map[id := a] && s.open == map[] && CanRepeat(WithRow(s, id, row))
  {
    var time, last := row.nextRun.value, a.lastRun.value;
    table := map[id := Automation(true, Some(time), None)];
    var s0 := System(table, map[], []);
    var begin, commit := Begin(0, last, 1, [id]), Commit(0, _ => None);
    assert DueSet(table, last) == {id};
    var s1 := After(s0, begin);
    var s2 := After(s1, commit);
    ReachesOne(s0, begin);
    ReachesOne(s1, commit);
    ReachesThen(s0, [begin], s1, [commit], s2);
    assert s2 == System(map[id := Automation(true, None, Some(last))], map[], [(id, time)]);
    events, s := RestoreRow(s2, id, a, time);
    ReachesThen(s0, [begin] + [commit], s2, events, s);
    events := [begin] + [commit] + events;
    assert (id, time) in s.log;
    StaleRepeats(WithRow(s, id, row), id);
  }

  // Fresh edits give the claimed row every shape that schedules it later.
  lemma RestoreRow(s: System, id: Id, a: Automation, time: int) returns (events: seq<Event>, end: System)
    requires a.lastRun.Some? && (a.active && a.nextRun.Some? ==> time < a.nextRun.value)
    requires s == System(map[id := Automation(true, None, a.lastRun)], map[], [(id, time)])
    ensures Reaches(s, events, end) && end == s.(table := map[id := a])
  {
    if a.nextRun.Some? {
      events := [Update(id, Some(a.active), a.nextRun.value)];
      ReachesOne(s, events[0]);
      end := After(s, events[0]);
    } else if !a.active {
      events := [Toggle(id, None)];
      ReachesOne(s, events[0]);
      end := After(s, events[0]);
    } else {
      events, end := [], s;
    }
  }

  // Every edit of the run passes the check on the row.
  ghost predicate RowChecked(s: System, e: Event) {
    match e
    case Toggle(id, next) => id in s.table ==> RowAllows(s.table[id], ToggledRow(s.table[id], next))
    case Update(id, active, next) => id in s.table ==> RowAllows(s.table[id], UpdatedRow(s.table[id], active, next))
    case _ => true
  }

  ghost predicate CheckedRun(s: System, events: seq<Event>, end: System)
    decreases |events|
  {
    if events == [] then s == end
    else Enabled(s, events[0]) && RowChecked(s, events[0]) && CheckedRun(After(s, events[0]), events[1..], end)
  }

  lemma {:induction false} CheckedRunReaches(s: System, events: seq<Event>, end: System)
    requires Consistent(s) && CheckedRun(s, events, end)
    ensures Reaches(s, events, end)
    decreases |events|
  {
    if events == [] {
    } else {
      var e := events[0];
      match e {
        case Toggle(id, next) => RowCheckSuffices(s, id, ToggledRow(s.table[id], next));
        case Update(id, active, next) => RowCheckSuffices(s, id, UpdatedRow(s.table[id], active, next));
        case _ =>
      }
      EventKeepsConsistent(s, e);
      CheckedRunReaches(After(s, e), events[1..], end);
    }
  }

  // With that check on every edit no run claims an automation twice for the same time.
  lemma CheckedRunNeverRepeats(table: Table, events: seq<Event>, end: System)
    requires CheckedRun(System(table, map[], []), events, end)
    ensures NoDup(end.log)
  {
    CheckedRunReaches(System(table, map[], []), events, end);
    RunKeepsConsistent(System(table, map[], []), events, end);
  }

  // ---- throughput ------------------------------------------------------------------

  lemma {:induction false} ElementsSize(s: seq<Id>)
    requires NoDup(s)
    ensures |Elements(s)| == |s|
  {
    if s == [] {
    } else {
      var n := |s| - 1;
      ElementsSize(s[..n]);
      assert Elements(s) == Elements(s[..n]) + {s[n]};
    }
  }

  // One claim removes the rows it picked from the due ones, and adds none.
  lemma ClaimShrinksDue(t: Table, now: int, limit: nat, picked: seq<Id>, next: Id -> Option<int>)
    requires Selects(t, {}, now, limit, picked) && Advances(picked, now, next)
    ensures var after := Claimed(t, picked, now, next);
            && DueSet(after, now) == DueSet(t, now) - Elements(picked)
            && (forall x :: x in picked ==>
                  after[x].lastRun == Some(now) && after[x].nextRun == next(x) && after[x].active == t[x].active)
            && after.Keys == t.Keys && (forall x :: x in t && x !in picked ==> after[x] == t[x])
            && |DueSet(after, now)| == if |DueSet(t, now)| >= limit then |DueSet(t, now)| - limit else 0
  {
    var after := Claimed(t, picked, now, next);
    ElementsSize(picked);
    assert Elements(picked) <= DueSet(t, now);
    assert DueSet(t, now) == DueSet(after, now) + Elements(picked);
    if |picked| < limit {
      assert DueSet(t, now) == Elements(picked);
    }
  }

  // `batches` are the answers of successive claims at a fixed time.
  ghost predicate Drains(t: Table, now: int, limit: nat, batches: seq<seq<Id>>, next: Id -> Option<int>, end: Table)
    decreases |batches|
  {
    if batches == [] then t == end
    else
      Selects(t, {}, now, limit, batches[0]) && Advances(batches[0], now, next) &&
      Drains(Claimed(t, batches[0], now, next), now, limit, batches[1..], next, end)
  }

  function Remaining(n: nat, k: nat, limit: nat): nat {
    if n >= k * limit then n - k * limit else 0
  }

  lemma OneBatchLess(n: nat, k: nat, limit: nat)
    requires k > 0
    ensures Remaining(n, k, limit) == Remaining(if n >= limit then n - limit else 0, k - 1, limit)
  {
    assert k * limit == (k - 1) * limit + limit;
    TimesMonotone(0, k - 1, limit);
  }

  // After k claims n due rows are down to n - k * limit: they are gone after
  // ceil(n / limit) claims and not before.
  lemma {:induction false} DrainCount(
      t: Table, now: int, limit: nat, batches: seq<seq<Id>>, next: Id -> Option<int>, end: Table)
    requires limit > 0 && Drains(t, now, limit, batches, next, end)
    ensures |DueSet(end, now)| == Remaining(|DueSet(t, now)|, |batches|, limit)
    decreases |batches|
  {
    if batches == [] {
    } else {
      ClaimShrinksDue(t, now, limit, batches[0], next);
      DrainCount(Claimed(t, batches[0], now, next), now, limit, batches[1..], next, end);
      OneBatchLess(|DueSet(t, now)|, |batches|, limit);
    }
  }

  lemma DrainedAfterCeiling(
      t: Table, now: int, limit: nat, batches: seq<seq<Id>>, next: Id -> Option<int>, end: Table)
    requires limit > 0 && Drains(t, now, limit, batches, next, end)
    ensures DueSet(end, now) == {} <==> |batches| >= (|DueSet(t, now)| + limit - 1) / limit
  {
    var n, k := |DueSet(t, now)|, |batches|;
    DrainCount(t, now, limit, batches, next, end);
    CeilingIff(n, k, limit);
  }

  lemma CeilingIff(n: nat, k: nat, limit: nat)
    requires limit > 0
    ensures n <= k * limit <==> k >= (n + limit - 1) / limit
  {
    var c := (n + limit - 1) / limit;
    assert n + limit - 1 == c * limit + (n + limit - 1) % limit;
    if k >= c {
      TimesMonotone(c, k, limit);
    } else {
      TimesMonotone(k + 1, c, limit);
      assert (k + 1) * limit == k * limit + limit;
    }
  }

  lemma TimesMonotone(a: int, b: int, factor: nat)
    requires a <= b
    ensures a * factor <= b * factor
  {
  }

  // First due, first served: no row is claimed twice, and none before a row
  // that was due earlier.
  lemma {:induction false} DrainInOrder(
      t: Table, now: int, limit: nat, batches: seq<seq<Id>>, next: Id -> Option<int>, end: Table)
    requires Drains(t, now, limit, batches, next, end)
    ensures forall j :: 0 <= j < |batches| ==> forall y :: y in batches[j] ==> y in DueSet(t, now)
    ensures forall i, j, x, y :: 0 <= i < j < |batches| && x in batches[i] && y in batches[j] ==>
              x != y && When(t, x) <= When(t, y)
    decreases |batches|
  {
    if batches == [] {
    } else {
      var after, rest := Claimed(t, batches[0], now, next), batches[1..];
      forall y | y in batches[0] ensures y in DueSet(t, now) {}
      ClaimShrinksDue(t, now, limit, batches[0], next);
      DrainInOrder(after, now, limit, rest, next, end);
      forall j, y | 0 < j < |batches| && y in batches[j]
        ensures y in DueSet(t, now) - Elements(batches[0]) && When(after, y) == When(t, y)
      {
        assert y in rest[j - 1];
      }
      forall i, j, x, y | 0 < i < j < |batches| && x in batches[i] && y in batches[j]
        ensures x != y && When(t, x) <= When(t, y)
      {
        assert x in rest[i - 1] && y in rest[j - 1];
      }
    }
  }

  // The query always has an answer.
  lemma {:induction false} SelectionExists(t: Table, locked: set<Id>, now: int, limit: nat) returns (picked: seq<Id>)
    ensures Selects(t, locked, now, limit, picked)
    decreases limit
  {
    picked := [];
    if limit == 0 {
    } else {
      var shorter := SelectionExists(t, locked, now, limit - 1);
      var rest := DueSet(t, now) - locked - Elements(shorter);
      picked := shorter;
      assert forall y :: y in DueSet(t, now) - locked && y !in shorter ==> y in rest;
      if rest != {} {
        var first := Earliest(t, rest);
        picked := shorter + [first];
      }
    }
  }

  lemma {:induction false} Earliest(t: Table, ids: set<Id>) returns (first: Id)
    requires ids != {}
    ensures first in ids && forall x :: x in ids ==> When(t, first) <= When(t, x)
  {
    var x :| x in ids;
    first := x;
    if ids == {x} {
    } else {
      var y := Earliest(t, ids - {x});
      first := if When(t, y) < When(t, x) then y else x;
    }
  }
}
