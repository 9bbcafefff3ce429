// Calendar rules (backend/open_webui/models/calendar.py): RSVP status, the
// default calendar, and which events a poll reports.
module CalendarRules {
  import opened Basics

  // ---- attendees ------------------------------------------------------------------

  datatype Attendee = Attendee(user: string, status: string)

  const PENDING := "pending"

  // The dict of existing statuses: the last row of a user wins.
  function StatusOf(rows: seq<Attendee>, user: string): Option<string> {
    if rows == [] then None
    else if rows[|rows| - 1].user == user then Some(rows[|rows| - 1].status)
    else StatusOf(rows[..|rows| - 1], user)
  }

  function KeptStatus(rows: seq<Attendee>, user: string): string {
    var s := StatusOf(rows, user);
    if s.Some? then s.value else PENDING
  }

  function Replaced(rows: seq<Attendee>, users: seq<string>): (r: seq<Attendee>)
    ensures |r| == |users|
    ensures forall i :: 0 <= i < |r| ==> r[i] == Attendee(users[i], KeptStatus(rows, users[i]))
  {
    seq(|users|, i requires 0 <= i < |users| => Attendee(users[i], KeptStatus(rows, users[i])))
  }

  // update_rsvp changes the first row of the user.
  function Answered(rows: seq<Attendee>, user: string, status: string): seq<Attendee> {
    if rows == [] then []
    else if rows[0].user == user then [rows[0].(status := status)] + rows[1..]
    else [rows[0]] + Answered(rows[1..], user, status)
  }

  // The unique constraint of the table: one row per event and user.
  ghost predicate UniqueUsers(rows: seq<Attendee>) {
    forall i, j :: 0 <= i < j < |rows| ==> rows[i].user != rows[j].user
  }

  class EventAttendees {
    var rows: seq<Attendee>

    ghost predicate Valid()
      reads this
    {
      UniqueUsers(rows)
    }

    constructor ()
      ensures Valid() && rows == []
    {
      rows := [];
    }

    // A list that names a user twice violates the constraint and is rolled back.
    method SetAttendees(users: seq<string>) returns (ok: bool)
      requires Valid()
      modifies this
      ensures Valid()
      ensures ok <==> NoDup(users)
      ensures rows == if ok then Replaced(old(rows), users) else old(rows)
    {
      var existing: map<string, string> := map[];
      var i := 0;
      while i < |rows|
        invariant 0 <= i <= |rows| && rows == old(rows)
        invariant forall u :: (u in existing <==> StatusOf(rows[..i], u).Some?) &&
                              (u in existing ==> existing[u] == StatusOf(rows[..i], u).value)
      {
        assert rows[..i + 1][..i] == rows[..i];
        existing := existing[rows[i].user := rows[i].status];
        i := i + 1;
      }
      assert rows[..i] == rows;
      var models := [];
      i := 0;
      while i < |users|
        invariant 0 <= i <= |users| && rows == old(rows)
        invariant models == Replaced(rows, users[..i]) && NoDup(users[..i])
      {
        if users[i] in users[..i] {
          return false;
        }
        models := models + [Attendee(users[i], if users[i] in existing then existing[users[i]] else PENDING)];
        i := i + 1;
      }
      assert users[..i] == users;
      rows := models;
      return true;
    }

    method UpdateRsvp(user: string, status: string) returns (found: bool)
      requires Valid()
      modifies this
      ensures Valid()
      ensures rows == Answered(old(rows), user, status)
      ensures found <==> exists a :: a in old(rows) && a.user == user
    {
      var i := 0;
      while i < |rows|
        invariant 0 <= i <= |rows| && rows == old(rows)
        invariant forall j :: 0 <= j < i ==> rows[j].user != user
      {
        if rows[i].user == user {
          AnsweredAt(rows, user, status, i);
          rows := rows[i := rows[i].(status := status)];
          return true;
        }
        i := i + 1;
      }
      AnsweredAt(rows, user, status, i);
      return false;
    }
  }

  lemma {:induction false} AnsweredAt(rows: seq<Attendee>, user: string, status: string, i: nat)
    requires i <= |rows| && forall j :: 0 <= j < i ==> rows[j].user != user
    requires i < |rows| ==> rows[i].user == user
    ensures Answered(rows, user, status) == if i < |rows| then rows[i := rows[i].(status := status)] else rows
  {
    if rows == [] || rows[0].user == user {
    } else {
      AnsweredAt(rows[1..], user, status, i - 1);
    }
  }

  datatype Event = SetList(users: seq<string>) | Rsvp(user: string, status: string)

  ghost function Step(rows: seq<Attendee>, e: Event): seq<Attendee> {
    match e
    case SetList(users) => if NoDup(users) then Replaced(rows, users) else rows
    case Rsvp(user, status) => Answered(rows, user, status)
  }

  ghost function Run(events: seq<Event>): seq<Attendee> {
    if events == [] then [] else Step(Run(events[..|events| - 1]), events[|events| - 1])
  }

  ghost predicate Lists(rows: seq<Attendee>, user: string) {
    exists i :: 0 <= i < |rows| && rows[i].user == user
  }

  // The user's last answer since being listed, looking back no further than the
  // event that listed the user; 'pending' if there is none.
  ghost function LastAnswer(events: seq<Event>, user: string): string {
    if events == [] then PENDING
    else
      var before, last := events[..|events| - 1], events[|events| - 1];
      if !Lists(Run(before), user) then PENDING
      else if last.Rsvp? && last.user == user then last.status
      else LastAnswer(before, user)
  }

  lemma {:induction false} StatusIsARow(rows: seq<Attendee>, user: string)
    ensures StatusOf(rows, user).Some? <==> Lists(rows, user)
    ensures StatusOf(rows, user).Some? ==> Attendee(user, StatusOf(rows, user).value) in rows
  {
    if rows == [] {
    } else {
      var n := |rows| - 1;
      StatusIsARow(rows[..n], user);
      if rows[n].user == user {
        assert rows[n] == Attendee(user, StatusOf(rows, user).value);
      } else if Lists(rows, user) {
        var i :| 0 <= i < |rows| && rows[i].user == user;
        assert rows[..n][i].user == user;
      }
    }
  }

  // An answer changes the user's own row and no other.
  lemma {:induction false} AnsweredRows(rows: seq<Attendee>, user: string, status: string)
    requires UniqueUsers(rows)
    ensures |Answered(rows, user, status)| == |rows|
    ensures forall i :: 0 <= i < |rows| ==>
              Answered(rows, user, status)[i] ==
              if rows[i].user == user then rows[i].(status := status) else rows[i]
  {
    if rows == [] {
    } else {
      AnsweredRows(rows[1..], user, status);
    }
  }

  lemma {:induction false} RunUnique(events: seq<Event>)
    ensures UniqueUsers(Run(events))
  {
    if events == [] {
    } else {
      var before, last := events[..|events| - 1], events[|events| - 1];
      RunUnique(before);
      if last.Rsvp? {
        AnsweredRows(Run(before), last.user, last.status);
      }
    }
  }

  // In every run an attendee's status is the last answer the attendee gave since
  // being listed, or 'pending' if there is none.
  lemma {:induction false} StatusIsLastAnswer(events: seq<Event>, a: Attendee)
    requires a in Run(events)
    ensures a.status == LastAnswer(events, a.user)
  {
    if events == [] {
    } else {
      var before, last := events[..|events| - 1], events[|events| - 1];
      var rows := Run(before);
      RunUnique(before);
      var i :| 0 <= i < |Run(events)| && Run(events)[i] == a;
      match last
      case Rsvp(user, status) =>
        AnsweredRows(rows, user, status);
        assert rows[i].user == a.user;
        StatusIsLastAnswer(before, rows[i]);
      case SetList(users) =>
        if NoDup(users) {
          StatusIsARow(rows, a.user);
          if Lists(rows, a.user) {
            StatusIsLastAnswer(before, Attendee(a.user, StatusOf(rows, a.user).value));
          }
        } else {
          assert rows[i].user == a.user;
          StatusIsLastAnswer(before, a);
        }
    }
  }

  // ---- the default calendar ---------------------------------------------------------

  datatype Calendar = Calendar(owner: string, isDefault: bool)

  type Calendars = map<string, Calendar>

  function Defaults(cs: Calendars, user: string): set<string> {
    set c | c in cs && cs[c].owner == user && cs[c].isDefault
  }

  function Owned(cs: Calendars, user: string): set<string> {
    set c | c in cs && cs[c].owner == user
  }

  class CalendarTable {
    var cs: Calendars

    constructor ()
      ensures cs == map[] && AtMostOne()
    {
      cs := map[];
    }

    // No user has two default calendars.
    ghost predicate AtMostOne()
      reads this
    {
      forall c, d :: c in cs && d in cs && cs[c].isDefault && cs[d].isDefault && cs[c].owner == cs[d].owner ==> c == d
    }

    method GetOrCreateDefaults(user: string, freshId: string)
      requires AtMostOne() && freshId !in cs
      modifies this
      ensures AtMostOne()
      ensures forall u :: Defaults(cs, u) ==
                if u == user && Owned(old(cs), user) == {} then {freshId} else Defaults(old(cs), u)
      ensures cs == if Owned(old(cs), user) == {} then old(cs)[freshId := Calendar(user, true)] else old(cs)
    {
      if Owned(cs, user) == {} {
        assert forall c :: c in cs ==> cs[c].owner != user by {
          forall c | c in cs ensures cs[c].owner != user {
            assert cs[c].owner == user ==> c in Owned(cs, user);
          }
        }
        cs := cs[freshId := Calendar(user, true)];
      }
    }

    method InsertNewCalendar(user: string, freshId: string)
      requires AtMostOne() && freshId !in cs
      modifies this
      ensures AtMostOne()
      ensures forall u :: Defaults(cs, u) == Defaults(old(cs), u)
      ensures cs == old(cs)[freshId := Calendar(user, false)]
    {
      cs := cs[freshId := Calendar(user, false)];
    }

    // A calendar that is not the user's leaves everything as it was: the
    // clearing update is rolled back.
    method SetDefaultCalendar(user: string, id: string) returns (ok: bool)
      requires AtMostOne()
      modifies this
      ensures AtMostOne()
      ensures ok <==> id in Owned(old(cs), user)
      ensures forall u :: Defaults(cs, u) == if ok && u == user then {id} else Defaults(old(cs), u)
      ensures cs.Keys == old(cs).Keys && forall c :: c in cs ==> cs[c].owner == old(cs)[c].owner
      ensures !ok ==> cs == old(cs)
    {
      var cleared := map c | c in cs :: if cs[c].owner == user then cs[c].(isDefault := false) else cs[c];
      if !(id in cleared && cleared[id].owner == user) {
        return false;
      }
      cs := cleared[id := cleared[id].(isDefault := true)];
      return true;
    }

    method DeleteCalendarById(id: string) returns (ok: bool)
      requires AtMostOne()
      modifies this
      ensures AtMostOne()
      ensures ok <==> id in old(cs) && !old(cs)[id].isDefault
      ensures cs == if ok then old(cs) - {id} else old(cs)
      ensures forall u :: Defaults(cs, u) == Defaults(old(cs), u)
    {
      if id !in cs || cs[id].isDefault {
        return false;
      }
      cs := cs - {id};
      return true;
    }
  }

  // ---- alerts --------------------------------------------------------------------------

  // `alertMinutes` is None when the setting is missing or not a number.
  datatype CalendarEvent = CalendarEvent(startAt: int, cancelled: bool, alertMinutes: Option<real>)

  const MINUTE_NS: real := 60000000000.0
  const HOUR_NS := 3600000000000

  function MaxLookahead(defaultNs: int): int {
    if defaultNs > HOUR_NS then defaultNs else HOUR_NS
  }

  function LookaheadOf(e: CalendarEvent, defaultNs: int): real {
    if e.alertMinutes.Some? then e.alertMinutes.value * MINUTE_NS else defaultNs as real
  }

  predicate Reported(e: CalendarEvent, now: int, defaultNs: int, grace: int) {
    !e.cancelled && now - grace <= e.startAt <= now + MaxLookahead(defaultNs) &&
    !(e.alertMinutes.Some? && e.alertMinutes.value < 0.0) &&
    e.startAt as real <= now as real + LookaheadOf(e, defaultNs)
  }

  // The reported events, in the order of the rows.
  method GetUpcomingEvents(all: seq<CalendarEvent>, now: int, defaultNs: int, grace: int)
    returns (events: seq<CalendarEvent>)
    ensures events == Restrict(all, set e | e in all && Reported(e, now, defaultNs, grace))
  {
    events := [];
    ghost var keep := set e | e in all && Reported(e, now, defaultNs, grace);
    for i := 0 to |all|
      invariant events == Restrict(all[..i], keep)
    {
      var e := all[i];
      assert e in all && all[..i + 1][..i] == all[..i];
      if e.cancelled || e.startAt < now - grace || e.startAt > now + MaxLookahead(defaultNs) {
        continue;
      }
      var lookahead := defaultNs as real;
      if e.alertMinutes.Some? {
        if e.alertMinutes.value < 0.0 {
          continue;
        }
        lookahead := e.alertMinutes.value * MINUTE_NS;
      }
      if e.startAt as real <= now as real + lookahead {
        events := events + [e];
      }
    }
    assert all[..|all|] == all;
  }

  // How far ahead an event is reported: its own minutes or the default, and never
  // more than an hour or the default, whichever is longer.
  function AheadNs(e: CalendarEvent, defaultNs: int): real {
    var own := if e.alertMinutes.Some? then e.alertMinutes.value * 60.0 * 1000000000.0 else defaultNs as real;
    var most := if defaultNs > 60 * 60 * 1000000000 then defaultNs as real else 3600000000000.0;
    if own < most then own else most
  }

  // An event is reported from that far ahead until the grace after its start,
  // unless it is cancelled or its alert is switched off.
  lemma ReportedIff(e: CalendarEvent, now: int, defaultNs: int, grace: int)
    ensures Reported(e, now, defaultNs, grace) <==>
            && !e.cancelled && !(e.alertMinutes.Some? && e.alertMinutes.value < 0.0)
            && now - grace <= e.startAt && e.startAt as real - now as real <= AheadNs(e, defaultNs)
  {
  }

  // With polls at most `grace` apart the first poll that reports an event is the
  // first one inside its time ahead: none reports it too early, and none in time
  // misses it.
  lemma FirstReport(e: CalendarEvent, polls: seq<int>, defaultNs: int, grace: int) returns (k: nat)
    requires polls != [] && defaultNs >= 0 && grace >= 0 && polls[0] - grace <= e.startAt <= polls[|polls| - 1]
    requires forall i :: 0 <= i < |polls| - 1 ==> polls[i] <= polls[i + 1] <= polls[i] + grace
    requires !e.cancelled && (e.alertMinutes.Some? ==> e.alertMinutes.value >= 0.0)
    ensures k < |polls| && Reported(e, polls[k], defaultNs, grace)
    ensures e.startAt as real - polls[k] as real <= AheadNs(e, defaultNs)
    ensures forall i :: 0 <= i < k ==>
              !Reported(e, polls[i], defaultNs, grace) && e.startAt as real - polls[i] as real > AheadNs(e, defaultNs)
  {
    k := 0;
    while e.startAt as real - polls[k] as real > AheadNs(e, defaultNs)
      invariant k < |polls|
      invariant forall i :: 0 <= i < k ==> e.startAt as real - polls[i] as real > AheadNs(e, defaultNs)
      decreases |polls| - k
    {
      assert k < |polls| - 1;
      k := k + 1;
    }
    if k > 0 {
      assert polls[k - 1] < e.startAt && polls[k] <= polls[k - 1] + grace;
    }
    ReportedIff(e, polls[k], defaultNs, grace);
    forall i | 0 <= i < k ensures !Reported(e, polls[i], defaultNs, grace) {
      ReportedIff(e, polls[i], defaultNs, grace);
    }
  }

  // With polls at most `grace` apart, every live event with alerts enabled that
  // starts between the first and the last poll is reported by the first poll at
  // or after its start, if not before.
  lemma NoAlertMissed(e: CalendarEvent, polls: seq<int>, defaultNs: int, grace: int) returns (k: nat)
    requires polls != [] && defaultNs >= 0 && polls[0] <= e.startAt <= polls[|polls| - 1]
    requires forall i :: 0 <= i < |polls| - 1 ==> polls[i] <= polls[i + 1] <= polls[i] + grace
    requires grace >= 0
    requires !e.cancelled && (e.alertMinutes.Some? ==> e.alertMinutes.value >= 0.0)
    ensures k < |polls| && polls[k] >= e.startAt && (k == 0 || polls[k - 1] < e.startAt)
    ensures Reported(e, polls[k], defaultNs, grace)
  {
    k := 0;
    while polls[k] < e.startAt
      invariant k < |polls|
      invariant k > 0 ==> polls[k - 1] < e.startAt
      decreases |polls| - k
    {
      assert k < |polls| - 1;
      k := k + 1;
    }
  }
}
