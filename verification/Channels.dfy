// Channel membership rows and the lookup of a direct-message channel by its
// exact set of users (backend/open_webui/models/channels.py).
module Channels {
  import opened Basics

  datatype Member = Member(channel: string, user: string, active: bool)

  // Membership rows by row id.
  type Rows = map<nat, Member>

  function Users(rows: Rows, channel: string): set<string> {
    set r | r in rows && rows[r].channel == channel :: rows[r].user
  }

  // At most one row per channel and user.
  ghost predicate OneRowEach(rows: Rows) {
    forall r, s | r in rows && s in rows && r != s ::
      rows[r].channel != rows[s].channel || rows[r].user != rows[s].user
  }

  class ChannelMembers {
    var rows: Rows
    var next: nat

    ghost predicate Valid()
      reads this
    {
      OneRowEach(rows) && forall r :: r in rows ==> r < next
    }

    constructor ()
      ensures Valid() && rows == map[]
    {
      rows, next := map[], 0;
    }

    // One new row per user, none of whom has one yet.
    method CreateMemberships(channel: string, users: set<string>)
      requires Valid() && users !! Users(rows, channel)
      modifies this
      ensures Valid()
      ensures Users(rows, channel) == Users(old(rows), channel) + users
      ensures forall r :: r in old(rows) ==> r in rows && rows[r] == old(rows)[r]
      ensures forall r :: r in rows && r !in old(rows) ==>
                rows[r].channel == channel && rows[r].active && rows[r].user in users
    {
      var todo := users;
      while todo != {}
        invariant Valid() && todo !! Users(rows, channel)
        invariant Users(rows, channel) + todo == Users(old(rows), channel) + users
        invariant forall r :: r in old(rows) ==> r in rows && rows[r] == old(rows)[r]
        invariant todo <= users
        invariant forall r :: r in rows && r !in old(rows) ==>
                    rows[r].channel == channel && rows[r].active && rows[r].user in users
        decreases todo
      {
        var user :| user in todo;
        ghost var before := rows;
        rows := rows[next := Member(channel, user, true)];
        assert Users(rows, channel) == Users(before, channel) + {user} by {
          assert rows[next].user == user;
          forall u | u in Users(before, channel) ensures u in Users(rows, channel) {
            var r :| r in before && before[r].channel == channel && before[r].user == u;
            assert rows[r] == before[r];
          }
        }
        next := next + 1;
        todo := todo - {user};
      }
    }

    // `requested` is the inviter, the listed users and the members of the groups.
    method AddMembers(channel: string, requested: set<string>) returns (added: set<string>)
      requires Valid()
      modifies this
      ensures Valid()
      ensures added == requested - Users(old(rows), channel)
      ensures Users(rows, channel) == Users(old(rows), channel) + requested
      ensures forall r :: r in old(rows) ==> r in rows && rows[r] == old(rows)[r]
      ensures forall r :: r in rows && r !in old(rows) ==> rows[r].channel == channel && rows[r].active
    {
      added := requested - Users(rows, channel);
      if added == {} {
        assert forall u :: u in requested && u !in Users(rows, channel) ==> u in added;
        return;
      }
      CreateMemberships(channel, added);
    }

    method RemoveMembers(channel: string, users: set<string>)
      requires Valid()
      modifies this
      ensures Valid()
      ensures Users(rows, channel) == Users(old(rows), channel) - users
      ensures forall r :: r in rows <==>
                r in old(rows) && !(old(rows)[r].channel == channel && old(rows)[r].user in users)
      ensures forall r :: r in rows ==> rows[r] == old(rows)[r]
    {
      ghost var before := rows;
      rows := map r | r in rows && !(rows[r].channel == channel && rows[r].user in users) :: rows[r];
      forall u | u in Users(before, channel) - users ensures u in Users(rows, channel) {
        var r :| r in before && before[r].channel == channel && before[r].user == u;
        assert r in rows;
      }
    }

    method Join(channel: string, user: string)
      requires Valid()
      modifies this
      ensures Valid()
      ensures Users(rows, channel) == Users(old(rows), channel) + {user}
      ensures user in Users(old(rows), channel) ==> rows == old(rows)
      ensures forall r :: r in old(rows) ==> r in rows && rows[r] == old(rows)[r]
      ensures forall r :: r in rows && r !in old(rows) ==> rows[r] == Member(channel, user, true)
    {
      if user in Users(rows, channel) {
        return;
      }
      CreateMemberships(channel, {user});
    }

    // Leaving keeps the row.
    method Leave(channel: string, user: string) returns (found: bool)
      requires Valid()
      modifies this
      ensures Valid()
      ensures found <==> user in Users(old(rows), channel)
      ensures rows == map r | r in old(rows) ::
                if old(rows)[r].channel == channel && old(rows)[r].user == user then old(rows)[r].(active := false)
                else old(rows)[r]
    {
      if user !in Users(rows, channel) {
        return false;
      }
      var r :| r in rows && rows[r].channel == channel && rows[r].user == user;
      rows := rows[r := rows[r].(active := false)];
      return true;
    }
  }

  // ---- the lookup --------------------------------------------------------------

  // The rows of the channel that the join with the existing accounts keeps.
  function JoinedRows(rows: Rows, accounts: set<string>, channel: string): set<nat> {
    set r | r in rows && rows[r].channel == channel && rows[r].user in accounts
  }

  function MatchingRows(rows: Rows, accounts: set<string>, channel: string, requested: set<string>): set<nat> {
    set r | r in JoinedRows(rows, accounts, channel) && rows[r].user in requested
  }

  // The two HAVING conditions; a channel without joined rows forms no group.
  function Found(rows: Rows, accounts: set<string>, channel: string, requested: set<string>): bool {
    JoinedRows(rows, accounts, channel) != {} &&
    |JoinedRows(rows, accounts, channel)| == |requested| &&
    |MatchingRows(rows, accounts, channel, requested)| == |requested|
  }

  function UsersOf(rows: Rows, ids: set<nat>): set<string>
    requires ids <= rows.Keys
  {
    set r | r in ids :: rows[r].user
  }

  lemma {:induction false} CountsUsers(rows: Rows, channel: string, ids: set<nat>)
    requires OneRowEach(rows) && ids <= rows.Keys && forall r :: r in ids ==> rows[r].channel == channel
    ensures |UsersOf(rows, ids)| == |ids|
  {
    if ids == {} {
    } else {
      var r :| r in ids;
      CountsUsers(rows, channel, ids - {r});
      assert UsersOf(rows, ids) == UsersOf(rows, ids - {r}) + {rows[r].user};
    }
  }

  lemma {:induction false} EqualSizeSubset<T>(a: set<T>, b: set<T>)
    requires a <= b && |a| == |b|
    ensures a == b
  {
    var rest := b - a;
    assert b == a + rest;
    assert |rest| == 0;
  }

  // The two counts single out exactly the channels whose still-existing members
  // are the requested users, for every requested set, if and only if those
  // members and the joined rows are equally many.
  lemma LookupRightIff(rows: Rows, accounts: set<string>, channel: string)
    ensures (forall requested ::
               Found(rows, accounts, channel, requested) <==>
               requested != {} && Users(rows, channel) * accounts == requested) <==>
            |JoinedRows(rows, accounts, channel)| == |Users(rows, channel) * accounts|
  {
    var joined, users := JoinedRows(rows, accounts, channel), Users(rows, channel) * accounts;
    assert UsersOf(rows, joined) == users;
    assert MatchingRows(rows, accounts, channel, users) == joined;
    assert users == {} ==> joined == {};
    if |joined| == |users| {
      forall requested | Found(rows, accounts, channel, requested) ensures users == requested {
        var matching := MatchingRows(rows, accounts, channel, requested);
        EqualSizeSubset(matching, joined);
        EqualSizeSubset(users, requested);
      }
    } else {
      assert !Found(rows, accounts, channel, users);
    }
  }

  // One row per channel and user guarantees it.
  lemma FoundIff(rows: Rows, accounts: set<string>, channel: string, requested: set<string>)
    requires OneRowEach(rows)
    ensures Found(rows, accounts, channel, requested) <==>
            requested != {} && Users(rows, channel) * accounts == requested
  {
    var joined := JoinedRows(rows, accounts, channel);
    CountsUsers(rows, channel, joined);
    assert UsersOf(rows, joined) == Users(rows, channel) * accounts;
    LookupRightIff(rows, accounts, channel);
  }
}
