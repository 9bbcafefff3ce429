// Access grants (backend/open_webui/models/access_grants.py): the different ways
// of asking who may do what, and the conversion to and from the legacy dict.
module AccessGrants {
  import opened Basics

  datatype Principal = UserPrincipal | GroupPrincipal | AnyonePrincipal | OtherPrincipal(name: string)

  datatype Permission = Read | Write | OtherPermission(name: string)

  datatype Grant = Grant(principal: Principal, pid: string, permission: Permission)

  // One row of the table, without its key and creation time.
  datatype Entry = Entry(rtype: string, rid: string, grant: Grant)

  type Table = set<Entry>

  const WILDCARD := "*"

  // ---- the point check -------------------------------------------------------

  // The public, the direct and the group condition of the query.
  predicate Gives(g: Grant, user: string, groups: set<string>, permission: Permission) {
    g.permission == permission &&
    ((g.principal == UserPrincipal && (g.pid == WILDCARD || g.pid == user)) ||
     (g.principal == GroupPrincipal && g.pid in groups))
  }

  predicate HasAccess(
      t: Table, user: string, groups: set<string>, rtype: string, rid: string, permission: Permission)
  {
    exists e :: e in t && e.rtype == rtype && e.rid == rid && Gives(e.grant, user, groups, permission)
  }

  // ---- batch check and listings ------------------------------------------------

  function AccessibleIds(
      t: Table, user: string, groups: set<string>, rtype: string, rids: seq<string>, permission: Permission)
    : set<string>
  {
    set e | e in t && e.rtype == rtype && e.rid in rids && Gives(e.grant, user, groups, permission) :: e.rid
  }

  lemma BatchIsPointwise(
      t: Table, user: string, groups: set<string>, rtype: string, rids: seq<string>, permission: Permission)
    ensures AccessibleIds(t, user, groups, rtype, rids, permission) ==
            set rid | rid in rids && HasAccess(t, user, groups, rtype, rid, permission)
  {
  }

  datatype Document = Document(id: string, owner: string)

  // The principal conditions of the two filters; `user` is "" when the filter has none.
  predicate FilterGives(g: Grant, user: string, groups: set<string>, permission: Permission) {
    g.permission == permission &&
    ((g.principal == UserPrincipal && g.pid == WILDCARD) ||
     (user != "" && g.principal == UserPrincipal && g.pid == user) ||
     (groups != {} && g.principal == GroupPrincipal && g.pid in groups))
  }

  predicate GrantExists(
      t: Table, d: Document, user: string, groups: set<string>, rtype: string, permission: Permission)
  {
    exists e :: e in t && e.rtype == rtype && e.rid == d.id && FilterGives(e.grant, user, groups, permission)
  }

  // has_permission_filter: without user and groups it does not filter at all.
  predicate FilterKeeps(
      t: Table, d: Document, user: string, groups: set<string>, rtype: string, permission: Permission)
  {
    (user == "" && groups == {}) ||
    GrantExists(t, d, user, groups, rtype, permission) || (user != "" && d.owner == user)
  }

  predicate ReadOnlyKeeps(t: Table, d: Document, user: string, groups: set<string>, rtype: string) {
    GrantExists(t, d, user, groups, rtype, Read) && !GrantExists(t, d, user, groups, rtype, Write) &&
    (user != "" ==> d.owner != user)
  }

  // For a user the query filter is ownership or the point check, and the
  // read-only and the write listing split what is visible into two disjoint parts.
  lemma ListingsAgree(t: Table, d: Document, user: string, groups: set<string>, rtype: string)
    requires user != ""
    ensures forall p :: FilterKeeps(t, d, user, groups, rtype, p) <==>
                        d.owner == user || HasAccess(t, user, groups, rtype, d.id, p)
    ensures !(ReadOnlyKeeps(t, d, user, groups, rtype) && FilterKeeps(t, d, user, groups, rtype, Write))
    ensures ReadOnlyKeeps(t, d, user, groups, rtype) || FilterKeeps(t, d, user, groups, rtype, Write) <==>
            d.owner == user || HasAccess(t, user, groups, rtype, d.id, Read) ||
            HasAccess(t, user, groups, rtype, d.id, Write)
  {
  }

  // Without a user the filter keeps what any user of the groups may access, and
  // everything when there are no groups either; the read-only listing is what any
  // such user may read and not just any may write.
  lemma ListingsWithoutUser(t: Table, d: Document, groups: set<string>, rtype: string)
    ensures forall p :: FilterKeeps(t, d, "", groups, rtype, p) <==>
                        groups == {} || forall u :: HasAccess(t, u, groups, rtype, d.id, p)
    ensures ReadOnlyKeeps(t, d, "", groups, rtype) <==>
            (forall u :: HasAccess(t, u, groups, rtype, d.id, Read)) &&
            !(forall u :: HasAccess(t, u, groups, rtype, d.id, Write))
  {
    forall p ensures GrantExists(t, d, "", groups, rtype, p) <==> forall u :: HasAccess(t, u, groups, rtype, d.id, p) {
      AnyUserIff(t, d, groups, rtype, p);
    }
  }

  lemma AnyUserIff(t: Table, d: Document, groups: set<string>, rtype: string, p: Permission)
    ensures GrantExists(t, d, "", groups, rtype, p) <==> forall u :: HasAccess(t, u, groups, rtype, d.id, p)
  {
    if forall u :: HasAccess(t, u, groups, rtype, d.id, p) {
      var stranger := Stranger(t);
      assert HasAccess(t, stranger, groups, rtype, d.id, p);
    }
  }

  // A user no grant names.
  lemma {:induction false} Stranger(t: Table) returns (u: string)
    ensures forall e :: e in t ==> |e.grant.pid| < |u|
  {
    if t == {} {
      u := "u";
    } else {
      var e :| e in t;
      var v := Stranger(t - {e});
      u := v + e.grant.pid + "u";
      assert forall x :: x in t ==> x == e || x in t - {e};
    }
  }

  // ---- who has access --------------------------------------------------------------

  // `pending` records each existing account's role, `members` the groups.
  datatype World = World(pending: map<string, bool>, members: map<string, set<string>>)

  function GroupsOf(w: World, user: string): set<string> {
    set g | g in w.members && user in w.members[g]
  }

  ghost predicate IsPublic(grants: seq<Grant>) {
    exists g :: g in grants && g.principal == UserPrincipal && g.pid == WILDCARD
  }

  // A grant to the user or to one of the user's groups.
  predicate Reaches(w: World, g: Grant, user: string) {
    (g.principal == UserPrincipal && g.pid == user) ||
    (g.principal == GroupPrincipal && g.pid in GroupsOf(w, user))
  }

  // Pending accounts are left out of a public listing only.
  ghost function UserListing(w: World, grants: seq<Grant>): set<string> {
    if IsPublic(grants) then set u | u in w.pending && !w.pending[u]
    else set u | u in w.pending && exists g :: g in grants && Reaches(w, g, u)
  }

  // get_users_with_access; `grants` are the rows of one resource and permission.
  method UsersWithAccess(w: World, grants: seq<Grant>) returns (users: set<string>)
    ensures users == UserListing(w, grants)
  {
    var i := 0;
    while i < |grants|
      invariant 0 <= i <= |grants|
      invariant forall j :: 0 <= j < i ==> !(grants[j].principal == UserPrincipal && grants[j].pid == WILDCARD)
    {
      if grants[i].principal == UserPrincipal && grants[i].pid == WILDCARD {
        return set u | u in w.pending && !w.pending[u];
      }
      i := i + 1;
    }
    var ids := {};
    i := 0;
    while i < |grants|
      invariant 0 <= i <= |grants|
      invariant forall u :: u in ids <==> exists j :: 0 <= j < i && Reaches(w, grants[j], u)
    {
      var g := grants[i];
      if g.principal == UserPrincipal {
        ids := ids + {g.pid};
      } else if g.principal == GroupPrincipal && g.pid in w.members {
        ids := ids + w.members[g.pid];
      }
      i := i + 1;
    }
    users := set u | u in w.pending && u in ids;
  }

  // The listed users are exactly the existing accounts that pass the point
  // check, less the pending ones when the resource is public.
  lemma UsersAgree(
      t: Table, w: World, rtype: string, rid: string, permission: Permission, grants: seq<Grant>, u: string)
    requires forall g :: g in grants <==> g.permission == permission && Entry(rtype, rid, g) in t
    requires u in w.pending
    ensures u in UserListing(w, grants) <==>
            HasAccess(t, u, GroupsOf(w, u), rtype, rid, permission) && (IsPublic(grants) ==> !w.pending[u])
  {
  }

  // ---- the legacy dict ----------------------------------------------------------------

  datatype Names = Names(groups: seq<string>, users: seq<string>)

  // None is public, {} private, anything else lists names per permission.
  datatype AccessControl = Public | Private | Lists(read: Names, write: Names)

  function NamesGrants(n: Names, p: Permission): seq<Grant> {
    seq(|n.groups|, i requires 0 <= i < |n.groups| => Grant(GroupPrincipal, n.groups[i], p)) +
    seq(|n.users|, i requires 0 <= i < |n.users| => Grant(UserPrincipal, n.users[i], p))
  }

  const PUBLIC_READ := Grant(UserPrincipal, WILDCARD, Read)

  function ToGrants(rtype: string, ac: AccessControl): seq<Grant> {
    match ac
    case Public => if rtype == "file" then [] else [PUBLIC_READ]
    case Private => []
    case Lists(read, write) => NamesGrants(read, Read) + NamesGrants(write, Write)
  }

  function Appended(s: seq<string>, x: string): seq<string> {
    if x in s then s else s + [x]
  }

  function Noted(n: Names, g: Grant): Names {
    match g.principal
    case GroupPrincipal => n.(groups := Appended(n.groups, g.pid))
    case UserPrincipal => n.(users := Appended(n.users, g.pid))
    case _ => n
  }

  // `a` occurs, and before any `b`.
  ghost predicate FirstBefore(grants: seq<Grant>, a: Grant, b: Grant) {
    exists i :: 0 <= i < |grants| && grants[i] == a && b !in grants[..i]
  }

  // Names stand in the order of their first grants.
  ghost predicate InFirstOrder(grants: seq<Grant>, principal: Principal, p: Permission, names: seq<string>) {
    forall i, j :: 0 <= i < j < |names| ==>
      FirstBefore(grants, Grant(principal, names[i], p), Grant(principal, names[j], p))
  }

  // The lists the conversion collects; a public-read grant is not listed.
  ghost predicate Collects(grants: seq<Grant>, p: Permission, n: Names) {
    NoDup(n.groups) && NoDup(n.users) &&
    InFirstOrder(grants, GroupPrincipal, p, n.groups) && InFirstOrder(grants, UserPrincipal, p, n.users) &&
    (forall x :: x in n.groups <==> Grant(GroupPrincipal, x, p) in grants) &&
    (forall x :: x in n.users <==> Grant(UserPrincipal, x, p) in grants && Grant(UserPrincipal, x, p) != PUBLIC_READ)
  }

  // `ac` is what the conversion of `grants` gives.
  ghost predicate Converts(grants: seq<Grant>, ac: AccessControl) {
    (ac == Private <==> grants == []) && (ac == Public <==> PUBLIC_READ in grants) &&
    (ac.Lists? ==> Collects(grants, Read, ac.read) && Collects(grants, Write, ac.write))
  }

  method ToAccessControl(grants: seq<Grant>) returns (ac: AccessControl)
    ensures Converts(grants, ac)
  {
    if grants == [] {
      return Private;
    }
    var isPublic := false;
    var read, write := Names([], []), Names([], []);
    var i := 0;
    while i < |grants|
      invariant 0 <= i <= |grants|
      invariant isPublic <==> PUBLIC_READ in grants[..i]
      invariant Collects(grants[..i], Read, read) && Collects(grants[..i], Write, write)
    {
      var g := grants[i];
      assert grants[..i + 1] == grants[..i] + [g];
      NextCollects(grants[..i], Read, read, g);
      NextCollects(grants[..i], Write, write, g);
      if g == PUBLIC_READ {
        isPublic := true;
      } else if g.permission == Read {
        read := Noted(read, g);
      } else if g.permission == Write {
        write := Noted(write, g);
      }
      i := i + 1;
    }
    assert grants[..i] == grants;
    ac := if isPublic then Public else Lists(read, write);
  }

  lemma NotedCollects(grants: seq<Grant>, p: Permission, n: Names, g: Grant)
    requires Collects(grants, p, n) && g.permission == p && g != PUBLIC_READ
    ensures Collects(grants + [g], p, Noted(n, g))
  {
    AppendedOrder(grants, GroupPrincipal, p, n.groups, g);
    AppendedOrder(grants, UserPrincipal, p, n.users, g);
  }

  lemma NextCollects(grants: seq<Grant>, p: Permission, n: Names, g: Grant)
    requires Collects(grants, p, n)
    ensures Collects(grants + [g], p, if g.permission == p && g != PUBLIC_READ then Noted(n, g) else n)
  {
    if g.permission == p && g != PUBLIC_READ {
      NotedCollects(grants, p, n, g);
    } else {
      AppendedOrder(grants, GroupPrincipal, p, n.groups, g);
      AppendedOrder(grants, UserPrincipal, p, n.users, g);
    }
  }

  lemma AppendedOrder(grants: seq<Grant>, principal: Principal, p: Permission, names: seq<string>, g: Grant)
    requires InFirstOrder(grants, principal, p, names)
    requires forall x :: x in names ==> Grant(principal, x, p) in grants
    ensures InFirstOrder(grants + [g], principal, p, names)
    ensures g.principal == principal && g.permission == p && g !in grants ==>
              InFirstOrder(grants + [g], principal, p, names + [g.pid])
  {
    forall i, j | 0 <= i < j < |names|
      ensures FirstBefore(grants + [g], Grant(principal, names[i], p), Grant(principal, names[j], p))
    {
      assert FirstBefore(grants, Grant(principal, names[i], p), Grant(principal, names[j], p));
      var k :| 0 <= k < |grants| && grants[k] == Grant(principal, names[i], p) &&
               Grant(principal, names[j], p) !in grants[..k];
      assert (grants + [g])[..k] == grants[..k] && (grants + [g])[k] == grants[k];
    }
    if g.principal == principal && g.permission == p && g !in grants {
      forall i | 0 <= i < |names|
        ensures FirstBefore(grants + [g], Grant(principal, names[i], p), g)
      {
        assert names[i] in names;
        var k :| 0 <= k < |grants| && grants[k] == Grant(principal, names[i], p);
        assert (grants + [g])[..k] == grants[..k] && (grants + [g])[k] == grants[k];
      }
    }
  }

  // Some grant of the list lets this user through.
  ghost predicate Allows(grants: seq<Grant>, user: string, groups: set<string>, p: Permission) {
    exists g :: g in grants && Gives(g, user, groups, p)
  }

  ghost predicate SameAccess(a: seq<Grant>, b: seq<Grant>) {
    forall user, groups, p | p in {Read, Write} :: Allows(a, user, groups, p) <==> Allows(b, user, groups, p)
  }

  lemma NamesGrantsIn(n: Names, p: Permission, g: Grant)
    ensures g in NamesGrants(n, p) <==>
            g.permission == p && ((g.principal == GroupPrincipal && g.pid in n.groups) ||
                                  (g.principal == UserPrincipal && g.pid in n.users))
  {
    var groups := seq(|n.groups|, i requires 0 <= i < |n.groups| => Grant(GroupPrincipal, n.groups[i], p));
    var users := seq(|n.users|, i requires 0 <= i < |n.users| => Grant(UserPrincipal, n.users[i], p));
    if g.pid in n.groups {
      var i :| 0 <= i < |n.groups| && n.groups[i] == g.pid;
      assert groups[i] == Grant(GroupPrincipal, g.pid, p);
      assert groups[i] in NamesGrants(n, p);
    }
    if g.pid in n.users {
      var i :| 0 <= i < |n.users| && n.users[i] == g.pid;
      assert users[i] == Grant(UserPrincipal, g.pid, p);
      assert users[i] in NamesGrants(n, p);
    }
  }

  lemma ListsKeepAccess(rtype: string, grants: seq<Grant>, ac: AccessControl)
    requires Converts(grants, ac) && ac.Lists?
    ensures SameAccess(ToGrants(rtype, ac), grants)
  {
    var back := ToGrants(rtype, ac);
    forall g: Grant | g.permission in {Read, Write} && g.principal in {UserPrincipal, GroupPrincipal}
      ensures g in back <==> g in grants
    {
      NamesGrantsIn(ac.read, Read, g);
      NamesGrantsIn(ac.write, Write, g);
      assert g == Grant(g.principal, g.pid, g.permission);
    }
  }

  // What a public resource loses: a file everything, anything else its write grants.
  predicate LosesNothing(rtype: string, grants: seq<Grant>) {
    PUBLIC_READ !in grants ||
    (rtype != "file" &&
     forall g :: g in grants && g.permission == Write ==> g.principal !in {UserPrincipal, GroupPrincipal})
  }

  // Converting grants to the legacy dict and back keeps every user's access if
  // and only if the list is not public, or is public without write grants on
  // something that is not a file.
  lemma RoundTripKeepsAccessIff(rtype: string, grants: seq<Grant>, ac: AccessControl)
    requires Converts(grants, ac)
    ensures SameAccess(ToGrants(rtype, ac), grants) <==> LosesNothing(rtype, grants)
  {
    if PUBLIC_READ !in grants {
      if ac.Lists? {
        ListsKeepAccess(rtype, grants, ac);
      }
    } else {
      PublicRoundTrip(rtype, grants, ac);
    }
  }

  lemma PublicRoundTrip(rtype: string, grants: seq<Grant>, ac: AccessControl)
    requires Converts(grants, ac) && PUBLIC_READ in grants
    ensures SameAccess(ToGrants(rtype, ac), grants) <==> LosesNothing(rtype, grants)
  {
    var back := ToGrants(rtype, ac);
    assert ac == Public;
    assert Gives(PUBLIC_READ, "u", {}, Read);
    if rtype == "file" {
      assert Allows(grants, "u", {}, Read) && !Allows(back, "u", {}, Read);
    } else if g :| g in grants && g.permission == Write && g.principal in {UserPrincipal, GroupPrincipal} {
      assert Gives(g, g.pid, {g.pid}, Write);
      assert Allows(grants, g.pid, {g.pid}, Write) && !Allows(back, g.pid, {g.pid}, Write);
    } else {
      forall user, groups, p | p in {Read, Write}
        ensures Allows(back, user, groups, p) <==> Allows(grants, user, groups, p)
      {
        assert p == Read ==> PUBLIC_READ in back && Gives(PUBLIC_READ, user, groups, p);
      }
    }
  }
}
