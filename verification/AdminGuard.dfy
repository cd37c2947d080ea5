/** Users, groups and memberships, and the guard that keeps ZZADMIN from losing its last member
    (internal/store/store.go, internal/store/admin.go, internal/server/admin_users.go,
    internal/server/admin_groups.go). Tables are maps and sets; a statement is atomic and may fail,
    in which case it changes nothing. Foreign keys are enforced. */
module AdminGuard {
  import opened Prelude
  import Text

  const ADMIN_GROUP := "ZZADMIN"

  const MAX_PASSWORD_LEN := 72

  /** Users and groups by id, service ids, and the rows joining users to groups (`members`) and groups
      to services (`links`). */
  datatype Tables = Tables(
    users: map<nat, string>,
    groups: map<nat, string>,
    services: set<nat>,
    members: set<(nat, nat)>,
    links: set<(nat, nat)>)

  predicate IsReserved(name: string) { |name| >= 2 && Text.ToUpper(name)[..2] == "ZZ" }

  predicate Unique(rows: map<nat, string>) {
    forall a, b :: a in rows && b in rows && rows[a] == rows[b] ==> a == b
  }

  predicate Canonical(rows: map<nat, string>) { forall a :: a in rows ==> Text.ToUpper(rows[a]) == rows[a] }

  /** Every joining row joins rows that exist. */
  predicate Referential(t: Tables) {
    && (forall m :: m in t.members ==> m.0 in t.users && m.1 in t.groups)
    && (forall l :: l in t.links ==> l.0 in t.groups && l.1 in t.services)
  }

  /** Names are upper-case and unique, and no row dangles. */
  predicate Consistent(t: Tables) {
    && Unique(t.users) && Canonical(t.users)
    && Unique(t.groups) && Canonical(t.groups)
    && Referential(t)
  }

  /** The members counted for a group: rows, whether or not they join anything. */
  function MemberRows(t: Tables, gid: nat): set<nat> { set m | m in t.members && m.1 == gid :: m.0 }

  predicate HasAdminGroup(t: Tables, gid: nat) { gid in t.groups && t.groups[gid] == ADMIN_GROUP }

  predicate InGroupNamed(t: Tables, uid: nat, name: string) {
    exists gid :: gid in t.groups && t.groups[gid] == name && (uid, gid) in t.members
  }

  const MAX_FULL_NAME_LEN := 40

  /** The local part and the domain of an address meet at its only @; both hold something, the domain a
      dot, and neither a space. An empty address is fine. */
  predicate EmailFits(email: string) {
    || email == ""
    || (&& ' ' !in email && '\t' !in email
        && exists i :: 0 < i < |email| - 1 && email[i] == '@' && '@' !in email[..i] && '@' !in email[i + 1..]
                       && '.' in email[i + 1..])
  }

  /** What the add-user form holds, passwords and full name as bytes. */
  datatype NewUser = NewUser(name: string, pass: seq<byte>, retype: seq<byte>, fullName: seq<byte>, email: string)

  predicate FormFits(f: NewUser) {
    |f.fullName| <= MAX_FULL_NAME_LEN && EmailFits(f.email) && f.name != "" && PasswordFits(f.pass, f.retype)
  }

  /** The form's password check. */
  predicate PasswordFits(pass: seq<byte>, retype: seq<byte>) {
    pass != [] && pass == retype && |pass| <= MAX_PASSWORD_LEN
  }

  datatype Command =
    | AddUser(form: NewUser, id: nat)
    | AddGroup(name: string, id: nat)
    | DeleteUser(uid: nat)
    | DeleteGroup(gid: nat)
    | Join(uid: nat, gid: nat)
    | Leave(uid: nat, gid: nat)

  /** The last-admin guard: ZZADMIN exists and has at most one membership row. */
  predicate LastAdmin(t: Tables) {
    exists gid :: gid in t.groups && HasAdminGroup(t, gid) && |MemberRows(t, gid)| <= 1
  }

  /** Whether the admin screens let this command reach its final store write. */
  predicate Permitted(t: Tables, self: nat, c: Command) {
    match c
    case AddUser(form, _) => FormFits(form) && Text.ToUpper(form.name) !in t.users.Values
    case AddGroup(name, _) => name != "" && !IsReserved(name) && Text.ToUpper(name) !in t.groups.Values
    case DeleteUser(uid) => uid != self && !(InGroupNamed(t, uid, ADMIN_GROUP) && LastAdmin(t))
    case DeleteGroup(gid) => gid in t.groups && !IsReserved(t.groups[gid])
    case Join(_, _) => true
    case Leave(uid, gid) =>
      gid in t.groups && (t.groups[gid] == ADMIN_GROUP ==> !LastAdmin(t) && uid != self)
  }

  /** What the store writes once a command is permitted. */
  function Written(t: Tables, c: Command): Tables {
    match c
    case AddUser(form, id) => t.(users := t.users[id := Text.ToUpper(form.name)])
    case AddGroup(name, id) => t.(groups := t.groups[id := Text.ToUpper(name)])
    case DeleteUser(uid) =>
      t.(members := (set m | m in t.members && m.0 != uid), users := t.users - {uid})
    case DeleteGroup(gid) =>
      t.(members := (set m | m in t.members && m.1 != gid), links := (set l | l in t.links && l.0 != gid),
         groups := t.groups - {gid})
    case Join(uid, gid) =>
      if uid in t.users && gid in t.groups then t.(members := t.members + {(uid, gid)}) else t
    case Leave(uid, gid) => t.(members := t.members - {(uid, gid)})
  }

  /** Inserted ids are new, and the listed rows a command acts on were read from these tables. */
  predicate Sensible(t: Tables, c: Command) {
    match c
    case AddUser(_, id) => id !in t.users
    case AddGroup(_, id) => id !in t.groups
    case Leave(_, gid) => gid in t.groups
    case _ => true
  }

  /** Cuts the address at its first @. */
  method ValidateEmail(email: string) returns (ok: bool)
    ensures ok == EmailFits(email)
  {
    if email == "" { return true; }
    if ' ' in email || '\t' in email { return false; }
    var i := 0;
    while i < |email| && email[i] != '@'
      invariant 0 <= i <= |email| && '@' !in email[..i]
    {
      i := i + 1;
    }
    FirstAtOnly(email, i);
    if i == |email| { return false; }
    var domain := email[i + 1..];
    if '@' in domain { return false; }
    if i == 0 || domain == "" { return false; }
    return '.' in domain;
  }

  lemma InPrefix(s: string, k: int, i: int)
    requires 0 <= k < i <= |s|
    ensures s[k] in s[..i]
  {
    assert s[..i][k] == s[k];
  }

  /** No other @ can be the address's only one. */
  lemma FirstAtOnly(email: string, i: nat)
    requires i <= |email| && '@' !in email[..i] && (i < |email| ==> email[i] == '@')
    ensures forall j :: 0 <= j < |email| && email[j] == '@' && '@' !in email[..j] ==> j == i
  {
    forall j | 0 <= j < |email| && email[j] == '@' && '@' !in email[..j] ensures j == i {
      if j < i { InPrefix(email, j, i); }
      if i < j { InPrefix(email, i, j); }
    }
  }

  lemma InSuffix(s: string, k: int, i: int)
    requires 0 <= i < k < |s|
    ensures s[k] in s[i + 1..]
  {
    assert s[i + 1..][k - i - 1] == s[k];
  }

  lemma OneAt(email: string, i: int, j: int)
    requires 0 <= i < |email| && 0 <= j < |email| && email[i] == '@'
    requires '@' !in email[..j] && '@' !in email[j + 1..]
    ensures i == j
  {
    if i < j { InPrefix(email, i, j); }
    if j < i { InSuffix(email, i, j); }
  }

  /** What makes an address well formed, read from its two sides: neither holds an @, a space or a tab, both
      hold something, and the domain a dot. Without an @ it is not. */
  lemma AddressesSplit(local: string, domain: string)
    ensures EmailFits(local + "@" + domain) <==>
              && local != "" && domain != "" && '.' in domain
              && forall c :: c in local || c in domain ==> c != '@' && c != ' ' && c != '\t'
    ensures '@' !in local && local != "" ==> !EmailFits(local)
  {
    var email := local + "@" + domain;
    var i := |local|;
    assert email[i] == '@' && email[..i] == local && email[i + 1..] == domain;
    assert forall c :: c in email <==> c in local || c == '@' || c in domain;
    if '@' !in local { FirstAtOnly(email, i); }
    if EmailFits(email) {
      var j :| 0 < j < |email| - 1 && email[j] == '@' && '@' !in email[..j] && '@' !in email[j + 1..]
               && '.' in email[j + 1..];
      OneAt(email, i, j);
    }
  }

  class Store {
    var users: map<nat, string>
    var groups: map<nat, string>
    var services: set<nat>
    var members: set<(nat, nat)>
    var links: set<(nat, nat)>

    function Snapshot(): Tables
      reads this
    {
      Tables(users, groups, services, members, links)
    }

    /** Both deletes of one transaction; `failAt` is the statement that fails, if any, and a failure
        rolls everything back. */
    method DeleteUserCascade(uid: nat, failAt: int) returns (ok: bool)
      modifies this
      ensures ok == (failAt != 0 && failAt != 1)
      ensures Snapshot() == if ok then Written(old(Snapshot()), DeleteUser(uid)) else old(Snapshot())
    {
      var savedUsers, savedMembers := users, members;
      if failAt == 0 { return false; }
      members := set m | m in members && m.0 != uid;
      if failAt == 1 {
        users, members := savedUsers, savedMembers;
        return false;
      }
      users := users - {uid};
      return true;
    }

    /** Its three deletes, likewise. */
    method DeleteGroupCascade(gid: nat, failAt: int) returns (ok: bool)
      modifies this
      ensures ok == !(0 <= failAt <= 2)
      ensures Snapshot() == if ok then Written(old(Snapshot()), DeleteGroup(gid)) else old(Snapshot())
    {
      var savedMembers, savedLinks := members, links;
      if failAt == 0 { return false; }
      members := set m | m in members && m.1 != gid;
      if failAt == 1 {
        members := savedMembers;
        return false;
      }
      links := set l | l in links && l.0 != gid;
      if failAt == 2 {
        members, links := savedMembers, savedLinks;
        return false;
      }
      groups := groups - {gid};
      return true;
    }

    method CountGroupMembers(gid: nat) returns (n: nat)
      ensures n == |MemberRows(Snapshot(), gid)|
    {
      n := |set m | m in members && m.1 == gid :: m.0|;
    }

    method GroupIdByName(name: string) returns (found: bool, gid: nat)
      requires Unique(groups)
      ensures found == (Text.ToUpper(name) in groups.Values)
      ensures found ==> gid in groups && groups[gid] == Text.ToUpper(name)
    {
      var upper := Text.ToUpper(name);
      var todo := groups.Keys;
      gid := 0;
      while todo != {}
        invariant todo <= groups.Keys
        invariant forall g :: g in groups && g !in todo ==> groups[g] != upper
        decreases todo
      {
        var g :| g in todo;
        if groups[g] == upper { return true, g; }
        todo := todo - {g};
      }
      return false, 0;
    }

    /** Blocks when ZZADMIN is down to one member. A missing ZZADMIN does not block. */
    method GuardLastAdmin() returns (blocked: bool)
      requires Unique(groups)
      ensures blocked == LastAdmin(Snapshot())
    {
      var found, gid := GroupIdByName(ADMIN_GROUP);
      assert Text.ToUpper(ADMIN_GROUP) == ADMIN_GROUP;
      if !found {
        assert forall g :: g in groups ==> groups[g] in groups.Values;
        return false;
      }
      var n := CountGroupMembers(gid);
      assert HasAdminGroup(Snapshot(), gid);
      return n <= 1;
    }

    method IsMemberOf(uid: nat, name: string) returns (yes: bool)
      ensures yes == InGroupNamed(Snapshot(), uid, name)
    {
      yes := exists gid :: gid in groups && groups[gid] == name && (uid, gid) in members;
    }

    /** The user list's delete, with its guards in the order the screen applies them. */
    method AdminDeleteUser(self: nat, uid: nat, failAt: int) returns (done: bool)
      requires Unique(groups)
      modifies this
      ensures done == (Permitted(old(Snapshot()), self, DeleteUser(uid)) && failAt != 0 && failAt != 1)
      ensures Snapshot() == if done then Written(old(Snapshot()), DeleteUser(uid)) else old(Snapshot())
    {
      if uid == self { return false; }
      var admin := IsMemberOf(uid, ADMIN_GROUP);
      if admin {
        var blocked := GuardLastAdmin();
        if blocked { return false; }
      }
      done := DeleteUserCascade(uid, failAt);
    }

    /** Removing a membership, from the user's side or the group's. */
    method AdminLeave(self: nat, uid: nat, gid: nat, fails: bool) returns (done: bool)
      requires Unique(groups) && gid in groups
      modifies this
      ensures done == (Permitted(old(Snapshot()), self, Leave(uid, gid)) && !fails)
      ensures Snapshot() == if done then Written(old(Snapshot()), Leave(uid, gid)) else old(Snapshot())
    {
      if groups[gid] == ADMIN_GROUP {
        var blocked := GuardLastAdmin();
        if blocked { return false; }
        if uid == self { return false; }
      }
      if fails { return false; }
      members := members - {(uid, gid)};
      return true;
    }

    /** Deleting a group: the confirm step refuses reserved names. */
    method AdminDeleteGroup(self: nat, gid: nat, failAt: int) returns (done: bool)
      requires gid in groups
      modifies this
      ensures done == (Permitted(old(Snapshot()), self, DeleteGroup(gid)) && !(0 <= failAt <= 2))
      ensures Snapshot() == if done then Written(old(Snapshot()), DeleteGroup(gid)) else old(Snapshot())
    {
      if IsReserved(groups[gid]) { return false; }
      done := DeleteGroupCascade(gid, failAt);
    }

    /** The add-user form: insert the row (store call 0), then write its details (call 1). When only
        the second fails the form reports a failure, but the user is there. */
    method AdminAddUser(self: nat, form: NewUser, id: nat, failAt: int) returns (done: bool)
      requires id !in users
      modifies this
      ensures var c := AddUser(form, id);
              && done == (Permitted(old(Snapshot()), self, c) && failAt != 0 && failAt != 1)
              && Snapshot() == (if Permitted(old(Snapshot()), self, c) && failAt != 0
                                then Written(old(Snapshot()), c) else old(Snapshot()))
    {
      if |form.fullName| > MAX_FULL_NAME_LEN { return false; }
      var fits := ValidateEmail(form.email);
      if !fits { return false; }
      if form.name == "" { return false; }
      if |form.pass| == 0 { return false; }
      if form.pass != form.retype { return false; }
      if |form.pass| > MAX_PASSWORD_LEN { return false; }
      if Text.ToUpper(form.name) in users.Values || failAt == 0 { return false; }
      users := users[id := Text.ToUpper(form.name)];
      return failAt != 1;
    }

    /** The add-group form. */
    method AdminAddGroup(name: string, id: nat, fails: bool) returns (done: bool)
      requires Unique(groups) && id !in groups
      modifies this
      ensures done == (Permitted(old(Snapshot()), 0, AddGroup(name, id)) && !fails)
      ensures Snapshot() == if done then Written(old(Snapshot()), AddGroup(name, id)) else old(Snapshot())
    {
      if name == "" { return false; }
      if IsReserved(name) { return false; }
      var taken, _ := GroupIdByName(name);
      if taken || fails { return false; }
      groups := groups[id := Text.ToUpper(name)];
      return true;
    }
  }

  // ---------------------------------------------------------------- histories of one acting admin

  /** A command the acting admin issues; `fails` when a store call fails on the way. */
  datatype Attempt = Attempt(command: Command, fails: bool)

  function Outcome(t: Tables, self: nat, a: Attempt): Tables {
    if Sensible(t, a.command) && Permitted(t, self, a.command) && !a.fails then Written(t, a.command) else t
  }

  function Run(t: Tables, self: nat, attempts: seq<Attempt>): Tables {
    if attempts == [] then t
    else Outcome(Run(t, self, attempts[..|attempts| - 1]), self, attempts[|attempts| - 1])
  }

  /** The acting admin is a real user and a member of the one group named ZZADMIN. */
  predicate Administers(t: Tables, self: nat, admin: nat) {
    Consistent(t) && self in t.users && HasAdminGroup(t, admin) && (self, admin) in t.members
  }

  lemma InsertKeepsUnique(rows: map<nat, string>, id: nat, name: string)
    requires Unique(rows) && Canonical(rows) && id !in rows && Text.ToUpper(name) !in rows.Values
    ensures Unique(rows[id := Text.ToUpper(name)]) && Canonical(rows[id := Text.ToUpper(name)])
  {
    Text.UpperIdempotent(name);
    assert forall k :: k in rows ==> rows[k] in rows.Values;
  }

  lemma AdminGroupIsReserved()
    ensures IsReserved(ADMIN_GROUP)
  {
    assert Text.ToUpper(ADMIN_GROUP) == ADMIN_GROUP;
  }

  lemma OutcomeKeepsAdmin(t: Tables, self: nat, admin: nat, a: Attempt)
    requires Administers(t, self, admin)
    ensures Administers(Outcome(t, self, a), self, admin)
  {
    AdminGroupIsReserved();
    if Sensible(t, a.command) && Permitted(t, self, a.command) && !a.fails {
      match a.command {
        case AddUser(form, id) => InsertKeepsUnique(t.users, id, form.name);
        case AddGroup(name, id) => InsertKeepsUnique(t.groups, id, name);
        case _ =>
      }
    }
  }

  /** Over any sequence of commands by one acting admin, failing or not, that admin stays a member of
      ZZADMIN, the group is never deleted, and its counted members are real users. */
  lemma {:induction false} AdminNeverLosesMembership(t: Tables, self: nat, admin: nat, attempts: seq<Attempt>)
    requires Administers(t, self, admin)
    ensures var r := Run(t, self, attempts);
            && Administers(r, self, admin)
            && self in MemberRows(r, admin)
            && forall uid :: uid in MemberRows(r, admin) ==> uid in r.users
  {
    if attempts != [] {
      AdminNeverLosesMembership(t, self, admin, attempts[..|attempts| - 1]);
      OutcomeKeepsAdmin(Run(t, self, attempts[..|attempts| - 1]), self, admin, attempts[|attempts| - 1]);
    }
    assert (self, admin) in Run(t, self, attempts).members;
  }

  lemma StillMember(t: Tables, c: Command, uid: nat, admin: nat)
    requires uid in MemberRows(t, admin)
    requires (uid, admin) in t.members ==> (uid, admin) in Written(t, c).members
    ensures MemberRows(Written(t, c), admin) != {}
  {
    var m :| m in t.members && m.1 == admin && m.0 == uid;
    assert m == (uid, admin);
    assert uid in MemberRows(Written(t, c), admin);
  }

  /** The count guard alone is enough for the group to keep a member: even for an actor who is not in
      ZZADMIN, no permitted command takes the last membership row away. */
  lemma GuardKeepsOneMember(t: Tables, self: nat, admin: nat, c: Command)
    requires Consistent(t) && HasAdminGroup(t, admin) && MemberRows(t, admin) != {}
    requires Sensible(t, c) && Permitted(t, self, c)
    ensures HasAdminGroup(Written(t, c), admin) && MemberRows(Written(t, c), admin) != {}
  {
    AdminGroupIsReserved();
    var before := MemberRows(t, admin);
    var uid :| uid in before;
    if (c.DeleteUser? && c.uid in before) || (c.Leave? && c.gid == admin) {
      assert c.DeleteUser? ==> (c.uid, admin) in t.members && InGroupNamed(t, c.uid, ADMIN_GROUP);
      assert |before| > 1;
      OtherMember(before, c.uid);
      uid :| uid in before && uid != c.uid;
    }
    StillMember(t, c, uid, admin);
  }

  lemma OtherMember(s: set<nat>, x: nat)
    requires |s| > 1
    ensures exists y :: y in s && y != x
  {
    if forall y :: y in s ==> y == x {
      assert s <= {x};
      assert |s| <= |{x}| by { SubsetCard(s, {x}); }
      assert false;
    }
  }

  lemma {:induction false} SubsetCard(a: set<nat>, b: set<nat>)
    requires a <= b
    ensures |a| <= |b|
  {
    if a != {} {
      var x :| x in a;
      SubsetCard(a - {x}, b - {x});
    }
  }

  /** Members that are users. */
  function RealMembers(t: Tables, gid: nat): set<nat> { set u | u in MemberRows(t, gid) && u in t.users }

  /** A permitted command takes away the last real member. */
  predicate LocksOut(t: Tables, self: nat, admin: nat, c: Command) {
    Sensible(t, c) && Permitted(t, self, c) && RealMembers(t, admin) != {} && RealMembers(Written(t, c), admin) == {}
  }

  /** u is the only real member of ZZADMIN, someone else is acting, and the group has more rows than
      that one. */
  predicate Exposed(t: Tables, self: nat, admin: nat, u: nat) {
    RealMembers(t, admin) == {u} && u != self && |MemberRows(t, admin)| > 1
  }

  predicate Removes(c: Command, admin: nat, u: nat) {
    match c
    case DeleteUser(uid) => uid == u
    case Leave(uid, gid) => uid == u && gid == admin
    case _ => false
  }

  lemma StillReal(t: Tables, c: Command, u: nat, admin: nat)
    requires u in RealMembers(t, admin) && Sensible(t, c)
    requires !Removes(c, admin, u) && c != DeleteGroup(admin)
    ensures u in RealMembers(Written(t, c), admin)
  {
    var m :| m in t.members && m.1 == admin && m.0 == u;
    assert m in Written(t, c).members;
  }

  lemma RemovedIsNotReal(t: Tables, c: Command, u: nat, admin: nat)
    requires Removes(c, admin, u)
    ensures RealMembers(Written(t, c), admin) <= RealMembers(t, admin) - {u}
  {
    forall v | v in RealMembers(Written(t, c), admin) ensures v in RealMembers(t, admin) - {u} {
      var m :| m in Written(t, c).members && m.1 == admin && m.0 == v;
      assert m in t.members;
    }
  }

  /** Whatever the tables hold, a permitted command takes ZZADMIN's last real member exactly when one
      user is left, someone else acts, a further row of the group dangles, and the command removes
      that user or the membership. */
  lemma LocksOutExactly(t: Tables, self: nat, admin: nat, c: Command)
    requires Unique(t.groups) && HasAdminGroup(t, admin) && RealMembers(t, admin) != {}
    requires Sensible(t, c) && Permitted(t, self, c)
    ensures RealMembers(Written(t, c), admin) == {} <==> exists u :: Exposed(t, self, admin, u) && Removes(c, admin, u)
  {
    AdminGroupIsReserved();
    assert c != DeleteGroup(admin);
    var actual := RealMembers(t, admin);
    if RealMembers(Written(t, c), admin) == {} {
      var u :| u in actual;
      if !Removes(c, admin, u) { StillReal(t, c, u, admin); }
      forall v | v in actual ensures v == u {
        if v != u { StillReal(t, c, v, admin); }
      }
      assert actual == {u};
      assert (u, admin) in t.members by { var m :| m in t.members && m.1 == admin && m.0 == u; }
      assert !LastAdmin(t);
      assert Exposed(t, self, admin, u);
    }
    forall u | Exposed(t, self, admin, u) && Removes(c, admin, u) ensures RealMembers(Written(t, c), admin) == {} {
      RemovedIsNotReal(t, c, u, admin);
      assert actual - {u} == {};
    }
  }

  /** So an actor can lock everyone out exactly when some other user is the only real member and a row
      dangles. A real member never can, and with no dangling row nobody can. */
  lemma LockoutIsPossibleExactly(t: Tables, self: nat, admin: nat)
    requires Unique(t.groups) && HasAdminGroup(t, admin) && RealMembers(t, admin) != {}
    ensures (exists c: Command :: LocksOut(t, self, admin, c)) <==> exists u :: Exposed(t, self, admin, u)
    ensures (exists u :: Exposed(t, self, admin, u)) ==> self !in RealMembers(t, admin) && !Referential(t)
  {
    if c: Command :| LocksOut(t, self, admin, c) {
      LocksOutExactly(t, self, admin, c);
    }
    if u :| Exposed(t, self, admin, u) {
      var c := Leave(u, admin);
      assert !LastAdmin(t);
      LocksOutExactly(t, self, admin, c);
      assert Removes(c, admin, u) && LocksOut(t, self, admin, c);
      OtherMember(MemberRows(t, admin), u);
      var v :| v in MemberRows(t, admin) && v != u;
      var m :| m in t.members && m.1 == admin && m.0 == v;
      assert v in RealMembers(t, admin) <==> v in t.users;
    }
  }

  /** Such tables: user 1 is the only real member of ZZADMIN and the row of a user 9 dangles. The actor
      is user 2, who is not a member: a session that was opened before its user was taken out of the
      group. */
  lemma DanglingRowDefeatsGuard()
    ensures var t := Tables(map[1 := "ROOT", 2 := "OPS"], map[7 := "ZZADMIN"], {}, {(1, 7), (9, 7)}, {});
            Unique(t.groups) && HasAdminGroup(t, 7) && LocksOut(t, 2, 7, Leave(1, 7))
  {
    var t := Tables(map[1 := "ROOT", 2 := "OPS"], map[7 := ADMIN_GROUP], {}, {(1, 7), (9, 7)}, {});
    assert (1, 7) in t.members && (9, 7) in t.members;
    assert 1 in MemberRows(t, 7) && 9 in MemberRows(t, 7);
    TwoCount(MemberRows(t, 7), 1, 9);
    assert 1 in RealMembers(t, 7);
    assert RealMembers(t, 7) == {1};
    assert Exposed(t, 2, 7, 1) && Removes(Leave(1, 7), 7, 1);
    LocksOutExactly(t, 2, 7, Leave(1, 7));
  }

  lemma TwoCount(s: set<nat>, a: nat, b: nat)
    requires a in s && b in s && a != b
    ensures |s| >= 2
  {
    SubsetCard({a, b}, s);
  }

  // ---------------------------------------------------------------- what the commands leave alone

  /** The names kept for the gateway itself, in either case. */
  predicate BeginsZZ(name: string) {
    |name| >= 2 && (name[0] == 'Z' || name[0] == 'z') && (name[1] == 'Z' || name[1] == 'z')
  }

  lemma ReservedExactly(name: string)
    ensures IsReserved(name) <==> BeginsZZ(name)
    ensures BeginsZZ(Text.ToUpper(name)) <==> BeginsZZ(name)
  {
    var u := Text.ToUpper(name);
    if |name| >= 2 { assert u[..2] == [u[0], u[1]]; }
  }

  /** What a permitted command does to each row: a membership appears only by its own Join and goes only by
      its own Leave or with its user or group; a service link goes only with its group; a user or group
      appears under the upper-case name given and goes only by its own deletion. */
  lemma RowsChangeExactly(t: Tables, self: nat, c: Command)
    requires Sensible(t, c) && Permitted(t, self, c)
    ensures var r := Written(t, c);
            && (forall u, g :: (u, g) in r.members <==>
                  || (c == Join(u, g) && u in t.users && g in t.groups)
                  || ((u, g) in t.members && c != Leave(u, g) && c != DeleteUser(u) && c != DeleteGroup(g)))
            && (forall g, s :: (g, s) in r.links <==> (g, s) in t.links && c != DeleteGroup(g))
            && (forall u :: u in r.users <==> (u in t.users && c != DeleteUser(u)) || (c.AddUser? && c.id == u))
            && (forall u :: u in r.users ==>
                  r.users[u] == if c.AddUser? && c.id == u then Text.ToUpper(c.form.name) else t.users[u])
            && (forall g :: g in r.groups <==> (g in t.groups && c != DeleteGroup(g)) || (c.AddGroup? && c.id == g))
            && (forall g :: g in r.groups ==>
                  r.groups[g] == if c.AddGroup? && c.id == g then Text.ToUpper(c.name) else t.groups[g])
            && r.services == t.services
  {
  }

  /** Over any commands, whoever acts, the groups whose names begin with ZZ stay as they were: none is added,
      deleted or renamed. */
  lemma {:induction false} ReservedGroupsAreFixed(t: Tables, self: nat, attempts: seq<Attempt>)
    ensures var r := Run(t, self, attempts);
            && (forall g :: g in t.groups && BeginsZZ(t.groups[g]) ==> g in r.groups && r.groups[g] == t.groups[g])
            && (forall g :: g in r.groups && BeginsZZ(r.groups[g]) ==> g in t.groups && r.groups[g] == t.groups[g])
  {
    if attempts != [] {
      var before := Run(t, self, attempts[..|attempts| - 1]);
      var a := attempts[|attempts| - 1];
      ReservedGroupsAreFixed(t, self, attempts[..|attempts| - 1]);
      if Sensible(before, a.command) && Permitted(before, self, a.command) {
        RowsChangeExactly(before, self, a.command);
        if a.command.AddGroup? { ReservedExactly(a.command.name); }
        if a.command.DeleteGroup? { ReservedExactly(before.groups[a.command.gid]); }
      }
    }
  }

  /** Every other group can be added, under a name not yet taken, and deleted. A user can be added exactly
      with a full name of at most 40 bytes, an email that is empty or well formed, a name not yet taken,
      and a password of 1 to 72 bytes typed twice. */
  lemma AddingIsExact(t: Tables, self: nat, name: string, form: NewUser, id: nat)
    ensures Permitted(t, self, AddGroup(name, id)) <==>
              name != "" && !BeginsZZ(name) && forall g :: g in t.groups ==> t.groups[g] != Text.ToUpper(name)
    ensures Permitted(t, self, DeleteGroup(id)) <==> id in t.groups && !BeginsZZ(t.groups[id])
    ensures Permitted(t, self, AddUser(form, id)) <==>
              && |form.fullName| <= 40 && EmailFits(form.email) && form.name != ""
              && 1 <= |form.pass| <= 72 && form.retype == form.pass
              && forall u :: u in t.users ==> t.users[u] != Text.ToUpper(form.name)
  {
    ReservedExactly(name);
    if id in t.groups { ReservedExactly(t.groups[id]); }
    assert Text.ToUpper(name) in t.groups.Values <==> exists g :: g in t.groups && t.groups[g] == Text.ToUpper(name);
    assert Text.ToUpper(form.name) in t.users.Values <==>
           exists u :: u in t.users && t.users[u] == Text.ToUpper(form.name);
  }
}
