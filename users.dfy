/** User records (users.ts): the upsert on sign-in, profile edits and id hydration. */
module Users {
  import opened Schema
  import opened Store

  /** JavaScript's `claim || fallback` for a string claim. */
  function OrElse(claim: Option<string>, fallback: string): (r: string)
    ensures Truthy(claim) ==> r == claim.value
    ensures !Truthy(claim) ==> r == fallback
  {
    if Truthy(claim) then claim.value else fallback
  }

  /** `email.split("@")[0]`: the text before the first "@", or all of it. */
  function EmailLocalPart(email: string): (r: string)
    ensures r <= email
    ensures '@' !in r
    ensures |r| < |email| ==> email[|r|] == '@'
  {
    if email == [] || email[0] == '@' then []
    else [email[0]] + EmailLocalPart(email[1..])
  }

  /** The display name of a new user: the name claim, else the local part of the email,
      else "User". It is never empty. */
  function NewUserName(name: Option<string>, email: Option<string>): (r: string)
    ensures r != ""
    ensures Truthy(name) ==> r == name.value
    ensures !Truthy(name) && email.Some? && EmailLocalPart(email.value) != "" ==> r == EmailLocalPart(email.value)
    ensures !Truthy(name) && (email.None? || EmailLocalPart(email.value) == "") ==> r == "User"
  {
    if Truthy(name) then name.value
    else if email.Some? && EmailLocalPart(email.value) != "" then EmailLocalPart(email.value)
    else "User"
  }

  /** The record inserted for an identity seen for the first time. */
  function NewUser(id: UserId, identity: Identity, now: int): (u: User)
    ensures u.id == id && u.clerkId == identity.subject
    ensures u.email == OrElse(identity.email, "")
    ensures u.name == NewUserName(identity.name, identity.email)
    ensures u.profilePicture == identity.picture
    ensures u.contact == (if Truthy(identity.email) then identity.email else None)
    ensures u.description.None? && u.defaultRole.None? && u.publicKey.None? && u.canCreateGroups.None?
    ensures u.createdAt == now && u.updatedAt == now
  {
    User(id, identity.subject, OrElse(identity.email, ""), NewUserName(identity.name, identity.email),
         identity.picture, None, if Truthy(identity.email) then identity.email else None,
         None, None, None, now, now)
  }

  /** The patch applied to an existing record: each claim overrides the stored value only
      when it is a non-empty string. */
  function MergeClaims(u: User, identity: Identity, now: int): (r: User)
    ensures r.email == OrElse(identity.email, u.email)
    ensures r.name == OrElse(identity.name, u.name)
    ensures r.profilePicture == (if Truthy(identity.picture) then identity.picture else u.profilePicture)
    ensures !Truthy(identity.email) ==> r.email == u.email
    ensures !Truthy(identity.name) ==> r.name == u.name
    ensures !Truthy(identity.picture) ==> r.profilePicture == u.profilePicture
    ensures r.(email := u.email, name := u.name, profilePicture := u.profilePicture, updatedAt := u.updatedAt) == u
    ensures r.updatedAt == now
  {
    u.(email := OrElse(identity.email, u.email),
       name := OrElse(identity.name, u.name),
       profilePicture := if Truthy(identity.picture) then identity.picture else u.profilePicture,
       updatedAt := now)
  }

  /** Signing in twice with the same claims changes nothing the second time. */
  lemma MergeClaimsIdempotent(u: User, identity: Identity, now: int)
    ensures MergeClaims(MergeClaims(u, identity, now), identity, now) == MergeClaims(u, identity, now)
  {
  }

  /** upsertCurrentUser: patches the caller's record when one exists, inserts one otherwise;
      either way exactly one record carries the caller's Clerk id afterwards. */
  method UpsertCurrentUser(db: Db, identity: Option<Identity>, now: int) returns (r: Result<User>)
    requires db.Valid()
    modifies db`users, db`nextId
    ensures db.Valid()
    ensures identity.None? ==> r == Err(NotAuthenticated) && db.users == old(db.users) && db.nextId == old(db.nextId)
    ensures identity.Some? ==> r.Ok? && r.value in db.users && r.value.clerkId == identity.value.subject
    ensures identity.Some? ==> forall i :: 0 <= i < |db.users| && db.users[i].clerkId == identity.value.subject ==> db.users[i] == r.value
    ensures identity.Some? ==>
      match UserIndexByClerk(old(db.users), identity.value.subject)
      case Some(i) =>
        && r.value == MergeClaims(old(db.users)[i], identity.value, now)
        && db.users == old(db.users)[i := r.value] && db.nextId == old(db.nextId)
      case None =>
        && r.value == NewUser(old(db.nextId), identity.value, now)
        && db.users == old(db.users) + [r.value] && db.nextId == old(db.nextId) + 1
  {
    if identity.None? {
      return Err(NotAuthenticated);
    }
    var id := identity.value;
    match UserIndexByClerk(db.users, id.subject)
    case Some(i) => {
      var u := MergeClaims(db.users[i], id, now);
      db.users := db.users[i := u];
      assert db.users[i] == u;
      r := Ok(u);
    }
    case None => {
      var u := NewUser(db.nextId, id, now);
      db.users := db.users + [u];
      db.nextId := db.nextId + 1;
      r := Ok(u);
    }
  }

  /** updateProfile's `arg ?? stored` merge: an omitted argument keeps the stored value, a
      given one (even the empty string) replaces it. */
  function EditProfile(u: User, description: Option<string>, contact: Option<string>, name: Option<string>,
                       publicKey: Option<string>, defaultRole: Option<Role>, now: int): (r: User)
    ensures description.None? ==> r.description == u.description
    ensures contact.None? ==> r.contact == u.contact
    ensures name.None? ==> r.name == u.name
    ensures publicKey.None? ==> r.publicKey == u.publicKey
    ensures defaultRole.None? ==> r.defaultRole == u.defaultRole
    ensures description.Some? ==> r.description == description
    ensures contact.Some? ==> r.contact == contact
    ensures name.Some? ==> r.name == name.value
    ensures publicKey.Some? ==> r.publicKey == publicKey
    ensures defaultRole.Some? ==> r.defaultRole == defaultRole
    ensures r.(description := u.description, contact := u.contact, name := u.name, publicKey := u.publicKey,
               defaultRole := u.defaultRole, updatedAt := u.updatedAt) == u
    ensures r.updatedAt == now
  {
    u.(description := if description.Some? then description else u.description,
       contact := if contact.Some? then contact else u.contact,
       name := if name.Some? then name.value else u.name,
       publicKey := if publicKey.Some? then publicKey else u.publicKey,
       defaultRole := if defaultRole.Some? then defaultRole else u.defaultRole,
       updatedAt := now)
  }

  method UpdateProfile(db: Db, identity: Option<Identity>, now: int, description: Option<string>, contact: Option<string>,
                       name: Option<string>, publicKey: Option<string>, defaultRole: Option<Role>) returns (r: Result<User>)
    requires db.Valid()
    modifies db`users
    ensures db.Valid()
    ensures r.Err? <==> Me(old(db.users), identity).Err?
    ensures r.Err? ==> r.error == Me(old(db.users), identity).error && db.users == old(db.users)
    ensures r.Ok? ==>
      var i := UserIndexByClerk(old(db.users), identity.value.subject).value;
      && r.value == EditProfile(old(db.users)[i], description, contact, name, publicKey, defaultRole, now)
      && db.users == old(db.users)[i := r.value]
  {
    var me := Me(db.users, identity);
    if me.Err? {
      return Err(me.error);
    }
    var i := UserIndexByClerk(db.users, identity.value.subject).value;
    var u := EditProfile(db.users[i], description, contact, name, publicKey, defaultRole, now);
    db.users := db.users[i := u];
    r := Ok(u);
  }

  /** setDefaultRole: only `defaultRole` and `updatedAt` of the caller's record change. */
  method SetDefaultRole(db: Db, identity: Option<Identity>, now: int, role: Role) returns (r: Result<()>)
    requires db.Valid()
    modifies db`users
    ensures db.Valid()
    ensures r.Err? <==> Me(old(db.users), identity).Err?
    ensures r.Err? ==> r.error == Me(old(db.users), identity).error && db.users == old(db.users)
    ensures r.Ok? ==>
      var i := UserIndexByClerk(old(db.users), identity.value.subject).value;
      db.users == old(db.users)[i := old(db.users)[i].(defaultRole := Some(role), updatedAt := now)]
  {
    var me := Me(db.users, identity);
    if me.Err? {
      return Err(me.error);
    }
    var i := UserIndexByClerk(db.users, identity.value.subject).value;
    var u := db.users[i].(defaultRole := Some(role), updatedAt := now);
    db.users := db.users[i := u];
    r := Ok(());
  }

  /** The ids of `ids` that name a stored user, in their given order. */
  function PresentIds(users: seq<User>, ids: seq<UserId>): (r: seq<UserId>)
    ensures |r| <= |ids|
  {
    if ids == [] then []
    else
      var rest := PresentIds(users, ids[..|ids| - 1]);
      if UserIndexById(users, ids[|ids| - 1]).Some? then rest + [ids[|ids| - 1]] else rest
  }

  function IdsOf(us: seq<User>): (r: seq<UserId>)
    ensures |r| == |us|
    ensures forall k :: 0 <= k < |us| ==> r[k] == us[k].id
  {
    if us == [] then [] else IdsOf(us[..|us| - 1]) + [us[|us| - 1].id]
  }

  /** The users listUsers accumulates, as a function: each found id contributes its record. */
  function Hydrate(users: seq<User>, ids: seq<UserId>): (r: seq<User>)
  {
    if ids == [] then []
    else
      var rest := Hydrate(users, ids[..|ids| - 1]);
      match UserIndexById(users, ids[|ids| - 1])
      case Some(i) => rest + [users[i]]
      case None => rest
  }

  /** Hydration returns stored records only, one per id that names a user, in the order of
      the ids and skipping the missing ones. */
  lemma {:induction false} HydrateMeaning(users: seq<User>, ids: seq<UserId>)
    ensures IdsOf(Hydrate(users, ids)) == PresentIds(users, ids)
    ensures forall k :: 0 <= k < |Hydrate(users, ids)| ==> Hydrate(users, ids)[k] in users
  {
    if ids != [] {
      HydrateMeaning(users, ids[..|ids| - 1]);
      var rest := Hydrate(users, ids[..|ids| - 1]);
      match UserIndexById(users, ids[|ids| - 1])
      case Some(i) =>
        assert IdsOf(rest + [users[i]]) == IdsOf(rest) + [users[i].id];
      case None =>
    }
  }

  /** When every id names a user, nothing is skipped. */
  lemma {:induction false} PresentIdsAllFound(users: seq<User>, ids: seq<UserId>)
    requires forall k :: 0 <= k < |ids| ==> exists i :: 0 <= i < |users| && users[i].id == ids[k]
    ensures PresentIds(users, ids) == ids
  {
    if ids != [] {
      var front := ids[..|ids| - 1];
      forall k | 0 <= k < |front|
        ensures exists i :: 0 <= i < |users| && users[i].id == front[k]
      {
        assert front[k] == ids[k];
      }
      assert forall k :: 0 <= k < |front| ==> exists i :: 0 <= i < |users| && users[i].id == front[k];
      PresentIdsAllFound(users, front);
      var i :| 0 <= i < |users| && users[i].id == ids[|ids| - 1];
      assert UserIndexById(users, ids[|ids| - 1]).Some?;
      assert ids[..|ids| - 1] + [ids[|ids| - 1]] == ids;
    }
  }

  /** listUsers: the loop of the handler, pushing each found user. */
  method ListUsers(users: seq<User>, ids: seq<UserId>) returns (results: seq<User>)
    ensures results == Hydrate(users, ids)
    ensures IdsOf(results) == PresentIds(users, ids)
    ensures forall k :: 0 <= k < |results| ==> results[k] in users
  {
    results := [];
    var n := 0;
    while n < |ids|
      invariant n <= |ids|
      invariant results == Hydrate(users, ids[..n])
    {
      assert ids[..n + 1][..n] == ids[..n];
      var found := UserIndexById(users, ids[n]);
      if found.Some? {
        results := results + [users[found.value]];
      }
      n := n + 1;
    }
    assert ids[..n] == ids;
    HydrateMeaning(users, ids);
  }

  /** The public fields getAllUsers and getAvailableUsers expose. */
  datatype UserSummary = UserSummary(id: UserId, name: string, email: string, profilePicture: Option<string>)

  function Summary(u: User): UserSummary
  {
    UserSummary(u.id, u.name, u.email, u.profilePicture)
  }

  /** getAllUsers: every user, in table order, reduced to its public fields. */
  function GetAllUsers(users: seq<User>): (r: seq<UserSummary>)
    ensures |r| == |users|
    ensures forall k :: 0 <= k < |users| ==>
      (r[k].id == users[k].id && r[k].name == users[k].name && r[k].email == users[k].email
       && r[k].profilePicture == users[k].profilePicture)
  {
    seq(|users|, k requires 0 <= k < |users| => Summary(users[k]))
  }
}
