/** The audit-trail queries of auditLogs.ts: owner-only views of the `auditLogs` table,
    newest first and capped by a limit. A caller who may not look gets `[]`, never an error;
    the only error is a `.unique()` lookup that finds two rows. */
module AuditLogs {
  import opened Schema
  import opened Store
  import opened Ordering
  import Permissions

  // ---------------------------------------------------------------------------
  // `.unique()` lookups

  /** The number of elements satisfying `p`: how many rows a `.unique()` query sees. */
  function CountWhere<T>(s: seq<T>, p: T -> bool): (n: nat)
    ensures n <= |s|
  {
    if s == [] then 0 else (if p(s[0]) then 1 else 0) + CountWhere(s[1..], p)
  }

  lemma {:induction false} CountWhereZero<T>(s: seq<T>, p: T -> bool)
    ensures CountWhere(s, p) == 0 <==> forall i :: 0 <= i < |s| ==> !p(s[i])
  {
    if s != [] {
      CountWhereZero(s[1..], p);
      assert forall i :: 1 <= i < |s| ==> s[i] == s[1..][i - 1];
    }
  }

  /** No two elements satisfy `p`, so a `.unique()` query never throws. */
  lemma {:induction false} CountWhereAtMostOne<T>(s: seq<T>, p: T -> bool)
    requires forall i, j :: 0 <= i < j < |s| ==> !(p(s[i]) && p(s[j]))
    ensures CountWhere(s, p) <= 1
  {
    if s != [] {
      CountWhereAtMostOne(s[1..], p);
      if p(s[0]) {
        CountWhereZero(s[1..], p);
        assert forall i :: 0 <= i < |s[1..]| ==> s[1..][i] == s[i + 1];
      }
    }
  }

  function HasClerk(clerk: ClerkId): User -> bool
  {
    (u: User) => u.clerkId == clerk
  }

  /** The `by_clerk_id` lookup with `.unique()`: the caller (None without an identity or a
      user), or NotUnique when two users share the subject. */
  function UniqueCaller(users: seq<User>, identity: Option<Identity>): (r: Result<Option<User>>)
    ensures r.Err? <==> identity.Some? && CountWhere(users, HasClerk(identity.value.subject)) > 1
    ensures r.Err? ==> r.error == NotUnique
    ensures r.Ok? ==> r.value == Caller(users, identity)
  {
    if identity.Some? && CountWhere(users, HasClerk(identity.value.subject)) > 1 then Err(NotUnique)
    else Ok(Caller(users, identity))
  }

  /** With the users table keyed by subject, the `.unique()` lookup never throws. */
  lemma UniqueCallerNeverThrows(users: seq<User>, identity: Option<Identity>)
    requires UniqueClerkIds(users)
    ensures UniqueCaller(users, identity) == Ok(Caller(users, identity))
  {
    if identity.Some? {
      CountWhereAtMostOne(users, HasClerk(identity.value.subject));
    }
  }

  function IsMembership(groupId: GroupId, userId: UserId): GroupMember -> bool
  {
    (m: GroupMember) => m.groupId == groupId && m.userId == userId
  }

  /** The `by_group_and_user` lookup with `.unique()`: the membership (None for a
      non-member), or NotUnique when there are two. */
  function UniqueMembership(members: seq<GroupMember>, groupId: GroupId, userId: UserId)
    : (r: Result<Option<GroupMember>>)
    ensures r.Err? <==> CountWhere(members, IsMembership(groupId, userId)) > 1
    ensures r.Err? ==> r.error == NotUnique
    ensures r.Ok? ==> (r.value.None? <==> !Permissions.IsMember(members, groupId, userId))
    ensures r.Ok? && r.value.Some? ==>
      r.value.value in members && r.value.value.groupId == groupId && r.value.value.userId == userId
  {
    if CountWhere(members, IsMembership(groupId, userId)) > 1 then Err(NotUnique)
    else match Permissions.MembershipIndex(members, groupId, userId)
      case None => Ok(None)
      case Some(i) => Ok(Some(members[i]))
  }

  /** With one membership per (group, user), the `.unique()` lookup never throws. */
  lemma UniqueMembershipNeverThrows(members: seq<GroupMember>, groupId: GroupId, userId: UserId)
    requires UniqueMemberships(members)
    ensures UniqueMembership(members, groupId, userId).Ok?
  {
    CountWhereAtMostOne(members, IsMembership(groupId, userId));
  }

  // ---------------------------------------------------------------------------
  // Ordering and selection

  function Timestamp(e: AuditLog): int
  {
    e.timestamp
  }

  /** `.order("desc")` over an index ending in `timestamp`: newest first, and among equal
      timestamps the later insertion first. */
  function Newest(logs: seq<AuditLog>): (r: seq<AuditLog>)
    ensures SortedDesc(r, Timestamp)
    ensures multiset(r) == multiset(logs)
  {
    ReversePermutes(logs);
    SortDesc(Reverse(logs), Timestamp)
  }

  /** Cutting a newest-first list after `n` entries: the two parts make up the list, and
      nothing in the second part is newer than anything in the first. */
  lemma SplitNewestFirst(s: seq<AuditLog>, n: nat)
    requires SortedDesc(s, Timestamp)
    ensures var kept := Take(s, n); var dropped := s[|kept|..];
      && multiset(kept) + multiset(dropped) == multiset(s)
      && forall i, j :: 0 <= i < |kept| && 0 <= j < |dropped| ==> kept[i].timestamp >= dropped[j].timestamp
  {
    var kept := Take(s, n);
    var dropped := s[|kept|..];
    assert s == kept + dropped;
    forall i, j | 0 <= i < |kept| && 0 <= j < |dropped|
      ensures kept[i].timestamp >= dropped[j].timestamp
    {
      assert kept[i] == s[i] && dropped[j] == s[|kept| + j];
      assert Timestamp(s[i]) >= Timestamp(s[|kept| + j]);
    }
  }

  /** The `n` newest entries: with the ones left out they make up the whole trail, and none
      left out is newer than any returned. */
  lemma NewestPrefix(logs: seq<AuditLog>, n: nat)
    ensures var s := Newest(logs); var kept := Take(s, n); var dropped := s[|kept|..];
      && multiset(kept) + multiset(dropped) == multiset(logs)
      && forall i, j :: 0 <= i < |kept| && 0 <= j < |dropped| ==> kept[i].timestamp >= dropped[j].timestamp
  {
    SplitNewestFirst(Newest(logs), n);
  }

  function InGroup(groupId: GroupId): AuditLog -> bool
  {
    (e: AuditLog) => e.groupId == Some(groupId)
  }

  function ByUser(userId: UserId): AuditLog -> bool
  {
    (e: AuditLog) => e.userId == userId
  }

  function Everything(): AuditLog -> bool
  {
    (e: AuditLog) => true
  }

  /** The `limit = …` default of the handlers' argument destructuring. */
  function LimitOr(limit: Option<nat>, default: nat): (n: nat)
    ensures limit.Some? ==> n == limit.value
    ensures limit.None? ==> n == default
  {
    if limit.Some? then limit.value else default
  }

  /** `.order("desc").take(n)` over the entries satisfying `p`: at most `n` of them, newest
      first. */
  function Page(logs: seq<AuditLog>, p: AuditLog -> bool, n: nat): (r: seq<AuditLog>)
    ensures |r| == if n < |Filter(logs, p)| then n else |Filter(logs, p)|
    ensures SortedDesc(r, Timestamp)
    ensures r <= Newest(Filter(logs, p))
  {
    Take(Newest(Filter(logs, p)), n)
  }

  /** A page holds only entries of the trail that satisfy `p`, and all of them when the
      limit is large enough. */
  lemma PageMeaning(logs: seq<AuditLog>, p: AuditLog -> bool, n: nat)
    ensures forall e :: e in Page(logs, p, n) ==> e in logs && p(e)
    ensures n >= |Filter(logs, p)| ==> multiset(Page(logs, p, n)) == multiset(Filter(logs, p))
  {
    var sel := Filter(logs, p);
    FilterMeaning(logs, p);
    var s := Newest(sel);
    var r := Page(logs, p, n);
    forall e | e in r ensures e in logs && p(e) {
      assert e in multiset(s);
    }
  }

  /** `.order("desc").take(n)` over `by_user`, taken to be an index on `userId` alone. Convex orders equal index
      keys by creation time, so this is at most `n` of the entries satisfying `p`, the most
      recently inserted first. */
  function RecentPage(logs: seq<AuditLog>, p: AuditLog -> bool, n: nat): (r: seq<AuditLog>)
    ensures |r| == if n < |Filter(logs, p)| then n else |Filter(logs, p)|
    ensures forall k :: 0 <= k < |r| ==> r[k] == Filter(logs, p)[|Filter(logs, p)| - 1 - k]
  {
    Take(Reverse(Filter(logs, p)), n)
  }

  /** A recent page holds only entries of the trail that satisfy `p`, and all of them when
      the limit is large enough. */
  lemma RecentPageMeaning(logs: seq<AuditLog>, p: AuditLog -> bool, n: nat)
    ensures forall e :: e in RecentPage(logs, p, n) ==> e in logs && p(e)
    ensures n >= |Filter(logs, p)| ==> multiset(RecentPage(logs, p, n)) == multiset(Filter(logs, p))
  {
    var sel := Filter(logs, p);
    FilterMeaning(logs, p);
    ReversePermutes(sel);
    var r := RecentPage(logs, p, n);
    forall e | e in r ensures e in logs && p(e) {
      assert e in multiset(Reverse(sel));
    }
  }

  /** The trail was written in `timestamp` order. */
  ghost predicate TimeOrdered(logs: seq<AuditLog>)
  {
    forall i, j :: 0 <= i < j < |logs| ==> logs[i].timestamp <= logs[j].timestamp
  }

  lemma {:induction false} FilterTimeOrdered(logs: seq<AuditLog>, p: AuditLog -> bool)
    requires TimeOrdered(logs)
    ensures TimeOrdered(Filter(logs, p))
  {
    if logs != [] {
      var init := logs[..|logs| - 1];
      var last := logs[|logs| - 1];
      assert TimeOrdered(init);
      FilterTimeOrdered(init, p);
      FilterMeaning(init, p);
      var front := Filter(init, p);
      forall k | 0 <= k < |front| ensures front[k].timestamp <= last.timestamp {
        assert front[k] in init;
        var i :| 0 <= i < |init| && init[i] == front[k];
        assert logs[i] == init[i];
      }
    }
  }

  /** When the trail was written in `timestamp` order, most recently inserted first is
      newest first: listByUser's order agrees with the timestamp-index order. */
  lemma RecentPageIsPage(logs: seq<AuditLog>, p: AuditLog -> bool, n: nat)
    requires TimeOrdered(logs)
    ensures RecentPage(logs, p, n) == Page(logs, p, n)
  {
    var sel := Filter(logs, p);
    FilterTimeOrdered(logs, p);
    var rev := Reverse(sel);
    assert SortedDesc(rev, Timestamp) by {
      forall i, j | 0 <= i < j < |rev| ensures Timestamp(rev[i]) >= Timestamp(rev[j]) {
        assert rev[i] == sel[|sel| - 1 - i] && rev[j] == sel[|sel| - 1 - j];
      }
    }
    SortDescSorted(rev, Timestamp);
  }

  // ---------------------------------------------------------------------------
  // The queries

  /** listAll: the newest `limit` entries (default 100) of the whole trail, for a caller who
      owns some group; `[]` without an identity, a user, or an ownership. */
  function ListAll(users: seq<User>, members: seq<GroupMember>, logs: seq<AuditLog>,
                   identity: Option<Identity>, limit: Option<nat>): (r: Result<seq<AuditLog>>)
    ensures r.Err? <==> UniqueCaller(users, identity).Err?
    ensures r.Err? ==> r.error == NotUnique
    ensures r.Ok? && (Caller(users, identity).None?
                      || !Permissions.IsUserOwnerAnywhere(members, Caller(users, identity).value.id)) ==>
      r.value == []
    ensures r.Ok? && Caller(users, identity).Some?
            && Permissions.IsUserOwnerAnywhere(members, Caller(users, identity).value.id) ==>
      r.value == Page(logs, Everything(), LimitOr(limit, 100))
  {
    match UniqueCaller(users, identity)
    case Err(e) => Err(e)
    case Ok(None) => Ok([])
    case Ok(Some(me)) =>
      if !Permissions.IsUserOwnerAnywhere(members, me.id) then Ok([])
      else Ok(Page(logs, Everything(), LimitOr(limit, 100)))
  }

  /** Everything() selects the whole trail, so listAll pages over every entry. */
  lemma {:induction false} FilterEverything(logs: seq<AuditLog>)
    ensures Filter(logs, Everything()) == logs
  {
    if logs != [] {
      FilterEverything(logs[..|logs| - 1]);
      assert logs == logs[..|logs| - 1] + [logs[|logs| - 1]];
    }
  }

  /** listByGroup: the newest `limit` entries (default 100) of the group, for a caller
      whose membership of it has role owner; `[]` for anyone else. */
  function ListByGroup(users: seq<User>, members: seq<GroupMember>, logs: seq<AuditLog>,
                       identity: Option<Identity>, groupId: GroupId, limit: Option<nat>)
    : (r: Result<seq<AuditLog>>)
    ensures r.Err? ==> r.error == NotUnique
    ensures r.Ok? && r.value != [] ==>
      && Caller(users, identity).Some?
      && Permissions.GetUserRoleInGroup(members, Caller(users, identity).value.id, groupId) == Some(Owner)
    ensures r.Ok? && Caller(users, identity).Some?
            && Permissions.GetUserRoleInGroup(members, Caller(users, identity).value.id, groupId) == Some(Owner) ==>
      r.value == Page(logs, InGroup(groupId), LimitOr(limit, 100))
    ensures r.Ok? ==> forall e :: e in r.value ==> e in logs && e.groupId == Some(groupId)
  {
    match UniqueCaller(users, identity)
    case Err(e) => Err(e)
    case Ok(None) => Ok([])
    case Ok(Some(me)) =>
      match UniqueMembership(members, groupId, me.id)
      case Err(e) => Err(e)
      case Ok(None) => Ok([])
      case Ok(Some(m)) =>
        MembershipRole(members, groupId, me.id, m);
        if m.role != Owner then Ok([])
        else
          PageMeaning(logs, InGroup(groupId), LimitOr(limit, 100));
          Ok(Page(logs, InGroup(groupId), LimitOr(limit, 100)))
  }

  /** Under the store's invariants listByGroup never throws. */
  lemma ListByGroupNeverThrows(users: seq<User>, members: seq<GroupMember>, logs: seq<AuditLog>,
                               identity: Option<Identity>, groupId: GroupId, limit: Option<nat>)
    requires UniqueClerkIds(users) && UniqueMemberships(members)
    ensures ListByGroup(users, members, logs, identity, groupId, limit).Ok?
  {
    UniqueCallerNeverThrows(users, identity);
    if Caller(users, identity).Some? {
      UniqueMembershipNeverThrows(members, groupId, Caller(users, identity).value.id);
    }
  }

  /** The membership `.unique()` finds carries the role the permission helpers report. */
  lemma MembershipRole(members: seq<GroupMember>, groupId: GroupId, userId: UserId, m: GroupMember)
    requires UniqueMembership(members, groupId, userId) == Ok(Some(m))
    ensures Permissions.GetUserRoleInGroup(members, userId, groupId) == Some(m.role)
  {
    var i := Permissions.MembershipIndex(members, groupId, userId).value;
    assert m == members[i];
  }

  /** listByUser: the `limit` entries (default 50) of `userId` most recently inserted, for a
      caller who owns some group or is that user; `[]` for anyone else. */
  function ListByUser(users: seq<User>, members: seq<GroupMember>, logs: seq<AuditLog>,
                      identity: Option<Identity>, userId: UserId, limit: Option<nat>)
    : (r: Result<seq<AuditLog>>)
    ensures r.Err? <==> UniqueCaller(users, identity).Err?
    ensures r.Err? ==> r.error == NotUnique
    ensures r.Ok? && r.value != [] ==>
      && Caller(users, identity).Some?
      && (Permissions.IsUserOwnerAnywhere(members, Caller(users, identity).value.id)
          || Caller(users, identity).value.id == userId)
    ensures r.Ok? && Caller(users, identity).Some?
            && (Permissions.IsUserOwnerAnywhere(members, Caller(users, identity).value.id)
                || Caller(users, identity).value.id == userId) ==>
      r.value == RecentPage(logs, ByUser(userId), LimitOr(limit, 50))
    ensures r.Ok? ==> forall e :: e in r.value ==> e in logs && e.userId == userId
  {
    match UniqueCaller(users, identity)
    case Err(e) => Err(e)
    case Ok(None) => Ok([])
    case Ok(Some(me)) =>
      if !Permissions.IsUserOwnerAnywhere(members, me.id) && me.id != userId then Ok([])
      else
        RecentPageMeaning(logs, ByUser(userId), LimitOr(limit, 50));
        Ok(RecentPage(logs, ByUser(userId), LimitOr(limit, 50)))
  }
}
