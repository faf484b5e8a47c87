/**
 * The authorization guard of convex/files.ts: `hasAccessToOrg`,
 * `hasAccessToFile` and the admin check of `deleteFile` / `restoreFile`.
 */
module Access {
  import opened Wrappers
  import opened Strings
  import opened Schema

  /** What the identity provider says about the caller: its token identifier, or None when signed out. */
  type Identity = Option<string>

  /** The `ConvexError`s the handlers throw. */
  datatype Error =
    | NoOrgAccess    // "You do not have access to this org!"
    | NoAdminAccess  // "You do not have admin access to this org!"
    | NoFileAccess   // "no access to file"

  /** Row `k` is the first row of `users` carrying `token`. */
  ghost predicate FirstWithToken(users: seq<UserRecord>, token: string, k: int)
  {
    && 0 <= k < |users|
    && users[k].tokenIdentifier == token
    && forall j :: 0 <= j < k ==> users[j].tokenIdentifier != token
  }

  /**
   * The `by_tokenIdentifier` index lookup with `.first()`: the first user row
   * carrying the token, or None when no row does.
   */
  function FindUser(users: seq<UserRecord>, token: string): (r: Option<UserRecord>)
    ensures r.Some? ==> r.value in users && r.value.tokenIdentifier == token
    ensures r.None? <==> forall i :: 0 <= i < |users| ==> users[i].tokenIdentifier != token
    ensures r.Some? ==> exists k :: FirstWithToken(users, token, k) && users[k] == r.value
    decreases |users|
  {
    if users == [] then None
    else if users[0].tokenIdentifier == token then
      assert FirstWithToken(users, token, 0);
      Some(users[0])
    else
      var r := FindUser(users[1..], token);
      assert r.Some? ==> exists k :: FirstWithToken(users, token, k) && users[k] == r.value by {
        if r.Some? {
          var k :| FirstWithToken(users[1..], token, k) && users[1..][k] == r.value;
          assert FirstWithToken(users, token, k + 1);
        }
      }
      r
  }

  /** The user table holds one row per token identifier (an application convention, not a constraint). */
  ghost predicate TokensUnique(users: seq<UserRecord>)
  {
    forall i, j :: 0 <= i < j < |users| ==> users[i].tokenIdentifier != users[j].tokenIdentifier
  }

  /** With one row per token, the lookup finds exactly the row with that token. */
  lemma {:induction false} FindUserUnique(users: seq<UserRecord>, k: nat)
    requires TokensUnique(users) && k < |users|
    ensures FindUser(users, users[k].tokenIdentifier) == Some(users[k])
    decreases |users|
  {
    if k > 0 {
      assert users[0].tokenIdentifier != users[k].tokenIdentifier;
      assert TokensUnique(users[1..]);
      assert users[1..][k - 1] == users[k];
      FindUserUnique(users[1..], k - 1);
    }
  }

  /**
   * The `hasAccess` test: some membership's `orgId` includes the requested id,
   * or the token identifier does. Both are substring tests, not equalities.
   */
  function GrantsOrg(user: UserRecord, orgId: string): (b: bool)
    ensures b <==> (exists m :: m in user.orgIds && IsSubstring(orgId, m.orgId))
                   || IsSubstring(orgId, user.tokenIdentifier)
  {
    (exists m :: m in user.orgIds && Includes(m.orgId, orgId))
    || Includes(user.tokenIdentifier, orgId)
  }

  /**
   * `hasAccessToOrg`: None when signed out, when no user row has the token, or
   * when the user's memberships and token do not contain `orgId`; otherwise the user.
   */
  function HasAccessToOrg(users: seq<UserRecord>, identity: Identity, orgId: string): (r: Option<UserRecord>)
    ensures r.Some? <==>
      identity.Some? && FindUser(users, identity.value).Some? &&
      ((exists m :: m in FindUser(users, identity.value).value.orgIds && IsSubstring(orgId, m.orgId))
       || IsSubstring(orgId, FindUser(users, identity.value).value.tokenIdentifier))
    ensures r.Some? ==> r == FindUser(users, identity.value)
  {
    match identity
    case None => None
    case Some(token) =>
      match FindUser(users, token)
      case None => None
      case Some(user) => if GrantsOrg(user, orgId) then Some(user) else None
  }

  /** `memberships.some((org) => org.orgId === orgId && org.role === "admin")`, scanned from the front. */
  function SomeAdmin(memberships: seq<OrgMembership>, orgId: string): (b: bool)
    ensures b <==> exists m :: m in memberships && m.orgId == orgId && m.role == Admin
    decreases |memberships|
  {
    if memberships == [] then false
    else
      assert forall m :: m in memberships <==> m == memberships[0] || m in memberships[1..];
      (memberships[0].orgId == orgId && memberships[0].role == Admin) || SomeAdmin(memberships[1..], orgId)
  }

  /** The admin test of `deleteFile` / `restoreFile`: a membership whose `orgId` EQUALS the org, with role admin. */
  function IsAdmin(user: UserRecord, orgId: string): (b: bool)
    ensures b <==> exists m :: m in user.orgIds && m.orgId == orgId && m.role == Admin
  {
    SomeAdmin(user.orgIds, orgId)
  }

  /** `ctx.db.get(id)` on the files table. */
  function GetFile(files: seq<FileRecord>, id: DocId): (r: Option<FileRecord>)
    ensures r.Some? ==> r.value in files && r.value.id == id
    ensures r.None? <==> forall i :: 0 <= i < |files| ==> files[i].id != id
    decreases |files|
  {
    if files == [] then None
    else if files[0].id == id then Some(files[0])
    else GetFile(files[1..], id)
  }

  /** What `hasAccessToFile` returns on success. */
  datatype FileAccess = FileAccess(user: UserRecord, file: FileRecord)

  /** `hasAccessToFile`: the file must exist and the caller must have access to its org. */
  function HasAccessToFile(files: seq<FileRecord>, users: seq<UserRecord>, identity: Identity, id: DocId): (r: Option<FileAccess>)
    ensures r.Some? <==> GetFile(files, id).Some? && HasAccessToOrg(users, identity, GetFile(files, id).value.orgId).Some?
    ensures r.Some? ==>
      r.value.file in files && r.value.file.id == id &&
      identity.Some? && r.value.user in users && r.value.user.tokenIdentifier == identity.value &&
      GrantsOrg(r.value.user, r.value.file.orgId)
    ensures r.Some? ==>
      Some(r.value.file) == GetFile(files, id) &&
      Some(r.value.user) == HasAccessToOrg(users, identity, r.value.file.orgId)
  {
    match GetFile(files, id)
    case None => None
    case Some(file) =>
      match HasAccessToOrg(users, identity, file.orgId)
      case None => None
      case Some(user) => Some(FileAccess(user, file))
  }

  /** Success of the admin-guarded mutations, or the error they throw. */
  datatype AdminCheck = Allowed(access: FileAccess) | Denied(error: Error)

  /**
   * The guard shared by `deleteFile` and `restoreFile`: file access first
   * (a missing file and a foreign org both give NoOrgAccess), then the admin test.
   */
  function CheckAdmin(files: seq<FileRecord>, users: seq<UserRecord>, identity: Identity, id: DocId): (r: AdminCheck)
    ensures r.Allowed? <==>
      HasAccessToFile(files, users, identity, id).Some? &&
      IsAdmin(HasAccessToFile(files, users, identity, id).value.user, HasAccessToFile(files, users, identity, id).value.file.orgId)
    ensures r.Allowed? ==> Some(r.access) == HasAccessToFile(files, users, identity, id)
    ensures r == Denied(NoOrgAccess) <==> HasAccessToFile(files, users, identity, id).None?
    ensures r.Denied? ==> r.error == NoOrgAccess || r.error == NoAdminAccess
  {
    match HasAccessToFile(files, users, identity, id)
    case None => Denied(NoOrgAccess)
    case Some(access) =>
      if IsAdmin(access.user, access.file.orgId) then Allowed(access) else Denied(NoAdminAccess)
  }

  /** The admin test is strictly stronger than the access test: an exact admin membership is also a substring match. */
  lemma AdminImpliesOrgAccess(user: UserRecord, orgId: string)
    requires IsAdmin(user, orgId)
    ensures GrantsOrg(user, orgId)
  {
    var m :| m in user.orgIds && m.orgId == orgId && m.role == Admin;
    IncludesTrivial(m.orgId);
  }

  /** Because `includes` accepts the empty string, every registered caller has access to org "". */
  lemma EmptyOrgIdGrantedToEveryUser(users: seq<UserRecord>, token: string)
    requires FindUser(users, token).Some?
    ensures HasAccessToOrg(users, Some(token), "").Some?
  {
    IncludesTrivial(FindUser(users, token).value.tokenIdentifier);
  }

  /**
   * A caller whose memberships contain the org id only as a proper part of a
   * longer id, never exactly, passes the access test and fails the admin test,
   * whatever role those memberships carry.
   */
  lemma SubstringMemberIsNotAdmin(user: UserRecord, orgId: string, k: nat)
    requires k < |user.orgIds| && IsSubstring(orgId, user.orgIds[k].orgId)
    requires forall m :: m in user.orgIds ==> m.orgId != orgId
    ensures GrantsOrg(user, orgId) && !IsAdmin(user, orgId)
  {
    assert user.orgIds[k] in user.orgIds;
    assert Includes(user.orgIds[k].orgId, orgId);
  }

  /** An example: an admin of "org_12" reaches the files of "org_1" but may not mark or restore them. */
  lemma SubstringAccessExample()
    ensures var user := UserRecord(0, "token|user_7", [OrgMembership("org_12", Admin)], None, None);
            var file := FileRecord(1, "report", Pdf, "blob_1", "org_1", 2, None, false);
            HasAccessToFile([file], [user], Some("token|user_7"), 1) == Some(FileAccess(user, file)) &&
            CheckAdmin([file], [user], Some("token|user_7"), 1) == Denied(NoAdminAccess)
  {
    var user := UserRecord(0, "token|user_7", [OrgMembership("org_12", Admin)], None, None);
    assert OccursAt("org_12", "org_1", 0);
    SubstringMemberIsNotAdmin(user, "org_1", 0);
  }
}
