/**
 * The file registry of convex/files.ts: the listing queries (`getFiles`,
 * `getAllFavorites`), the mutations (`createFile`, `deleteFile`,
 * `restoreFile`, `toggleFavorite`) and the soft-delete sweep
 * (`deleteAllFiles`), over a store of `files`, `favorites` and `users` rows
 * and a set of live storage blobs.
 */
module Files {
  import opened Wrappers
  import opened Seqs
  import opened Strings
  import opened Schema
  import opened Access

  /** A mutation either returns or throws one of the guard's errors. */
  datatype Outcome = Ok | Err(error: Error)

  /** JavaScript truthiness of an optional boolean argument. */
  predicate IsSet(flag: Option<bool>)
  {
    flag == Some(true)
  }

  // ---------------------------------------------------------------- listing

  /** `favorites.some((favorite) => favorite.fileId === fileId)`. */
  function IsFavorited(favs: seq<Favorite>, fileId: string): (b: bool)
    ensures b <==> exists fav :: fav in favs && fav.fileId == fileId
    decreases |favs|
  {
    if favs == [] then false
    else
      assert forall fav :: fav in favs <==> fav == favs[0] || fav in favs[1..];
      favs[0].fileId == fileId || IsFavorited(favs[1..], fileId)
  }

  function InOrg(orgId: string): FileRecord -> bool
  {
    (f: FileRecord) => f.orgId == orgId
  }

  function OfType(t: FileType): FileRecord -> bool
  {
    (f: FileRecord) => f.fileType == t
  }

  predicate Flagged(f: FileRecord)
  {
    f.shouldDelete
  }

  predicate Live(f: FileRecord)
  {
    !f.shouldDelete
  }

  function LiveFavorite(favs: seq<Favorite>): FileRecord -> bool
  {
    (f: FileRecord) => IsFavorited(favs, f.fileId) && !f.shouldDelete
  }

  function OfUserInOrg(userId: DocId, orgId: string): Favorite -> bool
  {
    (fav: Favorite) => fav.userId == userId && fav.orgId == orgId
  }

  /** The `by_userId_orgId_fileId` index with equalities on `userId` and `orgId`. */
  function UserOrgFavorites(favorites: seq<Favorite>, userId: DocId, orgId: string): (r: seq<Favorite>)
    ensures forall fav :: fav in r <==> fav in favorites && fav.userId == userId && fav.orgId == orgId
  {
    var r := Filter(favorites, OfUserInOrg(userId, orgId));
    assert forall fav :: fav in r <==> fav in favorites && OfUserInOrg(userId, orgId)(fav) by {
      forall fav { FilterMembership(favorites, OfUserInOrg(userId, orgId), fav); }
    }
    r
  }

  /**
   * Which rows `getFiles` lists, stated at once: the org's rows of the
   * requested type; with `deletedOnly` exactly the flagged ones (whatever
   * `favoritesOnly` says); otherwise the unflagged ones, and with
   * `favoritesOnly` only those whose blob the caller favorited in that org.
   */
  predicate Listed(f: FileRecord, orgId: string, fileType: Option<FileType>,
                   favoritesOnly: Option<bool>, deletedOnly: Option<bool>, favs: seq<Favorite>)
  {
    && f.orgId == orgId
    && (fileType.Some? ==> f.fileType == fileType.value)
    && if IsSet(deletedOnly) then f.shouldDelete
       else !f.shouldDelete && (IsSet(favoritesOnly) ==> IsFavorited(favs, f.fileId))
  }

  function ListedBy(orgId: string, fileType: Option<FileType>, favoritesOnly: Option<bool>,
                    deletedOnly: Option<bool>, favs: seq<Favorite>): FileRecord -> bool
  {
    (f: FileRecord) => Listed(f, orgId, fileType, favoritesOnly, deletedOnly, favs)
  }

  /** `getFiles`: the filters applied one after the other, in the handler's order. */
  function GetFiles(files: seq<FileRecord>, favorites: seq<Favorite>, users: seq<UserRecord>,
                    identity: Identity, orgId: string, fileType: Option<FileType>,
                    favoritesOnly: Option<bool>, deletedOnly: Option<bool>): (r: seq<FileRecord>)
    ensures HasAccessToOrg(users, identity, orgId).None? ==> r == []
    ensures |r| <= |files|
    ensures HasAccessToOrg(users, identity, orgId).Some? ==>
      forall i :: 0 <= i < |r| ==>
        (r[i] in files &&
         Listed(r[i], orgId, fileType, favoritesOnly, deletedOnly,
                UserOrgFavorites(favorites, HasAccessToOrg(users, identity, orgId).value.id, orgId)))
  {
    match HasAccessToOrg(users, identity, orgId)
    case None => []
    case Some(user) =>
      var byOrg := Filter(files, InOrg(orgId));
      var typed := if fileType.Some? then Filter(byOrg, OfType(fileType.value)) else byOrg;
      assert forall f :: f in typed ==> f in files && f.orgId == orgId &&
                                        (fileType.Some? ==> f.fileType == fileType.value);
      if IsSet(deletedOnly) then Filter(typed, Flagged)
      else if !IsSet(favoritesOnly) then Filter(typed, Live)
      else Filter(typed, LiveFavorite(UserOrgFavorites(favorites, user.id, orgId)))
  }

  /**
   * Without access the listing is empty; with access it is the order-preserving
   * selection of `files` by `Listed`, for the caller's favorites in that org.
   */
  lemma GetFilesSelects(files: seq<FileRecord>, favorites: seq<Favorite>, users: seq<UserRecord>,
                        identity: Identity, orgId: string, fileType: Option<FileType>,
                        favoritesOnly: Option<bool>, deletedOnly: Option<bool>)
    ensures HasAccessToOrg(users, identity, orgId).None? ==>
      GetFiles(files, favorites, users, identity, orgId, fileType, favoritesOnly, deletedOnly) == []
    ensures HasAccessToOrg(users, identity, orgId).Some? ==>
      GetFiles(files, favorites, users, identity, orgId, fileType, favoritesOnly, deletedOnly) ==
      Filter(files, ListedBy(orgId, fileType, favoritesOnly, deletedOnly,
                             UserOrgFavorites(favorites, HasAccessToOrg(users, identity, orgId).value.id, orgId)))
  {
    match HasAccessToOrg(users, identity, orgId)
    case None =>
    case Some(user) =>
      var favs := UserOrgFavorites(favorites, user.id, orgId);
      var listed := ListedBy(orgId, fileType, favoritesOnly, deletedOnly, favs);
      var flag: FileRecord -> bool :=
        if IsSet(deletedOnly) then Flagged else if !IsSet(favoritesOnly) then Live else LiveFavorite(favs);
      if fileType.Some? {
        var orgType := (f: FileRecord) => f.orgId == orgId && f.fileType == fileType.value;
        FilterFilter(files, InOrg(orgId), OfType(fileType.value), orgType);
        FilterFilter(files, orgType, flag, listed);
      } else {
        FilterFilter(files, InOrg(orgId), flag, listed);
      }
  }

  /** Membership in the listing, both directions. */
  lemma GetFilesMembership(files: seq<FileRecord>, favorites: seq<Favorite>, users: seq<UserRecord>,
                           identity: Identity, orgId: string, fileType: Option<FileType>,
                           favoritesOnly: Option<bool>, deletedOnly: Option<bool>, f: FileRecord)
    ensures f in GetFiles(files, favorites, users, identity, orgId, fileType, favoritesOnly, deletedOnly) <==>
      HasAccessToOrg(users, identity, orgId).Some? && f in files &&
      Listed(f, orgId, fileType, favoritesOnly, deletedOnly,
             UserOrgFavorites(favorites, HasAccessToOrg(users, identity, orgId).value.id, orgId))
  {
    GetFilesSelects(files, favorites, users, identity, orgId, fileType, favoritesOnly, deletedOnly);
    if HasAccessToOrg(users, identity, orgId).Some? {
      var favs := UserOrgFavorites(favorites, HasAccessToOrg(users, identity, orgId).value.id, orgId);
      FilterMembership(files, ListedBy(orgId, fileType, favoritesOnly, deletedOnly, favs), f);
    }
  }

  /** The listing is a subsequence of the table, in table order, of the org's rows of the requested type. */
  lemma GetFilesIsOrderedSelection(files: seq<FileRecord>, favorites: seq<Favorite>, users: seq<UserRecord>,
                                   identity: Identity, orgId: string, fileType: Option<FileType>,
                                   favoritesOnly: Option<bool>, deletedOnly: Option<bool>)
    ensures var r := GetFiles(files, favorites, users, identity, orgId, fileType, favoritesOnly, deletedOnly);
      IsSubsequence(r, files) &&
      forall i :: 0 <= i < |r| ==> r[i].orgId == orgId && (fileType.Some? ==> r[i].fileType == fileType.value)
  {
    GetFilesSelects(files, favorites, users, identity, orgId, fileType, favoritesOnly, deletedOnly);
    if HasAccessToOrg(users, identity, orgId).Some? {
      var favs := UserOrgFavorites(favorites, HasAccessToOrg(users, identity, orgId).value.id, orgId);
      FilterIsSubsequence(files, ListedBy(orgId, fileType, favoritesOnly, deletedOnly, favs));
    }
  }

  /** With `deletedOnly` set, `favoritesOnly` has no effect on the listing. */
  lemma DeletedOnlyIgnoresFavoritesOnly(files: seq<FileRecord>, favorites: seq<Favorite>, users: seq<UserRecord>,
                                        identity: Identity, orgId: string, fileType: Option<FileType>,
                                        favoritesOnly: Option<bool>)
    ensures GetFiles(files, favorites, users, identity, orgId, fileType, favoritesOnly, Some(true)) ==
            GetFiles(files, favorites, users, identity, orgId, fileType, None, Some(true))
  {
  }

  /** `getAllFavorites`: empty without access, otherwise exactly the caller's favorites in that org. */
  function GetAllFavorites(favorites: seq<Favorite>, users: seq<UserRecord>, identity: Identity, orgId: string): (r: seq<Favorite>)
    ensures HasAccessToOrg(users, identity, orgId).None? ==> r == []
    ensures HasAccessToOrg(users, identity, orgId).Some? ==>
      forall fav :: fav in r <==>
        fav in favorites && fav.userId == HasAccessToOrg(users, identity, orgId).value.id && fav.orgId == orgId
  {
    match HasAccessToOrg(users, identity, orgId)
    case None => []
    case Some(user) => UserOrgFavorites(favorites, user.id, orgId)
  }

  /** A new unflagged row of the org is in the default listing and in the listing of its type, and not among the deleted. */
  lemma CreatedFileIsListed(files: seq<FileRecord>, favorites: seq<Favorite>, users: seq<UserRecord>,
                            identity: Identity, rec: FileRecord)
    requires HasAccessToOrg(users, identity, rec.orgId).Some? && !rec.shouldDelete
    ensures rec in GetFiles(files + [rec], favorites, users, identity, rec.orgId, None, None, None)
    ensures rec in GetFiles(files + [rec], favorites, users, identity, rec.orgId, Some(rec.fileType), None, None)
    ensures rec !in GetFiles(files + [rec], favorites, users, identity, rec.orgId, None, None, Some(true))
  {
    var all := files + [rec];
    assert rec in all;
    GetFilesMembership(all, favorites, users, identity, rec.orgId, None, None, None, rec);
    GetFilesMembership(all, favorites, users, identity, rec.orgId, Some(rec.fileType), None, None, rec);
    GetFilesMembership(all, favorites, users, identity, rec.orgId, None, None, Some(true), rec);
  }

  // -------------------------------------------------------- soft delete

  /** `ctx.db.patch(id, { shouldDelete: flag })` on the files table. */
  function Patched(files: seq<FileRecord>, id: DocId, flag: bool): (r: seq<FileRecord>)
    ensures |r| == |files|
    ensures forall i :: 0 <= i < |r| ==> r[i].(shouldDelete := files[i].shouldDelete) == files[i]
    ensures forall i :: 0 <= i < |r| ==> r[i].shouldDelete == (if files[i].id == id then flag else files[i].shouldDelete)
  {
    seq(|files|, i requires 0 <= i < |files| =>
      if files[i].id == id then files[i].(shouldDelete := flag) else files[i])
  }

  /** After the patch, the row with that id differs from before in its flag only, and every other lookup is unchanged. */
  lemma {:induction false} PatchedLookup(files: seq<FileRecord>, id: DocId, flag: bool, other: DocId)
    ensures GetFile(files, id).Some? ==>
      GetFile(Patched(files, id, flag), id) == Some(GetFile(files, id).value.(shouldDelete := flag))
    ensures GetFile(files, id).None? ==> GetFile(Patched(files, id, flag), id).None?
    ensures other != id ==> GetFile(Patched(files, id, flag), other) == GetFile(files, other)
    decreases |files|
  {
    if files != [] {
      assert Patched(files, id, flag)[1..] == Patched(files[1..], id, flag);
      PatchedLookup(files[1..], id, flag, other);
    }
  }

  /** The file rows have distinct ids, all below `bound`. */
  ghost predicate FileIdsValid(files: seq<FileRecord>, bound: nat)
  {
    && (forall i :: 0 <= i < |files| ==> files[i].id < bound)
    && (forall i, j :: 0 <= i < j < |files| ==> files[i].id != files[j].id)
  }

  /** Marking an unflagged file and then restoring it gives back exactly the table it started from. */
  lemma MarkThenRestore(files: seq<FileRecord>, bound: nat, id: DocId)
    requires FileIdsValid(files, bound)
    requires GetFile(files, id).Some? && !GetFile(files, id).value.shouldDelete
    ensures Patched(Patched(files, id, true), id, false) == files
  {
    var f := GetFile(files, id).value;
    var k :| 0 <= k < |files| && files[k] == f;
    forall i | 0 <= i < |files|
      ensures Patched(Patched(files, id, true), id, false)[i] == files[i]
    {
      if files[i].id == id {
        assert i == k;
      }
    }
  }

  /** Restoring a file that is not flagged changes nothing. */
  lemma RestoreUnflaggedIsNoOp(files: seq<FileRecord>, bound: nat, id: DocId)
    requires FileIdsValid(files, bound)
    requires GetFile(files, id).Some? ==> !GetFile(files, id).value.shouldDelete
    ensures Patched(files, id, false) == files
  {
    forall i | 0 <= i < |files|
      ensures Patched(files, id, false)[i] == files[i]
    {
      if files[i].id == id {
        var f := GetFile(files, id).value;
        var k :| 0 <= k < |files| && files[k] == f;
        assert i == k;
      }
    }
  }

  /** Patching the flag does not change who passes the admin guard on that file: whoever marked it can restore it. */
  lemma CheckAdminIgnoresFlag(files: seq<FileRecord>, users: seq<UserRecord>, identity: Identity, id: DocId, flag: bool)
    ensures CheckAdmin(Patched(files, id, flag), users, identity, id).Allowed? ==
            CheckAdmin(files, users, identity, id).Allowed?
    ensures CheckAdmin(Patched(files, id, flag), users, identity, id).Denied? ==>
            CheckAdmin(Patched(files, id, flag), users, identity, id) == CheckAdmin(files, users, identity, id)
  {
    PatchedLookup(files, id, flag, id);
  }

  // -------------------------------------------------------------- sweep

  /** The blobs of the flagged rows. */
  function FlaggedBlobs(files: seq<FileRecord>): (b: set<StorageId>)
    ensures forall f :: f in files && f.shouldDelete ==> f.fileId in b
  {
    set f | f in files && f.shouldDelete :: f.fileId
  }

  function IdsOf(files: seq<FileRecord>): set<DocId>
  {
    set f | f in files :: f.id
  }

  function NotAmong(ids: set<DocId>): FileRecord -> bool
  {
    (f: FileRecord) => f.id !in ids
  }

  function RowId(f: FileRecord): DocId
  {
    f.id
  }

  /** With distinct ids, a row's id is among the flagged rows' ids exactly when the row itself is flagged. */
  lemma FlaggedIdsAreFlaggedRows(files: seq<FileRecord>, bound: nat)
    requires FileIdsValid(files, bound)
    ensures forall f :: f in files ==> (f.id in IdsOf(Filter(files, Flagged)) <==> f.shouldDelete)
  {
    var marked := Filter(files, Flagged);
    forall f | f in files
      ensures f.id in IdsOf(marked) <==> f.shouldDelete
    {
      FilterMembership(files, Flagged, f);
      if f.id in IdsOf(marked) {
        var g :| g in marked && g.id == f.id;
        FilterMembership(files, Flagged, g);
        var i :| 0 <= i < |files| && files[i] == f;
        var j :| 0 <= j < |files| && files[j] == g;
        assert i == j;
      }
    }
  }

  /** The sweep's effect on the table: exactly the unflagged rows remain, in order. */
  lemma SweepKeepsExactlyLiveRows(files: seq<FileRecord>)
    ensures forall f :: f in Filter(files, Live) <==> f in files && !f.shouldDelete
    ensures IsSubsequence(Filter(files, Live), files)
  {
    forall f { FilterMembership(files, Live, f); }
    FilterIsSubsequence(files, Live);
  }

  /** A second sweep finds nothing flagged, so it changes neither the table nor the storage. */
  lemma SweepIsIdempotent(files: seq<FileRecord>, blobs: set<StorageId>)
    ensures Filter(Filter(files, Live), Live) == Filter(files, Live)
    ensures FlaggedBlobs(Filter(files, Live)) == {}
    ensures (blobs - FlaggedBlobs(files)) - FlaggedBlobs(Filter(files, Live)) == blobs - FlaggedBlobs(files)
  {
    var swept := Filter(files, Live);
    FilterKeepsAll(swept, Live);
    forall f | f in swept ensures !f.shouldDelete { FilterMembership(files, Live, f); }
  }

  /** A file the sweep purged is in no later listing, under any arguments, and its blob is gone. */
  lemma SweptFileIsNeverListed(files: seq<FileRecord>, bound: nat, blobs: set<StorageId>, f: FileRecord,
                               favorites: seq<Favorite>, users: seq<UserRecord>, identity: Identity,
                               orgId: string, fileType: Option<FileType>,
                               favoritesOnly: Option<bool>, deletedOnly: Option<bool>)
    requires FileIdsValid(files, bound) && f in files && f.shouldDelete
    ensures forall g :: g in GetFiles(Filter(files, Live), favorites, users, identity, orgId, fileType, favoritesOnly, deletedOnly)
                        ==> g.id != f.id
    ensures f.fileId !in blobs - FlaggedBlobs(files)
  {
    var swept := Filter(files, Live);
    forall g | g in GetFiles(swept, favorites, users, identity, orgId, fileType, favoritesOnly, deletedOnly)
      ensures g.id != f.id
    {
      GetFilesMembership(swept, favorites, users, identity, orgId, fileType, favoritesOnly, deletedOnly, g);
      FilterMembership(files, Live, g);
      var i :| 0 <= i < |files| && files[i] == f;
      var j :| 0 <= j < |files| && files[j] == g;
    }
  }

  // ---------------------------------------------------------- favorites

  /** Row `k` is the first row of `favs` carrying `key`. */
  ghost predicate FirstWithKey(favs: seq<Favorite>, key: FavoriteKey, k: int)
  {
    && 0 <= k < |favs|
    && KeyOf(favs[k]) == key
    && forall j :: 0 <= j < k ==> KeyOf(favs[j]) != key
  }

  /** The `by_userId_orgId_fileId` index with all three equalities and `.first()`. */
  function FirstFavorite(favs: seq<Favorite>, key: FavoriteKey): (r: Option<Favorite>)
    ensures r.Some? ==> r.value in favs && KeyOf(r.value) == key
    ensures r.None? <==> forall i :: 0 <= i < |favs| ==> KeyOf(favs[i]) != key
    ensures r.Some? ==> exists k :: FirstWithKey(favs, key, k) && favs[k] == r.value
    decreases |favs|
  {
    if favs == [] then None
    else if KeyOf(favs[0]) == key then
      assert FirstWithKey(favs, key, 0);
      Some(favs[0])
    else
      var r := FirstFavorite(favs[1..], key);
      assert r.Some? ==> exists k :: FirstWithKey(favs, key, k) && favs[k] == r.value by {
        if r.Some? {
          var k :| FirstWithKey(favs[1..], key, k) && favs[1..][k] == r.value;
          assert FirstWithKey(favs, key, k + 1);
        }
      }
      r
  }

  /** How many rows carry the key (the index is not unique). */
  function CountKey(favs: seq<Favorite>, key: FavoriteKey): nat
    decreases |favs|
  {
    if favs == [] then 0
    else (if KeyOf(favs[0]) == key then 1 else 0) + CountKey(favs[1..], key)
  }

  predicate HasFavorite(favs: seq<Favorite>, key: FavoriteKey)
  {
    FirstFavorite(favs, key).Some?
  }

  function FavoriteIdIsNot(id: DocId): Favorite -> bool
  {
    (fav: Favorite) => fav.id != id
  }

  function FavoriteId(fav: Favorite): DocId
  {
    fav.id
  }

  /** The favorite rows have distinct ids, all below `bound`. */
  ghost predicate FavoriteIdsValid(favs: seq<Favorite>, bound: nat)
  {
    && (forall i :: 0 <= i < |favs| ==> favs[i].id < bound)
    && (forall i, j :: 0 <= i < j < |favs| ==> favs[i].id != favs[j].id)
  }

  /**
   * `toggleFavorite`'s effect on the favorites table: insert a row for the key
   * when none exists, otherwise `ctx.db.delete` the first matching row's id.
   */
  function ToggledFavorites(favs: seq<Favorite>, key: FavoriteKey, newId: DocId): (r: seq<Favorite>)
    ensures !HasFavorite(favs, key) ==>
      |r| == |favs| + 1 && r[..|favs|] == favs && KeyOf(r[|favs|]) == key && r[|favs|].id == newId
    ensures HasFavorite(favs, key) ==>
      IsSubsequence(r, favs) &&
      forall x :: x in r <==> x in favs && x.id != FirstFavorite(favs, key).value.id
  {
    match FirstFavorite(favs, key)
    case None =>
      var r := favs + [Favorite(newId, key.fileId, key.orgId, key.userId)];
      assert r[..|favs|] == favs;
      r
    case Some(fav) =>
      var r := Filter(favs, FavoriteIdIsNot(fav.id));
      FilterIsSubsequence(favs, FavoriteIdIsNot(fav.id));
      assert forall x :: x in r <==> x in favs && x.id != fav.id by {
        forall x { FilterMembership(favs, FavoriteIdIsNot(fav.id), x); }
      }
      r
  }

  lemma {:induction false} CountKeyPositive(favs: seq<Favorite>, key: FavoriteKey)
    ensures HasFavorite(favs, key) <==> CountKey(favs, key) > 0
    decreases |favs|
  {
    if favs != [] {
      CountKeyPositive(favs[1..], key);
    }
  }

  lemma {:induction false} CountKeyAppend(favs: seq<Favorite>, fav: Favorite, key: FavoriteKey)
    ensures CountKey(favs + [fav], key) == CountKey(favs, key) + (if KeyOf(fav) == key then 1 else 0)
    decreases |favs|
  {
    if favs == [] {
    } else {
      assert (favs + [fav])[1..] == favs[1..] + [fav];
      CountKeyAppend(favs[1..], fav, key);
    }
  }

  lemma FavoriteIdsValidTail(favs: seq<Favorite>, bound: nat)
    requires FavoriteIdsValid(favs, bound) && favs != []
    ensures FavoriteIdsValid(favs[1..], bound)
    ensures forall x :: x in favs[1..] ==> x.id != favs[0].id
  {
    var rest := favs[1..];
    forall i, j | 0 <= i < j < |rest| ensures rest[i].id != rest[j].id {
      assert rest[i] == favs[i + 1] && rest[j] == favs[j + 1];
    }
    forall x | x in rest ensures x.id != favs[0].id {
      var j :| 0 <= j < |rest| && rest[j] == x;
      assert favs[j + 1] == x;
    }
  }

  /** Deleting a row by its (unique) id removes exactly that row. */
  lemma {:induction false} DeleteUniqueRow(favs: seq<Favorite>, bound: nat, fav: Favorite)
    requires FavoriteIdsValid(favs, bound) && fav in favs
    ensures multiset(Filter(favs, FavoriteIdIsNot(fav.id))) == multiset(favs) - multiset{fav}
    decreases |favs|
  {
    var rest := favs[1..];
    var keep := FavoriteIdIsNot(fav.id);
    assert favs == [favs[0]] + rest;
    assert multiset(favs) == multiset{favs[0]} + multiset(rest);
    FavoriteIdsValidTail(favs, bound);
    if favs[0] == fav {
      assert Filter(favs, keep) == rest by {
        assert forall x :: x in rest ==> keep(x);
        FilterKeepsAll(rest, keep);
        RemoveHead(favs, keep);
      }
    } else {
      assert fav in rest;
      DeleteUniqueRow(rest, bound, fav);
      var tail := Filter(rest, keep);
      assert Filter(favs, keep) == [favs[0]] + tail by {
        KeepHead(favs, keep);
      }
      assert multiset([favs[0]] + tail) == multiset{favs[0]} + multiset(tail);
    }
  }

  /** Deleting a row by its (unique) id lowers the count of that row's key by one and no other count. */
  lemma {:induction false} DeleteUniqueRowCount(favs: seq<Favorite>, bound: nat, fav: Favorite, key: FavoriteKey)
    requires FavoriteIdsValid(favs, bound) && fav in favs
    ensures CountKey(Filter(favs, FavoriteIdIsNot(fav.id)), key) ==
            CountKey(favs, key) - (if KeyOf(fav) == key then 1 else 0)
    decreases |favs|
  {
    var rest := favs[1..];
    var keep := FavoriteIdIsNot(fav.id);
    assert favs == [favs[0]] + rest;
    FavoriteIdsValidTail(favs, bound);
    if favs[0] == fav {
      assert forall x :: x in rest ==> keep(x);
      FilterKeepsAll(rest, keep);
      RemoveHead(favs, keep);
    } else {
      DeleteUniqueRowCount(rest, bound, fav, key);
      KeepHead(favs, keep);
    }
  }

  lemma RemoveHead(favs: seq<Favorite>, keep: Favorite -> bool)
    requires favs != [] && !keep(favs[0])
    ensures Filter(favs, keep) == Filter(favs[1..], keep)
  {
  }

  lemma KeepHead(favs: seq<Favorite>, keep: Favorite -> bool)
    requires favs != [] && keep(favs[0])
    ensures Filter(favs, keep) == [favs[0]] + Filter(favs[1..], keep)
    ensures ([favs[0]] + Filter(favs[1..], keep))[1..] == Filter(favs[1..], keep)
  {
    var tail := Filter(favs[1..], keep);
    assert ([favs[0]] + tail)[1..] == tail;
  }

  /** A toggle inserts or deletes exactly one row, and no other row changes. */
  lemma ToggleChangesOneRow(favs: seq<Favorite>, bound: nat, key: FavoriteKey, newId: DocId)
    requires FavoriteIdsValid(favs, bound)
    ensures !HasFavorite(favs, key) ==>
      multiset(ToggledFavorites(favs, key, newId)) ==
      multiset(favs) + multiset{Favorite(newId, key.fileId, key.orgId, key.userId)}
    ensures HasFavorite(favs, key) ==>
      KeyOf(FirstFavorite(favs, key).value) == key &&
      multiset(ToggledFavorites(favs, key, newId)) == multiset(favs) - multiset{FirstFavorite(favs, key).value}
  {
    if HasFavorite(favs, key) {
      DeleteUniqueRow(favs, bound, FirstFavorite(favs, key).value);
    }
  }

  /** A toggle adds a row for the key when there is none and removes one otherwise; counts of other keys stay. */
  lemma ToggleCount(favs: seq<Favorite>, bound: nat, key: FavoriteKey, newId: DocId)
    requires FavoriteIdsValid(favs, bound)
    ensures CountKey(ToggledFavorites(favs, key, newId), key) ==
            if CountKey(favs, key) == 0 then 1 else CountKey(favs, key) - 1
    ensures forall other :: other != key ==>
            CountKey(ToggledFavorites(favs, key, newId), other) == CountKey(favs, other)
  {
    CountKeyPositive(favs, key);
    var newRow := Favorite(newId, key.fileId, key.orgId, key.userId);
    if HasFavorite(favs, key) {
      var fav := FirstFavorite(favs, key).value;
      DeleteUniqueRowCount(favs, bound, fav, key);
      forall other | other != key
        ensures CountKey(ToggledFavorites(favs, key, newId), other) == CountKey(favs, other)
      {
        DeleteUniqueRowCount(favs, bound, fav, other);
      }
    } else {
      CountKeyAppend(favs, newRow, key);
      forall other | other != key
        ensures CountKey(ToggledFavorites(favs, key, newId), other) == CountKey(favs, other)
      {
        CountKeyAppend(favs, newRow, other);
      }
    }
  }

  /** A toggle keeps the row ids distinct when the new id is above every existing one. */
  lemma ToggleKeepsIdsValid(favs: seq<Favorite>, bound: nat, key: FavoriteKey)
    requires FavoriteIdsValid(favs, bound)
    ensures FavoriteIdsValid(ToggledFavorites(favs, key, bound), bound + 1)
  {
    if HasFavorite(favs, key) {
      var fav := FirstFavorite(favs, key).value;
      FilterKeepsKeysDistinct(favs, FavoriteIdIsNot(fav.id), FavoriteId);
    }
  }

  /** Two successive toggles restore whether a favorite exists, provided at most one row carried the key. */
  lemma ToggleTwiceRestoresExistence(favs: seq<Favorite>, bound: nat, key: FavoriteKey, secondId: DocId)
    requires FavoriteIdsValid(favs, bound) && CountKey(favs, key) <= 1
    ensures HasFavorite(ToggledFavorites(ToggledFavorites(favs, key, bound), key, secondId), key) ==
            HasFavorite(favs, key)
  {
    var once := ToggledFavorites(favs, key, bound);
    ToggleCount(favs, bound, key, bound);
    ToggleKeepsIdsValid(favs, bound, key);
    ToggleCount(once, bound + 1, key, secondId);
    CountKeyPositive(favs, key);
    CountKeyPositive(ToggledFavorites(once, key, secondId), key);
  }

  /** With two rows for the key (which the non-unique `by_userId_orgId_fileId` index allows), two toggles delete both. */
  lemma ToggleTwiceLosesDuplicatedFavorite(favs: seq<Favorite>, bound: nat, key: FavoriteKey, secondId: DocId)
    requires FavoriteIdsValid(favs, bound) && CountKey(favs, key) == 2
    ensures HasFavorite(favs, key)
    ensures !HasFavorite(ToggledFavorites(ToggledFavorites(favs, key, bound), key, secondId), key)
  {
    var once := ToggledFavorites(favs, key, bound);
    ToggleCount(favs, bound, key, bound);
    ToggleKeepsIdsValid(favs, bound, key);
    ToggleCount(once, bound + 1, key, secondId);
    CountKeyPositive(favs, key);
    CountKeyPositive(ToggledFavorites(once, key, secondId), key);
  }

  function FileIdIsNot(id: DocId): FileRecord -> bool
  {
    (f: FileRecord) => f.id != id
  }

  function BlobsOf(files: seq<FileRecord>): set<StorageId>
  {
    set f | f in files :: f.fileId
  }

  /** One more step of the sweep: deleting the next marked row's id extends the set of deleted ids by it. */
  lemma PurgeOneMore(files: seq<FileRecord>, marked: seq<FileRecord>, i: nat)
    requires i < |marked|
    ensures Filter(Filter(files, NotAmong(IdsOf(marked[..i]))), FileIdIsNot(marked[i].id)) ==
            Filter(files, NotAmong(IdsOf(marked[..i + 1])))
    ensures BlobsOf(marked[..i + 1]) == BlobsOf(marked[..i]) + {marked[i].fileId}
  {
    assert marked[..i + 1] == marked[..i] + [marked[i]];
    assert IdsOf(marked[..i + 1]) == IdsOf(marked[..i]) + {marked[i].id};
    FilterFilter(files, NotAmong(IdsOf(marked[..i])), FileIdIsNot(marked[i].id), NotAmong(IdsOf(marked[..i + 1])));
  }

  /**
   * Deleting the ids of the rows the `by_shouldDelete` index returns, and their
   * blobs, removes exactly the flagged rows and exactly their blobs; the ids
   * that remain stay distinct.
   */
  lemma SweepPurgesFlaggedRows(files: seq<FileRecord>, bound: nat)
    requires FileIdsValid(files, bound)
    ensures Filter(files, NotAmong(IdsOf(Filter(files, Flagged)))) == Filter(files, Live)
    ensures BlobsOf(Filter(files, Flagged)) == FlaggedBlobs(files)
    ensures FileIdsValid(Filter(files, Live), bound)
  {
    var marked := Filter(files, Flagged);
    FlaggedIdsAreFlaggedRows(files, bound);
    FilterCongruent(files, NotAmong(IdsOf(marked)), Live);
    forall f ensures f in marked <==> f in files && f.shouldDelete {
      FilterMembership(files, Flagged, f);
    }
    FilterKeepsKeysDistinct(files, Live, RowId);
  }

  // -------------------------------------------------------------- store

  /** The document store a handler sees: the three tables, the live blobs and the next fresh document id. */
  class Store {
    var files: seq<FileRecord>
    var favorites: seq<Favorite>
    var users: seq<UserRecord>
    var blobs: set<StorageId>
    var nextId: nat

    ghost predicate Valid()
      reads this
    {
      FileIdsValid(files, nextId) && FavoriteIdsValid(favorites, nextId)
    }

    /** A store with the given users and blobs and no files or favorites yet. */
    constructor (users: seq<UserRecord>, blobs: set<StorageId>, nextId: nat)
      ensures Valid()
      ensures this.files == [] && this.favorites == []
      ensures this.users == users && this.blobs == blobs && this.nextId == nextId
    {
      this.files := [];
      this.favorites := [];
      this.users := users;
      this.blobs := blobs;
      this.nextId := nextId;
    }

    /**
     * `createFile`: throws without org access; otherwise inserts one unflagged
     * row owned by the caller, whose url is the blob's url if the blob exists.
     */
    method CreateFile(identity: Identity, name: string, fileId: StorageId, fileType: FileType,
                      orgId: string, url: string) returns (r: Outcome)
      requires Valid()
      modifies this`files, this`nextId
      ensures Valid()
      ensures HasAccessToOrg(users, identity, orgId).None? ==>
        r == Err(NoOrgAccess) && files == old(files) && nextId == old(nextId)
      ensures HasAccessToOrg(users, identity, orgId).Some? ==>
        r == Ok && nextId == old(nextId) + 1 &&
        files == old(files) + [FileRecord(old(nextId), name, fileType, fileId, orgId,
                                          HasAccessToOrg(users, identity, orgId).value.id,
                                          if fileId in blobs then Some(url) else None, false)]
    {
      var hasAccess := HasAccessToOrg(users, identity, orgId);
      if hasAccess.None? {
        return Err(NoOrgAccess);
      }
      var fileUrl := if fileId in blobs then Some(url) else None;
      files := files + [FileRecord(nextId, name, fileType, fileId, orgId, hasAccess.value.id, fileUrl, false)];
      nextId := nextId + 1;
      r := Ok;
    }

    /** `deleteFile`: after the file-access and admin guards, flags that one file. */
    method DeleteFile(identity: Identity, id: DocId) returns (r: Outcome)
      requires Valid()
      modifies this`files
      ensures Valid()
      ensures CheckAdmin(old(files), users, identity, id).Denied? ==>
        r == Err(CheckAdmin(old(files), users, identity, id).error) && files == old(files)
      ensures CheckAdmin(old(files), users, identity, id).Allowed? ==>
        r == Ok && files == Patched(old(files), id, true)
    {
      var access := HasAccessToFile(files, users, identity, id);
      if access.None? {
        return Err(NoOrgAccess);
      }
      if !IsAdmin(access.value.user, access.value.file.orgId) {
        return Err(NoAdminAccess);
      }
      files := Patched(files, id, true);
      r := Ok;
    }

    /** `restoreFile`: the same guards as `deleteFile`, then clears that file's flag. */
    method RestoreFile(identity: Identity, id: DocId) returns (r: Outcome)
      requires Valid()
      modifies this`files
      ensures Valid()
      ensures CheckAdmin(old(files), users, identity, id).Denied? ==>
        r == Err(CheckAdmin(old(files), users, identity, id).error) && files == old(files)
      ensures CheckAdmin(old(files), users, identity, id).Allowed? ==>
        r == Ok && files == Patched(old(files), id, false)
    {
      var access := HasAccessToFile(files, users, identity, id);
      if access.None? {
        return Err(NoOrgAccess);
      }
      if !IsAdmin(access.value.user, access.value.file.orgId) {
        return Err(NoAdminAccess);
      }
      files := Patched(files, id, false);
      r := Ok;
    }

    /** `toggleFavorite`: needs file access (not admin); inserts or deletes one favorite row. */
    method ToggleFavorite(identity: Identity, id: DocId) returns (r: Outcome)
      requires Valid()
      modifies this`favorites, this`nextId
      ensures Valid()
      ensures HasAccessToFile(files, users, identity, id).None? ==>
        r == Err(NoFileAccess) && favorites == old(favorites) && nextId == old(nextId)
      ensures HasAccessToFile(files, users, identity, id).Some? ==>
        var access := HasAccessToFile(files, users, identity, id).value;
        var key := FavoriteKey(access.user.id, access.file.orgId, access.file.fileId);
        r == Ok &&
        favorites == ToggledFavorites(old(favorites), key, old(nextId)) &&
        nextId == if HasFavorite(old(favorites), key) then old(nextId) else old(nextId) + 1
    {
      var access := HasAccessToFile(files, users, identity, id);
      if access.None? {
        return Err(NoFileAccess);
      }
      var key := FavoriteKey(access.value.user.id, access.value.file.orgId, access.value.file.fileId);
      ToggleKeepsIdsValid(favorites, nextId, key);
      var favorite := FirstFavorite(favorites, key);
      if favorite.None? {
        favorites := favorites + [Favorite(nextId, key.fileId, key.orgId, key.userId)];
        nextId := nextId + 1;
      } else {
        favorites := Filter(favorites, FavoriteIdIsNot(favorite.value.id));
      }
      r := Ok;
    }

    /**
     * `deleteAllFiles`: collect the flagged rows through the `by_shouldDelete`
     * index, then for each delete its blob and its row, one after the other.
     */
    method DeleteAllFiles()
      requires Valid()
      modifies this`files, this`blobs
      ensures Valid()
      ensures files == Filter(old(files), Live)
      ensures blobs == old(blobs) - FlaggedBlobs(old(files))
    {
      ghost var files0, blobs0 := files, blobs;
      var marked := Filter(files, Flagged);
      var i := 0;
      assert IdsOf(marked[..0]) == {};
      FilterKeepsAll(files, NotAmong({}));
      while i < |marked|
        invariant 0 <= i <= |marked|
        invariant files == Filter(files0, NotAmong(IdsOf(marked[..i])))
        invariant blobs == blobs0 - BlobsOf(marked[..i])
      {
        PurgeOneMore(files0, marked, i);
        blobs := blobs - {marked[i].fileId};
        files := Filter(files, FileIdIsNot(marked[i].id));
        i := i + 1;
      }
      assert marked[..i] == marked;
      SweepPurgesFlaggedRows(files0, nextId);
    }
  }

  /** The org admin of the scenario below and the file it uploads. */
  const ScenarioAdmin := UserRecord(0, "issuer|user_1", [OrgMembership("org_1", Admin)], None, None)
  const ScenarioFile := FileRecord(1, "cat.png", Image, "blob_1", "org_1", 0, Some("https://storage/blob_1"), false)

  /** A file's upload: an admin of the org uploads a blob and sees the new file listed. */
  method UploadScenario() returns (store: Store)
    ensures fresh(store) && store.Valid()
    ensures store.users == [ScenarioAdmin] && store.files == [ScenarioFile] && store.blobs == {"blob_1"}
  {
    var me: Identity := Some("issuer|user_1");
    store := new Store([ScenarioAdmin], {"blob_1"}, 1);
    IncludesTrivial("org_1");
    assert ScenarioAdmin.orgIds[0] in ScenarioAdmin.orgIds;
    assert HasAccessToOrg(store.users, me, "org_1") == Some(ScenarioAdmin);
    var r := store.CreateFile(me, "cat.png", "blob_1", Image, "org_1", "https://storage/blob_1");
    assert r == Ok && store.files == [ScenarioFile];
    CreatedFileIsListed([], store.favorites, store.users, me, ScenarioFile);
    assert [] + [ScenarioFile] == store.files;
    assert ScenarioFile in GetFiles(store.files, store.favorites, store.users, me, "org_1", None, None, None);
  }

  /**
   * The rest of its life: the admin marks it, finds it among the deleted
   * files only, and the sweep then purges its row and its blob.
   */
  method LifecycleScenario()
  {
    var store := UploadScenario();
    var me: Identity := Some("issuer|user_1");
    assert GetFile(store.files, 1) == Some(ScenarioFile);
    assert ScenarioAdmin.orgIds[0] in ScenarioAdmin.orgIds;
    assert IsAdmin(ScenarioAdmin, "org_1");
    IncludesTrivial("org_1");
    assert CheckAdmin(store.files, store.users, me, 1).Allowed?;
    var r := store.DeleteFile(me, 1);
    var marked := ScenarioFile.(shouldDelete := true);
    assert r == Ok && store.files == [marked];
    GetFilesMembership(store.files, store.favorites, store.users, me, "org_1", None, None, None, marked);
    GetFilesMembership(store.files, store.favorites, store.users, me, "org_1", None, None, Some(true), marked);
    assert marked !in GetFiles(store.files, store.favorites, store.users, me, "org_1", None, None, None);
    assert marked in GetFiles(store.files, store.favorites, store.users, me, "org_1", None, None, Some(true));

    ghost var before := store.files;
    store.DeleteAllFiles();
    assert before[1..] == [];
    assert store.files == [];
    assert marked in before;
    assert store.blobs == {};
  }
}
