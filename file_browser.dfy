/**
 * The client-side step of src/app/dashboard/_components/file-browser.tsx:
 * which org the page queries, what it does while loading, and the
 * search-and-project pass over the query result.
 */
module FileBrowser {
  import opened Wrappers
  import opened Seqs
  import opened Strings
  import opened Schema
  import opened Access
  import opened Files

  /** JavaScript truthiness of an optional string: present and non-empty. */
  predicate IsTruthy(s: Option<string>)
  {
    s.Some? && s.value != ""
  }

  /**
   * `orgId`: undefined until both the organization and the user are loaded;
   * then the active organization's id, else (`??`) the signed-in user's id.
   */
  function ResolveOrgId(orgLoaded: bool, userLoaded: bool,
                        activeOrgId: Option<string>, userId: Option<string>): (r: Option<string>)
    ensures !(orgLoaded && userLoaded) ==> r.None?
    ensures orgLoaded && userLoaded && activeOrgId.Some? ==> r == activeOrgId
    ensures orgLoaded && userLoaded && activeOrgId.None? ==> r == userId
  {
    if orgLoaded && userLoaded then
      match activeOrgId
      case Some(id) => Some(id)
      case None => userId
    else None
  }

  /** The type selector: "all" or one of the file types. */
  datatype TypeChoice = All | OneType(fileType: FileType)

  /** `type === "all" ? undefined : type`: "all" sends no type filter, any other choice is passed through. */
  function QueryType(choice: TypeChoice): (r: Option<FileType>)
    ensures r.None? <==> choice == All
    ensures choice.OneType? ==> r == Some(choice.fileType)
  {
    match choice
    case All => None
    case OneType(t) => Some(t)
  }

  /** The arguments of the `getFiles` subscription. */
  datatype FilesArgs = FilesArgs(orgId: string, fileType: Option<FileType>,
                                 favoritesOnly: Option<bool>, deletedOnly: Option<bool>)

  /**
   * The second argument of `useQuery(api.files.getFiles, ...)`: None stands for
   * `"skip"` (no subscription) when the org id is not truthy; otherwise the org
   * id, the type choice and the page's two boolean props.
   */
  function FilesQueryArgs(orgId: Option<string>, choice: TypeChoice,
                          favoritesOnly: bool, deletedOnly: bool): (r: Option<FilesArgs>)
    ensures r.None? <==> !IsTruthy(orgId)
    ensures r.Some? ==>
      && r.value.orgId == orgId.value
      && r.value.fileType == QueryType(choice)
      && IsSet(r.value.favoritesOnly) == favoritesOnly
      && IsSet(r.value.deletedOnly) == deletedOnly
  {
    if IsTruthy(orgId) then Some(FilesArgs(orgId.value, QueryType(choice), Some(favoritesOnly), Some(deletedOnly)))
    else None
  }

  /** The argument of `useQuery(api.files.getAllFavorites, ...)`: None for `"skip"`, else the org id. */
  function FavoritesQueryArgs(orgId: Option<string>): (r: Option<string>)
    ensures r.None? <==> !IsTruthy(orgId)
    ensures r.Some? ==> r == orgId
  {
    if IsTruthy(orgId) then orgId else None
  }

  /**
   * What the page subscribes to is what its props ask for: every row `getFiles`
   * returns for the page's arguments lies in the resolved org, has the chosen
   * type, and is in the trash exactly when the page is the trash page.
   */
  lemma ListingHonoursPageProps(files: seq<FileRecord>, favorites: seq<Favorite>, users: seq<UserRecord>,
                                identity: Identity, orgId: Option<string>, choice: TypeChoice,
                                favoritesOnly: bool, deletedOnly: bool, f: FileRecord)
    requires FilesQueryArgs(orgId, choice, favoritesOnly, deletedOnly).Some?
    requires var a := FilesQueryArgs(orgId, choice, favoritesOnly, deletedOnly).value;
             f in GetFiles(files, favorites, users, identity, a.orgId, a.fileType, a.favoritesOnly, a.deletedOnly)
    ensures f in files && f.orgId == orgId.value
    ensures choice.OneType? ==> f.fileType == choice.fileType
    ensures f.shouldDelete == deletedOnly
  {
    var a := FilesQueryArgs(orgId, choice, favoritesOnly, deletedOnly).value;
    var r := GetFiles(files, favorites, users, identity, a.orgId, a.fileType, a.favoritesOnly, a.deletedOnly);
    var i :| 0 <= i < |r| && r[i] == f;
  }

  /**
   * `files`: undefined (loading) until both are loaded; `[]` when no org id
   * could be resolved; otherwise what the `getFiles` subscription holds, which
   * is itself undefined while the query is in flight.
   */
  function LoadedFiles(orgLoaded: bool, userLoaded: bool, orgId: Option<string>,
                       filesQuery: Option<seq<FileRecord>>): (r: Option<seq<FileRecord>>)
    ensures !(orgLoaded && userLoaded) ==> r.None?
    ensures orgLoaded && userLoaded && !IsTruthy(orgId) ==> r == Some([])
    ensures orgLoaded && userLoaded && IsTruthy(orgId) ==> r == filesQuery
  {
    if orgLoaded && userLoaded then
      if IsTruthy(orgId) then filesQuery else Some([])
    else None
  }

  /** A file card's data: the row plus whether the caller favorited its blob. */
  datatype FileView = FileView(file: FileRecord, isFavorited: bool)

  /** The search test: the lower-cased name includes the lower-cased query. */
  predicate MatchesQuery(query: string, f: FileRecord)
  {
    Includes(ToLowerCase(f.name), ToLowerCase(query))
  }

  function Matching(query: string): FileRecord -> bool
  {
    (f: FileRecord) => MatchesQuery(query, f)
  }

  function FilesOf(views: seq<FileView>): seq<FileRecord>
  {
    seq(|views|, i requires 0 <= i < |views| => views[i].file)
  }

  /** `(favorites ?? [])`: the favorites subscription, empty while it is loading. */
  function FavoritesOrEmpty(favorites: Option<seq<Favorite>>): seq<Favorite>
  {
    match favorites
    case None => []
    case Some(favs) => favs
  }

  /**
   * `filteredFiles`: `[]` while `files` is undefined; otherwise, in order, the
   * files whose lower-cased name includes the lower-cased query, each with
   * `isFavorited` true iff some favorite carries the same blob id.
   */
  function FilteredFiles(files: Option<seq<FileRecord>>, query: string,
                         favorites: Option<seq<Favorite>>): (r: seq<FileView>)
    ensures files.None? ==> r == []
    ensures files.Some? ==> IsSubsequence(FilesOf(r), files.value)
    ensures files.Some? ==> forall f :: f in FilesOf(r) <==>
              f in files.value && IsSubstring(ToLowerCase(query), ToLowerCase(f.name))
    ensures forall i :: 0 <= i < |r| ==>
              (r[i].isFavorited <==> exists fav :: fav in FavoritesOrEmpty(favorites) && fav.fileId == r[i].file.fileId)
  {
    match files
    case None => []
    case Some(fs) =>
      var kept := Filter(fs, Matching(query));
      var favs := FavoritesOrEmpty(favorites);
      var r := seq(|kept|, i requires 0 <= i < |kept| => FileView(kept[i], IsFavorited(favs, kept[i].fileId)));
      assert FilesOf(r) == kept;
      FilterIsSubsequence(fs, Matching(query));
      assert forall f :: f in kept <==> f in fs && MatchesQuery(query, f) by {
        forall f { FilterMembership(fs, Matching(query), f); }
      }
      r
  }

  /** An empty search keeps every file, in order. */
  lemma EmptyQueryKeepsEveryFile(files: seq<FileRecord>, favorites: Option<seq<Favorite>>)
    ensures FilesOf(FilteredFiles(Some(files), "", favorites)) == files
  {
    forall f | f in files ensures Matching("")(f) {
      IncludesTrivial(ToLowerCase(f.name));
    }
    FilterKeepsAll(files, Matching(""));
    var kept := Filter(files, Matching(""));
    assert FilesOf(FilteredFiles(Some(files), "", favorites)) == kept;
  }

  /** The search ignores the case of the query: a query and its lower-cased form show the same cards. */
  lemma SearchIgnoresQueryCase(files: Option<seq<FileRecord>>, query: string, favorites: Option<seq<Favorite>>)
    ensures FilteredFiles(files, ToLowerCase(query), favorites) == FilteredFiles(files, query, favorites)
  {
    ToLowerCaseIdempotent(query);
    if files.Some? {
      FilterCongruent(files.value, Matching(ToLowerCase(query)), Matching(query));
    }
  }

  /** Until both the organization and the user are loaded the page shows no card. */
  lemma NothingShownWhileLoading(orgLoaded: bool, userLoaded: bool, activeOrgId: Option<string>,
                                 userId: Option<string>, filesQuery: Option<seq<FileRecord>>,
                                 query: string, favorites: Option<seq<Favorite>>)
    requires !(orgLoaded && userLoaded)
    ensures var orgId := ResolveOrgId(orgLoaded, userLoaded, activeOrgId, userId);
            var files := LoadedFiles(orgLoaded, userLoaded, orgId, filesQuery);
            files.None? && FilteredFiles(files, query, favorites) == []
  {
  }

  /**
   * Once both are loaded without a truthy org id, the page skips both
   * subscriptions, is not loading, and shows an empty list.
   */
  lemma NoOrgIdShowsEmptyList(activeOrgId: Option<string>, userId: Option<string>, choice: TypeChoice,
                              favoritesOnly: bool, deletedOnly: bool,
                              filesQuery: Option<seq<FileRecord>>, query: string, favorites: Option<seq<Favorite>>)
    requires !IsTruthy(ResolveOrgId(true, true, activeOrgId, userId))
    ensures var orgId := ResolveOrgId(true, true, activeOrgId, userId);
            FilesQueryArgs(orgId, choice, favoritesOnly, deletedOnly).None? && FavoritesQueryArgs(orgId).None?
    ensures var files := LoadedFiles(true, true, ResolveOrgId(true, true, activeOrgId, userId), filesQuery);
            files == Some([]) && FilteredFiles(files, query, favorites) == []
  {
  }
}
