# file-drive core in Dafny

file-drive is a multi-tenant file-sharing app. Users upload files into an
organization (or into a personal space named after their own user id). They
mark files as favorites and soft-delete them into a trash. They restore them
from the trash, and a scheduled sweep purges whatever is still in the trash.
The backend runs on Convex. Its tables are `files`, `favorites` and `users`.

This project models three parts of that system. The first is the backend
access rules, queries and mutations (`convex/files.ts`). The second is the
table schema (`convex/schema.ts`). The third is the dashboard step that picks
the active org id, selects what to show and searches it
(`src/app/dashboard/_components/file-browser.tsx`).

Modules:

- `Wrappers`: `Option`.
- `Seqs`: `Filter`, the order-preserving selection that stands for both the
  JavaScript `Array.prototype.filter` and a Convex `withIndex(...).collect()`
  on an equality index. It comes with lemmas on membership, subsequence,
  fusion, congruence and key-distinctness.
- `Strings`: `Includes` (JavaScript `String.prototype.includes`), proved
  equal to a ghost substring relation, and `ToLowerCase`.
- `Schema`: the tables' documents as datatypes. It has the `fileTypes` and
  `roles` literal unions with their parsers, the `files`, `favorites` and
  `users` rows, and the key of the `by_userId_orgId_fileId` index. Document
  ids are `nat`. Storage ids are strings.
- `Access`: the two authorization helpers, `hasAccessToOrg` and
  `hasAccessToFile`, plus the admin check shared by `deleteFile` and
  `restoreFile`.
- `Files`: the read queries as functions (`getFiles`, `getAllFavorites`).
  The database is a class `Store` whose fields are the three tables, the blob
  store and the next document id. The mutations (`createFile`, `deleteFile`,
  `restoreFile`, `toggleFavorite`, `deleteAllFiles`) are methods on it. Each
  method is proved against a pure function of the old state (`Patched`,
  `ToggledFavorites`, `Filter(files, Live)`), and the properties are proved
  about those functions. `UploadScenario` and `LifecycleScenario` walk one
  file through upload, trash, listing and the sweep.
- `FileBrowser`: the org-id fallback, the arguments (or `"skip"`) of its two
  subscriptions, the loading/empty selection of the file list, and the
  case-insensitive search that adds `isFavorited` to each visible file.

The authenticated identity is a parameter: `None` when signed out,
`Some(tokenIdentifier)` otherwise. The URL that `storage.getUrl` would hand
out is a parameter too. The model returns it only when the storage id is in
the blob store, and `null` otherwise.

The organization check in the source is deliberately modelled as written. It
tests `includes` (substring), not equality. So an empty org id is granted to
every registered user (`Access.EmptyOrgIdGrantedToEveryUser`). A member of
`org_12` passes the org check for `org_1`. Such a member is then refused only
by the exact-equality admin test (`Access.SubstringAccessExample`,
`Access.SubstringMemberIsNotAdmin`).

## Model

| member | source | states |
|---|---|---|
| Schema.ParseFileType | convex/schema.ts:4-8 | a string is accepted as a file type exactly when it is one of "image", "csv", "pdf", and the accepted value prints back as that string |
| Schema.FileTypeRoundTrip | convex/schema.ts:4-8 | parsing the name of every file type gives that file type back |
| Schema.ParseRole | convex/schema.ts:9 | a string is accepted as a role exactly when it is "admin" or "member", and the role prints back as that string |
| Schema.RoleRoundTrip | convex/schema.ts:9 | parsing the name of every role gives that role back |
| Strings.Includes | convex/files.ts:34-36 | `includes` holds exactly when the needle occurs at some position of the haystack |
| Strings.ToLowerCase | src/app/dashboard/_components/file-browser.tsx:65 | lower-casing keeps the length and maps each character on its own, ASCII capitals to their small letters and every other character to itself |
| Access.FindUser | convex/files.ts:25-30 | a found user is the first row of the table carrying the identity's token; nothing is found exactly when no row carries it |
| Access.FindUserUnique | convex/schema.ts:32 | when tokens are unique in the users table, the user found for a token is the one row carrying it |
| Access.GrantsOrg | convex/files.ts:34-36 | the user passes the org test exactly when the org id occurs as a substring of one membership's org id or of the user's token identifier |
| Access.HasAccessToOrg | convex/files.ts:20-39 | access is granted exactly when someone is signed in, a user row has their token, and one of the user's memberships contains the org id as a substring or the token itself contains it; the granted user is the one looked up |
| Access.GetFile | convex/files.ts:205-208 | a found file is a row with the requested id; nothing is found exactly when no row has that id |
| Access.HasAccessToFile | convex/files.ts:201-216 | file access is granted exactly when the file exists and the caller has org access to the file's own org; the result carries exactly the file `GetFile` found and the user `HasAccessToOrg` granted for that file's org |
| Access.IsAdmin | convex/files.ts:129-131 | the user is an admin of the org exactly when some membership has an org id equal to it and the admin role |
| Access.CheckAdmin | convex/files.ts:125-134 | the patch is allowed exactly when file access is granted and the user has an admin membership whose org id equals the file's org; no file access is refused with the org-access error, a non-admin with the admin error, and no other error occurs |
| Access.AdminImpliesOrgAccess | convex/files.ts:129-131 | an admin membership of an org id always passes the org check for that id |
| Access.EmptyOrgIdGrantedToEveryUser | convex/files.ts:34-36 | for the empty org id every signed-in user with a row is granted access, whatever their memberships |
| Access.SubstringMemberIsNotAdmin | convex/files.ts:146-151 | a user with a membership whose org id contains the file's org id, but with no membership equal to it, passes the org check yet is not an admin of it |
| Access.SubstringAccessExample | convex/files.ts:142-151 | concretely, an admin of "org_12" gets org access to a file in "org_1" but is refused its restore with the admin error |
| Files.IsFavorited | convex/files.ts:99 | a blob counts as favorited exactly when some favorite row carries its storage id |
| Files.UserOrgFavorites | convex/files.ts:91-96 | the index range holds exactly the favorites rows of the given user in the given org |
| Files.GetFiles | convex/files.ts:66-104 | without org access the listing is empty; with it, every listed row is a row of the table that meets the precedence of org, type, deleted-only and favorites-only filters for the caller's favorites in that org, and the listing is no longer than the table |
| Files.GetFilesSelects | convex/files.ts:66-104 | without org access the listing is empty; with it, the listing is the org's files, narrowed by type when one is given, then either the trashed ones (deleted-only), the live ones (no favorites-only) or the live files this user favorited in this org |
| Files.GetFilesMembership | convex/files.ts:78-101 | a row is listed exactly when access is granted, the row is in the table and it meets the precedence of org, type, deleted-only and favorites-only filters |
| Files.GetFilesIsOrderedSelection | convex/files.ts:78-84 | the listing is a subsequence of the table: it keeps table order and invents no row |
| Files.DeletedOnlyIgnoresFavoritesOnly | convex/files.ts:85-87 | with deleted-only set the favorites-only flag has no effect |
| Files.GetAllFavorites | convex/files.ts:184-199 | without org access the result is empty; with it, a row is returned exactly when it is a favorite of the granted user in that org |
| Files.CreatedFileIsListed | convex/files.ts:54-62 | a row just inserted live into an org the caller can access is listed for the org and for its type, and is not in the trash listing |
| Files.Patched | convex/files.ts:135 | the patch keeps the table's length and every row apart from its trash flag; the flag becomes the given value on rows with the given id and stays as it was on all others |
| Files.PatchedLookup | convex/files.ts:135 | patching a row changes only that row's trash flag and leaves every other row as it was |
| Files.MarkThenRestore | convex/files.ts:135-152 | trashing a live file and then restoring it gives the original table back |
| Files.RestoreUnflaggedIsNoOp | convex/files.ts:152 | restoring a file that is not in the trash (or does not exist) leaves the table unchanged |
| Files.CheckAdminIgnoresFlag | convex/files.ts:142-151 | the admin check on a file gives the same verdict before and after its trash flag is patched, so a trashed file can be restored by whoever could trash it |
| Files.FlaggedBlobs | convex/files.ts:116 | every storage id of a trashed row is among the blobs the sweep deletes |
| Files.FlaggedIdsAreFlaggedRows | convex/files.ts:109-112 | with distinct row ids, a row's id is among the ids the sweep collects exactly when that row is trashed |
| Files.SweepKeepsExactlyLiveRows | convex/files.ts:114-119 | after the sweep a row remains exactly when it was in the table and not trashed, in the original order |
| Files.SweepIsIdempotent | convex/files.ts:106-121 | a second sweep removes no row and no blob |
| Files.SweptFileIsNeverListed | convex/files.ts:116-117 | after the sweep a trashed file is in no listing of any kind and its blob is gone |
| Files.SweepPurgesFlaggedRows | convex/files.ts:109-119 | deleting, one by one, every row the trash index returns leaves exactly the live rows, and the blobs removed are exactly the trashed rows' storage ids |
| Files.FirstFavorite | convex/files.ts:163-171 | a found favorite is the first row with the given user, org and storage id; nothing is found exactly when no row has that key |
| Files.ToggledFavorites | convex/files.ts:172-180 | without a row for the key the table keeps all its rows in place and gains one last row carrying the key and the new id; with one, the result is a subsequence of the table holding exactly the rows whose id differs from the first matching row's |
| Files.ToggleChangesOneRow | convex/files.ts:172-180 | without a favorite for the key the toggle adds exactly one new row with that key and the given id; with one it removes exactly the first matching row and nothing else (as multisets of rows) |
| Files.ToggleCount | convex/files.ts:172-180 | a toggle moves the number of favorites for its key by one, up when there were none and down otherwise, and leaves every other key's count unchanged |
| Files.ToggleKeepsIdsValid | convex/files.ts:173-177 | favorites' ids stay distinct and below the next id after a toggle |
| Files.ToggleTwiceRestoresExistence | convex/files.ts:156-182 | with at most one favorite per key, toggling twice restores whether the file is a favorite, whatever id the second toggle would give a new row |
| Files.ToggleTwiceLosesDuplicatedFavorite | convex/files.ts:163-180 | with two favorites for a key, two toggles leave the file not a favorite, whatever id the second toggle would give a new row |
| Files.DeleteUniqueRow | convex/files.ts:179 | deleting a row by its (unique) id removes exactly that row from the table |
| Files.DeleteUniqueRowCount | convex/files.ts:179 | deleting a row by its id lowers its key's count by one and no other key's count |
| Files.Store.CreateFile | convex/files.ts:41-64 | without org access the call fails with the org-access error and nothing changes; with it, one live row is appended with the next id, the caller as owner, and the blob's URL only when the blob exists |
| Files.Store.DeleteFile | convex/files.ts:122-137 | a refused call returns the admin check's error and leaves the table as it was; an allowed one sets the trash flag of exactly that row |
| Files.Store.RestoreFile | convex/files.ts:139-154 | a refused call returns the admin check's error and leaves the table as it was; an allowed one clears the trash flag of exactly that row |
| Files.Store.ToggleFavorite | convex/files.ts:156-182 | without file access the call fails with the file-access error and nothing changes; with it, the favorites table becomes the toggle of the key made of the caller, the file's org and the file's storage id |
| Files.Store.DeleteAllFiles | convex/files.ts:106-121 | the sweep loop leaves exactly the live rows in table order and removes exactly the trashed rows' blobs from storage |
| Files.UploadScenario | convex/files.ts:41-64 | an admin uploading an existing blob into their org yields exactly one live row pointing at that blob |
| FileBrowser.ResolveOrgId | src/app/dashboard/_components/file-browser.tsx:43-46 | the org id is unset until both the organization and the user are loaded; then it is the active organization's id, or else the user's id |
| FileBrowser.QueryType | src/app/dashboard/_components/file-browser.tsx:53 | the "all" choice sends no type filter; a single type is sent as itself |
| FileBrowser.FilesQueryArgs | src/app/dashboard/_components/file-browser.tsx:51-54 | the files subscription is skipped exactly when the org id is not truthy; otherwise it asks for that org id, the type filter of the type choice, and the page's favorites-only and deleted-only props |
| FileBrowser.FavoritesQueryArgs | src/app/dashboard/_components/file-browser.tsx:47-50 | the favorites subscription is skipped exactly when the org id is not truthy; otherwise it asks for that org id |
| FileBrowser.ListingHonoursPageProps | src/app/dashboard/_components/file-browser.tsx:51-54 | every row the backend lists for the page's arguments is a row of the table in the resolved org, of the chosen type, and is trashed exactly when the page is the trash page |
| FileBrowser.LoadedFiles | src/app/dashboard/_components/file-browser.tsx:56-61 | the files are undefined until both sources are loaded; then they are the query result when the org id is truthy and an empty list otherwise |
| FileBrowser.FilteredFiles | src/app/dashboard/_components/file-browser.tsx:62-73 | undefined files show nothing; otherwise the shown files are an ordered subsequence of the loaded ones, a file shows exactly when its lower-cased name contains the lower-cased query, and it is marked favorite exactly when some loaded favorite has its storage id |
| FileBrowser.EmptyQueryKeepsEveryFile | src/app/dashboard/_components/file-browser.tsx:62-66 | an empty search shows every loaded file in order |
| FileBrowser.SearchIgnoresQueryCase | src/app/dashboard/_components/file-browser.tsx:65 | a query and its lower-cased form show the same files |
| FileBrowser.NothingShownWhileLoading | src/app/dashboard/_components/file-browser.tsx:56-75 | while the organization or the user is loading, the page is in its loading state and shows no file |
| FileBrowser.NoOrgIdShowsEmptyList | src/app/dashboard/_components/file-browser.tsx:56-73 | once both are loaded without a truthy org id, both subscriptions are skipped, the page is not loading and it shows an empty list |

## Left out

- `generateUploadUrl` (convex/files.ts:12-18) only asks the storage service for an upload URL. Storage I/O is outside the model. Its login check is the same identity test that `HasAccessToOrg` models.
- The identity provider (`ctx.auth.getUserIdentity`) is a parameter, `Identity`.
- The URL `ctx.storage.getUrl` would produce is a parameter of `CreateFile`. The model keeps only whether the blob exists.
- `Promise.all` in `deleteAllFiles` runs the deletions concurrently, and a failing deletion can abort the rest. The model runs them one after another and does not model storage failure. Convex's mutation atomicity is not modelled either.
- The cron schedule that runs `deleteAllFiles` (convex/crons.ts) is not part of this model.
- The `users` table is given to the store. The modelled code only reads it, through the `by_tokenIdentifier` index; the code that writes user rows is not part of this model.
- Strings.ToLowerCase: lower-cases ASCII letters only. JavaScript's `toLowerCase` also maps the rest of Unicode.
- Files.GetAllFavorites: states which rows are returned, not their order. Convex returns them in `by_userId_orgId_fileId` index order, while the model keeps table order.
- Files.GetFilesSelects: the `by_orgId` index range is modelled as a table-order filter. Convex's order by creation time within the range is the insertion order the model keeps.
- Favorites whose file was swept stay in the favorites table, as they do in the source. The model does not clean them up because the source does not.
- Document `_creationTime`, the exact text of each `ConvexError` message, and the argument validators' runtime rejection of ill-typed arguments are not modelled. The arguments are typed in Dafny instead.
- React state beyond the lines above is left out: the reactive updates of `useQuery` subscriptions (the model takes their current values as parameters), the debounced search, and the tabs and rendering of the file grid or table.
