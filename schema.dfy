/**
 * The document schema of the store (convex/schema.ts): the file types, the
 * roles, and the shapes of the `files`, `favorites` and `users` tables.
 */
module Schema {
  import opened Wrappers

  /** The `_id` of a document in any table. */
  type DocId = nat

  /** The id of a blob in the platform's `_storage` table. */
  type StorageId = string

  /** `fileTypes`: a file is an image, a CSV or a PDF, and nothing else. */
  datatype FileType = Image | Csv | Pdf

  function FileTypeName(t: FileType): string
  {
    match t
    case Image => "image"
    case Csv => "csv"
    case Pdf => "pdf"
  }

  /** The literal union's validator: exactly the three names are accepted. */
  function ParseFileType(s: string): (r: Option<FileType>)
    ensures r.Some? <==> s == "image" || s == "csv" || s == "pdf"
    ensures r.Some? ==> FileTypeName(r.value) == s
  {
    if s == "image" then Some(Image)
    else if s == "csv" then Some(Csv)
    else if s == "pdf" then Some(Pdf)
    else None
  }

  lemma FileTypeRoundTrip(t: FileType)
    ensures ParseFileType(FileTypeName(t)) == Some(t)
  {
  }

  /** `roles`: a membership is either an admin's or a plain member's. */
  datatype Role = Admin | Member

  function RoleName(r: Role): string
  {
    match r
    case Admin => "admin"
    case Member => "member"
  }

  function ParseRole(s: string): (r: Option<Role>)
    ensures r.Some? <==> s == "admin" || s == "member"
    ensures r.Some? ==> RoleName(r.value) == s
  {
    if s == "admin" then Some(Admin)
    else if s == "member" then Some(Member)
    else None
  }

  lemma RoleRoundTrip(r: Role)
    ensures ParseRole(RoleName(r)) == Some(r)
  {
  }

  /** One entry of a user's `orgIds` array. */
  datatype OrgMembership = OrgMembership(orgId: string, role: Role)

  /**
   * A row of `files`. `fileType` is the schema's `type` field; `fileId` is the
   * blob in storage; `url` is a string or null; `userId` is the uploader.
   */
  datatype FileRecord = FileRecord(
    id: DocId,
    name: string,
    fileType: FileType,
    fileId: StorageId,
    orgId: string,
    userId: DocId,
    url: Option<string>,
    shouldDelete: bool)

  /**
   * A row of `favorites`. `fileId` is a plain string holding the blob's id (not
   * the file row's `_id`); the `(userId, orgId, fileId)` index is not unique,
   * so two rows may carry the same triple.
   */
  datatype Favorite = Favorite(id: DocId, fileId: string, orgId: string, userId: DocId)

  /** A row of `users`; nothing forces the `orgIds` entries to be distinct. */
  datatype UserRecord = UserRecord(
    id: DocId,
    tokenIdentifier: string,
    orgIds: seq<OrgMembership>,
    name: Option<string>,
    image: Option<string>)

  /** A favorite's `(userId, orgId, fileId)` triple, the key of its index. */
  datatype FavoriteKey = FavoriteKey(userId: DocId, orgId: string, fileId: string)

  function KeyOf(fav: Favorite): FavoriteKey
  {
    FavoriteKey(fav.userId, fav.orgId, fav.fileId)
  }
}
