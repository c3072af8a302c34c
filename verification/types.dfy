/** The record shapes and enumerations of src/types/index.ts. Timestamps are
    abstract integer keys; optional fields are `Option`s. */
module Types {

  datatype Option<T> = None | Some(value: T)

  /** The five material categories. */
  datatype Category = PreviousYearPapers | HandwrittenNotes | Books | ShortNotes | Handbooks

  /** The four academic years. */
  datatype Year = FirstYear | SecondYear | ThirdYear | FourthYear

  /** The moderation status of a report. */
  datatype ReportStatus = Pending | Reviewed | Resolved

  datatype User = User(
    id: string,
    name: string,
    email: string,
    password: Option<string>,
    profilePicture: Option<string>,
    bio: Option<string>,
    points: int,
    createdAt: int,
    updatedAt: int)

  datatype PartialUser = PartialUser(id: string, name: string)

  /** `uploadedBy`: a bare user id, a denormalised `{_id, name}`, or a full user. */
  datatype Uploader = ById(userId: string) | ByPartialUser(partial: PartialUser) | ByUser(user: User)

  datatype Report = Report(
    id: string,
    materialId: string,
    reportedBy: string,
    reason: string,
    status: ReportStatus,
    createdAt: int)

  /** Vote counts are unconstrained numbers and `voted` is a plain list of
      ids: the declared type admits duplicates and any counts. */
  datatype Material = Material(
    id: string,
    title: string,
    description: string,
    category: Category,
    year: Year,
    fileUrl: string,
    fileName: string,
    uploadedBy: Uploader,
    upvotes: int,
    downvotes: int,
    voted: seq<string>,
    reports: seq<Report>,
    createdAt: int,
    updatedAt: int)

  datatype VoteType = Upvote | Downvote

  /** The parts of a browser `File` that the upload checks read. */
  datatype FileInfo = FileInfo(name: string, mimeType: string, size: nat)

  /** The display name carried by an uploader object (not a bare id). */
  function UploaderObjectName(u: Uploader): string
    requires !u.ById?
  {
    if u.ByPartialUser? then u.partial.name else u.user.name
  }

  /** The string each category literal stands for. */
  function CategoryName(c: Category): string {
    match c
    case PreviousYearPapers => "Previous Year Papers"
    case HandwrittenNotes => "Handwritten Notes"
    case Books => "Books"
    case ShortNotes => "Short Notes"
    case Handbooks => "Handbooks"
  }

  /** The category a string literal denotes, if any. */
  function ParseCategory(s: string): (r: Option<Category>)
    ensures r.Some? ==> CategoryName(r.value) == s
    ensures forall c :: CategoryName(c) == s ==> r == Some(c)
  {
    if s == "Previous Year Papers" then Some(PreviousYearPapers)
    else if s == "Handwritten Notes" then Some(HandwrittenNotes)
    else if s == "Books" then Some(Books)
    else if s == "Short Notes" then Some(ShortNotes)
    else if s == "Handbooks" then Some(Handbooks)
    else None
  }

  function YearName(y: Year): string {
    match y
    case FirstYear => "1st Year"
    case SecondYear => "2nd Year"
    case ThirdYear => "3rd Year"
    case FourthYear => "4th Year"
  }

  function ParseYear(s: string): (r: Option<Year>)
    ensures r.Some? ==> YearName(r.value) == s
    ensures forall y :: YearName(y) == s ==> r == Some(y)
  {
    if s == "1st Year" then Some(FirstYear)
    else if s == "2nd Year" then Some(SecondYear)
    else if s == "3rd Year" then Some(ThirdYear)
    else if s == "4th Year" then Some(FourthYear)
    else None
  }

  function StatusName(st: ReportStatus): string {
    match st
    case Pending => "pending"
    case Reviewed => "reviewed"
    case Resolved => "resolved"
  }

  function ParseStatus(s: string): (r: Option<ReportStatus>)
    ensures r.Some? ==> StatusName(r.value) == s
    ensures forall st :: StatusName(st) == s ==> r == Some(st)
  {
    if s == "pending" then Some(Pending)
    else if s == "reviewed" then Some(Reviewed)
    else if s == "resolved" then Some(Resolved)
    else None
  }

  /** The literals of each enumeration are pairwise distinct, so a material's
      category (year, report status) is exactly one of the listed values. */
  lemma EnumNamesInjective()
    ensures forall c1, c2 :: CategoryName(c1) == CategoryName(c2) ==> c1 == c2
    ensures forall y1, y2 :: YearName(y1) == YearName(y2) ==> y1 == y2
    ensures forall s1, s2 :: StatusName(s1) == StatusName(s2) ==> s1 == s2
  {
  }

  /** The id a client appends to `voted`: `user?._id || ''`. */
  function VoterId(user: Option<User>): string {
    if user.Some? then user.value.id else ""
  }

  /** The quantity the detail page's vote update keeps fixed:
      every counted vote is matched by one appended id. */
  function Balance(m: Material): int {
    m.upvotes + m.downvotes - |m.voted|
  }
}
