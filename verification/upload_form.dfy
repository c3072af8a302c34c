/** src/components/Materials/UploadMaterialForm.tsx: the upload form, its
    schema, its PDF check and its submit handler. */
module UploadForm {
  import opened Types

  /** The form values the schema validates. Category and year are the
      strings the selects hold; `file` is set by the file input. */
  datatype UploadValues = UploadValues(
    title: string,
    description: string,
    category: string,
    year: string,
    file: Option<FileInfo>)

  /** One schema failure, named after its field and check. */
  datatype Issue =
    | TitleTooShort | TitleTooLong
    | DescriptionTooShort | DescriptionTooLong
    | CategoryNotListed | YearNotListed
    | FileRequired

  /** The schema's category literals, in declaration order. */
  const SchemaCategories: seq<string> :=
    ["Previous Year Papers", "Handwritten Notes", "Books", "Short Notes", "Handbooks"]

  /** The schema's year literals, in declaration order. */
  const SchemaYears: seq<string> := ["1st Year", "2nd Year", "3rd Year", "4th Year"]

  /** `z.enum` of the category literals. */
  predicate CategoryListed(s: string) {
    s in SchemaCategories
  }

  /** `z.enum` of the year literals. */
  predicate YearListed(s: string) {
    s in SchemaYears
  }

  /** The schema's enumerations accept exactly the literals of the record
      types: a string is listed iff it parses as a category (year). */
  lemma SchemaEnumsMatchTypes(s: string)
    ensures s in SchemaCategories <==> ParseCategory(s).Some?
    ensures s in SchemaYears <==> ParseYear(s).Some?
    ensures forall c :: CategoryName(c) in SchemaCategories
    ensures forall y :: YearName(y) in SchemaYears
  {
  }

  /** Whether `v` fails the check behind `issue`. Lengths are code-unit
      counts; `refine(file => file)` fails on a missing file. */
  predicate Fails(v: UploadValues, issue: Issue) {
    match issue
    case TitleTooShort => |v.title| < 3
    case TitleTooLong => |v.title| > 100
    case DescriptionTooShort => |v.description| < 10
    case DescriptionTooLong => |v.description| > 500
    case CategoryNotListed => !CategoryListed(v.category)
    case YearNotListed => !YearListed(v.year)
    case FileRequired => v.file.None?
  }

  /** The one-element report of a check that fails, or nothing. */
  function Check(v: UploadValues, issue: Issue): seq<Issue> {
    if Fails(v, issue) then [issue] else []
  }

  /** `uploadSchema`: every failing check, in the schema's field order. */
  function Issues(v: UploadValues): seq<Issue> {
    Check(v, TitleTooShort) + Check(v, TitleTooLong)
    + Check(v, DescriptionTooShort) + Check(v, DescriptionTooLong)
    + Check(v, CategoryNotListed) + Check(v, YearNotListed)
    + Check(v, FileRequired)
  }

  /** The schema reports exactly the checks the values fail. */
  lemma IssuesAreFailures(v: UploadValues)
    ensures forall issue :: issue in Issues(v) <==> Fails(v, issue)
  {
  }

  /** Values the schema accepts. */
  predicate Valid(v: UploadValues) {
    Issues(v) == []
  }

  /** The schema accepts exactly: a title of 3 to 100 characters, a
      description of 10 to 500, a listed category and year, and a file. */
  lemma ValidIff(v: UploadValues)
    ensures Valid(v) <==>
              && 3 <= |v.title| <= 100
              && 10 <= |v.description| <= 500
              && ParseCategory(v.category).Some?
              && ParseYear(v.year).Some?
              && v.file.Some?
  {
  }

  /** The form's state: the values and the separately kept selected file. */
  datatype UploadState = UploadState(values: UploadValues, selectedFile: Option<FileInfo>)

  /** `defaultValues`: empty texts, the first category and year, no file. */
  const InitialState: UploadState :=
    UploadState(UploadValues("", "", "Previous Year Papers", "1st Year", None), None)

  /** The selected file and the schema's `file` value agree. */
  predicate FileInSync(st: UploadState) {
    st.values.file == st.selectedFile
  }

  /** The defaults pass the enumerations, fail only on the empty title,
      description and file, and start in sync. */
  lemma InitialStateIssues()
    ensures Issues(InitialState.values) == [TitleTooShort, DescriptionTooShort, FileRequired]
    ensures ParseCategory(InitialState.values.category) == Some(PreviousYearPapers)
    ensures ParseYear(InitialState.values.year) == Some(FirstYear)
    ensures FileInSync(InitialState)
  {
  }

  const MaxPdfBytes: nat := 10 * 1024 * 1024

  /** What the file check decided. */
  datatype FileCheck = NoFileChosen | NotPdf | PdfTooLarge | PdfAccepted

  /** `handleFileChange`: a PDF of at most 10 MiB becomes both the selected
      file and the form's `file`; anything else leaves the state as it was. */
  function HandleFileChange(st: UploadState, chosen: Option<FileInfo>): (r: (FileCheck, UploadState))
    ensures r.0 == PdfAccepted <==>
              chosen.Some? && chosen.value.mimeType == "application/pdf" && chosen.value.size <= MaxPdfBytes
    ensures r.0 == NotPdf <==> chosen.Some? && chosen.value.mimeType != "application/pdf"
    ensures r.0 == PdfTooLarge <==>
              chosen.Some? && chosen.value.mimeType == "application/pdf" && chosen.value.size > MaxPdfBytes
    ensures r.0 == PdfAccepted ==> r.1 == UploadState(st.values.(file := chosen), chosen)
    ensures r.0 != PdfAccepted ==> r.1 == st
    ensures FileInSync(st) ==> FileInSync(r.1)
  {
    if chosen.None? then (NoFileChosen, st)
    else if chosen.value.mimeType != "application/pdf" then (NotPdf, st)
    else if chosen.value.size > MaxPdfBytes then (PdfTooLarge, st)
    else (PdfAccepted, UploadState(st.values.(file := chosen), chosen))
  }

  /** The text and select fields of the form. */
  datatype TextField = Title | Description | CategorySelect | YearSelect

  /** A field's `onChange`: only that value changes. */
  function SetField(st: UploadState, field: TextField, value: string): (r: UploadState)
    ensures r.selectedFile == st.selectedFile && r.values.file == st.values.file
    ensures field == Title ==> r.values == st.values.(title := value)
    ensures field == Description ==> r.values == st.values.(description := value)
    ensures field == CategorySelect ==> r.values == st.values.(category := value)
    ensures field == YearSelect ==> r.values == st.values.(year := value)
  {
    match field
    case Title => st.(values := st.values.(title := value))
    case Description => st.(values := st.values.(description := value))
    case CategorySelect => st.(values := st.values.(category := value))
    case YearSelect => st.(values := st.values.(year := value))
  }

  /** The multipart payload: field names and values, in append order. */
  datatype Part = TextPart(key: string, text: string) | FilePart(key: string, file: FileInfo)

  /** What submitting did. `Created` navigates to "/my-materials". */
  datatype SubmitResult =
    | Rejected(issues: seq<Issue>)
    | NoFileSelected
    | UploadFailed(payload: seq<Part>)
    | Created(payload: seq<Part>)
  {
    predicate ServiceCalled() { UploadFailed? || Created? }
  }

  /** `form.handleSubmit(onSubmit)`: the schema runs first; `onSubmit` then
      checks the selected file and sends the payload, whose outcome is
      `callSucceeds`. */
  function Submit(st: UploadState, callSucceeds: bool): (r: SubmitResult)
    ensures r.Rejected? <==> !Valid(st.values)
    ensures r.Rejected? ==> r.issues == Issues(st.values) && r.issues != []
    ensures r == NoFileSelected <==> Valid(st.values) && st.selectedFile.None?
    ensures r.ServiceCalled() ==>
              && Valid(st.values) && st.selectedFile.Some?
              && r.payload == [TextPart("title", st.values.title),
                               TextPart("description", st.values.description),
                               TextPart("category", st.values.category),
                               TextPart("year", st.values.year),
                               FilePart("file", st.selectedFile.value)]
    ensures r.Created? <==> Valid(st.values) && st.selectedFile.Some? && callSucceeds
  {
    if !Valid(st.values) then Rejected(Issues(st.values))
    else if st.selectedFile.None? then NoFileSelected
    else
      var payload := [TextPart("title", st.values.title),
                      TextPart("description", st.values.description),
                      TextPart("category", st.values.category),
                      TextPart("year", st.values.year),
                      FilePart("file", st.selectedFile.value)];
      if callSucceeds then Created(payload) else UploadFailed(payload)
  }

  /** Every state the form reaches from its defaults keeps the file in sync,
      so the "no file selected" branch of `onSubmit` is never taken: a
      missing file already fails the schema. */
  lemma NoFileBranchUnreachable(st: UploadState, callSucceeds: bool)
    requires FileInSync(st)
    ensures Submit(st, callSucceeds) != NoFileSelected
    ensures st.selectedFile.None? ==> Submit(st, callSucceeds) == Rejected(Issues(st.values))
    ensures Submit(st, callSucceeds).ServiceCalled() ==>
              Submit(st, callSucceeds).payload[4] == FilePart("file", st.values.file.value)
  {
  }

  /** A rejected file never changes what would be submitted. */
  lemma RejectedFileKeepsSubmit(st: UploadState, chosen: Option<FileInfo>, callSucceeds: bool)
    requires HandleFileChange(st, chosen).0 != PdfAccepted
    ensures Submit(HandleFileChange(st, chosen).1, callSucceeds) == Submit(st, callSucceeds)
  {
  }
}
