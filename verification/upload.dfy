/** The upload endpoints: the extension whitelist, the stored file name,
    the outcome of `analyze_document` and the tally of
    `analyze_multiple_documents`.

    The file system, the upload stream, the UUID generator and the agent
    crew are not modelled; `Effects` says how each step would go for one
    request, and the generated identifier is a parameter. */
module Upload {
  import opened Strings
  import opened Normalizer
  import opened Paths
  import opened Ingestion

  const UploadDir := "uploads"

  /** The extensions an upload may have, compared after lower-casing. */
  const AllowedExtensions: set<string> := {".pdf", ".txt", ".csv", ".xlsx", ".xls"}

  /** The upload whitelist and the reader dispatch of `read_data` are written
      separately, but name the same five extensions. */
  lemma WhitelistIsReadable()
    ensures AllowedExtensions == SupportedExtensions
    ensures forall e :: e in AllowedExtensions ==> ReaderFor(e).Some?
  {
  }

  /** `validate_file_extension`: the lower-cased `os.path.splitext` extension
      is whitelisted. */
  predicate ValidateFileExtension(filename: string) {
    Lower(Ext(filename)) in AllowedExtensions
  }

  /** `doc_<id><ext>`, keeping the extension's original case. */
  function SafeFilename(id: string, filename: string): string {
    "doc_" + id + Ext(filename)
  }

  /** `os.path.join(UPLOAD_DIR, safe_filename)`. */
  function StoredPath(id: string, filename: string): string {
    UploadDir + "/" + SafeFilename(id, filename)
  }

  /** An identifier that keeps the stored name inside the upload directory,
      as the hex-and-dash text of a UUID does. */
  predicate PlainId(id: string) {
    forall i :: 0 <= i < |id| ==> id[i] != '/'
  }

  /** What the whitelist admits, the reader dispatch accepts: the stored copy
      of a validated upload keeps its extension as its pathlib suffix, so
      `read_data` never answers "Unsupported file type" for it. */
  lemma ValidatedUploadIsReadable(id: string, filename: string)
    requires PlainId(id)
    requires ValidateFileExtension(filename)
    ensures Lower(Suffix(StoredPath(id, filename))) == Lower(Ext(filename))
    ensures RouteFor(StoredPath(id, filename), true).Dispatch?
  {
    var ext := Ext(filename);
    var path := StoredPath(id, filename);
    AllowedExtensionShape(filename);
    StoredSuffix(id, ext);
    StoredPathParts(id, filename);
    assert Suffix(path) == ext;
    assert Lower(ext) in SupportedExtensions;
    SupportedIsDispatched(path);
  }

  lemma StoredPathParts(id: string, filename: string)
    ensures StoredPath(id, filename) == UploadDir + "/" + ("doc_" + id) + Ext(filename)
  {
  }

  /** The stored name keeps a proper extension as its pathlib suffix. */
  lemma StoredSuffix(id: string, ext: string)
    requires PlainId(id)
    requires |ext| >= 2 && ext[0] == '.'
    requires forall j :: 0 < j < |ext| ==> ext[j] != '.' && ext[j] != '/'
    ensures Suffix(UploadDir + "/" + ("doc_" + id) + ext) == ext
  {
    StemHasNoSlash(id);
    SuffixOfStoredName(UploadDir, "doc_" + id, ext);
  }

  /** A path with a supported suffix goes to a reader. */
  lemma SupportedIsDispatched(path: string)
    requires Lower(Suffix(path)) in SupportedExtensions
    ensures RouteFor(path, true).Dispatch?
  {
  }

  /** A whitelisted extension is a dot and at least one more character. */
  lemma AllowedExtensionShape(filename: string)
    requires ValidateFileExtension(filename)
    ensures |Ext(filename)| >= 2 && Ext(filename)[0] == '.'
    ensures forall j :: 0 < j < |Ext(filename)| ==> Ext(filename)[j] != '.' && Ext(filename)[j] != '/'
  {
    assert |Lower(Ext(filename))| >= 4;
  }

  lemma StemHasNoSlash(id: string)
    requires PlainId(id)
    ensures forall j :: 0 <= j < |"doc_" + id| ==> ("doc_" + id)[j] != '/'
  {
    var stem := "doc_" + id;
    forall j | 0 <= j < |stem| ensures stem[j] != '/' {
      if j >= 4 {
        assert stem[j] == id[j - 4];
      }
    }
  }

  /** The check ignores case: "REPORT.PDF" passes like "report.pdf". */
  lemma ExtensionCaseIgnored(root: string, ext: string)
    requires (exists k :: 0 <= k < |root| && root[k] != '.') && forall j :: 0 <= j < |root| ==> root[j] != '/'
    requires |ext| >= 1 && ext[0] == '.'
    requires forall j :: 0 < j < |ext| ==> ext[j] != '.' && ext[j] != '/'
    ensures ValidateFileExtension(root + ext) <==> Lower(ext) in AllowedExtensions
  {
    LastExtensionOnly(root, ext);
  }

  /** Only the last extension counts: "report.pdf.exe" is refused and
      "archive.exe.PDF" accepted, whatever the earlier extension. */
  lemma DoubleExtensionUsesLast(root: string, first: string, ext: string)
    requires (exists k :: 0 <= k < |root| && root[k] != '.') && forall j :: 0 <= j < |root| ==> root[j] != '/'
    requires |first| > 0 && forall j :: 0 <= j < |first| ==> first[j] != '/'
    requires |ext| >= 1 && ext[0] == '.'
    requires forall j :: 0 < j < |ext| ==> ext[j] != '.' && ext[j] != '/'
    ensures ValidateFileExtension(root + first + ext) <==> Lower(ext) in AllowedExtensions
  {
    LastOfTwo(root, first, ext);
  }

  /** Of two extensions, `os.path.splitext` takes the second. */
  lemma LastOfTwo(root: string, first: string, ext: string)
    requires (exists k :: 0 <= k < |root| && root[k] != '.') && forall j :: 0 <= j < |root| ==> root[j] != '/'
    requires |first| > 0 && forall j :: 0 <= j < |first| ==> first[j] != '/'
    requires |ext| >= 1 && ext[0] == '.'
    requires forall j :: 0 < j < |ext| ==> ext[j] != '.' && ext[j] != '/'
    ensures Ext(root + first + ext) == ext
  {
    var r := root + first;
    var k :| 0 <= k < |root| && root[k] != '.';
    assert r[k] == root[k];
    assert forall j :: 0 <= j < |r| ==> r[j] != '/' by {
      forall j | 0 <= j < |r| ensures r[j] != '/' {
        if j >= |root| {
          assert r[j] == first[j - |root|];
        }
      }
    }
    LastExtensionOnly(r, ext);
  }

  /** A name with no dot after its first character has no extension, so a
      file called ".pdf" is refused like one called "README". */
  lemma HiddenOrBareNameRefused()
    ensures !ValidateFileExtension(".pdf")
    ensures !ValidateFileExtension("README")
  {
    NoExtension(".pdf");
    NoExtension("README");
  }

  // ---------------------------------------------------------------------
  // analyze_document
  // ---------------------------------------------------------------------

  /** How one step that can raise goes. */
  datatype Outcome = Ok | Raised(message: string)

  /** How the crew run goes: its final output, an exception, or the
      300-second timeout. */
  datatype CrewOutcome = Finished(output: string) | CrewRaised(message: string) | TimedOut

  /** The effects of one request: creating the upload directory, reading the
      upload, writing the stored copy, running the crew. */
  datatype Effects = Effects(makeDir: Outcome, read: Outcome, write: Outcome, crew: CrewOutcome)

  datatype UploadFile = UploadFile(filename: string, content: seq<bv8>)

  /** The crew is started with the stripped query and the stored path. */
  datatype CrewRequest = CrewRequest(query: string, filePath: string)

  datatype Response =
    | Analyzed(query: string, analysis: string, fileProcessed: string, fileId: string, message: string)
    | HttpError(status: nat, detail: string)

  /** The 400 detail for a rejected extension, listing the whitelist. */
  const NotAllowedDetail := "File type not allowed. Allowed types: .pdf, .txt, .csv, .xlsx, .xls"

  /** The save step: either the upload is stored, or the request ends with
      this status and detail. */
  datatype SaveResult = Saved | SaveRejected(status: nat, detail: string)

  /** The save step as written: the 400 for an empty upload is raised inside
      the `try` whose `except Exception` turns every failure into a 500, so
      it surfaces as a 500 quoting `str()` of the 400. */
  function SaveAsWritten(content: seq<bv8>, read: Outcome, write: Outcome): (r: SaveResult)
    ensures r.SaveRejected? ==> r.status == 500
    ensures r.Saved? <==> read.Ok? && content != [] && write.Ok?
  {
    if read.Raised? then SaveRejected(500, "File save failed: " + read.message)
    else if content == [] then SaveRejected(500, "File save failed: " + "400: " + "Empty file uploaded")
    else if write.Raised? then SaveRejected(500, "File save failed: " + write.message)
    else Saved
  }

  /** The save step as intended: an empty upload is the client's error. */
  function Save(content: seq<bv8>, read: Outcome, write: Outcome): (r: SaveResult)
    ensures r.SaveRejected? && r.status == 400 <==> read.Ok? && content == []
    ensures r.Saved? <==> read.Ok? && content != [] && write.Ok?
  {
    if read.Raised? then SaveRejected(500, "File save failed: " + read.message)
    else if content == [] then SaveRejected(400, "Empty file uploaded")
    else if write.Raised? then SaveRejected(500, "File save failed: " + write.message)
    else Saved
  }

  /** The request once the extension is accepted, given how saving went:
      the crew runs exactly when the upload directory exists and the file was
      stored, on the stored path with the stripped query; a refused save is
      answered with its own status and detail. */
  function Process(u: UploadFile, query: string, id: string, fx: Effects, save: SaveResult): (r: (Response, Option<CrewRequest>))
    ensures r.1.Some? <==> fx.makeDir.Ok? && save.Saved?
    ensures r.1.Some? ==> r.1.value == CrewRequest(Strip(query), StoredPath(id, u.filename))
    ensures fx.makeDir.Raised? ==> r.0.HttpError? && r.0.status == 500
    ensures fx.makeDir.Ok? && save.SaveRejected? ==> r.0 == HttpError(save.status, save.detail)
    ensures r.0.Analyzed? <==> r.1.Some? && fx.crew.Finished?
    ensures r.1.Some? && fx.crew.TimedOut? ==> r.0 == HttpError(504, "Analysis timed out")
  {
    if fx.makeDir.Raised? then
      (HttpError(500, "Error processing financial document: " + fx.makeDir.message), None)
    else if save.SaveRejected? then (HttpError(save.status, save.detail), None)
    else
      var request := CrewRequest(Strip(query), StoredPath(id, u.filename));
      match fx.crew
      case Finished(out) => (Analyzed(query, out, u.filename, id, "Document analyzed successfully"), Some(request))
      case TimedOut => (HttpError(504, "Analysis timed out"), Some(request))
      case CrewRaised(m) =>
        (HttpError(500, "Error processing financial document: " + "Crew execution failed: " + m), Some(request))
  }

  /** `analyze_document` as written: the response and the crew run it starts,
      if any. A bad extension is refused with 400 before anything else
      happens; the crew runs exactly when the extension is accepted and a
      non-empty upload was stored, and then on the stored path with the
      stripped query; success means the crew finished, and echoes the query,
      the original name and the id. */
  function AnalyzeDocumentAsWritten(u: UploadFile, query: string, id: string, fx: Effects): (r: (Response, Option<CrewRequest>))
    ensures !ValidateFileExtension(u.filename) ==> r == (HttpError(400, NotAllowedDetail), None)
    ensures r.1.Some? <==> ValidateFileExtension(u.filename) && fx.makeDir.Ok? && fx.read.Ok? && u.content != [] && fx.write.Ok?
    ensures r.1.Some? ==> r.1.value == CrewRequest(Strip(query), StoredPath(id, u.filename))
    ensures r.0.Analyzed? <==> r.1.Some? && fx.crew.Finished?
    ensures r.0.Analyzed? ==> r.0.query == query && r.0.analysis == fx.crew.output
                              && r.0.fileProcessed == u.filename && r.0.fileId == id
    ensures r.0.HttpError? && r.0.status == 504 <==> r.1.Some? && fx.crew.TimedOut?
    ensures ValidateFileExtension(u.filename) && fx.makeDir.Ok? && fx.read.Ok? && u.content == [] ==>
      r == (HttpError(500, "File save failed: " + "400: " + "Empty file uploaded"), None)
  {
    if !ValidateFileExtension(u.filename) then (HttpError(400, NotAllowedDetail), None)
    else Process(u, query, id, fx, SaveAsWritten(u.content, fx.read, fx.write))
  }

  /** `analyze_document` with the empty-upload status corrected; apart from
      that status it promises what the code as written does. */
  function AnalyzeDocument(u: UploadFile, query: string, id: string, fx: Effects): (r: (Response, Option<CrewRequest>))
    ensures !ValidateFileExtension(u.filename) ==> r == (HttpError(400, NotAllowedDetail), None)
    ensures r.1.Some? <==> ValidateFileExtension(u.filename) && fx.makeDir.Ok? && fx.read.Ok? && u.content != [] && fx.write.Ok?
    ensures r.1.Some? ==> r.1.value == CrewRequest(Strip(query), StoredPath(id, u.filename))
    ensures r.0.Analyzed? <==> r.1.Some? && fx.crew.Finished?
    ensures r.0.Analyzed? ==> r.0.query == query && r.0.analysis == fx.crew.output
                              && r.0.fileProcessed == u.filename && r.0.fileId == id
    ensures r.0.HttpError? && r.0.status == 504 <==> r.1.Some? && fx.crew.TimedOut?
    ensures ValidateFileExtension(u.filename) && fx.makeDir.Ok? && fx.read.Ok? && u.content == [] ==>
      r == (HttpError(400, "Empty file uploaded"), None)
  {
    if !ValidateFileExtension(u.filename) then (HttpError(400, NotAllowedDetail), None)
    else Process(u, query, id, fx, Save(u.content, fx.read, fx.write))
  }

  /** As written, an empty upload with an accepted extension is answered
      with a server error quoting the intended client error. */
  lemma EmptyUploadAsWritten(name: string, query: string, id: string, fx: Effects)
    requires ValidateFileExtension(name) && fx.makeDir.Ok? && fx.read.Ok?
    ensures AnalyzeDocumentAsWritten(UploadFile(name, []), query, id, fx).0 ==
      HttpError(500, "File save failed: 400: Empty file uploaded")
  {
    EmptyUploadDetail();
    assert SaveAsWritten([], fx.read, fx.write) == SaveRejected(500, "File save failed: 400: Empty file uploaded");
  }

  lemma EmptyUploadDetail()
    ensures "File save failed: " + "400: " + "Empty file uploaded" == "File save failed: 400: Empty file uploaded"
  {
  }

  /** Corrected, an empty upload is refused with 400 and never reaches the crew. */
  lemma EmptyUploadRejected(name: string, query: string, id: string, fx: Effects)
    requires ValidateFileExtension(name) && fx.makeDir.Ok? && fx.read.Ok?
    ensures AnalyzeDocument(UploadFile(name, []), query, id, fx) == (HttpError(400, "Empty file uploaded"), None)
  {
  }

  /** The two agree on every request that is not an empty upload. */
  lemma OnlyEmptyUploadsDiffer(u: UploadFile, query: string, id: string, fx: Effects)
    requires u.content != [] || fx.read.Raised?
    ensures AnalyzeDocumentAsWritten(u, query, id, fx) == AnalyzeDocument(u, query, id, fx)
  {
  }

  // ---------------------------------------------------------------------
  // analyze_multiple_documents
  // ---------------------------------------------------------------------

  datatype BatchEntry =
    | Succeeded(filename: string, result: Response)
    | FailedEntry(filename: string, error: string)

  datatype BatchReport = BatchReport(totalFiles: nat, successful: nat, failed: nat, results: seq<BatchEntry>)

  /** `str()` of the `HTTPException` a failed request raises. */
  function ErrorText(r: Response): string
    requires r.HttpError?
  {
    NatToString(r.status) + ": " + r.detail
  }

  /** How one file's response is recorded: every failure is caught and
      recorded under the file's name. */
  function Record(filename: string, r: Response): (e: BatchEntry)
    ensures e.filename == filename
    ensures e.Succeeded? <==> r.Analyzed?
    ensures e.Succeeded? ==> e.result == r
    ensures e.FailedEntry? ==> e.error == NatToString(r.status) + ": " + r.detail
  {
    if r.Analyzed? then Succeeded(filename, r) else FailedEntry(filename, ErrorText(r))
  }

  /** One file of the batch, processed by `analyze_document` as written. */
  function Entry(u: UploadFile, query: string, id: string, fx: Effects): (e: BatchEntry)
    ensures e.filename == u.filename
    ensures e.Succeeded? <==> AnalyzeDocumentAsWritten(u, query, id, fx).0.Analyzed?
  {
    Record(u.filename, AnalyzeDocumentAsWritten(u, query, id, fx).0)
  }

  /** In a batch, an empty upload with an accepted extension is recorded as
      failed with the text of the 500 that wraps the intended 400. */
  lemma EmptyUploadInBatch(name: string, query: string, id: string, fx: Effects)
    requires ValidateFileExtension(name) && fx.makeDir.Ok? && fx.read.Ok?
    ensures Entry(UploadFile(name, []), query, id, fx) ==
      FailedEntry(name, "500: " + "File save failed: 400: Empty file uploaded")
  {
    EmptyUploadAsWritten(name, query, id, fx);
    var r := AnalyzeDocumentAsWritten(UploadFile(name, []), query, id, fx).0;
    assert NatToString(500) == "500";
    StatusColon();
  }

  lemma StatusColon()
    ensures "500" + ": " == "500: "
  {
  }

  function CountSucceeded(es: seq<BatchEntry>): nat {
    if es == [] then 0 else (if es[0].Succeeded? then 1 else 0) + CountSucceeded(es[1..])
  }

  function CountFailed(es: seq<BatchEntry>): nat {
    if es == [] then 0 else (if es[0].FailedEntry? then 1 else 0) + CountFailed(es[1..])
  }

  /** Every entry is counted once, as a success or as a failure. */
  lemma {:induction false} CountsAddUp(es: seq<BatchEntry>)
    ensures CountSucceeded(es) + CountFailed(es) == |es|
  {
    if es != [] {
      CountsAddUp(es[1..]);
    }
  }

  /** The loop of `analyze_multiple_documents`, given each file's response
      in upload order: one record per file, then the two tallies. */
  method RecordBatch(files: seq<UploadFile>, responses: seq<Response>) returns (report: BatchReport)
    requires |responses| == |files|
    ensures report.totalFiles == |files| == |report.results|
    ensures forall i :: 0 <= i < |files| ==> report.results[i] == Record(files[i].filename, responses[i])
    ensures report.successful == CountSucceeded(report.results)
    ensures report.failed == CountFailed(report.results)
    ensures report.successful + report.failed == report.totalFiles
  {
    var results: seq<BatchEntry> := [];
    var i := 0;
    while i < |files|
      invariant 0 <= i <= |files|
      invariant |results| == i
      invariant forall j :: 0 <= j < i ==> results[j] == Record(files[j].filename, responses[j])
    {
      results := results + [Record(files[i].filename, responses[i])];
      i := i + 1;
    }
    CountsAddUp(results);
    report := BatchReport(|files|, CountSucceeded(results), CountFailed(results), results);
  }

  /** `analyze_multiple_documents`: the files are processed in order by
      `analyze_document` as written, each with its own identifier and
      effects, and the tallies add up to the number of files. */
  method AnalyzeBatch(files: seq<UploadFile>, query: string, ids: seq<string>, fxs: seq<Effects>)
    returns (report: BatchReport)
    requires |ids| == |files| && |fxs| == |files|
    ensures report.totalFiles == |files| == |report.results|
    ensures forall i :: 0 <= i < |files| ==> report.results[i] == Entry(files[i], query, ids[i], fxs[i])
    ensures report.successful == CountSucceeded(report.results)
    ensures report.failed == CountFailed(report.results)
    ensures report.successful + report.failed == report.totalFiles
  {
    var responses := seq(|files|, k requires 0 <= k < |files| => AnalyzeDocumentAsWritten(files[k], query, ids[k], fxs[k]).0);
    report := RecordBatch(files, responses);
  }
}
