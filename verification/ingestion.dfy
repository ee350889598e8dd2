/** Document ingestion: `FinancialDocumentTool.read_data` and the three
    format readers it dispatches to.

    The file system and the parsing libraries are not modelled; a `FileView`
    says what each of them would report for the path (whether it exists, what
    the PDF library extracts page by page, what the text decoder returns,
    what the spreadsheet loader renders), and `Capabilities` says which
    optional libraries are installed. */
module Ingestion {
  import opened Strings
  import opened Normalizer
  import opened Paths

  /** What the PDF library reports for one page. */
  datatype PageOutcome =
    | PageText(text: string)   // extract_text() returned this string (possibly "")
    | NoText                    // extract_text() returned None
    | Failed(message: string)   // extract_text() raised; str(e)

  datatype PdfSource = Pages(pages: seq<PageOutcome>) | PdfUnreadable(message: string)
  /** The text file after encoding detection and lossy decoding. */
  datatype TextSource = Decoded(content: string) | TextUnreadable(message: string)
  /** The loaded table: its shape and its rendered first 50 rows. */
  datatype SheetSource = Table(rows: nat, columns: nat, preview: string) | SheetUnreadable(message: string)

  datatype FileView = FileView(present: bool, pdf: PdfSource, text: TextSource, sheet: SheetSource)
  datatype Capabilities = Capabilities(pdfSupport: bool, spreadsheetSupport: bool)

  datatype Reader = PdfReader | TextReader | SpreadsheetReader
  datatype Route = NotFound | Unsupported(ext: string) | Dispatch(reader: Reader)

  /** The lower-cased extensions `read_data` has a reader for. */
  const SupportedExtensions: set<string> := {".pdf", ".txt", ".csv", ".xlsx", ".xls"}

  /** The reader for a lower-cased extension, if there is one. */
  function ReaderFor(ext: string): (r: Option<Reader>)
    ensures r.None? <==> ext !in SupportedExtensions
    ensures r == Some(PdfReader) <==> ext == ".pdf"
    ensures r == Some(TextReader) <==> ext == ".txt"
    ensures r == Some(SpreadsheetReader) <==> ext in {".csv", ".xlsx", ".xls"}
  {
    if ext == ".pdf" then Some(PdfReader)
    else if ext == ".txt" then Some(TextReader)
    else if ext == ".csv" || ext == ".xlsx" || ext == ".xls" then Some(SpreadsheetReader)
    else None
  }

  /** The branch `read_data` takes: existence is checked before the extension,
      and the extension is the lower-cased pathlib suffix. */
  function RouteFor(path: string, present: bool): (r: Route)
    ensures r.NotFound? <==> !present
    ensures r.Unsupported? <==> present && Lower(Suffix(path)) !in SupportedExtensions
    ensures r.Unsupported? ==> r.ext == Lower(Suffix(path))
    ensures r.Dispatch? ==> Some(r.reader) == ReaderFor(Lower(Suffix(path)))
  {
    if !present then NotFound
    else
      var ext := Lower(Suffix(path));
      match ReaderFor(ext)
      case None => Unsupported(ext)
      case Some(reader) => Dispatch(reader)
  }

  // ---------------------------------------------------------------------
  // PDF reader: page assembly
  // ---------------------------------------------------------------------

  function PageMarker(n: nat): string {
    "--- Page " + NatToString(n)
  }

  /** The section page `n` contributes: none for an empty or missing text, the
      normalised text under a header, or an inline error marker. */
  function PageSection(n: nat, o: PageOutcome): seq<string> {
    match o
    case PageText(t) => if t == "" then [] else [PageMarker(n) + " ---\n" + CleanText(t)]
    case NoText => []
    case Failed(m) => [PageMarker(n) + " [Error extracting: " + m + "] ---"]
  }

  /** A page yields a section unless its text is empty or missing. */
  predicate Contributes(o: PageOutcome) {
    o.Failed? || (o.PageText? && o.text != "")
  }

  /** The sections of `pages`, the first page being numbered `first`. */
  function PageSections(pages: seq<PageOutcome>, first: nat): seq<string> {
    Numbered(PageSection, pages, first)
  }

  /** Item `i` of `xs` (0-based) contributes `section(first + i, xs[i])`. */
  function Numbered<T>(section: (nat, T) -> seq<string>, xs: seq<T>, first: nat): seq<string> {
    if xs == [] then [] else section(first, xs[0]) + Numbered(section, xs[1..], first + 1)
  }

  /** Number of pages that yield a section. */
  function CountContributing(pages: seq<PageOutcome>): nat {
    if pages == [] then 0 else (if Contributes(pages[0]) then 1 else 0) + CountContributing(pages[1..])
  }

  /** The text of a readable PDF: its sections joined by blank lines. */
  function PdfText(pages: seq<PageOutcome>): string {
    Join(PageSections(pages, 1), "\n\n")
  }

  /** Items are numbered by position: the sections of `a + b` are those of
      `a` followed by those of `b` numbered on from where `a` stopped. */
  lemma {:induction false} NumberedAppend<T>(section: (nat, T) -> seq<string>, a: seq<T>, b: seq<T>, first: nat)
    ensures Numbered(section, a + b, first) == Numbered(section, a, first) + Numbered(section, b, first + |a|)
  {
    if a == [] {
      assert a + b == b;
    } else {
      assert (a + b)[0] == a[0];
      assert (a + b)[1..] == a[1..] + b;
      NumberedAppend(section, a[1..], b, first + 1);
    }
  }

  lemma NumberedOne<T>(section: (nat, T) -> seq<string>, x: T, n: nat)
    ensures Numbered(section, [x], n) == section(n, x)
  {
    assert [x][1..] == [];
  }

  lemma NumberedSplit<T>(section: (nat, T) -> seq<string>, pre: seq<T>, x: T, post: seq<T>, first: nat)
    ensures Numbered(section, pre + [x] + post, first) ==
      Numbered(section, pre, first) + section(first + |pre|, x) + Numbered(section, post, first + |pre| + 1)
  {
    var n := first + |pre|;
    var rest := [x] + post;
    assert pre + [x] + post == pre + rest;
    NumberedAppend(section, pre, rest, first);
    NumberedAppend(section, [x], post, n);
    NumberedOne(section, x, n);
  }

  /** Pages are numbered by position: the sections of `a + b` are those of `a`
      followed by those of `b` numbered on from where `a` stopped. */
  lemma PageSectionsAppend(a: seq<PageOutcome>, b: seq<PageOutcome>, first: nat)
    ensures PageSections(a + b, first) == PageSections(a, first) + PageSections(b, first + |a|)
  {
    NumberedAppend(PageSection, a, b, first);
  }

  /** Each page is handled on its own: page `k` (0-based) contributes exactly
      its own section, numbered `k + 1`, between the sections of the pages
      before it and those after it. A failure on one page therefore neither
      stops nor renumbers the others. */
  lemma PageSectionsAt(pages: seq<PageOutcome>, k: nat)
    requires k < |pages|
    ensures PageSections(pages, 1) ==
      PageSections(pages[..k], 1) + PageSection(k + 1, pages[k]) + PageSections(pages[k + 1..], k + 2)
  {
    assert pages == pages[..k] + [pages[k]] + pages[k + 1..];
    NumberedSplit(PageSection, pages[..k], pages[k], pages[k + 1..], 1);
  }

  /** The sections of one more page are those before plus its own. */
  lemma PageSectionsStep(pages: seq<PageOutcome>, i: nat)
    requires i < |pages|
    ensures PageSections(pages[..i + 1], 1) == PageSections(pages[..i], 1) + PageSection(i + 1, pages[i])
  {
    assert pages[..i + 1] == pages[..i] + [pages[i]];
    NumberedAppend(PageSection, pages[..i], [pages[i]], 1);
    NumberedOne(PageSection, pages[i], i + 1);
  }

  lemma PageSectionsOne(o: PageOutcome, n: nat)
    ensures PageSections([o], n) == PageSection(n, o)
  {
    NumberedOne(PageSection, o, n);
  }

  /** One section per page whose text is non-empty or whose extraction failed. */
  lemma {:induction false} PageSectionsCount(pages: seq<PageOutcome>, first: nat)
    ensures |PageSections(pages, first)| == CountContributing(pages)
  {
    if pages != [] {
      PageSectionsCount(pages[1..], first + 1);
    }
  }

  /** The page loop of `_read_pdf`: number pages from 1, append a section per
      page, then join the sections with blank lines. */
  method AssemblePages(pages: seq<PageOutcome>) returns (text: string)
    ensures text == PdfText(pages)
  {
    var fullText: seq<string> := [];
    var i := 0;
    while i < |pages|
      invariant 0 <= i <= |pages|
      invariant fullText == PageSections(pages[..i], 1)
    {
      var pageNum := i + 1;
      var before := fullText;
      match pages[i] {
        case PageText(t) =>
          if t != "" {
            fullText := fullText + [PageMarker(pageNum) + " ---\n" + CleanText(t)];
          }
        case NoText =>
        case Failed(m) =>
          fullText := fullText + [PageMarker(pageNum) + " [Error extracting: " + m + "] ---"];
      }
      assert fullText == before + PageSection(pageNum, pages[i]);
      PageSectionsStep(pages, i);
      i := i + 1;
    }
    assert pages[..i] == pages;
    text := Join(fullText, "\n\n");
  }

  /** `_read_pdf`. */
  function ReadPdf(caps: Capabilities, src: PdfSource): string {
    if !caps.pdfSupport then "PDF support not available." + " Install pypdf package."
    else match src
      case PdfUnreadable(m) => "PDF processing failed: " + m
      case Pages(ps) => PdfText(ps)
  }

  /** `_read_text`: the decoded content, normalised. */
  function ReadText(src: TextSource): string {
    match src
    case Decoded(c) => CleanText(c)
    case TextUnreadable(m) => "Text file processing failed: " + m
  }

  /** `_read_spreadsheet`: a header naming the file, the shape line and the
      preview, joined by newlines. The preview is not normalised. */
  function ReadSpreadsheet(caps: Capabilities, path: string, src: SheetSource): string {
    if !caps.spreadsheetSupport then "Excel/CSV support not available." + " Install pandas package."
    else match src
      case SheetUnreadable(m) => "Spreadsheet processing failed: " + m
      case Table(rows, cols, preview) =>
        Join(["--- Spreadsheet Data: " + Name(path) + " ---",
              "Shape: " + NatToString(rows) + " rows × " + NatToString(cols) + " columns",
              "\nFirst 50 rows preview:",
              preview], "\n")
  }

  /** `read_data`: missing files and unsupported types become `ERROR:` text;
      everything else is the chosen reader's output. */
  function ReadData(path: string, view: FileView, caps: Capabilities): (r: string)
    ensures !view.present ==> r == "ERROR: File not found: " + path
    ensures view.present && Lower(Suffix(path)) !in SupportedExtensions ==>
      r == "ERROR: Unsupported file type: " + Lower(Suffix(path))
    ensures view.present && Lower(Suffix(path)) == ".pdf" ==> r == ReadPdf(caps, view.pdf)
    ensures view.present && Lower(Suffix(path)) == ".txt" ==> r == ReadText(view.text)
    ensures view.present && Lower(Suffix(path)) in {".csv", ".xlsx", ".xls"} ==>
      r == ReadSpreadsheet(caps, path, view.sheet)
  {
    match RouteFor(path, view.present)
    case NotFound => "ERROR: File not found: " + path
    case Unsupported(ext) => "ERROR: Unsupported file type: " + ext
    case Dispatch(PdfReader) => ReadPdf(caps, view.pdf)
    case Dispatch(TextReader) => ReadText(view.text)
    case Dispatch(SpreadsheetReader) => ReadSpreadsheet(caps, path, view.sheet)
  }

  /** The `ERROR:` prefix `read_data` puts on its own refusals. */
  predicate Marked(s: string) {
    |s| >= 6 && s[..6] == "ERROR:"
  }

  /** A missing file and an unsupported type are answered with marked text. */
  lemma RefusalsMarked(path: string, view: FileView, caps: Capabilities)
    requires !RouteFor(path, view.present).Dispatch?
    ensures Marked(ReadData(path, view, caps))
  {
  }

  /** Marked output is a refusal of `read_data`, or a text document's own
      decoded content. */
  lemma MarkedMeansRefusedOrDocument(path: string, view: FileView, caps: Capabilities)
    ensures Marked(ReadData(path, view, caps)) ==>
      !RouteFor(path, view.present).Dispatch? || (RouteFor(path, view.present) == Dispatch(TextReader) && view.text.Decoded?)
  {
    var m := if view.text.TextUnreadable? then view.text.message else "";
    ReadersNeverMark(caps, path, view.pdf, view.sheet, m);
  }

  /** The readers never mark their own answers: a missing library or a failed
      read is reported in words of the reader's own, a PDF's text starts with
      a page header and a spreadsheet's with its data header. */
  lemma ReadersNeverMark(caps: Capabilities, path: string, pdf: PdfSource, sheet: SheetSource, m: string)
    ensures !Marked(ReadPdf(caps, pdf))
    ensures !Marked(ReadSpreadsheet(caps, path, sheet))
    ensures !Marked(ReadText(TextUnreadable(m)))
  {
    PdfNeverMarked(caps, pdf);
    SheetNeverMarked(caps, path, sheet);
    TextFailureUnmarked(m);
  }

  lemma TextFailureUnmarked(m: string)
    ensures !Marked(ReadText(TextUnreadable(m)))
  {
    assert ("Text file processing failed: " + m)[1] == 'e';
    UnmarkedBySecond(ReadText(TextUnreadable(m)));
  }

  lemma PdfNeverMarked(caps: Capabilities, pdf: PdfSource)
    ensures !Marked(ReadPdf(caps, pdf))
  {
    if !caps.pdfSupport {
      PdfLibraryMissingUnmarked();
    } else if pdf.PdfUnreadable? {
      assert ("PDF processing failed: " + pdf.message)[1] == 'D';
      UnmarkedBySecond(ReadPdf(caps, pdf));
    } else {
      PdfTextStartsWithDash(pdf.pages);
      UnmarkedByFirst(ReadPdf(caps, pdf));
    }
  }

  lemma SheetNeverMarked(caps: Capabilities, path: string, sheet: SheetSource)
    ensures !Marked(ReadSpreadsheet(caps, path, sheet))
  {
    if !caps.spreadsheetSupport {
      SheetLibraryMissingUnmarked();
    } else if sheet.SheetUnreadable? {
      assert ("Spreadsheet processing failed: " + sheet.message)[1] == 'p';
      UnmarkedBySecond(ReadSpreadsheet(caps, path, sheet));
    } else {
      var parts := ["--- Spreadsheet Data: " + Name(path) + " ---",
                    "Shape: " + NatToString(sheet.rows) + " rows × " + NatToString(sheet.columns) + " columns",
                    "\nFirst 50 rows preview:",
                    sheet.preview];
      assert parts[0][0] == '-';
      JoinStartsWith(parts, "\n");
      UnmarkedByFirst(ReadSpreadsheet(caps, path, sheet));
    }
  }

  lemma PdfLibraryMissingUnmarked()
    ensures !Marked("PDF support not available." + " Install pypdf package.")
  {
    assert ("PDF support not available." + " Install pypdf package.")[0] == 'P';
    UnmarkedByFirst("PDF support not available." + " Install pypdf package.");
  }

  lemma SheetLibraryMissingUnmarked()
    ensures !Marked("Excel/CSV support not available." + " Install pandas package.")
  {
    assert ("Excel/CSV support not available." + " Install pandas package.")[1] == 'x';
    UnmarkedBySecond("Excel/CSV support not available." + " Install pandas package.");
  }

  /** Marked text has 'R' as its second character. */
  lemma UnmarkedBySecond(s: string)
    requires |s| >= 2 && s[1] != 'R'
    ensures !Marked(s)
  {
  }

  /** Marked text starts with 'E'. */
  lemma UnmarkedByFirst(s: string)
    requires s == [] || s[0] != 'E'
    ensures !Marked(s)
  {
  }

  /** A joined list starts with the first character of its first part. */
  lemma JoinStartsWith(parts: seq<string>, sep: string)
    requires parts != [] && parts[0] != []
    ensures Join(parts, sep) != [] && Join(parts, sep)[0] == parts[0][0]
  {
  }

  /** Every section of a PDF starts with a dash. */
  lemma {:induction false} SectionsStartWithDash(pages: seq<PageOutcome>, first: nat)
    ensures forall i :: 0 <= i < |PageSections(pages, first)| ==>
      PageSections(pages, first)[i] != [] && PageSections(pages, first)[i][0] == '-'
    decreases |pages|
  {
    if pages != [] {
      SectionsStartWithDash(pages[1..], first + 1);
      var head := PageSection(first, pages[0]);
      assert PageSections(pages, first) == head + PageSections(pages[1..], first + 1);
      assert forall j :: 0 <= j < |head| ==> head[j] != [] && head[j][0] == PageMarker(first)[0] == '-';
    }
  }

  lemma PdfTextStartsWithDash(pages: seq<PageOutcome>)
    ensures PdfText(pages) == [] || PdfText(pages)[0] == '-'
  {
    SectionsStartWithDash(pages, 1);
    if PageSections(pages, 1) != [] {
      JoinStartsWith(PageSections(pages, 1), "\n\n");
    }
  }

  /** A document's own text that is already in normal form (ASCII, one line,
      no double space, no whitespace at either end) is passed through as it
      is, whatever it says. */
  lemma NormalTextPassesThrough(c: string)
    requires AllAscii(c) && NoDoubleSpace(c)
    requires forall i :: 0 <= i < |c| ==> c[i] != '\n'
    requires c == [] || (!IsSpace(c[0]) && !IsSpace(c[|c| - 1]))
    ensures ReadText(Decoded(c)) == c
  {
    if c != [] {
      NoNewlineCollapsed(c);
      CollapseSpacesFixpoint(c);
      ReplaceNonAsciiFixpoint(c);
      StripTrimmed(c);
    }
  }

  /** So a text document reading just "ERROR:" comes back marked, although
      no refusal happened. */
  lemma DocumentTextCanBeMarked()
    ensures Marked(ReadText(Decoded("ERROR:")))
  {
    NormalTextPassesThrough("ERROR:");
  }

  /** A three-page PDF whose second page fails to extract: pages 1 and 3 are
      kept, normalised, around an inline marker for page 2, in page order. */
  lemma MiddlePageFailure(a: string, m: string, c: string)
    requires a != "" && c != ""
    ensures PdfText([PageText(a), Failed(m), PageText(c)]) ==
      Join(["--- Page 1 ---\n" + CleanText(a),
            "--- Page 2 [Error extracting: " + m + "] ---",
            "--- Page 3 ---\n" + CleanText(c)], "\n\n")
  {
    SmallMarkers();
    var pages := [PageText(a), Failed(m), PageText(c)];
    var s1 := "--- Page 1 ---\n" + CleanText(a);
    var s2 := "--- Page 2 [Error extracting: " + m + "] ---";
    var s3 := "--- Page 3 ---\n" + CleanText(c);
    assert PageSection(1, pages[0]) == [PageMarker(1) + " ---\n" + CleanText(a)];
    assert PageSection(1, pages[0]) == [s1];
    assert PageSection(2, pages[1]) == [s2];
    assert PageSection(3, pages[2]) == [s3];
    NumberedThree(PageSection, pages, s1, s2, s3);
  }

  lemma SmallMarkers()
    ensures PageMarker(1) + " ---\n" == "--- Page 1 ---\n"
    ensures PageMarker(2) + " [Error extracting: " == "--- Page 2 [Error extracting: "
    ensures PageMarker(3) + " ---\n" == "--- Page 3 ---\n"
  {
    assert NatToString(1) == "1" && NatToString(2) == "2" && NatToString(3) == "3";
    LiteralMarkers();
  }

  lemma LiteralMarkers()
    ensures "--- Page " + "1" + " ---\n" == "--- Page 1 ---\n"
    ensures "--- Page " + "2" + " [Error extracting: " == "--- Page 2 [Error extracting: "
    ensures "--- Page " + "3" + " ---\n" == "--- Page 3 ---\n"
  {
  }

  lemma NumberedThree<T>(section: (nat, T) -> seq<string>, xs: seq<T>, s1: string, s2: string, s3: string)
    requires |xs| == 3
    requires section(1, xs[0]) == [s1]
    requires section(2, xs[1]) == [s2]
    requires section(3, xs[2]) == [s3]
    ensures Numbered(section, xs, 1) == [s1, s2, s3]
  {
    assert xs == [xs[0]] + [xs[1]] + [xs[2]];
    NumberedSplit(section, [xs[0]], xs[1], [xs[2]], 1);
    NumberedOne(section, xs[0], 1);
    NumberedOne(section, xs[2], 3);
  }
}
