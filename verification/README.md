# Financial document analyzer — a Dafny model of its deterministic core

The analyzer is a small web service. Its API accepts an uploaded financial
document (PDF, plain text, CSV or Excel) and passes it to a crew of LLM
agents. The agents call three deterministic tools:

- a document reader, which turns the file into normalised text;
- an investment analyser, which pulls revenue and net income out of that
  text with regular expressions, derives a profit margin and a score, and
  gives one recommendation;
- a risk flagger, which looks for a few keywords.

This project models those tools and the API's own checks in Dafny 4 and
proves properties about them. The API checks covered are the extension
whitelist, the name the upload is stored under, the HTTP outcome of one
request, and the tally of a batch.

Modules, one per file:

| file | module | models |
|---|---|---|
| `strings.dfy` | `Strings` | the character classes of Python's `str.isspace()` and `\s`, ASCII lower-casing, `in` on strings, `str(n)`, `sep.join` |
| `normalizer.dfy` | `Normalizer` | `_clean_text`, as its four rewriting steps |
| `paths.dfy` | `Paths` | `PurePath.suffix` and `.name`, POSIX `os.path.splitext` |
| `ingestion.dfy` | `Ingestion` | `read_data`, the page loop of `_read_pdf`, `_read_text`, `_read_spreadsheet` |
| `metrics.dfy` | `Metrics` | `_extract_financial_metrics`: the four patterns, `re.search`, `float()` |
| `investment.dfy` | `Investment` | `_calculate_investment_ratios`, `_calculate_investment_score`, `_generate_recommendations`, `analyze_investment` |
| `risk.dfy` | `Risk` | `assess_risk` |
| `upload.dfy` | `Upload` | `validate_file_extension`, the safe file name, `analyze_document`, `analyze_multiple_documents` |

The model abstracts the outside world in three ways:

- The file system, the PDF, encoding-detection and spreadsheet libraries,
  the UUID generator and the agent crew are parameters. For each one the
  model takes what it would report: `FileView`, `Capabilities`, `Effects`,
  and the identifier string.
- Python floats are exact reals, and `round(x, 2)` rounds half to even.
- Regular expressions are matched by hand-written matchers. Each matcher
  follows the regex engine's leftmost, greedy, non-overlapping semantics
  for the one pattern it replaces.

## Behaviour the model settles

Each of these follows from the code, and a lemma below states it.

- The normaliser `_clean_text` is not idempotent.
  `Normalizer.CleanTextNotIdempotent` proves that `"a é b"` normalises to
  `"a   b"`, and a second pass gives `"a b"`. The cause is step order: the
  space-collapsing step runs before non-ASCII runs become spaces.
- Non-ASCII characters are not dropped. Each maximal run of them becomes
  one space (`Normalizer.ReplaceNonAsciiRun`).
- The words "volatile" and "uncertainty" raise one market flag together.
  They add 5 points once, not once per word (`Risk.AssessRisk`).
- `read_data` marks its own refusals, a missing file and an unsupported
  type, with `ERROR:` (`Ingestion.RefusalsMarked`). A reader never marks
  its own answer: a missing library or a failed read is reported as
  `PDF processing failed: ...`, `Text file processing failed: ...` and so on
  (`Ingestion.ReadersNeverMark`). The prefix therefore does not tell a
  refusal apart from a document: a text file whose content is already in
  normal form is passed through as it is, so one reading `ERROR:` comes back
  marked (`Ingestion.NormalTextPassesThrough`,
  `Ingestion.DocumentTextCanBeMarked`), and marked output is always a
  refusal or such a document (`Ingestion.MarkedMeansRefusedOrDocument`).
- A profit margin of exactly 15.0 does not exceed 15. It scores 60 and gets
  BUY (`Investment.MarginOfFifteen`).

## Model

| member | source | states |
|---|---|---|
| Strings.NatToStringRoundTrip | src/tools.py:122-127 | the page number written into a page header is canonical decimal (no leading zero) and reads back as the number |
| Normalizer.CollapseBlankLines | src/tools.py:186 | step 1 never lengthens the text |
| Normalizer.CollapseBlankLinesCollapses | src/tools.py:186 | after step 1 every newline followed by a whitespace run holding another newline is followed by exactly one more newline and then no further blank line |
| Normalizer.CollapseBlankLinesKeepsText | src/tools.py:186 | step 1 keeps every non-whitespace character, in order |
| Normalizer.CollapseBlankLinesFixpoint | src/tools.py:186 | text whose blank lines are already single is unchanged by step 1 |
| Normalizer.CollapseBlankLinesIdempotent | src/tools.py:186 | step 1 applied twice equals step 1 applied once |
| Normalizer.CollapseSpaces | src/tools.py:187 | step 2 never lengthens the text and keeps its first character |
| Normalizer.CollapseSpacesNoDouble | src/tools.py:187 | after step 2 no two spaces are adjacent |
| Normalizer.CollapseSpacesKeepsText | src/tools.py:187 | step 2 keeps every character other than the space, in order |
| Normalizer.CollapseSpacesRun | src/tools.py:187 | a non-empty run of spaces becomes exactly one space |
| Normalizer.CollapseSpacesFixpoint | src/tools.py:187 | text without adjacent spaces is unchanged by step 2 |
| Normalizer.CollapseSpacesConcat | src/tools.py:187 | step 2 distributes over a join point where no space run is split |
| Normalizer.ReplaceNonAscii | src/tools.py:188 | step 3 yields pure ASCII text no longer than its input |
| Normalizer.ReplaceNonAsciiKeepsText | src/tools.py:188 | step 3 keeps every visible ASCII character, in order |
| Normalizer.ReplaceNonAsciiRun | src/tools.py:188 | a non-empty run of non-ASCII characters becomes exactly one space |
| Normalizer.ReplaceNonAsciiFixpoint | src/tools.py:188 | ASCII text is unchanged by step 3 |
| Normalizer.StripBounds | src/tools.py:189 | the kept slice is bounded by whitespace-only margins and starts and ends on non-whitespace |
| Normalizer.Strip | src/tools.py:189 | the stripped text has no whitespace at either end |
| Normalizer.StripKeepsText | src/tools.py:189 | stripping drops whitespace only |
| Normalizer.CleanText | src/tools.py:181-191 | empty in, empty out; the result is ASCII, trimmed, and no longer than the input |
| Normalizer.CleanTextKeepsVisibleAscii | src/tools.py:181-191 | the visible characters of the output are exactly the visible ASCII characters of the input, in order |
| Normalizer.NonAsciiBetweenSpaces | src/tools.py:186-189 | any non-ASCII character standing between two spaces and two visible characters leaves three spaces behind, because step 3 runs after step 2 |
| Normalizer.SpacesBetween | src/tools.py:186-189 | three spaces between two visible characters normalise to one |
| Normalizer.CleanTextNotIdempotent | src/tools.py:186-189 | a concrete input whose normal form is changed by a second normalisation |
| Paths.Name | src/tools.py:170 | the name is the part of the path after its last separator: a suffix of the path with no separator, preceded by one when shorter than the path |
| Paths.NameSuffix | src/tools.py:97 | a name's suffix is non-empty exactly when the name's last dot is neither its first nor its last character, and then runs from that dot to the end |
| Paths.Suffix | src/tools.py:97 | the path's suffix is empty, or a dot plus at least one character that ends the path, with no dot or separator after the first character |
| Paths.SplitExt | src/main.py:25 | root and extension concatenate back to the path; the extension is empty or runs from the last dot, which a non-dot character of the final component precedes; it is empty only when no such last dot exists |
| Paths.LastExtensionOnly | src/main.py:25 | only the last extension of a name counts, for any name with a non-dot character before it, hidden names such as ".hidden.pdf" included |
| Paths.SuffixOfStoredName | src/main.py:104-108 | a stored name ending in a proper extension has that extension as its pathlib suffix, whatever directory holds it |
| Ingestion.ReaderFor | src/tools.py:100-107 | ".pdf" selects the PDF reader, ".txt" the text reader, ".csv", ".xlsx" and ".xls" the spreadsheet reader, each exactly for those extensions, and every other extension has no reader |
| Ingestion.RouteFor | src/tools.py:91-107 | existence is checked before the extension; an existing file with an unsupported lower-cased suffix is refused naming that suffix, and any other goes to the reader its suffix selects |
| Ingestion.ReadData | src/tools.py:80-110 | a missing file and an unsupported type give their `ERROR:` text; each supported type gives its reader's output |
| Ingestion.RefusalsMarked | src/tools.py:93-107 | a missing file and an unsupported type are answered with text starting `ERROR:` |
| Ingestion.ReadersNeverMark | src/tools.py:113-178 | no reader output starts with `ERROR:`: not the missing-library texts, not the failure texts, not a PDF's page sections, not a spreadsheet's header |
| Ingestion.NormalTextPassesThrough | src/tools.py:136-150 | a text document whose content is ASCII, on one line, without double spaces and without whitespace at either end is returned exactly as it is |
| Ingestion.DocumentTextCanBeMarked | src/tools.py:136-150 | a text document reading "ERROR:" comes back starting with `ERROR:` |
| Ingestion.MarkedMeansRefusedOrDocument | src/tools.py:80-178 | output starting with `ERROR:` is a refusal of `read_data` or the decoded content of a text document |
| Ingestion.ReadPdf | src/tools.py:113-134 | no contract of its own: `Ingestion.ReadersNeverMark` shows its answers are never marked, and its page text is characterised by `Ingestion.AssemblePages`, `Ingestion.PageSectionsAt` and `Ingestion.MiddlePageFailure` |
| Ingestion.PdfText | src/tools.py:120-131 | no contract of its own: `Ingestion.AssemblePages` proves the page loop computes it |
| Ingestion.PageSection | src/tools.py:123-129 | no contract of its own: `Ingestion.PageSectionsAt` and `Ingestion.PageSectionsCount` state which pages contribute what |
| Ingestion.ReadText | src/tools.py:136-153 | no contract of its own: the decoded text is normalised by `_clean_text`, whose contract is `Normalizer.CleanText`; `Ingestion.NormalTextPassesThrough` shows text in normal form passes unchanged |
| Ingestion.ReadSpreadsheet | src/tools.py:155-178 | no contract of its own: `Ingestion.ReadersNeverMark` shows its answers start with a header or its own failure text |
| Ingestion.NumberedAppend | src/tools.py:122-129 | numbering items by position from a starting number splits over concatenation: the second part is numbered on from where the first stopped |
| Ingestion.PageSectionsAppend | src/tools.py:122-129 | pages are numbered by position, so the sections of two page lists are those of the first followed by the second's numbered on |
| Ingestion.PageSectionsAt | src/tools.py:122-129 | each page contributes exactly its own section with its own number, so a failure on one page neither stops nor renumbers the others |
| Ingestion.PageSectionsCount | src/tools.py:122-129 | there is one section per page whose text is non-empty or whose extraction failed |
| Ingestion.AssemblePages | src/tools.py:120-131 | the page loop yields the sections of all pages joined by blank lines |
| Ingestion.MiddlePageFailure | src/tools.py:122-131 | with three pages of which the second fails, the output is page 1, the error marker for page 2, then page 3, each normalised |
| Metrics.MatchWordsSound | src/tools.py:243-256 | whatever the keyword matcher matches spells the keyword: its words in any ASCII case, separated by non-empty whitespace runs |
| Metrics.MatchWordsComplete | src/tools.py:243-256 | a spelling of the keyword at the start of the text is matched in full |
| Metrics.KeywordMatchIffSpelled | src/tools.py:243-256 | for "revenue", "sales", "net income" and "net profit", a prefix is matched exactly when it spells the keyword |
| Metrics.Amount | src/tools.py:243-257 | group 1 exists exactly when the text after the lead-in starts with a digit or comma, and has the shape of `[\d,]+\.?\d*` |
| Metrics.AmountIsMaximal | src/tools.py:243-257 | the capture is a prefix that the next character cannot extend: not a digit, and not a comma or a dot when the capture has no dot |
| Metrics.AmountIsGreedy | src/tools.py:243-257 | any prefix with the capture's shape that the next character cannot extend is exactly the capture, so group 1 is the greedy match |
| Metrics.LeadInUnique | src/tools.py:243-257 | every split of the text after a keyword into a `[:\s]*\$?` lead-in and a rest puts the split in the same place |
| Metrics.LeadInExists | src/tools.py:243-257 | such a split always exists |
| Metrics.AmountAtIsGroup | src/tools.py:243-257 | after the keyword, group 1 is the greedy capture at the start of what follows the lead-in, present exactly when that starts with a digit or comma |
| Metrics.FirstMatchFrom | src/tools.py:248 | the position found matches, and no earlier position does; no match means no position matches |
| Metrics.Search | src/tools.py:248 | no contract of its own: `Metrics.SearchIsLeftmost` characterises it |
| Metrics.SearchIsLeftmost | src/tools.py:248 | `re.search` returns the group of the leftmost matching position, or nothing when no position matches |
| Metrics.FirstFoundIsFirst | src/tools.py:247-252 | the loop over pattern results stops at the earliest success: every earlier result is a miss, and it reports nothing only when every result is a miss |
| Metrics.FirstMatchingChoosesFirst | src/tools.py:247-252 | the chosen pattern matches somewhere, every earlier pattern matches nowhere, and nothing is chosen only when no pattern matches |
| Metrics.FirstOfTwo | src/tools.py:247-252 | of two patterns the first that matches anywhere decides |
| Metrics.PatternPriority | src/tools.py:242-263 | "revenue" wins over "sales" and "net income" over "net profit", wherever in the text each occurs |
| Metrics.StripCommasShape | src/tools.py:250 | removing commas from a capture leaves digits and dots, with only digits after a dot |
| Metrics.StripCommasDigits | src/tools.py:250 | removing commas keeps every digit |
| Metrics.ParseNumberChars | src/tools.py:250 | `float()` accepts such a string exactly when it holds a digit |
| Metrics.CaptureParsesIffDigit | src/tools.py:250 | a capture converts exactly when it holds a digit; otherwise the error carries `float()`'s message |
| Metrics.ParseFloat | src/tools.py:250 | no contract of its own: `Metrics.ParseNumberChars`, `Metrics.ParseWhole` and `Metrics.ParseDecimal` characterise it |
| Metrics.CaptureValue | src/tools.py:250 | no contract of its own: `Metrics.CaptureParsesIffDigit` and `Metrics.WrittenParses` characterise it |
| Metrics.ParseWhole | src/tools.py:250 | `float()` of a digit string is its value |
| Metrics.ParseNatString | src/tools.py:250 | `float(str(n)) == n` |
| Metrics.ParseDecimal | src/tools.py:250 | `float()` of `a.b` is the integer part plus the fraction scaled by its length |
| Metrics.ExtractMetrics | src/tools.py:238-265 | a metric is present exactly when one of its patterns matches, with the first matching pattern's value; extraction fails exactly when a chosen capture has no digit, with `float()`'s message for revenue's capture if that fails and otherwise for net income's |
| Metrics.StatedAmount | src/tools.py:243-257 | a figure written with comma groups and optional decimals after a lead-in of colons, whitespace and an optional `$` is group 1 in full |
| Metrics.WrittenParses | src/tools.py:250 | such a figure converts to its value with the commas ignored |
| Metrics.RevenueStated | src/tools.py:242-252 | "Revenue: $1,234.56 unit", in any ASCII case, with or without `$`, commas or decimals, yields that revenue, whatever the unit word |
| Metrics.NetIncomeStated | src/tools.py:254-263 | "Net income: $1,234.5", with any whitespace between the words, with or without `$`, commas or decimals, yields that net income |
| Metrics.MillionRevenue | src/tools.py:242-252 | "Revenue: $1,000,000" is read as revenue 1000000 |
| Investment.RoundHalfEven | src/tools.py:273 | the result is within one half of the input, and an exact tie goes to the even integer |
| Investment.Round2 | src/tools.py:273 | the result is a whole number of hundredths within 0.005 of the input |
| Investment.RoundCents | src/tools.py:273 | a value with at most two decimals is unchanged by rounding |
| Investment.RoundTiesToEven | src/tools.py:273 | 0.125 rounds to 0.12 and 0.375 to 0.38 |
| Investment.ProfitMargin | src/tools.py:268-275 | the margin exists exactly when both metrics exist and revenue is non-zero, and then lies within 0.005 of net income over revenue times 100 |
| Investment.Clamp | src/tools.py:289 | the clamped value lies within the bounds and equals the input when already inside |
| Investment.Score | src/tools.py:278-289 | the score is 50 plus the bonus of the first threshold the margin strictly exceeds; only 50, 55, 60 and 65 occur, so the clamp to 0..100 never acts |
| Investment.ScoreMonotone | src/tools.py:278-289 | a larger margin never lowers the score |
| Investment.ScoreWithoutMargin | src/tools.py:282-287 | a missing margin scores as a zero margin, 50 |
| Investment.RatingOf | src/tools.py:296-303 | each band holds exactly its scores: 80 and up, 60 to 79, 40 to 59, below 40 |
| Investment.RatingMonotone | src/tools.py:296-303 | a higher score never gives a worse rating |
| Investment.MessageInjective | src/tools.py:296-303 | the four recommendation texts are pairwise different, so a recommendation determines its rating band |
| Investment.Recommendations | src/tools.py:292-305 | exactly one recommendation, the message of the score's band |
| Investment.OnlyBuyOrHold | src/tools.py:278-305 | only BUY and HOLD are reachable; BUY exactly when the rounded margin exceeds 10 |
| Investment.AnalyzeInvestment | src/tools.py:206-235 | the analysis fails exactly when extraction fails, with "Investment analysis failed"; on success it holds the extracted metrics, their margin and score, and the recommendations of that score, which are one BUY or HOLD message |
| Investment.MarginOfFifteen | src/tools.py:268-305 | revenue 1200 and net income 180 give margin 15.0, score 60 and BUY |
| Risk.LevelFor | src/tools.py:356-361 | each level holds exactly its scores: 70 and up high, 40 to 69 medium, below 40 low |
| Risk.AssessRisk | src/tools.py:321-363 | a debt mention adds a financial risk, 10 points and its factor; a volatility or uncertainty mention adds one market risk, 5 points and its factor; the level follows the score |
| Risk.AlwaysMedium | src/tools.py:332-361 | there is one factor per risk, the score stays within 50 to 65, and the level is always medium |
| Risk.IgnoresCase | src/tools.py:340-348 | a text and its lower-cased form get the same assessment |
| Risk.MoreTextNoFewerRisks | src/tools.py:340-354 | adding text around a document never removes a flag, a factor or points |
| Risk.WordInContext | src/tools.py:340 | a keyword written in any ASCII case anywhere in the text is found |
| Risk.DebtAndUncertainty | src/tools.py:340-361 | a text mentioning debt and uncertainty scores 65, is medium and lists both factors in order |
| Upload.ValidateFileExtension | src/main.py:23-26 | no contract of its own: `Upload.ExtensionCaseIgnored`, `Upload.DoubleExtensionUsesLast` and `Upload.HiddenOrBareNameRefused` characterise it, and `Upload.ValidatedUploadIsReadable` ties it to the reader dispatch |
| Upload.SafeFilename | src/main.py:105-107 | no contract of its own: `Paths.SuffixOfStoredName` shows the stored name keeps the extension as its suffix |
| Upload.StoredPath | src/main.py:108 | no contract of its own: `Upload.ValidatedUploadIsReadable` shows the stored path of a whitelisted upload dispatches to a reader |
| Upload.ValidatedUploadIsReadable | src/main.py:98-108 | the stored copy of a whitelisted upload keeps its extension as its suffix, so the reader dispatch never calls it unsupported |
| Upload.WhitelistIsReadable | src/main.py:20 | the upload whitelist names exactly the extensions `read_data` has a reader for |
| Upload.AllowedExtensionShape | src/main.py:20-26 | a whitelisted extension is a dot and at least one more character |
| Upload.ExtensionCaseIgnored | src/main.py:23-26 | the whitelist test ignores the case of the extension, for any name with a non-dot character before it |
| Upload.DoubleExtensionUsesLast | src/main.py:23-26 | a name with two extensions is accepted exactly when its last extension, lower-cased, is whitelisted, whatever the first one is |
| Upload.HiddenOrBareNameRefused | src/main.py:23-26 | ".pdf" and "README" have no extension and are refused |
| Upload.SaveAsWritten | src/main.py:115-124 | every save failure, the empty upload included, is a 500 |
| Upload.Save | src/main.py:115-124 | corrected save step, not the code as written: an empty upload is a 400, and the upload is stored exactly when it was read, is non-empty and was written |
| Upload.Process | src/main.py:110-154 | after the extension check, the crew runs exactly when the directory exists and the upload was stored, on the stored path with the stripped query; a failed directory is a 500, a refused save is answered with its own status and detail, success means the crew finished, and a timeout is 504 |
| Upload.AnalyzeDocumentAsWritten | src/main.py:97-163 | a bad extension is a 400 before anything else; the crew runs exactly when a non-empty upload was read and stored, on the stored path with the stripped query; success means the crew finished and echoes query, name and id; 504 means it timed out; an empty upload with an accepted extension is a 500 quoting the 400 |
| Upload.AnalyzeDocument | src/main.py:97-163 | corrected request, not the code as written: the same promises as the code as written, and an empty upload with an accepted extension, once the directory exists and the upload was read, is answered 400 "Empty file uploaded" with no crew run |
| Upload.EmptyUploadAsWritten | src/main.py:115-124 | an empty upload with an accepted extension is answered with 500 "File save failed: 400: Empty file uploaded" |
| Upload.EmptyUploadRejected | src/main.py:117-118 | corrected, an empty upload is answered with 400 "Empty file uploaded" and never reaches the crew |
| Upload.OnlyEmptyUploadsDiffer | src/main.py:110-124 | the code as written and the corrected version agree on every request except an empty upload |
| Upload.Record | src/main.py:178-191 | a response is recorded under the file's name, as a success holding the result exactly when the request succeeded, otherwise as a failure holding the `str()` of the raised error |
| Upload.Entry | src/main.py:177-191 | each batch entry carries its file's name and succeeds exactly when that request, as written, succeeds |
| Upload.EmptyUploadInBatch | src/main.py:115-124 | in a batch an empty upload is recorded as failed with "500: File save failed: 400: Empty file uploaded" |
| Upload.CountsAddUp | src/main.py:196-197 | every entry is counted once, as a success or as a failure |
| Upload.RecordBatch | src/main.py:175-199 | one record per file, in upload order, each made from that file's response; the successes and failures add up to the number of files |
| Upload.AnalyzeBatch | src/main.py:167-199 | one entry per file, in order, from the request as written; the successes and failures add up to the number of files |

## Left out

- The file system, `os.makedirs`, the upload stream and the clean-up in the `finally` block. Each step is an outcome parameter, and the model does not state the file removal.
- The PDF library, the chardet decoding with `errors='ignore'`, and the pandas loaders. Their results are parameters: the page outcomes, the decoded text, and the rendered table with its shape.
- The outer `except` of `read_data` (src/tools.py:109-110). Once the readers are parameters, nothing left in `read_data` can raise.
- The crew run and its agents (`run_crew`, src/agents.py, src/tasks.py). Its result, exception or timeout is a parameter.
- The search tool and the tool decorators. They are library glue with no logic of their own.
- Metrics.ParseFloat: models `float()` only on the strings a capture can become: digits, at most one dot, and only digits after it. IEEE rounding, overflow to infinity for numerals of more than about 308 digits, and the other spellings `float()` accepts are outside the model.
- Investment.Round2: exact real arithmetic replaces binary floating point. For inputs that have no exact binary value, such as 0.135, Python's result can differ in the last place.
- Metrics.CaptureAt: `\d` matches only ASCII digits here, and `re.IGNORECASE` folds only ASCII letters. Python also accepts other Unicode decimal digits, lets the dotless ı and the dotted İ match the "i" of "income" and "profit", and lets the long s ſ match the "s" of "sales".
- Strings.Lower: lower-cases ASCII letters only. Python lower-cases every cased character. No other character lower-cases into a string that creates or breaks an occurrence of "debt", "volatile" or "uncertainty", so the risk flags do not depend on the difference. The same lower-casing is applied to extensions, in the upload whitelist and in the reader dispatch of `read_data`. Which extensions are accepted does not change, because the only characters outside ASCII that Python lower-cases to an ASCII letter are the Kelvin sign and the dotted İ, and no whitelisted extension contains "k" or "i". The extension echoed in "ERROR: Unsupported file type: ..." can differ: for a suffix such as `.DOCÉ` Python writes `.docé` where the model writes `.docÉ`.
- Upload.NotAllowedDetail: the list of allowed types is fixed in the order of the source literal. Python prints a set, whose order can change from run to run.
- The trailing unit group of the revenue patterns. It can always match empty text, so it never affects whether a pattern matches or what group 1 holds.
- Pathlib's normalisation of trailing and repeated slashes. Paths here are plain strings with `/` as the only separator.
- The `query` form field being absent (`None`). The endpoint's default makes it a string.

## Findings

| source | as written | input that shows it | evidently intended | confidence | as-written member | corrected member |
|---|---|---|---|---|---|---|
| src/main.py:115-124 | the `HTTPException(400, "Empty file uploaded")` is raised inside a `try` whose `except Exception` re-raises every error as a 500 | an upload named `a.pdf` with empty content | a 400 telling the client the upload was empty | high (not executed) | Upload.EmptyUploadAsWritten | Upload.EmptyUploadRejected |
