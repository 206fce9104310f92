# Fashion SoF ingest: metadata tagging, modelled in Dafny

`ingest.py` prepares report PDFs ("State of Fashion" reports such as `sof21.pdf`
and `sof2025.pdf`) for retrieval. Before the pages are chunked and embedded, every
page is tagged with three pieces of metadata:

- **year**: read from the file name. The stem's last maximal run of decimal digits
  counts. Two digits mean a year of the 2000s (`21` is 2021), four digits are the
  year itself, and anything else, or no digits at all, means no year.
- **chapter**: the first of "global economy", "consumer shifts" and "fashion system"
  that occurs in the lower-cased page, in that priority order. A page with none of
  them keeps the chapter of the page before. A report starts with no chapter.
- **region**: the first keyword group that matches the lower-cased page, in the
  order Japan, India, United States, China, European Union. A page with no keyword
  keeps the region of the page before. A report starts at "Global".

This project models that logic and proves its properties.

- `text.dfy` (`Text`): ASCII lower-casing and substring membership, with the scan
  proved equal to "some slice equals the needle".
- `year.dfy` (`Year`): `re.findall(r"\d+", …)` as `DigitRuns`, and the year
  extractor built on it.
- `detect.dfy` (`Detect`): the two detectors as literal `if` chains, each proved
  equal to a first-match-wins rule table. The priority, carry-forward,
  case-insensitivity and idempotence properties follow from that.
- `ingest.dfy` (`Ingest`): the loader loop as a `method` with loop invariants. It
  is proved to compute a fold-style specification (`TagAll`). The properties of
  the tagging are proved about that fold: one output page per input page, each
  page tagged with the latest chapter and region announced so far, documents
  independent of each other, and every tag well formed.
- `wrappers.dfy` (`Wrappers`): the `Option` type that stands for Python's `None`.

## Model

| member | source | states |
|---|---|---|
| Text.Lower | ingest.py:35 | `Lower` keeps the length and lower-cases each character in place, each result character being free of capitals |
| Text.LowerIdempotent | ingest.py:35 | lower-casing an already lower-cased page changes nothing |
| Text.ContainsIff | ingest.py:36 | `phrase in lower` holds exactly when some slice of the page equals the phrase |
| Text.Contains | ingest.py:36-41 | `phrase in lower`: the empty phrase is in every page, and a phrase that is found is no longer than the page; `ContainsIff` pins it down as "some slice equals the phrase" |
| Year.LeadingDigits | ingest.py:19 | a digit run extends as far as the digits go and stops at the first non-digit |
| Year.DigitRuns | ingest.py:19 | every element `re.findall(r"\d+", stem)` returns is a non-empty run of digits |
| Year.DigitRunsFlatten | ingest.py:19 | the runs, concatenated, are exactly the digits of the stem in order: none lost, none invented |
| Year.DigitRunsEmptyIff | ingest.py:19-21 | the list of runs is empty exactly when the stem has no digit, which is when no year is returned |
| Year.DigitRunsSplit | ingest.py:19 | a non-digit separates the runs before it from the runs after it |
| Year.Value | ingest.py:24 | `int(num)` of an n-digit string is below 10^n |
| Year.YearOfRun | ingest.py:23-27 | a two-digit run gives 2000 plus its value, a year in 2000..2099 whose last two digits are the run; a four-digit run gives its own value; any other length gives no year |
| Year.ExtractYear | ingest.py:17-27 | any year returned lies in 0..9999 |
| Year.YearOfLastRun | ingest.py:22 | the last digit run alone decides the year, whatever runs come before it |
| Year.EarlierRunsIgnored | ingest.py:22 | anything before a separator is ignored once a digit follows the separator |
| Year.NoDigitsNoYear | ingest.py:20-21 | a stem without digits has no year |
| Year.TwoDigitExample | ingest.py:18 | `sof21` gives 2021 |
| Year.FourDigitExample | ingest.py:18 | `sof2025` gives 2025 |
| Year.NoDigitExample | ingest.py:20-21 | `report` gives no year |
| Year.ShortLastRunExample | ingest.py:22-27 | `sof21_v3` gives no year: its last run has one digit, and the earlier `21` is not used |
| Year.LongLastRunExample | ingest.py:22-27 | `sof_2025_12345` gives no year: its last run has five digits |
| Detect.AnyKeywordIff | ingest.py:58 | an `or` of `in` tests holds exactly when one of the keywords occurs |
| Detect.FirstMatchNone | ingest.py:36-43 | the rule table yields no label exactly when no rule matches |
| Detect.FirstMatchWinner | ingest.py:36-41 | the first matching rule decides, whatever later rules also match |
| Detect.FirstMatchSome | ingest.py:36-41 | any label the table yields is the label of the first matching rule |
| Detect.DetectChapter | ingest.py:30-43 | the result is either the current chapter or one of the three chapter labels |
| Detect.DetectRegion | ingest.py:46-66 | the result is never empty; it is one of the five region labels, "Global", or the current region |
| Detect.ChapterAsDecisionList | ingest.py:35-43 | `detect_chapter` equals the chapter rule table evaluated first-match-wins on the lower-cased page, falling back to the current chapter |
| Detect.RegionRulesMatch | ingest.py:54-63 | each region rule matches exactly when the source's condition for its label holds |
| Detect.RegionAsDecisionList | ingest.py:51-66 | `detect_region` equals the region rule table evaluated first-match-wins, falling back to the current region when it is non-empty and to "Global" otherwise |
| Detect.ChapterPriority | ingest.py:36-41 | the highest-priority phrase on the page determines the chapter |
| Detect.RegionPriority | ingest.py:54-63 | the highest-priority keyword group on the page determines the region |
| Detect.ChapterCarryForward | ingest.py:42-43 | with no chapter phrase on the page, the current chapter comes back unchanged |
| Detect.RegionCarryForward | ingest.py:65-66 | with no region keyword, a non-empty current region is kept; a missing or empty one becomes "Global" |
| Detect.CaseInsensitive | ingest.py:35 | a page and its lower-cased form get the same chapter and the same region |
| Detect.ChapterIdempotent | ingest.py:30-43 | detecting the chapter of the same page twice gives what detecting it once gives |
| Detect.RegionIdempotent | ingest.py:46-66 | detecting the region of the same page twice gives what detecting it once gives |
| Detect.JapanConsumerShiftsExample | ingest.py:38-39 | "Japan: Consumer Shifts" is tagged Consumer Shifts and Japan, whatever came before |
| Detect.TieBreakExample | ingest.py:36-39 | with "GLOBAL ECONOMY" and "Consumer Shifts" on one page, Global Economy wins |
| Ingest.Step | ingest.py:82-83 | one page's update keeps the region non-empty and the chapter either unchanged or one of the three labels; `StepBySignals` and `StateIsLatestSignal` pin it down |
| Ingest.StepBySignals | ingest.py:82-83 | a page announcing a chapter (region) sets it; otherwise the chapter is kept, a non-empty region is kept, and an empty region becomes "Global" |
| Ingest.StateAfter | ingest.py:78-83 | the running state always has a non-empty region and either no chapter or one of the three chapter labels |
| Ingest.TagPages | ingest.py:80-88 | a document yields one tagged page per page, in order, each with its own text and the document's year |
| Ingest.TagDocument | ingest.py:72-88 | one document yields one tagged page per page, each with its own text and the year read from the document's stem; `DocumentIsolated` places it in the whole output and `PageTagsAreLatestSignals` gives its chapters and regions |
| Ingest.LoadWithMetadata | ingest.py:69-90 | the loader loop produces exactly the fold specification `TagAll` of its documents |
| Ingest.TagPagesAt | ingest.py:82-87 | page i is tagged with the state reached after pages 0..i of its document |
| Ingest.StateIsLatestSignal | ingest.py:78-83 | the running state is the chapter (region) of the most recent page that announced one, or None ("Global") if none has |
| Ingest.PageTagsAreLatestSignals | ingest.py:82-87 | every page's chapter and region are the latest ones announced on it or on an earlier page of the same document |
| Ingest.FirstPageDefaults | ingest.py:78-79 | a first page without a chapter phrase gets no chapter; one without a region keyword gets "Global" |
| Ingest.CarryForward | ingest.py:82-87 | a later page with no chapter phrase (region keyword) gets the previous page's chapter (region) |
| Ingest.SignalOverrides | ingest.py:82-87 | a page announcing a chapter (region) is tagged with it, whatever came before |
| Ingest.FlatMapAppend | ingest.py:71-88 | collecting pages over a concatenation of inputs concatenates the collected pages |
| Ingest.TagAllLength | ingest.py:70-90 | the output has exactly as many pages as all the documents together |
| Ingest.TagAllAppend | ingest.py:71-88 | documents are tagged independently of each other: tagging a concatenation concatenates the taggings |
| Ingest.TagAllSingle | ingest.py:71-88 | one document alone yields its own tagged pages |
| Ingest.DocumentIsolated | ingest.py:71-88 | the output slice belonging to document d is that document's own tagging; state never leaks from an earlier document |
| Ingest.PagePlacement | ingest.py:71-88 | page p of document d sits at index (pages before d) + p, with d's year and the state after d's pages 0..p |
| Ingest.EmptyDocumentSkipped | ingest.py:76-88 | a document without pages adds nothing to the output and does not affect later documents |
| Ingest.TagAllWellTagged | ingest.py:78-87 | every output page has a non-empty region and either no chapter or one of the three chapter labels |
| Ingest.BlankPageCarries | ingest.py:82-83 | a page with no text carries the chapter and region forward unchanged |
| Ingest.TagTwoPages | ingest.py:80-88 | a two-page document is tagged with the state after the first page and then after both |
| Ingest.TagOnePage | ingest.py:80-88 | a one-page document is tagged with one step from the initial state |
| Ingest.TagTwoDocuments | ingest.py:71-88 | two documents yield the first one's pages followed by the second one's |
| Ingest.FirstReportExample | ingest.py:72-88 | `sof21` with pages "Japan: Consumer Shifts" and "" gives both pages 2021, Consumer Shifts and Japan |
| Ingest.SecondReportExample | ingest.py:72-88 | `sof2025` with one empty page gives 2025, no chapter and "Global" |
| Ingest.TwoReportsExample | ingest.py:71-90 | the two reports loaded together: the second one starts afresh and does not inherit Japan or Consumer Shifts |

## Left out

- Reading the PDFs (`PyPDFLoader(...).load()`, ingest.py:75-76) is not modelled. A document is given as its file-name stem and the text of its pages. Every other metadata key the loader writes is not modelled either.
- The search for input files (`PDF_FILES`, ingest.py:9-10) is not modelled. The documents are a parameter, in the order the sorted glob would give them. The loader's progress `print` (ingest.py:73) is left out.
- The loader writes year, chapter and region into each page's metadata dictionary in place. The model builds a new `TaggedPage` value per page instead, so aliasing of the page objects is not captured.
- `split_documents` (ingest.py:93-100), with `CHUNK_SIZE` and `CHUNK_OVERLAP` (ingest.py:13-14), is not modelled. It is a call into a text-splitting library whose code is not part of this model.
- `build_vectorstore` (ingest.py:103-111) is not modelled. It calls an embedding model and a vector index, and writes files.
- `main` (ingest.py:114-121) is not modelled. Its empty-input check and its messages are I/O around the loader. The loader itself gives an empty output for no documents.
- Text.Lower: only ASCII 'A'..'Z' are lower-cased, one character to one character. Python's `str.lower` also folds other Unicode capitals and may lengthen the string (U+0130 becomes "i" plus a combining dot). No keyword match is affected: the only non-ASCII capitals that fold to ASCII letters are U+0130 (to "i" plus U+0307) and U+212A (to "k"), and no keyword can match across them.
- Year.IsDigit: only ASCII '0'..'9' count as digits. Python's `\d` also matches other Unicode decimal digits.
- Year.Value: only ASCII digit values are computed.
