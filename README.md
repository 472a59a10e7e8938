# Document font inventory

This project models the font-inventory core of PDFPatcher's document-font-list
form. It covers the form's two dictionaries, `_fontIdNames` (object number to
canonical font name, the resolution cache) and `_pageFonts` (canonical name to
a `PageFont` record, the catalog). It also covers the per-page scanner
`GetPageFonts` that fills them, and the background worker's loop. That loop
resets both dictionaries, reports progress for every element of the
page-range sequence, polls for cancellation, and scans each distinct page
once.

The project has four modules:

- `PdfModel` (`pdf.dfy`) is the abstract document. For each page it holds the
  values of the /Resources/Font dictionary in enumeration order, plus the
  indirect-object table. It also holds the subset-prefix rule for font names.
- `FontInventory` (`inventory.dfy`) is the scanner on values: one entry, one
  trace of entries, one page (`ScanPage`) and one run over a page sequence
  (`Scanned`). It proves the facts the scanner relies on: the cache is only a
  shortcut, malformed entries are not cached, records are never rewritten,
  and duplicate pages are ignored.
- `FontTally` (`tally.dfy`) describes a scan without the cache or the
  scanner's branches. For each name it gives the number of entries resolving
  to it, and the page and embedded flag of the first of them. It proves that
  scanning produces exactly this tally, and that the reference counts sum to
  the number of entries that resolved.
- `DocumentFontList` (`form.dfy`) is the imperative model of the form. The
  class `PageFont` is updated in place. The class `DocumentFontListForm`
  holds the two dictionaries as `map` fields and has the methods
  `GetPageFonts` and `DoWork`, with the visited array `pp`. Each method is
  proved to leave the dictionaries equal to the value-level function that
  specifies it.

The partner lemmas are stated in a few reference definitions:

- `PdfModel.Resolve` is the canonical name an entry stands for. It is lines 108-122 without the cache.
- `PdfModel.EmbeddedOf` is the embedded flag of the object an entry refers to (line 128).
- `FontInventory.PageTrace` gives the entries of a page's font dictionary (lines 102-107).
- `FontInventory.Dedup` lists the distinct pages of a sequence, which is what the visited array at lines 64 and 73-76 lets through.
- `FontTally.Count`, `FontTally.Resolved` and `FontTally.Tallies` are the cache-free count of entries resolving to a name, the count of entries resolving at all, and the catalog those counts describe (lines 112-128).
- `DocumentFontList.Ticks` is the closed form of the `++i` reports at line 72.

Three behaviours of the code worth knowing:

- Progress is reported for every element of the page sequence, repeated
  pages included, before the visited check (lines 72-77).
- New records are shown only when the run completes (lines 52-54); no record
  is reported while the run is going, so the model has no discovery events.
- One `try` surrounds the whole run (lines 58 and 82-84), so there is no
  per-page error recovery. No operation of the model fails (see "Left out").

## Model

| member | source | states |
|---|---|---|
| PdfModel.RemoveSubsetPrefix | App/Functions/DocumentOption/DocumentFontListForm.cs:122 | The canonical name equals the base-font name exactly when the name has no subset tag (six upper-case letters and '+'); a tagged name is its 7-character tag followed by the result |
| PdfModel.SubsetPrefixExamples | App/Functions/DocumentOption/DocumentFontListForm.cs:122 | "ABCDEF+Helvetica" and "BCDEFG+Arial" lose their tag; "Helvetica", "Helvetica-Bold" and "ABCDEf+Helvetica" (lower-case letter in the tag) are kept unchanged |
| FontInventory.FontRecord.Bumped | App/Functions/DocumentOption/DocumentFontListForm.cs:154-156 | Incrementing a reference raises the count by one and leaves name, first page and embedded flag as they were |
| FontInventory.ScanEntry | App/Functions/DocumentOption/DocumentFontListForm.cs:107-129 | One loop iteration keeps every cached name a catalog key and never removes a catalog key |
| FontInventory.ScanTrace | App/Functions/DocumentOption/DocumentFontListForm.cs:107-130 | Scanning entries in order keeps every cached name a catalog key and never removes a catalog key |
| FontInventory.ScanPage | App/Functions/DocumentOption/DocumentFontListForm.cs:101-106 | A page whose /Resources or /Font dictionary is missing changes neither map |
| FontInventory.Scanned | App/Functions/DocumentOption/DocumentFontListForm.cs:59-79 | A run over a page sequence starts from two empty maps and keeps every cached name a catalog key |
| FontInventory.ScanEntryEffect | App/Functions/DocumentOption/DocumentFontListForm.cs:107-129 | With a sound cache, an entry that does not resolve leaves both maps unchanged; one resolving to a name caches that name under its object number and bumps that name's record, or creates it with count 1, this page and the object's embedded flag; the invariant is kept |
| FontInventory.EntryChangesStateIff | App/Functions/DocumentOption/DocumentFontListForm.cs:108-128 | An entry changes the state if and only if it resolves to a font |
| FontInventory.MalformedEntryNotCached | App/Functions/DocumentOption/DocumentFontListForm.cs:116-120 | A reference to a non-dictionary or to a dictionary without /BaseFont is not cached; meeting it again still changes nothing |
| FontInventory.CacheAddsOnce | App/Functions/DocumentOption/DocumentFontListForm.cs:112-123 | The cache only grows; a cached name never changes; an object number is added only after a failed lookup |
| FontInventory.ScanEntryKeepsRecords | App/Functions/DocumentOption/DocumentFontListForm.cs:112-128 | Existing records keep name, first page and embedded flag; a count grows by one exactly when the entry resolves to that name |
| FontInventory.ScanTraceConsistent | App/Functions/DocumentOption/DocumentFontListForm.cs:107-130 | Scanning keeps the cache sound, the catalog keyed by record name and every count at least 1 |
| FontInventory.ScanTraceAppend | App/Functions/DocumentOption/DocumentFontListForm.cs:67-79 | Scanning two entry sequences one after the other equals scanning their concatenation |
| FontInventory.RunStep | App/Functions/DocumentOption/DocumentFontListForm.cs:73-77 | One more element of a run is scanned, and joins the scanned pages, exactly when it did not occur earlier |
| FontInventory.RunElement | App/Functions/DocumentOption/DocumentFontListForm.cs:68-77 | The state after element k of a run is the state before it, with the page scanned exactly when it did not occur among the earlier elements |
| FontInventory.DedupSpec | App/Functions/DocumentOption/DocumentFontListForm.cs:64-76 | The pages a run scans are exactly the pages of the sequence, each once |
| FontInventory.FirstPos | App/Functions/DocumentOption/DocumentFontListForm.cs:67-76 | The position of the first occurrence of a page number in the sequence: no earlier element equals it, and the element there does |
| FontInventory.DedupOrder | App/Functions/DocumentOption/DocumentFontListForm.cs:67-76 | The distinct pages are scanned in the order of their first appearance in the sequence |
| FontInventory.ScannedIsDedupScan | App/Functions/DocumentOption/DocumentFontListForm.cs:67-79 | A run's final state is the scan of the entries of its distinct pages, in Dedup's order, which DedupOrder shows is the order of first appearance |
| FontInventory.DedupDropsRepeat | App/Functions/DocumentOption/DocumentFontListForm.cs:73-75 | Removing a page number that already occurred earlier does not change which pages are scanned, or their order |
| FontInventory.DuplicatePageIgnored | App/Functions/DocumentOption/DocumentFontListForm.cs:73-75 | A repeated page number in a run changes neither map |
| FontInventory.DuplicateExample | App/Functions/DocumentOption/DocumentFontListForm.cs:73-75 | The sequence [3, 3, 5] yields the same maps as [3, 5] |
| FontTally.FirstIndex | App/Functions/DocumentOption/DocumentFontListForm.cs:124-128 | The position of the first entry resolving to a name: no earlier entry resolves to it, and the entry there does |
| FontTally.CountPositiveIff | App/Functions/DocumentOption/DocumentFontListForm.cs:124-128 | Some entry resolves to a name if and only if a first such entry exists |
| FontTally.TallyStepName | App/Functions/DocumentOption/DocumentFontListForm.cs:112-128 | After one more entry, the record for each name is still its tally: present exactly when some entry resolved to it, with count, first page and embedded flag of the first such entry |
| FontTally.TallyStep | App/Functions/DocumentOption/DocumentFontListForm.cs:107-129 | One more entry extends the tally for every name |
| FontTally.ScanTraceTally | App/Functions/DocumentOption/DocumentFontListForm.cs:107-130 | Scanning from empty maps gives exactly the tally: the cache holds exactly the object numbers that resolved; there is one record per name that some entry resolved to, with name == key, count == number of such entries, and first page and embedded flag of the first of them |
| FontTally.TotalAfterUpdate | App/Functions/DocumentOption/DocumentFontListForm.cs:113-128 | Bumping a record adds one to the sum of counts; filing a new record adds its count |
| FontTally.ScanTraceTotal | App/Functions/DocumentOption/DocumentFontListForm.cs:107-130 | After a scan from empty maps, the counts sum to the number of entries that resolved to a font |
| FontTally.ScanTraceKeepsRecords | App/Functions/DocumentOption/DocumentFontListForm.cs:112-128 | Across any later scan, a record keeps its name, first page and embedded flag, and its count grows by the number of later entries resolving to it |
| FontTally.RunTally | App/Functions/DocumentOption/DocumentFontListForm.cs:57-85 | A run leaves the tally of the entries of its distinct pages: sound cache, one record per resolved name, and a sum of counts equal to the number of resolved entries |
| FontTally.ExampleScenario | App/Functions/DocumentOption/DocumentFontListForm.cs:101-131 | Pages 1 and 2 refer to one object "BCDEFG+Arial" (embedded); page 3 refers to "Times-Roman". The result is Arial (first page 1, two references, embedded) and Times-Roman (first page 3, one reference) |
| DocumentFontList.PageFont.constructor | App/Functions/DocumentOption/DocumentFontListForm.cs:147-152 | A new record has the given name, first page and embedded flag, and Reference 1 |
| DocumentFontList.PageFont.IncrementReference | App/Functions/DocumentOption/DocumentFontListForm.cs:154-156 | Reference goes up by one; Name and FirstPage are immutable |
| DocumentFontList.CancelPoint | App/Functions/DocumentOption/DocumentFontListForm.cs:67-71 | The number of elements a run reaches: no earlier poll found cancellation pending, and if the run stops early, the poll at the stopping point did |
| DocumentFontList.CancelPointAt | App/Functions/DocumentOption/DocumentFontListForm.cs:69-71 | A run that reached element k and finds cancellation pending there stops at k |
| DocumentFontList.TicksStep | App/Functions/DocumentOption/DocumentFontListForm.cs:72 | One more element appends the next counter value |
| DocumentFontList.DocumentFontListForm.constructor | App/Functions/DocumentOption/DocumentFontListForm.cs:14-15 | A new form has both dictionaries empty and the invariant |
| DocumentFontList.DocumentFontListForm.GetPageFonts | App/Functions/DocumentOption/DocumentFontListForm.cs:101-131 | The dictionaries become ScanPage of the old ones for this page; records already filed stay the same objects; any other record is newly created; every cached name has a record and every record is filed under its own Name |
| DocumentFontList.DocumentFontListForm.AddEntry | App/Functions/DocumentOption/DocumentFontListForm.cs:108-115 | One loop iteration makes the dictionaries ScanEntry of the old ones: a value that is not an indirect reference is skipped, and a cache hit bumps the cached name's record |
| DocumentFontList.DocumentFontListForm.AddUncached | App/Functions/DocumentOption/DocumentFontListForm.cs:116-129 | The cache-miss path makes the dictionaries ScanEntry of the old ones: a non-dictionary or a missing /BaseFont is skipped uncached; otherwise the canonical name is cached and its record bumped or created |
| DocumentFontList.DocumentFontListForm.AddFont | App/Functions/DocumentOption/DocumentFontListForm.cs:128 | Files a fresh record with count 1 under a name that had none; every other entry of the catalog is unchanged |
| DocumentFontList.DocumentFontListForm.Bump | App/Functions/DocumentOption/DocumentFontListForm.cs:113-125 | Raises the count of the record filed under one name and changes no other record |
| DocumentFontList.DocumentFontListForm.VisitPage | App/Functions/DocumentOption/DocumentFontListForm.cs:73-77 | A page already marked in the visited array is skipped without change; an unmarked page is marked and scanned; afterwards the array marks exactly the pages seen so far |
| DocumentFontList.DocumentFontListForm.DoWork | App/Functions/DocumentOption/DocumentFontListForm.cs:57-85 | With k the number of elements reached before cancellation: the run is cancelled exactly when k is less than the sequence length; the reported progress is the negated total and then 1..k; the dictionaries equal Scanned over the first k elements |

## Left out

- The form's user-interface members are not modelled because they hold no inventory logic: `SelectedFonts`, the Load and RunWorkerCompleted handlers, the progress-bar handler, the list columns, the buttons and `SetGoal` (lines 18-56, 86-98, 133-138 and 159 onwards). `_FontListBox.ClearObjects()` at line 61 is left out for the same reason.
- The BackgroundWorker threading is not modelled. A run is one sequential call, the cancellation flag is read from a given sequence of polls, and the reported progress is returned as a sequence of values.
- Opening the file (`PdfHelper.OpenPdfFile`) and the iTextSharp page and object access (`GetPageNRelease`, `Locate`, `GetPdfObjectRelease`, `GetAsName`) are not modelled. The document is given as a value: per page, the values of its font dictionary in enumeration order, plus the object table.
- Decoding of /BaseFont with the configured font-name encoding (`PdfHelper.GetPdfNameString`) is not part of this model. A font dictionary carries its name already decoded.
- The code of the library functions `PdfDocumentFont.RemoveSubsetPrefix` and `PdfDocumentFont.HasEmbeddedFont` is not part of this model. `PdfModel.RemoveSubsetPrefix` stands in for the first, with the subset-tag rule of section 9.6.4 of ISO 32000-1 (six upper-case letters and '+'). The library may not match that rule exactly. The embedded test is a given flag of each font dictionary.
- `PageRangeCollection.Parse` is not part of this model. The page sequence is an input. Its elements are taken to lie in 1..NumberOfPages, the bounds given to the parser at line 63. The reported total `r.TotalPages` is taken to be the length of the sequence.
- DocumentFontList.DocumentFontListForm.DoWork: the `try`/`catch` at lines 58 and 82-84 is not modelled. None of the modelled operations can fail: both `Dictionary.Add` calls (lines 123 and 128) are proved to add absent keys, and page numbers are in range. The exceptions that remain come from code outside this model, and would end the run with an error box. The `cancelled` result is the model's own observable of the early return at line 70: the source does not set `args.Cancel`, so its completion handler (lines 50-56) cannot tell a cancelled run from a finished one.
- DocumentFontList.PageFont.IncrementReference: `Reference` and the progress counter `i` are unbounded integers, so 32-bit overflow is not modelled. `Reference` would need 2^31 entries resolving to one name; `i` would need 2^31 sequence elements.
- The public `Embedded` setter of `PageFont` (line 145) is not modelled as an operation, because nothing in the core calls it. `Embedded` is still a mutable field.
- DocumentFontList.DocumentFontListForm.constructor: the fields at lines 14-15 have no initializer and are null until lines 59-60 assign new dictionaries. The model starts them as empty maps. No core behaviour depends on this, because `GetPageFonts` is private and is only called after the reset in `DoWork`.
