# SnagLog API: report lifecycle, modelled in Dafny

SnagLog turns photos of building defects ("snags") into a paid inspection
report. A user uploads a batch of photos, which creates a report in DRAFT
with one unanalysed snag per photo. A language model assesses each photo.
The user edits the findings, pays through Stripe, and receives a PDF
rendered from the report.

This project models the HTTP handlers behind that lifecycle and the pure
helpers they depend on, and proves properties of the model:

- creating a report and adding photos (`src/routes/upload.js`)
- batch analysis and single re-analysis (`src/routes/analyze.js`)
- listing, reading, editing and deleting reports and snags (`src/routes/report.js`)
- checkout, payment verification with document delivery, the webhook and
  the payment status (`src/routes/payment.js`)
- reading the language model's reply (`src/lib/claude.js`)
- deriving object keys and public URLs in the blob store (`src/lib/r2.js`)
- the report document's content: grouping, tallies, numbering, escaping
  (`src/lib/pdf.js`)

## Layout

| file | module | contents |
|---|---|---|
| common.dfy | `Common` | ids, request inputs (undefined / null / text), `Option`, `Result`, HTTP errors, statuses |
| jsstring.dfy | `JsString` | the JavaScript string operations the core uses: `split`, global `replace`, `padStart`, `String(n)`, `slice`, ASCII case mapping |
| sorting.dfy | `Sorting` | a stable insertion sort by an integer key |
| records.dfy | `Records` | the `Report` and `Snag` rows and the queries on their tables |
| store.dfy | `Store` | the `Database` class: both tables, a log of writes, and the invariant every write keeps |
| r2.dfy | `R2` | `uploadToR2`'s key and URL |
| claude.dfy | `Claude` | `analyzeSnagPhoto`'s reading of the reply |
| upload.dfy | `UploadRoutes` | `POST /api/upload`, `POST /api/upload/:reportId/photos` |
| analyze.dfy | `AnalyzeRoutes` | `POST /api/analyze/:reportId`, `POST /api/analyze/:reportId/snag/:snagId` |
| report.dfy | `ReportRoutes` | `GET`, `PATCH`, `DELETE` on reports and snags |
| escape.dfy | `HtmlEscape` | `escapeHtml`, with a decoder as its inverse |
| grouping.dfy | `Grouping` | `groupSnagsByRoom` / `groupSnagsByTrade` and `Object.entries` order |
| pdf.dfy | `Pdf` | `generateReportHTML` as a document value |
| payment.dfy | `PaymentRoutes` | checkout, verification, delivery, webhook, status |

The database is a `Database` class. Its `reports` and `snags` tables are
sequences of rows in insertion order. `Valid()` holds before and after
every handler and states three things:

- ids are unique in each table;
- every snag belongs to a stored report;
- a report with a document URL is PAID.

Each handler is a method that `modifies` the database. Its postcondition
gives the response and the complete new state for every branch, including
the list of writes it performed. The read-only handlers are functions over
the tables.

External services are parameters of the model:

- the blob store put: the uuid it stores under, or a failure;
- the language model's reply;
- `JSON.parse`;
- the Stripe session calls;
- the headless browser.

Fresh database ids are parameters too, and a precondition makes them fresh.

## Model

| member | source | states |
|---|---|---|
| Common.OrDefault | src/lib/pdf.js:58-67 | `v \|\| fallback`: the stored text when it is non-null and non-empty, the fallback otherwise |
| JsString.Split | src/lib/r2.js:14 | `split('/')` gives at least one piece and no piece holds the separator |
| JsString.JoinSplit | src/lib/r2.js:14 | joining the pieces of `split` with the separator gives the string back |
| JsString.ReplaceAll | src/lib/pdf.js:200 | a global replace removes every occurrence of the character unless the replacement holds it, and introduces no character absent from the input and the replacement |
| JsString.ReplaceAllAppend | src/lib/pdf.js:200 | a global replace distributes over concatenation |
| JsString.PadStart | src/lib/pdf.js:58 | `padStart(n, pad)` has length max(\|s\|, n): the string itself when long enough, otherwise the missing number of pad characters followed by the string |
| JsString.NatToString | src/lib/pdf.js:58 | `String(n)` is a non-empty run of digits with no leading zero |
| JsString.DecimalOfNatToString | src/lib/pdf.js:58 | the digits of `String(n)` denote `n` |
| JsString.DecimalIgnoresLeadingZeros | src/lib/pdf.js:58 | zero padding on the left keeps a digit string's value |
| JsString.Prefix | src/lib/pdf.js:138 | `slice(0, n)` is a prefix of length min(n, \|s\|) |
| JsString.ToUpper | src/lib/pdf.js:138 | `toUpperCase` keeps the length, turns each ASCII lower-case letter into its upper-case counterpart and changes no other character |
| JsString.ToLower | src/lib/pdf.js:59 | `toLowerCase` keeps the length, turns each ASCII upper-case letter into its lower-case counterpart and changes no other character |
| Sorting.SortBy | src/routes/report.js:52-57 | ordering by `displayOrder` ascending gives a sorted permutation of the rows |
| Sorting.InsertBySorted | src/routes/report.js:52-57 | inserting a row into a sorted sequence keeps it sorted |
| Records.FindOwned | src/routes/report.js:52-57 | `findFirst({ id, userId })` finds a row with that id and that owner, and finds nothing only when no row has both |
| Records.FindSnag | src/routes/report.js:119-121 | `where: { id }` finds the row with that id, and finds nothing only when no row has it |
| Records.SnagsOf | src/routes/analyze.js:15-18 | `include: { snags: true }` gives only rows of that report, taken from the table |
| Records.SnagsOfAppend | src/routes/upload.js:104-123 | the snags of a report in a table that grew are its earlier snags followed by the new ones |
| Records.WithoutReport | src/routes/report.js:180-183 | the cascade leaves no snag of the report, only rows of the table, and unique ids |
| Records.OrderedSnagsOf | src/routes/report.js:52-57 | a report's snags ordered by display order are sorted and are a permutation of its snags |
| Records.CountSeverity | src/routes/report.js:33-35 | a severity filter counts at most the number of snags |
| Records.CountsBounded | src/routes/report.js:31-35 | minor + moderate + major never exceeds `snagCount`, and equals it exactly when every snag has one of the three severities |
| Records.CountSeverityAppend | src/lib/pdf.js:30-34 | a severity count over concatenated rows is the sum of the counts |
| Records.CountSeverityPermutation | src/lib/pdf.js:30-34 | a severity count does not depend on the order of the rows |
| Store.RemoveAt | src/routes/report.js:154-156 | removing one row keeps the rows before it and shifts the rows after it down by one |
| Store.Database.Valid | src/routes/report.js:180-183 | ids are unique in each table, every snag belongs to a stored report (the cascade's foreign key), and a report with a document URL is PAID |
| Store.Database.CreateReport | src/routes/upload.js:40-49 | `prisma.report.create` appends the row, keeps the invariant and logs the write |
| Store.Database.UpdateReportAt | src/routes/report.js:86-94 | `prisma.report.update` replaces one row, keeps the invariant and logs the write |
| Store.Database.DeleteReportAt | src/routes/report.js:180-183 | `prisma.report.delete` removes the row and, by the cascade, exactly its snags |
| Store.Database.CreateSnag | src/routes/upload.js:60-66 | `prisma.snag.create` appends a row for a stored report with a fresh id |
| Store.Database.UpdateSnagAt | src/routes/report.js:119-130 | `prisma.snag.update` replaces one row and keeps its id and its report |
| Store.Database.DeleteSnagAt | src/routes/report.js:154-156 | `prisma.snag.delete` removes exactly one row |
| R2.FileExtension | src/lib/r2.js:14 | the extension is non-empty and holds no `/` |
| R2.ExtensionIsSubtype | src/lib/r2.js:14 | for `type/subtype...` the extension is the subtype |
| R2.ExtensionFallback | src/lib/r2.js:14 | with no subtype, or an empty one, the extension is `jpg` |
| R2.ObjectKey | src/lib/r2.js:15 | the key's length is the folder's, the uuid's and the extension's plus the slash and the dot |
| R2.ObjectKeyParts | src/lib/r2.js:15 | the key is the folder, `/`, the uuid, `.` and the extension, in that order |
| R2.UploadToR2 | src/lib/r2.js:13-28 | the returned file name is the object key and the public URL is the public base, `/`, then the key |
| R2.DistinctUuidsDistinctKeys | src/lib/r2.js:15 | two different uuids give two different keys in the same folder |
| R2.PublicUrlOf | src/lib/r2.js:15-27 | the public URL written out in full, given the extension |
| Claude.FirstIndexOf | src/lib/claude.js:45 | the first position of a character, or none when it does not occur |
| Claude.LastIndexOf | src/lib/claude.js:45 | the last position of a character, or none when it does not occur |
| Claude.SpanBounds | src/lib/claude.js:45 | the greedy `/\{[\s\S]*\}/` match runs from the first `{` to the last `}` after it |
| Claude.SpanExistsIff | src/lib/claude.js:45-46 | the match exists exactly when some `{` precedes some `}` |
| Claude.JsonSpan | src/lib/claude.js:45-47 | the matched text exists exactly when the bounds do, and opens with `{` and closes with `}` |
| Claude.ReadReply | src/lib/claude.js:43-60 | no text gives the fallback assessment, and any other assessment is what the parser made of the matched span |
| Claude.AnalyzeSnagPhoto | src/lib/claude.js:7-61 | the call rejects exactly when the API request fails, since the `catch` covers only the reading of the reply; otherwise it gives the parsed span or the fallback assessment |
| Claude.ParsedSpanReturned | src/lib/claude.js:45-48 | a span that parses is returned as parsed, with no check of its fields |
| Claude.SentinelOnUnreadableReply | src/lib/claude.js:49-60 | no text, no span, or a span that does not parse all give the same fallback assessment |
| Claude.ParserSeesBracedSpan | src/lib/claude.js:45-47 | the parser receives only a span that opens with `{` and closes with `}` |
| UploadRoutes.IsImage | src/routes/upload.js:16-21 | a file is an image when its mime type starts with `image/` |
| UploadRoutes.MulterAccepts | src/routes/upload.js:12-22 | an upload passes multer when it has at most 100 files, each an image of at most 10 MB |
| UploadRoutes.PhotoSnags | src/routes/upload.js:52-66 | each stored file gets a row of the report in submission order, with display order `start + index` and a fresh id; when every file is stored there is one row per file |
| UploadRoutes.UploadPhoto | src/routes/upload.js:53-66 | one file of a batch: the put, then the row when the put succeeds; nothing else changes |
| UploadRoutes.UploadPhotos | src/routes/upload.js:52-68 | the batch appends exactly the rows of `PhotoSnags`, and reports whether every put succeeded |
| UploadRoutes.CreateReport | src/routes/upload.js:26-82 | a rejected upload, no photos and a falsy address change nothing and give their errors in that order; otherwise a DRAFT report with null optional fields and one snag per stored photo, with a 500 when a put failed |
| UploadRoutes.AddPhotos | src/routes/upload.js:85-134 | missing or foreign report is a 404 and a COMPLETE one a 400, with nothing written; otherwise the new rows continue from the report's snag count, and the totals are returned |
| UploadRoutes.BatchOrdersFresh | src/routes/upload.js:104-119 | while a report's orders stay below its snag count (a delete or a failed put can break this), a fully stored batch takes the orders `n .. n + m - 1` and clashes with none in use |
| UploadRoutes.OrderCollisionAfterDelete | src/routes/upload.js:104-119 | after a snag is deleted, the next batch reuses a display order that a remaining snag holds |
| UploadRoutes.PartlyFailedBatch | src/routes/upload.js:52-66 | a batch of three whose middle put fails keeps two rows, with the orders 0 and 2 of their files |
| UploadRoutes.OrderCollisionAfterFailedPut | src/routes/upload.js:104-119 | after that batch the snag count is 2, so the next added photo reuses order 2 with no delete |
| AnalyzeRoutes.WithAnalysis | src/routes/analyze.js:40-50 | the six assessed columns are overwritten and the id, report, photo, order, room and `userEdited` are kept |
| AnalyzeRoutes.BatchTable | src/routes/analyze.js:35-56 | each snag of the report whose request succeeded and whose update was accepted gets its assessment; every other row is unchanged |
| AnalyzeRoutes.ApplyUpdate | src/routes/analyze.js:40-50 | an update by id replaces exactly the row with that id |
| AnalyzeRoutes.UpdatesCommute | src/routes/analyze.js:35-56 | updates of two different snags can be applied in either order |
| AnalyzeRoutes.UpdatedRows | src/routes/analyze.js:35-56 | the batch writes at most one row per snag of the table |
| AnalyzeRoutes.UpdatedRowsExact | src/routes/analyze.js:35-56 | every written row is an updated snag as the batch leaves it, and every updated snag is written |
| AnalyzeRoutes.UpdatedRowsDistinct | src/routes/analyze.js:35-56 | the written rows have pairwise distinct ids when the table's ids are unique |
| AnalyzeRoutes.UpdateWrites | src/routes/analyze.js:40-50 | one row update per written row, in the same order |
| AnalyzeRoutes.BatchWritesAreUpdates | src/routes/analyze.js:35-56 | the batch's logged writes are exactly the updates of `UpdatedRows` |
| AnalyzeRoutes.ApplyAllAt | src/routes/analyze.js:35-56 | applying updates that never disagree about a row leaves each touched row as written and every other row as it was, whatever their order |
| AnalyzeRoutes.SameUpdatesConsistent | src/routes/analyze.js:35-56 | any list of the batch's updates never disagrees about a row when the table's ids are unique |
| AnalyzeRoutes.UntouchedRow | src/routes/analyze.js:35-56 | a row the batch does not update is touched by none of its updates |
| AnalyzeRoutes.BatchInAnyOrder | src/routes/analyze.js:35-56 | the batch's updates applied in any order, even with repeats, give `BatchTable`, so the concurrent writes of `Promise.all` cannot interfere |
| AnalyzeRoutes.AnalyzeRow | src/routes/analyze.js:36-55 | one snag of the batch is assessed, and whether its update was rejected is reported |
| AnalyzeRoutes.AnalyzeSnags | src/routes/analyze.js:35-56 | the snag table becomes `BatchTable`, and the batch reports whether some update was rejected |
| AnalyzeRoutes.AnalyzeReport | src/routes/analyze.js:9-73 | 404 and "No photos to analyze" write nothing; otherwise ANALYZING, the assessments, then REVIEW with the snags in display order, or a 500 that leaves the report ANALYZING when an update was rejected; with no status guard, a COMPLETE report goes back to REVIEW and keeps its document URL and its payment |
| AnalyzeRoutes.BatchKeepsEditFlag | src/routes/analyze.js:40-50 | the batch overwrites a user-edited snag and leaves `userEdited` set |
| AnalyzeRoutes.FindSnagOf | src/routes/analyze.js:90-92 | `findFirst({ id, reportId })` finds the snag only when it belongs to that report |
| AnalyzeRoutes.ReanalyzeSnag | src/routes/analyze.js:76-121 | 404 for the report and for a snag of another report; a failed request or rejected update is a 500 with nothing written; otherwise the six columns are replaced and `userEdited` is cleared, with the report untouched |
| ReportRoutes.Summarize | src/routes/report.js:22-37 | a listed report has its snag count and the three severity counts of its snags |
| ReportRoutes.ListReports | src/routes/report.js:8-44 | the list has at most as many entries as there are reports |
| ReportRoutes.ListedExactlyOwned | src/routes/report.js:12-20 | an entry is listed exactly when it is the summary of a report the user owns |
| ReportRoutes.NewestFirst | src/routes/report.js:19 | the most recently created owned report comes first |
| ReportRoutes.Shifted | src/routes/report.js:12-20 | each position moved one row down the table |
| ReportRoutes.OwnedPositions | src/routes/report.js:12-20 | every listed position lies within the table |
| ReportRoutes.OwnedPositionsDescend | src/routes/report.js:12-20 | every listed position holds a report of the user, and the positions run strictly from the bottom of the table up |
| ReportRoutes.OwnedPositionsComplete | src/routes/report.js:12-20 | every position of a report of the user is listed |
| ReportRoutes.ListedInOrder | src/routes/report.js:12-44 | the listing has one entry per owned report, and its `a`-th entry summarises the `a`-th latest of them, so each entry comes from a later row than every entry after it |
| ReportRoutes.ListedCountsBounded | src/routes/report.js:31-36 | in every listed entry the three severity counts add up to at most `snagCount` |
| ReportRoutes.GetReport | src/routes/report.js:47-68 | a 404 exactly when the user owns no such report; otherwise that report with its snags, sorted by display order and a permutation of them |
| ReportRoutes.PatchReport | src/routes/report.js:86-94 | a truthy address, type or date replaces its column and a falsy one keeps it; an absent developer name keeps the column, `null` clears it and a text replaces it; id, owner, statuses, payment and document are kept |
| ReportRoutes.PatchReportIdempotent | src/routes/report.js:86-94 | applying the same patch twice equals applying it once |
| ReportRoutes.PatchReportClears | src/routes/report.js:89-93 | each falsy address, type or date keeps its column, a stored type is never cleared, and the developer name ends up null exactly when `null` is sent or it was null and nothing was sent |
| ReportRoutes.UpdateReport | src/routes/report.js:71-101 | a 404 writes nothing; otherwise the owned row becomes the patched row and is returned |
| ReportRoutes.WhenTruthy | src/routes/report.js:123-127 | a truthy field replaces the column and a falsy one keeps it |
| ReportRoutes.PatchSnag | src/routes/report.js:119-130 | an absent room keeps the column, `null` clears it and a text replaces it; each of the other five fields replaces its column when truthy; the snag keeps its id, report, photo, order and confidence and becomes `userEdited` |
| ReportRoutes.PatchSnagIdempotent | src/routes/report.js:119-130 | applying the same snag patch twice equals applying it once |
| ReportRoutes.UpdateSnag | src/routes/report.js:104-137 | a 404 for the report writes nothing; an unknown snag id is a 500; otherwise the snag with that id is patched, whichever report it belongs to |
| ReportRoutes.SnagRoutesNotScoped | src/routes/report.js:119-121 | a user can reach a snag of another user's report through their own report's path |
| ReportRoutes.DeleteSnag | src/routes/report.js:140-163 | a 404 writes nothing; an unknown snag id is a 500; otherwise exactly that row is removed |
| ReportRoutes.DeleteSnagKeepsOthers | src/routes/report.js:154-156 | a snag delete removes one row of its report and leaves the others, display orders included, unchanged |
| ReportRoutes.DeleteReport | src/routes/report.js:166-190 | a 404 writes nothing; otherwise the report and its snags are removed |
| ReportRoutes.CascadeExact | src/routes/report.js:180-183 | the cascade removes every snag of the report and no snag of any other report |
| HtmlEscape.EscapeHtml | src/lib/pdf.js:198-201 | a falsy text gives the empty string, and no `<`, `>`, `"` or `'` survives |
| HtmlEscape.EscapeIsPerCharacter | src/lib/pdf.js:200 | because `&` goes first, the five chained replacements escape character by character |
| HtmlEscape.UnescapeEscape | src/lib/pdf.js:198-201 | decoding the five entities of escaped text gives the text back |
| HtmlEscape.AmpersandsBeginEntities | src/lib/pdf.js:200 | in escaped text every `&` begins one of the five entities |
| HtmlEscape.EscapeHtmlPlain | src/lib/pdf.js:198-201 | text without the five characters is unchanged |
| Grouping.GroupKey | src/lib/pdf.js:178 | a falsy room or trade is grouped as `Unassigned`, so no key is empty |
| Grouping.KeysOf | src/lib/pdf.js:176-183 | the key of every snag, in order |
| Grouping.Members | src/lib/pdf.js:176-183 | a group holds only snags with its key |
| Grouping.AddStep | src/lib/pdf.js:179-180 | one step of the reduce keeps the groups consistent with the snags read so far |
| Grouping.GroupFold | src/lib/pdf.js:176-183 | the reduce over the snags, `None` when a `push` throws; what it computes is stated by `GroupFoldShape` and `GroupFoldThrows` |
| Grouping.GroupFoldShape | src/lib/pdf.js:176-183 | every group holds the snags of its key in input order, and the keys are exactly the keys that occur, each once |
| Grouping.GroupFoldThrows | src/lib/pdf.js:176-183 | the reduce throws exactly when a key names a property every object inherits |
| Grouping.GroupsArePermutation | src/lib/pdf.js:176-183 | the groups, concatenated in insertion order, are a permutation of the snags |
| Grouping.Position | src/lib/pdf.js:176-183 | the first position of a key, or the length when it is absent |
| Grouping.KeysInFirstOccurrenceOrder | src/lib/pdf.js:176-183 | the insertion order of the keys is their order of first occurrence |
| Grouping.IndexKeys | src/lib/pdf.js:36 | the keys that are array indices |
| Grouping.NamedKeys | src/lib/pdf.js:36 | the keys that are not array indices |
| Grouping.KeysPartition | src/lib/pdf.js:36 | every key is either an index key or a named key |
| Grouping.Entries | src/lib/pdf.js:36 | `Object.entries` lists every key once |
| Grouping.EntriesOrder | src/lib/pdf.js:36 | index keys come first, in numeric order, followed by the other keys in insertion order |
| Grouping.EntriesWithoutIndexKeys | src/lib/pdf.js:36 | with no index keys `Object.entries` keeps insertion order |
| Grouping.IndexKeyFirst | src/lib/pdf.js:36 | a room named `2` is listed before an earlier room `Kitchen` |
| Grouping.FlattenPermutation | src/lib/pdf.js:36 | concatenating the groups in any order of the keys gives the same multiset |
| Grouping.ListedGroupsArePermutation | src/lib/pdf.js:53-73 | the groups in the order the document lists them are a permutation of the snags |
| Grouping.GroupSnags | src/lib/pdf.js:176-183 | the reduce, updating the accumulator in place, computes the grouping |
| Pdf.SnagNumber | src/lib/pdf.js:58 | a card number is `#` followed by at least three characters |
| Pdf.SnagNumberValue | src/lib/pdf.js:58 | a card number is `#` followed by at least three digits denoting the one-based position |
| Pdf.SnagNumbersDistinct | src/lib/pdf.js:58 | different positions get different numbers |
| Pdf.SnagNumberExamples | src/lib/pdf.js:58 | the first card is `#001` and the 42nd is `#042` |
| Pdf.ShortId | src/lib/pdf.js:138 | the short report id is at most 8 characters: the id's first ones, upper-cased |
| Pdf.ShortIdIdempotent | src/lib/pdf.js:138 | shortening a short id changes nothing |
| Pdf.TextShown | src/lib/pdf.js:58-67 | a missing field shows its fallback and a present one shows escaped text that decodes to it |
| Pdf.TitleShown | src/lib/pdf.js:58 | the card title shows the defect type, or `Defect` |
| Pdf.DescriptionShown | src/lib/pdf.js:64 | the card shows the description, or `No description` |
| Pdf.TradeShown | src/lib/pdf.js:66 | the card shows the trade, or `TBC` |
| Pdf.ActionShown | src/lib/pdf.js:67 | the card shows the remedial action, or `Review required` |
| Pdf.CardShowsSnag | src/lib/pdf.js:55-72 | every text on a snag's card is its field, decodable, or the field's fallback |
| Pdf.Cards | src/lib/pdf.js:55-72 | one card per snag of the room |
| Pdf.Sections | src/lib/pdf.js:53-73 | one section per listed room |
| Pdf.RoomRows | src/lib/pdf.js:36-44 | one location row per listed room |
| Pdf.TradeRows | src/lib/pdf.js:46-51 | one trade row per listed trade |
| Pdf.GroupsRated | src/lib/pdf.js:59 | when every snag has a severity, so does every group |
| Pdf.ReportDocument | src/lib/pdf.js:28-174 | rendering fails exactly when some snag has no severity or a room or trade name is an inherited property |
| Pdf.CoverShowsReport | src/lib/pdf.js:121-145 | the address decodes to the stored one; the type and developer rows appear exactly for truthy values and decode to them; the report id is the short id |
| Pdf.Tallies | src/lib/pdf.js:36-51 | one count per listed group |
| Pdf.SumTallies | src/lib/pdf.js:36-51 | the counts of the groups add up to the count over their concatenation |
| Pdf.ListedTallies | src/lib/pdf.js:36-51 | the counts of the listed groups add up to the count over all snags |
| Pdf.RoomColumn | src/lib/pdf.js:36-44 | one cell per location row |
| Pdf.RoomTableAddsUp | src/lib/pdf.js:30-44 | the location totals sum to the cover's total and each severity column to the cover's count; within a row the severities never exceed its total |
| Pdf.TradeTableAddsUp | src/lib/pdf.js:46-51 | the trade counts sum to the number of snags |
| Pdf.SectionMatchesRow | src/lib/pdf.js:53-58 | a section heads its room as its location row does, its count is its number of cards and the row's total, and its cards are numbered from `#001` |
| Pdf.SectionsFollowRows | src/lib/pdf.js:53-73 | the sections match the location rows one by one |
| Pdf.DocumentSections | src/lib/pdf.js:36-73 | the sections and location rows are built over the room groups in `Object.entries` order |
| Pdf.SectionsFollowTable | src/lib/pdf.js:53-73 | the detailed list follows the location table room by room |
| Pdf.SectionsListEverySnag | src/lib/pdf.js:53-73 | every snag gets one card: the sections' cards add up to the number of snags |
| PaymentRoutes.Checkout | src/routes/payment.js:11-57 | 404, "Report already paid", "No snags in report" and a Stripe failure in that order; otherwise the session Stripe created for that report and user; a session is created only for an owned unpaid report |
| PaymentRoutes.CheckoutSessionMatches | src/routes/payment.js:46-49 | a paid session created by checkout for a report passes that report's session check |
| PaymentRoutes.GeneratedPdf | src/lib/pdf.js:4-26 | no URL exactly when generating the markup throws or printing or the put fails |
| PaymentRoutes.GeneratedPdfUrl | src/lib/pdf.js:4-26 | a generated document is served from `<base>/pdfs/<report id>/<uuid>.pdf` |
| PaymentRoutes.GeneratedPdfFails | src/lib/pdf.js:4-26 | delivery fails exactly when some snag has no severity, a room or trade name is an inherited property, or printing or the put fails |
| PaymentRoutes.PdfUrlShape | src/lib/pdf.js:21 | the document is stored under `pdfs/<report id>` with the `pdf` extension |
| PaymentRoutes.PdfExtension | src/lib/pdf.js:21 | `application/pdf` gives the extension `pdf` |
| PaymentRoutes.VerifyPayment | src/routes/payment.js:60-119 | 404 and a paid report with a document write nothing; a failed retrieval, an unpaid session or another report's session write nothing; otherwise GENERATING and PAID, then COMPLETE with the URL, or a 500 that leaves the report GENERATING |
| PaymentRoutes.Deliver | src/routes/payment.js:93-112 | GENERATING and PAID with the payment intent; then, given the rendering's outcome, a 500 that leaves the report GENERATING, or COMPLETE with the URL, which is returned |
| PaymentRoutes.DeliveredShortCircuits | src/routes/payment.js:77-112 | after a delivery the report is COMPLETE and PAID with a document, so the next verification returns it |
| PaymentRoutes.FailedRenderIsRetried | src/routes/payment.js:93-103 | after a failed rendering the report is GENERATING and PAID without a document, so the next verification renders again |
| PaymentRoutes.Webhook | src/routes/payment.js:122-155 | a bad signature is rejected with its message; every other event is acknowledged and nothing is written |
| PaymentRoutes.StatusOf | src/routes/payment.js:158-182 | a 404 exactly when the user owns no such report; otherwise its id, payment status, document URL and status |

## Behaviour worth knowing

These follow from the code as written; none of them was observed at run
time.

- `analyzeSnagPhoto` catches only failures in reading the reply
  (`src/lib/claude.js:43-60`). A failed API request propagates.
  - In the batch, the per-snag `catch` keeps that snag unchanged.
  - In a re-analysis the failure becomes a 500.
  - See `Claude.AnalyzeSnagPhoto`.
- The batch returns `prisma.snag.update(...)` without `await` inside the
  `try` (`src/routes/analyze.js:40-50`).
  - A rejected update escapes the per-snag `catch`, and `Promise.all`
    rejects.
  - The response is "Failed to analyze photos", and the report stays
    ANALYZING.
  - The other updates still take effect.
  - The model lists such snags in the `failing` parameter.
- Nothing guards the batch by status, so it can reopen a delivered report
  (`AnalyzeRoutes.AnalyzeReport`). The report goes back to REVIEW with its
  document and payment, so "a report with a document is COMPLETE" does not
  hold. The invariant the model keeps is the weaker "a report with a
  document is PAID".
- Edits and deletes of a snag are scoped only by the report in the path.
  The snag itself is looked up by id alone (`ReportRoutes.SnagRoutesNotScoped`).
  An unknown id fails in Prisma, which the model gives as the route's 500.
- Display orders are not unique once a snag has been deleted
  (`UploadRoutes.OrderCollisionAfterDelete`) or an upload in a batch has
  failed: the rows of the stored files keep their indices although the
  route answers 500 (`UploadRoutes.OrderCollisionAfterFailedPut`).
- Grouping uses a plain object.
  - A room or trade called `constructor`, `toString` or any other
    inherited property name makes `push` throw, and rendering fails.
  - `Object.entries` lists array-index names such as `2` before all other
    names.
- `photoUrl` and the severity go into the document unescaped; only the
  five texts and the cover fields are escaped.
- The report routes are mounted at `/api/report` (`src/index.js:36`);
  the paths in the model's comments follow that.
- The webhook cannot verify a real event. `src/index.js:25` installs
  `express.json()` for every route, ahead of the router. The body reaches
  the webhook's `express.raw` (`src/routes/payment.js:122`) already
  parsed into an object, so `constructEvent` cannot check the signature
  over the raw bytes and throws. Every delivery is then answered 400
  (`PaymentRoutes.Webhook`, the `BadSignature` case). This is read from
  the code; the model takes the signature check's outcome as an input and
  does not derive it.

## Left out

- I/O and external services. HTTP transport, Clerk authentication,
  Prisma, S3, Stripe, Anthropic and puppeteer are reduced to the
  parameters above. The authenticated user id is an input.
- The S3 client and uuid generation: the bucket, credentials and the
  object's bytes are not modelled, and uuids are inputs.
- `deleteFromR2` (`src/lib/r2.js:30-37`): no route calls it.
- The server set-up in `src/index.js` (CORS, Clerk, body parsing, route
  mounting) is not modelled.
- Dates. `inspectionDate` and `new Date()` are opaque strings given as
  inputs, and `formatDate` with its locale formatting is left out. The
  document does not carry the inspection or generation date.
  `ReportRoutes.PatchReport` stores the raw date text.
- `createdAt`. The listing's newest-first order is modelled by insertion
  order, the latest report first.
- The document's markup and CSS, and the printed PDF bytes. `Pdf.ReportDocument`
  keeps only the texts and numbers the document shows.
- Partial JSON from the language model. The parsed assessment always has
  all six fields, so a missing field that Prisma would leave unchanged is
  not modelled. `JSON.parse` is an abstract parser.
- `aiConfidence` is a `real` and is stored as given. Floating point is not
  modelled.
- Concurrency. The `Promise.all` batches run sequentially in the model.
  For the analysis batch, `AnalyzeRoutes.BatchInAnyOrder` proves that
  issuing its row updates in any order gives the same table. The upload
  batch runs in submission order only. Its rows are appends, and the
  model does not prove that another interleaving gives the same table.
  After a failed upload batch, the model keeps the stored photos and rows
  of the files that succeeded.
- Writes to a report row are assumed to succeed. A failure of Prisma on
  those writes, which would give a 500, is not modelled.
- The handlers' outer `catch` for unexpected errors, other than the
  failures named above.
- multer errors. A rejected upload (a non-image, more than 100 files or a
  file over 10 MB) reaches the application's error handler
  (`src/index.js:40-43`), which answers 500 "Internal server error". The
  model gives that 500 with nothing written; the handler's logging is
  left out.
- `JsString.ToUpper`, `JsString.ToLower`, `Pdf.ShortId`: ASCII case mapping
  only, because Dafny strings carry no Unicode case tables.
- `ReportRoutes.ListReports`: its own contract states only the length
  bound. Membership is stated by `ReportRoutes.ListedExactlyOwned`, and
  the full newest-first order by `ReportRoutes.ListedInOrder`.
- `Records.OrderedSnagsOf`: the model sorts stably, so snags with equal
  `displayOrder` keep their table order. Prisma's `orderBy` leaves the
  order of ties to the database. The model therefore fixes one tie order
  where the code fixes none: the snags returned by `GetReport` and
  `AnalyzeReport`, and the card numbers of the document rendered by
  `VerifyPayment`. Ties occur after a delete
  (`UploadRoutes.OrderCollisionAfterDelete`) or after a batch in which an
  upload failed (`UploadRoutes.OrderCollisionAfterFailedPut`).
