# Portal: proved models of its protocols, codecs and checks

Dafny models of the parts of the repository whose correctness is hardest to see by reading, and proofs
about them. `dafny verify dfyconfig.toml` checks everything.

| file | what it models |
|---|---|
| `ArrayDiff.dfy` | the banded comparison of arrays and the pairing of moves in the vendored Knockout |
| `DiffIsLeast.dfy` | which comparisons find a shortest of all scripts |
| `ArrayTracking.dfy` | the notifications of an observable array: cached diffs of known operations, and all others |
| `EventStream.dfy` | the incremental reader of server-sent events, the printer of the server, the batch parser of the tests |
| `EventLines.dfy` | what readers make of lines and blocks, told from the text alone |
| `Zip.dfy` | the ZIP writer and reader of the end-to-end tests |
| `Pdf.dfy`, `Decimal.dfy`, `Pieces.dfy` | the PDF builders: cross-reference offsets and lengths |
| `PdfText.dfy` | the texts of the documents: escapes, latin1, and reading them back |
| `PdfPages.dfy` | the page tree, followed from the catalog to the text of a page |
| `FillerSearch.dfy` | the document of an exact size, and the search for its filler |
| `Slots.dfy` | the compile endpoint as a state machine: slots, worker processes, time limits, aborts |
| `Handler.dfy` | the handler of one request as it is written, which walks that machine |
| `Validator.dfy` | the request validator and the directory tree that an accepted request is |
| `SourceBytes.dfy` | the total of the file sizes, through the endpoint and without it |
| `PackageList.dfy`, `PackageSync.dfy` | the package list, printed and parsed, and its synchronisation to disk |
| `Base64.dfy` | base64 in that list: which accepted digests no file ever has |
| `PackageLines.dfy` | how that list is taken apart and why a line is refused |
| `OfflineSet.dfy` | that set between its two programs: what is downloaded is what the validator looks for |
| `Sdk.dfy` | the SDK index and its check at load |
| `Resolution.dfy` | where the libraries of packages go when a compilation resolves them |
| `ToolTypes.dfy` | the rule on the list of tool types, and reflection names |
| `SchemaInstance.dfy` | the value that the model stub makes from a JSON schema |
| `Totp.dfy` | base32 and one-time codes |
| `ReadOnlyTx.dfy` | the recogniser of read-only transactions and the grouping of log lines |
| `Common.dfy`, `Characters.dfy` | types and characters that the others share |
| `ClientStream.dfy` | the client's event streams and the set of the open ones |

Text is `seq<char>`, bytes are integers below 256, a dictionary is a `map` or a `seq` of pairs where its order
matters. An exception is an error result. What comes from outside is a parameter: compression, checksums,
hashes, JSON, text encodings and keyword tables are functions (with "decoding undoes encoding" or
"different inputs, different hashes" where a property needs it); the file system, the network, the clock and
the fate of a process are answers of an environment that the proofs quantify over.

## Where the code does less than its description

Each of these is a lemma below, with the exact condition under which the code does what is meant.

* An archive whose part count, directory size or directory offset happens to spell `PK\5\6` cannot be read
  back: the reader takes the last signature (`Zip.ZipRoundTrip`); one part of about 100 MB does it
  (`Zip.OnePartShadows`).
* The batch parser of the tests stops at U+2028 and U+2029, the reader of the application does not
  (`EventStream.BatchRoundTrip`, `EventStream.ParsersAgree`, `EventStream.SeparatorExample`).
* The banded comparison finds a shortest script exactly if some shortest script stays in the band
  (`DiffIsLeast.LeastIffShortestStays`). It does wherever little is dropped from the shorter array
  (`DiffIsLeast.LeastIfLittleIsDropped`), and whenever it finds at most four changes for arrays of one length or
  at most two more than the lengths differ by (`DiffIsLeast.FewChangesAreLeast`). These thresholds are sharp
  (`DiffIsLeast.FiveForThree`, `ArrayDiff.BandMissesShorter`). Past them a count without the band decides
  (`DiffIsLeast.FindsShortestIff`). How far from shortest the result can be stays open.
* A `splice` whose start is no number, such as `undefined`, has an empty cached diff though it may change the
  array: subscribers are not told exactly if it is the only pending change (`ArrayTracking.UnnumberedApplies`,
  `ArrayTracking.Tracker.NotifyChanges`, `ArrayTracking.SilentSplice`).
* The search for a filler length goes on for ever, although a length exists, exactly if the size grows by two on
  both sides of that length (`FillerSearch.FindsIff`, `FillerSearch.MissesASize`).
* The PDF builders write latin1 and do not escape carriage returns: a text reads back exactly if all its
  characters are below U+0100 and none is a carriage return (`PdfText.TextPdf`, `PdfText.CyrillicIsLost`,
  `PdfText.ParenthesisEnds`).
* If killing a worker throws and leaves it alive, its slot is released all the same, and the number of live
  processes has no bound (`Slots.SlotsAreKept`, `Slots.NoBoundWithStrays`, `Handler.RunAsync`).
* A path part may end in a line feed, which also gets it past the check of reserved names
  (`Validator.StrictIffNoLineFeed`, `Validator.LineFeedPasses`); so may an assembly name, which also gets it past
  the check of keywords (`Validator.NameStrictIffNoLineFeed`, `Validator.NameWithLineFeedPasses`). A package id or
  version with a line feed passes its pattern too, but is then refused as unknown, unless the offline set has such
  a name (`Validator.PackageWithLineFeed`, `Validator.CleanStoreIsStrict`); none that is downloaded into it has
  (`PackageSync.PathHasNoLineFeed`).
* The total of the file sizes is an `int` without overflow check: exact exactly if the sum is an `int`
  (`Validator.TotalIsWrapped`, `Validator.TotalIsExact`). A request that comes through the endpoint is always
  summed exactly (`SourceBytes.EndpointIsExact`); only a caller in the same process can pass one that is not
  (`SourceBytes.TotalCanWrap`).
* The list may hold packages that no request can name: ids over 100 and versions over 64 characters, and those
  with two dots in a row (`OfflineSet.ListedCanBeNamed`).
* A digest in base64 is accepted whatever bits are left over in its last digit, but a file can match it only if
  they are zero (`Base64.CanBeInPlaceIff`, `Base64.SecondIsNeverInPlace`); one with a character beyond ASCII
  raises an error that the parser does not catch (`PackageList.UncaughtIff`, `PackageList.CyrillicDigest`).
* How a stream is reported depends on how its reader stops, and only then on the last event or on an abort
  (`ClientStream.EndsNormallyIff`): one that fails after `done` is broken, and so is an aborted one that closes
  cleanly (`ClientStream.FailureAfterDone`, `ClientStream.AbortedThenEnds`).
* A statement that begins or ends a transaction may hold a second one; all statements of a trace that passes are
  single exactly if those that start with BEGIN or ROLLBACK are (`ReadOnlyTx.SingleIffBoundariesAre`,
  `ReadOnlyTx.BeginMaySayMore`, `ReadOnlyTx.RollbackMaySayMore`).

## Model

| member | source | states |
|---|---|---|
| `ArrayDiff.CompareArrays` | portal/dev/cogis-client/knockout.js:132-133 | For all arrays, the script patches old into new and new back into old, has exactly as many changes as the table says, lists every index in ascending order; a full script spells both arrays, a sparse one holds changes only. The marks are the complete pairing of its changes, those of the shorter array against those of the longer in walk order, which stops exactly when ten times the shorter length comparisons have failed in a row, or never if that is not asked for; with fewer than ten changes on the longer side no equal pair is left |
| `ArrayDiff.CompareSmallToBig` | portal/dev/cogis-client/knockout.js:132-133 | The same for the shorter array against the longer one, over the whole run: table, walk back, pairing |
| `ArrayDiff.FillTable` | portal/dev/cogis-client/knockout.js:132 | Every row of the table holds exactly the cells of the band, each the least cost of an alignment within the band plus one |
| `ArrayDiff.TableIsLeast` | portal/dev/cogis-client/knockout.js:132 | No alignment that stays in the band costs less than its cell less one |
| `ArrayDiff.TableIsAttained` | portal/dev/cogis-client/knockout.js:132 | Some alignment in the band costs exactly that: the cell is a minimum, not a bound |
| `ArrayDiff.TableIsWalkable` | portal/dev/cogis-client/knockout.js:132-133 | From every cell of the band the walk finds a step that it may take: "retained" only where both indices are positive and the values equal, and always to a cell that exists |
| `ArrayDiff.WalkBack` | portal/dev/cogis-client/knockout.js:132-133 | The walk ends, spells both arrays, and makes exactly (corner cell - 1) changes |
| `ArrayDiff.FindMoves` | portal/dev/cogis-client/knockout.js:131 | Every entry in turn takes the first free entry of its value and goes without only if there is none; partners name each other by index; it goes on after each entry exactly until the comparisons failed since the last pair reach the limit. This determines every mark |
| `ArrayDiff.PairingIsFull` | portal/dev/cogis-client/knockout.js:131 | Where so many comparisons cannot fail, every equal pair is found |
| `ArrayDiff.PairingEnds` | portal/dev/cogis-client/knockout.js:131 | Among the entries that were tried no equal pair is left, and no later entry is marked |
| `ArrayDiff.BandMissesShorter` | portal/dev/cogis-client/knockout.js:132 | For arrays of one length six changes may be found where four would do: [1,2,3] to [4,5,1] |
| `DiffIsLeast.BandedScriptCosts` | portal/dev/cogis-client/knockout.js:132-133 | No full script of any kind whose positions stay in the band has fewer changes than the table says |
| `DiffIsLeast.BandedScript` | portal/dev/cogis-client/knockout.js:132-133 | Some full script in the band has exactly the changes of the table |
| `DiffIsLeast.LeavingCosts` | portal/dev/cogis-client/knockout.js:132 | A full script that leaves the band drops at least two elements of the shorter array more than it is ahead |
| `DiffIsLeast.LeastIfLittleIsDropped` | portal/dev/cogis-client/knockout.js:132-133 | The comparison finds a shortest of all full scripts if some full script drops nothing from the shorter array, or for equal lengths at most one element |
| `DiffIsLeast.LeastIffShortestStays` | portal/dev/cogis-client/knockout.js:132-133 | It finds a shortest of all full scripts exactly if some shortest script stays in the band |
| `DiffIsLeast.FindsShortestIff` | portal/dev/cogis-client/knockout.js:132-133 | For all arrays a shortest of all full scripts is found exactly if the table without its band has no fewer changes, which a caller can compute from the two arrays |
| `DiffIsLeast.FewChangesAreLeast` | portal/dev/cogis-client/knockout.js:132-133 | What it finds is shortest whenever it has at most four changes for equal lengths, or at most two more than the lengths differ by for others |
| `DiffIsLeast.FiveForThree` | portal/dev/cogis-client/knockout.js:132 | These thresholds are sharp: with four more than the lengths differ by there are arrays for which five changes are found where three would do |
| `ArrayTracking.KnownDiff` | portal/dev/cogis-client/knockout.js:49-50 | The cached diff of push, unshift, pop, shift and splice (negative or missing start, start that is no number, missing or oversized count) patches the array before the call into the array after it exactly if the call is not a splice whose start is no number and which changes the array; then the diff is empty; moves are mutually matched; other operations have none |
| `ArrayTracking.UnnumberedApplies` | portal/dev/cogis-client/knockout.js:49-50 | A splice whose start is no number leaves the array as it is exactly if it puts in place what it takes away |
| `ArrayTracking.ReplacesRelates` | portal/dev/cogis-client/knockout.js:49-50 | A script of deletions of a stretch and additions at its start patches and unpatches exactly a replacement of that stretch |
| `ArrayTracking.ApplyReplaces` | portal/dev/cogis-client/knockout.js:49-50 | Each known array method is the replacement of one stretch, computed from its arguments as the cache computes it |
| `ArrayTracking.EmptyScriptRelates` | portal/dev/cogis-client/knockout.js:48 | A script without entries relates only equal arrays, so no notification means no change |
| `ArrayTracking.Tracker.CacheDiffForKnownOperation` | portal/dev/cogis-client/knockout.js:49-50 | Caches a diff only while tracking, with nothing pending and for a known operation; it leads from the array to what the operation makes of it exactly if the operation does not mislead |
| `ArrayTracking.Tracker.Mutate` | portal/dev/cogis-client/knockout.js:47-50 | Any array method keeps the invariant of the tracker, changes the contents as the method does and counts one pending change; the cached diff misleads from then on exactly if it was the first pending change and its operation misleads |
| `ArrayTracking.Tracker.NotifyChanges` | portal/dev/cogis-client/knockout.js:48 | Every notification patches the contents last notified into the current ones; with several pending changes or no cached diff it is the general comparison; silence means equal contents, except exactly where the one pending change is by an operation that misleads: there silence hides it |
| `ArrayTracking.Tracker.GetChanges` | portal/dev/cogis-client/knockout.js:48 | The diff to tell is the cached one for a single pending change, else a new comparison; it holds changes only and leads from the contents last notified to the current ones, unless the one change misleads; its marks are the complete pairing, without a limit for a cached diff and with that of the comparison for a new one |
| `ArrayTracking.SilentSplice` | portal/dev/cogis-client/knockout.js:47-50 | splice(undefined) empties an array of one element, and its subscriber is not told |
| `ArrayTracking.Tracker.Subscribe` | portal/dev/cogis-client/knockout.js:48-49 | Starts tracking with the current contents, or notifies what is pending first; afterwards nothing is pending, except a count that is left from an earlier tracking |
| `ArrayTracking.Tracker.Unsubscribe` | portal/dev/cogis-client/knockout.js:49 | After the last subscriber tracking stops and a stale pending count stays, which the invariant survives |
| `EventStream.Reader.Feed` | portal/frontend/src/api/stream.ts:83-108 | Whatever the chunk, the events given so far plus these are exactly the events of all text so far, and the buffer is the unfinished line |
| `EventStream.ReadEvents` | portal/frontend/src/api/stream.ts:74-112 | The events depend on the concatenated text alone, never on where it is cut, and equal a line-by-line reading of the whole text |
| `EventStream.ReadOfConcat` | portal/frontend/src/api/stream.ts:83-108 | Reading a text in two parts, with the state between, is reading it whole |
| `EventStream.EventsGrow` | portal/frontend/src/api/stream.ts:83-108 | More text never takes back or changes an event that was given |
| `EventStream.UnclosedEventIsNotGiven` | portal/frontend/src/api/stream.ts:70-108 | An event that no blank line closes is not given, however much of it has come |
| `EventLines.LinesAre` | portal/frontend/src/api/stream.ts:89-93 | The lines of a text are what stands between line feeds, and the buffer what comes after the last |
| `EventLines.ReturnIsIgnored` | portal/frontend/src/api/stream.ts:92 | A carriage return before the line feed changes nothing |
| `EventLines.NameIs` | portal/frontend/src/api/stream.ts:101-102 | Lines without a blank one give no event, and leave the trimmed name of the last event: line |
| `EventLines.DataIs` | portal/frontend/src/api/stream.ts:103-104 | They leave the data of the last data: line without its leading white space |
| `EventLines.BlankLine` | portal/frontend/src/api/stream.ts:94-100 | A blank line gives one event exactly if the name is known and the data is JSON, and forgets both |
| `EventLines.TrimIs` | portal/frontend/src/api/stream.ts:102 | What trimming leaves is the stretch between the first and the last character that is no white space |
| `EventStream.ReaderRoundTrip` | portal/frontend/src/api/stream.ts:58-112 | Reading what the server prints gives exactly the known messages in order, and nothing is left pending |
| `EventStream.ReadPrinted` | portal/backend/src/portal/core/events.py:8-13 | The same for the printed text cut into any chunks |
| `EventLines.CutBlockIs` | portal/frontend/e2e/support/portal.ts:38 | The batch parser cuts a text at its first empty line |
| `EventLines.FirstFieldIs` | portal/frontend/e2e/support/portal.ts:40-41 | A field is the rest of the first line that has its prefix and goes on after it |
| `EventLines.BlockGives` | portal/frontend/e2e/support/portal.ts:39-44 | A block gives its event exactly if it has name and data, and no value at all if the data is not JSON |
| `EventStream.BatchSees` | portal/frontend/e2e/support/portal.ts:36-45 | What the batch parser sees of printed messages: the data up to the first character that ends a line for a regular expression |
| `EventStream.BatchRoundTrip` | portal/frontend/e2e/support/portal.ts:36-45 | The batch parser returns all names and data exactly if no data holds a line separator (U+2028, U+2029); else it throws |
| `EventStream.ParsersAgree` | portal/frontend/e2e/support/portal.ts:36-45 | On one printed text: the batch parser returns exactly if no data holds a line separator, and then the events of the reader are those it returns, less the unknown ones |
| `EventStream.ReceivedIsKnown` | portal/frontend/src/api/stream.ts:58-112 | What the client receives of some messages is those with known names |
| `EventStream.SeparatorBreaksBatch` | portal/frontend/e2e/support/portal.ts:36-45 | One message whose data holds a line separator: the reader gives it, the batch parser throws |
| `EventStream.SeparatorExample` | portal/frontend/e2e/support/portal.ts:36-45 | There is such a message: its data is an object whose only name is a line separator |
| `Zip.Pack` | portal/frontend/e2e/support/files.ts:126-159 | An archive exists exactly if every number of the parts fits its field. In its bytes, where the lengths of names and stored bytes put them, every part has a local header, name and bytes, and an entry that leads there: method 8 or 0 as it is deflated or not, checksum and size of its own data, size of what is stored |
| `Zip.ForeignEntryRead` | portal/frontend/e2e/support/files.ts:388-400 | An entry of another writer, with extra fields and comments of any length in entry and local header, is read by its own lengths |
| `Zip.MakeEntry` | portal/frontend/e2e/support/files.ts:141-146 | The entry built by copying eleven fields of the local header has all fields of a central directory entry |
| `Zip.Unzip` | portal/frontend/e2e/support/files.ts:380-402 | The files are those that the directory found by the last end signature describes, a later one replacing an earlier one of its name; no value where the original throws |
| `Zip.ItemHeld` | portal/frontend/e2e/support/files.ts:126-159 | Every local header stands at the offset its entry holds, and every entry where the entries before it end |
| `Zip.EntryRead` | portal/frontend/e2e/support/files.ts:388-400 | Reading the entry of an item gives its path, its data (stored or deflated alike) and the place of the next entry |
| `Zip.ZipRoundTrip` | portal/frontend/e2e/support/files.ts:126-402 | unzip(zip(parts)) is the map from each path to the data of its last part, unless the count, directory size and offset in the end record spell the end signature; exactly then reading throws |
| `Zip.EndSignatures` | portal/frontend/e2e/support/files.ts:152-157 | In an end record the signature stands at its start, and elsewhere exactly where its last three numbers spell it |
| `Zip.SmallIsNotShadowed` | portal/frontend/e2e/support/files.ts:152-157 | Fewer than 0x4B50 parts and a directory below 0x054B5000 in size and offset never spell it |
| `Zip.OnePartShadows` | portal/frontend/e2e/support/files.ts:126-159 | One stored part with a name of one byte and 0x06054B50 - 31 bytes of data can be written, and its end record spells the signature |
| `Zip.FilesAreLastParts` | portal/frontend/e2e/support/files.ts:380-402 | The map has exactly the paths of the parts, each with its last data |
| `Zip.ThereAndBack` | portal/frontend/e2e/support/files.ts:126-402 | The two methods called one after the other, with the same exact condition |
| `Pdf.EveryOffsetIsRight` | portal/frontend/e2e/support/files.ts:31-42 | In every document whose last object starts below 10 to the 10th, a reader that trusts startxref and 20-byte entries finds for every object the offset where "id 0 obj" and the object stand |
| `Pdf.EntriesLength` | portal/frontend/e2e/support/files.ts:38-40 | The entries have 20 bytes each exactly if every object starts at an offset of at most ten digits |
| `Pdf.TrailerRead` | portal/frontend/e2e/support/files.ts:37-42 | startxref holds the offset of the table |
| `Pdf.StreamRead` | portal/frontend/e2e/support/files.ts:22-28 | Every /Length is exact: a stream is read back in full, whatever its data |
| `Pdf.WriteObjects` | portal/frontend/e2e/support/files.ts:31-42 | The loop that appends to one text writes that document |
| `Pdf.WriteParts` | portal/frontend/e2e/support/files.ts:101-115 | The loop that collects buffers and counts the length beside writes the same document |
| `PdfText.EscapeRead` | portal/frontend/e2e/support/files.ts:22-24 | Every text reads back from its escaped literal string, with its ends of line as line feeds, as section 7.3.4.2 of ISO 32000-1 has it |
| `PdfText.FileIsDocument` | portal/frontend/e2e/support/files.ts:31-43 | Encoding a finished document byte for character gives the document of the encoded objects: no offset, length or entry changes, whatever characters it holds |
| `PdfText.TextPdf` | portal/frontend/e2e/support/files.ts:15-44 | The file that the builder returns gives back the text of every page, through table, length, escapes and latin1, exactly if the text has no character from U+0100 on and no carriage return, for all pages whose objects start below 10 to the 10th |
| `PdfText.TextPdfRead` | portal/frontend/e2e/support/files.ts:15-44 | The same for any objects that hold such pages, page by page |
| `PdfText.TextObjectsHavePages` | portal/frontend/e2e/support/files.ts:15-44 | The objects that the builder makes hold every page where its number says |
| `PdfPages.TextPdfPages` | portal/frontend/e2e/support/files.ts:15-44 | A reader that goes from the catalog to the list of the pages, to the page and to its content stream finds all pages of a text document in order and no others, each with its text exactly if the file can hold it |
| `PdfPages.PagesRead` | portal/frontend/e2e/support/files.ts:17-19 | The catalog leads to the list, whose references are the numbers of the pages |
| `PdfPages.KidRead` | portal/frontend/e2e/support/files.ts:18-19 | References with one space between two are read back one by one, and no more |
| `PdfText.CyrillicIsLost` | portal/frontend/e2e/support/files.ts:43 | A Cyrillic letter is read as its low byte |
| `PdfText.ParenthesisEnds` | portal/frontend/e2e/support/files.ts:43 | A text that begins with U+0129 is read as empty: the low byte is a parenthesis that no escape protects |
| `PdfText.PdfWithImage` | portal/frontend/e2e/support/files.ts:77-115 | From the file that the builder returns the picture reads back byte for byte, and the text exactly if it has no character from U+0100 on and no carriage return |
| `PdfText.ImagePdfRead` | portal/frontend/e2e/support/files.ts:77-115 | The picture of a document with a picture reads back, and its text exactly if it has no character from U+0100 on and no carriage return |
| `FillerSearch.Assemble` | portal/frontend/e2e/support/files.ts:325-345 | The document put together around a filler, with the place of the table computed from lengths, is the document with that filler as its sixth object, so its offsets are the real ones |
| `FillerSearch.SizeIs` | portal/frontend/e2e/support/files.ts:325-345 | The size grows with the filler by its length, its digits and the digits of the table offset |
| `FillerSearch.PaddedPdf` | portal/frontend/e2e/support/files.ts:347-351 | On exit the file has exactly the total size; the search is the iteration of the loop |
| `FillerSearch.NextFalls` | portal/frontend/e2e/support/files.ts:347-350 | A longer filler never leads to a longer next one |
| `FillerSearch.ClosesIn` | portal/frontend/e2e/support/files.ts:347-350 | The lengths tried close in on each other: not ended within twice the width, the search never ends |
| `FillerSearch.SearchIsDecided` | portal/frontend/e2e/support/files.ts:347-350 | For every total, whether the loop ends is known after a bounded number of rounds: it falls below zero within the first two, or ends within twice the distance of the first two lengths, or never |
| `FillerSearch.FoundIsExact` | portal/frontend/e2e/support/files.ts:347-350 | Only sizes that exist are found |
| `FillerSearch.FindsIff` | portal/frontend/e2e/support/files.ts:347-350 | A size that the document has with some filler is found exactly if the size does not grow by two both before and after that filler; else the loop goes on for ever |
| `FillerSearch.DigitsGrowSlowly` | portal/frontend/e2e/support/files.ts:325-345 | Two numbers that differ by n digits are more than 9(n - 1) apart, so the size grows almost as slowly as the filler |
| `FillerSearch.MissesASize` | portal/frontend/e2e/support/files.ts:347-350 | Such sizes exist: with the table at 999 for a filler of 100 the search steps between 99 and 101 for ever |
| `FillerSearch.TheSizeExists` | portal/frontend/e2e/support/files.ts:316-352 | Such a document exists: a text of 455 plain characters |
| `Slots.SlotsAreKept` | portal/code-sandbox/src/CodeSandbox/SandboxApp.cs:89-142 | Over every run, free slots plus holders is MaxParallel; where no kill has thrown there are never more live worker processes than that, else at most one more for each process that survived its kill outside a slot; such a process belongs to a request answered internal |
| `Slots.StepKeepsInv` | portal/code-sandbox/src/CodeSandbox/SandboxApp.cs:53-143 | Every step of every interleaving keeps the slot count and the truth about every request |
| `Slots.AlivesHold` | portal/code-sandbox/src/CodeSandbox/CompileWorker.cs:48-73 | A live process belongs to a request that holds a slot, or its kill has thrown: else it is dead before its slot is released |
| `Slots.NoBoundWithStrays` | portal/code-sandbox/src/CodeSandbox/CompileWorker.cs:66-73 | If kills throw and leave the process alive, any number of processes can live while all slots are free |
| `Slots.ReleaseFits` | portal/code-sandbox/src/CodeSandbox/SandboxApp.cs:139-142 | Releasing never overfills the semaphore |
| `Slots.BusyIffFull` | portal/code-sandbox/src/CodeSandbox/SandboxApp.cs:89-92 | A valid request is answered "busy" exactly if all slots are held |
| `Slots.OutcomeStays` | portal/code-sandbox/src/CodeSandbox/SandboxApp.cs:53-143 | An outcome, once given, never changes |
| `Slots.OutcomesAreTrue` | portal/code-sandbox/src/CodeSandbox/SandboxApp.cs:98-138 | Over every run, an outcome says what happened to process, clock and client, and follows from what the worker gave: compiled exactly after an answer that is not null, sdk_missing exactly after exit code 2, aborted and timeout exactly after a cancellation with and without the client gone, internal exactly after all else; a request that was turned away never had a process |
| `Slots.EveryRunEnds` | portal/code-sandbox/src/CodeSandbox/SandboxApp.cs:94-142 | Where no unfinished request can go on, every request has its outcome, all slots are free, and every process is dead whose kill did not throw |
| `Slots.RunsAreShort` | portal/code-sandbox/src/CodeSandbox/SandboxApp.cs:53-143 | A run has at most 14 steps for every request, so it comes to such an end |
| `Slots.CanMove` | portal/code-sandbox/src/CodeSandbox/CompileWorker.cs:48-73 | A request without an outcome can always go on, since its time limit can fire |
| `Handler.HandleAsync` | portal/code-sandbox/src/CodeSandbox/SandboxApp.cs:89-142 | The outcome from what the request meets: busy exactly if no slot is free; else compiled exactly if the worker starts, all awaits complete, the exit code is 0 and the answer is not null; sdk_missing exactly if it is 2; timeout and aborted exactly if the first await that does not complete is cancelled, no kill throws, and the client has not, or has, gone; internal in all other cases. The slot is given back, the process lives on exactly if killing it throws and fails, and the whole course is a walk of the state machine |
| `Handler.RunAsync` | portal/code-sandbox/src/CodeSandbox/CompileWorker.cs:47-73 | However starting, feeding, waiting, reading and killing end, the process is dead on return, except exactly where its kill throws and leaves it alive |
| `Handler.MachineHandles` | portal/code-sandbox/src/CodeSandbox/SandboxApp.cs:89-142 | Whatever the awaits give, the state machine allows that course, and its outcome says what happened |
| `Handler.CopyLimited` | portal/code-sandbox/src/CodeSandbox/SandboxApp.cs:152-169 | Succeeds exactly if all reads together are within the limit and then copies them all; else stops before the first read that passes it |
| `Validator.Validate` | portal/code-sandbox/src/CodeSandbox/RequestValidator.cs:49-159 | Accepts exactly these requests: an assembly name of the pattern that is no keyword and not reserved; not too many files, each with a path as below, no zero character and a size within its limit, no two with one path and none a folder on the way to another, without regard to case, and every running total as an int counts it within its limit; not too many packages, each of the patterns, without two dots in a row, in the offline set and with an id of its own. The result has their own texts. Unknown is answered exactly if all else is in order up to a package that is not in the set |
| `Validator.PathIff` | portal/code-sandbox/src/CodeSandbox/RequestValidator.cs:168-206 | A path passes exactly if it has at most 200 characters and eight parts, ends in .cs, and each part has 1 to 64 letters, digits and allowed signs before one final line feed, does not end in a dot, and has none of the 22 reserved names before its first dot |
| `Validator.AcceptableIff` | portal/code-sandbox/src/CodeSandbox/RequestValidator.cs:49-159 | What the loops check step by step is what the request says as a whole |
| `Validator.CheckFiles` | portal/code-sandbox/src/CodeSandbox/RequestValidator.cs:66-107 | Passes exactly if every file passes on its own, no path repeats without regard to case and no running total is over the limit |
| `Validator.FolderIsFile` | portal/code-sandbox/src/CodeSandbox/RequestValidator.cs:109-122 | Finds exactly whether a folder on the way to a path is one of the files |
| `Validator.ChecksMeanTree` | portal/code-sandbox/src/CodeSandbox/RequestValidator.cs:84-122 | The two path checks let through exactly the file sets that can be put into a directory tree without regard to case |
| `Validator.TreeIffNoClash` | portal/code-sandbox/src/CodeSandbox/RequestValidator.cs:109-122 | Files make a tree exactly if no path leads to or through another |
| `Validator.TreeReadsBack` | portal/code-sandbox/src/CodeSandbox/RequestValidator.cs:109-122 | In the tree every file reads back with its own content, and there are no others |
| `Validator.AnyOrder` | portal/code-sandbox/src/CodeSandbox/RequestValidator.cs:109-122 | The order in which the files are put in does not matter |
| `Validator.AcceptedIsATree` | portal/code-sandbox/src/CodeSandbox/RequestValidator.cs:66-122 | The files of an accepted request, in any order, are a tree of at most eight levels with every content in place |
| `Validator.TotalIsExact` | portal/code-sandbox/src/CodeSandbox/RequestValidator.cs:94-104 | SourceBytes is the exact sum and within its limit if the two limits together are an int |
| `Validator.TotalIsWrapped` | portal/code-sandbox/src/CodeSandbox/RequestValidator.cs:94-104 | Whatever the limits, SourceBytes is exact exactly if the sum of the sizes is an int |
| `SourceBytes.EndpointIsExact` | portal/code-sandbox/src/CodeSandbox/RequestValidator.cs:94-104 | For every request that the endpoint has read from one body below 2 GB, SourceBytes is the exact sum of the sizes in UTF-8 |
| `SourceBytes.DecodedIsShorter` | portal/code-sandbox/src/CodeSandbox/SandboxApp.cs:66-76 | A JSON string decodes to no more bytes than it takes in the body, with every kind of escape |
| `SourceBytes.TotalCanWrap` | portal/code-sandbox/src/CodeSandbox/RequestValidator.cs:94-104 | A caller in the same process can pass a request that the validator accepts with a total of -2: two files of 715827882 euro signs and one letter, under the widest limits |
| `Validator.StrictIffNoLineFeed` | portal/code-sandbox/src/CodeSandbox/RequestValidator.cs:168-206 | The parts of an accepted path are all allowed names exactly if the path has no line feed, since the end of the pattern also matches before a final one |
| `Validator.LineFeedPasses` | portal/code-sandbox/src/CodeSandbox/RequestValidator.cs:191-203 | A folder that is a reserved name and a line feed passes |
| `Validator.NameStrictIffNoLineFeed` | portal/code-sandbox/src/CodeSandbox/RequestValidator.cs:161-165 | An accepted assembly name is one that the rules mean to allow exactly if it has no line feed |
| `Validator.NameWithLineFeedPasses` | portal/code-sandbox/src/CodeSandbox/RequestValidator.cs:162-165 | Any word of the pattern and a line feed passes, be it a keyword or a reserved name |
| `Validator.PackageStrictIffNoLineFeed` | portal/code-sandbox/src/CodeSandbox/RequestValidator.cs:133-139 | The id and the version of an accepted package match their patterns whole exactly if neither has a line feed |
| `Validator.PackageWithLineFeed` | portal/code-sandbox/src/CodeSandbox/RequestValidator.cs:131-152 | The id A with a line feed passes the patterns; the package is then accepted or refused as unknown as the offline set has it or not |
| `Validator.CleanStoreIsStrict` | portal/code-sandbox/src/CodeSandbox/RequestValidator.cs:131-152 | Where no name in the offline set has a line feed, every accepted package has an id and a version that match their patterns whole |
| `PackageList.ParsePackageList` | scripts/code_packages.py:87-116 | The first line that is refused decides, by its number and reason; else the packages of all other lines in order, with distinct ids, valid names and digests of 64 bytes |
| `PackageList.ParsePrinted` | portal/backend/src/portal/cli.py:213-217 | Every list that the settings allow is parsed as it was printed |
| `PackageList.ParsedIsWellFormed` | scripts/code_packages.py:93-116 | Whatever the text, an accepted list has distinct ids without regard to case, valid names and digests of 64 bytes |
| `PackageList.AcceptedIsWellFormed` | scripts/code_packages.py:93-116 | So has any list whose accepted lines are well formed, one by one |
| `PackageList.RefusedIff` | scripts/code_packages.py:93-116 | A list is refused at a line for a reason exactly if the lines before are accepted and this one offends in that way, by itself or by the id of an earlier package |
| `PackageLines.LineGives` | scripts/code_packages.py:97-111 | Why a line is refused, told from its fields: their number, then the form of the id, of the version, a character beyond ASCII in the digest, and what this decodes to; else the package of the three |
| `PackageLines.SplitLinesAre` | scripts/code_packages.py:93 | Lines are the text between the breaks, a carriage return and a line feed being one |
| `PackageLines.FieldsAre` | scripts/code_packages.py:96 | Fields are what stands between tabulators |
| `PackageLines.StripIs` | scripts/code_packages.py:94-96 | What stripping leaves of a line is the stretch between the first and the last character that is no white space |
| `PackageList.UncaughtIff` | scripts/code_packages.py:93-116 | A text ends in an error that the parser does not catch exactly if, after accepted lines, one has an id and a version in order and a digest with a character beyond ASCII |
| `PackageList.CyrillicDigest` | scripts/code_packages.py:106-111 | There is such a text: one line whose digest is a Cyrillic letter |
| `PackageList.MatchIffCanonical` | scripts/code_packages.py:106-121 | A file matches an accepted digest exactly if it is the digest of the file, in printed form |
| `PackageSync.WriteAtomically` | scripts/code_packages.py:140-153 | After every operation the final files are the old ones, or these with the new file complete; without success they are the old ones |
| `PackageSync.SyncPackage` | scripts/code_packages.py:156-171 | Every state of the disk is the old one or that with the verified file; a file with the right digest is not downloaded again; it fails exactly on no answer or a wrong digest |
| `PackageSync.SyncPackages` | scripts/code_packages.py:174-185 | At every moment each final file is the old one or a verified one of the list and none is lost; the result is true exactly if every package is in place; only an error of the file system ends the run early |
| `PackageSync.SyncTwice` | scripts/code_packages.py:174-185 | After a successful run a second one downloads nothing and does not fail |
| `PackageSync.PathsDiffer` | scripts/code_packages.py:78-80 | Ids that differ without regard to case have different paths |
| `PackageSync.PathHasNoLineFeed` | scripts/code_packages.py:78-80 | No name in the path of an accepted package has a line feed |
| `OfflineSet.InPlaceIsStored` | portal/code-sandbox/src/CodeSandbox/RequestValidator.cs:146-149 | A package that the download put in place is the file that the validator looks for, however id and version are written |
| `OfflineSet.ListedCanBeNamed` | portal/code-sandbox/src/CodeSandbox/RequestValidator.cs:135-137 | A package of the list can be named in a request exactly if its id and version are not too long and have no two dots in a row |
| `OfflineSet.SyncedIsAccepted` | scripts/code_packages.py:174-185 | After a successful download the validator accepts every such package |
| `PackageSync.NeverInPlace` | scripts/code_packages.py:106-111 | A package whose accepted digest is not in printed form can never be in place |
| `Base64.DecodeEncode` | scripts/code_packages.py:107-121 | Strict base64 decoding undoes encoding, for all bytes |
| `Base64.PrintedIffNothingIsLeft` | scripts/code_packages.py:106-121 | An accepted text is the one that encoding its bytes gives exactly if the bits of its last digit that make no whole byte are zero |
| `Base64.CanBeInPlaceIff` | scripts/code_packages.py:106-121 | A package of an accepted line whose digest some file has can be in place exactly if no bits are left over |
| `Base64.SecondIsNeverInPlace` | scripts/code_packages.py:106-121 | Two accepted digests of the same 64 bytes, 85 A and A== or B==: no file is ever in place for the second |
| `Base64.NeverAllInPlace` | scripts/code_packages.py:174-185 | With such a package in the list no run ever ends with all packages in place |
| `Sdk.Index` | portal/code-sandbox/src/CodeSandbox/SdkIndexer.cs:31-93 | There is an index exactly if the list of plugins and both required files are there and these are assemblies. Its version is that of the last file with the name of the server library: its file version, else its informational version, else its assembly version. It has one entry for each library in order, with name, hash, both versions, and the kind by two prefixes of the name and the assemblies of .NET; and each plugin name once, at its first line |
| `Sdk.PluginsAreDistinct` | portal/code-sandbox/src/CodeSandbox/SdkIndexer.cs:107-112 | Every library line of plugins.txt is kept once, whatever its case |
| `Sdk.PluginsAreFirsts` | portal/code-sandbox/src/CodeSandbox/SdkIndexer.cs:107-112 | The names are the first lines of their names, in order |
| `Sdk.Load` | portal/code-sandbox/src/CodeSandbox/SdkState.cs:35-92 | Loads exactly if every file of the manifest is there with the hash of the manifest; else nothing is loaded and the reason is what is wrong with the first file that is not; loaded are the version of the manifest, as references the bytes that were hashed of all files but those of .NET, in order, and the names of these, of all files, and of the plugins |
| `Sdk.EntriesAreLibraries` | portal/code-sandbox/src/CodeSandbox/SdkIndexer.cs:55-82 | The manifest has one entry for each library of the folder, in order, with its name, hash, both versions and kind, and no others |
| `Sdk.NoEntriesIff` | portal/code-sandbox/src/CodeSandbox/SdkIndexer.cs:55-82 | There are no entries exactly if a required library is no assembly |
| `Sdk.IndexListsLibraries` | portal/code-sandbox/src/CodeSandbox/SdkIndexer.cs:55-82 | All entries are unchanged on a disk exactly if it has every library of the folder with its bytes |
| `Sdk.IndexThenLoad` | portal/code-sandbox/src/CodeSandbox/SdkState.cs:59-91 | An SDK loads after indexing exactly if every indexed library is still there with the same bytes, and then with the release of its server library as version |
| `Resolution.ResolvePackages` | portal/code-sandbox/src/CodeSandbox/Compiler.cs:130-165 | Of all libraries in order, those that are the first of their names without regard to case: references are those of which the server has no copy, the bundle those that are not on the server in any way, and the list of the server the names of all others, each in that order |
| `Resolution.TakeKeepsSorted` | portal/code-sandbox/src/CodeSandbox/Compiler.cs:138-161 | Each library keeps every distinct name in exactly one of bundle and server list |
| `Resolution.FirstsAtIff` | portal/code-sandbox/src/CodeSandbox/Compiler.cs:138-146 | The places of the firsts are those before which no library has the name |
| `ToolTypes.FindingCount` | portal/code-sandbox/src/CodeSandbox/GpToolRules.cs:93-115 | The number of findings is elements plus tools less twice the tools listed |
| `ToolTypes.CleanIffPermutation` | portal/code-sandbox/src/CodeSandbox/GpToolRules.cs:93-115 | There are none exactly if the list is a permutation of the tools |
| `ToolTypes.CheckToolTypes` | portal/code-sandbox/src/CodeSandbox/GpToolRules.cs:93-115 | There is a finding for exactly each element that is no tool, each tool that was listed before, and each tool that is not listed; those of elements come first, in their order |
| `ToolTypes.ArrayElements` | portal/code-sandbox/src/CodeSandbox/GpToolRules.cs:146-181 | The list is readable exactly if an array is returned whose items are all typeof, and then it is their types |
| `ToolTypes.ReflectionName` | portal/code-sandbox/src/CodeSandbox/GpToolRules.cs:355-372 | Built from the inside out, the name is the one that is built from the outside in |
| `SchemaInstance.InstanceIsValid` | portal/dev/src/llm_stub/replies.py:118-137 | For every finite schema, the value exists and is valid exactly if the schema is usable: enum fits the rest, required names are properties, the type is known, and so below where it is used |
| `Totp.DecodeEncode` | portal/frontend/e2e/support/totp.ts:7-14 | Decoding undoes the encoding of all bytes, in either case and with any padding |
| `Totp.Base32Decode` | portal/frontend/e2e/support/totp.ts:7-14 | Five bits for every character, eight for every byte: floor(5n/8) bytes, the rest dropped |
| `Totp.IndexIsPlace` | portal/frontend/e2e/support/totp.ts:5-10 | The five bits of a character are its place in the alphabet |
| `Totp.TotpAt` | portal/frontend/e2e/support/totp.ts:22-29 | The code is six decimal digits, written out, of the low 31 bits of the four bytes that start where the last four bits of the digest say, which never leaves the 20 bytes; no code for a step that is no unsigned 64-bit number |
| `Totp.CounterValue` | portal/frontend/e2e/support/totp.ts:23-24 | The counter bytes are the step |
| `ReadOnlyTx.PassesIffReadOnly` | portal/frontend/e2e/support/db.ts:97-115 | The check passes exactly on traces of statements that are, one after the other, transactions: a BEGIN READ ONLY, single reads, a ROLLBACK, told from the text and its upper case |
| `ReadOnlyTx.PassesIffTransactions` | portal/frontend/e2e/support/db.ts:97-115 | The same for any way to classify statements |
| `ReadOnlyTx.KindsAreDisjoint` | portal/frontend/e2e/support/db.ts:100-113 | What the tests in their order make of a text, told by what stands where in its upper case |
| `ReadOnlyTx.ContainsIff` | portal/frontend/e2e/support/db.ts:103 | A text contains another exactly if that stands at some place in it |
| `ReadOnlyTx.QueryIff` | portal/frontend/e2e/support/db.ts:110 | The pattern finds exactly the texts that start with one of two words which end there |
| `ReadOnlyTx.SingleIffBoundariesAre` | portal/frontend/e2e/support/db.ts:97-115 | All statements of a trace that passes are single exactly if those are that start with BEGIN or ROLLBACK |
| `ReadOnlyTx.ExpectReadOnlyTransactions` | portal/frontend/e2e/support/db.ts:97-115 | The loop accepts what the automaton accepts |
| `ReadOnlyTx.SecondIff` | portal/frontend/e2e/support/db.ts:111 | The pattern finds exactly the texts with something after a semicolon |
| `ReadOnlyTx.BeginMaySayMore` | portal/frontend/e2e/support/db.ts:101-104 | BEGIN READ ONLY with a second statement and then ROLLBACK passes |
| `ReadOnlyTx.RollbackMaySayMore` | portal/frontend/e2e/support/db.ts:105-107 | And so does a ROLLBACK with a second statement |
| `ReadOnlyTx.GroupRecords` | portal/frontend/e2e/support/db.ts:78-85 | The records are the groups of lines, joined |
| `ReadOnlyTx.GroupsKeepLines` | portal/frontend/e2e/support/db.ts:78-85 | Grouping loses and reorders no line |
| `ReadOnlyTx.GroupsStart` | portal/frontend/e2e/support/db.ts:78-85 | Every record but perhaps the first starts with a first line, and no record has another |
| `ClientStream.OpenAreRunning` | portal/frontend/src/api/client.ts:218-271 | Over any interleaving of streams and closing, openStreams holds exactly the running streams |
| `ClientStream.CloseAllAborts` | portal/frontend/src/api/client.ts:221-225 | Closing aborts every running stream and touches no other |
| `ClientStream.EndsNormallyIff` | portal/frontend/src/api/client.ts:251-266 | Over all interleavings, a closed stream had one last action on it, and that action, the last event that arrived and whether it was aborted before give its outcome: normal exactly if the reader came to its end after done or error; the abort error exactly if the reader threw after an abort; broken exactly if there was no body, the reader threw without an abort, or it ended too soon |
| `ClientStream.StreamsAreTold` | portal/frontend/src/api/client.ts:218-266 | A stream has delivered exactly the events that arrived on it, and while it runs it is aborted exactly if its signal fired or all open streams were closed since it was opened |
| `ClientStream.FailureAfterDone` | portal/frontend/src/api/client.ts:251-262 | So the last event alone does not decide: a failure after done is a broken stream |
| `ClientStream.AbortedThenEnds` | portal/frontend/src/api/client.ts:263-266 | An aborted stream that closes without an error is broken, not aborted |
| `ClientStream.ReadStream` | portal/frontend/src/api/client.ts:251-266 | One stream as it is written: what it delivers and how it ends |
| `ClientStream.MethodIsMachine` | portal/frontend/src/api/client.ts:251-266 | The method and the state machine agree |

## Left out

- ArrayDiff.CompareArrays: `===` is equality of values, so NaN, which differs from itself, is not modelled.
- ArrayDiff.WalkBack: the script is built from its front instead of pushed and reversed, and the entry objects that pairing updates are made after the walk, in the order in which the walk meets them.
- ArrayTracking.Tracker.Mutate: fractional arguments of `splice`, starts and counts that are strings, changes of the raw array that notify nobody, and subscribers that change the array while they are notified are not modelled.
- EventStream.ReadEvents: chunks are decoded text; the decoder that joins bytes of one character across chunks is not modelled, nor is releasing the reader.
- Zip.Pack: names and data are encoded before the loop instead of in it, and a number that does not fit its field gives no archive where the original throws on writing it.
- Zip.Unzip: the order in which the map lists its files is not modelled.
- FillerSearch.PaddedPdf: the loop has no bound in the original and may not end; the model runs it for a given number of rounds, and `FillerSearch.SearchIsDecided` says how many decide.
- PdfText.FileIsDocument: a character beyond the basic plane counts as one, where the original has two UTF-16 units and writes two bytes.
- PdfText.PdfWithImage: the page tree of the document with a picture is written as in the original but not followed; the reader goes to the streams by their numbers.
- Handler.HandleAsync: reading and checking the body come before and are not repeated here; waiting for the exit of a process ends by the exit or by cancellation.
- Slots.AlivesHold: children of the worker process are not modelled; a kill and the wait after it are one step.
- Slots.StepKeepsInv: log lines and measured durations are left out; the body of the answer is its outcome.
- Validator.Validate: case is folded for ASCII letters, the only ones that pass the patterns; a file of more than 2 GB in UTF-8, for which counting bytes throws, is not modelled; messages are reduced to the kind of rejection.
- PackageSync.WriteAtomically: directories, modes and owners are not modelled; a random name that is taken counts as an error of the file system, where the original tries others first.
- Sdk.Load: names are compared by a given folding of case; the reading and writing of JSON is taken as faithful.
- Resolution.ResolvePackages: choosing the target framework inside a package is left out; a package is the list of its libraries.
- ToolTypes.CheckToolTypes: symbols are values with equality; finding the factory and its method in the compilation is left out.
- SchemaInstance.InstanceIsValid: numbers are integers, since no other is made; keywords that the function does not read are not part of validity, except `required`.
- Totp.Base32Decode: upper-casing is that of ASCII letters.
- Diagnostics of the compiler (their order and truncation), the other rules on tools, `rerank`, `image_description` and `embedding`: they would only add easy members or are floating point.
- React screens, HTTP, Docker, database migrations, configuration files, and the rest of the vendored libraries.
