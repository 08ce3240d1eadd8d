# supynote in Dafny: device sync and date-based merging

This project models the two cores of supynote, a command-line client for Supernote
e-ink tablets, and proves properties of those models.

- **`Supernote`** (`supynote/supernote.py`) talks to the tablet's built-in web server. It:
  - reads a directory listing out of the JSON that the page embeds in a script block;
  - decides per file whether a local copy is already current (the skip policy);
  - downloads single files;
  - walks the remote tree recursively, with a thread pool (`download_directory`) or with
    asyncio tasks (`download_directory_async`);
  - keeps one lazily created HTTP session.
- **`DateBasedMerger`** (`supynote/merger.py`) takes the downloaded `.note` and `.pdf` files and:
  - dates each file by the `YYYYMMDD_HHMMSS` prefix of its name;
  - keeps the files inside a time range (`all`, `week`, `2weeks`, `month`);
  - groups them by calendar day;
  - writes one markdown file (or one merged PDF) per day, in day order.

The project has no I/O. The device is a map from URL to what fetching that URL gives. A
directory listing is a finite tree. The local disk is a map from path to byte length.
Everything the merger cannot see (the clock, date metadata inside notebooks, text
extraction, PDF appending) is a parameter.

| file | module | models |
|---|---|---|
| `text.dfy` | `Wrappers`, `Text` | `Option`, `dict.get`, substring search, `split`, `strip`, `join`, decimal digits |
| `paths.dfy` | `Paths` | `lstrip('/')`, `Path /`, the local path and the URL of a remote path |
| `listing.dfy` | `ListingParser` | extracting the listing payload from a page |
| `remote.dfy` | `Remote` | listing entries, the device, how a listing splits into files and folders |
| `skip.dfy` | `SkipPolicy` | `_should_skip_file` |
| `transfer.dfy` | `Transfers` | one file transfer, as a function of the device and the disk |
| `walk.dfy` | `Walks` | the two recursive walks, as functions |
| `walk_counts.dfy` | `WalkCounts` | what the walks count and how they relate |
| `walk_effects.dfy` | `WalkEffects` | what the walks do to the local files: the frame, and a second run |
| `client.dfy` | `Client` | the `Supernote` object: its fields, session and download methods |
| `scenarios.dfy` | `Scenarios` | a worked example tree with three runs |
| `calendar.dfy` | `Calendar` | naive `datetime`: validity, order, `- timedelta(days=n)`, `strftime` |
| `order.dfy` | `StrOrder` | Python's `<` on `str`, and `sorted` |
| `dates.dfy` | `Dates` | `_get_time_cutoff`, `Path.name`/`Path.stem`, the filename date |
| `grouping.dfy` | `Grouping` | `_group_files_by_date` |
| `merger.dfy` | `Merger` | `MergeConfig`, the exclusion filters, and both merges |

Three properties of the code are worth stating up front:

- **Skipped files count as successes.** `download_file` returns True for a skipped file
  (supynote/supernote.py:104-105). So a second run over a tree with `a.note` unchanged and
  `b.note` truncated skips `a.note`, downloads `b.note` again and returns `(3, 3)`.
  `Scenarios.SecondRun` proves this. `WalkEffects.AsyncWalkTwice` and
  `WalkEffects.SyncWalkTwice` prove, for any tree, that a second unforced run right after
  a first one skips every file, reports as many successes as files and changes nothing.
  Their hypothesis is that every entry the walk uses agrees with the device. The entries a
  walk uses are, at each level, the values of `file_info_map`. An entry agrees when the
  device serves its URL and its `size`, if it has one, is the length served.
- **The concurrency bound is per level.** `download_directory_async` creates a fresh
  semaphore for each directory level (supynote/supernote.py:241) and awaits that level's
  tasks before it recurses, so at most `max_concurrent` downloads of one level run at once.
  The model runs each level's tasks one after another.
- **The date prefix ignores the file extension.** `_extract_date_from_file` reads only
  the `YYYYMMDD_HHMMSS` prefix of the stem, and `re.match` anchors only at the start. So
  `20240105_093000_meeting.note` and `20240105_093000.pdf` are dated alike.

The contract of `Merger.MergeMarkdownByDate` shows that a run that stops with "nothing to
do" has skipped at least one file. The "No files to process" message without a count
(merger.py:236-237) therefore never appears. The same holds for "No PDFs to merge" at merger.py:140-141, which behaves
the same way.

## Model

| member | source | states |
|---|---|---|
| Wrappers.Get | supynote/supernote.py:160 | defines `dict.get`: the value of a key of the map, and nothing for any other key |
| ListingParser.FindScript | supynote/supernote.py:55-58 | the script found is the first whose text contains `const json`; none is found exactly when no script contains it |
| ListingParser.PayloadText | supynote/supernote.py:59 | the extraction fails exactly when the text has no `const json = ` or no quote follows it; the extracted text holds no quote |
| ListingParser.PayloadRoundTrip | supynote/supernote.py:282 | a page that carries the marker, whitespace, then a quoted payload (with no earlier marker) gives back exactly that payload |
| ListingParser.ListFiles | supynote/supernote.py:46-68 | data comes back exactly when the device answers, a script with the marker exists, the payload is there and the JSON parser accepts it; it is the parse of that payload |
| Paths.LStripSlashIdempotent | supynote/supernote.py:101 | stripping the leading slashes twice is stripping them once |
| Paths.LStripSlashIgnoresLeadingSlashes | supynote/supernote.py:101 | any number of extra leading slashes strips to the same path |
| Paths.LocalPathInjective | supynote/supernote.py:101 | two remote paths map to the same local path exactly when they agree after stripping leading slashes |
| Paths.FileUrlInjective | supynote/supernote.py:110 | two remote paths map to the same URL exactly when they agree after stripping leading slashes |
| Paths.SameLocalPathSameUrl | supynote/supernote.py:296-305 | paths with the same local location are fetched from the same URL |
| Paths.LeadingSlashesIrrelevant | supynote/supernote.py:101-110 | neither the local path nor the URL depends on the number of leading slashes |
| Remote.FetchAt | supynote/supernote.py:114-115 | defines a fetch: what the device serves at the URL, and the handled error for a URL it does not serve |
| Remote.PartitionSizes | supynote/supernote.py:138-144 | every listing item goes to exactly one of the file list and the folder list |
| Remote.FileUrisAreTheFiles | supynote/supernote.py:138-143 | the file list holds exactly the uris of the file items |
| Remote.InfoMapKeys | supynote/supernote.py:144 | `file_info_map` has exactly the file uris as keys |
| Remote.InfoMapKeepsLast | supynote/supernote.py:144 | each uri maps to the last file item with that uri |
| Remote.InfoMapUnderOwnUri | supynote/supernote.py:144 | every entry of `file_info_map` is filed under its own uri |
| Remote.CountSplits | supynote/supernote.py:147-174 | a tree's file count is the files of this level plus the counts of the subfolders |
| Remote.UrisSplit | supynote/supernote.py:138-174 | a tree's uris are this level's file uris plus the subfolders' uris |
| SkipPolicy.ShouldSkip | supynote/supernote.py:70-96 | the six branches: forced, absent, no size check, equal size, unequal size, no size in the entry |
| SkipPolicy.ShouldSkipIff | supynote/supernote.py:70-96 | a file is skipped exactly when the call is not forced and the local file exists and is current |
| Transfers.TransferOutcome | supynote/supernote.py:98-125 | a skip succeeds and changes nothing; False exactly on a handled fetch failure, an exception exactly on another one, both leaving the disk unchanged; any change writes the served bytes at the target path only |
| Transfers.TransferWithoutInfoFetches | supynote/supernote.py:104 | without a listing entry the skip test is never consulted and served bytes are always written |
| Transfers.TransferAgainSkips | supynote/supernote.py:98-125 | once a file whose entry agrees with the device has been transferred, a second unforced transfer skips it and changes nothing |
| Transfers.TransferMakesFresh | supynote/supernote.py:98-118 | an unforced transfer of an entry that agrees with the device leaves its local file present and current, whether it skipped or fetched |
| Transfers.TransferKeepsFresh | supynote/supernote.py:98-118 | no transfer spoils the current file of an entry that agrees with the device: a write to that path comes from the same URL |
| Transfers.TransferOfFreshSkips | supynote/supernote.py:104-105 | an unforced transfer of an entry whose file is current skips it, succeeds and changes nothing |
| Transfers.TransferOfAgreeingSucceeds | supynote/supernote.py:98-121 | a transfer of an entry that agrees with the device succeeds |
| WalkEffects.RunFilesFrame | supynote/supernote.py:150-166 | a level's transfers leave every local path other than their files' as it was |
| WalkEffects.AsyncWalkFrame | supynote/supernote.py:178-263 | the asynchronous walk changes no local path but those of the tree's files: any other path is present afterwards exactly when it was before, with the same length |
| WalkEffects.SyncWalkFrame | supynote/supernote.py:127-176 | the same for the synchronous walk, however it ends |
| WalkEffects.AsyncWalkMakesFresh | supynote/supernote.py:233-263 | an unforced asynchronous walk whose entries agree with the device leaves the file of every entry it used present and current |
| WalkEffects.AsyncWalkKeepsFresh | supynote/supernote.py:233-263 | no asynchronous walk spoils the current file of an entry that agrees with the device |
| WalkEffects.AsyncWalkOnFresh | supynote/supernote.py:233-263 | an unforced asynchronous walk on a disk where every used entry's file is current skips everything: as many successes as files, and no change |
| WalkEffects.SyncWalkOnFresh | supynote/supernote.py:138-176 | the same for the synchronous walk with at least one worker: it finishes, skips everything and changes nothing |
| WalkEffects.AsyncWalkAgreeing | supynote/supernote.py:233-263 | when every used entry agrees with the device, the asynchronous walk reports as many successes as files |
| WalkEffects.SyncWalkAgreeing | supynote/supernote.py:138-176 | under the same condition and with at least one worker, the synchronous walk finishes with as many successes as files |
| WalkEffects.AsyncWalkTwice | supynote/supernote.py:178-263 | with entries that agree with the device, a first unforced asynchronous walk succeeds on every file and a second one right after it skips every file and changes nothing |
| WalkEffects.SyncWalkTwice | supynote/supernote.py:127-176 | the same for two synchronous walks with at least one worker |
| WalkCounts.RunFilesBounds | supynote/supernote.py:164-166 | a level's transfers add at most one success per file |
| WalkCounts.RunFilesNoRaise | supynote/supernote.py:164-166 | on a device that never raises outside the handled class, no transfer raises |
| WalkCounts.AsyncTotalIsFileCount | supynote/supernote.py:233-263 | the asynchronous total is the number of file entries in the whole tree |
| WalkCounts.AsyncSuccessWithinTotal | supynote/supernote.py:250-263 | the asynchronous walk reports no more successes than files |
| WalkCounts.SyncTotalIsFileCount | supynote/supernote.py:146-176 | when the synchronous walk finishes, its total is the number of file entries in the whole tree |
| WalkCounts.SyncSuccessWithinTotal | supynote/supernote.py:146-176 | when the synchronous walk finishes, it reports no more successes than files |
| WalkCounts.SyncDoneIsAsync | supynote/supernote.py:127-176 | whenever the synchronous walk finishes, it has the same counts and leaves the same disk as the asynchronous walk |
| WalkCounts.SyncFinishes | supynote/supernote.py:150-166 | with at least one worker and a device without unhandled faults, the synchronous walk finishes |
| WalkCounts.SyncIsAsyncWithoutFaults | supynote/supernote.py:127-263 | under those conditions the two walks agree outright |
| Scenarios.FirstRun | supynote/supernote.py:127-176 | the example tree on an empty disk: both walks report (3, 3) and write all three files |
| Scenarios.SecondRun | supynote/supernote.py:98-105 | with `b.note` truncated, both walks skip `a.note` and `c.note`, fetch `b.note` again and report (3, 3) |
| Scenarios.OneFailure | supynote/supernote.py:123-125 | when one of three files fails, its siblings are still written and both walks report (2, 3) |
| Scenarios.Unreachable | supynote/supernote.py:129-132 | a root without data gives (0, 0) and changes nothing |
| Client.LocalFs.Write | supynote/supernote.py:117-118 | writing the content sets the file's length and touches no other file |
| Client.Session.Close | supynote/supernote.py:334 | the session is closed afterwards |
| Client.Semaphore.Acquire | supynote/supernote.py:326 | entering `async with semaphore` takes one permit |
| Client.Semaphore.Release | supynote/supernote.py:326-327 | leaving it gives the permit back |
| Client.Supernote.constructor | supynote/supernote.py:22-32 | the remote root is `http://ip:port`; the local root is the argument unless it is absent or empty, else `supernote_files` under the working directory; no session exists yet |
| Client.Supernote.DownloadFile | supynote/supernote.py:98-125 | the answer and the new disk are those of `Transfers.Transfer` |
| Client.Supernote.DownloadFileAsync | supynote/supernote.py:293-329 | with an open session, it behaves like `download_file`; without one, a skipped file still succeeds and any other file raises with the disk unchanged; the semaphore's permits are given back |
| Client.Supernote.Partition | supynote/supernote.py:138-144 | the loop yields the file uris in order, `file_info_map`, and the subfolders in order |
| Client.Supernote.TransferFiles | supynote/supernote.py:150-166 | the thread-pool level gives the successes, whether a task raised, and the disk of the files' transfers in listing order |
| Client.Supernote.TransferFilesAsync | supynote/supernote.py:237-253 | the gathered level counts only the results that are exactly True, a raised task counting as a failure |
| Client.Supernote.DownloadDirectory | supynote/supernote.py:127-176 | the outcome and the new disk are those of `Walks.SyncWalk` |
| Client.Supernote.DownloadSubdirs | supynote/supernote.py:171-176 | the subfolder loop adds each subfolder's counts in listing order, and an exception in one ends the walk; the outcome and the disk are those of `Walks.SyncSubdirs` |
| Client.Supernote.DownloadDirectoryAsync | supynote/supernote.py:178-267 | without the async libraries, (0, 0) and nothing changes; otherwise the counts and the disk are those of `Walks.AsyncWalk`, an open session is reused, and a missing or closed one is replaced by a new one with a pool limit of twice the concurrency |
| Client.Supernote.ListingAsync | supynote/supernote.py:213-263 | the body of one asynchronous level gives the counts and the disk of `Walks.AsyncWalk` and keeps the session |
| Client.Supernote.SubdirsAsync | supynote/supernote.py:258-263 | the asynchronous subfolder loop adds each subfolder's counts in listing order and keeps the session open; the counts and the disk are those of `Walks.AsyncSubdirs` |
| Client.Supernote.CloseAsync | supynote/supernote.py:331-335 | an open session is closed and dropped; otherwise nothing changes; afterwards no session is open |
| Merger.Configure | supynote/merger.py:34-35 | a given configuration is used as it is; without one, the defaults `pdf_notes`, `markdown_notes`, `all` apply |
| Dates.LookbackDays | supynote/merger.py:78-83 | exactly `week`, `2weeks` and `month` reach back a fixed number of days |
| Dates.TimeCutoffSpec | supynote/merger.py:72-84 | `all` and any unknown range give no cutoff; `week`, `2weeks`, `month` give the moment 7, 14, 30 days before now at the same time of day, or the overflow before year 1; a cutoff is strictly before now |
| Calendar.SubDaysOrdinal | supynote/merger.py:79 | `now - timedelta(days=n)` lies n ordinals earlier at the same time of day, and overflows exactly when that is before the first ordinal |
| Calendar.SubDaysIsEarlier | supynote/merger.py:79-83 | the cutoff of a positive number of days is strictly before now |
| Calendar.BeforeIsStrictTotal | supynote/merger.py:97 | `<` on datetimes is a strict total order |
| Calendar.DayKeyRoundTrip | supynote/merger.py:100 | `%Y-%m-%d` reads back as the year, month and day |
| Calendar.DayKeySameDay | supynote/merger.py:100-104 | two dates share a key exactly when they fall on the same calendar day |
| Calendar.ClockRoundTrip | supynote/merger.py:261 | `%H:%M:%S` reads back as the hour, minute and second |
| Dates.BaseName | supynote/merger.py:262 | `Path.name` holds no slash |
| Dates.BaseNameAfterSlash | supynote/merger.py:262 | the name of `dir/name` is `name` |
| Dates.Stem | supynote/merger.py:42 | the stem is a prefix of the name |
| Dates.StemDropsSuffix | supynote/merger.py:42 | the stem of `base.ext` is `base` |
| Dates.StampRoundTrip | supynote/merger.py:45-48 | the stamp text of any datetime without microseconds, followed by anything, parses back to that datetime |
| Dates.OnlyPrefixCounts | supynote/merger.py:46 | only the first 15 characters of the stem decide the date |
| Dates.FilenameDateExact | supynote/merger.py:42-50 | the name gives date t exactly when t has no microseconds and the stem starts with t's stamp; an invalid calendar value falls through |
| Dates.StampedFileDate | supynote/merger.py:37-50 | a file named `<stamp><rest>.<ext>` in any folder is dated by its stamp, whatever the fallback would say |
| Grouping.KeptSpec | supynote/merger.py:97-99 | a file is kept exactly when it is not strictly before the cutoff |
| Grouping.KeptAll | supynote/merger.py:97-99 | without a cutoff every file is kept, in input order |
| Grouping.OnDaySpec | supynote/merger.py:100-104 | a day's list holds exactly the kept files whose key is that day |
| Grouping.DayOrderSpec | supynote/merger.py:102-104 | the dictionary's keys are distinct and are exactly the days of some kept file |
| Grouping.GroupedAt | supynote/merger.py:100-104 | the dictionary maps each key to its day's files in input order |
| Grouping.SortByTimeSorts | supynote/merger.py:107-108 | the sort yields a permutation ordered by time |
| Grouping.SortByTimeStable | supynote/merger.py:107-108 | files with equal times keep their input order |
| Grouping.DaySizesCover | supynote/merger.py:86-111 | the days' lists together hold each kept file once |
| Grouping.TotalOfSorted | supynote/merger.py:244 | the sorted groups hold as many files as the unsorted ones |
| Grouping.CollectByDay | supynote/merger.py:92-104 | the first loop counts the skipped files and builds the key order and the lists of the kept files |
| Grouping.SortGroups | supynote/merger.py:107-108 | every list is sorted once and no key is added or lost |
| Grouping.SortedGroupsAre | supynote/merger.py:107-111 | a dictionary with exactly the days as keys and each day's sorted files as its value is the grouping of the kept files |
| Grouping.GroupFilesByDate | supynote/merger.py:86-111 | skipped plus kept is the input size; the dictionary maps each day to its sorted files; skipped plus the sum of group sizes is the input size |
| Grouping.ExactlyOneGroup | supynote/merger.py:86-111 | a file is in a day's group exactly when it is kept and on that day, and every kept file's day is a key |
| Grouping.NoEmptyGroup | supynote/merger.py:102-104 | no group is empty |
| StrOrder.StrLessIsStrictTotal | supynote/merger.py:250 | `<` on strings is a strict total order |
| StrOrder.StrLessConcat | supynote/merger.py:250 | texts that start with parts of equal length compare by those parts first |
| StrOrder.PaddedOrder | supynote/merger.py:100 | zero-padded numbers of one width compare as text the way they compare as numbers |
| StrOrder.SortStringsSpec | supynote/merger.py:250 | `sorted` gives an ascending permutation of its input |
| StrOrder.SortStringsMembers | supynote/merger.py:250 | `sorted` keeps exactly the elements and the length |
| StrOrder.SortStringsStrict | supynote/merger.py:250 | `sorted` of distinct strings is strictly ascending |
| Merger.KeepClearSpec | supynote/merger.py:123-128 | a path survives a filter exactly when it contains none of the names |
| Merger.CandidatesSpec | supynote/merger.py:123-128 | a PDF is a candidate exactly when its path mentions neither output directory nor `merged_by_date`; a notebook exactly when it mentions neither output directory |
| Merger.PdfFilterRefinesNoteFilter | supynote/merger.py:218-222 | the PDF filter is the notebook filter followed by the `merged_by_date` filter |
| Merger.EmptyNameExcludesAll | supynote/merger.py:218-222 | an empty output-directory name excludes every file |
| Merger.OutputNameAboveExcludesAll | supynote/merger.py:123-128 | when the searched directory's own path mentions the PDF output name, nothing under it is a candidate |
| Merger.DayLines | supynote/merger.py:258-270 | a day's lines are one header and two lines per file |
| Merger.DayLinesAt | supynote/merger.py:258-270 | line 0 is the header; for file i, line 1+2i is its heading with name and clock, and line 2+2i its text or the placeholder |
| Merger.MarkdownFor | supynote/merger.py:251-272 | the day's file is `<key>.md` in the output directory, holding the day's lines joined by newlines |
| Merger.DayKeyOrder | supynote/merger.py:250 | day keys compare as text exactly as their calendar days do |
| Merger.WriteOrder | supynote/merger.py:250 | the days are visited once each |
| Merger.MergedDaysInOrder | supynote/merger.py:250 | the days are visited in strictly ascending order, and every file of an earlier day falls on an earlier calendar day |
| Merger.CutoffMoment | supynote/merger.py:97 | defines the moment files are compared with: the cutoff's moment, and none without a cutoff |
| Merger.NoteFiles | supynote/merger.py:250-276 | one markdown file per day |
| Merger.NoteFilesAt | supynote/merger.py:250-276 | the i-th markdown file is `<key>.md` of the i-th day with that day's lines |
| Merger.Appended | supynote/merger.py:164-170 | at most the day's files are appended |
| Merger.AppendedSpec | supynote/merger.py:164-170 | a PDF is merged exactly when it belongs to the day and appending it succeeds; when every append succeeds, all files are merged in group order |
| Merger.PdfFiles | supynote/merger.py:154-180 | one merged PDF per day |
| Merger.PdfFilesAt | supynote/merger.py:154-180 | the i-th PDF is `<key>.pdf` of the i-th day, made of that day's appended files |
| Merger.AppendAll | supynote/merger.py:164-170 | the append loop of one day gives `Appended` |
| Merger.WriteNotes | supynote/merger.py:250-276 | the markdown loop writes `NoteFiles` of the sorted days |
| Merger.WritePdfs | supynote/merger.py:154-180 | the PDF loop writes `PdfFiles` of the sorted days |
| Merger.GroupCandidates | supynote/merger.py:231 | grouping the candidates gives the skipped count, the sorted days and the dictionary of the files in range |
| Merger.MergeMarkdownByDate | supynote/merger.py:210-282 | stops on no candidates, then on the cutoff's overflow, then with the skipped count (always 1 or more) when nothing is in range; otherwise skipped plus kept is the candidate count, and it writes one file per day, in day order, with each day's time-sorted lines |
| Merger.MergePdfsByDate | supynote/merger.py:113-183 | stops first without PyPDF, then on the same conditions as above; otherwise it writes one merged PDF per day, in day order, from each day's time-sorted files that append without error |

## Left out

- Client.Supernote.DownloadFileAsync: a download that fails after the local file was opened is not modelled. `_download_file_async` opens the target for writing before it streams the body (supynote/supernote.py:314). A `ClientError` raised mid-stream, such as a broken payload, returns False (321-323), and any other exception propagates. Either way the target file is already truncated or partly written. The model, like `download_file`, leaves the disk unchanged on every failure. It therefore also misses the consequence for a later run: with `check_size` and an entry without a `size`, the skip policy keeps such a partial file (supynote/supernote.py:94-96). `Walks.AsyncWalk` and the lemmas about it inherit this.
- Remote.Listing: a listing is assumed to be well formed: either falsy or without `fileList` (then `NoData`), or a dictionary whose `fileList` is a list of dictionaries that each carry `isDirectory` and `uri`. Any other payload, such as a bare number, a list holding the string `"fileList"`, `{"fileList": null}`, or an item without `uri`, makes the membership test, the iteration or the item lookups raise `TypeError` or `KeyError` (supynote/supernote.py:130, 138-142 for the sync walk; 216, 225-229 for the async one). Neither walk catches it (the async `try`/`finally` at 213-265 only passes), so one malformed listing ends the whole walk and its counts are lost. The model has no such outcome.
- A folder whose listing leads back to an ancestor is not modelled. A folder entry carries the listing the device returns for it, and the tree is finite. Nothing ties a folder's listing to its uri. In the code a folder uri that strips to an ancestor's path, such as `/`, which strips to the empty path, lists that ancestor again (supynote/supernote.py:171-173). The walk then downloads the same files at every level until Python's recursion limit raises `RecursionError`. The termination measure of the model excludes such trees.
- HTTP itself is not modelled: request headers, timeouts, `raise_for_status`, the 8 KiB chunked streaming and connection pooling. A fetch is one lookup in the device map, and only the byte length of the content is kept.
- HTML parsing is not modelled. A page is the list of its script texts in document order. `ListingParser.ListFiles` takes the JSON parser as a parameter, because `json.loads` is not modelled.
- Concurrency is not modelled. Thread-pool and asyncio tasks of one level run one after another in listing order, and the semaphore never blocks. A level's final disk is therefore that of sequential transfers. With distinct target paths this matches any interleaving; with duplicate uris the order of the writes is not captured.
- `Client.Supernote.DownloadDirectoryAsync` requires `max_concurrent >= 1`. `asyncio.Semaphore(0)` would wait forever and a negative value raises `ValueError`; neither is modelled.
- Folder creation (`mkdir`) is not modelled.
- Printing is not modelled: `print` and `_print_summary`.
- `_list_files_async` is the same extraction as `list_files` and is not modelled separately.
- The constructor creates the local root, but its `mkdir` is not modelled.
- `Path.exists` / `stat` on the local side are the disk map.
- Local writes never fail in the model. In the code `open(local_path, 'wb')` (supynote/supernote.py:117) and `aiofiles.open` (314) can raise `OSError` (a missing permission, a full disk), and neither download function catches it. In `download_directory`, `future.result()` re-raises it (supynote/supernote.py:165), which ends the whole sync walk. In `download_directory_async`, `gather` with `return_exceptions=True` (250) records it as a failed task, so the file counts as not downloaded and the walk goes on.
- `Dates.FileDate` takes the fallback strategies of `_extract_date_from_file` (merger.py:52-70) as the `other` parameter. Those strategies are notebook metadata via supernotelib, the sibling `.note` of a PDF, and the modification time.
- `_extract_text_from_note` is the `texts` parameter. supernotelib is not part of this model.
- `merger.append` succeeding is the `appendOk` parameter.
- `merger.write` and the final file writes are not modelled. Each merge returns the files it would write, with their contents.
- `datetime.now()` is the `now` parameter.
- `Calendar.DayKey`: the year is always four digits. This is true of `%Y` under most C libraries. Some platforms print years below 1000 with fewer digits.
- `\d` and `strptime` accept other Unicode decimal digits; the model accepts only ASCII digits.
- The glob order of `directory.glob("**/*.note")` is taken as the order of the input list. `glob` itself is not modelled.
- Paths are taken as strings without `.` or `..` segments and without doubled separators; pathlib normalisation is not modelled.
- Python's `sorted(files_by_date.items())` compares tuples. Since keys are unique, only the keys decide, and the model sorts the keys.
- The `merge_by_date` flag of `MergeConfig` is carried but does nothing; the merger code never reads it.
- `get_device_info` and the PDF converter are outside the modelled core, as is the rest of the repository.
