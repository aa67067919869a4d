# Pornarr: verified models of the decision and transaction code

A Dafny model of the parts of Pornarr that decide something or change something
shared: how an import places its file while others do the same, where a title's
clips are cut, what a torrent says, how a search over many indexers ends, what
the search filters promise, how sessions and the sign-in limiter live on an
expiring store, how names are normalised, releases grouped, the transcode cache
reclaimed, library paths built, OIDC identities resolved and content filters
evaluated. Each model follows its source branch by branch; code that changes
state is a class or a loop proved against a specification, expressions are
functions, and what they promise is stated over every input, every run or every
interleaving.

Verify everything with `dafny verify dfyconfig.toml`.

## The files

| files | what they hold |
|---|---|
| `FileSystem`, `Placement` | a disk of directories, names, inodes and bytes; `place_file` as a protocol of single system calls, any of which may fail, taken by any number of importers in any order |
| `PlacementSafety`, `PlacementTheorems` | the invariant of every interleaving, and what follows: reservations never clash, calls stay apart, placed files are for good, bytes stay reachable, all or nothing |
| `PlacementProgress`, `PlacementSuccess` | every placement stops; all imports succeed exactly when no call of any of them fails |
| `PlacementNeighbour`, `PlacementAlone`, `PlacementRace` | one import among others whose calls may fail: it is sure to succeed exactly when no rollback of theirs can remove a directory it will count on, and otherwise there is a run in which it is stranded |
| `PlaceFile` | `place_file` as an imperative program over an operating system whose answers are an input; its ghost trace refines the protocol |
| `LibraryNaming`, `LibraryJobs` | the sanitizer and the layout, what every library path looks like, and that it is what the placement theorems ask for |
| `Hotspots`, `HotRuns`, `Shorts` | histogram, local baseline, maximal hot runs, greedy clip planning |
| `Bencode`, `BencodeProofs`, `Torrent` | the serializer, a decoder for the "bencoding" section of BEP 3, that they are inverse, and the torrent of one file |
| `Search` | the progressive search, cancellable at every await, and the union of cached and configured targets |
| `Facets` | the counts beside the filters, and that selecting a value shows exactly its count |
| `Sessions`, `LoginLimiter` | expiring keys command by command, refined by a log of events that knows nothing of keys |
| `LimiterCommands` | the limiter's helpers interleaved command by command: when a counter has no expiry, and whom that locks out |
| `SessionCommands` | the session helpers interleaved command by command: when a live session is missing from its index, and when it outlives a revocation |
| `SessionHelpers`, `LimiterHelpers` | the helpers as classes that change the store, proved against the log |
| `Text`, `Naming` | runs, words, trimming; the release tail, its scan and splice, and the comparable title |
| `Dedup`, `DedupOrder` | release grouping, and when the order of arrival matters to it |
| `Cleanup`, `Oidc`, `Filters` | cache reclaim, account resolution, content filters |
| `Sorting`, `Sequences`, `Numerals`, `Bytes`, `Optional` | stable sorting, equalities of concatenations, decimal numerals, UTF-8, absent values |

## Where the code and its promises differ

- `README.md:64-65` of the repository promises that three downloads finishing at
  once all import with no coordination. `AllImportIff` proves when this is so,
  for any number of downloads: given their turns, they all import if and only if
  no system call of any of them fails (a hardlink refused for crossing file
  systems does not count). An import none of whose own calls fails can fail with
  another: that one's rollback may remove a directory this one has made or found.
  `AlwaysImportsIff` says exactly for which imports this can happen, from the
  initial library and the jobs alone, assuming one layout, libraries that do not
  contain one another, and names left for everybody. Such an import has a
  directory on its way that the rollback of another would remove and below which
  nothing is sure to stay; and that directory is its last, or missing at the
  start, or can be removed twice, once before `mkdir` finds it missing and once
  after it was made again (`Vulnerable`, `Endangered`, `RemovableTwice`). For
  every other import `UndisturbedImportsIff` holds: given its turns it imports
  exactly when no call of its own fails, whatever fails for others. One file in
  its directory is enough (`FileInDirectoryProtects`); two imports that share a
  directory with nothing in it are not safe from each other
  (`SharedEmptyDirectory`, `RollbackBreaksNeighbour`).
- The module text of `hotspots.py` (line 16) speaks of the median; the code and
  its function text use a low quantile, which is what is modelled.
- A clip need not contain the moment of its hotspot. `ClipHoldsPositionIff` is
  the exact condition; with clips of at least two lead-ins
  (`LongClipHoldsPositionIff`) only a boundary behind a hotspot of the first
  seconds can take the moment out. `ClipCanMiss` has a clip for each way to miss.
- A search that nobody cancelled can end with a target still "pending": exactly
  when a target was skipped with that word as its status, which no loader writes
  (`NothingPending`). The end of a search is announced twice exactly when the
  cancellation lands after the first announcement was sent (`RunSearch`).
- Index completeness of sessions needs each helper to be atomic. Command by
  command a live session is missing from its user's index exactly when its SADD
  has not come, or an index was dropped behind it, or the index ran out of time
  between it and the EXPIRE (`MissingIff`); and it outlives a revocation of all
  exactly when it was stored after the scan or was missing from the index at the
  scan (`OutlivesIff`). `RevokeAllCanMissASignIn`, `IndexCanExpireUnderASignIn`
  and `RevocationBetweenSetAndAdd` are runs of this kind.
- The sign-in limiter promises fifteen minutes (`WaitingFrees`), which needs its
  helpers to run to their end. Command by command a counter has no expiry exactly
  when neither EXPIRE nor DEL came behind the INCR that found it missing
  (`EndlessIff`), which takes a helper that stopped between the two
  (`StoppedBehind`, `NoneStoppedNoneEndless`). Six failures in such a counter
  limit the sign-in however long one waits, and nothing else does
  (`LockedOutIff`, `StoppedHelperLocksOut`); `login` asks the limiter first
  (routers/auth.py:110-119), so it does not come to clear the counter either.
- The comment at naming.py:28-30 promises that a year is scanned past. The year's
  own separator is not: the scan goes on exactly when white space stands in front
  of the year and something the scan knows in front of that
  (`ScansPastYearIff`), and a name whose year hangs on a mark, such as
  `Alice.1080p.2024`, is left as it is (`YearBehindMarkStripsNothing`,
  `ResolutionBehindMark`).
- Members of a release group need not match one another, and the groups depend on
  the order of arrival, as in `MembersNeedNotMatch`. Neither happens exactly when
  being the same release is transitive on what arrived (`GroupsAreMatchesIff`,
  `OrderDoesNotMatterIff`).

## Model

| member | source | states |
|---|---|---|
| `FileSystem.ApplyValid` | packages/core/pornarr_core/library_placement.py:78-138 | every permitted system call keeps the disk well formed |
| `FileSystem.ApplyTouches` | packages/core/pornarr_core/library_placement.py:78-138 | a call changes nothing but the names it is given, unless it writes to an inode with another name |
| `Placement.CopyStep` | packages/core/pornarr_core/library_placement.py:111-113 | a step of the copy moves at least one more byte, keeps a prefix of the source, and ends with all of it |
| `Placement.CandidateIsNumbered` | packages/core/pornarr_core/library_placement.py:80-81 | the names tried are the wanted one and then, from 1 on in decimal, stem, space, number in parentheses, suffix; and each number has one name |
| `Placement.TemporaryIsNumbered` | packages/core/pornarr_core/library_placement.py:94 | a temporary is a dot, the target's name, a dot, the number in decimal and `.tmp`, beside the target |
| `PlacementSafety.TemporaryNamesTarget` | packages/core/pornarr_core/library_placement.py:94 | temporaries of different targets never share a name |
| `PlacementSafety.AdvanceAdvances` | packages/core/pornarr_core/library_placement.py:50-138 | a call touches only the placement's own reservation, temporary and source, takes only names that were free, and leaves the placement in good order |
| `PlacementSafety.StepKeeps` | packages/core/pornarr_core/library_placement.py:50-138 | one call by anyone, working or failing, keeps the invariant of all placements |
| `PlacementSafety.RunKeeps` | packages/core/pornarr_core/library_placement.py:50-138 | the invariant holds after every schedule |
| `PlacementSafety.RmdirBelowRoot` | packages/core/pornarr_core/library_placement.py:132-138 | whatever a placement removes is a directory on its own way, strictly below its library, and only in a rollback |
| `PlacementTheorems.ReservationsSafe` | packages/core/pornarr_core/library_placement.py:78-138 | reservations and temporaries are distinct from each other and from all sources, are on disk, and no rollback removes a directory that holds one |
| `PlacementTheorems.CallsStayApart` | packages/core/pornarr_core/library_placement.py:50-138 | a call by one placement changes nothing of another's: name, inode and bytes of all it watches stay |
| `PlacementTheorems.PlacedForGood` | packages/core/pornarr_core/library_placement.py:66-75 | a placed file replaced nothing, holds the source's bytes, and stays whatever others do or fail to do later |
| `PlacementTheorems.BytesReachable` | packages/core/pornarr_core/library_placement.py:50-75 | at every moment the bytes can be read from the source or from the place in the library |
| `PlacementTheorems.AllOrNothing` | packages/core/pornarr_core/library_placement.py:50-75 | once all have stopped and no unlink of a rollback failed, the files are the old ones less the moved sources plus one new file per success, and no byte of an old file changed |
| `PlacementProgress.StepRank` | packages/core/pornarr_core/library_placement.py:78-138 | a placement's remaining work drops at each of its turns and nobody else's turn moves it |
| `PlacementProgress.EveryPlacementStops` | packages/core/pornarr_core/library_placement.py:78-138 | given enough turns every placement finishes, whoever else runs and whatever fails |
| `PlacementSuccess.NamesLast` | packages/core/pornarr_core/library_placement.py:80-89 | the search for a free name ends before its limit: with as many free names as importers, one is left that nobody ever took, also not an importer that gave it up again |
| `PlacementSuccess.TemporariesLast` | packages/core/pornarr_core/library_placement.py:92-118 | the same for the temporaries of a name, also those a failed rollback left behind |
| `PlacementSuccess.WayStep` | packages/core/pornarr_core/library_placement.py:50-138 | a placement stays on its way through every harmless call of its own, and through every call of others, working or failing, that removes no directory it counts on |
| `PlacementSuccess.AllImport` | README.md:64-65 | when no call fails, all downloads import, in every interleaving |
| `PlacementSuccess.OwnFaultDooms` | packages/core/pornarr_core/library_placement.py:69-74 | a call that fails costs the placement that makes it, whatever else happens: it never ends placed |
| `PlacementSuccess.AllImportIff` | README.md:64-65 | given their turns, downloads finishing at once all import exactly when no call of any of them fails |
| `PlacementNeighbour.UnclearableStays` | packages/core/pornarr_core/library_placement.py:132-138 | a directory with an initial file below it, or with an initial directory below it that no other placement would remove, is never empty, whatever others move, place and roll back |
| `PlacementNeighbour.StepTracked` | packages/core/pornarr_core/library_placement.py:132-138 | every step keeps the account of what the rollbacks of others removed: each removes upwards from its own directory, what went missing one of them removed, and a directory each of whose removers has one of its own to remove before is removed once at most |
| `PlacementNeighbour.OthersSpare` | packages/core/pornarr_core/library_placement.py:79-138 | in an undisturbed placement's run no call of another removes a directory it counts on |
| `PlacementAlone.MakesDirectories` | packages/core/pornarr_core/library_placement.py:79 | `mkdir` by itself, from the last directory up to the first whose parent exists and down again, makes exactly the missing ones |
| `PlacementAlone.Climbs` | packages/core/pornarr_core/library_placement.py:132-138 | `_remove_empty_parents` by itself removes exactly the directories above its own up to the library or to one that is not empty |
| `PlacementNeighbour.UndisturbedImports` | README.md:64-65 | whatever fails for others and in every interleaving, a placement they cannot disturb imports, given its turns and harmless calls of its own |
| `PlacementNeighbour.UndisturbedImportsIff` | packages/core/pornarr_core/library_placement.py:50-75 | such a placement imports exactly when no call of its own fails |
| `PlacementNeighbour.FileInDirectoryProtects` | packages/core/pornarr_core/library_placement.py:132-138 | one file in its directory at the start protects a placement from everybody |
| `PlacementRace.Strands` | packages/core/pornarr_core/library_placement.py:69-89 | wherever others can endanger a directory on its way there is a run in which all calls of the placement work and it fails: others come, fail and remove the directory after it found or made it |
| `PlacementRace.AlwaysImportsIff` | README.md:64-65 | an import is sure to succeed, in every run in which its own calls work, exactly when no directory it will count on can be removed by the rollbacks of others |
| `PlacementRace.SharedEmptyDirectory` | packages/core/pornarr_core/library_placement.py:132-138 | any two imports that share a directory below their library with nothing in it are not safe from each other |
| `PlacementRace.RollbackBreaksNeighbour` | packages/core/pornarr_core/library_placement.py:132-138 | two downloads into an empty library, of which one fails although all its calls work |
| `PlaceFile.Importer.MakeDirectories` | packages/core/pornarr_core/library_placement.py:79 | all parents are made or the call has failed, which in a start with room means that a call already made was refused; no file is touched |
| `PlaceFile.Importer.MakeDirectory` | packages/core/pornarr_core/library_placement.py:79 | the recursion of `mkdir` takes the steps of the protocol; it makes directories only on the way, touches no file, ends with the directory there, and fails only if the system refuses a call or something is in the way |
| `PlaceFile.Importer.ReservePath` | packages/core/pornarr_core/library_placement.py:80-89 | the name search ends with a new, empty file at the numbered name with the smallest number that was not there, or raises having changed nothing; in a start with room it raises only if a call was refused |
| `PlaceFile.Importer.HardlinkToTemporary` | packages/core/pornarr_core/library_placement.py:92-100 | the loop ends with a hardlink of the source at the first temporary name that was free, with the cross-device answer, or at the rollback with nothing changed; on one file system, in a start with room, it is the hardlink unless a call was refused |
| `PlaceFile.Importer.CopyToTemporary` | packages/core/pornarr_core/library_placement.py:103-118 | the copy ends with all of the source's bytes at the first temporary name that was free, or at the rollback with its temporary unlinked or given up; in a start with room the latter means that a call was refused |
| `PlaceFile.Importer.RemoveEmptyParents` | packages/core/pornarr_core/library_placement.py:132-138 | exactly the directories from the parent up to some directory are removed, and that one is the library, is not empty, or was refused |
| `PlaceFile.Importer.Rollback` | packages/core/pornarr_core/library_placement.py:69-74 | temporary and target are gone and nothing else, or what an unlink refused to give back is recorded; directories go only between the library and the target |
| `PlaceFile.Importer.Commit` | packages/core/pornarr_core/library_placement.py:66-74 | success renames the temporary onto the target and takes a moved source away, and changes no other file; a failure takes both names away, up to what an unlink refused to give back, changes no other file, and means that a call was refused |
| `PlaceFile.Importer.PutInPlace` | packages/core/pornarr_core/library_placement.py:66-74 | the rename, or the rollback of temporary and target, with the files each leaves |
| `PlaceFile.Importer.LetGo` | packages/core/pornarr_core/library_placement.py:67-74 | the unlink of a moved source, or the rollback of the target that is already in place |
| `PlaceFile.Importer.Place` | packages/core/pornarr_core/library_placement.py:50-75 | success adds one file, at the numbered name with the smallest number that did not exist, with the source's bytes, and removes the source exactly for a move; failure leaves the files as they were unless an unlink of the rollback failed; it raises in a start with room only if one of the calls it made was refused, and a file is copied on one file system only then |
| `LibraryNaming.SanitizeComponentSafe` | packages/core/pornarr_core/library_naming.py:15-17 | a sanitized name is not empty, has no invalid character or doubled space, begins and ends with neither dot nor space; and exactly such names are left alone |
| `LibraryNaming.SanitizeTwice` | packages/core/pornarr_core/library_naming.py:15-17 | the sanitizer is idempotent |
| `LibraryNaming.SanitizedIs` | packages/core/pornarr_core/library_naming.py:15-17 | what is kept are the runs of characters that are neither invalid nor white space, one space apart, less the dots and spaces at either end; where nothing is kept it says "unknown" |
| `LibraryNaming.InvalidIs` | packages/core/pornarr_core/library_naming.py:10 | the nine marks and the control characters are invalid, nothing else |
| `LibraryNaming.ValidatedIff` | packages/core/pornarr_core/library_naming.py:52-57 | a layout is read as a sequence of characters and fields exactly if it is relative and spells them: a brace doubled, a field in braces, perhaps with an empty format; it is refused if it spells none |
| `LibraryNaming.FieldShows` | packages/core/pornarr_core/library_naming.py:33-38 | which part of a work fills each of the four fields, "unknown" where it is missing or empty, and four characters of the date |
| `LibraryNaming.SplitFormat` | packages/core/pornarr_core/library_naming.py:41-46 | formatting a layout and splitting at slashes commute: no value adds or removes a separator |
| `LibraryNaming.KeptIffStanding` | packages/core/pornarr_core/library_naming.py:42-46 | whether a component survives the path parser and the filter depends on the layout alone |
| `LibraryNaming.PathIs` | packages/core/pornarr_core/library_naming.py:20-49 | the path is the standing components of an accepted layout, filled in and sanitized, with the suffix behind the last; otherwise an error |
| `LibraryNaming.PathStaysInside` | packages/core/pornarr_core/library_naming.py:20-49 | every part is non-empty, free of separators and not hidden, hence neither "." nor ".." |
| `LibraryNaming.DepthIsTheLayouts` | packages/core/pornarr_core/library_naming.py:40-49 | whether there is a path, and how deep, the layout decides alone, whatever studio, title, date and quality |
| `LibraryJobs.LibraryJobIsOk` | packages/core/pornarr_core/library_placement.py:42-50 | what the layout yields is a job the placement theorems cover, its first candidate is the path itself, and its stem and suffix are those of the path's last name |
| `LibraryJobs.SplitNameIs` | packages/core/pornarr_core/library_placement.py:81 | the suffix is what follows the last dot, dot included, unless that dot begins or ends the name; the stem is the rest |
| `LibraryJobs.LibraryJobsOneDepth` | packages/core/pornarr_core/library_placement.py:42-50 | importers of one layout file at one depth, as `AllImport` asks |
| `Hotspots.WatchHistogram` | packages/core/pornarr_core/hotspots.py:139-154 | each sample inside the file is counted once, in the bin whose interval holds it, and the counts sum to those samples |
| `Hotspots.LocalBaseline` | packages/core/pornarr_core/hotspots.py:157-176 | each baseline is the element with a fraction of the quantile before it among the bins at most half a window away |
| `Hotspots.RankUnique` | packages/core/pornarr_core/hotspots.py:173-175 | a window has one element of each rank: the baseline is determined |
| `Hotspots.LowQuantileUnique` | packages/core/pornarr_core/hotspots.py:173-175 | there is one such element |
| `Hotspots.BaselineIgnoresSpikes` | packages/core/pornarr_core/hotspots.py:162-168 | a baseline is at most v exactly when more bins of its window than the rank are, whatever the others hold |
| `Hotspots.BaselineLifts` | packages/core/pornarr_core/hotspots.py:157-176 | adding c to every bin raises every baseline by exactly c |
| `HotRuns.FindHotspots` | packages/core/pornarr_core/hotspots.py:179-215 | a bin lies in a run exactly when its count exceeds its baseline by at least the minimum samples, the fraction of all samples and the multiple of the baseline; runs are maximal and apart; each hotspot is the first bin of its run furthest above its baseline, with that excess, its time and the run's width; and they are strictly ordered by excess and position |
| `HotRuns.HotIffStandsOut` | packages/core/pornarr_core/hotspots.py:192-200 | the bar of the code is reached exactly when all three amounts are |
| `HotRuns.RunsUnique` | packages/core/pornarr_core/hotspots.py:197-214 | the maximal runs are determined by the hot bins |
| `HotRuns.WidthsAreHotBins` | packages/core/pornarr_core/hotspots.py:205-212 | the widths of the runs sum to the number of hot bins |
| `HotRuns.LiftNeverHeats` | packages/core/pornarr_core/hotspots.py:187-195 | watching that is higher everywhere by the same amount leaves every excess and makes no bin stand out that did not |
| `Shorts.Snap` | packages/core/pornarr_core/hotspots.py:274-276 | the start moves to a nearest boundary within the tolerance, or stays |
| `Shorts.ClipFits` | packages/core/pornarr_core/hotspots.py:240-253 | a clip lies inside the file and has exactly its nominal length |
| `Shorts.ClipIsCut` | packages/core/pornarr_core/hotspots.py:240-253 | a run of the long width or more gets the long cut, any other the short one, at most the whole file; it opens at the first of the boundaries nearest to a lead-in before the hotspot, or there if none is within a lead-in, moved into the file where it would reach out |
| `Shorts.ClipHoldsPositionIff` | packages/core/pornarr_core/hotspots.py:240-253 | the clip contains the moment of its hotspot exactly when it opens no later, or is pulled back by the end of the file, and closes no earlier |
| `Shorts.LongClipHoldsPositionIff` | packages/core/pornarr_core/hotspots.py:240-253 | the same for clips of at least two lead-ins: only a hotspot of the first seconds can be missed, and only for a boundary behind it |
| `Shorts.OverlapShares` | packages/core/pornarr_core/hotspots.py:254-256 | the overlap test holds exactly when the intervals share a moment |
| `Shorts.PlanShorts` | packages/core/pornarr_core/hotspots.py:218-260 | every hotspot's clip is cut so, and hotspots are taken exactly as a greedy packing would, each skip for the cap or an overlap; plans fit, keep off everything that exists, follow one another in order, and respect the cap |
| `Numerals.DigitsRoundTrip` | infrastructure/testing/fake_indexer.py:60 | the decimal numeral of a number reads back as the number and has no leading zero |
| `Numerals.EvaluateRoundTrip` | infrastructure/testing/fake_indexer.py:60 | a canonical numeral is the numeral of its value |
| `Numerals.DecimalIs` | infrastructure/testing/fake_indexer.py:60 | a text writes a number, in digits that say it without a leading zero, exactly if it is its numeral |
| `BencodeProofs.EncodePrints` | infrastructure/testing/fake_indexer.py:58-72 | an encoding is the printed form of what the value means: text as UTF-8, booleans as numbers, dictionaries by ascending key |
| `Bencode.PrintedNumber` | infrastructure/testing/fake_indexer.py:59-60 | on paper a number is `i`, its numeral with a minus if it is negative, `e` |
| `Bencode.PrintedText` | infrastructure/testing/fake_indexer.py:61-64 | a string is the numeral of its length, a colon and its bytes |
| `Bencode.PrintedGroup` | infrastructure/testing/fake_indexer.py:65-71 | a list stands between `l` and `e`, a dictionary between `d` and `e` |
| `Bencode.PrintInOrder` | infrastructure/testing/fake_indexer.py:65-71 | items follow one another, and each key stands in front of its item as a string |
| `Bytes.Utf8CharCarries` | infrastructure/testing/fake_indexer.py:63-64 | a character is the bytes that section 3 of RFC 3629 gives its number |
| `Bytes.CarriesOnce` | infrastructure/testing/fake_indexer.py:63-64 | which are determined by it |
| `BencodeProofs.ParseIffPrinted` | infrastructure/testing/fake_indexer.py:58-72 | the decoder accepts exactly printed forms with ascending keys, followed by anything, and returns what was printed and what followed |
| `BencodeProofs.MeaningOrdered` | infrastructure/testing/fake_indexer.py:67-71 | sorted dictionaries have strictly ascending keys at every depth exactly when no two keys of one dictionary encode alike |
| `BencodeProofs.DecodesIffWellKeyed` | infrastructure/testing/fake_indexer.py:58-72 | decoding an encoding followed by anything returns exactly the value and the rest, if and only if no dictionary has two keys that encode alike |
| `BencodeProofs.PrefixFree` | infrastructure/testing/fake_indexer.py:58-72 | no encoding is a proper prefix of another, and equal encodings mean the same value, for every two values |
| `BencodeProofs.InsertionOrderHidden` | infrastructure/testing/fake_indexer.py:67-71 | the order in which a dictionary was filled does not show |
| `Torrent.PieceIs` | infrastructure/testing/fake_indexer.py:124-128 | piece k is the bytes from k piece lengths on, as many as there are, and there are no other pieces |
| `Torrent.PiecesCanBeChecked` | infrastructure/testing/fake_indexer.py:124-134 | the digest of every piece stands in the torrent at its own twenty bytes |
| `Torrent.TorrentReadsBack` | infrastructure/testing/fake_indexer.py:129-142 | a decoder reads back exactly the document, with every field, and nothing behind it |
| `Search.ProcessOne` | apps/worker/pornarr_worker/search.py:93-110 | one turn records one outcome, in memory, in the store and as an event: the status its cause gives and the releases it contributes without their download URLs; a cancellation inside it leaves exactly what comes behind its place undone, and a turn without one is stored |
| `Search.OutcomeMeans` | apps/worker/pornarr_worker/search.py:288-320 | the status by its cause (cached, skipped, unavailable, completed, timed out, authentication failed, malformed, failed), and releases exactly from the cache or from an adapter that was asked and returned |
| `Search.PublishableWithholds` | apps/worker/pornarr_worker/search.py:328-336 | an object is its release without the download URL |
| `Search.CancelPending` | apps/worker/pornarr_worker/search.py:125-128 | cancellation turns every pending status into "cancelled" and no other |
| `Search.Abandon` | apps/worker/pornarr_worker/search.py:120-140 | whatever was recorded stays, whatever is pending is cancelled, and one copy and one announcement of the end go out |
| `Search.RunSearch` | apps/worker/pornarr_worker/search.py:83-141 | for every order of completion and every place a cancellation can land: of every target the status its cause gives, and results exactly when it was processed and contributes releases, those releases without their download URLs, in memory, in every stored copy and in the events; how many copies were stored and events sent; that it raises exactly when a cancellation lands, and that the end is announced twice exactly when it lands behind the first announcement |
| `Search.NothingPending` | apps/worker/pornarr_worker/search.py:121-129 | the final statuses are those of the targets, and none is pending after a cancellation, or otherwise exactly when no target was skipped as "pending" |
| `Search.OutcomesStay` | apps/worker/pornarr_worker/search.py:92-99 | no stored copy takes back an outcome or results an earlier one had |
| `Search.OrderIrrelevant` | apps/worker/pornarr_worker/search.py:92-97 | the order in which the tasks of an uncancelled search finish does not matter |
| `Search.UrlsDoNotShow` | apps/worker/pornarr_worker/search.py:328-336 | searches whose releases, in all their fields, differ in download URLs only store the same copies and send the same events |
| `Search.CachedTargets` | apps/worker/pornarr_worker/search.py:391-418 | one cached target per indexer with rows, holding all its rows in order |
| `Search.SearchTargets` | apps/worker/pornarr_worker/search.py:194-208 | a union in which the cache wins for its own indexers and for no other |
| `Facets.TalliedIsMatched` | apps/api/pornarr_api/facets.py:96-157 | the rows a value is counted for are exactly the rows that match once it is selected |
| `Facets.Ordered` | apps/api/pornarr_api/facets.py:172-177 | the items of a counter, each once, commonest first and then alphabetical |
| `Facets.CountRows` | apps/api/pornarr_api/facets.py:130-155 | the five counters count, for every value, the rows that pass with its own dimension lifted |
| `Facets.Tally` | apps/api/pornarr_api/facets.py:86-169 | every list holds exactly the values with titles, with their counts, in its own order; beside the bands stand the numbers of rows that pass the other selections and last from 0 to 10, 10 to 20, 20 to 40 minutes, or longer, lower bounds included |
| `Facets.MatchesMeans` | apps/api/pornarr_api/facets.py:103-128 | a row matches exactly when it has what is selected in every dimension but the lifted one |
| `Facets.BandMeans` | apps/api/pornarr_api/facets.py:65-72 | a row is in a band exactly when its seconds are within its bounds; without a duration, or with a negative one, it is in none |
| `Facets.BandListCounts` | apps/api/pornarr_api/facets.py:162-164 | the same of the list of bands |
| `Facets.ListedCountsKept` | apps/api/pornarr_api/facets.py:96-169 | a count is kept: selecting a studio, resolution, band or tag yields exactly the number beside it, and a value not listed yields none |
| `Facets.RatingCountsKept` | apps/api/pornarr_api/facets.py:145-152 | the same for the cumulative rating floors |
| `Facets.BandListLists` | apps/api/pornarr_api/facets.py:162-164 | the duration list holds each band with titles and nothing else |
| `Sessions.StepKeeps` | apps/api/pornarr_api/auth.py:209-251 | every helper, and the passing of time, keeps keys, indexes and log in step |
| `Sessions.ResolvesIffStanding` | apps/api/pornarr_api/auth.py:209-251 | a token resolves to a record exactly when its sign-in is under a week old and neither it nor its user was revoked since |
| `Sessions.NoSessionUnindexed` | apps/api/pornarr_api/auth.py:209-217 | over all runs, every session that resolves is in its user's unexpired index |
| `Sessions.RevokeAllIsExact` | apps/api/pornarr_api/auth.py:247-251 | after revoking all, the user is signed in nowhere and everybody else as before |
| `Sessions.RevokeAllCanMissASignIn` | apps/api/pornarr_api/auth.py:209-251 | a sign-in between the scan and the deletion of the index survives the next revocation too |
| `Sessions.IndexCanExpireUnderASignIn` | apps/api/pornarr_api/auth.py:214-216 | an index that expires between two commands of a sign-in takes the new token with it |
| `SessionCommands.ResolvesIff` | apps/api/pornarr_api/auth.py:209-251 | over every run of single commands a token resolves exactly when its SET is under a week old and no DEL followed |
| `SessionCommands.MemberIff` | apps/api/pornarr_api/auth.py:209-251 | a token is in the unexpired index exactly while its SADD has its effect: no drop, expiry or SREM behind it |
| `SessionCommands.MissingIff` | apps/api/pornarr_api/auth.py:209-217 | over every interleaving of helpers that keep their order, a live session is missing from its index exactly when its SADD has not come, an index was dropped behind it, or the index ran out of time before the EXPIRE |
| `SessionCommands.LostForGood` | apps/api/pornarr_api/auth.py:209-217 | no later command brings such a session back into the index |
| `SessionCommands.OutlivesIffUnfound` | apps/api/pornarr_api/auth.py:247-251 | a session outlives a completed revocation of all exactly when the scan did not find it |
| `SessionCommands.OutlivesIff` | apps/api/pornarr_api/auth.py:247-251 | that is, exactly when it was stored after the scan or was missing from the index at the scan |
| `SessionCommands.RevocationBetweenSetAndAdd` | apps/api/pornarr_api/auth.py:209-251 | helpers that keep their order, a revocation between SET and SADD, and a session that stands |
| `SessionHelpers.SessionStore.CreateSession` | apps/api/pornarr_api/auth.py:209-217 | the new token resolves, every other token as before |
| `SessionHelpers.SessionStore.SessionRecord` | apps/api/pornarr_api/auth.py:220-238 | the answer is what the log of the run says |
| `SessionHelpers.SessionStore.RevokeSession` | apps/api/pornarr_api/auth.py:241-244 | the token no longer resolves, every other token as before |
| `SessionHelpers.SessionStore.RevokeAllSessions` | apps/api/pornarr_api/auth.py:247-251 | the scanning loop ends every session of the user and nobody else's |
| `LoginLimiter.StepKeeps` | apps/api/pornarr_api/auth.py:254-275 | every attempt, clear and wait keeps the counters in step with the log |
| `LoginLimiter.OneWindow` | apps/api/pornarr_api/auth.py:266-269 | a bucket never has two open windows |
| `LoginLimiter.LimitedIffSpent` | apps/api/pornarr_api/auth.py:254-260 | a sign-in is limited exactly when its address or its account has six failures in a window under fifteen minutes old that was not cleared |
| `LoginLimiter.WaitingFrees` | apps/api/pornarr_api/auth.py:263-271 | fifteen minutes free everybody, whatever was recorded before |
| `LimiterCommands.EndlessIff` | apps/api/pornarr_api/auth.py:263-275 | over every run of single commands a counter has no expiry exactly when the INCR that found it missing has had neither an EXPIRE nor a DEL behind it |
| `LimiterCommands.LockedOutIff` | apps/api/pornarr_api/auth.py:254-275 | a sign-in stays limited however long one waits exactly when its address or its account has six failures in such a counter |
| `LimiterCommands.StoppedBehind` | apps/api/pornarr_api/auth.py:263-271 | where helpers keep their order, the helper of that INCR has issued nothing since |
| `LimiterCommands.NoneStoppedNoneEndless` | apps/api/pornarr_api/auth.py:263-275 | where every helper that started has issued all its commands, however interleaved, every counter has an expiry |
| `LimiterCommands.StoppedHelperLocksOut` | apps/api/pornarr_api/auth.py:263-271 | six failures the helpers can record, and an address that is limited for good |
| `LimiterHelpers.Limiter.IsLoginRateLimited` | apps/api/pornarr_api/auth.py:254-260 | the answer of the loop over both buckets is what the log says |
| `LimiterHelpers.Limiter.RecordFailedLogin` | apps/api/pornarr_api/auth.py:263-271 | the failure is counted in both buckets, and the answer is what the limiter will say from then on |
| `LimiterHelpers.Limiter.ClearLoginFailures` | apps/api/pornarr_api/auth.py:274-275 | both buckets are cleared |
| `Naming.ReadReads` | packages/core/pornarr_core/naming.py:67-79 | every name is a title followed by pieces, each a year, or else the longest token, or else a group at the end of what precedes it, and the title ends in none of these |
| `Naming.ReadingUnique` | packages/core/pornarr_core/naming.py:67-79 | no name has two such readings |
| `Naming.TokensAre` | packages/core/pornarr_core/naming.py:12-16 | the tokens are the resolutions, sources and codecs, with a space, a dot, a hyphen or nothing in `web-dl`, `h-264` and `h-265` |
| `Naming.TokenFromIs` | packages/core/pornarr_core/naming.py:27 | a token is found from a place exactly if a separator, or the start, then a token in any case and white space follow to the end |
| `Naming.YearFromIs` | packages/core/pornarr_core/naming.py:31 | the same for a year of the last century or this one |
| `Naming.GroupFromIs` | packages/core/pornarr_core/naming.py:40 | a group is a hyphen, underscore or dot, two capitals or digits or more, and white space to the end |
| `Naming.SeparatorIs` | packages/core/pornarr_core/naming.py:20-21 | separators are five marks and white space |
| `Text.SpaceIs` | packages/core/pornarr_core/naming.py:21 | white space is what `\s` takes for it |
| `Naming.ApplySpans` | packages/core/pornarr_core/naming.py:80-87 | splicing disjoint spans from the right, one after the other, is one pass from the left that keeps the gaps between them and puts a space for each |
| `Naming.SpliceIsOnePass` | packages/core/pornarr_core/naming.py:80-87 | the same for every right-to-left list of spans |
| `Naming.StripReleaseTail` | packages/core/pornarr_core/naming.py:54-87 | scan and splice terminate and return the title, the years as spelled and one space for every removed piece |
| `Naming.ScansPastYearIff` | packages/core/pornarr_core/naming.py:28-31 | past a year the scan goes on exactly when white space stands in front of it and something the scan knows in front of that |
| `Naming.YearBehindMarkStripsNothing` | packages/core/pornarr_core/naming.py:28-31 | a name whose year hangs on a mark keeps everything |
| `Naming.ResolutionBehindMark` | packages/core/pornarr_core/naming.py:28-31 | the name `Alice.1080p.2024` keeps its resolution |
| `Naming.FlattenIsWords` | packages/core/pornarr_core/naming.py:90-95 | flattening keeps the words, lower-cased, one space apart, and nothing else |
| `Naming.NormalizedWords` | packages/core/pornarr_core/naming.py:43-47 | a normalised name is the words of its title and its years, or all of its words when it has neither |
| `Naming.EmptyIffSeparators` | packages/core/pornarr_core/naming.py:43-47 | a normalised name is empty exactly when the name is nothing but separators |
| `Dedup.Deduplicate` | packages/core/pornarr_core/dedup.py:119-135 | each group holds exactly the arrivals whose earliest matching founder is its own, one group per founder, nobody is lost or doubled, and in each nobody listed is better than anybody before, the primary first: lower priority number, then more of URL, size and date known, then more seeders, then the smaller guid |
| `Dedup.FirstFit` | packages/core/pornarr_core/dedup.py:125-130 | the inner loop stops at the first group whose founder matches |
| `Dedup.GroupOrders` | packages/core/pornarr_core/dedup.py:131-143 | a group lists its members in that order |
| `Dedup.RankIs` | packages/core/pornarr_core/dedup.py:138-143 | one release ranks at most as high as another exactly when it is not worse in that sense |
| `Dedup.SameReleaseIff` | packages/core/pornarr_core/dedup.py:146-153 | two releases match exactly when both have an info hash and these agree but for case, or one has none and titles agree, known sizes differ by at most the tolerance of the larger and known dates by at most a day |
| `Dedup.TitleIs` | packages/core/pornarr_core/dedup.py:156-157 | titles are compared by their digits and letters, lower-cased |
| `Dedup.FoundersAre` | packages/core/pornarr_core/dedup.py:124-130 | the founders are exactly the arrivals no earlier founder matches, in order |
| `Dedup.SizesWithin` | packages/core/pornarr_core/dedup.py:146-153 | two members that joined a founder by title and size differ by the square of the tolerance at most |
| `Dedup.MembersNeedNotMatch` | packages/core/pornarr_core/dedup.py:124-130 | a group whose members do not match each other, and an order of arrival that splits it |
| `DedupOrder.GroupsAreMatchesIff` | packages/core/pornarr_core/dedup.py:119-135 | in every order of arrival the groups are exactly the matches, if and only if matching is transitive on what arrived |
| `DedupOrder.OrderDoesNotMatterIff` | packages/core/pornarr_core/dedup.py:119-135 | the partition is the same in every order of arrival exactly then |
| `Cleanup.BytesConserved` | apps/worker/pornarr_worker/cleanup.py:70-83 | bytes left and bytes gone sum to the recorded total |
| `Cleanup.TranscodeCache.Remove` | apps/worker/pornarr_worker/cleanup.py:134-136 | a removal takes its own directory, or nothing when the directory cannot be removed, and says which |
| `Cleanup.TranscodeCache.Expire` | apps/worker/pornarr_worker/cleanup.py:75-83 | exactly the expired directories go that belong to no live session and can be removed, and the counters say what is on disk |
| `Cleanup.TranscodeCache.Evict` | apps/worker/pornarr_worker/cleanup.py:85-95 | exactly the removable directories of no live session go among the oldest, as many as it takes to meet the cap or all there are, and the counters say what is on disk |
| `Cleanup.TranscodeCache.CleanUp` | apps/worker/pornarr_worker/cleanup.py:58-102 | what is left is determined by the listing, the live sessions, the age, the cap and the paths that cannot be removed, and the counters equal what is left and what is gone |
| `Cleanup.CapOrStubborn` | apps/worker/pornarr_worker/cleanup.py:85-95 | the cap is met, or all that is left is live or cannot be removed |
| `Cleanup.OldestFirst` | apps/worker/pornarr_worker/cleanup.py:85-95 | whatever was evicted was modified earlier, or at the same time with a smaller path, than whatever was left that could have been |
| `Cleanup.LiveStay` | apps/worker/pornarr_worker/cleanup.py:75-95 | no live session loses its directory |
| `Cleanup.ExpiredGone` | apps/worker/pornarr_worker/cleanup.py:75-83 | no expired directory is left but of a live session or one that cannot be removed |
| `Oidc.StepKeepsInv` | apps/api/pornarr_api/oidc_mapping.py:65-134 | usernames and (provider, subject) pairs stay unique at every step |
| `Oidc.StepKeepsLinks` | apps/api/pornarr_api/oidc_mapping.py:65-134 | no step unlinks an identity, renames an account or gives it a local password |
| `Oidc.LinkedPairIsStable` | apps/api/pornarr_api/oidc_mapping.py:104-118 | once linked, a pair signs in that account after any run, exactly while the policy admits it and the account is active, whatever else the token claims |
| `Oidc.GainsIdentityIff` | apps/api/pornarr_api/oidc_mapping.py:65-123 | an existing account gains an identity exactly by an explicit link or by a verified e-mail equal to its username |
| `Oidc.GainsOverRuns` | apps/api/pornarr_api/oidc_mapping.py:65-123 | over every run from any tables: an account of the start that lacks an identity has it at the end exactly when some event of the run linked it explicitly, or signed it in by a verified e-mail equal to its username |
| `Oidc.SignsInIff` | apps/api/pornarr_api/oidc_mapping.py:97-134 | a token signs in an account exactly if it is admitted, names a subject, and the account is the active one linked to it, else the active one with a password whose username its verified e-mail is, else a new one under the first name it claims, of at most 64 characters and free |
| `Oidc.ConflictIff` | apps/api/pornarr_api/oidc_mapping.py:97-134 | it fails with a conflict exactly if nobody is linked or vouched for and that name is somebody's |
| `Oidc.LinksIff` | apps/api/pornarr_api/oidc_mapping.py:65-84 | an explicit link fails exactly for a token that is not admitted or has no subject and for an identity of another account, and is there otherwise |
| `Oidc.RoleIs` | apps/api/pornarr_api/oidc_mapping.py:40-49 | administrator if any value of the role claim is mapped to it, else user if any is, else the provider's default |
| `Oidc.WhoSignsIn` | apps/api/pornarr_api/oidc_mapping.py:97-134 | a successful sign-in leads to an active account with the role the token deserves, linked from now on, changes nothing else, and a new account has the claimed username nobody else has and no password |
| `Oidc.Accounts.LinkOidcIdentity` | apps/api/pornarr_api/oidc_mapping.py:65-84 | links, confirms or refuses as the specification says, changing nothing when it raises |
| `Oidc.Accounts.ResolveOidcUser` | apps/api/pornarr_api/oidc_mapping.py:97-134 | changes the tables and answers as the specification says, keeping them unique |
| `Filters.DecisionIsMaximum` | packages/core/pornarr_core/filters.py:78-87 | the decision lists exactly the rules that hit, is to reject exactly if one of them says so and to allow exactly if all do, and names the first rule that says what is decided |
| `Filters.MatchesIff` | packages/core/pornarr_core/filters.py:96-127 | an enabled term matches where its words stand in the folded title or description, a tag or performer where it equals one of the candidate's but for case, a confidence where the candidate's is below, and the two unknowns where the candidate's is unknown |
| `Filters.WordChars` | packages/core/pornarr_core/filters.py:10 | separators are what is neither a digit nor a letter |
| `Text.FoldCharIs` | packages/core/pornarr_core/filters.py:93 | folding takes each capital to its own small letter and changes nothing else |
| `Filters.StrictestIs` | packages/core/pornarr_core/filters.py:84-86 | of equally strict rules the first decides |
| `Filters.RulesCombine` | packages/core/pornarr_core/filters.py:71-87 | global and user rules together decide as the stricter of the two sets, a global rule winning ties |
| `Filters.UserNeverLoosens` | packages/core/pornarr_core/filters.py:71-87 | the action is the higher of the two sets' actions |
| `Filters.FoldedIsWords` | packages/core/pornarr_core/filters.py:90-93 | folding keeps the words, lower-cased, one space apart, and nothing else |
| `Filters.FoldedAlikeIff` | packages/core/pornarr_core/filters.py:90-108 | two texts fold alike exactly when their words are the same |
| `Filters.FoldedTwice` | packages/core/pornarr_core/filters.py:90-93 | folding is idempotent |
| `Filters.RespelledFolds` | packages/core/pornarr_core/filters.py:102-110 | re-spelling a run of separators changes no folding |
| `Filters.DecidesByFolding` | packages/core/pornarr_core/filters.py:78-113 | texts that fold alike get the same decision |
| `Filters.TermByFolding` | packages/core/pornarr_core/filters.py:101-113 | terms that fold alike match the same candidates |

## Left out

- Real I/O: Redis, SQL sessions, HTTP, FFmpeg and directory walking are maps, sets, a clock and calls that may fail.
- Floating point: seconds and sizes are reals or integers, and rounding is not modelled.
- Text outside ASCII: `casefold` and case-insensitive matching fold A to Z only, and `\d` matches 0 to 9 only.
- `_unify` in naming.py: brackets and dates are unified before the model of `normalize_title` begins; `split_release_name` and its patterns are not modelled.
- Processes killed in the middle of `place_file`: an exception that is not an `Exception` skips its rollback.
- Sources inside the library being imported into, and two placements of one source: the placement theorems exclude both.
- In `mkdir` an answer that a name exists and the look whether it is a directory are one call here.
- `copystat` and the permissions and times of files, symbolic links, and other programs changing the library.
- Cancellation of `run_search` during its first store or inside its `except` clause, more than one cancellation, and failures of the store and of callbacks.
- The circuit breaker, the adapters, `record_search_outcome`, the release cache and the loading of configured targets in search.py.
- `bencode` on two dictionary keys that encode alike but whose entries compare by their values: the encoding of such a dictionary is modelled as a stable sort by key.
- SHA-1 beyond the length of its digests, the hexadecimal form of the info hash, `_multipart` and `seed_when_grabbed` in fake_indexer.py.
- Malformed session records, cookies, CSRF and password checks in auth.py; `client_address` is a parameter of the limiter.
- A SET of tokens read by a scan while others change it: in `SessionCommands` too the scan yields the members at its start.
- `detect_duplicate` and title similarity in dedup.py.
- Cleanup.TranscodeCache.Remove: a refused `rmtree` may have deleted part of the directory; here it has deleted nothing, and the size listed stays its size.
- `_segment_directories` in cleanup.py: the listing is a parameter, its paths distinct and present when the cleanup begins; directories that appear or vanish by other hands are not modelled.
- Suffixes with a slash in `build_library_path`: `Path.suffix`, which the only caller passes, has none.
- Deleting users, identities or providers, and changing usernames or passwords, in the runs of the OIDC model; a provider's default role is one of the two roles.
- Parsing of confidence thresholds in filters.py: which confidences lie below a pattern is a parameter.
- `has_enough_behaviour`, `eta.py`, `automation.py`, `quality.py`, `playback.py`, `scoping.py` and `related.py` are not modelled.
- The "unrated" bucket of the rating facet is counted but cannot be selected, so no kept count is stated for it.
