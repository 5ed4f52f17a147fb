# Verified models of ADARE's matching, caching and synchronisation code

Dafny models of the parts of ADARE whose behaviour is hardest to see from the code, with proofs.
`dafny verify dfyconfig.toml` checks the whole project.

| file | models |
|---|---|
| `EditDistance.dfy`, `FuzzyMatch.dfy` | the OCR server's Levenshtein table, similarity ratio and greedy missing-character matcher |
| `CsvOutput.dfy` | the CSV text of OCR results, and a reader that follows section 2 of RFC 4180 |
| `Boxes.dfy`, `Suppression.dfy`, `Aggregation.dfy`, `Sorting.dfy` | IoU, non-maximum suppression and the aggregation of detections over all methods |
| `TransparentTrim.dfy`, `DecodeMemo.dfy` | cropping transparent padding, and the per-request memo of decoded images |
| `DigestCache.dfy`, `DigestCalls.dfy` | the SHA256 sidecar cache, as interleaved small steps and as single calls |
| `ReferenceCache.dfy`, `ReferenceManagers.dfy`, `ReferenceRuns.dfy` | the object cache of `ReferenceManager`: operations, class, runs over a changing store |
| `SocketClient.dfy`, `WebSocketClients.dfy` | the reconnecting WebSocket client as an event machine and as a class |
| `WorkspaceTree.dfy`, `WorkspaceResult.dfy`, `WorkspaceRerun.dfy`, `WorkspaceOutcome.dfy`, `WorkspaceSync.dfy` | pruning and syncing the allow-listed workspace copy: one round, a whole run, a second run, every path after every run, and the methods |
| `ScreenSettling.dfy` | `wait_stable` and its frame comparison |

Code that loops or updates fields is a method or a class here; each such method is tied to a
function of its inputs or its old state, and the theorems are about that function. Things the code
takes from outside are parameters: case folding (`lower`), the image codec, the hash function, the
clock, the database, the browser, the source tree, and the order in which NumPy's sort leaves equal
scores (every theorem holds for any descending order).

## What holds only under a condition

Some promises of the documentation are false of the code. For each one the project gives a concrete
failing case and says exactly when the code does meet the promise.

- Digest cache, recording. `record_file_sha256` called with a digest and no stat files the digest under
  the fingerprint the file has by then. If the file changed after the digest was taken, later answers
  are wrong, even with one call at a time. Recording is safe if and only if the digest is that of the
  content at that stat (`DigestCache.RecordingSafeIffTruthful` for `fresh_cached_sha256`,
  `DigestCache.SerialRecordingSafeIffTruthful` for `cached_file_sha256` without concurrent calls); the
  failing runs are `DigestCache.WrongFreshAnswer` and `DigestCache.WrongSerialAnswer`. The next item,
  and every row below that calls recordings truthful, assumes just this of them.
- Digest cache, hits. `cached_file_sha256` takes the stat before it loads the sidecar. A second caller
  whose file changes while it hashes can file a wrong digest under the old fingerprint in between, and
  the first caller then returns it (`DigestCache.WrongHit`). Hits of callers that saw fingerprint `st`
  on a file that now has `now` are all true if and only if `st == now`
  (`DigestCache.HitsTrueIffFileUnchanged`). With truthful recordings all hits are true when calls do
  not overlap (`DigestCache.SerialHitsAreTrue`), and all answers of `fresh_cached_sha256`, which loads
  first, are true in any interleaving (`DigestCache.FreshHitsAreTrue`).
- Digest cache, foreign sidecars. The check for a foreign sidecar and the replacement are two steps.
  A foreign file that appears between them is overwritten (`DigestCache.ForeignFileLost`), and only
  then (`DigestCache.ForeignLostIffCheckedBefore`).
- Reference cache, size limit. `int(max * 0.2)` is zero for a maximum below five, so nothing is ever
  evicted (`ReferenceCache.LimitExceeded`); the limit is kept if and only if the maximum is at least
  five or nothing had to go (`ReferenceCache.BoundKeptIffMaximumAtLeastFive`).
- WebSocket client, keep-alive. Calling `disconnect` and `connect` again before the old socket's close
  event arrives leaves the new connection open without pings and with a reconnect armed
  (`SocketClient.QuickReconnectLosesPings`). Of all events, with whatever calls their handlers make,
  exactly one kind ends the pings of an open connection: the close of another socket whose handlers do
  not disconnect (`SocketClient.PingsLostIffOrphanCloses`).
- Workspace sync. A dangling symbolic link at an allowed directory is not removed, because `exists()`
  follows links, and makes `copytree` fail; a directory at an allowed file receives the copy inside
  it; a link at an allowed file that leads back to the file to be copied makes `copy2` fail
  (`WorkspaceSync.ObstaclesInTheWay`), and a link to another file is written through. For links that
  lead nowhere, back to that file, or outside both trees, a sync succeeds and every allowed path reads
  like the source if and only if no dangling link is at an allowed directory, and no directory, link to
  one, or link back at a supplied file (`WorkspaceResult.ReadPromiseKeptIffReadable`); it leaves plain
  copies if and only if there is no link of any kind at a supplied file either
  (`WorkspaceResult.PromiseKeptIffClean`).
- Screen settling. The documentation speaks of the share of bytes that differ; the code looks at every
  seventh byte only, which goes wrong in both directions
  (`ScreenSettling.SamplingIsNotTheShareOfBytes`). For two non-empty frames of one size it follows the
  documentation at every tolerance if and only if seven times the differing samples is the number of
  differing bytes (`ScreenSettling.DocumentedIffSamplesRepresentative`).
- Missing characters. Only the pattern and the text are folded, not the allowed characters, so listing
  `A` does not help a case-insensitive match (`FuzzyMatch.UpperCaseAllowanceFails`). Two lists, such as
  the one given and the same one folded, lead to the same verdicts on every text if and only if they
  agree on the characters of the folded pattern (`FuzzyMatch.AllowanceMattersIffInPattern`).
- Trimming. The documentation says a fully transparent image is returned as it is; the code returns a
  single transparent pixel (`TransparentTrim.TransparentReplaced`), so the promise holds if and only if
  the image is that pixel already (`TransparentTrim.TransparentReturnedIffMinimal`).

Three more places are easily misread. The class documentation calls the reference cache LRU, but use
plays no part in eviction, which goes by the time an entry was set. The next new key of a full cache
evicts the entry set first, even one looked up a moment before (`ReferenceCache.LookedUpIsEvicted`),
while one never used may stay (`ReferenceCache.NotLeastRecentlyUsed`); what does hold is that no evicted
entry was set later than a kept one (`ReferenceCache.EvictedAreOldest`). The `all_suppressed` answer of
the aggregation cannot occur (`Aggregation.SomethingSurvives`). A negative `max_results` drops that many
of the worst rows (`Aggregation.LimitKeepsTheBest`).

## Model

| member | source | states |
|---|---|---|
| EditDistance.LevenshteinDistance | adare-cv-server/adare_cv_server/ocr_processing.py:241-286 | for all strings and any case folding, the in-place table ends with the length of a shortest script of single-character insertions, deletions and substitutions |
| EditDistance.DistanceIsShortestScript | adare-cv-server/adare_cv_server/ocr_processing.py:265-286 | some script is as long as the table's value and none is shorter |
| EditDistance.CellIsMinimumOfNeighbours | adare-cv-server/adare_cv_server/ocr_processing.py:275-284 | copying the diagonal on equal characters still yields the minimum over all three neighbours |
| EditDistance.ScriptsAreNoShorter | adare-cv-server/adare_cv_server/ocr_processing.py:244-245 | every edit script has at least as many edits as the distance |
| EditDistance.Symmetric | adare-cv-server/adare_cv_server/ocr_processing.py:265-286 | the distance does not depend on the direction |
| EditDistance.ZeroOnlyForEqual | adare-cv-server/adare_cv_server/ocr_processing.py:259-261 | zero exactly for equal strings, so the early exit changes nothing |
| EditDistance.TriangleInequality | adare-cv-server/adare_cv_server/ocr_processing.py:265-286 | going through a third string is never shorter |
| EditDistance.Bounds | adare-cv-server/adare_cv_server/ocr_processing.py:265-286 | the distance lies between the length difference and the longer length |
| EditDistance.RatioRange | adare-cv-server/adare_cv_server/ocr_processing.py:289-315 | the ratio is in 0..1, symmetric, and 1 exactly for strings equal after folding |
| EditDistance.RatioCountsEdits | adare-cv-server/adare_cv_server/ocr_processing.py:289-315 | the ratio times the longer length is the number of characters of it that a shortest edit script leaves alone |
| EditDistance.EarlyExitsAgree | adare-cv-server/adare_cv_server/ocr_processing.py:304-315 | the early exits return what the formula gives, for all strings not both empty |
| FuzzyMatch.MatchWithMissing | adare-cv-server/adare_cv_server/ocr_processing.py:361-396 | the greedy scan accepts exactly when some embedding of the text in the pattern skips only allowed characters and at most the permitted number |
| FuzzyMatch.Match | adare-cv-server/adare_cv_server/ocr_processing.py:318-403 | missing-character mode decides whenever it is on, otherwise the similarity threshold if given, otherwise no match |
| FuzzyMatch.WithinLimits | adare-cv-server/adare_cv_server/ocr_processing.py:383-396 | the final checks hold exactly when every missing character is allowed and the count is within the limit |
| FuzzyMatch.GreedyGetsFurthest | adare-cv-server/adare_cv_server/ocr_processing.py:367-376 | no embedding of any prefix of the text gets further than the greedy scan |
| FuzzyMatch.SkippedIsPatternMinusText | adare-cv-server/adare_cv_server/ocr_processing.py:374-376 | every embedding skips the same multiset, the pattern minus the text |
| FuzzyMatch.EmbeddingsAgree | adare-cv-server/adare_cv_server/ocr_processing.py:383-396 | if one embedding passes the checks, all do |
| FuzzyMatch.EmbedsIffDistanceIsLengthDifference | adare-cv-server/adare_cv_server/ocr_processing.py:363-381 | the text embeds in the pattern exactly when their edit distance equals the difference of the lengths |
| FuzzyMatch.AcceptanceFixesDistance | adare-cv-server/adare_cv_server/ocr_processing.py:391-396 | acceptance makes the edit distance equal the number of missing characters, hence at most max_missing |
| FuzzyMatch.AcceptedIff | adare-cv-server/adare_cv_server/ocr_processing.py:345-396 | acceptance without embeddings: by edit distance, number of missing characters, and which of them occur in the string or in some item of the list; an unsupported value allows none |
| FuzzyMatch.AnyCharacterMode | adare-cv-server/adare_cv_server/ocr_processing.py:345-347 | with any character allowed, acceptance is a condition on the edit distance alone |
| FuzzyMatch.AllowanceMattersIffInPattern | adare-cv-server/adare_cv_server/ocr_processing.py:348-359 | two lists of allowed characters give the same verdict for every text and limit exactly when they agree on the characters of the folded pattern |
| FuzzyMatch.UpperCaseAllowanceFails | adare-cv-server/adare_cv_server/ocr_processing.py:348-359 | with A allowed to be missing, the folded pattern abc does not match bc; with a it does |
| CsvOutput.FormatCsvOutput | adare-cv-server/adare_cv_server/ocr_processing.py:743-754 | the printed text, read by the rules of RFC 4180, is the header and exactly the printed rows |
| CsvOutput.RoundTrip | adare-cv-server/adare_cv_server/ocr_processing.py:749-752 | reading undoes printing for texts with any quotes, commas and line breaks |
| CsvOutput.Unambiguous | adare-cv-server/adare_cv_server/ocr_processing.py:743-754 | two different result lists are never printed alike, down to the integers |
| CsvOutput.ReadEscaped | adare-cv-server/adare_cv_server/ocr_processing.py:750-751 | doubling quotes is undone by a reader inside a quoted field |
| CsvOutput.DecimalRoundTrip | adare-cv-server/adare_cv_server/ocr_processing.py:752 | printed integers read back as themselves and need no quoting |
| CsvOutput.DecimalIsCanonical | adare-cv-server/adare_cv_server/ocr_processing.py:752 | printed integers have no leading zero, and a sign exactly when negative |
| CsvOutput.ColumnsReadBack | adare-cv-server/adare_cv_server/ocr_processing.py:743-754 | column by column: the header, then text, x, y and confidence of every item as they were |
| CsvOutput.OnlyTheTextIsQuoted | adare-cv-server/adare_cv_server/ocr_processing.py:749-752 | the text of a row is always quoted and nothing else in the row is |
| Boxes.IouCountsCells | adare-cv-server/adare_cv_server/image_processing.py:569-611 | for non-negative sizes the IoU is the number of cells in both boxes over the number in either, 0 if there are none |
| Boxes.CellsAreCentred | adare-cv-server/adare_cv_server/image_processing.py:581-592 | a box reaches as far to one side of its centre as to the other, up to the odd column or row |
| Boxes.IouRange | adare-cv-server/adare_cv_server/image_processing.py:578-580 | the IoU is in 0..1, and 1 exactly for coinciding non-empty boxes |
| Boxes.IouSymmetric | adare-cv-server/adare_cv_server/image_processing.py:569-611 | the order of the boxes does not matter, for any sizes |
| Suppression.NonMaximumSuppression | adare-cv-server/adare_cv_server/image_processing.py:480-566 | empty input gives nothing, mismatched lengths give the input back, otherwise the survivors of the greedy choice in input order |
| Suppression.SuppressedMask | adare-cv-server/adare_cv_server/image_processing.py:531-557 | the nested loops clear exactly the entries outside the greedy choice |
| Suppression.GreedyMeetsDefinition | adare-cv-server/adare_cv_server/image_processing.py:536-557 | an index is kept exactly when no kept one before it in the order conflicts with it |
| Suppression.GreedyChoiceUnique | adare-cv-server/adare_cv_server/image_processing.py:536-557 | only one set has that property for a given order |
| Suppression.KeptByIndex | adare-cv-server/adare_cv_server/image_processing.py:559-562 | the output holds the elements at the kept indices, all of them, in input order |
| Suppression.KeptDoNotOverlap | adare-cv-server/adare_cv_server/image_processing.py:488-490 | no two kept boxes overlap above the threshold |
| Suppression.SuppressedOverlapsBetter | adare-cv-server/adare_cv_server/image_processing.py:503-507 | every suppressed box overlaps a kept box of at least its score above the threshold |
| Suppression.TopIsKept | adare-cv-server/adare_cv_server/image_processing.py:488-490 | some box with the highest score of all is kept |
| Suppression.RerunChangesNothing | adare-cv-server/adare_cv_server/image_processing.py:536-562 | a second run on the kept boxes, in any descending order, keeps everything |
| Suppression.InputOrderIrrelevant | adare-cv-server/adare_cv_server/image_processing.py:530-562 | with distinct scores the kept boxes do not depend on the order of the input |
| Sorting.SortedIsPermutation | adare-cv-server/adare_cv_server/server.py:158-176 | the sort used for groups and results is an ascending permutation for its key |
| Sorting.SortedIsStable | adare-cv-server/adare_cv_server/server.py:158-176 | elements with equal keys keep their order |
| Aggregation.AggregateMatches | adare-cv-server/adare_cv_server/server.py:79-219 | the report lists, column by column, the limited ranking of the surviving locations, with the matching method_used |
| Aggregation.GroupByLocation | adare-cv-server/adare_cv_server/server.py:137-143 | each surviving location is mapped to all raw matches there, suppressed ones included, in input order |
| Aggregation.BuildRows | adare-cv-server/adare_cv_server/server.py:151-169 | one row per survivor, also when a location survives twice and its group is already sorted |
| Aggregation.RankedRowsAreExact | adare-cv-server/adare_cv_server/server.py:157-169 | a reported score is the maximum over all raw matches at its location, its method that of the earliest such match, its contributors exactly the methods seen there |
| Aggregation.EveryMatchIsAccountedFor | adare-cv-server/adare_cv_server/server.py:111-169 | before the limit each raw match has its location reported or overlaps, by more than half, a match of at least its score whose location is reported |
| Aggregation.ReportedLocationsAreTheSurvivors | adare-cv-server/adare_cv_server/server.py:151-169 | the locations of the rows are those of the survivors, each as often as it survived |
| Aggregation.RankingStartsWithTheBest | adare-cv-server/adare_cv_server/server.py:172-176 | the ranking is descending, not empty, and its first score is the best raw score of all |
| Aggregation.LimitKeepsTheBest | adare-cv-server/adare_cv_server/server.py:179-180 | a positive limit keeps that many best rows, zero keeps all, a negative one drops that many of the worst |
| Aggregation.SomethingSurvives | adare-cv-server/adare_cv_server/server.py:121-129 | suppression never drops everything, so that branch is dead |
| Aggregation.MethodUsedIsTheCommonOne | adare-cv-server/adare_cv_server/server.py:195-200 | method_used is the primary method all rows share, and otherwise says aggregated |
| Aggregation.WeightedScoreRange | adare-cv-server/adare_cv_server/server.py:32-62 | weighted scores of match counts and of similarities in 0..1 stay within 0 and the method's weight |
| Aggregation.CountsBecomeTwentieths | adare-cv-server/adare_cv_server/server.py:32-48 | a match count becomes twentieths up to 1, every other similarity stays |
| Aggregation.WeightsByRank | adare-cv-server/adare_cv_server/constants.py:87-93 | the known methods are a twentieth apart from 1 down, anything else weighs as much as the last |
| Aggregation.SizeOfMatch | adare-cv-server/adare_cv_server/server.py:65-114 | a detection with a size keeps it; one without gets each side of the icon times its scale, rounded towards zero |
| Aggregation.AtLocationByIndex | adare-cv-server/adare_cv_server/server.py:137-143 | the matches at a location are all those of the input there, in its order |
| Aggregation.KeptOverlapByHalfAtMost | adare-cv-server/adare_cv_server/server.py:114-119 | two different survivors, with their own sizes, overlap by half at most |
| Aggregation.TiesKeepOrder | adare-cv-server/adare_cv_server/server.py:172-176 | rows of equal score stay in the order of the survivors |
| TransparentTrim.BoxIsTight | adare-cv-server/adare_cv_server/image_processing.py:201-216 | the box fits the image, contains every visible pixel and lies inside every box that does |
| TransparentTrim.TrimKeepsContent | adare-cv-server/adare_cv_server/image_processing.py:204-238 | cropping keeps every pixel of the box under the shift and drops only transparent ones; in all other cases the exact result is stated |
| TransparentTrim.TrimByAlpha | adare-cv-server/adare_cv_server/image_processing.py:201-238 | in alpha values alone: an image with a tight box of at least ten by ten is cut to it pixel by pixel, with a smaller one it stays, and without a visible pixel it becomes one transparent pixel |
| TransparentTrim.TightBoxExists | adare-cv-server/adare_cv_server/image_processing.py:211-216 | every image with a visible pixel has such a box |
| TransparentTrim.OnlyAlphaIsTrimmed | adare-cv-server/adare_cv_server/image_processing.py:188-199 | a picture that cannot be read or has no alpha channel is handed back |
| TransparentTrim.TrimIdempotent | adare-cv-server/adare_cv_server/image_processing.py:204-238 | trimming twice is trimming once, also below the minimum size and for fully transparent images |
| TransparentTrim.TrimPictureIdempotent | adare-cv-server/adare_cv_server/image_processing.py:188-238 | the same with undecodable pictures and pictures without alpha |
| TransparentTrim.TransparentReturnedIffMinimal | adare-cv-server/adare_cv_server/image_processing.py:177-209 | a fully transparent image is returned as it was exactly when it is the minimal one already |
| TransparentTrim.TransparentReplaced | adare-cv-server/adare_cv_server/image_processing.py:177-209 | two transparent pixels are replaced by one |
| DecodeMemo.DecodeContext.Imdecode | adare-cv-server/adare_cv_server/image_processing.py:33-49 | the result is a new array equal to decoding the bytes, never a memo entry; the codec is consulted only for keys not in the memo |
| DecodeMemo.Run | adare-cv-server/adare_cv_server/image_processing.py:20-49 | any run of decodes, in-place modifications and nested shared blocks agrees with decoding afresh on independent images |
| DecodeMemo.RunFromScratch | adare-cv-server/adare_cv_server/image_processing.py:20-49 | the same from a new context, with all held images distinct arrays |
| DecodeMemo.ResultsAreDecodings | adare-cv-server/adare_cv_server/image_processing.py:36-38 | every result of the reference run is the decoding of the bytes asked for, whatever was modified before |
| DecodeMemo.SharedBlocksAreInvisible | adare-cv-server/adare_cv_server/image_processing.py:20-31 | in any run of the reference a shared block can be replaced by its operations |
| DecodeMemo.StepTouchesOneImage | adare-cv-server/adare_cv_server/image_processing.py:33-49 | a decode adds its image, a modification changes the one value it names, and no other image changes |
| DigestCache.StepKeepsInv | adare/adare/helperfunctions/digest_cache.py:58-124 | every step of any interleaving keeps the invariant: what is filed or read under the current fingerprint of the file belongs to its content; a digest recorded with a stat taken then must be truthful |
| DigestCache.UnchangedHitIsTrue | adare/adare/helperfunctions/digest_cache.py:115-121 | with truthful recordings, a hit is the true digest whenever the file did not change between the call's stat and its load |
| DigestCache.HitsTrueIffFileUnchanged | adare/adare/helperfunctions/digest_cache.py:115-121 | among concurrent callers with truthful recordings, all hits for a stat are true if and only if the file still has that fingerprint |
| DigestCache.WrongHit | adare/adare/helperfunctions/digest_cache.py:113-124 | a run of two callers and one writer that ends in a wrong hit |
| DigestCache.TornRead | adare/adare/helperfunctions/digest_cache.py:111-124 | a file that changes between two reads has the digest of the mixture filed, under the fingerprint it lost |
| DigestCache.SerialHitsAreTrue | adare/adare/helperfunctions/digest_cache.py:98-124 | without concurrent callers and with truthful recordings every hit is true, however writers interleave |
| DigestCache.FreshHitsAreTrue | adare/adare/helperfunctions/digest_cache.py:88-95 | loading before the stat makes every answer true in every interleaving whose recordings are truthful |
| DigestCache.RecordingSafeIffTruthful | adare/adare/helperfunctions/digest_cache.py:76-85 | after recording a known digest without a stat, every later answer of fresh_cached_sha256 is true, in every continuation with truthful recordings, if and only if the digest is that of the content at the stat taken then |
| DigestCache.SerialRecordingSafeIffTruthful | adare/adare/helperfunctions/digest_cache.py:76-85 | the same for cached_file_sha256 when calls do not overlap |
| DigestCache.SpoiledEntryNeverMatchesAgain | adare/adare/helperfunctions/digest_cache.py:113-114 | in a state reached with truthful recordings, an entry whose digest is not that of the content its fingerprint stood for never matches a later stat, whatever follows |
| DigestCache.LostFingerprintStaysLost | adare/adare/helperfunctions/digest_cache.py:7-10 | a fingerprint the file has lost never comes back |
| DigestCache.OnlyLateForeignIsOverwritten | adare/adare/helperfunctions/digest_cache.py:60-69 | in every run, before a replacement that destroys a foreign sidecar that file was put down after the last check of the call |
| DigestCache.ForeignLostIffCheckedBefore | adare/adare/helperfunctions/digest_cache.py:12-14 | callers can destroy a foreign sidecar put in place now exactly when some call stands between check and replacement |
| DigestCache.ForeignFileLost | adare/adare/helperfunctions/digest_cache.py:60-69 | a run in which a foreign file put down between check and replacement is overwritten |
| DigestCalls.HashedFile.LoadSidecar | adare/adare/helperfunctions/digest_cache.py:41-55 | a missing, unreadable, unparsable or foreign file gives no entry and an object with our format and a textual digest gives its members; present says whether there is a file |
| DigestCalls.EntryByMembers | adare/adare/helperfunctions/digest_cache.py:41-55 | member by member, which files are entries for a fingerprint and digest, and which are foreign |
| DigestCalls.HashedFile.WriteSidecar | adare/adare/helperfunctions/digest_cache.py:58-73 | leaves a foreign or unwritable sidecar as it is, otherwise what it writes is read back as the entry given |
| DigestCalls.HashedFile.RecordFileSha256 | adare/adare/helperfunctions/digest_cache.py:76-85 | files the digest in lower case; afterwards the cache is honest exactly when the stat is out of date or the lowered digest is the file's |
| DigestCalls.HashedFile.FreshCachedSha256 | adare/adare/helperfunctions/digest_cache.py:88-95 | answers exactly on a matching entry, truly if the cache is honest |
| DigestCalls.HashedFile.CachedFileSha256 | adare/adare/helperfunctions/digest_cache.py:98-124 | returns the lowered digest of the content and keeps the cache honest; afterwards the sidecar is the entry for that digest and fingerprint, unless it is foreign or not writable, and a hit leaves it untouched |
| DigestCalls.UninterruptedCall | adare/adare/helperfunctions/digest_cache.py:98-124 | run without interruption, the small steps give the answer and sidecar of the method |
| DigestCalls.UninterruptedRecording | adare/adare/helperfunctions/digest_cache.py:76-85 | run without interruption, recording with an earlier stat files the digest of the content unless the sidecar is foreign |
| ReferenceCache.KeysNeverCollide | adare/adare/database/reference_manager.py:267-361 | two lookups share a cache key only for the same kind and id |
| ReferenceCache.GetEffect | adare/adare/database/reference_manager.py:54-79 | an answer exactly for an entry younger than the time to live; an older one leaves both dictionaries; everything else stays |
| ReferenceCache.SetEffect | adare/adare/database/reference_manager.py:81-94 | the entry is there with its time; if there are then too many, a fifth of the maximum goes, no newer entry before an older one, and the rest is unchanged |
| ReferenceCache.SetKeepsOrder | adare/adare/database/reference_manager.py:81-94 | the entries that stay keep their insertion order, a new key comes last |
| ReferenceCache.TiesGoInOrder | adare/adare/database/reference_manager.py:90-91 | of entries set at the same time those inserted first go first |
| ReferenceCache.LookupEffect | adare/adare/database/reference_manager.py:322-349 | a hit changes nothing, a miss without an object removes the entry, and an object from the store is entered with its value and the time |
| ReferenceCache.OccursIff | adare/adare/database/reference_manager.py:111 | a pattern is in a key when the key is something, the pattern, and something |
| ReferenceCache.SetKeepsBoundAndKey | adare/adare/database/reference_manager.py:81-94 | after a set both dictionaries have the same keys, the size is within a maximum of at least five, the key just set is there and all other entries are old ones unchanged |
| ReferenceCache.EvictedAreOldest | adare/adare/database/reference_manager.py:87-93 | no evicted entry is newer than a surviving one |
| ReferenceCache.LookedUpIsEvicted | adare/adare/database/reference_manager.py:62-94 | in a full cache the next new key evicts the entry set first although it was just looked up, and nothing else for a maximum below ten |
| ReferenceCache.NotLeastRecentlyUsed | adare/adare/database/reference_manager.py:62-94 | a run of five sets, a lookup of the first and a sixth set evicts the entry looked up and keeps one never used |
| ReferenceCache.BoundKeptIffMaximumAtLeastFive | adare/adare/database/reference_manager.py:88-93 | a set keeps the size limit exactly when the maximum is at least five or nothing had to go |
| ReferenceCache.LimitExceeded | adare/adare/database/reference_manager.py:88-93 | with a maximum of one, two sets leave two entries |
| ReferenceCache.SmallMaximumNeverEvicts | adare/adare/database/reference_manager.py:89-91 | for a maximum from zero to four, a set is a plain insertion |
| ReferenceRuns.AnswersAreRecentStoreValues | adare/adare/database/reference_manager.py:62-115 | in every run an object returned was the store's value for that kind and id at a fetch less than the time to live ago or just now, with no covering invalidation since |
| ReferenceRuns.EventKeepsInv | adare/adare/database/reference_manager.py:62-115 | store changes, clock ticks, lookups and invalidations keep every cached entry backed by such a fetch |
| ReferenceRuns.NoAnswerMeansNothingThere | adare/adare/database/reference_manager.py:257-283 | a lookup answers None exactly when there is no unexpired entry and the store gives nothing |
| ReferenceManagers.ReferenceManager.CacheGet | adare/adare/database/reference_manager.py:62-79 | returns an unexpired value and otherwise removes the entry from both dictionaries |
| ReferenceManagers.ReferenceManager.CacheSet | adare/adare/database/reference_manager.py:81-94 | the new dictionaries are those of the value model, evicting exactly the oldest entries |
| ReferenceManagers.ReferenceManager.InvalidateCache | adare/adare/database/reference_manager.py:96-115 | clears everything, or deletes the matching keys one by one |
| ReferenceManagers.InvalidatedKeys | adare/adare/database/reference_manager.py:110-114 | exactly the keys containing the pattern go, all other entries stay as they were |
| ReferenceManagers.PrefixInvalidatesKind | adare/adare/database/reference_manager.py:96-115 | invalidating with the key prefix of a kind drops every object of that kind |
| ReferenceManagers.ReferenceManager.GetObject | adare/adare/database/reference_manager.py:322-349 | cache, then store; failures and missing objects give None and cache nothing |
| SocketClient.EveryRunIsSafe | adare-web/src/services/websocket.ts:34-83 | on every run at most one reconnect timer and one ping interval are armed, each the one its field names, and once connected and not manually closed something will still happen |
| SocketClient.EventKeepsInv | adare-web/src/services/websocket.ts:34-178 | every event keeps the invariant, whatever handlers call in between |
| SocketClient.NothingAfterDisconnect | adare-web/src/services/websocket.ts:75-84 | from any reached client that is manually closed, no socket is constructed until the next call of connect |
| SocketClient.DisconnectTakesEffect | adare-web/src/services/websocket.ts:61-84 | a disconnect, also one by a handler while a callback still has to decide about reconnecting, leaves the client manually closed with no reconnect armed unless a connect follows it in the same event |
| SocketClient.QuickReconnectLosesPings | adare-web/src/services/websocket.ts:61-69 | a run that ends with an open connection without pings |
| SocketClient.PingsLostIffOrphanCloses | adare-web/src/services/websocket.ts:34-178 | of all events with any handlers, exactly the close of another socket while the connection is open, with no disconnect among its handlers, breaks the rule that an open connection has pings |
| SocketClient.OrderlyRunsKeepOneSocket | adare-web/src/services/websocket.ts:34-83 | if callers and handlers call connect only when nothing is outstanding, and close handlers not at all, there is at most one live socket and an open connection always has pings, whatever disconnects they make |
| SocketClient.ManualCloseClosesEverything | adare-web/src/services/websocket.ts:75-84 | after an orderly run that ends manually closed every socket is closing or gone |
| SocketClient.ManualCloseNeedsDisconnect | adare-web/src/services/websocket.ts:39-84 | a client that was never told to disconnect is not manually closed |
| SocketClient.ConnectEffect | adare-web/src/services/websocket.ts:34-41 | an open connection is left alone; otherwise there is one new socket, the client's own, and nothing else changes |
| SocketClient.DisconnectEffect | adare-web/src/services/websocket.ts:75-84 | the client's socket starts closing, no other socket changes, both timers are cleared and the socket is forgotten |
| SocketClient.OpenEffect | adare-web/src/services/websocket.ts:42-45 | the socket is open and a fresh ping interval is the only one |
| SocketClient.CloseHandlersRunBeforeReconnect | adare-web/src/services/websocket.ts:61-69 | handlers run with the socket gone and the pings stopped; what they leave decides whether a reconnect is armed |
| SocketClient.FireEffect | adare-web/src/services/websocket.ts:163-168 | a fired timer is spent, then the client does what connect does |
| WebSocketClients.WebSocketClient.Connect | adare-web/src/services/websocket.ts:34-41 | keeps an open socket, otherwise constructs one and clears the manual flag, and keeps the invariant |
| WebSocketClients.WebSocketClient.Disconnect | adare-web/src/services/websocket.ts:75-84 | stops both timers, starts closing the socket and forgets it |
| WebSocketClients.WebSocketClient.OnOpen | adare-web/src/services/websocket.ts:42-45 | restarts the pings before the handlers run |
| WebSocketClients.WebSocketClient.OnClose | adare-web/src/services/websocket.ts:61-69 | stops the pings, runs the handlers, then reconnects unless closed manually by then |
| WebSocketClients.WebSocketClient.OnReconnectTimer | adare-web/src/services/websocket.ts:163-168 | a fired timer connects and is no longer armed |
| WorkspaceTree.PruningIsExact | adare/install/copy_appdata.py:70-79 | exactly the entries that are allowed, below an allowed one, or real directories on the way to one are left, unchanged |
| WorkspaceTree.DirectorySyncedIffNotDangling | adare/install/copy_appdata.py:95-100 | an allowed directory ends as the filtered source subtree, or absent, exactly when no dangling link was there |
| WorkspaceTree.FileSyncedIffPlain | adare/install/copy_appdata.py:101-105 | an allowed file ends as a plain copy in the tree itself exactly when a plain file or nothing was there |
| WorkspaceTree.FileReadIffNothingInTheWay | adare/install/copy_appdata.py:101-105 | reading an allowed file, through a link outside both trees if there is one, gives the content of its source afterwards exactly when no directory, no link to one and no link back to the file being copied was there |
| WorkspaceResult.SyncIsExact | adare/install/copy_appdata.py:82-105 | the entry at every path after a sync of a clean tree |
| WorkspaceResult.PromiseKeptIffClean | adare/install/copy_appdata.py:82-105 | a sync succeeds and leaves plain copies of the source at all allowed paths exactly when the destination was clean |
| WorkspaceResult.ReadPromiseKeptIffReadable | adare/install/copy_appdata.py:82-105 | for links that lead nowhere, back to the copied file or outside both trees, a sync succeeds and all allowed paths read like the source exactly when no dangling link was at an allowed directory and no directory or link back at a supplied file |
| WorkspaceOutcome.SyncSucceedsIff | adare/install/copy_appdata.py:82-105 | in terms of the two trees alone: a sync succeeds exactly when no dangling link is where the source has a directory and each supplied file finds a place that is neither a directory nor itself |
| WorkspaceOutcome.DirectoryIsFilteredCopy | adare/install/copy_appdata.py:93-100 | after every successful sync, a path at or below an allowed directory is there exactly when the source has that directory and that path and no name on the way is ignored, and then as in the source; only a dangling link with no directory in the source stays |
| WorkspaceOutcome.FileIsWritten | adare/install/copy_appdata.py:101-105 | after every successful sync, a supplied file is in its place, behind the link there, or inside the directory there, and nothing else at or below its path has changed |
| WorkspaceOutcome.RestIsDirectories | adare/install/copy_appdata.py:70-105 | after every successful sync, all other paths hold real directories: those that lead to something copied, and old ones on the way to allowed paths |
| WorkspaceRerun.NothingElseRemains | adare/install/copy_appdata.py:82-105 | after every successful sync, whatever was there before, nothing is left outside the allowed paths but real directories on the way to them |
| WorkspaceRerun.SyncIsIdempotent | adare/install/copy_appdata.py:82-105 | after every successful sync, whatever was there before, a second sync succeeds and changes nothing |
| WorkspaceRerun.ResultIsWellFormed | adare/install/copy_appdata.py:82-105 | every successful sync between well-formed trees leaves a well-formed tree: each entry lies in a real directory |
| WorkspaceSync.WorkspaceListIsAllowList | adare/install/copy_appdata.py:24-31 | the configured paths are not nested, so all of this applies to them |
| WorkspaceSync.Destination.Remove | adare/install/copy_appdata.py:63-67 | rmtree of a real directory and unlink of anything else alike leave nothing at or below the path and every other entry as it was, and keep the tree well formed |
| WorkspaceSync.Destination.Prune | adare/install/copy_appdata.py:70-79 | the recursion with its deletion loop leaves the pruned tree, in whatever order entries are visited |
| WorkspaceSync.Destination.SyncWorkspace | adare/install/copy_appdata.py:82-105 | fails or ends with the tree of the value model; it leaves plain copies exactly for clean destinations and, for links back or outside both trees, reads like the source exactly for readable ones |
| WorkspaceSync.ObstaclesInTheWay | adare/install/copy_appdata.py:95-105 | a dangling link at skills, a directory at uv.lock, or a link there back to the source, and the sync with the configured list does not do its job |
| ScreenSettling.WaitStable | scripts/gui-install/qmp_drive.py:184-221 | true exactly when some poll in time ends an unbroken similar run of at least settle with min_elapsed passed, at the first such poll; false only after the deadline; it terminates |
| ScreenSettling.SimilarIff | scripts/gui-install/qmp_drive.py:210-212 | frames are similar exactly when lengths agree and seven times the differing samples stays below the tolerated share |
| ScreenSettling.DiffsCountOffsets | scripts/gui-install/qmp_drive.py:229-230 | the count is the number of sampled offsets at which the frames differ |
| ScreenSettling.SimilarCountsOffsets | scripts/gui-install/qmp_drive.py:210-231 | frames of one size are similar exactly when seven times the number of offsets divisible by seven at which they differ is below the tolerated share |
| ScreenSettling.UnsampledBytesAreIgnored | scripts/gui-install/qmp_drive.py:224-231 | frames that agree on every seventh byte are similar |
| ScreenSettling.SamplingIsNotTheShareOfBytes | scripts/gui-install/qmp_drive.py:192-197 | six of seven bytes may differ unnoticed, and one differing byte in seven thousand can be too many, each against the documented share |
| ScreenSettling.DocumentedIffSamplesRepresentative | scripts/gui-install/qmp_drive.py:192-231 | for all frames, the comparison agrees with the documented share of differing bytes at every tolerance exactly when the sizes differ, or the frames are not empty and seven times the differing samples is the number of differing bytes |

## Left out

- OpenCV, NumPy, PaddleOCR, CairoSVG and the image codecs: detections, scores and texts are arbitrary inputs, decoding is an arbitrary pure function, PNG encoding is taken to be lossless and to succeed.
- Floating point and machine integers: scores, ratios and times are reals, coordinates unbounded integers, and the 20 % to evict is the exact fifth rounded towards zero.
- Unicode case folding: an arbitrary function on strings. `TextMatcher` and the regular-expression modes are not modelled.
- CsvOutput.FormatCsvOutput: the printed form of a confidence is a given text without quotes, commas and line breaks; printing floats is not modelled.
- Boxes.IouCountsCells: says nothing about negative sizes, for which a box has no cells.
- Aggregation.AggregateMatches: contributing methods are a set, since the code lists them in no particular order; logging is omitted.
- TransparentTrim.TrimKeepsContent: background compositing, which the configuration switches off, and failures of encoding are not modelled.
- DigestCache.Do: assumes every change of the file gives a fingerprint it never had, that only these callers write entries in their format, and that replacing the sidecar is one step; the shared temporary file name is not modelled.
- DigestCalls.HashedFile.LoadSidecar: numbers in a sidecar are integers; Python's equality of numbers with floats and truth values is not modelled.
- ReferenceRuns.Happen: fetch and set are one step with one reading of the clock; the five lookup methods differ in the kind only; later changes to a cached object by its users are not modelled.
- SocketClient.After: message payloads, handler registration and a failing socket constructor.
- WorkspaceTree.SyncDirectory: the destination root exists as a directory; the source is a tree of files and directories as read through its links; a link in the destination leads nowhere, back to the file that is copied onto it, or to a file or directory of its own outside both trees, so links to other files of the source, which a sync would overwrite, are not modelled; the file a dangling link names can be created; permissions, file times, glob syntax and partial copies after an error are not modelled.
- ScreenSettling.WaitStable: termination needs a clock that advances by at least a positive `poll` per round; the screen dump itself is an input.
- `install_appdata`, the `validate_*` and `get_projects_using_*` queries, `feature_matching.py`, `backoff.py`, the CLI, the web pages and the VM plumbing: they would add easy members only.
