# tofipa in Dafny

tofipa ("torrent file path") finds the download location of a torrent among
directories that may already hold its files. For each file the torrent
declares, it collects the existing files of the same size below the
configured locations. It ranks them by path similarity and keeps the three
best. Then it walks the combinations of these candidates with a lockable
Cartesian-product enumerator (the `Combinator`), verifying pieces until every
torrent file is confirmed or no combination is left. The location of the
first confirmed file is the answer, and one hard link is planned per
confirmed file. The configured locations come from a `Locations` list. It
reads a locations file, expands `<dir>/*` lines into subdirectories, replaces
`$NAME` by environment variables and rejects paths that are files.

The model, module by module:

- `Wrappers` (`wrappers.dfy`): `Option` and `Result`.
- `Collections` (`collections.dfy`): distinct sequences, Python's string
  order and `sorted` as a reference insertion sort, with its
  sorted-and-permutation and uniqueness lemmas.
- `Odometer` (`odometer.dfy`): the enumeration order of the `Combinator`. It is
  a mixed-radix counter whose first key is the most significant digit, and
  locked keys do not move. Without locks it is proved to be the nested-loop
  Cartesian product. With locks every move still goes strictly forward, and
  it ends exactly when no unlocked key can move.
- `Combinator` (`combinator.dfy`): the enumerator as a class over arrays
  (`cursor`, `locked`). `Next` is one pull of the iterator and `Lock` is
  `lock(*keys)`. Ghost state records which items each key has shown, so that
  "every candidate of an unlocked key has been offered" is provable when the
  enumeration ends.
- `Location` (`location.dfy`): the constructor's deduplication and check,
  the fallback chain of `find`, `os.path.join`, `_verify_file` and the
  temporary directory prefix.
- `Candidates` and `SizeMatching` (`candidates.dfy`):
  `_get_size_matching_candidates`. It has the walk, size matching, the stable
  sort by similarity and the cut to three. The double loop is proved against
  a reference definition that includes dictionary key order.
- `Download` (`driver.dfy`): the class `FindDownloadLocation` with
  `find` and the loop of `_get_download_location`. Its invariant says:
  - only candidates are verified;
  - a confirmed file is never verified again;
  - the links are exactly the accepted verifications;
  - the download location is the first confirmed one;
  - a file the search gives up on had every candidate rejected.

  The verifications are also tied to the enumeration: they are exactly the
  pairs of the assignments handed out, in order, less each file confirmed
  by then. The first assignment is at every key's first candidate. Each
  later one is the odometer's next position under the locks set after the
  one before, and those locks are exactly the files found before the search
  or confirmed since. The search stops at the first assignment after which
  every torrent file is confirmed. It fails when a found file is not a key,
  naming the least such file as the sorted lock does, and otherwise ends
  when no position is left. Two runs from the same
  inputs are the same run.
- `EnvVars` (`envvars.dfy`): `_resolve_env_vars`. It models the regex search
  for the left-most `$NAME`, `str.replace`, and the loop with its
  termination argument.
- `Config` (`config.dfy`): the class `Locations` with `_read`, `_normalize`,
  `insert`, `append`, `extend`, item and slice assignment and deletion. Each
  operation is a function on the list, and each method is proved against its
  function.

The filesystem, the environment, the torrent's contents and the piece
checks are inputs: functions or values passed to the operations.

## Model

| member | source | states |
|---|---|---|
| Collections.SortSortsAndPermutes | tofipa/_config.py:96 | `sorted` gives an ordered permutation of its input |
| Collections.SortedUnique | tofipa/_config.py:96 | two sorted sequences with the same elements are equal, so `sorted` has one answer |
| Collections.SortIgnoresOrder | tofipa/_config.py:96 | the order of the listing does not change the sorted result |
| Collections.SortedElements | tofipa/_location.py:121 | `sorted(self._found_files)`: a sorted, duplicate-free sequence holding exactly the set's elements |
| Odometer.StepKeepsLocked | tests/combinator_test.py:134-155 | a move keeps every cursor in bounds and never changes a locked key |
| Odometer.StepIncreases | tests/combinator_test.py:77-130 | a move goes strictly forward in the enumeration order, with or without locks |
| Odometer.StepIsSuccessor | tests/combinator_test.py:16-54 | without locks a move goes to the very next position; there is no move exactly at the last position |
| Odometer.StepIsRightmostBump | tests/combinator_test.py:77-92 | the right-most key that can move is the one that moves; the unlocked keys after it start over |
| Odometer.StepIsStuck | tests/combinator_test.py:96-110 | when no unlocked key can move, the enumeration ends |
| Odometer.StuckMeansNoneCarriable | tests/combinator_test.py:96-110 | when the enumeration ends, no unlocked key can move |
| Odometer.IndexBound | tests/combinator_test.py:16-54 | every in-bounds cursor vector is one of the product's positions |
| Odometer.IndexInjective | tests/combinator_test.py:16-54 | distinct cursor vectors are distinct positions, so no assignment repeats |
| Odometer.ProductAt | tests/combinator_test.py:16-54 | the product holds each cursor vector's picked items at that vector's position |
| Odometer.UnlockedTraceIsProduct | tests/combinator_test.py:9-54 | without locks the k-th assignment is the k-th element of the nested-loop product, and the enumeration stops after the last one |
| Odometer.TraceIndex | tests/combinator_test.py:16-54 | without locks the k-th move is at position k, until the product is exhausted |
| Combinator.Pairs | tests/combinator_test.py:16 | an assignment pairs every key, in insertion order, with its cursor's item |
| Combinator.KnownPrefix | tests/combinator_test.py:158-161 | how many names are keys before the first unknown one |
| Combinator.StuckCoversAll | tests/combinator_test.py:9-54 | at the end every item of every unlocked key has been shown |
| Combinator.Combinator.constructor | tests/combinator_test.py:9-15 | all cursors at the first item and nothing locked; an empty candidate list means no assignment at all |
| Combinator.Combinator.Next | tests/combinator_test.py:9-130 | the first pull gives every key's first item; each later pull takes one odometer step or ends; locks are untouched and the remaining count drops with each assignment |
| Combinator.Combinator.RightmostCarriable | tests/combinator_test.py:77-92 | finds the right-most key that can move, or -1 |
| Combinator.Combinator.Advance | tests/combinator_test.py:77-92 | the cursors become the bumped vector |
| Combinator.Combinator.Lock | tests/combinator_test.py:134-161 | locks the named keys, so their items no longer change; a name that is not a key fails with that name |
| Location.Dedup | tofipa/_location.py:32-35 | every location once, no location lost and none added |
| Location.DedupKeepsOrder | tofipa/_location.py:32-35 | the kept locations are in the order of their first occurrences |
| Location.DedupHead | tofipa/_location.py:32-35 | the first location given is the first one kept |
| Location.DedupOfDistinct | tofipa/_location.py:32-35 | distinct locations are kept as they are |
| Location.DedupIdempotent | tofipa/_location.py:32-35 | deduplicating twice changes nothing |
| Location.Configure | tofipa/_location.py:29-39 | an empty location list is the error; otherwise the deduplicated locations, and an empty default counts as none |
| Location.ChooseFallsBack | tofipa/_location.py:47-56 | `find` answers with the location found, else the default, else the first location given |
| Location.ChooseIsGiven | tofipa/_location.py:47-56 | the answer is a configured location or the default |
| Location.Join | tofipa/_location.py:112 | `os.path.join`: an absolute second part wins; otherwise both parts, in order |
| Location.JoinBelow | tofipa/_location.py:76 | a relative path joined to a directory lies below it |
| Location.VerdictValid | tofipa/_location.py:126-144 | a file is valid exactly when every checked piece is valid, including when there is no piece |
| Location.VerdictFirstFailure | tofipa/_location.py:134-143 | otherwise the answer is that of the first piece that is not valid |
| Location.VerifyFile | tofipa/_location.py:126-144 | the loop returns the verdict and stops right after the first invalid or unverifiable piece |
| Location.Sanitize | tofipa/_location.py:263-266 | same length; each character kept if allowed, else `_` |
| Location.SanitizeIsSafe | tofipa/_location.py:262-275 | the sanitised name holds no path separator |
| Location.SanitizeIdempotent | tofipa/_location.py:263-266 | a safe name is unchanged and sanitising twice changes nothing |
| Location.TempPrefix | tofipa/_location.py:269 | `tofipa.` + sanitised name + `.`, with its parts at their positions |
| Location.TempPrefixIsOneComponent | tofipa/_location.py:260-275 | the prefix is a single path component |
| Candidates.FileSize | tofipa/_location.py:213-220 | a size exactly for a readable non-directory, and it is that file's size |
| Candidates.EachFile | tofipa/_location.py:193-205 | every entry comes from a given location; a location that is not a directory is its own only entry |
| Candidates.LStripSep | tofipa/_location.py:155 | `lstrip(os.sep)`: the suffix left after the leading separators |
| Candidates.FirstHit | tofipa/_location.py:152-154 | the first walked file of the right size, or none |
| Candidates.SortBySimilaritySorted | tofipa/_location.py:177-178 | the ranking is ordered by non-increasing similarity and is a permutation of the matches |
| Candidates.SortBySimilarityStable | tofipa/_location.py:178 | candidates of equal similarity keep their walk order, as `list.sort` is stable |
| Candidates.BestIsTopThree | tofipa/_location.py:176-185 | at most three kept, ordered, drawn from the matches, and no dropped match is more similar than a kept one |
| Candidates.MatchesAreSizeMatches | tofipa/_location.py:152-174 | every candidate is a walked file of the right size, with its relative path and score |
| Candidates.MatchesNonEmpty | tofipa/_location.py:150-169 | a torrent file has candidates exactly when some walked file has its size |
| SizeMatching.CollectMatches | tofipa/_location.py:150-174 | per torrent file, a key exactly when some walked file matches; its list is every match in walk order; keys in order of first match |
| SizeMatching.RankAll | tofipa/_location.py:177-187 | same keys; every list is replaced by its three best |
| SizeMatching.GetSizeMatchingCandidates | tofipa/_location.py:146-187 | each torrent file with a size match maps to its three best matches; only torrent files are keys; dictionary order is first-match order |
| Download.Lists | tofipa/_location.py:105 | the candidate lists in key order, as the `Combinator` receives them |
| Download.Paths | tofipa/_location.py:151 | the torrent's file paths, in order |
| Download.Hardlinks | tofipa/_location.py:95-96 | one planned link per confirmed file, in confirmation order |
| Download.PlanHardlinks | tofipa/_location.py:95-96 | the loop over `links_to_create` plans exactly those links |
| Download.FindDownloadLocation.constructor | tofipa/_location.py:29-39 | no torrent read yet and no found files |
| Download.FindDownloadLocation.Create | tofipa/_location.py:29-39 | fails exactly on an empty location list; otherwise the configured settings |
| Download.FindDownloadLocation.Find | tofipa/_location.py:41-56 | a torrent error is reported and nothing is linked; otherwise the candidates are those of the size match, the answer is the first confirmed location (one of the configured ones), else the default, else the first location, the planned links are the confirmed files' links, the found files become the earlier ones plus the confirmed ones (after a lock failure too), a search failure is the unknown-key error naming the least earlier found file that is not a key, the search is the one `Run` from the earlier found files, a fresh object never fails, and when every file's first candidate is valid the answer is the first key's first candidate's location with one link per key |
| Download.FindDownloadLocation.GetDownloadLocation | tofipa/_location.py:58-121 | the search is a `Run` from the found files before it: the first assignment is at every key's first candidate, each later one at the odometer's next position under the locks after the ones before (the files found before the search or confirmed since), and only these are verified; it stops at the first assignment after which every file is confirmed; it fails exactly when, with a file unconfirmed, a file found before the search is not a key, naming the least such file in string order, with no links; otherwise it ends when the odometer has no position left under those locks; the result is the first confirmed location and one link per confirmed file; a file left unconfirmed had every candidate rejected; an all-valid first assignment settles the search |
| Download.FindDownloadLocation.Begin | tofipa/_location.py:59-65 | the combinator starts over the candidate lists with nothing verified |
| Download.FindDownloadLocation.Round | tofipa/_location.py:65-121 | one pass of the loop keeps its record (`Walked`): the assignment pulled is appended, at the first position or the odometer's next one under the locks in force; the pass ends the search done when none is left or every torrent file is confirmed, failed exactly when a found file is not a key (naming the least one), and otherwise leaves the locks equal to the files found before the search or confirmed since |
| Download.FindDownloadLocation.Pull | tofipa/_location.py:65-107 | pulls the first assignment, or the one at the odometer's next position after the current cursors under the current locks, and verifies it, extending the verifications by that assignment's; or reports that the odometer has no position left, changes nothing in the search, and every file neither confirmed nor found before the search had every candidate rejected; locks are untouched |
| Download.FindDownloadLocation.VerifyAssignment | tofipa/_location.py:67-87 | the assignment's verifications are appended, each pair ends up confirmed or rejected, found files only grow, and its rejected candidates are recorded |
| Download.FindDownloadLocation.ConfirmAssignment | tofipa/_location.py:67-83 | the assignment's verifications are appended in order, skipping confirmed files; found files become the earlier ones plus every confirmed file |
| Download.FindDownloadLocation.Locate | tofipa/_location.py:58-121 | the candidates are the size-matching ones, keyed in first-match order; the search is a `Run` from the earlier found files; the found files become the earlier ones plus the confirmed ones, after a lock failure too; the result is the first confirmed location with its links, or a lock failure naming the least file found earlier that is not a key; an all-valid first assignment gives that assignment's location and one link per key |
| Download.FindDownloadLocation.Walk | tofipa/_location.py:65-121 | the loop ends done or failed, and its record is a `Run`: the assignments handed out, each the next under the locks after the ones before; it went past an assignment only while some file was unconfirmed; it failed exactly when a found file is not a key, naming the least one; done without every file confirmed means the odometer had no position left |
| Download.FindDownloadLocation.Settle | tofipa/_location.py:90-121 | done exactly when every torrent file is confirmed (and then every key is linked); otherwise failed exactly when a found file is not a key, naming the least such file in string order, which was found before the search; otherwise every found file is a key and each key is locked exactly when it is a found file |
| Download.LinkedIffConfirmed | tofipa/_location.py:68-83 | a file has a planned link exactly when some verification confirmed it |
| Download.AllLinkedIffFound | tofipa/_location.py:90 | every torrent file has a link exactly when every one is confirmed |
| Download.LogStep | tofipa/_location.py:67-69 | handling pair `j` extends the assignment's verifications by that pair unless its file is already confirmed |
| Download.FirstVerifications | tofipa/_location.py:67-69 | on the first assignment, with distinct files, every pair is verified |
| Download.FirstFoundHead | tofipa/_location.py:71-73 | when the first verification succeeds, its location is the download location |
| Download.StopsAtFirst | tofipa/_location.py:90-92 | a first assignment that confirms every file is the only one verified |
| Download.FirstPairs | tofipa/_location.py:106 | the first assignment pairs every key with its first candidate |
| Download.FirstLinks | tofipa/_location.py:76 | after the first assignment alone, each key is linked to its first candidate |
| Download.FirstAssignmentSettles | tofipa/_location.py:65-98 | when every file's first candidate is valid, the search stops after the first assignment, the location is the first key's first candidate's location and every key links to its first candidate |
| Download.KeptGoing | tofipa/_location.py:90-92 | pulling another assignment keeps the stop rule when the last one left a file unconfirmed |
| Download.HandedStep | tofipa/_location.py:106-107 | the positions handed out keep starting at zero and moving forward |
| Download.TrailStep | tofipa/_location.py:65-92 | one more pass keeps the search's record: verifications, stop rule, and positions that move forward under whatever locks are in force |
| Download.PairsAreCandidates | tofipa/_location.py:106-117 | an assignment pairs each key with one of its own candidates |
| Download.AllKeysLinked | tofipa/_location.py:95-96 | when every key is linked there is one hard link per key |
| Download.FindDownloadLocation.LockFound | tofipa/_location.py:121 | `combinator.lock(*sorted(self._found_files))`: fails exactly when some found file is not a key, naming the least such file in string order (the first unknown name of the sorted list), one found before the search; otherwise every key's lock becomes its old lock or whether it is a found file, and nothing else changes |
| Download.FindDownloadLocation.Turn | tofipa/_location.py:65-121 | one pull and, if it gave an assignment, the end of the pass (`Turned`): the assignment is the first or the odometer's next under the current locks and is verified; no assignment ends the search done; otherwise done exactly when every file is confirmed, failed exactly when a found file is not a key, else the locks are exactly the found files |
| Download.FindDownloadLocation.Conclude | tofipa/_location.py:88-121 | with no assignment left the search is done and the locks are untouched; otherwise the end of the pass as `Settle` states it |
| Download.FindDownloadLocation.Draw | tofipa/_location.py:106-107 | `for pairs in combinator`: the first assignment, or the one at the odometer's next position under the locks, paired with the keys; or none, and then the odometer has no position left and every file neither confirmed nor found before the search had every candidate rejected |
| Download.FindDownloadLocation.VerifyNext | tofipa/_location.py:67-87 | with no assignment the search is unchanged; otherwise the verifications grow by exactly that assignment's, the bookkeeping stays consistent and the found files gain the confirmed ones |
| Download.FirstUnknownLeast | tofipa/_location.py:121 | in the sorted list of found files, the first name that is not a key is the least found file that is not a key, so `lock(*sorted(...))` fails on that one |
| Download.WalkStep | tofipa/_location.py:65-121 | one pass keeps the loop's record, with the assignment it pulled and its position appended |
| Download.SteppedStep | tofipa/_location.py:106-121 | an assignment at the odometer's next position under the locks after the assignments so far extends the stepped record |
| Download.LocksAfterPrefix | tofipa/_location.py:121 | a later assignment does not change the locks in force after the earlier ones |
| Download.LocksAreFound | tofipa/_location.py:121 | locking exactly the found files gives the locks after the assignments so far: the files found before the search or confirmed by the verifications |
| Download.StepsAgree | tofipa/_location.py:100-121 | two records stepped under the locks from the same inputs hand out the same first assignments at the same positions |
| Download.RunNoLonger | tofipa/_location.py:58-121 | no run from the same inputs goes on past another: the shorter one was done, failed or stuck where the longer one went on |
| Download.RunDeterministic | tofipa/_location.py:58-121 | two runs from the same inputs are the same: same assignments, positions, verifications and failure, so the contracts pin the search down completely |
| Download.Confirm | tofipa/_location.py:67-87 | the log grows by exactly the pairs whose file was not confirmed when reached, in order; each pair ends up confirmed or rejected; only files newly confirmed are added; nothing confirmed is lost |
| Download.ConfirmPair | tofipa/_location.py:68-87 | a confirmed file is skipped and nothing is verified; otherwise exactly this pair is verified and the file is added exactly when it is accepted |
| Download.Record | tofipa/_location.py:69-86 | a verification is logged; a success adds the link and sets the location if unset; a failure changes nothing else |
| Download.RejectKeeps | tofipa/_location.py:85-86 | a failed verification keeps the bookkeeping |
| Download.AcceptKeeps | tofipa/_location.py:69-83 | a successful one confirms the file with a link into the download location |
| Download.GaveUp | tofipa/_location.py:65-92 | with no assignment left, a file not locked beforehand that is still unconfirmed had all its candidates rejected |
| Download.AllConfirmed | tofipa/_location.py:90-92 | once every torrent file is confirmed, so is every key |
| Download.FirstFoundIn | tofipa/_location.py:71-73 | the download location is one of the locations the candidates come from |
| Download.RankedFromLocations | tofipa/_location.py:146-187 | a size-matched file keeps at least one candidate, each from a configured location |
| EnvVars.FindVar | tofipa/_config.py:106 | `re.search` finds the left-most `$NAME`, and none exactly when there is no match |
| EnvVars.VarName | tofipa/_config.py:106-110 | the greedy name after the `$`: a letter or underscore, then name characters, ending before a non-name character |
| EnvVars.Resolve | tofipa/_config.py:98-121 | an accepted path has no `$NAME` left; an unset variable is absent and an empty one is set to `""` |
| EnvVars.SubstituteShrinks | tofipa/_config.py:119 | each replacement removes a `$`, so the loop ends |
| EnvVars.ResolveIdempotent | tofipa/_config.py:98-121 | resolving a resolved path changes nothing |
| EnvVars.ResolveDollarFree | tofipa/_config.py:98-121 | a path without `$` comes back unchanged |
| EnvVars.LongerNameShadowed | tofipa/_config.py:106-119 | with only HOME set, `$HOME/$HOMEDIR` becomes `/h//hDIR`, because replacing `$HOME` also hits the head of `$HOMEDIR` |
| EnvVars.ResolveEnvVars | tofipa/_config.py:98-121 | the loop computes the resolution |
| Config.StripStart | tofipa/_config.py:46 | leading whitespace ends at the first non-space |
| Config.StripEnd | tofipa/_config.py:46 | trailing whitespace starts after the last non-space |
| Config.Strip | tofipa/_config.py:46 | a stripped line does not start or end with whitespace |
| Config.StripIsSlice | tofipa/_config.py:46 | only whitespace at the ends is removed |
| Config.Expand | tofipa/_config.py:72-80 | at most one path per listed name |
| Config.ExpandMembers | tofipa/_config.py:72-80 | the expansion is exactly the listed entries joined to the parent that are directories or do not exist |
| Config.ResolveAll | tofipa/_config.py:85-88 | on success, every path resolved in place |
| Config.ResolveAllFirstError | tofipa/_config.py:85-88 | the error is that of the first path that fails |
| Config.ResolveAllMembers | tofipa/_config.py:85-88 | the resolved paths are exactly the resolutions of the paths |
| Config.FirstNotDirectory | tofipa/_config.py:90-94 | the first existing non-directory, and none exactly when there is none |
| Config.Normalized | tofipa/_config.py:59-96 | errors carry the file path and line number passed in |
| Config.NormalizedSorted | tofipa/_config.py:84-96 | the result is sorted, holds no file and no `$NAME`, and is a permutation of the resolved paths |
| Config.NormalizedPlain | tofipa/_config.py:81-96 | a line without `/*` is the line resolved, or the resolution error, or the not-a-directory error |
| Config.NormalizedGlob | tofipa/_config.py:63-96 | a `<dir>/*` line stands for exactly the resolved listed entries that are directories or missing |
| Config.ExpandListing | tofipa/_config.py:72-80 | the expansion loop computes the expansion |
| Config.ResolveEach | tofipa/_config.py:85-88 | the comprehension computes the resolution of every path |
| Config.CheckDirectories | tofipa/_config.py:90-94 | the check loop finds the first existing non-directory |
| Config.Normalize | tofipa/_config.py:59-96 | `_normalize` computes its specification |
| Config.LineEntries | tofipa/_config.py:46-48 | a blank or comment line names nothing; an error names its file and line number |
| Config.ConcatOk | tofipa/_config.py:41-48 | without an error every line's locations are there and nothing else |
| Config.ConcatFirstError | tofipa/_config.py:41-48 | an error is the first line's error |
| Config.LineResults | tofipa/_config.py:45 | line `k + 1` is numbered from one |
| Config.EntriesFromKeptLines | tofipa/_config.py:40-57 | every location comes from a kept line with its 1-based number, and every location of every kept line is present |
| Config.EntriesFirstError | tofipa/_config.py:40-57 | a failure is the first failing line, a kept line, reported with its number |
| Config.ReadFailures | tofipa/_config.py:49-55 | only a missing default file is ignored; any other failure names the file |
| Config.Read | tofipa/_config.py:40-57 | `_read` computes its specification |
| Config.ReadLine | tofipa/_config.py:45-48 | one pass of the loop extends the result by one line |
| Config.InsertPosition | tofipa/_config.py:139 | `list.insert`: negative counts from the end, both ends clamp |
| Config.ItemPosition | tofipa/_config.py:134 | `list[index]`: the element meant, or `IndexError` exactly when out of range |
| Config.SliceEnd | tofipa/_config.py:131 | a slice end defaults, counts from the end and clamps |
| Config.SliceBounds | tofipa/_config.py:131 | a slice never ends before it starts |
| Config.FirstIsLeast | tofipa/_config.py:133-139 | a single value stands for its least normalised path; a glob standing for nothing is an `IndexError` |
| Config.Inserted | tofipa/_config.py:136-139 | fails exactly when the value does; otherwise its path at the insert position, the rest unchanged |
| Config.Assigned | tofipa/_config.py:132-134 | a value error first; otherwise `IndexError` exactly when out of range; otherwise only that element changes |
| Config.Deleted | tofipa/_config.py:144-145 | `IndexError` exactly when out of range; otherwise the element is removed |
| Config.InsertThenDelete | tofipa/_config.py:136-145 | deleting what was inserted gives the list back |
| Config.ValueResults | tofipa/_config.py:128-130 | each value's normalised paths, in order |
| Config.SliceAssigned | tofipa/_config.py:126-131 | fails exactly when a value does; otherwise the slice is replaced by every path of every value |
| Config.NormalizedAllKeepsEvery | tofipa/_config.py:126-131 | every normalised path of every value is stored |
| Config.Heads | tofipa/_config.py:25-31 | on success, each explicit location's first path, in order |
| Config.HeadsPrefixErr | tofipa/_config.py:25-31 | once an explicit location fails, the whole fails the same way |
| Config.AppendIsInsertAtEnd | tofipa/_config.py:136-139 | `append` puts the value's path at the end |
| Config.InitialOrder | tofipa/_config.py:25-31 | explicit locations first, one path each, then every location of the file |
| Config.Locations.constructor | tofipa/_config.py:25-27 | an empty list for the file path |
| Config.Locations.Create | tofipa/_config.py:25-31 | the new list is the specified initial list, or its error |
| Config.Locations.Extend | tofipa/_config.py:30 | appends each value's path; on failure the values before the first failing one stay appended |
| Config.Locations.Insert | tofipa/_config.py:136-139 | the list becomes the inserted list; unchanged on error |
| Config.Locations.Append | tofipa/_config.py:136-139 | the value's path is appended; unchanged on error |
| Config.Locations.SetItem | tofipa/_config.py:132-134 | the list becomes the assigned list; unchanged on error |
| Config.Locations.SetSlice | tofipa/_config.py:126-131 | the slice is replaced by the values' paths; unchanged on error |
| Config.Locations.DeleteItem | tofipa/_config.py:144-145 | the element is deleted; unchanged on `IndexError` |

## Left out

- The `Combinator` implementation (`tofipa/_combinator.py`) is not part of this model. Its behaviour is modelled from its tests (`tests/combinator_test.py`): insertion order, the last key fastest, `lock` before and during iteration, and the error for an unknown key.
- Reading the torrent with torf, `TorrentFileStream` and piece hashing are outside the model. The piece answers of `_verify_file` are an input, one list per torrent file and candidate. The model assumes these answers depend only on the file and its candidate. `get_absolute_piece_indexes(file, (1, -2))` leaves out a file's first and last piece, but for a short file the pieces checked can still be shared with a neighbouring file, whose candidate in the same assignment then affects the answer; the model does not capture that.
- Filesystem effects are inputs or plans. These are the symlinks in the temporary directory, its creation and removal, and `os.makedirs`. The hard-link/symlink fallback is out too, and `_create_hardlink` is modelled as a list of `(source, target)` pairs.
- `_get_path_similarity` (difflib's ratio) is an opaque input `sim` with real values; the model only uses that it is totally ordered.
- `os.walk` and `os.listdir` are inputs: the walk order and listing order are whatever the input says.
- `functools.lru_cache` on `_is_size_match` is a cache with no effect on results, and `_debug` logging is output only; both are out.
- `os.path.expanduser` is the identity, because the home directory is not part of the model.
- EnvVars.Resolve: requires that no environment value contains `$`. The source's loop does not terminate on such a value when the variable refers to itself, so the model states this assumption instead of a fuel bound.
- Config.Locations.SetItem: only a single path at an integer index. An iterable assigned at an integer index stores the whole normalised list as one element (tofipa/_config.py:131), which the model's list of paths cannot hold, so it is out. A string assigned to a slice is out too: Python splits it character by character.
- Config.Locations.SetSlice: extended slices (with a step) are out.
- `readlines` and the file's text decoding are out: the file is given as its lines, or as the `OSError` raised on opening or reading it.
- Download.FindDownloadLocation.ConfirmAssignment: adds the confirmed files to `_found_files` once after the assignment rather than one by one inside it. Nothing reads `_found_files` inside that loop, so the state after the assignment is the same.
- Combinator.Combinator.Lock: that the names before an unknown key stay locked is an assumption about the implementation, which is not part of this model; the tests only fix the error that names the unknown key.
- Combinator.Combinator.constructor: that zero keys yield exactly one empty assignment is an assumption (the Python product of no lists); no test covers it.
- Download.FindDownloadLocation.Find: requires the torrent's file paths to be distinct, as they are in a valid torrent.
- `tofipa/_errors.py` is not part of this model; errors are datatypes carrying the message parts the source builds.
- `__repr__`, `__eq__`, `__getitem__`, `__len__` and the `filepath` property of `Locations` are plain delegation to the list and are not modelled separately.
- `tofipa/_cli.py` (argument parsing, client configuration, output) and `tofipa/__init__.py` are outside the core.
