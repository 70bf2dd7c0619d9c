# scannetChecker in Dafny

A model of the ScanNet sequence checker, `SensReader/c++/src/scannetChecker.cpp`.
The checker reads ScanNet `.sens` recordings. For each recording it reports
three things:

- whether the depth timestamps are available and never decrease;
- the same for the color timestamps;
- how many camera poses are illegal, meaning the bottom row of the 4x4
  camera-to-world matrix is not exactly `0 0 0 1`.

Given a dataset root named `scans`, it looks in every scene directory
for the file `<scene>/<scene>.sens`. It folds the verdicts of these
files into a report of seven counters.

Modules, in the order of the program:

- `Basics`: `u64`, `Option`, `Result`.
- `Timestamps`: the per-stream tracker from lines 45-66 and the three-way
  verdict from lines 91-92. `StreamStatus` characterises the verdict by
  the timestamps themselves.
- `Pose`: matrix entries compared with IEEE 754 equality. NaN is unequal
  to everything, and the two zeros are equal. On top of that sits the
  legality test from line 70.
- `Sequence`: `analyze_sens`.
  - `Analyze` is the fold over the frames.
  - `AnalyzeSens` is the loop as the source writes it, with its seven local
    variables.
  - The lemmas give the verdict directly in terms of the frames.
- `Dataset`: the report counters (lines 115-121) and their update per scene
  (lines 132-147).
  - `AddScene` folds one scene into the report.
  - `Aggregate` folds a whole listing.
  - The lemmas show the counter relations and order independence.
- `Paths`: C++ `std::string` path handling.
  - `find_last_of` returns `npos` = 2^64-1 when the character is absent.
  - `npos + 1` wraps to 0, and `size() - 1` on an empty string wraps to `npos`.
  - On top of these sit the trailing-slash strip, the two input shapes and the
    name of the sequence file inside a scene.
- `Checker`: the flow of `main` once its argument is known.
  - The directory listing and the file contents are inputs.
  - A file that exists but cannot be loaded ends the run.
- `Scenarios`: concrete runs of the model on small inputs.

Two facts about the code that its names do not suggest:

- `valid_pose_num` (line 89) holds the number of frames, not the number
  of legal poses. `SeqStatus.validPoseNum` keeps that meaning.
- A sequence file that exists but cannot be loaded is not caught
  (lines 132-135, 154). The exception ends the run, so the model returns
  `Aborted(path)` and reports nothing.

## Model

| member | source | states |
|---|---|---|
| Timestamps.Track | SensReader/c++/src/scannetChecker.cpp:45-66 | after a stream, the tracker holds the last timestamp (0 for none); it is "available" iff some timestamp is positive, and "monotonic" iff no timestamp is below its predecessor |
| Timestamps.StreamStatus | SensReader/c++/src/scannetChecker.cpp:91-92 | NOT_AVAILABLE iff every timestamp is 0; GOOD iff one is positive and the stream never decreases; NOT_MONOTONIC iff one is positive and the stream decreases somewhere |
| Timestamps.RepeatKeepsStatus | SensReader/c++/src/scannetChecker.cpp:63-65 | a repeated timestamp is not a decrease: appending a copy of the last timestamp leaves the verdict unchanged |
| Timestamps.NotMonotonicIsFinal | SensReader/c++/src/scannetChecker.cpp:61-64 | once a stream is NOT_MONOTONIC, no later frames can make it available-and-monotonic again, because both flags only ever move one way |
| Pose.IsIllegal | SensReader/c++/src/scannetChecker.cpp:69-70 | a pose is illegal iff flat entries 12..15 differ from 0, 0, 0, 1 under IEEE equality; NaN in any of them is illegal |
| Pose.AnyDeviationIsIllegal | SensReader/c++/src/scannetChecker.cpp:70 | changing any one of entries 12..15 to a value other than its expected one makes the pose illegal, whatever the other fifteen entries hold |
| Sequence.ScanAllSound | SensReader/c++/src/scannetChecker.cpp:45-80 | the frame loop leaves the depth and color trackers equal to those of the depth and color streams; it counts exactly the frames with an illegal pose, which is at most the number of frames |
| Sequence.AnalyzeSound | SensReader/c++/src/scannetChecker.cpp:89-92 | `valid_pose_num` is the frame count; `invalid_pose_num` is the number of illegal frames and never exceeds it; each timestamp verdict is the status of its stream; a sequence with no frames gives 0, 0, NOT_AVAILABLE, NOT_AVAILABLE |
| Sequence.DepthStreamFacts | SensReader/c++/src/scannetChecker.cpp:59-63 | the depth stream is all zero, has a positive entry, or never decreases exactly when the frames' depth timestamps do |
| Sequence.ColorStreamFacts | SensReader/c++/src/scannetChecker.cpp:60-64 | the same for the color stream |
| Sequence.DepthVerdict | SensReader/c++/src/scannetChecker.cpp:59-66 | the depth verdict is NOT_AVAILABLE iff every frame's depth timestamp is 0, and GOOD iff some is positive and none is below the frame before it |
| Sequence.ColorVerdict | SensReader/c++/src/scannetChecker.cpp:59-66 | the same for the color timestamps |
| Sequence.AnalyzeSens | SensReader/c++/src/scannetChecker.cpp:44-92 | the imperative loop with the source's seven local variables computes the same status as the fold, and its invalid count is at most its frame count |
| Dataset.AddSceneEffect | SensReader/c++/src/scannetChecker.cpp:132-147 | a missing file raises only `no_sens_num`; an analysed scene raises `total_num` by one and the two pose totals by the scene's counts; `total_pose_valid_seq` rises by one exactly when the scene has no illegal pose, `total_timestamp_valid_seq` exactly when both verdicts are GOOD, `total_healthy_seq` exactly when both hold, and otherwise they stay; the relations healthy <= pose-valid <= total and healthy <= timestamp-valid <= total are kept |
| Dataset.AggregateWhere | SensReader/c++/src/scannetChecker.cpp:115-147 | after any listing, each of `no_sens_num`, `total_num`, `total_healthy_seq`, `total_pose_valid_seq` and `total_timestamp_valid_seq` is the number of positions whose scene meets that counter's condition |
| Dataset.AggregateCounts | SensReader/c++/src/scannetChecker.cpp:115-147 | after any listing the counter relations hold; `no_sens_num` is the number of missing scenes; `no_sens_num + total_num` is the number of entries; when every scene's invalid count fits its frame count, so does the total |
| Dataset.AggregateAppend | SensReader/c++/src/scannetChecker.cpp:126-148 | the report of two listings back to back is the counter-wise sum of their reports |
| Dataset.AggregatePermutation | SensReader/c++/src/scannetChecker.cpp:126-148 | the report depends only on the multiset of scene outcomes, not on the order the directory iterator yields them |
| Dataset.AllHealthyIff | SensReader/c++/src/scannetChecker.cpp:146-147 | the healthy count equals the analysed count iff every analysed sequence has no illegal pose and both timestamp verdicts GOOD |
| Paths.FindLastOf | SensReader/c++/src/scannetChecker.cpp:109 | `find_last_of` is `npos` iff the character is absent; otherwise it is an index of that character with none after it |
| Paths.AfterLast | SensReader/c++/src/scannetChecker.cpp:123 | `substr(find_last_of(c) + 1)` contains no `c`; it is the whole string when `c` is absent (npos + 1 wraps to 0), and otherwise the suffix after the last `c` |
| Paths.AfterLastIs | SensReader/c++/src/scannetChecker.cpp:123 | for a word `w` without `c`, the suffix after the last `c` is `w` iff the string is `w` or ends with `c` followed by `w` |
| Paths.StripAsWritten | SensReader/c++/src/scannetChecker.cpp:109-112 | the trailing-slash guard as written: when `find_last_of('/') == size() - 1` holds, one character is popped and the rest plus "/" gives the argument back |
| Paths.EmptyArgumentPassesSlashGuard | SensReader/c++/src/scannetChecker.cpp:109 | on the empty argument both sides of the guard are `npos`, so the guard holds and `pop_back` is reached on an empty string |
| Paths.StripTrailingSlash | SensReader/c++/src/scannetChecker.cpp:109-112 | the evidently intended strip: exactly one trailing '/' is removed when present, otherwise the argument is unchanged, empty included |
| Paths.StripAgrees | SensReader/c++/src/scannetChecker.cpp:109-112 | on every non-empty argument the corrected strip and the code as written agree |
| Paths.ScansComponent | SensReader/c++/src/scannetChecker.cpp:123 | the last path component is "scans" iff the path is "scans" or ends with "/scans" |
| Paths.SensExtension | SensReader/c++/src/scannetChecker.cpp:150 | the text after the last '.' is "sens" iff the path is "sens" or ends with ".sens" |
| Paths.ClassifyInput | SensReader/c++/src/scannetChecker.cpp:123-160 | after the strip, the argument is a dataset root iff it names a "scans" directory; otherwise it is a single sequence iff it ends in ".sens" (or is "sens"); every other argument is rejected |
| Paths.SensFileNameShape | SensReader/c++/src/scannetChecker.cpp:128-129 | the sequence file of a scene lies inside the scene directory, its name is the scene's last component plus ".sens", and its extension is "sens" |
| Paths.SceneSensFile | SensReader/c++/src/scannetChecker.cpp:128-129 | for the entry `dir/name` the expected file is `dir/name/name.sens` |
| Paths.SensFileIsSequenceInput | SensReader/c++/src/scannetChecker.cpp:128-150 | the file the dataset mode builds for a scene is accepted by single-sequence mode as that same file |
| Checker.SceneOfSound | SensReader/c++/src/scannetChecker.cpp:128-141 | one entry fails iff its sequence file exists but cannot be loaded, and the failure names that file; it is missing iff no file sits at the expected path; otherwise it carries the verdict of the stored frames |
| Checker.ScenesOkIff | SensReader/c++/src/scannetChecker.cpp:126-141 | the directory loop completes iff every entry is missing or loadable |
| Checker.ScenesOutcomes | SensReader/c++/src/scannetChecker.cpp:126-141 | a completed loop has one outcome per entry, in enumeration order, each the entry's own |
| Checker.ScenesFailure | SensReader/c++/src/scannetChecker.cpp:126-135 | an aborted loop names the sequence file of the first entry, in enumeration order, that exists but cannot be loaded; every earlier entry is loadable |
| Checker.ScenesSound | SensReader/c++/src/scannetChecker.cpp:126-148 | all three of the above together, plus: every verdict in a completed loop has no more illegal poses than frames |
| Checker.EntryOutcome | SensReader/c++/src/scannetChecker.cpp:128-146 | an entry's outcome is missing iff no file sits at its sequence path, analysed iff one does, and healthy, pose-valid or timestamp-valid iff the frames stored there give such a verdict |
| Checker.DatasetReportCounts | SensReader/c++/src/scannetChecker.cpp:115-147 | when every entry is loadable, `no_sens_num` counts the entries without a sequence file, `total_num` those with one, and the three sequence counters those whose stored frames are healthy, free of illegal poses, or GOOD on both streams |
| Checker.CheckInput | SensReader/c++/src/scannetChecker.cpp:108-174 | a run is rejected iff the argument has neither accepted shape; a dataset run finishes iff every entry is loadable, with the report folded from the entries' outcomes, keeping the counter relations, one counted scene per entry and no more invalid poses than frames; otherwise it stops at the first entry that cannot be loaded; a single-sequence run finishes iff its file loads, with the report at zero and that file's verdict, and otherwise stops at that file |
| Checker.ReturnsOneIffWrongShape | SensReader/c++/src/scannetChecker.cpp:156-174 | `main` returns 1 exactly when the argument is neither a dataset root nor a sequence file |
| Scenarios.DepthDropIsNotMonotonic | SensReader/c++/src/scannetChecker.cpp:61-92 | depth timestamps 100, 200, 150 give NOT_MONOTONIC while increasing color timestamps give GOOD |
| Scenarios.ZeroDepthIsNotAvailable | SensReader/c++/src/scannetChecker.cpp:61-91 | all-zero depth timestamps give NOT_AVAILABLE |
| Scenarios.NearlyOneIsIllegal | SensReader/c++/src/scannetChecker.cpp:70-72 | a last entry of 0.999999 makes the pose illegal: one invalid pose out of two frames |
| Scenarios.OneSceneMissing | SensReader/c++/src/scannetChecker.cpp:136-147 | two analysed scenes around a missing one give `no_sens_num` 1 and `total_num` 2 |
| Scenarios.BareSensIsSequenceFile | SensReader/c++/src/scannetChecker.cpp:150 | the bare argument "sens" is taken as a sequence file, since a string without '.' is its own extension |
| Scenarios.TrailingSlashDatasetRoot | SensReader/c++/src/scannetChecker.cpp:109-123 | "data/scans/" is the dataset root "data/scans" |
| Scenarios.DoubleSlashIsRejected | SensReader/c++/src/scannetChecker.cpp:109-160 | only one trailing slash is stripped, so "scans//" is rejected |
| Scenarios.ScansBeatsExtension | SensReader/c++/src/scannetChecker.cpp:123-150 | the dataset-root test comes first: "x.sens/scans" is a dataset root |

## Left out

- Console output (lines 32-42, 73-78, 82-87, 130, 138, 159, 164-172) is not modelled. This includes the colour escapes and the verbose flag. The counters the report prints are modelled.
- `ml::SensorData` and `sensorData.h` are not part of this model. A loaded file is given as its frames, which are depth timestamp, color timestamp and pose; the decoder itself is out of scope. A load failure is a `None` entry in `Files`.
- `std::filesystem::directory_iterator` is replaced by the `listing` input. Its enumeration order is unspecified, which is why `Dataset.AggregatePermutation` is stated. The exception it throws on a missing or unreadable root is not modelled.
- `std::filesystem::exists` is replaced by membership in `Files`.
- The argument-count check (lines 97-105) happens before the model starts. The optional second argument is never read by the code.
- Checker.CheckInput: the argument is classified after the corrected strip (`Paths.StripTrailingSlash`), so the empty argument is rejected (return value 1), where the code as written reaches `pop_back` on an empty string (see Findings).
- Paths.ClassifyInput: classifies the argument after the corrected strip, for the same reason, so it is total where the code as written is undefined on the empty argument.
- Checker.CheckInput: the report's independence from listing order is proved on the scene outcomes (`Dataset.AggregatePermutation`), not restated for listings and files, because that restatement only adds path bookkeeping.
- Dataset.AggregateCounts: the `size_t` counters are unbounded `nat`s. Wrap-around would need more than 2^64 scenes or frames.
- Pose.IsIllegal: floats are modelled only as far as `!=` sees them. No arithmetic is done on them.
- Paths.FindLastOf: paths shorter than `npos` are assumed (`Fits`), as a `std::string` cannot be longer.

## Findings

| source | as written | input that shows it | evidently intended | confidence | as-written member | corrected member |
|---|---|---|---|---|---|---|
| SensReader/c++/src/scannetChecker.cpp:109-112 | `if (filename.find_last_of("/") == filename.size()-1) filename.pop_back();` | the empty argument `""`: `find_last_of` gives `npos` and `size()-1` wraps to `npos`, so the guard holds and `pop_back` runs on an empty string (undefined behaviour) | remove one trailing '/' only when the argument ends with '/' | high, not executed | Paths.StripAsWritten, Paths.EmptyArgumentPassesSlashGuard | Paths.StripTrailingSlash, Paths.StripAgrees |
