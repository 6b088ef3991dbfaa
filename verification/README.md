# VeloTheHelo collector core in Dafny

VeloTheHelo drives Velociraptor artifact collections on a remote Windows
host. For each artifact it works through the same steps:

- it writes a collector spec from a template;
- it builds a collector executable with the Velociraptor binary;
- it pushes the collector, runs it and pulls the resulting archives back;
- it normalises the extracted results, which covers renaming the `%2F`
  names, reading the host's BasicInformation, stamping every JSON result
  line with the host description and with epoch copies of the time fields,
  and validating the result.

This project models that core in Dafny and proves properties of the model.
Each part keeps the form of the code it models:

- **Spec generators** (`collector_manager.py`, `test_one_by_one.py`):
  classes whose methods write into a map of written files.
- **`CollectorManager` bookkeeping:** a class. Its `status` record and
  `artifact_stats` lists are fields that the methods update. The per-artifact
  and per-file loops are `for` loops with invariants.
- **Text, JSON and file-system passes:** functions over values. A loop in
  the source becomes a method proved equal to a function, and the function's
  properties are proved as lemmas.

The remote host, the file system, subprocesses and the clock are not
modelled as state. Wherever the code consults one of them, its outcome is a
parameter. For example, `BuildEnv` says whether the spec exists, what the
Velociraptor process returned and whether the copy worked, and a `decode`
function says what reading a file under an encoding gives.

Modules:

- `Text`, `Paths`, `Json`, `Wrappers`: Python string operations (`replace`,
  `strip`, `split`, `join`, `lower`), POSIX `os.path` helpers, JSON values
  and an `Option` type.
- `Template`: `find_section_markers`, the spec layout and `try_read_file`.
  These are shared by both spec generators.
- `SpecGenerator`, `OneByOne`: the two `SpecFileGenerator` classes, and
  `generate_all_specs` and `create_collector` of `test_one_by_one.py`.
- `Names`: collection archive names, `%2F` desanitising and source types.
- `Renaming`: the two `rename_files_in_directory` passes over a tree of
  paths.
- `SystemInfo`: extracting the host description from BasicInformation.
  `collector_manager.py` keeps the last occurrence of a key and
  `process_zip_files.py` keeps the first.
- `Enrichment`, `Timestamps`, `Calendar`, `Validation`: stamping result
  lines, epoch timestamps, a proleptic Gregorian calendar for
  `%Y-%m-%dT%H:%M:%SZ`, and `check_process_single_zip`.
- `ZipPipeline`: `process_single_zip` of `process_zip_files.py`.
- `Status`, `Bookkeeping`: `update_status`, artifact statistics,
  `process_single_artifact`, `process_artifact_combination`,
  `run_batch_mode`, `pull_files_by_pattern` and `stop_processing`.
- `Transport`: `verify_file_integrity`, `get_remote_file_hash`,
  `check_execution_output`, `build_collector_exe` and the listing parse of
  `pull_files_by_pattern`.

When the listing of `pull_files_by_pattern` is empty, the code posts
"No files found matching pattern: …" and returns `False`
(collector_manager.py:1507-1509); `Transport.PullSucceeds` states this.

## Model

| member | source | states |
|---|---|---|
| Template.FindSectionMarkers | collector_manager.py:72-92 | end marker = first line holding the end phrase and not the start phrase; start marker = last line holding the start phrase before it; -1 for a marker not found |
| Template.MarkersOrdered | collector_manager.py:72-92 | when both markers are found, start < end < number of lines |
| Template.EndIsFirst | test_one_by_one.py:56-68 | the end marker is the first end line: if line i is one and no earlier line is, the end marker is i (or -1 when there is none) |
| Template.StartIsLast | test_one_by_one.py:56-68 | if line s is a start line and no later one precedes the end marker, the start marker is s |
| Template.ArtifactBlocksAt | collector_manager.py:181-184 | each artifact yields exactly two lines, its entry line and the `All` line, in input order |
| Template.ArtifactBlocksSnoc | collector_manager.py:182-184 | adding one artifact appends exactly its two lines |
| Template.SpecContentLayout | collector_manager.py:172-189 | a spec is template[..start+2] + the artifact blocks + the client-info block + template[end..], and its length is the sum of those parts |
| Template.BuildSpecContent | test_one_by_one.py:75-80 | the loop builds header + artifact blocks + client-info block + footer |
| Template.RegenerateFromSpec | collector_manager.py:94-147 | generating a spec from a generated spec finds the same markers again and gives the same spec for new artifacts, so generated specs can serve as templates |
| Template.SpecSplice | collector_manager.py:172-189 | the generated lines sit exactly between the header and the footer |
| Template.SpecFilenameDots | collector_manager.py:132-133 | the spec file name stem has no `.` left, since every dot of the artifact name becomes `_` |
| Template.ReadWithFallback | collector_manager.py:42-70 | the result is the first encoding, in the order UTF-16, UTF-8, latin1, ascii, that decodes the file; no encoding decodes when it reports none; an I/O error under UTF-16 escapes |
| Template.TryReadFile | test_one_by_one.py:28-54 | the loop over the encodings computes exactly that fallback |
| SpecGenerator.SpecFileGenerator.constructor | collector_manager.py:31-40 | a fresh generator has written nothing and has no template encoding |
| SpecGenerator.SpecFileGenerator.CreateSpecFile | collector_manager.py:94-147 | an unreadable template or missing markers gives no file; otherwise exactly one file `single_artifact_spec_<name>.yaml` is written with the spliced layout and the template's encoding |
| SpecGenerator.SpecFileGenerator.CreateCombinedSpecFile | collector_manager.py:149-206 | the same for several artifacts under `<spec_name>.yaml` |
| OneByOne.ArtifactListMembers | test_one_by_one.py:133 | a name is listed iff it is the non-empty stripped form of some line |
| OneByOne.ArtifactListOfListing | test_one_by_one.py:129-133 | reading back a file of stripped names, one per line, gives exactly those names |
| OneByOne.SpecFileGenerator.constructor | test_one_by_one.py:22-26 | a fresh generator has written nothing |
| OneByOne.SpecFileGenerator.CreateSpecFile | test_one_by_one.py:70-97 | a successful write stores the header + one artifact block + footer under the artifact's path; a failed one changes nothing |
| OneByOne.SpecFileGenerator.GenerateAllSpecs | test_one_by_one.py:99-157 | a missing input, an unreadable file, missing markers or no artifacts give 0 and no file; otherwise the count of successful writes is returned and exactly those files are added |
| OneByOne.SpecFileGenerator.CreateSpecFiles | test_one_by_one.py:141-144 | the loop counts one per successful write and adds to the output directory exactly the files of those writes, each from its own artifact |
| OneByOne.CountWritesAll | test_one_by_one.py:141-144 | the count equals the number of artifacts iff every write succeeds |
| OneByOne.WriteSpecsCovers | test_one_by_one.py:141-144 | every successfully written artifact has its spec file |
| OneByOne.WriteSpecsOrigin | test_one_by_one.py:141-144 | every file after the loop was there before or was written for a successful artifact |
| OneByOne.CreateCollector | test_one_by_one.py:164-202 | a collector path is returned iff the collectors directory is ready and the command exits with 0; the path is the collectors directory plus `<spec stem>_collector.exe` |
| OneByOne.CollectorForGeneratedSpec | test_one_by_one.py:171-179 | the collector for a generated spec is `single_artifact_spec_<artifact with dots as _>_collector.exe` |
| OneByOne.SpecFilenameStem | test_one_by_one.py:83-85 | the spec's stem is `single_artifact_spec_` + the artifact name with dots as `_` |
| Names.ExtractFilenameInfo | process_zip_files.py:23-31 | `Collection--<fqdn>--<timestamp>.zip` with a greedy fqdn; no match iff no split fits the pattern |
| Names.GreedyGroups | collector_manager.py:686-692 | when the longest fitting fqdn ends at i, the result is that fqdn and the timestamp after it |
| Names.CollectionNameRoundTrip | collector_manager.py:686-692 | for a non-empty fqdn and timestamp without line breaks, where the timestamp neither starts with `-` nor holds `--`, the name built from them parses back to them |
| Names.Desanitize | process_zip_files.py:63 | no `%2F` is left after replacing `%2F` by `.` |
| Names.DesanitizeIdempotent | collector_manager.py:707 | desanitising twice is desanitising once |
| Names.DesanitizePlain | process_zip_files.py:61-63 | a name without `%2F` is unchanged |
| Names.SourceType | collector_manager.py:773-778 | the source type is the last dot-separated part of the name without `.json`, and has no dot |
| Names.SourceTypeAfterRename | collector_manager.py:773-778 | renaming `%2F` to `.` does not change the source type |
| Renaming.Target | collector_manager.py:707-708 | the new name stays in the same directory and has no `%2F`; a plain name is kept |
| Renaming.RenameStepValid | collector_manager.py:712 | renaming an entry keeps the tree well formed: every entry's parent is a directory |
| Renaming.RenameStepInjective | collector_manager.py:709-712 | when the target is free, no two entries end up at the same path |
| Renaming.DeepestFirst | collector_manager.py:724 | the order is a permutation of the listed directories with the deepest first |
| Renaming.DirectoriesStayUntilTheirTurn | collector_manager.py:724-737 | in deepest-first order, every directory is still at its path when its turn comes |
| Renaming.EncodedEntries | collector_manager.py:699-702 | exactly the listed files (or directories) whose name holds `%2F` |
| Renaming.RenameFilesInDirectory | collector_manager.py:694-737 | files first, then directories deepest first, each skipped when its target exists |
| Renaming.CollectorPassClean | collector_manager.py:694-737 | when every `%2F` file is listed and the targets are free, no file name keeps a `%2F` and the tree stays well formed |
| Renaming.CollectorPassRenamesAll | collector_manager.py:694-737 | when, in addition, every `%2F` directory is listed once in the second scan and its target is free, not a file's target and not another directory's, no directory name keeps a `%2F` either |
| Renaming.DirPassClean | collector_manager.py:724-737 | renaming the `%2F` directories deepest first, each in place with a free target of its own, leaves no directory name with `%2F` |
| Renaming.WalkRenameMissesNested | process_zip_files.py:51-81 | with any fuel, the top-down walk renames `a%2Fb` and never visits `a.b`, so `a.b/x%2Fy` keeps its name, on a tree where the pass above leaves no `%2F` name |
| SystemInfo.SearchLast | collector_manager.py:759-768 | the recursive search computes the last-wins description |
| SystemInfo.ExtractSystemInfo | collector_manager.py:754-771 | the description holds only the wanted keys, and its value is the last occurrence of each |
| SystemInfo.LastWinsKeys | collector_manager.py:754-771 | the search adds no key other than the wanted ones |
| SystemInfo.LastWinsOverrides | collector_manager.py:754-771 | what was already collected is overwritten only by later findings |
| SystemInfo.LastOccurrenceWins | collector_manager.py:761-762 | a later occurrence of a wanted key replaces an earlier one |
| SystemInfo.SearchFirst | process_zip_files.py:112-121 | the recursive search computes the first-wins description |
| SystemInfo.CollectSystemInfo | process_zip_files.py:99-124 | only wanted keys, never a null value, the first non-null occurrence of each |
| SystemInfo.FirstWinsGrows | process_zip_files.py:113-115 | a found key is never changed or dropped |
| SystemInfo.FirstWinsAppend | process_zip_files.py:99-124 | searching two parts is searching the first, then the second |
| SystemInfo.FirstOccurrenceWins | process_zip_files.py:113-115 | the first non-null value of a wanted key is the one kept |
| SystemInfo.NullNeverKept | process_zip_files.py:124 | no null value is ever kept |
| SystemInfo.ProcessBasicInformation | collector_manager.py:739-752 | a description exists iff the file exists and parses to an object, and it holds only wanted keys |
| SystemInfo.ZipBasicInformation | process_zip_files.py:268-282 | a truthy non-object document raises; a description is reported only when it is non-empty and came from an object |
| Enrichment.EnrichRecord | collector_manager.py:801-803 | the keys become the old keys + the description's keys + `source_type`; the description's values win; the source type is set when the description lacks one; other values are kept |
| Enrichment.EnrichRecordIdempotent | collector_manager.py:801-803 | stamping a record twice is stamping it once |
| Enrichment.EnrichLines | collector_manager.py:795-806 | blank lines are dropped; invalid lines are kept in order; every object carries the description and the source type |
| Enrichment.EnrichLinesAppend | collector_manager.py:795-806 | the pass works line by line: it distributes over concatenation |
| Enrichment.EnrichLinesIdempotent | collector_manager.py:795-806 | the output of the pass is a fixed point of the pass |
| Enrichment.EnrichSingle | collector_manager.py:795-806 | blank is dropped, an object is stamped, invalid text is kept |
| Enrichment.UpdateLines | collector_manager.py:795-808 | a non-object JSON line aborts the file; otherwise the loop gives the stamped lines |
| Enrichment.EnrichFileIdempotent | collector_manager.py:780-814 | stamping a file twice is stamping it once |
| Enrichment.EnrichResults | collector_manager.py:780-814 | every file is stamped on its own, and none is added or dropped |
| Enrichment.EnrichResultsIdempotent | process_zip_files.py:203-247 | stamping the result directory twice is stamping it once |
| Enrichment.UpdateJsonWithSystemInfo | collector_manager.py:780-814 | with a results directory, every file is stamped with the description and its source type; without one, nothing changes |
| Enrichment.UpdateJsonFiles | process_zip_files.py:203-247 | the same, without the source type |
| Calendar.DaysBeforeNextMonth | collector_manager.py:849-856 | the day count of a month start grows by the month's length |
| Calendar.EpochCountsSeconds | collector_manager.py:849-856 | the epoch of the next second is one more |
| Calendar.EpochOrigin | collector_manager.py:849-856 | 1970-01-01T00:00:00Z is epoch 0 |
| Calendar.ParseFormat | collector_manager.py:852 | parsing the formatted `%Y-%m-%dT%H:%M:%SZ` text of a valid date gives that date |
| Calendar.ConvertIsoToEpoch | collector_manager.py:849-856 | a value iff the text parses, and then it is the parsed date's seconds since the epoch |
| Calendar.ConvertFormatted | collector_manager.py:849-856 | converting a formatted date gives its epoch |
| Timestamps.EpochKeyInjective | collector_manager.py:871 | distinct keys get distinct `_epoch` keys |
| Timestamps.StampFixed | collector_manager.py:867-872 | the loop over the fixed time keys computes the fixed stamping |
| Timestamps.FixedPassConverts | collector_manager.py:868-871 | each fixed key holding a convertible timestamp string gets `<key>_epoch` = its epoch, replacing any value already there |
| Timestamps.FixedPassKeeps | collector_manager.py:867-872 | every other key keeps its value |
| Timestamps.FixedPassLines | collector_manager.py:858-883 | a line that makes the pass raise aborts the file; otherwise the loop gives the stamped lines |
| Timestamps.AddEpochTimestamps | collector_manager.py:858-883 | an unreadable file or a pass that raises leaves the file as it was; otherwise the file is rewritten with the stamped lines, under the same name |
| Timestamps.DetectInRecord | collector_manager.py:896-905 | the loop over the keys computes the detected stamping and reports whether it converted anything |
| Timestamps.DetectRecordEffect | collector_manager.py:896-905 | every eligible time key gets its epoch copy; old keys are kept; every new key is an epoch copy of an eligible key |
| Timestamps.DetectLeavesNothing | collector_manager.py:896-905 | after the pass no key is still eligible |
| Timestamps.DetectPassLines | collector_manager.py:885-916 | a non-object line aborts the file; otherwise the stamped lines, with `conversions_made` true iff some line had an eligible key |
| Timestamps.DetectAndConvertTimestamps | collector_manager.py:885-916 | the file is rewritten only when the pass succeeds and converted something; otherwise it is left as it was |
| Timestamps.DetectFileIdempotent | collector_manager.py:885-916 | the detecting pass run twice is the pass run once |
| Timestamps.AddTimestampsToJsonFiles | collector_manager.py:816-847 | with a results directory, each file goes through the fixed pass and then the detecting pass; without one, nothing changes |
| Validation.Missing | collector_manager.py:656 | exactly the required keys that are absent |
| Validation.Empty | collector_manager.py:663-666 | exactly the required keys present with an empty value |
| Validation.RecordIssuesNone | collector_manager.py:645-665 | a record raises no issue iff it has the file's source type and every required key with a non-empty value |
| Validation.LinesIssuesNone | collector_manager.py:643-675 | a file's lines raise no issue iff every line is a good record |
| Validation.AllIssuesNone | collector_manager.py:635-679 | no issue at all iff no file has one |
| Validation.CheckLines | collector_manager.py:643-675 | the loop reports exactly the lines' issues |
| Validation.CheckFile | collector_manager.py:639-679 | the file check reports exactly the file's issues |
| Validation.CheckProcessSingleZip | collector_manager.py:597-684 | no results directory fails with no issue; otherwise ok iff there is no issue |
| Validation.EnrichedFileValidates | collector_manager.py:780-814 | a file stamped with a description holding every target key non-empty passes validation |
| ZipPipeline.ProcessSingleZip | process_zip_files.py:290-322 | extraction failure stops; otherwise the tree is renamed by the top-down walk of process_zip_files.py:51-81 (`Renaming.WalkRename`), a raising document crashes, no description stops, and a description stamps the result files |
| ZipPipeline.EnrichmentNeedsInfo | process_zip_files.py:316-322 | the files are stamped only with a non-empty description from an existing object document, and stamping is idempotent |
| Status.UpdatesAt | collector_manager.py:1195-1216 | entry i of the status log is post i, timed iff the clock was already running or an earlier post started it |
| Status.UpdatesAppend | collector_manager.py:1195-1216 | posting two batches is posting their concatenation |
| Bookkeeping.RecordedOnce | collector_manager.py:932-945 | each run lands in exactly one of the success and failure lists |
| Bookkeeping.AllOkNoFailure | collector_manager.py:1159-1164 | every run succeeds iff the failure list gets nothing |
| Bookkeeping.BatchOutcome | collector_manager.py:1130-1193 | past cleaning and connecting, every artifact is recorded once; data is pulled iff building and no artifact failed |
| Bookkeeping.BatchStopsEarly | collector_manager.py:1141-1153 | a cleaning failure posts only its one error; a connection failure posts only the connection's messages |
| Bookkeeping.CollectorManager.constructor | collector_manager.py:209-232 | idle status, empty message log and empty statistics |
| Bookkeeping.CollectorManager.UpdateStatus | collector_manager.py:1195-1216 | appends one message, starts the clock and changes nothing else |
| Bookkeeping.CollectorManager.UpdateArtifactStatistics | collector_manager.py:932-945 | appends the entry to the success or the failure list and counts one more processed artifact |
| Bookkeeping.CollectorManager.CreateArtifactSpec | collector_manager.py:296-324 | posts the spec messages and returns whether the spec was created |
| Bookkeeping.CollectorManager.CreateCombinedArtifactSpec | collector_manager.py:1795-1828 | the same for a combination |
| Bookkeeping.CollectorManager.ProcessSingleArtifact | collector_manager.py:947-982 | succeeds iff the spec succeeds and, when building, the build and push/execute succeed; records the outcome once; posts the steps' messages |
| Bookkeeping.CollectorManager.ProcessArtifactCombination | collector_manager.py:1830-1886 | the same, for the combination as one unit under its profile name |
| Bookkeeping.CollectorManager.ProcessArtifacts | collector_manager.py:1159-1164 | every artifact is processed, even after a failure; ok iff all succeed; the lists grow by exactly the recorded runs, in order |
| Bookkeeping.CollectorManager.RunBatchMode | collector_manager.py:1130-1193 | the outcome, the statistics and the messages as the functions above give them; the run always ends not processing, completed and with the clock stopped |
| Bookkeeping.CollectorManager.PullFilesByPattern | collector_manager.py:1492-1538 | succeeds iff the listing works, lists some file and `create_ssh_client` connects; a failed listing, an empty one or a raising connection posts its error; otherwise two messages per listed file |
| Transport.CreateSshClient | collector_manager.py:1227-1273 | a connected client iff credentials are given with a non-empty host, username and password and connecting does not raise; no client and no status message when the credentials are absent or incomplete |
| Transport.SshPosts | collector_manager.py:1270-1273 | exactly one error message, and only when connecting raised |
| Transport.PullFailureReported | collector_manager.py:1498-1513 | a failed pull posts at most one message, an error, and posts nothing only when the listing succeeded and the credentials are absent or incomplete |
| Bookkeeping.CollectorManager.StopProcessing | collector_manager.py:1470-1486 | while processing: stops, completes and posts its two messages, "Stopping processing by user request..." and then "Processing stopped by user request"; otherwise changes nothing |
| Transport.ParseInt | collector_manager.py:1297 | accepts exactly an optional sign followed by digits |
| Transport.ParseNat | collector_manager.py:1297 | parsing the decimal text of n gives n |
| Transport.RemoteHash | collector_manager.py:1330-1339 | a hash iff the remote command exits with 0 |
| Transport.VerifyFileIntegrity | collector_manager.py:1284-1320 | success needs both remote commands to exit with 0, the remote size to parse to the local size, and a non-empty stripped remote hash equal to the local hash up to letter case |
| Transport.IntegrityIgnoresCase | collector_manager.py:1311 | the verdict does not depend on the case of the remote hash |
| Transport.IntegrityAcceptsMatch | collector_manager.py:1284-1320 | matching size and hash (up to case) pass |
| Transport.IntegrityRejectsMismatch | collector_manager.py:1297-1302 | a size that does not parse to the local size fails |
| Transport.CheckExecutionOutput | collector_manager.py:1080-1093 | ok iff the log exists and contains `Exiting` |
| Transport.ExecutionOutputSurvivesMore | collector_manager.py:1080-1093 | more log text before or after keeps the verdict |
| Transport.SafeName | collector_manager.py:366 | spaces and dots become `_`, and the length is kept |
| Transport.SafeNameClean | collector_manager.py:366 | no space or dot is left, and applying it again changes nothing |
| Transport.TargetCollectorName | collector_manager.py:365-370 | the collector is named `collector_<safe name>.exe` |
| Transport.BuildCommand | collector_manager.py:395-398 | binary, `--config`, the config and `collector`, then `--datastore` and the datastore only when one is set, then the spec |
| Transport.BuildCollectorExe | collector_manager.py:326-465 | a collector path iff spec, binary and config exist, the build exits with 0, the output exists and the copy works |
| Transport.BuildOutcomeShape | collector_manager.py:326-465 | the path is the target collector; the first message announces the build; only a failed build ends with an error message |
| Transport.BuildRunsOnlyWithInputs | collector_manager.py:346-392 | the build runs only when all three inputs exist |
| Transport.ListedFiles | collector_manager.py:1504-1505 | the listed files are stripped and non-empty |
| Transport.NonEmptyStrippedExact | collector_manager.py:1505 | a file is listed iff it is the non-empty stripped form of some line |
| Transport.ListedFilesOneLine | collector_manager.py:1504-1505 | no listed file holds a line break |
| Transport.ListingRoundTrip | collector_manager.py:1504-1505 | listing the newline-joined trimmed paths gives back exactly those paths |
| Transport.FilePosts | collector_manager.py:1518-1528 | two messages per file |
| Transport.FilePostsAt | collector_manager.py:1518-1528 | file i posts "Pulling file …" and then an error exactly when its transfer fails |

## Left out

- WinRM and SSH sessions, PowerShell, SFTP transfers and subprocesses are not modelled. Their outcomes are inputs: `Step`, `ToolRun`, `RemoteResult`, `PullEnv`, `BuildEnv`, and a `system` function in `OneByOne.CreateCollector`.
- `push_and_execute`, `pull_collection_data`, `process_collection_data`, `cleanup_remote_files`, `clean_all_directories` and `initialize_connections` are given as outcomes with their messages (`Step`), not modelled step by step.
- Files, directories and zip extraction are inputs, as values: whether a path exists, the lines a file decodes to, the extracted tree and the order its scans list it in. `os.makedirs` is assumed to succeed.
- Text decoding is a function handed in. The model has no byte-level codecs and no Unicode handling. `ToLower` is ASCII only.
- SHA-256 is not modelled: local and remote hashes are strings.
- JSON numbers are integers only (`JNum(n: int)`); floats are not modelled. Truthiness, the empty-value test and the source-type checks do not depend on the kind of number.
- JSON objects are sequences of fields and may repeat a key, which `json.load` never produces (the last duplicate wins there). The search lemmas of `SystemInfo` hold for repeated keys too.
- JSON parsing and `json.dumps` are not modelled. A result line is already classified as blank, an object, another JSON value or invalid text. Key order and the exact text written back are not modelled.
- Clock values, `task_start_time`, elapsed-time strings and the `progress_queue` are not modelled. A status entry records only whether the clock was running (`timed`), and execution times are whole seconds given as inputs.
- Logging, `print_*` calls and console colours are left out.
- Transport.ParseInt: Python's `int()` also accepts surrounding whitespace, underscores between digits and non-ASCII digits. The model accepts ASCII digits with an optional sign.
- Calendar.ConvertIsoToEpoch: `strptime` also accepts one-digit fields. `ParseIso` parses the fixed-width `%Y-%m-%dT%H:%M:%SZ` form only, so such text gives `None` in the model.
- Paths follow POSIX `os.path` and `pathlib` semantics.
- Renaming.WalkRename: process_zip_files.py:66 and :78 rename without checking the target. On POSIX `Path.rename` would overwrite an existing file there (and replace an empty directory), while the walk skips a rename whose target exists, as `RenameFilesInDirectory` does at collector_manager.py:709 and :731.
- Renaming.WalkRename: the walk takes a fuel bound, one more than the number of components of the deepest listed entry (`WalkDepth`). That is deep enough to reach every listed directory, but the model does not prove that more fuel changes nothing.
- Renaming.DeepestFirst: the order among directories of equal depth is not stated. Python's stable sort keeps the listing order there.
- Exceptions not named above are left out. This covers the generic `except Exception` paths of `process_single_artifact`, `build_collector_exe` and `run_batch_mode`, a failed `open_sftp` after connecting, a non-string credential value, and local size or hash errors in `verify_file_integrity`. The remote cleanup in the `finally` of `run_batch_mode` is also left out.
- Bookkeeping.CollectorManager.PullFilesByPattern: whether each file's transfer fails is an input (`pullErrors`). The model does not include the exception text in the failure message.
- `process_extracted_files`, `unzip_files`, `delete_index_files`, `process_files`, `run`, the command-line `main` and `web_interface.py` are not part of this model.
- Bookkeeping.CollectorManager.ProcessSingleArtifact: the build outcome (`ArtifactRun.build`) is an input `Step`. It is not derived from `Transport.BuildCollectorExe`, which models the build's own decisions separately.
- ZipPipeline.ProcessSingleZip: the result files are given as they are after renaming. The model does not derive their names from the renamed tree.

## Findings

| source | as written | input that shows it | evidently intended | confidence | as-written member | corrected member |
|---|---|---|---|---|---|---|
| process_zip_files.py:51-81 | `os.walk` runs top-down: it renames directory `a%2Fb` to `a.b` and then descends into the old name, which no longer exists, so nothing below it is renamed | a tree with directory `a%2Fb` holding file `x%2Fy`: afterwards `a.b/x%2Fy` still has `%2F` | every `%2F` name is renamed, as `rename_files_in_directory` of collector_manager.py:694-737 does (files first, then directories deepest first) | not executed | Renaming.WalkRenameMissesNested | Renaming.CollectorPassRenamesAll |
