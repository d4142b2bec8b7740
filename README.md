# multicoresql, modelled in Dafny

multicoresql runs one SQL query over a table that has been split into many
sqlite3 database files ("shards"), using every processor of the machine. It
is a small map/reduce engine:

- the shards are dealt out to `ncores` workers by interleaving. Worker `i`
  of `n` gets shards `i`, `i+n`, `i+2n`, … in their original order.
- for each worker it writes an `sqlite3` command script (the map script). The
  script opens each of the worker's shards in turn and runs the map
  statement there.
- it starts one `sqlite3` process per worker, waits for them in order, and
  classifies each as failed or not from its exit status and error file.
- when there is a reduce statement, it writes a reduce script that gathers
  the workers' results and runs the reduce statement. The script is written
  before the waits. When all maps succeed it runs that script in one more
  `sqlite3` process.
- it removes its temporary directory under `/tmp/multicoresql-…` only when
  everything succeeded.

The repository holds several generations of this engine. This model covers
the ten core files and states where they differ.

- The select/attach family: `src/multicoresql.c` (the hardened reference),
  the `mu_query` of `src/libmulticoresql.c`, `src/libmulticoresql1.c` and
  `libmulticoresql1.c`.
  - Each worker writes into its own result database. For a select, the map
    script attaches that database and then runs `create table … as` on the
    first shard and `insert into …` on the later ones.
  - The reduce script attaches every other worker's database and copies its
    rows.
- The `.mode insert` family: the `mu_query3` of `src/libmulticoresql.c`,
  `src/libmulticoresql0.c`, `libmulticoresql0.c`, `libmulticoresql.c` and the
  draft `x4.c`.
  - Workers print `INSERT` statements, after an optional `.schema` block.
  - The reduce script `.read`s each worker's output, optionally inside
    `BEGIN TRANSACTION;` … `COMMIT;`.
- Shared helpers:
  - `src/libmulticoreutils.c`, which also turns a table into shards with
    `mu_create_shards_from_sqlite_table`;
  - `libmulticoreutils.c`.

The model's modules:

- `Partition`: the shard partition (`mu_getcoreshardc`/`mu_getcoreshardv`
  and their copies). The array fill is a method over an `array`, and the
  counts and the exact partition are lemmas.
- `Classify`: `is_mu_select`, the first-character select test of the older
  files, `ok_mu_shard_name` and `is_mu_fatal`.
- `Workspace`: the `/tmp/multicoresql-` guard, `mu_remove_temp_dir` and the
  `xrmtmp` guard.
- `Text`: the zero-padded `%.3d` numbering, decimal text and `strtok`
  fields.
- `PrintBuffer`: the global warning buffer (`MU_WARN`, `mu_error_string`,
  `mu_error_clear`) and the bounded script buffer of `MU_PRINTBUF`. Both are
  classes whose methods update their fields.
- `SmallFiles`: `mu_read_small_file` in its three versions,
  `mu_dup_sql_or_read_file` and `mu_create_query`.
- `Extensions`: the `.load` lines built from the `MULTICORE_SQLITE3_EXTENSIONS`
  value, with the memoised buffer as a class.
- `Tasks`: `mu_define_task` (a class whose constructor fills in the file
  names) and `mu_finish_task`'s classification.
- `Config`: `defaultconf`/`mu_opendb` in every version. The `conf` struct is a
  class.
- `Trace` and `Runs`: the order of process events as an abstract trace
  (start map k, finish map k, start/finish reduce, remove the temporary
  directory).
- `Scripts`, `AttachMode` and `ModeInsert`: the script layouts of the two
  families and the worker loops over them.
- `MulticoreSql`, `LibSql`, `LibAttach`, `LibThree`, `EarlyInsert`,
  `EarlyAttach`, `EarlyThree` and `Draft`: one module per core C file's query
  runner. `Draft` is `x4.c`.
- `MakeShards`: the shard-creation parse and script of
  `src/libmulticoreutils.c`.

Modelling conventions:

- A C string is a `string`, and a NULL pointer is `None`.
- A script is the sequence of strings its print calls emit, and the file
  holds their concatenation.
- A process exit (`exit(EXIT_FAILURE)`) is the `Exits` case of `Proc`. So is
  the crash of `ok_mu_shard_name` on a NULL name in the shard creation, which
  reads `name[0]` (`src/libmulticoreutils.c:200`).
- Everything the program gets from its environment is a parameter:
  - the detected processor count;
  - the `wordexp` expansion, as a function from pattern to an optional name
    list;
  - the temporary directory made by `mkdtemp`;
  - environment values;
  - exit statuses of the `sqlite3` processes;
  - the contents and sizes of the files read back (`SmallFiles.Disk`).
- The `sqlite3` processes are only events in a trace.

## Model

| member | source | states |
|---|---|---|
| Partition.CoreShardCount | src/multicoresql.c:91-95 | worker i's count c/n + (i < c%n ? 1 : 0) lies between 0 and c/n+1 |
| Partition.Owner | src/multicoresql.c:106-107 | the worker that owns shard k is below n |
| Partition.FirstSlot | src/multicoresql.c:106-107 | shard s is worker 0's slot 0 iff s = 0 |
| Partition.Split | src/multicoresql.c:97-110 | the n per-worker shard lists, one per worker |
| Partition.StrideWithinCount | src/multicoresql.c:106 | every idx with idx*n+i < c is below mu_getcoreshardc(i,n,c), so the fill stays inside the allocation |
| Partition.StrideReachesCount | src/multicoresql.c:97-110 | idx = mu_getcoreshardc(i,n,c)-1 still satisfies idx*n+i < c, so every allocated slot is written |
| Partition.CountStep | src/multicoresql.c:91-95 | one more shard raises the count of worker c%n by one and leaves every other count unchanged |
| Partition.PickedLength | src/multicoresql.c:97-110 | the shards picked for worker i number mu_getcoreshardc(i,n,c) |
| Partition.PickedAt | src/multicoresql.c:106-107 | slot idx of worker i's list is v[idx*n+i] |
| Partition.PickedSnoc | src/multicoresql.c:97-110 | appending shard k to v appends it to worker k%n's list and to no other |
| Partition.EveryShardPicked | src/multicoresql.c:97-110 | every shard k sits in worker k%n's list at slot k/n |
| Partition.StridePicked | src/multicoresql.c:106-107 | the stride formula v[idx*n+i] agrees with the picking definition at every slot |
| Partition.ExactPartition | src/multicoresql.c:91-110 | shard k sits at Split[k%n][k/n], worker i holds mu_getcoreshardc slots, and the counts sum to c |
| Partition.ShardPlacement | src/multicoresql.c:97-110 | every shard k is found in worker k%n's list at slot k/n |
| Partition.WorkerSizes | src/multicoresql.c:91-110 | every part of Split has the size mu_getcoreshardc gives |
| Partition.SumCountsPrefix | src/multicoresql.c:91-95 | the counts of workers 0..m-1 add up to m*(c/n) + min(m, c%n) |
| Partition.CountsSumToShards | libmulticoreutils.c:106-110 | the per-worker counts sum to c |
| Partition.CountsBalanced | src/libmulticoreutils.c:90-94 | two workers' counts differ by at most one and lower-numbered workers get the extras |
| Partition.NoIdleWorker | src/multicoresql.c:854 | with n <= c every worker gets at least one shard |
| Partition.SplitIsPermutation | libmulticoreutils.c:112-121 | the concatenated worker lists are a permutation of v: no shard lost or duplicated |
| Partition.StrideIsPicked | x4.c:218-227 | a list of getshardc(i,n,c) entries whose entry idx is v[idx*n+i] is exactly worker i's picked list |
| Partition.StrideStopsAtCount | x4.c:212-227 | the loop test idx*n+i < c fails exactly at idx = getshardc(i,n,c) |
| Partition.GetCoreShards | src/multicoresql.c:97-110 | the filled array has mu_getcoreshardc(i,n,c) entries, entry idx is v[idx*n+i], and it equals worker i's picked list |
| Classify.StartsWithSelectMeaning | src/multicoresql.c:865-873 | true iff after the leading spaces and tabs the next character is s or S; an all-blank statement is not a select |
| Classify.IsMuSelect | src/multicoresql.c:865-873 | the character loop agrees with the blank-skipping definition |
| Classify.FirstCharTestIsNarrower | libmulticoresql1.c:77 | the first-character test implies the blank-skipping test, and " select" separates them |
| Classify.OkShardName | src/multicoresql.c:193-212 | the character loop accepts iff the name is non-empty, does not start with '.', and uses only [0-9a-zA-Z._-] |
| Classify.ShardNameIsInert | src/libmulticoreutils.c:198-217 | an accepted name holds no '/', quote, space or newline and is neither "." nor ".." |
| Classify.FatalSpellings | src/libmulticoreutils.c:117-123 | is_mu_fatal is true iff the message starts with fatal, Fatal or FATAL |
| Workspace.CreatedTempPassesGuards | src/multicoresql.c:184-191 | every directory mu_create_temp_dir can make passes is_mu_temp |
| Workspace.PrefixGuardNarrower | libmulticoresql.c:103-118 | is_mu_temp implies the older "/tmp/" guard of xrmtmp, and not the other way round |
| Workspace.RemoveTempDirAsWritten | src/multicoresql.c:116-137 | as written: a removal that returns 0 had a name passing is_mu_temp and ran a command |
| Workspace.TruncatedRemoveRuns | src/multicoresql.c:120-127 | a 248-character temporary name makes the as-written code run rm -rf on a different directory: a proper prefix of the name, without its last character |
| Workspace.RemoveTempDirIsExact | src/multicoresql.c:116-137 | corrected: the command runs iff is_mu_temp and it fits in 255 bytes, and it is exactly "rm -rf " + dir; made directories are always removable |
| Workspace.RemoveTempDirUtils | src/libmulticoreutils.c:125-140 | the process exits iff the name passes is_mu_temp and the removal fails; any command run is exactly "rm -rf " + dir for a guarded name |
| Workspace.RemoveTmp | libmulticoreutils.c:48-63 | xrmtmp exits iff the name starts with "/tmp/" and the removal fails; any command run is "rm -rf " + dir for such a name |
| Text.DecimalRoundTrip | src/libmulticoreutils.c:309 | the decimal digits of n read back as n |
| Text.Pad3RoundTrip | src/multicoresql.c:307 | %.3d gives at least three digits that read back as n |
| Text.Pad3Injective | src/multicoresql.c:307 | different task numbers give different %.3d texts |
| Text.Pad3Examples | src/multicoresql.c:307 | 0, 7, 42 and 1234 print as 000, 007, 042 and 1234 |
| Text.Word | src/libmulticoreutils.c:306 | a token is the longest prefix free of the separator, ending at the separator or the end |
| Text.FieldsWellFormed | src/multicoresql.c:714-721 | every strtok field is a non-empty piece free of the separator |
| Text.FieldsJoined | src/libmulticoreutils.c:303-316 | splitting the separator-joined list of non-empty, separator-free tokens gives the tokens back |
| Tasks.TaskFilesDistinct | src/multicoresql.c:307-327 | two task file names in one directory are equal only for the same task name, stream and number |
| Tasks.ProgressNameIsLongest | src/multicoresql.c:308-309 | the buffer sized from the "progress" name holds the in/out/err/db names, so the snprintf checks never fire |
| Tasks.SqliteTask.constructor | src/multicoresql.c:288-334 | its in, out, err and progress names are "dir/name.stream.NNN", its db name is the given one, and status and pid are 0 |
| Tasks.SqliteTask.Finish | src/multicoresql.c:420-453 | waiting returns -1 iff the status is non-zero or the error file reads back; the status is recorded |
| Tasks.SqliteTask.FinishLib | src/libmulticoresql.c:391-418 | the same with the library's read_small_file |
| Tasks.DefineTask | src/multicoresql.c:288-334 | no task iff the directory or name is NULL or the number is negative; otherwise the named files |
| Tasks.DefineTaskLib | src/libmulticoresql.c:257-300 | the same refusals and names in the library version |
| Tasks.FinishMeaning | src/multicoresql.c:427-429 | a task failed iff its status is non-zero or its error file opens, is non-empty, under the size limit and fully read; an oversized error file counts as success |
| Tasks.FinishLibNoStricter | src/libmulticoresql.c:391-418 | a task the library judges failed is judged failed by the reference version too |
| Tasks.FinishTask | src/multicoresql.c:420-424 | a NULL task gives -1 |
| SmallFiles.ReadSmallFileMeaning | src/multicoresql.c:214-257 | contents come back iff the name is given, the file exists, is non-empty, size+1 is within 100 MiB and the read is complete; what comes back is the first `size` bytes of the file |
| SmallFiles.ReadSmallFileLibStricter | src/libmulticoresql.c:248-251 | the library version differs from the reference only by refusing a file whose read set errno |
| SmallFiles.ReadSmallFileUtils | src/libmulticoreutils.c:219-259 | the utils version returns the contents iff the file opens, size+1 is within 100 MiB and the read reports no error |
| SmallFiles.UtilsAcceptsEmptyAndShort | src/libmulticoreutils.c:234-250 | unlike the reference, it returns an empty file as "" and a short read as its prefix |
| SmallFiles.DupSqlOrReadFileMeaning | src/multicoresql.c:259-286 | NULL gives NULL; text with a space or ';' is copied unchanged; anything else is read as a file name |
| SmallFiles.CreateQueryMeaning | src/multicoresql.c:736-803 | the query is made iff the map statement and every given create and reduce statement resolve through mu_dup_sql_or_read_file; each is present iff given |
| Extensions.LoadLines | src/multicoresql.c:716-719 | one ".load tok\n" line per space-separated token, in order |
| Extensions.ExtensionsOfList | src/multicoresql.c:692-724 | the buffer holds all load lines when they fit in 1024 bytes, else their first 1023 characters |
| Extensions.BuildExtensions | src/multicoresql.c:714-721 | the offset loop writes exactly the bounded load-line text |
| Extensions.ExtensionCache.constructor | src/multicoresql.c:693-694 | the memo starts unset |
| Extensions.ExtensionCache.Get | src/multicoresql.c:692-724 | the first call computes the text from the environment value; every later call returns that same text |
| Extensions.WriteLoadLines | libmulticoresql.c:160-172 | fLoadExtensions writes one ".load tok\n" per token and nothing for NULL or empty extensions |
| Extensions.BoundedIsPrefixOfUnbounded | src/multicoresql.c:715 | the 1024-byte buffer's text is a prefix of the unbounded load lines |
| PrintBuffer.RunMeaning | src/multicoresql.c:68-70 | after MU_PRINTBUF calls the text is the longest prefix of the output that fits, and cursor < size iff nothing was cut |
| PrintBuffer.RunSaturates | src/multicoresql.c:68-70 | once the cursor reaches the size, later prints change nothing |
| PrintBuffer.FitsMeansComplete | src/multicoresql.c:927-931 | corrected test cursor < size: accepted iff the whole output fits |
| PrintBuffer.AsWrittenAcceptsTruncated | src/multicoresql.c:927-931 | as written (cursor > size): a cut output passes iff the cursor lands exactly on the size, and the text is then a proper prefix |
| PrintBuffer.AsWrittenExample | src/multicoresql.c:927-931 | printing "abc" then "d" into a 4-byte buffer passes the as-written test with "abc" kept |
| PrintBuffer.ErrorStringMeaning | src/multicoresql.c:32-34 | mu_error_string is NULL iff nothing has been recorded since the last clear |
| PrintBuffer.WarningBuffer.constructor | src/multicoresql.c:21-23 | the buffer starts with no warnings |
| PrintBuffer.WarningBuffer.Warn | src/multicoresql.c:40-45 | a warning is recorded, and the buffer's text and cursor take one bounded MU_WARN step (a no-op once the cursor reaches the limit) |
| PrintBuffer.WarningBuffer.Clear | src/multicoresql.c:36-38 | clearing empties the text and zeroes the cursor |
| PrintBuffer.WarningBuffer.Current | src/multicoresql.c:32-34 | NULL iff nothing was warned since the last clear; otherwise a prefix of the warnings shorter than the buffer |
| PrintBuffer.ScriptBuffer.constructor | src/multicoresql.c:890-892 | a script buffer of the computed size, empty |
| PrintBuffer.ScriptBuffer.Print | src/multicoresql.c:68-70 | one print appends its piece and keeps the cursor as the full printed length |
| PrintBuffer.ScriptBuffer.PrintAll | src/multicoresql.c:903-925 | printing pieces in turn appends them all |
| Config.CheckedCores | libmulticoresql.c:24-28 | the process exits iff the detected count is outside 1..255; otherwise that count |
| Config.OpenDb | src/multicoresql.c:813-863 | open iff a directory is given, the "<dir>/*" expansion succeeds and has at least 2 names; then the table is "maptable", ncores is 2 for an implausible count, and 1 <= ncores <= shard count |
| Config.OpenDbLeavesNoWorkerIdle | src/multicoresql.c:854 | after a successful open every worker owns at least one shard |
| Config.OpenDbLib | src/libmulticoresql.c:827-874 | the library version opens under the same conditions with the same fields, except ncores: plausible and never below the reference's capped count |
| Config.OpenDbLibCanIdle | src/libmulticoresql.c:827-874 | with 8 detected cores and 2 shards the library version opens with 6 idle workers |
| Config.Conf.constructor | libmulticoresql.c:14-32 | defaultconf's fields as given, with no shards, no database and not open |
| Config.Conf.Open | libmulticoresql.c:34-60 | a NULL directory exits; otherwise open iff the expansion succeeds with at least the minimum number of names, returning 0 iff open; the other fields are unchanged |
| Config.Conf.OpenReturningExpansion | x4.c:133-160 | the draft returns the expansion's code: 0 iff the expansion succeeded, whatever the name count |
| Config.SqliteBin | src/libmulticoreutils.c:107-111 | the sqlite3 binary is the environment override when set, else "sqlite3" |
| Config.DefaultConfDetected | src/libmulticoresql1.c:4-21 | defaultconf exits iff the detected count is outside 1..255, else keeps it with table "t" |
| Config.DefaultConfThree | libmulticoresql0.c:14-28 | the student edition always uses 3 cores and table "t" |
| Scripts.PresentOfAll | src/multicoresql.c:903-904 | with no NULL entry every shard is present at its own index |
| Scripts.BlockLayout | src/multicoresql.c:903-925 | the j-th non-NULL shard's block sits at offset j*width, piece by piece |
| Scripts.BlockLayoutAll | src/multicoresql.c:903-925 | for a NULL-free list, the slice at j*width is shard j's block |
| Scripts.BlockSlice | src/multicoresql.c:903-925 | the slice at j*width is the j-th present shard's block |
| Scripts.NumberedLayout | src/multicoresql.c:1030-1040 | the per-worker blocks for workers 1..m-1 sit at consecutive offsets |
| Scripts.WriteShardBlocks | libmulticoresql.c:196-211 | the shard loop writes exactly the blocks of the non-NULL shards in order |
| Scripts.PrintShardBlocks | src/multicoresql.c:903-925 | the shard loop appends exactly those blocks to the print buffer |
| Trace.Starts | src/multicoresql.c:1030-1063 | the start events of workers 0..n-1 in order |
| Trace.Finishes | src/multicoresql.c:1092-1097 | the finish events of workers 0..n-1 in order |
| Trace.RunWellNested | src/multicoresql.c:1030-1108 | starting n workers and finishing the first m in order never finishes a worker before it starts or twice |
| Trace.RunUnreaped | src/multicoresql.c:1092-1097 | exactly workers m..n-1 are left unreaped |
| Trace.RunReduceAfterMaps | src/multicoresql.c:1092-1104 | when every map is finished, the reduce events come after all of them |
| Trace.RunWithoutTail | src/multicoresql.c:1030-1097 | a run that stops before the reducer never starts it |
| Trace.FirstNone | src/multicoresql.c:1030-1063 | the index of the first worker whose file could not be built, or n |
| Trace.FirstTrue | src/multicoresql.c:1092-1097 | the index of the first failed worker, or n |
| Trace.FirstNoneUnique | src/multicoresql.c:1030-1063 | the first missing index is characterised uniquely |
| Trace.FirstNoneAll | src/multicoresql.c:1030-1063 | no missing entry iff every file was built |
| Trace.FirstTrueUnique | src/multicoresql.c:1092-1097 | the first failure is characterised uniquely |
| Runs.ReduceEvents | libmulticoresql.c:288-297 | the reducer's start and finish events exactly when there is a reduce statement |
| Runs.WaitAll | libmulticoresql.c:285-286 | waiting every worker appends their finish events in order |
| Runs.WaitedRunOrder | libmulticoresql.c:268-297 | a run that waits every worker is well nested, reduces after all maps, leaves nothing unreaped, and starts the reducer iff there is a reduce statement |
| MulticoreSql.MapBufSizeFormula | src/multicoresql.c:890 | the map buffer holds (1024 + \|mapsql\|) * shardc + 1024 bytes |
| MulticoreSql.MakeQueryCoreFile | src/multicoresql.c:875-947 | (corrected) the loop over the shards writes the map file, and rc is 0 iff a file was written |
| MulticoreSql.MapFileMeaning | src/multicoresql.c:885-931 | (corrected) a file is written iff conf, fname, shardv and a non-empty mapsql are given, shardc > 0 and the whole script fits the buffer; it is then the complete script |
| MulticoreSql.MapFileAsWrittenDropsNewline | src/multicoresql.c:927-931 | as written, a 2031-character shard name with mapsql "x" writes a script cut before the final newline |
| MulticoreSql.MapBlockPieces | src/multicoresql.c:903-925 | a shard block is ".open shard", ".bail on", the load lines, then attach and create (first shard) or insert (later shards) for a select, or the statement verbatim |
| MulticoreSql.CoreAliasInjective | src/multicoresql.c:1035 | the coredbNNN aliases of different workers differ |
| MulticoreSql.GathersLayout | src/multicoresql.c:1031-1040 | worker k >= 1 contributes its attach/insert/detach triple at offset 3(k-1) |
| MulticoreSql.GathersLength | src/multicoresql.c:1031-1040 | the gather part has 3(n-1) lines |
| MulticoreSql.WorkerDbs | src/multicoresql.c:979-990 | worker k's database is "tmp/mapsql.db.NNN" |
| MulticoreSql.MapFailures | src/multicoresql.c:1092-1097 | worker k failed iff mu_finish_task judges its status and error file failed |
| MulticoreSql.StopAfterWaits | src/multicoresql.c:1092-1108 | after the waits the run stops at a map failure, at a failed reducer, or succeeds |
| MulticoreSql.StopAfterMaps | src/multicoresql.c:1065-1108 | (corrected) once every map is started, the stop is an overflow of the reduce file or one of the wait outcomes |
| MulticoreSql.QueryStop | src/multicoresql.c:1030-1063 | the run stops with a build failure iff some worker's map file cannot be built, at the first such worker |
| MulticoreSql.DefineMapTasks | src/multicoresql.c:979-986 | one fresh "mapsql" task per worker, numbered in order |
| MulticoreSql.PrintGather | src/multicoresql.c:1031-1040 | appends worker k's attach/insert/detach triple |
| MulticoreSql.GatherWorker | src/multicoresql.c:1031-1040 | keeps the buffer equal to the gathers of workers before k |
| MulticoreSql.BuildWorkerFile | src/multicoresql.c:1041-1050 | builds worker k's map file from its shards, rc 0 iff built |
| MulticoreSql.StartWorkers | src/multicoresql.c:1030-1063 | starts workers in order until the first file that cannot be built, and gathers all workers when every one starts |
| MulticoreSql.WaitWorkers | src/multicoresql.c:1092-1097 | waits workers in order up to and including the first failure, and reports its index |
| MulticoreSql.EndReduceScript | src/multicoresql.c:1067-1088 | (corrected) appends the reduce statement and writes the reduce file iff it fits the buffer |
| MulticoreSql.WaitAndReduce | src/multicoresql.c:1092-1109 | waiting, reducing and removing follow the stop reached after the waits |
| MulticoreSql.RunQuery | src/multicoresql.c:949-1112 | (corrected) the whole mu_run_query agrees with the query function |
| MulticoreSql.DefineQueryTasks | src/multicoresql.c:979-990 | the map tasks, and a reducer whose database is worker 0's |
| MulticoreSql.BeginReduceScript | src/multicoresql.c:995-1022 | the reduce buffer starts with ".bail on" and the load lines, sized for the gathers and the statement |
| MulticoreSql.FinishQuery | src/multicoresql.c:1065-1109 | (corrected) writing the reduce file, waiting and reducing give the stop reached after the maps |
| MulticoreSql.QueryNotStarted | src/multicoresql.c:1030-1063 | when some worker's map file cannot be built, only the workers before it start, the result is NULL and no reduce file is written |
| MulticoreSql.QueryStarted | src/multicoresql.c:1030-1109 | (corrected) when every map file builds, the run is the stop reached after the maps, with the reduce file written unless it overflows |
| MulticoreSql.StopOrder | src/multicoresql.c:1030-1108 | every stop gives a well-nested trace where the reducer starts only after all maps finished |
| MulticoreSql.StopReaping | src/multicoresql.c:1092-1109 | the temporary directory is removed iff the run succeeded, and the unreaped workers are those started and not waited |
| MulticoreSql.AfterMapsMeaning | src/multicoresql.c:1065-1108 | (corrected) after all maps start: an overflowing reduce file stops the run; otherwise the waits decide |
| MulticoreSql.StopAfterWaitsMeaning | src/multicoresql.c:1092-1108 | a map failure stops at that worker; else the reducer runs iff there is a reduce statement, and its failure is the run's |
| MulticoreSql.QueryStopFailure | src/multicoresql.c:1030-1097 | a build failure is at the first worker whose file cannot be built; a map failure is at the first failed worker, after every file was built |
| MulticoreSql.QueryStopSuccess | src/multicoresql.c:1092-1109 | (corrected) the run completes iff there is a reduce statement, every map succeeds, the reduce file fits and the reducer succeeds; without a reduce statement it ends cleanly iff every map succeeds |
| MulticoreSql.QueryOrder | src/multicoresql.c:1030-1108 | the query's trace is well nested and reduces only after every map finished |
| MulticoreSql.QueryResult | src/multicoresql.c:1098-1112 | (corrected) there is a result iff everything succeeded with a reduce statement and its output reads back, and it is that output |
| MulticoreSql.QueryReaping | src/multicoresql.c:1092-1109 | (corrected) the directory is removed iff every map and the reducer succeeded; a stop at a build failure or an overflow leaves the started workers unreaped |
| MulticoreSql.WorkerFileMeaning | src/multicoresql.c:1041-1050 | worker k's map file is the script over its own shards and its own database |
| MulticoreSql.MapOpensShard | src/multicoresql.c:903-925 | the block of worker k's j-th shard opens that shard and writes into worker k's database |
| MulticoreSql.EveryShardOpened | src/multicoresql.c:1030-1063 | every shard is opened by the map file of the worker k%n that owns it |
| MulticoreSql.ReduceFileMeaning | src/multicoresql.c:1067-1088 | (corrected) the reduce file is written iff the whole script fits, and is then ".bail on", the load lines, the gathers and the statement |
| MulticoreSql.ReduceFileAsWrittenDropsNewline | src/multicoresql.c:1067-1076 | as written, one core, reduce statement "r" and a 1013-character extension text write a reduce script cut before its final newline, which the corrected test refuses |
| MulticoreSql.ReduceScriptLayout | src/multicoresql.c:995-1074 | the reduce script's pieces in order, with worker k's triple at its offset |
| MulticoreSql.ReduceScriptFrame | src/multicoresql.c:1012-1074 | the reduce script starts with ".bail on" and ends with the reduce statement |
| MulticoreSql.WorkerDbsDistinct | src/multicoresql.c:979-990 | different workers write into different databases |
| AttachMode.WriteMapFile | src/libmulticoresql1.c:53-95 | the shard loop writes exactly the select/attach map file |
| AttachMode.MapFileLayout | src/libmulticoresql1.c:53-95 | no file iff the statement is empty; otherwise the j-th present shard's block is ".open shard", the load lines and the statement lines |
| AttachMode.MapFileRefusals | src/libmulticoresql1.c:57-58 | no file iff there are no shards or the statement is empty; only-NULL shards give an empty file |
| AttachMode.CoreDbs | src/libmulticoresql1.c:129-146 | worker k's database is "tmp/coredb.NNN" |
| AttachMode.CoreDbInjective | src/libmulticoresql1.c:129-146 | different workers' databases differ |
| AttachMode.ReduceScriptLayout | src/libmulticoresql1.c:121-161 | the reduce script opens coredb.000 and ends with the statement, with worker k's triple at its offset |
| AttachMode.WorkerFiles | src/libmulticoresql1.c:129-146 | the map files of workers 0..m-1 in order |
| AttachMode.BuildWorkerFile | src/libmulticoresql1.c:129-146 | builds worker k's map file from its shard array |
| AttachMode.RunQuery | src/libmulticoresql1.c:97-167 | the worker loop and the reduce agree with the query function |
| AttachMode.QueryOrder | src/libmulticoresql1.c:149-161 | every worker is waited before the reducer, which runs iff there is a reduce statement, and nothing is left unreaped |
| AttachMode.QueryRefusals | src/libmulticoresql1.c:129-146 | worker k gets no map file iff it owns no shard or the statement is empty, and it is started either way |
| AttachMode.QueryOpensEveryShard | src/libmulticoresql1.c:53-146 | every shard is opened, in its owner's map file at its slot, followed by the load lines and the statement |
| AttachMode.QueryReduceHead | src/libmulticoresql1.c:121-127 | the reduce file opens coredb.000, then the pragma line when present, the load lines, the gathers and the statement |
| AttachMode.QueryReduceGather | src/libmulticoresql1.c:129-146 | worker k >= 1's attach/insert/detach triple sits at its offset |
| AttachMode.QueryMapFile | src/libmulticoresql1.c:129-146 | worker k's map file is built over its own shards |
| AttachMode.WorkerFileLayout | src/libmulticoresql1.c:53-95 | worker k's j-th block opens its j-th picked shard |
| ModeInsert.PlainLines | libmulticoresql.c:174-217 | the plain dialect's lines: ".mode insert T", ".open shard", the schema block or the statement |
| ModeInsert.TerminatedLines | x4.c:162-205 | the draft's lines: ".open shard \n" and " ;" after every statement |
| ModeInsert.WriteMapScript | libmulticoresql.c:174-217 | the shard loop writes exactly the .mode insert map script |
| ModeInsert.MapScriptLayout | src/libmulticoresql.c:685-729 | ".mode insert T" first, then per present shard ".open", the load lines and the schema block (first shard with schema) or the statement |
| ModeInsert.MapScriptOfNames | libmulticoresql0.c:74-117 | the same for a NULL-free list, at offset 1 + j*(e+2) |
| ModeInsert.Reads | libmulticoresql.c:268-282 | one ".read" line per worker output in order |
| ModeInsert.ReduceScriptLayout | src/libmulticoresql0.c:115-198 | the reduce script is the load lines, the create statement, BEGIN, the .read lines, COMMIT and the reduce statement |
| ModeInsert.GetSchemaOnlyFirst | src/libmulticoresql.c:786 | the schema is printed only by worker 0 and only without a create statement; when the reducer needs it, only with a reduce statement |
| ModeInsert.ResultsFiles | libmulticoresql.c:268-282 | worker k's output is "tmp/results.core.NNN" |
| ModeInsert.ResultsFileInjective | libmulticoresql.c:268-282 | different workers' outputs differ |
| ModeInsert.WorkerScripts | libmulticoresql.c:268-282 | the map scripts of workers 0..m-1 |
| ModeInsert.BuildWorkerScript | libmulticoresql.c:268-282 | builds worker k's script from its shard array |
| ModeInsert.RunCore | libmulticoresql.c:268-282 | one loop step appends worker k's read line, script and start event |
| ModeInsert.RunQuery | libmulticoresql.c:236-301 | the worker loop and the reduce agree with the query function |
| ModeInsert.RunQueryUnrolled | src/libmulticoresql0.c:154-177 | the three macro expansions agree with the query function |
| ModeInsert.QueryOrder | libmulticoresql.c:285-297 | every worker is waited before the reducer, which runs iff there is a reduce statement; the reduce file reads every output in order |
| ModeInsert.QueryReduceLayout | src/libmulticoresql0.c:184-194 | the exact reduce file, with BEGIN/COMMIT around the .read lines when the variant uses a transaction |
| ModeInsert.QueryMapFile | libmulticoresql.c:268-282 | worker k's map file is its own script |
| ModeInsert.WorkerBlock | libmulticoresql.c:268-282 | worker k's j-th block opens its j-th shard, and the schema block appears only for worker 0 |
| ModeInsert.QueryShardBlock | libmulticoresql.c:174-282 | every shard is opened in its owner's script at its slot |
| LibSql.Print | src/libmulticoresql.c:36-42 | a print appends its piece; as written it reports failure for every non-empty piece |
| LibSql.PrintEach | src/libmulticoresql.c:36-42 | corrected, all pieces are written; as written, writing stops after the first non-empty piece |
| LibSql.MakeQueryCoreFile3 | src/libmulticoresql.c:685-729 | corrected, the .mode insert script and rc 0; as written, rc -1 after the ".mode insert" line |
| LibSql.MakeQueryCoreFile | src/libmulticoresql.c:886-928 | refused without shards or statement; corrected, the select/attach file with pragma; as written, rc -1 after the first ".open" |
| LibSql.MapFailed | src/libmulticoresql.c:1017-1020 | worker k failed iff mu_finish_task with the library's read rule says so |
| LibSql.FinishAll | src/libmulticoresql.c:803-805 | waits in order up to and including the first failure |
| LibSql.WaitAndReduce | src/libmulticoresql.c:1017-1037 | waiting and reducing give the result of the waits |
| LibSql.Outputs3 | src/libmulticoresql.c:774-799 | the three workers' outputs are "tmp/mapsql.out.NNN" |
| LibSql.Job3 | src/libmulticoresql.c:731-824 | mu_query3's job is well formed for at least 3 cores |
| LibSql.RunCore3 | src/libmulticoresql.c:774-792 | corrected, one RUN_CORE appends its read line, script and start; as written it stops with nothing started |
| LibSql.RunQuery3 | src/libmulticoresql.c:731-824 | mu_query3 agrees with the corrected or the as-written query function |
| LibSql.OpenReduce3 | src/libmulticoresql.c:753-768 | the reduce head is the load lines, create statement and BEGIN; as written, writing stops at the first non-empty piece |
| LibSql.QueryJob | src/libmulticoresql.c:930-1046 | mu_query's job: the configuration's cores, table and shards, the pragma lines, and the blank-skipping select test |
| LibSql.PrintGather | src/libmulticoresql.c:1004-1011 | appends worker k's triple |
| LibSql.FirstWorkerShards | src/libmulticoresql.c:984-1013 | worker 0 gets no shard iff there are none, and otherwise shard 0 first |
| LibSql.StartWorker | src/libmulticoresql.c:984-1013 | corrected, worker k starts iff its file builds; as written, nothing starts |
| LibSql.RunQuery | src/libmulticoresql.c:930-1046 | mu_query agrees with the corrected or the as-written query function |
| LibSql.LaunchedRefused | src/libmulticoresql.c:984-1013 | a worker whose file cannot be built stops the run with rc -1 and the earlier workers unreaped |
| LibSql.LaunchedAll | src/libmulticoresql.c:1017-1037 | when every file builds, the run is the waits and the reduce |
| LibSql.RunWorkers | src/libmulticoresql.c:984-1037 | the worker loop agrees with the launch function |
| LibSql.WaitForWorkers | src/libmulticoresql.c:1017-1037 | waiting after a full launch agrees with the launch function |
| LibSql.WaitedOrder | src/libmulticoresql.c:1017-1037 | the trace is well nested, reduces after all maps, leaves exactly the workers after the first failure unreaped, and rc is 0 iff all succeed |
| LibSql.WaitedTrace | src/libmulticoresql.c:1017-1037 | the same for the trace alone |
| LibSql.Query3Order | src/libmulticoresql.c:797-820 | mu_query3: well nested, reduce after all three maps, rc 0 iff all succeed |
| LibSql.Query3Files | src/libmulticoresql.c:774-820 | mu_query3's files are the .mode insert engine's |
| LibSql.Query3ReduceReads | src/libmulticoresql.c:763-809 | BEGIN, then ".read" of the three outputs in order |
| LibSql.Query3OpensEveryShard | src/libmulticoresql.c:774-799 | with exactly 3 cores every shard is opened by worker s%3 |
| LibSql.Query3SkipsShard | src/libmulticoresql.c:797-799 | with more than 3 cores, the shards of workers 3.. are never opened |
| LibSql.LaunchedOrder | src/libmulticoresql.c:984-1037 | the run is well nested, stops at the first unbuildable file with the started workers unreaped, and rc is 0 iff all succeed |
| LibSql.QueryStopsAtIdleWorker | src/libmulticoresql.c:984-1013 | with fewer shards than cores the run stops at the first idle worker with rc -1 |
| LibSql.FirstIdleWorker | src/libmulticoresql.c:984-1013 | the first worker without a file is the one numbered by the shard count |
| LibSql.QueryFiles | src/libmulticoresql.c:930-1046 | mu_query's files are the select/attach engine's |
| LibSql.Query3AsWrittenStartsNothing | src/libmulticoresql.c:36-42 | as written, mu_query3 returns -1 with no process started, where the corrected version starts worker 0 |
| LibSql.QueryAsWrittenStartsNothing | src/libmulticoresql.c:36-42 | as written, mu_query returns -1 with no process started, where the corrected version starts worker 0 |
| LibAttach.OpenDb | src/libmulticoresql1.c:23-49 | exits for NULL; open iff "<dir>/[0-9]*" expands to more than one name; 0 iff open |
| LibAttach.QueryJob | src/libmulticoresql1.c:97-167 | every processor a worker, pragma lines, the memoised load lines, first-character select |
| LibAttach.Query | src/libmulticoresql1.c:97-167 | mu_query agrees with the select/attach engine |
| LibAttach.QueryRunOrder | src/libmulticoresql1.c:149-161 | every worker waited before the reducer, which runs iff there is a reduce statement |
| LibAttach.QueryReduceFile | src/libmulticoresql1.c:121-127 | the reduce file opens coredb.000, sets the pragma, loads, gathers and ends with the statement |
| LibThree.OpenDb | src/libmulticoresql0.c:28-54 | exits for NULL; open iff "<dir>/*" expands to more than one name |
| LibThree.QueryJob | src/libmulticoresql0.c:115-198 | three workers, schema only with a reduce statement, a transaction |
| LibThree.Query | src/libmulticoresql0.c:115-198 | mu_query agrees with the .mode insert engine |
| LibThree.QueryRunOrder | src/libmulticoresql0.c:180-194 | all three workers waited before the reducer |
| LibThree.QueryReduceFile | src/libmulticoresql0.c:145-194 | the reduce file has BEGIN/COMMIT around the three .read lines |
| EarlyInsert.OpenDb | libmulticoresql.c:34-60 | exits for NULL; open iff "<dir>/[0-9]*" has at least one name |
| EarlyInsert.QueryJob | libmulticoresql.c:236-301 | one worker per processor, schema whenever no create statement, no transaction |
| EarlyInsert.Query | libmulticoresql.c:236-301 | query agrees with the .mode insert engine |
| EarlyInsert.QueryRunOrder | libmulticoresql.c:285-297 | every worker waited before the reducer |
| EarlyInsert.QueryReduceFile | libmulticoresql.c:260-297 | the reduce file is the load lines, the create statement, one .read per worker, the statement |
| EarlyThree.OpenDb | libmulticoresql0.c:30-56 | exits for NULL; open iff "<dir>/*" expands to more than one name |
| EarlyThree.QueryJob | libmulticoresql0.c:119-201 | three workers, schema only with a reduce statement, no transaction |
| EarlyThree.Query | libmulticoresql0.c:119-201 | query agrees with the .mode insert engine |
| EarlyThree.QueryRunOrder | libmulticoresql0.c:184-197 | all three workers waited before the reducer |
| EarlyThree.QueryReduceFile | libmulticoresql0.c:179-197 | the reduce file's .read lines with no transaction |
| EarlyAttach.OpenDb | libmulticoresql1.c:24-50 | exits for NULL; open iff "<dir>/[0-9]*" has at least one name |
| EarlyAttach.QueryJob | libmulticoresql1.c:111-179 | every processor a worker, no pragma, first-character select |
| EarlyAttach.Query | libmulticoresql1.c:111-179 | query agrees with the select/attach engine |
| EarlyAttach.QueryRunOrder | libmulticoresql1.c:163-175 | every worker waited before the reducer |
| EarlyAttach.QueryReduceFile | libmulticoresql1.c:136-175 | the reduce file opens coredb.000 with no pragma, loads, gathers and ends with the statement |
| Draft.OpenDb | x4.c:133-160 | exits for NULL; returns the expansion's own code |
| Draft.QueryJob | x4.c:232-290 | the " ;" dialect, schema iff no create statement |
| Draft.Query | x4.c:232-290 | query agrees with the .mode insert engine |
| Draft.QueryRunOrder | x4.c:277-286 | every worker waited before the reducer |
| Draft.QueryReduceFile | x4.c:252-286 | the reduce file's create and reduce statements end with " ;" |
| MakeShards.SkipSpaces | src/libmulticoreutils.c:309 | the rest after strtol's leading white space is a suffix that starts with a non-space |
| MakeShards.DigitRun | src/libmulticoreutils.c:309 | the longest run of digits at the front |
| MakeShards.Strtol | src/libmulticoreutils.c:309 | the parse overflows iff the value is outside the range of long |
| MakeShards.StrtolDecimal | src/libmulticoreutils.c:309 | the decimal text of n parses back as n, overflowing iff n exceeds LONG_MAX |
| MakeShards.ToInt32 | src/libmulticoreutils.c:309-311 | the int cast lands in 32-bit range and is congruent to the value mod 2^32 |
| MakeShards.ToInt32Small | src/libmulticoreutils.c:309-311 | the cast keeps values already in range |
| MakeShards.Accepted | src/libmulticoreutils.c:320-323 | the print loop keeps only names from its input that ok_mu_shard_name accepts |
| MakeShards.AcceptedAll | src/libmulticoreutils.c:320-323 | with every name valid, all are kept |
| MakeShards.Blocks | src/libmulticoreutils.c:320-323 | one attach/pragma/create/detach block per name in order |
| MakeShards.RunCreateShards | src/libmulticoreutils.c:273-342 | the method agrees with the shard-creation function |
| MakeShards.NameSlots | src/libmulticoreutils.c:313-316 | the names read are the lines after the count, NULL where the output ran out |
| MakeShards.ReadNames | src/libmulticoreutils.c:313-316 | the strtok loop fills exactly those slots |
| MakeShards.WriteBlock | src/libmulticoreutils.c:320-323 | one loop step appends the block of an accepted name only |
| MakeShards.WriteBlocks | src/libmulticoreutils.c:320-323 | no script iff a name is missing; otherwise the blocks of the accepted names |
| MakeShards.CreateShardsRoundTrip | src/libmulticoreutils.c:297-342 | for the count line and valid names, the script has one block per name and the run's status is the second run's |
| MakeShards.ParsedCount | src/libmulticoreutils.c:306-326 | with a parsed positive count, too few names exit and otherwise the script covers the accepted names |
| MakeShards.LinesAreTokens | src/libmulticoreutils.c:303-308 | the count line and valid names are non-empty and free of newlines |
| MakeShards.BlocksAreInert | src/libmulticoreutils.c:320-323 | every block in a produced script names a valid shard with no '/', quote, "." or ".." |
| MakeShards.CountMustBePositive | src/libmulticoreutils.c:310-311 | a count that is not positive after the cast returns -1 with no script |
| MakeShards.WrappedCountRefused | src/libmulticoreutils.c:309-311 | a count that is a positive multiple of 2^32 wraps to 0 and is refused |
| MakeShards.TooFewNamesExits | src/libmulticoreutils.c:313-316 | a count larger than the names that follow ends the process: `ok_mu_shard_name` reads `name[0]` of the missing (NULL) name and crashes, which `Exits` stands for |

## Left out

- Processes: `fork`, `dup2`, `execvp`, `waitpid` and `system()` are not modelled. A worker is a start and a finish event. Its exit status and the bytes of its error file are inputs. `mu_start_task`'s exec details and `mu_free_task` are not part of this model.
- Files:
  - `fopen`, `fputs`, `fprintf`, `fclose` and `stat` are modelled only through what they write or read.
  - A failure to open or close a file is not modelled, except where the source's own test is wrong (`MU_FPRINTF` in `src/libmulticoresql.c`).
  - The `cat` of the reducer's output in the older files is not modelled, and neither is `mu_warn_run_status`.
- The environment: `getenv`, `sysconf`, `wordexp` and `mkdtemp` results are parameters.
- Memory: `malloc` failure, memory leaks, `xmalloc` without a return in `x4.c`, and the one-byte-short buffer of `xrmtmp` (`libmulticoresql.c:107-109`, `libmulticoreutils.c:52-53`, `x4.c:66-68`) are not modelled.
- Undefined behaviour:
  - `opendb` in `libmulticoresql.c` and `x4.c` writes `conf->isopen` before its NULL test. It is modelled as the NULL test alone.
  - `reducef` is left uninitialised when there is no reduce statement. It is modelled as an absent reduce file.
  - Extensions.ExtensionsText: a set but empty or all-blank `MULTICORE_SQLITE3_EXTENSIONS` never enters the `strtok` loop, so the C code returns an uninitialised `malloc`'d buffer (`src/multicoresql.c:702-722`, and the same in `src/libmulticoreutils.c`). It is modelled as the empty text.
- Errno checks:
  - The `errno` tests after `mu_fLoadExtensions` and in the extension loop are not modelled.
  - `errno` set before `strtol` is taken as zero, so only a range overflow counts as a parse error.
- The core database name buffer of `mu_query` (`src/libmulticoresql.c:990`): its 255-byte limit is not modelled.
- LibSql.RunQuery3: requires `ncores >= 3`, because `mu_query3` always runs exactly three workers and its only caller sets `ncores` to 3 (`src/3sqls.c:65`). With fewer cores, `mu_getcoreshardv` fills fewer slots of worker 2's list than the count it returns (two cores and an even shard count), and the map file reads an uninitialised entry.
- LibSql builders: they take shard lists without NULL entries. The reference `MulticoreSql.MakeQueryCoreFile` and the engines model NULL entries.
- LibAttach.Query and EarlyAttach.Query: the create statement they accept is never used, so it does not appear in their contracts.
- MakeShards.RunCreateShards:
  - The two `sqlite3` runs are inputs: the output text of the first and the status of the second.
  - The setup script of the first run is not part of the result.
  - The int cast is modelled as 32-bit wrap-around.
- `mu_create_shards_from_csv` and `mu_get_random_seed`: random assignment with `rand()` and `/dev/urandom`, not modelled.
- `exists_mu_temp_file`, `exists_mu_temp_done` and `mu_mark_temp_done` of `src/libmulticoresql.c`: file-system probes, not part of this model.
- The `mu_create_shards_from_sqlite_table` copy in `src/libmulticoresql.c`: not modelled. The `src/libmulticoreutils.c` version is modelled.
- `x4.c`:
  - `makeQueryReduceFile` is an empty stub.
  - The `printf` of the expansion is output only.
- Not part of this model:
  - `src/replace.c`, which depends on glibc `argz` functions;
  - `x3.c`, which does not compile;
  - the command-line front ends;
  - the tests.
- MulticoreSql.MakeQueryCoreFile, MulticoreSql.EndReduceScript and the members built on them (StopAfterMaps, RunQuery, FinishQuery, QueryStarted, AfterMapsMeaning, QueryStopSuccess, QueryResult, QueryReaping): they use the corrected overflow test `cursor >= bufsize` of the first two rows of "## Findings", not the `cursor > bufsize` of `src/multicoresql.c:927` and `:1075`. The as-written behaviour is `MapFileAsWritten` and `ReduceFileAsWritten`.
- Config.Conf.Open: one method covers every `opendb` that caps nothing. Each variant module passes its own pattern and minimum name count.

## Findings

| source | as written | input that shows it | evidently intended | confidence | as-written member | corrected member |
|---|---|---|---|---|---|---|
| src/multicoresql.c:927 | the map file is refused only when the print cursor exceeds the buffer size (`cursor > bufsize`), but `snprintf` has already cut the text when the cursor equals the size | a 2031-character shard name with map statement "x" | refuse when `cursor >= bufsize`, so a written script is always complete | not executed | MulticoreSql.MapFileAsWrittenDropsNewline | MulticoreSql.MapFileMeaning |
| src/multicoresql.c:1075 | the reduce file is refused only when `cursor > bufsize`, the same test as at line 927 | one core, reduce statement "r" and a 1013-character extension text: the script is exactly as long as its 1025-character buffer | refuse when `cursor >= bufsize`, so a written reduce script is always complete | not executed | MulticoreSql.ReduceFileAsWrittenDropsNewline | MulticoreSql.ReduceFileMeaning |
| src/multicoresql.c:122-123 | `mu_remove_temp_dir` refuses the command only when `needed > bufsize`, although `snprintf` keeps at most bufsize-1 characters (the same test is at src/libmulticoresql.c:105-106) | a temporary directory name of 248 characters passing `is_mu_temp` | refuse when `needed >= bufsize`, so `rm -rf` never runs on a truncated path | not executed | Workspace.TruncatedRemoveRuns | Workspace.RemoveTempDirIsExact |
| src/libmulticoresql.c:36-42 | `MU_FPRINTF` takes its failure branch whenever `fprintf` returns non-zero, that is after every successful non-empty write | any map statement and any shard: the first `.mode insert` or `.open` line ends `mu_query3`/`mu_query` with -1 before any worker starts | fail only when `fprintf` returns a negative count, as `src/multicoresql.c:53-58` does | not executed | LibSql.QueryAsWrittenStartsNothing | LibSql.LaunchedOrder |
