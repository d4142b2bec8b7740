/**
 * The `.mode insert` family of scripts.  Each worker's `sqlite3` prints
 * the rows of the map statement as INSERT statements into its results
 * file, optionally preceded by the table's schema; the reducer `.read`s
 * those files back one after the other, optionally inside a
 * transaction.  The libraries differ only in line endings (the draft
 * `x4.c` ends statements with ` ;`), in where the extension lines come
 * from, and in the rule that decides which worker prints the schema.
 */
module ModeInsert {
  import opened Wrappers
  import Text
  import Partition
  import Scripts
  import Trace
  import Runs

  /**
   * Line endings: after the shard name of `.open`, after the map
   * statement, and after the create and reduce statements of the reduce
   * script.
   */
  datatype Dialect = Dialect(openEnd: string, stmtEnd: string, reduceEnd: string)

  /** Every library but the draft ends each line with a plain newline. */
  const Plain := Dialect("\n", "\n", "\n")

  /** The draft `x4.c`: a space after the shard name, ` ;` after each statement. */
  const Terminated := Dialect(" \n", " ; \n", " ;\n")

  // ---------------------------------------------------------------------
  // Map script (`makeQueryCoreFile` of the insert-mode libraries)

  function ModeLine(otable: string): string { ".mode insert " + otable + "\n" }

  function OpenLine(d: Dialect, shard: string): string { ".open " + shard + d.openEnd }

  /** One print call: create the table from the statement, print its schema, print its rows. */
  function SchemaBlock(d: Dialect, otable: string, mapsql: string): string
  {
    "create temporary table " + otable + " as " + mapsql + d.stmtEnd
    + ".schema " + otable + " \n"
    + "select * from " + otable + "; \n"
  }

  function DataLine(d: Dialect, mapsql: string): string { mapsql + d.stmtEnd }

  /** The piece a block ends with: the schema block when `schema`, otherwise the statement alone. */
  function Tail(d: Dialect, otable: string, mapsql: string, schema: bool): string
  {
    if schema then SchemaBlock(d, otable, mapsql) else DataLine(d, mapsql)
  }

  /** The plain dialect's lines spelled out. */
  lemma PlainLines(otable: string, shard: string, mapsql: string)
    ensures ModeLine(otable) == ".mode insert " + otable + "\n"
    ensures OpenLine(Plain, shard) == ".open " + shard + "\n"
    ensures Tail(Plain, otable, mapsql, true)
            == "create temporary table " + otable + " as " + mapsql + "\n"
               + ".schema " + otable + " \n" + "select * from " + otable + "; \n"
    ensures Tail(Plain, otable, mapsql, false) == mapsql + "\n"
  {
  }

  /** The draft's lines spelled out: a space after the shard name, ` ;` after the statement. */
  lemma TerminatedLines(otable: string, shard: string, mapsql: string)
    ensures OpenLine(Terminated, shard) == ".open " + shard + " \n"
    ensures Tail(Terminated, otable, mapsql, true)
            == "create temporary table " + otable + " as " + mapsql + " ; \n"
               + ".schema " + otable + " \n" + "select * from " + otable + "; \n"
    ensures Tail(Terminated, otable, mapsql, false) == mapsql + " ; \n"
  {
  }

  /**
   * The block for shard `i`: open it, load the extensions, then the schema
   * block when the schema is wanted and this is the list's first entry,
   * otherwise the statement alone.
   */
  function Block(d: Dialect, otable: string, mapsql: string, exts: seq<string>, getschema: bool): (nat, string) -> seq<string>
  {
    (i: nat, shard: string) =>
      [OpenLine(d, shard)] + exts + [Tail(d, otable, mapsql, getschema && i == 0)]
  }

  /** The whole map script: the output mode, then one block per non-NULL shard. */
  function MapScript(d: Dialect, otable: string, shardv: seq<Option<string>>, mapsql: string, exts: seq<string>,
                     getschema: bool): seq<string>
  {
    [ModeLine(otable)] + Scripts.ShardBlocks(shardv, Block(d, otable, mapsql, exts, getschema))
  }

  /** The write loop: the mode line, then each shard's block in list order. */
  method WriteMapScript(d: Dialect, otable: string, shardv: seq<Option<string>>, mapsql: string, exts: seq<string>,
                        getschema: bool) returns (written: seq<string>)
    ensures written == MapScript(d, otable, shardv, mapsql, exts, getschema)
  {
    var blocks := Scripts.WriteShardBlocks(shardv, Block(d, otable, mapsql, exts, getschema));
    written := [ModeLine(otable)] + blocks;
  }

  /** Pieces per block. */
  function Width(exts: seq<string>): nat { |exts| + 2 }

  lemma BlockWidths(d: Dialect, otable: string, mapsql: string, exts: seq<string>, getschema: bool)
    ensures forall i, s :: |Block(d, otable, mapsql, exts, getschema)(i, s)| == Width(exts)
  {
  }

  /** The script's `j`-th block as a run of pieces, after the mode line. */
  lemma MapScriptBlock(d: Dialect, otable: string, shardv: seq<Option<string>>, mapsql: string, exts: seq<string>,
                        getschema: bool, j: nat)
    requires j < |Scripts.Present(shardv)|
    ensures |MapScript(d, otable, shardv, mapsql, exts, getschema)| == 1 + Scripts.Offset(|Scripts.Present(shardv)|, Width(exts))
    ensures MapScript(d, otable, shardv, mapsql, exts, getschema)[0] == ModeLine(otable)
    ensures var o, w := 1 + Scripts.Offset(j, Width(exts)), Width(exts);
            var entry := Scripts.Present(shardv)[j];
            o + w <= |MapScript(d, otable, shardv, mapsql, exts, getschema)|
            && MapScript(d, otable, shardv, mapsql, exts, getschema)[o..o + w]
               == [OpenLine(d, entry.1)] + exts
                  + [Tail(d, otable, mapsql, getschema && entry.0 == 0)]
  {
    var block := Block(d, otable, mapsql, exts, getschema);
    var w := Width(exts);
    var blocks := Scripts.ShardBlocks(shardv, block);
    var o := Scripts.Offset(j, w);
    var entry := Scripts.Present(shardv)[j];
    assert |blocks| == Scripts.Offset(|Scripts.Present(shardv)|, w) && o + w <= |blocks|
           && blocks[o..o + w] == block(entry.0, entry.1) by {
      BlockWidths(d, otable, mapsql, exts, getschema);
      Scripts.BlockSlice(shardv, block, w, j);
    }
    assert MapScript(d, otable, shardv, mapsql, exts, getschema) == [ModeLine(otable)] + blocks;
    Scripts.SliceAfterHead(ModeLine(otable), blocks, o, w);
  }

  /**
   * The script read back shard by shard: after the mode line, the `j`-th
   * non-NULL shard's block opens that shard, loads the extensions, and
   * ends with the schema block exactly when the schema is wanted and that
   * shard is the list's first entry; otherwise with the statement.  So a
   * NULL first entry means no schema block at all.
   */
  lemma MapScriptLayout(d: Dialect, otable: string, shardv: seq<Option<string>>, mapsql: string, exts: seq<string>,
                        getschema: bool, j: nat)
    requires j < |Scripts.Present(shardv)|
    ensures var p := MapScript(d, otable, shardv, mapsql, exts, getschema);
            var o, e := 1 + Scripts.Offset(j, Width(exts)), |exts|;
            var entry := Scripts.Present(shardv)[j];
            o + e + 2 <= |p| && p[0] == ModeLine(otable)
            && p[o] == OpenLine(d, entry.1) && p[o + 1..o + 1 + e] == exts
            && p[o + 1 + e] == Tail(d, otable, mapsql, getschema && entry.0 == 0)
  {
    var p := MapScript(d, otable, shardv, mapsql, exts, getschema);
    var o, w := 1 + Scripts.Offset(j, Width(exts)), Width(exts);
    var entry := Scripts.Present(shardv)[j];
    var first, last := OpenLine(d, entry.1), Tail(d, otable, mapsql, getschema && entry.0 == 0);
    assert w == |exts| + 2 && o + w <= |p| && p[0] == ModeLine(otable) && p[o..o + w] == [first] + exts + [last] by {
      MapScriptBlock(d, otable, shardv, mapsql, exts, getschema, j);
    }
    Scripts.BlockParts(p, o, w, first, exts, last);
  }

  /** For a list without NULL entries, block `j` starts at `1 + j * (|exts| + 2)` and belongs to shard `j`. */
  lemma MapScriptOfNames(d: Dialect, otable: string, names: seq<string>, mapsql: string, exts: seq<string>,
                         getschema: bool, j: nat)
    requires j < |names|
    ensures var p, w := MapScript(d, otable, Scripts.AllPresent(names), mapsql, exts, getschema), |exts| + 2;
            |p| == 1 + |names| * w && 1 + j * w + w <= |p|
            && p[1 + j * w..1 + j * w + w]
               == [OpenLine(d, names[j])] + exts
                  + [Tail(d, otable, mapsql, getschema && j == 0)]
  {
    var shardv := Scripts.AllPresent(names);
    Scripts.PresentOfAll(names);
    MapScriptBlock(d, otable, shardv, mapsql, exts, getschema, j);
    Scripts.OffsetIsProduct(j, Width(exts));
    Scripts.OffsetIsProduct(|names|, Width(exts));
  }

  // ---------------------------------------------------------------------
  // Reduce script (`query` of the insert-mode libraries)

  function ReadLine(file: string): string { ".read " + file + " \n" }

  const Begin := "BEGIN TRANSACTION;\n"

  const Commit := "COMMIT;\n"

  function Reads(files: seq<string>): (lines: seq<string>)
    ensures |lines| == |files| && forall k :: 0 <= k < |files| ==> lines[k] == ReadLine(files[k])
  {
    seq(|files|, k requires 0 <= k < |files| => ReadLine(files[k]))
  }

  lemma ReadsNext(files: seq<string>, k: nat)
    requires k < |files|
    ensures Reads(files[..k + 1]) == Reads(files[..k]) + [ReadLine(files[k])]
  {
  }

  /** The optional create statement, on its own line. */
  function CreateLines(d: Dialect, create: Option<string>): seq<string>
  {
    if create.Some? then [create.value + d.reduceEnd] else []
  }

  /** The head written when the reduce file is opened: extensions, the create statement, and `BEGIN` when transactional. */
  function ReduceHead(d: Dialect, exts: seq<string>, create: Option<string>, transaction: bool): seq<string>
  {
    exts + CreateLines(d, create) + (if transaction then [Begin] else [])
  }

  /** The tail written once the workers are done: `COMMIT` when transactional, then the reduce statement. */
  function ReduceTail(d: Dialect, transaction: bool, reducesql: string): seq<string>
  {
    (if transaction then [Commit] else []) + [reducesql + d.reduceEnd]
  }

  function ReduceScript(d: Dialect, exts: seq<string>, create: Option<string>, transaction: bool, files: seq<string>,
                        reducesql: string): seq<string>
  {
    ReduceHead(d, exts, create, transaction) + Reads(files) + ReduceTail(d, transaction, reducesql)
  }

  /**
   * The reduce script read back: the extensions, the create statement
   * when given, then (inside `BEGIN`/`COMMIT` when transactional) one
   * `.read` per results file in worker order, and the reduce statement
   * last.
   */
  lemma ReduceScriptLayout(d: Dialect, exts: seq<string>, create: Option<string>, transaction: bool, files: seq<string>,
                           reducesql: string)
    ensures var p := ReduceScript(d, exts, create, transaction, files, reducesql);
            var c := |CreateLines(d, create)|;
            var t := if transaction then 1 else 0;
            var h := |exts| + c + t;
            |p| == h + |files| + t + 1
            && p[..|exts|] == exts
            && (create.Some? ==> c == 1 && p[|exts|] == create.value + d.reduceEnd)
            && (create.None? ==> c == 0)
            && (transaction ==> p[h - 1] == Begin && p[h + |files|] == Commit)
            && (forall k :: 0 <= k < |files| ==> p[h + k] == ReadLine(files[k]))
            && p[|p| - 1] == reducesql + d.reduceEnd
  {
  }

  // ---------------------------------------------------------------------
  // Which worker prints the schema

  /**
   * The schema rule: only worker 0, only when no create statement is
   * given, and, in the libraries that ask for it, only when there is a
   * reduce statement to read the schema back.
   */
  predicate GetSchema(k: nat, create: Option<string>, reduce: Option<string>, needsReduce: bool)
  {
    k == 0 && create.None? && (!needsReduce || reduce.Some?)
  }

  /**
   * At most one worker prints the schema, and it is worker 0; a given
   * create statement always suppresses it; the rule that needs a reduce
   * statement is the narrower of the two.
   */
  lemma GetSchemaOnlyFirst(k: nat, create: Option<string>, reduce: Option<string>, needsReduce: bool)
    ensures GetSchema(k, create, reduce, needsReduce) ==> k == 0 && create.None?
    ensures create.Some? ==> !GetSchema(k, create, reduce, needsReduce)
    ensures GetSchema(k, create, reduce, true) ==> GetSchema(k, create, reduce, false)
    ensures GetSchema(0, None, None, false) && !GetSchema(0, None, None, true)
  {
  }

  /** Worker `k`'s output file in the early libraries: `<tmp>/results.core.NNN`. */
  function ResultsFile(tmp: string, k: nat): string { tmp + "/results.core." + Text.Pad3(k) }

  function ResultsFiles(tmp: string, n: nat): (files: seq<string>)
    ensures |files| == n && forall k :: 0 <= k < n ==> files[k] == ResultsFile(tmp, k)
  {
    seq(n, k requires 0 <= k < n => ResultsFile(tmp, k))
  }

  /** The reducer's line for worker `k`, spelled out. */
  lemma ReadResultsLine(tmp: string, k: nat)
    ensures ReadLine(ResultsFile(tmp, k)) == ".read " + tmp + "/results.core." + Text.Pad3(k) + " \n"
  {
  }

  /** Different workers write different output files, so the reducer reads each worker once. */
  lemma ResultsFileInjective(tmp: string, a: nat, b: nat)
    requires ResultsFile(tmp, a) == ResultsFile(tmp, b)
    ensures a == b
  {
    var p := |tmp + "/results.core."|;
    assert Text.Pad3(a) == ResultsFile(tmp, a)[p..] == ResultsFile(tmp, b)[p..] == Text.Pad3(b);
    Text.Pad3Injective(a, b);
  }

  // ---------------------------------------------------------------------
  // The query loop

  /**
   * The query as the loop sees it: the dialect, the output table, the
   * opened shard list, the worker count the shards are divided by, the
   * number of workers run, the statements, the extension lines, the
   * worker output files the reducer reads, and the variant's choices.
   */
  datatype Job = Job(d: Dialect, otable: string, shardv: seq<string>, ncores: nat, workers: nat, mapsql: string,
                     create: Option<string>, reduce: Option<string>, exts: seq<string>, outputs: seq<string>,
                     transaction: bool, needsReduce: bool)

  /** Shards are divided among `ncores` workers, of which the first `workers` run, each with an output file. */
  predicate JobValid(job: Job)
  {
    0 < job.ncores && job.workers <= job.ncores && |job.outputs| == job.workers
  }

  /** Worker `k`'s map script, on its share of the shards, with the schema only where the rule allows it. */
  function WorkerScript(job: Job, k: nat): seq<string>
    requires job.ncores > 0
  {
    MapScript(job.d, job.otable, Scripts.AllPresent(Partition.Picked(job.shardv, k, job.ncores)), job.mapsql, job.exts,
              GetSchema(k, job.create, job.reduce, job.needsReduce))
  }

  function WorkerScripts(job: Job, m: nat): (files: seq<Option<seq<string>>>)
    requires job.ncores > 0
    ensures |files| == m && forall k :: 0 <= k < m ==> files[k] == Some(WorkerScript(job, k))
  {
    seq(m, k requires 0 <= k < m => Some(WorkerScript(job, k)))
  }

  lemma WorkerScriptsNext(job: Job, m: nat)
    requires job.ncores > 0
    ensures WorkerScripts(job, m + 1) == WorkerScripts(job, m) + [Some(WorkerScript(job, m))]
  {
  }

  /**
   * What the query does: start every worker on its map script, wait for
   * all of them, then (with a reduce statement) run the reduce script
   * that reads their outputs back.
   */
  function Query(job: Job): Runs.Run
    requires JobValid(job)
  {
    Runs.Run(Trace.Run(job.workers, job.workers, Runs.ReduceEvents(job.reduce.Some?)),
             WorkerScripts(job, job.workers),
             if job.reduce.Some? then Some(ReduceScript(job.d, job.exts, job.create, job.transaction, job.outputs, job.reduce.value))
             else None)
  }

  /** One iteration's map side: pick worker `k`'s shards from the array and build its script. */
  method BuildWorkerScript(job: Job, shards: array<string>, k: nat) returns (script: seq<string>)
    requires JobValid(job) && k < job.workers && shards[..] == job.shardv
    ensures script == WorkerScript(job, k)
  {
    var mine := Partition.GetCoreShards(k, job.ncores, shards.Length, shards);
    assert shards[..shards.Length] == job.shardv;
    script := WriteMapScript(job.d, job.otable, Scripts.AllPresent(mine[..]), job.mapsql, job.exts,
                             GetSchema(k, job.create, job.reduce, job.needsReduce));
  }

  /**
   * One worker's turn (`RUN_CORE` in the unrolled libraries, the loop body
   * in the others): append the `.read` of its output to the reduce file,
   * pick its shards, build its map script, start it.
   */
  method RunCore(job: Job, shards: array<string>, k: nat, readLines: seq<string>, mapFiles: seq<Option<seq<string>>>,
                 started: seq<Trace.Event>)
    returns (nextLines: seq<string>, nextFiles: seq<Option<seq<string>>>, nextStarted: seq<Trace.Event>)
    requires JobValid(job) && k < job.workers && shards[..] == job.shardv
    requires readLines == Reads(job.outputs[..k]) && mapFiles == WorkerScripts(job, k) && started == Trace.Starts(k)
    ensures nextLines == Reads(job.outputs[..k + 1]) && nextFiles == WorkerScripts(job, k + 1)
    ensures nextStarted == Trace.Starts(k + 1)
  {
    ReadsNext(job.outputs, k);
    nextLines := readLines + [ReadLine(job.outputs[k])];
    var script := BuildWorkerScript(job, shards, k);
    WorkerScriptsNext(job, k);
    nextFiles := mapFiles + [Some(script)];
    Trace.StartsNext(k);
    nextStarted := started + [Trace.StartMap(k)];
  }

  /** After the workers: the reduce file is finished only when there is a reduce statement, then the reducer runs. */
  function Finish(job: Job, trace: seq<Trace.Event>, readLines: seq<string>, mapFiles: seq<Option<seq<string>>>): Runs.Run
  {
    Runs.Run(trace + Runs.ReduceEvents(job.reduce.Some?), mapFiles,
             if job.reduce.Some? then Some(ReduceHead(job.d, job.exts, job.create, job.transaction) + readLines
                                           + ReduceTail(job.d, job.transaction, job.reduce.value))
             else None)
  }

  /**
   * The loop over workers, one turn each; then wait for every worker and
   * finish the reduce file before running the reducer.
   */
  method RunQuery(job: Job) returns (r: Runs.Run)
    requires JobValid(job)
    ensures r == Query(job)
  {
    var n := job.workers;
    var readLines: seq<string> := [];
    var shards := new string[|job.shardv|](i requires 0 <= i < |job.shardv| => job.shardv[i]);
    var mapFiles: seq<Option<seq<string>>> := [];
    var started: seq<Trace.Event> := [];
    var k := 0;
    while k < n
      invariant 0 <= k <= n
      invariant shards[..] == job.shardv
      invariant readLines == Reads(job.outputs[..k])
      invariant mapFiles == WorkerScripts(job, k)
      invariant started == Trace.Starts(k)
    {
      readLines, mapFiles, started := RunCore(job, shards, k, readLines, mapFiles, started);
      k := k + 1;
    }
    assert job.outputs[..k] == job.outputs;
    var trace := Runs.WaitAll(started, n);
    r := Finish(job, trace, readLines, mapFiles);
  }

  /** The unrolled libraries: three turns written out, three waits, then the reducer. */
  method RunQueryUnrolled(job: Job) returns (r: Runs.Run)
    requires JobValid(job) && job.workers == 3
    ensures r == Query(job)
  {
    var shards := new string[|job.shardv|](i requires 0 <= i < |job.shardv| => job.shardv[i]);
    assert job.outputs[..0] == [];
    var readLines, mapFiles, started := RunCore(job, shards, 0, [], [], []);
    readLines, mapFiles, started := RunCore(job, shards, 1, readLines, mapFiles, started);
    readLines, mapFiles, started := RunCore(job, shards, 2, readLines, mapFiles, started);
    assert job.outputs[..3] == job.outputs;
    assert Trace.Finishes(3) == [Trace.FinishMap(0), Trace.FinishMap(1), Trace.FinishMap(2)];
    var trace := started + [Trace.FinishMap(0), Trace.FinishMap(1), Trace.FinishMap(2)];
    r := Finish(job, trace, readLines, mapFiles);
  }

  /**
   * The order the query keeps: every worker is started and waited for,
   * the reducer only after all of them and only with a reduce statement,
   * which is also exactly when a reduce file is written; that file reads
   * every worker's output, in worker order.
   */
  lemma QueryOrder(job: Job)
    requires JobValid(job)
    ensures Trace.WellNested(Query(job).trace)
    ensures Trace.ReduceAfterMaps(Query(job).trace, job.workers) && Trace.Unreaped(Query(job).trace) == {}
    ensures Trace.StartReduce in Query(job).trace <==> job.reduce.Some?
    ensures Query(job).reduceFile.Some? <==> job.reduce.Some?
    ensures job.reduce.Some? ==>
              var h := |ReduceHead(job.d, job.exts, job.create, job.transaction)|;
              var p := Query(job).reduceFile.value;
              |p| > h + |job.outputs|
              && (forall k :: 0 <= k < job.workers ==> p[h + k] == ReadLine(job.outputs[k]))
              && p[|p| - 1] == job.reduce.value + job.d.reduceEnd
  {
    Runs.WaitedRunOrder(job.workers, job.reduce.Some?);
    if job.reduce.Some? {
      ReduceScriptLayout(job.d, job.exts, job.create, job.transaction, job.outputs, job.reduce.value);
    }
  }

  /**
   * The reduce file read back: the extensions, the create statement when
   * given, `BEGIN` when transactional, one `.read` per worker's output
   * file in worker order, `COMMIT` when transactional, and the reduce
   * statement last.
   */
  lemma QueryReduceLayout(job: Job)
    requires JobValid(job) && job.reduce.Some?
    ensures var p, e := Query(job).reduceFile.value, |job.exts|;
            var c, t := if job.create.Some? then 1 else 0, if job.transaction then 1 else 0;
            |p| == e + c + t + job.workers + t + 1 && p[..e] == job.exts
            && (job.create.Some? ==> p[e] == job.create.value + job.d.reduceEnd)
            && (job.transaction ==> p[e + c] == Begin && p[e + c + 1 + job.workers] == Commit)
            && (forall k :: 0 <= k < job.workers ==> p[e + c + t + k] == ReadLine(job.outputs[k]))
            && p[|p| - 1] == job.reduce.value + job.d.reduceEnd
  {
    ReduceScriptLayout(job.d, job.exts, job.create, job.transaction, job.outputs, job.reduce.value);
  }

  lemma QueryMapFile(job: Job, k: nat)
    requires JobValid(job) && k < job.workers
    ensures Query(job).mapFiles[k] == Some(WorkerScript(job, k))
  {
  }

  /**
   * Worker `k`'s script read back block by block: after the mode line,
   * block `j` opens the `j`-th shard of the worker's share, loads the
   * extensions, and ends with the schema block exactly when it is the
   * share's first shard and the schema rule holds for `k` (so only
   * worker 0 can print it); every other block ends with the statement.
   */
  lemma {:induction false} WorkerBlock(job: Job, k: nat, j: nat)
    requires job.ncores > 0 && j < |Partition.Picked(job.shardv, k, job.ncores)|
    ensures var p := WorkerScript(job, k);
            var o, e := 1 + Scripts.Offset(j, Width(job.exts)), |job.exts|;
            o + e + 2 <= |p| && p[0] == ModeLine(job.otable)
            && p[o] == OpenLine(job.d, Partition.Picked(job.shardv, k, job.ncores)[j]) && p[o + 1..o + 1 + e] == job.exts
            && p[o + 1 + e] == Tail(job.d, job.otable, job.mapsql, j == 0 && GetSchema(k, job.create, job.reduce, job.needsReduce))
    ensures GetSchema(k, job.create, job.reduce, job.needsReduce) ==> k == 0
  {
    var mine := Partition.Picked(job.shardv, k, job.ncores);
    Scripts.PresentOfAll(mine);
    MapScriptLayout(job.d, job.otable, Scripts.AllPresent(mine), job.mapsql, job.exts,
                    GetSchema(k, job.create, job.reduce, job.needsReduce), j);
  }

  /** `WorkerBlock` with the block's shard and schema choice named by the caller. */
  lemma WorkerBlockAs(job: Job, k: nat, j: nat, shard: string, schema: bool)
    requires job.ncores > 0 && j < |Partition.Picked(job.shardv, k, job.ncores)|
    requires shard == Partition.Picked(job.shardv, k, job.ncores)[j]
    requires schema == (j == 0 && GetSchema(k, job.create, job.reduce, job.needsReduce))
    ensures var p := WorkerScript(job, k);
            var o, e := 1 + Scripts.Offset(j, Width(job.exts)), |job.exts|;
            o + e + 2 <= |p| && p[0] == ModeLine(job.otable)
            && p[o] == OpenLine(job.d, shard) && p[o + 1..o + 1 + e] == job.exts
            && p[o + 1 + e] == Tail(job.d, job.otable, job.mapsql, schema)
  {
    WorkerBlock(job, k, j);
  }

  /**
   * Every shard `s` belongs to worker `s % n` (`n` the processor count),
   * as block `s / n` of its script, after the mode line: the block opens
   * that shard, loads the extensions, and ends with the schema block
   * exactly for the list's first shard under the schema rule, otherwise
   * with the statement.
   */
  lemma {:induction false} QueryShardBlock(job: Job, s: nat)
    requires job.ncores > 0 && s < |job.shardv|
    ensures var k, j := Partition.Owner(s, job.ncores), Partition.Slot(s, job.ncores);
            var p := WorkerScript(job, k);
            var o, e := 1 + Scripts.Offset(j, Width(job.exts)), |job.exts|;
            o + e + 2 <= |p| && p[0] == ModeLine(job.otable)
            && p[o] == OpenLine(job.d, job.shardv[s]) && p[o + 1..o + 1 + e] == job.exts
            && p[o + 1 + e] == Tail(job.d, job.otable, job.mapsql, s == 0 && GetSchema(0, job.create, job.reduce, job.needsReduce))
  {
    var n := job.ncores;
    var k, j := Partition.Owner(s, n), Partition.Slot(s, n);
    assert j < |Partition.Picked(job.shardv, k, n)| && Partition.Picked(job.shardv, k, n)[j] == job.shardv[s] by {
      Partition.EveryShardPicked(job.shardv, n, s);
    }
    assert (j == 0 && GetSchema(k, job.create, job.reduce, job.needsReduce))
           == (s == 0 && GetSchema(0, job.create, job.reduce, job.needsReduce)) by {
      Partition.FirstSlot(s, n);
    }
    WorkerBlockAs(job, k, j, job.shardv[s], s == 0 && GetSchema(0, job.create, job.reduce, job.needsReduce));
  }
}
