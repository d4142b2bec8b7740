/**
 * The library version `src/libmulticoresql.c`: its `mu_query3` (three
 * `.mode insert` workers whose output the reducer `.read`s back inside a
 * transaction) and its `mu_query` (the select/attach scripts with `pragma`
 * lines), both built on `mu_define_task`/`mu_finish_task`, which stop the
 * query at the first failure.
 *
 * Every print goes through `MU_FPRINTF`, whose test as written takes any
 * non-zero count from `fprintf` for a failure.  The writers below take
 * the test as a parameter: `asWritten` runs the code as it stands, where
 * the first successful non-empty print ends the query; otherwise the
 * reference library's test (a negative count) is used, and since `fprintf`
 * is taken to succeed, no print fails.  The temporary directory, the
 * memoised extension text, the exit statuses and the files on disk are
 * inputs.
 */
module LibSql {
  import opened Wrappers
  import Partition
  import Scripts
  import Trace
  import SmallFiles
  import Tasks
  import Config
  import Classify
  import Extensions
  import ModeInsert
  import AttachMode
  import MulticoreSql

  // ---------------------------------------------------------------------
  // MU_FPRINTF

  /** The test `MU_FPRINTF` applies to `fprintf`'s count: as written any non-zero count, as intended a negative one. */
  predicate PrintFails(asWritten: bool, count: int)
  {
    if asWritten then count != 0 else count < 0
  }

  /** One `MU_FPRINTF`: the whole piece is written and its length returned, then the test decides. */
  method Print(file: seq<string>, piece: string, asWritten: bool) returns (next: seq<string>, failed: bool)
    ensures next == file + [piece]
    ensures failed <==> asWritten && piece != []
  {
    var count := |piece|;
    next := file + [piece];
    failed := PrintFails(asWritten, count);
  }

  function NonEmpty(pieces: seq<string>): (flags: seq<bool>)
    ensures |flags| == |pieces| && forall i :: 0 <= i < |pieces| ==> (flags[i] <==> pieces[i] != [])
  {
    seq(|pieces|, i requires 0 <= i < |pieces| => pieces[i] != [])
  }

  /** The first non-empty piece (the length when there is none): where the as-written test stops a writer. */
  function FirstNonEmpty(pieces: seq<string>): nat
  {
    Trace.FirstTrue(NonEmpty(pieces))
  }

  lemma FirstNonEmptyHead(pieces: seq<string>)
    requires |pieces| > 0 && pieces[0] != []
    ensures FirstNonEmpty(pieces) == 0
  {
    Trace.FirstTrueUnique(NonEmpty(pieces), 0);
  }

  /**
   * A writer's `MU_FPRINTF` calls, one per piece.  With the intended test
   * every piece is written; as written, the writer stops right after the
   * first non-empty piece and reports failure, and goes on only past
   * empty ones.
   */
  method PrintEach(file: seq<string>, pieces: seq<string>, asWritten: bool) returns (next: seq<string>, ok: bool)
    ensures !asWritten ==> ok && next == file + pieces
    ensures asWritten ==> var f := FirstNonEmpty(pieces);
              (ok <==> f == |pieces|) && next == file + pieces[..if ok then f else f + 1]
  {
    next := file;
    var i := 0;
    while i < |pieces|
      invariant 0 <= i <= |pieces|
      invariant next == file + pieces[..i]
      invariant asWritten ==> forall j :: 0 <= j < i ==> pieces[j] == []
    {
      var failed;
      next, failed := Print(next, pieces[i], asWritten);
      assert pieces[..i + 1] == pieces[..i] + [pieces[i]];
      if failed {
        Trace.FirstTrueUnique(NonEmpty(pieces), i);
        return next, false;
      }
      i := i + 1;
    }
    assert pieces[..i] == pieces;
    if asWritten {
      Trace.FirstTrueUnique(NonEmpty(pieces), |pieces|);
    }
    ok := true;
  }

  // ---------------------------------------------------------------------
  // Map scripts

  /**
   * `mu_makeQueryCoreFile3`: the `.mode insert` script, printed piece by
   * piece.  As written the mode line, the first thing printed, already
   * fails, and -1 is returned with only that line in the file.
   */
  method MakeQueryCoreFile3(otable: string, getschema: bool, shardv: seq<Option<string>>, mapsql: string,
                            exts: seq<string>, asWritten: bool) returns (rc: int, file: seq<string>)
    ensures !asWritten ==> rc == 0 && file == ModeInsert.MapScript(ModeInsert.Plain, otable, shardv, mapsql, exts, getschema)
    ensures asWritten ==> rc == -1 && file == [ModeInsert.ModeLine(otable)]
  {
    var script := ModeInsert.WriteMapScript(ModeInsert.Plain, otable, shardv, mapsql, exts, getschema);
    assert script[0] == ModeInsert.ModeLine(otable);
    FirstNonEmptyHead(script);
    var ok;
    file, ok := PrintEach([], script, asWritten);
    rc := if ok then 0 else -1;
  }

  /**
   * `mu_makeQueryCoreFile`: refuse an empty shard list or statement before
   * any file is opened, otherwise print the select/attach script with its
   * `pragma` lines, the select recognised after leading blanks.  As
   * written the first shard's `.open` line fails.
   */
  method MakeQueryCoreFile(otable: string, coredb: string, shards: seq<string>, mapsql: string, exts: seq<string>,
                           asWritten: bool) returns (rc: int, file: Option<seq<string>>)
    ensures shards == [] || mapsql == [] ==> rc == -1 && file == None
    ensures shards != [] && mapsql != [] && !asWritten ==>
              rc == 0
              && file == AttachMode.MapFile(otable, coredb, Scripts.AllPresent(shards), mapsql, exts,
                                            Classify.StartsWithSelect(mapsql), true)
    ensures shards != [] && mapsql != [] && asWritten ==> rc == -1 && file == Some([MulticoreSql.ShardOpen(shards[0])])
  {
    var shardv := Scripts.AllPresent(shards);
    if |shardv| == 0 || |mapsql| == 0 {
      return -1, None;
    }
    var isSelect := Classify.IsMuSelect(mapsql);
    var script := AttachMode.WriteMapFile(otable, coredb, shardv, mapsql, exts, isSelect, true);
    assert script.Some? && script.value[0] == MulticoreSql.ShardOpen(shards[0]) by {
      Scripts.PresentOfAll(shards);
      assert Scripts.Present(shardv)[0] == (0, shards[0]);
      AttachMode.MapFileLayout(otable, coredb, shardv, mapsql, exts, isSelect, true, 0, 0, shards[0]);
      var w := AttachMode.Width(exts, isSelect, true);
      assert Scripts.Offset(0, w) == 0;
      assert script.value[0] == script.value[0..w][0];
    }
    FirstNonEmptyHead(script.value);
    var written, ok := PrintEach([], script.value, asWritten);
    if asWritten {
      assert written == [script.value[0]];
    } else {
      assert written == script.value;
    }
    return if ok then 0 else -1, Some(written);
  }

  // ---------------------------------------------------------------------
  // Tasks

  /**
   * What a query leaves behind: its return code, the order of process
   * starts and waits, the map files written (as far as they were
   * written) and what the reduce file holds when the function returns.
   */
  datatype LibRun = LibRun(rc: int, trace: seq<Trace.Event>, mapFiles: seq<Option<seq<string>>>, reduceFile: Option<seq<string>>)

  /** `mu_finish_task` on each map task: a non-zero status or an error file read back. */
  function MapFailed(tmp: string, statuses: seq<int>, disk: SmallFiles.Disk): (fail: seq<bool>)
    ensures |fail| == |statuses|
    ensures forall k :: 0 <= k < |statuses| ==>
              fail[k] == Tasks.TaskFailed(statuses[k], SmallFiles.ReadSmallFileLib(disk, Some(Tasks.TaskFile(tmp, "mapsql", "err", k))))
  {
    seq(|statuses|, k requires 0 <= k < |statuses| =>
          Tasks.TaskFailed(statuses[k], SmallFiles.ReadSmallFileLib(disk, Some(Tasks.TaskFile(tmp, "mapsql", "err", k)))))
  }

  /** `mu_finish_task` on the reduce task. */
  predicate ReducerFailed(tmp: string, status: int, disk: SmallFiles.Disk)
  {
    Tasks.TaskFailed(status, SmallFiles.ReadSmallFileLib(disk, Some(Tasks.TaskFile(tmp, "reducesql", "err", 0))))
  }

  /** The wait loop: `mu_finish_task` on workers `0 .. n-1` in order, stopping at the first failure. */
  method FinishAll(started: seq<Trace.Event>, failed: seq<bool>) returns (trace: seq<Trace.Event>, ok: bool)
    ensures var f := Trace.FirstTrue(failed);
            (ok <==> f == |failed|) && trace == started + Trace.Finishes(if ok then f else f + 1)
  {
    trace := started;
    var k := 0;
    while k < |failed|
      invariant 0 <= k <= |failed|
      invariant trace == started + Trace.Finishes(k)
      invariant forall j :: 0 <= j < k ==> !failed[j]
    {
      assert Trace.Finishes(k + 1) == Trace.Finishes(k) + [Trace.FinishMap(k)];
      trace := trace + [Trace.FinishMap(k)];
      if failed[k] {
        Trace.FirstTrueUnique(failed, k);
        return trace, false;
      }
      k := k + 1;
    }
    Trace.FirstTrueUnique(failed, |failed|);
    ok := true;
  }

  /**
   * The end of both queries once every worker is started: wait for the
   * workers in order and return -1 at the first failure, the reduce file
   * left with what was `partial`ly written; otherwise, with a reduce
   * statement, complete the reduce file and run the reducer, whose failure
   * decides the return code.
   */
  function Waited(failed: seq<bool>, files: seq<Option<seq<string>>>, reduce: Option<string>, partial: seq<string>,
                  full: seq<string>, reducerFailed: bool): LibRun
  {
    var n, f := |failed|, Trace.FirstTrue(failed);
    var trace := WaitTrace(n, f, reduce.Some?);
    if f < n then LibRun(-1, trace, files, if reduce.Some? then Some(partial) else None)
    else if reduce.None? then LibRun(0, trace, files, None)
    else LibRun(if reducerFailed then -1 else 0, trace, files, Some(full))
  }

  /**
   * The processes `Waited` starts and reaps: every worker started, then
   * reaped up to the first failed one `f` (all `n` when `f == n`), then
   * the reducer when every worker succeeded and there is a reduce statement.
   */
  function WaitTrace(n: nat, f: nat, withReduce: bool): seq<Trace.Event>
    requires f <= n
  {
    if f < n then Trace.Run(n, f + 1, [])
    else if !withReduce then Trace.Run(n, n, [])
    else Trace.Run(n, n, [Trace.StartReduce, Trace.FinishReduce])
  }

  /** The wait loop, then (with a reduce statement) the reduce file's `tail` and the reducer. */
  method WaitAndReduce(failed: seq<bool>, files: seq<Option<seq<string>>>, reduce: Option<string>, partial: seq<string>,
                       tail: seq<string>, reducerFailed: bool) returns (r: LibRun)
    ensures r == Waited(failed, files, reduce, partial, partial + tail, reducerFailed)
  {
    var trace, ok := FinishAll(Trace.Starts(|failed|), failed);
    if !ok {
      return LibRun(-1, trace, files, if reduce.Some? then Some(partial) else None);
    }
    if reduce.None? {
      return LibRun(0, trace, files, None);
    }
    var reducef;
    reducef, ok := PrintEach(partial, tail, false);
    return LibRun(if reducerFailed then -1 else 0, trace + [Trace.StartReduce, Trace.FinishReduce], files, Some(reducef));
  }

  // ---------------------------------------------------------------------
  // mu_query3

  /** The output files of the three map tasks, `<tmp>/mapsql.out.NNN`. */
  function Outputs3(tmp: string): (outs: seq<string>)
    ensures |outs| == 3 && forall k :: 0 <= k < 3 ==> outs[k] == Tasks.TaskFile(tmp, "mapsql", "out", k)
  {
    [Tasks.TaskFile(tmp, "mapsql", "out", 0), Tasks.TaskFile(tmp, "mapsql", "out", 1), Tasks.TaskFile(tmp, "mapsql", "out", 2)]
  }

  /**
   * The work of `mu_query3`: three workers on the shards split `ncores`
   * ways, the extension text printed as it is, the reads inside
   * `BEGIN TRANSACTION;`/`COMMIT;`, and the schema from worker 0 only when
   * there is a reduce statement and no create statement.
   */
  function Job3(otable: string, shardv: seq<string>, ncores: nat, mapsql: string, create: Option<string>,
                reduce: Option<string>, tmp: string, exts: Option<string>): (job: ModeInsert.Job)
    ensures ncores >= 3 ==> ModeInsert.JobValid(job)
  {
    ModeInsert.Job(ModeInsert.Plain, otable, shardv, ncores, 3, mapsql, create, reduce, Extensions.PutText(exts),
                   Outputs3(tmp), true, true)
  }

  /**
   * `mu_query3` with the intended test: write the reduce head, run the
   * three workers (each adding its `.read` line first), wait for them in
   * order and stop at the first failure; then finish the reduce file and
   * run the reducer, whose failure is the query's.
   */
  function Query3(conf: Config.DbConf, mapsql: string, create: Option<string>, reduce: Option<string>, tmpdir: Option<string>,
                  exts: Option<string>, statuses: seq<int>, reduceStatus: int, disk: SmallFiles.Disk): LibRun
    requires conf.ncores >= 3 && |statuses| == 3
  {
    if tmpdir.None? then LibRun(-1, [], [], None)
    else
      var tmp := tmpdir.value;
      var job := Job3(conf.otablename, conf.shardv, conf.ncores, mapsql, create, reduce, tmp, exts);
      var files := ModeInsert.WorkerScripts(job, 3);
      var head := ModeInsert.ReduceHead(ModeInsert.Plain, job.exts, create, true) + ModeInsert.Reads(job.outputs);
      Waited(MapFailed(tmp, statuses, disk), files, reduce, head,
             if reduce.Some? then ModeInsert.ReduceScript(ModeInsert.Plain, job.exts, create, true, job.outputs, reduce.value) else [],
             ReducerFailed(tmp, reduceStatus, disk))
  }

  /**
   * `mu_query3` as written: with a reduce statement the first print into
   * the reduce file (the create statement, or `BEGIN TRANSACTION;`) ends
   * it, otherwise worker 0's mode line does; no process is ever started.
   */
  function Query3AsWritten(otable: string, create: Option<string>, reduce: Option<string>, tmpdir: Option<string>,
                           exts: Option<string>): LibRun
  {
    if tmpdir.None? then LibRun(-1, [], [], None)
    else if reduce.Some? then
      LibRun(-1, [], [], Some(Extensions.PutText(exts) + [if create.Some? then create.value + "\n" else ModeInsert.Begin]))
    else LibRun(-1, [], [Some([ModeInsert.ModeLine(otable)])], None)
  }

  /**
   * One `RUN_CORE`: with a reduce statement, print the `.read` of worker
   * `k`'s output into the reduce file; then pick the worker's shards,
   * write its map file and start it.  As written only worker 0 with no
   * reduce statement gets this far, and its mode line ends the query.
   */
  method RunCore3(job: ModeInsert.Job, shards: array<string>, k: nat, head: seq<string>, reducef: seq<string>,
                  files: seq<Option<seq<string>>>, trace: seq<Trace.Event>, asWritten: bool)
    returns (nextReduce: seq<string>, nextFiles: seq<Option<seq<string>>>, nextTrace: seq<Trace.Event>, ok: bool)
    requires ModeInsert.JobValid(job) && job.d == ModeInsert.Plain && k < job.workers && shards[..] == job.shardv
    requires k > 0 || job.reduce.Some? ==> !asWritten
    requires reducef == if job.reduce.Some? then head + ModeInsert.Reads(job.outputs[..k]) else []
    requires files == ModeInsert.WorkerScripts(job, k) && trace == Trace.Starts(k)
    ensures !asWritten ==> ok && nextTrace == Trace.Starts(k + 1) && nextFiles == ModeInsert.WorkerScripts(job, k + 1)
                           && nextReduce == if job.reduce.Some? then head + ModeInsert.Reads(job.outputs[..k + 1]) else []
    ensures asWritten ==> !ok && nextTrace == [] && nextFiles == [Some([ModeInsert.ModeLine(job.otable)])] && nextReduce == []
  {
    nextReduce := reducef;
    if job.reduce.Some? {
      ModeInsert.ReadsNext(job.outputs, k);
      nextReduce, ok := PrintEach(reducef, [ModeInsert.ReadLine(job.outputs[k])], asWritten);
    }
    var mine := Partition.GetCoreShards(k, job.ncores, shards.Length, shards);
    assert shards[..shards.Length] == job.shardv;
    var rc, file := MakeQueryCoreFile3(job.otable, ModeInsert.GetSchema(k, job.create, job.reduce, job.needsReduce),
                                       Scripts.AllPresent(mine[..]), job.mapsql, job.exts, asWritten);
    ModeInsert.WorkerScriptsNext(job, k);
    nextFiles := files + [Some(file)];
    if rc != 0 {
      return nextReduce, nextFiles, trace, false;
    }
    Trace.StartsNext(k);
    nextTrace := trace + [Trace.StartMap(k)];
    ok := true;
  }

  /**
   * `mu_query3`, step by step as the source writes it (`RUN_CORE` three
   * times), with the `MU_FPRINTF` test chosen by `asWritten`.  The
   * configuration must split the shards at least three ways: the only
   * caller sets three.  With fewer, worker 2's list from
   * `mu_getcoreshardv` holds more slots than its loop fills (two cores and
   * an even shard count), and the map file reads an uninitialised entry.
   */
  method RunQuery3(conf: Config.DbConf, mapsql: string, create: Option<string>, reduce: Option<string>,
                   tmpdir: Option<string>, exts: Option<string>, statuses: seq<int>, reduceStatus: int,
                   disk: SmallFiles.Disk, asWritten: bool) returns (r: LibRun)
    requires conf.ncores >= 3 && |statuses| == 3
    ensures asWritten ==> r == Query3AsWritten(conf.otablename, create, reduce, tmpdir, exts)
    ensures !asWritten ==> r == Query3(conf, mapsql, create, reduce, tmpdir, exts, statuses, reduceStatus, disk)
  {
    if tmpdir.None? {
      return LibRun(-1, [], [], None);
    }
    var tmp := tmpdir.value;
    var job := Job3(conf.otablename, conf.shardv, conf.ncores, mapsql, create, reduce, tmp, exts);
    var head := ModeInsert.ReduceHead(ModeInsert.Plain, job.exts, create, true);
    var reducef, ok := OpenReduce3(job, asWritten);
    if !ok {
      return LibRun(-1, [], [], Some(reducef));
    }
    var shards := new string[|job.shardv|](i requires 0 <= i < |job.shardv| => job.shardv[i]);
    var trace: seq<Trace.Event> := [];
    var files: seq<Option<seq<string>>> := [];
    var k := 0;
    while k < 3
      invariant 0 <= k <= 3
      invariant shards[..] == job.shardv
      invariant k > 0 || reduce.Some? ==> !asWritten
      invariant reducef == if reduce.Some? then head + ModeInsert.Reads(job.outputs[..k]) else []
      invariant files == ModeInsert.WorkerScripts(job, k) && trace == Trace.Starts(k)
    {
      reducef, files, trace, ok := RunCore3(job, shards, k, head, reducef, files, trace, asWritten);
      if !ok {
        return LibRun(-1, trace, files, None);
      }
      k := k + 1;
    }
    assert job.outputs[..3] == job.outputs;
    r := WaitAndReduce(MapFailed(tmp, statuses, disk), files, reduce, reducef,
                       if reduce.Some? then ModeInsert.ReduceTail(ModeInsert.Plain, true, reduce.value) else [],
                       ReducerFailed(tmp, reduceStatus, disk));
  }

  /**
   * The start of `mu_query3`'s reduce file, when there is a reduce
   * statement: the extension text, then the create statement or
   * `BEGIN TRANSACTION;`.  As written the first of those two ends the query.
   */
  method OpenReduce3(job: ModeInsert.Job, asWritten: bool) returns (reducef: seq<string>, ok: bool)
    requires job.d == ModeInsert.Plain
    ensures ok <==> !(asWritten && job.reduce.Some?)
    ensures ok ==> reducef == if job.reduce.Some? then ModeInsert.ReduceHead(ModeInsert.Plain, job.exts, job.create, true)
                                                       + ModeInsert.Reads(job.outputs[..0]) else []
    ensures !ok ==> reducef == job.exts + [if job.create.Some? then job.create.value + "\n" else ModeInsert.Begin]
  {
    reducef, ok := [], true;
    if job.reduce.Some? {
      var opening := ModeInsert.CreateLines(ModeInsert.Plain, job.create) + [ModeInsert.Begin];
      FirstNonEmptyHead(opening);
      reducef, ok := PrintEach(job.exts, opening, asWritten);
      if !ok {
        assert opening[..1] == [if job.create.Some? then job.create.value + "\n" else ModeInsert.Begin];
        return;
      }
      assert reducef == ModeInsert.ReduceHead(ModeInsert.Plain, job.exts, job.create, true) + ModeInsert.Reads(job.outputs[..0]);
    }
  }

  // ---------------------------------------------------------------------
  // mu_query

  /**
   * The work of `mu_query` for an open configuration: one worker per
   * processor, the memoised extension text, the select test after leading
   * blanks, and `pragma` lines in every script.
   */
  function QueryJob(c: Config.DbConf, mapsql: string, reduce: Option<string>, tmp: string, exts: Option<string>): (job: AttachMode.Job)
    requires c.ncores > 0
    ensures job.ncores == c.ncores && job.pragma && job.otable == c.otablename && job.shardv == c.shardv
    ensures job.isSelect <==> Classify.SelectAfterBlanks(mapsql)
  {
    Classify.StartsWithSelectMeaning(mapsql);
    AttachMode.Job(c.otablename, c.shardv, c.ncores, mapsql, reduce, tmp, Extensions.PutText(exts),
                   Classify.StartsWithSelect(mapsql), true)
  }

  /**
   * `mu_query` with the intended test: refuse a NULL configuration or
   * statement and a missing temporary directory; open the reduce file;
   * then per worker print its gather into the reduce file, write its map
   * file and start it, returning -1 at the first worker whose map file is
   * refused (one with no shard, or an empty statement) with the workers
   * before it still running; then wait and reduce as the other queries do.
   */
  function Query(conf: Option<Config.DbConf>, mapsql: Option<string>, reduce: Option<string>, tmpdir: Option<string>,
                 exts: Option<string>, statuses: seq<int>, reduceStatus: int, disk: SmallFiles.Disk): LibRun
    requires conf.Some? ==> conf.value.ncores > 0 && |statuses| == conf.value.ncores
  {
    if conf.None? || mapsql.None? || tmpdir.None? then LibRun(-1, [], [], None)
    else Launched(QueryJob(conf.value, mapsql.value, reduce, tmpdir.value, exts), statuses, reduceStatus, disk)
  }

  /** `mu_query` once the reduce file is open: the worker loop, the wait and the reducer. */
  function Launched(job: AttachMode.Job, statuses: seq<int>, reduceStatus: int, disk: SmallFiles.Disk): LibRun
    requires job.ncores > 0 && |statuses| == job.ncores
  {
    var n, tmp := job.ncores, job.tmp;
    var files := AttachMode.WorkerFiles(job, n);
    var b := Trace.FirstNone(files);
    var gathered := Gathered(job, AttachMode.ReduceHead(tmp, job.exts, true), if b < n then b + 1 else n);
    if b < n then LibRun(-1, Trace.Starts(b), files[..b], if job.reduce.Some? then Some(gathered) else None)
    else
      Waited(MapFailed(tmp, statuses, disk), files, job.reduce, gathered,
             if job.reduce.Some? then AttachMode.ReduceScript(job.otable, tmp, n, job.exts, true, job.reduce.value) else [],
             ReducerFailed(tmp, reduceStatus, disk))
  }

  /**
   * `mu_query` as written: with a reduce statement its first line, the
   * `.open` of worker 0's database, ends the query; otherwise worker 0's
   * map file is refused or its first `.open` line ends it.  No process is
   * ever started.
   */
  function QueryAsWritten(conf: Option<Config.DbConf>, mapsql: Option<string>, reduce: Option<string>,
                          tmpdir: Option<string>): LibRun
  {
    if conf.None? || mapsql.None? || tmpdir.None? then LibRun(-1, [], [], None)
    else if reduce.Some? then LibRun(-1, [], [], Some([".open " + AttachMode.CoreDb(tmpdir.value, 0) + "\n"]))
    else if conf.value.shardv == [] || mapsql.value == [] then LibRun(-1, [], [], None)
    else LibRun(-1, [], [Some([MulticoreSql.ShardOpen(conf.value.shardv[0])])], None)
  }

  /** The gathers for workers `0 .. k-1` in the reduce file after its head, or nothing without a reduce statement. */
  function Gathered(job: AttachMode.Job, head: seq<string>, k: nat): seq<string>
    requires k <= job.ncores
  {
    if job.reduce.Some? then head + MulticoreSql.Gathers(job.otable, AttachMode.CoreDbs(job.tmp, job.ncores), k) else []
  }

  /** The top of `mu_query`'s worker loop: worker `k >= 1` gets its gather in the reduce file. */
  method PrintGather(job: AttachMode.Job, k: nat, head: seq<string>, reducef: seq<string>, asWritten: bool)
    returns (next: seq<string>)
    requires k < job.ncores && reducef == Gathered(job, head, k)
    requires k > 0 && job.reduce.Some? ==> !asWritten
    ensures next == Gathered(job, head, k + 1)
  {
    AttachMode.GathersNext(job.otable, job.tmp, job.ncores, k);
    next := reducef;
    if job.reduce.Some? && k > 0 {
      var ok;
      next, ok := PrintEach(reducef, MulticoreSql.Gather(job.otable, AttachMode.CoreDb(job.tmp, k), k), asWritten);
    }
  }

  /** With any number of workers, worker 0 has a shard exactly when there is one, and the first shard is its first. */
  lemma FirstWorkerShards(v: seq<string>, n: nat)
    requires n > 0
    ensures Partition.Picked(v, 0, n) == [] <==> v == []
    ensures v != [] ==> Partition.Picked(v, 0, n)[0] == v[0]
  {
    if v != [] {
      Partition.EveryShardPicked(v, n, 0);
    }
  }

  /**
   * The rest of an iteration of `mu_query`'s worker loop: pick worker
   * `k`'s shards, write its map file and start it; a refused map file ends
   * the query.  As written only worker 0 with no reduce statement gets
   * this far.
   */
  method StartWorker(job: AttachMode.Job, shards: array<string>, k: nat, files: seq<Option<seq<string>>>,
                     trace: seq<Trace.Event>, asWritten: bool)
    returns (nextFiles: seq<Option<seq<string>>>, nextTrace: seq<Trace.Event>, ok: bool)
    requires 0 < job.ncores && k < job.ncores && shards[..] == job.shardv && job.pragma
    requires job.isSelect == Classify.StartsWithSelect(job.mapsql)
    requires asWritten ==> k == 0
    requires files == AttachMode.WorkerFiles(job, k) && trace == Trace.Starts(k)
    ensures !asWritten ==>
              (ok <==> AttachMode.WorkerFile(job, k).Some?)
              && (ok ==> nextTrace == Trace.Starts(k + 1) && nextFiles == AttachMode.WorkerFiles(job, k + 1))
              && (!ok ==> nextTrace == trace && nextFiles == files)
    ensures asWritten ==> !ok && nextTrace == []
                          && nextFiles == if job.shardv == [] || job.mapsql == [] then [] else [Some([MulticoreSql.ShardOpen(job.shardv[0])])]
  {
    var mine := Partition.GetCoreShards(k, job.ncores, shards.Length, shards);
    assert shards[..shards.Length] == job.shardv;
    var coredb := AttachMode.CoreDb(job.tmp, k);
    var rc, file := MakeQueryCoreFile(job.otable, coredb, mine[..], job.mapsql, job.exts, asWritten);
    AttachMode.MapFileRefusals(job.otable, coredb, Scripts.AllPresent(mine[..]), job.mapsql, job.exts, job.isSelect, true);
    if asWritten {
      FirstWorkerShards(job.shardv, job.ncores);
    }
    if rc != 0 {
      return if file.None? then files else files + [file], trace, false;
    }
    AttachMode.WorkerFilesNext(job, k);
    Trace.StartsNext(k);
    return files + [file], trace + [Trace.StartMap(k)], true;
  }

  /**
   * `mu_query`, step by step, with the `MU_FPRINTF` test chosen by
   * `asWritten`.  The processor count is positive, as `mu_opendb` leaves
   * it.
   */
  method RunQuery(conf: Option<Config.DbConf>, mapsql: Option<string>, reduce: Option<string>, tmpdir: Option<string>,
                  exts: Option<string>, statuses: seq<int>, reduceStatus: int, disk: SmallFiles.Disk, asWritten: bool)
    returns (r: LibRun)
    requires conf.Some? ==> conf.value.ncores > 0 && |statuses| == conf.value.ncores
    ensures asWritten ==> r == QueryAsWritten(conf, mapsql, reduce, tmpdir)
    ensures !asWritten ==> r == Query(conf, mapsql, reduce, tmpdir, exts, statuses, reduceStatus, disk)
  {
    if conf.None? || mapsql.None? || tmpdir.None? {
      return LibRun(-1, [], [], None);
    }
    var c, tmp := conf.value, tmpdir.value;
    var job := QueryJob(c, mapsql.value, reduce, tmp, exts);
    var head := AttachMode.ReduceHead(tmp, job.exts, true);
    var reducef: seq<string> := [];
    var ok;
    if reduce.Some? {
      var opening := [".open " + AttachMode.CoreDb(tmp, 0) + "\n", AttachMode.ReducePragma];
      FirstNonEmptyHead(opening);
      reducef, ok := PrintEach([], opening, asWritten);
      if !ok {
        assert reducef == [opening[0]];
        return LibRun(-1, [], [], Some(reducef));
      }
      reducef := reducef + job.exts;
    }
    assert reducef == Gathered(job, head, 0);
    r := RunWorkers(job, head, reducef, statuses, reduceStatus, disk, asWritten);
  }

  /** When worker `k` is the first whose map file is refused, the query ends there. */
  lemma LaunchedRefused(job: AttachMode.Job, statuses: seq<int>, reduceStatus: int, disk: SmallFiles.Disk, k: nat)
    requires 0 < job.ncores && |statuses| == job.ncores && k < job.ncores
    requires (forall j :: 0 <= j < k ==> AttachMode.WorkerFile(job, j).Some?) && AttachMode.WorkerFile(job, k).None?
    ensures Launched(job, statuses, reduceStatus, disk)
            == LibRun(-1, Trace.Starts(k), AttachMode.WorkerFiles(job, k),
                      if job.reduce.Some? then Some(Gathered(job, AttachMode.ReduceHead(job.tmp, job.exts, true), k + 1)) else None)
  {
    var files := AttachMode.WorkerFiles(job, job.ncores);
    Trace.FirstNoneUnique(files, k);
    assert files[..k] == AttachMode.WorkerFiles(job, k);
  }

  /** When every map file is written, the query waits and reduces. */
  lemma LaunchedAll(job: AttachMode.Job, statuses: seq<int>, reduceStatus: int, disk: SmallFiles.Disk)
    requires 0 < job.ncores && |statuses| == job.ncores
    requires forall j :: 0 <= j < job.ncores ==> AttachMode.WorkerFile(job, j).Some?
    ensures var gathered := Gathered(job, AttachMode.ReduceHead(job.tmp, job.exts, true), job.ncores);
            Launched(job, statuses, reduceStatus, disk)
            == Waited(MapFailed(job.tmp, statuses, disk), AttachMode.WorkerFiles(job, job.ncores), job.reduce, gathered,
                      gathered + (if job.reduce.Some? then [job.reduce.value + "\n"] else []),
                      ReducerFailed(job.tmp, reduceStatus, disk))
  {
    Trace.FirstNoneUnique(AttachMode.WorkerFiles(job, job.ncores), job.ncores);
  }

  /** `mu_query`'s worker loop, then the wait and the reducer. */
  method RunWorkers(job: AttachMode.Job, head: seq<string>, initial: seq<string>, statuses: seq<int>, reduceStatus: int,
                    disk: SmallFiles.Disk, asWritten: bool) returns (r: LibRun)
    requires 0 < job.ncores && |statuses| == job.ncores && job.pragma
    requires job.isSelect == Classify.StartsWithSelect(job.mapsql)
    requires head == AttachMode.ReduceHead(job.tmp, job.exts, true) && initial == Gathered(job, head, 0)
    requires job.reduce.Some? ==> !asWritten
    ensures !asWritten ==> r == Launched(job, statuses, reduceStatus, disk)
    ensures asWritten ==>
              r == LibRun(-1, [], if job.shardv == [] || job.mapsql == [] then [] else [Some([MulticoreSql.ShardOpen(job.shardv[0])])], None)
  {
    var n, tmp, reduce := job.ncores, job.tmp, job.reduce;
    var reducef := initial;
    var shards := new string[|job.shardv|](i requires 0 <= i < |job.shardv| => job.shardv[i]);
    var trace: seq<Trace.Event> := [];
    var files: seq<Option<seq<string>>> := [];
    var ok;
    if asWritten {
      // worker 0's first print ends the query
      reducef := PrintGather(job, 0, head, reducef, true);
      files, trace, ok := StartWorker(job, shards, 0, files, trace, true);
      return LibRun(-1, [], files, None);
    }
    var k := 0;
    while k < n
      invariant 0 <= k <= n
      invariant shards[..] == job.shardv
      invariant reducef == Gathered(job, head, k)
      invariant files == AttachMode.WorkerFiles(job, k) && trace == Trace.Starts(k)
      invariant forall j :: 0 <= j < k ==> AttachMode.WorkerFile(job, j).Some?
    {
      reducef := PrintGather(job, k, head, reducef, false);
      files, trace, ok := StartWorker(job, shards, k, files, trace, false);
      if !ok {
        LaunchedRefused(job, statuses, reduceStatus, disk, k);
        return LibRun(-1, trace, files, if reduce.Some? then Some(reducef) else None);
      }
      k := k + 1;
    }
    r := WaitForWorkers(job, files, reducef, statuses, reduceStatus, disk);
  }

  /** `mu_query` once every worker is started: the wait loop, then the reducer. */
  method WaitForWorkers(job: AttachMode.Job, files: seq<Option<seq<string>>>, reducef: seq<string>, statuses: seq<int>,
                        reduceStatus: int, disk: SmallFiles.Disk) returns (r: LibRun)
    requires 0 < job.ncores && |statuses| == job.ncores
    requires files == AttachMode.WorkerFiles(job, job.ncores)
    requires forall j :: 0 <= j < job.ncores ==> AttachMode.WorkerFile(job, j).Some?
    requires reducef == Gathered(job, AttachMode.ReduceHead(job.tmp, job.exts, true), job.ncores)
    ensures r == Launched(job, statuses, reduceStatus, disk)
  {
    LaunchedAll(job, statuses, reduceStatus, disk);
    r := WaitAndReduce(MapFailed(job.tmp, statuses, disk), files, job.reduce, reducef,
                       if job.reduce.Some? then [job.reduce.value + "\n"] else [], ReducerFailed(job.tmp, reduceStatus, disk));
  }

  // ---------------------------------------------------------------------
  // Properties

  /**
   * The end of both queries keeps its processes in order: nothing is
   * waited for before it starts, the reducer starts only after every
   * worker was waited for, the workers after the first failed one are
   * never waited for, and 0 is returned exactly when no worker and no
   * reducer failed.
   */
  lemma WaitedOrder(failed: seq<bool>, files: seq<Option<seq<string>>>, reduce: Option<string>, partial: seq<string>,
                    full: seq<string>, reducerFailed: bool, k: nat)
    ensures var r, n, f := Waited(failed, files, reduce, partial, full, reducerFailed), |failed|, Trace.FirstTrue(failed);
            Trace.WellNested(r.trace) && Trace.ReduceAfterMaps(r.trace, n)
            && (k in Trace.Unreaped(r.trace) <==> f < k < n)
            && (Trace.StartReduce in r.trace <==> f == n && reduce.Some?)
            && (r.rc == 0 <==> f == n && !(reduce.Some? && reducerFailed))
            && r.rc in {0, -1} && r.mapFiles == files && (r.reduceFile.Some? <==> reduce.Some?)
  {
    WaitedTrace(|failed|, Trace.FirstTrue(failed), reduce.Some?, k);
  }

  /** The trace of `Waited` when worker `f` is the first that failed (`f == n`: none did). */
  lemma WaitedTrace(n: nat, f: nat, withReduce: bool, k: nat)
    requires f <= n
    ensures var t := WaitTrace(n, f, withReduce);
            Trace.WellNested(t) && Trace.ReduceAfterMaps(t, n)
            && (k in Trace.Unreaped(t) <==> f < k < n)
            && (Trace.StartReduce in t <==> f == n && withReduce)
  {
    if f < n {
      Trace.RunWellNested(n, f + 1, []);
      Trace.RunUnreaped(n, f + 1, [], k);
      Trace.RunWithoutTail(n, f + 1, n);
    } else if !withReduce {
      Trace.RunWellNested(n, n, []);
      Trace.RunUnreaped(n, n, [], k);
      Trace.RunWithoutTail(n, n, n);
    } else {
      var tail := [Trace.StartReduce, Trace.FinishReduce];
      Trace.RunWellNested(n, n, tail);
      Trace.RunUnreaped(n, n, tail, k);
      Trace.RunReduceAfterMaps(n, tail);
      assert Trace.Run(n, n, tail)[n + n] == Trace.StartReduce;
    }
  }

  /**
   * `mu_query3`: the workers are started and waited for in order, the
   * reducer runs only after all three succeeded and only with a reduce
   * statement, a failed worker leaves the later ones unreaped, and 0 is
   * returned exactly when nothing failed.
   */
  lemma Query3Order(conf: Config.DbConf, mapsql: string, create: Option<string>, reduce: Option<string>, tmp: string,
                    exts: Option<string>, statuses: seq<int>, reduceStatus: int, disk: SmallFiles.Disk, k: nat)
    requires conf.ncores >= 3 && |statuses| == 3
    ensures var r := Query3(conf, mapsql, create, reduce, Some(tmp), exts, statuses, reduceStatus, disk);
            var f := Trace.FirstTrue(MapFailed(tmp, statuses, disk));
            Trace.WellNested(r.trace) && Trace.ReduceAfterMaps(r.trace, 3)
            && (k in Trace.Unreaped(r.trace) <==> f < k < 3)
            && (Trace.StartReduce in r.trace <==> f == 3 && reduce.Some?)
            && (r.rc == 0 <==> f == 3 && !(reduce.Some? && ReducerFailed(tmp, reduceStatus, disk)))
            && |r.mapFiles| == 3 && (r.reduceFile.Some? <==> reduce.Some?)
  {
    var job := Job3(conf.otablename, conf.shardv, conf.ncores, mapsql, create, reduce, tmp, exts);
    var head := ModeInsert.ReduceHead(ModeInsert.Plain, job.exts, create, true) + ModeInsert.Reads(job.outputs);
    WaitedOrder(MapFailed(tmp, statuses, disk), ModeInsert.WorkerScripts(job, 3), reduce, head,
                if reduce.Some? then ModeInsert.ReduceScript(ModeInsert.Plain, job.exts, create, true, job.outputs, reduce.value) else [],
                ReducerFailed(tmp, reduceStatus, disk), k);
  }

  /**
   * When it completes, `mu_query3` wrote the map scripts and the reduce
   * script of the three-worker `.mode insert` engine: each worker's
   * script holds its share of the shards, and the reduce script reads the
   * three output files inside one transaction.
   */
  lemma Query3Files(conf: Config.DbConf, mapsql: string, create: Option<string>, reduce: Option<string>, tmp: string,
                    exts: Option<string>, statuses: seq<int>, reduceStatus: int, disk: SmallFiles.Disk)
    requires conf.ncores >= 3 && |statuses| == 3
    ensures var r := Query3(conf, mapsql, create, reduce, Some(tmp), exts, statuses, reduceStatus, disk);
            var q := ModeInsert.Query(Job3(conf.otablename, conf.shardv, conf.ncores, mapsql, create, reduce, tmp, exts));
            r.mapFiles == q.mapFiles
            && (Trace.FirstTrue(MapFailed(tmp, statuses, disk)) == 3 ==> r.reduceFile == q.reduceFile)
  {
  }

  /**
   * With a reduce statement, `mu_query3`'s reduce file holds, after the
   * extension text and the create statement, `BEGIN TRANSACTION;` and
   * then the `.read` of each worker's output in worker order.
   */
  lemma Query3ReduceReads(conf: Config.DbConf, mapsql: string, create: Option<string>, reduce: Option<string>, tmp: string,
                          exts: Option<string>, statuses: seq<int>, reduceStatus: int, disk: SmallFiles.Disk)
    requires conf.ncores >= 3 && |statuses| == 3 && reduce.Some?
    ensures var p := Query3(conf, mapsql, create, reduce, Some(tmp), exts, statuses, reduceStatus, disk).reduceFile.value;
            var b := |Extensions.PutText(exts)| + |ModeInsert.CreateLines(ModeInsert.Plain, create)|;
            |p| >= b + 4 && p[b] == ModeInsert.Begin
            && forall j :: 0 <= j < 3 ==> p[b + 1 + j] == ModeInsert.ReadLine(Tasks.TaskFile(tmp, "mapsql", "out", j))
  {
    var job := Job3(conf.otablename, conf.shardv, conf.ncores, mapsql, create, reduce, tmp, exts);
    var r := Query3(conf, mapsql, create, reduce, Some(tmp), exts, statuses, reduceStatus, disk);
    var h := ModeInsert.ReduceHead(ModeInsert.Plain, job.exts, create, true);
    var readLines := ModeInsert.Reads(job.outputs);
    var p := r.reduceFile.value;
    assert p[..|h| + 3] == h + readLines;
    assert h[|h| - 1] == ModeInsert.Begin;
    forall j | 0 <= j < 3
      ensures p[|h| + j] == ModeInsert.ReadLine(Tasks.TaskFile(tmp, "mapsql", "out", j))
    {
      assert p[|h| + j] == p[..|h| + 3][|h| + j] == readLines[j];
    }
  }

  /**
   * With three processors, as the only caller sets, every shard `s` is
   * opened by worker `s % 3` as block `s / 3` of its script, after the
   * mode line.
   */
  lemma Query3OpensEveryShard(conf: Config.DbConf, mapsql: string, create: Option<string>, reduce: Option<string>, tmp: string,
                              exts: Option<string>, statuses: seq<int>, reduceStatus: int, disk: SmallFiles.Disk, s: nat)
    requires conf.ncores == 3 && |statuses| == 3 && s < |conf.shardv|
    ensures var r := Query3(conf, mapsql, create, reduce, Some(tmp), exts, statuses, reduceStatus, disk);
            var p := r.mapFiles[s % 3];
            var o := 1 + Scripts.Offset(s / 3, ModeInsert.Width(Extensions.PutText(exts)));
            p.Some? && o < |p.value| && p.value[0] == ModeInsert.ModeLine(conf.otablename)
            && p.value[o] == ".open " + conf.shardv[s] + "\n"
  {
    var job := Job3(conf.otablename, conf.shardv, conf.ncores, mapsql, create, reduce, tmp, exts);
    ModeInsert.QueryShardBlock(job, s);
    ModeInsert.QueryMapFile(job, s % 3);
    Query3Files(conf, mapsql, create, reduce, tmp, exts, statuses, reduceStatus, disk);
  }

  /**
   * With more than three processors the shards are still split that many
   * ways but only three workers run: a shard whose owner `s % n` is 3 or
   * more is in no running worker's share, so no map script opens it.
   */
  lemma {:induction false} Query3SkipsShard(conf: Config.DbConf, s: nat, k: nat)
    requires conf.ncores > 3 && s < |conf.shardv| && s % conf.ncores >= 3 && k < 3
    requires forall i, j :: 0 <= i < j < |conf.shardv| ==> conf.shardv[i] != conf.shardv[j]
    ensures conf.shardv[s] !in Partition.Picked(conf.shardv, k, conf.ncores)
  {
    var v, n := conf.shardv, conf.ncores;
    if conf.shardv[s] in Partition.Picked(v, k, n) {
      var j :| 0 <= j < |Partition.Picked(v, k, n)| && Partition.Picked(v, k, n)[j] == v[s];
      Partition.PickedAt(v, k, n, j);
      assert j * n + k == s;
      Partition.DivModUnique(s, n, j, k);
      assert false;
    }
  }

  /**
   * `mu_query`: nothing is waited for before it starts, the reducer runs
   * only after every worker was waited for, and 0 is returned exactly
   * when every map file was written and no worker and no reducer failed.
   * At the first refused map file the workers already started are left
   * running, and later ones are never started.
   */
  lemma LaunchedOrder(job: AttachMode.Job, statuses: seq<int>, reduceStatus: int, disk: SmallFiles.Disk, k: nat)
    requires 0 < job.ncores && |statuses| == job.ncores
    ensures var r, n := Launched(job, statuses, reduceStatus, disk), job.ncores;
            var b, f := Trace.FirstNone(AttachMode.WorkerFiles(job, n)), Trace.FirstTrue(MapFailed(job.tmp, statuses, disk));
            Trace.WellNested(r.trace) && Trace.ReduceAfterMaps(r.trace, n)
            && (b < n ==> r.rc == -1 && r.trace == Trace.Starts(b) && (k in Trace.Unreaped(r.trace) <==> k < b))
            && (b == n ==> (k in Trace.Unreaped(r.trace) <==> f < k < n))
            && (Trace.StartReduce in r.trace <==> b == n && f == n && job.reduce.Some?)
            && (r.rc == 0 <==> b == n && f == n && !(job.reduce.Some? && ReducerFailed(job.tmp, reduceStatus, disk)))
  {
    var n := job.ncores;
    var files := AttachMode.WorkerFiles(job, n);
    var b := Trace.FirstNone(files);
    if b < n {
      assert Trace.Starts(b) == Trace.Run(b, 0, []);
      Trace.RunWellNested(b, 0, []);
      Trace.RunWithoutTail(b, 0, n);
      Trace.RunUnreaped(b, 0, [], k);
    } else {
      var head := AttachMode.ReduceHead(job.tmp, job.exts, true);
      var gathered := Gathered(job, head, n);
      WaitedOrder(MapFailed(job.tmp, statuses, disk), files, job.reduce, gathered,
                  if job.reduce.Some? then AttachMode.ReduceScript(job.otable, job.tmp, n, job.exts, true, job.reduce.value) else [],
                  ReducerFailed(job.tmp, reduceStatus, disk), k);
    }
  }

  /**
   * More processors than shards: `mu_opendb` allows it, and the first
   * worker with no shard has its map file refused, so `mu_query` returns
   * -1 with the workers before it started and never waited for.
   */
  lemma QueryStopsAtIdleWorker(c: Config.DbConf, mapsql: string, reduce: Option<string>, tmp: string, exts: Option<string>,
                               statuses: seq<int>, reduceStatus: int, disk: SmallFiles.Disk)
    requires |c.shardv| < c.ncores && |statuses| == c.ncores && mapsql != []
    ensures var r := Query(Some(c), Some(mapsql), reduce, Some(tmp), exts, statuses, reduceStatus, disk);
            r.rc == -1 && r.trace == Trace.Starts(|c.shardv|) && |r.mapFiles| == |c.shardv|
            && forall k: nat :: k in Trace.Unreaped(r.trace) <==> k < |c.shardv|
  {
    var job := QueryJob(c, mapsql, reduce, tmp, exts);
    var m := |c.shardv|;
    FirstIdleWorker(job);
    var r := Launched(job, statuses, reduceStatus, disk);
    forall k: nat
      ensures k in Trace.Unreaped(r.trace) <==> k < m
    {
      LaunchedOrder(job, statuses, reduceStatus, disk, k);
    }
  }

  /** With fewer shards than workers, worker `|shardv|` is the first without a map file. */
  lemma FirstIdleWorker(job: AttachMode.Job)
    requires |job.shardv| < job.ncores && job.mapsql != []
    ensures Trace.FirstNone(AttachMode.WorkerFiles(job, job.ncores)) == |job.shardv|
  {
    var n, m := job.ncores, |job.shardv|;
    var files := AttachMode.WorkerFiles(job, n);
    Partition.DivModUnique(m, n, 0, m);
    forall j | 0 <= j <= m
      ensures files[j].Some? <==> j < m
    {
      AttachMode.QueryRefusals(job, j);
      assert Partition.CoreShardCount(j, n, m) == if j < m then 1 else 0;
    }
    Trace.FirstNoneUnique(files, m);
  }

  /**
   * When every map file is written, `mu_query` wrote the map files of the
   * select/attach engine with `pragma` lines, and, when it gets to the
   * reducer, that engine's reduce file.
   */
  lemma QueryFiles(c: Config.DbConf, mapsql: string, reduce: Option<string>, tmp: string, exts: Option<string>,
                   statuses: seq<int>, reduceStatus: int, disk: SmallFiles.Disk)
    requires c.ncores > 0 && |statuses| == c.ncores
    requires Trace.FirstNone(AttachMode.Query(QueryJob(c, mapsql, reduce, tmp, exts)).mapFiles) == c.ncores
    ensures var r := Query(Some(c), Some(mapsql), reduce, Some(tmp), exts, statuses, reduceStatus, disk);
            var q := AttachMode.Query(QueryJob(c, mapsql, reduce, tmp, exts));
            r.mapFiles == q.mapFiles && (Trace.StartReduce in r.trace ==> r.reduceFile == q.reduceFile)
  {
    var job := QueryJob(c, mapsql, reduce, tmp, exts);
    var n := c.ncores;
    LaunchedOrder(job, statuses, reduceStatus, disk, 0);
    if reduce.Some? {
      var head := AttachMode.ReduceHead(tmp, job.exts, true);
      assert Gathered(job, head, n) + [reduce.value + "\n"]
             == AttachMode.ReduceScript(c.otablename, tmp, n, job.exts, true, reduce.value);
    }
  }

  /**
   * `MU_FPRINTF` as written takes a successful `fprintf`, which returns
   * the number of characters written, for a failure: the first non-empty
   * print of `mu_query3` ends it, so no worker is ever started, where the
   * intended test starts worker 0 first.
   */
  lemma Query3AsWrittenStartsNothing(conf: Config.DbConf, mapsql: string, create: Option<string>, reduce: Option<string>,
                                     tmp: string, exts: Option<string>, statuses: seq<int>, reduceStatus: int,
                                     disk: SmallFiles.Disk)
    requires conf.ncores >= 3 && |statuses| == 3
    ensures PrintFails(true, |ModeInsert.ModeLine(conf.otablename)|) && !PrintFails(false, |ModeInsert.ModeLine(conf.otablename)|)
    ensures var w := Query3AsWritten(conf.otablename, create, reduce, Some(tmp), exts);
            w.rc == -1 && w.trace == []
    ensures Query3(conf, mapsql, create, reduce, Some(tmp), exts, statuses, reduceStatus, disk).trace[0] == Trace.StartMap(0)
  {
    var r := Query3(conf, mapsql, create, reduce, Some(tmp), exts, statuses, reduceStatus, disk);
    Query3Order(conf, mapsql, create, reduce, tmp, exts, statuses, reduceStatus, disk, 0);
    assert r.trace[..3] == Trace.Starts(3);
    assert r.trace[0] == r.trace[..3][0];
  }

  /**
   * The same for `mu_query`: as written it starts no worker, while with the
   * intended test worker 0 starts whenever there is a shard and a
   * statement.
   */
  lemma QueryAsWrittenStartsNothing(c: Config.DbConf, mapsql: string, reduce: Option<string>, tmp: string,
                                    exts: Option<string>, statuses: seq<int>, reduceStatus: int, disk: SmallFiles.Disk)
    requires c.ncores > 0 && |statuses| == c.ncores && c.shardv != [] && mapsql != []
    ensures var w := QueryAsWritten(Some(c), Some(mapsql), reduce, Some(tmp));
            w.rc == -1 && w.trace == []
    ensures Trace.StartMap(0) in Query(Some(c), Some(mapsql), reduce, Some(tmp), exts, statuses, reduceStatus, disk).trace
  {
    var job := QueryJob(c, mapsql, reduce, tmp, exts);
    var n := c.ncores;
    var files := AttachMode.WorkerFiles(job, n);
    assert files[0].Some? by {
      AttachMode.QueryRefusals(job, 0);
      FirstWorkerShards(c.shardv, n);
      Partition.PickedLength(c.shardv, 0, n);
    }
    var b := Trace.FirstNone(files);
    assert b > 0;
    if b == n {
      var f := Trace.FirstTrue(MapFailed(tmp, statuses, disk));
      var tail := if f == n && reduce.Some? then [Trace.StartReduce, Trace.FinishReduce] else [];
      Trace.RunAt(n, if f < n then f + 1 else n, tail, 0);
    }
  }
}
