/**
 * The select/attach family of the earlier libraries (`mu_query` of the
 * library version and of both `libmulticoresql1.c` files).  Each worker
 * copies the rows of a select statement into its own result database
 * `<tmp>/coredb.NNN`; the reducer opens worker 0's database and gathers
 * every other worker's table into it.  The variants differ in the
 * `pragma` lines, in how a select is recognised, and in where the
 * extension lines come from.
 */
module AttachMode {
  import opened Wrappers
  import Text
  import Partition
  import Scripts
  import Trace
  import Runs
  import MulticoreSql

  /** Printed after the attach in the variants that relax the result database's syncing. */
  const ResultPragma := "pragma resultdb.synchronous = 0;\n"

  /** Printed after the reducer's `.open` in the same variants. */
  const ReducePragma := "pragma synchronous = 0;\n"

  // ---------------------------------------------------------------------
  // Map script (`mu_makeQueryCoreFile` / `makeQueryCoreFile`)

  /** What follows the extensions in the block for shard `i`. */
  function Statement(otable: string, coredb: string, mapsql: string, isSelect: bool, pragma: bool, i: nat): seq<string>
  {
    if isSelect then
      [MulticoreSql.AttachResult(coredb)] + (if pragma then [ResultPragma] else [])
      + [if i == 0 then MulticoreSql.CreateResult(otable, mapsql) else MulticoreSql.InsertResult(otable, mapsql)]
    else [mapsql + "\n"]
  }

  /**
   * The block for shard `i`: open it, load the extensions, then either
   * attach the worker's result database and create the table (shard 0)
   * or insert into it (later shards), or run the statement as it is.
   */
  function Block(otable: string, coredb: string, mapsql: string, exts: seq<string>, isSelect: bool, pragma: bool)
    : (nat, string) -> seq<string>
  {
    (i: nat, shard: string) => [MulticoreSql.ShardOpen(shard)] + exts + Statement(otable, coredb, mapsql, isSelect, pragma, i)
  }

  /** Pieces per block. */
  function Width(exts: seq<string>, isSelect: bool, pragma: bool): nat
  {
    1 + |exts| + (if !isSelect then 1 else if pragma then 3 else 2)
  }

  lemma BlockWidths(otable: string, coredb: string, mapsql: string, exts: seq<string>, isSelect: bool, pragma: bool)
    ensures forall i, s :: |Block(otable, coredb, mapsql, exts, isSelect, pragma)(i, s)| == Width(exts, isSelect, pragma)
  {
  }

  /** The argument check made before the file is opened: at least one shard and a non-empty statement. */
  predicate ArgsValid(shardv: seq<Option<string>>, mapsql: string)
  {
    |shardv| > 0 && |mapsql| > 0
  }

  /** The map script, or `None` when the arguments are refused and no file is written. */
  function MapFile(otable: string, coredb: string, shardv: seq<Option<string>>, mapsql: string, exts: seq<string>,
                   isSelect: bool, pragma: bool): Option<seq<string>>
  {
    if !ArgsValid(shardv, mapsql) then None
    else Some(Scripts.ShardBlocks(shardv, Block(otable, coredb, mapsql, exts, isSelect, pragma)))
  }

  /** The builder: refuse invalid arguments, otherwise print each non-NULL shard's block in list order. */
  method WriteMapFile(otable: string, coredb: string, shardv: seq<Option<string>>, mapsql: string, exts: seq<string>,
                      isSelect: bool, pragma: bool) returns (file: Option<seq<string>>)
    ensures file == MapFile(otable, coredb, shardv, mapsql, exts, isSelect, pragma)
  {
    if |shardv| == 0 || |mapsql| == 0 {
      return None;
    }
    var written := Scripts.WriteShardBlocks(shardv, Block(otable, coredb, mapsql, exts, isSelect, pragma));
    return Some(written);
  }

  /**
   * The map script read back: refused exactly for an empty shard list or
   * an empty statement; otherwise the `j`-th non-NULL shard (entry `i` of
   * the list, named `shard`) has a block that opens
   * that shard, loads the extensions and, for a select, attaches the
   * result database and creates the table exactly when the shard is the
   * list's first entry (inserting otherwise), and for anything else runs
   * the statement as given.
   */
  lemma MapFileLayout(otable: string, coredb: string, shardv: seq<Option<string>>, mapsql: string, exts: seq<string>,
                      isSelect: bool, pragma: bool, j: nat, i: nat, shard: string)
    requires j < |Scripts.Present(shardv)| && Scripts.Present(shardv)[j] == (i, shard)
    ensures MapFile(otable, coredb, shardv, mapsql, exts, isSelect, pragma).None? <==> mapsql == []
    ensures var w := Width(exts, isSelect, pragma);
            var o := Scripts.Offset(j, w);
            var f := MapFile(otable, coredb, shardv, mapsql, exts, isSelect, pragma);
            f.Some? ==>
              |f.value| == Scripts.Offset(|Scripts.Present(shardv)|, w) && o + w <= |f.value|
              && f.value[o..o + w] == [MulticoreSql.ShardOpen(shard)] + exts + Statement(otable, coredb, mapsql, isSelect, pragma, i)
  {
    var block := Block(otable, coredb, mapsql, exts, isSelect, pragma);
    BlockWidths(otable, coredb, mapsql, exts, isSelect, pragma);
    Scripts.BlockSlice(shardv, block, Width(exts, isSelect, pragma), j);
    assert |shardv| > 0 by {
      PresentNonEmpty(shardv);
    }
  }

  lemma {:induction false} PresentNonEmpty(shardv: seq<Option<string>>)
    requires |Scripts.Present(shardv)| > 0
    ensures |shardv| > 0
  {
  }

  /**
   * Refused exactly for an empty shard list or statement, whatever the
   * shards; a list of only NULL entries gives an empty script.
   */
  lemma MapFileRefusals(otable: string, coredb: string, shardv: seq<Option<string>>, mapsql: string, exts: seq<string>,
                        isSelect: bool, pragma: bool)
    ensures MapFile(otable, coredb, shardv, mapsql, exts, isSelect, pragma).None? <==> shardv == [] || mapsql == []
    ensures mapsql != [] && shardv == [None] ==> MapFile(otable, coredb, shardv, mapsql, exts, isSelect, pragma) == Some([])
  {
    if shardv == [None] {
      var block := Block(otable, coredb, mapsql, exts, isSelect, pragma);
      assert shardv[..0] == [];
      assert Scripts.ShardBlocks(shardv, block) == Scripts.ShardBlocks([], block) + [];
    }
  }

  // ---------------------------------------------------------------------
  // Reduce script

  /** Worker `k`'s result database. */
  function CoreDb(tmp: string, k: nat): string { tmp + "/coredb." + Text.Pad3(k) }

  function CoreDbs(tmp: string, n: nat): (dbs: seq<string>)
    ensures |dbs| == n && forall k :: 0 <= k < n ==> dbs[k] == CoreDb(tmp, k)
  {
    seq(n, k requires 0 <= k < n => CoreDb(tmp, k))
  }

  /** Different workers have different result databases. */
  lemma CoreDbInjective(tmp: string, a: nat, b: nat)
    requires CoreDb(tmp, a) == CoreDb(tmp, b)
    ensures a == b
  {
    var p := |tmp + "/coredb."|;
    assert Text.Pad3(a) == CoreDb(tmp, a)[p..] == CoreDb(tmp, b)[p..] == Text.Pad3(b);
    Text.Pad3Injective(a, b);
  }

  /** Written when the reduce file is opened: open worker 0's database, the pragma, the extensions. */
  function ReduceHead(tmp: string, exts: seq<string>, pragma: bool): seq<string>
  {
    [".open " + CoreDb(tmp, 0) + "\n"] + (if pragma then [ReducePragma] else []) + exts
  }

  /** The reduce script: the head, the gathers of workers `1 .. n-1`, and the reduce statement. */
  function ReduceScript(otable: string, tmp: string, n: nat, exts: seq<string>, pragma: bool, reducesql: string): seq<string>
  {
    ReduceHead(tmp, exts, pragma) + MulticoreSql.Gathers(otable, CoreDbs(tmp, n), n) + [reducesql + "\n"]
  }

  /**
   * The reduce script read back: it works in worker 0's database, then
   * for every worker `k >= 1`, in order, attaches `k`'s database under
   * its own alias, copies its table and detaches it, and runs the reduce
   * statement last.  Worker 0 is never attached.
   */
  lemma ReduceScriptLayout(otable: string, tmp: string, n: nat, exts: seq<string>, pragma: bool, reducesql: string, k: nat)
    requires 1 <= k < n
    ensures var p, h := ReduceScript(otable, tmp, n, exts, pragma, reducesql), |ReduceHead(tmp, exts, pragma)|;
            |p| == h + 3 * (n - 1) + 1
            && p[0] == ".open " + CoreDb(tmp, 0) + "\n"
            && p[h + 3 * (k - 1)..h + 3 * k] == MulticoreSql.Gather(otable, CoreDb(tmp, k), k)
            && p[|p| - 1] == reducesql + "\n"
  {
    var head, dbs := ReduceHead(tmp, exts, pragma), CoreDbs(tmp, n);
    var g := MulticoreSql.Gathers(otable, dbs, n);
    MulticoreSql.GathersLength(otable, dbs, n);
    MulticoreSql.GathersLayout(otable, dbs, n, k);
    assert (head + g + [reducesql + "\n"])[|head| + 3 * (k - 1)..|head| + 3 * k] == g[3 * (k - 1)..3 * k];
  }

  /** Adding worker `k`'s gather to the first `k` workers' gathers. */
  lemma GathersNext(otable: string, tmp: string, n: nat, k: nat)
    requires k < n
    ensures MulticoreSql.Gathers(otable, CoreDbs(tmp, n), k + 1)
            == MulticoreSql.Gathers(otable, CoreDbs(tmp, n), k)
               + (if k > 0 then MulticoreSql.Gather(otable, CoreDb(tmp, k), k) else [])
  {
  }

  // ---------------------------------------------------------------------
  // The query loop

  /**
   * The query as the loop sees it: the output table, the opened shard
   * list, the worker count, the statements, the temporary directory, the
   * extension lines, the select test's verdict and the pragma choice.
   */
  datatype Job = Job(otable: string, shardv: seq<string>, ncores: nat, mapsql: string, reduce: Option<string>,
                     tmp: string, exts: seq<string>, isSelect: bool, pragma: bool)

  /** Worker `k`'s map script, built on its share of the shards. */
  function WorkerFile(job: Job, k: nat): Option<seq<string>>
    requires job.ncores > 0
  {
    MapFile(job.otable, CoreDb(job.tmp, k), Scripts.AllPresent(Partition.Picked(job.shardv, k, job.ncores)),
            job.mapsql, job.exts, job.isSelect, job.pragma)
  }

  function WorkerFiles(job: Job, m: nat): (files: seq<Option<seq<string>>>)
    requires job.ncores > 0
    ensures |files| == m && forall k :: 0 <= k < m ==> files[k] == WorkerFile(job, k)
  {
    seq(m, k requires 0 <= k < m => WorkerFile(job, k))
  }

  /**
   * What the query does: start every worker on its map script, wait for
   * all of them, then (with a reduce statement) write the reduce script
   * and run the reducer.
   */
  function Query(job: Job): Runs.Run
    requires job.ncores > 0
  {
    Runs.Run(Trace.Run(job.ncores, job.ncores, Runs.ReduceEvents(job.reduce.Some?)),
             WorkerFiles(job, job.ncores),
             if job.reduce.Some? then Some(ReduceScript(job.otable, job.tmp, job.ncores, job.exts, job.pragma, job.reduce.value))
             else None)
  }

  lemma WorkerFilesNext(job: Job, k: nat)
    requires job.ncores > 0
    ensures WorkerFiles(job, k + 1) == WorkerFiles(job, k) + [WorkerFile(job, k)]
  {
  }

  /** One iteration's map side: pick worker `k`'s shards from the array and build its script. */
  method BuildWorkerFile(job: Job, shards: array<string>, k: nat) returns (file: Option<seq<string>>)
    requires job.ncores > 0 && k < job.ncores && shards[..] == job.shardv
    ensures file == WorkerFile(job, k)
  {
    var mine := Partition.GetCoreShards(k, job.ncores, shards.Length, shards);
    assert shards[..shards.Length] == job.shardv;
    file := WriteMapFile(job.otable, CoreDb(job.tmp, k), Scripts.AllPresent(mine[..]), job.mapsql, job.exts,
                         job.isSelect, job.pragma);
  }

  /**
   * The loop over workers: append the next worker's gather to the reduce
   * file, pick its shards, build its map script, start it; then wait for
   * every worker and finish the reduce file before running the reducer.
   */
  method RunQuery(job: Job) returns (r: Runs.Run)
    requires job.ncores > 0
    ensures r == Query(job)
  {
    var n, reducing := job.ncores, job.reduce.Some?;
    var head := ReduceHead(job.tmp, job.exts, job.pragma);
    var gathers: seq<string> := [];
    var shards := new string[|job.shardv|](i requires 0 <= i < |job.shardv| => job.shardv[i]);
    var mapFiles: seq<Option<seq<string>>> := [];
    var started: seq<Trace.Event> := [];
    var k := 0;
    while k < n
      invariant 0 <= k <= n
      invariant shards[..] == job.shardv
      invariant reducing ==> gathers == MulticoreSql.Gathers(job.otable, CoreDbs(job.tmp, n), k)
      invariant mapFiles == WorkerFiles(job, k)
      invariant started == Trace.Starts(k)
    {
      GathersNext(job.otable, job.tmp, n, k);
      if reducing && k > 0 {
        gathers := gathers + MulticoreSql.Gather(job.otable, CoreDb(job.tmp, k), k);
      }
      var file := BuildWorkerFile(job, shards, k);
      WorkerFilesNext(job, k);
      mapFiles := mapFiles + [file];
      Trace.StartsNext(k);
      started := started + [Trace.StartMap(k)];
      k := k + 1;
    }
    var trace := Runs.WaitAll(started, n);
    var reduceFile: Option<seq<string>> := None;
    if reducing {
      reduceFile := Some(head + gathers + [job.reduce.value + "\n"]);
      trace := trace + Runs.ReduceEvents(true);
    } else {
      trace := trace + Runs.ReduceEvents(false);
    }
    r := Runs.Run(trace, mapFiles, reduceFile);
  }

  /**
   * The order the query keeps: every worker is started and waited for,
   * the reducer only after all of them and only with a reduce statement,
   * which is also exactly when a reduce file is written.
   */
  lemma QueryOrder(job: Job)
    requires job.ncores > 0
    ensures Trace.WellNested(Query(job).trace)
    ensures Trace.ReduceAfterMaps(Query(job).trace, job.ncores) && Trace.Unreaped(Query(job).trace) == {}
    ensures Trace.StartReduce in Query(job).trace <==> job.reduce.Some?
    ensures Query(job).reduceFile.Some? <==> job.reduce.Some?
  {
    Runs.WaitedRunOrder(job.ncores, job.reduce.Some?);
  }

  /**
   * Worker `k`'s map script is refused exactly when `k` has no shard
   * (more workers than shards) or the statement is empty; the worker is
   * started on the missing file all the same.
   */
  lemma QueryRefusals(job: Job, k: nat)
    requires job.ncores > 0 && k < job.ncores
    ensures Query(job).mapFiles[k].None? <==>
              Partition.CoreShardCount(k, job.ncores, |job.shardv|) == 0 || job.mapsql == []
    ensures Trace.StartMap(k) in Query(job).trace
  {
    var mine := Partition.Picked(job.shardv, k, job.ncores);
    Partition.PickedLength(job.shardv, k, job.ncores);
    assert |Scripts.AllPresent(mine)| == |mine|;
    assert Query(job).trace[k] == Trace.StartMap(k);
  }

  /**
   * Every shard `s` is opened by worker `s % n` as block `s / n` of its
   * script, which creates the worker's table exactly when it is that
   * worker's first shard and inserts into it otherwise.
   */
  lemma {:induction false} QueryOpensEveryShard(job: Job, s: nat)
    requires job.ncores > 0 && s < |job.shardv| && job.mapsql != []
    ensures var k, j := Partition.Owner(s, job.ncores), Partition.Slot(s, job.ncores);
            var w := Width(job.exts, job.isSelect, job.pragma);
            var f := Query(job).mapFiles[k];
            var o := Scripts.Offset(j, w);
            f.Some? && o + w <= |f.value|
            && f.value[o..o + w] == [MulticoreSql.ShardOpen(job.shardv[s])] + job.exts
                                    + Statement(job.otable, CoreDb(job.tmp, k), job.mapsql, job.isSelect, job.pragma, j)
  {
    var n := job.ncores;
    var k, j := Partition.Owner(s, n), Partition.Slot(s, n);
    assert k < n && j < |Partition.Picked(job.shardv, k, n)| && Partition.Picked(job.shardv, k, n)[j] == job.shardv[s] by {
      Partition.EveryShardPicked(job.shardv, n, s);
    }
    QueryMapFile(job, k);
    WorkerFileLayoutAs(job, k, j, job.shardv[s]);
  }

  /**
   * The reduce file's frame: it opens worker 0's database, relaxes its
   * syncing when the variant asks for it, loads the extensions, holds
   * three lines per worker after the first, and ends with the reduce
   * statement.
   */
  lemma QueryReduceHead(job: Job)
    requires job.ncores > 0 && job.reduce.Some?
    ensures var p, t := Query(job).reduceFile.value, if job.pragma then 1 else 0;
            var h := 1 + t + |job.exts|;
            |p| == h + 3 * (job.ncores - 1) + 1
            && p[0] == ".open " + CoreDb(job.tmp, 0) + "\n"
            && (job.pragma ==> p[1] == ReducePragma)
            && p[1 + t..h] == job.exts
            && p[|p| - 1] == job.reduce.value + "\n"
  {
    var head := ReduceHead(job.tmp, job.exts, job.pragma);
    var t := if job.pragma then 1 else 0;
    var rest := MulticoreSql.Gathers(job.otable, CoreDbs(job.tmp, job.ncores), job.ncores) + [job.reduce.value + "\n"];
    MulticoreSql.GathersLength(job.otable, CoreDbs(job.tmp, job.ncores), job.ncores);
    assert Query(job).reduceFile.value == head + rest;
    assert head[1 + t..] == job.exts;
    Scripts.SliceOfFront(head, rest, 1 + t, |job.exts|);
  }

  /** Worker `k >= 1`'s three lines sit at `3 * (k - 1)` after the head, in worker order. */
  lemma QueryReduceGather(job: Job, k: nat)
    requires job.reduce.Some? && 1 <= k < job.ncores
    ensures var p, h := Query(job).reduceFile.value, 1 + (if job.pragma then 1 else 0) + |job.exts|;
            h + 3 * k <= |p| && p[h + 3 * (k - 1)..h + 3 * k] == MulticoreSql.Gather(job.otable, CoreDb(job.tmp, k), k)
  {
    ReduceScriptLayout(job.otable, job.tmp, job.ncores, job.exts, job.pragma, job.reduce.value, k);
  }

  lemma QueryMapFile(job: Job, k: nat)
    requires job.ncores > 0 && k < job.ncores
    ensures Query(job).mapFiles[k] == WorkerFile(job, k)
  {
  }

  /** Block `j` of worker `k`'s script opens the `j`-th of its shards. */
  lemma WorkerFileLayout(job: Job, k: nat, j: nat)
    requires job.ncores > 0 && k < job.ncores && job.mapsql != []
    requires j < |Partition.Picked(job.shardv, k, job.ncores)|
    ensures var w := Width(job.exts, job.isSelect, job.pragma);
            var f := WorkerFile(job, k);
            var o := Scripts.Offset(j, w);
            f.Some? && o + w <= |f.value|
            && f.value[o..o + w] == [MulticoreSql.ShardOpen(Partition.Picked(job.shardv, k, job.ncores)[j])] + job.exts
                                    + Statement(job.otable, CoreDb(job.tmp, k), job.mapsql, job.isSelect, job.pragma, j)
  {
    var mine := Partition.Picked(job.shardv, k, job.ncores);
    var shardv := Scripts.AllPresent(mine);
    assert j < |Scripts.Present(shardv)| && Scripts.Present(shardv)[j] == (j, mine[j]) by {
      Scripts.PresentOfAll(mine);
    }
    assert WorkerFile(job, k) == MapFile(job.otable, CoreDb(job.tmp, k), shardv, job.mapsql, job.exts, job.isSelect, job.pragma);
    MapFileLayout(job.otable, CoreDb(job.tmp, k), shardv, job.mapsql, job.exts, job.isSelect, job.pragma, j, j, mine[j]);
  }

  /** `WorkerFileLayout` with the block's shard named by the caller. */
  lemma WorkerFileLayoutAs(job: Job, k: nat, j: nat, shard: string)
    requires job.ncores > 0 && k < job.ncores && job.mapsql != []
    requires j < |Partition.Picked(job.shardv, k, job.ncores)| && shard == Partition.Picked(job.shardv, k, job.ncores)[j]
    ensures var w := Width(job.exts, job.isSelect, job.pragma);
            var f := WorkerFile(job, k);
            var o := Scripts.Offset(j, w);
            f.Some? && o + w <= |f.value|
            && f.value[o..o + w] == [MulticoreSql.ShardOpen(shard)] + job.exts
                                    + Statement(job.otable, CoreDb(job.tmp, k), job.mapsql, job.isSelect, job.pragma, j)
  {
    WorkerFileLayout(job, k, j);
  }
}
