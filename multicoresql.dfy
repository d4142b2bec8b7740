/**
 * The reference library (`src/multicoresql.c`): the map script each
 * worker runs, the reduce script that gathers the workers' tables, and
 * `mu_run_query`, which starts the workers, waits for them and runs the
 * reducer.
 */
module MulticoreSql {
  import opened Wrappers
  import Text
  import Partition
  import Classify
  import PrintBuffer
  import SmallFiles
  import Tasks
  import Config
  import Scripts
  import Trace

  // ---------------------------------------------------------------------
  // Map script (`mu_makeQueryCoreFile`)

  function ShardOpen(shard: string): string { ".open " + shard + "\n" }

  const BailOn := ".bail on\n"

  /** The extension text, when there is one, on a line of its own. */
  function ExtPieces(exts: Option<string>): seq<string>
  {
    if exts.Some? then [exts.value + "\n"] else []
  }

  function AttachResult(coredb: string): string { "attach database '" + coredb + "' as 'resultdb';\n" }

  function CreateResult(otable: string, mapsql: string): string { "create table resultdb." + otable + " as " + mapsql + "\n" }

  function InsertResult(otable: string, mapsql: string): string { "insert into resultdb." + otable + " " + mapsql + "\n" }

  /**
   * The block for shard `i`: open it, stop on the first error, load the
   * extensions, then either copy the rows of a select into the worker's
   * result database (creating the table on shard 0, inserting afterwards)
   * or run the statement as it is.
   */
  function MapBlock(otable: string, coredb: string, mapsql: string, exts: Option<string>, isSelect: bool): (nat, string) -> seq<string>
  {
    (i: nat, shard: string) =>
      [ShardOpen(shard), BailOn] + ExtPieces(exts)
      + (if isSelect then [AttachResult(coredb), if i == 0 then CreateResult(otable, mapsql) else InsertResult(otable, mapsql)]
         else [mapsql + "\n"])
  }

  /** Pieces per block. */
  function MapWidth(exts: Option<string>, isSelect: bool): nat
  {
    2 + |ExtPieces(exts)| + (if isSelect then 2 else 1)
  }

  ghost function MapPieces(otable: string, coredb: string, shards: seq<Option<string>>, mapsql: string, exts: Option<string>): seq<string>
  {
    Scripts.ShardBlocks(shards, MapBlock(otable, coredb, mapsql, exts, Classify.StartsWithSelect(mapsql)))
  }

  /** The map buffer: 1024 characters more than `shardc` blocks of `1024 + strlen(mapsql)`. */
  function MapBufSize(mapsql: string, shardc: nat): nat
  {
    Scripts.Offset(shardc, 1024 + |mapsql|) + 1024
  }

  /** `bufsize = (1024 + strlen(mapsql)) * shardc + 1024`. */
  lemma MapBufSizeFormula(mapsql: string, shardc: nat)
    ensures MapBufSize(mapsql, shardc) == (1024 + |mapsql|) * shardc + 1024
  {
    Scripts.OffsetIsProduct(shardc, 1024 + |mapsql|);
  }

  ghost predicate MapArgsValid(conf: Option<Config.DbConf>, fname: Option<string>, shardc: int,
                               shardv: Option<seq<Option<string>>>, mapsql: Option<string>)
  {
    conf.Some? && fname.Some? && shardc != 0 && shardv.Some? && mapsql.Some? && |mapsql.value| > 0
  }

  /**
   * What `mu_makeQueryCoreFile` does with its buffer as written: the
   * overflow test is `cursor > bufsize`, so a run whose cursor stopped
   * exactly on the size is written out.
   */
  ghost function MapFileAsWritten(conf: Option<Config.DbConf>, fname: Option<string>, coredbname: string, shardc: int,
                                  shardv: Option<seq<Option<string>>>, mapsql: Option<string>, exts: Option<string>): Option<string>
    requires 0 <= shardc && (shardv.Some? ==> shardc <= |shardv.value|)
  {
    if !MapArgsValid(conf, fname, shardc, shardv, mapsql) then None
    else
      var size := MapBufSize(mapsql.value, shardc);
      var r := PrintBuffer.Run(MapPieces(conf.value.otablename, coredbname, shardv.value[..shardc], mapsql.value, exts), size);
      if PrintBuffer.AcceptsAsWritten(r, size) then Some(r.text) else None
  }

  /**
   * The file `mu_makeQueryCoreFile` writes, with the overflow test the
   * buffer needs (`cursor >= bufsize` is an overflow): NULL stands for the
   * -1 return.
   */
  ghost function MapFile(conf: Option<Config.DbConf>, fname: Option<string>, coredbname: string, shardc: int,
                         shardv: Option<seq<Option<string>>>, mapsql: Option<string>, exts: Option<string>): Option<string>
    requires 0 <= shardc && (shardv.Some? ==> shardc <= |shardv.value|)
  {
    if !MapArgsValid(conf, fname, shardc, shardv, mapsql) then None
    else
      var size := MapBufSize(mapsql.value, shardc);
      var r := PrintBuffer.Run(MapPieces(conf.value.otablename, coredbname, shardv.value[..shardc], mapsql.value, exts), size);
      if PrintBuffer.Fits(r, size) then Some(r.text) else None
  }

  /**
   * `mu_makeQueryCoreFile`: reject missing arguments, no shards and an
   * empty statement before anything is built; print every shard's block
   * into the buffer; write it only when it did not overflow.  Returns the
   * status and the file's text.
   */
  method MakeQueryCoreFile(conf: Option<Config.DbConf>, fname: Option<string>, coredbname: string, shardc: int,
                           shardv: Option<seq<Option<string>>>, mapsql: Option<string>, exts: Option<string>)
    returns (rc: int, file: Option<string>)
    requires 0 <= shardc && (shardv.Some? ==> shardc <= |shardv.value|)
    ensures file == MapFile(conf, fname, coredbname, shardc, shardv, mapsql, exts)
    ensures rc == (if file.Some? then 0 else -1)
  {
    if conf.None? || fname.None? || shardc == 0 || shardv.None? || mapsql.None? || |mapsql.value| == 0 {
      return -1, None;
    }
    var size := MapBufSize(mapsql.value, shardc);
    var buf := new PrintBuffer.ScriptBuffer(size);
    var isSelect := Classify.IsMuSelect(mapsql.value);
    Scripts.PrintShardBlocks(buf, shardv.value[..shardc], MapBlock(conf.value.otablename, coredbname, mapsql.value, exts, isSelect));
    assert buf.pieces == MapPieces(conf.value.otablename, coredbname, shardv.value[..shardc], mapsql.value, exts);
    assert PrintBuffer.Printed(buf.text, buf.cursor) == PrintBuffer.Run(buf.pieces, size);
    if buf.cursor >= size {
      return -1, None;
    }
    return 0, Some(buf.text);
  }

  /**
   * A written map file is the complete script, never a cut one; it is
   * written exactly when the arguments are valid and the script is
   * shorter than the buffer.
   */
  lemma MapFileMeaning(conf: Option<Config.DbConf>, fname: Option<string>, coredbname: string, shardc: int,
                       shardv: Option<seq<Option<string>>>, mapsql: Option<string>, exts: Option<string>)
    requires 0 <= shardc && (shardv.Some? ==> shardc <= |shardv.value|)
    ensures MapFile(conf, fname, coredbname, shardc, shardv, mapsql, exts).Some? <==>
              MapArgsValid(conf, fname, shardc, shardv, mapsql)
              && |Text.Concat(MapPieces(conf.value.otablename, coredbname, shardv.value[..shardc], mapsql.value, exts))|
                 < MapBufSize(mapsql.value, shardc)
    ensures MapFile(conf, fname, coredbname, shardc, shardv, mapsql, exts).Some? ==>
              MapFile(conf, fname, coredbname, shardc, shardv, mapsql, exts).value
              == Text.Concat(MapPieces(conf.value.otablename, coredbname, shardv.value[..shardc], mapsql.value, exts))
  {
    if MapArgsValid(conf, fname, shardc, shardv, mapsql) {
      PrintBuffer.FitsMeansComplete(MapPieces(conf.value.otablename, coredbname, shardv.value[..shardc], mapsql.value, exts),
                                    MapBufSize(mapsql.value, shardc));
    }
  }

  /**
   * With a 2031-character shard name and the statement `x`, the script is
   * exactly as long as the buffer: the code as written accepts it and
   * writes it without its final newline, while the corrected test refuses
   * it.
   */
  lemma MapFileAsWrittenDropsNewline()
    ensures var shard := Text.Zeros(2031);
            var conf := Some(Config.DbConf(None, "maptable", true, 1, [shard]));
            MapFileAsWritten(conf, Some("in"), "db", 1, Some([Some(shard)]), Some("x"), None)
              == Some(ShardOpen(shard) + BailOn + "x")
            && MapFile(conf, Some("in"), "db", 1, Some([Some(shard)]), Some("x"), None) == None
  {
    var shard := Text.Zeros(2031);
    var pieces := [ShardOpen(shard), BailOn, "x\n"];
    OneShardPieces(shard);
    var all := ShardOpen(shard) + BailOn + "x\n";
    assert Text.Concat(pieces) == all by {
      ConcatThree(ShardOpen(shard), BailOn, "x\n");
    }
    assert |all| == 2049 == MapBufSize("x", 1) by {
      MapBufSizeFormula("x", 1);
    }
    var r := PrintBuffer.Run(pieces, 2049);
    assert r.text == ShardOpen(shard) + BailOn + "x" && r.cursor == 2049 by {
      PrintBuffer.RunMeaning(pieces, 2049);
      assert all[..2048] == ShardOpen(shard) + BailOn + "x";
    }
  }

  /** The one-shard map script for the statement `x`, with no extensions. */
  lemma OneShardPieces(shard: string)
    ensures MapPieces("maptable", "db", [Some(shard)][..1], "x", None) == [ShardOpen(shard), BailOn, "x\n"]
  {
    assert !Classify.StartsWithSelect("x") by {
      assert !Classify.IsSelectLetter("x"[0]);
    }
    var shards := [Some(shard)];
    assert shards[..1] == shards && shards[..0] == [];
    var block := MapBlock("maptable", "db", "x", None, false);
    assert block(0, shard) == [ShardOpen(shard), BailOn, "x\n"] by {
      assert ExtPieces(None) == [] && "x" + "\n" == "x\n";
      assert block(0, shard) == [ShardOpen(shard), BailOn] + [] + ["x" + "\n"];
    }
    assert Scripts.ShardBlocks(shards, block) == Scripts.ShardBlocks([], block) + block(0, shard);
  }

  lemma ConcatThree(a: string, b: string, c: string)
    ensures Text.Concat([a, b, c]) == a + b + c
  {
    assert [a, b, c] == [a, b] + [c] && [a, b] == [a] + [b];
    Text.ConcatAppend([a, b], [c]);
    Text.ConcatAppend([a], [b]);
    Text.ConcatOne(a);
    Text.ConcatOne(b);
    Text.ConcatOne(c);
  }

  /** Every block has the same number of pieces. */
  lemma MapBlockWidths(otable: string, coredb: string, mapsql: string, exts: Option<string>, sel: bool)
    ensures forall i, s :: |MapBlock(otable, coredb, mapsql, exts, sel)(i, s)| == MapWidth(exts, sel)
  {
    forall i, s ensures |MapBlock(otable, coredb, mapsql, exts, sel)(i, s)| == MapWidth(exts, sel) {
      MapBlockPieces(otable, coredb, mapsql, exts, sel, i, s);
    }
  }

  /**
   * The block for one shard, by position: it opens the shard and stops on
   * error, and, for a select, attaches the worker's result database and
   * creates the table in block 0 and inserts into it in every later
   * block; otherwise it runs the statement.
   */
  lemma MapBlockPieces(otable: string, coredb: string, mapsql: string, exts: Option<string>, sel: bool, i: nat, shard: string)
    ensures var blk := MapBlock(otable, coredb, mapsql, exts, sel)(i, shard);
            var w := MapWidth(exts, sel);
            |blk| == w && blk[0] == ShardOpen(shard) && blk[1] == BailOn
            && blk[2..w - (if sel then 2 else 1)] == ExtPieces(exts)
            && (sel ==> blk[w - 2] == AttachResult(coredb)
                        && blk[w - 1] == if i == 0 then CreateResult(otable, mapsql) else InsertResult(otable, mapsql))
            && (!sel ==> blk[w - 1] == mapsql + "\n")
  {
  }

  // ---------------------------------------------------------------------
  // Reduce script (assembled in `mu_run_query`)

  function CoreAlias(k: nat): string { "coredb" + Text.Pad3(k) }

  function AttachCore(db: string, k: nat): string { "attach database '" + db + "' as '" + CoreAlias(k) + "';\n" }

  function InsertCore(otable: string, k: nat): string
  {
    "insert into " + otable + " select * from " + CoreAlias(k) + "." + otable + ";\n"
  }

  function DetachCore(k: nat): string { "detach database '" + CoreAlias(k) + "';\n" }

  /** Copy worker `k`'s table into the reducer's table. */
  function Gather(otable: string, db: string, k: nat): seq<string>
  {
    [AttachCore(db, k), InsertCore(otable, k), DetachCore(k)]
  }

  /** The gathers for workers `1 .. m-1`; worker 0's database is the reducer's own. */
  function Gathers(otable: string, dbs: seq<string>, m: nat): seq<string>
    requires m <= |dbs|
  {
    Scripts.Numbered(m, GatherBlock(otable, dbs))
  }

  function GatherBlock(otable: string, dbs: seq<string>): nat -> seq<string>
  {
    (k: nat) => if k < |dbs| then Gather(otable, dbs[k], k) else []
  }

  /** The reduce script: stop on error, extensions, gather workers 1.., then the reduce statement. */
  function ReducePieces(otable: string, dbs: seq<string>, exts: Option<string>, reducesql: string): seq<string>
  {
    [BailOn] + ExtPieces(exts) + Gathers(otable, dbs, |dbs|) + [reducesql + "\n"]
  }

  /** `bufsize = 1024 * ncores + strlen(reducesql)`. */
  function ReduceBufSize(ncores: nat, reducesql: string): nat
  {
    1024 * ncores + |reducesql|
  }

  /** Aliases of different workers differ. */
  lemma CoreAliasInjective(a: nat, b: nat)
    requires CoreAlias(a) == CoreAlias(b)
    ensures a == b
  {
    assert Text.Pad3(a) == CoreAlias(a)[6..] == CoreAlias(b)[6..] == Text.Pad3(b);
    Text.Pad3Injective(a, b);
  }

  /**
   * Read back worker by worker: pieces `3(k-1) .. 3(k-1)+2` of the gathers
   * attach worker `k`'s database under its own alias, copy its table and
   * detach it, for every `1 <= k < m`.
   */
  lemma GathersLayout(otable: string, dbs: seq<string>, m: nat, k: nat)
    requires m <= |dbs| && 1 <= k < m
    ensures 3 * k <= |Gathers(otable, dbs, m)|
    ensures Gathers(otable, dbs, m)[3 * (k - 1)..3 * k] == Gather(otable, dbs[k], k)
  {
    var block := GatherBlock(otable, dbs);
    var o := Scripts.Offset(k - 1, 3);
    assert o == 3 * (k - 1) by {
      Scripts.OffsetIsProduct(k - 1, 3);
    }
    assert block(k) == Gather(otable, dbs[k], k);
    assert o + 3 <= |Scripts.Numbered(m, block)| && Scripts.Numbered(m, block)[o..o + 3] == block(k) by {
      assert forall i :: 1 <= i < m ==> |block(i)| == 3;
      Scripts.NumberedLayout(m, block, 3, k);
    }
  }

  /** Three pieces for every worker after the first. */
  lemma GathersLength(otable: string, dbs: seq<string>, m: nat)
    requires m <= |dbs|
    ensures |Gathers(otable, dbs, m)| == if m <= 1 then 0 else 3 * (m - 1)
  {
    var block := GatherBlock(otable, dbs);
    assert forall i :: 1 <= i < m ==> |block(i)| == 3;
    Scripts.NumberedLength(m, block, 3);
    if m > 1 {
      Scripts.OffsetIsProduct(m - 1, 3);
    }
  }

  // ---------------------------------------------------------------------
  // The query (`mu_run_query`)

  /** A map worker's file: `<tmp>/mapsql.<stream>.NNN`. */
  function MapTaskFile(tmp: string, stream: string, k: nat): string { Tasks.TaskFile(tmp, "mapsql", stream, k) }

  /** The reducer's file: `<tmp>/reducesql.<stream>.000`. */
  function ReduceTaskFile(tmp: string, stream: string): string { Tasks.TaskFile(tmp, "reducesql", stream, 0) }

  /** The workers' result databases, in worker order. */
  function WorkerDbs(tmp: string, n: nat): (dbs: seq<string>)
    ensures |dbs| == n && forall k :: 0 <= k < n ==> dbs[k] == MapTaskFile(tmp, "db", k)
  {
    seq(n, k requires 0 <= k < n => MapTaskFile(tmp, "db", k))
  }

  /** Worker `k`'s map file, or NULL when it cannot be built. */
  ghost function WorkerFile(conf: Config.DbConf, mapsql: string, tmp: string, exts: Option<string>, k: nat): Option<string>
    requires k < conf.ncores
  {
    var mine := Partition.Picked(conf.shardv, k, conf.ncores);
    MapFile(Some(conf), Some(MapTaskFile(tmp, "in", k)), MapTaskFile(tmp, "db", k), |mine|,
            Some(Scripts.AllPresent(mine)), Some(mapsql), exts)
  }

  ghost function WorkerFiles(conf: Config.DbConf, mapsql: string, tmp: string, exts: Option<string>): (fs: seq<Option<string>>)
    requires conf.ncores >= 0
    ensures |fs| == conf.ncores
    ensures forall k {:trigger WorkerFile(conf, mapsql, tmp, exts, k)} :: 0 <= k < conf.ncores ==> fs[k] == WorkerFile(conf, mapsql, tmp, exts, k)
  {
    seq(conf.ncores, k requires 0 <= k < conf.ncores => WorkerFile(conf, mapsql, tmp, exts, k))
  }

  /** The first `m` entries, all present, unwrapped. */
  function Values(fs: seq<Option<string>>, m: nat): (vs: seq<string>)
    requires m <= |fs| && forall k :: 0 <= k < m ==> fs[k].Some?
    ensures |vs| == m && forall k :: 0 <= k < m ==> fs[k] == Some(vs[k])
  {
    seq(m, k requires 0 <= k < m => fs[k].value)
  }

  lemma ValuesNext(fs: seq<Option<string>>, m: nat)
    requires m < |fs| && forall k :: 0 <= k <= m ==> fs[k].Some?
    ensures Values(fs, m + 1) == Values(fs, m) + [fs[m].value]
  {
  }

  /** Which map workers fail, judged by exit status and error file. */
  function MapFailures(tmp: string, statuses: seq<int>, disk: SmallFiles.Disk): (fail: seq<bool>)
    ensures |fail| == |statuses|
    ensures forall k :: 0 <= k < |statuses| ==>
              fail[k] == Tasks.TaskFailed(statuses[k], SmallFiles.ReadSmallFile(disk, Some(MapTaskFile(tmp, "err", k))))
  {
    seq(|statuses|, k requires 0 <= k < |statuses| =>
          Tasks.TaskFailed(statuses[k], SmallFiles.ReadSmallFile(disk, Some(MapTaskFile(tmp, "err", k)))))
  }

  /** The reduce buffer after the whole reduce script was printed into it. */
  function ReduceRun(otable: string, tmp: string, n: nat, exts: Option<string>, reducesql: string): PrintBuffer.Printed
    requires n > 0
  {
    PrintBuffer.Run(ReducePieces(otable, WorkerDbs(tmp, n), exts, reducesql), ReduceBufSize(n, reducesql))
  }

  /** The reduce file `mu_run_query` writes, or NULL when the reduce script overflows its buffer. */
  function ReduceFile(otable: string, tmp: string, n: nat, exts: Option<string>, reducesql: string): Option<string>
    requires n > 0
  {
    var r := ReduceRun(otable, tmp, n, exts, reducesql);
    if PrintBuffer.Fits(r, ReduceBufSize(n, reducesql)) then Some(r.text) else None
  }

  /**
   * The reduce file as `mu_run_query` writes it with its own overflow test
   * `cursor > bufsize`: a run whose cursor stopped exactly on the size is
   * written out, one character short.
   */
  function ReduceFileAsWritten(otable: string, tmp: string, n: nat, exts: Option<string>, reducesql: string): Option<string>
    requires n > 0
  {
    var r := ReduceRun(otable, tmp, n, exts, reducesql);
    if PrintBuffer.AcceptsAsWritten(r, ReduceBufSize(n, reducesql)) then Some(r.text) else None
  }

  /** The reducer fails: a non-zero status or an error file that reads back. */
  predicate ReducerFailed(tmp: string, reduceStatus: int, disk: SmallFiles.Disk)
  {
    Tasks.TaskFailed(reduceStatus, SmallFiles.ReadSmallFile(disk, Some(ReduceTaskFile(tmp, "err"))))
  }

  /** Where `mu_run_query` stops once its arguments and temporary directory are in place. */
  datatype Stop =
    | BuildFailed(worker: nat)  // this worker's map file could not be built
    | ReduceOverflow            // the reduce script does not fit its buffer
    | MapFailed(worker: nat)    // this worker failed; it is the first that did
    | NoReduce                  // every worker succeeded and there is no reduce statement
    | ReduceFailed              // the reducer failed
    | Completed                 // the reducer succeeded

  predicate StopValid(stop: Stop, n: nat)
  {
    (stop.BuildFailed? || stop.MapFailed?) ==> stop.worker < n
  }

  /** The processes started and waited for up to the stop, with `n` workers. */
  function TraceOf(stop: Stop, n: nat): seq<Trace.Event>
    requires StopValid(stop, n)
  {
    match stop
    case BuildFailed(b) => Trace.Run(b, 0, [])
    case ReduceOverflow => Trace.Run(n, 0, [])
    case MapFailed(f) => Trace.Run(n, f + 1, [])
    case NoReduce => Trace.Run(n, n, [Trace.RemoveTemp])
    case ReduceFailed => Trace.Run(n, n, [Trace.StartReduce, Trace.FinishReduce])
    case Completed => Trace.Run(n, n, [Trace.StartReduce, Trace.FinishReduce, Trace.RemoveTemp])
  }

  /** The returned text: the reducer's output file, only when the reducer succeeded. */
  function ResultOf(stop: Stop, tmp: string, disk: SmallFiles.Disk): Option<string>
  {
    if stop.Completed? then SmallFiles.ReadSmallFile(disk, Some(ReduceTaskFile(tmp, "out"))) else None
  }

  /** After the waits: the first failed worker `failed` (`n` when none failed), then the reducer. */
  function StopAfterWaits(n: nat, reducing: bool, failed: nat, reducerFailed: bool): (stop: Stop)
    ensures StopValid(stop, n) && !stop.BuildFailed? && !stop.ReduceOverflow?
  {
    if failed < n then MapFailed(failed)
    else if !reducing then NoReduce
    else if reducerFailed then ReduceFailed
    else Completed
  }

  /** After every worker was started: the reduce script, the waits and the reducer. */
  function StopAfterMaps(otable: string, reduce: Option<string>, tmp: string, n: nat, exts: Option<string>,
                         statuses: seq<int>, reduceStatus: int, disk: SmallFiles.Disk): (stop: Stop)
    requires n > 0
    ensures StopValid(stop, n) && !stop.BuildFailed?
  {
    if reduce.Some? && ReduceFile(otable, tmp, n, exts, reduce.value).None? then ReduceOverflow
    else StopAfterWaits(n, reduce.Some?, Trace.FirstTrue(MapFailures(tmp, statuses, disk)),
                        ReducerFailed(tmp, reduceStatus, disk))
  }

  /** Where a query stops: the first map file that cannot be built, or what follows the map phase. */
  ghost function QueryStop(c: Config.DbConf, query: SmallFiles.Query, tmp: string, exts: Option<string>,
                           mapStatus: seq<int>, reduceStatus: int, disk: SmallFiles.Disk): (stop: Stop)
    requires 1 <= c.ncores <= |mapStatus|
    ensures StopValid(stop, c.ncores)
    ensures var built := Trace.FirstNone(WorkerFiles(c, query.mapsql, tmp, exts));
            (stop.BuildFailed? <==> built < c.ncores) && (stop.BuildFailed? ==> stop.worker == built)
  {
    var built := Trace.FirstNone(WorkerFiles(c, query.mapsql, tmp, exts));
    if built < c.ncores then BuildFailed(built)
    else StopAfterMaps(c.otablename, query.reducesql, tmp, c.ncores, exts, mapStatus[..c.ncores], reduceStatus, disk)
  }

  /**
   * What a query leaves behind: the returned text (NULL on any failure),
   * the order of process starts and waits, the map files written and the
   * reduce file written.
   */
  datatype QueryRun = QueryRun(result: Option<string>, trace: seq<Trace.Event>, mapFiles: seq<string>, reduceFile: Option<string>)

  /**
   * `mu_run_query` in closed form.  The map files are built and the
   * workers started in worker order until one file cannot be built; then
   * the reduce script is assembled; then the workers are waited for in
   * order until the first one that failed; then the reducer runs and its
   * output is the result.  Every failure returns at once.
   */
  ghost function Query(conf: Option<Config.DbConf>, q: Option<SmallFiles.Query>, tmpdir: Option<string>,
                       exts: Option<string>, mapStatus: seq<int>, reduceStatus: int, disk: SmallFiles.Disk): QueryRun
    requires conf.Some? ==> 1 <= conf.value.ncores <= |mapStatus|
  {
    if conf.None? || q.None? || tmpdir.None? then QueryRun(None, [], [], None)
    else
      var c, tmp, reduce := conf.value, tmpdir.value, q.value.reducesql;
      var stop := QueryStop(c, q.value, tmp, exts, mapStatus, reduceStatus, disk);
      var started := if stop.BuildFailed? then stop.worker else c.ncores;
      var scripted := !stop.BuildFailed? && !stop.ReduceOverflow? && reduce.Some?;
      QueryRun(ResultOf(stop, tmp, disk), TraceOf(stop, c.ncores),
               Values(WorkerFiles(c, q.value.mapsql, tmp, exts), started),
               if scripted then ReduceFile(c.otablename, tmp, c.ncores, exts, reduce.value) else None)
  }

  /** Worker `k`'s task carries its own file names and its own result database. */
  predicate MapTaskNamed(t: Tasks.SqliteTask, tmp: string, k: nat)
  {
    t.iname == MapTaskFile(tmp, "in", k) && t.ename == MapTaskFile(tmp, "err", k) && t.dbname == Some(MapTaskFile(tmp, "db", k))
  }

  /** The `mu_define_task(tmpdir, NULL, "mapsql", icore)` loop. */
  method DefineMapTasks(tmp: string, n: nat) returns (tasks: seq<Tasks.SqliteTask>)
    ensures |tasks| == n
    ensures forall k :: 0 <= k < n ==> fresh(tasks[k]) && MapTaskNamed(tasks[k], tmp, k)
  {
    tasks := [];
    for k := 0 to n
      invariant |tasks| == k
      invariant forall j :: 0 <= j < k ==> fresh(tasks[j]) && MapTaskNamed(tasks[j], tmp, j)
    {
      var t := Tasks.DefineTask(Some(tmp), None, Some("mapsql"), k);
      assert fresh(t.value) && MapTaskNamed(t.value, tmp, k);
      tasks := tasks + [t.value];
    }
  }

  /** The three gather statements for worker `k` (`MU_PRINTBUF` three times). */
  method PrintGather(buf: PrintBuffer.ScriptBuffer, otable: string, db: string, k: nat)
    requires buf.Valid()
    modifies buf
    ensures buf.Valid() && buf.pieces == old(buf.pieces) + Gather(otable, db, k)
  {
    buf.Print(AttachCore(db, k));
    buf.Print(InsertCore(otable, k));
    buf.Print(DetachCore(k));
  }

  /** Worker `k`'s share of the reduce script: its gather, or nothing for worker 0. */
  method GatherWorker(buf: PrintBuffer.ScriptBuffer, otable: string, db: string, k: nat,
                      ghost dbs: seq<string>, ghost prefix: seq<string>)
    requires k < |dbs| && db == dbs[k]
    requires buf.Valid() && buf.pieces == prefix + Gathers(otable, dbs, k)
    modifies buf
    ensures buf.Valid() && buf.pieces == prefix + Gathers(otable, dbs, k + 1)
  {
    if k > 0 {
      PrintGather(buf, otable, db, k);
    }
  }

  /**
   * One worker's step of the first loop: take its shards from the whole
   * list (`mu_getcoreshardv`) and build its map file.
   */
  method BuildWorkerFile(c: Config.DbConf, mapsql: string, tmp: string, exts: Option<string>,
                         task: Tasks.SqliteTask, k: nat, ghost files: seq<Option<string>>)
    returns (rc: int, file: Option<string>)
    requires k < c.ncores && MapTaskNamed(task, tmp, k)
    requires AreWorkerFiles(files, c, mapsql, tmp, exts)
    ensures file == files[k] && (rc == 0 <==> file.Some?)
  {
    var n := c.ncores;
    var shards := new string[|c.shardv|](i requires 0 <= i < |c.shardv| => c.shardv[i]);
    var shardc := Partition.CoreShardCount(k, n, shards.Length);
    var mine := Partition.GetCoreShards(k, n, shards.Length, shards);
    assert shards[..shards.Length] == c.shardv;
    rc, file := MakeQueryCoreFile(Some(c), Some(task.iname), task.dbname.value, shardc,
                                  Some(Scripts.AllPresent(mine[..])), Some(mapsql), exts);
    assert file == WorkerFile(c, mapsql, tmp, exts, k);
  }

  /**
   * `files` lists every worker's map file (NULL where it cannot be
   * built); stated so that a worker's file is looked at only where it is
   * needed.
   */
  ghost predicate AreWorkerFiles(files: seq<Option<string>>, c: Config.DbConf, mapsql: string, tmp: string, exts: Option<string>)
  {
    |files| == c.ncores
    && forall k {:trigger WorkerFile(c, mapsql, tmp, exts, k)} :: 0 <= k < c.ncores ==> files[k] == WorkerFile(c, mapsql, tmp, exts, k)
  }

  /**
   * The first loop of `mu_run_query`: for each worker, print its gather
   * into the reduce buffer (workers 1.. only, when there is a reduce
   * statement), build its map file and start it; stop at the first file
   * that cannot be built.
   */
  method StartWorkers(c: Config.DbConf, mapsql: string, tmp: string, exts: Option<string>,
                      tasks: seq<Tasks.SqliteTask>, buf: PrintBuffer.ScriptBuffer, gather: bool, ghost files: seq<Option<string>>)
    returns (started: bool, trace: seq<Trace.Event>, mapFiles: seq<string>)
    requires 1 <= c.ncores == |tasks|
    requires AreWorkerFiles(files, c, mapsql, tmp, exts)
    requires forall k :: 0 <= k < |tasks| ==> MapTaskNamed(tasks[k], tmp, k)
    requires gather ==> buf.Valid()
    modifies buf
    ensures var built := Trace.FirstNone(files);
            (started <==> built == c.ncores) && trace == Trace.Run(built, 0, []) && mapFiles == Values(files, built)
    ensures gather && started ==>
              buf.Valid() && buf.pieces == old(buf.pieces) + Gathers(c.otablename, WorkerDbs(tmp, c.ncores), c.ncores)
  {
    var n := c.ncores;
    ghost var dbs := WorkerDbs(tmp, n);
    trace, mapFiles := [], [];
    for icore := 0 to n
      invariant trace == Trace.Starts(icore)
      invariant forall k :: 0 <= k < icore ==> files[k].Some?
      invariant mapFiles == Values(files, icore)
      invariant gather ==> buf.Valid() && buf.pieces == old(buf.pieces) + Gathers(c.otablename, dbs, icore)
    {
      if gather {
        GatherWorker(buf, c.otablename, tasks[icore].dbname.value, icore, dbs, old(buf.pieces));
      }
      var rc, file := BuildWorkerFile(c, mapsql, tmp, exts, tasks[icore], icore, files);
      if rc != 0 {
        Trace.FirstNoneUnique(files, icore);
        assert trace == Trace.Run(icore, 0, []);
        return false, trace, mapFiles;
      }
      ValuesNext(files, icore);
      Trace.StartsNext(icore);
      trace := trace + [Trace.StartMap(icore)];
      mapFiles := mapFiles + [file.value];
    }
    Trace.FirstNoneUnique(files, n);
    assert trace == Trace.Run(n, 0, []);
    started := true;
  }

  /**
   * The wait loop of `mu_run_query`: wait for each worker in order and
   * stop at the first that failed.  Returns that worker's index (the
   * number of workers when none failed) and the waits performed.
   */
  method WaitWorkers(tmp: string, tasks: seq<Tasks.SqliteTask>, statuses: seq<int>, disk: SmallFiles.Disk)
    returns (failed: nat, waits: seq<Trace.Event>)
    requires |statuses| == |tasks|
    requires forall k :: 0 <= k < |tasks| ==> tasks[k].ename == MapTaskFile(tmp, "err", k)
    modifies set k | 0 <= k < |tasks| :: tasks[k]
    ensures failed == Trace.FirstTrue(MapFailures(tmp, statuses, disk))
    ensures waits == Trace.Finishes(if failed < |tasks| then failed + 1 else |tasks|)
  {
    ghost var failures := MapFailures(tmp, statuses, disk);
    waits := [];
    for k := 0 to |tasks|
      invariant waits == Trace.Finishes(k)
      invariant forall j :: 0 <= j < k ==> !failures[j]
    {
      var rc := tasks[k].Finish(statuses[k], disk);
      waits := waits + [Trace.FinishMap(k)];
      assert waits == Trace.Finishes(k + 1);
      if rc != 0 {
        Trace.FirstTrueUnique(failures, k);
        return k, waits;
      }
    }
    Trace.FirstTrueUnique(failures, |tasks|);
    failed := |tasks|;
  }

  /**
   * The end of the reduce script: the reduce statement, then the overflow
   * test; the text is what would be written to the reducer's input file.
   */
  method EndReduceScript(buf: PrintBuffer.ScriptBuffer, otable: string, tmp: string, n: nat, exts: Option<string>, reducesql: string)
    returns (reduceFile: Option<string>)
    requires n > 0 && buf.Valid() && buf.size == ReduceBufSize(n, reducesql)
    requires buf.pieces == [BailOn] + ExtPieces(exts) + Gathers(otable, WorkerDbs(tmp, n), n)
    modifies buf
    ensures reduceFile == ReduceFile(otable, tmp, n, exts, reducesql)
  {
    buf.Print(reducesql + "\n");
    assert buf.pieces == ReducePieces(otable, WorkerDbs(tmp, n), exts, reducesql);
    if buf.cursor >= buf.size {
      return None;
    }
    return Some(buf.text);
  }

  /**
   * The rest of `mu_run_query` once the map workers run and the reduce
   * script is in place: wait for the workers, then run the reducer and
   * read its output, then remove the temporary directory.
   */
  method WaitAndReduce(tmp: string, tasks: seq<Tasks.SqliteTask>, reduceTask: Tasks.SqliteTask, statuses: seq<int>,
                       reduceStatus: int, disk: SmallFiles.Disk, mapFiles: seq<string>, reduceFile: Option<string>)
    returns (run: QueryRun)
    requires |statuses| == |tasks|
    requires forall k :: 0 <= k < |tasks| ==> tasks[k].ename == MapTaskFile(tmp, "err", k)
    requires reduceTask.ename == ReduceTaskFile(tmp, "err") && reduceTask.oname == ReduceTaskFile(tmp, "out")
    modifies set k | 0 <= k < |tasks| :: tasks[k]
    modifies reduceTask
    ensures var stop := StopAfterWaits(|tasks|, reduceFile.Some?, Trace.FirstTrue(MapFailures(tmp, statuses, disk)),
                                       ReducerFailed(tmp, reduceStatus, disk));
            run == QueryRun(ResultOf(stop, tmp, disk), TraceOf(stop, |tasks|), mapFiles, reduceFile)
  {
    var n := |tasks|;
    var failed, waits := WaitWorkers(tmp, tasks, statuses, disk);
    ghost var stop := StopAfterWaits(n, reduceFile.Some?, failed, ReducerFailed(tmp, reduceStatus, disk));
    var trace := Trace.Run(n, 0, []) + waits;
    if failed < n {
      assert stop == MapFailed(failed);
      assert trace == TraceOf(stop, n) by {
        Trace.RunThen(n, failed + 1, []);
        assert trace == Trace.Run(n, 0, []) + waits + [];
      }
      return QueryRun(None, trace, mapFiles, reduceFile);
    }
    var result: Option<string> := None;
    if reduceFile.Some? {
      trace := trace + [Trace.StartReduce];
      var rc := reduceTask.Finish(reduceStatus, disk);
      trace := trace + [Trace.FinishReduce];
      if rc != 0 {
        assert stop == ReduceFailed;
        assert trace == TraceOf(stop, n) by {
          Trace.RunThen(n, n, [Trace.StartReduce, Trace.FinishReduce]);
          assert trace == Trace.Run(n, 0, []) + waits + [Trace.StartReduce, Trace.FinishReduce];
        }
        return QueryRun(None, trace, mapFiles, reduceFile);
      }
      assert stop == Completed;
      result := SmallFiles.ReadSmallFile(disk, Some(reduceTask.oname));
      trace := trace + [Trace.RemoveTemp];
      assert trace == TraceOf(stop, n) by {
        Trace.RunThen(n, n, [Trace.StartReduce, Trace.FinishReduce, Trace.RemoveTemp]);
        assert trace == Trace.Run(n, 0, []) + waits + [Trace.StartReduce, Trace.FinishReduce, Trace.RemoveTemp];
      }
    } else {
      assert stop == NoReduce;
      trace := trace + [Trace.RemoveTemp];
      assert trace == TraceOf(stop, n) by {
        Trace.RunThen(n, n, [Trace.RemoveTemp]);
      }
    }
    return QueryRun(result, trace, mapFiles, reduceFile);
  }

  /**
   * `mu_run_query`.  The temporary directory (NULL when it could not be
   * created), the extension text, the workers' and the reducer's exit
   * statuses and the files they leave are inputs; starting and waiting for
   * processes are the trace events.
   */
  method RunQuery(conf: Option<Config.DbConf>, q: Option<SmallFiles.Query>, tmpdir: Option<string>,
                  exts: Option<string>, mapStatus: seq<int>, reduceStatus: int, disk: SmallFiles.Disk)
    returns (run: QueryRun)
    requires conf.Some? ==> 1 <= conf.value.ncores <= |mapStatus|
    ensures run == Query(conf, q, tmpdir, exts, mapStatus, reduceStatus, disk)
  {
    if conf.None? || q.None? || tmpdir.None? {
      return QueryRun(None, [], [], None);
    }
    var c, tmp := conf.value, tmpdir.value;
    var n := c.ncores;
    var reduce := q.value.reducesql;
    var tasks, reducer := DefineQueryTasks(tmp, n);
    var buf := BeginReduceScript(n, reduce, exts);

    ghost var files := WorkerFiles(c, q.value.mapsql, tmp, exts);
    assert AreWorkerFiles(files, c, q.value.mapsql, tmp, exts);
    var started, trace, mapFiles := StartWorkers(c, q.value.mapsql, tmp, exts, tasks, buf, reduce.Some?, files);
    if !started {
      QueryNotStarted(c, q.value, tmp, exts, mapStatus, reduceStatus, disk);
      return QueryRun(None, trace, mapFiles, None);
    }
    run := FinishQuery(c.otablename, reduce, tmp, exts, tasks, reducer, buf, mapStatus[..n], reduceStatus, disk, mapFiles);
    assert run == Query(conf, q, tmpdir, exts, mapStatus, reduceStatus, disk) by {
      QueryStarted(c, q.value, tmp, exts, mapStatus, reduceStatus, disk);
    }
  }

  /** The map tasks, then the reducer, which shares worker 0's result database. */
  method DefineQueryTasks(tmp: string, n: nat) returns (tasks: seq<Tasks.SqliteTask>, reducer: Tasks.SqliteTask)
    requires n > 0
    ensures |tasks| == n && fresh(reducer)
    ensures forall k :: 0 <= k < n ==> fresh(tasks[k]) && MapTaskNamed(tasks[k], tmp, k)
    ensures reducer.ename == ReduceTaskFile(tmp, "err") && reducer.oname == ReduceTaskFile(tmp, "out")
    ensures reducer.dbname == Some(MapTaskFile(tmp, "db", 0))
  {
    tasks := DefineMapTasks(tmp, n);
    var t := Tasks.DefineTask(Some(tmp), tasks[0].dbname, Some("reducesql"), 0);
    reducer := t.value;
  }

  /**
   * The reduce buffer of `1024 * ncores + strlen(reducesql)` characters
   * and, when there is a reduce statement, the head of its script.
   */
  method BeginReduceScript(n: nat, reduce: Option<string>, exts: Option<string>) returns (buf: PrintBuffer.ScriptBuffer)
    requires n > 0
    ensures fresh(buf)
    ensures reduce.Some? ==> buf.Valid() && buf.size == ReduceBufSize(n, reduce.value) && buf.pieces == [BailOn] + ExtPieces(exts)
  {
    buf := new PrintBuffer.ScriptBuffer(ReduceBufSize(n, if reduce.Some? then reduce.value else ""));
    if reduce.Some? {
      buf.Print(BailOn);
      if exts.Some? {
        buf.Print(exts.value + "\n");
      }
      assert buf.pieces == [BailOn] + ExtPieces(exts);
    }
  }

  /**
   * The part of `mu_run_query` after every worker was started: finish and
   * test the reduce script, then wait for the workers and run the reducer.
   */
  method FinishQuery(otable: string, reduce: Option<string>, tmp: string, exts: Option<string>,
                     tasks: seq<Tasks.SqliteTask>, reducer: Tasks.SqliteTask, buf: PrintBuffer.ScriptBuffer,
                     statuses: seq<int>, reduceStatus: int, disk: SmallFiles.Disk, mapFiles: seq<string>)
    returns (run: QueryRun)
    requires |statuses| == |tasks| > 0
    requires forall k :: 0 <= k < |tasks| ==> tasks[k].ename == MapTaskFile(tmp, "err", k)
    requires reducer.ename == ReduceTaskFile(tmp, "err") && reducer.oname == ReduceTaskFile(tmp, "out")
    requires reduce.Some? ==>
               buf.Valid() && buf.size == ReduceBufSize(|tasks|, reduce.value)
               && buf.pieces == [BailOn] + ExtPieces(exts) + Gathers(otable, WorkerDbs(tmp, |tasks|), |tasks|)
    modifies buf, reducer
    modifies set k | 0 <= k < |tasks| :: tasks[k]
    ensures var n := |tasks|;
            var stop := StopAfterMaps(otable, reduce, tmp, n, exts, statuses, reduceStatus, disk);
            run == QueryRun(ResultOf(stop, tmp, disk), TraceOf(stop, n), mapFiles,
                            if stop != ReduceOverflow && reduce.Some? then ReduceFile(otable, tmp, n, exts, reduce.value) else None)
  {
    var n := |tasks|;
    ghost var waited := StopAfterWaits(n, reduce.Some?, Trace.FirstTrue(MapFailures(tmp, statuses, disk)),
                                       ReducerFailed(tmp, reduceStatus, disk));
    var reduceFile: Option<string> := None;
    if reduce.Some? {
      reduceFile := EndReduceScript(buf, otable, tmp, n, exts, reduce.value);
      if reduceFile.None? {
        return QueryRun(None, Trace.Run(n, 0, []), mapFiles, None);
      }
    }
    assert StopAfterMaps(otable, reduce, tmp, n, exts, statuses, reduceStatus, disk) == waited;
    run := WaitAndReduce(tmp, tasks, reducer, statuses, reduceStatus, disk, mapFiles, reduceFile);
  }

  /** `Query` when the map file of worker `FirstNone(files)` cannot be built. */
  lemma QueryNotStarted(c: Config.DbConf, query: SmallFiles.Query, tmp: string, exts: Option<string>,
                        mapStatus: seq<int>, reduceStatus: int, disk: SmallFiles.Disk)
    requires 1 <= c.ncores <= |mapStatus|
    requires Trace.FirstNone(WorkerFiles(c, query.mapsql, tmp, exts)) < c.ncores
    ensures var files := WorkerFiles(c, query.mapsql, tmp, exts);
            var built := Trace.FirstNone(files);
            Query(Some(c), Some(query), Some(tmp), exts, mapStatus, reduceStatus, disk)
            == QueryRun(None, Trace.Run(built, 0, []), Values(files, built), None)
  {
  }

  /** `Query` when every map file is built. */
  lemma QueryStarted(c: Config.DbConf, query: SmallFiles.Query, tmp: string, exts: Option<string>,
                     mapStatus: seq<int>, reduceStatus: int, disk: SmallFiles.Disk)
    requires 1 <= c.ncores <= |mapStatus|
    requires Trace.FirstNone(WorkerFiles(c, query.mapsql, tmp, exts)) == c.ncores
    ensures var n, reduce := c.ncores, query.reducesql;
            var stop := StopAfterMaps(c.otablename, reduce, tmp, n, exts, mapStatus[..n], reduceStatus, disk);
            Query(Some(c), Some(query), Some(tmp), exts, mapStatus, reduceStatus, disk)
            == QueryRun(ResultOf(stop, tmp, disk), TraceOf(stop, n), Values(WorkerFiles(c, query.mapsql, tmp, exts), n),
                        if stop != ReduceOverflow && reduce.Some? then ReduceFile(c.otablename, tmp, n, exts, reduce.value) else None)
  {
  }

  // ---------------------------------------------------------------------
  // What a query guarantees

  /** Process order at every stop: starts before waits, no double start, reducer after all waits. */
  lemma StopOrder(stop: Stop, n: nat)
    requires StopValid(stop, n)
    ensures Trace.WellNested(TraceOf(stop, n)) && Trace.ReduceAfterMaps(TraceOf(stop, n), n)
  {
    match stop
    case BuildFailed(b) =>
      Trace.RunWellNested(b, 0, []);
      Trace.RunWithoutTail(b, 0, n);
    case ReduceOverflow =>
      Trace.RunWellNested(n, 0, []);
      Trace.RunWithoutTail(n, 0, n);
    case MapFailed(f) =>
      Trace.RunWellNested(n, f + 1, []);
      Trace.RunWithoutTail(n, f + 1, n);
    case NoReduce =>
      Trace.RunWellNested(n, n, [Trace.RemoveTemp]);
      Trace.RunReduceAfterMaps(n, [Trace.RemoveTemp]);
    case ReduceFailed =>
      Trace.RunWellNested(n, n, [Trace.StartReduce, Trace.FinishReduce]);
      Trace.RunReduceAfterMaps(n, [Trace.StartReduce, Trace.FinishReduce]);
    case Completed =>
      Trace.RunWellNested(n, n, [Trace.StartReduce, Trace.FinishReduce, Trace.RemoveTemp]);
      Trace.RunReduceAfterMaps(n, [Trace.StartReduce, Trace.FinishReduce, Trace.RemoveTemp]);
  }

  /**
   * Reaping at every stop: after a failed build of worker `b`'s file,
   * workers `0 .. b-1` are never waited for; after a reduce-script
   * overflow, none is; after worker `f` failed, workers `f+1 ..` are not.
   * The temporary directory is removed only when no worker failed and the
   * reducer, if any, succeeded.
   */
  lemma StopReaping(stop: Stop, n: nat, k: nat)
    requires StopValid(stop, n)
    ensures k in Trace.Unreaped(TraceOf(stop, n)) <==>
              (stop.BuildFailed? && k < stop.worker) || (stop.ReduceOverflow? && k < n)
              || (stop.MapFailed? && stop.worker < k < n)
    ensures Trace.RemoveTemp in TraceOf(stop, n) <==> stop.NoReduce? || stop.Completed?
  {
    var s: nat, m: nat, tail: seq<Trace.Event>;
    match stop {
      case BuildFailed(b) => s, m, tail := b, 0, [];
      case ReduceOverflow => s, m, tail := n, 0, [];
      case MapFailed(f) => s, m, tail := n, f + 1, [];
      case NoReduce => s, m, tail := n, n, [Trace.RemoveTemp];
      case ReduceFailed => s, m, tail := n, n, [Trace.StartReduce, Trace.FinishReduce];
      case Completed => s, m, tail := n, n, [Trace.StartReduce, Trace.FinishReduce, Trace.RemoveTemp];
    }
    var t := Trace.Run(s, m, tail);
    assert TraceOf(stop, n) == t;
    Trace.RunUnreaped(s, m, tail, k);
    if Trace.RemoveTemp in t {
      var i :| 0 <= i < |t| && t[i] == Trace.RemoveTemp;
      Trace.RunAt(s, m, tail, i);
    }
    if stop.NoReduce? || stop.Completed? {
      assert t[|t| - 1] == Trace.RemoveTemp;
    }
  }

  /**
   * What the stops after the map phase mean, with `fails` the workers'
   * failures: a map failure at `f` means the reduce script (if any) fit,
   * workers `0 .. f-1` succeeded and worker `f` failed; the query
   * completes exactly when there is a reduce statement, its script fits,
   * no worker failed and the reducer succeeded; `NoReduce` exactly when
   * there is no reduce statement and no worker failed.
   */
  lemma AfterMapsMeaning(otable: string, reduce: Option<string>, tmp: string, n: nat, exts: Option<string>,
                         statuses: seq<int>, reduceStatus: int, disk: SmallFiles.Disk)
    requires n == |statuses| > 0
    ensures var stop := StopAfterMaps(otable, reduce, tmp, n, exts, statuses, reduceStatus, disk);
            var fails := MapFailures(tmp, statuses, disk);
            (stop.MapFailed? ==>
               (reduce.Some? ==> ReduceFile(otable, tmp, n, exts, reduce.value).Some?)
               && fails[stop.worker] && forall k :: 0 <= k < stop.worker ==> !fails[k])
            && (stop == Completed <==>
                  reduce.Some? && ReduceFile(otable, tmp, n, exts, reduce.value).Some?
                  && (forall k :: 0 <= k < n ==> !fails[k]) && !ReducerFailed(tmp, reduceStatus, disk))
            && (stop == NoReduce <==> reduce.None? && forall k :: 0 <= k < n ==> !fails[k])
  {
    var fails := MapFailures(tmp, statuses, disk);
    var overflow := reduce.Some? && ReduceFile(otable, tmp, n, exts, reduce.value).None?;
    var reducerFailed := ReducerFailed(tmp, reduceStatus, disk);
    assert StopAfterMaps(otable, reduce, tmp, n, exts, statuses, reduceStatus, disk)
           == if overflow then ReduceOverflow else StopAfterWaits(n, reduce.Some?, Trace.FirstTrue(fails), reducerFailed);
    StopAfterWaitsMeaning(n, reduce.Some?, fails, reducerFailed);
  }

  /** The stops after the waits, in terms of the workers' failures. */
  lemma StopAfterWaitsMeaning(n: nat, reducing: bool, fails: seq<bool>, reducerFailed: bool)
    requires |fails| == n
    ensures var stop := StopAfterWaits(n, reducing, Trace.FirstTrue(fails), reducerFailed);
            (stop.MapFailed? ==> fails[stop.worker] && forall k :: 0 <= k < stop.worker ==> !fails[k])
            && (stop == Completed <==> reducing && (forall k :: 0 <= k < n ==> !fails[k]) && !reducerFailed)
            && (stop == NoReduce <==> !reducing && forall k :: 0 <= k < n ==> !fails[k])
  {
    if forall k :: 0 <= k < n ==> !fails[k] {
      Trace.FirstTrueUnique(fails, n);
    }
  }

  /** Every map worker's file is built and no map worker failed. */
  ghost predicate MapsSucceed(c: Config.DbConf, mapsql: string, tmp: string, exts: Option<string>,
                              mapStatus: seq<int>, disk: SmallFiles.Disk)
    requires 0 <= c.ncores <= |mapStatus|
  {
    var files := WorkerFiles(c, mapsql, tmp, exts);
    var fails := MapFailures(tmp, mapStatus[..c.ncores], disk);
    (forall k :: 0 <= k < c.ncores ==> files[k].Some?) && (forall k :: 0 <= k < c.ncores ==> !fails[k])
  }

  /**
   * What the failure stops of a query mean: a build failure at `b` means
   * files `0 .. b-1` were built and file `b` was not; a map failure at `f`
   * means all files were built, the reduce script (if any) fit, workers
   * `0 .. f-1` succeeded and worker `f` failed.
   */
  lemma QueryStopFailure(c: Config.DbConf, query: SmallFiles.Query, tmp: string, exts: Option<string>,
                         mapStatus: seq<int>, reduceStatus: int, disk: SmallFiles.Disk)
    requires 1 <= c.ncores <= |mapStatus|
    ensures var stop := QueryStop(c, query, tmp, exts, mapStatus, reduceStatus, disk);
            stop.BuildFailed? ==>
              WorkerFile(c, query.mapsql, tmp, exts, stop.worker).None?
              && forall k :: 0 <= k < stop.worker ==> WorkerFile(c, query.mapsql, tmp, exts, k).Some?
    ensures var stop := QueryStop(c, query, tmp, exts, mapStatus, reduceStatus, disk);
            stop.MapFailed? ==>
              (forall k :: 0 <= k < c.ncores ==> WorkerFile(c, query.mapsql, tmp, exts, k).Some?)
              && (query.reducesql.Some? ==> ReduceFile(c.otablename, tmp, c.ncores, exts, query.reducesql.value).Some?)
              && Tasks.TaskFailed(mapStatus[stop.worker], SmallFiles.ReadSmallFile(disk, Some(MapTaskFile(tmp, "err", stop.worker))))
              && forall k :: 0 <= k < stop.worker ==>
                   !Tasks.TaskFailed(mapStatus[k], SmallFiles.ReadSmallFile(disk, Some(MapTaskFile(tmp, "err", k))))
  {
    var n := c.ncores;
    var stop := QueryStop(c, query, tmp, exts, mapStatus, reduceStatus, disk);
    if !stop.BuildFailed? {
      var files := WorkerFiles(c, query.mapsql, tmp, exts);
      assert stop == StopAfterMaps(c.otablename, query.reducesql, tmp, n, exts, mapStatus[..n], reduceStatus, disk);
      AfterMapsMeaning(c.otablename, query.reducesql, tmp, n, exts, mapStatus[..n], reduceStatus, disk);
      assert forall k :: 0 <= k < n ==> files[k].Some?;
    }
  }

  /**
   * What the success stops of a query mean: it completes exactly when
   * there is a reduce statement, every map worker succeeds, the reduce
   * script fits and the reducer succeeds; without a reduce statement the
   * best a query reaches is `NoReduce`.
   */
  lemma QueryStopSuccess(c: Config.DbConf, query: SmallFiles.Query, tmp: string, exts: Option<string>,
                         mapStatus: seq<int>, reduceStatus: int, disk: SmallFiles.Disk)
    requires 1 <= c.ncores <= |mapStatus|
    ensures QueryStop(c, query, tmp, exts, mapStatus, reduceStatus, disk) == Completed <==>
              query.reducesql.Some? && MapsSucceed(c, query.mapsql, tmp, exts, mapStatus, disk)
              && ReduceFile(c.otablename, tmp, c.ncores, exts, query.reducesql.value).Some?
              && !ReducerFailed(tmp, reduceStatus, disk)
    ensures QueryStop(c, query, tmp, exts, mapStatus, reduceStatus, disk) == NoReduce <==>
              query.reducesql.None? && MapsSucceed(c, query.mapsql, tmp, exts, mapStatus, disk)
  {
    var n := c.ncores;
    var files := WorkerFiles(c, query.mapsql, tmp, exts);
    Trace.FirstNoneAll(files);
    AfterMapsMeaning(c.otablename, query.reducesql, tmp, n, exts, mapStatus[..n], reduceStatus, disk);
  }

  /**
   * Process order of a whole query: no worker is waited for before it was
   * started, none is started twice, and the reducer starts only after
   * every map worker was waited for.
   */
  lemma QueryOrder(conf: Option<Config.DbConf>, q: Option<SmallFiles.Query>, tmpdir: Option<string>,
                   exts: Option<string>, mapStatus: seq<int>, reduceStatus: int, disk: SmallFiles.Disk)
    requires conf.Some? ==> 1 <= conf.value.ncores <= |mapStatus|
    ensures Trace.WellNested(Query(conf, q, tmpdir, exts, mapStatus, reduceStatus, disk).trace)
    ensures conf.Some? ==> Trace.ReduceAfterMaps(Query(conf, q, tmpdir, exts, mapStatus, reduceStatus, disk).trace, conf.value.ncores)
  {
    if conf.Some? && q.Some? && tmpdir.Some? {
      StopOrder(QueryStop(conf.value, q.value, tmpdir.value, exts, mapStatus, reduceStatus, disk), conf.value.ncores);
    }
  }

  /**
   * The result of a whole query: text comes back exactly when there is a
   * reduce statement, every map file is built, every map worker succeeds,
   * the reduce script fits, the reducer succeeds and its output file reads
   * back; the text is that output file.
   */
  lemma QueryResult(conf: Option<Config.DbConf>, q: Option<SmallFiles.Query>, tmpdir: Option<string>,
                    exts: Option<string>, mapStatus: seq<int>, reduceStatus: int, disk: SmallFiles.Disk)
    requires conf.Some? ==> 1 <= conf.value.ncores <= |mapStatus|
    ensures Query(conf, q, tmpdir, exts, mapStatus, reduceStatus, disk).result.Some? <==>
              conf.Some? && q.Some? && tmpdir.Some? && q.value.reducesql.Some?
              && MapsSucceed(conf.value, q.value.mapsql, tmpdir.value, exts, mapStatus, disk)
              && ReduceFile(conf.value.otablename, tmpdir.value, conf.value.ncores, exts, q.value.reducesql.value).Some?
              && !ReducerFailed(tmpdir.value, reduceStatus, disk)
              && SmallFiles.ReadSmallFile(disk, Some(ReduceTaskFile(tmpdir.value, "out"))).Some?
    ensures Query(conf, q, tmpdir, exts, mapStatus, reduceStatus, disk).result.Some? ==>
              Query(conf, q, tmpdir, exts, mapStatus, reduceStatus, disk).result
              == SmallFiles.ReadSmallFile(disk, Some(ReduceTaskFile(tmpdir.value, "out")))
  {
    if conf.Some? && q.Some? && tmpdir.Some? {
      QueryStopSuccess(conf.value, q.value, tmpdir.value, exts, mapStatus, reduceStatus, disk);
    }
  }

  /**
   * Reaping in a whole query: the temporary directory is removed exactly
   * when every map worker succeeded and the reducer, if any, ran and
   * succeeded, and then every worker was waited for; but a query that
   * fails after starting workers returns without waiting for them.
   */
  lemma QueryReaping(conf: Option<Config.DbConf>, q: Option<SmallFiles.Query>, tmpdir: Option<string>,
                     exts: Option<string>, mapStatus: seq<int>, reduceStatus: int, disk: SmallFiles.Disk, k: nat)
    requires conf.Some? && q.Some? && tmpdir.Some? && 1 <= conf.value.ncores <= |mapStatus|
    ensures var c, tmp, reduce := conf.value, tmpdir.value, q.value.reducesql;
            var trace := Query(conf, q, tmpdir, exts, mapStatus, reduceStatus, disk).trace;
            (Trace.RemoveTemp in trace <==>
               MapsSucceed(c, q.value.mapsql, tmp, exts, mapStatus, disk)
               && (reduce.Some? ==> ReduceFile(c.otablename, tmp, c.ncores, exts, reduce.value).Some?
                                    && !ReducerFailed(tmp, reduceStatus, disk)))
            && (Trace.RemoveTemp in trace ==> Trace.Unreaped(trace) == {})
    ensures var stop := QueryStop(conf.value, q.value, tmpdir.value, exts, mapStatus, reduceStatus, disk);
            var trace := Query(conf, q, tmpdir, exts, mapStatus, reduceStatus, disk).trace;
            k in Trace.Unreaped(trace) <==>
              (stop.BuildFailed? && k < stop.worker) || (stop.ReduceOverflow? && k < conf.value.ncores)
              || (stop.MapFailed? && stop.worker < k < conf.value.ncores)
  {
    var stop := QueryStop(conf.value, q.value, tmpdir.value, exts, mapStatus, reduceStatus, disk);
    var n := conf.value.ncores;
    QueryStopSuccess(conf.value, q.value, tmpdir.value, exts, mapStatus, reduceStatus, disk);
    StopReaping(stop, n, k);
    if Trace.RemoveTemp in TraceOf(stop, n) {
      forall j | j in Trace.Unreaped(TraceOf(stop, n))
        ensures false
      {
        StopReaping(stop, n, j);
      }
    }
  }

  /**
   * Worker `k`'s map file is the complete script over its own shards; it
   * is built exactly when the worker has shards, the statement is not
   * empty and the script is shorter than its buffer.
   */
  lemma WorkerFileMeaning(c: Config.DbConf, mapsql: string, tmp: string, exts: Option<string>, k: nat)
    requires k < c.ncores
    ensures var mine := Partition.Picked(c.shardv, k, c.ncores);
            var pieces := MapPieces(c.otablename, MapTaskFile(tmp, "db", k), Scripts.AllPresent(mine), mapsql, exts);
            (WorkerFile(c, mapsql, tmp, exts, k).Some? <==>
               |mine| != 0 && |mapsql| > 0 && |Text.Concat(pieces)| < MapBufSize(mapsql, |mine|))
            && (WorkerFile(c, mapsql, tmp, exts, k).Some? ==> WorkerFile(c, mapsql, tmp, exts, k).value == Text.Concat(pieces))
  {
    var mine := Partition.Picked(c.shardv, k, c.ncores);
    assert Scripts.AllPresent(mine)[..|mine|] == Scripts.AllPresent(mine);
    MapFileMeaning(Some(c), Some(MapTaskFile(tmp, "in", k)), MapTaskFile(tmp, "db", k), |mine|,
                   Some(Scripts.AllPresent(mine)), Some(mapsql), exts);
  }

  /** Block `j` of a map script opens the `j`-th shard of the list. */
  lemma MapOpensShard(otable: string, coredb: string, names: seq<string>, mapsql: string, exts: Option<string>, j: nat)
    requires j < |names|
    ensures var pieces := MapPieces(otable, coredb, Scripts.AllPresent(names), mapsql, exts);
            var b := Scripts.Offset(j, MapWidth(exts, Classify.StartsWithSelect(mapsql)));
            b < |pieces| && pieces[b] == ShardOpen(names[j])
  {
    var sel := Classify.StartsWithSelect(mapsql);
    var blk := MapBlock(otable, coredb, mapsql, exts, sel)(j, names[j]);
    var pieces := MapPieces(otable, coredb, Scripts.AllPresent(names), mapsql, exts);
    var b := Scripts.Offset(j, MapWidth(exts, sel));
    assert b < |pieces| && pieces[b] == blk[0] by {
      MapBlockWidths(otable, coredb, mapsql, exts, sel);
      Scripts.BlockPieceAll(names, MapBlock(otable, coredb, mapsql, exts, sel), MapWidth(exts, sel), j, 0);
    }
    assert blk[0] == ShardOpen(names[j]) by {
      MapBlockPieces(otable, coredb, mapsql, exts, sel, j, names[j]);
    }
  }

  /**
   * Every shard is opened: when all map files are built, shard `s` is
   * shard `j = s / n` of worker `k = s % n`, whose script holds its block
   * as block `j` and opens it there.
   */
  lemma EveryShardOpened(c: Config.DbConf, mapsql: string, tmp: string, exts: Option<string>, s: nat)
    returns (k: nat, j: nat)
    requires 1 <= c.ncores && s < |c.shardv|
    requires forall k :: 0 <= k < c.ncores ==> WorkerFile(c, mapsql, tmp, exts, k).Some?
    ensures k < c.ncores && j * c.ncores + k == s
    ensures j < |Partition.Picked(c.shardv, k, c.ncores)| && Partition.Picked(c.shardv, k, c.ncores)[j] == c.shardv[s]
    ensures var pieces := MapPieces(c.otablename, MapTaskFile(tmp, "db", k),
                                    Scripts.AllPresent(Partition.Picked(c.shardv, k, c.ncores)), mapsql, exts);
            var b := Scripts.Offset(j, MapWidth(exts, Classify.StartsWithSelect(mapsql)));
            WorkerFile(c, mapsql, tmp, exts, k).value == Text.Concat(pieces)
            && b < |pieces| && pieces[b] == ShardOpen(c.shardv[s])
  {
    var n := c.ncores;
    k, j := s % n, s / n;
    assert k < n && j * n + k == s by {
      Partition.DivMod(s, n);
    }
    assert j < |Partition.Picked(c.shardv, k, n)| && Partition.Picked(c.shardv, k, n)[j] == c.shardv[s] by {
      Partition.StridePicked(c.shardv, n, k, j);
    }
    var mine := Partition.Picked(c.shardv, k, n);
    var pieces := MapPieces(c.otablename, MapTaskFile(tmp, "db", k), Scripts.AllPresent(mine), mapsql, exts);
    assert WorkerFile(c, mapsql, tmp, exts, k).value == Text.Concat(pieces) by {
      assert WorkerFile(c, mapsql, tmp, exts, k).Some?;
      WorkerFileMeaning(c, mapsql, tmp, exts, k);
    }
    MapOpensShard(c.otablename, MapTaskFile(tmp, "db", k), mine, mapsql, exts, j);
  }

  /**
   * The reduce file is the complete reduce script, never a cut one; it is
   * written exactly when the script is shorter than its buffer of
   * `1024 * ncores + strlen(reducesql)` characters.
   */
  lemma ReduceFileMeaning(otable: string, tmp: string, n: nat, exts: Option<string>, reducesql: string)
    requires n > 0
    ensures ReduceFile(otable, tmp, n, exts, reducesql).Some? <==>
              |Text.Concat(ReducePieces(otable, WorkerDbs(tmp, n), exts, reducesql))| < ReduceBufSize(n, reducesql)
    ensures ReduceFile(otable, tmp, n, exts, reducesql).Some? ==>
              ReduceFile(otable, tmp, n, exts, reducesql).value == Text.Concat(ReducePieces(otable, WorkerDbs(tmp, n), exts, reducesql))
  {
    PrintBuffer.FitsMeansComplete(ReducePieces(otable, WorkerDbs(tmp, n), exts, reducesql), ReduceBufSize(n, reducesql));
  }

  /**
   * With one core, the reduce statement `r` and a 1013-character extension
   * text, the reduce script is exactly as long as its buffer of 1025
   * characters: the code as written accepts it and writes it without its
   * final newline, while the corrected test refuses it.
   */
  lemma ReduceFileAsWrittenDropsNewline()
    ensures var exts := Some(Text.Zeros(1013));
            ReduceFileAsWritten("t", "tmp", 1, exts, "r") == Some(BailOn + Text.Zeros(1013) + "\n" + "r")
            && ReduceFile("t", "tmp", 1, exts, "r") == None
  {
    var exts := Some(Text.Zeros(1013));
    var pieces := ReducePieces("t", WorkerDbs("tmp", 1), exts, "r");
    assert pieces == [BailOn, Text.Zeros(1013) + "\n", "r\n"] by {
      assert Gathers("t", WorkerDbs("tmp", 1), |WorkerDbs("tmp", 1)|) == [];
      assert ExtPieces(exts) == [Text.Zeros(1013) + "\n"];
      assert "r" + "\n" == "r\n";
      assert [BailOn] + [Text.Zeros(1013) + "\n"] + [] + ["r" + "\n"] == [BailOn, Text.Zeros(1013) + "\n", "r\n"];
    }
    var all := BailOn + (Text.Zeros(1013) + "\n") + "r\n";
    assert Text.Concat(pieces) == all by {
      ConcatThree(BailOn, Text.Zeros(1013) + "\n", "r\n");
    }
    assert |all| == 1025 == ReduceBufSize(1, "r");
    var r := PrintBuffer.Run(pieces, 1025);
    assert r.text == BailOn + Text.Zeros(1013) + "\n" + "r" && r.cursor == 1025 by {
      PrintBuffer.RunMeaning(pieces, 1025);
      assert all[..1024] == BailOn + Text.Zeros(1013) + "\n" + "r";
    }
  }

  /**
   * The reduce script read back: stop on error, the extensions, then for
   * every worker `k >= 1` an attach of worker `k`'s own result database
   * under its own alias, a copy of its table and a detach, and finally the
   * reduce statement.  Worker 0's database is the reducer's own and is
   * never attached.
   */
  lemma ReduceScriptLayout(otable: string, dbs: seq<string>, exts: Option<string>, reducesql: string, k: nat)
    requires 1 <= k < |dbs|
    ensures var p := ReducePieces(otable, dbs, exts, reducesql);
            var h := 1 + |ExtPieces(exts)|;
            h + 3 * k <= |p| && p[h + 3 * (k - 1)..h + 3 * k] == Gather(otable, dbs[k], k)
  {
    var p := ReducePieces(otable, dbs, exts, reducesql);
    var h, i := 1 + |ExtPieces(exts)|, 3 * (k - 1);
    assert h + i + 3 <= |p| && p[h + i..h + i + 3] == Gather(otable, dbs[k], k) by {
      var head := [BailOn] + ExtPieces(exts);
      var g := Gathers(otable, dbs, |dbs|);
      assert p == head + g + [reducesql + "\n"];
      GathersLayout(otable, dbs, |dbs|, k);
      Text.ConcatSlice(head, g, [reducesql + "\n"], i, i + 3);
    }
  }

  /**
   * The frame around the gathers: the reduce script starts with the stop
   * on error and the extensions, ends with the reduce statement, and holds
   * three pieces for every worker after the first.
   */
  lemma ReduceScriptFrame(otable: string, dbs: seq<string>, exts: Option<string>, reducesql: string)
    ensures var p := ReducePieces(otable, dbs, exts, reducesql);
            var h := 1 + |ExtPieces(exts)|;
            |p| == h + (if |dbs| <= 1 then 0 else 3 * (|dbs| - 1)) + 1
            && p[0] == BailOn && p[1..h] == ExtPieces(exts) && p[|p| - 1] == reducesql + "\n"
  {
    var head := [BailOn] + ExtPieces(exts);
    var g := Gathers(otable, dbs, |dbs|);
    var last := [reducesql + "\n"];
    var h := |head|;
    assert ReducePieces(otable, dbs, exts, reducesql) == head + g + last;
    GathersLength(otable, dbs, |dbs|);
    assert (head + g + last)[1..h] == head[1..];
  }

  /** Different workers have different result databases. */
  lemma WorkerDbsDistinct(tmp: string, n: nat, a: nat, b: nat)
    requires a < n && b < n && a != b
    ensures WorkerDbs(tmp, n)[a] != WorkerDbs(tmp, n)[b]
  {
    if MapTaskFile(tmp, "db", a) == MapTaskFile(tmp, "db", b) {
      Tasks.TaskFilesDistinct(tmp, "mapsql", "db", a, "mapsql", "db", b);
    }
  }
}
