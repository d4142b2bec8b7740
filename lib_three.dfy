/**
 * The library version of the student edition, `src/libmulticoresql0.c`:
 * as `libmulticoresql0.c`, with the reduce file's `.read` lines inside
 * `BEGIN TRANSACTION;` and `COMMIT;`.  The temporary directory
 * (`mu_create_temp_dir`) is an input (`None` when it could not be made,
 * which ends the process).
 */
module LibThree {
  import opened Wrappers
  import Trace
  import Runs
  import Config
  import Extensions
  import ModeInsert

  /**
   * `mu_opendb`: a NULL directory ends the process; otherwise every name in the directory
   * is expanded, and the configuration is open (and 0 returned) exactly
   * when the expansion succeeds with at least two names.
   */
  method OpenDb(conf: Config.Conf, dbdir: Option<string>, expand: string -> Option<seq<string>>) returns (r: Proc<int>)
    modifies conf
    ensures dbdir.None? <==> r.Exits?
    ensures r.Returns? ==>
              var found := expand(Config.AllFiles(dbdir.value));
              (conf.isopen <==> found.Some? && |found.value| >= 2)
              && (r.value == 0 <==> conf.isopen)
              && conf.shardv == (if found.Some? then found.value else old(conf.shardv))
    ensures conf.ncores == old(conf.ncores) && conf.otablename == old(conf.otablename)
    ensures conf.extensions == old(conf.extensions) && conf.bin == old(conf.bin)
  {
    r := conf.Open(dbdir, "/*", 2, expand);
  }

  /**
   * The query for configuration values and a temporary directory: three
   * workers run, the shards are divided by the configured core count,
   * worker `k` writes `<tmp>/results.core.NNN`, and worker 0 prints the
   * schema only when there is a reduce statement to read it back.
   */
  function QueryJob(otable: string, shardv: seq<string>, ncores: nat, extensions: Option<string>, mapsql: string,
                    create: Option<string>, reduce: Option<string>, tmp: string): (job: ModeInsert.Job)
    ensures ncores >= 3 ==> ModeInsert.JobValid(job)
    ensures job.workers == 3 && job.ncores == ncores && job.exts == Extensions.LoadLinesOf(extensions)
    ensures job.transaction == true && job.needsReduce && job.d == ModeInsert.Plain
  {
    ModeInsert.Job(ModeInsert.Plain, otable, shardv, ncores, 3, mapsql, create, reduce,
                   Extensions.LoadLinesOf(extensions), ModeInsert.ResultsFiles(tmp, 3), true, true)
  }

  /**
   * `mu_query`: make the temporary directory, then the three `RUN_CORE`
   * expansions, the three waits and the reducer.  The `worker` array has
   * `ncores` entries and the expansions use three of them.
   */
  method Query(conf: Config.Conf, mapsql: string, create: Option<string>, reduce: Option<string>, tmpdir: Option<string>)
    returns (r: Proc<Runs.Run>)
    requires conf.ncores >= 3
    ensures tmpdir.None? <==> r.Exits?
    ensures r.Returns? ==>
              r.value == ModeInsert.Query(QueryJob(conf.otablename, conf.shardv, conf.ncores, conf.extensions, mapsql,
                                                   create, reduce, tmpdir.value))
  {
    if tmpdir.None? {
      return Exits;
    }
    var exts := Extensions.WriteLoadLines(conf.extensions);
    var job := ModeInsert.Job(ModeInsert.Plain, conf.otablename, conf.shardv, conf.ncores, 3, mapsql, create,
                              reduce, exts, ModeInsert.ResultsFiles(tmpdir.value, 3), true, true);
    var run := ModeInsert.RunQueryUnrolled(job);
    return Returns(run);
  }

  /**
   * The order: every worker is started and waited for before the
   * reducer, which runs only with a reduce statement, and a reduce file
   * is written exactly then.
   */
  lemma QueryRunOrder(otable: string, shardv: seq<string>, ncores: nat, extensions: Option<string>, mapsql: string,
                      create: Option<string>, reduce: Option<string>, tmp: string)
    requires ncores >= 3
    ensures var run := ModeInsert.Query(QueryJob(otable, shardv, ncores, extensions, mapsql, create, reduce, tmp));
            Trace.WellNested(run.trace) && Trace.ReduceAfterMaps(run.trace, 3) && Trace.Unreaped(run.trace) == {}
            && |run.mapFiles| == 3
            && (Trace.StartReduce in run.trace <==> reduce.Some?) && (run.reduceFile.Some? <==> reduce.Some?)
  {
    ModeInsert.QueryOrder(QueryJob(otable, shardv, ncores, extensions, mapsql, create, reduce, tmp));
  }

  /**
   * The reduce file, when there is a reduce statement: the load lines,
   * the create statement when given, then inside `BEGIN TRANSACTION;` and `COMMIT;` one
   * `.read` line per worker's `results.core.NNN` file in worker order
   * (`ReadResultsLine` spells it out), and the reduce statement.
   */
  lemma QueryReduceFile(otable: string, shardv: seq<string>, ncores: nat, extensions: Option<string>, mapsql: string,
                        create: Option<string>, reduce: Option<string>, tmp: string)
    requires ncores >= 3 && reduce.Some?
    ensures var job := QueryJob(otable, shardv, ncores, extensions, mapsql, create, reduce, tmp);
              var p, e := ModeInsert.Query(job).reduceFile.value, job.exts;
              var c := if create.Some? then 1 else 0;
              |p| == |e| + c + 6 && p[..|e|] == e
              && (create.Some? ==> p[|e|] == create.value + ModeInsert.Plain.reduceEnd)
              && p[|e| + c] == ModeInsert.Begin
              && (forall k :: 0 <= k < 3 ==> p[|e| + c + 1 + k] == ModeInsert.ReadLine(ModeInsert.ResultsFile(tmp, k)))
              && p[|e| + c + 4] == ModeInsert.Commit
              && p[|p| - 1] == reduce.value + ModeInsert.Plain.reduceEnd
  {
    ModeInsert.QueryReduceLayout(QueryJob(otable, shardv, ncores, extensions, mapsql, create, reduce, tmp));
  }
}
