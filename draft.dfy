/**
 * The draft `x4.c`: the first library's query with ` ;` after every
 * statement and a space after every shard name, and an `opendb` that
 * returns the expansion's own code.  The reducer prints to the standard
 * output instead of a result file.  The temporary directory made by
 * `mkdtemp` is an input (`None` when it could not be made, which ends the
 * process).
 */
module Draft {
  import opened Wrappers
  import Trace
  import Runs
  import Config
  import Extensions
  import ModeInsert

  /**
   * `opendb`: a NULL directory ends the process; otherwise `<dir>/[0-9]*`
   * is expanded, the configuration is open exactly when the expansion
   * succeeds with at least one name, and 0 is returned exactly when the
   * expansion succeeds (an empty one included).
   */
  method OpenDb(conf: Config.Conf, dbdir: Option<string>, expand: string -> Option<seq<string>>) returns (r: Proc<int>)
    modifies conf
    ensures dbdir.None? <==> r.Exits?
    ensures r.Returns? ==>
              var found := expand(Config.NumberedFiles(dbdir.value));
              (conf.isopen <==> found.Some? && |found.value| >= 1)
              && (r.value == 0 <==> found.Some?)
              && conf.shardv == (if found.Some? then found.value else old(conf.shardv))
    ensures conf.ncores == old(conf.ncores) && conf.otablename == old(conf.otablename)
    ensures conf.extensions == old(conf.extensions) && conf.bin == old(conf.bin)
  {
    r := conf.OpenReturningExpansion(dbdir, "/[0-9]*", 1, expand);
  }

  /**
   * The query for configuration values and a temporary directory: every
   * configured core runs a worker, worker `k` writes
   * `<tmp>/results.core.NNN`, statements end with ` ;`, and the schema
   * rule does not look at the reduce statement.
   */
  function QueryJob(otable: string, shardv: seq<string>, ncores: nat, extensions: Option<string>, mapsql: string,
                    create: Option<string>, reduce: Option<string>, tmp: string): (job: ModeInsert.Job)
    ensures ncores > 0 ==> ModeInsert.JobValid(job)
    ensures job.workers == job.ncores == ncores && job.exts == Extensions.LoadLinesOf(extensions)
    ensures !job.transaction && !job.needsReduce && job.d == ModeInsert.Terminated
  {
    ModeInsert.Job(ModeInsert.Terminated, otable, shardv, ncores, ncores, mapsql, create, reduce,
                   Extensions.LoadLinesOf(extensions), ModeInsert.ResultsFiles(tmp, ncores), false, false)
  }

  /** `query`: make the temporary directory, then run the worker loop on the configuration's shards. */
  method Query(conf: Config.Conf, mapsql: string, create: Option<string>, reduce: Option<string>, tmpdir: Option<string>)
    returns (r: Proc<Runs.Run>)
    requires conf.ncores > 0
    ensures tmpdir.None? <==> r.Exits?
    ensures r.Returns? ==>
              r.value == ModeInsert.Query(QueryJob(conf.otablename, conf.shardv, conf.ncores, conf.extensions, mapsql,
                                                   create, reduce, tmpdir.value))
  {
    if tmpdir.None? {
      return Exits;
    }
    var exts := Extensions.WriteLoadLines(conf.extensions);
    var job := ModeInsert.Job(ModeInsert.Terminated, conf.otablename, conf.shardv, conf.ncores, conf.ncores, mapsql, create,
                              reduce, exts, ModeInsert.ResultsFiles(tmpdir.value, conf.ncores), false, false);
    var run := ModeInsert.RunQuery(job);
    return Returns(run);
  }

  /**
   * The order: every worker is started and waited for before the
   * reducer, which runs only with a reduce statement, and a reduce file
   * is written exactly then.
   */
  lemma QueryRunOrder(otable: string, shardv: seq<string>, ncores: nat, extensions: Option<string>, mapsql: string,
                      create: Option<string>, reduce: Option<string>, tmp: string)
    requires ncores > 0
    ensures var run := ModeInsert.Query(QueryJob(otable, shardv, ncores, extensions, mapsql, create, reduce, tmp));
            Trace.WellNested(run.trace) && Trace.ReduceAfterMaps(run.trace, ncores) && Trace.Unreaped(run.trace) == {}
            && |run.mapFiles| == ncores
            && (Trace.StartReduce in run.trace <==> reduce.Some?) && (run.reduceFile.Some? <==> reduce.Some?)
  {
    ModeInsert.QueryOrder(QueryJob(otable, shardv, ncores, extensions, mapsql, create, reduce, tmp));
  }

  /**
   * The reduce file, when there is a reduce statement: the load lines,
   * the create statement when given, one
   * `.read` line per worker's `results.core.NNN` file in worker order
   * (`ReadResultsLine` spells it out), and the reduce statement, with no transaction around the reads.
   */
  lemma QueryReduceFile(otable: string, shardv: seq<string>, ncores: nat, extensions: Option<string>, mapsql: string,
                        create: Option<string>, reduce: Option<string>, tmp: string)
    requires ncores > 0 && reduce.Some?
    ensures var job := QueryJob(otable, shardv, ncores, extensions, mapsql, create, reduce, tmp);
              var p, e := ModeInsert.Query(job).reduceFile.value, job.exts;
              var c := if create.Some? then 1 else 0;
              |p| == |e| + c + ncores + 1 && p[..|e|] == e
              && (create.Some? ==> p[|e|] == create.value + ModeInsert.Terminated.reduceEnd)
              && (forall k :: 0 <= k < ncores ==> p[|e| + c + k] == ModeInsert.ReadLine(ModeInsert.ResultsFile(tmp, k)))
              && p[|p| - 1] == reduce.value + ModeInsert.Terminated.reduceEnd
  {
    ModeInsert.QueryReduceLayout(QueryJob(otable, shardv, ncores, extensions, mapsql, create, reduce, tmp));
  }
}
