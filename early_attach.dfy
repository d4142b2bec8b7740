/**
 * `libmulticoresql1.c` at the top of the repository: the select/attach
 * scripts without `pragma` lines, a select recognised by the statement's
 * first character alone, the load lines printed straight from the
 * configuration's extension setting, and every processor running a
 * worker.  The temporary directory made by `mkdtemp` is an input (`None`
 * when it could not be made, which ends the process).
 */
module EarlyAttach {
  import opened Wrappers
  import Trace
  import Runs
  import Config
  import Extensions
  import Classify
  import AttachMode

  /**
   * `opendb`: a NULL directory ends the process; otherwise `<dir>/[0-9]*`
   * is expanded, and the configuration is open (and 0 returned) exactly
   * when the expansion succeeds with at least one name.
   */
  method OpenDb(conf: Config.Conf, dbdir: Option<string>, expand: string -> Option<seq<string>>) returns (r: Proc<int>)
    modifies conf
    ensures dbdir.None? <==> r.Exits?
    ensures r.Returns? ==>
              var found := expand(Config.NumberedFiles(dbdir.value));
              (conf.isopen <==> found.Some? && |found.value| >= 1)
              && (r.value == 0 <==> conf.isopen)
              && conf.shardv == (if found.Some? then found.value else old(conf.shardv))
    ensures conf.ncores == old(conf.ncores) && conf.otablename == old(conf.otablename)
    ensures conf.extensions == old(conf.extensions) && conf.bin == old(conf.bin)
  {
    r := conf.Open(dbdir, "/[0-9]*", 1, expand);
  }

  /**
   * The query for configuration values and a temporary directory: one
   * worker per processor, no `pragma` lines, the load lines of the
   * extension setting, and the select test on the first character.
   */
  function QueryJob(otable: string, shardv: seq<string>, ncores: nat, extensions: Option<string>, mapsql: string,
                    reduce: Option<string>, tmp: string): (job: AttachMode.Job)
    ensures job.ncores == ncores && job.exts == Extensions.LoadLinesOf(extensions) && !job.pragma
    ensures job.isSelect <==> |mapsql| > 0 && (mapsql[0] == 's' || mapsql[0] == 'S')
  {
    AttachMode.Job(otable, shardv, ncores, mapsql, reduce, tmp, Extensions.LoadLinesOf(extensions),
                   Classify.FirstCharIsSelect(mapsql), false)
  }

  /**
   * `query`: make the temporary directory, then run the worker loop on
   * the configuration's shards; the create statement is accepted and
   * never used.
   */
  method Query(conf: Config.Conf, mapsql: string, create: Option<string>, reduce: Option<string>, tmpdir: Option<string>)
    returns (r: Proc<Runs.Run>)
    requires conf.ncores > 0
    ensures tmpdir.None? <==> r.Exits?
    ensures r.Returns? ==>
              r.value == AttachMode.Query(QueryJob(conf.otablename, conf.shardv, conf.ncores, conf.extensions, mapsql,
                                                   reduce, tmpdir.value))
  {
    if tmpdir.None? {
      return Exits;
    }
    var exts := Extensions.WriteLoadLines(conf.extensions);
    var job := AttachMode.Job(conf.otablename, conf.shardv, conf.ncores, mapsql, reduce, tmpdir.value, exts,
                              Classify.FirstCharIsSelect(mapsql), false);
    var run := AttachMode.RunQuery(job);
    return Returns(run);
  }

  /**
   * The order: every worker is started and waited for before the
   * reducer, which runs only with a reduce statement, and a reduce file
   * is written exactly then.
   */
  lemma QueryRunOrder(otable: string, shardv: seq<string>, ncores: nat, extensions: Option<string>, mapsql: string,
                      reduce: Option<string>, tmp: string)
    requires ncores > 0
    ensures var run := AttachMode.Query(QueryJob(otable, shardv, ncores, extensions, mapsql, reduce, tmp));
            Trace.WellNested(run.trace) && Trace.ReduceAfterMaps(run.trace, ncores) && Trace.Unreaped(run.trace) == {}
            && |run.mapFiles| == ncores
            && (Trace.StartReduce in run.trace <==> reduce.Some?) && (run.reduceFile.Some? <==> reduce.Some?)
  {
    AttachMode.QueryOrder(QueryJob(otable, shardv, ncores, extensions, mapsql, reduce, tmp));
  }

  /**
   * The reduce file, when there is a reduce statement: `.open` of worker
   * 0's database with no `pragma` after it, the load lines, three lines
   * for every other worker, and the reduce statement last.
   */
  lemma QueryReduceFile(otable: string, shardv: seq<string>, ncores: nat, extensions: Option<string>, mapsql: string,
                        reduce: Option<string>, tmp: string)
    requires ncores > 0 && reduce.Some?
    ensures var job := QueryJob(otable, shardv, ncores, extensions, mapsql, reduce, tmp);
            var p, e := AttachMode.Query(job).reduceFile.value, job.exts;
            |p| == 1 + |e| + 3 * (ncores - 1) + 1
            && p[0] == ".open " + AttachMode.CoreDb(tmp, 0) + "\n" && p[1..1 + |e|] == e
            && p[|p| - 1] == reduce.value + "\n"
  {
    AttachMode.QueryReduceHead(QueryJob(otable, shardv, ncores, extensions, mapsql, reduce, tmp));
  }
}
