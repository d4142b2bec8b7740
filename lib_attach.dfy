/**
 * `src/libmulticoresql1.c`: the select/attach scripts with a
 * `pragma resultdb.synchronous = 0` line in every shard block and a
 * `pragma synchronous = 0` line in the reduce file, a select recognised by
 * the statement's first character, the load lines taken from the memoised
 * extension text, and every processor running a worker.  The temporary
 * directory (`mu_create_temp_dir`) and the extension environment value are
 * inputs (`None` for a directory that could not be made, which ends the
 * process).
 */
module LibAttach {
  import opened Wrappers
  import Trace
  import Runs
  import Config
  import Extensions
  import Classify
  import AttachMode

  /**
   * `mu_opendb`: a NULL directory ends the process; otherwise
   * `<dir>/[0-9]*` is expanded, and the configuration is open (and 0
   * returned) exactly when the expansion succeeds with at least two names.
   */
  method OpenDb(conf: Config.Conf, dbdir: Option<string>, expand: string -> Option<seq<string>>) returns (r: Proc<int>)
    modifies conf
    ensures dbdir.None? <==> r.Exits?
    ensures r.Returns? ==>
              var found := expand(Config.NumberedFiles(dbdir.value));
              (conf.isopen <==> found.Some? && |found.value| >= 2)
              && (r.value == 0 <==> conf.isopen)
              && conf.shardv == (if found.Some? then found.value else old(conf.shardv))
    ensures conf.ncores == old(conf.ncores) && conf.otablename == old(conf.otablename)
    ensures conf.extensions == old(conf.extensions) && conf.bin == old(conf.bin)
  {
    r := conf.Open(dbdir, "/[0-9]*", 2, expand);
  }

  /**
   * The query for configuration values, the memoised extension text and a
   * temporary directory: one worker per processor, `pragma` lines on, the
   * extension text as a single piece, and the select test on the first
   * character.
   */
  function QueryJob(otable: string, shardv: seq<string>, ncores: nat, exts: Option<string>, mapsql: string,
                    reduce: Option<string>, tmp: string): (job: AttachMode.Job)
    ensures job.ncores == ncores && job.pragma
    ensures exts.None? ==> job.exts == []
    ensures exts.Some? ==> job.exts == [exts.value]
    ensures job.isSelect <==> |mapsql| > 0 && (mapsql[0] == 's' || mapsql[0] == 'S')
  {
    AttachMode.Job(otable, shardv, ncores, mapsql, reduce, tmp, Extensions.PutText(exts),
                   Classify.FirstCharIsSelect(mapsql), true)
  }

  /**
   * `mu_query`: make the temporary directory, then run the worker loop;
   * the extension text comes from the cache, which reads the environment
   * on its first use only.  The create statement is accepted and never
   * used.
   */
  method Query(conf: Config.Conf, cache: Extensions.ExtensionCache, env: Option<string>, mapsql: string,
               create: Option<string>, reduce: Option<string>, tmpdir: Option<string>)
    returns (r: Proc<Runs.Run>)
    requires conf.ncores > 0 && cache.Valid()
    modifies cache
    ensures cache.Valid()
    ensures tmpdir.None? <==> r.Exits?
    ensures tmpdir.Some? ==> cache.done && (!old(cache.done) ==> cache.exts == Extensions.ExtensionsText(env))
    ensures tmpdir.Some? && old(cache.done) ==> cache.exts == old(cache.exts)
    ensures r.Returns? ==>
              r.value == AttachMode.Query(QueryJob(conf.otablename, conf.shardv, conf.ncores, cache.exts, mapsql,
                                                   reduce, tmpdir.value))
  {
    if tmpdir.None? {
      return Exits;
    }
    var text := cache.Get(env);
    var job := AttachMode.Job(conf.otablename, conf.shardv, conf.ncores, mapsql, reduce, tmpdir.value,
                              Extensions.PutText(text), Classify.FirstCharIsSelect(mapsql), true);
    var run := AttachMode.RunQuery(job);
    return Returns(run);
  }

  /**
   * The order: every worker is started and waited for before the
   * reducer, which runs only with a reduce statement, and a reduce file
   * is written exactly then.
   */
  lemma QueryRunOrder(otable: string, shardv: seq<string>, ncores: nat, exts: Option<string>, mapsql: string,
                      reduce: Option<string>, tmp: string)
    requires ncores > 0
    ensures var run := AttachMode.Query(QueryJob(otable, shardv, ncores, exts, mapsql, reduce, tmp));
            Trace.WellNested(run.trace) && Trace.ReduceAfterMaps(run.trace, ncores) && Trace.Unreaped(run.trace) == {}
            && |run.mapFiles| == ncores
            && (Trace.StartReduce in run.trace <==> reduce.Some?) && (run.reduceFile.Some? <==> reduce.Some?)
  {
    AttachMode.QueryOrder(QueryJob(otable, shardv, ncores, exts, mapsql, reduce, tmp));
  }

  /**
   * The reduce file, when there is a reduce statement: `.open` of worker
   * 0's database, the `pragma synchronous = 0` line, the extension text,
   * three lines for every other worker, and the reduce statement last.
   */
  lemma QueryReduceFile(otable: string, shardv: seq<string>, ncores: nat, exts: Option<string>, mapsql: string,
                        reduce: Option<string>, tmp: string)
    requires ncores > 0 && reduce.Some?
    ensures var job := QueryJob(otable, shardv, ncores, exts, mapsql, reduce, tmp);
            var p, e := AttachMode.Query(job).reduceFile.value, job.exts;
            |p| == 2 + |e| + 3 * (ncores - 1) + 1
            && p[0] == ".open " + AttachMode.CoreDb(tmp, 0) + "\n" && p[1] == AttachMode.ReducePragma
            && p[2..2 + |e|] == e && p[|p| - 1] == reduce.value + "\n"
  {
    AttachMode.QueryReduceHead(QueryJob(otable, shardv, ncores, exts, mapsql, reduce, tmp));
  }
}
