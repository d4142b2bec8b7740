/**
 * Opening a shard directory: the worker count taken from the processor
 * count, and the shard list taken from a glob expansion.  The processor
 * count (`sysconf`) and the expansion (`wordexp`, which reports an error
 * or the list of matching names) are inputs.
 */
module Config {
  import opened Wrappers
  import Partition

  const MaxCores := 255

  predicate PlausibleCores(n: int) { 1 <= n <= MaxCores }

  /** `mu_defaultconf` of the early libraries: an implausible processor count ends the process. */
  function CheckedCores(detected: int): (r: Proc<int>)
    ensures r.Returns? <==> PlausibleCores(detected)
    ensures r.Returns? ==> r.value == detected
  {
    if detected <= 0 || detected > MaxCores then Exits else Returns(detected)
  }

  /** `struct mu_DBCONF` of the reference and the library version. */
  datatype DbConf = DbConf(db: Option<string>, otablename: string, isopen: bool, ncores: int, shardv: seq<string>)

  /** The glob a directory is expanded with. */
  function AllFiles(dbdir: string): string { dbdir + "/*" }
  function NumberedFiles(dbdir: string): string { dbdir + "/[0-9]*" }

  /**
   * `mu_opendb` of the reference: NULL for a NULL directory, an expansion
   * error or fewer than two names; otherwise an open configuration on the
   * names found, with table `maptable`, and the processor count (2 when
   * implausible) capped at the number of shards.
   */
  function OpenDb(dbdir: Option<string>, detected: int, expand: string -> Option<seq<string>>): (r: Option<DbConf>)
    ensures r.Some? <==> dbdir.Some? && expand(AllFiles(dbdir.value)).Some? && |expand(AllFiles(dbdir.value)).value| >= 2
    ensures r.Some? ==> r.value.isopen && r.value.otablename == "maptable" && r.value.db == None
                        && r.value.shardv == expand(AllFiles(dbdir.value)).value
                        && 1 <= r.value.ncores <= |r.value.shardv| && r.value.ncores <= MaxCores
    ensures r.Some? && PlausibleCores(detected) ==> r.value.ncores == if detected <= |r.value.shardv| then detected else |r.value.shardv|
    ensures r.Some? && !PlausibleCores(detected) ==> r.value.ncores == 2
  {
    if dbdir.None? then None
    else
      var cores := if detected <= 0 || detected > MaxCores then 2 else detected;
      var found := expand(AllFiles(dbdir.value));
      if found.None? || |found.value| < 2 then None
      else
        var shardc := |found.value|;
        Some(DbConf(None, "maptable", true, if cores > shardc then shardc else cores, found.value))
  }

  /** Capping the workers at the shards means every worker of an opened configuration gets a shard. */
  lemma OpenDbLeavesNoWorkerIdle(dbdir: Option<string>, detected: int, expand: string -> Option<seq<string>>, i: int)
    requires OpenDb(dbdir, detected, expand).Some?
    requires 0 <= i < OpenDb(dbdir, detected, expand).value.ncores
    ensures Partition.CoreShardCount(i, OpenDb(dbdir, detected, expand).value.ncores,
                                     |OpenDb(dbdir, detected, expand).value.shardv|) >= 1
  {
    var c := OpenDb(dbdir, detected, expand).value;
    Partition.NoIdleWorker(i, c.ncores, |c.shardv|);
  }

  /** `mu_opendb` of the library version: the same, without the cap. */
  function OpenDbLib(dbdir: Option<string>, detected: int, expand: string -> Option<seq<string>>): (r: Option<DbConf>)
    ensures r.Some? <==> OpenDb(dbdir, detected, expand).Some?
    ensures r.Some? ==> r.value == OpenDb(dbdir, detected, expand).value.(ncores := r.value.ncores)
    ensures r.Some? ==> PlausibleCores(r.value.ncores) && r.value.ncores >= OpenDb(dbdir, detected, expand).value.ncores
  {
    if dbdir.None? then None
    else
      var cores := if detected <= 0 || detected > MaxCores then 2 else detected;
      var found := expand(AllFiles(dbdir.value));
      if found.None? || |found.value| < 2 then None
      else Some(DbConf(None, "maptable", true, cores, found.value))
  }

  /** Without the cap, eight processors and two shards leave six workers with nothing to do. */
  lemma OpenDbLibCanIdle()
    ensures var expand := (g: string) => Some(["a.db", "b.db"]);
            var c := OpenDbLib(Some("/d"), 8, expand).value;
            c.ncores == 8 && |c.shardv| == 2 && Partition.CoreShardCount(7, c.ncores, |c.shardv|) == 0
  {
    var expand := (g: string) => Some(["a.db", "b.db"]);
    assert expand(AllFiles("/d")) == Some(["a.db", "b.db"]);
  }

  /** `struct mu_CONF` / `struct CONF` of the early libraries, which open an existing configuration in place. */
  class Conf {
    var bin: string
    var db: Option<string>
    var extensions: Option<string>
    var otablename: string
    var isopen: bool
    var ncores: int
    var shardv: seq<string>

    constructor (bin: string, extensions: Option<string>, otablename: string, ncores: int)
      ensures this.bin == bin && this.extensions == extensions && this.otablename == otablename
      ensures this.ncores == ncores && db == None && !isopen && shardv == []
    {
      this.bin, this.extensions, this.otablename, this.ncores := bin, extensions, otablename, ncores;
      db, isopen, shardv := None, false, [];
    }

    /**
     * `opendb`: a NULL directory ends the process; otherwise expand
     * `dbdir + suffix`, take the names when the expansion succeeds, and
     * mark the configuration open when there are at least `minShards`.
     * The returned code is 0 exactly when it is open.
     */
    method Open(dbdir: Option<string>, suffix: string, minShards: nat, expand: string -> Option<seq<string>>)
      returns (r: Proc<int>)
      modifies this
      ensures dbdir.None? <==> r.Exits?
      ensures r.Returns? ==>
                var found := expand(dbdir.value + suffix);
                (isopen <==> found.Some? && |found.value| >= minShards)
                && (r.value == 0 <==> isopen)
                && shardv == (if found.Some? then found.value else old(shardv))
      ensures bin == old(bin) && db == old(db) && extensions == old(extensions)
      ensures otablename == old(otablename) && ncores == old(ncores)
    {
      isopen := false;
      if dbdir.None? {
        return Exits;
      }
      var found := expand(dbdir.value + suffix);
      if found.Some? {
        shardv := found.value;
        if |shardv| >= minShards {
          isopen := true;
        }
      }
      return Returns(if isopen then 0 else -1);
    }

    /** `opendb` of the last early version, which returns the expansion's own code instead. */
    method OpenReturningExpansion(dbdir: Option<string>, suffix: string, minShards: nat, expand: string -> Option<seq<string>>)
      returns (r: Proc<int>)
      modifies this
      ensures dbdir.None? <==> r.Exits?
      ensures r.Returns? ==>
                var found := expand(dbdir.value + suffix);
                (isopen <==> found.Some? && |found.value| >= minShards)
                && (r.value == 0 <==> found.Some?)
                && shardv == (if found.Some? then found.value else old(shardv))
      ensures bin == old(bin) && db == old(db) && extensions == old(extensions)
      ensures otablename == old(otablename) && ncores == old(ncores)
    {
      var outcome := Open(dbdir, suffix, minShards, expand);
      if outcome.Exits? {
        return Exits;
      }
      return Returns(if expand(dbdir.value + suffix).Some? then 0 else 1);
    }
  }

  /** `mu_sqlite3_bin`: the configured binary, or `sqlite3`. */
  function SqliteBin(env: Option<string>): (bin: string)
    ensures env.Some? ==> bin == env.value
    ensures env.None? ==> bin == "sqlite3"
  {
    if env.Some? then env.value else "sqlite3"
  }

  /**
   * `defaultconf` of the early libraries that take the processor count:
   * an implausible count ends the process; otherwise a closed
   * configuration with table `t`.
   */
  method DefaultConfDetected(detected: int, binEnv: Option<string>, extensions: Option<string>)
    returns (r: Proc<Conf>)
    ensures r.Exits? <==> !PlausibleCores(detected)
    ensures r.Returns? ==> fresh(r.value) && r.value.ncores == detected && !r.value.isopen
                           && r.value.otablename == "t" && r.value.bin == SqliteBin(binEnv)
                           && r.value.extensions == extensions && r.value.shardv == []
  {
    var cores := CheckedCores(detected);
    if cores.Exits? {
      return Exits;
    }
    var c := new Conf(SqliteBin(binEnv), extensions, "t", cores.value);
    return Returns(c);
  }

  /** `defaultconf` of the three-worker libraries: always three workers. */
  method DefaultConfThree(binEnv: Option<string>, extensions: Option<string>) returns (c: Conf)
    ensures fresh(c) && c.ncores == 3 && !c.isopen && c.otablename == "t"
    ensures c.bin == SqliteBin(binEnv) && c.extensions == extensions && c.shardv == []
  {
    c := new Conf(SqliteBin(binEnv), extensions, "t", 3);
  }
}
