/**
 * Reading the map, create and reduce statements: `mu_read_small_file`
 * with its size rules, the literal-statement-or-file-name heuristic, and
 * `mu_create_query`.  The file system is a map from names to what `stat`
 * and `fread` report.
 */
module SmallFiles {
  import opened Wrappers

  /**
   * One file: the size `stat` reports, whether `fopen` succeeds, the bytes
   * the file holds when it is read (fewer than `size` on a short read), and
   * whether `errno` is set once the read is over.
   */
  datatype FileStat = FileStat(size: nat, opens: bool, contents: string, readError: bool)

  /** What one `fread(buf, 1, size, f)` delivers: the contents, but never more than `size` bytes. */
  function Delivered(f: FileStat): (d: string)
    ensures |d| <= f.size && d <= f.contents
    ensures |d| == f.size <==> |f.contents| >= f.size
  {
    if |f.contents| <= f.size then f.contents else f.contents[..f.size]
  }

  /** Names `stat` succeeds on. */
  type Disk = map<string, FileStat>

  /** The self-imposed 100 MiB limit on `size + 1`. */
  const BufLimit := 100 * 1024 * 1024

  predicate WholeRead(f: FileStat) { |f.contents| == f.size }

  /**
   * `mu_read_small_file` of the reference library: NULL for a NULL name, a
   * failed `stat` or `fopen`, an empty file, a file whose size plus the
   * terminator exceeds the limit, or a short read.
   */
  function ReadSmallFile(disk: Disk, name: Option<string>): Option<string>
  {
    if name.None? || name.value !in disk then None
    else
      var f := disk[name.value];
      if !f.opens || f.size + 1 <= 1 || f.size + 1 > BufLimit || |Delivered(f)| < f.size then None
      else Some(Delivered(f))
  }

  /** A read succeeds exactly for a present, openable, non-empty file under the limit read in full. */
  lemma ReadSmallFileMeaning(disk: Disk, name: Option<string>)
    ensures ReadSmallFile(disk, name).Some? <==>
              name.Some? && name.value in disk && disk[name.value].opens
              && 0 < disk[name.value].size < BufLimit && |disk[name.value].contents| >= disk[name.value].size
    ensures ReadSmallFile(disk, name).Some? ==>
              |ReadSmallFile(disk, name).value| > 0 && ReadSmallFile(disk, name).value == disk[name.value].contents[..disk[name.value].size]
  {
  }

  /** The library version adds one rule: `errno` set after the read also gives NULL. */
  function ReadSmallFileLib(disk: Disk, name: Option<string>): Option<string>
  {
    if name.Some? && name.value in disk && disk[name.value].readError then None
    else ReadSmallFile(disk, name)
  }

  lemma ReadSmallFileLibStricter(disk: Disk, name: Option<string>)
    ensures ReadSmallFileLib(disk, name).Some? ==> ReadSmallFileLib(disk, name) == ReadSmallFile(disk, name)
    ensures ReadSmallFileLib(disk, name) != ReadSmallFile(disk, name) <==>
              ReadSmallFile(disk, name).Some? && disk[name.value].readError
  {
  }

  /**
   * `mu_read_small_file` of the utility library: no NULL test (the name is
   * required), no empty-file rule, and a short read only warns and hands
   * back what was read; only the size limit and a failure reported through
   * `errno` give NULL.
   */
  function ReadSmallFileUtils(disk: Disk, name: string): (r: Option<string>)
    ensures r.Some? <==> name in disk && disk[name].opens && disk[name].size < BufLimit && !disk[name].readError
    ensures r.Some? ==> r.value <= disk[name].contents && |r.value| == (if |disk[name].contents| < disk[name].size then |disk[name].contents| else disk[name].size)
  {
    if name !in disk then None
    else
      var f := disk[name];
      if !f.opens || f.size + 1 > BufLimit || f.readError then None
      else Some(Delivered(f))
  }

  /** The utility version accepts what the reference refuses: an empty file, and a short read. */
  lemma UtilsAcceptsEmptyAndShort(name: string)
    ensures var disk := map[name := FileStat(0, true, "", false)];
            ReadSmallFileUtils(disk, name) == Some("") && ReadSmallFile(disk, Some(name)) == None
    ensures var disk := map[name := FileStat(10, true, "abc", false)];
            ReadSmallFileUtils(disk, name) == Some("abc") && ReadSmallFile(disk, Some(name)) == None
  {
  }

  /** A statement as opposed to a file name: it contains a space or a semicolon. */
  predicate LooksLikeSql(s: string)
  {
    ' ' in s || ';' in s
  }

  /**
   * `mu_dup_sql_or_read_file`: NULL stays NULL; an argument with neither a
   * space nor a semicolon is read as a file; anything else is copied.
   */
  function DupSqlOrReadFile(disk: Disk, arg: Option<string>): Option<string>
  {
    if arg.None? then None
    else if !LooksLikeSql(arg.value) then ReadSmallFile(disk, arg)
    else Some(arg.value)
  }

  /**
   * A statement is returned unchanged whatever the disk holds; a file name
   * resolves to the file's contents or to NULL; the result is never empty.
   */
  lemma DupSqlOrReadFileMeaning(disk: Disk, other: Disk, arg: Option<string>)
    ensures arg.Some? && LooksLikeSql(arg.value) ==>
              DupSqlOrReadFile(disk, arg) == Some(arg.value) && DupSqlOrReadFile(other, arg) == Some(arg.value)
    ensures arg.Some? && !LooksLikeSql(arg.value) ==>
              DupSqlOrReadFile(disk, arg) == ReadSmallFile(disk, arg)
    ensures DupSqlOrReadFile(disk, arg).Some? ==> arg.Some? && |DupSqlOrReadFile(disk, arg).value| > 0
  {
    ReadSmallFileMeaning(disk, arg);
  }

  /** `struct mu_QUERY`: the three statements a query carries. */
  datatype Query = Query(mapsql: string, createtablesql: Option<string>, reducesql: Option<string>)

  /**
   * `mu_create_query`: the map statement is required; the create and
   * reduce statements are optional, but one that is given must resolve.
   */
  function CreateQuery(disk: Disk, mapArg: Option<string>, createArg: Option<string>, reduceArg: Option<string>): Option<Query>
  {
    var mapsql := DupSqlOrReadFile(disk, mapArg);
    var create := DupSqlOrReadFile(disk, createArg);
    var reduce := DupSqlOrReadFile(disk, reduceArg);
    if mapsql.None? then None
    else if createArg.Some? && create.None? then None
    else if reduceArg.Some? && reduce.None? then None
    else Some(Query(mapsql.value, create, reduce))
  }

  /**
   * A query exists exactly when every statement given resolves; it keeps
   * which optional statements were given, and its map statement is never
   * empty (so the map script builder never sees an empty statement from it).
   */
  lemma CreateQueryMeaning(disk: Disk, mapArg: Option<string>, createArg: Option<string>, reduceArg: Option<string>)
    ensures var q := CreateQuery(disk, mapArg, createArg, reduceArg);
            q.Some? <==>
              DupSqlOrReadFile(disk, mapArg).Some?
              && (createArg.Some? ==> DupSqlOrReadFile(disk, createArg).Some?)
              && (reduceArg.Some? ==> DupSqlOrReadFile(disk, reduceArg).Some?)
    ensures var q := CreateQuery(disk, mapArg, createArg, reduceArg);
            q.Some? ==>
              |q.value.mapsql| > 0
              && (q.value.createtablesql.Some? <==> createArg.Some?)
              && (q.value.reducesql.Some? <==> reduceArg.Some?)
              && (reduceArg.Some? && LooksLikeSql(reduceArg.value) ==> q.value.reducesql == reduceArg)
  {
    DupSqlOrReadFileMeaning(disk, disk, mapArg);
    DupSqlOrReadFileMeaning(disk, disk, createArg);
    DupSqlOrReadFileMeaning(disk, disk, reduceArg);
  }
}
