/**
 * One `sqlite3` run: the files it reads and writes, named after its
 * directory, task name and number, and the rule that decides whether it
 * failed.  Starting and waiting for the process are not modelled; its exit
 * status and error file are inputs.
 */
module Tasks {
  import opened Wrappers
  import Text
  import SmallFiles

  /** `"%s/%s.%s.%.3d"`: directory, task name, stream, number padded to three digits. */
  function TaskFile(dir: string, task: string, stream: string, num: nat): string
  {
    dir + "/" + task + "." + stream + "." + Text.Pad3(num)
  }

  /** The streams a task has. */
  predicate IsStream(s: string)
  {
    s == "in" || s == "out" || s == "err" || s == "progress" || s == "db"
  }

  /** A dot-free head is recovered as the first `.`-delimited word. */
  lemma SplitAtDot(a: string, b: string, c: string, d: string)
    requires '.' !in a && '.' !in c && a + "." + b == c + "." + d
    ensures a == c && b == d
  {
    var x := a + "." + b;
    assert x == a + ("." + b) == c + ("." + d);
    Text.WordOfToken(a, "." + b, '.');
    Text.WordOfToken(c, "." + d, '.');
    assert b == x[|a| + 1..];
  }

  lemma Pad3HasNoDot(n: nat)
    ensures '.' !in Text.Pad3(n)
  {
    Text.Pad3RoundTrip(n);
    var p := Text.Pad3(n);
    forall i | 0 <= i < |p|
      ensures p[i] != '.'
    {
      assert Text.IsDigit(p[i]);
    }
  }

  /**
   * In one directory, the files of different tasks, streams or numbers
   * never coincide, as long as task names have no dot: no two tasks of a
   * query share a file.
   */
  lemma TaskFilesDistinct(dir: string, t1: string, s1: string, n1: nat, t2: string, s2: string, n2: nat)
    requires '.' !in t1 && '.' !in t2 && IsStream(s1) && IsStream(s2)
    requires TaskFile(dir, t1, s1, n1) == TaskFile(dir, t2, s2, n2)
    ensures t1 == t2 && s1 == s2 && n1 == n2
  {
    var r1, r2 := s1 + "." + Text.Pad3(n1), s2 + "." + Text.Pad3(n2);
    TaskFileTail(dir, t1, s1, n1);
    TaskFileTail(dir, t2, s2, n2);
    var p := dir + "/";
    assert t1 + "." + r1 == TaskFile(dir, t1, s1, n1)[|p|..];
    assert t2 + "." + r2 == TaskFile(dir, t2, s2, n2)[|p|..];
    SplitAtDot(t1, r1, t2, r2);
    Pad3HasNoDot(n1);
    SplitAtDot(s1, Text.Pad3(n1), s2, Text.Pad3(n2));
    Text.Pad3Injective(n1, n2);
  }

  lemma TaskFileTail(dir: string, t: string, s: string, n: nat)
    ensures TaskFile(dir, t, s, n) == (dir + "/") + (t + "." + (s + "." + Text.Pad3(n)))
  {
  }

  /**
   * `mu_define_task` sizes every name by the `progress` one; no stream name
   * is longer, so the formatting never truncates and its error branch is
   * never taken.
   */
  lemma ProgressNameIsLongest(dir: string, task: string, stream: string, num: nat)
    requires IsStream(stream)
    ensures |TaskFile(dir, task, stream, num)| <= |TaskFile(dir, task, "progress", num)|
  {
  }

  /** `struct mu_SQLITE3_TASK`. */
  class SqliteTask {
    var pid: int
    var status: int
    const dirname: string
    const taskname: string
    const tasknum: nat
    const iname: string
    const oname: string
    const ename: string
    const pname: string
    const dbname: Option<string>

    /** The names `mu_define_task` derives; the database is either supplied or `db`. */
    ghost predicate Named(supplied: Option<string>)
    {
      iname == TaskFile(dirname, taskname, "in", tasknum)
      && oname == TaskFile(dirname, taskname, "out", tasknum)
      && ename == TaskFile(dirname, taskname, "err", tasknum)
      && pname == TaskFile(dirname, taskname, "progress", tasknum)
      && dbname == Some(if supplied.Some? then supplied.value else TaskFile(dirname, taskname, "db", tasknum))
    }

    constructor (dirname: string, taskname: string, tasknum: nat, dbname: Option<string>)
      ensures this.dirname == dirname && this.taskname == taskname && this.tasknum == tasknum
      ensures iname == TaskFile(dirname, taskname, "in", tasknum)
      ensures oname == TaskFile(dirname, taskname, "out", tasknum)
      ensures ename == TaskFile(dirname, taskname, "err", tasknum)
      ensures pname == TaskFile(dirname, taskname, "progress", tasknum)
      ensures this.dbname == dbname && pid == 0 && status == 0
    {
      this.dirname, this.taskname, this.tasknum := dirname, taskname, tasknum;
      iname := TaskFile(dirname, taskname, "in", tasknum);
      oname := TaskFile(dirname, taskname, "out", tasknum);
      ename := TaskFile(dirname, taskname, "err", tasknum);
      pname := TaskFile(dirname, taskname, "progress", tasknum);
      this.dbname := dbname;
      pid, status := 0, 0;
    }

    /**
     * `mu_finish_task` once the wait is over: record the exit status, read
     * the error file, and report -1 on a non-zero status or a readable
     * error file, 0 otherwise.
     */
    method Finish(exitStatus: int, disk: SmallFiles.Disk) returns (rc: int)
      modifies this
      ensures status == exitStatus && pid == old(pid)
      ensures rc == (if TaskFailed(exitStatus, SmallFiles.ReadSmallFile(disk, Some(ename))) then -1 else 0)
    {
      status := exitStatus;
      var errs := SmallFiles.ReadSmallFile(disk, Some(ename));
      if status != 0 || errs.Some? {
        return -1;
      }
      return 0;
    }

    /** The same in the library version, whose file reader also fails on `errno`. */
    method FinishLib(exitStatus: int, disk: SmallFiles.Disk) returns (rc: int)
      modifies this
      ensures status == exitStatus && pid == old(pid)
      ensures rc == (if TaskFailed(exitStatus, SmallFiles.ReadSmallFileLib(disk, Some(ename))) then -1 else 0)
    {
      status := exitStatus;
      var errs := SmallFiles.ReadSmallFileLib(disk, Some(ename));
      if status != 0 || errs.Some? {
        return -1;
      }
      return 0;
    }
  }

  /**
   * `mu_define_task` of the reference library: NULL for a NULL directory
   * or task name or a negative number; otherwise a task with no process
   * yet, the derived names, and the supplied database or its own.
   */
  method DefineTask(dirname: Option<string>, mydbname: Option<string>, taskname: Option<string>, tasknum: int)
    returns (task: Option<SqliteTask>)
    ensures task.None? <==> dirname.None? || taskname.None? || tasknum < 0
    ensures task.Some? ==> fresh(task.value) && task.value.pid == 0 && task.value.status == 0
    ensures task.Some? ==> task.value.dirname == dirname.value && task.value.taskname == taskname.value
                           && task.value.tasknum == tasknum && task.value.Named(mydbname)
  {
    if dirname.None? || taskname.None? || tasknum < 0 {
      return None;
    }
    var db := if mydbname.Some? then mydbname.value else TaskFile(dirname.value, taskname.value, "db", tasknum);
    var t := new SqliteTask(dirname.value, taskname.value, tasknum, Some(db));
    return Some(t);
  }

  /** `mu_define_task` of the library version: the same names, and no database field. */
  method DefineTaskLib(dirname: Option<string>, taskname: Option<string>, tasknum: int)
    returns (task: Option<SqliteTask>)
    ensures task.None? <==> dirname.None? || taskname.None? || tasknum < 0
    ensures task.Some? ==> fresh(task.value) && task.value.pid == 0 && task.value.status == 0
    ensures task.Some? ==> task.value.dirname == dirname.value && task.value.taskname == taskname.value
                           && task.value.tasknum == tasknum && task.value.dbname.None?
                           && task.value.ename == TaskFile(dirname.value, taskname.value, "err", tasknum)
                           && task.value.oname == TaskFile(dirname.value, taskname.value, "out", tasknum)
                           && task.value.iname == TaskFile(dirname.value, taskname.value, "in", tasknum)
  {
    if dirname.None? || taskname.None? || tasknum < 0 {
      return None;
    }
    var t := new SqliteTask(dirname.value, taskname.value, tasknum, None);
    return Some(t);
  }

  /** The failure rule: a non-zero status, or any error text read back. */
  predicate TaskFailed(status: int, errs: Option<string>)
  {
    status != 0 || errs.Some?
  }

  /**
   * In terms of the error file: a task with status 0 fails exactly when its
   * error file exists, opens, is non-empty, is under the size limit and
   * reads back in full.  An empty, oversized or unreadable error file is
   * therefore taken for success.
   */
  lemma FinishMeaning(status: int, disk: SmallFiles.Disk, ename: string)
    ensures TaskFailed(status, SmallFiles.ReadSmallFile(disk, Some(ename))) <==>
              status != 0 ||
              (ename in disk && disk[ename].opens && 0 < disk[ename].size < SmallFiles.BufLimit
               && |disk[ename].contents| >= disk[ename].size)
    ensures var big := SmallFiles.FileStat(SmallFiles.BufLimit, true, Text.Zeros(SmallFiles.BufLimit), false);
            !TaskFailed(0, SmallFiles.ReadSmallFile(map[ename := big], Some(ename)))
  {
    SmallFiles.ReadSmallFileMeaning(disk, Some(ename));
  }

  /** The library's rule fails no more often than the reference's. */
  lemma FinishLibNoStricter(status: int, disk: SmallFiles.Disk, ename: string)
    ensures TaskFailed(status, SmallFiles.ReadSmallFileLib(disk, Some(ename)))
            ==> TaskFailed(status, SmallFiles.ReadSmallFile(disk, Some(ename)))
  {
    SmallFiles.ReadSmallFileLibStricter(disk, Some(ename));
  }

  /** `mu_finish_task` of the reference library: a NULL task is an error in itself. */
  method FinishTask(task: Option<SqliteTask>, exitStatus: int, disk: SmallFiles.Disk) returns (rc: int)
    modifies if task.Some? then {task.value} else {}
    ensures task.None? ==> rc == -1
    ensures task.Some? ==> (task.value.status == exitStatus &&
              rc == (if TaskFailed(exitStatus, SmallFiles.ReadSmallFile(disk, Some(task.value.ename))) then -1 else 0))
  {
    if task.None? {
      return -1;
    }
    rc := task.value.Finish(exitStatus, disk);
  }
}
