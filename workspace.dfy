/**
 * The per-query temporary directory and the guard in front of the only
 * destructive operation the library performs, `rm -rf <dir>`.
 */
module Workspace {
  import opened Wrappers
  import Text

  const TempPrefix := "/tmp/multicoresql-"

  /** The template handed to `mkdtemp` (`mu_create_temp_dir`). */
  const TempTemplate := "/tmp/multicoresql-XXXXXX"

  /** `is_mu_temp`: a non-NULL name that begins with the temporary-directory prefix. */
  predicate IsMuTemp(name: Option<string>)
  {
    name.Some? && TempPrefix <= name.value
  }

  /** The weaker test of the early `xrmtmp`: any name under `/tmp/`. */
  predicate IsUnderTmp(name: Option<string>)
  {
    name.Some? && "/tmp/" <= name.value
  }

  predicate IsAlnum(c: char)
  {
    ('0' <= c <= '9') || ('a' <= c <= 'z') || ('A' <= c <= 'Z')
  }

  /** A name `mkdtemp` can produce from the template: the six `X`s replaced by letters or digits. */
  predicate IsCreatedTemp(name: string)
  {
    |name| == |TempTemplate| && TempPrefix <= name
    && forall i :: |TempPrefix| <= i < |name| ==> IsAlnum(name[i])
  }

  /** Every directory the library creates passes both guards. */
  lemma CreatedTempPassesGuards(name: string)
    requires IsCreatedTemp(name)
    ensures IsMuTemp(Some(name)) && IsUnderTmp(Some(name))
  {
    assert name[..5] == TempPrefix[..5];
  }

  /** The prefix guard is strictly narrower than the early `/tmp/` guard. */
  lemma PrefixGuardNarrower(name: Option<string>)
    ensures IsMuTemp(name) ==> IsUnderTmp(name)
    ensures IsUnderTmp(Some("/tmp/other")) && !IsMuTemp(Some("/tmp/other"))
  {
    if IsMuTemp(name) {
      assert name.value[..5] == TempPrefix[..5];
    }
  }

  /** The shell command `system` receives, and the status the call reports. */
  datatype Removal = Removal(command: Option<string>, status: int)

  /** `snprintf` into `cmd[255]`: at most 254 characters survive. */
  const CmdBufSize := 255

  function RemoveCommand(dir: string): string
  {
    "rm -rf " + dir
  }

  /**
   * `mu_remove_temp_dir` as written: refuse names that fail `is_mu_temp`;
   * format `rm -rf <dir>` into a 255-byte buffer; give up only when the
   * full command is LONGER than 255 characters; otherwise run what the
   * buffer holds and report -1 when the removal reports failure.
   */
  function RemoveTempDirAsWritten(dir: Option<string>, removalFails: bool): (r: Removal)
    ensures r.status == 0 ==> IsMuTemp(dir) && r.command.Some?
  {
    if !IsMuTemp(dir) then Removal(None, -1)
    else
      var needed := |RemoveCommand(dir.value)|;
      if needed > CmdBufSize then Removal(None, -1)
      else
        var cmd := RemoveCommand(dir.value)[..if needed < CmdBufSize then needed else CmdBufSize - 1];
        Removal(Some(cmd), if removalFails then -1 else 0)
  }

  /**
   * A 248-character name under the prefix gives a 255-character command;
   * `snprintf` keeps 254 of them, the length test lets it through, and the
   * shell is asked to delete a different directory: the name without its
   * last character, a proper prefix of the name the caller passed.
   */
  lemma TruncatedRemoveRuns()
    ensures var dir, cut := TempPrefix + Text.Zeros(230), TempPrefix + Text.Zeros(229);
            IsMuTemp(Some(dir)) && cut < dir
            && RemoveTempDirAsWritten(Some(dir), false) == Removal(Some(RemoveCommand(cut)), 0)
            && RemoveCommand(cut) != RemoveCommand(dir)
  {
    var dir, cut := TempPrefix + Text.Zeros(230), TempPrefix + Text.Zeros(229);
    assert Text.Zeros(230) == Text.Zeros(229) + "0" by {
      ZerosSnoc(229);
    }
    assert dir == cut + "0";
    assert |RemoveCommand(dir)| == CmdBufSize;
    assert RemoveCommand(dir)[..CmdBufSize - 1] == RemoveCommand(cut);
  }

  lemma {:induction false} ZerosSnoc(k: nat)
    ensures Text.Zeros(k + 1) == Text.Zeros(k) + "0"
  {
    if k > 0 {
      ZerosSnoc(k - 1);
    }
  }

  /**
   * `mu_remove_temp_dir` with the length test the buffer needs (the full
   * command and its terminator must fit, `needed < 255`).
   */
  function RemoveTempDir(dir: Option<string>, removalFails: bool): (r: Removal)
  {
    if !IsMuTemp(dir) then Removal(None, -1)
    else if |RemoveCommand(dir.value)| >= CmdBufSize then Removal(None, -1)
    else Removal(Some(RemoveCommand(dir.value)), if removalFails then -1 else 0)
  }

  /**
   * With that test, whatever reaches the shell is exactly `rm -rf` of the
   * name the caller passed, and only for names under the prefix; a created
   * temporary directory is always removable.
   */
  lemma RemoveTempDirIsExact(dir: Option<string>, removalFails: bool)
    ensures RemoveTempDir(dir, removalFails).command.Some? <==>
              IsMuTemp(dir) && |RemoveCommand(dir.value)| < CmdBufSize
    ensures RemoveTempDir(dir, removalFails).command.Some? ==>
              RemoveTempDir(dir, removalFails).command.value == RemoveCommand(dir.value)
    ensures RemoveTempDir(dir, removalFails).status == 0 <==>
              IsMuTemp(dir) && |RemoveCommand(dir.value)| < CmdBufSize && !removalFails
    ensures dir.Some? && IsCreatedTemp(dir.value) ==> RemoveTempDir(dir, removalFails).command.Some?
  {
    if dir.Some? && IsCreatedTemp(dir.value) {
      CreatedTempPassesGuards(dir.value);
    }
  }

  /**
   * `mu_remove_temp_dir` of the utility library: the command is allocated
   * to fit, so it is never truncated; a failure reported through `errno`
   * ends the process.
   */
  function RemoveTempDirUtils(dir: Option<string>, removalFails: bool): (r: Proc<Removal>)
    ensures r.Returns? && r.value.command.Some? ==> IsMuTemp(dir) && r.value.command.value == RemoveCommand(dir.value)
    ensures r.Exits? <==> IsMuTemp(dir) && removalFails
  {
    if !IsMuTemp(dir) then Returns(Removal(None, -1))
    else if removalFails then Exits
    else Returns(Removal(Some(RemoveCommand(dir.value)), 0))
  }

  /**
   * `xrmtmp` of the early library: the same, but behind the weaker `/tmp/`
   * test, so it will delete any directory under `/tmp`.
   */
  function RemoveTmp(dir: Option<string>, removalFails: bool): (r: Proc<Removal>)
    ensures r.Returns? && r.value.command.Some? ==> IsUnderTmp(dir) && r.value.command.value == RemoveCommand(dir.value)
    ensures r.Exits? <==> IsUnderTmp(dir) && removalFails
  {
    if !IsUnderTmp(dir) then Returns(Removal(None, -1))
    else if removalFails then Exits
    else Returns(Removal(Some(RemoveCommand(dir.value)), 0))
  }
}
