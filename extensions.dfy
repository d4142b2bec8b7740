/**
 * The `sqlite3` extension list: a space-separated list of libraries, each
 * turned into a `.load <library>` line that every script starts with.
 */
module Extensions {
  import opened Wrappers
  import Text
  import PrintBuffer

  function LoadLine(library: string): string
  {
    ".load " + library + "\n"
  }

  function LoadLines(libraries: seq<string>): (lines: seq<string>)
    ensures |lines| == |libraries|
    ensures forall k :: 0 <= k < |libraries| ==> lines[k] == LoadLine(libraries[k])
  {
    seq(|libraries|, k requires 0 <= k < |libraries| => LoadLine(libraries[k]))
  }

  /** The libraries named by the setting: `strtok` fields on spaces. */
  function Libraries(setting: string): seq<string>
  {
    Text.Fields(setting, ' ')
  }

  /** `mu_sqlite3_extensions` builds into a 1024-byte buffer. */
  const ExtBufSize := 1024

  /**
   * What `mu_sqlite3_extensions` computes from the environment value:
   * NULL when unset, otherwise the load lines as far as they fit.
   */
  function ExtensionsText(setting: Option<string>): Option<string>
  {
    if setting.None? then None
    else Some(PrintBuffer.Run(LoadLines(Libraries(setting.value)), ExtBufSize).text)
  }

  /**
   * For a list of library names without spaces, the text is one load line
   * per library in order, cut to the buffer: whole when it fits, otherwise
   * the first 1023 characters (possibly ending inside a line).
   */
  lemma ExtensionsOfList(libraries: seq<string>)
    requires forall k :: 0 <= k < |libraries| ==> libraries[k] != [] && ' ' !in libraries[k]
    ensures var all := Text.Concat(LoadLines(libraries));
            var t := ExtensionsText(Some(Text.Joined(libraries, ' '))).value;
            (|all| < ExtBufSize ==> t == all)
            && (|all| >= ExtBufSize ==> t == all[..ExtBufSize - 1])
  {
    Text.FieldsJoined(libraries, ' ');
    PrintBuffer.RunMeaning(LoadLines(libraries), ExtBufSize);
  }

  /** The loop of `mu_sqlite3_extensions`: print a load line per token while the offset is below the size. */
  method BuildExtensions(setting: Option<string>) returns (exts: Option<string>)
    ensures exts == ExtensionsText(setting)
  {
    if setting.None? {
      return None;
    }
    var libraries := Libraries(setting.value);
    ghost var lines := LoadLines(libraries);
    var buf := new PrintBuffer.ScriptBuffer(ExtBufSize);
    var i := 0;
    while i < |libraries| && buf.cursor < ExtBufSize
      invariant 0 <= i <= |libraries|
      invariant buf.Valid() && buf.size == ExtBufSize && buf.pieces == lines[..i]
    {
      buf.Print(LoadLine(libraries[i]));
      assert lines[..i + 1] == lines[..i] + [lines[i]];
      i := i + 1;
    }
    if i < |libraries| {
      PrintBuffer.RunSaturates(lines[..i], lines[i..], ExtBufSize);
      assert lines[..i] + lines[i..] == lines;
    } else {
      assert lines[..i] == lines;
    }
    exts := Some(buf.text);
  }

  /**
   * The static memo of `mu_sqlite3_extensions`: the first call reads the
   * environment, every later call returns that first answer.
   */
  class ExtensionCache {
    var done: bool
    var exts: Option<string>
    ghost var firstSetting: Option<string>

    ghost predicate Valid()
      reads this
    {
      done ==> exts == ExtensionsText(firstSetting)
    }

    constructor ()
      ensures Valid() && !done
    {
      done, exts := false, None;
      firstSetting := None;
    }

    method Get(setting: Option<string>) returns (r: Option<string>)
      requires Valid()
      modifies this
      ensures Valid() && done && r == exts
      ensures old(done) ==> exts == old(exts) && firstSetting == old(firstSetting)
      ensures !old(done) ==> firstSetting == setting && r == ExtensionsText(setting)
    {
      if done {
        return exts;
      }
      done := true;
      firstSetting := setting;
      exts := BuildExtensions(setting);
      r := exts;
    }
  }

  /** The load lines a setting asks for: none when unset, one per library otherwise. */
  function LoadLinesOf(setting: Option<string>): seq<string>
  {
    if setting.None? then [] else LoadLines(Libraries(setting.value))
  }

  /**
   * `fLoadExtensions` of the early libraries: the same load lines, printed
   * straight to the script with no buffer, and nothing for a NULL or empty
   * setting.
   */
  method WriteLoadLines(setting: Option<string>) returns (written: seq<string>)
    ensures setting.None? ==> written == []
    ensures setting.Some? ==> written == LoadLines(Libraries(setting.value))
    ensures written == LoadLinesOf(setting)
  {
    written := [];
    if setting.Some? && |setting.value| > 0 {
      var libraries := Libraries(setting.value);
      var i := 0;
      while i < |libraries|
        invariant 0 <= i <= |libraries|
        invariant written == LoadLines(libraries[..i])
      {
        written := written + [LoadLine(libraries[i])];
        i := i + 1;
      }
      assert libraries[..i] == libraries;
    } else if setting.Some? {
      assert Libraries(setting.value) == [];
    }
  }

  /**
   * `mu_fLoadExtensions`: the memoised text is written with `fputs`, as one
   * piece with no newline added, and nothing is written when it is NULL.
   */
  function PutText(exts: Option<string>): seq<string>
  {
    if exts.Some? then [exts.value] else []
  }

  /** The bounded text of the later libraries is a prefix of what the early ones print, and equal when it fits. */
  lemma BoundedIsPrefixOfUnbounded(setting: string)
    ensures var all := Text.Concat(LoadLines(Libraries(setting)));
            var t := ExtensionsText(Some(setting)).value;
            t <= all && (|all| < ExtBufSize <==> t == all)
  {
    PrintBuffer.RunMeaning(LoadLines(Libraries(setting)), ExtBufSize);
  }
}
