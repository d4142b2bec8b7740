/**
 * Predicates on the strings the library is handed: is a map statement a
 * `select`, is a shard name safe to interpolate into paths and SQL, is an
 * error message fatal.
 */
module Classify {
  import opened Wrappers

  predicate IsBlank(c: char) { c == ' ' || c == '\t' }

  predicate IsSelectLetter(c: char) { c == 's' || c == 'S' }

  /**
   * What `is_mu_select` accepts: after a run of spaces and tabs, the first
   * other character is `s` or `S`.
   */
  predicate StartsWithSelect(sql: string)
  {
    |sql| > 0 && (IsSelectLetter(sql[0]) || (IsBlank(sql[0]) && StartsWithSelect(sql[1..])))
  }

  /**
   * Reference definition of the same test: some position holds `s` or `S`
   * and everything before it is a space or a tab.
   */
  ghost predicate SelectAfterBlanks(sql: string)
  {
    exists k :: 0 <= k < |sql| && IsSelectLetter(sql[k]) && forall j :: 0 <= j < k ==> IsBlank(sql[j])
  }

  lemma {:induction false} StartsWithSelectMeaning(sql: string)
    ensures StartsWithSelect(sql) <==> SelectAfterBlanks(sql)
  {
    if |sql| > 0 && !IsSelectLetter(sql[0]) {
      var rest := sql[1..];
      StartsWithSelectMeaning(rest);
      if SelectAfterBlanks(sql) {
        var k :| 0 <= k < |sql| && IsSelectLetter(sql[k]) && forall j :: 0 <= j < k ==> IsBlank(sql[j]);
        assert IsBlank(sql[0]) && IsSelectLetter(rest[k - 1]) && forall j :: 0 <= j < k - 1 ==> IsBlank(rest[j]);
      }
      if IsBlank(sql[0]) && SelectAfterBlanks(rest) {
        var k :| 0 <= k < |rest| && IsSelectLetter(rest[k]) && forall j :: 0 <= j < k ==> IsBlank(rest[j]);
        assert IsSelectLetter(sql[k + 1]) && forall j :: 0 <= j < k + 1 ==> IsBlank(sql[j]);
      }
    } else if |sql| > 0 {
      assert IsSelectLetter(sql[0]);
    }
  }

  /**
   * `is_mu_select`: skip spaces and tabs, then test for `s` or `S`.  The C
   * loop stops at the terminating NUL, which is neither.
   */
  method IsMuSelect(sql: string) returns (isSelect: bool)
    ensures isSelect <==> StartsWithSelect(sql)
    ensures isSelect <==> SelectAfterBlanks(sql)
  {
    var i := 0;
    while i < |sql| && IsBlank(sql[i])
      invariant 0 <= i <= |sql|
      invariant StartsWithSelect(sql) <==> StartsWithSelect(sql[i..])
    {
      assert sql[i..][1..] == sql[i + 1..];
      i := i + 1;
    }
    isSelect := i < |sql| && IsSelectLetter(sql[i]);
    StartsWithSelectMeaning(sql);
  }

  /**
   * The test some earlier variants use instead (`mapsql[0]` is `s` or `S`):
   * it accepts only selects that start in the first column.
   */
  predicate FirstCharIsSelect(sql: string)
  {
    |sql| > 0 && IsSelectLetter(sql[0])
  }

  lemma FirstCharTestIsNarrower(sql: string)
    ensures FirstCharIsSelect(sql) ==> StartsWithSelect(sql)
    ensures FirstCharIsSelect(" select 1") == false && StartsWithSelect(" select 1")
  {
    var s := " select 1";
    assert IsBlank(s[0]) && IsSelectLetter(s[1..][0]);
  }

  // ---------------------------------------------------------------------
  // Shard names

  predicate ShardNameChar(c: char)
  {
    ('0' <= c <= '9') || ('a' <= c <= 'z') || ('A' <= c <= 'Z') || c == '.' || c == '-' || c == '_'
  }

  /**
   * Reference definition of `ok_mu_shard_name`: non-empty, not starting
   * with a dot, and made only of digits, ASCII letters, `.`, `-` and `_`.
   */
  predicate IsShardName(name: string)
  {
    |name| > 0 && name[0] != '.' && forall i :: 0 <= i < |name| ==> ShardNameChar(name[i])
  }

  /** `ok_mu_shard_name`: the character-by-character loop of the C code. */
  method OkShardName(name: string) returns (ok: bool)
    ensures ok <==> IsShardName(name)
  {
    if |name| == 0 || name[0] == '.' {
      return false;
    }
    var i := 0;
    while i < |name|
      invariant 0 <= i <= |name|
      invariant forall j :: 0 <= j < i ==> ShardNameChar(name[j])
    {
      if !ShardNameChar(name[i]) {
        return false;
      }
      i := i + 1;
    }
    return true;
  }

  /**
   * What the check buys: an accepted name stays one path component below
   * the database directory (no `/`, not `.` or `..`) and cannot end the
   * single-quoted SQL string it is pasted into.
   */
  lemma ShardNameIsInert(name: string)
    requires IsShardName(name)
    ensures '/' !in name && '\'' !in name && ' ' !in name && '\n' !in name
    ensures name != "." && name != ".."
  {
    forall c | c in name
      ensures c != '/' && c != '\'' && c != ' ' && c != '\n'
    {
      var i :| 0 <= i < |name| && name[i] == c;
      assert ShardNameChar(name[i]);
    }
  }

  // ---------------------------------------------------------------------
  // Error messages

  /** `is_mu_fatal`: a message starting with `fatal`, `Fatal` or `FATAL`. */
  predicate IsMuFatal(msg: Option<string>)
  {
    msg.Some? && ("fatal" <= msg.value || "Fatal" <= msg.value || "FATAL" <= msg.value)
  }

  /** Only the three spellings at the very start count; mixed case or a later position do not. */
  lemma FatalSpellings(rest: string)
    ensures IsMuFatal(Some("Fatal" + rest)) && IsMuFatal(Some("FATAL" + rest)) && IsMuFatal(Some("fatal" + rest))
    ensures !IsMuFatal(Some("fAtal" + rest)) && !IsMuFatal(Some(" fatal" + rest)) && !IsMuFatal(None)
  {
    var a, b := "fAtal" + rest, " fatal" + rest;
    assert a[1] == 'A' && a[0] == 'f';
    assert !("fatal" <= a) && !("Fatal" <= a) && !("FATAL" <= a);
    assert b[0] == ' ';
    assert !("fatal" <= b) && !("Fatal" <= b) && !("FATAL" <= b);
  }
}
