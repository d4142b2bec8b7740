/**
 * `mu_create_shards_from_sqlite_table` of `src/libmulticoreutils.c`:
 * split a table of an sqlite3 database into shard databases by its
 * `shardid` column.  A first sqlite3 run lists the distinct shard ids
 * (their count on the first line, then one per line); the count is read
 * with `strtol` and cast to `int`, the names are taken with `strtok`, and
 * a second script gets one attach/copy/detach block per name that passes
 * `ok_mu_shard_name`.  The output of the first run and the exit status of
 * the second are inputs; the runs themselves are left out.
 */
module MakeShards {
  import opened Wrappers
  import Text
  import Classify
  import Partition

  // ---------------------------------------------------------------------
  // strtol(tok, NULL, 10) and the cast to int

  const LongMin: int := -0x8000_0000_0000_0000
  const LongMax: int := 0x7FFF_FFFF_FFFF_FFFF

  /** The characters `isspace` accepts in the C locale. */
  predicate IsSpace(c: char)
  {
    c == ' ' || c == '\t' || c == '\n' || c == '\U{B}' || c == '\U{C}' || c == '\r'
  }

  function SkipSpaces(s: string): (t: string)
    ensures |t| <= |s| && t == s[|s| - |t|..]
    ensures t == [] || !IsSpace(t[0])
  {
    if s != [] && IsSpace(s[0]) then SkipSpaces(s[1..]) else s
  }

  /** The longest prefix of decimal digits. */
  function DigitRun(s: string): (d: string)
    ensures Text.AllDigits(d) && |d| <= |s| && d == s[..|d|]
    ensures |d| < |s| ==> !Text.IsDigit(s[|d|])
  {
    if s == [] || !Text.IsDigit(s[0]) then [] else [s[0]] + DigitRun(s[1..])
  }

  lemma {:induction false} DigitRunOfDigits(s: string)
    requires Text.AllDigits(s)
    ensures DigitRun(s) == s
  {
    if s != [] {
      DigitRunOfDigits(s[1..]);
    }
  }

  /** What `strtol` computes, and whether it reports `ERANGE` (the value does not fit a `long`). */
  datatype Parsed = Parsed(value: int, overflow: bool)

  /**
   * `strtol` in base 10: blanks, an optional sign, then the longest run of
   * digits (none reads as 0).
   */
  function Strtol(s: string): (p: Parsed)
    ensures p.overflow <==> !(LongMin <= p.value <= LongMax)
  {
    var t := SkipSpaces(s);
    var signed := |t| > 0 && (t[0] == '-' || t[0] == '+');
    var d := DigitRun(if signed then t[1..] else t);
    var v: int := if signed && t[0] == '-' then -(Text.Value(d) as int) else Text.Value(d) as int;
    Parsed(v, !(LongMin <= v <= LongMax))
  }

  /** A count printed by `%d` reads back through `strtol`. */
  lemma StrtolDecimal(n: nat)
    ensures Strtol(Text.Decimal(n)) == Parsed(n, n > LongMax)
  {
    var s := Text.Decimal(n);
    Text.DecimalRoundTrip(n);
    assert !IsSpace(s[0]) && s[0] != '-' && s[0] != '+' by {
      assert Text.IsDigit(s[0]);
    }
    assert SkipSpaces(s) == s;
    DigitRunOfDigits(s);
  }

  /** The cast of a `long` to a 32-bit `int`, as two's complement wrap-around. */
  function ToInt32(v: int): (r: int)
    ensures -0x8000_0000 <= r < 0x8000_0000
    ensures (r - v) % 0x1_0000_0000 == 0
  {
    (v + 0x8000_0000) % 0x1_0000_0000 - 0x8000_0000
  }

  lemma ToInt32Small(v: int)
    requires -0x8000_0000 <= v < 0x8000_0000
    ensures ToInt32(v) == v
  {
  }

  // ---------------------------------------------------------------------
  // The two scripts

  /** The first script: collect the distinct non-empty shard ids, print their count and then each one. */
  function SetupScript(table: string): string
  {
    "create temporary table shardids as select distinct shardid from " + table
    + " where (shardid is not null) and (shardid!='');\n"
    + "select count(*) from shardids;\n"
    + "select shardid from shardids order by shardid;\n"
  }

  /** The block that copies the rows of shard `name` into the database `<dbdir>/<name>`. */
  function ShardBlock(dbdir: string, table: string, name: string): string
  {
    "attach database '" + dbdir + "/" + name + "' as 'shard';\n"
    + "pragma synchronous = 0;\n"
    + "create table shard." + table + " as select * from " + table + " where shardid='" + name + "';\n"
    + "detach database shard;\n"
  }

  /** The names `ok_mu_shard_name` accepts, in order. */
  function Accepted(names: seq<string>): (acc: seq<string>)
    ensures |acc| <= |names|
    ensures forall a :: a in acc ==> Classify.IsShardName(a) && a in names
  {
    if names == [] then []
    else
      var last := names[|names| - 1];
      Accepted(names[..|names| - 1]) + (if Classify.IsShardName(last) then [last] else [])
  }

  /** Every name that is accepted appears in the order given. */
  lemma {:induction false} AcceptedAll(names: seq<string>)
    requires forall i :: 0 <= i < |names| ==> Classify.IsShardName(names[i])
    ensures Accepted(names) == names
  {
    if names != [] {
      AcceptedAll(names[..|names| - 1]);
      assert names[..|names| - 1] + [names[|names| - 1]] == names;
    }
  }

  lemma AcceptedNext(toks: seq<string>, i: nat)
    requires 1 + i < |toks|
    ensures Accepted(toks[1..1 + i + 1])
            == Accepted(toks[1..1 + i]) + (if Classify.IsShardName(toks[1 + i]) then [toks[1 + i]] else [])
  {
    var x := toks[1..1 + i + 1];
    assert x[..|x| - 1] == toks[1..1 + i] && x[|x| - 1] == toks[1 + i];
  }

  /** One printed block per name. */
  function Blocks(dbdir: string, table: string, names: seq<string>): (pieces: seq<string>)
    ensures |pieces| == |names| && forall i :: 0 <= i < |names| ==> pieces[i] == ShardBlock(dbdir, table, names[i])
  {
    seq(|names|, i requires 0 <= i < |names| => ShardBlock(dbdir, table, names[i]))
  }

  lemma BlocksNext(dbdir: string, table: string, names: seq<string>, name: string)
    ensures Blocks(dbdir, table, names + [name]) == Blocks(dbdir, table, names) + [ShardBlock(dbdir, table, name)]
  {
  }

  // ---------------------------------------------------------------------
  // The function

  /**
   * What the function leaves: its return code, the second script when it
   * got that far, and whether it removes its temporary directory.  The
   * first script is always `SetupScript(table)`.
   */
  datatype ShardRun = ShardRun(rc: int, script: Option<seq<string>>, removesTemp: bool)

  /**
   * The outcome, from the first run's output (`None` when it cannot be
   * read back) and the second run's exit status: -1 when there is no
   * first line, when the count overflows a `long` or is not positive after
   * the cast; the process ends when there are fewer names than the count
   * (a NULL name reaches `ok_mu_shard_name`); otherwise the second run's
   * status, with a block for each accepted name among the first `count`,
   * and the temporary directory removed only when that run succeeded.
   */
  function CreateShards(out: Option<string>, table: string, dbdir: string, shardstatus: int): Proc<ShardRun>
  {
    var failed := Returns(ShardRun(-1, None, false));
    if out.None? then failed
    else
      var toks := Text.Fields(out.value, '\n');
      if toks == [] then failed
      else
        var p := Strtol(toks[0]);
        var count := ToInt32(p.value);
        if p.overflow || count <= 0 then failed
        else if |toks| < 1 + count then Exits
        else Returns(ShardRun(shardstatus, Some(Blocks(dbdir, table, Accepted(toks[1..1 + count]))), shardstatus == 0))
  }

  /**
   * `mu_create_shards_from_sqlite_table`, with its two loops: the next
   * `count` tokens into the name array (NULL once the output runs out),
   * then a block for each name that passes the check.
   */
  method RunCreateShards(out: Option<string>, table: string, dbdir: string, shardstatus: int) returns (r: Proc<ShardRun>)
    ensures r == CreateShards(out, table, dbdir, shardstatus)
  {
    if out.None? {
      return Returns(ShardRun(-1, None, false));
    }
    var toks := Text.Fields(out.value, '\n');
    if |toks| == 0 {
      return Returns(ShardRun(-1, None, false));
    }
    var p := Strtol(toks[0]);
    var shardc := ToInt32(p.value);
    if shardc <= 0 || p.overflow {
      return Returns(ShardRun(-1, None, false));
    }
    var shardv := ReadNames(toks, shardc);
    var script := WriteBlocks(shardv, toks, dbdir, table);
    if script.None? {
      return Exits;
    }
    return Returns(ShardRun(shardstatus, script, shardstatus == 0));
  }

  /** The names after the count line, `count` slots of them, NULL once the tokens run out. */
  function NameSlots(toks: seq<string>, count: nat): (slots: seq<Option<string>>)
    ensures |slots| == count
    ensures forall j :: 0 <= j < count ==> slots[j] == if 1 + j < |toks| then Some(toks[1 + j]) else None
  {
    seq(count, j requires 0 <= j < count => if 1 + j < |toks| then Some(toks[1 + j]) else None)
  }

  /** The `strtok(NULL, "\n")` loop that fills the name array. */
  method ReadNames(toks: seq<string>, count: nat) returns (shardv: array<Option<string>>)
    ensures fresh(shardv) && shardv[..] == NameSlots(toks, count)
  {
    shardv := new Option<string>[count];
    var i := 0;
    while i < count
      invariant 0 <= i <= count
      invariant forall j :: 0 <= j < i ==> shardv[j] == NameSlots(toks, count)[j]
    {
      shardv[i] := if 1 + i < |toks| then Some(toks[1 + i]) else None;
      i := i + 1;
    }
  }

  /** One turn of the print loop: the block for name `i` when `ok_mu_shard_name` accepts it. */
  method WriteBlock(written: seq<string>, toks: seq<string>, i: nat, name: string, dbdir: string, table: string)
    returns (next: seq<string>)
    requires 1 + i < |toks| && name == toks[1 + i] && written == Blocks(dbdir, table, Accepted(toks[1..1 + i]))
    ensures next == Blocks(dbdir, table, Accepted(toks[1..1 + i + 1]))
  {
    var ok := Classify.OkShardName(name);
    AcceptedNext(toks, i);
    next := written;
    if ok {
      BlocksNext(dbdir, table, Accepted(toks[1..1 + i]), name);
      next := written + [ShardBlock(dbdir, table, name)];
    }
  }

  /**
   * The print loop of the second script: a block for each name that
   * passes `ok_mu_shard_name`; a NULL name ends the process (`None`).
   */
  method WriteBlocks(shardv: array<Option<string>>, toks: seq<string>, dbdir: string, table: string)
    returns (script: Option<seq<string>>)
    requires 0 < |toks| && shardv[..] == NameSlots(toks, shardv.Length)
    ensures script.None? <==> |toks| < 1 + shardv.Length
    ensures script.Some? ==> script.value == Blocks(dbdir, table, Accepted(toks[1..1 + shardv.Length]))
  {
    var written: seq<string> := [];
    var i := 0;
    while i < shardv.Length
      invariant 0 <= i <= shardv.Length && 1 + i <= |toks|
      invariant written == Blocks(dbdir, table, Accepted(toks[1..1 + i]))
    {
      assert shardv[i] == NameSlots(toks, shardv.Length)[i];
      if shardv[i].None? {
        return None;
      }
      written := WriteBlock(written, toks, i, shardv[i].value, dbdir, table);
      i := i + 1;
    }
    return Some(written);
  }

  // ---------------------------------------------------------------------
  // Properties

  /**
   * When the first run prints the count and then the names, one per
   * line, and the names are valid shard names, the second script has one
   * block per name, in order; the return code is the second run's status.
   */
  lemma {:induction false} CreateShardsRoundTrip(names: seq<string>, table: string, dbdir: string, shardstatus: int)
    requires 0 < |names| < 0x8000_0000
    requires forall i :: 0 <= i < |names| ==> Classify.IsShardName(names[i])
    ensures var r := CreateShards(Some(Text.Joined([Text.Decimal(|names|)] + names, '\n')), table, dbdir, shardstatus);
            r == Returns(ShardRun(shardstatus, Some(Blocks(dbdir, table, names)), shardstatus == 0))
  {
    var toks := [Text.Decimal(|names|)] + names;
    var out := Text.Joined(toks, '\n');
    LinesAreTokens(names);
    Text.FieldsJoined(toks, '\n');
    StrtolDecimal(|names|);
    ToInt32Small(|names|);
    assert toks[1..1 + |names|] == names;
    AcceptedAll(names);
    ParsedCount(out, table, dbdir, shardstatus, toks, |names|);
  }

  /** The outcome once the tokens and the count are known. */
  lemma ParsedCount(out: string, table: string, dbdir: string, shardstatus: int, toks: seq<string>, count: nat)
    requires Text.Fields(out, '\n') == toks && 0 < |toks| && 0 < count < 0x8000_0000
    requires Strtol(toks[0]) == Parsed(count, false) && ToInt32(count) == count
    ensures |toks| < 1 + count ==> CreateShards(Some(out), table, dbdir, shardstatus) == Exits
    ensures 1 + count <= |toks| ==>
              CreateShards(Some(out), table, dbdir, shardstatus)
              == Returns(ShardRun(shardstatus, Some(Blocks(dbdir, table, Accepted(toks[1..1 + count]))),
                                  shardstatus == 0))
  {
  }

  /** The count and the names are lines `strtok` hands back whole: non-empty and without a newline. */
  lemma LinesAreTokens(names: seq<string>)
    requires forall i :: 0 <= i < |names| ==> Classify.IsShardName(names[i])
    ensures forall t :: t in [Text.Decimal(|names|)] + names ==> t != [] && '\n' !in t
  {
    var d := Text.Decimal(|names|);
    Text.DecimalRoundTrip(|names|);
    assert '\n' !in d;
    forall i | 0 <= i < |names|
      ensures names[i] != [] && '\n' !in names[i]
    {
      Classify.ShardNameIsInert(names[i]);
    }
  }

  /**
   * Every block in the second script belongs to a name the check
   * accepted, so the database it attaches is one file directly under the
   * directory and the name cannot end the quoted strings it is put in.
   */
  lemma BlocksAreInert(out: string, table: string, dbdir: string, shardstatus: int, k: nat)
    requires CreateShards(Some(out), table, dbdir, shardstatus).Returns?
    requires CreateShards(Some(out), table, dbdir, shardstatus).value.script.Some?
    requires k < |CreateShards(Some(out), table, dbdir, shardstatus).value.script.value|
    ensures exists name :: Classify.IsShardName(name) && '/' !in name && '\'' !in name && name != "." && name != ".."
                           && CreateShards(Some(out), table, dbdir, shardstatus).value.script.value[k] == ShardBlock(dbdir, table, name)
  {
    var toks := Text.Fields(out, '\n');
    var count := ToInt32(Strtol(toks[0]).value);
    var acc := Accepted(toks[1..1 + count]);
    var name := acc[k];
    assert name in acc;
    Classify.ShardNameIsInert(name);
  }

  /**
   * A count that is not positive after the cast to `int`, including one
   * that only wraps to a non-positive value, writes no second script and
   * returns -1.
   */
  lemma CountMustBePositive(out: string, table: string, dbdir: string, shardstatus: int)
    requires Text.Fields(out, '\n') != []
    requires ToInt32(Strtol(Text.Fields(out, '\n')[0]).value) <= 0
    ensures CreateShards(Some(out), table, dbdir, shardstatus) == Returns(ShardRun(-1, None, false))
  {
  }

  /**
   * A count that fits a `long` but is a multiple of 2^32, such as
   * 4294967296, wraps to 0 in the cast to `int`: whatever follows it, no
   * second script is written and -1 is returned.
   */
  lemma WrappedCountRefused(k: nat, rest: string, table: string, dbdir: string, shardstatus: int)
    requires 0 < k * 0x1_0000_0000 <= LongMax
    ensures CreateShards(Some(Text.Decimal(k * 0x1_0000_0000) + "\n" + rest), table, dbdir, shardstatus)
            == Returns(ShardRun(-1, None, false))
  {
    var n := k * 0x1_0000_0000;
    var d := Text.Decimal(n);
    var s := d + "\n" + rest;
    Text.DecimalRoundTrip(n);
    assert '\n' !in d;
    assert s == d + ("\n" + rest);
    Text.WordOfToken(d, "\n" + rest, '\n');
    assert s[0] == d[0] && Text.IsDigit(d[0]);
    assert Text.Fields(s, '\n')[0] == d;
    StrtolDecimal(n);
    Partition.DivModUnique(n + 0x8000_0000, 0x1_0000_0000, k, 0x8000_0000);
    assert ToInt32(n) == 0;
    CountMustBePositive(s, table, dbdir, shardstatus);
  }

  /** Fewer names than the count end the process: a NULL name reaches `ok_mu_shard_name`. */
  lemma TooFewNamesExits(out: string, table: string, dbdir: string, shardstatus: int)
    requires Text.Fields(out, '\n') != []
    requires var p := Strtol(Text.Fields(out, '\n')[0]);
             !p.overflow && 0 < ToInt32(p.value) && |Text.Fields(out, '\n')| <= ToInt32(p.value)
    ensures CreateShards(Some(out), table, dbdir, shardstatus) == Exits
  {
  }
}
