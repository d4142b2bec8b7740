/**
 * Character-level helpers the C code gets from libc: string concatenation,
 * `%.3d` formatting of worker numbers and `strtok` with a one-character
 * delimiter set.
 */
module Text {
  /**
   * The concatenation of the pieces in order: the text a run of print calls
   * leaves in a file, or all workers' shard lists laid end to end.
   */
  function Concat<T>(pieces: seq<seq<T>>): seq<T>
  {
    if pieces == [] then [] else Concat(pieces[..|pieces| - 1]) + pieces[|pieces| - 1]
  }

  lemma {:induction false} ConcatAppend<T>(a: seq<seq<T>>, b: seq<seq<T>>)
    ensures Concat(a + b) == Concat(a) + Concat(b)
  {
    if b == [] {
      assert a + b == a;
    } else {
      var init, last := b[..|b| - 1], b[|b| - 1];
      assert (a + b)[..|a + b| - 1] == a + init;
      assert (a + b)[|a + b| - 1] == last;
      calc {
        Concat(a + b);
        Concat(a + init) + last;
        { ConcatAppend(a, init); }
        Concat(a) + Concat(init) + last;
        Concat(a) + (Concat(init) + last);
        Concat(a) + Concat(b);
      }
    }
  }

  lemma ConcatOne<T>(p: seq<T>)
    ensures Concat([p]) == p
  {
    assert [p][..0] == [];
  }

  lemma ConcatIndex<T>(a: seq<T>, b: seq<T>, c: seq<T>, i: nat)
    requires i < |b|
    ensures |a| + i < |a + b + c| && (a + b + c)[|a| + i] == b[i]
  {
  }

  lemma ConcatSlice<T>(a: seq<T>, b: seq<T>, c: seq<T>, i: nat, j: nat)
    requires i <= j <= |b|
    ensures |a| + j <= |a + b + c| && (a + b + c)[|a| + i..|a| + j] == b[i..j]
  {
    assert (a + b + c)[|a| + i..|a| + j] == (a + b)[|a| + i..|a| + j];
  }

  /** A prefix of the pieces never says more than all of them. */
  lemma {:induction false} ConcatLength<T>(pieces: seq<seq<T>>, k: nat)
    requires k <= |pieces|
    ensures |Concat(pieces[..k])| <= |Concat(pieces)|
  {
    if k < |pieces| {
      assert pieces[..|pieces| - 1][..k] == pieces[..k];
      ConcatLength(pieces[..|pieces| - 1], k);
    } else {
      assert pieces[..k] == pieces;
    }
  }

  // ---------------------------------------------------------------------
  // Decimal numbers: `%d` and `%.3d` for non-negative values

  predicate IsDigit(c: char) { '0' <= c <= '9' }

  predicate AllDigits(s: string) { forall i :: 0 <= i < |s| ==> IsDigit(s[i]) }

  function DigitChar(d: nat): (c: char)
    requires d < 10
    ensures IsDigit(c) && c as int - '0' as int == d
  {
    ('0' as int + d) as char
  }

  /** `%d` of a non-negative number: shortest decimal form. */
  function Decimal(n: nat): string
  {
    if n < 10 then [DigitChar(n)] else Decimal(n / 10) + [DigitChar(n % 10)]
  }

  /** `%.3d` of a non-negative number: at least three digits, zero-padded. */
  function Pad3(n: nat): string
  {
    if n < 10 then "00" + Decimal(n)
    else if n < 100 then "0" + Decimal(n)
    else Decimal(n)
  }

  function Zeros(k: nat): (z: string)
    ensures |z| == k
  {
    if k == 0 then "" else "0" + Zeros(k - 1)
  }

  /** The number a string of decimal digits denotes; the partner of `Decimal`. */
  function Value(s: string): nat
    requires AllDigits(s)
  {
    if s == [] then 0
    else Value(s[..|s| - 1]) * 10 + (s[|s| - 1] as int - '0' as int)
  }

  lemma {:induction false} DecimalRoundTrip(n: nat)
    ensures 0 < |Decimal(n)| && AllDigits(Decimal(n)) && Value(Decimal(n)) == n
  {
    if n >= 10 {
      DecimalRoundTrip(n / 10);
      var d := Decimal(n);
      assert d[..|d| - 1] == Decimal(n / 10);
    }
  }

  lemma {:induction false} LeadingZeroValue(s: string)
    requires AllDigits(s)
    ensures AllDigits("0" + s) && Value("0" + s) == Value(s)
  {
    if s != [] {
      assert ("0" + s)[..|s|] == "0" + s[..|s| - 1];
      LeadingZeroValue(s[..|s| - 1]);
    }
  }

  /**
   * `%.3d` prints at least three decimal digits and loses nothing: the
   * number reads back from them, so different worker numbers never share a
   * suffix.
   */
  lemma Pad3RoundTrip(n: nat)
    ensures |Pad3(n)| >= 3 && AllDigits(Pad3(n)) && Value(Pad3(n)) == n
  {
    DecimalRoundTrip(n);
    var d := Decimal(n);
    if n < 10 {
      LeadingZeroValue(d);
      LeadingZeroValue("0" + d);
      assert "00" + d == "0" + ("0" + d);
    } else if n < 100 {
      LeadingZeroValue(d);
      assert d == Decimal(n / 10) + [DigitChar(n % 10)];
    } else {
      assert d == Decimal(n / 10) + [DigitChar(n % 10)];
      assert Decimal(n / 10) == Decimal(n / 100) + [DigitChar(n / 10 % 10)];
    }
  }

  lemma Pad3Injective(a: nat, b: nat)
    requires Pad3(a) == Pad3(b)
    ensures a == b
  {
    Pad3RoundTrip(a);
    Pad3RoundTrip(b);
  }

  lemma Pad3Examples()
    ensures Pad3(0) == "000" && Pad3(7) == "007" && Pad3(42) == "042" && Pad3(1234) == "1234"
  {
    assert Decimal(1234) == Decimal(123) + "4";
    assert Decimal(42) == Decimal(4) + "2";
  }

  // ---------------------------------------------------------------------
  // strtok with a one-character delimiter set

  /** The longest prefix of `s` without `sep`: the token `strtok` cuts at `s`. */
  function Word(s: string, sep: char): (w: string)
    ensures |w| <= |s| && w == s[..|w|] && sep !in w
    ensures |w| < |s| ==> s[|w|] == sep
  {
    if s == [] || s[0] == sep then [] else [s[0]] + Word(s[1..], sep)
  }

  /**
   * The tokens successive `strtok(…, sep)` calls return: runs of
   * characters other than `sep`, with empty runs skipped.
   */
  function Fields(s: string, sep: char): seq<string>
    decreases |s|
  {
    if s == [] then []
    else if s[0] == sep then Fields(s[1..], sep)
    else var w := Word(s, sep); [w] + Fields(s[|w|..], sep)
  }

  /** Every token is non-empty and free of the delimiter. */
  lemma {:induction false} FieldsWellFormed(s: string, sep: char)
    ensures forall t :: t in Fields(s, sep) ==> t != [] && sep !in t
    decreases |s|
  {
    if s != [] {
      if s[0] == sep {
        FieldsWellFormed(s[1..], sep);
      } else {
        var w := Word(s, sep);
        assert w != [] by { assert w[0] == s[0]; }
        FieldsWellFormed(s[|w|..], sep);
      }
    }
  }

  /** The tokens joined with single delimiters. */
  function Joined(ts: seq<string>, sep: char): string
  {
    if ts == [] then ""
    else if |ts| == 1 then ts[0]
    else ts[0] + [sep] + Joined(ts[1..], sep)
  }

  lemma {:induction false} WordOfToken(t: string, rest: string, sep: char)
    requires sep !in t
    requires rest == [] || rest[0] == sep
    ensures Word(t + rest, sep) == t
  {
    if t != [] {
      assert (t + rest)[1..] == t[1..] + rest;
      WordOfToken(t[1..], rest, sep);
    }
  }

  /**
   * Tokenising is the inverse of joining: non-empty tokens without the
   * delimiter come back out of `strtok` exactly, in order.
   */
  lemma {:induction false} FieldsJoined(ts: seq<string>, sep: char)
    requires forall t :: t in ts ==> t != [] && sep !in t
    ensures Fields(Joined(ts, sep), sep) == ts
  {
    if ts == [] {
    } else if |ts| == 1 {
      var t := ts[0];
      WordOfToken(t, [], sep);
      assert t + [] == t;
      assert t[|t|..] == [];
    } else {
      var t := ts[0];
      var tail := [sep] + Joined(ts[1..], sep);
      var s := t + tail;
      assert Joined(ts, sep) == s;
      WordOfToken(t, tail, sep);
      assert s[0] == t[0];
      assert s[|t|..] == tail;
      assert tail[1..] == Joined(ts[1..], sep);
      FieldsJoined(ts[1..], sep);
      assert [ts[0]] + ts[1..] == ts;
    }
  }
}
