/**
 * The cursor-and-`snprintf` idiom the library uses for every text it
 * builds in memory: the global warning buffer (`MU_WARN`) and the local
 * script buffers (`MU_PRINTBUF`).  `snprintf(buf + cursor, size - cursor,
 * ...)` stores at most `size - cursor - 1` characters and a terminator, but
 * returns the length the text WOULD have had, and the cursor advances by
 * that length; once the cursor reaches the size nothing more is printed.
 */
module PrintBuffer {
  import opened Wrappers
  import Text

  /** What the buffer holds up to its terminator, and the cursor. */
  datatype Printed = Printed(text: string, cursor: nat)

  const Empty := Printed([], 0)

  function Min(a: int, b: int): int { if a < b then a else b }

  /** One guarded `snprintf` at the cursor. */
  function Step(b: Printed, size: nat, piece: string): Printed
    requires size > 0
  {
    if b.cursor < size then
      Printed(b.text + piece[..Min(|piece|, size - 1 - b.cursor)], b.cursor + |piece|)
    else b
  }

  /** A sequence of prints into an empty buffer of `size` bytes. */
  function Run(pieces: seq<string>, size: nat): Printed
    requires size > 0
  {
    if |pieces| == 0 then Empty
    else Step(Run(pieces[..|pieces| - 1], size), size, pieces[|pieces| - 1])
  }

  /**
   * What a run leaves behind, in terms of the text the prints would have
   * produced without a bound: the buffer holds the longest prefix that fits
   * with its terminator, and the cursor stays below the size exactly when
   * nothing was cut, in which case it is the full length.
   */
  lemma {:induction false} RunMeaning(pieces: seq<string>, size: nat)
    requires size > 0
    ensures var r, all := Run(pieces, size), Text.Concat(pieces);
            r.text == all[..Min(|all|, size - 1)]
            && (r.cursor < size <==> |all| < size)
            && (|all| < size ==> r.cursor == |all|)
            && r.cursor <= |all|
  {
    if |pieces| > 0 {
      var init, last := pieces[..|pieces| - 1], pieces[|pieces| - 1];
      RunMeaning(init, size);
      assert pieces == init + [last];
      Text.ConcatAppend(init, [last]);
      Text.ConcatOne(last);
      var prev, all0 := Run(init, size), Text.Concat(init);
      var all := Text.Concat(pieces);
      assert all == all0 + last;
      if prev.cursor < size {
        assert prev.text == all0;
        var k := Min(|last|, size - 1 - |all0|);
        assert all[..Min(|all|, size - 1)] == all0 + last[..k];
      } else {
        assert all[..size - 1] == all0[..size - 1];
      }
    }
  }

  /** Once the cursor has reached the size, further prints change nothing. */
  lemma {:induction false} RunSaturates(pieces: seq<string>, more: seq<string>, size: nat)
    requires size > 0 && Run(pieces, size).cursor >= size
    ensures Run(pieces + more, size) == Run(pieces, size)
  {
    if |more| > 0 {
      var init := more[..|more| - 1];
      assert (pieces + more)[..|pieces + more| - 1] == pieces + init;
      RunSaturates(pieces, init, size);
    } else {
      assert pieces + more == pieces;
    }
  }

  /** The test every caller should make: the cursor stayed below the size. */
  predicate Fits(r: Printed, size: nat)
  {
    r.cursor < size
  }

  /** A run that fits holds exactly the text printed, and only such a run fits. */
  lemma FitsMeansComplete(pieces: seq<string>, size: nat)
    requires size > 0
    ensures Fits(Run(pieces, size), size) <==> |Text.Concat(pieces)| < size
    ensures Fits(Run(pieces, size), size) ==> Run(pieces, size).text == Text.Concat(pieces)
  {
    RunMeaning(pieces, size);
  }

  /** The test the script builders make instead: `cursor > bufsize` is the error. */
  predicate AcceptsAsWritten(r: Printed, size: nat)
  {
    !(r.cursor > size)
  }

  /**
   * That test lets through exactly the runs whose cursor stopped on the
   * size: the buffer then holds one character less than it can, and the
   * text is a proper prefix of what was printed.
   */
  lemma AsWrittenAcceptsTruncated(pieces: seq<string>, size: nat)
    requires size > 0
    ensures var r := Run(pieces, size);
            AcceptsAsWritten(r, size) && !Fits(r, size) <==> r.cursor == size
    ensures var r, all := Run(pieces, size), Text.Concat(pieces);
            AcceptsAsWritten(r, size) && !Fits(r, size) ==> |r.text| == size - 1 && r.text < all
  {
    RunMeaning(pieces, size);
  }

  /** A four-byte buffer given `abc` then `d`: the `d` is dropped and the run is accepted. */
  lemma AsWrittenExample()
    ensures Run(["abc", "d"], 4) == Printed("abc", 4)
    ensures AcceptsAsWritten(Run(["abc", "d"], 4), 4) && Text.Concat(["abc", "d"]) == "abcd"
  {
    assert ["abc", "d"][..1] == ["abc"];
    assert ["abc"][..0] == [];
    assert Run(["abc"], 4) == Printed("abc", 3);
    Text.ConcatAppend(["abc"], ["d"]);
    assert ["abc"] + ["d"] == ["abc", "d"];
    Text.ConcatOne("abc");
    Text.ConcatOne("d");
  }

  // ---------------------------------------------------------------------
  // The warning buffer

  /** `mu_error_len`: `snprintf` is given 8191 bytes of the 8192-byte buffer. */
  const ErrorLen := 8191

  /** `mu_error_string`: the buffer when anything was recorded since the last clear, else NULL. */
  function ErrorString(b: Printed): Option<string>
  {
    if b.cursor == 0 then None else Some(b.text)
  }

  lemma ErrorStringMeaning(warnings: seq<string>)
    ensures var e, all := ErrorString(Run(warnings, ErrorLen)), Text.Concat(warnings);
            (e == None <==> all == [])
            && (e.Some? ==> e.value == all[..Min(|all|, ErrorLen - 1)])
  {
    RunMeaning(warnings, ErrorLen);
  }

  /**
   * The process-wide warning buffer: `MU_WARN` appends, `mu_error_clear`
   * resets the cursor, `mu_error_string` reports.
   */
  class WarningBuffer {
    var text: string
    var cursor: nat
    ghost var warnings: seq<string>

    ghost predicate Valid()
      reads this
    {
      Printed(text, cursor) == Run(warnings, ErrorLen)
    }

    constructor ()
      ensures Valid() && warnings == []
    {
      text, cursor := [], 0;
      warnings := [];
    }

    /** `MU_WARN`. */
    method Warn(msg: string)
      requires Valid()
      modifies this
      ensures Valid() && warnings == old(warnings) + [msg]
      ensures Printed(text, cursor) == Step(old(Printed(text, cursor)), ErrorLen, msg)
    {
      if cursor < ErrorLen {
        text := text + msg[..Min(|msg|, ErrorLen - 1 - cursor)];
        cursor := cursor + |msg|;
      }
      warnings := warnings + [msg];
      assert warnings[..|warnings| - 1] == old(warnings);
    }

    /** `mu_error_clear`. */
    method Clear()
      modifies this
      ensures Valid() && warnings == [] && Current() == None
    {
      text, cursor := [], 0;
      warnings := [];
    }

    /** `mu_error_string`. */
    function Current(): (e: Option<string>)
      reads this
      requires Valid()
      ensures e == None <==> Text.Concat(warnings) == []
      ensures e.Some? ==> e.value <= Text.Concat(warnings) && |e.value| < ErrorLen
    {
      ErrorStringMeaning(warnings);
      RunMeaning(warnings, ErrorLen);
      ErrorString(Printed(text, cursor))
    }
  }

  /**
   * A local script buffer (`MU_PRINTBUF`): the callers allocate `size`
   * bytes, print piece after piece and then test the cursor.
   */
  class ScriptBuffer {
    const size: nat
    var text: string
    var cursor: nat
    ghost var pieces: seq<string>

    ghost predicate Valid()
      reads this
    {
      size > 0 && Printed(text, cursor) == Run(pieces, size)
    }

    constructor (size: nat)
      requires size > 0
      ensures Valid() && this.size == size && pieces == []
    {
      this.size := size;
      text, cursor := [], 0;
      pieces := [];
    }

    /** `MU_PRINTBUF`. */
    method Print(piece: string)
      requires Valid()
      modifies this
      ensures Valid() && pieces == old(pieces) + [piece]
    {
      if cursor < size {
        text := text + piece[..Min(|piece|, size - 1 - cursor)];
        cursor := cursor + |piece|;
      }
      pieces := pieces + [piece];
      assert pieces[..|pieces| - 1] == old(pieces);
    }

    /** Prints each piece in turn. */
    method PrintAll(more: seq<string>)
      requires Valid()
      modifies this
      ensures Valid() && pieces == old(pieces) + more
    {
      var i := 0;
      while i < |more|
        invariant 0 <= i <= |more|
        invariant Valid() && pieces == old(pieces) + more[..i]
      {
        Print(more[i]);
        assert more[..i + 1] == more[..i] + [more[i]];
        i := i + 1;
      }
      assert more[..|more|] == more;
    }
  }
}
