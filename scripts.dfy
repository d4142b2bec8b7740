/**
 * What every map-script builder shares: a loop over a worker's shard
 * list that skips NULL entries and emits one block of commands per shard.
 * A block is a sequence of pieces, one per print call.
 */
module Scripts {
  import opened Wrappers
  import Text
  import PrintBuffer

  /** The non-NULL entries of a shard list, each with its index. */
  function Present(shardv: seq<Option<string>>): (ps: seq<(nat, string)>)
  {
    if shardv == [] then []
    else
      var init := shardv[..|shardv| - 1];
      Present(init) + (if shardv[|shardv| - 1].Some? then [(|init|, shardv[|shardv| - 1].value)] else [])
  }

  /** A list as it arrives from the partitioner: every entry present. */
  function AllPresent(names: seq<string>): (shardv: seq<Option<string>>)
  {
    seq(|names|, k requires 0 <= k < |names| => Some(names[k]))
  }

  /** Without NULL entries, the j-th present shard is the j-th name, at index j. */
  lemma {:induction false} PresentOfAll(names: seq<string>)
    ensures |Present(AllPresent(names))| == |names|
    ensures forall j :: 0 <= j < |names| ==> Present(AllPresent(names))[j] == (j, names[j])
  {
    if names != [] {
      var init := names[..|names| - 1];
      assert AllPresent(names)[..|names| - 1] == AllPresent(init);
      PresentOfAll(init);
    }
  }

  /** The commands emitted for the shards, in order, skipping NULL entries. */
  function ShardBlocks(shardv: seq<Option<string>>, block: (nat, string) -> seq<string>): seq<string>
  {
    if shardv == [] then []
    else
      var init := shardv[..|shardv| - 1];
      ShardBlocks(init, block) + (if shardv[|shardv| - 1].Some? then block(|init|, shardv[|shardv| - 1].value) else [])
  }

  /** Where block `j` begins when every block has `width` pieces: `j * width`, by repeated addition. */
  function Offset(j: nat, width: nat): nat
  {
    if j == 0 then 0 else Offset(j - 1, width) + width
  }

  lemma {:induction false} OffsetIsProduct(j: nat, width: nat)
    ensures Offset(j, width) == j * width
  {
    if j > 0 {
      OffsetIsProduct(j - 1, width);
    }
  }

  /**
   * When every block has the same number of pieces, piece `m` of the
   * `j`-th block sits at `Offset(j, width) + m` and belongs to the `j`-th
   * present shard: the script can be read back shard by shard.
   */
  lemma {:induction false} BlockLayout(shardv: seq<Option<string>>, block: (nat, string) -> seq<string>, width: nat,
                                       j: nat, m: nat)
    requires forall i, s :: |block(i, s)| == width
    requires j < |Present(shardv)| && m < width
    ensures |ShardBlocks(shardv, block)| == Offset(|Present(shardv)|, width)
    ensures Offset(j, width) + m < |ShardBlocks(shardv, block)|
    ensures ShardBlocks(shardv, block)[Offset(j, width) + m] == block(Present(shardv)[j].0, Present(shardv)[j].1)[m]
  {
    var init := shardv[..|shardv| - 1];
    var ps := Present(init);
    var head := ShardBlocks(init, block);
    var tail := if shardv[|shardv| - 1].Some? then block(|init|, shardv[|shardv| - 1].value) else [];
    var i := Offset(j, width) + m;
    BlocksLength(shardv, block, width);
    assert ShardBlocks(shardv, block) == head + tail;
    if j < |ps| {
      BlockLayout(init, block, width, j, m);
      assert Present(shardv)[j] == ps[j];
    } else {
      assert j == |ps| && shardv[|shardv| - 1].Some?;
      assert Present(shardv)[j] == (|init|, shardv[|shardv| - 1].value);
      BlocksLength(init, block, width);
      assert (head + tail)[|head| + m] == tail[m];
    }
  }

  /**
   * The same read-back for a list without NULL entries, block by block:
   * the `j`-th run of `width` pieces is the `j`-th name's block.
   */
  lemma {:induction false} BlockLayoutAll(names: seq<string>, block: (nat, string) -> seq<string>, width: nat, j: nat)
    requires forall i, s :: |block(i, s)| == width
    requires j < |names|
    ensures |ShardBlocks(AllPresent(names), block)| == Offset(|names|, width)
    ensures Offset(j, width) + width <= |ShardBlocks(AllPresent(names), block)|
    ensures ShardBlocks(AllPresent(names), block)[Offset(j, width)..Offset(j, width) + width] == block(j, names[j])
  {
    var n := |names|;
    var init := names[..n - 1];
    var head := ShardBlocks(AllPresent(init), block);
    var last := block(n - 1, names[n - 1]);
    var o := Offset(j, width);
    assert AllPresent(names)[..n - 1] == AllPresent(init);
    assert ShardBlocks(AllPresent(names), block) == head + last;
    BlocksLengthAll(init, block, width);
    if j < n - 1 {
      BlockLayoutAll(init, block, width, j);
      assert (head + last)[o..o + width] == head[o..o + width];
    } else {
      assert (head + last)[o..o + width] == last;
    }
  }

  /** Block by block, with NULL entries: the `j`-th run of `width` pieces is the `j`-th present shard's block. */
  lemma BlockSlice(shardv: seq<Option<string>>, block: (nat, string) -> seq<string>, width: nat, j: nat)
    requires forall i, s :: |block(i, s)| == width
    requires j < |Present(shardv)|
    ensures |ShardBlocks(shardv, block)| == Offset(|Present(shardv)|, width)
    ensures Offset(j, width) + width <= |ShardBlocks(shardv, block)|
    ensures ShardBlocks(shardv, block)[Offset(j, width)..Offset(j, width) + width]
            == block(Present(shardv)[j].0, Present(shardv)[j].1)
  {
    var blocks, o := ShardBlocks(shardv, block), Offset(j, width);
    BlocksLength(shardv, block, width);
    OffsetIsProduct(j, width);
    OffsetIsProduct(|Present(shardv)|, width);
    MulMono(j + 1, |Present(shardv)|, width);
    forall m | 0 <= m < width
      ensures blocks[o..o + width][m] == block(Present(shardv)[j].0, Present(shardv)[j].1)[m]
    {
      BlockLayout(shardv, block, width, j, m);
    }
  }

  /** A run of pieces keeps its contents when a head piece is put in front. */
  lemma SliceAfterHead(head: string, blocks: seq<string>, o: nat, w: nat)
    requires o + w <= |blocks|
    ensures ([head] + blocks)[1 + o..1 + o + w] == blocks[o..o + w]
  {
  }

  /** A block read back piece by piece: its first piece, its middle run and its last piece. */
  lemma BlockParts(p: seq<string>, o: nat, w: nat, first: string, middle: seq<string>, last: string)
    requires w == |middle| + 2 && o + w <= |p| && p[o..o + w] == [first] + middle + [last]
    ensures p[o] == first && p[o + 1..o + 1 + |middle|] == middle && p[o + 1 + |middle|] == last
  {
    var b := p[o..o + w];
    assert p[o] == b[0];
    assert p[o + 1 + |middle|] == b[|middle| + 1];
    forall i | o + 1 <= i < o + 1 + |middle|
      ensures p[i] == middle[i - o - 1]
    {
      assert p[i] == b[i - o];
    }
    assert p[o + 1..o + 1 + |middle|] == middle;
  }

  /** A run inside the first part of a concatenation is a run of that part. */
  lemma SliceOfFront(a: seq<string>, b: seq<string>, o: nat, w: nat)
    requires o + w <= |a|
    ensures (a + b)[o..o + w] == a[o..o + w]
  {
    forall i | o <= i < o + w
      ensures (a + b)[i] == a[i]
    {
    }
    assert (a + b)[o..o + w] == a[o..o + w];
  }

  /** The second part of a concatenation read back. */
  lemma SliceOfBack(a: seq<string>, b: seq<string>)
    ensures (a + b)[|a|..|a| + |b|] == b
  {
    forall i | |a| <= i < |a| + |b|
      ensures (a + b)[i] == b[i - |a|]
    {
    }
    assert (a + b)[|a|..|a| + |b|] == b;
  }

  lemma MulMono(a: nat, b: nat, w: nat)
    requires a <= b
    ensures a * w <= b * w
  {
  }

  /** Piece `m` of block `j`, for a list without NULL entries. */
  lemma BlockPieceAll(names: seq<string>, block: (nat, string) -> seq<string>, width: nat, j: nat, m: nat)
    requires forall i, s :: |block(i, s)| == width
    requires j < |names| && m < width
    ensures Offset(j, width) + m < |ShardBlocks(AllPresent(names), block)|
    ensures ShardBlocks(AllPresent(names), block)[Offset(j, width) + m] == block(j, names[j])[m]
  {
    PresentOfAll(names);
    BlockLayout(AllPresent(names), block, width, j, m);
  }

  lemma {:induction false} BlocksLengthAll(names: seq<string>, block: (nat, string) -> seq<string>, width: nat)
    requires forall i, s :: |block(i, s)| == width
    ensures |ShardBlocks(AllPresent(names), block)| == Offset(|names|, width)
  {
    if names != [] {
      var init := names[..|names| - 1];
      assert AllPresent(names)[..|names| - 1] == AllPresent(init);
      BlocksLengthAll(init, block, width);
    }
  }

  /**
   * Blocks `1 .. m - 1` of a numbered family, in order: one block per
   * worker after the first.
   */
  function Numbered(m: nat, block: nat -> seq<string>): seq<string>
  {
    if m <= 1 then [] else Numbered(m - 1, block) + block(m - 1)
  }

  /** Block `k` of a numbered family of equal-width blocks starts at `Offset(k - 1, width)`. */
  lemma {:induction false} NumberedLayout(m: nat, block: nat -> seq<string>, width: nat, k: nat)
    requires forall i :: 1 <= i < m ==> |block(i)| == width
    requires 1 <= k < m
    ensures Offset(k - 1, width) + width <= |Numbered(m, block)|
    ensures Numbered(m, block)[Offset(k - 1, width)..Offset(k - 1, width) + width] == block(k)
  {
    var prev, last := Numbered(m - 1, block), block(m - 1);
    var o := Offset(k - 1, width);
    assert Numbered(m, block) == prev + last;
    NumberedLength(m - 1, block, width);
    if k < m - 1 {
      NumberedLayout(m - 1, block, width, k);
      SliceOfFront(prev, last, o, width);
    } else {
      SliceOfBack(prev, last);
    }
  }

  lemma {:induction false} NumberedLength(m: nat, block: nat -> seq<string>, width: nat)
    requires forall i :: 1 <= i < m ==> |block(i)| == width
    ensures |Numbered(m, block)| == if m <= 1 then 0 else Offset(m - 1, width)
  {
    if m > 1 {
      NumberedLength(m - 1, block, width);
    }
  }

  lemma {:induction false} BlocksLength(shardv: seq<Option<string>>, block: (nat, string) -> seq<string>, width: nat)
    requires forall i, s :: |block(i, s)| == width
    ensures |ShardBlocks(shardv, block)| == Offset(|Present(shardv)|, width)
  {
    if shardv != [] {
      BlocksLength(shardv[..|shardv| - 1], block, width);
    }
  }

  /** The shared loop, for builders that write each piece straight to the file. */
  method WriteShardBlocks(shardv: seq<Option<string>>, block: (nat, string) -> seq<string>)
    returns (written: seq<string>)
    ensures written == ShardBlocks(shardv, block)
  {
    written := [];
    var i := 0;
    while i < |shardv|
      invariant 0 <= i <= |shardv|
      invariant written == ShardBlocks(shardv[..i], block)
    {
      if shardv[i].Some? {
        written := written + block(i, shardv[i].value);
      }
      assert shardv[..i + 1][..i] == shardv[..i];
      i := i + 1;
    }
    assert shardv[..i] == shardv;
  }

  /** The shared loop, for builders that print into a bounded buffer. */
  method PrintShardBlocks(buf: PrintBuffer.ScriptBuffer, shardv: seq<Option<string>>, block: (nat, string) -> seq<string>)
    requires buf.Valid()
    modifies buf
    ensures buf.Valid() && buf.pieces == old(buf.pieces) + ShardBlocks(shardv, block)
  {
    var i := 0;
    while i < |shardv|
      invariant 0 <= i <= |shardv|
      invariant buf.Valid() && buf.pieces == old(buf.pieces) + ShardBlocks(shardv[..i], block)
    {
      if shardv[i].Some? {
        buf.PrintAll(block(i, shardv[i].value));
      }
      assert shardv[..i + 1][..i] == shardv[..i];
      i := i + 1;
    }
    assert shardv[..i] == shardv;
  }
}
