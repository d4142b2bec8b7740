/**
 * The static round-robin partition of shards over worker processes
 * (`mu_getcoreshardc` / `mu_getcoreshardv`): worker `i` of `n` receives
 * every shard whose index `k` has `k % n == i`, in index order.
 *
 * The C code divides non-negative `int`s only, where C's truncating `/`
 * and `%` agree with Dafny's.
 */
module Partition {
  import Text

  /** Number of shards `mu_getcoreshardc(i, n, c)` assigns to worker `i`. */
  function CoreShardCount(i: int, n: int, c: int): (r: int)
    requires n > 0 && i >= 0 && c >= 0
    ensures 0 <= r <= c / n + 1
  {
    c / n + (if i < c % n then 1 else 0)
  }

  /**
   * Reference definition of worker `i`'s subset: the shards whose index is
   * `i` modulo `n`, in index order (a filter, not a stride).
   */
  function Picked<T>(v: seq<T>, i: nat, n: nat): seq<T>
    requires n > 0
  {
    if v == [] then []
    else Picked(v[..|v| - 1], i, n) + (if Owns(i, n, |v| - 1) then [v[|v| - 1]] else [])
  }

  /** Shard `k` is worker `i`'s: `k % n == i`, by repeated subtraction. */
  predicate Owns(i: nat, n: nat, k: nat)
    requires n > 0
    decreases k
  {
    if k < n then k == i else Owns(i, n, k - n)
  }

  /** The worker that receives shard `s`. */
  function Owner(s: nat, n: nat): (k: nat)
    requires n > 0
    ensures k < n
  {
    s % n
  }

  /** Where shard `s` sits in its worker's subset. */
  function Slot(s: nat, n: nat): nat
    requires n > 0
  {
    s / n
  }

  /** Only shard 0 sits first in worker 0's subset. */
  lemma FirstSlot(s: nat, n: nat)
    requires n > 0
    ensures Owner(s, n) == 0 && Slot(s, n) == 0 <==> s == 0
  {
    DivMod(s, n);
  }

  /** The subsets of all `n` workers, worker 0 first. */
  function Split<T>(v: seq<T>, n: nat): (parts: seq<seq<T>>)
    requires n > 0
    ensures |parts| == n
  {
    seq(n, i requires 0 <= i < n => Picked(v, i, n))
  }

  // ---------------------------------------------------------------------
  // Arithmetic facts about C division on non-negative operands

  lemma MulMono(a: int, b: int, n: int)
    requires a <= b && n >= 0
    ensures a * n <= b * n
  {
    assert b * n - a * n == (b - a) * n;
  }

  /** The quotient and remainder of `x` by `n` are the unique such pair. */
  lemma DivModUnique(x: int, n: int, q: int, r: int)
    requires n > 0 && 0 <= r < n && x == q * n + r
    ensures x / n == q && x % n == r
  {
    var q0, r0 := x / n, x % n;
    assert x == q0 * n + r0;
    var d := q - q0;
    assert d * n == r0 - r;
    if d > 0 {
      MulMono(1, d, n);
      assert false;
    } else if d < 0 {
      MulMono(d, -1, n);
      assert false;
    }
  }

  lemma MulSucc(q: int, n: int)
    ensures (q + 1) * n == q * n + n
  {
  }

  lemma DivMod(k: int, n: int)
    requires n > 0
    ensures k == (k / n) * n + k % n && 0 <= k % n < n
  {
  }

  /** Worker `i` (of any number, `i` possibly `>= n`) never gets an index past its allocation. */
  lemma StrideWithinCount(i: int, n: int, c: int, j: int)
    requires n > 0 && i >= 0 && c >= 0 && j >= 0
    requires j * n + i < c
    ensures j < CoreShardCount(i, n, c)
  {
    var q, r := c / n, c % n;
    assert c == q * n + r;
    if i < r {
      if j >= q + 1 {
        MulMono(q + 1, j, n);
        assert false;
      }
    } else {
      if j >= q {
        MulMono(q, j, n);
        assert false;
      }
    }
  }

  /** For `i < n` the last slot of worker `i`'s allocation is filled. */
  lemma StrideReachesCount(i: int, n: int, c: int, j: int)
    requires 0 <= i < n && c >= 0 && 0 <= j < CoreShardCount(i, n, c)
    ensures j * n + i < c
  {
    var q, r := c / n, c % n;
    assert c == q * n + r;
    if i < r {
      MulMono(j, q, n);
    } else {
      MulMono(j, q - 1, n);
      assert (q - 1) * n == q * n - n;
    }
  }

  /** Adding shard number `c` adds one to exactly the worker `c % n`. */
  lemma CountStep(i: int, n: int, c: int)
    requires 0 <= i < n && c >= 0
    ensures CoreShardCount(i, n, c + 1) == CoreShardCount(i, n, c) + (if c % n == i then 1 else 0)
  {
    var q, r := c / n, c % n;
    DivMod(c, n);
    if r < n - 1 {
      DivModUnique(c + 1, n, q, r + 1);
    } else {
      MulSucc(q, n);
      DivModUnique(c + 1, n, q + 1, 0);
    }
  }

  // ---------------------------------------------------------------------
  // The count formula against the reference definition

  lemma {:induction false} OwnsIsMod(i: nat, n: nat, k: nat)
    requires n > 0
    ensures Owns(i, n, k) <==> k % n == i
    decreases k
  {
    if k >= n {
      OwnsIsMod(i, n, k - n);
      DivMod(k - n, n);
      DivModUnique(k, n, (k - n) / n + 1, (k - n) % n);
    } else {
      DivModUnique(k, n, 0, k);
    }
  }

  /** Appending shard `x` extends exactly the subset of worker `|u| % n`. */
  lemma PickedSnoc<T>(u: seq<T>, x: T, i: nat, n: nat)
    requires n > 0
    ensures Picked(u + [x], i, n) == Picked(u, i, n) + (if |u| % n == i then [x] else [])
  {
    assert (u + [x])[..|u|] == u;
    OwnsIsMod(i, n, |u|);
  }

  /** Worker `i`'s subset has exactly `mu_getcoreshardc(i, n, |v|)` elements. */
  lemma {:induction false} PickedLength<T>(v: seq<T>, i: nat, n: nat)
    requires i < n
    ensures |Picked(v, i, n)| == CoreShardCount(i, n, |v|)
  {
    if v != [] {
      PickedLength(v[..|v| - 1], i, n);
      CountStep(i, n, |v| - 1);
      OwnsIsMod(i, n, |v| - 1);
    }
  }

  /**
   * The `j`-th element of worker `i`'s subset is shard `j * n + i`: the
   * filter and the C stride agree.
   */
  lemma {:induction false} PickedAt<T>(v: seq<T>, i: nat, n: nat, j: nat)
    requires i < n && j < |Picked(v, i, n)|
    ensures j * n + i < |v| && Picked(v, i, n)[j] == v[j * n + i]
  {
    var u := v[..|v| - 1];
    var p := Picked(v, i, n);
    var pu := Picked(u, i, n);
    assert p == pu + (if Owns(i, n, |u|) then [v[|u|]] else []);
    if j < |pu| {
      PickedAt(u, i, n, j);
      assert p[j] == pu[j];
    } else {
      assert Owns(i, n, |u|) && j == |pu| && p[j] == v[|u|];
      assert j * n + i == |u| by {
        PickedLength(u, i, n);
        OwnsIsMod(i, n, |u|);
        DivMod(|u|, n);
        assert |u| == (|u| / n) * n + i;
        assert CoreShardCount(i, n, |u|) == |u| / n;
      }
    }
  }

  /**
   * Shard `k` sits in worker `k % n`'s subset at position `k / n`: no shard
   * is lost.
   */
  lemma EveryShardPicked<T>(v: seq<T>, n: nat, k: nat)
    requires n > 0 && k < |v|
    ensures k / n < |Picked(v, k % n, n)| && Picked(v, k % n, n)[k / n] == v[k]
  {
    var i, j := k % n, k / n;
    DivMod(k, n);
    assert k == j * n + i;
    StridePicked(v, n, i, j);
  }

  /** Shard `j * n + i` is the `j`-th element of worker `i`'s subset. */
  lemma StridePicked<T>(v: seq<T>, n: nat, i: nat, j: nat)
    requires i < n && j * n + i < |v|
    ensures j < |Picked(v, i, n)| && Picked(v, i, n)[j] == v[j * n + i]
  {
    PickedLength(v, i, n);
    StrideWithinCount(i, n, |v|, j);
    PickedAt(v, i, n, j);
  }

  /**
   * Exact partition: shard `k` is placed in slot `k / n` of worker `k % n`
   * (distinct shards get distinct slots), worker `i` has
   * `mu_getcoreshardc(i, n, |v|)` slots, and the slots number exactly
   * `|v|` in all, so no slot is left over and no shard is placed twice.
   */
  lemma ExactPartition<T>(v: seq<T>, n: nat)
    requires n > 0
    ensures forall k :: 0 <= k < |v| ==>
              k / n < |Split(v, n)[k % n]| && Split(v, n)[k % n][k / n] == v[k]
    ensures forall i :: 0 <= i < n ==> |Split(v, n)[i]| == CoreShardCount(i, n, |v|)
    ensures SumCounts(n, |v|, n) == |v|
  {
    ShardPlacement(v, n);
    WorkerSizes(v, n);
    CountsSumToShards(n, |v|);
  }

  lemma ShardPlacement<T>(v: seq<T>, n: nat)
    requires n > 0
    ensures forall k :: 0 <= k < |v| ==>
              k / n < |Split(v, n)[k % n]| && Split(v, n)[k % n][k / n] == v[k]
  {
    forall k | 0 <= k < |v|
      ensures k / n < |Split(v, n)[k % n]| && Split(v, n)[k % n][k / n] == v[k]
    {
      EveryShardPicked(v, n, k);
    }
  }

  lemma WorkerSizes<T>(v: seq<T>, n: nat)
    requires n > 0
    ensures forall i :: 0 <= i < n ==> |Split(v, n)[i]| == CoreShardCount(i, n, |v|)
  {
    forall i | 0 <= i < n
      ensures |Split(v, n)[i]| == CoreShardCount(i, n, |v|)
    {
      PickedLength(v, i, n);
    }
  }

  /** Sum of the counts of the first `m` workers. */
  function SumCounts(n: int, c: int, m: nat): int
    requires n > 0 && c >= 0 && m <= n
  {
    if m == 0 then 0 else SumCounts(n, c, m - 1) + CoreShardCount(m - 1, n, c)
  }

  lemma {:induction false} SumCountsPrefix(n: int, c: int, m: nat)
    requires n > 0 && c >= 0 && m <= n
    ensures SumCounts(n, c, m) == m * (c / n) + (if m < c % n then m else c % n)
  {
    if m > 0 {
      SumCountsPrefix(n, c, m - 1);
      assert m * (c / n) == (m - 1) * (c / n) + c / n;
    }
  }

  /** The counts of all `n` workers add up to the number of shards. */
  lemma CountsSumToShards(n: int, c: int)
    requires n > 0 && c >= 0
    ensures SumCounts(n, c, n) == c
  {
    SumCountsPrefix(n, c, n);
  }

  /** Worker sizes differ by at most one, and lower-numbered workers take the extras. */
  lemma CountsBalanced(i: int, j: int, n: int, c: int)
    requires 0 <= i <= j < n && c >= 0
    ensures CoreShardCount(j, n, c) <= CoreShardCount(i, n, c) <= CoreShardCount(j, n, c) + 1
  {
  }

  /** With at least as many shards as workers, no worker is left without one. */
  lemma NoIdleWorker(i: int, n: int, c: int)
    requires 0 <= i < n <= c
    ensures CoreShardCount(i, n, c) >= 1
  {
    var q := c / n;
    assert c == q * n + c % n;
    if q < 1 {
      MulMono(q, 0, n);
      assert false;
    }
  }

  lemma {:induction false} ConcatUpdate<T>(parts: seq<seq<T>>, i: nat, x: T)
    requires i < |parts|
    ensures multiset(Text.Concat(parts[i := parts[i] + [x]])) == multiset(Text.Concat(parts)) + multiset{x}
  {
    var m := |parts| - 1;
    var updated := parts[i := parts[i] + [x]];
    assert updated[..m] == if i == m then parts[..m] else parts[..m][i := parts[i] + [x]];
    if i < m {
      ConcatUpdate(parts[..m], i, x);
    }
  }

  /**
   * Taken together, the workers' subsets hold exactly the shards, each as
   * many times as it occurs in the list.
   */
  lemma {:induction false} SplitIsPermutation<T>(v: seq<T>, n: nat)
    requires n > 0
    ensures multiset(Text.Concat(Split(v, n))) == multiset(v)
  {
    if v == [] {
      var parts := Split(v, n);
      assert forall i :: 0 <= i < n ==> parts[i] == [];
      ConcatEmpties(parts);
    } else {
      var u, x := v[..|v| - 1], v[|v| - 1];
      SplitIsPermutation(u, n);
      var i0 := |u| % n;
      assert v == u + [x];
      forall i | 0 <= i < n
        ensures Split(v, n)[i] == Split(u, n)[i0 := Split(u, n)[i0] + [x]][i]
      {
        PickedSnoc(u, x, i, n);
      }
      assert Split(v, n) == Split(u, n)[i0 := Split(u, n)[i0] + [x]];
      ConcatUpdate(Split(u, n), i0, x);
      assert v == u + [x];
    }
  }

  lemma {:induction false} ConcatEmpties<T>(parts: seq<seq<T>>)
    requires forall i :: 0 <= i < |parts| ==> parts[i] == []
    ensures Text.Concat(parts) == []
  {
    if parts != [] {
      ConcatEmpties(parts[..|parts| - 1]);
    }
  }

  /** A sequence that holds shard `j * n + i` at every `j` below the count is worker `i`'s subset. */
  lemma StrideIsPicked<T>(v: seq<T>, i: nat, n: nat, s: seq<T>)
    requires i < n && |s| == CoreShardCount(i, n, |v|)
    requires forall j :: 0 <= j < |s| ==> j * n + i < |v| && s[j] == v[j * n + i]
    ensures s == Picked(v, i, n)
  {
    PickedLength(v, i, n);
    forall j | 0 <= j < |s|
      ensures s[j] == Picked(v, i, n)[j]
    {
      PickedAt(v, i, n, j);
    }
  }

  /** The C loop stops exactly when worker `i < n` has filled its allocation. */
  lemma StrideStopsAtCount(i: int, n: int, c: int, idx: int)
    requires 0 <= i < n && c >= 0 && 0 <= idx <= CoreShardCount(i, n, c)
    requires idx * n + i >= c
    ensures idx == CoreShardCount(i, n, c)
  {
    if idx < CoreShardCount(i, n, c) {
      StrideReachesCount(i, n, c, idx);
      assert false;
    }
  }

  /**
   * `mu_getcoreshardv`: allocates `mu_getcoreshardc(i, n, c)` slots and
   * copies `v[i], v[i + n], …` while the index stays below `c`.  For
   * `i >= n` the loop may stop before the last slot; a slot it never writes
   * is left as the empty string here (uninitialised memory in C).
   */
  method GetCoreShards(i: int, n: int, c: int, v: array<string>) returns (result: array<string>)
    requires n > 0 && i >= 0 && 0 <= c <= v.Length
    ensures fresh(result) && result.Length == CoreShardCount(i, n, c)
    ensures forall j :: 0 <= j < result.Length && j * n + i < c ==> result[j] == v[j * n + i]
    ensures i < n ==> result[..] == Picked(v[..c], i, n)
  {
    var shardc := CoreShardCount(i, n, c);
    result := new string[shardc];
    var idx := 0;
    while idx * n + i < c
      invariant 0 <= idx <= shardc
      invariant forall j :: 0 <= j < idx ==> j * n + i < c && result[j] == v[j * n + i]
      decreases c - idx * n
    {
      StrideWithinCount(i, n, c, idx);
      var k := idx * n + i;
      result[idx] := v[k];
      MulSucc(idx, n);
      idx := idx + 1;
    }
    if i < n {
      StrideStopsAtCount(i, n, c, idx);
      StrideIsPicked(v[..c], i, n, result[..]);
    }
  }
}
