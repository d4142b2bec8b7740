/**
 * The order in which a query starts and waits for its `sqlite3`
 * processes, as a sequence of events.  Processes themselves are not
 * modelled; each library's query function is proved to produce a trace
 * of this vocabulary.
 */
module Trace {
  import opened Wrappers

  datatype Event = StartMap(k: nat) | FinishMap(k: nat) | StartReduce | FinishReduce | RemoveTemp

  /** Starting map workers `0 .. n-1` in index order. */
  function Starts(n: nat): (t: seq<Event>)
    ensures |t| == n && forall k :: 0 <= k < n ==> t[k] == StartMap(k)
  {
    seq(n, k requires 0 <= k < n => StartMap(k))
  }

  lemma StartsNext(n: nat)
    ensures Starts(n + 1) == Starts(n) + [StartMap(n)]
  {
  }

  /** Waiting for the first `m` workers after starting `n`, then the tail, is a run. */
  lemma RunThen(n: nat, m: nat, tail: seq<Event>)
    ensures Run(n, 0, []) + Finishes(m) + tail == Run(n, m, tail)
  {
    assert Finishes(0) == [];
    assert Run(n, 0, []) == Starts(n);
  }

  /** Waiting for map workers `0 .. n-1` in index order. */
  function Finishes(n: nat): (t: seq<Event>)
    ensures |t| == n && forall k :: 0 <= k < n ==> t[k] == FinishMap(k)
  {
    seq(n, k requires 0 <= k < n => FinishMap(k))
  }

  /** The reduce process starts only once every one of the `n` map workers has been waited for. */
  ghost predicate ReduceAfterMaps(trace: seq<Event>, n: nat)
  {
    forall i, k :: 0 <= i < |trace| && trace[i] == StartReduce && 0 <= k < n ==> FinishMap(k) in trace[..i]
  }

  /** No process is waited for before it was started, and none is started twice. */
  ghost predicate WellNested(trace: seq<Event>)
  {
    (forall i :: 0 <= i < |trace| && trace[i].FinishMap? ==> StartMap(trace[i].k) in trace[..i])
    && (forall i :: 0 <= i < |trace| && trace[i] == FinishReduce ==> StartReduce in trace[..i])
    && (forall i, j :: 0 <= i < j < |trace| && trace[i].StartMap? ==> trace[j] != trace[i])
    && (forall i, j :: 0 <= i < j < |trace| && trace[i] == StartReduce ==> trace[j] != StartReduce)
  }

  /** The map workers started but never waited for: the zombies a trace leaves. */
  ghost function Unreaped(trace: seq<Event>): set<nat>
  {
    set e | e in trace && e.StartMap? && FinishMap(e.k) !in trace :: e.k
  }

  /** What may follow the map phase: nothing, the reducer, the clean-up, or both. */
  predicate IsTail(tail: seq<Event>)
  {
    tail == [] || tail == [RemoveTemp] || tail == [StartReduce, FinishReduce]
    || tail == [StartReduce, FinishReduce, RemoveTemp]
  }

  /**
   * A run that started `n` workers and waited for the first `m` of them,
   * followed (only when all were waited for) by a tail.
   */
  function Run(n: nat, m: nat, tail: seq<Event>): seq<Event>
  {
    Starts(n) + Finishes(m) + tail
  }

  lemma RunAt(n: nat, m: nat, tail: seq<Event>, i: nat)
    requires IsTail(tail) && i < |Run(n, m, tail)|
    ensures i < n ==> Run(n, m, tail)[i] == StartMap(i)
    ensures n <= i < n + m ==> Run(n, m, tail)[i] == FinishMap(i - n)
    ensures n + m <= i ==> Run(n, m, tail)[i] == tail[i - n - m] && !Run(n, m, tail)[i].StartMap? && !Run(n, m, tail)[i].FinishMap?
    ensures Run(n, m, tail)[i] == StartReduce ==> i == n + m
    ensures Run(n, m, tail)[i] == FinishReduce ==> i == n + m + 1 && Run(n, m, tail)[n + m] == StartReduce
  {
  }

  /** Such a run is well nested. */
  lemma RunWellNested(n: nat, m: nat, tail: seq<Event>)
    requires m <= n && IsTail(tail)
    ensures WellNested(Run(n, m, tail))
  {
    var t := Run(n, m, tail);
    forall i | 0 <= i < |t| && t[i].FinishMap?
      ensures StartMap(t[i].k) in t[..i]
    {
      RunAt(n, m, tail, i);
      RunAt(n, m, tail, t[i].k);
      assert t[..i][t[i].k] == StartMap(t[i].k);
    }
    forall i | 0 <= i < |t| && t[i] == FinishReduce
      ensures StartReduce in t[..i]
    {
      RunAt(n, m, tail, i);
      assert t[..i][n + m] == StartReduce;
    }
    forall i, j | 0 <= i < j < |t| && t[i].StartMap?
      ensures t[j] != t[i]
    {
      RunAt(n, m, tail, i);
      RunAt(n, m, tail, j);
    }
    forall i, j | 0 <= i < j < |t| && t[i] == StartReduce
      ensures t[j] != StartReduce
    {
      RunAt(n, m, tail, i);
      RunAt(n, m, tail, j);
    }
  }

  /** Such a run leaves exactly workers `m .. n-1` unreaped. */
  lemma RunUnreaped(n: nat, m: nat, tail: seq<Event>, k: nat)
    requires m <= n && IsTail(tail)
    ensures k in Unreaped(Run(n, m, tail)) <==> m <= k < n
  {
    var t := Run(n, m, tail);
    if k in Unreaped(t) {
      var e :| e in t && e.StartMap? && FinishMap(e.k) !in t && e.k == k;
      var i :| 0 <= i < |t| && t[i] == e;
      RunAt(n, m, tail, i);
    }
    if FinishMap(k) in t {
      var i :| 0 <= i < |t| && t[i] == FinishMap(k);
      RunAt(n, m, tail, i);
    }
    if k < n {
      assert t[k] == StartMap(k);
      if k < m {
        assert t[n + k] == FinishMap(k);
      } else {
        assert StartMap(k) in t;
      }
    }
  }

  /** A run that waited for every worker starts the reducer only after all of them. */
  lemma RunReduceAfterMaps(n: nat, tail: seq<Event>)
    requires IsTail(tail)
    ensures ReduceAfterMaps(Run(n, n, tail), n)
  {
    var t := Run(n, n, tail);
    forall i, k | 0 <= i < |t| && t[i] == StartReduce && 0 <= k < n
      ensures FinishMap(k) in t[..i]
    {
      RunAt(n, n, tail, i);
      assert t[..i][n + k] == FinishMap(k);
    }
  }

  /** A run without a tail never starts the reducer. */
  lemma RunWithoutTail(n: nat, m: nat, total: nat)
    ensures StartReduce !in Run(n, m, []) && ReduceAfterMaps(Run(n, m, []), total)
  {
    var t := Run(n, m, []);
    forall i | 0 <= i < |t|
      ensures t[i] != StartReduce
    {
      RunAt(n, m, [], i);
    }
  }

  /** Index of the first missing entry, or the length when there is none: where a loop that stops at the first failure stops. */
  function FirstNone<T>(s: seq<Option<T>>): (r: nat)
    ensures r <= |s| && (forall k :: 0 <= k < r ==> s[k].Some?) && (r < |s| ==> s[r].None?)
  {
    if s == [] || s[0].None? then 0 else 1 + FirstNone(s[1..])
  }

  /** Index of the first `true`, or the length when there is none. */
  function FirstTrue(s: seq<bool>): (r: nat)
    ensures r <= |s| && (forall k :: 0 <= k < r ==> !s[k]) && (r < |s| ==> s[r])
  {
    if s == [] || s[0] then 0 else 1 + FirstTrue(s[1..])
  }

  /** The two properties above pin the index down. */
  lemma FirstNoneUnique<T>(s: seq<Option<T>>, r: nat)
    requires r <= |s| && (forall k :: 0 <= k < r ==> s[k].Some?) && (r < |s| ==> s[r].None?)
    ensures FirstNone(s) == r
  {
    var f := FirstNone(s);
    if f < r {
      assert false;
    } else if r < f {
      assert false;
    }
  }

  /** The first `None` is past the end exactly when there is none. */
  lemma FirstNoneAll<T>(s: seq<Option<T>>)
    ensures FirstNone(s) == |s| <==> forall k :: 0 <= k < |s| ==> s[k].Some?
  {
    if forall k :: 0 <= k < |s| ==> s[k].Some? {
      FirstNoneUnique(s, |s|);
    }
  }

  lemma FirstTrueUnique(s: seq<bool>, r: nat)
    requires r <= |s| && (forall k :: 0 <= k < r ==> !s[k]) && (r < |s| ==> s[r])
    ensures FirstTrue(s) == r
  {
    var f := FirstTrue(s);
    if f < r {
      assert false;
    } else if r < f {
      assert false;
    }
  }
}
