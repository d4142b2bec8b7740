/**
 * What a query of the libraries without failure handling leaves behind:
 * the order of its processes, the map script written for each worker and
 * the reduce script.  These queries start every worker, wait for every
 * one of them with `waitpid` whatever its status, and only then run the
 * reducer.
 */
module Runs {
  import opened Wrappers
  import Trace

  /**
   * The process order, each worker's map script (`None` where the builder
   * refused to write one; the worker is started on the missing file all
   * the same) and the reduce script, when there is a reduce statement.
   */
  datatype Run = Run(trace: seq<Trace.Event>, mapFiles: seq<Option<seq<string>>>, reduceFile: Option<seq<string>>)

  /** The reducer's two events, when there is a reduce statement. */
  function ReduceEvents(reducing: bool): (t: seq<Trace.Event>)
    ensures Trace.IsTail(t)
    ensures reducing <==> Trace.StartReduce in t
  {
    if reducing then [Trace.StartReduce, Trace.FinishReduce] else []
  }

  /** The wait loop: `waitpid` on workers `0 .. n-1` in index order. */
  method WaitAll(started: seq<Trace.Event>, n: nat) returns (trace: seq<Trace.Event>)
    ensures trace == started + Trace.Finishes(n)
  {
    trace := started;
    var k := 0;
    while k < n
      invariant 0 <= k <= n
      invariant trace == started + Trace.Finishes(k)
    {
      assert Trace.Finishes(k + 1) == Trace.Finishes(k) + [Trace.FinishMap(k)];
      trace := trace + [Trace.FinishMap(k)];
      k := k + 1;
    }
  }

  /**
   * The order such a query keeps: every worker is waited for after it was
   * started, the reducer starts only once all `n` were waited for, and no
   * worker is left unreaped.
   */
  lemma WaitedRunOrder(n: nat, reducing: bool)
    ensures Trace.WellNested(Trace.Run(n, n, ReduceEvents(reducing)))
    ensures Trace.ReduceAfterMaps(Trace.Run(n, n, ReduceEvents(reducing)), n)
    ensures Trace.Unreaped(Trace.Run(n, n, ReduceEvents(reducing))) == {}
    ensures reducing <==> Trace.StartReduce in Trace.Run(n, n, ReduceEvents(reducing))
  {
    var tail := ReduceEvents(reducing);
    var t := Trace.Run(n, n, tail);
    Trace.RunWellNested(n, n, tail);
    Trace.RunReduceAfterMaps(n, tail);
    forall k | k in Trace.Unreaped(t)
      ensures false
    {
      Trace.RunUnreaped(n, n, tail, k);
    }
    if reducing {
      assert t[n + n] == Trace.StartReduce;
    } else {
      Trace.RunWithoutTail(n, n, n);
    }
  }
}
