/** Scout::print_results (lines 153-171): the totals over all workers and the
    throughput figure, with the clock readings passed in and the printing
    left to the caller. */
module Results {
  import opened ScoutTypes

  /** The four figures the report shows. */
  datatype Report = Report(moves: nat, matches: nat, movesPerSecond: nat, elapsed: nat)

  /** Moves replayed by all the listed workers. */
  function SumMoves(threads: seq<Data>): nat
    reads threads
  {
    if threads == [] then 0 else threads[0].movesCnt + SumMoves(threads[1..])
  }

  /** Matching games found by all the listed workers. */
  function SumMatches(threads: seq<Data>): nat
    reads threads
  {
    if threads == [] then 0 else threads[0].matchCnt + SumMatches(threads[1..])
  }

  /** Adding one more worker adds its counters to the totals. */
  lemma {:induction false} SumsAppend(threads: seq<Data>, t: Data)
    ensures SumMoves(threads + [t]) == SumMoves(threads) + t.movesCnt
    ensures SumMatches(threads + [t]) == SumMatches(threads) + t.matchCnt
  {
    if threads != [] {
      assert (threads + [t])[1..] == threads[1..] + [t];
      SumsAppend(threads[1..], t);
    }
  }

  /** When no worker found more matches than it replayed moves, neither do all of them together. */
  lemma {:induction false} TotalMatchesAtMostMoves(threads: seq<Data>)
    requires forall i :: 0 <= i < |threads| ==> threads[i].matchCnt <= threads[i].movesCnt
    ensures SumMatches(threads) <= SumMoves(threads)
  {
    if threads != [] {
      TotalMatchesAtMostMoves(threads[1..]);
    }
  }

  /** Lines 155-170: elapsed milliseconds (one added so it is never zero),
      the summed counters, and 1000 * moves / elapsed rounded down. */
  method PrintResults(threads: seq<Data>, startTime: int, now: int) returns (r: Report)
    requires startTime <= now
    ensures r.elapsed == now - startTime + 1 && r.elapsed >= 1
    ensures r.moves == SumMoves(threads) && r.matches == SumMatches(threads)
    ensures r.movesPerSecond * r.elapsed <= 1000 * r.moves < (r.movesPerSecond + 1) * r.elapsed
  {
    var elapsed := now - startTime + 1;
    var cnt, matches := 0, 0;
    for i := 0 to |threads|
      invariant cnt == SumMoves(threads[..i]) && matches == SumMatches(threads[..i])
    {
      SumsAppend(threads[..i], threads[i]);
      assert threads[..i + 1] == threads[..i] + [threads[i]];
      cnt := cnt + threads[i].movesCnt;
      matches := matches + threads[i].matchCnt;
    }
    assert threads[..|threads|] == threads;
    r := Report(cnt, matches, 1000 * cnt / elapsed, elapsed);
  }
}
