/** Scout::search (lines 45-147): one worker's scan of its part of the
    database, written as the source's loops, and proved against the
    specification functions of Database and RuleEngine. Also the facts that
    relate the workers to each other: which worker processes which game. */
module Search {
  import opened ScoutTypes
  import opened Database
  import opened RuleEngine
  import opened Partition

  /** Every listed game has its result record and a closing sentinel in the buffer. */
  predicate Closed(db: seq<Move>, games: seq<nat>) {
    forall i :: 0 <= i < |games| ==> games[i] < |db| && HasSentinelFrom(db, games[i] + 1)
  }

  /** Real moves in the listed games. */
  function TotalMoves(db: seq<Move>, games: seq<nat>): nat
    requires Closed(db, games)
  {
    if games == [] then 0 else MoveCount(db, games[0]) + TotalMoves(db, games[1..])
  }

  /** Number of listed games that produce a match: each game adds 0 or 1. */
  function MatchedGames<Pos>(eng: Engine<Pos>, f: Filter, db: seq<Move>, games: seq<nat>): (r: nat)
    requires TerminatedFrom(f.rules, 0)
    requires Closed(db, games)
    ensures r <= |games|
  {
    if games == [] then 0
    else
      var g := games[0];
      (if GameMatch(eng, f, db, eng.resultOf(db[g]), g, eng.rootPos) then 1 else 0)
        + MatchedGames(eng, f, db, games[1..])
  }

  /** A matching game has at least one move, so matches never exceed moves. */
  lemma {:induction false} MatchesAtMostMoves<Pos>(eng: Engine<Pos>, f: Filter, db: seq<Move>, games: seq<nat>)
    requires TerminatedFrom(f.rules, 0)
    requires Closed(db, games)
    ensures MatchedGames(eng, f, db, games) <= TotalMoves(db, games)
  {
    if games != [] {
      var g := games[0];
      if GameMatch(eng, f, db, eng.resultOf(db[g]), g, eng.rootPos) {
        assert db[g + 1] != MOVE_NONE;
      }
      MatchesAtMostMoves(eng, f, db, games[1..]);
    }
  }

  /** The chain [RuleNone] of an empty query matches no game. */
  lemma {:induction false} EmptyChainMatchesNothing<Pos>(eng: Engine<Pos>, f: Filter, db: seq<Move>, games: seq<nat>)
    requires TerminatedFrom(f.rules, 0) && f.rules[0] == RuleNone
    requires Closed(db, games)
    ensures MatchedGames(eng, f, db, games) == 0
  {
    if games != [] {
      var g := games[0];
      NoneChainNeverMatches(eng, f, db, eng.resultOf(db[g]), g);
      EmptyChainMatchesNothing(eng, f, db, games[1..]);
    }
  }

  /** One turn of the game loop: the walk from game p is p followed by the walk
      from next, the record line 142 stops at, and the counters split accordingly. */
  lemma TallyStep<Pos>(eng: Engine<Pos>, f: Filter, db: seq<Move>, n: nat, p: nat, end: nat, next: nat)
    requires ValidDatabase(db, n) && end <= n && p < end && IsGameStart(db, p)
    requires TerminatedFrom(f.rules, 0)
    requires HasSentinelFrom(db, p + 1) && FirstSentinel(db, p + 1) < n
    requires next == NextRecord(db, FirstSentinel(db, p + 1) + 1, end)
    ensures next < end ==> IsGameStart(db, next)
    ensures TotalMoves(db, Walk(db, n, p, end)) == MoveCount(db, p) + TotalMoves(db, Walk(db, n, next, end))
    ensures MatchedGames(eng, f, db, Walk(db, n, p, end))
      == (if GameMatch(eng, f, db, eng.resultOf(db[p]), p, eng.rootPos) then 1 else 0)
         + MatchedGames(eng, f, db, Walk(db, n, next, end))
  {
    assert next < end ==> db[next - 1] == MOVE_NONE;
    var w := Walk(db, n, p, end);
    assert w == [p] + Walk(db, n, next, end);
    assert w[0] == p && w[1..] == Walk(db, n, next, end);
  }

  /** What worker i of w needs of the database: n records and a readable slot
      at n, a stream ending on a boundary, a sentinel at or after its raw start
      (line 65), and a non-sentinel where the aligned cursor lands (line 70). */
  predicate WorkerReady(db: seq<Move>, n: nat, w: nat, i: nat) {
    1 <= w && i < w && ValidDatabase(db, n)
    && HasSentinelFrom(db, RawStart(n, w, i))
    && AlignsOnRecord(db, RawStart(n, w, i), RawEnd(n, w, i))
  }

  /** Result-record indices of the games worker i processes, in scan order. */
  function WorkerGames(db: seq<Move>, n: nat, w: nat, i: nat): seq<nat>
    requires WorkerReady(db, n, w, i)
  {
    GamesFrom(db, n, RawStart(n, w, i), RawEnd(n, w, i))
  }

  /** Worker i processes game x iff x lies in i's raw range and is not i's raw
      start: no game is processed by two workers, and a game whose result
      record sits exactly at a raw start is processed by none. */
  lemma GameOwnership(db: seq<Move>, n: nat, w: nat, i: nat, x: nat)
    requires WorkerReady(db, n, w, i)
    requires IsGameStart(db, x) && x < n
    ensures x in WorkerGames(db, n, w, i) <==> i == Owner(n, w, x) && x != RawStart(n, w, i)
  {
    GamesFromExactly(db, n, RawStart(n, w, i), RawEnd(n, w, i), x);
    InRangeIffOwner(n, w, x, i);
  }

  /** No game is processed by two different workers. */
  lemma NoGameTwice(db: seq<Move>, n: nat, w: nat, i: nat, j: nat, x: nat)
    requires WorkerReady(db, n, w, i) && WorkerReady(db, n, w, j)
    requires x in WorkerGames(db, n, w, i) && x in WorkerGames(db, n, w, j)
    ensures i == j
  {
    GamesFromExactly(db, n, RawStart(n, w, i), RawEnd(n, w, i), x);
    GameOwnership(db, n, w, i, x);
    GameOwnership(db, n, w, j, x);
  }

  /** A game whose result record lies at worker 1's raw start is dropped:
      records [-, r, -, r, m, -] with two workers give worker 0 the range
      [0, 3) and worker 1 the range [3, 6); neither processes the game at 3. */
  lemma GameAtRawStartIsDropped()
    ensures var db: seq<Move> := [MOVE_NONE, 7, MOVE_NONE, 7, 12, MOVE_NONE, MOVE_NONE];
      WorkerReady(db, 6, 2, 0) && WorkerReady(db, 6, 2, 1) && IsGameStart(db, 3)
      && 3 !in WorkerGames(db, 6, 2, 0) && 3 !in WorkerGames(db, 6, 2, 1)
  {
    var db: seq<Move> := [MOVE_NONE, 7, MOVE_NONE, 7, 12, MOVE_NONE, MOVE_NONE];
    assert RawStart(6, 2, 1) == 3 && RawEnd(6, 2, 0) == 3;
    assert db[0] == MOVE_NONE && db[5] == MOVE_NONE;
    assert FirstSentinel(db, 0) == 0;
    assert FirstSentinel(db, 3) == 5 by {
      assert FirstSentinel(db, 4) == 5;
    }
    GameOwnership(db, 6, 2, 0, 3);
    GameOwnership(db, 6, 2, 1, 3);
  }

  /** The assert at line 70 can fail: when a raw start is followed by two
      adjacent sentinels, the aligned cursor lands on the second one. */
  lemma AlignmentCanLandOnSentinel()
    ensures var db: seq<Move> := [MOVE_NONE, 7, 12, 12, MOVE_NONE, MOVE_NONE, 7, MOVE_NONE, MOVE_NONE];
      ValidDatabase(db, 8) && HasSentinelFrom(db, RawStart(8, 2, 1))
      && !AlignsOnRecord(db, RawStart(8, 2, 1), RawEnd(8, 2, 1))
  {
    var db: seq<Move> := [MOVE_NONE, 7, 12, 12, MOVE_NONE, MOVE_NONE, 7, MOVE_NONE, MOVE_NONE];
    assert RawStart(8, 2, 1) == 4 && RawEnd(8, 2, 1) == 8;
    assert db[4] == MOVE_NONE;
    assert FirstSentinel(db, 4) == 4;
  }

  /** Line 65: read records from p on, stopping just past the first sentinel. */
  method SkipToGameStart(db: seq<Move>, p: nat) returns (q: nat)
    requires HasSentinelFrom(db, p)
    ensures q == AlignedStart(db, p)
  {
    q := p;
    var rec := db[q];
    q := q + 1;
    while rec != MOVE_NONE
      invariant p < q <= FirstSentinel(db, p) + 1
      invariant rec == db[q - 1]
      decreases FirstSentinel(db, p) + 1 - q
    {
      rec := db[q];
      q := q + 1;
    }
  }

  /** Lines 85-135: walk the chain on one position, stopping at the first
      failed predicate, a Result mismatch or a terminator. */
  method EvalRules<Pos>(eng: Engine<Pos>, f: Filter, pos: Pos, res: GameResult) returns (v: Verdict)
    requires TerminatedFrom(f.rules, 0)
    ensures v == ChainVerdict(eng, f, pos, res, 0)
  {
    var k := 0;
    while !f.rules[k].IsTerminator()
      invariant k < |f.rules| && TerminatedFrom(f.rules, k)
      invariant ChainVerdict(eng, f, pos, res, 0) == ChainVerdict(eng, f, pos, res, k)
      decreases |f.rules| - k
    {
      var rule := f.rules[k];
      if rule == RuleResult {
        if res != f.result {
          return SkipToNext;
        }
      } else if rule == RulePattern {
        if !PatternHolds(eng, f.pattern, pos) {
          return Failed;
        }
      } else if rule == RuleMaterial {
        if eng.materialKey(pos) != f.matKey {
          return Failed;
        }
      } else if rule == RuleWhite {
        if eng.sideToMove(pos) != White {
          return Failed;
        }
      } else if eng.sideToMove(pos) != Black {
        return Failed;
      }
      assert TerminatedFrom(f.rules, k + 1) by {
        var j := FirstTerminator(f.rules, k);
      }
      k := k + 1;
    }
    v := if f.rules[k] == RuleEnd then Matched else Failed;
  }

  /** Lines 131-132: from the current move at p, advance to the game's last
      move, counting the moves passed over. */
  method SkipRestOfGame(db: seq<Move>, p: nat) returns (last: nat, skipped: nat)
    requires HasSentinelFrom(db, p + 1)
    ensures last + 1 == FirstSentinel(db, p + 1)
    ensures skipped + 1 + p == FirstSentinel(db, p + 1)
  {
    var q := p + 1;
    skipped := 0;
    while db[q] != MOVE_NONE
      invariant p < q <= FirstSentinel(db, p + 1)
      invariant skipped == q - p - 1
      decreases FirstSentinel(db, p + 1) - q
    {
      skipped := skipped + 1;
      q := q + 1;
    }
    last := q - 1;
  }

  /** Line 142: from the sentinel at t that closed the previous game, step over
      further sentinels while the cursor is still before end; the record is
      read before the bound is tested. */
  method SkipSentinels(db: seq<Move>, t: nat, end: nat) returns (q: nat)
    requires t + 1 < |db| && end < |db|
    ensures q == NextRecord(db, t + 1, end)
  {
    q := t + 1;
    while db[q] == MOVE_NONE && q < end
      invariant t + 1 <= q < |db|
      invariant NextRecord(db, q, end) == NextRecord(db, t + 1, end)
      decreases end - q
    {
      q := q + 1;
    }
  }

  /** Lines 72-139 for the game whose result record is at g: decode the result,
      replay every move into the StateInfo buffer, walk the chain after each
      one, and on a match or a result mismatch skip the rest of the game.
      Returns the closing sentinel, the moves counted and whether it matched. */
  method ReplayGame<Pos>(eng: Engine<Pos>, f: Filter, db: seq<Move>, g: nat)
      returns (t: nat, moves: nat, matched: bool)
    requires TerminatedFrom(f.rules, 0)
    requires g < |db| && db[g] != MOVE_NONE
    requires HasSentinelFrom(db, g + 1) && MoveCount(db, g) <= MAX_PLIES
    ensures t == FirstSentinel(db, g + 1)
    ensures moves == MoveCount(db, g)
    ensures matched == GameMatch(eng, f, db, eng.resultOf(db[g]), g, eng.rootPos)
  {
    var result := eng.resultOf(db[g]);
    var pos := eng.rootPos;
    var st := 0;
    ghost var stop := FirstSentinel(db, g + 1);
    ghost var settled := false;
    moves, matched := 0, false;
    t := g + 1;
    while db[t] != MOVE_NONE
      invariant g < t <= stop
      invariant moves == t - 1 - g
      invariant settled ==> t == stop && matched == GameMatch(eng, f, db, result, g, eng.rootPos)
      invariant !settled ==> !matched && st == t - 1 - g && pos == PosAfter(eng, db, g, t - 1)
      invariant !settled ==> GameMatch(eng, f, db, result, g, eng.rootPos) == GameMatch(eng, f, db, result, t - 1, pos)
      decreases stop - t
    {
      assert st < MAX_PLIES;
      pos := eng.doMove(pos, db[t]);
      st := st + 1;
      moves := moves + 1;
      var v := EvalRules(eng, f, pos, result);
      if v != Failed {
        matched := v == Matched;
        var last, skipped := SkipRestOfGame(db, t);
        moves := moves + skipped;
        t := last;
        settled := true;
      }
      t := t + 1;
    }
  }

  /** A game inside a range whose games are short has at most MAX_PLIES moves. */
  lemma ShortGameBound(db: seq<Move>, s: nat, end: nat, p: nat)
    requires ShortGames(db, s, end) && s < p < end && IsGameStart(db, p)
    ensures HasSentinelFrom(db, p + 1) && MoveCount(db, p) <= MAX_PLIES
  {
    var j :| p < j <= p + MAX_PLIES + 1 && j < |db| && db[j] == MOVE_NONE;
  }

  /** Lines 70-142, one turn of the game loop on the game whose result record
      is at p: replay it, then move the cursor over the sentinels that follow.
      The moves counted and the match found are exactly what the game adds to
      the totals of the walk from p. */
  method NextGame<Pos>(eng: Engine<Pos>, f: Filter, db: seq<Move>, n: nat, end: nat, p: nat)
      returns (q: nat, moves: nat, matched: bool)
    requires ValidDatabase(db, n) && end <= n && p < end && IsGameStart(db, p)
    requires TerminatedFrom(f.rules, 0)
    requires HasSentinelFrom(db, p + 1) && MoveCount(db, p) <= MAX_PLIES
    ensures p < q && (q < end ==> IsGameStart(db, q))
    ensures TotalMoves(db, Walk(db, n, p, end)) == moves + TotalMoves(db, Walk(db, n, q, end))
    ensures MatchedGames(eng, f, db, Walk(db, n, p, end))
      == (if matched then 1 else 0) + MatchedGames(eng, f, db, Walk(db, n, q, end))
  {
    SentinelAfterRecord(db, n, p);
    var t;
    t, moves, matched := ReplayGame(eng, f, db, p);
    q := SkipSentinels(db, t, end);
    TallyStep(eng, f, db, n, p, end, q);
  }

  /** Lines 64-143 over the raw range [s, end): align to the first game after
      s, then replay every game starting before end, counting its moves and
      whether it matched. */
  method ScanRange<Pos>(eng: Engine<Pos>, f: Filter, db: seq<Move>, n: nat, s: nat, end: nat)
      returns (cnt: nat, matchCnt: nat)
    requires ValidDatabase(db, n) && s <= end <= n
    requires HasSentinelFrom(db, s) && AlignsOnRecord(db, s, end)
    requires ShortGames(db, s, end)
    requires TerminatedFrom(f.rules, 0)
    ensures cnt == TotalMoves(db, GamesFrom(db, n, s, end))
    ensures matchCnt == MatchedGames(eng, f, db, GamesFrom(db, n, s, end))
  {
    var p := SkipToGameStart(db, s);
    ghost var a := p;
    assert a < end ==> IsGameStart(db, a);
    cnt, matchCnt := 0, 0;
    while p < end
      invariant s < a <= p
      invariant p < end ==> IsGameStart(db, p)
      invariant cnt + TotalMoves(db, Walk(db, n, p, end)) == TotalMoves(db, Walk(db, n, a, end))
      invariant matchCnt + MatchedGames(eng, f, db, Walk(db, n, p, end)) == MatchedGames(eng, f, db, Walk(db, n, a, end))
      decreases end - p
    {
      ShortGameBound(db, s, end, p);
      var moves, matched;
      p, moves, matched := NextGame(eng, f, db, n, end, p);
      cnt := cnt + moves;
      if matched {
        matchCnt := matchCnt + 1;
      }
    }
  }

  /** Scout::search for worker idx of threads: compute the raw range (lines
      52-55), scan it, and store the number of moves and of matching games in d
      (lines 145-146). */
  method Search<Pos>(d: Data, eng: Engine<Pos>, threads: nat, idx: nat)
    requires WorkerReady(d.baseAddress, d.dbSize, threads, idx)
    requires ShortGames(d.baseAddress, RawStart(d.dbSize, threads, idx), RawEnd(d.dbSize, threads, idx))
    requires TerminatedFrom(d.rules, 0)
    modifies d`movesCnt, d`matchCnt
    ensures d.movesCnt == TotalMoves(d.baseAddress, WorkerGames(d.baseAddress, d.dbSize, threads, idx))
    ensures d.matchCnt == MatchedGames(eng, d.HotRules(), d.baseAddress, WorkerGames(d.baseAddress, d.dbSize, threads, idx))
  {
    var db := d.baseAddress;
    var n := d.dbSize;
    var f := d.HotRules();
    var range := n / threads;
    var p := idx * range;
    var end := if idx == threads - 1 then n else p + range;
    assert p == RawStart(n, threads, idx) && end == RawEnd(n, threads, idx);
    var cnt, matchCnt := ScanRange(eng, f, db, n, p, end);
    d.movesCnt := cnt;
    d.matchCnt := matchCnt;
  }
}
