/** The per-position predicate tests (lines 96-119), the walk of the rule
    chain with its three outcomes (lines 85-135), and the per-game match
    decision of the move loop (lines 77-139), as functions, together with
    their order-free characterisation. */
module RuleEngine {
  import opened ScoutTypes
  import opened Database

  /** x has every bit of y set. */
  predicate Covers(x: Bitboard, y: Bitboard) {
    x & y == y
  }

  /** Lines 97-103: occupancy, White occupancy and every listed piece type
      cover the pattern's bitboards. */
  predicate PatternHolds<Pos>(eng: Engine<Pos>, pat: Pattern, pos: Pos) {
    Covers(eng.pieces(pos), pat.all)
    && Covers(eng.piecesOf(pos, White), pat.white)
    && forall i :: 0 <= i < |pat.pieces| ==> Covers(eng.piecesByType(pos, pat.pieces[i].0), pat.pieces[i].1)
  }

  /** The position test of one predicate rule (lines 96-119); Result and the
      terminators do not look at the position. */
  predicate PositionPasses<Pos>(eng: Engine<Pos>, f: Filter, rule: RuleType, pos: Pos) {
    match rule
    case RulePattern => PatternHolds(eng, f.pattern, pos)
    case RuleMaterial => eng.materialKey(pos) == f.matKey
    case RuleWhite => eng.sideToMove(pos) == White
    case RuleBlack => eng.sideToMove(pos) == Black
    case _ => true
  }

  /** What one predicate rule demands of a position reached in a game with result res. */
  predicate Satisfied<Pos>(eng: Engine<Pos>, f: Filter, rule: RuleType, pos: Pos, res: GameResult) {
    if rule == RuleResult then res == f.result else PositionPasses(eng, f, rule, pos)
  }

  /** Outcome of walking the chain on one position: abandon the position
      (goto Failed), abandon the game (goto SkipToNext), or a match (RuleEnd). */
  datatype Verdict = Failed | SkipToNext | Matched

  /** A terminator occurs at or after index k, so the walk from k stops. */
  predicate TerminatedFrom(rules: seq<RuleType>, k: nat) {
    exists j :: k <= j < |rules| && rules[j].IsTerminator()
  }

  /** Index of the first terminator at or after k. */
  function FirstTerminator(rules: seq<RuleType>, k: nat): (j: nat)
    requires TerminatedFrom(rules, k)
    ensures k <= j < |rules| && rules[j].IsTerminator()
    ensures forall x :: k <= x < j ==> !rules[x].IsTerminator()
    decreases |rules| - k
  {
    if rules[k].IsTerminator() then k else FirstTerminator(rules, k + 1)
  }

  /** Lines 89-135: walk the chain from index k on position pos of a game
      whose decoded result is res. */
  function ChainVerdict<Pos>(eng: Engine<Pos>, f: Filter, pos: Pos, res: GameResult, k: nat): Verdict
    requires TerminatedFrom(f.rules, k)
    decreases |f.rules| - k
  {
    var rule := f.rules[k];
    if rule == RuleNone then Failed
    else if rule == RuleEnd then Matched
    else if rule == RuleResult && res != f.result then SkipToNext
    else if !PositionPasses(eng, f, rule, pos) then Failed
    else
      assert TerminatedFrom(f.rules, k + 1) by {
        var j := FirstTerminator(f.rules, k);
      }
      ChainVerdict(eng, f, pos, res, k + 1)
  }

  /** The order-free meaning of the chain for one position: the chain ends in
      RuleEnd and every predicate before its terminator is satisfied. */
  predicate Admits<Pos>(eng: Engine<Pos>, f: Filter, pos: Pos, res: GameResult)
    requires TerminatedFrom(f.rules, 0)
  {
    var t := FirstTerminator(f.rules, 0);
    f.rules[t] == RuleEnd && forall j :: 0 <= j < t ==> Satisfied(eng, f, f.rules[j], pos, res)
  }

  /** The walk from k matches iff the chain ends in RuleEnd and every rule
      from k to the terminator is satisfied; it abandons the game only on a
      Result rule whose target differs from the game's result. */
  lemma {:induction false} ChainVerdictMeaning<Pos>(eng: Engine<Pos>, f: Filter, pos: Pos, res: GameResult, k: nat)
    requires TerminatedFrom(f.rules, k)
    ensures var t := FirstTerminator(f.rules, k);
      ChainVerdict(eng, f, pos, res, k) == Matched <==>
        f.rules[t] == RuleEnd && forall j :: k <= j < t ==> Satisfied(eng, f, f.rules[j], pos, res)
    ensures ChainVerdict(eng, f, pos, res, k) == SkipToNext ==>
      res != f.result && exists j :: k <= j < FirstTerminator(f.rules, k) && f.rules[j] == RuleResult
    decreases |f.rules| - k
  {
    var rule := f.rules[k];
    if !rule.IsTerminator() {
      assert TerminatedFrom(f.rules, k + 1) by {
        var j := FirstTerminator(f.rules, k);
      }
      assert FirstTerminator(f.rules, k) == FirstTerminator(f.rules, k + 1);
      if !(rule == RuleResult && res != f.result) && PositionPasses(eng, f, rule, pos) {
        ChainVerdictMeaning(eng, f, pos, res, k + 1);
      }
    }
  }

  /** Position after replaying the moves at indices g+1 .. q of the game whose
      result record is at g (q == g: the root position). */
  function PosAfter<Pos>(eng: Engine<Pos>, db: seq<Move>, g: nat, q: nat): Pos
    requires g <= q < |db|
    decreases q - g
  {
    if q == g then eng.rootPos else eng.doMove(PosAfter(eng, db, g, q - 1), db[q])
  }

  /** Lines 77-139 from the record at q on, pos being the position after it:
      does the rest of the game produce a match before its chain walk abandons it? */
  function GameMatch<Pos>(eng: Engine<Pos>, f: Filter, db: seq<Move>, res: GameResult, q: nat, pos: Pos): bool
    requires TerminatedFrom(f.rules, 0) && HasSentinelFrom(db, q + 1)
    decreases FirstSentinel(db, q + 1) - q
  {
    if db[q + 1] == MOVE_NONE then false
    else
      var next := eng.doMove(pos, db[q + 1]);
      match ChainVerdict(eng, f, next, res, 0)
      case Failed => GameMatch(eng, f, db, res, q + 1, next)
      case SkipToNext => false
      case Matched => true
  }

  /** A game matches iff some position reached after at least one of its
      moves is admitted by the chain; the starting position never counts. */
  lemma {:induction false} GameMatchMeaning<Pos>(eng: Engine<Pos>, f: Filter, db: seq<Move>, res: GameResult, g: nat, q: nat)
    requires TerminatedFrom(f.rules, 0) && HasSentinelFrom(db, g + 1)
    requires g <= q < FirstSentinel(db, g + 1)
    ensures HasSentinelFrom(db, q + 1)
    ensures GameMatch(eng, f, db, res, q, PosAfter(eng, db, g, q)) <==>
      exists k :: q < k < FirstSentinel(db, g + 1) && Admits(eng, f, PosAfter(eng, db, g, k), res)
    decreases FirstSentinel(db, g + 1) - q
  {
    var t := FirstSentinel(db, g + 1);
    assert HasSentinelFrom(db, q + 1) by {
      assert q + 1 <= t && db[t] == MOVE_NONE;
    }
    if db[q + 1] != MOVE_NONE {
      var next := PosAfter(eng, db, g, q + 1);
      assert next == eng.doMove(PosAfter(eng, db, g, q), db[q + 1]);
      ChainVerdictMeaning(eng, f, next, res, 0);
      var v := ChainVerdict(eng, f, next, res, 0);
      if v == Failed {
        GameMatchMeaning(eng, f, db, res, g, q + 1);
        assert !Admits(eng, f, next, res);
      } else if v == SkipToNext {
        forall k | q < k < t
          ensures !Admits(eng, f, PosAfter(eng, db, g, k), res)
        {
          var j :| 0 <= j < FirstTerminator(f.rules, 0) && f.rules[j] == RuleResult;
          assert !Satisfied(eng, f, f.rules[j], PosAfter(eng, db, g, k), res);
        }
      } else {
        assert q < q + 1 < t && Admits(eng, f, next, res);
        assert exists k :: q < k < t && Admits(eng, f, PosAfter(eng, db, g, k), res);
      }
    }
  }

  /** Admission depends only on which predicates precede the terminator, not
      on their order. */
  lemma AdmitsIgnoresOrder<Pos>(eng: Engine<Pos>, f1: Filter, f2: Filter, pos: Pos, res: GameResult)
    requires f1.pattern == f2.pattern && f1.matKey == f2.matKey && f1.result == f2.result
    requires TerminatedFrom(f1.rules, 0) && TerminatedFrom(f2.rules, 0)
    requires f1.rules[FirstTerminator(f1.rules, 0)] == f2.rules[FirstTerminator(f2.rules, 0)]
    requires forall r :: r in f1.rules[..FirstTerminator(f1.rules, 0)] <==> r in f2.rules[..FirstTerminator(f2.rules, 0)]
    ensures Admits(eng, f1, pos, res) == Admits(eng, f2, pos, res)
  {
    var t1, t2 := FirstTerminator(f1.rules, 0), FirstTerminator(f2.rules, 0);
    if Admits(eng, f1, pos, res) {
      forall j | 0 <= j < t2 ensures Satisfied(eng, f2, f2.rules[j], pos, res) {
        assert f2.rules[j] in f2.rules[..t2];
        var i :| 0 <= i < t1 && f1.rules[i] == f2.rules[j];
      }
    }
    if Admits(eng, f2, pos, res) {
      forall j | 0 <= j < t1 ensures Satisfied(eng, f1, f1.rules[j], pos, res) {
        assert f1.rules[j] in f1.rules[..t1];
        var i :| 0 <= i < t2 && f2.rules[i] == f1.rules[j];
      }
    }
  }

  /** Two chains listing the same predicates in any order, with the same
      terminator, decide every game alike. */
  lemma RuleOrderIrrelevant<Pos>(eng: Engine<Pos>, f1: Filter, f2: Filter, db: seq<Move>, res: GameResult, g: nat)
    requires f1.pattern == f2.pattern && f1.matKey == f2.matKey && f1.result == f2.result
    requires TerminatedFrom(f1.rules, 0) && TerminatedFrom(f2.rules, 0)
    requires f1.rules[FirstTerminator(f1.rules, 0)] == f2.rules[FirstTerminator(f2.rules, 0)]
    requires forall r :: r in f1.rules[..FirstTerminator(f1.rules, 0)] <==> r in f2.rules[..FirstTerminator(f2.rules, 0)]
    requires g < |db| && HasSentinelFrom(db, g + 1)
    ensures GameMatch(eng, f1, db, res, g, eng.rootPos) == GameMatch(eng, f2, db, res, g, eng.rootPos)
  {
    var t := FirstSentinel(db, g + 1);
    if g < t {
      GameMatchMeaning(eng, f1, db, res, g, g);
      GameMatchMeaning(eng, f2, db, res, g, g);
      forall k | g < k < t
        ensures Admits(eng, f1, PosAfter(eng, db, g, k), res) == Admits(eng, f2, PosAfter(eng, db, g, k), res)
      {
        AdmitsIgnoresOrder(eng, f1, f2, PosAfter(eng, db, g, k), res);
      }
    }
  }

  /** A chain that reaches RuleNone before any RuleEnd (the empty query)
      never matches, whatever the game. */
  lemma NoneChainNeverMatches<Pos>(eng: Engine<Pos>, f: Filter, db: seq<Move>, res: GameResult, g: nat)
    requires TerminatedFrom(f.rules, 0) && f.rules[FirstTerminator(f.rules, 0)] == RuleNone
    requires g < |db| && HasSentinelFrom(db, g + 1)
    ensures !GameMatch(eng, f, db, res, g, eng.rootPos)
  {
    var t := FirstSentinel(db, g + 1);
    if g < t {
      GameMatchMeaning(eng, f, db, res, g, g);
    }
  }

  /** Occupancy dominance: big has at least the pieces of small, overall, for
      White and for every piece type. */
  predicate Dominates<Pos>(eng: Engine<Pos>, big: Pos, small: Pos) {
    Covers(eng.pieces(big), eng.pieces(small))
    && Covers(eng.piecesOf(big, White), eng.piecesOf(small, White))
    && forall pt: PieceType :: Covers(eng.piecesByType(big, pt), eng.piecesByType(small, pt))
  }

  /** Covering is transitive. */
  lemma CoversTransitive(x: Bitboard, y: Bitboard, z: Bitboard)
    requires Covers(x, y) && Covers(y, z)
    ensures Covers(x, z)
  {
    calc {
      x & z;
      == { assert z == y & z; }
      x & (y & z);
      ==
      (x & y) & z;
      ==
      y & z;
      ==
      z;
    }
  }

  /** Adding pieces never breaks a pattern match. */
  lemma PatternMonotone<Pos>(eng: Engine<Pos>, pat: Pattern, pos: Pos, more: Pos)
    requires PatternHolds(eng, pat, pos) && Dominates(eng, more, pos)
    ensures PatternHolds(eng, pat, more)
  {
    CoversTransitive(eng.pieces(more), eng.pieces(pos), pat.all);
    CoversTransitive(eng.piecesOf(more, White), eng.piecesOf(pos, White), pat.white);
    forall i | 0 <= i < |pat.pieces|
      ensures Covers(eng.piecesByType(more, pat.pieces[i].0), pat.pieces[i].1)
    {
      var pt := pat.pieces[i].0;
      CoversTransitive(eng.piecesByType(more, pt), eng.piecesByType(pos, pt), pat.pieces[i].1);
    }
  }
}
