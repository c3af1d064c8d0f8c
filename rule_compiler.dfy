/** Scout::parse_rules (lines 177-235): turn the fields of a query into the
    rule chain and its parameters, and the meaning of the compiled chain
    stated directly on the query. The JSON text and the FEN string are taken
    as already decoded: a field is absent (null, missing or an empty
    container) or present with its value; a FEN arrives as the position the
    engine set up from it. */
module RuleCompiler {
  import opened ScoutTypes
  import opened Database
  import opened RuleEngine

  /** The four fields a query may carry. */
  datatype Query<Pos> = Query(fen: Option<Pos>, material: Option<string>, stm: Option<string>, result: Option<string>)

  /** The four result tokens lines 222-225 recognise. */
  const ResultTokens: set<string> := {"1-0", "0-1", "1/2-1/2", "*"}

  /** Lines 222-225: decode a result token; anything else is Invalid. */
  function ParseResult(token: string): (r: GameResult)
    ensures r != Invalid <==> token in ResultTokens
  {
    if token == "1-0" then WhiteWin
    else if token == "0-1" then BlackWin
    else if token == "1/2-1/2" then Draw
    else if token == "*" then Unknown
    else Invalid
  }

  /** The token of a decodable result: the only token that decodes to it. */
  function ResultToken(r: GameResult): (token: string)
    requires r != Invalid
    ensures ParseResult(token) == r
    ensures forall t :: ParseResult(t) == r ==> t == token
  {
    match r
    case WhiteWin => "1-0"
    case BlackWin => "0-1"
    case Draw => "1/2-1/2"
    case Unknown => "*"
  }

  /** The result the query asks for, when its result field decodes. */
  function TargetResult<Pos>(q: Query<Pos>): Option<GameResult> {
    if q.result.Some? && ParseResult(q.result.value) != Invalid
    then Some(ParseResult(q.result.value)) else None
  }

  /** Line 216: the side-to-move rule of a present stm field. */
  function SideRule(stm: string): (r: RuleType)
    ensures r == RuleWhite <==> stm == "WHITE"
    ensures r == RuleWhite || r == RuleBlack
  {
    if stm == "WHITE" then RuleWhite else RuleBlack
  }

  /** Pattern, Material, side, Result: the order lines 190-232 push rules in. */
  function Rank(r: RuleType): nat {
    match r
    case RulePattern => 0
    case RuleMaterial => 1
    case RuleWhite => 2
    case RuleBlack => 2
    case RuleResult => 3
    case _ => 4
  }

  /** The predicate rules lines 190-232 push for query q, in push order. */
  function Predicates<Pos>(q: Query<Pos>): seq<RuleType> {
    (if q.fen.Some? then [RulePattern] else [])
    + (if q.material.Some? then [RuleMaterial] else [])
    + (if q.stm.Some? then [SideRule(q.stm.value)] else [])
    + (if TargetResult(q).Some? then [RuleResult] else [])
  }

  /** The pushed predicates are no terminators, and there is one exactly
      when the query asks for a test. */
  lemma PredicatesShape<Pos>(q: Query<Pos>)
    ensures var r := Predicates(q);
      (forall i :: 0 <= i < |r| ==> !r[i].IsTerminator())
      && (|r| > 0 <==> HasTest(q))
  {
  }

  /** The pushed predicates come in the order Pattern, Material, side, Result. */
  lemma PredicatesOrdered<Pos>(q: Query<Pos>)
    ensures var r := Predicates(q);
      forall i, j :: 0 <= i < j < |r| ==> Rank(r[i]) < Rank(r[j])
  {
  }

  /** Rule r is pushed for query q. */
  predicate Asked<Pos>(q: Query<Pos>, r: RuleType) {
    (r == RulePattern && q.fen.Some?)
    || (r == RuleMaterial && q.material.Some?)
    || (q.stm.Some? && r == SideRule(q.stm.value))
    || (r == RuleResult && TargetResult(q).Some?)
  }

  /** The pushed predicates are exactly the rules the query asks for. */
  lemma PredicateMembers<Pos>(q: Query<Pos>, r: RuleType)
    ensures r in Predicates(q) <==> Asked(q, r)
  {
    var a := if q.fen.Some? then [RulePattern] else [];
    var b := if q.material.Some? then [RuleMaterial] else [];
    var c := if q.stm.Some? then [SideRule(q.stm.value)] else [];
    var d := if TargetResult(q).Some? then [RuleResult] else [];
    assert Predicates(q) == a + b + c + d;
  }

  /** The rule pushes of lines 204-230: one predicate rule per field the
      query asks for, in the order the fields are examined. */
  method PushedRules<Pos>(q: Query<Pos>) returns (rules: seq<RuleType>)
    ensures rules == Predicates(q)
  {
    rules := [];
    if q.fen.Some? {
      rules := rules + [RulePattern];
    }
    if q.material.Some? {
      rules := rules + [RuleMaterial];
    }
    if q.stm.Some? {
      rules := rules + [SideRule(q.stm.value)];
    }
    if q.result.Some? {
      if ParseResult(q.result.value) != Invalid {
        rules := rules + [RuleResult];
      }
    }
  }

  /** Line 234: a chain that already holds a rule ends in RuleEnd, an empty one in RuleNone. */
  function Terminator(size: nat): RuleType {
    if size > 0 then RuleEnd else RuleNone
  }

  /** Lines 200-202: the (piece type, bitboard) pairs for PAWN .. hi whose bitboard is not empty. */
  function PiecesUpTo<Pos>(eng: Engine<Pos>, pos: Pos, hi: int): seq<(PieceType, Bitboard)>
    requires hi <= KING
    decreases hi
  {
    if hi < PAWN then []
    else
      var bb := eng.piecesByType(pos, hi);
      PiecesUpTo(eng, pos, hi - 1) + if bb != 0 then [(hi as PieceType, bb)] else []
  }

  /** Every pair holds a piece type up to hi and that type's non-empty bitboard. */
  lemma {:induction false} PiecesUpToSound<Pos>(eng: Engine<Pos>, pos: Pos, hi: int)
    requires hi <= KING
    ensures forall p :: p in PiecesUpTo(eng, pos, hi) ==> p.0 <= hi && p.1 == eng.piecesByType(pos, p.0) && p.1 != 0
    decreases hi
  {
    if hi >= PAWN {
      PiecesUpToSound(eng, pos, hi - 1);
      var rest, r := PiecesUpTo(eng, pos, hi - 1), PiecesUpTo(eng, pos, hi);
      var bb := eng.piecesByType(pos, hi);
      assert r == rest + if bb != 0 then [(hi as PieceType, bb)] else [];
    }
  }

  /** The pairs are in strictly ascending piece-type order. */
  predicate Ascending(ps: seq<(PieceType, Bitboard)>) {
    forall i, j :: 0 <= i < j < |ps| ==> ps[i].0 < ps[j].0
  }

  /** PiecesUpTo lists the piece types in ascending order, each at most once. */
  lemma {:induction false} PiecesUpToAscending<Pos>(eng: Engine<Pos>, pos: Pos, hi: int)
    requires hi <= KING
    ensures Ascending(PiecesUpTo(eng, pos, hi))
    decreases hi
  {
    if hi >= PAWN {
      PiecesUpToSound(eng, pos, hi - 1);
      PiecesUpToAscending(eng, pos, hi - 1);
      var rest, r := PiecesUpTo(eng, pos, hi - 1), PiecesUpTo(eng, pos, hi);
      var bb := eng.piecesByType(pos, hi);
      assert r == rest + if bb != 0 then [(hi as PieceType, bb)] else [];
      forall i, j | 0 <= i < j < |r| ensures r[i].0 < r[j].0 {
        assert r[i] == rest[i];
        if j < |rest| {
          assert r[j] == rest[j] && rest[i].0 < rest[j].0;
        } else {
          assert rest[i] in rest;
          assert rest[i].0 <= hi - 1 && r[j].0 == hi;
        }
      }
    }
  }

  /** No piece type up to hi with a non-empty bitboard is missing. */
  lemma {:induction false} PiecesUpToComplete<Pos>(eng: Engine<Pos>, pos: Pos, hi: int)
    requires hi <= KING
    ensures forall pt: PieceType :: pt <= hi && eng.piecesByType(pos, pt) != 0 ==>
      (pt, eng.piecesByType(pos, pt)) in PiecesUpTo(eng, pos, hi)
    decreases hi
  {
    if hi >= PAWN {
      PiecesUpToComplete(eng, pos, hi - 1);
    }
  }

  /** Lines 197-202: the pattern describing position pos. */
  function PatternOf<Pos>(eng: Engine<Pos>, pos: Pos): Pattern {
    Pattern(eng.pieces(pos), eng.piecesOf(pos, White), PiecesUpTo(eng, pos, KING))
  }

  /** A position satisfies the pattern taken from fenPos iff it has at least
      the pieces of fenPos, overall, for White and for each piece type. */
  lemma PatternOfIff<Pos>(eng: Engine<Pos>, fenPos: Pos, pos: Pos)
    ensures PatternHolds(eng, PatternOf(eng, fenPos), pos) <==> Dominates(eng, pos, fenPos)
  {
    var ps := PiecesUpTo(eng, fenPos, KING);
    PiecesUpToSound(eng, fenPos, KING);
    PiecesUpToComplete(eng, fenPos, KING);
    if PatternHolds(eng, PatternOf(eng, fenPos), pos) {
      forall pt: PieceType
        ensures Covers(eng.piecesByType(pos, pt), eng.piecesByType(fenPos, pt))
      {
        if eng.piecesByType(fenPos, pt) != 0 {
          var i :| 0 <= i < |ps| && ps[i] == (pt, eng.piecesByType(fenPos, pt));
        }
      }
    }
  }

  /** A position always satisfies the pattern built from itself. */
  lemma PatternSelfMatch<Pos>(eng: Engine<Pos>, pos: Pos)
    ensures PatternHolds(eng, PatternOf(eng, pos), pos)
  {
    PatternOfIff(eng, pos, pos);
  }

  /** The rule chain and parameters held after parse_rules ran on a record
      whose chain and parameters were prior. */
  function Compile<Pos>(eng: Engine<Pos>, q: Query<Pos>, prior: Filter): (f: Filter)
    ensures TerminatedFrom(f.rules, 0)
  {
    var preds := Predicates(q);
    var rules := prior.rules + preds + [Terminator(|prior.rules| + |preds|)];
    assert rules[|rules| - 1].IsTerminator();
    Filter(
      rules,
      if q.fen.Some?
      then Pattern(eng.pieces(q.fen.value), eng.piecesOf(q.fen.value, White),
                   prior.pattern.pieces + PiecesUpTo(eng, q.fen.value, KING))
      else prior.pattern,
      if q.material.Some? then eng.materialKeyOf(q.material.value) else prior.matKey,
      if TargetResult(q).Some? then TargetResult(q).value else prior.result)
  }

  /** A record with no rules and no per-type pattern pairs yet, as a freshly
      constructed Scout::Data holds; its other parameters are arbitrary. */
  predicate Cleared(prior: Filter) {
    prior.rules == [] && prior.pattern.pieces == []
  }

  /** A result token that does not decode changes nothing: the query compiles
      as if it had no result field. */
  lemma InvalidResultIgnored<Pos>(eng: Engine<Pos>, q: Query<Pos>, prior: Filter)
    requires q.result.Some? && ParseResult(q.result.value) == Invalid
    ensures Compile(eng, q, prior) == Compile(eng, q.(result := None), prior)
  {
    assert Predicates(q) == Predicates(q.(result := None));
  }

  /** The query asks for at least one test. */
  predicate HasTest<Pos>(q: Query<Pos>) {
    q.fen.Some? || q.material.Some? || q.stm.Some? || TargetResult(q).Some?
  }

  /** Reference meaning of a query for one position of a game with result
      res: it asks for some test, and every test it asks for holds. */
  predicate QueryHolds<Pos>(eng: Engine<Pos>, q: Query<Pos>, pos: Pos, res: GameResult) {
    HasTest(q) && TestsHold(eng, q, pos, res)
  }

  /** The chain compiled into a cleared record ends, right after the query's
      predicates, in RuleEnd when the query asks for a test and in RuleNone
      when it asks for none. */
  lemma CompiledChainShape<Pos>(eng: Engine<Pos>, q: Query<Pos>, prior: Filter)
    requires Cleared(prior)
    ensures var f := Compile(eng, q, prior);
      FirstTerminator(f.rules, 0) == |Predicates(q)| == |f.rules| - 1
      && (f.rules[|Predicates(q)|] == RuleEnd <==> HasTest(q))
      && (!HasTest(q) ==> f.rules == [RuleNone])
  {
    var f := Compile(eng, q, prior);
    var preds := Predicates(q);
    PredicatesShape(q);
    assert f.rules == preds + [Terminator(|preds|)];
    assert forall x :: 0 <= x < |preds| ==> !f.rules[x].IsTerminator();
  }

  /** Every test the query asks for holds (no demand that it asks for one). */
  predicate TestsHold<Pos>(eng: Engine<Pos>, q: Query<Pos>, pos: Pos, res: GameResult) {
    (q.fen.Some? ==> Dominates(eng, pos, q.fen.value))
    && (q.material.Some? ==> eng.materialKey(pos) == eng.materialKeyOf(q.material.value))
    && (q.stm.Some? ==> eng.sideToMove(pos) == (if q.stm.value == "WHITE" then White else Black))
    && (TargetResult(q).Some? ==> res == TargetResult(q).value)
  }

  /** What the compiled record demands of a position for one asked rule. */
  lemma AskedRuleMeaning<Pos>(eng: Engine<Pos>, q: Query<Pos>, prior: Filter, r: RuleType, pos: Pos, res: GameResult)
    requires Cleared(prior)
    requires Asked(q, r)
    ensures Satisfied(eng, Compile(eng, q, prior), r, pos, res) <==>
      match r
      case RulePattern => Dominates(eng, pos, q.fen.value)
      case RuleMaterial => eng.materialKey(pos) == eng.materialKeyOf(q.material.value)
      case RuleResult => res == TargetResult(q).value
      case RuleWhite => eng.sideToMove(pos) == White
      case RuleBlack => eng.sideToMove(pos) == Black
      case _ => false
  {
    var f := Compile(eng, q, prior);
    if r == RulePattern {
      assert f.pattern == PatternOf(eng, q.fen.value);
      PatternOfIff(eng, q.fen.value, pos);
    }
  }

  /** When each pushed predicate is satisfied, every test of the query holds. */
  lemma PredicatesSatisfiedSound<Pos>(eng: Engine<Pos>, q: Query<Pos>, prior: Filter, pos: Pos, res: GameResult)
    requires Cleared(prior)
    requires forall r :: r in Predicates(q) ==> Satisfied(eng, Compile(eng, q, prior), r, pos, res)
    ensures TestsHold(eng, q, pos, res)
  {
    if q.fen.Some? {
      PredicateMembers(q, RulePattern);
      AskedRuleMeaning(eng, q, prior, RulePattern, pos, res);
    }
    if q.material.Some? {
      PredicateMembers(q, RuleMaterial);
      AskedRuleMeaning(eng, q, prior, RuleMaterial, pos, res);
    }
    if q.stm.Some? {
      PredicateMembers(q, SideRule(q.stm.value));
      AskedRuleMeaning(eng, q, prior, SideRule(q.stm.value), pos, res);
    }
    if TargetResult(q).Some? {
      PredicateMembers(q, RuleResult);
      AskedRuleMeaning(eng, q, prior, RuleResult, pos, res);
    }
  }

  /** When every test of the query holds, each pushed predicate is satisfied. */
  lemma PredicatesSatisfiedComplete<Pos>(eng: Engine<Pos>, q: Query<Pos>, prior: Filter, pos: Pos, res: GameResult)
    requires Cleared(prior)
    requires TestsHold(eng, q, pos, res)
    ensures forall r :: r in Predicates(q) ==> Satisfied(eng, Compile(eng, q, prior), r, pos, res)
  {
    forall r | r in Predicates(q) ensures Satisfied(eng, Compile(eng, q, prior), r, pos, res) {
      PredicateMembers(q, r);
      AskedRuleMeaning(eng, q, prior, r, pos, res);
    }
  }

  /** Every rule of a chain is satisfied iff every listed rule value is. */
  lemma AllSatisfiedByIndex<Pos>(eng: Engine<Pos>, f: Filter, rules: seq<RuleType>, pos: Pos, res: GameResult)
    ensures (forall j :: 0 <= j < |rules| ==> Satisfied(eng, f, rules[j], pos, res))
        <==> (forall r :: r in rules ==> Satisfied(eng, f, r, pos, res))
  {
    if forall j :: 0 <= j < |rules| ==> Satisfied(eng, f, rules[j], pos, res) {
      forall r | r in rules ensures Satisfied(eng, f, r, pos, res) {
        var j :| 0 <= j < |rules| && rules[j] == r;
      }
    }
  }

  /** The compiled chain admits a position exactly when the query holds there. */
  lemma CompiledQueryMeaning<Pos>(eng: Engine<Pos>, q: Query<Pos>, prior: Filter, pos: Pos, res: GameResult)
    requires Cleared(prior)
    ensures Admits(eng, Compile(eng, q, prior), pos, res) <==> QueryHolds(eng, q, pos, res)
  {
    var f := Compile(eng, q, prior);
    var preds := Predicates(q);
    CompiledChainShape(eng, q, prior);
    if forall r :: r in preds ==> Satisfied(eng, f, r, pos, res) {
      PredicatesSatisfiedSound(eng, q, prior, pos, res);
    }
    if TestsHold(eng, q, pos, res) {
      PredicatesSatisfiedComplete(eng, q, prior, pos, res);
    }
    AllSatisfiedByIndex(eng, f, preds, pos, res);
    assert forall j :: 0 <= j < |preds| ==> f.rules[j] == preds[j];
  }

  /** A game matches the compiled query iff some position after at least one
      of its moves satisfies the query, its result being that of the game. */
  lemma QueryMatchesGame<Pos>(eng: Engine<Pos>, q: Query<Pos>, prior: Filter, db: seq<Move>, g: nat)
    requires Cleared(prior)
    requires g < |db| && HasSentinelFrom(db, g + 1)
    ensures var f := Compile(eng, q, prior);
      GameMatch(eng, f, db, eng.resultOf(db[g]), g, eng.rootPos) <==>
        exists k :: g < k < FirstSentinel(db, g + 1) && QueryHolds(eng, q, PosAfter(eng, db, g, k), eng.resultOf(db[g]))
  {
    var f := Compile(eng, q, prior);
    var res := eng.resultOf(db[g]);
    var t := FirstSentinel(db, g + 1);
    if g < t {
      GameMatchMeaning(eng, f, db, res, g, g);
      assert PosAfter(eng, db, g, g) == eng.rootPos;
      forall k | g < k < t
        ensures Admits(eng, f, PosAfter(eng, db, g, k), res) <==> QueryHolds(eng, q, PosAfter(eng, db, g, k), res)
      {
        CompiledQueryMeaning(eng, q, prior, PosAfter(eng, db, g, k), res);
      }
    }
  }

  /** Lines 197-202: set the pattern's occupancy bitboards from pos and push
      a pair for every piece type pos has pieces of. */
  method PushPattern<Pos>(data: Data, eng: Engine<Pos>, pos: Pos)
    modifies data`pattern
    ensures data.pattern == Pattern(eng.pieces(pos), eng.piecesOf(pos, White),
                                    old(data.pattern.pieces) + PiecesUpTo(eng, pos, KING))
  {
    ghost var base := data.pattern.pieces;
    data.pattern := data.pattern.(all := eng.pieces(pos), white := eng.piecesOf(pos, White));
    for pt: int := PAWN to KING + 1
      invariant data.pattern.all == eng.pieces(pos) && data.pattern.white == eng.piecesOf(pos, White)
      invariant data.pattern.pieces == base + PiecesUpTo(eng, pos, pt - 1)
    {
      var bb := eng.piecesByType(pos, pt);
      if bb != 0 {
        data.pattern := data.pattern.(pieces := data.pattern.pieces + [(pt, bb)]);
      }
    }
  }

  /** Scout::parse_rules on a decoded query: store the pattern and its
      per-type pairs, the material key and the target result of the fields
      present, append their predicate rules, then the terminator. */
  method ParseRules<Pos>(data: Data, eng: Engine<Pos>, q: Query<Pos>)
    modifies data`rules, data`pattern, data`matKey, data`result
    ensures data.HotRules() == Compile(eng, q, old(data.HotRules()))
  {
    if q.fen.Some? {
      PushPattern(data, eng, q.fen.value);
    }
    if q.material.Some? {
      data.matKey := eng.materialKeyOf(q.material.value);
    }
    if q.result.Some? {
      var result := ParseResult(q.result.value);
      if result != Invalid {
        data.result := result;
      }
    }
    var pushed := PushedRules(q);
    data.rules := data.rules + pushed;
    data.rules := data.rules + [Terminator(|data.rules|)];
  }
}
