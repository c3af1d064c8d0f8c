/** Shared vocabulary of the scanning engine: database records, bitboards,
    rule types, the compiled rule parameters, the chess-engine interface and
    the per-thread Scout::Data record. */
module ScoutTypes {

  datatype Option<T> = None | Some(value: T)

  /** A database record. Code 0 is MOVE_NONE, the game-boundary sentinel;
      every other code is a move (the first record of a game carries the
      game result instead of a destination square). */
  type Move = nat

  const MOVE_NONE: Move := 0

  /** Size of the StateInfo buffer a worker replays a game into. */
  const MAX_PLIES: nat := 1024

  type Bitboard = bv64

  type Key = bv64

  datatype Color = White | Black

  /** PAWN .. KING. */
  type PieceType = pt: int | 1 <= pt <= 6 witness 1

  const PAWN: PieceType := 1

  const KING: PieceType := 6

  datatype GameResult = WhiteWin | BlackWin | Draw | Unknown | Invalid

  datatype RuleType = RuleNone | RulePattern | RuleMaterial | RuleWhite | RuleBlack | RuleResult | RuleEnd
  {
    /** RuleNone and RuleEnd close a chain; the other four are predicates. */
    predicate IsTerminator() {
      this == RuleNone || this == RuleEnd
    }
  }

  /** Occupancy pattern: required squares overall, of White, and per piece type. */
  datatype Pattern = Pattern(all: Bitboard, white: Bitboard, pieces: seq<(PieceType, Bitboard)>)

  /** The query parameters the scanning loop copies into locals
      (rules, pattern, material key, target result). */
  datatype Filter = Filter(rules: seq<RuleType>, pattern: Pattern, matKey: Key, result: GameResult)

  /** The chess engine the core relies on, as uninterpreted functions over an
      abstract position type: the root position, move application, occupancy
      queries, the material key and side to move, the key of a material
      description, and the decoding of a game's result record. */
  datatype Engine<!Pos> = Engine(
    rootPos: Pos,
    doMove: (Pos, Move) -> Pos,
    pieces: Pos -> Bitboard,
    piecesOf: (Pos, Color) -> Bitboard,
    piecesByType: (Pos, PieceType) -> Bitboard,
    materialKey: Pos -> Key,
    sideToMove: Pos -> Color,
    materialKeyOf: string -> Key,
    resultOf: Move -> GameResult)

  /** Scout::Data: the mapped database, the compiled query and one worker's counters. */
  class Data {
    /** The mapped records; the slot at index dbSize is readable too. */
    var baseAddress: seq<Move>
    var dbSize: nat
    var rules: seq<RuleType>
    var pattern: Pattern
    var matKey: Key
    var result: GameResult
    var movesCnt: nat
    var matchCnt: nat

    constructor (db: seq<Move>, size: nat)
      ensures baseAddress == db && dbSize == size
      ensures rules == [] && pattern == Pattern(0, 0, [])
      ensures movesCnt == 0 && matchCnt == 0
    {
      baseAddress := db;
      dbSize := size;
      rules := [];
      pattern := Pattern(0, 0, []);
      matKey := 0;
      result := WhiteWin;
      movesCnt := 0;
      matchCnt := 0;
    }

    /** Lines 58-62: the hot-path copy of the query parameters. */
    function HotRules(): Filter
      reads this
    {
      Filter(rules, pattern, matKey, result)
    }
  }
}
