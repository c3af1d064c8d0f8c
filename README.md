# Scoutfish scanning core in Dafny

This project models the engine that scoutfish uses to answer a query against a
chess-game database. It covers three parts.

- **`Scout::parse_rules`** turns a query into a rule chain and its parameters. The query has up to four fields: an occupancy pattern from a FEN, a material signature, a side to move and a game result. The chain is a sequence of `RulePattern`, `RuleMaterial`, `RuleWhite`/`RuleBlack` and `RuleResult`. It ends in `RuleEnd`, or in `RuleNone` when the query asks for nothing.
- **`Scout::search`** is one worker's scan. The database is a flat array of move records, and a `MOVE_NONE` sentinel closes each game. The first record of a game carries its result. Each worker receives a raw record range.
  - It moves its cursor just past the first sentinel in that range.
  - It replays every game that starts before the end of the range.
  - After every move it walks the rule chain.
  - It counts the moves and the games that matched.
- **`Scout::print_results`** adds up the per-worker counters. It also computes the elapsed time and the throughput in integer arithmetic.

The chess engine is abstract. A position is a type parameter. Move application, occupancy bitboards, the material key, the side to move, the key of a material description and the decoding of a game's result record are uninterpreted functions held in an `Engine` record.

## Files

- `scout_types.dfy`: records, bitboards, rule types, the compiled `Filter`, the `Engine` record, and the class `Data`. `Data` is the per-worker record that `parse_rules` and `search` update in place.
- `database.dfy`: cursor arithmetic over the record array.
  - the first sentinel after an index
  - game starts
  - the line-142 skip over sentinels
  - the sequence `Walk` of games the game loop visits
- `partition.dfy`: the raw ranges `[i*(N/W), (i+1)*(N/W))`, with the last range ending at `N`, and the worker that owns each record.
- `rule_engine.dfy`: the predicate tests, the chain walk with its three outcomes (position failed, game abandoned, match), and the per-game match decision. Each is given an order-free characterisation.
- `search.dfy`: `Scout::search` written as its loops, each proved against the functions above. Also the facts that relate different workers.
- `rule_compiler.dfy`: `Scout::parse_rules` and the meaning of the compiled chain in terms of the query.
- `results.dfy`: `Scout::print_results`.

## Preconditions the model makes explicit

- **Terminated chain.** The rule chain contains `RuleEnd` or `RuleNone` (`TerminatedFrom`). Otherwise the walk at lines 89-135 runs off the chain.
- **Valid buffer.** The database holds `N` records, the slot at index `N` is readable, and the record stream ends on a game boundary (`ValidDatabase`). The loop at line 142 reads the record before it tests the bound, so it can read index `N`.
- **Sentinel after the raw start.** A sentinel exists at or after each worker's raw start (`WorkerReady`). The loop at line 65 needs one.
- **Line-70 assert.** The aligned cursor does not land on a second, adjacent sentinel (`AlignsOnRecord`). The lemma `Search.AlignmentCanLandOnSentinel` gives a database on which the assert at line 70 fails without this condition. Later games need no such condition, because the loop at line 142 already skips runs of sentinels.
- **Short games.** Every game a worker processes has at most 1024 moves (`ShortGames`), which is the size of the `StateInfo` buffer. `ReplayGame` asserts that the buffer index stays below 1024 before each replayed move.

## Behaviour that follows the code

The scan is meant to process every game exactly once across the workers. As written, it processes a game exactly once unless the game's result record sits exactly at a later worker's raw start `i*(N/W)`.

- That worker skips the game, because the alignment at line 65 moves past the game's closing sentinel.
- The previous worker also skips the game, because that worker's range ends at the record before it.

The model follows the code.

- `Search.GameOwnership` states exactly which worker processes which game.
- `Search.GameAtRawStartIsDropped` gives a concrete database on which one game is processed by nobody.

## Model

| member | source | states |
|---|---|---|
| Database.FirstSentinel | src/scout.cpp:77 | The sentinel that ends a game's move loop is the first one after the index. It is inside the buffer, and no sentinel comes before it. |
| Database.SentinelAfterRecord | src/scout.cpp:131 | A record before `N` that is not a sentinel is followed by a sentinel that is still before `N`, so the move loop and the skip loop stay inside the database. |
| Database.NextRecord | src/scout.cpp:142 | The skip at line 142 passes only sentinels. It never moves the cursor past `end`, and whenever it stops before `end` it stops on a record. |
| Database.Walk | src/scout.cpp:68-143 | The games the game loop visits are game starts inside `[g, end)`, in strictly increasing order. |
| Database.WalkVisitsExactly | src/scout.cpp:68-143 | Entered at a game start, the game loop visits index `x` if and only if `x` is a game start in `[g, end)`. |
| Database.AlignedStart | src/scout.cpp:65 | The alignment leaves the cursor after the raw start, just past a sentinel. |
| Database.GamesFromExactly | src/scout.cpp:65-143 | A worker with raw range `[s, end)` visits exactly the game starts strictly after `s` and before `end`. |
| Partition.RawStart | src/scout.cpp:53 | Worker `i` starts at `i*(N/W)`, which never exceeds `N`. |
| Partition.RawEnd | src/scout.cpp:54-55 | A worker's raw end lies between its start and `N`. |
| Partition.RangesTile | src/scout.cpp:52-55 | The raw ranges start at 0, end at `N` and are contiguous. With fewer records than workers, every range except the last is empty. |
| Partition.RangesOrdered | src/scout.cpp:52-55 | The range of a lower-numbered worker ends no later than the range of any higher-numbered worker begins. |
| Partition.Owner | src/scout.cpp:52-55 | Every record below `N` lies in the raw range of some worker. |
| Partition.InRangeIffOwner | src/scout.cpp:52-55 | A record lies in worker `i`'s raw range if and only if `i` is its owner, so the ranges are disjoint. |
| RuleEngine.FirstTerminator | src/scout.cpp:89-94 | The chain walk stops at the first `RuleNone` or `RuleEnd`, and no terminator comes before it. |
| RuleEngine.ChainVerdict | src/scout.cpp:89-135 | The chain walk written as a recursive function over the rule index, with its three outcomes: position failed, skip to the next game, match. `ChainVerdictMeaning` states what it means and `EvalRules` is proved to compute it. |
| RuleEngine.ChainVerdictMeaning | src/scout.cpp:85-135 | The walk reports a match if and only if the chain ends in `RuleEnd` and every rule before the terminator holds. It abandons the game only when a `Result` rule's target differs from the game's result. |
| RuleEngine.PatternHolds | src/scout.cpp:97-103 | The pattern test: occupancy, White occupancy and each listed piece type's bitboard cover the pattern's bitboards. `PatternOfIff` and `PatternMonotone` state its meaning. |
| RuleEngine.PositionPasses | src/scout.cpp:96-119 | The position test of one predicate rule. `Result` and the terminators do not look at the position. |
| RuleEngine.GameMatch | src/scout.cpp:77-139 | The per-game match decision of the move loop with its fast skip, as a recursive function over the move index. `GameMatchMeaning` states what it means, `ReplayGame` is proved to compute it, and `MatchedGames` counts it. |
| RuleEngine.GameMatchMeaning | src/scout.cpp:77-139 | A game matches if and only if some position reached after at least one of its moves is admitted by the chain. The starting position never counts, and a game with no moves never matches. |
| RuleEngine.AdmitsIgnoresOrder | src/scout.cpp:85-135 | Whether a position is admitted depends only on the set of predicates before the terminator, not on their order. |
| RuleEngine.RuleOrderIrrelevant | src/scout.cpp:85-135 | Two chains that list the same predicates in a different order, with the same terminator, decide every game alike. |
| RuleEngine.NoneChainNeverMatches | src/scout.cpp:93-94 | A chain whose first terminator is `RuleNone` matches no game. |
| RuleEngine.CoversTransitive | src/scout.cpp:97-103 | Bitwise covering is transitive. |
| RuleEngine.PatternMonotone | src/scout.cpp:97-103 | A position with at least the pieces of a matching position also matches the pattern: adding pieces never breaks a pattern match. |
| Search.MatchedGames | src/scout.cpp:127 | Each game adds 0 or 1 to the match count, so a worker never counts more matches than games. |
| Search.MatchesAtMostMoves | src/scout.cpp:84 | A matching game has at least one move, so matches never exceed the moves counted. |
| Search.EmptyChainMatchesNothing | src/scout.cpp:93-94 | The chain `[RuleNone]` of an empty query yields a match count of 0. |
| Search.TallyStep | src/scout.cpp:68-143 | One turn of the game loop takes the current game off the walk. The game's move count and its 0-or-1 match move from the rest of the walk to the counters. |
| Search.GameOwnership | src/scout.cpp:52-65 | Worker `i` processes game `x` if and only if `i` owns `x`'s record and `x` is not `i`'s raw start. |
| Search.NoGameTwice | src/scout.cpp:52-65 | No game is processed by two workers. |
| Search.GameAtRawStartIsDropped | src/scout.cpp:53-65 | On the six-record database `[-, r, -, r, m, -]` split between two workers, the game at record 3 is processed by neither. |
| Search.AlignmentCanLandOnSentinel | src/scout.cpp:65-70 | When a raw start is followed by two adjacent sentinels, the aligned cursor lands on a sentinel and the assert at line 70 fails. |
| Search.SkipToGameStart | src/scout.cpp:65 | The alignment loop stops just past the first sentinel at or after the raw start. |
| Search.EvalRules | src/scout.cpp:85-135 | The switch loop returns the verdict of the chain-walk specification: failed, skip to next game, or match. |
| Search.SkipRestOfGame | src/scout.cpp:131-132 | The skip after a match or a result mismatch stops on the game's last move and counts every move it passes. |
| Search.SkipSentinels | src/scout.cpp:142 | The sentinel skip stops where `NextRecord` says. |
| Search.ReplayGame | src/scout.cpp:72-139 | Replaying one game stops at its closing sentinel. It counts exactly the game's moves, whether replayed or skipped, and reports a match exactly when the game matches. |
| Search.ShortGameBound | src/scout.cpp:47 | A game in a range of short games has at most 1024 moves, so it fits the `StateInfo` buffer. |
| Search.NextGame | src/scout.cpp:70-142 | One game-loop turn moves the cursor forward to the next game start, or to `end` or beyond. The moves and the match it counts are exactly what that game adds to the walk's totals. |
| Search.ScanRange | src/scout.cpp:64-143 | The loops count exactly the moves of all games the worker visits, and the number of those games that match. |
| Search.Search | src/scout.cpp:45-147 | After the scan, `movesCnt` is the number of moves and `matchCnt` the number of matching games among the games the worker processes. |
| RuleCompiler.ParseResult | src/scout.cpp:222-225 | A token decodes to a result other than `Invalid` if and only if it is one of `1-0`, `0-1`, `1/2-1/2`, `*`. |
| RuleCompiler.ResultToken | src/scout.cpp:222-225 | Each result has exactly one token that decodes to it, and encoding then decoding gives the result back. |
| RuleCompiler.SideRule | src/scout.cpp:216 | `WHITE` gives `RuleWhite`, and any other value gives `RuleBlack`. |
| RuleCompiler.PredicatesShape | src/scout.cpp:190-232 | The pushed predicate rules contain no terminator, and at least one is pushed exactly when the query asks for a test. |
| RuleCompiler.PredicatesOrdered | src/scout.cpp:190-232 | The pushed rules come in the fixed order Pattern, Material, side to move, Result, each at most once. |
| RuleCompiler.Predicates | src/scout.cpp:190-232 | The predicate rules pushed for a query, in push order. `PredicatesShape`, `PredicatesOrdered` and `PredicateMembers` state its shape, order and members. |
| RuleCompiler.PredicateMembers | src/scout.cpp:190-232 | A rule is pushed if and only if its field asks for it. The result field counts only when its token decodes. |
| RuleCompiler.PushedRules | src/scout.cpp:204-230 | The rules the field tests push are the query's predicates, in push order. |
| RuleCompiler.PiecesUpToSound | src/scout.cpp:200-202 | Every `(pt, bb)` pair in the pattern holds a piece type's own bitboard, and that bitboard is not empty. |
| RuleCompiler.PiecesUpToAscending | src/scout.cpp:200-202 | The pairs are in strictly ascending piece-type order. |
| RuleCompiler.PiecesUpToComplete | src/scout.cpp:200-202 | No piece type with a non-empty bitboard is missing from the pairs. |
| RuleCompiler.PatternOfIff | src/scout.cpp:197-202 | A position satisfies the pattern built from a FEN position if and only if it has at least that position's pieces, overall, for White and for each piece type. |
| RuleCompiler.PiecesUpTo | src/scout.cpp:200-202 | The pairs pushed by the piece-type loop. `PiecesUpToSound`, `PiecesUpToAscending` and `PiecesUpToComplete` state what they hold. |
| RuleCompiler.PatternOf | src/scout.cpp:197-202 | The pattern built from a FEN position, whose meaning `PatternOfIff` states. |
| RuleCompiler.PatternSelfMatch | src/scout.cpp:197-202 | A position always satisfies the pattern built from itself. |
| RuleCompiler.Compile | src/scout.cpp:177-235 | The compiled chain is always terminated, so the search can walk it. |
| RuleCompiler.InvalidResultIgnored | src/scout.cpp:220-232 | A result token that does not decode changes nothing. The query compiles as if it had no result field. |
| RuleCompiler.CompiledChainShape | src/scout.cpp:234 | Compiled into a record with no rules and no pattern pairs yet, the only terminator is the last rule, right after the predicates. It is `RuleEnd` if and only if the query asks for a test, and the chain is exactly `[RuleNone]` otherwise. |
| RuleCompiler.AskedRuleMeaning | src/scout.cpp:96-124 | For each pushed rule, what the compiled parameters demand of a position is the corresponding test of the query. |
| RuleCompiler.PredicatesSatisfiedSound | src/scout.cpp:96-124 | When every pushed rule holds, every test of the query holds. |
| RuleCompiler.PredicatesSatisfiedComplete | src/scout.cpp:96-124 | When every test of the query holds, every pushed rule holds. |
| RuleCompiler.AllSatisfiedByIndex | src/scout.cpp:89-91 | Every rule of a chain holds if and only if every rule value listed in it holds. |
| RuleCompiler.CompiledQueryMeaning | src/scout.cpp:85-135 | The compiled chain admits a position if and only if the query asks for some test and every test it asks for holds there. |
| RuleCompiler.QueryMatchesGame | src/scout.cpp:77-139 | A game matches the compiled query if and only if some position after at least one of its moves satisfies the query, with the game's own result. |
| RuleCompiler.PushPattern | src/scout.cpp:197-202 | The pattern gets the FEN position's occupancy and White bitboards, and the pairs for its non-empty piece types are appended after any pairs already there. |
| RuleCompiler.ParseRules | src/scout.cpp:177-235 | The record's chain, pattern, material key and target result become exactly the compiled query applied to the record's previous contents. |
| ScoutTypes.Data.HotRules | src/scout.cpp:58-62 | The copy of the chain and the parameters that the scan reads. `ParseRules` states what it holds after the query is parsed. |
| Results.SumsAppend | src/scout.cpp:161-165 | Adding one more worker adds its counters to the totals. |
| Results.TotalMatchesAtMostMoves | src/scout.cpp:161-165 | If no worker counted more matches than moves, the totals keep that relation. |
| Results.PrintResults | src/scout.cpp:155-170 | `elapsed` is `now - start + 1`, which is at least 1. The totals are the sums of all workers' counters. The throughput is `1000*moves/elapsed` rounded down, stated as the two bounds of floor division. |

## Left out

- JSON parsing, FEN parsing and material-string parsing are not modelled. A query arrives as four optional fields.
  - A FEN arrives as the position the engine set up from it.
  - A material description is mapped to its key by the engine function `materialKeyOf`.
  - A field is absent when the JSON value is null, missing or an empty container.
  - For `stm` and `result`, a value that is not a string compares unequal to every token. The model already covers this case, because any unrecognised string behaves the same way: `stm` gives `RuleBlack` and `result` decodes to `Invalid`.
  - For `fen` and `material`, a value that is not a string is passed to `Position::set`, which expects a string, so the conversion throws and `parse_rules` fails. The model does not capture this failure.
- Chess rules are not modelled: move legality (the assert at line 81), `gives_check`, `do_move` and `StateInfo` contents. `do_move` is an uninterpreted function. The `StateInfo` buffer is kept only as a bound on the replay index.
- How a game's result is packed into its first record is not modelled. Decoding is the engine function `resultOf`.
- The thread pool is not modelled. Each worker is an independent call with its index and the worker count. Every worker's root position is the engine's `rootPos`.
- `mem_unmap`, the memory mapping, the clock and the printing to `std::cerr` are not modelled. `PrintResults` receives the start time and the current time as parameters and returns the four reported figures.
- Search.Search: the `size_t` counters are unbounded integers, so their 64-bit wrap-around is not modelled.
- Results.PrintResults: the 64-bit wrap-around of the sums, of `1000 * cnt` and of `TimePoint` is not modelled. The model also requires `now >= start`, because the code would divide by zero or a negative number when the clock runs backwards.
- RuleCompiler.ParseRules: the model first stores the pattern, the material key and the target result, then appends the rules of all fields. The code interleaves these per field. The two orders give the same final record.
- RuleCompiler.Compile: the lemmas that state what the compiled chain means (`CompiledChainShape`, `CompiledQueryMeaning`, `QueryMatchesGame` and their helpers) assume the record had no rules and no per-type pattern pairs before `parse_rules` (`Cleared`). A freshly constructed `Data` has neither. Its other parameters are arbitrary. `ParseRules` itself is stated for any previous contents. The defaults of `Scout::Data` are not part of this model, so the constructor promises nothing about `matKey` or `result`.
