/** The flat record array and the cursor arithmetic of the game loop:
    sentinel search, game starts, the skip over runs of sentinels between
    games (line 142) and the sequence of games one worker visits. */
module Database {
  import opened ScoutTypes

  /** Some sentinel lies at or after index k inside the readable buffer. */
  predicate HasSentinelFrom(db: seq<Move>, k: nat) {
    exists j :: k <= j < |db| && db[j] == MOVE_NONE
  }

  /** The first sentinel at or after index k. */
  function FirstSentinel(db: seq<Move>, k: nat): (j: nat)
    requires HasSentinelFrom(db, k)
    ensures k <= j < |db| && db[j] == MOVE_NONE
    ensures forall x :: k <= x < j ==> db[x] != MOVE_NONE
    decreases |db| - k
  {
    if db[k] == MOVE_NONE then k else FirstSentinel(db, k + 1)
  }

  /** Index g holds a game's result record: it follows a sentinel and is not one. */
  predicate IsGameStart(db: seq<Move>, g: nat) {
    0 < g < |db| && db[g - 1] == MOVE_NONE && db[g] != MOVE_NONE
  }

  /** The database holds n records, the slot at index n is readable, and the
      record stream ends on a game boundary. */
  predicate ValidDatabase(db: seq<Move>, n: nat) {
    n < |db| && (n > 0 ==> db[n - 1] == MOVE_NONE)
  }

  /** Number of real moves of the game whose result record is at g. */
  function MoveCount(db: seq<Move>, g: nat): nat
    requires HasSentinelFrom(db, g + 1)
  {
    FirstSentinel(db, g + 1) - g - 1
  }

  /** Every non-sentinel record inside the database is followed by a sentinel
      that is still inside the database. */
  lemma SentinelAfterRecord(db: seq<Move>, n: nat, x: nat)
    requires ValidDatabase(db, n) && x < n && db[x] != MOVE_NONE
    ensures HasSentinelFrom(db, x + 1) && FirstSentinel(db, x + 1) < n
  {
    assert db[n - 1] == MOVE_NONE;
  }

  /** Line 142 from cursor p: skip sentinels while still before end. */
  function NextRecord(db: seq<Move>, p: nat, end: nat): (q: nat)
    requires p < |db| && end < |db|
    ensures p <= q < |db|
    ensures q > p ==> q - 1 < end
    ensures forall y :: p <= y < q ==> db[y] == MOVE_NONE
    ensures q < end ==> db[q] != MOVE_NONE
    decreases |db| - p
  {
    if db[p] == MOVE_NONE && p < end then NextRecord(db, p + 1, end) else p
  }

  /** The result-record indices of the games the game loop (lines 68-143)
      visits when its cursor enters at g and its range ends at end. */
  function Walk(db: seq<Move>, n: nat, g: nat, end: nat): (r: seq<nat>)
    requires ValidDatabase(db, n) && end <= n
    requires g < end ==> IsGameStart(db, g)
    ensures forall x :: x in r ==> g <= x < end && IsGameStart(db, x)
    ensures forall i :: 0 <= i < |r| ==> g <= r[i] < end && r[i] < |db| && HasSentinelFrom(db, r[i] + 1)
    ensures forall i, j :: 0 <= i < j < |r| ==> r[i] < r[j]
    decreases if g < end then end - g else 0
  {
    if g >= end then []
    else
      SentinelAfterRecord(db, n, g);
      var t := FirstSentinel(db, g + 1);
      var next := NextRecord(db, t + 1, end);
      assert g < next && (next < end ==> db[next - 1] == MOVE_NONE);
      [g] + Walk(db, n, next, end)
  }

  /** The walk entered at a game start visits exactly the game starts in [g, end). */
  lemma {:induction false} WalkVisitsExactly(db: seq<Move>, n: nat, g: nat, end: nat, x: nat)
    requires ValidDatabase(db, n) && end <= n
    requires g < end ==> IsGameStart(db, g)
    ensures x in Walk(db, n, g, end) <==> g <= x < end && IsGameStart(db, x)
    decreases if g < end then end - g else 0
  {
    if g < end {
      SentinelAfterRecord(db, n, g);
      var t := FirstSentinel(db, g + 1);
      var next := NextRecord(db, t + 1, end);
      assert next < end ==> db[next - 1] == MOVE_NONE;
      assert Walk(db, n, g, end) == [g] + Walk(db, n, next, end);
      WalkVisitsExactly(db, n, next, end, x);
      if g < x < next && x < end {
        // x - 1 is a move of game g, its terminator, or a skipped sentinel
        if x <= t {
          assert db[x - 1] != MOVE_NONE || x - 1 == g;
        } else {
          assert db[x] == MOVE_NONE;
        }
      }
    }
  }

  /** Line 65: the cursor lands just past the first sentinel at or after s. */
  function AlignedStart(db: seq<Move>, s: nat): (a: nat)
    requires HasSentinelFrom(db, s)
    ensures s < a <= |db| && db[a - 1] == MOVE_NONE
  {
    FirstSentinel(db, s) + 1
  }

  /** The record the aligned cursor lands on, when inside the range, is not a
      sentinel (the assert at line 70 for the first game). */
  predicate AlignsOnRecord(db: seq<Move>, s: nat, end: nat)
    requires HasSentinelFrom(db, s) && end <= |db|
  {
    AlignedStart(db, s) < end ==> db[AlignedStart(db, s)] != MOVE_NONE
  }

  /** Games visited by a worker whose raw range is [s, end). */
  function GamesFrom(db: seq<Move>, n: nat, s: nat, end: nat): seq<nat>
    requires ValidDatabase(db, n) && end <= n
    requires HasSentinelFrom(db, s) && AlignsOnRecord(db, s, end)
  {
    Walk(db, n, AlignedStart(db, s), end)
  }

  /** A worker visits exactly the game starts strictly after its raw start and
      before its raw end: a game whose result record sits exactly at s is skipped. */
  lemma GamesFromExactly(db: seq<Move>, n: nat, s: nat, end: nat, x: nat)
    requires ValidDatabase(db, n) && end <= n
    requires HasSentinelFrom(db, s) && AlignsOnRecord(db, s, end)
    ensures x in GamesFrom(db, n, s, end) <==> s < x < end && IsGameStart(db, x)
  {
    var a := AlignedStart(db, s);
    WalkVisitsExactly(db, n, a, end, x);
  }

  /** Every game starting strictly inside (s, end) has at most MAX_PLIES moves. */
  predicate ShortGames(db: seq<Move>, s: nat, end: nat) {
    forall x :: s < x < end && IsGameStart(db, x) ==>
      exists j :: x < j <= x + MAX_PLIES + 1 && j < |db| && db[j] == MOVE_NONE
  }
}
