/** Whole games: which moves are accepted, what the program reports after each, and what that
    means for the board. */
module GomokuGame {
  import opened Counting
  import opened GomokuRules

  function Empty(rows: nat, cols: nat): Grid {
    seq(rows, _ => seq(cols, _ => 0))
  }

  /** The player who makes the n-th move, counting from 0. */
  function Mover(n: nat): int {
    if n % 2 == 0 then PLAYER1 else PLAYER2
  }

  predicate AllOn(rows: nat, cols: nat, moves: seq<Pos>) {
    forall i :: 0 <= i < |moves| ==> On(rows, cols, moves[i].0, moves[i].1)
  }

  /** The board after a list of moves. */
  function After(rows: nat, cols: nat, moves: seq<Pos>): (g: Grid)
    requires AllOn(rows, cols, moves)
    ensures Shaped(g, rows, cols)
  {
    if moves == [] then Empty(rows, cols)
    else
      var n := |moves| - 1;
      Place(After(rows, cols, moves[..n]), moves[n].0, moves[n].1, Mover(n))
  }

  ghost predicate HasEmpty(g: Grid) {
    exists r, c :: Is(g, r, c, 0)
  }

  /** What `IsOver` reports after a stone at (r, c). */
  ghost function Verdict(g: Grid, rows: nat, cols: nat, r: int, c: int): int
    requires Shaped(g, rows, cols) && On(rows, cols, r, c)
  {
    if FiveThrough(g, rows, cols, r, c) then (if g[r][c] == PLAYER1 then PLAYER1_WIN else PLAYER2_WIN)
    else if HasEmpty(g) then NEXT
    else DRAW
  }

  ghost function Result(rows: nat, cols: nat, moves: seq<Pos>): int
    requires AllOn(rows, cols, moves)
  {
    if moves == [] then NEXT
    else
      var last := moves[|moves| - 1];
      Verdict(After(rows, cols, moves), rows, cols, last.0, last.1)
  }

  /** The moves of a game so far: each was made on an empty cell while the game was still on. */
  ghost predicate Played(rows: nat, cols: nat, moves: seq<Pos>)
    decreases |moves|
  {
    moves == [] ||
    var n := |moves| - 1;
    && AllOn(rows, cols, moves)
    && Played(rows, cols, moves[..n])
    && After(rows, cols, moves[..n])[moves[n].0][moves[n].1] == 0
    && Result(rows, cols, moves[..n]) == NEXT
  }

  lemma PlayedAppend(rows: nat, cols: nat, moves: seq<Pos>, m: Pos)
    requires Played(rows, cols, moves) && Result(rows, cols, moves) == NEXT
    requires On(rows, cols, m.0, m.1) && After(rows, cols, moves)[m.0][m.1] == 0
    ensures Played(rows, cols, moves + [m])
    ensures After(rows, cols, moves + [m]) == Place(After(rows, cols, moves), m.0, m.1, Mover(|moves|))
    ensures Result(rows, cols, moves + [m]) ==
            Verdict(Place(After(rows, cols, moves), m.0, m.1, Mover(|moves|)), rows, cols, m.0, m.1)
  {
    assert (moves + [m])[..|moves|] == moves && (moves + [m])[|moves|] == m;
  }

  // ----- the report is the truth about the whole board -----

  lemma EmptyHasNoFive(rows: nat, cols: nat, p: int)
    requires p != 0
    ensures !HasFive(Empty(rows, cols), p)
  {
    forall r, c, u, v ensures !Window(Empty(rows, cols), r, c, u, v, 0, p) {
      assert !Step(Empty(rows, cols), r, c, u, v, 0, p);
    }
  }

  /** While the game goes on, nobody has five in a row anywhere. */
  lemma {:induction false} OngoingMeansNoFive(rows: nat, cols: nat, moves: seq<Pos>)
    requires Played(rows, cols, moves) && Result(rows, cols, moves) == NEXT
    ensures var g := After(rows, cols, moves); !HasFive(g, PLAYER1) && !HasFive(g, PLAYER2)
    decreases |moves|
  {
    if moves == [] {
      EmptyHasNoFive(rows, cols, PLAYER1);
      EmptyHasNoFive(rows, cols, PLAYER2);
    } else {
      LastMove(rows, cols, moves);
    }
  }

  /** The effect of the last move on five-in-a-row. */
  lemma {:induction false} LastMove(rows: nat, cols: nat, moves: seq<Pos>)
    requires Played(rows, cols, moves) && moves != []
    ensures var g := After(rows, cols, moves);
            var p := Mover(|moves| - 1);
            var last := moves[|moves| - 1];
            && g[last.0][last.1] == p
            && (HasFive(g, p) <==> FiveThrough(g, rows, cols, last.0, last.1))
            && !HasFive(g, PLAYER1 + PLAYER2 - p)
    decreases |moves|, 0
  {
    var n := |moves| - 1;
    var before := moves[..n];
    var last := moves[n];
    OngoingMeansNoFive(rows, cols, before);
    LocalTestIsGlobal(After(rows, cols, before), rows, cols, last.0, last.1, Mover(n));
    OthersUnaffected(After(rows, cols, before), rows, cols, last.0, last.1, Mover(n), PLAYER1 + PLAYER2 - Mover(n));
  }

  /** The report after a stone of p, once the local test is known to be global. */
  lemma VerdictIsGlobal(g: Grid, rows: nat, cols: nat, r: int, c: int, p: int)
    requires Shaped(g, rows, cols) && On(rows, cols, r, c) && g[r][c] == p && p in {PLAYER1, PLAYER2}
    requires HasFive(g, p) <==> FiveThrough(g, rows, cols, r, c)
    requires !HasFive(g, PLAYER1 + PLAYER2 - p)
    ensures var result := Verdict(g, rows, cols, r, c);
            && (result == PLAYER1_WIN <==> HasFive(g, PLAYER1))
            && (result == PLAYER2_WIN <==> HasFive(g, PLAYER2))
            && (result == DRAW <==> !HasFive(g, PLAYER1) && !HasFive(g, PLAYER2) && !HasEmpty(g))
            && (result == NEXT <==> !HasFive(g, PLAYER1) && !HasFive(g, PLAYER2) && HasEmpty(g))
  {
  }

  /** After every move of every game, on a board of any size, the report based on the last
      stone alone is what a search of the whole board would say. */
  lemma ReportIsGlobal(rows: nat, cols: nat, moves: seq<Pos>)
    requires Played(rows, cols, moves) && moves != []
    ensures var g := After(rows, cols, moves);
            var result := Result(rows, cols, moves);
            && (result == PLAYER1_WIN <==> HasFive(g, PLAYER1))
            && (result == PLAYER2_WIN <==> HasFive(g, PLAYER2))
            && (result == DRAW <==> !HasFive(g, PLAYER1) && !HasFive(g, PLAYER2) && !HasEmpty(g))
            && (result == NEXT <==> !HasFive(g, PLAYER1) && !HasFive(g, PLAYER2) && HasEmpty(g))
  {
    LastMove(rows, cols, moves);
    var last := moves[|moves| - 1];
    VerdictIsGlobal(After(rows, cols, moves), rows, cols, last.0, last.1, Mover(|moves| - 1));
  }

  // ----- the stones -----

  function Stones(g: Grid, p: int): set<Pos> {
    set r, c | 0 <= r < |g| && 0 <= c < |g[r]| && g[r][c] == p :: (r, c)
  }

  lemma PlaceStones(g: Grid, r: int, c: int, p: int, q: int)
    requires 0 <= r < |g| && 0 <= c < |g[r]| && g[r][c] != p && g[r][c] != q
    ensures Stones(Place(g, r, c, p), q) == if p == q then Stones(g, q) + {(r, c)} else Stones(g, q)
    ensures (r, c) !in Stones(g, p)
  {
    var g' := Place(g, r, c, p);
    forall m: Pos
      ensures m in Stones(g', q) <==> m in (if p == q then Stones(g, q) + {(r, c)} else Stones(g, q))
    {
      if 0 <= m.0 < |g| && 0 <= m.1 < |g[m.0]| {
        assert g'[m.0][m.1] == if m == (r, c) then p else g[m.0][m.1];
      }
    }
  }

  /** Every stone went to an empty cell. */
  predicate Fresh(rows: nat, cols: nat, moves: seq<Pos>) {
    moves == [] ||
    var n := |moves| - 1;
    && AllOn(rows, cols, moves)
    && Fresh(rows, cols, moves[..n])
    && After(rows, cols, moves[..n])[moves[n].0][moves[n].1] == 0
  }

  lemma {:induction false} PlayedIsFresh(rows: nat, cols: nat, moves: seq<Pos>)
    requires Played(rows, cols, moves)
    ensures Fresh(rows, cols, moves)
    decreases |moves|
  {
    if moves != [] {
      PlayedIsFresh(rows, cols, moves[..|moves| - 1]);
    }
  }

  /** A stone on an empty cell adds itself and changes nothing else. */
  lemma StoneOnEmpty(g: Grid, rows: nat, cols: nat, m: Pos, p: int)
    requires Shaped(g, rows, cols) && On(rows, cols, m.0, m.1) && g[m.0][m.1] == 0 && p in {PLAYER1, PLAYER2}
    ensures var g' := Place(g, m.0, m.1, p);
            && |Stones(g', p)| == |Stones(g, p)| + 1
            && Stones(g', 3 - p) == Stones(g, 3 - p)
            && (forall r, c :: On(rows, cols, r, c) ==> g'[r][c] == if (r, c) == m then p else g[r][c])
  {
    PlaceStones(g, m.0, m.1, p, p);
    PlaceStones(g, m.0, m.1, p, 3 - p);
  }

  /** The players' stones are theirs move for move, so the counts differ by 0 or 1. */
  lemma {:induction false} StonesBalanced(rows: nat, cols: nat, moves: seq<Pos>)
    requires Fresh(rows, cols, moves)
    ensures var g := After(rows, cols, moves);
            && |Stones(g, PLAYER1)| == (|moves| + 1) / 2
            && |Stones(g, PLAYER2)| == |moves| / 2
            && forall r, c :: On(rows, cols, r, c) ==> g[r][c] in {0, PLAYER1, PLAYER2}
    decreases |moves|
  {
    if moves == [] {
      assert Stones(Empty(rows, cols), PLAYER1) == {};
      assert Stones(Empty(rows, cols), PLAYER2) == {};
    } else {
      var n := |moves| - 1;
      StonesBalanced(rows, cols, moves[..n]);
      StoneOnEmpty(After(rows, cols, moves[..n]), rows, cols, moves[n], Mover(n));
    }
  }

  /** A placed stone is never changed. */
  lemma {:induction false} StonesStay(rows: nat, cols: nat, moves: seq<Pos>, n: nat, r: int, c: int)
    requires Fresh(rows, cols, moves) && n <= |moves| && On(rows, cols, r, c)
    requires After(rows, cols, moves[..n])[r][c] != 0
    ensures After(rows, cols, moves)[r][c] == After(rows, cols, moves[..n])[r][c]
    decreases |moves|
  {
    if n == |moves| {
      assert moves[..n] == moves;
    } else {
      var m := |moves| - 1;
      assert moves[..m][..n] == moves[..n];
      StonesStay(rows, cols, moves[..m], n, r, c);
      StoneOnEmpty(After(rows, cols, moves[..m]), rows, cols, moves[m], Mover(m));
    }
  }

  function Row(r: nat, cols: nat): (s: set<Pos>)
    ensures forall m :: m in s <==> m.0 == r && 0 <= m.1 < cols
    ensures |s| == cols
  {
    if cols == 0 then {} else Row(r, cols - 1) + {(r, cols - 1)}
  }

  function Cells(rows: nat, cols: nat): (s: set<Pos>)
    ensures forall m :: m in s <==> On(rows, cols, m.0, m.1)
    ensures |s| == rows * cols
  {
    if rows == 0 then {} else
      assert rows * cols == (rows - 1) * cols + cols;
      Cells(rows - 1, cols) + Row(rows - 1, cols)
  }

  lemma StonesFillBoard(g: Grid, rows: nat, cols: nat)
    requires Shaped(g, rows, cols)
    requires forall r, c :: On(rows, cols, r, c) ==> g[r][c] in {0, PLAYER1, PLAYER2}
    ensures |Stones(g, PLAYER1)| + |Stones(g, PLAYER2)| <= rows * cols
    ensures HasEmpty(g) <==> |Stones(g, PLAYER1)| + |Stones(g, PLAYER2)| < rows * cols
  {
    var a, b, cells := Stones(g, PLAYER1), Stones(g, PLAYER2), Cells(rows, cols);
    StonesCover(g, rows, cols);
    SubsetSize(a + b, cells);
    assert |a + b| == |a| + |b|;
  }

  /** The stones are cells of the board, and all of them exactly when no cell is empty. */
  lemma StonesCover(g: Grid, rows: nat, cols: nat)
    requires Shaped(g, rows, cols)
    requires forall r, c :: On(rows, cols, r, c) ==> g[r][c] in {0, PLAYER1, PLAYER2}
    ensures var a, b := Stones(g, PLAYER1), Stones(g, PLAYER2);
            && a !! b && a + b <= Cells(rows, cols)
            && (HasEmpty(g) <==> a + b != Cells(rows, cols))
  {
    var stones, cells := Stones(g, PLAYER1) + Stones(g, PLAYER2), Cells(rows, cols);
    forall m: Pos | m in cells ensures m in stones <==> !Is(g, m.0, m.1, 0) {
    }
    if r, c :| Is(g, r, c, 0) {
      assert (r, c) in cells && (r, c) !in stones;
    }
    if stones != cells {
      var m :| m in cells && m !in stones;
      assert Is(g, m.0, m.1, 0);
    }
  }

  /** A game has at most rows * cols moves, and the board is full exactly then; so it has a
      result other than NEXT by then at the latest. */
  lemma GameIsBounded(rows: nat, cols: nat, moves: seq<Pos>)
    requires Played(rows, cols, moves)
    ensures |moves| <= rows * cols
    ensures HasEmpty(After(rows, cols, moves)) <==> |moves| < rows * cols
    ensures |moves| == rows * cols > 0 ==> Result(rows, cols, moves) != NEXT
  {
    PlayedIsFresh(rows, cols, moves);
    StonesBalanced(rows, cols, moves);
    StonesFillBoard(After(rows, cols, moves), rows, cols);
    if moves != [] {
      ReportIsGlobal(rows, cols, moves);
    }
  }

  // ----- what a script of entered positions amounts to -----

  /** The position, counted from 1, is on the board and its cell is empty. */
  predicate Acceptable(g: Grid, rows: nat, cols: nat, entry: Pos)
    requires Shaped(g, rows, cols)
  {
    1 <= entry.0 <= rows && 1 <= entry.1 <= cols && g[entry.0 - 1][entry.1 - 1] == 0
  }

  /** How far a game has got: the moves made, the board and the last report. */
  datatype Standing = Standing(moves: seq<Pos>, g: Grid, result: int)

  /** Reading one entry: an unacceptable one is asked for again, and nothing is read any more
      once the game is over. */
  ghost function Enter(rows: nat, cols: nat, at: Standing, entry: Pos): (at': Standing)
    requires Shaped(at.g, rows, cols)
    ensures Shaped(at'.g, rows, cols)
  {
    if at.result != NEXT || !Acceptable(at.g, rows, cols, entry) then at
    else
      var r, c := entry.0 - 1, entry.1 - 1;
      var g' := Place(at.g, r, c, Mover(|at.moves|));
      Standing(at.moves + [(r, c)], g', Verdict(g', rows, cols, r, c))
  }

  /** Where the game stands after the first n entries of the script. */
  ghost function PlayScript(rows: nat, cols: nat, script: seq<Pos>, n: nat): (at: Standing)
    requires n <= |script|
    ensures Shaped(at.g, rows, cols)
  {
    if n == 0 then Standing([], Empty(rows, cols), NEXT)
    else Enter(rows, cols, PlayScript(rows, cols, script, n - 1), script[n - 1])
  }

  /** While the game is on, an entry, counted from 1, makes exactly its own position the next move if it is
      on the board and its cell is empty, and otherwise changes nothing; once the game is over
      nothing changes any more. */
  lemma EntryCountsIff(rows: nat, cols: nat, script: seq<Pos>, n: nat)
    requires n < |script|
    ensures var at, at' := PlayScript(rows, cols, script, n), PlayScript(rows, cols, script, n + 1);
            var r, c := script[n].0 - 1, script[n].1 - 1;
            if at.result == NEXT && On(rows, cols, r, c) && at.g[r][c] == 0 then
              && at'.moves == at.moves + [(r, c)]
              && at'.g[r][c] == (if |at.moves| % 2 == 0 then PLAYER1 else PLAYER2)
              && forall i, j :: On(rows, cols, i, j) && (i, j) != (r, c) ==> at'.g[i][j] == at.g[i][j]
            else at' == at
  {
  }

  lemma {:induction false} EntriesIgnored(rows: nat, cols: nat, script: seq<Pos>, a: nat, b: nat)
    requires a <= b <= |script|
    requires var at := PlayScript(rows, cols, script, a);
             at.result != NEXT || forall k :: a <= k < b ==> !Acceptable(at.g, rows, cols, script[k])
    ensures PlayScript(rows, cols, script, b) == PlayScript(rows, cols, script, a)
    decreases b
  {
    if a < b {
      EntriesIgnored(rows, cols, script, a, b - 1);
    }
  }

  /** A script plays a legal game: its moves each went to an empty cell while the game was on,
      its board is the board after them, and its report is the report after the last of them. */
  lemma {:induction false} ScriptPlaysGame(rows: nat, cols: nat, script: seq<Pos>, n: nat)
    requires n <= |script|
    ensures var at := PlayScript(rows, cols, script, n);
            && Played(rows, cols, at.moves)
            && at.g == After(rows, cols, at.moves)
            && at.result == Result(rows, cols, at.moves)
  {
    if n > 0 {
      var at := PlayScript(rows, cols, script, n - 1);
      ScriptPlaysGame(rows, cols, script, n - 1);
      EnterPlays(rows, cols, at, script[n - 1]);
    }
  }

  /** What one entry does to a legal game. */
  lemma EnterPlays(rows: nat, cols: nat, at: Standing, entry: Pos)
    requires Played(rows, cols, at.moves)
    requires at.g == After(rows, cols, at.moves) && at.result == Result(rows, cols, at.moves)
    ensures var at' := Enter(rows, cols, at, entry);
            && Played(rows, cols, at'.moves)
            && at'.g == After(rows, cols, at'.moves)
            && at'.result == Result(rows, cols, at'.moves)
  {
    if at.result == NEXT && Acceptable(at.g, rows, cols, entry) {
      var m := (entry.0 - 1, entry.1 - 1);
      PlayedAppend(rows, cols, at.moves, m);
      assert Enter(rows, cols, at, entry).moves == at.moves + [m];
    }
  }
}
