/** The program: the board and the last position are updated in place. Counting, the verdict,
    the entry loop and the turn loop are proved against `GomokuRules` and `GomokuGame`. */
module Gobang {
  import opened GomokuRules
  import opened GomokuGame

  class Gobang {
    const row: nat
    const col: nat
    const board: array2<int>
    /** The last position entered, counted from 1. */
    var x: int
    var y: int

    constructor (row: nat, col: nat)
      ensures this.row == row && this.col == col && fresh(board) && Sized()
    {
      this.row, this.col := row, col;
      board := new int[row, col];
      x, y := 0, 0;
    }

    predicate Sized() {
      board.Length0 == row && board.Length1 == col
    }

    ghost function View(): (g: Grid)
      reads board
      requires Sized()
      ensures Shaped(g, row, col)
    {
      seq(row, i requires 0 <= i < row && Sized() reads board =>
        seq(col, j requires 0 <= j < col && Sized() reads board => board[i, j]))
    }

    lemma ViewIs(g: Grid)
      requires Sized() && Shaped(g, row, col)
      requires forall i, j :: 0 <= i < row && 0 <= j < col ==> board[i, j] == g[i][j]
      ensures View() == g
    {
      forall i | 0 <= i < row ensures View()[i] == g[i] {
      }
    }

    ghost predicate AtStone()
      reads this`x, this`y
    {
      On(row, col, x - 1, y - 1)
    }

    /** One step in a direction. */
    static method Step(d: Dir, x: int, y: int) returns (i: int, j: int)
      ensures i == x + d.Dx() && j == y + d.Dy()
    {
      i, j := x, y;
      match d {
        case Left => j := j - 1;
        case Right => j := j + 1;
        case Up => i := i - 1;
        case Down => i := i + 1;
        case LeftUp => i, j := i - 1, j - 1;
        case LeftDown => i, j := i + 1, j - 1;
        case RightUp => i, j := i - 1, j + 1;
        case RightDown => i, j := i + 1, j + 1;
      }
    }

    /** Walks from the last stone while the cells equal it. */
    method ChessCount(d: Dir) returns (count: nat)
      requires Sized() && AtStone()
      ensures count == Line(View(), row, col, x - 1, y - 1, d.Dx(), d.Dy(), View()[x - 1][y - 1])
    {
      count := Walk(d, View(), d.Dx(), d.Dy());
    }

    method Walk(d: Dir, ghost g: Grid, ghost u: int, ghost v: int) returns (count: nat)
      requires Sized() && AtStone() && Shaped(g, row, col)
      requires forall i, j :: On(row, col, i, j) ==> board[i, j] == g[i][j]
      requires u == d.Dx() && v == d.Dy() && Unit(u, v)
      ensures count == Line(g, row, col, x - 1, y - 1, u, v, g[x - 1][y - 1])
    {
      var i, j := x - 1, y - 1;
      count := 0;
      ghost var p := g[x - 1][y - 1];
      while true
        invariant On(row, col, i, j)
        invariant count + Line(g, row, col, i, j, u, v, p) == Line(g, row, col, x - 1, y - 1, u, v, p)
        decreases Room(row, col, i, j, u, v)
      {
        LineNext(g, row, col, i, j, u, v, p);
        i, j := Step(d, i, j);
        if i < 0 || i > row - 1 || j < 0 || j > col - 1 {
          break;
        }
        if board[x - 1, y - 1] == board[i, j] {
          count := count + 1;
        } else {
          break;
        }
      }
    }

    /** The four counts through the last stone. */
    method FiveInLine() returns (five: bool)
      requires Sized() && AtStone()
      ensures five == FiveThrough(View(), row, col, x - 1, y - 1)
    {
      var count1 := CountBoth(Left, Right);
      var count2 := CountBoth(Up, Down);
      var count3 := CountBoth(LeftUp, RightDown);
      var count4 := CountBoth(LeftDown, RightUp);
      five := count1 >= 5 || count2 >= 5 || count3 >= 5 || count4 >= 5;
    }

    method CountBoth(d: Dir, e: Dir) returns (count: nat)
      requires Sized() && AtStone()
      requires d.Dx() == -e.Dx() && d.Dy() == -e.Dy()
      ensures count == Through(View(), row, col, x - 1, y - 1, e.Dx(), e.Dy())
    {
      var before := ChessCount(d);
      var after := ChessCount(e);
      count := before + after + 1;
    }

    /** The report after the last stone. */
    method IsOver() returns (result: int)
      requires Sized() && AtStone()
      ensures result == Verdict(View(), row, col, x - 1, y - 1)
    {
      var five := FiveInLine();
      if five {
        return if board[x - 1, y - 1] == PLAYER1 then PLAYER1_WIN else PLAYER2_WIN;
      }
      for i := 0 to row
        invariant forall r, c :: 0 <= r < i && 0 <= c < col ==> board[r, c] != 0
      {
        for j := 0 to col
          invariant forall c :: 0 <= c < j ==> board[i, c] != 0
        {
          if board[i, j] == 0 {
            assert Is(View(), i, j, 0);
            return NEXT;
          }
        }
      }
      return DRAW;
    }

    /** Reads entries from `script`, starting at `pos`, until one is acceptable, and places the
        player's stone there; `placed` is false when the entries run out first. */
    method PlayerMove(player: int, script: seq<Pos>, pos: nat) returns (pos': nat, placed: bool)
      requires Sized() && pos <= |script|
      modifies this`x, this`y, board
      ensures pos <= pos' <= |script|
      ensures forall k :: pos <= k < pos' - (if placed then 1 else 0) ==>
                var r, c := script[k].0 - 1, script[k].1 - 1;
                !(On(row, col, r, c) && old(View())[r][c] == 0)
      ensures placed ==> pos < pos' && (x, y) == script[pos' - 1] && AtStone() && old(View())[x - 1][y - 1] == 0
      ensures View() == if placed then Place(old(View()), x - 1, y - 1, player) else old(View())
      ensures !placed ==> pos' == |script|
    {
      pos' := pos;
      placed := false;
      while pos' < |script|
        invariant pos <= pos' <= |script|
        invariant View() == old(View())
        invariant forall k :: pos <= k < pos' ==>
                    var r, c := script[k].0 - 1, script[k].1 - 1;
                    !(On(row, col, r, c) && old(View())[r][c] == 0)
      {
        x, y := script[pos'].0, script[pos'].1;
        pos' := pos' + 1;
        if x < 1 || x > row || y < 1 || y > col {
          continue;
        } else if board[x - 1, y - 1] != 0 {
          continue;
        } else {
          board[x - 1, y - 1] := player;
          ViewIs(Place(old(View()), x - 1, y - 1, player));
          placed := true;
          return;
        }
      }
    }

    method Clear()
      requires Sized()
      modifies board
      ensures View() == Empty(row, col)
    {
      forall i, j | 0 <= i < row && 0 <= j < col {
        board[i, j] := 0;
      }
      ViewIs(Empty(row, col));
    }

    /** A move and, if there was one, the report after it. */
    method MoveAndReport(player: int, script: seq<Pos>, pos: nat) returns (pos': nat, placed: bool, result: int)
      requires Sized() && pos <= |script|
      modifies this`x, this`y, board
      ensures pos <= pos' <= |script|
      ensures forall k :: pos <= k < pos' - (if placed then 1 else 0) ==> !Acceptable(old(View()), row, col, script[k])
      ensures placed ==> pos < pos' && Acceptable(old(View()), row, col, script[pos' - 1])
      ensures placed ==>
                var entry := script[pos' - 1];
                var g' := Place(old(View()), entry.0 - 1, entry.1 - 1, player);
                View() == g' && result == Verdict(View(), row, col, entry.0 - 1, entry.1 - 1)
      ensures !placed ==> pos' == |script| && View() == old(View()) && result == NEXT
    {
      pos', placed := PlayerMove(player, script, pos);
      if placed {
        result := IsOver();
      } else {
        result := NEXT;
      }
    }

    /** One player's turn; `over` when the game or the script is. */
    method Turn(player: int, script: seq<Pos>, pos: nat, ghost at: Standing)
      returns (pos': nat, over: bool, result: int, ghost at': Standing)
      requires Sized() && pos <= |script| && at == PlayScript(row, col, script, pos)
      requires at.g == View() && at.result == NEXT && player == Mover(|at.moves|)
      modifies this`x, this`y, board
      ensures pos <= pos' <= |script| && at' == PlayScript(row, col, script, pos')
      ensures at'.g == View() && at'.result == result
      ensures !over ==> |at'.moves| == |at.moves| + 1 && pos < pos' && result == NEXT
      ensures over ==> result != NEXT || pos' == |script|
    {
      var placed;
      pos', placed, result := MoveAndReport(player, script, pos);
      EntriesIgnored(row, col, script, pos, if placed then pos' - 1 else pos');
      at' := if placed then Enter(row, col, at, script[pos' - 1]) else at;
      over := !placed || result != NEXT;
    }

    /** Plays a whole game from the entries of a script, the players alternating. */
    method Game(script: seq<Pos>) returns (result: int, ghost moves: seq<Pos>)
      requires Sized()
      modifies this`x, this`y, board
      ensures Standing(moves, View(), result) == PlayScript(row, col, script, |script|)
    {
      Clear();
      ghost var at := Standing([], Empty(row, col), NEXT);
      result := NEXT;
      var pos := 0;
      var over := false;
      while !over
        invariant pos <= |script| && at == PlayScript(row, col, script, pos)
        invariant at.g == View() && at.result == result
        invariant !over ==> |at.moves| % 2 == 0 && result == NEXT
        invariant over ==> result != NEXT || pos == |script|
        decreases !over, |script| - pos
      {
        pos, over, result, at := Turn(PLAYER1, script, pos, at);
        if !over {
          pos, over, result, at := Turn(PLAYER2, script, pos, at);
        }
      }
      EntriesIgnored(row, col, script, pos, |script|);
      moves := at.moves;
    }
  }
}
