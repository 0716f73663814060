/** Five in a row on a board of any size: the search around the last move that the program
    makes, the search of the whole board that it stands for, and why they agree. */
module GomokuRules {

  const PLAYER1 := 1
  const PLAYER2 := 2

  const NEXT := 0
  const PLAYER1_WIN := 1
  const PLAYER2_WIN := 2
  const DRAW := 3

  datatype Dir = Left | Right | Up | Down | LeftUp | LeftDown | RightUp | RightDown {
    function Dx(): int {
      match this
      case Left => 0 case Right => 0
      case Up => -1 case LeftUp => -1 case RightUp => -1
      case Down => 1 case LeftDown => 1 case RightDown => 1
    }

    function Dy(): int {
      match this
      case Up => 0 case Down => 0
      case Left => -1 case LeftUp => -1 case LeftDown => -1
      case Right => 1 case RightUp => 1 case RightDown => 1
    }
  }

  type Grid = seq<seq<int>>
  type Pos = (int, int)

  predicate Shaped(g: Grid, rows: nat, cols: nat) {
    |g| == rows && forall i :: 0 <= i < rows ==> |g[i]| == cols
  }

  predicate On(rows: nat, cols: nat, r: int, c: int) {
    0 <= r < rows && 0 <= c < cols
  }

  /** The cell holds p; false off the board. */
  predicate Is(g: Grid, r: int, c: int, p: int) {
    0 <= r < |g| && 0 <= c < |g[r]| && g[r][c] == p
  }

  // ----- counting outwards from a cell; (u, v) is one step -----

  predicate Unit(u: int, v: int) {
    -1 <= u <= 1 && -1 <= v <= 1 && (u != 0 || v != 0)
  }

  /** Steps left before leaving the board in this direction. */
  function Room(rows: nat, cols: nat, r: int, c: int, u: int, v: int): nat
    requires On(rows, cols, r, c)
  {
    if u > 0 then rows - r else if u < 0 then r + 1 else if v > 0 then cols - c else c + 1
  }

  /** Length of the unbroken line of p that starts next to (r, c). */
  function Line(g: Grid, rows: nat, cols: nat, r: int, c: int, u: int, v: int, p: int): (n: nat)
    requires Shaped(g, rows, cols) && On(rows, cols, r, c) && Unit(u, v)
    decreases Room(rows, cols, r, c, u, v)
  {
    if On(rows, cols, r + u, c + v) && g[r + u][c + v] == p then
      1 + Line(g, rows, cols, r + u, c + v, u, v, p)
    else 0
  }

  lemma LineNext(g: Grid, rows: nat, cols: nat, r: int, c: int, u: int, v: int, p: int)
    requires Shaped(g, rows, cols) && On(rows, cols, r, c) && Unit(u, v)
    ensures Line(g, rows, cols, r, c, u, v, p) ==
            if On(rows, cols, r + u, c + v) && g[r + u][c + v] == p then 1 + Line(g, rows, cols, r + u, c + v, u, v, p) else 0
    ensures On(rows, cols, r + u, c + v) ==> Room(rows, cols, r + u, c + v, u, v) < Room(rows, cols, r, c, u, v)
  {
  }

  /** k steps along an axis on which one step is u, which is -1, 0 or 1. */
  function Along(k: int, u: int): int {
    if u > 0 then k else if u < 0 then -k else 0
  }

  /** The k-th cell from (r, c) holds p. */
  predicate Step(g: Grid, r: int, c: int, u: int, v: int, k: int, p: int) {
    Is(g, r + Along(k, u), c + Along(k, v), p)
  }

  lemma StepShift(g: Grid, r: int, c: int, u: int, v: int, s: int, k: int, p: int)
    ensures Step(g, r + Along(s, u), c + Along(s, v), u, v, k, p) == Step(g, r, c, u, v, s + k, p)
  {
  }

  lemma StepOpposite(g: Grid, r: int, c: int, u: int, v: int, k: int, p: int)
    ensures Step(g, r, c, -u, -v, k, p) == Step(g, r, c, u, v, -k, p)
  {
  }

  /** The line holds p throughout. */
  lemma {:induction false} LineHolds(g: Grid, rows: nat, cols: nat, r: int, c: int, u: int, v: int, p: int, k: nat)
    requires Shaped(g, rows, cols) && On(rows, cols, r, c) && Unit(u, v)
    requires 1 <= k <= Line(g, rows, cols, r, c, u, v, p)
    ensures Step(g, r, c, u, v, k, p)
    decreases k
  {
    if k > 1 {
      LineHolds(g, rows, cols, r + u, c + v, u, v, p, k - 1);
      StepShift(g, r, c, u, v, 1, k - 1, p);
    }
  }

  /** The line stops only at the edge of the board or at a cell that does not hold p. */
  lemma {:induction false} LineStops(g: Grid, rows: nat, cols: nat, r: int, c: int, u: int, v: int, p: int)
    requires Shaped(g, rows, cols) && On(rows, cols, r, c) && Unit(u, v)
    ensures !Step(g, r, c, u, v, Line(g, rows, cols, r, c, u, v, p) + 1, p)
    decreases Room(rows, cols, r, c, u, v)
  {
    var n := Line(g, rows, cols, r, c, u, v, p);
    assert Step(g, r, c, u, v, 1, p) == (On(rows, cols, r + u, c + v) && g[r + u][c + v] == p);
    if n > 0 {
      LineStops(g, rows, cols, r + u, c + v, u, v, p);
      StepShift(g, r, c, u, v, 1, n, p);
    }
  }

  // ----- five in a row, anywhere -----

  /** One representative of each pair of opposite directions. */
  predicate Forward(u: int, v: int) {
    (u == 0 && v == 1) || (u == 1 && v == 0) || (u == 1 && v == 1) || (u == -1 && v == 1)
  }

  /** The five cells from the s-th one before (r, c) onwards hold p. */
  predicate Window(g: Grid, r: int, c: int, u: int, v: int, s: int, p: int) {
    forall k :: -s <= k < 5 - s ==> Step(g, r, c, u, v, k, p)
  }

  /** Some five consecutive cells of a row, a column or a diagonal hold p. */
  ghost predicate HasFive(g: Grid, p: int) {
    exists r, c, u, v :: Forward(u, v) && Window(g, r, c, u, v, 0, p)
  }

  lemma WindowShift(g: Grid, r: int, c: int, u: int, v: int, s: int, p: int)
    ensures Window(g, r, c, u, v, s, p) == Window(g, r + Along(-s, u), c + Along(-s, v), u, v, 0, p)
  {
    var r', c' := r + Along(-s, u), c + Along(-s, v);
    forall k ensures Step(g, r', c', u, v, k, p) == Step(g, r, c, u, v, k - s, p) {
      StepShift(g, r, c, u, v, -s, k, p);
    }
    if Window(g, r', c', u, v, 0, p) {
      forall k | -s <= k < 5 - s ensures Step(g, r, c, u, v, k, p) {
        assert Step(g, r', c', u, v, k + s, p);
      }
    }
  }

  // ----- the program's test: four line lengths through the last stone -----

  function Through(g: Grid, rows: nat, cols: nat, r: int, c: int, u: int, v: int): nat
    requires Shaped(g, rows, cols) && On(rows, cols, r, c) && Unit(u, v)
  {
    Line(g, rows, cols, r, c, -u, -v, g[r][c]) + Line(g, rows, cols, r, c, u, v, g[r][c]) + 1
  }

  predicate FiveThrough(g: Grid, rows: nat, cols: nat, r: int, c: int)
    requires Shaped(g, rows, cols) && On(rows, cols, r, c)
  {
    || Through(g, rows, cols, r, c, 0, 1) >= 5
    || Through(g, rows, cols, r, c, 1, 0) >= 5
    || Through(g, rows, cols, r, c, 1, 1) >= 5
    || Through(g, rows, cols, r, c, -1, 1) >= 5
  }

  lemma LongLineHasWindow(g: Grid, rows: nat, cols: nat, r: int, c: int, u: int, v: int) returns (s: int)
    requires Shaped(g, rows, cols) && On(rows, cols, r, c) && Unit(u, v)
    requires Through(g, rows, cols, r, c, u, v) >= 5
    ensures 0 <= s <= 4 && Window(g, r, c, u, v, s, g[r][c])
  {
    var p := g[r][c];
    var back: int := Line(g, rows, cols, r, c, -u, -v, p);
    s := if back < 4 then back else 4;
    forall k | -s <= k < 5 - s ensures Step(g, r, c, u, v, k, p) {
      if k < 0 {
        LineHolds(g, rows, cols, r, c, -u, -v, p, -k);
        StepOpposite(g, r, c, u, v, -k, p);
      } else if k > 0 {
        LineHolds(g, rows, cols, r, c, u, v, p, k);
      }
    }
  }

  lemma WindowMakesLongLine(g: Grid, rows: nat, cols: nat, r: int, c: int, u: int, v: int, s: int)
    requires Shaped(g, rows, cols) && On(rows, cols, r, c) && Unit(u, v)
    requires 0 <= s <= 4 && Window(g, r, c, u, v, s, g[r][c])
    ensures Through(g, rows, cols, r, c, u, v) >= 5
  {
    var p := g[r][c];
    var back: int := Line(g, rows, cols, r, c, -u, -v, p);
    var ahead: int := Line(g, rows, cols, r, c, u, v, p);
    LineStops(g, rows, cols, r, c, -u, -v, p);
    StepOpposite(g, r, c, u, v, back + 1, p);
    LineStops(g, rows, cols, r, c, u, v, p);
    assert !Step(g, r, c, u, v, -(back + 1), p) && !Step(g, r, c, u, v, ahead + 1, p);
  }

  // ----- one move -----

  function Place(g: Grid, r: int, c: int, p: int): Grid
    requires 0 <= r < |g| && 0 <= c < |g[r]|
  {
    g[r := g[r][c := p]]
  }

  /** A window of the new board that avoids the new stone was a window of the old board. */
  lemma WindowWithoutStone(g: Grid, rows: nat, cols: nat, r: int, c: int, p: int,
                           wr: int, wc: int, u: int, v: int, q: int)
    requires Shaped(g, rows, cols) && On(rows, cols, r, c) && g[r][c] != q
    requires Window(Place(g, r, c, p), wr, wc, u, v, 0, q)
    requires q != p || forall k :: 0 <= k < 5 ==> (wr + Along(k, u), wc + Along(k, v)) != (r, c)
    ensures Window(g, wr, wc, u, v, 0, q)
  {
    var g' := Place(g, r, c, p);
    forall k | 0 <= k < 5 ensures Step(g, wr, wc, u, v, k, q) {
      assert Step(g', wr, wc, u, v, k, q);
    }
  }

  /** On a board without five in a row, a stone of p makes five of p somewhere exactly when
      the test around that stone says so. */
  lemma LocalTestIsGlobal(g: Grid, rows: nat, cols: nat, r: int, c: int, p: int)
    requires Shaped(g, rows, cols) && On(rows, cols, r, c) && g[r][c] != p && !HasFive(g, p)
    ensures HasFive(Place(g, r, c, p), p) <==> FiveThrough(Place(g, r, c, p), rows, cols, r, c)
  {
    var g' := Place(g, r, c, p);
    forall u, v | Forward(u, v)
      ensures Through(g', rows, cols, r, c, u, v) >= 5 <==> exists wr, wc :: Window(g', wr, wc, u, v, 0, p)
    {
      if Through(g', rows, cols, r, c, u, v) >= 5 {
        var s := LongLineHasWindow(g', rows, cols, r, c, u, v);
        WindowShift(g', r, c, u, v, s, p);
      }
      if wr, wc :| Window(g', wr, wc, u, v, 0, p) {
        if forall k :: 0 <= k < 5 ==> (wr + Along(k, u), wc + Along(k, v)) != (r, c) {
          WindowWithoutStone(g, rows, cols, r, c, p, wr, wc, u, v, p);
          assert false;
        }
        var k :| 0 <= k < 5 && (wr + Along(k, u), wc + Along(k, v)) == (r, c);
        WindowShift(g', r, c, u, v, k, p);
        WindowMakesLongLine(g', rows, cols, r, c, u, v, k);
      }
    }
  }

  /** A stone of p makes no five of anybody else. */
  lemma OthersUnaffected(g: Grid, rows: nat, cols: nat, r: int, c: int, p: int, q: int)
    requires Shaped(g, rows, cols) && On(rows, cols, r, c) && g[r][c] != q && p != q && !HasFive(g, q)
    ensures !HasFive(Place(g, r, c, p), q)
  {
    var g' := Place(g, r, c, p);
    if wr, wc, u, v :| Forward(u, v) && Window(g', wr, wc, u, v, 0, q) {
      WindowWithoutStone(g, rows, cols, r, c, p, wr, wc, u, v, q);
      assert false;
    }
  }
}
