/** The block-placement puzzle: a 9x9 grid, a hand of three shapes, the fit
    check, placement with full-row clearing, rotation and the game-over scan
    (src/components/BlockBlast.jsx). */
module BlockBlast {
  import opened Wrappers
  import Cardinality

  const SIZE: nat := 9

  /** A piece as a matrix of 0/1 cells; a non-zero cell is filled. */
  type Shape = seq<seq<int>>

  /** The board, row by row; true is a filled cell ('X' in the source). */
  type Grid = seq<seq<bool>>

  const SHAPES: seq<Shape> := [
    [[1, 1, 1]], [[1], [1], [1]], [[1, 1, 1], [1, 0, 0]], [[0, 1, 1], [1, 1, 0]],
    [[1, 1, 0], [0, 1, 1]], [[0, 1, 0], [1, 1, 1]], [[1, 0], [1, 0], [1, 1]],
    [[1, 1], [1, 1]], [[1, 1, 1, 1]], [[1], [1], [1], [1]], [[1, 1, 1], [0, 1, 0]],
    [[1, 1, 1], [0, 0, 1]], [[1, 1], [1, 0], [1, 0]], [[0, 1], [1, 1], [0, 1]],
    [[1, 1, 0], [0, 1, 0], [0, 1, 1]], [[1, 0, 0], [1, 1, 1]], [[0, 0, 1], [1, 1, 1]],
    [[1]], [[1, 1]], [[1], [1]], [[1, 1], [1, 0]], [[1, 1], [0, 1]]
  ]

  /** At least one row, at least one column, and all rows of equal width. */
  predicate IsMatrix(m: Shape) {
    |m| > 0 && |m[0]| > 0 && forall i :: 0 <= i < |m| ==> |m[i]| == |m[0]|
  }

  lemma ShapesAreMatrices()
    ensures forall k :: 0 <= k < |SHAPES| ==> IsMatrix(SHAPES[k])
  {
  }

  predicate IsGrid(b: Grid) {
    |b| == SIZE && forall r :: 0 <= r < SIZE ==> |b[r]| == SIZE
  }

  /** `[...EMPTY]`: a row of empty cells. */
  function EmptyRow(): (r: seq<bool>)
    ensures |r| == SIZE && forall c :: 0 <= c < SIZE ==> !r[c]
  {
    seq(SIZE, _ => false)
  }

  /** EMPTY_BOARD */
  function EmptyGrid(): (g: Grid)
    ensures IsGrid(g) && forall r, c :: 0 <= r < SIZE && 0 <= c < SIZE ==> !g[r][c]
  {
    seq(SIZE, _ => EmptyRow())
  }

  // ---------------------------------------------------------------- rotation

  /** `m.map(r => r[i])` */
  function Column(m: Shape, i: nat): (col: seq<int>)
    requires IsMatrix(m) && i < |m[0]|
  {
    seq(|m|, r requires 0 <= r < |m| => m[r][i])
  }

  function Reverse(s: seq<int>): (r: seq<int>) {
    seq(|s|, k requires 0 <= k < |s| => s[|s| - 1 - k])
  }

  /** rotate: the reversed columns become the rows. An r-by-c matrix becomes
      a c-by-r matrix with result[i][j] == m[r-1-j][i] (a quarter turn
      clockwise). */
  function Rotate(m: Shape): (res: Shape)
    requires IsMatrix(m)
    ensures IsMatrix(res) && |res| == |m[0]| && |res[0]| == |m|
    ensures forall i, j :: 0 <= i < |m[0]| && 0 <= j < |m| ==> res[i][j] == m[|m| - 1 - j][i]
  {
    seq(|m[0]|, i requires 0 <= i < |m[0]| => Reverse(Column(m, i)))
  }

  /** Rotating twice turns the matrix upside down. */
  lemma RotateTwice(m: Shape)
    requires IsMatrix(m)
    ensures var h := Rotate(Rotate(m));
            |h| == |m| && forall i :: 0 <= i < |m| ==>
              (|h[i]| == |m[0]| && forall j :: 0 <= j < |m[0]| ==> h[i][j] == m[|m| - 1 - i][|m[0]| - 1 - j])
  {
  }

  /** Four quarter turns give back the original shape. */
  lemma RotateFourTimes(m: Shape)
    requires IsMatrix(m)
    ensures Rotate(Rotate(Rotate(Rotate(m)))) == m
  {
    var h := Rotate(Rotate(m));
    RotateTwice(m);
    RotateTwice(h);
    var f := Rotate(Rotate(h));
    assert |f| == |m|;
    forall i | 0 <= i < |m| ensures f[i] == m[i] {
      assert |f[i]| == |m[i]|;
    }
  }

  /** The filled cells of a shape, as (row, column) pairs. */
  function Filled(m: Shape): set<(int, int)> {
    set i, j | 0 <= i < |m| && 0 <= j < |m[i]| && m[i][j] != 0 :: (i, j)
  }

  /** Rotation neither adds nor loses filled cells. */
  lemma RotateKeepsFilledCount(m: Shape)
    requires IsMatrix(m)
    ensures |Filled(Rotate(m))| == |Filled(m)|
  {
    var rows := |m|;
    var turn := (p: (int, int)) => (p.1, rows - 1 - p.0);
    var rm := Rotate(m);
    forall q | q in Filled(rm) ensures exists p :: p in Filled(m) && turn(p) == q {
      var p := (rows - 1 - q.1, q.0);
      assert p in Filled(m) && turn(p) == q;
    }
    forall p | p in Filled(m) ensures turn(p) in Filled(rm) {
      assert rm[p.1][rows - 1 - p.0] == m[p.0][p.1];
    }
    Cardinality.InjectiveImage(Filled(m), Filled(rm), turn);
  }

  /** Applying rotate n times. */
  function RotateTimes(m: Shape, n: nat): (res: Shape)
    requires IsMatrix(m)
    ensures IsMatrix(res)
  {
    if n == 0 then m else Rotate(RotateTimes(m, n - 1))
  }

  // ------------------------------------------------------------ the fit check

  /** Board cell (nx, ny) exists and is empty. Negative coordinates are off
      the board. */
  predicate Free(b: Grid, nx: int, ny: int)
    requires IsGrid(b)
  {
    0 <= ny < SIZE && 0 <= nx < SIZE && !b[ny][nx]
  }

  /** Every filled cell of the shape, offset by (x, y), lands on a free cell. */
  ghost predicate Fits(b: Grid, x: int, y: int, shape: Shape)
    requires IsGrid(b) && IsMatrix(shape)
  {
    forall i, j :: 0 <= i < |shape| && 0 <= j < |shape[0]| && shape[i][j] != 0 ==> Free(b, x + j, y + i)
  }

  /** The nested loop of canPlace, resumed at cell (i, j) of the shape; it
      returns false at the first filled cell that lands off the board or on
      a filled board cell. */
  function CanPlaceFrom(b: Grid, x: int, y: int, shape: Shape, i: nat, j: nat): (r: bool)
    requires IsGrid(b) && IsMatrix(shape) && i <= |shape| && j <= |shape[0]|
    ensures r <==> forall ii, jj :: (0 <= ii < |shape| && 0 <= jj < |shape[0]| && (ii > i || (ii == i && jj >= j))
                                     && shape[ii][jj] != 0) ==> Free(b, x + jj, y + ii)
    decreases |shape| - i, |shape[0]| - j
  {
    if i == |shape| then true
    else if j == |shape[0]| then CanPlaceFrom(b, x, y, shape, i + 1, 0)
    else if shape[i][j] != 0 && !Free(b, x + j, y + i) then false
    else CanPlaceFrom(b, x, y, shape, i, j + 1)
  }

  /** canPlace(x, y, shape, b): true iff every filled cell of the shape,
      offset by (x, y), is on the board and empty. */
  function CanPlace(x: int, y: int, shape: Shape, b: Grid): (r: bool)
    requires IsGrid(b) && IsMatrix(shape)
    ensures r <==> Fits(b, x, y, shape)
  {
    CanPlaceFrom(b, x, y, shape, 0, 0)
  }

  // --------------------------------------------------------------- placement

  /** Board cell (c, r) lies under a filled cell of the shape placed at (x, y). */
  predicate Covered(shape: Shape, x: int, y: int, r: int, c: int)
    requires IsMatrix(shape)
  {
    0 <= r - y < |shape| && 0 <= c - x < |shape[0]| && shape[r - y][c - x] != 0
  }

  /** The copied board after the shape's filled cells are written. */
  ghost function Stamp(b: Grid, x: int, y: int, shape: Shape): (st: Grid)
    requires IsGrid(b) && IsMatrix(shape)
    ensures IsGrid(st)
  {
    seq(SIZE, r requires 0 <= r < SIZE => seq(SIZE, c requires 0 <= c < SIZE => b[r][c] || Covered(shape, x, y, r, c)))
  }

  predicate FullRow(row: seq<bool>) {
    forall c :: 0 <= c < |row| ==> row[c]
  }

  /** The rows that are full: exactly the rows the clearing loop empties. */
  ghost function FullRows(b: Grid): set<int>
    requires IsGrid(b)
  {
    set r | 0 <= r < SIZE && FullRow(b[r])
  }

  ghost function FullRowsBelow(b: Grid, n: int): set<int>
    requires IsGrid(b)
  {
    set r | 0 <= r < n && r < SIZE && FullRow(b[r])
  }

  /** The board after every full row is replaced by an empty row. */
  ghost function Cleared(b: Grid): (res: Grid)
    requires IsGrid(b)
    ensures IsGrid(res)
  {
    seq(SIZE, r requires 0 <= r < SIZE => if FullRow(b[r]) then EmptyRow() else b[r])
  }

  predicate NoFullRow(b: Grid)
    requires IsGrid(b)
  {
    forall r :: 0 <= r < SIZE ==> !FullRow(b[r])
  }

  /** What one placement does to a single cell: after a fitting placement a
      cell is filled iff it was filled or lies under the shape, and its row
      did not become full. Only rows are cleared: a full column stays put. */
  lemma PlaceCell(b: Grid, x: int, y: int, shape: Shape, r: int, c: int)
    requires IsGrid(b) && IsMatrix(shape) && 0 <= r < SIZE && 0 <= c < SIZE
    ensures var st := Stamp(b, x, y, shape);
            Cleared(st)[r][c] <==> (b[r][c] || Covered(shape, x, y, r, c)) && r !in FullRows(st)
  {
  }

  /** Frame: a cell outside the shape's footprint, in a row that was not
      cleared, keeps its value. */
  lemma PlaceFrame(b: Grid, x: int, y: int, shape: Shape, r: int, c: int)
    requires IsGrid(b) && IsMatrix(shape) && 0 <= r < SIZE && 0 <= c < SIZE
    requires !Covered(shape, x, y, r, c) && r !in FullRows(Stamp(b, x, y, shape))
    ensures Cleared(Stamp(b, x, y, shape))[r][c] == b[r][c]
  {
  }

  /** After clearing no row is full, and every row that was full is empty. */
  lemma ClearedRows(b: Grid)
    requires IsGrid(b)
    ensures NoFullRow(Cleared(b))
    ensures forall r :: r in FullRows(b) ==> Cleared(b)[r] == EmptyRow()
  {
    forall r | 0 <= r < SIZE ensures !FullRow(Cleared(b)[r]) {
      if FullRow(b[r]) {
        assert !Cleared(b)[r][0];
      }
    }
  }

  /** A fitting shape lands only on empty cells, so the stamped board holds
      exactly the old filled cells plus the shape's. */
  lemma StampOnlyEmptyCells(b: Grid, x: int, y: int, shape: Shape)
    requires IsGrid(b) && IsMatrix(shape) && Fits(b, x, y, shape)
    ensures forall r, c :: 0 <= r < SIZE && 0 <= c < SIZE && Covered(shape, x, y, r, c) ==> !b[r][c]
  {
    forall r, c | 0 <= r < SIZE && 0 <= c < SIZE && Covered(shape, x, y, r, c) ensures !b[r][c] {
      assert Free(b, x + (c - x), y + (r - y));
    }
  }

  /** randomPieces, with the three random indices as a parameter. */
  predicate IsDraw(draw: seq<nat>) {
    |draw| == 3 && forall k :: 0 <= k < 3 ==> draw[k] < |SHAPES|
  }

  function RandomPieces(draw: seq<nat>): (hand: seq<Shape>)
    requires IsDraw(draw)
    ensures |hand| == 3 && forall k :: 0 <= k < 3 ==> hand[k] in SHAPES && hand[k] == SHAPES[draw[k]]
  {
    [SHAPES[draw[0]], SHAPES[draw[1]], SHAPES[draw[2]]]
  }

  /** Each of the three pieces is entry ids[k] of SHAPES turned turns[k] times. */
  ghost predicate DrawnHand(hand: seq<Shape>, ids: seq<nat>, turns: seq<nat>) {
    && |hand| == 3 && |ids| == 3 && |turns| == 3
    && forall k :: 0 <= k < 3 ==> ids[k] < |SHAPES| && IsMatrix(SHAPES[ids[k]])
                                   && hand[k] == RotateTimes(SHAPES[ids[k]], turns[k])
  }

  lemma FreshHand(draw: seq<nat>)
    requires IsDraw(draw)
    ensures DrawnHand(RandomPieces(draw), draw, [0, 0, 0])
  {
    ShapesAreMatrices();
  }

  lemma EmptyGridHasNoFullRow()
    ensures NoFullRow(EmptyGrid())
  {
    forall r | 0 <= r < SIZE ensures !FullRow(EmptyGrid()[r]) {
      assert !EmptyGrid()[r][0];
    }
  }

  /** Some piece of the hand fits somewhere on the board. */
  ghost predicate AnyFits(b: Grid, hand: seq<Shape>)
    requires IsGrid(b) && forall k :: 0 <= k < |hand| ==> IsMatrix(hand[k])
  {
    exists k, x, y :: 0 <= k < |hand| && 0 <= x < SIZE && 0 <= y < SIZE && Fits(b, x, y, hand[k])
  }

  /** The scan of checkOver: tries every piece at every (x, y) of the board
      and stops at the first fit. */
  method AnyPieceFits(b: Grid, hand: seq<Shape>) returns (can: bool)
    requires IsGrid(b) && forall k :: 0 <= k < |hand| ==> IsMatrix(hand[k])
    ensures can <==> AnyFits(b, hand)
  {
    var k := 0;
    while k < |hand|
      invariant 0 <= k <= |hand|
      invariant forall k', x, y :: 0 <= k' < k && 0 <= x < SIZE && 0 <= y < SIZE ==> !Fits(b, x, y, hand[k'])
    {
      var y := 0;
      while y < SIZE
        invariant 0 <= y <= SIZE
        invariant forall x, y' :: 0 <= x < SIZE && 0 <= y' < y ==> !Fits(b, x, y', hand[k])
      {
        var x := 0;
        while x < SIZE
          invariant 0 <= x <= SIZE
          invariant forall x' :: 0 <= x' < x ==> !Fits(b, x', y, hand[k])
        {
          if CanPlace(x, y, hand[k], b) {
            return true;
          }
          x := x + 1;
        }
        y := y + 1;
      }
      k := k + 1;
    }
    return false;
  }

  /** Writes the shape's filled cells into a copy of the board, cell by cell. */
  method StampCells(b: Grid, x: int, y: int, shape: Shape) returns (st: Grid)
    requires IsGrid(b) && IsMatrix(shape) && Fits(b, x, y, shape)
    ensures st == Stamp(b, x, y, shape)
  {
    st := b;
    var i := 0;
    while i < |shape|
      invariant 0 <= i <= |shape| && IsGrid(st)
      invariant forall r, c :: 0 <= r < SIZE && 0 <= c < SIZE ==>
                  st[r][c] == (b[r][c] || (Covered(shape, x, y, r, c) && r - y < i))
    {
      var j := 0;
      while j < |shape[0]|
        invariant 0 <= j <= |shape[0]| && IsGrid(st)
        invariant forall r, c :: 0 <= r < SIZE && 0 <= c < SIZE ==>
                    st[r][c] == (b[r][c] || (Covered(shape, x, y, r, c) && (r - y < i || (r - y == i && c - x < j))))
      {
        if shape[i][j] != 0 {
          assert Free(b, x + j, y + i);
          st := st[y + i := st[y + i][x + j := true]];
        }
        j := j + 1;
      }
      i := i + 1;
    }
    forall r | 0 <= r < SIZE ensures st[r] == Stamp(b, x, y, shape)[r] {
      assert |st[r]| == |Stamp(b, x, y, shape)[r]|;
    }
  }

  /** The clearing loop: every full row is replaced by an empty row and
      counted. */
  method ClearFullRows(st: Grid) returns (res: Grid, lines: nat)
    requires IsGrid(st)
    ensures res == Cleared(st) && lines == |FullRows(st)|
  {
    res := st;
    lines := 0;
    var i := 0;
    while i < SIZE
      invariant 0 <= i <= SIZE && |res| == SIZE
      invariant forall r :: 0 <= r < i ==> res[r] == if FullRow(st[r]) then EmptyRow() else st[r]
      invariant forall r :: i <= r < SIZE ==> res[r] == st[r]
      invariant lines == |FullRowsBelow(st, i)|
    {
      if FullRow(res[i]) {
        assert FullRowsBelow(st, i + 1) == FullRowsBelow(st, i) + {i};
        res := res[i := EmptyRow()];
        lines := lines + 1;
      } else {
        assert FullRowsBelow(st, i + 1) == FullRowsBelow(st, i);
      }
      i := i + 1;
    }
    assert FullRowsBelow(st, SIZE) == FullRows(st);
  }

  class Game {
    var board: Grid
    var pieces: seq<Shape>
    var selected: Option<nat>
    var score: nat
    var over: bool
    var history: seq<nat>
    /** Which entry of SHAPES each hand piece was drawn as, and how many
        quarter turns it has had since. */
    ghost var ids: seq<nat>
    ghost var turns: seq<nat>

    ghost predicate Valid()
      reads this
    {
      && IsGrid(board) && NoFullRow(board)
      && DrawnHand(pieces, ids, turns)
      && (selected.Some? ==> selected.value < 3)
    }

    constructor (draw: seq<nat>, stored: seq<nat>)
      requires IsDraw(draw)
      ensures Valid() && board == EmptyGrid() && pieces == RandomPieces(draw)
      ensures selected == None && score == 0 && !over && history == stored
    {
      board := EmptyGrid();
      pieces := RandomPieces(draw);
      selected := None;
      score := 0;
      over := false;
      history := stored;
      ids := draw;
      turns := [0, 0, 0];
      new;
      FreshHand(draw);
      EmptyGridHasNoFullRow();
    }

    /** Clicking piece i selects it. */
    method Select(i: nat)
      requires Valid() && i < 3
      modifies this
      ensures Valid() && selected == Some(i)
      ensures board == old(board) && pieces == old(pieces) && score == old(score)
      ensures over == old(over) && history == old(history)
    {
      selected := Some(i);
    }

    /** rotateSelected: only the selected hand entry is rotated; nothing
        happens when no piece is selected. */
    method RotateSelected()
      requires Valid()
      modifies this
      ensures Valid() && board == old(board) && score == old(score) && selected == old(selected)
      ensures over == old(over) && history == old(history)
      ensures selected.None? ==> pieces == old(pieces)
      ensures selected.Some? ==> pieces == old(pieces)[selected.value := Rotate(old(pieces)[selected.value])]
    {
      if selected.None? {
        return;
      }
      var s := selected.value;
      assert Rotate(pieces[s]) == RotateTimes(SHAPES[ids[s]], turns[s] + 1);
      pieces := pieces[s := Rotate(pieces[s])];
      turns := turns[s := turns[s] + 1];
    }

    /** Dropping hand piece idx on cell (x, y): place(x, y, pieces[idx]),
        with the next hand's three random indices as draw. Nothing changes
        when the piece does not fit. Otherwise the shape's cells are filled,
        full rows are emptied and counted into the score, the hand is
        replaced whole, and checkOver runs on the new board with the hand
        and the score from before this placement. */
    method Place(x: int, y: int, idx: nat, draw: seq<nat>)
      requires Valid() && idx < 3 && IsDraw(draw)
      modifies this
      ensures Valid()
      ensures !CanPlace(x, y, old(pieces)[idx], old(board)) ==>
                board == old(board) && pieces == old(pieces) && score == old(score)
                && selected == old(selected) && over == old(over) && history == old(history)
      ensures CanPlace(x, y, old(pieces)[idx], old(board)) ==>
                var st := Stamp(old(board), x, y, old(pieces)[idx]);
                && board == Cleared(st)
                && score == old(score) + |FullRows(st)|
                && pieces == RandomPieces(draw) && selected == None
                && over == (old(over) || !AnyFits(board, old(pieces)))
                && history == if AnyFits(board, old(pieces)) then old(history) else old(history) + [old(score)]
    {
      var shape := pieces[idx];
      if !CanPlace(x, y, shape, board) {
        return;
      }
      var st := StampCells(board, x, y, shape);
      CommitPlacement(st, draw);
    }

    /** The rest of place once the copy st holds the stamped shape: clear and
        count the full rows, store board and score, draw a new hand, clear
        the selection, and run checkOver with the hand and the score of this
        render, the ones from before the placement. */
    method CommitPlacement(st: Grid, draw: seq<nat>)
      requires Valid() && IsGrid(st) && IsDraw(draw)
      modifies this
      ensures Valid()
      ensures board == Cleared(st) && score == old(score) + |FullRows(st)|
      ensures pieces == RandomPieces(draw) && selected == None
      ensures over == (old(over) || !AnyFits(board, old(pieces)))
      ensures history == if AnyFits(board, old(pieces)) then old(history) else old(history) + [old(score)]
    {
      var b, lines := ClearFullRows(st);
      ClearedRows(st);
      var can := AnyPieceFits(b, pieces);
      if !can {
        over := true;
        history := history + [score];
      }
      score := score + lines;
      board := b;
      pieces := RandomPieces(draw);
      ids, turns := draw, [0, 0, 0];
      FreshHand(draw);
      selected := None;
    }

    /** restart: an empty board, a new hand, score 0, not over; the history is kept. */
    method Restart(draw: seq<nat>)
      requires IsDraw(draw)
      modifies this
      ensures Valid() && board == EmptyGrid() && pieces == RandomPieces(draw)
      ensures selected == None && score == 0 && !over && history == old(history)
    {
      board := EmptyGrid();
      pieces := RandomPieces(draw);
      ids, turns := draw, [0, 0, 0];
      FreshHand(draw);
      EmptyGridHasNoFullRow();
      score := 0;
      over := false;
      selected := None;
    }
  }
}
