/** The 8x8 grid that the position encoder fills in, the puzzle records it
    reads, and the decoding of placement tokens such as "Ka1" into grid
    indices. Row 0 of the grid is the eighth rank (the top of the board as
    the position string lists it), column 0 is the a-file. */
module Board {

  /** A square of the grid: `null` in the source, or the piece letter placed there. */
  datatype Cell = Empty | Occupied(piece: char)

  datatype Side = White | Black

  /** A chess puzzle of the catalog. `toMove` only drives the turn label. */
  datatype ChessPuzzle = ChessPuzzle(
    white: seq<string>,
    black: seq<string>,
    title: string,
    answer: string,
    toMove: Side)

  type Grid = seq<seq<Cell>>

  /** Grid indices: `row` counts ranks down from the eighth, `col` files from a. */
  datatype Square = Square(row: int, col: int)

  predicate IsGrid(b: Grid) {
    |b| == 8 && forall r :: 0 <= r < 8 ==> |b[r]| == 8
  }

  function EmptyGrid(): (b: Grid)
    ensures IsGrid(b)
    ensures forall r, f :: 0 <= r < 8 && 0 <= f < 8 ==> b[r][f] == Empty
  {
    seq(8, _ => seq(8, _ => Empty))
  }

  /** A placement token: a piece letter, then a file letter a-h and a rank
      digit 1-8. Characters after the rank digit are never looked at. The
      piece letter is a single UTF-16 code unit, so that the characters at
      positions 1 and 2 are the ones the source reads there. */
  predicate ValidToken(t: string) {
    |t| >= 3 && t[0] as int < 0x1_0000 && 'a' <= t[1] <= 'h' && '1' <= t[2] <= '8'
  }

  predicate AllValid(ts: seq<string>) {
    forall i :: 0 <= i < |ts| ==> ValidToken(ts[i])
  }

  predicate WellFormed(p: ChessPuzzle) {
    AllValid(p.white) && AllValid(p.black)
  }

  /** file = letter - 'a', rank = 8 - digit */
  function SquareOf(t: string): (sq: Square)
    requires ValidToken(t)
    ensures 0 <= sq.row < 8 && 0 <= sq.col < 8
  {
    Square(8 - (t[2] as int - '0' as int), t[1] as int - 'a' as int)
  }

  /** The two characters naming a square on the board, such as "e4". */
  function SquareName(sq: Square): (s: string)
    requires 0 <= sq.row < 8 && 0 <= sq.col < 8
    ensures |s| == 2 && 'a' <= s[0] <= 'h' && '1' <= s[1] <= '8'
  {
    [('a' as int + sq.col) as char, ('0' as int + 8 - sq.row) as char]
  }

  /** Naming a square and decoding the name gives the square back, so every
      cell of the grid is reachable by exactly one square name. */
  lemma SquareNameRoundTrip(piece: char, sq: Square)
    requires piece as int < 0x1_0000 && 0 <= sq.row < 8 && 0 <= sq.col < 8
    ensures ValidToken([piece] + SquareName(sq))
    ensures SquareOf([piece] + SquareName(sq)) == sq
  {
  }

  /** Two tokens land on the same cell exactly when they name the same square. */
  lemma SquareOfInjective(t: string, u: string)
    requires ValidToken(t) && ValidToken(u)
    ensures SquareOf(t) == SquareOf(u) <==> t[1] == u[1] && t[2] == u[2]
  {
  }

  /** a1 is the bottom-left cell [7][0], h8 the top-right cell [0][7]. */
  lemma SquareOfCorners()
    ensures SquareOf("Ka1") == Square(7, 0)
    ensures SquareOf("Kh8") == Square(0, 7)
    ensures SquareOf("Pe2") == Square(6, 4)
  {
  }

  /** ASCII lower-casing, as `toLowerCase` does on the letters A-Z. */
  function ToLower(c: char): (l: char)
    ensures 'A' <= c <= 'Z' ==> 'a' <= l <= 'z' && l as int - 'a' as int == c as int - 'A' as int
    ensures !('A' <= c <= 'Z') ==> l == c
  {
    if 'A' <= c <= 'Z' then (c as int - 'A' as int + 'a' as int) as char else c
  }

  /** The letter written to the grid: as given for white, lower-cased for black. */
  function PieceLetter(t: string, black: bool): (c: char)
    requires |t| >= 1
    ensures !black ==> c == t[0]
    ensures black ==> c == ToLower(t[0])
    ensures black ==> !('A' <= c <= 'Z')
    ensures black && !('A' <= t[0] <= 'Z') ==> c == t[0]
  {
    if black then ToLower(t[0]) else t[0]
  }

  /** One step of the `forEach` in puzzleToFEN: overwrite the token's cell. */
  function Place(b: Grid, t: string, black: bool): (r: Grid)
    requires IsGrid(b) && ValidToken(t)
    ensures IsGrid(r)
    ensures r[SquareOf(t).row][SquareOf(t).col] == Occupied(PieceLetter(t, black))
    ensures forall i, j :: 0 <= i < 8 && 0 <= j < 8 && Square(i, j) != SquareOf(t) ==> r[i][j] == b[i][j]
  {
    var sq := SquareOf(t);
    b[sq.row := b[sq.row][sq.col := Occupied(PieceLetter(t, black))]]
  }

  /** A whole token list placed in order, later entries after earlier ones.
      Every square a token names ends up occupied (by a piece that is not
      upper-case when the list is black), and every other cell is kept. */
  function PlaceAll(b: Grid, ts: seq<string>, black: bool): (r: Grid)
    requires IsGrid(b) && AllValid(ts)
    ensures IsGrid(r)
    ensures forall i :: 0 <= i < |ts| ==> Holding(r, SquareOf(ts[i]), black)
    ensures forall x, y :: 0 <= x < 8 && 0 <= y < 8 && Square(x, y) !in SquaresOf(ts) ==> r[x][y] == b[x][y]
    decreases |ts|
  {
    if ts == [] then b
    else
      var init := ts[..|ts| - 1];
      var r0 := PlaceAll(b, init, black);
      var r := Place(r0, ts[|ts| - 1], black);
      PlaceLast(b, init, r0, ts, black, r);
      r
  }

  /** Placing the last token keeps what PlaceAll promises of the others. */
  lemma PlaceLast(b: Grid, init: seq<string>, r0: Grid, ts: seq<string>, black: bool, r: Grid)
    requires IsGrid(b) && IsGrid(r0) && AllValid(ts) && ts != [] && init == ts[..|ts| - 1]
    requires r == Place(r0, ts[|ts| - 1], black)
    requires forall i :: 0 <= i < |init| ==> Holding(r0, SquareOf(init[i]), black)
    requires forall x, y :: 0 <= x < 8 && 0 <= y < 8 && Square(x, y) !in SquaresOf(init) ==> r0[x][y] == b[x][y]
    ensures IsGrid(r)
    ensures forall i :: 0 <= i < |ts| ==> Holding(r, SquareOf(ts[i]), black)
    ensures forall x, y :: 0 <= x < 8 && 0 <= y < 8 && Square(x, y) !in SquaresOf(ts) ==> r[x][y] == b[x][y]
  {
    SquaresOfSnoc(ts);
    forall i | 0 <= i < |ts| ensures Holding(r, SquareOf(ts[i]), black) {
      if i < |ts| - 1 {
        assert init[i] == ts[i];
      }
    }
  }

  /** The cell on `sq` holds a piece, and not an upper-case one if `black`. */
  predicate Holding(b: Grid, sq: Square, black: bool)
    requires IsGrid(b) && 0 <= sq.row < 8 && 0 <= sq.col < 8
  {
    b[sq.row][sq.col].Occupied? && (black ==> !('A' <= b[sq.row][sq.col].piece <= 'Z'))
  }

  /** The grid puzzleToFEN builds: white tokens first, then black ones. */
  function Position(p: ChessPuzzle): (b: Grid)
    requires WellFormed(p)
    ensures IsGrid(b)
    ensures forall i :: 0 <= i < |p.white| ==> b[SquareOf(p.white[i]).row][SquareOf(p.white[i]).col].Occupied?
    ensures forall i :: 0 <= i < |p.black| ==> Holding(b, SquareOf(p.black[i]), true)
    ensures forall x, y :: 0 <= x < 8 && 0 <= y < 8 && Square(x, y) !in SquaresOf(p.white) + SquaresOf(p.black) ==>
      b[x][y] == Empty
  {
    PlaceAll(PlaceAll(EmptyGrid(), p.white, false), p.black, true)
  }

  /** The index of the last token of `ts` on `sq`, or -1 when none is. */
  function LastOn(ts: seq<string>, sq: Square): (i: int)
    requires AllValid(ts)
    ensures -1 <= i < |ts|
    ensures i >= 0 ==> SquareOf(ts[i]) == sq
    ensures forall j :: i < j < |ts| ==> SquareOf(ts[j]) != sq
    decreases |ts|
  {
    if ts == [] then -1
    else if SquareOf(ts[|ts| - 1]) == sq then |ts| - 1
    else LastOn(ts[..|ts| - 1], sq)
  }

  /** Later placements win: a cell holds the letter of the last token on it,
      or what it held before when no token names it. */
  lemma {:induction false} PlaceAllCell(b: Grid, ts: seq<string>, black: bool, r: int, f: int)
    requires IsGrid(b) && AllValid(ts) && 0 <= r < 8 && 0 <= f < 8
    ensures var i := LastOn(ts, Square(r, f));
      PlaceAll(b, ts, black)[r][f] == if i >= 0 then Occupied(PieceLetter(ts[i], black)) else b[r][f]
  {
    if ts != [] {
      var init := ts[..|ts| - 1];
      assert AllValid(init);
      PlaceAllCell(b, init, black, r, f);
    }
  }

  /** What a cell of the encoded grid holds: the lower-cased letter of the
      last black token on it; else the letter, unchanged, of the last white
      token on it; else nothing. */
  lemma PositionCell(p: ChessPuzzle, r: int, f: int)
    requires WellFormed(p) && 0 <= r < 8 && 0 <= f < 8
    ensures var bi := LastOn(p.black, Square(r, f));
            var wi := LastOn(p.white, Square(r, f));
      Position(p)[r][f] ==
        if bi >= 0 then Occupied(ToLower(p.black[bi][0]))
        else if wi >= 0 then Occupied(p.white[wi][0])
        else Empty
  {
    PlaceAllCell(EmptyGrid(), p.white, false, r, f);
    PlaceAllCell(PlaceAll(EmptyGrid(), p.white, false), p.black, true, r, f);
  }

  // ---------------------------------------------------------------------
  // Occupancy: a position with N tokens on distinct squares has N pieces.

  function OccupiedSquares(b: Grid): set<Square>
    requires IsGrid(b)
  {
    set r, f | 0 <= r < 8 && 0 <= f < 8 && b[r][f].Occupied? :: Square(r, f)
  }

  function SquaresOf(ts: seq<string>): (s: set<Square>)
    requires AllValid(ts)
  {
    set i | 0 <= i < |ts| :: SquareOf(ts[i])
  }

  predicate DistinctSquares(ts: seq<string>)
    requires AllValid(ts)
  {
    forall i, j :: 0 <= i < j < |ts| ==> SquareOf(ts[i]) != SquareOf(ts[j])
  }

  /** The occupied cells are exactly the squares some token names. */
  lemma OccupiedPosition(p: ChessPuzzle)
    requires WellFormed(p)
    ensures OccupiedSquares(Position(p)) == SquaresOf(p.white) + SquaresOf(p.black)
  {
    var b := Position(p);
    var named := SquaresOf(p.white) + SquaresOf(p.black);
    forall sq | sq in OccupiedSquares(b)
      ensures sq in named
    {
      assert 0 <= sq.row < 8 && 0 <= sq.col < 8 && b[sq.row][sq.col].Occupied?;
      assert Square(sq.row, sq.col) == sq;
    }
    forall sq | sq in named
      ensures sq in OccupiedSquares(b)
    {
      if sq in SquaresOf(p.white) {
        var i :| 0 <= i < |p.white| && SquareOf(p.white[i]) == sq;
      } else {
        var i :| 0 <= i < |p.black| && SquareOf(p.black[i]) == sq;
      }
      assert b[sq.row][sq.col].Occupied?;
    }
  }

  /** The squares of a list are those of all but its last token, plus the last one's. */
  lemma SquaresOfSnoc(ts: seq<string>)
    requires AllValid(ts) && ts != []
    ensures AllValid(ts[..|ts| - 1])
    ensures SquaresOf(ts) == SquaresOf(ts[..|ts| - 1]) + {SquareOf(ts[|ts| - 1])}
  {
  }

  /** A list of tokens on pairwise distinct squares names as many squares as it has tokens. */
  lemma {:induction false} DistinctSquaresCount(ts: seq<string>)
    requires AllValid(ts) && DistinctSquares(ts)
    ensures |SquaresOf(ts)| == |ts|
    decreases |ts|
  {
    if ts != [] {
      var init := ts[..|ts| - 1];
      SquaresOfSnoc(ts);
      assert DistinctSquares(init);
      DistinctSquaresCount(init);
      var last := SquareOf(ts[|ts| - 1]);
      assert last !in SquaresOf(init) by {
        forall j | 0 <= j < |init| ensures SquareOf(init[j]) != last {
          assert init[j] == ts[j];
        }
      }
    }
  }

  /** The squares of two lists placed one after the other. */
  lemma SquaresOfAppend(w: seq<string>, k: seq<string>)
    requires AllValid(w) && AllValid(k)
    ensures AllValid(w + k)
    ensures SquaresOf(w + k) == SquaresOf(w) + SquaresOf(k)
  {
    var all := w + k;
    forall sq | sq in SquaresOf(all) ensures sq in SquaresOf(w) + SquaresOf(k) {
      var i :| 0 <= i < |all| && SquareOf(all[i]) == sq;
      if i < |w| { assert all[i] == w[i]; }
      else { assert all[i] == k[i - |w|]; }
    }
    forall sq | sq in SquaresOf(w) ensures sq in SquaresOf(all) {
      var i :| 0 <= i < |w| && SquareOf(w[i]) == sq;
      assert all[i] == w[i];
    }
    forall sq | sq in SquaresOf(k) ensures sq in SquaresOf(all) {
      var i :| 0 <= i < |k| && SquareOf(k[i]) == sq;
      assert all[|w| + i] == k[i];
    }
  }

  /** A puzzle whose tokens all name distinct squares puts exactly one piece per token on the grid. */
  lemma PieceCount(p: ChessPuzzle)
    requires WellFormed(p) && AllValid(p.white + p.black) && DistinctSquares(p.white + p.black)
    ensures |OccupiedSquares(Position(p))| == |p.white| + |p.black|
  {
    OccupiedPosition(p);
    DistinctSquaresCount(p.white + p.black);
    SquaresOfAppend(p.white, p.black);
  }

  // ---------------------------------------------------------------------
  // The in-place fill of the source's 8x8 array.

  /** The array holds grid `b`, cell by cell. */
  ghost predicate Holds(grid: array2<Cell>, b: Grid)
    reads grid
    requires IsGrid(b)
  {
    grid.Length0 == 8 && grid.Length1 == 8 &&
    forall r, f :: 0 <= r < 8 && 0 <= f < 8 ==> grid[r, f] == b[r][f]
  }

  /** The `forEach` over one token list, writing each piece into the array. */
  method PlaceTokens(grid: array2<Cell>, ts: seq<string>, black: bool, ghost before: Grid)
    requires IsGrid(before) && AllValid(ts) && Holds(grid, before)
    modifies grid
    ensures Holds(grid, PlaceAll(before, ts, black))
  {
    for i := 0 to |ts|
      invariant Holds(grid, PlaceAll(before, ts[..i], black))
    {
      ghost var prev := PlaceAll(before, ts[..i], black);
      var t := ts[i];
      var file := t[1] as int - 'a' as int;
      var rank := 8 - (t[2] as int - '0' as int);
      grid[rank, file] := Occupied(PieceLetter(t, black));
      assert ts[..i + 1][..i] == ts[..i];
      assert PlaceAll(before, ts[..i + 1], black) == Place(prev, t, black);
    }
    assert ts[..|ts|] == ts;
  }

  /** convertPieceToFEN: a fresh empty array with one list of pieces placed, letters as given. */
  method ConvertPieceToFen(pieces: seq<string>) returns (grid: array2<Cell>)
    requires AllValid(pieces)
    ensures fresh(grid)
    ensures Holds(grid, PlaceAll(EmptyGrid(), pieces, false))
  {
    grid := new Cell[8, 8]((r, f) => Empty);
    PlaceTokens(grid, pieces, false, EmptyGrid());
  }

  /** The first half of puzzleToFEN: a fresh empty array, the white tokens
      placed as given, then the black ones lower-cased. */
  method FillGrid(p: ChessPuzzle) returns (grid: array2<Cell>)
    requires WellFormed(p)
    ensures fresh(grid)
    ensures Holds(grid, Position(p))
  {
    grid := new Cell[8, 8]((r, f) => Empty);
    PlaceTokens(grid, p.white, false, EmptyGrid());
    PlaceTokens(grid, p.black, true, PlaceAll(EmptyGrid(), p.white, false));
  }
}
