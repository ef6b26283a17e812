/** The position encoder: the placement field of Forsyth-Edwards Notation
    (section 16.1 of the PGN standard) written from the grid, followed by a
    fixed tail of fields. */
module Fen {
  import opened Board

  /** White to move, all castling rights, no en-passant square, halfmove
      clock 0, fullmove number 1 -- whatever the puzzle's `toMove` says. */
  const Suffix: string := " w KQkq - 0 1"

  predicate IsDigit(c: char) {
    '0' <= c <= '9'
  }

  /** A character that stands for a piece and cannot be read back as a run
      length, a rank separator or the end of the placement field. */
  predicate IsPieceChar(c: char) {
    !IsDigit(c) && c != '/' && c != ' '
  }

  /** Every piece on the row is written with a piece character. */
  predicate RowPiecesOk(row: seq<Cell>) {
    forall i :: 0 <= i < |row| && row[i].Occupied? ==> IsPieceChar(row[i].piece)
  }

  predicate GridPiecesOk(b: Grid)
    requires IsGrid(b)
  {
    forall r :: 0 <= r < 8 ==> RowPiecesOk(b[r])
  }

  /** Every token of the puzzle starts with a piece character. */
  predicate LettersOk(p: ChessPuzzle) {
    (forall i :: 0 <= i < |p.white| && |p.white[i]| >= 1 ==> IsPieceChar(p.white[i][0])) &&
    (forall i :: 0 <= i < |p.black| && |p.black[i]| >= 1 ==> IsPieceChar(p.black[i][0]))
  }

  /** The decimal numeral of a count of at most nine. */
  function Digit(n: nat): (c: char)
    requires n <= 9
    ensures IsDigit(c) && c as int - '0' as int == n
  {
    ('0' as int + n) as char
  }

  /** The pending run of empty squares, written only when positive. */
  function Flush(n: nat): (r: string)
    requires n <= 8
    ensures |r| <= n
    ensures r == [] <==> n == 0
  {
    if n > 0 then [Digit(n)] else []
  }

  /** The rest of a rank when `pending` empty squares are still unwritten:
      never longer than the squares it stands for, and empty only when there
      are none. */
  function EncodeRun(row: seq<Cell>, pending: nat): (r: string)
    requires pending + |row| <= 8
    ensures |r| <= pending + |row|
    ensures r == [] <==> pending + |row| == 0
    decreases |row|
  {
    if row == [] then Flush(pending)
    else match row[0]
      case Empty => EncodeRun(row[1..], pending + 1)
      case Occupied(c) => Flush(pending) + [c] + EncodeRun(row[1..], 0)
  }

  /** A run of empty squares, however it is split between pending and
      still unread, is written as a single count. */
  lemma {:induction false} EmptyRun(n: nat, pending: nat)
    requires n + pending <= 8
    ensures EncodeRun(seq(n, _ => Empty), pending) == Flush(n + pending)
    decreases n
  {
    if n > 0 {
      assert seq(n, _ => Empty)[1..] == seq(n - 1, _ => Empty);
      EmptyRun(n - 1, pending + 1);
    }
  }

  /** One rank: at most one character per square, and nothing only for a
      row with no squares. */
  function EncodeRank(row: seq<Cell>): (r: string)
    requires |row| <= 8
    ensures |r| <= |row|
    ensures r == [] <==> row == []
  {
    EncodeRun(row, 0)
  }

  /** Segments separated by '/': the text starts with the first segment and
      has room for a separator between every two segments. */
  function Join(segs: seq<string>): (r: string)
    ensures |segs| >= 1 ==> segs[0] <= r
    ensures |r| >= |segs| - 1
    decreases |segs|
  {
    if |segs| == 0 then []
    else if |segs| == 1 then segs[0]
    else Join(segs[..|segs| - 1]) + "/" + segs[|segs| - 1]
  }

  function RankStrings(b: Grid): (rs: seq<string>)
    requires IsGrid(b)
    ensures |rs| == 8 && forall i :: 0 <= i < 8 ==> rs[i] == EncodeRank(b[i])
  {
    seq(8, i requires 0 <= i < 8 => EncodeRank(b[i]))
  }

  /** The placement field: the ranks from the eighth down, joined by '/'. */
  function Placement(b: Grid): string
    requires IsGrid(b)
  {
    Join(RankStrings(b))
  }

  /** The position string handed to the board renderer: it always ends with
      the fixed tail, and for pieces written with piece characters the
      placement in front of that tail has seven rank separators. */
  function FenOf(p: ChessPuzzle): (r: string)
    requires WellFormed(p)
    ensures |Suffix| <= |r| && r[|r| - |Suffix|..] == Suffix
    ensures LettersOk(p) ==> Occurrences(r[..|r| - |Suffix|], '/') == 7
  {
    var placement := Placement(Position(p));
    assert LettersOk(p) ==> Occurrences(placement, '/') == 7 by {
      if LettersOk(p) {
        PositionPiecesOk(p);
        PlacementShape(Position(p));
      }
    }
    assert (placement + Suffix)[..|placement|] == placement;
    placement + Suffix
  }

  /** puzzleToFEN: fill an 8x8 array, then write it rank by rank. */
  method PuzzleToFen(p: ChessPuzzle) returns (fen: string)
    requires WellFormed(p)
    ensures fen == FenOf(p)
  {
    var grid := FillGrid(p);
    fen := WritePlacement(grid, Position(p));
    fen := fen + Suffix;
  }

  /** The second half of puzzleToFEN: write the ranks of the array from the
      eighth down, '/' between two ranks. */
  method WritePlacement(grid: array2<Cell>, ghost b: Grid) returns (fen: string)
    requires IsGrid(b) && Holds(grid, b)
    ensures fen == Placement(b)
  {
    ghost var rs := RankStrings(b);
    fen := "";
    for rank := 0 to 8
      invariant rank == 0 ==> fen == ""
      invariant 0 < rank < 8 ==> fen == Join(rs[..rank]) + "/"
      invariant rank == 8 ==> fen == Join(rs)
    {
      fen := AppendRank(fen, grid, rank, b);
      if rank < 7 {
        fen := fen + "/";
      }
      if rank > 0 {
        JoinPrefix(rs, rank);
      }
    }
    assert rs[..8] == rs;
  }

  /** Joining one more segment appends a separator and that segment. */
  lemma JoinPrefix(segs: seq<string>, k: nat)
    requires 0 < k < |segs|
    ensures Join(segs[..k + 1]) == Join(segs[..k]) + "/" + segs[k]
  {
    assert segs[..k + 1][..k] == segs[..k];
  }

  /** The body of puzzleToFEN's outer loop: append one rank, carrying the
      count of empty squares not yet written. */
  method AppendRank(fen0: string, grid: array2<Cell>, rank: nat, ghost b: Grid) returns (fen: string)
    requires IsGrid(b) && Holds(grid, b) && rank < 8
    ensures fen == fen0 + EncodeRank(b[rank])
  {
    fen := fen0;
    var emptyCount := 0;
    for file := 0 to 8
      invariant emptyCount <= file
      invariant fen + EncodeRun(b[rank][file..], emptyCount) == fen0 + EncodeRank(b[rank])
    {
      ghost var rest := b[rank][file + 1..];
      assert b[rank][file..] == [b[rank][file]] + rest;
      if grid[rank, file] == Empty {
        emptyCount := emptyCount + 1;
      } else {
        var c := grid[rank, file].piece;
        assert EncodeRun(b[rank][file..], emptyCount) == Flush(emptyCount) + [c] + EncodeRun(rest, 0);
        if emptyCount > 0 {
          fen := fen + [Digit(emptyCount)];
          emptyCount := 0;
        }
        fen := fen + [c];
      }
    }
    if emptyCount > 0 {
      fen := fen + [Digit(emptyCount)];
    }
  }

  // ---------------------------------------------------------------------
  // Shape of one rank: run lengths and piece letters.

  /** Squares a piece of the placement field stands for: a digit its value, any other character one. */
  function Width(s: string): nat
    decreases |s|
  {
    if s == [] then 0
    else (if IsDigit(s[0]) then s[0] as int - '0' as int else 1) + Width(s[1..])
  }

  /** No two digits side by side, and no digit 0. */
  predicate WellSpaced(s: string) {
    forall i :: 0 <= i < |s| ==> s[i] != '0' && (IsDigit(s[i]) && i + 1 < |s| ==> !IsDigit(s[i + 1]))
  }

  /** Each character of a rank is a run length 1-8 or a piece character. */
  predicate RankChars(s: string) {
    forall i :: 0 <= i < |s| ==> '1' <= s[i] <= '8' || IsPieceChar(s[i])
  }

  lemma {:induction false} WidthAppend(a: string, b: string)
    ensures Width(a + b) == Width(a) + Width(b)
    decreases |a|
  {
    if a != [] {
      assert (a + b)[0] == a[0] && (a + b)[1..] == a[1..] + b;
      WidthAppend(a[1..], b);
    } else {
      assert a + b == b;
    }
  }

  /** Gluing two well-spaced pieces around a non-digit keeps them well spaced. */
  lemma WellSpacedAround(x: string, c: char, y: string)
    requires WellSpaced(x) && WellSpaced(y) && !IsDigit(c) && c != '0'
    ensures WellSpaced(x + [c] + y)
  {
  }

  /** The rest of a rank covers the pending empties plus the remaining
      squares, uses only run lengths 1-8 and piece characters, and never puts
      two run lengths side by side. */
  lemma {:induction false} EncodeRunShape(row: seq<Cell>, pending: nat)
    requires pending + |row| <= 8 && RowPiecesOk(row)
    ensures Width(EncodeRun(row, pending)) == pending + |row|
    ensures RankChars(EncodeRun(row, pending))
    ensures WellSpaced(EncodeRun(row, pending))
    decreases |row|
  {
    if row != [] {
      assert RowPiecesOk(row[1..]) by {
        forall i | 0 <= i < |row[1..]| && row[1..][i].Occupied?
          ensures IsPieceChar(row[1..][i].piece)
        {
          assert row[1..][i] == row[i + 1];
        }
      }
      match row[0]
      case Empty =>
        EncodeRunShape(row[1..], pending + 1);
      case Occupied(c) =>
        assert IsPieceChar(row[0].piece);
        EncodeRunShape(row[1..], 0);
        var rest := EncodeRun(row[1..], 0);
        WidthAppend(Flush(pending) + [c], rest);
        WidthAppend(Flush(pending), [c]);
        WellSpacedAround(Flush(pending), c, rest);
    }
  }

  /** Every rank segment accounts for exactly eight squares: piece characters
      plus the empty-run digits sum to the width of the row. */
  lemma RankWidth(row: seq<Cell>)
    requires |row| == 8 && RowPiecesOk(row)
    ensures Width(EncodeRank(row)) == 8
    ensures RankChars(EncodeRank(row)) && WellSpaced(EncodeRank(row))
  {
    EncodeRunShape(row, 0);
  }

  // ---------------------------------------------------------------------
  // Shape of the placement field: eight segments, seven separators.

  function Occurrences(s: string, c: char): nat
    decreases |s|
  {
    if s == [] then 0 else (if s[|s| - 1] == c then 1 else 0) + Occurrences(s[..|s| - 1], c)
  }

  lemma {:induction false} OccurrencesAppend(a: string, b: string, c: char)
    ensures Occurrences(a + b, c) == Occurrences(a, c) + Occurrences(b, c)
    decreases |b|
  {
    if b != [] {
      assert (a + b)[|a + b| - 1] == b[|b| - 1] && (a + b)[..|a + b| - 1] == a + b[..|b| - 1];
      OccurrencesAppend(a, b[..|b| - 1], c);
    } else {
      assert a + b == a;
    }
  }

  lemma {:induction false} OccurrencesAbsent(s: string, c: char)
    requires forall i :: 0 <= i < |s| ==> s[i] != c
    ensures Occurrences(s, c) == 0
    decreases |s|
  {
    if s != [] {
      OccurrencesAbsent(s[..|s| - 1], c);
    }
  }

  /** Joining n segments that hold no '/' writes exactly n - 1 of them. */
  lemma {:induction false} JoinSeparators(segs: seq<string>)
    requires |segs| >= 1
    requires forall k, i :: 0 <= k < |segs| && 0 <= i < |segs[k]| ==> segs[k][i] != '/'
    ensures Occurrences(Join(segs), '/') == |segs| - 1
    decreases |segs|
  {
    var n := |segs|;
    if n == 1 {
      OccurrencesAbsent(segs[0], '/');
    } else {
      var init := segs[..n - 1];
      JoinSeparators(init);
      OccurrencesAbsent(segs[n - 1], '/');
      OccurrencesAppend(Join(init) + "/", segs[n - 1], '/');
      OccurrencesAppend(Join(init), "/", '/');
    }
  }

  /** Whole field: well spaced across the separators too. */
  lemma {:induction false} JoinWellSpaced(segs: seq<string>)
    requires forall k :: 0 <= k < |segs| ==> WellSpaced(segs[k])
    ensures WellSpaced(Join(segs))
    decreases |segs|
  {
    var n := |segs|;
    if n > 1 {
      JoinWellSpaced(segs[..n - 1]);
      WellSpacedAround(Join(segs[..n - 1]), '/', segs[n - 1]);
    }
  }

  /** The placement field has eight rank segments separated by exactly seven
      '/', each accounting for eight squares, and no digit 0 or two adjacent
      digits anywhere in it. */
  lemma PlacementShape(b: Grid)
    requires IsGrid(b) && GridPiecesOk(b)
    ensures Occurrences(Placement(b), '/') == 7
    ensures forall r :: 0 <= r < 8 ==> Width(RankStrings(b)[r]) == 8
    ensures WellSpaced(Placement(b))
  {
    var rs := RankStrings(b);
    forall r | 0 <= r < 8
      ensures Width(rs[r]) == 8 && RankChars(rs[r]) && WellSpaced(rs[r])
    {
      RankWidth(b[r]);
    }
    JoinSeparators(rs);
    JoinWellSpaced(rs);
  }

  /** Tokens starting with piece characters put only piece characters on the grid. */
  lemma PositionPiecesOk(p: ChessPuzzle)
    requires WellFormed(p) && LettersOk(p)
    ensures GridPiecesOk(Position(p))
  {
    forall r, f | 0 <= r < 8 && 0 <= f < 8 && Position(p)[r][f].Occupied?
      ensures IsPieceChar(Position(p)[r][f].piece)
    {
      CellPieceOk(p, r, f);
    }
  }

  lemma CellPieceOk(p: ChessPuzzle, r: int, f: int)
    requires WellFormed(p) && LettersOk(p) && 0 <= r < 8 && 0 <= f < 8
    ensures Position(p)[r][f].Occupied? ==> IsPieceChar(Position(p)[r][f].piece)
  {
    PositionCell(p, r, f);
    var bi := LastOn(p.black, Square(r, f));
    var wi := LastOn(p.white, Square(r, f));
    if bi >= 0 {
      assert IsPieceChar(p.black[bi][0]);
    } else if wi >= 0 {
      assert IsPieceChar(p.white[wi][0]);
    }
  }

  /** The position string of a puzzle: a placement field with seven '/' and
      eight ranks of width eight, no digit 0 and no adjacent digits, then the
      fixed tail, whatever side the puzzle says is to move. */
  lemma FenShape(p: ChessPuzzle, side: Side)
    requires WellFormed(p) && LettersOk(p)
    ensures FenOf(p) == Placement(Position(p)) + " w KQkq - 0 1"
    ensures FenOf(p.(toMove := side)) == FenOf(p)
    ensures Occurrences(Placement(Position(p)), '/') == 7
    ensures forall r :: 0 <= r < 8 ==> Width(RankStrings(Position(p))[r]) == 8
    ensures WellSpaced(Placement(Position(p)))
  {
    PositionPiecesOk(p);
    PlacementShape(Position(p));
  }
}
