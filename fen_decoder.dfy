/** A run-length decoder for the placement field, the inverse that the
    encoder's output is read back with: a digit stands for that many empty
    squares, '/' ends a rank, and the field ends at the first space. */
module FenDecoder {
  import opened Board
  import opened Fen

  function Empties(n: nat): (e: seq<Cell>)
    ensures |e| == n && forall i :: 0 <= i < n ==> e[i] == Empty
  {
    seq(n, _ => Empty)
  }

  /** The cells one rank segment stands for. */
  function DecodeRank(s: string): seq<Cell>
    decreases |s|
  {
    if s == [] then []
    else (if IsDigit(s[0]) then Empties(s[0] as int - '0' as int) else [Occupied(s[0])]) + DecodeRank(s[1..])
  }

  /** The segments of `s` between the '/' separators. */
  function Split(s: string): (segs: seq<string>)
    ensures |segs| >= 1
    decreases |s|
  {
    if s == [] then [[]]
    else
      var init := Split(s[..|s| - 1]);
      var c := s[|s| - 1];
      if c == '/' then init + [[]]
      else init[..|init| - 1] + [init[|init| - 1] + [c]]
  }

  function DecodePlacement(s: string): seq<seq<Cell>>
  {
    var segs := Split(s);
    seq(|segs|, i requires 0 <= i < |segs| => DecodeRank(segs[i]))
  }

  /** The first field of a position string: everything before the first space. */
  function PlacementField(fen: string): string
    decreases |fen|
  {
    if fen == [] || fen[0] == ' ' then [] else [fen[0]] + PlacementField(fen[1..])
  }

  function DecodeFen(fen: string): seq<seq<Cell>>
  {
    DecodePlacement(PlacementField(fen))
  }

  // ---------------------------------------------------------------------

  lemma {:induction false} DecodeRankAppend(a: string, b: string)
    ensures DecodeRank(a + b) == DecodeRank(a) + DecodeRank(b)
    decreases |a|
  {
    if a == [] {
      assert a + b == b;
    } else {
      assert (a + b)[0] == a[0] && (a + b)[1..] == a[1..] + b;
      DecodeRankAppend(a[1..], b);
    }
  }

  /** Decoding the rest of a rank gives back the pending empties and the remaining cells. */
  lemma {:induction false} DecodeEncodeRun(row: seq<Cell>, pending: nat)
    requires pending + |row| <= 8 && RowPiecesOk(row)
    ensures DecodeRank(EncodeRun(row, pending)) == Empties(pending) + row
    decreases |row|
  {
    if row == [] {
      if pending > 0 {
        assert DecodeRank([Digit(pending)]) == Empties(pending) + DecodeRank([]);
      }
    } else {
      assert RowPiecesOk(row[1..]) by {
        forall i | 0 <= i < |row[1..]| && row[1..][i].Occupied?
          ensures IsPieceChar(row[1..][i].piece)
        {
          assert row[1..][i] == row[i + 1];
        }
      }
      match row[0]
      case Empty =>
        DecodeEncodeRun(row[1..], pending + 1);
        assert Empties(pending + 1) + row[1..] == Empties(pending) + row;
      case Occupied(c) =>
        assert IsPieceChar(row[0].piece);
        DecodeEncodeRun(row[1..], 0);
        var rest := EncodeRun(row[1..], 0);
        DecodeRankAppend(Flush(pending) + [c], rest);
        DecodeRankAppend(Flush(pending), [c]);
        assert DecodeRank([c]) == [Occupied(c)] + DecodeRank([]);
        if pending > 0 {
          assert DecodeRank(Flush(pending)) == Empties(pending) + DecodeRank([]);
        }
        assert Empties(pending) + [Occupied(c)] + (Empties(0) + row[1..]) == Empties(pending) + row;
    }
  }

  /** One rank round-trips through its segment. */
  lemma DecodeEncodeRank(row: seq<Cell>)
    requires |row| <= 8 && RowPiecesOk(row)
    ensures DecodeRank(EncodeRank(row)) == row
  {
    DecodeEncodeRun(row, 0);
    assert Empties(0) + row == row;
  }

  predicate NoSlash(s: string) {
    forall i :: 0 <= i < |s| ==> s[i] != '/'
  }

  lemma {:induction false} SplitNoSlash(s: string)
    requires NoSlash(s)
    ensures Split(s) == [s]
    decreases |s|
  {
    if s != [] {
      SplitNoSlash(s[..|s| - 1]);
      assert s[..|s| - 1] + [s[|s| - 1]] == s;
    }
  }

  lemma {:induction false} SplitAfterSlash(a: string, s: string)
    requires NoSlash(s)
    ensures Split(a + "/" + s) == Split(a) + [s]
    decreases |s|
  {
    var whole := a + "/" + s;
    if s == [] {
      assert whole[..|whole| - 1] == a;
    } else {
      var init := s[..|s| - 1];
      assert whole[..|whole| - 1] == a + "/" + init;
      assert whole[|whole| - 1] == s[|s| - 1];
      SplitAfterSlash(a, init);
      assert init + [s[|s| - 1]] == s;
    }
  }

  /** Splitting at '/' undoes joining with '/', given segments without '/'. */
  lemma {:induction false} SplitJoin(segs: seq<string>)
    requires |segs| >= 1
    requires forall k :: 0 <= k < |segs| ==> NoSlash(segs[k])
    ensures Split(Join(segs)) == segs
    decreases |segs|
  {
    var n := |segs|;
    if n == 1 {
      SplitNoSlash(segs[0]);
    } else {
      var init := segs[..n - 1];
      SplitJoin(init);
      SplitAfterSlash(Join(init), segs[n - 1]);
      assert init + [segs[n - 1]] == segs;
    }
  }

  /** Round trip: decoding the placement field reconstructs the grid it was written from. */
  lemma DecodePlacementRoundTrip(b: Grid)
    requires IsGrid(b) && GridPiecesOk(b)
    ensures DecodePlacement(Placement(b)) == b
  {
    var rs := RankStrings(b);
    forall k | 0 <= k < 8 ensures NoSlash(rs[k]) && DecodeRank(rs[k]) == b[k] {
      RankWidth(b[k]);
      DecodeEncodeRank(b[k]);
    }
    SplitJoin(rs);
  }

  lemma {:induction false} PlacementFieldPrefix(a: string, rest: string)
    requires forall i :: 0 <= i < |a| ==> a[i] != ' '
    requires |rest| > 0 && rest[0] == ' '
    ensures PlacementField(a + rest) == a
    decreases |a|
  {
    if a == [] {
      assert a + rest == rest;
    } else {
      assert (a + rest)[0] == a[0] && (a + rest)[1..] == a[1..] + rest;
      PlacementFieldPrefix(a[1..], rest);
    }
  }

  lemma {:induction false} JoinNoSpace(segs: seq<string>)
    requires forall k :: 0 <= k < |segs| ==> RankChars(segs[k])
    ensures forall i :: 0 <= i < |Join(segs)| ==> Join(segs)[i] != ' '
    decreases |segs|
  {
    var n := |segs|;
    if n > 1 {
      JoinNoSpace(segs[..n - 1]);
    }
  }

  /** Round trip through the whole position string: its first field decodes
      to the grid the puzzle's tokens describe, the tail being ignored. */
  lemma FenRoundTrip(p: ChessPuzzle)
    requires WellFormed(p) && LettersOk(p)
    ensures PlacementField(FenOf(p)) == Placement(Position(p))
    ensures DecodeFen(FenOf(p)) == Position(p)
  {
    var b := Position(p);
    PositionPiecesOk(p);
    var rs := RankStrings(b);
    forall k | 0 <= k < 8 ensures RankChars(rs[k]) {
      RankWidth(b[k]);
    }
    assert forall i :: 0 <= i < |Placement(b)| ==> Placement(b)[i] != ' ' by {
      JoinNoSpace(rs);
    }
    PlacementFieldPrefix(Placement(b), Suffix);
    DecodePlacementRoundTrip(b);
  }
}
