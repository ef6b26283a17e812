/** The two static catalogs the page ships with, and what the model says
    about them. */
module Catalog {
  import opened Board
  import opened Fen
  import opened Sequencer

  const WoRun := ChessPuzzle(
    ["Ka1", "Pa2", "Pa3", "Ra4"], ["Qc3", "Rh7", "Bf7", "Pa7", "Pb7", "Pc7", "Kb8"],
    "Wo...run!", "Kb1", White)
  const NoWay := ChessPuzzle(
    ["Kb1", "Pb2", "Pc3"], ["Qb5", "Bf6"],
    "No way!", "B x c3", Black)
  const HowIsItPossible := ChessPuzzle(
    ["Kb1"], ["Rc2", "Kb8", "Bc3", "Bb3", "Ne3"],
    "How is it possible?", "Ba2#", Black)
  const WhatOnEarth := ChessPuzzle(
    ["Kg1", "Pf2", "Pg2", "Ph2", "Rb1", "Qc2"], ["Pc7", "Pb7", "Pa7", "Kb8", "Qf8", "Nc6"],
    "What on earth!", "Q x c6", White)
  const OhMyGolly := ChessPuzzle(
    ["Kb1", "Qd2", "Rd1"], ["Pc7", "Pb7", "Pa7", "Kb8", "Rh8"],
    "Oh my golly!", "Qd8+", White)
  const Cheeses := ChessPuzzle(
    ["Ra1", "Pa2", "Rd1", "Pe3", "Pf2", "Kf1", "Nd5"], ["Kd8", "Pe7", "Pf7", "Pg7", "Qg4"],
    "Cheeses!", "Nf6+", White)

  const ChessCatalog: seq<ChessPuzzle> := [WoRun, NoWay, HowIsItPossible, WhatOnEarth, OhMyGolly, Cheeses]

  const FootballCatalog: seq<FootballPuzzle> := [
    FootballPuzzle("images/football1.png", "Tactical Challenge 1",
                   "This shows your white team kicking the ball up the pitch and scoring!"),
    FootballPuzzle("images/football2.png", "Complex Formation",
                   "This shows your white team kicking the ball up the pitch and scoring!"),
    FootballPuzzle("images/football3.png", "Field Positioning",
                   "The goalie and defenders are out of position! Kick the ball to the top left and score in the gap behind the goalie."),
    FootballPuzzle("images/football4.png", "Ball Control Challenge",
                   "Dribble towards your opponent's goal (the one that they are defending) and then pass to number 70."),
    FootballPuzzle("images/football5.jpg", "What can you do?", "Mark player 70.")
  ]

  /** What the encoder and the lemmas about it need of a catalog puzzle. */
  predicate Ready(p: ChessPuzzle) {
    WellFormed(p) && LettersOk(p) && AllValid(p.white + p.black) && DistinctSquares(p.white + p.black)
  }

  /** Every token of every chess puzzle names a square on the board and
      starts with a piece character, and no two tokens of a puzzle share a
      square, so each puzzle shows one piece per token. */
  lemma ChessCatalogReady()
    ensures forall i :: 0 <= i < |ChessCatalog| ==> Ready(ChessCatalog[i])
  {
    forall i | 0 <= i < |ChessCatalog| ensures Ready(ChessCatalog[i]) {
      PuzzleReady(i);
    }
  }

  lemma PuzzleReady(i: nat)
    requires i < |ChessCatalog|
    ensures Ready(ChessCatalog[i])
  {
    if i == 0 {
      WoRunReady();
    } else if i == 1 {
      NoWayReady();
    } else if i == 2 {
      HowIsItPossibleReady();
    } else if i == 3 {
      WhatOnEarthReady();
    } else if i == 4 {
      OhMyGollyReady();
    } else {
      CheesesReady();
    }
  }

  lemma WoRunReady() ensures Ready(WoRun) {}
  lemma NoWayReady() ensures Ready(NoWay) {}
  lemma HowIsItPossibleReady() ensures Ready(HowIsItPossible) {}
  lemma WhatOnEarthReady() ensures Ready(WhatOnEarth) {}
  lemma OhMyGollyReady() ensures Ready(OhMyGolly) {}
  lemma CheesesReady() ensures Ready(Cheeses) {}

  const KingsExample := ChessPuzzle(["Ka1"], ["Kb8"], "", "", Black)

  /** The worked example: a white king on a1 and a black king on b8. */
  lemma FenExample()
    ensures FenOf(KingsExample) == "1k6/8/8/8/8/8/8/K7 w KQkq - 0 1"
  {
    ExamplePlacement();
  }

  lemma ExamplePlacement()
    ensures Placement(Position(KingsExample)) == "1k6/8/8/8/8/8/8/K7"
  {
    var none := [Empty, Empty, Empty, Empty, Empty, Empty, Empty, Empty];
    var top := [Empty, Occupied('k'), Empty, Empty, Empty, Empty, Empty, Empty];
    var bottom := [Occupied('K'), Empty, Empty, Empty, Empty, Empty, Empty, Empty];
    ExamplePosition(top, none, bottom);
    ExampleRanks(top, none, bottom);
    var rs := RankStrings(Position(KingsExample));
    assert rs == ["1k6", "8", "8", "8", "8", "8", "8", "K7"];
    ExampleJoin(rs);
  }

  lemma ExampleRanks(top: seq<Cell>, none: seq<Cell>, bottom: seq<Cell>)
    requires none == [Empty, Empty, Empty, Empty, Empty, Empty, Empty, Empty]
    requires top == [Empty, Occupied('k'), Empty, Empty, Empty, Empty, Empty, Empty]
    requires bottom == [Occupied('K'), Empty, Empty, Empty, Empty, Empty, Empty, Empty]
    ensures EncodeRank(top) == "1k6" && EncodeRank(none) == "8" && EncodeRank(bottom) == "K7"
  {
    EmptyRun(8, 0);
    assert none == seq(8, _ => Empty);
    assert top[2..] == seq(6, _ => Empty);
    EmptyRun(6, 0);
    assert EncodeRun(top, 0) == EncodeRun(top[1..], 1);
    assert EncodeRun(top[1..], 1) == "1k" + EncodeRun(top[2..], 0);
    assert bottom[1..] == seq(7, _ => Empty);
    EmptyRun(7, 0);
    assert EncodeRun(bottom, 0) == "K" + EncodeRun(bottom[1..], 0);
  }

  lemma ExamplePosition(top: seq<Cell>, none: seq<Cell>, bottom: seq<Cell>)
    requires none == [Empty, Empty, Empty, Empty, Empty, Empty, Empty, Empty]
    requires top == [Empty, Occupied('k'), Empty, Empty, Empty, Empty, Empty, Empty]
    requires bottom == [Occupied('K'), Empty, Empty, Empty, Empty, Empty, Empty, Empty]
    ensures Position(KingsExample) == [top, none, none, none, none, none, none, bottom]
  {
    var expected := [top, none, none, none, none, none, none, bottom];
    var b := Position(KingsExample);
    assert ["Ka1"][..0] == [] && ["Kb8"][..0] == [];
    assert SquareOf("Ka1") == Square(7, 0) && SquareOf("Kb8") == Square(0, 1);
    assert b == Place(Place(EmptyGrid(), "Ka1", false), "Kb8", true);
    forall r | 0 <= r < 8 ensures b[r] == expected[r] {
      assert forall f :: 0 <= f < 8 ==> b[r][f] == expected[r][f];
    }
  }

  lemma ExampleJoin(rs: seq<string>)
    requires rs == ["1k6", "8", "8", "8", "8", "8", "8", "K7"]
    ensures Join(rs) == "1k6/8/8/8/8/8/8/K7"
  {
    assert Join(rs[..1]) == "1k6";
    JoinPrefix(rs, 1);
    assert Join(rs[..2]) == "1k6/8";
    JoinPrefix(rs, 2);
    assert Join(rs[..3]) == "1k6/8/8";
    JoinPrefix(rs, 3);
    assert Join(rs[..4]) == "1k6/8/8/8";
    JoinPrefix(rs, 4);
    assert Join(rs[..5]) == "1k6/8/8/8/8";
    JoinPrefix(rs, 5);
    assert Join(rs[..6]) == "1k6/8/8/8/8/8";
    JoinPrefix(rs, 6);
    assert Join(rs[..7]) == "1k6/8/8/8/8/8/8";
    JoinPrefix(rs, 7);
    assert rs[..8] == rs;
  }

  /** Loading index 6 of the six chess puzzles shows completion; loading
      index 4 of the five football puzzles does not. */
  lemma CompletionExamples(c: Cursor)
    ensures Guard(c, 6, |ChessCatalog|) == c.(completionShown := true)
    ensures Guard(c, 4, |FootballCatalog|) == c
  {
  }
}
