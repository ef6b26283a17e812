/** The two puzzle sequencers: which puzzle is current, which chess answers
    have been revealed, and whether the completion screen has been shown.
    The pure functions say what one event does to the state; the classes
    hold the state as the page does and are proved to follow them. */
module Sequencer {
  import opened Board
  import Fen

  datatype Option<T> = None | Some(value: T)

  /** The position in one catalog and whether the completion screen is up. */
  datatype Cursor = Cursor(index: nat, completionShown: bool)

  /** The state a page load starts from. */
  const Start: Cursor := Cursor(0, false)

  /** The chess sequencer also logs the indices whose answer was revealed. */
  datatype ChessState = ChessState(cursor: Cursor, completed: set<nat>)

  /** The user actions the page reacts to. */
  datatype Event = NextClicked | ShowAnswerClicked | Loaded(i: nat)

  /** The "next" handler: step to the next puzzle while there is one,
      otherwise show the completion screen and stay put. */
  function Advance(c: Cursor, count: nat): (r: Cursor)
    ensures r.index == c.index + 1 <==> c.index + 1 < count
    ensures c.index <= r.index <= c.index + 1
    ensures c.completionShown ==> r.completionShown
    ensures r.completionShown != c.completionShown ==> r.index == c.index
    ensures InRange(c, count) ==> InRange(r, count)
  {
    if c.index + 1 < count then c.(index := c.index + 1) else c.(completionShown := true)
  }

  /** The guard at the top of a load: an index past the catalog shows the
      completion screen; any other index leaves the state alone. */
  function Guard(c: Cursor, i: nat, count: nat): (r: Cursor)
    ensures r.index == c.index
    ensures r.completionShown == (c.completionShown || i >= count)
  {
    if i >= count then c.(completionShown := true) else c
  }

  /** The chess "show answer" handler records the current index. */
  function Reveal(s: ChessState): (r: ChessState)
    ensures r.cursor == s.cursor
    ensures s.completed <= r.completed
    ensures r.completed - s.completed <= {s.cursor.index}
    ensures s.cursor.index in r.completed
  {
    s.(completed := s.completed + {s.cursor.index})
  }

  /** One event on a cursor. Revealing an answer moves no cursor. */
  function CursorStep(c: Cursor, e: Event, count: nat): (r: Cursor)
    ensures c.index <= r.index
    ensures c.completionShown ==> r.completionShown
    ensures InRange(c, count) ==> InRange(r, count)
    ensures e.ShowAnswerClicked? ==> r == c
  {
    match e
    case NextClicked => Advance(c, count)
    case ShowAnswerClicked => c
    case Loaded(i) => Guard(c, i, count)
  }

  /** One event on the chess state. No event moves the index back, hides the
      completion screen or forgets a revealed answer; only "show answer"
      records one, and every event keeps the state consistent. */
  function ChessStep(s: ChessState, e: Event, count: nat): (r: ChessState)
    ensures s.cursor.index <= r.cursor.index
    ensures s.cursor.completionShown ==> r.cursor.completionShown
    ensures s.completed <= r.completed
    ensures r.completed != s.completed ==> e.ShowAnswerClicked?
    ensures Consistent(s, count) ==> Consistent(r, count)
  {
    if e.ShowAnswerClicked? then Reveal(s) else s.(cursor := CursorStep(s.cursor, e, count))
  }

  function ChessRun(s: ChessState, es: seq<Event>, count: nat): ChessState
    decreases |es|
  {
    if es == [] then s else ChessRun(ChessStep(s, es[0], count), es[1..], count)
  }

  function AdvanceTimes(c: Cursor, k: nat, count: nat): Cursor
    decreases k
  {
    if k == 0 then c else AdvanceTimes(Advance(c, count), k - 1, count)
  }

  /** The index names a puzzle of the catalog (or is 0 for an empty one). */
  predicate InRange(c: Cursor, count: nat) {
    c.index < count || c.index == 0
  }

  /** In range, and only puzzles up to the current one have been revealed. */
  predicate Consistent(s: ChessState, count: nat) {
    InRange(s.cursor, count) && forall k :: k in s.completed ==> k <= s.cursor.index
  }

  // ---------------------------------------------------------------------

  /** "Next" moves forward exactly when a later puzzle exists; otherwise it
      shows the completion screen and keeps the index. Either way the index
      stays within the catalog. */
  lemma AdvanceSpec(c: Cursor, count: nat)
    requires InRange(c, count)
    ensures InRange(Advance(c, count), count)
    ensures c.index < count - 1 ==> Advance(c, count) == Cursor(c.index + 1, c.completionShown)
    ensures c.index >= count - 1 ==> Advance(c, count) == Cursor(c.index, true)
  {
  }

  /** Revealing the same answer twice is the same as revealing it once. */
  lemma RevealTwice(s: ChessState)
    ensures Reveal(Reveal(s)) == Reveal(s)
  {
  }

  /** From the start, k clicks on "next" walk the catalog: the first
      count - 1 of them reach index k without completing, any further click
      shows completion at the last index, and more clicks change nothing. */
  lemma {:induction false} AdvanceTimesFromStart(k: nat, count: nat)
    ensures k < count ==> AdvanceTimes(Start, k, count) == Cursor(k, false)
    ensures k >= count && k >= 1 ==>
      AdvanceTimes(Start, k, count) == Cursor(if count == 0 then 0 else count - 1, true)
    decreases k
  {
    if k > 0 {
      AdvanceTimesStep(Start, k - 1, count);
      AdvanceTimesFromStart(k - 1, count);
    }
  }

  /** k + 1 clicks are k clicks and one more. */
  lemma {:induction false} AdvanceTimesStep(c: Cursor, k: nat, count: nat)
    ensures AdvanceTimes(c, k + 1, count) == Advance(AdvanceTimes(c, k, count), count)
    decreases k
  {
    if k > 0 {
      AdvanceTimesStep(Advance(c, count), k - 1, count);
    }
  }

  /** Once "next" has hit the end of the catalog, further clicks are no-ops. */
  lemma AdvanceAtEnd(c: Cursor, count: nat)
    requires c.completionShown && c.index + 1 >= count
    ensures Advance(c, count) == c
  {
  }

  /** Completion shown by the load guard does not stop "next": the guard
      keeps the index, and "next" still moves it while a later puzzle exists. */
  lemma NextAfterGuard(c: Cursor, i: nat, count: nat)
    requires i >= count && c.index + 1 < count
    ensures Advance(Guard(c, i, count), count) == Cursor(c.index + 1, true)
  {
  }

  /** Any sequence of clicks and loads keeps the chess state consistent, never
      moves the index back, never forgets a revealed answer and never hides
      the completion screen once shown. */
  lemma {:induction false} ChessRunInvariant(s: ChessState, es: seq<Event>, count: nat)
    requires Consistent(s, count)
    ensures Consistent(ChessRun(s, es, count), count)
    ensures s.cursor.index <= ChessRun(s, es, count).cursor.index
    ensures s.completed <= ChessRun(s, es, count).completed
    ensures s.cursor.completionShown ==> ChessRun(s, es, count).cursor.completionShown
    decreases |es|
  {
    if es != [] {
      ChessRunInvariant(ChessStep(s, es[0], count), es[1..], count);
    }
  }

  // ---------------------------------------------------------------------
  // The page's state for each pipeline.

  class ChessSession {
    const puzzles: seq<ChessPuzzle>
    var index: nat
    var completed: set<nat>
    var completionShown: bool

    function State(): ChessState
      reads this
    {
      ChessState(Cursor(index, completionShown), completed)
    }

    ghost predicate Valid()
      reads this
    {
      (forall i :: 0 <= i < |puzzles| ==> WellFormed(puzzles[i])) &&
      Consistent(State(), |puzzles|)
    }

    constructor (catalog: seq<ChessPuzzle>)
      requires forall i :: 0 <= i < |catalog| ==> WellFormed(catalog[i])
      ensures Valid()
      ensures puzzles == catalog
      ensures State() == ChessState(Start, {})
    {
      puzzles := catalog;
      index := 0;
      completed := {};
      completionShown := false;
    }

    /** loadPuzzle: past the catalog, show completion; otherwise hand the
        puzzle's position string to the board. */
    method Load(i: nat) returns (fen: Option<string>)
      requires Valid()
      modifies this`completionShown
      ensures Valid()
      ensures State() == ChessStep(old(State()), Loaded(i), |puzzles|)
      ensures fen == if i < |puzzles| then Some(Fen.FenOf(puzzles[i])) else None
    {
      if i >= |puzzles| {
        completionShown := true;
        fen := None;
        return;
      }
      var s := Fen.PuzzleToFen(puzzles[i]);
      fen := Some(s);
    }

    /** The "show answer" click handler. */
    method ShowAnswer()
      requires Valid()
      modifies this`completed
      ensures Valid()
      ensures State() == ChessStep(old(State()), ShowAnswerClicked, |puzzles|)
    {
      completed := completed + {index};
    }

    /** The "next puzzle" click handler: advance and load, or show completion. */
    method Next() returns (fen: Option<string>)
      requires Valid()
      modifies this`index, this`completionShown
      ensures Valid()
      ensures State() == ChessStep(old(State()), NextClicked, |puzzles|)
      ensures fen == if old(index) + 1 < |puzzles| then Some(Fen.FenOf(puzzles[index])) else None
    {
      if index + 1 < |puzzles| {
        index := index + 1;
        fen := Load(index);
      } else {
        completionShown := true;
        fen := None;
      }
    }
  }

  /** A football puzzle: a picture, a title and the answer text. */
  datatype FootballPuzzle = FootballPuzzle(image: string, title: string, answer: string)

  class FootballSession {
    const puzzles: seq<FootballPuzzle>
    var index: nat
    var completionShown: bool

    function State(): Cursor
      reads this
    {
      Cursor(index, completionShown)
    }

    ghost predicate Valid()
      reads this
    {
      InRange(State(), |puzzles|)
    }

    constructor (catalog: seq<FootballPuzzle>)
      ensures Valid()
      ensures puzzles == catalog
      ensures State() == Start
    {
      puzzles := catalog;
      index := 0;
      completionShown := false;
    }

    /** loadFootballPuzzle: past the catalog, show completion; otherwise
        the puzzle whose picture, title and answer are displayed. */
    method Load(i: nat) returns (shown: Option<FootballPuzzle>)
      requires Valid()
      modifies this`completionShown
      ensures Valid()
      ensures State() == CursorStep(old(State()), Loaded(i), |puzzles|)
      ensures shown == if i < |puzzles| then Some(puzzles[i]) else None
    {
      if i >= |puzzles| {
        completionShown := true;
        shown := None;
        return;
      }
      shown := Some(puzzles[i]);
    }

    /** The "next football puzzle" click handler. */
    method Next() returns (shown: Option<FootballPuzzle>)
      requires Valid()
      modifies this`index, this`completionShown
      ensures Valid()
      ensures State() == CursorStep(old(State()), NextClicked, |puzzles|)
      ensures shown == if old(index) + 1 < |puzzles| then Some(puzzles[index]) else None
    {
      if index + 1 < |puzzles| {
        index := index + 1;
        shown := Load(index);
      } else {
        completionShown := true;
        shown := None;
      }
    }
  }
}
