# CrazyMoves puzzle page: position encoder and puzzle sequencers

This project models the logic of `app.js`, a browser page that shows chess and football puzzles one at a time. The user clicks "show answer" and "next" to move through them. The model has two parts.

- **The position encoder** (`puzzleToFEN`, `convertPieceToFEN`). A chess puzzle lists white and black placement tokens such as `"Ka1"`. The encoder places them on an 8x8 grid. It then writes the placement field of Forsyth-Edwards Notation (section 16.1 of the PGN standard): ranks from the eighth down, runs of empty squares as digits, ranks separated by `/`. After that it appends the fixed tail ` w KQkq - 0 1`.
  - `Board` holds the grid, the token decoding and the in-place fill of an `array2`.
  - `Fen` holds the loop that writes the string, proved equal to the specification function `FenOf`, and lemmas about the shape of that string.
  - `FenDecoder` is a run-length decoder. It is proved to read back the grid the encoder wrote.
- **The sequencers** (the module-level `currentPuzzleIndex`, `completedPuzzles` and `currentFootballIndex`, and the click handlers and load guards that change them).
  - `Sequencer.ChessSession` and `Sequencer.FootballSession` are classes whose methods update those fields.
  - Each method is proved to follow a pure step function (`ChessStep`, `CursorStep`).
  - Lemmas about these step functions state the index bounds, that the revealed set only grows, and what the completion flag does.
  - `completionShown` stands for the completion screen having been shown.
- `Catalog` holds the two static catalogs. It checks that every chess token is well formed and that no two tokens of a puzzle share a square, and it works out the example position `1k6/8/8/8/8/8/8/K7 w KQkq - 0 1` (a white king on a1, a black king on b8).

## Model

| member | source | states |
|---|---|---|
| `Board.SquareOf` | app.js:79-82 | a token's file letter and rank digit give a row and a column inside the 8x8 grid |
| `Board.SquareOfCorners` | app.js:81-82 | `a1` lands at `[7][0]`, `h8` at `[0][7]`, `e2` at `[6][4]` |
| `Board.SquareNameRoundTrip` | app.js:81-82 | every grid cell is the decoding of the square name written for it, so the decoding reaches every cell |
| `Board.SquareOfInjective` | app.js:81-82 | two tokens land on the same cell exactly when their file letters and rank digits agree |
| `Board.ToLower` | app.js:88 | black letters A-Z become the matching a-z; any other character is kept |
| `Board.PieceLetter` | app.js:79-88 | the letter written for a white token is its first character as given; for a black token it is never an upper-case letter, and a first character outside A-Z is kept |
| `Board.Place` | app.js:79-83 | placing a token writes its letter (lower-cased for black) to its cell and leaves every other cell as it was |
| `Board.PlaceAll` | app.js:78-84 | after a list is placed in order, every square a token names holds a piece (never an upper-case one for the black list) and every square no token names keeps its content |
| `Board.Position` | app.js:75-93 | the squares named by white tokens hold pieces, those named by black tokens hold pieces that are not upper-case, and every other cell is empty |
| `Board.LastOn` | app.js:78-93 | finds the last token of a list on a given square, or reports that none is |
| `Board.PlaceAllCell` | app.js:78-84 | after a list is placed, a cell holds the letter of the last token on it, or its earlier content if no token names it (later entries win) |
| `Board.PositionCell` | app.js:75-93 | a cell of the encoded grid holds the lower-cased letter of the last black token on it, else the unchanged letter of the last white token on it, else nothing (black wins over white) |
| `Board.OccupiedPosition` | app.js:75-93 | the occupied cells are exactly the squares named by the white and black tokens |
| `Board.PieceCount` | app.js:75-93 | with N tokens on pairwise distinct squares, exactly N cells are occupied |
| `Board.PlaceTokens` | app.js:78-84 | the `forEach` writing into the array leaves it holding the specification grid with the list placed in order |
| `Board.ConvertPieceToFen` | app.js:54-71 | returns a fresh 8x8 array holding one list placed on an empty board, letters unchanged |
| `Board.FillGrid` | app.js:75-93 | the two `forEach` loops leave a fresh 8x8 array holding exactly the grid `Position` describes |
| `Fen.PuzzleToFen` | app.js:74-122 | the nested loops with the empty-square counter produce exactly the placement field of the grid followed by the fixed tail |
| `Fen.WritePlacement` | app.js:96-116 | the outer loop over the ranks writes exactly the placement field of the grid the array holds |
| `Fen.AppendRank` | app.js:97-112 | one pass of the file loop appends exactly the run-length encoding of that rank |
| `Fen.EncodeRun` | app.js:98-111 | the rest of a rank takes at most one character per square still to write (pending empties included), and is empty only when no square is left |
| `Fen.EncodeRank` | app.js:97-112 | a rank's text has at most one character per square, and is empty only for a row with no squares |
| `Fen.EmptyRun` | app.js:98-111 | a run of empty squares is written as a single count, however much of it was pending |
| `Fen.EncodeRunShape` | app.js:98-112 | a rank's text accounts for the pending empties plus the remaining squares, uses only digits 1-8 and piece characters, and never has two digits side by side |
| `Fen.RankWidth` | app.js:97-112 | in every rank segment the piece characters plus the empty-run digits add up to 8 |
| `Fen.Join` | app.js:113-115 | the joined ranks start with the first rank and hold at least one character per separator |
| `Fen.JoinSeparators` | app.js:113-115 | n segments without `/` are joined with exactly n - 1 separators |
| `Fen.PlacementShape` | app.js:96-116 | the placement field has exactly seven `/`, each of its eight ranks has width 8, and it contains no `0` and no two adjacent digits |
| `Fen.PositionPiecesOk` | app.js:78-93 | tokens that start with piece characters put only piece characters on the grid |
| `Fen.FenOf` | app.js:74-122 | the position string always ends with ` w KQkq - 0 1`, and when every token starts with a piece character the placement in front of it has exactly seven `/` |
| `Fen.FenShape` | app.js:119 | the output is the placement field followed by ` w KQkq - 0 1`, is the same whatever `toMove` says, and has the placement properties above |
| `FenDecoder.DecodeEncodeRank` | app.js:97-112 | decoding a rank's run-length text gives back the rank |
| `FenDecoder.SplitJoin` | app.js:113-115 | splitting at `/` gives back the rank segments that were joined |
| `FenDecoder.DecodePlacementRoundTrip` | app.js:95-116 | decoding the placement field reconstructs the 8x8 grid it was written from |
| `FenDecoder.FenRoundTrip` | app.js:74-122 | the first field of the position string is the placement field, and decoding it gives the grid the puzzle's tokens describe |
| `Sequencer.Advance` | app.js:182-189 | "next" moves the index forward by one exactly when a later puzzle exists and otherwise keeps it; it never clears completion, shows completion only while staying put, and keeps the index in range |
| `Sequencer.AdvanceSpec` | app.js:182-189 | "next" increments the index exactly when it is below count - 1; otherwise it shows completion and keeps the index; the index stays in range |
| `Sequencer.AdvanceAtEnd` | app.js:186-188 | once "next" has reached the end, further clicks change nothing |
| `Sequencer.NextAfterGuard` | app.js:182-189 | after the load guard has shown completion, "next" still moves to the following puzzle while one exists, keeping completion shown |
| `Sequencer.AdvanceTimesFromStart` | app.js:182-189 | from the start, k < count clicks reach index k without completion; the count-th click and any later one leave the last index with completion shown |
| `Sequencer.Guard` | app.js:142-146 | loading an index at or past the catalog length shows completion and changes nothing else; any other index changes nothing |
| `Sequencer.Reveal` | app.js:177 | "show answer" adds exactly the current index to the revealed set, keeps the earlier entries and moves no cursor |
| `Sequencer.RevealTwice` | app.js:177 | revealing the same answer twice is the same as revealing it once |
| `Sequencer.CursorStep` | app.js:142-189 | no load or click moves the index back or clears completion, each keeps the index in range, and "show answer" leaves the cursor alone |
| `Sequencer.ChessStep` | app.js:142-189 | one load or click keeps the chess state consistent, never moves the index back, never clears completion and never forgets a revealed answer; only "show answer" records one |
| `Sequencer.ChessRunInvariant` | app.js:142-189 | over any sequence of loads and clicks: the index stays in range and never decreases, only indices up to the current one are revealed, the revealed set never shrinks, and completion is never undone |
| `Sequencer.ChessSession.constructor` | app.js:48-49 | the page starts at index 0 with nothing revealed |
| `Sequencer.ChessSession.Load` | app.js:142-149 | `loadPuzzle` either shows completion for an index past the catalog, or hands the board that puzzle's position string |
| `Sequencer.ChessSession.ShowAnswer` | app.js:172-179 | records the current index in `completedPuzzles` |
| `Sequencer.ChessSession.Next` | app.js:182-189 | advances and loads the next puzzle's position, or shows completion |
| `Sequencer.FootballSession.constructor` | app.js:248 | the football pipeline starts at index 0 |
| `Sequencer.FootballSession.Load` | app.js:251-257 | `loadFootballPuzzle` either shows completion for an index past the catalog, or selects that puzzle for display |
| `Sequencer.FootballSession.Next` | app.js:277-284 | advances and loads the next football puzzle, or shows completion |
| `Catalog.PuzzleReady` | app.js:2-46 | every token of every catalog puzzle is well formed and starts with a piece character (not a digit, `/` or a space), and no two tokens of a puzzle share a square |
| `Catalog.FenExample` | app.js:74-122 | a white king on a1 and a black king on b8 encode as `1k6/8/8/8/8/8/8/K7 w KQkq - 0 1` |
| `Catalog.CompletionExamples` | app.js:142-146 | loading index 6 of the six chess puzzles shows completion; loading index 4 of the five football puzzles does not |

## Left out

- All display work is left out: element text, visibility, `innerHTML`, the image source, the turn label and its CSS class. It changes no state the logic reads.
- `initBoard` and the `Chessboard` / `Chess` objects are left out. They are external libraries. `ChessSession.Load` returns the position string that would be handed to them.
- The progress bar (`updateProgress`, `updateFootballProgress`) is left out. It is a floating-point percentage that only sets a CSS width and a label.
- Event-listener registration and the page-load hook are left out. The page-load hook is a call to `ChessSession.Load(0)`. The "unlock football" button is a call to `FootballSession.Load(0)`.
- The football "show answer" handler is not modelled. It only changes what is displayed and records nothing, so the football sequencer has no revealed set.
- The UI protocol is not modelled: the "next" button is shown only after "show answer", and the completion screen hides the chess `puzzleSection` (app.js:201) or replaces the contents of `footballSection` (app.js:296). The model lets any event happen in any state. It proves that once "next" at the last puzzle has shown completion, further "next" clicks change nothing. Completion shown by the load guard (an index past the catalog) keeps the index, and a later "next" still moves it, because the "next" handlers (app.js:183-185, 278-280) do not test for completion.
- `Board.ValidToken` is a precondition of the encoder, not an error path, so malformed tokens are not modelled. In the source a token shorter than three characters, or whose rank character is not 1-8, or whose piece letter lies outside the Basic Multilingual Plane (JavaScript's `charAt(0)` then takes only its high surrogate, so the file and rank are read one position late), makes `boardArray[rank]` undefined and the assignment throws a `TypeError`. A token with a valid rank but a file outside a-h does not throw: it writes to an index the file loop (0-7) never reads, so that piece is silently missing from the output. Characters after the rank digit are ignored, as in the source.
- `Board.ToLower` lower-cases only the ASCII letters A-Z. JavaScript's `toLowerCase` also maps other Unicode letters; every catalog piece letter is ASCII.
- `Fen.PuzzleToFen` writes an empty run as a single digit. JavaScript converts the counter with a decimal number-to-string conversion. The two agree because a run never exceeds 8.
- `Fen.EncodeRunShape`, `Fen.RankWidth`, `Fen.PlacementShape`, `Fen.FenShape`, `Fen.FenOf` (its separator clause) and the round-trip lemmas assume that piece letters are not digits, `/` or a space (`Fen.IsPieceChar`). The source never checks piece letters. A token such as `"3a1"` breaks both kinds of claim: the rank `3` followed by seven empties is written `37`, of width 10, and it reads back as something else. All catalog letters satisfy the assumption.
- The completion rule follows `app.js`. After count - 1 "next" clicks from the start, the index is the last one and completion has not been shown. Completion comes with the count-th click. A reading in which count - 1 advances already complete the catalog does not match the code.
