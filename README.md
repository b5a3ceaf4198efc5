# Battleship core in Dafny

A model of the game logic of a two-player, networked Battleship game.
The original is a Python module, `battleship.py`. The model has three
modules:

- **Boards** (`boards.dfy`) — one player's board, the `Board` class. It
  holds two mutable grids:
  - a hidden grid with the ships, hits and misses;
  - the public grid an opponent sees.
  It also holds the fleet of placed ships. Each ship keeps the cells of it
  that have not been hit yet.
  
  The grids are `array2<Cell>` that the methods update in place. The fleet
  is a `seq<PlacedShip>` field that the methods reassign. Every method is
  proved against pure functions on the fleet (`FirstWith`, `RemoveHit`,
  `SunkBy`, `AllSunk`, `ShipCells`, `Footprint`). Two invariants hold:
  - `Valid()`: the grids have the board's shape, and the public grid never
    shows a ship.
  - `Consistent()`: the ship cells of the hidden grid are exactly the
    fleet's unhit cells, no cell belongs to two ships, and the public grid
    is the hidden grid with ships shown as water.
  
  The placement commit step and shooting both preserve `Consistent()`.
- **Coordinates** (`coordinates.dfy`) — the coordinate parser, which turns
  `"B5"` into `(1, 4)`. It comes with the parts of Python's `str`
  behaviour the parser relies on:
  - `strip()` over Python's full white-space set;
  - `upper()` and `lower()` on the characters that can matter;
  - `isdigit()` and `int()` on ASCII decimal digits, read by value
    whatever their number.
  
  The parser's diagnostics become a `Diagnostic` tag.
- **Session** (`session.dfy`) — the match loop of the two-player game,
  without its messages:
  - `Step` is the turn rule as a function on the match state (turn value,
    the two move counters, status).
  - `Replay` folds `Step` over a run.
  - `RunTwoPlayerGame` is the imperative loop over two `Board` objects and
    the lines the players type. It is proved to end and to agree with
    `Replay`. It is also proved to leave each board as the recorded shots
    describe, and every recorded answer is the one the board gave.
    - `Track` folds the recorded passes into the set of cells each board
      has taken a shot at and each fleet's remaining cells.
    - `Tracks` compares a board with its grids on entry, seen as a value
      (`Board.Grid`): the cells shot at carry the marks of a shot, and
      every other cell is as it was.
    - `Answered` checks each recorded answer against the target's entry
      cell, marked if it had been shot at before.
    - `TakenWhileOn` says every recorded pass was taken while the match
      was still going on.

The model follows the code as written, including these behaviours:

- Rows `A`–`K` and columns `1`–`11` parse, although a board is 10 by 10. A
  shot at row `K` or column 11 then raises `IndexError` when the board
  indexes its grid, and the exception ends the match loop (status
  `Raised(IndexError)`).
- A line that is empty once stripped is not refused by the parser. Reading
  its first character raises `IndexError`. The end of a player's input
  reads as an empty line, so it ends the match the same way.
- Player one's `dpriv` passes the raw grid to the board printer, which
  asks it for `.size` and raises `AttributeError`.
- Player two's loop does not know `dpub` and `dpriv`. They go to the
  parser, which refuses them because their column part is not a number.
  The turn is kept.
- The first turn value is drawn from 0 and 1. Only the value 1 gives the
  move to player one, so 0 and 2 both mean player two.
- A shot at a cell already shot counts a move but keeps the turn.
- A hit that empties a ship reports the ship's name only when the name is
  a non-empty string (Python truthiness).
- After any hit, not only a sinking one, the loop asks the opponent's board
  whether all its ships are sunk.

Where the code's own messages and docstrings promise something else, the
model follows what the code does:
- The refusal message for a bad column (battleship.py:524) says a digit
  from 0-10, but the range check accepts 1–11.
- The parser's docstring (battleship.py:503-504) promises a zero-based
  `(row, col)` on the board, but `K` and `11` give 10, off a 10 by 10
  board.
- The `INSTRUCTIONS` text (battleship.py:22-26) offers `dpriv` and `dpub`
  to both players. `dpriv` raises instead of showing a board, and player
  two's loop does not know either word.
- The docstring of `fire_at` (battleship.py:234-239) describes a shot at a
  revealed cell as answered "already shot". The loop still counts that
  shot as a move (battleship.py:414 and 466).

## Model

| member | source | states |
|---|---|---|
| Boards.Board.constructor | battleship.py:59-65 | A new board is all water in both grids and has no ships. It is valid and consistent. |
| Boards.FootprintCovers | battleship.py:221-229 | The cells a ship covers from its anchor are exactly those along the row for orientation 0 and down the column otherwise, `length` of them from the anchor. |
| Boards.FootprintSize | battleship.py:221-229 | A ship of a given length covers exactly that many cells. |
| Boards.Board.CanPlaceShip | battleship.py:197-215 | The result is true iff the ship ends inside the board and every cell it would cover lies on the board and is water in the hidden grid. |
| Boards.Board.DoPlaceShip | battleship.py:217-230 | Returns exactly the ship's footprint. Sets exactly those hidden cells to ship; every other hidden cell, the public grid and the fleet are unchanged. |
| Boards.Board.PlaceShip | battleship.py:81-87 | Commit step: when the ship can be placed, its cells become ship and it is appended to the fleet with its footprint. Otherwise nothing changes. Consistency is preserved. |
| Boards.AppendShip | battleship.py:83-86 | Appending a ship whose cells hold no other ship keeps the fleet free of shared cells and adds exactly its cells to the fleet's unhit cells. |
| Boards.Board.FireAt | battleship.py:232-263 | A ship cell becomes a hit in both grids and leaves the first ship that holds it; the result is a hit carrying the name of the ship that hit emptied, if that name is non-empty. Water becomes a miss in both grids. A hit or miss cell is reported as already shot and nothing changes. No other cell changes, the target carries a hit or miss mark afterwards, and validity and consistency are preserved. |
| Boards.Board.MarkHitAndCheckSunk | battleship.py:265-277 | The cell leaves only the first ship whose unhit cells contain it. The returned name is that ship's exactly when it is left with no cell. |
| Boards.Board.AllShipsSunk | battleship.py:279-286 | True iff every ship of the fleet has no unhit cell left, and so true for an empty fleet. |
| Boards.FirstWith | battleship.py:270-272 | The index of the first ship containing the cell, or the fleet size when none does. |
| Boards.RemoveHit | battleship.py:270-276 | After a hit the fleet keeps its length and its names. Each ship loses at most the hit cell; ships other than the first that holds the cell are unchanged, and that first ship no longer holds it. |
| Boards.SunkBy | battleship.py:265-277 | A name is reported iff the first ship holding the cell had that cell as its only one left; the name is that ship's. |
| Boards.Reported | battleship.py:250-253 | A sunk name reaches the shot's answer iff it is a non-empty string (Python truthiness); otherwise the answer carries none. |
| Boards.RemoveHitCells | battleship.py:246-253 | A hit takes exactly its own cell out of the fleet's unhit cells, and the fleet still has no cell shared by two ships. |
| Boards.SunkOnLastCell | battleship.py:273-276 | A ship is reported sunk iff it is the first ship holding the cell and the cell was its last one. The name reported is that ship's. |
| Boards.AllSunkIffNoShipCells | battleship.py:279-286 | The fleet is all sunk iff no unhit ship cell is left. |
| Boards.Board.AllSunkIffNoShipLeft | battleship.py:279-286 | On a consistent board, the fleet is all sunk iff the hidden grid shows no ship cell. |
| Boards.ShootTwice | battleship.py:243-263 | A second shot at the same cell is always reported as already shot. The first is a hit iff the cell was a ship and a miss iff it was water. |
| Boards.PlaceDestroyer | battleship.py:81-87 | Placing a two-cell ship across from A1 on a new board succeeds: A1 and A2 become ship cells and the fleet is that one ship with those two cells. |
| Boards.SinkDestroyerScenario | battleship.py:232-277 | On a new board with a two-cell ship at A1: the first shot is a hit, the second a hit that sinks "Destroyer", and a repeat of the first is already shot. |
| Coordinates.TrimStartDropsSpace | battleship.py:516 | `lstrip()` keeps a suffix of the input and removes only white space before it. |
| Coordinates.TrimEndDropsSpace | battleship.py:516 | `rstrip()` keeps a prefix of the input and removes only white space after it. |
| Coordinates.ParseCoordinate | battleship.py:497-535 | An accepted coordinate lies in 0..10 by 0..10. The input raises (empty after stripping) iff it strips to the empty string. |
| Coordinates.ParseLabel | battleship.py:520-535 | A label is accepted iff its row letter is A–K and its column text is all digits with a value from 1 to 11. The row is the letter's place in A–K and the column is the value less one. A row letter outside A–K is refused for its row, and the result never says the input was empty. |
| Coordinates.FormatRoundTrip | battleship.py:516-533 | Every label of a row letter A–K and a column number 1–11 parses back to its zero-based row and column. |
| Coordinates.DecimalRoundTrip | battleship.py:527-533 | Reading the decimal numeral of n back gives n. |
| Coordinates.ParseIgnoresCase | battleship.py:516 | Lower-casing the input never changes the parse. |
| Coordinates.NonNumericColumnRefused | battleship.py:523-525 | A row letter A–K followed by a non-digit is refused for its column, whatever follows. |
| Coordinates.ParseExamples | battleship.py:504 | "A1" parses to (0, 0), "C10" to (2, 9) and "b5" to (1, 4). |
| Coordinates.ParseAcceptsOffBoard | battleship.py:520-533 | "K1" parses to (10, 0) and "A11" to (0, 10): both are off a 10 by 10 board. |
| Session.CommandOf | battleship.py:393-405 | The line is `quit` iff it lower-cases to "quit", for either player. It is a request for the private or public board iff the mover is player one and it lower-cases to "dpriv" or "dpub" (player two's loop at battleship.py:451-457 knows neither). It is `help` iff it lower-cases to "help". Any other line goes to the parser unchanged. |
| Session.ActionOf | battleship.py:393-413 | A line becomes a shot exactly when it is not a command word for the mover and the parser accepts it at a row and column both below 10. The shot is then aimed at the parser's (row, col), which lies inside the board (also battleship.py:459-465 for player two). |
| Session.Advance | battleship.py:407-443 | One pass keeps the turn value within 0..2 and never lowers a move counter. The counters together grow by one exactly when the line was a shot. The turn changes only by passing to the other player, and then the status is left as it was. A match becomes won only by a hit after which the opponent's fleet is all sunk, and the mover is the winner. |
| Session.Step | battleship.py:385-494 | A finished match is left as it is. The turn changes only while the match goes on, after a miss or a hit that leaves the opponent a ship. A pass wins the match only when the mover's line was a shot, it hit, and the opponent's fleet is then all sunk; the mover wins. |
| Session.QuitConcedes | battleship.py:393-396 | `quit`, in any case, ends the match at once, with the mover as the one who gave up. |
| Session.NonShotsKeepTurn | battleship.py:397-412 | `help`, player one's `dpub` and a refused coordinate leave the match state as it was. Player one's `dpriv` raises out of the loop. |
| Session.PlayerTwoBoardRequestsRefused | battleship.py:451-461 | Player two's `dpub` and `dpriv` are refused by the parser and leave the match state as it was. |
| Session.BoardRequestIsStay | battleship.py:451-464 | For player two, `dpub` and `dpriv` are not commands, and the parser refuses them, so they classify as keeping the turn. |
| Session.ShotRule | battleship.py:407-443 | A shot counts one move for the mover and none for the other player. A miss, or a hit that leaves the opponent a ship, hands the turn over. A repeated shot keeps the turn. A hit that sinks the opponent's last ship wins the match for the mover. |
| Session.EndOfInputRaises | battleship.py:513-517 | Any line that is empty once stripped, that is white space only, raises IndexError out of the loop. |
| Session.OffBoardRaises | battleship.py:407-413 | A shot that the parser accepts at row 10 or column 10, such as "K1" or "A11", raises IndexError out of the loop. |
| Session.FinishedIsFinal | battleship.py:393-396 | A match that has ended is not changed by any later line. |
| Session.ReplayKeepsShape | battleship.py:382-384 | Along any run, the turn value stays within 0..2 and neither move counter goes down. |
| Session.MovesCountShots | battleship.py:414 | The two move counters together count exactly the passes that fired at a board (also battleship.py:466). |
| Session.TakenWhileOnPrefixes | battleship.py:385-494 | If every recorded pass was taken while the match was still going on, then replaying any proper prefix of the record leaves the match going on. No pass follows the `return` or `break` that ends the match (battleship.py:396, 430, 454, 481). |
| Session.MarkShot | battleship.py:243-263 | A shot adds its target to a board's shot cells. A second shot at a cell changes nothing more. The target's hidden cell before the shot is its entry cell, marked if it was shot before. |
| Session.ShotTracked | battleship.py:243-263 | A board that matched its record before a shot matches the record with the target added afterwards. The fleet loses the target cell exactly on a hit. The answer is the one the target's entry cell gives, marked if it was shot before. |
| Session.PlayTurn | battleship.py:386-494 | Given the classified line, one pass of the loop gives exactly the turn rule's next state for the board's answers. A shot goes to the opponent's board and changes it exactly as `FireAt` describes: the target is marked in both grids, no other cell changes, and the fleet loses the target cell when it held a ship. The reported sunk state is the opponent fleet's after a hit and false otherwise, and a pass that wins leaves the loser's fleet all sunk. The mover's own board is unchanged, and so are both boards when the line is not a shot. Both boards stay valid and stay consistent. |
| Session.PlayLine | battleship.py:385-494 | One pass of the loop on one line, taken while the match goes on, gives the turn rule's next state, which is the replay of the earlier passes with this one added. Suppose the boards matched the record of the earlier passes. Afterwards they match it with this pass added. The pass's answers are those the opponent's board gave: the answer of the target's entry cell, marked if it was shot before, and "all sunk" exactly after a hit that leaves the fleet empty. A match won by a player leaves the other's fleet all sunk. Both boards stay valid and consistent. |
| Session.RunTwoPlayerGame | battleship.py:382-494 | The loop always ends, with the match won, given up or raised out of. A match won by player one leaves player two's fleet all sunk, and the other way round. Its final state is the turn rule replayed over the recorded passes from the drawn first turn. Pass i read input line i, stripped, or the empty line once the input ran out. It takes at most one pass more than there are lines. Every recorded pass but the last left the match going on, so the loop stops at the pass that ends the match. On each board, the cells the opponent's recorded shots targeted carry a shot's marks: a ship becomes a hit and water a miss in both grids, and a cell already marked keeps its mark. Every other cell is as it was on entry. Each fleet is its entry fleet with every hit cell removed. Every recorded answer is the one the target gave: the answer its entry content gives when it had not been shot before (a hit for a ship, a miss for water), and already shot when it had, and "all sunk" exactly after a hit that emptied the fleet. Both boards stay valid and stay consistent. |

## Left out

- The random sampling loop of `place_ships_randomly` is not modelled. Placement is modelled only through its shared commit step (`Boards.Board.PlaceShip`). The loop terminates only with probability one, and as written it calls `random`, which is never imported.
- `place_ships_manually`, `place_ships_manually_two_player` and `place_ships_thread` are not modelled. They are interactive prompt loops over console or socket input.
- Every message the game sends is left out: `send`, `send_board`, `print_display_grid_two_player` and `INSTRUCTIONS` are output formatting. So is the parser's "too short" notice, which does not affect the result. What the messages convey is visible in the match status and the board answers.
- `run_single_player_game_online` is not modelled. It is I/O around the same shot logic.
- server.py and client.py are not part of this model. They are socket I/O, threads and a shared queue.
- Session.RunTwoPlayerGame: each line typed is an element of one input sequence, read on the pass it is needed. The interleaving of the two players' input streams is left out.
- Session.RunTwoPlayerGame: starts from two boards whose fleets are already placed. As written, the source never reaches the match loop. `board1.place_ships_randomly()` (battleship.py:376) fails with `NameError` at its first `random.randint` (battleship.py:77), because the module imports `random` only as `rd` (battleship.py:11). Also, server.py never starts a game: its pairing code (server.py:45-54) is commented out. The model gives the loop the placed boards it was written for.
- Boards.Board.CanPlaceShip: requires the anchor to lie inside the board across the ship's direction (its row for orientation 0, its column otherwise). An anchor past the edge along the direction is answered false by the length check before any cell is read, as in the source (battleship.py:204-205 and 210-211), and the model does the same. An anchor off the board across the direction makes the source's scan raise IndexError, unless the ship has length 0; that case is not modelled. Random placement draws anchors inside the board (battleship.py:79-80). The manual placement loops, which are not modelled, are the only other callers; as written they call `parse_coordinate` with one argument (battleship.py:132 and 172), which raises `TypeError`, so they never reach this method. Negative anchors are excluded by the `nat` type.
- Boards.Board.FireAt: requires a target inside the board. The source raises IndexError for row or column 10. The session models that case explicitly as `Raised(IndexError)` before calling the board.
- Boards.Board.FireAt: the source's final `else` branch, for a cell holding another symbol, cannot happen with the four-valued `Cell` type.
- Coordinates.ParseCoordinate: `isdigit()` and `int()` are modelled on ASCII digits only, and `upper()` only on ASCII letters and the dotless i. Python also treats other Unicode digits as digits. For example, "A" followed by an Arabic-Indic one parses to (0, 0) in Python but is refused here. A superscript digit passes `isdigit()` but makes `int()` raise `ValueError`; the loop reports that and hands the turn over without counting a move. Neither path is modelled. Case mappings that expand a character (ligatures, for example) change only which refusal is reported.
- Coordinates.ParseLabel: reads a column of any number of digits by its value. From Python 3.11 on, `int()` refuses a decimal string of more than 4300 digits, leading zeros included, with `ValueError` (the default of `sys.set_int_max_str_digits`, which `PYTHONINTMAXSTRDIGITS` can change; Python 3.10 and earlier have no limit). The loop catches that error (battleship.py:439 and 490) and hands the turn over without counting a move (battleship.py:443 and 494). The model instead reads such a column by its value. A column without leading zeros is then refused for its range, which keeps the turn. One whose value, after leading zeros, is 1 to 11 is accepted and fired at. `Coordinates.ParseCoordinate` and the session above it inherit this. The limit is an interpreter setting, not the program's logic.
- Session.CommandOf: `lower()` is modelled on ASCII letters. No other character lower-cases to a letter of `quit`, `help`, `dpub` or `dpriv`, so command recognition is exact.
