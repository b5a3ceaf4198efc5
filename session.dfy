/** The turn rule of a two-player match: whose turn it is, which commands
    use up a turn, how the move counters grow and how the match ends. The
    messages the match sends are left out; each line a player sends is an
    input. */
module Session {
  import opened Boards
  import opened Coordinates

  datatype Player = PlayerOne | PlayerTwo

  /** The player a turn value gives the move to: only 1 means player one;
      the first turn is drawn from 0 and 1, so 0 (and later 2) mean player
      two. */
  function Mover(turn: int): Player {
    if turn == 1 then PlayerOne else PlayerTwo
  }

  /** The turn value written when the mover's turn passes to the opponent. */
  function Handover(turn: int): int {
    if turn == 1 then 2 else 1
  }

  /** The exceptions that escape the match loop and end the match. */
  datatype Fault = IndexError | AttributeError

  datatype Status = Playing | Conceded(quitter: Player) | Won(winner: Player) | Raised(fault: Fault)

  /** The match state the loop keeps besides the two boards. */
  datatype Game = Game(turn: int, moves1: nat, moves2: nat, status: Status)

  /** A match about to start; the first turn is drawn at random from 0 and 1. */
  function Start(firstTurn: int): Game {
    Game(firstTurn, 0, 0, Playing)
  }

  /** What a line from the mover asks for. Player one may ask for either of
      its boards; player two's loop knows only `quit` and `help`, so its
      board requests go to the coordinate parser. */
  datatype Command = Quit | ShowPrivate | ShowPublic | Help | Fire(text: string)

  /** `guess.lower() == word`; lower-casing keeps the length, which is
      compared first. */
  predicate Says(guess: string, word: string) {
    |guess| == |word| && Lower(guess) == word
  }

  function CommandOf(guess: string, mover: Player): (c: Command)
    ensures c == Quit <==> Lower(guess) == "quit"
    ensures c == ShowPrivate <==> mover == PlayerOne && Lower(guess) == "dpriv"
    ensures c == ShowPublic <==> mover == PlayerOne && Lower(guess) == "dpub"
    ensures c == Help <==> Lower(guess) == "help"
    ensures c.Fire? ==> c.text == guess
  {
    if Says(guess, "quit") then Quit
    else if mover == PlayerOne && Says(guess, "dpriv") then ShowPrivate
    else if mover == PlayerOne && Says(guess, "dpub") then ShowPublic
    else if Says(guess, "help") then Help
    else Fire(guess)
  }

  /** What a line means for the match before any board answers: give up,
      raise out of the loop, keep the turn, or shoot at an on-board cell. */
  datatype Action = Concede | Crash(fault: Fault) | Stay | Shoot(target: Pos)

  function ActionOf(guess: string, mover: Player): (a: Action)
    ensures a.Shoot? ==> a.target.row < BoardSize && a.target.col < BoardSize
    ensures a.Shoot? <==> (CommandOf(guess, mover).Fire? && ParseCoordinate(guess).Ok?
                           && ParseCoordinate(guess).row < BoardSize && ParseCoordinate(guess).col < BoardSize)
    ensures a.Shoot? ==> a.target == Pos(ParseCoordinate(guess).row, ParseCoordinate(guess).col)
  {
    match CommandOf(guess, mover)
    case Quit => Concede
    // the private view hands the raw grid to the board printer, which
    // then asks it for a board size it does not have
    case ShowPrivate => Crash(AttributeError)
    case ShowPublic => Stay
    case Help => Stay
    case Fire(text) =>
      match ParseCoordinate(text)
      case EmptyInput => Crash(IndexError)
      case Invalid(_) => Stay
      case Ok(row, col) =>
        if row < BoardSize && col < BoardSize then Shoot(Pos(row, col)) else Crash(IndexError)
  }

  /** The move counters after a shot by the mover. */
  function Counted(g: Game): Game {
    if Mover(g.turn) == PlayerOne then g.(moves1 := g.moves1 + 1) else g.(moves2 := g.moves2 + 1)
  }

  /** The match after the mover's line has been classified as `action`.
      `fired` is the opponent board's answer to a shot, and `opponentSunk`
      whether its fleet is all sunk afterwards; the first is read only for
      a shot, the second only after a hit. */
  function Advance(g: Game, action: Action, fired: FireResult, opponentSunk: bool): (next: Game)
    ensures 0 <= g.turn <= 2 ==> 0 <= next.turn <= 2
    ensures next.moves1 >= g.moves1 && next.moves2 >= g.moves2
    ensures next.moves1 + next.moves2 == g.moves1 + g.moves2 + (if action.Shoot? then 1 else 0)
    ensures next.turn != g.turn ==> next.status == g.status && Mover(next.turn) != Mover(g.turn)
    ensures next.status.Won? && next.status != g.status ==>
              action.Shoot? && fired.Hit? && opponentSunk && next.status.winner == Mover(g.turn)
  {
    var mover := Mover(g.turn);
    match action
    case Concede => g.(status := Conceded(mover))
    case Crash(fault) => g.(status := Raised(fault))
    case Stay => g
    case Shoot(_) =>
      match fired
      case Hit(_) =>
        if opponentSunk then Counted(g).(status := Won(mover))
        else Counted(g).(turn := Handover(g.turn))
      case Miss => Counted(g).(turn := Handover(g.turn))
      case AlreadyShot => Counted(g)
  }

  /** One pass of the match loop on the line `guess` from the mover. A
      finished match takes no further lines. */
  function Step(g: Game, guess: string, fired: FireResult, opponentSunk: bool): (next: Game)
    ensures !g.status.Playing? ==> next == g
    ensures next.turn != g.turn ==> next.status.Playing? && (fired.Miss? || (fired.Hit? && !opponentSunk))
    ensures next.status.Won? && next.status != g.status ==>
              ActionOf(guess, Mover(g.turn)).Shoot? && fired.Hit? && opponentSunk && next.status.winner == Mover(g.turn)
  {
    if !g.status.Playing? then g
    else Advance(g, ActionOf(guess, Mover(g.turn)), fired, opponentSunk)
  }

  /** One pass of the loop as recorded: the line and the board's answers. */
  datatype Turn = Turn(guess: string, fired: FireResult, opponentSunk: bool)

  /** The match after the loop has taken the recorded passes in order. */
  function Replay(g: Game, log: seq<Turn>): Game {
    if log == [] then g
    else
      var last := log[|log| - 1];
      Step(Replay(g, log[..|log| - 1]), last.guess, last.fired, last.opponentSunk)
  }

  /** Quitting ends the match at once, with the mover as the one who gave up. */
  lemma QuitConcedes(g: Game, guess: string, fired: FireResult, opponentSunk: bool)
    requires g.status.Playing? && Lower(guess) == "quit"
    ensures Step(g, guess, fired, opponentSunk) == g.(status := Conceded(Mover(g.turn)))
  {
  }

  /** `help`, player one's `dpub` and a line the parser refuses keep the turn
      and count no move; player one's `dpriv` raises out of the loop. */
  lemma NonShotsKeepTurn(g: Game, guess: string, fired: FireResult, opponentSunk: bool)
    requires g.status.Playing?
    ensures Lower(guess) == "help" ==> Step(g, guess, fired, opponentSunk) == g
    ensures Mover(g.turn) == PlayerOne && Lower(guess) == "dpub" ==> Step(g, guess, fired, opponentSunk) == g
    ensures Mover(g.turn) == PlayerOne && Lower(guess) == "dpriv" ==>
              Step(g, guess, fired, opponentSunk) == g.(status := Raised(AttributeError))
    ensures CommandOf(guess, Mover(g.turn)).Fire? && ParseCoordinate(guess).Invalid? ==>
              Step(g, guess, fired, opponentSunk) == g
  {
  }

  /** Player two's board requests are not commands: they parse as a row
      letter followed by a column that is not a number, and keep the turn. */
  lemma PlayerTwoBoardRequestsRefused(g: Game, fired: FireResult, opponentSunk: bool)
    requires g.status.Playing? && Mover(g.turn) == PlayerTwo
    ensures Step(g, "dpub", fired, opponentSunk) == g
    ensures Step(g, "dpriv", fired, opponentSunk) == g
  {
    BoardRequestIsStay("dpub");
    BoardRequestIsStay("dpriv");
  }

  /** For player two, a board request is not one of the words it knows, and
      the parser refuses it. */
  lemma BoardRequestIsStay(word: string)
    requires word == "dpub" || word == "dpriv"
    ensures ActionOf(word, PlayerTwo) == Stay
  {
    assert Lower(word)[0] == 'd';
    assert CommandOf(word, PlayerTwo) == Fire(word);
    NonNumericColumnRefused(word);
  }

  /** A shot at an on-board cell: a miss, or a hit that leaves the opponent
      some ship, counts a move for the mover and hands the turn over; a
      repeated shot counts a move and keeps the turn; a hit that sinks the
      opponent's last ship wins the match for the mover. The other player's
      counter never changes. */
  lemma ShotRule(g: Game, guess: string, fired: FireResult, opponentSunk: bool)
    requires g.status.Playing? && ActionOf(guess, Mover(g.turn)).Shoot?
    ensures var next := Step(g, guess, fired, opponentSunk);
      && (Mover(g.turn) == PlayerOne ==> next.moves1 == g.moves1 + 1 && next.moves2 == g.moves2)
      && (Mover(g.turn) == PlayerTwo ==> next.moves2 == g.moves2 + 1 && next.moves1 == g.moves1)
      && (fired.Miss? || (fired.Hit? && !opponentSunk) ==>
            next.status.Playing? && Mover(next.turn) != Mover(g.turn))
      && (fired.AlreadyShot? ==> next.status.Playing? && next.turn == g.turn)
      && (fired.Hit? && opponentSunk ==> next.status == Won(Mover(g.turn)))
  {
  }

  /** A line that is empty once stripped, as at the end of the input, raises
      out of the loop. */
  lemma EndOfInputRaises(g: Game, guess: string, fired: FireResult, opponentSunk: bool)
    requires g.status.Playing? && Strip(guess) == []
    ensures Step(g, guess, fired, opponentSunk).status == Raised(IndexError)
  {
    if guess != [] {
      TrimStartDropsSpace(guess);
      TrimEndDropsSpace(TrimStart(guess));
      assert IsSpace(guess[0]);
      assert Lower(guess)[0] == guess[0];
    }
  }

  /** A shot the parser accepts at row 'K' or column 11, which lie off the
      board, raises out of the loop. */
  lemma OffBoardRaises(g: Game, guess: string, fired: FireResult, opponentSunk: bool)
    requires g.status.Playing? && CommandOf(guess, Mover(g.turn)).Fire?
    requires ParseCoordinate(guess).Ok?
    requires ParseCoordinate(guess).row == 10 || ParseCoordinate(guess).col == 10
    ensures Step(g, guess, fired, opponentSunk).status == Raised(IndexError)
  {
  }

  /** A finished match is final: no later line changes it. */
  lemma {:induction false} FinishedIsFinal(g: Game, log: seq<Turn>)
    requires !g.status.Playing?
    ensures Replay(g, log) == g
  {
    if log != [] {
      FinishedIsFinal(g, log[..|log| - 1]);
    }
  }

  /** Along any run, the turn stays 0, 1 or 2 and the counters never go
      down. */
  lemma {:induction false} ReplayKeepsShape(g: Game, log: seq<Turn>)
    requires 0 <= g.turn <= 2
    ensures 0 <= Replay(g, log).turn <= 2
    ensures Replay(g, log).moves1 >= g.moves1 && Replay(g, log).moves2 >= g.moves2
  {
    if log != [] {
      ReplayKeepsShape(g, log[..|log| - 1]);
    }
  }

  /** The number of passes in a run that fired at a board. */
  function Shots(g: Game, log: seq<Turn>): nat {
    if log == [] then 0
    else
      var before := Replay(g, log[..|log| - 1]);
      var last := log[|log| - 1];
      Shots(g, log[..|log| - 1])
        + (if before.status.Playing? && ActionOf(last.guess, Mover(before.turn)).Shoot? then 1 else 0)
  }

  /** The two counters together count exactly the shots that reached a
      board. */
  lemma {:induction false} MovesCountShots(g: Game, log: seq<Turn>)
    ensures Replay(g, log).moves1 + Replay(g, log).moves2 == g.moves1 + g.moves2 + Shots(g, log)
  {
    if log != [] {
      MovesCountShots(g, log[..|log| - 1]);
    }
  }

  /** The line the loop reads on pass i: the i-th input line stripped, or
      the empty string once the input is exhausted. */
  function LineAt(lines: seq<string>, i: nat): string {
    Strip(if i < |lines| then lines[i] else "")
  }

  /** Recording one more pass keeps the earlier ones as they were and
      keeps each pass paired with the line it read. */
  lemma RecordPass(log: seq<Turn>, pass: Turn, lines: seq<string>)
    requires forall k :: 0 <= k < |log| ==> log[k].guess == LineAt(lines, k)
    requires pass.guess == LineAt(lines, |log|)
    ensures (log + [pass])[..|log|] == log
    ensures forall k :: 0 <= k <= |log| ==> (log + [pass])[k].guess == LineAt(lines, k)
  {
    var after := log + [pass];
    forall k | 0 <= k <= |log|
      ensures after[k].guess == LineAt(lines, k)
    {
      if k < |log| {
        assert after[k] == log[k];
      }
    }
  }

  /** Every recorded pass was taken while the match was on: the run does
      not go on past the pass that ended it. */
  predicate TakenWhileOn(g0: Game, log: seq<Turn>) {
    log != [] ==>
      var earlier := log[..|log| - 1];
      TakenWhileOn(g0, earlier) && Replay(g0, earlier).status.Playing?
  }

  /** In a run taken while the match was on, every proper prefix leaves
      the match on. */
  lemma {:induction false} TakenWhileOnPrefixes(g0: Game, log: seq<Turn>)
    requires TakenWhileOn(g0, log)
    ensures forall k :: 0 <= k < |log| ==> Replay(g0, log[..k]).status.Playing?
  {
    if log != [] {
      var earlier := log[..|log| - 1];
      TakenWhileOnPrefixes(g0, earlier);
      forall k | 0 <= k < |log|
        ensures Replay(g0, log[..k]).status.Playing?
      {
        if k < |earlier| {
          assert log[..k] == earlier[..k];
        } else {
          assert log[..k] == earlier;
        }
      }
    }
  }

  /** What a run has done to the two boards: the cells of each that have
      been fired at, and each fleet with the cells its hits took out. */
  datatype Sides = Sides(shot1: set<Pos>, fleet1: seq<PlacedShip>, shot2: set<Pos>, fleet2: seq<PlacedShip>)

  /** The cell a pass fires at: the target of the mover's line, while the
      match is on and the line is a shot. */
  function Target(g: Game, pass: Turn): (t: Option<Pos>)
    ensures t.Some? ==> t.value.row < BoardSize && t.value.col < BoardSize
  {
    if g.status.Playing? && ActionOf(pass.guess, Mover(g.turn)).Shoot? then Some(ActionOf(pass.guess, Mover(g.turn)).target)
    else None
  }

  /** The boards after one pass taken in match state `before`: a shot by
      player one lands on player two's board and the other way round, and
      a hit takes its cell out of that fleet. */
  function Fired(s: Sides, before: Game, pass: Turn): Sides {
    match Target(before, pass)
    case None => s
    case Some(t) =>
      if Mover(before.turn) == PlayerOne then
        s.(shot2 := s.shot2 + {t}, fleet2 := if pass.fired.Hit? then RemoveHit(s.fleet2, t) else s.fleet2)
      else
        s.(shot1 := s.shot1 + {t}, fleet1 := if pass.fired.Hit? then RemoveHit(s.fleet1, t) else s.fleet1)
  }

  /** The boards after the recorded passes, from the match state g0 and
      the boards s0. */
  function Track(g0: Game, s0: Sides, log: seq<Turn>): Sides {
    if log == [] then s0
    else
      var earlier := log[..|log| - 1];
      Fired(Track(g0, s0, earlier), Replay(g0, earlier), log[|log| - 1])
  }

  /** The grids `now` are the grids `start` after exactly the shots at
      `shot`: those positions show the marks a shot leaves, every other
      position is as it was. */
  predicate Marked(now: map<Pos, Square>, start: map<Pos, Square>, shot: set<Pos>) {
    forall p :: p in Positions(BoardSize) ==>
      p in now && p in start && now[p] == (if p in shot then AfterShot(start[p]) else start[p])
  }

  /** Board b has taken exactly the shots at `shot` since its grids were
      `start`, and its fleet is `fleet`. */
  ghost predicate Tracks(b: Board, start: map<Pos, Square>, shot: set<Pos>, fleet: seq<PlacedShip>)
    requires b.Valid()
    reads b, b.hidden, b.display
  {
    b.ships == fleet && Marked(b.Grid(), start, shot)
  }

  /** A shot at t on grids that had taken the shots at `shot` gives the
      grids after those shots and t; a second shot at a position changes
      nothing more. The target's hidden cell before the shot is its cell
      at `start`, marked if it was shot before. */
  lemma MarkShot(now: map<Pos, Square>, start: map<Pos, Square>, shot: set<Pos>, t: Pos)
    requires Marked(now, start, shot) && t in Positions(BoardSize)
    ensures Marked(now[t := AfterShot(now[t])], start, shot + {t})
    ensures now[t].hidden == (if t in shot then Struck(start[t].hidden) else start[t].hidden)
  {
    if t in shot {
      var sq := start[t];
      assert AfterShot(AfterShot(sq)) == AfterShot(sq) by {
        if sq.hidden == Ship || sq.hidden == Water {
          assert Struck(sq.hidden) != Ship && Struck(sq.hidden) != Water;
        }
      }
    }
  }

  /** A board that had taken the shots at `shot`, with the fleet `fleet`,
      and was then shot at t from the grids `before` has taken the shots at
      `shot` and t; the answer is the one the target's cell at `start`
      gives, marked if it was shot before. */
  lemma ShotTracked(b: Board, before: map<Pos, Square>, start: map<Pos, Square>, shot: set<Pos>,
                    fleet: seq<PlacedShip>, t: Pos, fired: FireResult)
    requires b.Valid() && b.size == BoardSize && t.row < BoardSize && t.col < BoardSize
    requires Marked(before, start, shot)
    requires b.Grid() == before[t := AfterShot(before[t])]
    requires b.ships == (if before[t].hidden == Ship then RemoveHit(fleet, t) else fleet)
    requires fired == Answer(before[t].hidden, fleet, t)
    ensures Tracks(b, start, shot + {t}, if fired.Hit? then RemoveHit(fleet, t) else fleet)
    ensures t in start && fired == Answer(if t in shot then Struck(start[t].hidden) else start[t].hidden, fleet, t)
  {
    MarkShot(before, start, shot, t);
  }

  /** The answers a shot at t got, where the target held `initial` before
      the run, had already been fired at or not, and the fleet was `fleet`:
      the answer that cell gives, and "all sunk" exactly after a hit that
      left the fleet with no cell. */
  predicate Truthful(initial: Cell, shotBefore: bool, fleet: seq<PlacedShip>, t: Pos, pass: Turn) {
    var cell := if shotBefore then Struck(initial) else initial;
    && pass.fired == Answer(cell, fleet, t)
    && pass.opponentSunk == (pass.fired.Hit? && AllSunk(RemoveHit(fleet, t)))
  }

  /** The answers recorded for a pass taken in match state `before`, with
      the boards at s since their grids were start1 and start2, are those
      the opponent's board gave. */
  predicate PassAnswered(start1: map<Pos, Square>, start2: map<Pos, Square>, before: Game, s: Sides, pass: Turn) {
    match Target(before, pass)
    case None => !pass.opponentSunk
    case Some(t) =>
      if Mover(before.turn) == PlayerOne then t in start2 && Truthful(start2[t].hidden, t in s.shot2, s.fleet2, t, pass)
      else t in start1 && Truthful(start1[t].hidden, t in s.shot1, s.fleet1, t, pass)
  }

  /** Every recorded pass carries the answers the boards gave. */
  predicate Answered(start1: map<Pos, Square>, start2: map<Pos, Square>, g0: Game, s0: Sides, log: seq<Turn>) {
    log != [] ==>
      var earlier := log[..|log| - 1];
      && Answered(start1, start2, g0, s0, earlier)
      && PassAnswered(start1, start2, Replay(g0, earlier), Track(g0, s0, earlier), log[|log| - 1])
  }

  /** Recording one more pass adds its shot to the boards' account, its
      answers to those checked, and the state it was taken in to the run. */
  lemma TrackStep(start1: map<Pos, Square>, start2: map<Pos, Square>, g0: Game, s0: Sides, log: seq<Turn>, pass: Turn)
    ensures Track(g0, s0, log + [pass]) == Fired(Track(g0, s0, log), Replay(g0, log), pass)
    ensures Answered(start1, start2, g0, s0, log + [pass])
            <==> Answered(start1, start2, g0, s0, log) && PassAnswered(start1, start2, Replay(g0, log), Track(g0, s0, log), pass)
    ensures TakenWhileOn(g0, log + [pass]) <==> TakenWhileOn(g0, log) && Replay(g0, log).status.Playing?
  {
    assert (log + [pass])[..|log|] == log;
  }

  /** One pass of the match loop once the mover's line has been classified:
      a shot goes to the opponent's board, and a hit is followed by asking
      that board whether its fleet is all sunk. Returns the match state
      after the pass and the board's answers. */
  method PlayTurn(board1: Board, board2: Board, g: Game, action: Action)
      returns (next: Game, fired: FireResult, opponentSunk: bool)
    requires action.Shoot? ==> action.target.row < BoardSize && action.target.col < BoardSize
    requires board1.Valid() && board2.Valid()
    requires board1.size == BoardSize && board2.size == BoardSize
    requires board1 != board2 && {board1.hidden, board1.display} !! {board2.hidden, board2.display}
    modifies board1, board1.hidden, board1.display, board2, board2.hidden, board2.display
    ensures next == Advance(g, action, fired, opponentSunk)
    ensures Mover(g.turn) == PlayerOne || !action.Shoot? ==>
              unchanged(board1) && unchanged(board1.hidden) && unchanged(board1.display)
    ensures Mover(g.turn) == PlayerTwo || !action.Shoot? ==>
              unchanged(board2) && unchanged(board2.hidden) && unchanged(board2.display)
    ensures board1.Valid() && board2.Valid()
    ensures action.Shoot? ==> (if g.turn == 1 then board2 else board1).Shot(action.target, fired)
    ensures action.Shoot? && fired.Hit? ==> opponentSunk == AllSunk((if g.turn == 1 then board2 else board1).ships)
    ensures !(action.Shoot? && fired.Hit?) ==> !opponentSunk
    ensures next.status != g.status && next.status == Won(PlayerOne) ==> AllSunk(board2.ships)
    ensures next.status != g.status && next.status == Won(PlayerTwo) ==> AllSunk(board1.ships)
    ensures old(board1.Consistent()) ==> board1.Consistent()
    ensures old(board2.Consistent()) ==> board2.Consistent()
  {
    var turn, moves1, moves2, status := g.turn, g.moves1, g.moves2, g.status;
    var mover := Mover(turn);
    var opponent := if turn == 1 then board2 else board1;
    fired, opponentSunk := AlreadyShot, false;
    match action {
      case Concede =>
        status := Conceded(mover);
      case Crash(fault) =>
        status := Raised(fault);
      case Stay =>
      case Shoot(target) =>
        fired := opponent.FireAt(target.row, target.col);
        if mover == PlayerOne {
          moves1 := moves1 + 1;
        } else {
          moves2 := moves2 + 1;
        }
        match fired {
          case Hit(_) =>
            opponentSunk := opponent.AllShipsSunk();
            if opponentSunk {
              status := Won(mover);
            } else {
              turn := Handover(turn);
            }
          case Miss =>
            turn := Handover(turn);
          case AlreadyShot =>
        }
    }
    next := Game(turn, moves1, moves2, status);
  }

  /** One pass of the match loop on the line `guess`, after the passes
      `log` from the match state g0 with the boards at s0: the line is
      classified for the mover and played. The boards, which had taken the
      shots of `log` since their grids were start1 and start2, have taken
      this pass's shot as well, and the pass carries the answers the
      opponent's board gave. */
  method PlayLine(board1: Board, board2: Board, g: Game, guess: string,
                  ghost start1: map<Pos, Square>, ghost start2: map<Pos, Square>,
                  ghost g0: Game, ghost s0: Sides, ghost log: seq<Turn>)
      returns (next: Game, pass: Turn)
    requires g == Replay(g0, log) && g.status.Playing?
    requires board1.Valid() && board2.Valid()
    requires board1.size == BoardSize && board2.size == BoardSize
    requires board1 != board2 && {board1.hidden, board1.display} !! {board2.hidden, board2.display}
    requires Tracks(board1, start1, Track(g0, s0, log).shot1, Track(g0, s0, log).fleet1)
    requires Tracks(board2, start2, Track(g0, s0, log).shot2, Track(g0, s0, log).fleet2)
    requires Answered(start1, start2, g0, s0, log) && TakenWhileOn(g0, log)
    modifies board1, board1.hidden, board1.display, board2, board2.hidden, board2.display
    ensures pass.guess == guess && next == Step(g, guess, pass.fired, pass.opponentSunk)
    ensures next == Replay(g0, log + [pass])
    ensures board1.Valid() && board2.Valid()
    ensures old(board1.Consistent()) ==> board1.Consistent()
    ensures old(board2.Consistent()) ==> board2.Consistent()
    ensures next.status == Won(PlayerOne) ==> AllSunk(board2.ships)
    ensures next.status == Won(PlayerTwo) ==> AllSunk(board1.ships)
    ensures Tracks(board1, start1, Track(g0, s0, log + [pass]).shot1, Track(g0, s0, log + [pass]).fleet1)
    ensures Tracks(board2, start2, Track(g0, s0, log + [pass]).shot2, Track(g0, s0, log + [pass]).fleet2)
    ensures Answered(start1, start2, g0, s0, log + [pass]) && TakenWhileOn(g0, log + [pass])
  {
    var action := ActionOf(guess, Mover(g.turn));
    ghost var s := Track(g0, s0, log);
    ghost var pre1, pre2 := board1.Grid(), board2.Grid();
    var fired, opponentSunk;
    next, fired, opponentSunk := PlayTurn(board1, board2, g, action);
    pass := Turn(guess, fired, opponentSunk);
    ghost var after := Fired(s, g, pass);
    if action.Shoot? {
      var t := action.target;
      if Mover(g.turn) == PlayerOne {
        assert board2.Shot(t, fired);
        board2.GridAfterShot(t);
        ShotTracked(board2, pre2, start2, s.shot2, s.fleet2, t, fired);
        assert after == s.(shot2 := s.shot2 + {t}, fleet2 := if fired.Hit? then RemoveHit(s.fleet2, t) else s.fleet2);
      } else {
        assert board1.Shot(t, fired);
        board1.GridAfterShot(t);
        ShotTracked(board1, pre1, start1, s.shot1, s.fleet1, t, fired);
        assert after == s.(shot1 := s.shot1 + {t}, fleet1 := if fired.Hit? then RemoveHit(s.fleet1, t) else s.fleet1);
      }
    } else {
      assert after == s;
    }
    assert PassAnswered(start1, start2, g, s, pass);
    TrackStep(start1, start2, g0, s0, log, pass);
  }

  /** The match loop after both fleets are placed: one pass per line until
      the match is won, given up, or an exception escapes the loop. The end
      of the input reads as an empty line, which raises, so the loop always
      stops. */
  method RunTwoPlayerGame(board1: Board, board2: Board, firstTurn: int, lines: seq<string>)
      returns (g: Game, log: seq<Turn>)
    requires firstTurn == 0 || firstTurn == 1
    requires board1.Valid() && board2.Valid()
    requires board1.size == BoardSize && board2.size == BoardSize
    requires board1 != board2 && {board1.hidden, board1.display} !! {board2.hidden, board2.display}
    modifies board1, board1.hidden, board1.display, board2, board2.hidden, board2.display
    ensures !g.status.Playing?
    ensures g == Replay(Start(firstTurn), log)
    ensures 0 < |log| <= |lines| + 1
    ensures forall i :: 0 <= i < |log| ==> log[i].guess == LineAt(lines, i)
    ensures TakenWhileOn(Start(firstTurn), log)
    ensures board1.Valid() && board2.Valid()
    ensures old(board1.Consistent()) ==> board1.Consistent()
    ensures old(board2.Consistent()) ==> board2.Consistent()
    ensures g.status == Won(PlayerOne) ==> AllSunk(board2.ships)
    ensures g.status == Won(PlayerTwo) ==> AllSunk(board1.ships)
    ensures var s := Track(Start(firstTurn), Sides({}, old(board1.ships), {}, old(board2.ships)), log);
      && Tracks(board1, old(board1.Grid()), s.shot1, s.fleet1)
      && Tracks(board2, old(board2.Grid()), s.shot2, s.fleet2)
    ensures Answered(old(board1.Grid()), old(board2.Grid()), Start(firstTurn),
                     Sides({}, old(board1.ships), {}, old(board2.ships)), log)
  {
    ghost var start1, start2 := board1.Grid(), board2.Grid();
    ghost var s0 := Sides({}, board1.ships, {}, board2.ships);
    g := Start(firstTurn);
    log := [];
    var i := 0;
    while g.status.Playing?
      invariant i == |log| && i <= |lines| + 1
      invariant g.status.Playing? ==> i <= |lines|
      invariant g == Replay(Start(firstTurn), log)
      invariant forall k :: 0 <= k < i ==> log[k].guess == LineAt(lines, k)
      invariant TakenWhileOn(Start(firstTurn), log)
      invariant board1.Valid() && board2.Valid()
      invariant old(board1.Consistent()) ==> board1.Consistent()
      invariant old(board2.Consistent()) ==> board2.Consistent()
      invariant g.status == Won(PlayerOne) ==> AllSunk(board2.ships)
      invariant g.status == Won(PlayerTwo) ==> AllSunk(board1.ships)
      invariant Tracks(board1, start1, Track(Start(firstTurn), s0, log).shot1, Track(Start(firstTurn), s0, log).fleet1)
      invariant Tracks(board2, start2, Track(Start(firstTurn), s0, log).shot2, Track(Start(firstTurn), s0, log).fleet2)
      invariant Answered(start1, start2, Start(firstTurn), s0, log)
      decreases |lines| + 1 - i
    {
      var guess := LineAt(lines, i);
      var before := g;
      var pass;
      g, pass := PlayLine(board1, board2, g, guess, start1, start2, Start(firstTurn), s0, log);
      if i == |lines| {
        EndOfInputRaises(before, guess, pass.fired, pass.opponentSunk);
      }
      RecordPass(log, pass, lines);
      log := log + [pass];
      i := i + 1;
    }
  }
}
