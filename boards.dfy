/** One player's board: a hidden grid with the ships, the public grid an
    opponent sees, and the fleet of placed ships with their unhit cells. */
module Boards {

  /** Side length of every board a game creates. */
  const BoardSize: nat := 10

  datatype Option<+T> = None | Some(value: T)

  /** A grid cell: water, a ship, a hit or a miss. */
  datatype Cell = Water | Ship | HitMark | MissMark

  /** What the public grid may show of a hidden cell: ships look like water. */
  function Public(c: Cell): Cell {
    if c == Ship then Water else c
  }

  datatype Pos = Pos(row: nat, col: nat)

  /** A ship of the fleet and the cells of it that have not been hit yet. */
  datatype PlacedShip = PlacedShip(name: string, positions: set<Pos>)

  /** The answer to a shot; a hit carries the name of the ship it sank. */
  datatype FireResult = Hit(sunk: Option<string>) | Miss | AlreadyShot

  /** The hidden cell after a shot: a ship becomes a hit, water a miss, and
      a cell shot before keeps its mark. */
  function Struck(c: Cell): Cell {
    match c
    case Ship => HitMark
    case Water => MissMark
    case _ => c
  }

  /** The public cell after a shot at a cell whose hidden content was
      `hidden` and whose public content was `shown`: a first shot reveals
      its mark, a repeated one leaves the public cell alone. */
  function Uncovered(hidden: Cell, shown: Cell): Cell {
    if hidden == Ship || hidden == Water then Struck(hidden) else shown
  }

  /** A grid position's two cells: the hidden one and the public one. */
  datatype Square = Square(hidden: Cell, shown: Cell)

  /** The two cells of a position after a shot at it. */
  function AfterShot(sq: Square): Square {
    Square(Struck(sq.hidden), Uncovered(sq.hidden, sq.shown))
  }

  /** The positions of a board of the given size. */
  function Positions(size: nat): (ps: set<Pos>)
    ensures forall p :: p in ps <==> p.row < size && p.col < size
  {
    set r: nat, c: nat | r < size && c < size :: Pos(r, c)
  }

  /** The answer to a shot at p on a cell holding c, with the fleet
      `ships` as it was before the shot. */
  function Answer(c: Cell, ships: seq<PlacedShip>, p: Pos): FireResult {
    match c
    case Ship => Hit(Reported(SunkBy(ships, p)))
    case Water => Miss
    case _ => AlreadyShot
  }

  /** Whether a ship of `length` anchored at (row, col) covers p; orientation
      0 runs along the row, any other value down the column. */
  predicate Covers(row: nat, col: nat, length: nat, orientation: int, p: Pos) {
    if orientation == 0 then p.row == row && col <= p.col < col + length
    else p.col == col && row <= p.row < row + length
  }

  /** The cell a ship of `length` anchored at (row, col) ends on. */
  function LastCell(row: nat, col: nat, length: nat, orientation: int): Pos
    requires length > 0
  {
    if orientation == 0 then Pos(row, col + length - 1) else Pos(row + length - 1, col)
  }

  /** The cells a ship of `length` anchored at (row, col) occupies, one
      cell per unit of length. */
  function Footprint(row: nat, col: nat, length: nat, orientation: int): set<Pos> {
    if length == 0 then {}
    else Footprint(row, col, length - 1, orientation) + {LastCell(row, col, length, orientation)}
  }

  /** The footprint runs along the row for orientation 0 and down the
      column otherwise, from the anchor for `length` cells. */
  lemma {:induction false} FootprintCovers(row: nat, col: nat, length: nat, orientation: int)
    ensures forall p :: p in Footprint(row, col, length, orientation) <==> Covers(row, col, length, orientation, p)
  {
    if length > 0 {
      FootprintCovers(row, col, length - 1, orientation);
    }
  }

  /** A ship of `length` occupies exactly `length` cells. */
  lemma {:induction false} FootprintSize(row: nat, col: nat, length: nat, orientation: int)
    ensures |Footprint(row, col, length, orientation)| == length
  {
    if length > 0 {
      FootprintSize(row, col, length - 1, orientation);
      var prev := Footprint(row, col, length - 1, orientation);
      var last := LastCell(row, col, length, orientation);
      assert last !in prev by {
        FootprintCovers(row, col, length - 1, orientation);
        assert !Covers(row, col, length - 1, orientation, last);
      }
    }
  }

  /** Whether a ship of `length` anchored at (row, col) ends inside a board
      of the given size. */
  predicate Fits(row: nat, col: nat, length: nat, orientation: int, size: nat) {
    if orientation == 0 then col + length <= size else row + length <= size
  }

  /** Whether the anchor lies inside the board across the ship's direction:
      its row for a ship along a row, its column otherwise. An anchor past
      the edge along the ship's direction is answered by `Fits`. */
  predicate Across(row: nat, col: nat, orientation: int, size: nat) {
    if orientation == 0 then row < size else col < size
  }

  /** The index of the first ship whose unhit cells contain p, or |ships|
      when none does. */
  function FirstWith(ships: seq<PlacedShip>, p: Pos): (k: nat)
    ensures k <= |ships|
    ensures k < |ships| ==> p in ships[k].positions
    ensures forall j :: 0 <= j < k ==> p !in ships[j].positions
  {
    if ships == [] || p in ships[0].positions then 0 else 1 + FirstWith(ships[1..], p)
  }

  /** The fleet after a hit at p: p leaves the first ship that holds it. */
  function RemoveHit(ships: seq<PlacedShip>, p: Pos): (after: seq<PlacedShip>)
    ensures |after| == |ships|
    ensures forall i :: 0 <= i < |ships| ==>
      && after[i].name == ships[i].name
      && after[i].positions <= ships[i].positions
      && ships[i].positions - after[i].positions <= {p}
    ensures forall i :: 0 <= i < |ships| && i != FirstWith(ships, p) ==> after[i] == ships[i]
    ensures FirstWith(ships, p) < |ships| ==> p !in after[FirstWith(ships, p)].positions
  {
    var k := FirstWith(ships, p);
    if k == |ships| then ships
    else ships[k := ships[k].(positions := ships[k].positions - {p})]
  }

  /** The name the hit scan reports: that of the ship a hit at p empties. */
  function SunkBy(ships: seq<PlacedShip>, p: Pos): (sunk: Option<string>)
    ensures sunk.Some? <==> FirstWith(ships, p) < |ships| && ships[FirstWith(ships, p)].positions == {p}
    ensures sunk.Some? ==> sunk.value == ships[FirstWith(ships, p)].name
  {
    var k := FirstWith(ships, p);
    if k < |ships| && ships[k].positions - {p} == {} then Some(ships[k].name) else None
  }

  /** The shot result keeps a sunk name only when it is truthy, that is,
      not the empty string. */
  function Reported(sunk: Option<string>): (r: Option<string>)
    ensures r.Some? ==> r == sunk && |r.value| > 0
    ensures sunk.Some? && |sunk.value| > 0 ==> r == sunk
  {
    if sunk.Some? && sunk.value != "" then sunk else None
  }

  /** Every ship of the fleet has lost all its cells. */
  predicate AllSunk(ships: seq<PlacedShip>) {
    forall i :: 0 <= i < |ships| ==> ships[i].positions == {}
  }

  /** The unhit cells of the whole fleet. */
  function ShipCells(ships: seq<PlacedShip>): set<Pos> {
    if ships == [] then {} else ShipCells(ships[..|ships| - 1]) + ships[|ships| - 1].positions
  }

  /** No cell belongs to two ships. */
  predicate Disjoint(ships: seq<PlacedShip>) {
    forall i, j :: 0 <= i < j < |ships| ==> ships[i].positions !! ships[j].positions
  }

  lemma {:induction false} ShipCellsMembership(ships: seq<PlacedShip>, p: Pos)
    ensures p in ShipCells(ships) <==> exists i :: 0 <= i < |ships| && p in ships[i].positions
  {
    if ships != [] {
      var init := ships[..|ships| - 1];
      ShipCellsMembership(init, p);
      if p in ShipCells(init) {
        var i :| 0 <= i < |init| && p in init[i].positions;
        assert ships[i] == init[i];
      }
      if i :| 0 <= i < |ships| && p in ships[i].positions {
        if i < |init| {
          assert init[i] == ships[i];
        }
      }
    }
  }

  /** The fleet is all sunk exactly when no unhit ship cell is left. */
  lemma AllSunkIffNoShipCells(ships: seq<PlacedShip>)
    ensures AllSunk(ships) <==> ShipCells(ships) == {}
  {
    if !AllSunk(ships) {
      var i :| 0 <= i < |ships| && ships[i].positions != {};
      var p :| p in ships[i].positions;
      ShipCellsMembership(ships, p);
    }
    if ShipCells(ships) != {} {
      var p :| p in ShipCells(ships);
      ShipCellsMembership(ships, p);
    }
  }

  /** A hit takes exactly its own cell out of the fleet, which stays
      disjoint, and cells only ever leave a ship. */
  lemma RemoveHitCells(ships: seq<PlacedShip>, p: Pos)
    requires Disjoint(ships)
    ensures ShipCells(RemoveHit(ships, p)) == ShipCells(ships) - {p}
    ensures Disjoint(RemoveHit(ships, p))
  {
    var after := RemoveHit(ships, p);
    forall q | q in ShipCells(after)
      ensures q in ShipCells(ships) - {p}
    {
      ShipCellsMembership(after, q);
      ShipCellsMembership(ships, q);
    }
    forall q | q in ShipCells(ships) - {p}
      ensures q in ShipCells(after)
    {
      ShipCellsMembership(after, q);
      ShipCellsMembership(ships, q);
      var i :| 0 <= i < |ships| && q in ships[i].positions;
      assert q in after[i].positions;
    }
  }

  /** A ship is reported sunk exactly when the hit takes its last cell. */
  lemma SunkOnLastCell(ships: seq<PlacedShip>, p: Pos)
    ensures SunkBy(ships, p).Some? <==> exists i :: 0 <= i < |ships| && ships[i].positions == {p}
                                                      && forall j :: 0 <= j < i ==> p !in ships[j].positions
    ensures SunkBy(ships, p).Some? ==> SunkBy(ships, p).value == ships[FirstWith(ships, p)].name
  {
    var k := FirstWith(ships, p);
    if SunkBy(ships, p).Some? {
      assert ships[k].positions == {p};
    }
    if i :| 0 <= i < |ships| && ships[i].positions == {p} && forall j :: 0 <= j < i ==> p !in ships[j].positions {
      assert k == i;
    }
  }

  /** Appending a ship whose cells are free keeps the fleet disjoint and
      adds exactly its cells to the fleet's unhit cells. */
  lemma AppendShip(before: seq<PlacedShip>, ship: PlacedShip)
    requires Disjoint(before) && ShipCells(before) !! ship.positions
    ensures Disjoint(before + [ship])
    ensures ShipCells(before + [ship]) == ShipCells(before) + ship.positions
  {
    var after := before + [ship];
    assert after[..|after| - 1] == before;
    FreeOfFleet(before, ship.positions);
    forall i, j | 0 <= i < j < |after|
      ensures after[i].positions !! after[j].positions
    {
      assert after[i] == before[i];
      if j < |before| {
        assert after[j] == before[j];
      }
    }
  }

  /** Cells outside the fleet's unhit cells are outside every ship. */
  lemma FreeOfFleet(ships: seq<PlacedShip>, cells: set<Pos>)
    requires ShipCells(ships) !! cells
    ensures forall i :: 0 <= i < |ships| ==> ships[i].positions !! cells
  {
    forall i, p | 0 <= i < |ships| && p in ships[i].positions
      ensures p !in cells
    {
      ShipCellsMembership(ships, p);
    }
  }

  class Board {
    const size: nat
    /** The true state of every cell, ships included. */
    const hidden: array2<Cell>
    /** The cells as an opponent may see them. */
    const display: array2<Cell>
    /** The placed ships, in placement order. */
    var ships: seq<PlacedShip>

    /** The two grids are distinct size-by-size grids, and the public grid
        never shows a ship. */
    ghost predicate Valid()
      reads this, hidden, display
    {
      && hidden != display
      && hidden.Length0 == size && hidden.Length1 == size
      && display.Length0 == size && display.Length1 == size
      && forall r, c :: 0 <= r < size && 0 <= c < size ==> display[r, c] != Ship
    }

    /** The fleet agrees with the grids: the ship cells of the hidden grid
        are exactly the fleet's unhit cells, no cell belongs to two ships,
        and the public grid is the hidden grid with its ships concealed. */
    ghost predicate Consistent()
      reads this, hidden, display
      requires Valid()
    {
      && Disjoint(ships)
      && (forall p :: p in ShipCells(ships) ==> p.row < size && p.col < size)
      && forall r, c :: 0 <= r < size && 0 <= c < size ==>
           && (hidden[r, c] == Ship <==> Pos(r, c) in ShipCells(ships))
           && display[r, c] == Public(hidden[r, c])
    }

    /** A board of all water with no ships. */
    constructor (size: nat)
      ensures Valid() && Consistent()
      ensures this.size == size && ships == []
      ensures forall r, c :: 0 <= r < size && 0 <= c < size ==> hidden[r, c] == Water && display[r, c] == Water
      ensures fresh(hidden) && fresh(display)
    {
      this.size := size;
      hidden := new Cell[size, size]((r, c) => Water);
      display := new Cell[size, size]((r, c) => Water);
      ships := [];
    }

    /** Whether a ship of `length` at (row, col) fits on the board and finds
        water on every cell it would cover. */
    method CanPlaceShip(row: nat, col: nat, length: nat, orientation: int) returns (ok: bool)
      requires Valid() && Across(row, col, orientation, size)
      ensures ok <==> Fits(row, col, length, orientation, size)
                      && forall p :: p in Footprint(row, col, length, orientation) ==>
                           p.row < size && p.col < size && hidden[p.row, p.col] == Water
    {
      FootprintCovers(row, col, length, orientation);
      if orientation == 0 {
        if col + length > size {
          return false;
        }
        var c := col;
        while c < col + length
          invariant col <= c <= col + length
          invariant forall c' :: col <= c' < c ==> hidden[row, c'] == Water
        {
          if hidden[row, c] != Water {
            assert Pos(row, c) in Footprint(row, col, length, orientation);
            return false;
          }
          c := c + 1;
        }
      } else {
        if row + length > size {
          return false;
        }
        var r := row;
        while r < row + length
          invariant row <= r <= row + length
          invariant forall r' :: row <= r' < r ==> hidden[r', col] == Water
        {
          if hidden[r, col] != Water {
            assert Pos(r, col) in Footprint(row, col, length, orientation);
            return false;
          }
          r := r + 1;
        }
      }
      return true;
    }

    /** Marks the cells of a ship of `length` at (row, col) as ship and
        returns them; every other cell, the public grid and the fleet stay
        as they were. */
    method DoPlaceShip(row: nat, col: nat, length: nat, orientation: int) returns (occupied: set<Pos>)
      requires Valid() && Across(row, col, orientation, size) && Fits(row, col, length, orientation, size)
      modifies hidden
      ensures Valid()
      ensures occupied == Footprint(row, col, length, orientation)
      ensures forall r, c :: 0 <= r < size && 0 <= c < size ==>
                hidden[r, c] == if Pos(r, c) in occupied then Ship else old(hidden[r, c])
    {
      FootprintCovers(row, col, length, orientation);
      occupied := {};
      if orientation == 0 {
        var c := col;
        while c < col + length
          invariant col <= c <= col + length
          invariant forall p :: p in occupied <==> p.row == row && col <= p.col < c
          invariant forall r', c' :: 0 <= r' < size && 0 <= c' < size ==>
                      hidden[r', c'] == if r' == row && col <= c' < c then Ship else old(hidden[r', c'])
        {
          hidden[row, c] := Ship;
          occupied := occupied + {Pos(row, c)};
          c := c + 1;
        }
      } else {
        var r := row;
        while r < row + length
          invariant row <= r <= row + length
          invariant forall p :: p in occupied <==> p.col == col && row <= p.row < r
          invariant forall r', c' :: 0 <= r' < size && 0 <= c' < size ==>
                      hidden[r', c'] == if c' == col && row <= r' < r then Ship else old(hidden[r', c'])
        {
          hidden[r, col] := Ship;
          occupied := occupied + {Pos(r, col)};
          r := r + 1;
        }
      }
    }

    /** The commit step of ship placement: when the ship can be placed, mark
        its cells and append it to the fleet; otherwise change nothing. */
    method PlaceShip(name: string, row: nat, col: nat, length: nat, orientation: int) returns (placed: bool)
      requires Valid() && Across(row, col, orientation, size)
      modifies this, hidden
      ensures Valid()
      ensures placed <==> Fits(row, col, length, orientation, size)
                          && forall p :: p in Footprint(row, col, length, orientation) ==>
                               p.row < size && p.col < size && old(hidden[p.row, p.col]) == Water
      ensures placed ==> ships == old(ships) + [PlacedShip(name, Footprint(row, col, length, orientation))]
      ensures !placed ==> ships == old(ships)
      ensures forall r, c :: 0 <= r < size && 0 <= c < size ==>
                hidden[r, c] == if placed && Pos(r, c) in Footprint(row, col, length, orientation) then Ship else old(hidden[r, c])
      ensures old(Consistent()) ==> Consistent()
    {
      placed := CanPlaceShip(row, col, length, orientation);
      if placed {
        ghost var before := ships;
        var occupied := DoPlaceShip(row, col, length, orientation);
        ships := ships + [PlacedShip(name, occupied)];
        if old(Consistent()) {
          forall p | p in occupied
            ensures p !in ShipCells(before)
          {
            assert old(hidden[p.row, p.col]) == Water;
          }
          AppendShip(before, PlacedShip(name, occupied));
        }
      }
    }

    /** Both grids as a value: each position's hidden and public cell. */
    ghost function Grid(): (m: map<Pos, Square>)
      requires Valid()
      reads this, hidden, display
      ensures m.Keys == Positions(size)
      ensures forall r, c :: 0 <= r < size && 0 <= c < size ==>
                Pos(r, c) in m && m[Pos(r, c)] == Square(hidden[r, c], display[r, c])
    {
      map p | p in Positions(size) :: Square(hidden[p.row, p.col], display[p.row, p.col])
    }

    /** What a shot at p answered with `result` did to the board: the
        hidden cell took the shot's mark and the public cell shows it; a
        ship cell left the first ship that held it; the answer is the one
        the cell gave. No other cell changed. */
    twostate predicate Shot(p: Pos, result: FireResult)
      requires Valid() && p.row < size && p.col < size
      reads this, hidden, display
    {
      && hidden[p.row, p.col] == Struck(old(hidden[p.row, p.col]))
      && display[p.row, p.col] == Uncovered(old(hidden[p.row, p.col]), old(display[p.row, p.col]))
      && ships == (if old(hidden[p.row, p.col]) == Ship then RemoveHit(old(ships), p) else old(ships))
      && result == Answer(old(hidden[p.row, p.col]), old(ships), p)
      && forall r, c :: 0 <= r < size && 0 <= c < size && (r != p.row || c != p.col) ==>
           hidden[r, c] == old(hidden[r, c]) && display[r, c] == old(display[r, c])
    }

    /** Fires at (row, col), with the effect and the answer `Shot` describes;
        afterwards the cell carries a hit or a miss mark. */
    method FireAt(row: nat, col: nat) returns (result: FireResult)
      requires Valid() && row < size && col < size
      modifies this, hidden, display
      ensures Valid()
      ensures Shot(Pos(row, col), result)
      ensures hidden[row, col] == HitMark || hidden[row, col] == MissMark
      ensures old(Consistent()) ==> Consistent()
    {
      var cell := hidden[row, col];
      if cell == Ship {
        hidden[row, col] := HitMark;
        display[row, col] := HitMark;
        var sunk := MarkHitAndCheckSunk(row, col);
        if sunk.Some? && sunk.value != "" {
          result := Hit(sunk);
        } else {
          result := Hit(None);
        }
        if old(Consistent()) {
          RemoveHitCells(old(ships), Pos(row, col));
          forall r, c | 0 <= r < size && 0 <= c < size
            ensures (hidden[r, c] == Ship <==> Pos(r, c) in ShipCells(ships)) && display[r, c] == Public(hidden[r, c])
          {
            if r != row || c != col {
              assert hidden[r, c] == old(hidden[r, c]) && display[r, c] == old(display[r, c]);
            }
          }
        }
      } else if cell == Water {
        hidden[row, col] := MissMark;
        display[row, col] := MissMark;
        result := Miss;
      } else {
        result := AlreadyShot;
      }
    }

    /** A change at p alone, by the marks a shot leaves, seen on the grids
        as a value: the square at p took those marks, the others are as
        they were. */
    twostate lemma GridAfterShot(p: Pos)
      requires old(Valid()) && Valid() && p.row < size && p.col < size
      requires hidden[p.row, p.col] == Struck(old(hidden[p.row, p.col]))
      requires display[p.row, p.col] == Uncovered(old(hidden[p.row, p.col]), old(display[p.row, p.col]))
      requires forall r, c :: 0 <= r < size && 0 <= c < size && (r != p.row || c != p.col) ==>
                 hidden[r, c] == old(hidden[r, c]) && display[r, c] == old(display[r, c])
      ensures Grid() == old(Grid())[p := AfterShot(old(Grid())[p])]
    {
      forall q | q in Positions(size)
        ensures Grid()[q] == old(Grid())[p := AfterShot(old(Grid())[p])][q]
      {
        if q != p {
          assert hidden[q.row, q.col] == old(hidden[q.row, q.col]) && display[q.row, q.col] == old(display[q.row, q.col]);
        }
      }
    }

    /** Takes (row, col) out of the first ship that holds it and returns
        that ship's name when it has no cell left. */
    method MarkHitAndCheckSunk(row: nat, col: nat) returns (sunk: Option<string>)
      modifies this
      ensures ships == RemoveHit(old(ships), Pos(row, col))
      ensures sunk == SunkBy(old(ships), Pos(row, col))
    {
      var p := Pos(row, col);
      var i := 0;
      while i < |ships|
        invariant i <= |ships| && ships == old(ships)
        invariant forall j :: 0 <= j < i ==> p !in ships[j].positions
      {
        if p in ships[i].positions {
          assert FirstWith(ships, p) == i;
          ships := ships[i := ships[i].(positions := ships[i].positions - {p})];
          if ships[i].positions == {} {
            return Some(ships[i].name);
          }
          break;
        }
        i := i + 1;
      }
      return None;
    }

    /** Whether every ship of the fleet has lost all its cells; true for an
        empty fleet. */
    method AllShipsSunk() returns (sunk: bool)
      ensures sunk <==> AllSunk(ships)
    {
      var i := 0;
      while i < |ships|
        invariant i <= |ships|
        invariant forall j :: 0 <= j < i ==> ships[j].positions == {}
      {
        if |ships[i].positions| > 0 {
          return false;
        }
        i := i + 1;
      }
      return true;
    }

    /** On a consistent board the fleet is all sunk exactly when no ship
        cell is left on the hidden grid. */
    lemma AllSunkIffNoShipLeft()
      requires Valid() && Consistent()
      ensures AllSunk(ships) <==> forall r, c :: 0 <= r < size && 0 <= c < size ==> hidden[r, c] != Ship
    {
      AllSunkIffNoShipCells(ships);
      if !AllSunk(ships) {
        var p :| p in ShipCells(ships);
        assert hidden[p.row, p.col] == Ship;
      }
    }
  }

  /** Two shots at the same cell: whatever the first one finds, the second
      is reported as already shot, and the cell keeps the mark the first one
      left. */
  method ShootTwice(board: Board, row: nat, col: nat) returns (first: FireResult, second: FireResult)
    requires board.Valid() && row < board.size && col < board.size
    modifies board, board.hidden, board.display
    ensures first.Hit? <==> old(board.hidden[row, col]) == Ship
    ensures first.Miss? <==> old(board.hidden[row, col]) == Water
    ensures second == AlreadyShot
    ensures board.hidden[row, col] == if first.Miss? then MissMark else if first.Hit? then HitMark else old(board.hidden[row, col])
  {
    first := board.FireAt(row, col);
    second := board.FireAt(row, col);
  }

  /** A fresh board with a two-cell ship placed across from A1. */
  method PlaceDestroyer() returns (board: Board)
    ensures fresh(board) && fresh(board.hidden) && fresh(board.display)
    ensures board.Valid() && board.size == BoardSize
    ensures board.ships == [PlacedShip("Destroyer", {Pos(0, 0), Pos(0, 1)})]
    ensures board.hidden[0, 0] == Ship && board.hidden[0, 1] == Ship
  {
    board := new Board(BoardSize);
    DestroyerFootprint();
    var placed := board.PlaceShip("Destroyer", 0, 0, 2, 0);
    assert placed;
  }

  /** A two-cell ship at A1, shot at its first cell, its second, and its
      first again: a hit, a hit that sinks it, and a repeated shot. */
  method SinkDestroyerScenario() returns (first: FireResult, second: FireResult, third: FireResult)
    ensures first == Hit(None)
    ensures second == Hit(Some("Destroyer"))
    ensures third == AlreadyShot
  {
    var board := PlaceDestroyer();
    DestroyerFleet();
    first := board.FireAt(0, 0);
    assert board.hidden[0, 1] == Ship;
    second := board.FireAt(0, 1);
    assert board.hidden[0, 0] == HitMark;
    third := board.FireAt(0, 0);
  }

  lemma DestroyerFootprint()
    ensures Footprint(0, 0, 2, 0) == {Pos(0, 0), Pos(0, 1)}
  {
    FootprintCovers(0, 0, 2, 0);
  }

  /** The fleet of the scenario after each of its hits. */
  lemma DestroyerFleet()
    ensures var fleet := [PlacedShip("Destroyer", {Pos(0, 0), Pos(0, 1)})];
      && RemoveHit(fleet, Pos(0, 0)) == [PlacedShip("Destroyer", {Pos(0, 1)})]
      && Reported(SunkBy(fleet, Pos(0, 0))) == None
      && Reported(SunkBy([PlacedShip("Destroyer", {Pos(0, 1)})], Pos(0, 1))) == Some("Destroyer")
  {
    var fleet := [PlacedShip("Destroyer", {Pos(0, 0), Pos(0, 1)})];
    assert FirstWith(fleet, Pos(0, 0)) == 0;
    assert {Pos(0, 0), Pos(0, 1)} - {Pos(0, 0)} == {Pos(0, 1)};
    assert FirstWith([PlacedShip("Destroyer", {Pos(0, 1)})], Pos(0, 1)) == 0;
  }
}
