/** Counting the opponent's units on cells that hold a stationary unit,
    optionally restricted to one unit kind and to given columns and rows.
    These functions specify `Strategy.AlgoStrategy.DetectEnemyUnit`. */
module Census {
  import opened Game

  /** The optional restrictions of a count; `None` means "any". */
  datatype UnitFilter = UnitFilter(unitType: Option<UnitType>, validX: Option<seq<int>>, validY: Option<seq<int>>)

  /** Whether unit `u`, standing at `at`, is counted under filter `f`. */
  predicate Counted(u: Unit, at: Cell, f: UnitFilter) {
    u.playerIndex == 1
    && (f.unitType.None? || u.unitType == f.unitType.value)
    && (f.validX.None? || at.x in f.validX.value)
    && (f.validY.None? || at.y in f.validY.value)
  }

  /** The number of units of one cell that are counted under `f`. */
  function CountInCell(units: seq<Unit>, at: Cell, f: UnitFilter): (n: nat)
    ensures n <= |units|
    ensures (forall i :: 0 <= i < |units| ==> Counted(units[i], at, f)) ==> n == |units|
    ensures (forall i :: 0 <= i < |units| ==> !Counted(units[i], at, f)) ==> n == 0
  {
    if |units| == 0 then 0
    else
      CountInCell(units[..|units| - 1], at, f)
        + (if Counted(units[|units| - 1], at, f) then 1 else 0)
  }

  /** The number of counted units over the cells of `board` that hold a
      stationary unit. */
  function CountOnBoard(board: seq<(Cell, seq<Unit>)>, stationary: Cell -> bool, f: UnitFilter): (n: nat)
    ensures (forall k :: 0 <= k < |board| ==> !stationary(board[k].0)) ==> n == 0
  {
    if |board| == 0 then 0
    else
      var (at, units) := board[|board| - 1];
      CountOnBoard(board[..|board| - 1], stationary, f)
        + (if stationary(at) then CountInCell(units, at, f) else 0)
  }

  /** A filter that admits no more units than another never counts more. */
  lemma {:induction false} CountInCellNarrowing(units: seq<Unit>, at: Cell, f: UnitFilter, g: UnitFilter)
    requires forall u :: Counted(u, at, g) ==> Counted(u, at, f)
    ensures CountInCell(units, at, g) <= CountInCell(units, at, f)
  {
    if |units| > 0 {
      CountInCellNarrowing(units[..|units| - 1], at, f, g);
    }
  }

  /** The same over a whole board: a filter that admits no more units
      never counts more. */
  lemma {:induction false} CountOnBoardNarrowing(board: seq<(Cell, seq<Unit>)>, stationary: Cell -> bool, f: UnitFilter, g: UnitFilter)
    requires forall u, at :: Counted(u, at, g) ==> Counted(u, at, f)
    ensures CountOnBoard(board, stationary, g) <= CountOnBoard(board, stationary, f)
  {
    if |board| > 0 {
      var (at, units) := board[|board| - 1];
      CountOnBoardNarrowing(board[..|board| - 1], stationary, f, g);
      CountInCellNarrowing(units, at, f, g);
    }
  }

  /** Restricting the count to one unit kind never counts more than counting
      every kind. */
  lemma OneKindAtMostAll(board: seq<(Cell, seq<Unit>)>, stationary: Cell -> bool, t: UnitType, validX: Option<seq<int>>, validY: Option<seq<int>>)
    ensures CountOnBoard(board, stationary, UnitFilter(Some(t), validX, validY))
         <= CountOnBoard(board, stationary, UnitFilter(None, validX, validY))
  {
    CountOnBoardNarrowing(board, stationary, UnitFilter(None, validX, validY), UnitFilter(Some(t), validX, validY));
  }

  /** The count restricted to kind `t`, with the same column and row filters. */
  function OfKind(board: seq<(Cell, seq<Unit>)>, stationary: Cell -> bool, t: UnitType, validX: Option<seq<int>>, validY: Option<seq<int>>): nat {
    CountOnBoard(board, stationary, UnitFilter(Some(t), validX, validY))
  }

  /** The count in one cell restricted to kind `t`, with the same column
      and row filters. */
  function CellOfKind(units: seq<Unit>, at: Cell, t: UnitType, validX: Option<seq<int>>, validY: Option<seq<int>>): nat {
    CountInCell(units, at, UnitFilter(Some(t), validX, validY))
  }

  /** In one cell, counting every kind is the sum of the six single-kind
      counts. */
  lemma {:induction false} CellSplitsByKind(units: seq<Unit>, at: Cell, validX: Option<seq<int>>, validY: Option<seq<int>>)
    ensures CountInCell(units, at, UnitFilter(None, validX, validY))
         == CellOfKind(units, at, Wall, validX, validY) + CellOfKind(units, at, Support, validX, validY)
          + CellOfKind(units, at, Turret, validX, validY) + CellOfKind(units, at, Scout, validX, validY)
          + CellOfKind(units, at, Demolisher, validX, validY) + CellOfKind(units, at, Interceptor, validX, validY)
  {
    if |units| > 0 {
      CellSplitsByKind(units[..|units| - 1], at, validX, validY);
    }
  }

  /** Counting every kind is the sum of the counts of the six kinds: each
      counted unit is counted under exactly one kind. */
  lemma {:induction false} CountSplitsByKind(board: seq<(Cell, seq<Unit>)>, stationary: Cell -> bool, validX: Option<seq<int>>, validY: Option<seq<int>>)
    ensures CountOnBoard(board, stationary, UnitFilter(None, validX, validY))
         == OfKind(board, stationary, Wall, validX, validY) + OfKind(board, stationary, Support, validX, validY)
          + OfKind(board, stationary, Turret, validX, validY) + OfKind(board, stationary, Scout, validX, validY)
          + OfKind(board, stationary, Demolisher, validX, validY) + OfKind(board, stationary, Interceptor, validX, validY)
  {
    if |board| > 0 {
      var (at, units) := board[|board| - 1];
      CountSplitsByKind(board[..|board| - 1], stationary, validX, validY);
      CellSplitsByKind(units, at, validX, validY);
    }
  }
}
