/** The strategy object: its per-game state (the attack threshold and its
    increment, the recorded breach cells) and the turn operations that read
    the board and issue requests.  Each loop is proved against the function
    of `Risk`, `Census` or `Planner` that specifies it. */
module Strategy {
  import opened Game
  import opened Risk
  import opened Census
  import opened Planner

  class AlgoStrategy {
    /** Mobile points needed before the next Scout attack. */
    var attackStrength: int
    /** How much the threshold rises after each attack. */
    var attackStrengthIncrease: int
    /** Cells where the opponent scored on this player. */
    var scoredOnLocations: seq<Cell>

    /** Creates the strategy from its two tuning parameters. */
    constructor (attackStrength: int, attackStrengthIncrease: int)
      ensures this.attackStrength == attackStrength
      ensures this.attackStrengthIncrease == attackStrengthIncrease
      ensures scoredOnLocations == []
    {
      this.attackStrength := attackStrength;
      this.attackStrengthIncrease := attackStrengthIncrease;
      scoredOnLocations := [];
    }

    /** Game start: the breach history begins empty. */
    method OnGameStart()
      modifies this`scoredOnLocations
      ensures scoredOnLocations == []
    {
      scoredOnLocations := [];
    }

    /** The attack step of the turn: when the mobile points reach the
        threshold, one request for a batch of Scouts at the fixed spawn cell
        and a higher threshold; otherwise nothing. */
    method OffensiveGate(gameState: GameState)
      modifies this`attackStrength, gameState
      ensures gameState.requests
           == old(gameState.requests) + AttackRequests(old(attackStrength), gameState.snapshot.mp)
      ensures attackStrength
           == NextThreshold(old(attackStrength), attackStrengthIncrease, gameState.snapshot.mp)
    {
      if gameState.snapshot.mp >= attackStrength as real {
        var spawnLocation := AttackSpawn;
        gameState.AttemptSpawn(Scout, spawnLocation, AttackCount);
        attackStrength := attackStrength + attackStrengthIncrease;
      }
    }

    /** One turret request two rows above each recorded breach, in order;
        the breach history itself is left as it is. */
    method BuildReactiveDefense(gameState: GameState)
      modifies gameState
      ensures gameState.requests == old(gameState.requests) + ReactiveRequests(scoredOnLocations)
      ensures scoredOnLocations == old(scoredOnLocations)
    {
      for i := 0 to |scoredOnLocations|
        invariant gameState.requests
               == old(gameState.requests) + ReactiveRequests(scoredOnLocations[..i])
      {
        var location := scoredOnLocations[i];
        var buildLocation := Cell(location.x, location.y + ReactiveOffset);
        gameState.AttemptSpawn(Turret, buildLocation, 1);
        assert scoredOnLocations[..i + 1][..i] == scoredOnLocations[..i];
      }
      assert scoredOnLocations[..|scoredOnLocations|] == scoredOnLocations;
    }

    /** The safest spawn cell among `locationOptions` and its damage
        estimate, or `(14, 0)` with the sentinel when none is free. */
    method LeastDamageSpawnLocation(gameState: GameState, locationOptions: seq<Cell>)
      returns (location: Cell, damage: int)
      ensures (location, damage) == LeastDamage(locationOptions, gameState.snapshot)
    {
      var s := gameState.snapshot;
      var options := FilterBlockedLocations(locationOptions, gameState);
      var damages: seq<int> := [];
      var endPoints := s.topLeftEdge + s.topRightEdge;
      for i := 0 to |options|
        invariant damages == Damages(options[..i], s)
      {
        var path := s.pathToEdge(options[i]);
        if path[|path| - 1] in endPoints {
          var pathDamage := 0;
          for j := 0 to |path|
            invariant pathDamage == PathDamage(path[..j], s.attackers, s.turretDamage)
          {
            pathDamage := pathDamage + s.attackers(path[j]) * s.turretDamage;
            assert path[..j + 1][..j] == path[..j];
          }
          assert path[..|path|] == path;
          assert pathDamage == CandidateDamage(options[i], s);
          damages := damages + [pathDamage];
        } else {
          damages := damages + [BlockedDamage];
        }
        assert options[..i + 1][..i] == options[..i];
      }
      assert options[..|options|] == options;
      assert damages == Damages(options, s);
      if |damages| > 0 {
        var bestIndex := IndexOf(damages, Min(damages));
        assert bestIndex == FirstMinIndex(damages);
        location, damage := options[bestIndex], damages[bestIndex];
      } else {
        location, damage := DefaultSpawn, BlockedDamage;
      }
    }

    /** The number of the opponent's units on cells holding a stationary
        unit, optionally only of one kind and only in the given columns and
        rows. */
    method DetectEnemyUnit(gameState: GameState, unitType: Option<UnitType>, validX: Option<seq<int>>, validY: Option<seq<int>>)
      returns (totalUnits: nat)
      ensures totalUnits
           == CountOnBoard(gameState.snapshot.board, gameState.snapshot.stationary, UnitFilter(unitType, validX, validY))
    {
      var board := gameState.snapshot.board;
      ghost var f := UnitFilter(unitType, validX, validY);
      totalUnits := 0;
      for k := 0 to |board|
        invariant totalUnits == CountOnBoard(board[..k], gameState.snapshot.stationary, f)
      {
        var location, units := board[k].0, board[k].1;
        if gameState.snapshot.stationary(location) {
          for i := 0 to |units|
            invariant totalUnits
                   == CountOnBoard(board[..k], gameState.snapshot.stationary, f) + CountInCell(units[..i], location, f)
          {
            var occupant := units[i];
            if occupant.playerIndex == 1
               && (unitType.None? || occupant.unitType == unitType.value)
               && (validX.None? || location.x in validX.value)
               && (validY.None? || location.y in validY.value)
            {
              totalUnits := totalUnits + 1;
            }
            assert units[..i + 1][..i] == units[..i];
          }
          assert units[..|units|] == units;
        }
        assert board[..k + 1][..k] == board[..k];
      }
      assert board[..|board|] == board;
    }

    /** The candidates that hold no stationary unit, in their original
        order. */
    method FilterBlockedLocations(locations: seq<Cell>, gameState: GameState) returns (filtered: seq<Cell>)
      ensures filtered == Unblocked(locations, gameState.snapshot.stationary)
    {
      filtered := [];
      for i := 0 to |locations|
        invariant filtered == Unblocked(locations[..i], gameState.snapshot.stationary)
      {
        if !gameState.snapshot.stationary(locations[i]) {
          filtered := filtered + [locations[i]];
        }
        assert locations[..i + 1][..i] == locations[..i];
      }
      assert locations[..|locations|] == locations;
    }
  }
}
