/** The game engine as the strategy sees it: grid cells, units, the engine's
    queries on one turn's board, and the log of build/spawn requests the
    strategy issues during that turn.

    The engine itself is not part of this model.  Each query the strategy
    makes of it is a field of `Snapshot` (a total function or a value), so
    every property proved below holds whatever the engine answers. */
module Game {

  datatype Option<T> = None | Some(value: T)

  /** A grid position `[x, y]`; two cells are the same cell when their
      coordinates are equal. */
  datatype Cell = Cell(x: int, y: int)

  /** The six unit kinds whose identifiers are bound from the configuration
      at game start. */
  datatype UnitType = Wall | Support | Turret | Scout | Demolisher | Interceptor

  /** A unit on the board: its kind and the index of the player who owns it
      (0 is this player, 1 the opponent). */
  datatype Unit = Unit(unitType: UnitType, playerIndex: int)

  /** A path from the engine's path finder.  It starts at the cell the path
      was asked for, so it is never empty. */
  type Path = p: seq<Cell> | |p| > 0 witness [Cell(0, 0)]

  /** One spawn request made to the engine during a turn.  Whether the
      engine accepts it (resources, occupancy) is decided after the turn and
      is not modelled. */
  datatype Request = Spawn(unitType: UnitType, at: Cell, count: nat)

  /** What the engine reports about the board on one turn.
      - `mp`: this player's mobile-point resource;
      - `stationary`: whether a cell holds a stationary unit;
      - `pathToEdge`: the path a mobile unit spawned at a cell would take;
      - `attackers`: how many enemy turrets can hit a cell;
      - `topLeftEdge`, `topRightEdge`: the cells of the two top edges;
      - `turretDamage`: the per-shot damage of a turret, from the configuration;
      - `board`: every cell of the arena, in the engine's iteration order,
        with the units standing on it. */
  datatype Snapshot = Snapshot(
    mp: real,
    stationary: Cell -> bool,
    pathToEdge: Cell -> Path,
    attackers: Cell -> nat,
    topLeftEdge: seq<Cell>,
    topRightEdge: seq<Cell>,
    turretDamage: nat,
    board: seq<(Cell, seq<Unit>)>)

  /** One turn's game state: the board the engine reported, and the requests
      issued so far this turn, in the order they were issued. */
  class GameState {
    const snapshot: Snapshot
    var requests: seq<Request>

    constructor (snapshot: Snapshot)
      ensures this.snapshot == snapshot && requests == []
    {
      this.snapshot := snapshot;
      requests := [];
    }

    /** Asks the engine to place `count` units of kind `unitType` at `at`. */
    method AttemptSpawn(unitType: UnitType, at: Cell, count: nat)
      modifies this
      ensures requests == old(requests) + [Spawn(unitType, at, count)]
    {
      requests := requests + [Spawn(unitType, at, count)];
    }
  }
}
