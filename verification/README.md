# Tower-defence turn strategy: a Dafny model

This project models the decision logic of `AlgoStrategy`, a per-turn agent
for a two-player grid tower-defence game (`jpaulson_edge/algo_strategy.py`).
The game engine it drives is not part of this model: every question the
strategy asks the engine is a field of the `Game.Snapshot` datatype. These
fields are whether a cell holds a stationary unit, the path a mobile unit
would take from a cell, how many enemy turrets can hit a cell, the cells of
the two top edges, the turret damage, the mobile-point resource, and the
units on every cell. Every request the strategy makes (`attempt_spawn`) is
appended to the request log of a `Game.GameState` object. The proofs hold
whatever the engine answers.

Modules:

- `Game` (`game.dfy`): cells, unit kinds, units, non-empty paths, spawn
  requests, the board snapshot, and `GameState` (snapshot plus request log).
- `Risk` (`risk.dfy`): the spawn-risk estimate as functions. These are
  filtering out occupied candidates, the damage along a path, the 1000
  sentinel for a path that does not reach a top edge, and the first
  minimum.
- `Census` (`census.dfy`): the count of the opponent's units on cells that
  hold a stationary unit, with the optional kind, column and row filters.
- `Planner` (`planner.dfy`): the resource-gated Scout attack with its rising
  threshold, and the turret placed two rows above each breach cell.
- `Strategy` (`algo_strategy.dfy`): the class `AlgoStrategy` with its three
  fields. Its methods keep the loops of `algo_strategy.py`, and each one is proved
  equal to the function of `Risk`, `Census` or `Planner` that specifies it.

The code scores a blocked path with the literal 1000, and a reachable
path's damage can exceed it; `Risk.SentinelCanBeChosen` shows that such a
path then loses to a blocked one.

## Model

| member | source | states |
|---|---|---|
| `Risk.Unblocked` | jpaulson_edge/algo_strategy.py:166-171 | a cell is kept exactly when it is an input candidate holding no stationary unit, and the result is never longer than the input |
| `Risk.UnblockedMultiplicity` | jpaulson_edge/algo_strategy.py:166-171 | a candidate without a stationary unit is kept as many times as it occurs in the input, and any other candidate is dropped entirely |
| `Risk.UnblockedAppend` | jpaulson_edge/algo_strategy.py:166-171 | filtering a concatenation is the concatenation of the filtered parts, so the kept candidates stay in input order |
| `Risk.UnblockedIdempotent` | jpaulson_edge/algo_strategy.py:166-171 | filtering an already filtered list returns it unchanged |
| `Strategy.AlgoStrategy.FilterBlockedLocations` | jpaulson_edge/algo_strategy.py:166-171 | the appending loop returns exactly `Unblocked` of its input |
| `Risk.PathDamage` | jpaulson_edge/algo_strategy.py:142-145 | the summed damage is non-negative, and zero when no cell of the path can be attacked |
| `Risk.PathDamageMonotone` | jpaulson_edge/algo_strategy.py:142-145 | with the path fixed, raising any cell's attacker count never lowers the summed damage |
| `Risk.CandidateDamage` | jpaulson_edge/algo_strategy.py:140-148 | every candidate's score is non-negative |
| `Risk.BlockedScoresSentinel` | jpaulson_edge/algo_strategy.py:137-148 | a path whose last cell is on neither top edge scores exactly 1000, whatever the attacker counts |
| `Risk.ReachingScoresPathDamage` | jpaulson_edge/algo_strategy.py:137-146 | a path that ends on a top edge scores the sum over its cells of attackers times turret damage |
| `Risk.CandidateDamageMonotone` | jpaulson_edge/algo_strategy.py:139-148 | raising any cell's attacker count never lowers a candidate's score |
| `Risk.Damages` | jpaulson_edge/algo_strategy.py:136-148 | one score per filtered candidate, in the same order, each the score of that candidate |
| `Risk.Min` | jpaulson_edge/algo_strategy.py:152 | `min(damages)` is an element of the list and at most every element |
| `Risk.IndexOf` | jpaulson_edge/algo_strategy.py:152 | `damages.index(v)` is a position holding `v`, and no earlier position holds it |
| `Risk.FirstMinIndex` | jpaulson_edge/algo_strategy.py:151-153 | the chosen position's score is at most every score and strictly below every earlier score |
| `Risk.LeastDamage` | jpaulson_edge/algo_strategy.py:129-155 | with no free candidate the answer is `([14,0], 1000)`; otherwise the chosen cell is one of the input candidates and holds no stationary unit |
| `Risk.LeastDamageIsFirstMinimum` | jpaulson_edge/algo_strategy.py:151-153 | with some free candidate, the answer is the free candidate at the first minimum-score position, returned with its own score |
| `Risk.ThreeCandidates` | jpaulson_edge/algo_strategy.py:135-155 | with one occupied candidate, one path scoring 4 (one cell hit by two turrets of damage 2) and one unattacked path, the estimate returns the unattacked candidate with damage 0 |
| `Risk.SentinelCanBeChosen` | jpaulson_edge/algo_strategy.py:141-153 | a free blocked candidate beats a free reaching candidate whose damage exceeds 1000: the sentinel does not dominate real scores |
| `Strategy.AlgoStrategy.LeastDamageSpawnLocation` | jpaulson_edge/algo_strategy.py:129-155 | the filtering loop, the per-candidate damage loop with its inner per-cell sum, and the min/index selection return exactly `LeastDamage` |
| `Census.CountInCell` | jpaulson_edge/algo_strategy.py:161-163 | a cell contributes at most its number of units, all of them when every unit matches, and none when no unit matches |
| `Census.CountOnBoard` | jpaulson_edge/algo_strategy.py:157-164 | a board with no stationary cell counts zero units |
| `Census.CountInCellNarrowing` | jpaulson_edge/algo_strategy.py:161-163 | a filter that admits no more units counts no more units in a cell |
| `Census.CountOnBoardNarrowing` | jpaulson_edge/algo_strategy.py:157-164 | a filter that admits no more units counts no more units on the board |
| `Census.OneKindAtMostAll` | jpaulson_edge/algo_strategy.py:157-164 | counting one unit kind never gives more than counting every kind |
| `Census.CellSplitsByKind` | jpaulson_edge/algo_strategy.py:161-163 | a cell's unfiltered-kind count is the sum of its six single-kind counts |
| `Census.CountSplitsByKind` | jpaulson_edge/algo_strategy.py:157-164 | the board's unfiltered-kind count is the sum of its six single-kind counts, so each counted unit is counted under exactly one kind |
| `Strategy.AlgoStrategy.DetectEnemyUnit` | jpaulson_edge/algo_strategy.py:157-164 | the nested counting loops return exactly `CountOnBoard` under the given kind, column and row filters |
| `Planner.AttackRequests` | jpaulson_edge/algo_strategy.py:112-115 | a turn issues one attack request exactly when MP reaches the threshold, and that request is 1000 Scouts at `[14,0]` |
| `Planner.ThresholdCountsAttacks` | jpaulson_edge/algo_strategy.py:112-116 | over any run of turns, the threshold ends at its start plus the increment times the number of attacks |
| `Planner.ThresholdNeverFalls` | jpaulson_edge/algo_strategy.py:116 | with a non-negative increment the threshold never falls over any run of turns |
| `Strategy.AlgoStrategy.OffensiveGate` | jpaulson_edge/algo_strategy.py:112-116 | the requests grow by `AttackRequests`; `attack_strength` rises by exactly the increment when MP reaches it and is unchanged otherwise |
| `Planner.ReactiveRequests` | jpaulson_edge/algo_strategy.py:124-127 | one turret request per breach cell, in the same order, each at the breach's column two rows higher, with count 1 |
| `Planner.ReactiveRequestsRoundTrip` | jpaulson_edge/algo_strategy.py:124-127 | the breach cells can be read back from the requests, so none is lost, reordered or merged |
| `Planner.TwoBreaches` | jpaulson_edge/algo_strategy.py:124-127 | breaches at (5,1) and (9,1) give turrets at (5,3) and (9,3), in that order |
| `Strategy.AlgoStrategy.BuildReactiveDefense` | jpaulson_edge/algo_strategy.py:118-127 | the requests grow by exactly `ReactiveRequests(scored_on_locations)`, and the breach list is unchanged |
| `Strategy.AlgoStrategy.constructor` | jpaulson_edge/algo_strategy.py:30-31 | the threshold and its increment are the two parameters |
| `Strategy.AlgoStrategy.OnGameStart` | jpaulson_edge/algo_strategy.py:49 | the breach list is reset to empty at game start |

## Left out

- Strategy.AlgoStrategy.constructor: sets the breach list to `[]` because a Dafny field always holds a value, while `__init__` (lines 24-31) never creates `scored_on_locations` and only `on_game_start` (line 49) does. The model therefore does not capture the `AttributeError` that `build_reactive_defense` would raise before game start.
- The game engine: path finding, attacker queries, edge tables, occupancy, resources, unit statistics and request handling. Their source is not part of this model. Each query is an arbitrary input of `Game.Snapshot`, and each request is an entry appended to `GameState.requests`. Whether the engine accepts a request is not modelled.
- `get_attackers` returns a list of units. The model keeps only its length, the one thing the strategy uses.
- `GameUnit(TURRET, config).damage_i` is a natural number in the model. The engine may give it as a float, and floating-point rounding is not modelled. The MP resource is a real number, compared with the integer threshold as the code does.
- The opening layout of `starter_strategy` (lines 80-108): fixed tables of wall, turret and support placements and upgrades. It is configuration data, and `OffensiveGate` models only the attack step at lines 112-116.
- `on_turn`, the configuration parsing and unit-kind bindings of `on_game_start` (the kinds are the `Game.UnitType` enumeration), the random seed, debug output, and the parameter loading under `__main__`. These are I/O and plumbing.
- `on_action_frame`: its body is `pass`, and its breach recording is commented out. `scored_on_locations` is therefore never appended to, and `build_reactive_defense` is never called. The model keeps the list as a field and the reactive build as a standalone method, and adds no append operation.
- The commented-out calls to `least_damage_spawn_location` and the Demolisher spawn (lines 110-111, 115). The attack always uses the fixed cell `[14,0]`.
- `Risk.Min` and `Risk.IndexOf` stand for Python's built-in `min` and `list.index`, whose own loops are not in the source.
