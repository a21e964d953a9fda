/** The turn planner's decisions that do not depend on the risk estimate:
    the resource-gated Scout attack with its escalating threshold, and the
    turret placed above each cell where the opponent scored.  These functions
    specify `Strategy.AlgoStrategy.OffensiveGate` and
    `Strategy.AlgoStrategy.BuildReactiveDefense`. */
module Planner {
  import opened Game

  /** The fixed spawn cell of the attack. */
  const AttackSpawn := Cell(14, 0)

  /** How many Scouts the attack asks for; the engine spawns as many as the
      resource allows. */
  const AttackCount := 1000

  /** Rows between a breach cell and the turret built for it. */
  const ReactiveOffset := 2

  /** Whether the attack fires with `mp` mobile points against `threshold`. */
  predicate Fires(threshold: int, mp: real) {
    mp >= threshold as real
  }

  /** The threshold after one turn. */
  function NextThreshold(threshold: int, increase: int, mp: real): int {
    if Fires(threshold, mp) then threshold + increase else threshold
  }

  /** The attack requests of one turn. */
  function AttackRequests(threshold: int, mp: real): (r: seq<Request>)
    ensures |r| <= 1
    ensures |r| == 1 <==> Fires(threshold, mp)
    ensures forall q :: q in r ==> q == Spawn(Scout, AttackSpawn, AttackCount)
  {
    if Fires(threshold, mp) then [Spawn(Scout, AttackSpawn, AttackCount)] else []
  }

  /** The threshold after a run of turns with the given mobile points. */
  function ThresholdAfter(threshold: int, increase: int, mps: seq<real>): int
    decreases |mps|
  {
    if |mps| == 0 then threshold
    else ThresholdAfter(NextThreshold(threshold, increase, mps[0]), increase, mps[1..])
  }

  /** How many of those turns fire the attack. */
  function AttacksIn(threshold: int, increase: int, mps: seq<real>): (n: nat)
    ensures n <= |mps|
    decreases |mps|
  {
    if |mps| == 0 then 0
    else
      var fired := if Fires(threshold, mps[0]) then 1 else 0;
      fired + AttacksIn(NextThreshold(threshold, increase, mps[0]), increase, mps[1..])
  }

  /** Over any run of turns the threshold has risen by exactly the increment
      times the number of attacks, and by nothing else. */
  lemma {:induction false} ThresholdCountsAttacks(threshold: int, increase: int, mps: seq<real>)
    ensures ThresholdAfter(threshold, increase, mps) == threshold + increase * AttacksIn(threshold, increase, mps)
    decreases |mps|
  {
    if |mps| > 0 {
      var next := NextThreshold(threshold, increase, mps[0]);
      ThresholdCountsAttacks(next, increase, mps[1..]);
      var n := AttacksIn(next, increase, mps[1..]);
      if Fires(threshold, mps[0]) {
        assert increase * (1 + n) == increase + increase * n;
      }
    }
  }

  /** With a non-negative increment the threshold never falls. */
  lemma ThresholdNeverFalls(threshold: int, increase: int, mps: seq<real>)
    requires increase >= 0
    ensures ThresholdAfter(threshold, increase, mps) >= threshold
  {
    ThresholdCountsAttacks(threshold, increase, mps);
    assert increase * AttacksIn(threshold, increase, mps) >= 0;
  }

  /** The turret request for one breach cell: two rows above it, so that it
      does not block this player's own edge spawn cells. */
  function TurretAbove(breach: Cell): Request {
    Spawn(Turret, Cell(breach.x, breach.y + ReactiveOffset), 1)
  }

  /** The reactive-defense requests: one turret per recorded breach, in the
      order the breaches were recorded, with no de-duplication. */
  function ReactiveRequests(breaches: seq<Cell>): (r: seq<Request>)
    ensures |r| == |breaches|
    ensures forall i :: 0 <= i < |breaches| ==>
      r[i].unitType == Turret && r[i].count == 1
      && r[i].at.x == breaches[i].x && r[i].at.y == breaches[i].y + ReactiveOffset
  {
    if |breaches| == 0 then []
    else ReactiveRequests(breaches[..|breaches| - 1]) + [TurretAbove(breaches[|breaches| - 1])]
  }

  /** The breach cells the requests were built for, read back from the
      requests. */
  function BreachesOf(requests: seq<Request>): (r: seq<Cell>)
    ensures |r| == |requests|
  {
    if |requests| == 0 then []
    else
      var last := requests[|requests| - 1];
      BreachesOf(requests[..|requests| - 1]) + [Cell(last.at.x, last.at.y - ReactiveOffset)]
  }

  /** The breach cells can be read back from the reactive requests: no breach
      is lost, reordered or merged. */
  lemma {:induction false} ReactiveRequestsRoundTrip(breaches: seq<Cell>)
    ensures BreachesOf(ReactiveRequests(breaches)) == breaches
  {
    if |breaches| > 0 {
      var init := breaches[..|breaches| - 1];
      var r := ReactiveRequests(breaches);
      assert r[..|r| - 1] == ReactiveRequests(init);
      ReactiveRequestsRoundTrip(init);
    }
  }

  /** Breaches at (5, 1) and (9, 1) give turrets at (5, 3) and (9, 3), in
      that order. */
  lemma TwoBreaches()
    ensures ReactiveRequests([Cell(5, 1), Cell(9, 1)])
         == [Spawn(Turret, Cell(5, 3), 1), Spawn(Turret, Cell(9, 3), 1)]
  {
  }
}
