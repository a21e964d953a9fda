/** The spawn-risk estimate: which candidate spawn cells are free, how much
    turret damage a mobile unit would take on the path from each, and which
    candidate is the safest.  These functions specify the loop methods of
    `Strategy.AlgoStrategy`. */
module Risk {
  import opened Game

  /** Score of a candidate whose path does not reach a top edge. */
  const BlockedDamage := 1000

  /** Returned when no candidate is free. */
  const DefaultSpawn := Cell(14, 0)

  /** The candidates that hold no stationary unit, in their original order. */
  function Unblocked(locs: seq<Cell>, stationary: Cell -> bool): (r: seq<Cell>)
    ensures |r| <= |locs|
    ensures forall c :: c in r <==> c in locs && !stationary(c)
  {
    if |locs| == 0 then []
    else
      var init, last := locs[..|locs| - 1], locs[|locs| - 1];
      assert locs == init + [last];
      var rest := Unblocked(init, stationary);
      if stationary(last) then rest else rest + [last]
  }

  /** Each candidate without a stationary unit is kept as often as it occurs
      in the input; each other candidate is dropped. */
  lemma {:induction false} UnblockedMultiplicity(locs: seq<Cell>, stationary: Cell -> bool)
    ensures forall c :: multiset(Unblocked(locs, stationary))[c]
                        == if stationary(c) then 0 else multiset(locs)[c]
  {
    if |locs| > 0 {
      var init, last := locs[..|locs| - 1], locs[|locs| - 1];
      assert locs == init + [last];
      UnblockedMultiplicity(init, stationary);
    }
  }

  /** Filtering a concatenation filters each part: the order of the kept
      candidates is the order of the input. */
  lemma {:induction false} UnblockedAppend(a: seq<Cell>, b: seq<Cell>, stationary: Cell -> bool)
    ensures Unblocked(a + b, stationary) == Unblocked(a, stationary) + Unblocked(b, stationary)
    decreases |b|
  {
    if |b| == 0 {
      assert a + b == a;
    } else {
      var init := b[..|b| - 1];
      assert (a + b)[..|a + b| - 1] == a + init;
      assert (a + b)[|a + b| - 1] == b[|b| - 1];
      UnblockedAppend(a, init, stationary);
    }
  }

  /** Filtering an already filtered list changes nothing. */
  lemma {:induction false} UnblockedIdempotent(locs: seq<Cell>, stationary: Cell -> bool)
    ensures Unblocked(Unblocked(locs, stationary), stationary) == Unblocked(locs, stationary)
  {
    if |locs| > 0 {
      var init, last := locs[..|locs| - 1], locs[|locs| - 1];
      var rest := Unblocked(init, stationary);
      UnblockedIdempotent(init, stationary);
      if !stationary(last) {
        assert (rest + [last])[..|rest|] == rest;
      }
    }
  }

  /** Sum over the path's cells of (attackers of the cell) x (turret damage). */
  function PathDamage(path: seq<Cell>, attackers: Cell -> nat, turretDamage: nat): (r: int)
    ensures r >= 0
    ensures (forall c :: c in path ==> attackers(c) == 0) ==> r == 0
  {
    if |path| == 0 then 0
    else
      assert path == path[..|path| - 1] + [path[|path| - 1]];
      PathDamage(path[..|path| - 1], attackers, turretDamage)
        + attackers(path[|path| - 1]) * turretDamage
  }

  /** Holding the path fixed, more attackers on any cell never lower the damage. */
  lemma {:induction false} PathDamageMonotone(path: seq<Cell>, a1: Cell -> nat, a2: Cell -> nat, turretDamage: nat)
    requires forall c :: a1(c) <= a2(c)
    ensures PathDamage(path, a1, turretDamage) <= PathDamage(path, a2, turretDamage)
  {
    if |path| > 0 {
      var last := path[|path| - 1];
      PathDamageMonotone(path[..|path| - 1], a1, a2, turretDamage);
      assert a1(last) * turretDamage <= a2(last) * turretDamage by {
        MulMonotone(a1(last), a2(last), turretDamage);
      }
    }
  }

  /** Multiplying by a natural number keeps the order of two naturals. */
  lemma MulMonotone(x: nat, y: nat, k: nat)
    requires x <= y
    ensures x * k <= y * k
  {
  }

  /** The cells where a path counts as having crossed the board. */
  function EndPoints(s: Snapshot): seq<Cell> {
    s.topLeftEdge + s.topRightEdge
  }

  /** The risk of spawning at `loc`: the path damage when its path ends on a
      top edge, the sentinel otherwise. */
  function CandidateDamage(loc: Cell, s: Snapshot): (r: int)
    ensures r >= 0
  {
    var path := s.pathToEdge(loc);
    if path[|path| - 1] in EndPoints(s) then PathDamage(path, s.attackers, s.turretDamage)
    else BlockedDamage
  }

  /** A candidate whose path ends off the top edges scores exactly the
      sentinel, whatever the attacker counts along the path. */
  lemma BlockedScoresSentinel(loc: Cell, s: Snapshot, attackers: Cell -> nat)
    requires s.pathToEdge(loc)[|s.pathToEdge(loc)| - 1] !in EndPoints(s)
    ensures CandidateDamage(loc, s) == BlockedDamage
    ensures CandidateDamage(loc, s.(attackers := attackers)) == BlockedDamage
  {
  }

  /** A candidate whose path reaches a top edge scores its path damage. */
  lemma ReachingScoresPathDamage(loc: Cell, s: Snapshot)
    requires s.pathToEdge(loc)[|s.pathToEdge(loc)| - 1] in EndPoints(s)
    ensures CandidateDamage(loc, s) == PathDamage(s.pathToEdge(loc), s.attackers, s.turretDamage)
  {
  }

  /** Raising the attacker count of any cell never lowers a candidate's score. */
  lemma CandidateDamageMonotone(loc: Cell, s: Snapshot, attackers: Cell -> nat)
    requires forall c :: s.attackers(c) <= attackers(c)
    ensures CandidateDamage(loc, s) <= CandidateDamage(loc, s.(attackers := attackers))
  {
    PathDamageMonotone(s.pathToEdge(loc), s.attackers, attackers, s.turretDamage);
  }

  /** The scores of the candidates, one per candidate, in the same order. */
  function Damages(locs: seq<Cell>, s: Snapshot): (r: seq<int>)
    ensures |r| == |locs|
    ensures forall i :: 0 <= i < |locs| ==> r[i] == CandidateDamage(locs[i], s)
  {
    if |locs| == 0 then []
    else Damages(locs[..|locs| - 1], s) + [CandidateDamage(locs[|locs| - 1], s)]
  }

  /** The smallest element of a non-empty list. */
  function Min(ds: seq<int>): (m: int)
    requires |ds| > 0
    ensures m in ds
    ensures forall i :: 0 <= i < |ds| ==> m <= ds[i]
  {
    if |ds| == 1 then ds[0]
    else
      var m' := Min(ds[1..]);
      assert forall i :: 1 <= i < |ds| ==> ds[i] == ds[1..][i - 1];
      if ds[0] <= m' then ds[0] else m'
  }

  /** The first position of `v` in a list that holds it. */
  function IndexOf(ds: seq<int>, v: int): (k: nat)
    requires v in ds
    ensures k < |ds| && ds[k] == v
    ensures forall j :: 0 <= j < k ==> ds[j] != v
  {
    if ds[0] == v then 0
    else
      assert v in ds[1..] by { assert ds == [ds[0]] + ds[1..]; }
      1 + IndexOf(ds[1..], v)
  }

  /** The first position holding the minimum: its value is at most every
      value and strictly below every earlier one. */
  function FirstMinIndex(ds: seq<int>): (k: nat)
    requires |ds| > 0
    ensures k < |ds|
    ensures forall j :: 0 <= j < |ds| ==> ds[k] <= ds[j]
    ensures forall j :: 0 <= j < k ==> ds[k] < ds[j]
  {
    IndexOf(ds, Min(ds))
  }

  /** The safest free candidate and its score, or the default cell with the
      sentinel score when no candidate is free. */
  function LeastDamage(locs: seq<Cell>, s: Snapshot): (r: (Cell, int))
    ensures Unblocked(locs, s.stationary) == [] ==> r == (DefaultSpawn, BlockedDamage)
    ensures Unblocked(locs, s.stationary) != [] ==> r.0 in locs && !s.stationary(r.0)
  {
    var free := Unblocked(locs, s.stationary);
    var ds := Damages(free, s);
    if |ds| > 0 then
      var k := FirstMinIndex(ds);
      assert free[k] in free;
      (free[k], ds[k])
    else (DefaultSpawn, BlockedDamage)
  }

  /** When some candidate is free, the answer is the free candidate at the
      first position holding the minimum score, together with its score:
      no free candidate scores less, and every earlier one scores more. */
  lemma LeastDamageIsFirstMinimum(locs: seq<Cell>, s: Snapshot)
    requires Unblocked(locs, s.stationary) != []
    ensures exists k :: IsFirstMinimum(Unblocked(locs, s.stationary), s, k, LeastDamage(locs, s))
  {
    var free := Unblocked(locs, s.stationary);
    var ds := Damages(free, s);
    var k := FirstMinIndex(ds);
    assert IsFirstMinimum(free, s, k, LeastDamage(locs, s));
  }

  /** `r` is the candidate at position `k` with its score, and position `k`
      is the first one holding the minimum score. */
  predicate IsFirstMinimum(free: seq<Cell>, s: Snapshot, k: int, r: (Cell, int)) {
    0 <= k < |free| && r == (free[k], CandidateDamage(free[k], s))
    && (forall j :: 0 <= j < |free| ==> r.1 <= CandidateDamage(free[j], s))
    && (forall j :: 0 <= j < k ==> r.1 < CandidateDamage(free[j], s))
  }

  /** Three candidates: the first holds a stationary unit, the second's
      three-cell path crosses one cell that two turrets of damage 2 can hit,
      the third's path crosses no attacked cell.  The estimate picks the
      third, with damage 0, and scores the second 4. */
  lemma ThreeCandidates(s: Snapshot)
    requires s.stationary(Cell(13, 0)) && !s.stationary(Cell(14, 0)) && !s.stationary(Cell(15, 1))
    requires s.pathToEdge(Cell(14, 0)) == [Cell(14, 0), Cell(14, 1), Cell(13, 27)]
    requires s.pathToEdge(Cell(15, 1)) == [Cell(15, 1), Cell(14, 27)]
    requires Cell(13, 27) in s.topLeftEdge && Cell(14, 27) in s.topRightEdge
    requires s.attackers(Cell(14, 0)) == 0 && s.attackers(Cell(14, 1)) == 2 && s.attackers(Cell(13, 27)) == 0
    requires s.attackers(Cell(15, 1)) == 0 && s.attackers(Cell(14, 27)) == 0
    requires s.turretDamage == 2
    ensures CandidateDamage(Cell(14, 0), s) == 4
    ensures LeastDamage([Cell(13, 0), Cell(14, 0), Cell(15, 1)], s) == (Cell(15, 1), 0)
  {
    var locs := [Cell(13, 0), Cell(14, 0), Cell(15, 1)];
    assert locs[..2][..1] == [Cell(13, 0)];
    assert locs[..2] == [Cell(13, 0), Cell(14, 0)];
    assert Unblocked([Cell(13, 0)], s.stationary) == [];
    assert Unblocked(locs[..2], s.stationary) == [Cell(14, 0)];
    var free := Unblocked(locs, s.stationary);
    assert free == [Cell(14, 0), Cell(15, 1)];
    var path := s.pathToEdge(Cell(14, 0));
    assert path[..2][..1] == [Cell(14, 0)];
    assert path[..2] == [Cell(14, 0), Cell(14, 1)];
    assert PathDamage(path, s.attackers, 2) == 4;
    assert CandidateDamage(Cell(15, 1), s) == 0;
    var ds := Damages(free, s);
    assert ds == [4, 0];
    assert FirstMinIndex(ds) == 1;
  }

  /** The sentinel is a literal, not an upper bound on real scores: a free
      candidate whose path reaches the top edge but takes more than 1000
      damage loses to a free candidate whose path is blocked. */
  lemma SentinelCanBeChosen(reaching: Cell, blocked: Cell, s: Snapshot)
    requires !s.stationary(reaching) && !s.stationary(blocked)
    requires CandidateDamage(reaching, s) > BlockedDamage
    requires s.pathToEdge(blocked)[|s.pathToEdge(blocked)| - 1] !in EndPoints(s)
    ensures LeastDamage([reaching, blocked], s) == (blocked, BlockedDamage)
  {
  }
}
