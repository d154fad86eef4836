/**
 The two encoder-complexity controllers. A level is an index into comps; level 0 is the best
 quality. Drift fractions are exact reals.
 */
module Adaptive {
  datatype Thresholds = Thresholds(comps: seq<int>, downAt: seq<int>, upAt: seq<int>) {
    ghost predicate WellFormed() {
      |comps| > 0 && |downAt| == |upAt| == |comps| - 1
    }
  }

  /** The level after one decision for load n. */
  function NextLevel(t: Thresholds, level: nat, n: int): (r: nat)
    requires t.WellFormed() && level < |t.comps|
    ensures r < |t.comps|
  {
    if level < |t.comps| - 1 && n >= t.downAt[level] then level + 1
    else if level > 0 && n < t.upAt[level - 1] then level - 1
    else level
  }

  class SessionController {
    const t: Thresholds
    var idx: nat
    var applied: int // what the set callback received last

    ghost predicate Valid()
      reads this
    {
      t.WellFormed() && idx < |t.comps| && applied == t.comps[idx]
    }

    constructor (t: Thresholds)
      requires t.WellFormed()
      ensures Valid() && this.t == t && idx == 0
    {
      this.t := t;
      idx := 0;
      applied := t.comps[0];
    }

    method Step(n: int)
      requires Valid()
      modifies this
      ensures Valid()
      ensures idx == NextLevel(t, old(idx), n)
    {
      if idx < |t.comps| - 1 && n >= t.downAt[idx] {
        idx := idx + 1;
      } else if idx > 0 && n < t.upAt[idx - 1] {
        idx := idx - 1;
      } else {
        return;
      }
      applied := t.comps[idx];
    }

    method Level() returns (c: int)
      requires Valid()
      ensures c == t.comps[idx] == applied
    {
      c := t.comps[idx];
    }
  }

  // ---- Runs of the session controller ----

  function LevelAfter(t: Thresholds, level: nat, loads: seq<int>): (r: nat)
    requires t.WellFormed() && level < |t.comps|
    ensures r < |t.comps|
    decreases |loads|
  {
    if loads == [] then level
    else NextLevel(t, LevelAfter(t, level, loads[..|loads| - 1]), loads[|loads| - 1])
  }

  function Abs(x: int): nat { if x < 0 then -x else x }

  function Variation(loads: seq<int>): nat
    decreases |loads|
  {
    if |loads| < 2 then 0
    else Variation(loads[..|loads| - 1]) + Abs(loads[|loads| - 1] - loads[|loads| - 2])
  }

  /** The moves of the level, oldest first: direction, and the load that caused it. */
  datatype Move = Move(worse: bool, load: int)

  function Moves(t: Thresholds, level: nat, loads: seq<int>): seq<Move>
    requires t.WellFormed() && level < |t.comps|
    decreases |loads|
  {
    if loads == [] then []
    else
      var init := loads[..|loads| - 1];
      var n := loads[|loads| - 1];
      var before := LevelAfter(t, level, init);
      var after := NextLevel(t, before, n);
      Moves(t, level, init) + if after == before then [] else [Move(after > before, n)]
  }

  function Reversals(moves: seq<Move>): nat
    decreases |moves|
  {
    if |moves| < 2 then 0
    else Reversals(moves[..|moves| - 1])
         + if moves[|moves| - 1].worse != moves[|moves| - 2].worse then 1 else 0
  }

  /** What the reversals among the moves cost in load variation. */
  function Toll(moves: seq<Move>, g: nat): nat
    decreases |moves|
  {
    if |moves| < 2 then 0
    else Toll(moves[..|moves| - 1], g) + if moves[|moves| - 1].worse != moves[|moves| - 2].worse then g + 1 else 0
  }

  lemma {:induction false} TollIsProduct(moves: seq<Move>, g: nat)
    ensures Toll(moves, g) == Reversals(moves) * (g + 1)
    decreases |moves|
  {
    if |moves| >= 2 {
      TollIsProduct(moves[..|moves| - 1], g);
      var r := Reversals(moves[..|moves| - 1]);
      assert (r + 1) * (g + 1) == r * (g + 1) + (g + 1);
    }
  }

  ghost predicate Gap(t: Thresholds, g: int)
    requires t.WellFormed()
  {
    forall i :: 0 <= i < |t.downAt| ==> t.downAt[i] - t.upAt[i] >= g
  }

  /** The last move explains the current level: it crossed the boundary just behind it. */
  ghost predicate Explained(t: Thresholds, level: nat, m: Move)
    requires t.WellFormed() && level < |t.comps|
  {
    if m.worse then level > 0 && m.load >= t.downAt[level - 1]
    else level < |t.comps| - 1 && m.load < t.upAt[level]
  }

  /** The moves so far explain the level, and the load's variation has paid for their reversals
      and for the way from the load of the last move to the last load. */
  ghost predicate Paid(t: Thresholds, level: nat, now: nat, loads: seq<int>, ms: seq<Move>, variation: nat, g: nat)
    requires t.WellFormed() && level < |t.comps| && now < |t.comps|
  {
    && (ms == [] ==> now == level)
    && (ms != [] ==>
          && loads != []
          && Explained(t, now, ms[|ms| - 1])
          && variation >= Toll(ms, g) + Abs(loads[|loads| - 1] - ms[|ms| - 1].load))
  }

  lemma {:induction false} VariationPaysForReversals(t: Thresholds, level: nat, loads: seq<int>, g: nat)
    requires t.WellFormed() && level < |t.comps| && Gap(t, g)
    ensures Paid(t, level, LevelAfter(t, level, loads), loads, Moves(t, level, loads), Variation(loads), g)
    decreases |loads|
  {
    if loads != [] {
      var init := loads[..|loads| - 1];
      var n := loads[|loads| - 1];
      VariationPaysForReversals(t, level, init, g);
      var before := LevelAfter(t, level, init);
      var next := NextLevel(t, before, n);
      assert init != [] ==> init[|init| - 1] == loads[|loads| - 2];
      assert Variation(loads) == Variation(init) + if init == [] then 0 else Abs(n - init[|init| - 1]);
      var ms := Moves(t, level, init);
      assert ms + [] == ms;
      hide Variation, Moves, LevelAfter;
      NextIsPaid(t, level, before, init, ms, Variation(init), g, n);
      assert loads == init + [n];
    }
  }

  lemma NextIsPaid(t: Thresholds, level: nat, before: nat, init: seq<int>, ms: seq<Move>, variation: nat,
                   g: nat, n: int)
    requires t.WellFormed() && level < |t.comps| && before < |t.comps| && Gap(t, g)
    requires Paid(t, level, before, init, ms, variation, g)
    ensures var next := NextLevel(t, before, n);
            Paid(t, level, next, init + [n], if next == before then ms else ms + [Move(next > before, n)],
                 variation + if init == [] then 0 else Abs(n - init[|init| - 1]), g)
  {
    var next := NextLevel(t, before, n);
    if next != before {
      var m := Move(next > before, n);
      TollSnoc(ms, m, g);
      MoveIsExplained(t, before, n);
      if ms != [] && m.worse != ms[|ms| - 1].worse {
        ReversalCosts(t, before, ms[|ms| - 1], n, g);
      }
      hide Toll, NextLevel, Gap, Explained;
      assert (ms + [m])[|ms|] == m;
    }
  }

  lemma TollSnoc(ms: seq<Move>, m: Move, g: nat)
    ensures Toll(ms + [m], g) == if ms == [] then 0
                                 else Toll(ms, g) + if m.worse != ms[|ms| - 1].worse then g + 1 else 0
  {
    assert (ms + [m])[..|ms|] == ms;
  }

  lemma MoveIsExplained(t: Thresholds, level: nat, n: int)
    requires t.WellFormed() && level < |t.comps| && NextLevel(t, level, n) != level
    ensures var next := NextLevel(t, level, n); Explained(t, next, Move(next > level, n))
  {
  }

  /** Turning round needs a load change larger than the gap of the boundary crossed twice. */
  lemma ReversalCosts(t: Thresholds, level: nat, last: Move, n: int, g: int)
    requires t.WellFormed() && level < |t.comps| && Gap(t, g) && Explained(t, level, last)
    requires NextLevel(t, level, n) != level && (NextLevel(t, level, n) > level) != last.worse
    ensures Abs(n - last.load) >= g + 1
  {
    var i := if last.worse then level - 1 else level;
    assert t.downAt[i] - t.upAt[i] >= g;
  }

  /** No flapping: direction reversals times (smallest gap + 1) never exceed the total variation
      of the load. */
  lemma NoFlapping(t: Thresholds, level: nat, loads: seq<int>, g: nat)
    requires t.WellFormed() && level < |t.comps| && Gap(t, g)
    ensures Reversals(Moves(t, level, loads)) * (g + 1) <= Variation(loads)
  {
    VariationPaysForReversals(t, level, loads, g);
    TollIsProduct(Moves(t, level, loads), g);
  }

  function Constant(n: int, k: nat): seq<int> { seq(k, _ => n) }

  /** Load n drives the controller down across boundary i and, not holding it below, up again. */
  predicate Trap(t: Thresholds, n: int, i: nat)
    requires t.WellFormed() && i < |t.downAt|
  {
    t.downAt[i] <= n < t.upAt[i] && (i + 1 == |t.downAt| || n < t.downAt[i + 1])
  }

  ghost predicate NoTrap(t: Thresholds, n: int)
    requires t.WellFormed()
  {
    forall i :: 0 <= i < |t.downAt| ==> !Trap(t, n, i)
  }

  /** Without a trap a constant load only ever moves the level one way, and the level stands
      still for good after at most |comps|-1 decisions. */
  lemma {:induction false} ConstantLoadSettles(t: Thresholds, level: nat, n: int, k: nat)
    requires t.WellFormed() && level < |t.comps| && NoTrap(t, n)
    ensures var l := LevelAfter(t, level, Constant(n, k));
            var next := NextLevel(t, l, n);
            && (next > l ==> l == level + k)
            && (next < l ==> l == level - k)
            && (k >= |t.comps| - 1 ==> next == l)
    decreases k
  {
    if k > 0 {
      assert Constant(n, k)[..k - 1] == Constant(n, k - 1);
      ConstantLoadSettles(t, level, n, k - 1);
      NoTurningBack(t, LevelAfter(t, level, Constant(n, k - 1)), n);
    }
  }

  lemma NoTurningBack(t: Thresholds, l: nat, n: int)
    requires t.WellFormed() && l < |t.comps| && NoTrap(t, n)
    ensures var m := NextLevel(t, l, n);
            && (m > l ==> NextLevel(t, m, n) >= m)
            && (m < l ==> NextLevel(t, m, n) <= m)
  {
    assert l < |t.downAt| ==> !Trap(t, n, l);
    assert l > 0 ==> !Trap(t, n, l - 1);
  }

  function Parity(k: nat): (r: nat)
    ensures r <= 1
  {
    if k == 0 then 0 else 1 - Parity(k - 1)
  }

  /** In a trap the level goes to and fro between i and i + 1 for ever: every decision but the
      first is a reversal. */
  lemma {:induction false} TrapFlaps(t: Thresholds, n: int, i: nat, k: nat)
    requires t.WellFormed() && i < |t.downAt| && Trap(t, n, i)
    ensures LevelAfter(t, i, Constant(n, k)) == i + Parity(k)
    ensures var ms := Moves(t, i, Constant(n, k));
            && |ms| == k && (k > 0 ==> ms[k - 1].worse == (Parity(k) == 1))
            && Reversals(ms) == if k == 0 then 0 else k - 1
    decreases k
  {
    if k > 0 {
      TrapStep(t, n, i);
      hide NextLevel, Trap, LevelAfter, Moves, Constant, Reversals;
      TrapFlaps(t, n, i, k - 1);
      ConstantSnoc(n, k);
      OneMoreLoad(t, i, Constant(n, k - 1), n);
      OneMoreMove(Moves(t, i, Constant(n, k - 1)), Move(Parity(k) == 1, n));
    } else {
      NoMove();
    }
  }

  lemma NoMove()
    ensures Reversals([]) == 0
  {
  }

  lemma ConstantSnoc(n: int, k: nat)
    requires k > 0
    ensures Constant(n, k) == Constant(n, k - 1) + [n]
  {
  }

  lemma OneMoreLoad(t: Thresholds, level: nat, loads: seq<int>, n: int)
    requires t.WellFormed() && level < |t.comps|
    ensures var before := LevelAfter(t, level, loads);
            var after := NextLevel(t, before, n);
            && LevelAfter(t, level, loads + [n]) == after
            && Moves(t, level, loads + [n]) ==
               Moves(t, level, loads) + if after == before then [] else [Move(after > before, n)]
  {
    hide NextLevel;
    assert (loads + [n])[..|loads|] == loads;
  }

  lemma OneMoreMove(ms: seq<Move>, m: Move)
    ensures Reversals(ms + [m]) == Reversals(ms) + if ms != [] && m.worse != ms[|ms| - 1].worse then 1 else 0
  {
    assert (ms + [m])[..|ms|] == ms;
  }

  lemma {:induction false} ParityIsModulo(k: nat)
    ensures Parity(k) == k % 2
    decreases k
  {
    if k > 0 { ParityIsModulo(k - 1); }
  }

  lemma TrapStep(t: Thresholds, n: int, i: nat)
    requires t.WellFormed() && i < |t.downAt| && Trap(t, n, i)
    ensures NextLevel(t, i, n) == i + 1 && NextLevel(t, i + 1, n) == i
  {
  }

  ghost predicate Settles(t: Thresholds, n: int)
    requires t.WellFormed()
  {
    forall level: nat, k: nat :: level < |t.comps| && k >= |t.comps| - 1 ==>
      LevelAfter(t, level, Constant(n, k)) == LevelAfter(t, level, Constant(n, |t.comps| - 1))
  }

  /** A constant load settles from every level, within one decision less than there are levels,
      if and only if no boundary traps it. */
  lemma SettlesExactly(t: Thresholds, n: int)
    requires t.WellFormed()
    ensures Settles(t, n) <==> NoTrap(t, n)
  {
    if NoTrap(t, n) {
      forall level: nat, k: nat | level < |t.comps| && k >= |t.comps| - 1
        ensures LevelAfter(t, level, Constant(n, k)) == LevelAfter(t, level, Constant(n, |t.comps| - 1))
      {
        StandsStill(t, level, n, k);
      }
    } else {
      var i :| 0 <= i < |t.downAt| && Trap(t, n, i);
      TrapNeverSettles(t, n, i);
    }
  }

  lemma TrapNeverSettles(t: Thresholds, n: int, i: nat)
    requires t.WellFormed() && i < |t.downAt| && Trap(t, n, i)
    ensures !Settles(t, n)
  {
    hide LevelAfter, Trap, Constant;
    var k := |t.comps| - 1;
    TrapFlaps(t, n, i, k);
    TrapFlaps(t, n, i, k + 1);
    assert Parity(k + 1) != Parity(k);
  }

  lemma {:induction false} StandsStill(t: Thresholds, level: nat, n: int, k: nat)
    requires t.WellFormed() && level < |t.comps| && NoTrap(t, n) && k >= |t.comps| - 1
    ensures LevelAfter(t, level, Constant(n, k)) == LevelAfter(t, level, Constant(n, |t.comps| - 1))
    decreases k
  {
    if k > |t.comps| - 1 {
      assert Constant(n, k)[..k - 1] == Constant(n, k - 1);
      StandsStill(t, level, n, k - 1);
      ConstantLoadSettles(t, level, n, k - 1);
    }
  }

  /** The configurations under which every constant load settles. The order of the thresholds the
      documentation asks for is enough; a boundary may break it only if the next one takes over
      no later. */
  lemma SafeThresholdsExactly(t: Thresholds)
    requires t.WellFormed()
    ensures (forall n :: Settles(t, n)) <==>
            forall i :: 0 <= i < |t.downAt| ==>
              t.upAt[i] <= t.downAt[i] || (i + 1 < |t.downAt| && t.downAt[i + 1] <= t.downAt[i])
  {
    hide Settles;
    if forall n :: Settles(t, n) {
      forall i | 0 <= i < |t.downAt|
        ensures t.upAt[i] <= t.downAt[i] || (i + 1 < |t.downAt| && t.downAt[i + 1] <= t.downAt[i])
      {
        SettlesExactly(t, t.downAt[i]);
        assert !Trap(t, t.downAt[i], i);
      }
    } else {
      var n :| !Settles(t, n);
      SettlesExactly(t, n);
      var i :| 0 <= i < |t.downAt| && Trap(t, n, i);
    }
  }

  lemma GapsExcludeTraps(t: Thresholds, n: int)
    requires t.WellFormed() && Gap(t, 0)
    ensures NoTrap(t, n)
  {
    assert forall i :: 0 <= i < |t.downAt| ==> t.upAt[i] <= t.downAt[i];
  }

  /** With thresholds in the documented order every constant load settles, moving one way only. */
  lemma DocumentedOrderSettles(t: Thresholds, level: nat, n: int, k: nat)
    requires t.WellFormed() && level < |t.comps| && Gap(t, 0)
    ensures Settles(t, n)
    ensures var l := LevelAfter(t, level, Constant(n, k));
            var next := NextLevel(t, l, n);
            && (next > l ==> l == level + k)
            && (next < l ==> l == level - k)
            && (k >= |t.comps| - 1 ==> next == l)
  {
    GapsExcludeTraps(t, n);
    SettlesExactly(t, n);
    ConstantLoadSettles(t, level, n, k);
  }

  /** With two levels a load between inverted thresholds reverses at every decision. */
  lemma InvertedThresholdsFlap(t: Thresholds, n: int, k: nat)
    requires t.WellFormed() && |t.comps| == 2 && t.downAt[0] <= n < t.upAt[0]
    ensures LevelAfter(t, 0, Constant(n, k)) == k % 2
    ensures var ms := Moves(t, 0, Constant(n, k));
            && |ms| == k && (k > 0 ==> ms[k - 1].worse == (k % 2 == 1))
            && Reversals(ms) == if k == 0 then 0 else k - 1
  {
    assert Trap(t, n, 0);
    TrapFlaps(t, n, 0, k);
    ParityIsModulo(k);
  }

  // ---- The drift controller ----

  datatype DriftConfig = DriftConfig(levels: nat, highWM: real, lowWM: real, dwell: int)

  datatype DriftState = DriftState(idx: nat, since: nat)

  function DriftStep(c: DriftConfig, s: DriftState, drift: real): DriftState {
    if s.since + 1 < c.dwell then s.(since := s.since + 1)
    else if drift > c.highWM && s.idx < c.levels - 1 then DriftState(s.idx + 1, 0)
    else if drift < c.lowWM && s.idx > 0 then DriftState(s.idx - 1, 0)
    else s.(since := s.since + 1)
  }

  class DriftController {
    const comps: seq<int>
    const highWM: real
    const lowWM: real
    const dwell: int
    var idx: nat
    var since: nat
    var applied: int

    ghost predicate Valid()
      reads this
    {
      idx < |comps| && applied == comps[idx]
    }

    ghost function Config(): DriftConfig {
      DriftConfig(|comps|, highWM, lowWM, dwell)
    }

    constructor (comps: seq<int>, highWM: real, lowWM: real, dwell: int)
      requires |comps| > 0
      ensures Valid() && Config() == DriftConfig(|comps|, highWM, lowWM, dwell) && this.comps == comps
      ensures idx == 0 && since == 0
    {
      this.comps, this.highWM, this.lowWM, this.dwell := comps, highWM, lowWM, dwell;
      idx, since, applied := 0, 0, comps[0];
    }

    method Step(drift: real)
      requires Valid()
      modifies this
      ensures Valid()
      ensures DriftState(idx, since) == DriftStep(Config(), DriftState(old(idx), old(since)), drift)
    {
      since := since + 1;
      if since < dwell {
        return;
      }
      if drift > highWM && idx < |comps| - 1 {
        idx := idx + 1;
      } else if drift < lowWM && idx > 0 {
        idx := idx - 1;
      } else {
        return;
      }
      applied := comps[idx];
      since := 0;
    }
  }

  function DriftAfter(c: DriftConfig, s: DriftState, drifts: seq<real>): DriftState
    decreases |drifts|
  {
    if drifts == [] then s
    else DriftStep(c, DriftAfter(c, s, drifts[..|drifts| - 1]), drifts[|drifts| - 1])
  }

  function Changes(c: DriftConfig, s: DriftState, drifts: seq<real>): nat
    decreases |drifts|
  {
    if drifts == [] then 0
    else
      var init := drifts[..|drifts| - 1];
      Changes(c, s, init) + if DriftAfter(c, s, drifts).idx != DriftAfter(c, s, init).idx then 1 else 0
  }

  /** Damping: over any ticks from a fresh start, changes times dwell never exceed the ticks, and
      every change is one level, in the direction the watermark that was crossed asks for. */
  lemma {:induction false} DwellBoundsChanges(c: DriftConfig, s: DriftState, drifts: seq<real>)
    requires c.dwell >= 0 && s.since == 0
    ensures Changes(c, s, drifts) * c.dwell + DriftAfter(c, s, drifts).since <= |drifts|
    ensures drifts != [] ==>
              var before := DriftAfter(c, s, drifts[..|drifts| - 1]).idx;
              var after := DriftAfter(c, s, drifts).idx;
              var d := drifts[|drifts| - 1];
              && (after > before ==> after == before + 1 && d > c.highWM)
              && (after < before ==> after == before - 1 && d < c.lowWM)
    decreases |drifts|
  {
    if drifts != [] {
      var init := drifts[..|drifts| - 1];
      DwellBoundsChanges(c, s, init);
      OneMoreTimes(Changes(c, s, init), c.dwell);
    }
  }

  lemma OneMoreTimes(k: nat, d: int)
    ensures (k + 1) * d == k * d + d
  {
  }

  // ---- recentDrift: share of late frames between two snapshots ----

  const LATE := ">=30ms"
  const TWO64 := 0x1_0000_0000_0000_0000

  type Counters = map<string, nat>

  function At(m: Counters, k: string): nat { if k in m then m[k] else 0 }

  /** Unsigned 64-bit difference. */
  function Delta(last: Counters, cur: Counters, k: string): nat {
    (At(cur, k) - At(last, k)) % TWO64
  }

  ghost function Total(last: Counters, cur: Counters, ks: set<string>): nat {
    if ks == {} then 0
    else var k :| k in ks; Delta(last, cur, k) + Total(last, cur, ks - {k})
  }

  lemma {:induction false} TotalSplit(last: Counters, cur: Counters, ks: set<string>, x: string)
    requires x in ks
    ensures Total(last, cur, ks) == Delta(last, cur, x) + Total(last, cur, ks - {x})
    decreases ks
  {
    var k :| k in ks && Total(last, cur, ks) == Delta(last, cur, k) + Total(last, cur, ks - {k});
    if k != x {
      TotalSplit(last, cur, ks - {k}, x);
      TotalSplit(last, cur, ks - {x}, k);
      assert ks - {k} - {x} == ks - {x} - {k};
    }
  }

  /** The loop over the histogram, in whatever order the map is traversed. */
  method SumDeltas(last: Counters, cur: Counters) returns (total: nat)
    ensures total == Total(last, cur, cur.Keys) % TWO64
  {
    total := 0;
    var todo := cur.Keys;
    ghost var all := Total(last, cur, cur.Keys);
    while todo != {}
      invariant todo <= cur.Keys
      invariant total == (all - Total(last, cur, todo)) % TWO64
    {
      var k :| k in todo;
      TotalSplit(last, cur, todo, k);
      AddModulo(all - Total(last, cur, todo), Delta(last, cur, k));
      total := (total + Delta(last, cur, k)) % TWO64;
      todo := todo - {k};
    }
  }

  /** The result is the exact share, and a fraction whenever the true total fits in 64 bits. */
  method RecentDrift(last: Counters, cur: Counters) returns (r: real)
    ensures var total := Total(last, cur, cur.Keys) % TWO64;
            r == if total == 0 then 0.0 else Delta(last, cur, LATE) as real / total as real
    ensures LATE in cur && Total(last, cur, cur.Keys) < TWO64 ==> 0.0 <= r <= 1.0
  {
    var total := SumDeltas(last, cur);
    if total == 0 {
      return 0.0;
    }
    var late := Delta(last, cur, LATE);
    r := late as real / total as real;
    Share(late, total);
    if LATE in cur && Total(last, cur, cur.Keys) < TWO64 {
      TotalSplit(last, cur, cur.Keys, LATE);
    }
  }

  lemma AddModulo(a: int, d: int)
    ensures (a % TWO64 + d) % TWO64 == (a + d) % TWO64
  {
    var q := a / TWO64;
    assert a + d == (a % TWO64 + d) + q * TWO64;
    MultipleVanishes(a % TWO64 + d, q);
  }

  lemma MultipleVanishes(x: int, q: int)
    ensures (x + q * TWO64) % TWO64 == x % TWO64
  {
  }

  lemma Share(part: nat, total: nat)
    requires total > 0
    ensures 0.0 <= part as real / total as real
    ensures part <= total ==> part as real / total as real <= 1.0
  {
  }

  // ---- The controllers do move ----

  /** A load at or above every threshold degrades one level per decision, to the last. */
  lemma {:induction false} HeavyLoadDegrades(t: Thresholds, level: nat, n: int, k: nat)
    requires t.WellFormed() && level < |t.comps|
    requires forall i :: 0 <= i < |t.downAt| ==> n >= t.downAt[i] && n >= t.upAt[i]
    ensures LevelAfter(t, level, Constant(n, k)) == if level + k < |t.comps| then level + k else |t.comps| - 1
    decreases k
  {
    if k > 0 {
      HeavyLoadDegrades(t, level, n, k - 1);
      ConstantSnoc(n, k);
      OneMoreLoad(t, level, Constant(n, k - 1), n);
    }
  }

  /** A load below every threshold restores one level per decision, to the best. */
  lemma {:induction false} LightLoadRestores(t: Thresholds, level: nat, n: int, k: nat)
    requires t.WellFormed() && level < |t.comps|
    requires forall i :: 0 <= i < |t.downAt| ==> n < t.downAt[i] && n < t.upAt[i]
    ensures LevelAfter(t, level, Constant(n, k)) == if k <= level then level - k else 0
    decreases k
  {
    if k > 0 {
      LightLoadRestores(t, level, n, k - 1);
      ConstantSnoc(n, k);
      OneMoreLoad(t, level, Constant(n, k - 1), n);
    }
  }

  /** The drift controller moves at a tick exactly when the dwell is over and a watermark is crossed
      with a level left in that direction; otherwise one more tick has passed. */
  lemma DriftMovesExactly(c: DriftConfig, s: DriftState, drift: real)
    requires s.idx < c.levels && c.lowWM <= c.highWM
    ensures var r := DriftStep(c, s, drift);
            var ready := s.since + 1 >= c.dwell;
            && (r.idx == s.idx + 1 <==> ready && drift > c.highWM && s.idx + 1 < c.levels)
            && (r.idx == s.idx - 1 <==> ready && drift < c.lowWM && s.idx > 0)
            && (r.idx == s.idx ==> r.since == s.since + 1) && (r.idx != s.idx ==> r.since == 0)
  {
  }

  /** High drift from a fresh start: one level less quality every dwell ticks, down to the last. */
  lemma {:induction false} HighDriftDegrades(c: DriftConfig, idx: nat, drift: real, k: nat)
    requires idx < c.levels && c.dwell > 0 && drift > c.highWM >= c.lowWM
    ensures var s := DriftAfter(c, DriftState(idx, 0), seq(k, _ => drift));
            if idx + k / c.dwell < c.levels - 1
            then s == DriftState(idx + k / c.dwell, k % c.dwell) else s.idx == c.levels - 1
    decreases k
  {
    if k > 0 {
      var drifts := seq(k, _ => drift);
      assert drifts[..k - 1] == seq(k - 1, _ => drift);
      HighDriftDegrades(c, idx, drift, k - 1);
      DivideNext(k - 1, c.dwell);
    }
  }

  lemma DivideNext(k: nat, d: nat)
    requires d > 0
    ensures if k % d == d - 1 then (k + 1) / d == k / d + 1 && (k + 1) % d == 0
            else (k + 1) / d == k / d && (k + 1) % d == k % d + 1
  {
    var q, r := k / d, k % d;
    assert k == q * d + r;
    if r == d - 1 {
      assert k + 1 == (q + 1) * d by { OneMoreTimes(q, d); }
      QuotientIs(k + 1, q + 1, 0, d);
    } else {
      QuotientIs(k + 1, q, r + 1, d);
    }
  }

  lemma QuotientIs(n: nat, q: nat, r: nat, d: nat)
    requires d > 0 && r < d && n == q * d + r
    ensures n / d == q && n % d == r
  {
    var p := n / d;
    assert n == p * d + n % d;
    if p > q {
      OneMoreTimes(q, d);
      TimesGrow(q + 1, p, d);
    }
    if p < q {
      OneMoreTimes(p, d);
      TimesGrow(p + 1, q, d);
    }
  }

  lemma TimesGrow(x: nat, y: nat, d: nat)
    requires x <= y
    ensures x * d <= y * d
  {
  }

  /** When every bucket has grown by a number of frames, however often its counter has wrapped, the
      share is exact: late frames over all frames. */
  lemma DeltaIsGrowth(last: Counters, cur: Counters, k: string, grown: nat)
    requires grown < TWO64 && At(cur, k) == (At(last, k) + grown) % TWO64 && At(last, k) < TWO64
    ensures Delta(last, cur, k) == grown
  {
    if At(last, k) + grown >= TWO64 {
      MultipleVanishes(At(last, k) + grown - TWO64, 1);
      MultipleVanishes(grown - TWO64, 1);
    }
  }
}
