/**
 Barge-in makes progress: the wait for the cancelled generation and the drain of recvCh, with
 every other generation and the consumer going on meanwhile.
 */
module BargeInProgress {
  import opened Common
  import opened Segments
  import opened Generation
  import opened BargeIn

  // ---- What is left to do, over all generations ----

  function Plus(a: Measure, b: Measure): Measure {
    Measure(a.phase + b.phase, a.tokens + b.tokens, a.segments + b.segments, a.audio + b.audio)
  }

  function Total(gens: seq<Gen>): Measure {
    if gens == [] then Measure(0, 0, 0, 0) else Plus(Left(gens[0]), Total(gens[1..]))
  }

  /** Generations that have not ended. */
  function Unfinished(gens: seq<Gen>): nat {
    if gens == [] then 0 else (if gens[0].phase == Finished then 0 else 1) + Unfinished(gens[1..])
  }

  lemma {:induction false} TotalUpdate(gens: seq<Gen>, k: nat, g: Gen)
    requires k < |gens|
    ensures Plus(Total(gens[k := g]), Left(gens[k])) == Plus(Total(gens), Left(g))
    ensures Unfinished(gens[k := g]) ==
            Unfinished(gens) - (if gens[k].phase == Finished then 0 else 1) + (if g.phase == Finished then 0 else 1)
    decreases |gens|
  {
    hide Left;
    if k > 0 {
      TotalUpdate(gens[1..], k - 1, g);
      assert gens[k := g][1..] == gens[1..][k - 1 := g];
    } else {
      assert gens[k := g][1..] == gens[1..];
    }
  }

  lemma {:induction false} SomeUnfinished(gens: seq<Gen>, k: nat)
    requires k < |gens| && gens[k].phase != Finished
    ensures Unfinished(gens) > 0
    decreases |gens|
  {
    if k > 0 { SomeUnfinished(gens[1..], k - 1); }
  }

  lemma BelowInSum(m: Measure, n: Measure, x: Measure, y: Measure)
    requires Below(x, y) && Plus(m, y) == Plus(n, x)
    ensures Below(m, n)
  {
  }

  function Rank(l: Loop): nat {
    match l
    case Selecting => 0
    case Emptying(_) => 1
    case Awaiting(_) => 2
  }

  /** s has less left to do than r: first the loop, then the generations, then recvCh. */
  ghost predicate Less(s: Sys, r: Sys) {
    || Rank(s.loop) < Rank(r.loop)
    || (Rank(s.loop) == Rank(r.loop) && Below(Total(s.gens), Total(r.gens)))
    || (Rank(s.loop) == Rank(r.loop) && Total(s.gens) == Total(r.gens) && |s.recv| < |r.recv|)
  }

  // ---- bargeIn under way ----

  /** There will be room in modelTurnCh for the reply of every generation that has not ended. */
  ghost predicate RoomForAll(s: Sys) {
    |s.turns| + Unfinished(s.gens) <= TURN_CAP
  }

  /** Until bargeIn returns every step, of whatever goroutine, leaves less to do, keeps the
      generation waited for, and keeps room for all. */
  lemma BusyStepShrinks(h: Hooks, s: Sys, t: Step)
    requires Inv(h, s) && !s.loop.Selecting? && Can(s, t)
    ensures var r := Did(h, s, t);
            && Less(r, s)
            && (r.loop.Selecting? || r.loop.captured == s.loop.captured)
            && (RoomForAll(s) ==> RoomForAll(r))
  {
    hide GenInv, Flatten, Apply, Enabled, Left, Below;
    if t.Of? {
      var g := s.gens[t.k];
      var x := Apply(h, g, t.act);
      ActKeepsPhase(h, g, t.act, |s.recv| < RECV_CAP, |s.turns| < TURN_CAP);
      StepShrinks(h, g, t.act);
      TotalUpdate(s.gens, t.k, x);
      BelowInSum(Total(s.gens[t.k := x]), Total(s.gens), Left(x), Left(g));
      HandBackEnds(h, g, t.act);
      HandBackStarts(g, t.act, |s.recv| < RECV_CAP, |s.turns| < TURN_CAP);
    }
  }

  lemma HandBackStarts(g: Gen, a: Act, recvRoom: bool, turnRoom: bool)
    requires Enabled(g, a, recvRoom, turnRoom)
    ensures a == HandBack ==> g.phase != Finished
  {
  }

  /** What run() or the generation it waits for can do next. */
  function NextStep(s: Sys): Step
    requires s.loop.Awaiting? && s.loop.captured.Some? ==> s.loop.captured.value < |s.gens|
  {
    match s.loop
    case Selecting => BargeIn
    case Emptying(_) => if s.recv == [] then BargeReturns else Drop
    case Awaiting(None) => DoneSeen
    case Awaiting(Some(k)) => if s.gens[k].phase == Finished then DoneSeen else Of(k, NextAct(s.gens[k]))
  }

  ghost predicate Steps(h: Hooks, states: nat -> Sys, steps: nat -> Step, i: nat) {
    Can(states(i), steps(i)) && states(i + 1) == Did(h, states(i), steps(i))
  }

  /** No run takes steps in bargeIn for ever, whatever the generations, stages and consumer do. It
      may still come to a stop there when a reply has no room. */
  lemma {:induction false} NoEndlessBargeIn(h: Hooks, states: nat -> Sys, steps: nat -> Step, from: nat)
    requires Inv(h, states(from))
    ensures exists i: nat :: from <= i && (states(i).loop.Selecting? || !Steps(h, states, steps, i))
    decreases Rank(states(from).loop), Total(states(from).gens).phase, Total(states(from).gens).tokens,
              Total(states(from).gens).segments, Total(states(from).gens).audio, |states(from).recv|
  {
    hide Inv, Can, Did, Total;
    if !states(from).loop.Selecting? && Steps(h, states, steps, from) {
      BusyStepShrinks(h, states(from), steps(from));
      StepKeepsInv(h, states(from), steps(from));
      NoEndlessBargeIn(h, states, steps, from + 1);
    }
  }

  /** A schedule stops only when nothing can be done. */
  ghost predicate Maximal(h: Hooks, states: nat -> Sys, steps: nat -> Step) {
    forall i: nat :: !Steps(h, states, steps, i) ==> forall t :: !Can(states(i), t)
  }

  lemma {:induction false} FirstStop(h: Hooks, states: nat -> Sys, steps: nat -> Step, m: nat) returns (n: nat)
    requires !Steps(h, states, steps, m)
    ensures n <= m && !Steps(h, states, steps, n) && forall i: nat :: i < n ==> Steps(h, states, steps, i)
    decreases m
  {
    hide Steps;
    if i: nat :| i < m && !Steps(h, states, steps, i) {
      n := FirstStop(h, states, steps, i);
    } else {
      n := m;
    }
  }

  /** With one generation in flight, its handle installed, room for all is one free slot. */
  lemma OneInFlightHasRoom(h: Hooks, s: Sys)
    requires LoopInv(s) && OneInFlight(s) && |s.turns| < TURN_CAP
    ensures RoomForAll(s)
  {
    var only := if s.loop == Selecting then s.handle else s.loop.captured;
    var k := if only.Some? then only.value else |s.gens|;
    forall i | 0 <= i < |s.gens| && i != k ensures s.gens[i].phase == Finished {
      assert Ended(s, i);
    }
    AtMostOne(s.gens, k);
  }

  lemma {:induction false} AtMostOne(gens: seq<Gen>, k: nat)
    requires forall i :: 0 <= i < |gens| && i != k ==> gens[i].phase == Finished
    ensures Unfinished(gens) <= 1
    ensures k >= |gens| ==> Unfinished(gens) == 0
    decreases |gens|
  {
    if gens != [] {
      AtMostOne(gens[1..], if k > 0 then k - 1 else |gens|);
    }
  }
}
