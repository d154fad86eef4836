/**
 The exact condition for barge-in to come back in every schedule, over all generations in flight.
 A schedule that never comes back is built where the condition fails.
 */
module Returning {
  import opened Common
  import opened Segments
  import opened Generation
  import opened BargeIn
  import opened BargeInProgress

  /** The generation may still hand back a reply with text. */
  predicate MayReply(g: Gen) {
    match g.phase
    case Spawned => true
    case Installed => true
    case Finished => false
    case Streaming => Flatten(g.received) != "" || Flatten(g.deltas) != ""
  }

  function Replies(gens: seq<Gen>): nat {
    if gens == [] then 0 else (if MayReply(gens[0]) then 1 else 0) + Replies(gens[1..])
  }

  lemma {:induction false} RepliesUpdate(gens: seq<Gen>, k: nat, g: Gen)
    requires k < |gens|
    ensures Replies(gens[k := g]) ==
            Replies(gens) - (if MayReply(gens[k]) then 1 else 0) + (if MayReply(g) then 1 else 0)
    decreases |gens|
  {
    hide MayReply;
    if k > 0 {
      RepliesUpdate(gens[1..], k - 1, g);
      assert gens[k := g][1..] == gens[1..][k - 1 := g];
    } else {
      assert gens[k := g][1..] == gens[1..];
    }
  }

  lemma {:induction false} RepliesAtLeast(gens: seq<Gen>, k: nat)
    requires k < |gens| && MayReply(gens[k])
    ensures Replies(gens) >= 1
    ensures Replies(gens) > 1 ==> exists j :: 0 <= j < |gens| && j != k && MayReply(gens[j])
    decreases |gens|
  {
    hide MayReply;
    if k > 0 {
      RepliesAtLeast(gens[1..], k - 1);
      if j :| 0 <= j < |gens| - 1 && j != k - 1 && MayReply(gens[1..][j]) {
        assert MayReply(gens[j + 1]);
      }
      if MayReply(gens[0]) { assert MayReply(gens[0]) && 0 != k; }
    } else if Replies(gens[1..]) > 0 {
      var j := SomeReply(gens[1..]);
      assert MayReply(gens[j + 1]);
    }
  }

  lemma {:induction false} SomeReply(gens: seq<Gen>) returns (j: nat)
    requires Replies(gens) > 0
    ensures j < |gens| && MayReply(gens[j])
    decreases |gens|
  {
    hide MayReply;
    if MayReply(gens[0]) {
      j := 0;
    } else {
      j := SomeReply(gens[1..]);
      j := j + 1;
    }
  }

  // ---- Where it always comes back ----

  /** The generation waited for has no reply to hand back, or there is room for its reply and for
      all others that may still come. */
  ghost predicate ReplyRoom(s: Sys) {
    s.loop.Awaiting? && s.loop.captured.Some? && s.loop.captured.value < |s.gens| ==>
      !MayReply(s.gens[s.loop.captured.value]) || |s.turns| + Replies(s.gens) <= TURN_CAP
  }

  /** No step but the start of a generation makes a reply possible that was not. */
  lemma ActKeepsReply(h: Hooks, g: Gen, a: Act, recvRoom: bool, turnRoom: bool)
    requires Enabled(g, a, recvRoom, turnRoom)
    ensures !MayReply(g) ==> !MayReply(Apply(h, g, a))
    ensures a == HandBack && Flatten(g.received) != "" ==> MayReply(g) && !MayReply(Apply(h, g, a))
  {
    hide Token, EndsSentence, Flatten;
    FlattenNone();
    if a == Receive {
      ReceivedText(g);
    }
  }

  lemma FlattenNone()
    ensures Flatten<char>([]) == ""
  {
  }

  lemma ReceivedText(g: Gen)
    requires g.deltas != []
    ensures Flatten(g.received + [g.deltas[0]]) == Flatten(g.received) + g.deltas[0]
    ensures Flatten(g.deltas) == g.deltas[0] + Flatten(g.deltas[1..])
  {
    FlattenSnoc(g.received, g.deltas[0]);
  }

  lemma StepKeepsReplyRoom(h: Hooks, s: Sys, t: Step)
    requires Inv(h, s) && !s.loop.Selecting? && Can(s, t) && ReplyRoom(s)
    ensures ReplyRoom(Did(h, s, t))
  {
    hide GenInv, Flatten, Apply, Enabled, MayReply;
    if t.Of? {
      var g := s.gens[t.k];
      ActKeepsReply(h, g, t.act, |s.recv| < RECV_CAP, |s.turns| < TURN_CAP);
      RepliesUpdate(s.gens, t.k, Apply(h, g, t.act));
    }
  }

  lemma RoomNeverStuck(h: Hooks, s: Sys)
    requires Inv(h, s) && !s.loop.Selecting? && ReplyRoom(s)
    ensures Can(s, NextStep(s))
  {
    hide GenInv, Flatten, Apply, Enabled, NextAct;
    if s.loop.Awaiting? && s.loop.captured.Some? && s.gens[s.loop.captured.value].phase != Finished {
      var k := s.loop.captured.value;
      var g := s.gens[k];
      SilentReply(g);
      if MayReply(g) { RepliesAtLeast(s.gens, k); }
      hide MayReply;
      CancelledNeverStuck(h, g, |s.turns| < TURN_CAP);
      MoreRoom(g, NextAct(g), |s.recv| < RECV_CAP, |s.turns| < TURN_CAP);
    }
  }

  lemma SilentReply(g: Gen)
    ensures !MayReply(g) && g.phase != Finished ==> Flatten(g.received) == ""
  {
  }

  lemma {:induction false} ReplyRoomStays(h: Hooks, states: nat -> Sys, steps: nat -> Step, n: nat)
    requires Inv(h, states(0)) && ReplyRoom(states(0))
    requires forall i: nat :: i < n ==> !states(i).loop.Selecting? && Steps(h, states, steps, i)
    ensures Inv(h, states(n)) && ReplyRoom(states(n))
    decreases n
  {
    hide Inv, Can, Did, ReplyRoom;
    if n > 0 {
      ReplyRoomStays(h, states, steps, n - 1);
      assert Steps(h, states, steps, n - 1);
      StepKeepsReplyRoom(h, states(n - 1), steps(n - 1));
      StepKeepsInv(h, states(n - 1), steps(n - 1));
    }
  }

  ghost predicate AlwaysReturns(h: Hooks, s: Sys) {
    forall states: nat -> Sys, steps: nat -> Step :: states(0) == s && Maximal(h, states, steps) ==>
      exists n: nat :: states(n).loop.Selecting?
  }

  lemma RoomReturns(h: Hooks, s: Sys)
    requires Inv(h, s) && ReplyRoom(s)
    ensures AlwaysReturns(h, s)
  {
    hide Inv, Can, Did, ReplyRoom, Run, After;
    forall states: nat -> Sys, steps: nat -> Step | states(0) == s && Maximal(h, states, steps)
      ensures exists n: nat :: states(n).loop.Selecting?
    {
      if forall n: nat :: !states(n).loop.Selecting? {
        NoEndlessBargeIn(h, states, steps, 0);
        var m: nat :| !Steps(h, states, steps, m);
        var n := FirstStop(h, states, steps, m);
        ReplyRoomStays(h, states, steps, n);
        RoomNeverStuck(h, states(n));
      }
    }
  }

  lemma {:induction false} RepliesAmongUnfinished(gens: seq<Gen>)
    ensures Replies(gens) <= Unfinished(gens)
    decreases |gens|
  {
    if gens != [] {
      RepliesAmongUnfinished(gens[1..]);
    }
  }

  /** In particular from any reachable state in which unread replies and unfinished generations
      fit modelTurnCh together, bargeIn returns in every maximal schedule of all goroutines. */
  lemma BargeInReturns(h: Hooks, before: seq<Step>, states: nat -> Sys, steps: nat -> Step)
    requires Run(h, START, before) && states(0) == After(h, START, before)
    requires RoomForAll(states(0)) && Maximal(h, states, steps)
    ensures exists n: nat :: states(n).loop.Selecting?
  {
    RunKeepsInv(h, START, before);
    RepliesAmongUnfinished(states(0).gens);
    hide Maximal, Inv, Run, After, MayReply;
    RoomReturns(h, states(0));
  }

  // ---- Where it may not: filling modelTurnCh ----

  /** The next act towards handing back a reply, dropping nothing. */
  function Deliver(g: Gen, delta: string): Act {
    if g.phase == Spawned then Install
    else if g.phase == Installed then Generated([delta])
    else if g.deltas != [] && g.outbox == None then Receive
    else if g.outbox.Some? && |g.chan| < SEGMENT_CAP then Send
    else if g.worker.Speaking? then if HasAudio(g) then Chunk else SegmentDone
    else if g.chan != [] then if g.worker == Idle then Synthesize(None) else Discard
    else if g.seg != "" then Flush
    else if !g.closed then CloseSegments
    else if g.worker != Gone then WorkerExits
    else HandBack
  }

  /** The parts of a generation's invariant that delivery relies on. */
  lemma PipelineShape(h: Hooks, g: Gen)
    requires GenInv(h, g)
    ensures g.closed ==> g.deltas == [] && g.outbox == None && g.seg == ""
    ensures g.worker == Gone ==> g.closed && g.chan == []
    ensures PhaseInv(g)
  {
  }

  lemma DeliverGoesOn(h: Hooks, g: Gen, delta: string)
    requires GenInv(h, g) && MayReply(g) && delta != ""
    ensures var a := Deliver(g, delta);
            && Enabled(g, a, true, true) && a != Cancel
            && (a != Chunk && a != HandBack ==> Enabled(g, a, false, false))
            && (a != HandBack ==> MayReply(Apply(h, g, a)))
            && (a == HandBack ==> Flatten(g.received) != "")
  {
    PipelineShape(h, g);
    hide GenInv;
    DeliverEnabled(g, delta);
    var a := Deliver(g, delta);
    FlattenNone();
    if a == Receive {
      ReceiveKeepsReply(h, g);
    } else if a.Generated? {
      assert Flatten([delta]) == delta by { assert [delta][1..] == []; }
    } else {
      hide Flatten, Received, Deliver;
      DeliverKeepsText(h, g, delta);
    }
  }

  lemma DeliverEnabled(g: Gen, delta: string)
    requires PhaseInv(g) && g.phase != Finished
    requires g.closed ==> g.deltas == [] && g.outbox == None && g.seg == ""
    requires g.worker == Gone ==> g.closed && g.chan == []
    ensures var a := Deliver(g, delta);
            && Enabled(g, a, true, true) && a != Cancel
            && (a != Chunk && a != HandBack ==> Enabled(g, a, false, false))
            && (a == HandBack ==> g.deltas == [])
            && !a.StreamEnds? && !a.GenerateFails?
  {
    hide Flatten;
  }

  lemma ReceiveKeepsReply(h: Hooks, g: Gen)
    requires MayReply(g) && g.phase == Streaming && g.deltas != []
    ensures MayReply(Received(h, g))
  {
    ReceivedText(g);
    ReceivedParts(h, g);
    hide Received, Flatten;
    var was, more, rest := Flatten(g.received), g.deltas[0], Flatten(g.deltas[1..]);
    assert |was + more| == |was| + |more| && |more + rest| == |more| + |rest|;
  }

  lemma ReceivedParts(h: Hooks, g: Gen)
    requires g.deltas != []
    ensures var r := Received(h, g);
            r.phase == g.phase && r.received == g.received + [g.deltas[0]] && r.deltas == g.deltas[1..]
  {
    hide Flatten, Token, EndsSentence;
  }

  lemma DeliverKeepsText(h: Hooks, g: Gen, delta: string)
    requires MayReply(g) && Flatten<char>([]) == ""
    requires var a := Deliver(g, delta);
             && Enabled(g, a, true, true) && !a.Receive? && !a.Generated? && !a.StreamEnds? && !a.GenerateFails?
             && a != Cancel && (a == HandBack ==> g.deltas == [])
    ensures var a := Deliver(g, delta);
            && (a != HandBack ==> MayReply(Apply(h, g, a)))
            && (a == HandBack ==> Flatten(g.received) != "")
  {
    hide Flatten, Received, Deliver;
  }

  /** modelTurnCh is full and the generation waited for has text to hand back. */
  ghost predicate BlockedOn(s: Sys, k: nat) {
    s.loop == Awaiting(Some(k)) && HandBackBlocked(s, k)
  }

  /** Every state along the run waits for k. */
  ghost predicate Waits(h: Hooks, s: Sys, run: seq<Step>, k: nat)
    decreases |run|
  {
    s.loop == Awaiting(Some(k)) && (run == [] || (Can(s, run[0]) && Waits(h, Did(h, s, run[0]), run[1..], k)))
  }

  ghost predicate MayBlock(h: Hooks, s: Sys, k: nat) {
    exists run :: Waits(h, s, run, k) && BlockedOn(After(h, s, run), k)
  }

  lemma BlockByStep(h: Hooks, s: Sys, t: Step, k: nat)
    requires s.loop == Awaiting(Some(k)) && Can(s, t) && MayBlock(h, Did(h, s, t), k)
    ensures MayBlock(h, s, k)
  {
    hide Can, Did, BlockedOn;
    var run :| Waits(h, Did(h, s, t), run, k) && BlockedOn(After(h, Did(h, s, t), run), k);
    var all := [t] + run;
    assert all[1..] == run;
    assert Waits(h, s, all, k) && BlockedOn(After(h, s, all), k);
  }

  ghost predicate Crowded(s: Sys, k: nat) {
    && s.loop == Awaiting(Some(k)) && k < |s.gens| && MayReply(s.gens[k])
    && |s.turns| + Replies(s.gens) > TURN_CAP
  }

  /** Which generation to let go on: the others until modelTurnCh is full, then the one waited for. */
  lemma Chosen(s: Sys, k: nat) returns (j: nat)
    requires Crowded(s, k) && |s.turns| <= TURN_CAP
    ensures j < |s.gens| && MayReply(s.gens[j]) && (if |s.turns| < TURN_CAP then j != k else j == k)
  {
    hide MayReply;
    if |s.turns| < TURN_CAP {
      RepliesAtLeast(s.gens, k);
      j :| 0 <= j < |s.gens| && j != k && MayReply(s.gens[j]);
    } else {
      j := k;
    }
  }

  lemma {:induction false} CrowdedMayBlock(h: Hooks, s: Sys, k: nat, delta: string)
    requires Inv(h, s) && Crowded(s, k) && delta != ""
    ensures MayBlock(h, s, k)
    decreases Total(s.gens).phase, Total(s.gens).tokens, Total(s.gens).segments, Total(s.gens).audio, |s.recv|
  {
    hide GenInv, Can, Did, Flatten, Deliver, MayReply, Total, Replies, MayBlock, BlockedOn;
    var j := Chosen(s, k);
    var g := s.gens[j];
    if j == k && Flatten(g.received) != "" {
      BlockedNow(h, s, k);
    } else {
      var t := Of(j, Deliver(g, delta));
      if t.act == Chunk && |s.recv| >= RECV_CAP {
        t := Consume;
      }
      CrowdStep(h, s, k, j, delta);
      BusyStepShrinks(h, s, t);
      StepKeepsInv(h, s, t);
      CrowdedMayBlock(h, Did(h, s, t), k, delta);
      BlockByStep(h, s, t, k);
    }
  }

  lemma BlockedNow(h: Hooks, s: Sys, k: nat)
    requires Crowded(s, k) && |s.turns| >= TURN_CAP && Flatten(s.gens[k].received) != ""
    ensures MayBlock(h, s, k)
  {
    assert Waits(h, s, [], k) && After(h, s, []) == s;
  }

  lemma CrowdStep(h: Hooks, s: Sys, k: nat, j: nat, delta: string)
    requires Inv(h, s) && Crowded(s, k) && delta != "" && j < |s.gens| && MayReply(s.gens[j])
    requires if |s.turns| < TURN_CAP then j != k else j == k && Flatten(s.gens[j].received) == ""
    ensures var a := Deliver(s.gens[j], delta);
            var t := if a == Chunk && |s.recv| >= RECV_CAP then Consume else Of(j, a);
            Can(s, t) && Crowded(Did(h, s, t), k)
  {
    hide GenInv, Flatten, Deliver, MayReply, Apply, Enabled, Replies;
    var g := s.gens[j];
    var a := Deliver(g, delta);
    DeliverGoesOn(h, g, delta);
    if a != Chunk || |s.recv| < RECV_CAP {
      EnabledHere(g, a, |s.recv| < RECV_CAP, |s.turns| < TURN_CAP);
      RepliesUpdate(s.gens, j, Apply(h, g, a));
      ActKeepsReply(h, g, a, |s.recv| < RECV_CAP, |s.turns| < TURN_CAP);
    }
  }

  lemma EnabledHere(g: Gen, a: Act, recvRoom: bool, turnRoom: bool)
    requires Enabled(g, a, true, true)
    requires a != Chunk && a != HandBack ==> Enabled(g, a, false, false)
    requires (a == Chunk ==> recvRoom) && (a == HandBack ==> turnRoom)
    ensures Enabled(g, a, recvRoom, turnRoom)
  {
  }

  // ---- A schedule that stays there ----

  ghost function AnyStep(s: Sys): Step {
    if exists t :: Can(s, t) then var t :| Can(s, t); t else Spawn
  }

  ghost function FirstOf(s: Sys, run: seq<Step>): Step {
    if run == [] then AnyStep(s) else run[0]
  }

  ghost function NextOf(h: Hooks, s: Sys, run: seq<Step>): Sys {
    var t := FirstOf(s, run);
    if Can(s, t) then Did(h, s, t) else s
  }

  function Tail(run: seq<Step>): seq<Step> { if run == [] then [] else run[1..] }

  /** The run, and after it any step that can be done for as long as there is one. */
  ghost function StateAt(h: Hooks, s: Sys, run: seq<Step>, i: nat): Sys
    decreases i
  {
    if i == 0 then s else StateAt(h, NextOf(h, s, run), Tail(run), i - 1)
  }

  ghost function StepAt(h: Hooks, s: Sys, run: seq<Step>, i: nat): Step
    decreases i
  {
    if i == 0 then FirstOf(s, run) else StepAt(h, NextOf(h, s, run), Tail(run), i - 1)
  }

  lemma {:induction false} ScheduleGoesOn(h: Hooks, s: Sys, run: seq<Step>, k: nat, i: nat)
    requires Waits(h, s, run, k)
    ensures var p, t := StateAt(h, s, run, i), StepAt(h, s, run, i);
            if Can(p, t) then StateAt(h, s, run, i + 1) == Did(h, p, t) else forall u :: !Can(p, u)
    decreases i, |run|
  {
    hide Can, Did;
    if i == 0 {
      assert StateAt(h, s, run, 1) == StateAt(h, NextOf(h, s, run), Tail(run), 0);
    } else if run != [] {
      ScheduleGoesOn(h, NextOf(h, s, run), Tail(run), k, i - 1);
    } else {
      AfterTheRun(h, NextOf(h, s, run), i - 1);
    }
  }

  lemma {:induction false} AfterTheRun(h: Hooks, s: Sys, i: nat)
    ensures var p, t := StateAt(h, s, [], i), StepAt(h, s, [], i);
            if Can(p, t) then StateAt(h, s, [], i + 1) == Did(h, p, t) else forall u :: !Can(p, u)
    decreases i
  {
    hide Can, Did;
    if i == 0 {
      assert StateAt(h, s, [], 1) == StateAt(h, NextOf(h, s, []), Tail([]), 0);
    } else {
      AfterTheRun(h, NextOf(h, s, []), i - 1);
    }
  }

  lemma {:induction false} ScheduleWaits(h: Hooks, s: Sys, run: seq<Step>, k: nat, i: nat)
    requires Inv(h, s) && Waits(h, s, run, k) && BlockedOn(After(h, s, run), k)
    ensures StateAt(h, s, run, i).loop == Awaiting(Some(k))
    decreases i
  {
    hide Can, Did, Inv, HandBackBlocked;
    if i > 0 {
      if run != [] {
        StepKeepsInv(h, s, run[0]);
      } else {
        BlockedGoesOn(h, s, k);
      }
      ScheduleWaits(h, NextOf(h, s, run), Tail(run), k, i - 1);
    }
  }

  lemma BlockedGoesOn(h: Hooks, s: Sys, k: nat)
    requires Inv(h, s) && BlockedOn(s, k)
    ensures var r := NextOf(h, s, []);
            Inv(h, r) && Waits(h, r, [], k) && BlockedOn(After(h, r, []), k)
  {
    hide Inv, HandBackBlocked, Can, Did;
    var t := AnyStep(s);
    if Can(s, t) {
      assert [t][1..] == [];
      RunBase(h, Did(h, s, t));
      assert Run(h, s, [t]) && After(h, s, [t]) == Did(h, s, t);
      BlockedStays(h, s, k, [t]);
    }
  }

  lemma BlockedNeverReturns(h: Hooks, s: Sys, k: nat)
    requires Inv(h, s) && MayBlock(h, s, k)
    ensures !AlwaysReturns(h, s)
  {
    hide Can, Did, Inv, BlockedOn, StateAt, StepAt;
    var run :| Waits(h, s, run, k) && BlockedOn(After(h, s, run), k);
    var states: nat -> Sys := (i: nat) => StateAt(h, s, run, i);
    var steps: nat -> Step := (i: nat) => StepAt(h, s, run, i);
    forall i: nat | !Steps(h, states, steps, i) ensures forall t :: !Can(states(i), t) {
      ScheduleGoesOn(h, s, run, k, i);
    }
    assert Maximal(h, states, steps);
    forall i: nat ensures !states(i).loop.Selecting? {
      ScheduleWaits(h, s, run, k, i);
    }
    StartsThere(h, s, run);
    assert states(0) == s;
  }

  lemma StartsThere(h: Hooks, s: Sys, run: seq<Step>)
    ensures StateAt(h, s, run, 0) == s
  {
  }

  /** From every reachable wait, with any number of generations in flight: bargeIn returns in every
      maximal schedule if and only if the generation it waits for can hand back no text any more,
      or the unread replies and those that may still come, its own included, fit modelTurnCh. */
  lemma ReturnsExactly(h: Hooks, before: seq<Step>, k: nat)
    requires Run(h, START, before) && After(h, START, before).loop == Awaiting(Some(k))
    ensures var s := After(h, START, before);
            && k < |s.gens|
            && (AlwaysReturns(h, s) <==> !MayReply(s.gens[k]) || |s.turns| + Replies(s.gens) <= TURN_CAP)
  {
    hide GenInv, MayReply, Replies, AlwaysReturns, MayBlock;
    RunKeepsInv(h, START, before);
    var s := After(h, START, before);
    if !MayReply(s.gens[k]) || |s.turns| + Replies(s.gens) <= TURN_CAP {
      RoomReturns(h, s);
    } else {
      CrowdedMayBlock(h, s, k, "a");
      BlockedNeverReturns(h, s, k);
    }
  }
}
