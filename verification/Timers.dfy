/**
 run() and its turn timers as interleaved steps. run() performs the channel operations of one
 input one at a time; in between, timer goroutines elapse, give up or signal. The pending
 channel holds at most one signal. Barge-in and transcript emission have no part in this.
 */
module Timers {
  import opened Common
  import opened Turn
  import Text

  /** A timer goroutine: waiting in its outer select, past it, or gone. */
  datatype Timer = Waiting(cancelled: bool) | Elapsed | Exited

  datatype Sys = Sys(
    local: Local,
    todo: seq<Effect>,      // what run() still has to do for the current input
    signal: bool,           // a signal is queued in pendingCh
    timers: seq<Timer>,     // every timer ever started
    current: Option<nat>,   // the timer that pendingCancel refers to
    started: nat,           // responds started
    dropped: nat,           // signals drained or not sent, and timers that gave up
    credits: nat)           // typed turns, scheduled finals and speculations so far

  datatype Action =
    | Take(i: Input)  // run() selects an input
    | Perform         // run() performs its next operation
    | Elapse(t: nat)  // the pause is over; a cancelled timer may still pick this branch
    | GiveUp(t: nat)  // a cancelled timer leaves through ctx.Done
    | SignalOff(t: nat) // a timer past its outer select sends without blocking, and exits

  ghost predicate Enabled(s: Sys, a: Action) {
    match a
    case Take(i) => s.todo == [] && (i == Fire ==> s.signal)
    case Perform => s.todo != [] && (s.todo[0] == Signal ==> !s.signal) // the send of a speculation blocks
    case Elapse(t) => t < |s.timers| && s.timers[t].Waiting?
    case GiveUp(t) => t < |s.timers| && s.timers[t] == Waiting(true)
    case SignalOff(t) => t < |s.timers| && s.timers[t] == Elapsed
  }

  function Cancelled(s: Sys): seq<Timer> {
    if s.current.Some? && s.current.value < |s.timers| && s.timers[s.current.value].Waiting?
    then s.timers[s.current.value := Waiting(true)] else s.timers
  }

  function OneIf(b: bool): nat { if b then 1 else 0 }

  /** Operations that will start a respond, now or through a signal. */
  function Starts(todo: seq<Effect>): nat {
    if todo == [] then 0
    else OneIf(todo[0].Signal? || todo[0].StartTimer? || todo[0].StartRespond?) + Starts(todo[1..])
  }

  function Apply(lower: char -> char, s: Sys, a: Action): Sys {
    match a
    case Take(i) =>
      var todo := Effects(lower, true, s.local, i);
      s.(local := Next(lower, true, s.local, i), todo := todo,
         signal := if i == Fire then false else s.signal,
         credits := s.credits + if i == Fire then 0 else Starts(todo))
    case Perform =>
      if s.todo == [] then s
      else
        var r := s.(todo := s.todo[1..]);
        (match s.todo[0]
         case CancelTimer => r.(timers := Cancelled(s), current := None)
         case Drain => r.(signal := false, dropped := s.dropped + OneIf(s.signal))
         case Signal => r.(signal := true)
         case StartTimer(_) => r.(timers := s.timers + [Waiting(false)], current := Some(|s.timers|))
         case StartRespond(_) => r.(started := s.started + 1)
         case Emit(_, _) => r
         case BargeIn => r)
    case Elapse(t) => if t < |s.timers| then s.(timers := s.timers[t := Elapsed]) else s
    case GiveUp(t) => if t < |s.timers| then s.(timers := s.timers[t := Exited], dropped := s.dropped + 1) else s
    case SignalOff(t) =>
      if t < |s.timers|
      then s.(timers := s.timers[t := Exited], signal := true, dropped := s.dropped + OneIf(s.signal)) else s
  }

  function Start(system: string): Sys {
    Sys(Initial(system), [], false, [], None, 0, 0, 0)
  }

  ghost predicate ValidRun(lower: char -> char, s: Sys, run: seq<Action>)
    decreases |run|
  {
    run == [] || (Enabled(s, run[0]) && ValidRun(lower, Apply(lower, s, run[0]), run[1..]))
  }

  function End(lower: char -> char, s: Sys, run: seq<Action>): Sys
    decreases |run|
  {
    if run == [] then s else End(lower, Apply(lower, s, run[0]), run[1..])
  }

  // ---- Every start is paid for ----

  function Alive(timers: seq<Timer>): nat {
    if timers == [] then 0 else OneIf(!timers[0].Exited?) + Alive(timers[1..])
  }

  lemma {:induction false} AliveUpdate(timers: seq<Timer>, t: nat, x: Timer)
    requires t < |timers|
    ensures Alive(timers[t := x]) == Alive(timers) - OneIf(!timers[t].Exited?) + OneIf(!x.Exited?)
    decreases |timers|
  {
    if t > 0 {
      AliveUpdate(timers[1..], t - 1, x);
      assert timers[t := x][1..] == timers[1..][t - 1 := x];
    } else {
      assert timers[t := x][1..] == timers[1..];
    }
  }

  lemma {:induction false} AliveSnoc(timers: seq<Timer>, x: Timer)
    ensures Alive(timers + [x]) == Alive(timers) + OneIf(!x.Exited?)
    decreases |timers|
  {
    if timers != [] {
      AliveSnoc(timers[1..], x);
      assert (timers + [x])[1..] == timers[1..] + [x];
    }
  }

  /** Every typed turn, scheduled final and speculation is accounted for exactly once: its respond
      was started, its signal is queued or still to be sent, its timer is running, or it was
      dropped. */
  ghost predicate Balanced(s: Sys) {
    s.credits == s.started + OneIf(s.signal) + Alive(s.timers) + Starts(s.todo) + s.dropped
  }

  lemma StepBalances(lower: char -> char, s: Sys, a: Action)
    requires Enabled(s, a) && Balanced(s)
    ensures Balanced(Apply(lower, s, a))
  {
    match a
    case Take(i) =>
      if i == Fire {
        assert Effects(lower, true, s.local, Fire)[1..] == [];
      }
    case Perform =>
      match s.todo[0] {
        case CancelTimer =>
          if s.current.Some? && s.current.value < |s.timers| {
            AliveUpdate(s.timers, s.current.value, Waiting(true));
          }
        case StartTimer(_) => AliveSnoc(s.timers, Waiting(false));
        case _ =>
      }
    case Elapse(t) => AliveUpdate(s.timers, t, Elapsed);
    case GiveUp(t) => AliveUpdate(s.timers, t, Exited);
    case SignalOff(t) => AliveUpdate(s.timers, t, Exited);
  }

  lemma {:induction false} RunBalances(lower: char -> char, s: Sys, run: seq<Action>)
    requires Balanced(s) && ValidRun(lower, s, run)
    ensures Balanced(End(lower, s, run))
    decreases |run|
  {
    if run != [] {
      StepBalances(lower, s, run[0]);
      RunBalances(lower, Apply(lower, s, run[0]), run[1..]);
    }
  }

  /** In every interleaving the responds started, plus a queued signal, never exceed the accepted
      typed turns, scheduled finals and speculations, and the difference is exactly what is
      still under way or was dropped. */
  lemma StartsArePaidFor(lower: char -> char, system: string, run: seq<Action>)
    requires ValidRun(lower, Start(system), run)
    ensures var s := End(lower, Start(system), run);
            && s.started + OneIf(s.signal) <= s.credits
            && Balanced(s)
  {
    RunBalances(lower, Start(system), run);
  }

  /** The inputs a run takes, in order. */
  function InputsOf(run: seq<Action>): seq<Input> {
    if run == [] then []
    else (if run[0].Take? then [run[0].i] else []) + InputsOf(run[1..])
  }

  /** However the timers interleave, the history is decided by the inputs taken; so whatever holds
      of the orchestrator over input sequences holds in every interleaving. */
  lemma {:induction false} HistoryIsTheInputs(lower: char -> char, s: Sys, run: seq<Action>)
    requires ValidRun(lower, s, run)
    ensures End(lower, s, run).local == After(lower, true, s.local, InputsOf(run))
    decreases |run|
  {
    hide Next, Effects;
    if run != [] {
      var t := Apply(lower, s, run[0]);
      var rest := InputsOf(run[1..]);
      HistoryIsTheInputs(lower, t, run[1..]);
      if run[0].Take? {
        AfterFirst(lower, true, s.local, run[0].i, rest);
      } else {
        assert [] + rest == rest;
      }
    }
  }

  /** In every interleaving of run() with its timers, the prompt stays in place and an open
      speculation has an entry to patch or remove. */
  lemma AlwaysAnchored(lower: char -> char, prompt: seq<Message>, s: Sys, run: seq<Action>)
    requires Anchored(prompt, s.local) && ValidRun(lower, s, run)
    ensures Anchored(prompt, End(lower, s, run).local)
  {
    HistoryIsTheInputs(lower, s, run);
    AnchorStays(lower, true, prompt, s.local, InputsOf(run));
  }

  // ---- At most one timer is armed ----

  /** Every timer about to be started comes after the cancelling of the last one. */
  ghost predicate Ordered(todo: seq<Effect>, free: bool) {
    todo == [] ||
    match todo[0]
    case StartTimer(_) => free && Ordered(todo[1..], false)
    case CancelTimer => Ordered(todo[1..], true)
    case _ => Ordered(todo[1..], free)
  }

  ghost predicate OneArmed(s: Sys) {
    && Ordered(s.todo, s.current == None)
    && (s.current.Some? ==> s.current.value < |s.timers|)
    && forall t :: 0 <= t < |s.timers| && s.timers[t] == Waiting(false) ==> s.current == Some(t)
  }

  lemma OrderedFirst(e: Effect, rest: seq<Effect>, free: bool)
    ensures Ordered([e] + rest, free) <==>
            match e
            case StartTimer(_) => free && Ordered(rest, false)
            case CancelTimer => Ordered(rest, true)
            case _ => Ordered(rest, free)
  {
    assert ([e] + rest)[1..] == rest;
  }

  /** Operations that neither start nor cancel a timer. */
  lemma {:induction false} PlainIsOrdered(todo: seq<Effect>, free: bool)
    requires forall e <- todo :: !e.StartTimer? && !e.CancelTimer?
    ensures Ordered(todo, free)
    decreases |todo|
  {
    if todo != [] {
      assert todo[0] in todo;
      PlainIsOrdered(todo[1..], free);
    }
  }

  lemma EffectsAreOrdered(lower: char -> char, l: Local, i: Input, free: bool)
    ensures Ordered(Effects(lower, true, l, i), free)
  {
    hide Text.Similar, Potential, Judge, Ordered, Next;
    var fx := Effects(lower, true, l, i);
    match i
    case Partial(text, now) =>
      var tail := [Drain] + if Potential(l.stab, text, now) then [Drain, Signal] else [];
      assert fx == [Emit("user", text)] + ([CancelTimer] + tail);
      PlainIsOrdered(tail, true);
      OrderedFirst(CancelTimer, tail, free);
      OrderedFirst(Emit("user", text), [CancelTimer] + tail, free);
    case SpeechStarted =>
      assert fx == [CancelTimer] + [Drain, BargeIn];
      PlainIsOrdered([Drain, BargeIn], true);
      OrderedFirst(CancelTimer, [Drain, BargeIn], free);
    case Final(text) => FinalIsOrdered(lower, l, text, free);
    case _ => PlainIsOrdered(fx, free);
  }

  lemma FinalIsOrdered(lower: char -> char, l: Local, text: string, free: bool)
    ensures Ordered(Effects(lower, true, l, Final(text)), free)
  {
    hide Text.Similar, Judge, Ordered;
    var last := [Drain] + [StartTimer(text)];
    assert [StartTimer(text)] + [] == [StartTimer(text)];
    PlainIsOrdered([], false);
    OrderedFirst(StartTimer(text), [], true);
    OrderedFirst(Drain, [StartTimer(text)], true);
    OrderedFirst(CancelTimer, last, true);
    OrderedFirst(Emit("user", text), [CancelTimer] + last, true);
    OrderedFirst(Drain, [Emit("user", text)] + ([CancelTimer] + last), true);
    OrderedFirst(CancelTimer, [Drain] + ([Emit("user", text)] + ([CancelTimer] + last)), free);
    PlainIsOrdered([Drain], true);
    OrderedFirst(CancelTimer, [Drain], free);
    PlainIsOrdered([], free);
    var fx := Effects(lower, true, l, Final(text));
    match Judge(lower, l, text)
    case Duplicate => assert fx == [];
    case Confirms => assert fx == [CancelTimer] + [Drain];
    case Differs => assert fx == [CancelTimer] + ([Drain] + ([Emit("user", text)] + ([CancelTimer] + last)));
  }

  lemma {:induction false} StepKeepsArmed(lower: char -> char, s: Sys, a: Action)
    requires Enabled(s, a) && OneArmed(s)
    ensures OneArmed(Apply(lower, s, a))
  {
    hide Effects, Next;
    if a.Take? {
      EffectsAreOrdered(lower, s.local, a.i, s.current == None);
    }
  }

  lemma {:induction false} RunKeepsArmed(lower: char -> char, s: Sys, run: seq<Action>)
    requires OneArmed(s) && ValidRun(lower, s, run)
    ensures OneArmed(End(lower, s, run))
    decreases |run|
  {
    if run != [] {
      StepKeepsArmed(lower, s, run[0]);
      RunKeepsArmed(lower, Apply(lower, s, run[0]), run[1..]);
    }
  }

  /** In every interleaving at most one timer waits uncancelled, and it is the one that the next
      cancelPending will cancel: schedulePending always replaces. */
  lemma OneArmedTimer(lower: char -> char, system: string, run: seq<Action>)
    requires ValidRun(lower, Start(system), run)
    ensures OneArmed(End(lower, Start(system), run))
  {
    RunKeepsArmed(lower, Start(system), run);
  }

  ghost predicate NoTake(run: seq<Action>) {
    forall a <- run :: !a.Take?
  }

  lemma {:induction false} TodoShrinks(lower: char -> char, s: Sys, run: seq<Action>)
    requires ValidRun(lower, s, run) && NoTake(run)
    ensures |End(lower, s, run).todo| <= |s.todo|
    decreases |run|
  {
    if run != [] {
      assert run[0] in run;
      TodoShrinks(lower, Apply(lower, s, run[0]), run[1..]);
    }
  }

  lemma {:induction false} CancelledBeforeDrain(lower: char -> char, s: Sys, run: seq<Action>, rest: seq<Effect>)
    requires ValidRun(lower, s, run) && NoTake(run) && End(lower, s, run).todo == [Drain] + rest
    requires s.todo == [CancelTimer, Drain] + rest || (s.todo == [Drain] + rest && s.current == None)
    ensures End(lower, s, run).current == None
    decreases |run|
  {
    assert ([CancelTimer, Drain] + rest)[1..] == [Drain] + rest && ([Drain] + rest)[1..] == rest;
    if run != [] {
      var t := Apply(lower, s, run[0]);
      assert run[0] in run;
      TodoShrinks(lower, t, run[1..]);
      CancelledBeforeDrain(lower, t, run[1..], rest);
    }
  }

  /** What cancelPending leaves behind, however the timers interleave with its two operations: no
      signal is queued and no timer is armed. A cancelled timer that is already past its outer
      select is all that can still signal. */
  lemma CancelPendingClears(lower: char -> char, s: Sys, run: seq<Action>, rest: seq<Effect>)
    requires OneArmed(s) && s.todo == [CancelTimer, Drain] + rest
    requires ValidRun(lower, s, run) && NoTake(run) && End(lower, s, run).todo == [Drain] + rest
    ensures var t := Apply(lower, End(lower, s, run), Perform);
            && t.todo == rest && !t.signal && t.current == None
            && forall k :: 0 <= k < |t.timers| ==> t.timers[k] in {Waiting(true), Elapsed, Exited}
  {
    CancelledBeforeDrain(lower, s, run, rest);
    RunKeepsArmed(lower, s, run);
    var e := End(lower, s, run);
    assert ([Drain] + rest)[1..] == rest;
    forall k | 0 <= k < |e.timers| ensures e.timers[k] in {Waiting(true), Elapsed, Exited} {
      assert e.timers[k] != Waiting(false);
    }
  }

  lemma OneStep(lower: char -> char, s: Sys, a: Action)
    requires Enabled(s, a)
    ensures ValidRun(lower, s, [a]) && End(lower, s, [a]) == Apply(lower, s, a)
  {
    var rest := [a][1..];
    assert rest == [];
    assert End(lower, Apply(lower, s, a), rest) == Apply(lower, s, a);
  }

  // ---- The blocking send ----

  /** run() is about to send a speculation's signal. */
  ghost predicate AboutToSend(s: Sys) { s.todo != [] && s.todo[0] == Signal }

  ghost predicate Stuck(s: Sys) { AboutToSend(s) && s.signal }

  /** Only run() receives from pendingCh, so once its own send finds the channel full it never
      gets any further. */
  lemma {:induction false} StuckForever(lower: char -> char, s: Sys, run: seq<Action>)
    requires Stuck(s) && ValidRun(lower, s, run)
    ensures var t := End(lower, s, run); Stuck(t) && t.local == s.local && t.todo == s.todo && t.started == s.started
    decreases |run|
  {
    if run != [] {
      StuckForever(lower, Apply(lower, s, run[0]), run[1..]);
    }
  }

  ghost predicate NoPerform(run: seq<Action>) {
    forall i :: 0 <= i < |run| ==> run[i] != Perform
  }

  lemma {:induction false} AliveMeansSome(timers: seq<Timer>)
    ensures Alive(timers) == 0 <==> forall t :: 0 <= t < |timers| ==> timers[t].Exited?
    decreases |timers|
  {
    if timers != [] {
      AliveMeansSome(timers[1..]);
      assert forall t :: 0 < t < |timers| ==> timers[t] == timers[1..][t - 1];
    }
  }

  lemma {:induction false} DeadTimersDoNothing(lower: char -> char, s: Sys, run: seq<Action>)
    requires AboutToSend(s) && Alive(s.timers) == 0 && ValidRun(lower, s, run) && NoPerform(run)
    ensures run == []
  {
    AliveMeansSome(s.timers);
  }

  /** Between the drain and the send of a speculation the orchestrator can be blocked forever if
      and only if some earlier turn timer has not exited yet. */
  lemma SendCanBlockExactly(lower: char -> char, s: Sys)
    requires AboutToSend(s) && !s.signal
    ensures (exists run :: ValidRun(lower, s, run) && NoPerform(run) && Stuck(End(lower, s, run)))
            <==> Alive(s.timers) > 0
  {
    AliveMeansSome(s.timers);
    if Alive(s.timers) > 0 {
      var t: nat :| t < |s.timers| && !s.timers[t].Exited?;
      if s.timers[t].Waiting? {
        var s1 := Apply(lower, s, Elapse(t));
        var run := [Elapse(t), SignalOff(t)];
        assert run[1..] == [SignalOff(t)];
        OneStep(lower, s1, SignalOff(t));
        assert ValidRun(lower, s, run) && NoPerform(run) && Stuck(End(lower, s, run));
      } else {
        var run := [SignalOff(t)];
        OneStep(lower, s, SignalOff(t));
        assert ValidRun(lower, s, run) && NoPerform(run) && Stuck(End(lower, s, run));
      }
    } else {
      forall run | ValidRun(lower, s, run) && NoPerform(run) ensures !Stuck(End(lower, s, run)) {
        DeadTimersDoNothing(lower, s, run);
      }
    }
  }

  // ---- Such a run exists ----

  ghost predicate Reaches(lower: char -> char, s: Sys, t: Sys) {
    exists run :: ValidRun(lower, s, run) && End(lower, s, run) == t
  }

  lemma {:induction false} RunConcat(lower: char -> char, s: Sys, a: seq<Action>, b: seq<Action>)
    requires ValidRun(lower, s, a) && ValidRun(lower, End(lower, s, a), b)
    ensures ValidRun(lower, s, a + b) && End(lower, s, a + b) == End(lower, End(lower, s, a), b)
    decreases |a|
  {
    hide Apply, Enabled;
    if a == [] {
      assert a + b == b;
    } else {
      assert (a + b)[1..] == a[1..] + b;
      RunConcat(lower, Apply(lower, s, a[0]), a[1..], b);
    }
  }

  lemma ReachStep(lower: char -> char, s: Sys, t: Sys, a: Action)
    requires Reaches(lower, s, t) && Enabled(t, a)
    ensures Reaches(lower, s, Apply(lower, t, a))
  {
    var run :| ValidRun(lower, s, run) && End(lower, s, run) == t;
    OneStep(lower, t, a);
    RunConcat(lower, s, run, [a]);
    assert ValidRun(lower, s, run + [a]) && End(lower, s, run + [a]) == Apply(lower, t, a);
  }

  /** run() performs the next n operations without interruption. */
  function Performed(lower: char -> char, s: Sys, n: nat): Sys
    decreases n
  {
    if n == 0 then s else Performed(lower, Apply(lower, s, Perform), n - 1)
  }

  lemma {:induction false} ReachPerformed(lower: char -> char, s: Sys, t: Sys, n: nat)
    requires Reaches(lower, s, t) && n <= |t.todo| && forall k :: 0 <= k < n ==> t.todo[k] != Signal
    ensures Reaches(lower, s, Performed(lower, t, n))
    decreases n
  {
    if n > 0 {
      ReachStep(lower, s, t, Perform);
      ReachPerformed(lower, s, Apply(lower, t, Perform), n - 1);
    }
  }

  ghost predicate NoneWaiting(s: Sys) {
    forall t :: 0 <= t < |s.timers| ==> !s.timers[t].Waiting?
  }

  /** With no timer waiting, the orchestrator hears the partial p for the last time needed: after
      the drains it is about to send the speculation's signal. */
  lemma LastPartial(lower: char -> char, t: Sys, p: string, now: int)
    requires t.todo == [] && Potential(t.local.stab, p, now) && NoneWaiting(t)
    ensures var a := Apply(lower, t, Take(Partial(p, now)));
            var q := Performed(lower, a, 4);
            q.todo == [Signal] && !q.signal && q.timers == t.timers && q.local == a.local && q.started == t.started
  {
    hide Next;
    var a := Apply(lower, t, Take(Partial(p, now)));
    assert a.todo == [Emit("user", p), CancelTimer, Drain, Drain, Signal];
    var b := Apply(lower, a, Perform);
    assert b.todo == [CancelTimer, Drain, Drain, Signal];
    var c := Apply(lower, b, Perform);
    assert c.todo == [Drain, Drain, Signal] && c.timers == t.timers;
    var d := Apply(lower, c, Perform);
    assert d.todo == [Drain, Signal];
    var e := Apply(lower, d, Perform);
    assert e.todo == [Signal];
    assert Performed(lower, d, 1) == e && Performed(lower, c, 2) == e && Performed(lower, b, 3) == e;
  }

  lemma EarlyPartial(lower: char -> char, t: Sys, p: string, now: int)
    requires t.todo == [] && !Potential(t.local.stab, p, now) && !t.local.speculating && NoneWaiting(t)
    ensures var q := Performed(lower, Apply(lower, t, Take(Partial(p, now))), 3);
            && q.todo == [] && q.timers == t.timers && q.started == t.started
            && q.local == t.local.(stab := NextStability(t.local.stab, p, now))
  {
    var a := Apply(lower, t, Take(Partial(p, now)));
    assert a.todo == [Emit("user", p), CancelTimer, Drain];
    var b := Apply(lower, a, Perform);
    assert b.todo == [CancelTimer, Drain];
    var c := Apply(lower, b, Perform);
    assert c.todo == [Drain];
    var d := Apply(lower, c, Perform);
    assert Performed(lower, c, 1) == d && Performed(lower, b, 2) == d;
  }

  lemma FirstFinal(lower: char -> char, system: string, f: string)
    requires !Text.Similar(lower, f, "")
    ensures var q := Performed(lower, Apply(lower, Start(system), Take(Final(f))), 6);
            q.todo == [] && q.timers == [Waiting(false)] && !q.local.speculating && q.local.stab == Stability("", 0, 0)
  {
    hide Text.Similar;
    var a := Apply(lower, Start(system), Take(Final(f)));
    assert a.todo == [CancelTimer, Drain, Emit("user", f), CancelTimer, Drain, StartTimer(f)];
    var b := Apply(lower, a, Perform);
    assert b.todo == [Drain, Emit("user", f), CancelTimer, Drain, StartTimer(f)];
    var c := Apply(lower, b, Perform);
    assert c.todo == [Emit("user", f), CancelTimer, Drain, StartTimer(f)];
    var d := Apply(lower, c, Perform);
    assert d.todo == [CancelTimer, Drain, StartTimer(f)];
    var e := Apply(lower, d, Perform);
    assert e.todo == [Drain, StartTimer(f)];
    var g := Apply(lower, e, Perform);
    assert g.todo == [StartTimer(f)];
    var h := Apply(lower, g, Perform);
    assert Performed(lower, g, 1) == h && Performed(lower, e, 2) == h && Performed(lower, d, 3) == h;
    assert Performed(lower, c, 4) == h && Performed(lower, b, 5) == h;
  }

  /** The deadlock is reachable from the start: any final with words, then the same finished
      partial three times within the window, with the final's timer signalling at the worst
      moment. */
  lemma DeadlockIsReachable(lower: char -> char, system: string, f: string, p: string, now: int)
    requires !Text.Similar(lower, f, "") && HasEnder(p)
    ensures exists s :: Reaches(lower, Start(system), s) && Stuck(s)
  {
    hide Text.Similar, Apply, Next, Effects, Performed;
    var s0 := Start(system);
    assert ValidRun(lower, s0, []) && End(lower, s0, []) == s0;
    ReachStep(lower, s0, s0, Take(Final(f)));
    var s1 := Apply(lower, s0, Take(Final(f)));
    FinalTodo(lower, s0, f);
    ReachPerformed(lower, s0, s1, 6);
    FirstFinal(lower, system, f);
    var s2 := Performed(lower, s1, 6);
    ReachStep(lower, s0, s2, Elapse(0));
    var s3 := Apply(lower, s2, Elapse(0));
    assert s3 == s2.(timers := [Elapsed]) by { ElapseOnly(lower, s2); }
    var s4 := AfterEarly(lower, s0, s3, p, now);
    var s5 := AfterEarly(lower, s0, s4, p, now);
    assert p != "";
    assert Potential(s5.local.stab, p, now);
    ReachStep(lower, s0, s5, Take(Partial(p, now)));
    var s6 := Apply(lower, s5, Take(Partial(p, now)));
    PartialTodo(lower, s5, p, now);
    ReachPerformed(lower, s0, s6, 4);
    LastPartial(lower, s5, p, now);
    var s7 := Performed(lower, s6, 4);
    ReachStep(lower, s0, s7, SignalOff(0));
    assert Stuck(Apply(lower, s7, SignalOff(0))) by { SignalOnly(lower, s7); }
  }

  lemma ElapseOnly(lower: char -> char, s: Sys)
    requires s.timers == [Waiting(false)]
    ensures Apply(lower, s, Elapse(0)) == s.(timers := [Elapsed])
  {
  }

  lemma SignalOnly(lower: char -> char, s: Sys)
    requires s.timers == [Elapsed]
    ensures var t := Apply(lower, s, SignalOff(0)); t.signal && t.todo == s.todo
  {
  }

  lemma FinalTodo(lower: char -> char, s: Sys, f: string)
    requires !s.local.speculating && !Text.Similar(lower, f, s.local.lastUserText)
    ensures var todo := Apply(lower, s, Take(Final(f))).todo;
            |todo| == 6 && forall k :: 0 <= k < 6 ==> todo[k] != Signal
  {
    hide Text.Similar;
  }

  lemma PartialTodo(lower: char -> char, s: Sys, p: string, now: int)
    ensures var todo := Apply(lower, s, Take(Partial(p, now))).todo;
            && |todo| == (if Potential(s.local.stab, p, now) then 5 else 3)
            && forall k :: 0 <= k < 4 && k < |todo| ==> todo[k] != Signal
  {
  }

  lemma AfterEarly(lower: char -> char, s0: Sys, t: Sys, p: string, now: int) returns (q: Sys)
    requires Reaches(lower, s0, t)
    requires t.todo == [] && !Potential(t.local.stab, p, now) && !t.local.speculating && NoneWaiting(t)
    ensures Reaches(lower, s0, q)
    ensures q.todo == [] && q.timers == t.timers && q.started == t.started
    ensures q.local == t.local.(stab := NextStability(t.local.stab, p, now))
  {
    ReachStep(lower, s0, t, Take(Partial(p, now)));
    PartialTodo(lower, t, p, now);
    ReachPerformed(lower, s0, Apply(lower, t, Take(Partial(p, now))), 3);
    EarlyPartial(lower, t, p, now);
    q := Performed(lower, Apply(lower, t, Take(Partial(p, now))), 3);
  }
}
