/** Whether the turn of a speculation that a final confirms is ever answered. */
module Answers {
  import opened Turn
  import opened Timers
  import Text

  // ---- From the speculation's signal to the final ----

  /** What may be selected while a speculation is open without closing it or starting a turn of
      its own. */
  ghost predicate Meanwhile(run: seq<Action>) {
    forall a <- run :: a.Take? ==> a.i.Fire? || a.i.Reply? || a.i.Restore?
  }

  ghost predicate OnlyStarts(todo: seq<Effect>) {
    forall e <- todo :: e.Signal? || e.Emit? || e.StartRespond?
  }

  /** Since the speculation was opened, with base responds started before: how often its turn was
      or is going to be answered. */
  function Pending(s: Sys, base: nat): int {
    s.started - base + OneIf(s.signal) + Starts(s.todo)
  }

  lemma StepKeepsPending(lower: char -> char, s: Sys, base: nat, a: Action)
    requires OnlyStarts(s.todo) && Enabled(s, a) && (a.Take? ==> a.i.Fire? || a.i.Reply? || a.i.Restore?)
    ensures var t := Apply(lower, s, a);
            && OnlyStarts(t.todo) && Pending(t, base) >= Pending(s, base)
            && (Alive(s.timers) == 0 ==> Alive(t.timers) == 0 && Pending(t, base) == Pending(s, base))
  {
    AliveMeansSome(s.timers);
    match a
    case Take(i) =>
      if i == Fire {
        assert Effects(lower, true, s.local, Fire)[1..] == [];
      } else {
        assert Starts(Effects(lower, true, s.local, i)) == 0 by {
          assert i.Reply? ==> Effects(lower, true, s.local, i)[1..] == [];
        }
      }
    case Perform => assert s.todo[0] in s.todo;
    case _ =>
  }

  lemma {:induction false} RunKeepsPending(lower: char -> char, s: Sys, base: nat, run: seq<Action>)
    requires OnlyStarts(s.todo) && ValidRun(lower, s, run) && Meanwhile(run)
    ensures var t := End(lower, s, run);
            && OnlyStarts(t.todo) && Pending(t, base) >= Pending(s, base)
            && (Alive(s.timers) == 0 ==> Alive(t.timers) == 0 && Pending(t, base) == Pending(s, base))
    decreases |run|
  {
    hide OnlyStarts, Pending;
    if run != [] {
      assert run[0] in run;
      StepKeepsPending(lower, s, base, run[0]);
      RunKeepsPending(lower, Apply(lower, s, run[0]), base, run[1..]);
    }
  }

  // ---- After the final ----

  /** Nothing is under way that could start a respond. */
  ghost predicate Idle(s: Sys) {
    s.todo == [] && !s.signal && Alive(s.timers) == 0
  }

  /** Only new speech or a typed turn starts something again. */
  lemma {:induction false} IdleStartsNothing(lower: char -> char, s: Sys, run: seq<Action>)
    requires OnlyStarts(s.todo) && Starts(s.todo) == 0 && !s.signal && Alive(s.timers) == 0
    requires ValidRun(lower, s, run) && Meanwhile(run)
    ensures End(lower, s, run).started == s.started
    decreases |run|
  {
    hide OnlyStarts;
    if run != [] {
      var t := Apply(lower, s, run[0]);
      assert run[0] in run;
      StepKeepsPending(lower, s, s.started, run[0]);
      IdleStartsNothing(lower, t, run[1..]);
    }
  }

  /** run() takes a confirming final and performs its two operations. */
  lemma Confirmation(lower: char -> char, s: Sys, f: string)
    requires s.todo == [] && Judge(lower, s.local, f) == Confirms
    ensures var q := Performed(lower, Apply(lower, s, Take(Final(f))), 2);
            && q.todo == [] && !q.signal && q.started == s.started
            && q.local.lastUserText == f && !q.local.speculating
            && q.local.history == s.local.history[..|s.local.history| - 1] + [Last(s.local.history).(text := f)]
            && (Alive(s.timers) == 0 ==> Idle(q))
  {
    hide Text.Similar, Alive;
    var a := Apply(lower, s, Take(Final(f)));
    assert a.todo == [CancelTimer, Drain];
    var b := Apply(lower, a, Perform);
    assert b.todo == [Drain];
    var c := Apply(lower, b, Perform);
    assert c.todo == [];
    assert Performed(lower, b, 1) == c;
    CancelKeepsDead(s);
  }

  lemma CancelKeepsDead(s: Sys)
    ensures Alive(s.timers) == 0 ==> Cancelled(s) == s.timers
  {
    AliveMeansSome(s.timers);
  }

  /** A speculation whose signal is about to be sent is confirmed by a final later on. If the signal
      has been taken by then, a respond was started for the turn. If it is still queued, the
      final's own cancelPending drains it, and with no timer running the turn is not answered:
      not by then, and not later either until there is new speech or a typed turn. */
  lemma ConfirmedTurnIsAnsweredExactly(lower: char -> char, s: Sys, run: seq<Action>, f: string, later: seq<Action>)
    requires s.todo == [Signal] && !s.signal && ValidRun(lower, s, run) && Meanwhile(run)
    requires var e := End(lower, s, run); e.todo == [] && Judge(lower, e.local, f) == Confirms
    requires var q := Performed(lower, Apply(lower, End(lower, s, run), Take(Final(f))), 2);
             ValidRun(lower, q, later) && Meanwhile(later)
    ensures var e := End(lower, s, run);
            var q := Performed(lower, Apply(lower, e, Take(Final(f))), 2);
            && (!e.signal ==> e.started > s.started)
            && (Alive(s.timers) == 0 ==>
                  (End(lower, q, later).started == s.started <==> e.signal))
  {
    hide Performed, Apply, Judge;
    var e := End(lower, s, run);
    assert s.todo[1..] == [];
    RunKeepsPending(lower, s, s.started, run);
    Confirmation(lower, e, f);
    if Alive(s.timers) == 0 {
      IdleStartsNothing(lower, Performed(lower, Apply(lower, e, Take(Final(f))), 2), later);
    }
  }

  // ---- Whatever timers are still running ----

  function Fires(run: seq<Action>): nat {
    if run == [] then 0 else OneIf(run[0] == Take(Fire)) + Fires(run[1..])
  }

  function Responds(todo: seq<Effect>): nat {
    if todo == [] then 0 else OneIf(todo[0].StartRespond?) + Responds(todo[1..])
  }

  /** While a speculation is open every respond is started by a signal that was selected. */
  lemma {:induction false} StartsAreFires(lower: char -> char, s: Sys, run: seq<Action>)
    requires ValidRun(lower, s, run) && Meanwhile(run)
    ensures var t := End(lower, s, run);
            t.started + Responds(t.todo) == s.started + Responds(s.todo) + Fires(run)
    decreases |run|
  {
    if run != [] {
      assert run[0] in run;
      RespondsStep(lower, s, run[0]);
      StartsAreFires(lower, Apply(lower, s, run[0]), run[1..]);
    }
  }

  lemma RespondsStep(lower: char -> char, s: Sys, a: Action)
    requires Enabled(s, a) && (a.Take? ==> a.i.Fire? || a.i.Reply? || a.i.Restore?)
    ensures var t := Apply(lower, s, a);
            t.started + Responds(t.todo) == s.started + Responds(s.todo) + OneIf(a == Take(Fire))
  {
    if a.Take? {
      var fx := Effects(lower, true, s.local, a.i);
      assert a.i.Fire? || a.i.Reply? ==> |fx| == 1 && fx[1..] == [];
    }
  }

  lemma {:induction false} FiresCount(run: seq<Action>)
    ensures Fires(run) == 0 <==> Take(Fire) !in run
    decreases |run|
  {
    if run != [] {
      FiresCount(run[1..]);
    }
  }

  /** After a cancel every running timer may leave, by giving up or by a last signal. */
  lemma {:induction false} TimersMayLeave(lower: char -> char, s: Sys) returns (run: seq<Action>)
    requires forall t :: 0 <= t < |s.timers| ==> s.timers[t] != Waiting(false)
    ensures ValidRun(lower, s, run) && NoTake(run)
    ensures var e := End(lower, s, run); Alive(e.timers) == 0 && e.todo == s.todo && e.started == s.started
    decreases Alive(s.timers)
  {
    AliveMeansSome(s.timers);
    if Alive(s.timers) == 0 {
      run := [];
    } else {
      var t: nat :| t < |s.timers| && !s.timers[t].Exited?;
      var a := if s.timers[t].Waiting? then GiveUp(t) else SignalOff(t);
      var next := Apply(lower, s, a);
      AliveUpdate(s.timers, t, Exited);
      var rest := TimersMayLeave(lower, next);
      run := [a] + rest;
      assert run[1..] == rest;
    }
  }

  /** After a confirming final, with any timers running: a schedule in which none of them answers. */
  lemma MayStayUnanswered(lower: char -> char, e: Sys, f: string) returns (later: seq<Action>)
    requires OneArmed(e) && e.todo == [] && Judge(lower, e.local, f) == Confirms
    ensures var q := Apply(lower, e, Take(Final(f)));
            && ValidRun(lower, q, later) && NoTake(later)
            && Idle(End(lower, q, later)) && End(lower, q, later).started == e.started
  {
    hide Next, Judge;
    var q := Apply(lower, e, Take(Final(f)));
    ConfirmTodo(lower, e, f);
    OneStep(lower, q, Perform);
    var c := Apply(lower, q, Perform);
    assert c.todo == [Drain];
    var leaving := TimersMayLeave(lower, c);
    var d := End(lower, c, leaving);
    OneStep(lower, d, Perform);
    RunConcat(lower, c, leaving, [Perform]);
    RunConcat(lower, q, [Perform], leaving + [Perform]);
    later := [Perform] + (leaving + [Perform]);
  }

  /** The confirmed turn stays unanswered in some schedule. */
  ghost predicate Forgettable(lower: char -> char, base: nat, e: Sys, f: string) {
    var q := Apply(lower, e, Take(Final(f)));
    exists later :: && ValidRun(lower, q, later) && NoTake(later)
                    && Idle(End(lower, q, later)) && End(lower, q, later).started == base
  }

  lemma {:induction false} StartedGrows(lower: char -> char, s: Sys, run: seq<Action>)
    requires ValidRun(lower, s, run)
    ensures End(lower, s, run).started >= s.started
    decreases |run|
  {
    if run != [] {
      StartedGrows(lower, Apply(lower, s, run[0]), run[1..]);
    }
  }

  /** With any number of timers running: after its confirming final a speculated turn can remain
      without any respond, and nothing under way that could start one, if and only if the final
      was taken before the loop had selected a pending signal since the speculation opened. */
  lemma ForgottenExactly(lower: char -> char, s: Sys, run: seq<Action>, f: string)
    requires OneArmed(s) && s.todo == [Signal] && ValidRun(lower, s, run) && Meanwhile(run)
    requires var e := End(lower, s, run); e.todo == [] && Judge(lower, e.local, f) == Confirms
    ensures Forgettable(lower, s.started, End(lower, s, run), f) <==> Take(Fire) !in run
  {
    hide Apply, Judge, Idle, OneArmed, Meanwhile;
    var e := End(lower, s, run);
    assert s.todo[1..] == [];
    StartsAreFires(lower, s, run);
    FiresCount(run);
    RunKeepsArmed(lower, s, run);
    var q := Apply(lower, e, Take(Final(f)));
    TakeStartsNothing(lower, e, Final(f));
    forall later | ValidRun(lower, q, later) ensures End(lower, q, later).started >= e.started {
      StartedGrows(lower, q, later);
    }
    if Take(Fire) !in run {
      var later := MayStayUnanswered(lower, e, f);
      assert Forgettable(lower, s.started, e, f);
    }
  }

  lemma TakeStartsNothing(lower: char -> char, s: Sys, i: Input)
    ensures Apply(lower, s, Take(i)).started == s.started
  {
  }

  /** It happens from the start: the same finished partial three times within the window, then
      that text as the final, before the signal is taken. No respond was ever started. */
  lemma UnansweredIsReachable(lower: char -> char, system: string, p: string, now: int)
    requires !Text.Similar(lower, p, "") && HasEnder(p)
    ensures exists s :: && Reaches(lower, Start(system), s) && Idle(s) && s.started == 0
                        && s.local.lastUserText == p
                        && s.local.history == Initial(system).history + [Message("user", p)]
  {
    hide Text.Similar, Apply, Next, Effects, Performed;
    var s0 := Start(system);
    assert ValidRun(lower, s0, []) && End(lower, s0, []) == s0;
    assert p != "";
    var s1 := AfterEarly(lower, s0, s0, p, now);
    var s2 := AfterEarly(lower, s0, s1, p, now);
    assert Potential(s2.local.stab, p, now);
    var a := Apply(lower, s2, Take(Partial(p, now)));
    ReachStep(lower, s0, s2, Take(Partial(p, now)));
    PartialTodo(lower, s2, p, now);
    ReachPerformed(lower, s0, a, 4);
    LastPartial(lower, s2, p, now);
    SpeculationOpens(lower, s2, p, now);
    var s3 := Performed(lower, a, 4);
    ReachStep(lower, s0, s3, Perform);
    SignalSent(lower, s3);
    var s4 := Apply(lower, s3, Perform);
    Text.SimilarityLaws(lower, p, p);
    ReachStep(lower, s0, s4, Take(Final(p)));
    ConfirmTodo(lower, s4, p);
    ReachPerformed(lower, s0, Apply(lower, s4, Take(Final(p))), 2);
    Confirmation(lower, s4, p);
  }

  lemma SpeculationOpens(lower: char -> char, s: Sys, p: string, now: int)
    requires !s.local.speculating && Potential(s.local.stab, p, now)
    ensures var l := Apply(lower, s, Take(Partial(p, now))).local;
            && l.speculating && l.lastUserText == s.local.lastUserText
            && l.history == s.local.history + [Message("user", p)]
  {
  }

  lemma SignalSent(lower: char -> char, s: Sys)
    requires s.todo == [Signal]
    ensures Apply(lower, s, Perform) == s.(todo := [], signal := true)
  {
  }

  lemma ConfirmTodo(lower: char -> char, s: Sys, f: string)
    requires Judge(lower, s.local, f) == Confirms
    ensures Apply(lower, s, Take(Final(f))).todo == [CancelTimer, Drain]
  {
    hide Text.Similar;
  }
}
