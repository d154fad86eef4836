/**
 Barge-in across generations: the orchestrator loop, every respond() it has started, the audio
 channel recvCh they share and the channel modelTurnCh that takes replies back. A step is one
 channel operation or one critical section; which step comes next is up to the scheduler.
 */
module BargeIn {
  import opened Common
  import opened Segments
  import opened Generation

  const RECV_CAP := 64
  const TURN_CAP := 8

  /** Where the loop is; captured is the handle bargeIn read. */
  datatype Loop =
    | Selecting
    | Awaiting(captured: Option<nat>) // <-done
    | Emptying(captured: Option<nat>) // draining recvCh

  datatype Sys = Sys(
    gens: seq<Gen>,
    handle: Option<nat>, // genCancel and genDone: the generation that installed last
    recv: seq<nat>,      // recvCh, each chunk by the generation that made it
    turns: seq<string>,  // modelTurnCh
    loop: Loop)

  datatype Step =
    | Spawn              // startRespond
    | TakeTurn
    | BargeIn
    | DoneSeen
    | Drop
    | BargeReturns
    | Consume            // Recv
    | Of(k: nat, act: Act)

  const START := Sys([], None, [], [], Selecting)

  ghost predicate Can(s: Sys, t: Step) {
    match t
    case Spawn => s.loop == Selecting
    case TakeTurn => s.loop == Selecting && s.turns != []
    case BargeIn => s.loop == Selecting
    case DoneSeen => s.loop.Awaiting? && (s.loop.captured.None? || Ended(s, s.loop.captured.value))
    case Drop => s.loop.Emptying? && s.recv != []
    case BargeReturns => s.loop.Emptying? && s.recv == []
    case Consume => s.recv != []
    case Of(k, a) => k < |s.gens| && a != Cancel && Enabled(s.gens[k], a, |s.recv| < RECV_CAP, |s.turns| < TURN_CAP)
  }

  predicate Ended(s: Sys, k: nat) {
    k < |s.gens| && s.gens[k].phase == Finished
  }

  function Did(h: Hooks, s: Sys, t: Step): Sys {
    match t
    case Spawn => s.(gens := s.gens + [Fresh()])
    case TakeTurn => if s.turns == [] then s else s.(turns := s.turns[1..])
    case BargeIn =>
      s.(loop := Awaiting(s.handle),
         gens := if s.handle.Some? && s.handle.value < |s.gens|
                 then s.gens[s.handle.value := Apply(h, s.gens[s.handle.value], Cancel)] else s.gens)
    case DoneSeen => if s.loop.Awaiting? then s.(loop := Emptying(s.loop.captured)) else s
    case Drop => if s.recv == [] then s else s.(recv := s.recv[1..])
    case BargeReturns => s.(loop := Selecting)
    case Consume => if s.recv == [] then s else s.(recv := s.recv[1..])
    case Of(k, a) =>
      if k >= |s.gens| then s
      else
        s.(gens := s.gens[k := Apply(h, s.gens[k], a)],
           handle := if a == Install then Some(k) else s.handle,
           recv := if a == Chunk then s.recv + [k] else s.recv,
           turns := if a == HandBack && Flatten(s.gens[k].received) != ""
                    then s.turns + [Flatten(s.gens[k].received)] else s.turns)
  }

  ghost predicate Run(h: Hooks, s: Sys, run: seq<Step>)
    decreases |run|
  {
    run == [] || (Can(s, run[0]) && Run(h, Did(h, s, run[0]), run[1..]))
  }

  function After(h: Hooks, s: Sys, run: seq<Step>): Sys
    decreases |run|
  {
    if run == [] then s else After(h, Did(h, s, run[0]), run[1..])
  }

  // ---- What every step keeps ----

  ghost predicate GensInv(h: Hooks, s: Sys) {
    forall k :: 0 <= k < |s.gens| ==> GenInv(h, s.gens[k])
  }

  ghost predicate LoopInv(s: Sys) {
    && (s.handle.Some? ==> s.handle.value < |s.gens| && s.gens[s.handle.value].phase != Spawned)
    && (s.loop.Awaiting? && s.loop.captured.Some? ==>
          && s.loop.captured.value < |s.gens|
          && s.gens[s.loop.captured.value].cancelled
          && s.gens[s.loop.captured.value].phase != Spawned)
    && (s.loop.Emptying? && s.loop.captured.Some? ==> Ended(s, s.loop.captured.value))
    && |s.recv| <= RECV_CAP && |s.turns| <= TURN_CAP
  }

  ghost predicate Inv(h: Hooks, s: Sys) {
    GensInv(h, s) && LoopInv(s)
  }

  lemma ActKeepsInv(h: Hooks, g: Gen, a: Act)
    requires GenInv(h, g) && Enabled(g, a, true, true)
    ensures GenInv(h, Apply(h, g, a))
  {
    StepKeepsSegmenter(h, g, a);
    StepKeepsWorker(h, g, a);
  }

  lemma ActKeepsPhase(h: Hooks, g: Gen, a: Act, recvRoom: bool, turnRoom: bool)
    requires Enabled(g, a, recvRoom, turnRoom)
    ensures Enabled(g, a, true, true)
    ensures g.phase != Spawned ==> Apply(h, g, a).phase != Spawned
    ensures g.phase == Finished ==> Apply(h, g, a).phase == Finished && (a == Cancel || Apply(h, g, a) == g)
    ensures g.cancelled || a == Cancel ==> Apply(h, g, a).cancelled
    ensures a == Install ==> Apply(h, g, a).phase == Installed
    ensures a == Chunk ==> g.phase == Streaming && recvRoom
    ensures a == HandBack && Flatten(g.received) != "" ==> turnRoom
    ensures Flatten(g.received) != "" ==> Flatten(Apply(h, g, a).received) != ""
  {
    hide Token, EndsSentence, Flatten;
    if a == Receive {
      FlattenSnoc(g.received, g.deltas[0]);
    }
  }

  lemma CancelEnabled(g: Gen)
    ensures Enabled(g, Cancel, true, true)
  {
  }

  lemma StepKeepsInv(h: Hooks, s: Sys, t: Step)
    requires Inv(h, s) && Can(s, t)
    ensures Inv(h, Did(h, s, t))
  {
    hide GenInv, Flatten, Apply, Enabled;
    match t
    case Spawn => FreshInv(h);
    case BargeIn =>
      if s.handle.Some? {
        var g := s.gens[s.handle.value];
        CancelEnabled(g);
        ActKeepsInv(h, g, Cancel);
        ActKeepsPhase(h, g, Cancel, true, true);
      }
    case Of(k, a) =>
      ActKeepsPhase(h, s.gens[k], a, |s.recv| < RECV_CAP, |s.turns| < TURN_CAP);
      ActKeepsInv(h, s.gens[k], a);
    case _ =>
  }

  lemma {:induction false} RunKeepsInv(h: Hooks, s: Sys, run: seq<Step>)
    requires Inv(h, s) && Run(h, s, run)
    ensures Inv(h, After(h, s, run))
    decreases |run|
  {
    if run != [] {
      StepKeepsInv(h, s, run[0]);
      RunKeepsInv(h, Did(h, s, run[0]), run[1..]);
    }
  }

  // ---- The barrier ----

  ghost predicate Silenced(s: Sys, k: nat) {
    Ended(s, k) && k !in s.recv
  }

  lemma StepKeepsSilence(h: Hooks, s: Sys, t: Step, k: nat)
    requires Can(s, t) && Silenced(s, k)
    ensures Silenced(Did(h, s, t), k)
  {
    hide Flatten, Apply, Enabled;
    match t
    case BargeIn =>
      if s.handle == Some(k) {
        CancelEnabled(s.gens[k]);
        ActKeepsPhase(h, s.gens[k], Cancel, true, true);
      }
    case Of(j, a) => ActKeepsPhase(h, s.gens[j], a, |s.recv| < RECV_CAP, |s.turns| < TURN_CAP);
    case _ =>
  }

  lemma {:induction false} SilenceLasts(h: Hooks, s: Sys, run: seq<Step>, k: nat)
    requires Run(h, s, run) && Silenced(s, k)
    ensures Silenced(After(h, s, run), k)
    decreases |run|
  {
    if run != [] {
      StepKeepsSilence(h, s, run[0], k);
      SilenceLasts(h, Did(h, s, run[0]), run[1..], k);
    }
  }

  /** Barge-in barrier, for every interleaving of any number of generations: from the moment
      bargeIn returns, the generation it cancelled has no audio in recvCh and never adds any. */
  lemma Barrier(h: Hooks, before: seq<Step>, after: seq<Step>)
    requires Run(h, START, before)
    requires var s := After(h, START, before);
             && Can(s, BargeReturns) && s.loop.captured.Some?
             && Run(h, Did(h, s, BargeReturns), after)
    ensures var s := After(h, START, before);
            s.loop.captured.value !in After(h, Did(h, s, BargeReturns), after).recv
  {
    RunKeepsInv(h, START, before);
    var s := After(h, START, before);
    SilenceLasts(h, Did(h, s, BargeReturns), after, s.loop.captured.value);
  }

  /** The installed handle belongs to the only generation that may still be running. */
  ghost predicate OneInFlight(s: Sys) {
    forall k :: 0 <= k < |s.gens| ==>
      Ended(s, k) || Some(k) == if s.loop == Selecting then s.handle else s.loop.captured
  }

  ghost predicate AllEnded(s: Sys) {
    forall k :: 0 <= k < |s.gens| ==> Ended(s, k)
  }

  lemma {:induction false} WaitKeepsOne(h: Hooks, s: Sys, run: seq<Step>)
    requires Inv(h, s) && OneInFlight(s) && !s.loop.Selecting?
    requires Run(h, s, run) && BargeReturns !in run
    ensures var e := After(h, s, run); Inv(h, e) && OneInFlight(e) && !e.loop.Selecting?
    decreases |run|
  {
    hide GenInv, Flatten, Apply, Enabled;
    if run != [] {
      var t := run[0];
      StepKeepsInv(h, s, t);
      if t.Of? {
        ActKeepsPhase(h, s.gens[t.k], t.act, |s.recv| < RECV_CAP, |s.turns| < TURN_CAP);
      }
      WaitKeepsOne(h, Did(h, s, t), run[1..]);
    }
  }

  lemma {:induction false} QuietUntilSpawn(h: Hooks, s: Sys, run: seq<Step>)
    requires Inv(h, s) && AllEnded(s) && s.recv == [] && Run(h, s, run) && Spawn !in run
    ensures var e := After(h, s, run); Inv(h, e) && AllEnded(e) && e.recv == []
    decreases |run|
  {
    hide GenInv, Flatten, Apply, Enabled;
    if run != [] {
      var t := run[0];
      StepKeepsInv(h, s, t);
      assert t.Of? ==> Ended(s, t.k);
      assert s.handle.Some? ==> Ended(s, s.handle.value);
      if t.BargeIn? && s.handle.Some? {
        CancelEnabled(s.gens[s.handle.value]);
        ActKeepsPhase(h, s.gens[s.handle.value], Cancel, true, true);
      }
      if t.Of? {
        ActKeepsPhase(h, s.gens[t.k], t.act, |s.recv| < RECV_CAP, |s.turns| < TURN_CAP);
      }
      assert |Did(h, s, t).gens| == |s.gens|;
      assert forall k :: 0 <= k < |s.gens| ==> Ended(s, k) ==> Ended(Did(h, s, t), k);
      QuietUntilSpawn(h, Did(h, s, t), run[1..]);
    }
  }

  /** With at most one generation in flight and its handle installed, barging in silences the
      bot: from the return on, recvCh is empty until the next generation is started. */
  lemma OneInFlightIsSilenced(h: Hooks, before: seq<Step>, during: seq<Step>, after: seq<Step>)
    requires Run(h, START, before)
    requires var s := After(h, START, before); OneInFlight(s) && Can(s, BargeIn)
    requires var s := Did(h, After(h, START, before), BargeIn);
             && Run(h, s, during) && BargeReturns !in during
             && Can(After(h, s, during), BargeReturns)
             && Run(h, Did(h, After(h, s, during), BargeReturns), after) && Spawn !in after
    ensures var s := Did(h, After(h, START, before), BargeIn);
            After(h, Did(h, After(h, s, during), BargeReturns), after).recv == []
  {
    hide GenInv, Flatten, Apply, Enabled, Run, After;
    RunBase(h, START);
    RunKeepsInv(h, START, before);
    var p := After(h, START, before);
    StepKeepsInv(h, p, BargeIn);
    var s := Did(h, p, BargeIn);
    if p.handle.Some? {
      CancelEnabled(p.gens[p.handle.value]);
      ActKeepsPhase(h, p.gens[p.handle.value], Cancel, true, true);
    }
    WaitKeepsOne(h, s, during);
    var e := After(h, s, during);
    StepKeepsInv(h, e, BargeReturns);
    assert forall k :: 0 <= k < |e.gens| ==> Ended(e, k);
    assert forall k :: 0 <= k < |e.gens| ==> Ended(e, k) ==> Ended(Did(h, e, BargeReturns), k);
    QuietUntilSpawn(h, Did(h, e, BargeReturns), after);
  }

  lemma RunBase(h: Hooks, s: Sys)
    ensures Run(h, s, []) && After(h, s, []) == s
  {
  }

  // ---- What is handed back ----

  /** In every reachable state a generation that hands its reply back puts exactly the original text
      it received behind the unread replies, none if there is none: the whole stream if it was
      never cancelled, and a part from its beginning otherwise. */
  lemma HandedBackIsTheReply(h: Hooks, before: seq<Step>, k: nat)
    requires Run(h, START, before) && Can(After(h, START, before), Of(k, HandBack))
    ensures var s := After(h, START, before);
            var g := s.gens[k];
            var text := Flatten(g.received);
            && Did(h, s, Of(k, HandBack)).turns == s.turns + (if text == "" then [] else [text])
            && g.received <= g.stream && (!g.cancelled ==> text == Flatten(g.stream))
  {
    RunKeepsInv(h, START, before);
    var g := After(h, START, before).gens[k];
    hide Run, After, Flatten, Cut, Texts, Groups, Spoken, Open, Closed;
    assert GenInv(h, g);
    assert g.deltas == [] && g.received + [] == g.received;
  }

  // ---- When the wait ends ----

  ghost predicate LeadsTo(h: Hooks, s: Sys, goal: Sys -> bool) {
    exists run :: Run(h, s, run) && Spawn !in run && goal(After(h, s, run))
  }

  lemma LeadsNow(h: Hooks, s: Sys, goal: Sys -> bool)
    requires goal(s)
    ensures LeadsTo(h, s, goal)
  {
    RunBase(h, s);
  }

  lemma LeadsByStep(h: Hooks, s: Sys, t: Step, goal: Sys -> bool)
    requires Can(s, t) && t != Spawn && LeadsTo(h, Did(h, s, t), goal)
    ensures LeadsTo(h, s, goal)
  {
    var run :| Run(h, Did(h, s, t), run) && Spawn !in run && goal(After(h, Did(h, s, t), run));
    var all := [t] + run;
    assert all[1..] == run;
    assert Run(h, s, all) && After(h, s, all) == After(h, Did(h, s, t), run);
  }

  const WAIT_OVER := (s: Sys) => !s.loop.Awaiting?

  ghost predicate HandBackBlocked(s: Sys, k: nat) {
    && k < |s.gens|
    && s.gens[k].phase != Finished
    && |s.turns| >= TURN_CAP
    && Flatten(s.gens[k].received) != ""
  }

  lemma {:induction false} WaitCanEnd(h: Hooks, s: Sys, k: nat)
    requires Inv(h, s) && s.loop == Awaiting(Some(k)) && !HandBackBlocked(s, k)
    ensures LeadsTo(h, s, WAIT_OVER)
    decreases Left(s.gens[k]).phase, Left(s.gens[k]).tokens, Left(s.gens[k]).segments, Left(s.gens[k]).audio
  {
    hide GenInv, Flatten, Apply, Enabled, NextAct, LeadsTo;
    var g := s.gens[k];
    if g.phase == Finished {
      LeadsNow(h, Did(h, s, DoneSeen), WAIT_OVER);
      LeadsByStep(h, s, DoneSeen, WAIT_OVER);
    } else {
      var a := NextAct(g);
      CancelledNeverStuck(h, g, |s.turns| < TURN_CAP);
      MoreRoom(g, a, |s.recv| < RECV_CAP, |s.turns| < TURN_CAP);
      StepShrinks(h, g, a);
      StepKeepsInv(h, s, Of(k, a));
      HandBackEnds(h, g, a);
      WaitCanEnd(h, Did(h, s, Of(k, a)), k);
      LeadsByStep(h, s, Of(k, a), WAIT_OVER);
    }
  }

  lemma MoreRoom(g: Gen, a: Act, recvRoom: bool, turnRoom: bool)
    requires Enabled(g, a, false, turnRoom)
    ensures Enabled(g, a, recvRoom, turnRoom) && Enabled(g, a, true, true)
  {
  }

  lemma HandBackEnds(h: Hooks, g: Gen, a: Act)
    ensures a == HandBack ==> Apply(h, g, a).phase == Finished
  {
  }

  lemma BlockedCannotFinish(h: Hooks, g: Gen, a: Act, recvRoom: bool)
    requires GenInv(h, g) && g.phase != Finished && Flatten(g.received) != "" && Enabled(g, a, recvRoom, false)
    ensures Apply(h, g, a).phase != Finished
  {
    hide SegmenterInv;
  }

  lemma {:induction false} BlockedStays(h: Hooks, s: Sys, k: nat, run: seq<Step>)
    requires Inv(h, s) && s.loop == Awaiting(Some(k)) && HandBackBlocked(s, k) && Run(h, s, run)
    ensures var e := After(h, s, run); Inv(h, e) && HandBackBlocked(e, k) && e.loop == Awaiting(Some(k))
    decreases |run|
  {
    hide GenInv, Flatten, Apply, Enabled;
    if run != [] {
      var t := run[0];
      StepKeepsInv(h, s, t);
      if t.Of? {
        ActKeepsPhase(h, s.gens[t.k], t.act, |s.recv| < RECV_CAP, |s.turns| < TURN_CAP);
        if t.k == k {
          BlockedCannotFinish(h, s.gens[k], t.act, |s.recv| < RECV_CAP);
        }
      }
      BlockedStays(h, Did(h, s, t), k, run[1..]);
    }
  }

  /** bargeIn can come back from its wait exactly when the generation it waits for has ended, has
      received no text yet, or finds a free slot in modelTurnCh. With eight replies unread and
      text received it waits for ever, since the waiting loop is the only reader. */
  lemma WaitEndsExactly(h: Hooks, before: seq<Step>, k: nat)
    requires Run(h, START, before) && After(h, START, before).loop == Awaiting(Some(k))
    ensures var s := After(h, START, before);
            && k < |s.gens|
            && (LeadsTo(h, s, WAIT_OVER) <==>
                Ended(s, k) || |s.turns| < TURN_CAP || Flatten(s.gens[k].received) == "")
  {
    hide GenInv, Flatten, Apply, Enabled;
    RunKeepsInv(h, START, before);
    var s := After(h, START, before);
    if HandBackBlocked(s, k) {
      forall run | Run(h, s, run) ensures After(h, s, run).loop.Awaiting? {
        BlockedStays(h, s, k, run);
      }
    } else {
      WaitCanEnd(h, s, k);
    }
  }

  // ---- What barge-in does not reach ----

  function Audible(k: nat): Sys -> bool {
    (s: Sys) => k in s.recv
  }

  /** Acts of one generation that touch neither channel shared with the others. */
  ghost predicate Private(acts: seq<Act>) {
    Cancel !in acts && Chunk !in acts && HandBack !in acts && Install !in acts
  }

  lemma PrivateNeedsNoRoom(g: Gen, a: Act, recvRoom: bool, turnRoom: bool)
    requires Enabled(g, a, true, true) && a != Chunk && a != HandBack
    ensures Enabled(g, a, recvRoom, turnRoom)
  {
  }

  /** g can get to the state `to` on its own. */
  ghost predicate Comes(h: Hooks, g: Gen, to: Gen) {
    exists acts :: ValidActs(h, g, acts) && Private(acts) && EndOf(h, g, acts) == to
  }

  lemma ComesNow(h: Hooks, g: Gen)
    ensures Comes(h, g, g)
  {
    assert ValidActs(h, g, []) && Private([]) && EndOf(h, g, []) == g;
  }

  lemma ComesByAct(h: Hooks, g: Gen, a: Act, to: Gen)
    requires Enabled(g, a, true, true) && a !in {Cancel, Chunk, HandBack, Install}
    requires Comes(h, Apply(h, g, a), to)
    ensures Comes(h, g, to)
  {
    hide Apply, Enabled;
    var acts :| ValidActs(h, Apply(h, g, a), acts) && Private(acts) && EndOf(h, Apply(h, g, a), acts) == to;
    var all := [a] + acts;
    assert all[1..] == acts;
    assert ValidActs(h, g, all) && Private(all) && EndOf(h, g, all) == to;
  }

  /** What has become of a generation that received one delta and has begun to speak it. */
  function Answering(h: Hooks, g: Gen, delta: string, chunks: Option<nat>): Gen {
    var token := Token(h, delta, "");
    Gen(Streaming, g.cancelled, [delta], [], [delta], "", !EndsSentence(h, token), None, [], false,
        if chunks.Some? then Speaking(chunks.value) else Idle, chunks.Some?, [(token, true)], [])
  }

  lemma CutIsSpoken(h: Hooks, g: Gen, token: string, chunks: Option<nat>)
    requires g.phase == Streaming && g.outbox == Some(token) && g.chan == [] && g.worker == Idle
    ensures Comes(h, g, g.(outbox := None, worker := if chunks.Some? then Speaking(chunks.value) else Idle,
                           quick := chunks.Some? && g.quick, spoken := g.spoken + [(token, g.quick)]))
  {
    hide Comes;
    var sent := Apply(h, g, Send);
    assert sent.chan == [token] && sent.chan[1..] == [];
    ComesNow(h, Apply(h, sent, Synthesize(chunks)));
    ComesByAct(h, sent, Synthesize(chunks), Apply(h, sent, Synthesize(chunks)));
    ComesByAct(h, g, Send, Apply(h, sent, Synthesize(chunks)));
  }

  lemma AnswerComes(h: Hooks, g: Gen, delta: string, chunks: Option<nat>)
    requires g == Fresh().(phase := Installed, cancelled := g.cancelled) && Token(h, delta, "") != ""
    ensures Comes(h, g, Answering(h, g, delta, chunks))
  {
    assert Flatten<char>([]) == "" && [delta][1..] == [];
    hide EndsSentence, Token, Comes, Flatten;
    var token, to := Token(h, delta, ""), Answering(h, g, delta, chunks);
    assert "" + token == token && [] + [(token, true)] == [(token, true)] && [] + [delta] == [delta];
    var g1 := Apply(h, g, Generated([delta]));
    var g2 := Received(h, g1);
    var g3 := g2.(seg := "", outbox := Some(token), flushed := !EndsSentence(h, token));
    assert (if EndsSentence(h, token) then g2 else Apply(h, g2, Flush)) == g3;
    CutIsSpoken(h, g3, token, chunks);
    if !EndsSentence(h, token) {
      ComesByAct(h, g2, Flush, to);
    }
    ComesByAct(h, g1, Receive, to);
    ComesByAct(h, g, Generated([delta]), to);
  }

  /** None of the deltas still to come will give a token to speak. */
  predicate NothingMore(h: Hooks, received: seq<string>, deltas: seq<string>)
    decreases |deltas|
  {
    deltas == [] ||
    (Token(h, deltas[0], Flatten(received)) == "" && NothingMore(h, received + [deltas[0]], deltas[1..]))
  }

  /** The generation has, or may still get, something for its worker to say. */
  predicate MaySpeak(h: Hooks, g: Gen) {
    match g.phase
    case Spawned => true
    case Installed => true
    case Finished => false
    case Streaming =>
      && (g.worker == Idle || g.worker.Speaking?)
      && (HasAudio(g) || g.chan != [] || g.outbox.Some? || g.seg != "" || !NothingMore(h, g.received, g.deltas))
  }

  lemma SilentStays(h: Hooks, g: Gen, a: Act)
    requires !MaySpeak(h, g) && Enabled(g, a, true, true)
    ensures !MaySpeak(h, Apply(h, g, a)) && a != Chunk
  {
    hide Token, EndsSentence, Flatten;
  }

  lemma {:induction false} SilentForever(h: Hooks, s: Sys, k: nat, run: seq<Step>)
    requires k < |s.gens| && !MaySpeak(h, s.gens[k]) && k !in s.recv && Run(h, s, run)
    ensures k !in After(h, s, run).recv
    decreases |run|
  {
    hide MaySpeak, Apply, Enabled, Flatten;
    if run != [] {
      var t := run[0];
      if t.BargeIn? && s.handle == Some(k) {
        CancelEnabled(s.gens[k]);
        SilentStays(h, s.gens[k], Cancel);
      }
      if t.Of? && t.k == k {
        ActKeepsPhase(h, s.gens[k], t.act, |s.recv| < RECV_CAP, |s.turns| < TURN_CAP);
        SilentStays(h, s.gens[k], t.act);
      }
      SilentForever(h, Did(h, s, t), k, run[1..]);
    }
  }

  /** The next act towards a chunk. */
  function Voice(g: Gen, delta: string): Act {
    if g.phase == Spawned then Install
    else if g.phase == Installed then Generated([delta])
    else if HasAudio(g) then Chunk
    else if g.worker.Speaking? then SegmentDone
    else if g.chan != [] then Synthesize(Some(1))
    else if g.outbox.Some? then Send
    else if g.deltas != [] then Receive
    else Flush
  }

  lemma VoiceGoesOn(h: Hooks, g: Gen, delta: string)
    requires MaySpeak(h, g) && PhaseInv(g) && Token(h, delta, "") != ""
    ensures var a := Voice(g, delta);
            && Enabled(g, a, true, true) && a != Cancel && a != HandBack
            && (a != Chunk ==> Enabled(g, a, false, false) && MaySpeak(h, Apply(h, g, a)))
  {
    if Voice(g, delta) == Generated([delta]) {
      assert Flatten<char>([]) == "";
      assert !NothingMore(h, [], [delta]);
    }
    assert g.deltas == [] ==> NothingMore(h, g.received, g.deltas);
    hide Token, EndsSentence, Flatten, NothingMore;
    if Voice(g, delta) == Receive {
      ReceiveGoesOn(h, g);
    } else {
      hide Received;
    }
  }

  lemma ReceiveGoesOn(h: Hooks, g: Gen)
    requires MaySpeak(h, g) && Enabled(g, Receive, false, false) && !HasAudio(g) && g.chan == []
    ensures MaySpeak(h, Received(h, g))
  {
    hide Token, EndsSentence, Flatten;
  }

  lemma {:induction false} VoiceIsHeard(h: Hooks, s: Sys, k: nat, delta: string)
    requires Inv(h, s) && k < |s.gens| && MaySpeak(h, s.gens[k]) && Token(h, delta, "") != ""
    ensures LeadsTo(h, s, Audible(k))
    decreases Left(s.gens[k]).phase, Left(s.gens[k]).tokens, Left(s.gens[k]).segments, Left(s.gens[k]).audio, |s.recv|
  {
    hide LeadsTo, GenInv, MaySpeak, Apply, Flatten, Enabled, Voice, Token;
    var g := s.gens[k];
    var a := Voice(g, delta);
    PhaseOf(h, g);
    VoiceGoesOn(h, g, delta);
    if a != Chunk {
      NeedsNoRoom(g, a, |s.recv| < RECV_CAP, |s.turns| < TURN_CAP);
      StepShrinks(h, g, a);
      StepKeepsInv(h, s, Of(k, a));
      VoiceIsHeard(h, Did(h, s, Of(k, a)), k, delta);
      LeadsByStep(h, s, Of(k, a), Audible(k));
    } else if |s.recv| < RECV_CAP {
      ChunkEnabled(g, |s.turns| < TURN_CAP);
      LeadsNow(h, Did(h, s, Of(k, Chunk)), Audible(k));
      LeadsByStep(h, s, Of(k, Chunk), Audible(k));
    } else {
      StepKeepsInv(h, s, Consume);
      VoiceIsHeard(h, Did(h, s, Consume), k, delta);
      LeadsByStep(h, s, Consume, Audible(k));
    }
  }

  lemma PhaseOf(h: Hooks, g: Gen)
    requires GenInv(h, g)
    ensures PhaseInv(g)
  {
  }

  lemma NeedsNoRoom(g: Gen, a: Act, recvRoom: bool, turnRoom: bool)
    requires Enabled(g, a, false, false)
    ensures Enabled(g, a, recvRoom, turnRoom)
  {
  }

  lemma ChunkEnabled(g: Gen, turnRoom: bool)
    requires Enabled(g, Chunk, true, true)
    ensures Enabled(g, Chunk, true, turnRoom)
  {
  }

  /** Which generations can still be heard, from any reachable state in which none of their audio
      is queued, say when bargeIn has just returned: exactly those that have, or may still get,
      something to say. Among them are generations that were started but have not installed
      their handle, and older ones whose handle was displaced; startRespond cancels neither. */
  lemma AudibleExactly(h: Hooks, before: seq<Step>, k: nat, delta: string)
    requires Run(h, START, before) && Token(h, delta, "") != ""
    requires k < |After(h, START, before).gens| && k !in After(h, START, before).recv
    ensures var s := After(h, START, before); LeadsTo(h, s, Audible(k)) <==> MaySpeak(h, s.gens[k])
  {
    hide MaySpeak, Token, GenInv;
    RunKeepsInv(h, START, before);
    var s := After(h, START, before);
    if MaySpeak(h, s.gens[k]) {
      VoiceIsHeard(h, s, k, delta);
    } else {
      forall run | Run(h, s, run) ensures k !in After(h, s, run).recv {
        SilentForever(h, s, k, run);
      }
    }
  }

  // ---- Runs from the start ----

  ghost predicate Reachable(h: Hooks, s: Sys) {
    exists run :: Run(h, START, run) && After(h, START, run) == s
  }

  lemma {:induction false} RunSnoc(h: Hooks, s: Sys, run: seq<Step>, t: Step)
    requires Run(h, s, run) && Can(After(h, s, run), t)
    ensures Run(h, s, run + [t]) && After(h, s, run + [t]) == Did(h, After(h, s, run), t)
    decreases |run|
  {
    if run == [] {
      assert [t][1..] == [] && run + [t] == [t];
      RunBase(h, Did(h, s, t));
    } else {
      assert (run + [t])[1..] == run[1..] + [t];
      RunSnoc(h, Did(h, s, run[0]), run[1..], t);
    }
  }

  lemma ReachStep(h: Hooks, s: Sys, t: Step)
    requires Reachable(h, s) && Can(s, t)
    ensures Reachable(h, Did(h, s, t))
  {
    var run :| Run(h, START, run) && After(h, START, run) == s;
    RunSnoc(h, START, run, t);
  }

  /** bargeIn captured the handle `captured` and returns, and from then on generation k can still
      be heard without a new one being started. */
  ghost predicate Survives(h: Hooks, before: seq<Step>, captured: Option<nat>, k: nat) {
    && Run(h, START, before)
    && var s := After(h, START, before);
       && s.loop == Emptying(captured) && Can(s, BargeReturns)
       && captured != Some(k)
       && LeadsTo(h, Did(h, s, BargeReturns), Audible(k))
  }

  lemma ReturnedAndAudible(h: Hooks, s: Sys, captured: Option<nat>, k: nat, delta: string)
    requires Reachable(h, s) && s.loop == Emptying(captured) && captured != Some(k)
    requires s.recv == [] && k < |s.gens| && MaySpeak(h, s.gens[k]) && Token(h, delta, "") != ""
    ensures exists before :: Survives(h, before, captured, k)
  {
    hide MaySpeak, Token, LeadsTo;
    var before :| Run(h, START, before) && After(h, START, before) == s;
    RunSnoc(h, START, before, BargeReturns);
    AudibleExactly(h, before + [BargeReturns], k, delta);
    assert Survives(h, before, captured, k);
  }

  /** A generation that was started but has not installed its handle when speech begins is not
      cancelled, and can be heard after the barge-in. */
  lemma UninstalledSurvives(h: Hooks, delta: string)
    requires Token(h, delta, "") != ""
    ensures exists before :: Survives(h, before, None, 0)
  {
    hide Reachable, Token;
    StartReachable(h);
    ReachStep(h, START, Spawn);
    var s1 := Did(h, START, Spawn);
    ReachStep(h, s1, BargeIn);
    var s2 := Did(h, s1, BargeIn);
    ReachStep(h, s2, DoneSeen);
    ReturnedAndAudible(h, Did(h, s2, DoneSeen), None, 0, delta);
  }

  /** A generation whose handle was displaced by a later one is not cancelled either. */
  lemma DisplacedSurvives(h: Hooks, delta: string)
    requires Token(h, delta, "") != ""
    ensures exists before :: Survives(h, before, Some(1), 0)
  {
    hide Reachable, Token;
    StartReachable(h);
    ReachStep(h, START, Spawn);
    var s1 := Did(h, START, Spawn);
    ReachStep(h, s1, Spawn);
    var s2 := Did(h, s1, Spawn);
    ReachStep(h, s2, Of(0, Install));
    var s3 := Did(h, s2, Of(0, Install));
    ReachStep(h, s3, Of(1, Install));
    var s4 := Did(h, s3, Of(1, Install));
    ReachStep(h, s4, BargeIn);
    var s5 := Did(h, s4, BargeIn);
    ReachStep(h, s5, Of(1, GenerateFails));
    var s6 := Did(h, s5, Of(1, GenerateFails));
    ReachStep(h, s6, DoneSeen);
    ReturnedAndAudible(h, Did(h, s6, DoneSeen), Some(1), 0, delta);
  }

  lemma StartReachable(h: Hooks)
    ensures Reachable(h, START)
  {
    RunBase(h, START);
  }

  // ---- The endless wait is reachable ----

  lemma {:induction false} ReachActs(h: Hooks, s: Sys, k: nat, acts: seq<Act>)
    requires Reachable(h, s) && k < |s.gens| && ValidActs(h, s.gens[k], acts) && Private(acts)
    ensures Reachable(h, s.(gens := s.gens[k := EndOf(h, s.gens[k], acts)]))
    decreases |acts|
  {
    hide Reachable, Apply;
    if acts == [] {
      assert s.gens[k := s.gens[k]] == s.gens;
    } else {
      var next := Did(h, s, Of(k, acts[0]));
      assert acts[0] in acts;
      assert next == s.(gens := s.gens[k := Apply(h, s.gens[k], acts[0])]);
      assert next.gens[k := EndOf(h, s.gens[k], acts)] == s.gens[k := EndOf(h, s.gens[k], acts)];
      PrivateNeedsNoRoom(s.gens[k], acts[0], |s.recv| < RECV_CAP, |s.turns| < TURN_CAP);
      ReachStep(h, s, Of(k, acts[0]));
      ReachActs(h, next, k, acts[1..]);
    }
  }

  /** A new generation gets as far as having spoken its only segment, without audio. */
  lemma NewGenerationAnswers(h: Hooks, s: Sys, delta: string) returns (e: Sys)
    requires Reachable(h, s) && s.loop == Selecting && Token(h, delta, "") != ""
    ensures var k := |s.gens|;
            && Reachable(h, e) && e.loop == Selecting && e.turns == s.turns
            && |e.gens| == k + 1 && e.handle == Some(k)
            && e.gens[k] == Answering(h, Fresh(), delta, None)
  {
    hide Reachable, Answering;
    var k := |s.gens|;
    ReachStep(h, s, Spawn);
    var s1 := Did(h, s, Spawn);
    ReachStep(h, s1, Of(k, Install));
    var s2 := Did(h, s1, Of(k, Install));
    AnswerComes(h, s2.gens[k], delta, None);
    AnsweringIsTheSame(h, s2.gens[k], delta);
    var acts :| ValidActs(h, s2.gens[k], acts) && Private(acts)
                && EndOf(h, s2.gens[k], acts) == Answering(h, s2.gens[k], delta, None);
    ReachActs(h, s2, k, acts);
    e := s2.(gens := s2.gens[k := EndOf(h, s2.gens[k], acts)]);
  }

  lemma AnsweringIsTheSame(h: Hooks, g: Gen, delta: string)
    requires !g.cancelled
    ensures Answering(h, g, delta, None) == Answering(h, Fresh(), delta, None)
  {
  }

  lemma {:induction false} UnreadReplies(h: Hooks, delta: string, n: nat) returns (s: Sys)
    requires Token(h, delta, "") != "" && delta != "" && n <= TURN_CAP
    ensures Reachable(h, s) && s.loop == Selecting && |s.turns| == n
    decreases n
  {
    if n == 0 {
      s := START;
      RunBase(h, START);
    } else {
      var p := UnreadReplies(h, delta, n - 1);
      var q := NewGenerationAnswers(h, p, delta);
      var k := |p.gens|;
      assert Flatten([delta]) == delta by { assert [delta][1..] == []; }
      hide Reachable, EndsSentence, Token, Flatten;
      ReachStep(h, q, Of(k, CloseSegments));
      var q1 := Did(h, q, Of(k, CloseSegments));
      ReachStep(h, q1, Of(k, WorkerExits));
      var q2 := Did(h, q1, Of(k, WorkerExits));
      ReachStep(h, q2, Of(k, HandBack));
      s := Did(h, q2, Of(k, HandBack));
    }
  }

  /** Eight unread replies and a ninth generation with text are enough: there is a run from the
      start to a wait that no continuation ends. */
  lemma BargeInCanHang(h: Hooks, delta: string)
    requires Token(h, delta, "") != "" && delta != ""
    ensures exists before, k :: Run(h, START, before) && After(h, START, before).loop == Awaiting(Some(k))
                                && !LeadsTo(h, After(h, START, before), WAIT_OVER)
  {
    var s := UnreadReplies(h, delta, TURN_CAP);
    var q := NewGenerationAnswers(h, s, delta);
    var k := |s.gens|;
    assert Flatten([delta]) == delta by { assert [delta][1..] == []; }
    ReachStep(h, q, BargeIn);
    var e := Did(h, q, BargeIn);
    var before :| Run(h, START, before) && After(h, START, before) == e;
    WaitEndsExactly(h, before, k);
  }
}
