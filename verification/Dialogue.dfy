/**
 What the orchestrator makes of a conversation: which turns end up in its history, what it
 publishes, when it barges in and what it asks the LLM to answer. Each is given by the inputs
 alone and shown to be what run() does over every sequence of them.
 */
module Dialogue {
  import opened Turn
  import Text
  import Loop = BargeIn

  // ---- The conversation ----

  /** The turns one input adds to a conversation whose last user text is given: restored ones, a
      reply, or a user text unless it repeats the last one. */
  function Added(lower: char -> char, last: string, i: Input): seq<Message> {
    match i
    case Final(text) => if Text.Similar(lower, text, last) then [] else [Message("user", text)]
    case Typed(text) => if Text.Similar(lower, text, last) then [] else [Message("user", text)]
    case Restore(msgs) => msgs
    case Reply(text) => [Message("model", text)]
    case _ => []
  }

  function LastText(lower: char -> char, last: string, i: Input): string {
    if (i.Final? || i.Typed?) && !Text.Similar(lower, i.text, last) then i.text else last
  }

  function Turns(lower: char -> char, last: string, inputs: seq<Input>): seq<Message>
    decreases |inputs|
  {
    if inputs == [] then []
    else Added(lower, last, inputs[0]) + Turns(lower, LastText(lower, last, inputs[0]), inputs[1..])
  }

  /** Without speculation the history is what it was, followed by the turns of the conversation;
      with it, by Turn.SpeculationIsInvisible, it is the same on every clean run. */
  lemma {:induction false} HistoryIsTheConversation(lower: char -> char, l: Local, inputs: seq<Input>)
    requires !l.speculating
    ensures After(lower, false, l, inputs).history == l.history + Turns(lower, l.lastUserText, inputs)
    decreases |inputs|
  {
    hide After, Next, Added, LastText, Turns;
    if inputs == [] {
      NoInputs(lower, l);
      NoTurns(lower, l);
    } else {
      var i, rest := inputs[0], inputs[1..];
      AfterFirst(lower, false, l, i, rest);
      assert [i] + rest == inputs;
      NeverSpeculates(lower, l, i);
      OneInput(lower, l, i);
      HistoryIsTheConversation(lower, Next(lower, false, l, i), rest);
      TurnsFirst(lower, l, inputs);
    }
  }

  lemma NoTurns(lower: char -> char, l: Local)
    ensures l.history + Turns(lower, l.lastUserText, []) == l.history
  {
  }

  lemma TurnsFirst(lower: char -> char, l: Local, inputs: seq<Input>)
    requires inputs != []
    ensures l.history + Turns(lower, l.lastUserText, inputs) ==
            l.history + Added(lower, l.lastUserText, inputs[0])
            + Turns(lower, LastText(lower, l.lastUserText, inputs[0]), inputs[1..])
  {
    hide Added, LastText;
  }

  lemma OneInput(lower: char -> char, l: Local, i: Input)
    requires !l.speculating
    ensures var n := Next(lower, false, l, i);
            && n.history == l.history + Added(lower, l.lastUserText, i)
            && n.lastUserText == LastText(lower, l.lastUserText, i)
  {
    hide Text.Similar, NextStability, Potential;
    assert l.history + [] == l.history;
  }

  // ---- What is published ----

  /** The transcript lines among the operations. */
  function Published(fx: seq<Effect>): seq<Message> {
    if fx == [] then []
    else (if fx[0].Emit? then [Message(fx[0].role, fx[0].text)] else []) + Published(fx[1..])
  }

  lemma {:induction false} PublishedConcat(a: seq<Effect>, b: seq<Effect>)
    ensures Published(a + b) == Published(a) + Published(b)
    decreases |a|
  {
    if a == [] {
      assert a + b == b;
      NonePublished();
    } else {
      PublishedConcat(a[1..], b);
      PublishedFirst(a);
      assert (a + b)[0] == a[0] && (a + b)[1..] == a[1..] + b;
      PublishedFirst(a + b);
    }
  }

  lemma PublishedFirst(fx: seq<Effect>)
    requires fx != []
    ensures Published(fx) ==
            (if fx[0].Emit? then [Message(fx[0].role, fx[0].text)] else []) + Published(fx[1..])
  {
  }

  /** The inputs that can add a turn to publish. */
  function Live(inputs: seq<Input>): seq<Input> {
    if inputs == [] then []
    else (if inputs[0].Restore? || inputs[0].Partial? then [] else [inputs[0]]) + Live(inputs[1..])
  }

  /** The operations of the inputs other than partials, whose live captions are not turns. */
  function TurnEffects(lower: char -> char, l: Local, inputs: seq<Input>): seq<Effect>
    decreases |inputs|
  {
    if inputs == [] then []
    else (if inputs[0].Partial? then [] else Effects(lower, false, l, inputs[0]))
         + TurnEffects(lower, Next(lower, false, l, inputs[0]), inputs[1..])
  }

  /** Every turn of the conversation that is not restored is published, once, under its role and in
      order, and nothing else is but the captions. */
  lemma {:induction false} TurnsArePublished(lower: char -> char, l: Local, inputs: seq<Input>)
    requires !l.speculating
    ensures Published(TurnEffects(lower, l, inputs)) == Turns(lower, l.lastUserText, Live(inputs))
    decreases |inputs|
  {
    if inputs != [] {
      hide Next, Effects, Added, LastText, Published;
      var i, rest := inputs[0], inputs[1..];
      var n := Next(lower, false, l, i);
      NeverSpeculates(lower, l, i);
      OneInput(lower, l, i);
      TurnsArePublished(lower, n, rest);
      PublishedByOne(lower, l, i);
      var fx := if i.Partial? then [] else Effects(lower, false, l, i);
      PublishedConcat(fx, TurnEffects(lower, n, rest));
      LiveFirst(lower, l.lastUserText, inputs);
    } else {
      NonePublished();
    }
  }

  lemma NonePublished()
    ensures Published([]) == []
  {
  }

  lemma LiveFirst(lower: char -> char, last: string, inputs: seq<Input>)
    requires inputs != []
    ensures var i := inputs[0];
            var rest := Turns(lower, LastText(lower, last, i), Live(inputs[1..]));
            Turns(lower, last, Live(inputs)) == (if i.Restore? || i.Partial? then [] else Added(lower, last, i)) + rest
  {
    hide Added;
    var i := inputs[0];
    assert [] + Live(inputs[1..]) == Live(inputs[1..]);
    var rest := Turns(lower, LastText(lower, last, i), Live(inputs[1..]));
    assert [] + rest == rest;
    assert ([i] + Live(inputs[1..]))[1..] == Live(inputs[1..]);
  }

  /** A caption is published for every partial; nothing is for a repeated or restored turn. */
  lemma PublishedByOne(lower: char -> char, l: Local, i: Input)
    requires !l.speculating
    ensures Published(Effects(lower, false, l, i)) ==
            if i.Partial? then [Message("user", i.text)]
            else if i.Restore? then [] else Added(lower, l.lastUserText, i)
  {
    hide Text.Similar, Potential, Next;
    var fx := Effects(lower, false, l, i);
    match i
    case Partial(text, _) => PublishedAlone([], Emit("user", text), [CancelTimer, Drain], fx);
    case Final(text) =>
      if fx != [] {
        PublishedAlone([CancelTimer, Drain], Emit("user", text), [CancelTimer, Drain, StartTimer(text)], fx);
      } else {
        NonePublished();
      }
    case Typed(text) =>
      if fx != [] {
        PublishedAlone([], Emit("user", text), [fx[1]], fx);
      } else {
        NonePublished();
      }
    case Reply(text) => PublishedAlone([], Emit("model", text), [], fx);
    case _ => NothingPublished(fx);
  }

  lemma {:induction false} NothingPublished(fx: seq<Effect>)
    requires forall e <- fx :: !e.Emit?
    ensures Published(fx) == []
    decreases |fx|
  {
    if fx != [] {
      assert fx[0] in fx;
      NothingPublished(fx[1..]);
    }
  }

  lemma PublishedAlone(a: seq<Effect>, e: Effect, b: seq<Effect>, fx: seq<Effect>)
    requires e.Emit? && (forall x <- a :: !x.Emit?) && (forall x <- b :: !x.Emit?) && fx == a + [e] + b
    ensures Published(fx) == [Message(e.role, e.text)]
  {
    NothingPublished(a);
    NothingPublished(b);
    PublishedConcat(a + [e], b);
    PublishedConcat(a, [e]);
    assert [e][1..] == [];
  }

  // ---- When it barges in and starts replies ----

  /** The steps of the loop, among those of all goroutines, that operations are. */
  function LoopSteps(fx: seq<Effect>): seq<Loop.Step> {
    if fx == [] then []
    else
      (if fx[0].BargeIn? then [Loop.Step.BargeIn] else if fx[0].StartRespond? then [Loop.Step.Spawn] else [])
      + LoopSteps(fx[1..])
  }

  /** The steps a conversation asks for: barge in whenever speech starts; start a reply for each
      typed turn that is not a repetition and for each pending signal. */
  function Wanted(lower: char -> char, on: bool, l: Local, inputs: seq<Input>): seq<Loop.Step>
    decreases |inputs|
  {
    if inputs == [] then []
    else
      var init, i := inputs[..|inputs| - 1], inputs[|inputs| - 1];
      Wanted(lower, on, l, init) + WantedFor(lower, After(lower, on, l, init).lastUserText, i)
  }

  function WantedFor(lower: char -> char, last: string, i: Input): seq<Loop.Step> {
    match i
    case SpeechStarted => [Loop.Step.BargeIn]
    case Fire => [Loop.Step.Spawn]
    case Typed(text) => if Text.Similar(lower, text, last) then [] else [Loop.Step.Spawn]
    case _ => []
  }

  lemma {:induction false} LoopStepsConcat(a: seq<Effect>, b: seq<Effect>)
    ensures LoopSteps(a + b) == LoopSteps(a) + LoopSteps(b)
    decreases |a|
  {
    if a == [] {
      assert a + b == b;
    } else {
      assert (a + b)[1..] == a[1..] + b;
      LoopStepsConcat(a[1..], b);
    }
  }

  /** Over every run, with or without speculation: the loop barges in exactly when speech starts,
      starts exactly the replies wanted, and does both in the order of the inputs. */
  lemma {:induction false} LoopDoesWhatIsWanted(lower: char -> char, on: bool, l: Local, inputs: seq<Input>)
    ensures LoopSteps(AllEffects(lower, on, l, inputs)) == Wanted(lower, on, l, inputs)
    decreases |inputs|
  {
    if inputs != [] {
      hide Effects, After, LoopSteps, Text.Similar;
      var init, i := inputs[..|inputs| - 1], inputs[|inputs| - 1];
      LoopDoesWhatIsWanted(lower, on, l, init);
      var here := After(lower, on, l, init);
      StepsOfOne(lower, on, here, i);
      LoopStepsConcat(AllEffects(lower, on, l, init), Effects(lower, on, here, i));
    } else {
      assert LoopSteps([]) == [];
    }
  }

  lemma StepsOfOne(lower: char -> char, on: bool, l: Local, i: Input)
    ensures LoopSteps(Effects(lower, on, l, i)) == WantedFor(lower, l.lastUserText, i)
  {
    hide Text.Similar, Potential, Next, Judge;
    var fx := Effects(lower, on, l, i);
    match i
    case SpeechStarted => LastStep([CancelTimer, Drain], Effect.BargeIn, fx);
    case Fire => LastStep([], StartRespond(l.history), fx);
    case Typed(text) =>
      if fx != [] {
        LastStep([Emit("user", text)], fx[1], fx);
      }
    case _ => NoSteps(fx);
  }

  lemma {:induction false} NoSteps(fx: seq<Effect>)
    requires forall e <- fx :: !e.BargeIn? && !e.StartRespond?
    ensures LoopSteps(fx) == []
    decreases |fx|
  {
    if fx != [] {
      assert fx[0] in fx;
      NoSteps(fx[1..]);
    }
  }

  lemma LastStep(a: seq<Effect>, e: Effect, fx: seq<Effect>)
    requires (forall x <- a :: !x.BargeIn? && !x.StartRespond?) && (e.BargeIn? || e.StartRespond?) && fx == a + [e]
    ensures LoopSteps(fx) == [if e.BargeIn? then Loop.Step.BargeIn else Loop.Step.Spawn]
  {
    NoSteps(a);
    LoopStepsConcat(a, [e]);
    assert [e][1..] == [];
  }

  function Count(steps: seq<Loop.Step>): nat {
    if steps == [] then 0 else Count(steps[..|steps| - 1]) + if steps[|steps| - 1] == Loop.Step.BargeIn then 1 else 0
  }

  function Speeches(inputs: seq<Input>): nat {
    if inputs == [] then 0
    else Speeches(inputs[..|inputs| - 1]) + if inputs[|inputs| - 1].SpeechStarted? then 1 else 0
  }

  /** In numbers: there are as many barge-ins as times that speech started. */
  lemma {:induction false} OneBargeInPerSpeech(lower: char -> char, on: bool, l: Local, inputs: seq<Input>)
    ensures Count(LoopSteps(AllEffects(lower, on, l, inputs))) == Speeches(inputs)
    decreases |inputs|
  {
    hide AllEffects, LoopSteps, After, Text.Similar, Effects;
    LoopDoesWhatIsWanted(lower, on, l, inputs);
    if inputs != [] {
      var init, i := inputs[..|inputs| - 1], inputs[|inputs| - 1];
      LoopDoesWhatIsWanted(lower, on, l, init);
      OneBargeInPerSpeech(lower, on, l, init);
      CountOfWanted(Wanted(lower, on, l, init), lower, After(lower, on, l, init).lastUserText, i);
    }
  }

  lemma CountOfWanted(w: seq<Loop.Step>, lower: char -> char, last: string, i: Input)
    ensures Count(w + WantedFor(lower, last, i)) == Count(w) + if i.SpeechStarted? then 1 else 0
  {
    hide Text.Similar;
    var more := WantedFor(lower, last, i);
    assert w + [] == w;
    if more != [] {
      assert w + more == w + [more[0]];
      assert (w + [more[0]])[..|w|] == w;
    }
  }

  // ---- What a reply answers ----

  /** Whatever is asked of the LLM is the history at that moment, in full. */
  lemma SnapshotIsTheHistory(lower: char -> char, on: bool, l: Local, i: Input, h: seq<Message>)
    requires StartRespond(h) in Effects(lower, on, l, i)
    ensures h == Next(lower, on, l, i).history
    ensures i.Typed? ==> h == l.history + [Message("user", i.text)]
    ensures i.Typed? || i.Fire?
  {
    hide Text.Similar, Potential, Judge, NextStability;
  }

  /** From a turn on, as long as nothing but pending signals is selected, every reply that is started
      is asked for with that turn as the last entry. */
  lemma {:induction false} RepliesAnswerTheLastTurn(lower: char -> char, on: bool, l: Local, fires: seq<Input>,
                                                    h: seq<Message>)
    requires forall i <- fires :: i.Fire?
    requires StartRespond(h) in AllEffects(lower, on, l, fires)
    ensures h == l.history && After(lower, on, l, fires) == l
    decreases |fires|
  {
    OnlyFires(lower, on, l, fires);
    if fires != [] {
      var init, i := fires[..|fires| - 1], fires[|fires| - 1];
      assert forall x <- init :: x in fires;
      OnlyFires(lower, on, l, init);
      if StartRespond(h) in AllEffects(lower, on, l, init) {
        RepliesAnswerTheLastTurn(lower, on, l, init, h);
      }
    }
  }

  lemma {:induction false} OnlyFires(lower: char -> char, on: bool, l: Local, fires: seq<Input>)
    requires forall i <- fires :: i.Fire?
    ensures After(lower, on, l, fires) == l
    decreases |fires|
  {
    hide Text.Similar, Potential, NextStability, Judge;
    if fires != [] {
      assert forall x <- fires[..|fires| - 1] :: x in fires;
      OnlyFires(lower, on, l, fires[..|fires| - 1]);
      assert fires[|fires| - 1] in fires;
    }
  }

  /** The turn on top: a speculation's text, a typed one, or an accepted final. */
  lemma TurnOnTop(lower: char -> char, l: Local, i: Input)
    requires i.Partial? || i.Typed? || i.Final?
    requires l.speculating ==> l.history != []
    ensures var n := Next(lower, true, l, i);
            && (i.Partial? ==> (n.speculating <==> Potential(l.stab, i.text, i.now)))
            && (i.Partial? && n.speculating ==> n.history != [] && Last(n.history) == Message("user", i.text))
            && (!i.Partial? && !Text.Similar(lower, i.text, l.lastUserText) ==>
                  n.history != [] && Last(n.history).text == i.text && n.lastUserText == i.text)
  {
    hide Text.Similar, Potential, NextStability;
  }

  // ---- What hearing clears ----

  /** At k there is a cancelPending, with nothing but captions before it. */
  ghost predicate ClearsAt(fx: seq<Effect>, k: nat) {
    k + 1 < |fx| && fx[k..k + 2] == [CancelTimer, Drain] && forall j :: 0 <= j < k ==> fx[j].Emit?
  }

  ghost predicate ClearsNothing(fx: seq<Effect>) {
    forall k :: 0 <= k < |fx| ==> fx[k] != CancelTimer && fx[k] != Drain
  }

  predicate Heard(lower: char -> char, last: string, i: Input) {
    i.Partial? || i.SpeechStarted? || (i.Final? && !Text.Similar(lower, i.text, last))
  }

  /** Whatever the user is heard saying, other than a repeated final, first cancels the pending turn
      and its signal; nothing else does. */
  lemma HearingClears(lower: char -> char, on: bool, l: Local, i: Input)
    ensures Heard(lower, l.lastUserText, i) ==> exists k :: ClearsAt(Effects(lower, on, l, i), k)
    ensures !Heard(lower, l.lastUserText, i) ==> ClearsNothing(Effects(lower, on, l, i))
  {
    hide Text.Similar, Potential, Next;
    var fx := Effects(lower, on, l, i);
    assert i.Partial? ==> ClearsAt(fx, 1);
    assert i.SpeechStarted? ==> ClearsAt(fx, 0);
    assert i.Final? && fx != [] ==> ClearsAt(fx, 0);
  }

  /** A speculation is signalled, at the moment it opens and only then, right after whatever signal
      was still queued is drained. */
  lemma SpeculationSignals(lower: char -> char, on: bool, l: Local, i: Input)
    ensures var fx := Effects(lower, on, l, i);
            && (Signal in fx <==> on && i.Partial? && Potential(l.stab, i.text, i.now))
            && (Signal in fx ==> |fx| == 5 && fx[3..] == [Drain, Signal] && fx[..3] == [fx[0], fx[1], fx[2]]
                                 && Signal !in fx[..3])
  {
    hide Text.Similar, Potential, Next, Judge;
  }

  /** The texts whose pause is waited for. */
  function Awaited(fx: seq<Effect>): seq<string> {
    if fx == [] then [] else (if fx[0].StartTimer? then [fx[0].text] else []) + Awaited(fx[1..])
  }

  /** A pause is waited for after every accepted final that no speculation anticipated, with that
      final's text, and after nothing else. */
  lemma PauseAfterFinal(lower: char -> char, on: bool, l: Local, i: Input)
    ensures Awaited(Effects(lower, on, l, i)) ==
            if i.Final? && Judge(lower, l, i.text) == Differs then [i.text] else []
  {
    hide Text.Similar, Potential, Next, Judge;
    var fx := Effects(lower, on, l, i);
    if i.Final? && Judge(lower, l, i.text) == Differs {
      NothingAwaited([CancelTimer, Drain, Emit("user", i.text), CancelTimer, Drain]);
      AwaitedConcat([CancelTimer, Drain, Emit("user", i.text), CancelTimer, Drain], [StartTimer(i.text)]);
      assert fx == [CancelTimer, Drain, Emit("user", i.text), CancelTimer, Drain] + [StartTimer(i.text)];
      assert [StartTimer(i.text)][1..] == [];
    } else {
      NothingAwaited(fx);
    }
  }

  lemma {:induction false} NothingAwaited(fx: seq<Effect>)
    requires forall e <- fx :: !e.StartTimer?
    ensures Awaited(fx) == []
    decreases |fx|
  {
    if fx != [] {
      assert fx[0] in fx;
      NothingAwaited(fx[1..]);
    }
  }

  lemma {:induction false} AwaitedConcat(a: seq<Effect>, b: seq<Effect>)
    ensures Awaited(a + b) == Awaited(a) + Awaited(b)
    decreases |a|
  {
    if a == [] {
      assert a + b == b;
    } else {
      assert (a + b)[1..] == a[1..] + b;
      AwaitedConcat(a[1..], b);
    }
  }

  // ---- When a partial is stable ----

  /** Finished texts are told by their characters. */
  lemma EndersOfConcat(a: string, b: string)
    ensures HasEnder(a + b) <==> HasEnder(a) || HasEnder(b)
  {
    var s := a + b;
    assert forall i :: 0 <= i < |a| ==> s[i] == a[i];
    assert forall i :: 0 <= i < |b| ==> s[|a| + i] == b[i];
    assert forall i :: |a| <= i < |s| ==> s[i] == b[i - |a|];
  }

  lemma OneEnder(c: char)
    ensures HasEnder([c]) <==> c == '.' || c == '?' || c == '!' || c == '\n'
  {
    assert [c][0] == c;
  }

  datatype Sighting = Sighting(text: string, now: int)

  function StabAfter(log: seq<Sighting>): Stability
    decreases |log|
  {
    if log == [] then Stability("", 0, 0)
    else NextStability(StabAfter(log[..|log| - 1]), log[|log| - 1].text, log[|log| - 1].now)
  }

  /** The last n partials are the same text, none later than the window after the first of them. */
  ghost predicate Repeated(log: seq<Sighting>, n: nat) {
    && 0 < n <= |log|
    && forall i :: |log| - n <= i < |log| ==>
         log[i].text == log[|log| - 1].text && log[i].now - log[|log| - n].now <= STAB_WINDOW
  }

  /** The tracker counts the latest repetitions of a finished text, from the first of them on. */
  lemma {:induction false} TrackerCountsRepetitions(log: seq<Sighting>)
    ensures var st := StabAfter(log);
            if log == [] || !HasEnder(log[|log| - 1].text) then st.count == 0
            else st.text == log[|log| - 1].text && Repeated(log, st.count) && st.firstSeen == log[|log| - st.count].now
    decreases |log|
  {
    if log != [] {
      hide HasEnder;
      var init, last := log[..|log| - 1], log[|log| - 1];
      TrackerCountsRepetitions(init);
      NoEnderInNothing();
      assert forall i :: 0 <= i < |init| ==> init[i] == log[i];
    }
  }

  lemma NoEnderInNothing()
    ensures !HasEnder("")
  {
  }

  /** A speculation is only ever opened by a finished text heard at least three times in a row within
      the window. */
  lemma StableMeansRepeated(log: seq<Sighting>)
    requires log != []
    requires Potential(StabAfter(log[..|log| - 1]), log[|log| - 1].text, log[|log| - 1].now)
    ensures HasEnder(log[|log| - 1].text)
    ensures exists n :: n >= 3 && Repeated(log, n)
  {
    hide HasEnder;
    TrackerCountsRepetitions(log);
    assert Repeated(log, StabAfter(log).count);
  }

  /** And the third time in a row is enough, not the first or second, exactly when it and the second
      are within the window of the first. */
  lemma ThirdTimeExactly(s: Stability, text: string, t1: int, t2: int, t3: int)
    requires HasEnder(text) && s.text != text
    ensures var s1 := NextStability(s, text, t1);
            var s2 := NextStability(s1, text, t2);
            && !Potential(s, text, t1) && !Potential(s1, text, t2)
            && (Potential(s2, text, t3) <==> t2 - t1 <= 200_000_000 && t3 - t1 <= 200_000_000)
  {
    hide HasEnder;
  }
}
