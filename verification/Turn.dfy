/**
 The turn orchestrator of the cascade: what run() does to its history and speculation state for
 each input, and the channel and timer operations it performs, in order. Its inputs are the ASR
 events, the pending signal, restored turns, typed text and finished model replies.
 */
module Turn {
  import Text

  datatype Message = Message(role: string, text: string)

  datatype Input =
    | Partial(text: string, now: int)
    | SpeechStarted
    | Final(text: string)
    | Fire
    | Restore(msgs: seq<Message>)
    | Typed(text: string)
    | Reply(text: string)

  /** What run() does to the rest of the system. */
  datatype Effect =
    | Emit(role: string, text: string)
    | CancelTimer
    | Drain
    | Signal
    | StartTimer(text: string)
    | StartRespond(snapshot: seq<Message>)
    | BargeIn

  datatype Stability = Stability(text: string, count: nat, firstSeen: int)

  const STAB_WINDOW := 200_000_000
  const STAB_TRIGGER := 3

  datatype Local = Local(history: seq<Message>, lastUserText: string, speculating: bool, stab: Stability)

  predicate HasEnder(text: string) {
    exists i :: 0 <= i < |text| && text[i] in Text.SENTENCE_ENDERS
  }

  function NextStability(s: Stability, text: string, now: int): Stability {
    if !HasEnder(text) then Stability("", 0, 0)
    else if text == s.text && now - s.firstSeen <= STAB_WINDOW then s.(count := s.count + 1)
    else Stability(text, 1, now)
  }

  predicate Potential(s: Stability, text: string, now: int) {
    HasEnder(text) && NextStability(s, text, now).count >= STAB_TRIGGER
  }

  function Last(h: seq<Message>): Message
    requires h != []
  {
    h[|h| - 1]
  }

  function Unspeculated(l: Local): Local {
    l.(history := if l.speculating && l.history != [] then l.history[..|l.history| - 1] else l.history,
       speculating := false)
  }

  function Append(l: Local, role: string, text: string): Local {
    l.(history := l.history + [Message(role, text)])
  }

  datatype Verdict = Duplicate | Confirms | Differs

  function Judge(lower: char -> char, l: Local, text: string): Verdict {
    if Text.Similar(lower, text, l.lastUserText) then Duplicate
    else if l.speculating && l.history != [] && Text.Similar(lower, text, Last(l.history).text) then Confirms
    else Differs
  }

  /** The effect of one input on run()'s own state. With on == false speculation never starts. */
  function Next(lower: char -> char, on: bool, l: Local, i: Input): Local {
    match i
    case Partial(text, now) =>
      var m := Unspeculated(l).(stab := NextStability(l.stab, text, now));
      if on && Potential(l.stab, text, now) then Append(m, "user", text).(speculating := true) else m
    case SpeechStarted => Unspeculated(l)
    case Final(text) =>
      (match Judge(lower, l, text)
       case Duplicate => Unspeculated(l)
       case Confirms => Append(Unspeculated(l), Last(l.history).role, text).(lastUserText := text)
       case Differs => Append(Unspeculated(l), "user", text).(lastUserText := text))
    case Fire => l
    case Restore(msgs) => l.(history := l.history + msgs)
    case Typed(text) =>
      if Text.Similar(lower, text, l.lastUserText) then l else Append(l, "user", text).(lastUserText := text)
    case Reply(text) => Append(l, "model", text)
  }

  function Effects(lower: char -> char, on: bool, l: Local, i: Input): seq<Effect> {
    match i
    case Partial(text, now) =>
      [Emit("user", text), CancelTimer, Drain] + if on && Potential(l.stab, text, now) then [Drain, Signal] else []
    case SpeechStarted => [CancelTimer, Drain, BargeIn]
    case Final(text) =>
      (match Judge(lower, l, text)
       case Duplicate => []
       case Confirms => [CancelTimer, Drain]
       case Differs => [CancelTimer, Drain, Emit("user", text), CancelTimer, Drain, StartTimer(text)])
    case Fire => [StartRespond(l.history)]
    case Restore(_) => []
    case Typed(text) =>
      if Text.Similar(lower, text, l.lastUserText) then []
      else [Emit("user", text), StartRespond(Next(lower, on, l, i).history)]
    case Reply(text) => [Emit("model", text)]
  }

  function After(lower: char -> char, on: bool, l: Local, inputs: seq<Input>): Local
    decreases |inputs|
  {
    if inputs == [] then l
    else Next(lower, on, After(lower, on, l, inputs[..|inputs| - 1]), inputs[|inputs| - 1])
  }

  function AllEffects(lower: char -> char, on: bool, l: Local, inputs: seq<Input>): seq<Effect>
    decreases |inputs|
  {
    if inputs == [] then []
    else
      var init := inputs[..|inputs| - 1];
      AllEffects(lower, on, l, init) + Effects(lower, on, After(lower, on, l, init), inputs[|inputs| - 1])
  }

  // ---- The orchestrator as code ----

  class Cascade {
    const lower: char -> char
    var history: seq<Message>
    var speculativeActive: bool
    var partialStab: Stability
    var effects: seq<Effect> // every operation performed so far, in order

    ghost function Model(lastUserText: string): Local
      reads this
    {
      Local(history, lastUserText, speculativeActive, partialStab)
    }

    ghost predicate Valid()
      reads this
    {
      speculativeActive ==> history != []
    }

    constructor (system: string, lower: char -> char)
      ensures Valid() && this.lower == lower && effects == []
      ensures Model("") == Initial(system)
    {
      this.lower := lower;
      history := if system != "" then [Message("system", system)] else [];
      speculativeActive := false;
      partialStab := Stability("", 0, 0);
      effects := [];
    }

    method Do(e: Effect)
      modifies this`effects
      ensures effects == old(effects) + [e]
    {
      effects := effects + [e];
    }

    method CancelPending()
      modifies this`effects
      ensures effects == old(effects) + [CancelTimer, Drain]
    {
      Do(CancelTimer);
      Do(Drain);
    }

    method ScheduleSpeculative()
      modifies this`effects
      ensures effects == old(effects) + [Drain, Signal]
    {
      Do(Drain);
      Do(Signal);
    }

    method SchedulePending(text: string)
      modifies this`effects
      ensures effects == old(effects) + [CancelTimer, Drain, StartTimer(text)]
    {
      CancelPending();
      Do(StartTimer(text));
    }

    method RemoveSpeculative()
      modifies this`history, this`speculativeActive
      ensures !speculativeActive
      ensures history == Unspeculated(old(Model(""))).history
    {
      if speculativeActive && |history| > 0 {
        history := history[..|history| - 1];
      }
      speculativeActive := false;
    }

    method IsPotentialSentence(text: string, now: int) returns (r: bool)
      modifies this`partialStab
      ensures partialStab == NextStability(old(partialStab), text, now)
      ensures r == Potential(old(partialStab), text, now)
    {
      var ends := ContainsEnder(text);
      if !ends {
        partialStab := Stability("", 0, 0);
        return false;
      }
      if text == partialStab.text && now - partialStab.firstSeen <= STAB_WINDOW {
        partialStab := partialStab.(count := partialStab.count + 1);
      } else {
        partialStab := Stability(text, 1, now);
      }
      r := partialStab.count >= STAB_TRIGGER;
    }

    method HandleASR(i: Input, lastUserText: string) returns (r: string)
      requires Valid() && (i.Partial? || i.SpeechStarted? || i.Final?)
      modifies this`history, this`speculativeActive, this`partialStab, this`effects
      ensures Valid()
      ensures Model(r) == Next(lower, true, old(Model(lastUserText)), i)
      ensures effects == old(effects) + Effects(lower, true, old(Model(lastUserText)), i)
    {
      hide Text.Similar, NextStability, Potential;
      r := lastUserText;
      match i {
        case Partial(text, now) =>
          Do(Emit("user", text));
          CancelPending();
          RemoveSpeculative();
          var potential := IsPotentialSentence(text, now);
          if potential {
            history := history + [Message("user", text)];
            speculativeActive := true;
            ScheduleSpeculative();
          }
        case SpeechStarted =>
          CancelPending();
          RemoveSpeculative();
          Do(BargeIn);
        case Final(text) => r := HandleFinal(text, lastUserText);
      }
    }

    /** The ASRFinal branch of handleASR. */
    method HandleFinal(text: string, lastUserText: string) returns (r: string)
      requires Valid()
      modifies this`history, this`speculativeActive, this`effects
      ensures Valid()
      ensures Model(r) == Next(lower, true, old(Model(lastUserText)), Final(text))
      ensures effects == old(effects) + Effects(lower, true, old(Model(lastUserText)), Final(text))
    {
      hide Text.Similar, Next, Effects;
      ghost var l := Model(lastUserText);
      FinalOutcome(lower, l, text);
      hide Judge;
      var same := Text.Jaccard(lower, text, lastUserText);
      if same >= 0.9 {
        RemoveSpeculative();
        return lastUserText;
      }
      CancelPending();
      if speculativeActive {
        var specText := history[|history| - 1].text;
        var match_ := Text.Jaccard(lower, text, specText);
        if match_ >= 0.9 {
          ConfirmTurn(text);
          return text;
        }
        RemoveSpeculative();
      }
      FreshTurn(text);
      r := text;
    }

    /** A final confirms the speculation. */
    method ConfirmTurn(text: string)
      requires history != []
      modifies this`history, this`speculativeActive
      ensures history == old(history)[..|old(history)| - 1] + [Last(old(history)).(text := text)]
      ensures !speculativeActive
    {
      PatchLast(history, Last(history).(text := text));
      history := history[|history| - 1 := history[|history| - 1].(text := text)];
      speculativeActive := false;
    }

    /** The last statements of the ASRFinal branch. */
    method FreshTurn(text: string)
      modifies this`history, this`effects
      ensures history == old(history) + [Message("user", text)]
      ensures effects == old(effects) + [Emit("user", text), CancelTimer, Drain, StartTimer(text)]
    {
      history := history + [Message("user", text)];
      Do(Emit("user", text));
      SchedulePending(text);
    }

    /** The body of one iteration of run(). */
    method RunOne(i: Input, lastUserText: string) returns (r: string)
      requires Valid()
      modifies this`history, this`speculativeActive, this`partialStab, this`effects
      ensures Valid()
      ensures Model(r) == Next(lower, true, old(Model(lastUserText)), i)
      ensures effects == old(effects) + Effects(lower, true, old(Model(lastUserText)), i)
    {
      hide Text.Similar;
      r := lastUserText;
      match i {
        case Partial(_, _) => r := HandleASR(i, lastUserText);
        case SpeechStarted => r := HandleASR(i, lastUserText);
        case Final(_) => r := HandleASR(i, lastUserText);
        case Fire => Do(StartRespond(history));
        case Restore(msgs) => history := history + msgs;
        case Typed(text) =>
          var same := Text.Jaccard(lower, text, lastUserText);
          if same >= 0.9 {
            return;
          }
          r := text;
          history := history + [Message("user", text)];
          Do(Emit("user", text));
          Do(StartRespond(history));
        case Reply(text) =>
          history := history + [Message("model", text)];
          Do(Emit("model", text));
      }
    }

    /** The loop, until its context is done or the event channel closed: ends(k) tells whether the
        select finds that instead of inputs[k]. Nothing that was not selected has any effect. */
    method Run(inputs: seq<Input>, ends: nat -> bool) returns (lastUserText: string, taken: nat)
      requires Valid()
      modifies this`history, this`speculativeActive, this`partialStab, this`effects
      ensures Valid()
      ensures taken <= |inputs| && (forall k: nat :: k < taken ==> !ends(k)) && (taken < |inputs| ==> ends(taken))
      ensures Model(lastUserText) == After(lower, true, old(Model("")), inputs[..taken])
      ensures effects == old(effects) + AllEffects(lower, true, old(Model("")), inputs[..taken])
    {
      hide Next, Effects;
      lastUserText, taken := "", 0;
      while taken < |inputs|
        invariant taken <= |inputs| && Valid()
        invariant forall k: nat :: k < taken ==> !ends(k)
        invariant Model(lastUserText) == After(lower, true, old(Model("")), inputs[..taken])
        invariant effects == old(effects) + AllEffects(lower, true, old(Model("")), inputs[..taken])
      {
        if ends(taken) {
          return;
        }
        assert inputs[..taken + 1][..taken] == inputs[..taken];
        lastUserText := RunOne(inputs[taken], lastUserText);
        taken := taken + 1;
      }
    }
  }

  lemma PatchLast(h: seq<Message>, m: Message)
    requires h != []
    ensures h[|h| - 1 := m] == h[..|h| - 1] + [m]
  {
  }

  lemma FinalOutcome(lower: char -> char, l: Local, text: string)
    ensures var n, fx := Next(lower, true, l, Final(text)), Effects(lower, true, l, Final(text));
            if Text.Similar(lower, text, l.lastUserText) then n == Unspeculated(l) && fx == []
            else if l.speculating && l.history != [] && Text.Similar(lower, text, Last(l.history).text) then
              && n == Append(Unspeculated(l), Last(l.history).role, text).(lastUserText := text)
              && fx == [CancelTimer, Drain]
            else
              && n == Append(Unspeculated(l), "user", text).(lastUserText := text)
              && fx == [CancelTimer, Drain] + [Emit("user", text), CancelTimer, Drain, StartTimer(text)]
  {
    hide Text.Similar;
  }

  method ContainsEnder(text: string) returns (r: bool)
    ensures r == HasEnder(text)
  {
    var i := 0;
    while i < |text|
      invariant 0 <= i <= |text|
      invariant forall k :: 0 <= k < i ==> text[k] !in Text.SENTENCE_ENDERS
    {
      if text[i] in Text.SENTENCE_ENDERS {
        return true;
      }
      i := i + 1;
    }
    r := false;
  }

  function Initial(system: string): Local {
    Local(if system != "" then [Message("system", system)] else [], "", false, Stability("", 0, 0))
  }

  // ---- Safety in every interleaving of inputs ----

  /** The history starts with the prompt and, while speculating, has an entry after it. */
  ghost predicate Anchored(prompt: seq<Message>, l: Local) {
    prompt <= l.history && |l.history| >= |prompt| + if l.speculating then 1 else 0
  }

  lemma {:induction false} AnchorStays(lower: char -> char, on: bool, prompt: seq<Message>, l: Local,
                                       inputs: seq<Input>)
    requires Anchored(prompt, l)
    ensures Anchored(prompt, After(lower, on, l, inputs))
    decreases |inputs|
  {
    hide Text.Similar, Potential, NextStability;
    if inputs != [] {
      AnchorStays(lower, on, prompt, l, inputs[..|inputs| - 1]);
    }
  }

  /** Whatever inputs arrive in whatever order, clean or not, the system prompt stays the first
      entry and there is a last entry to patch or remove whenever a speculation is open. */
  lemma PromptIsNeverRemoved(lower: char -> char, on: bool, system: string, inputs: seq<Input>)
    ensures var l := After(lower, on, Initial(system), inputs);
            Anchored(Initial(system).history, l) && (l.speculating ==> l.history != [])
  {
    AnchorStays(lower, on, Initial(system).history, Initial(system), inputs);
  }

  lemma {:induction false} AfterFirst(lower: char -> char, on: bool, l: Local, i: Input, rest: seq<Input>)
    ensures After(lower, on, l, [i] + rest) == After(lower, on, Next(lower, on, l, i), rest)
    decreases |rest|
  {
    hide Next;
    var all := [i] + rest;
    if rest == [] {
      assert all[..0] == [] && all == [i];
      assert After(lower, on, l, all[..0]) == l;
    } else {
      var n := |rest| - 1;
      assert all[..n + 1] == [i] + rest[..n];
      AfterFirst(lower, on, l, i, rest[..n]);
    }
  }

  // ---- Speculation against no speculation ----

  ghost predicate Tentative(l: Local) {
    l.speculating ==> l.history != [] && Last(l.history).role == "user"
  }

  /** Apart from the tentative last turn, a and b have taken the same turns. */
  ghost predicate SameTurns(a: Local, b: Local) {
    Unspeculated(a).history == b.history && a.lastUserText == b.lastUserText
  }

  /** The input cannot disturb an open speculation: it is no model reply, and typed or restored
      turns are ignored, absent or mere repetitions of the tentative turn. */
  ghost predicate Clean(lower: char -> char, l: Local, i: Input)
    requires Tentative(l)
  {
    l.speculating ==>
      match i
      case Reply(_) => false
      case Typed(text) => Text.Similar(lower, text, l.lastUserText) || Last(l.history).text == text
      case Restore(msgs) => forall m <- msgs :: m == Last(l.history)
      case _ => true
  }

  lemma {:induction false} Shifted(x: Message, ms: seq<Message>)
    requires ms != [] && [x] + ms[..|ms| - 1] == ms
    ensures forall m <- ms :: m == x
    decreases |ms|
  {
    if |ms| > 1 {
      var t := ms[..|ms| - 1];
      assert t == ([x] + t)[..|t|] == [x] + t[..|t| - 1];
      Shifted(x, t);
      assert ms[|ms| - 1] == ([x] + t)[|t|] == t[|t| - 1] && t[|t| - 1] in t;
      assert ms == t + [ms[|ms| - 1]];
    }
  }

  lemma Repeated(x: Message, ms: seq<Message>)
    requires forall m <- ms :: m == x
    ensures ms != [] ==> [x] + ms[..|ms| - 1] == ms
  {
    if ms != [] {
      assert forall k :: 0 <= k < |ms| ==> ms[k] in ms;
    }
  }

  lemma RestoreStep(h: seq<Message>, ms: seq<Message>)
    requires h != []
    ensures var g := h + ms;
            g[..|g| - 1] == h[..|h| - 1] + ms <==> forall m <- ms :: m == Last(h)
  {
    var g, base, x := h + ms, h[..|h| - 1], Last(h);
    assert h == base + [x];
    if ms == [] {
      assert g == h;
    } else {
      assert g[..|g| - 1] == base + ([x] + ms[..|ms| - 1]);
      if forall m <- ms :: m == x { Repeated(x, ms); }
      if g[..|g| - 1] == base + ms {
        assert [x] + ms[..|ms| - 1] == (base + ([x] + ms[..|ms| - 1]))[|base|..] == (base + ms)[|base|..] == ms;
        Shifted(x, ms);
      }
    }
  }

  lemma StepWhileClosed(lower: char -> char, a: Local, b: Local, i: Input)
    requires !a.speculating && !b.speculating && SameTurns(a, b)
    ensures SameTurns(Next(lower, true, a, i), Next(lower, false, b, i)) && Tentative(Next(lower, true, a, i))
  {
    hide Text.Similar, NextStability, Potential;
    if i.Partial? {
      var m := Append(a, "user", i.text);
      assert m.history[..|a.history|] == a.history;
    }
  }

  lemma HeardWhileOpen(lower: char -> char, a: Local, b: Local, i: Input)
    requires a.speculating && Tentative(a) && !b.speculating && SameTurns(a, b)
    requires i.Partial? || i.SpeechStarted? || i.Final? || i.Fire?
    ensures SameTurns(Next(lower, true, a, i), Next(lower, false, b, i)) && Tentative(Next(lower, true, a, i))
  {
    hide Text.Similar, NextStability, Potential;
    if i.Partial? {
      var m := Append(Unspeculated(a), "user", i.text);
      assert m.history[..|m.history| - 1] == Unspeculated(a).history;
    }
  }

  lemma RestoredWhileOpen(lower: char -> char, a: Local, b: Local, msgs: seq<Message>)
    requires a.speculating && Tentative(a) && !b.speculating && SameTurns(a, b)
    ensures var n := Next(lower, true, a, Restore(msgs));
            && (SameTurns(n, Next(lower, false, b, Restore(msgs))) <==> Clean(lower, a, Restore(msgs)))
            && (Clean(lower, a, Restore(msgs)) ==> Tentative(n))
  {
    hide Text.Similar;
    RestoreStep(a.history, msgs);
    if msgs != [] {
      assert msgs[|msgs| - 1] in msgs;
      assert Last(a.history + msgs) == msgs[|msgs| - 1];
    } else {
      assert a.history + msgs == a.history;
    }
  }

  lemma AddedWhileOpen(lower: char -> char, a: Local, b: Local, i: Input)
    requires a.speculating && Tentative(a) && !b.speculating && SameTurns(a, b)
    requires i.Typed? || i.Reply?
    ensures SameTurns(Next(lower, true, a, i), Next(lower, false, b, i)) <==> Clean(lower, a, i)
    ensures Clean(lower, a, i) ==> Tentative(Next(lower, true, a, i))
  {
    hide Text.Similar;
    var base, x := a.history[..|a.history| - 1], Last(a.history);
    var m := Message(if i.Typed? then "user" else "model", i.text);
    assert a.history == base + [x];
    assert (a.history + [m])[..|a.history|] == a.history;
    assert (base + [x])[|base|] == x && (base + [m])[|base|] == m;
  }

  /** One step: the orchestrator with speculation and the one without stay in step exactly when
      the input is clean. */
  lemma StepInvisible(lower: char -> char, a: Local, b: Local, i: Input)
    requires Tentative(a) && !b.speculating && SameTurns(a, b)
    ensures SameTurns(Next(lower, true, a, i), Next(lower, false, b, i)) <==> Clean(lower, a, i)
    ensures Clean(lower, a, i) ==> Tentative(Next(lower, true, a, i))
    ensures !Next(lower, false, b, i).speculating
  {
    NeverSpeculates(lower, b, i);
    hide Next, SameTurns, Tentative, Text.Similar;
    if !a.speculating {
      StepWhileClosed(lower, a, b, i);
    } else {
      match i
      case Restore(msgs) => RestoredWhileOpen(lower, a, b, msgs);
      case Typed(_) => AddedWhileOpen(lower, a, b, i);
      case Reply(_) => AddedWhileOpen(lower, a, b, i);
      case _ => HeardWhileOpen(lower, a, b, i);
    }
  }

  lemma NeverSpeculates(lower: char -> char, b: Local, i: Input)
    requires !b.speculating
    ensures !Next(lower, false, b, i).speculating
  {
    hide Text.Similar, NextStability, Potential;
  }

  ghost predicate InStep(lower: char -> char, l: Local, inputs: seq<Input>, k: nat)
    requires k <= |inputs|
  {
    SameTurns(After(lower, true, l, inputs[..k]), After(lower, false, l, inputs[..k]))
  }

  ghost predicate CleanRun(lower: char -> char, l: Local, inputs: seq<Input>)
    decreases |inputs|
  {
    inputs == [] ||
    (var before := After(lower, true, l, inputs[..|inputs| - 1]);
     && CleanRun(lower, l, inputs[..|inputs| - 1])
     && Tentative(before) && Clean(lower, before, inputs[|inputs| - 1]))
  }

  /** Speculation is invisible: at every moment of a run the history, minus the tentative last
      turn if one is open, and the last user text are those of the same orchestrator with
      speculation switched off, if and only if every input was clean when it arrived. */
  lemma {:induction false} SpeculationIsInvisible(lower: char -> char, l: Local, inputs: seq<Input>)
    requires !l.speculating
    ensures (forall k: nat :: k <= |inputs| ==> InStep(lower, l, inputs, k)) <==> CleanRun(lower, l, inputs)
    ensures CleanRun(lower, l, inputs) ==> Tentative(After(lower, true, l, inputs))
    ensures !After(lower, false, l, inputs).speculating
    decreases |inputs|
  {
    hide Next, SameTurns, Tentative, Clean, After, InStep;
    if inputs == [] {
      InStepAtEnd(lower, l, inputs);
      NoInputs(lower, l);
    } else {
      var n := |inputs| - 1;
      var init := inputs[..n];
      SpeculationIsInvisible(lower, l, init);
      forall k: nat | k <= n ensures InStep(lower, l, init, k) <==> InStep(lower, l, inputs, k) {
        PrefixInStep(lower, l, inputs, k);
      }
      InStepAtEnd(lower, l, init);
      InStepAtEnd(lower, l, inputs);
      AfterOneMore(lower, l, inputs);
      var a, b := After(lower, true, l, init), After(lower, false, l, init);
      if CleanRun(lower, l, init) {
        assert InStep(lower, l, init, n);
        StepInvisible(lower, a, b, inputs[n]);
        assert InStep(lower, l, inputs, n + 1) <==> Clean(lower, a, inputs[n]);
      } else {
        NeverSpeculates(lower, b, inputs[n]);
      }
    }
  }

  lemma NoInputs(lower: char -> char, l: Local)
    requires !l.speculating
    ensures After(lower, true, l, []) == After(lower, false, l, []) == l
    ensures SameTurns(l, l) && Tentative(l)
  {
  }

  lemma AfterOneMore(lower: char -> char, l: Local, inputs: seq<Input>)
    requires inputs != []
    ensures var n := |inputs| - 1;
            && After(lower, true, l, inputs) == Next(lower, true, After(lower, true, l, inputs[..n]), inputs[n])
            && After(lower, false, l, inputs) == Next(lower, false, After(lower, false, l, inputs[..n]), inputs[n])
  {
    hide Next;
  }

  lemma InStepAtEnd(lower: char -> char, l: Local, inputs: seq<Input>)
    ensures InStep(lower, l, inputs, |inputs|) <==>
            SameTurns(After(lower, true, l, inputs), After(lower, false, l, inputs))
  {
    hide Next, SameTurns;
    assert inputs[..|inputs|] == inputs;
  }

  lemma PrefixInStep(lower: char -> char, l: Local, inputs: seq<Input>, k: nat)
    requires k < |inputs|
    ensures InStep(lower, l, inputs[..|inputs| - 1], k) <==> InStep(lower, l, inputs, k)
  {
    hide Next, SameTurns, After;
    assert inputs[..|inputs| - 1][..k] == inputs[..k];
  }

  /** Opening a speculation and then discarding it, by a changed partial, by renewed speech or by
      a duplicate final, restores the history; a confirming or a differing final leaves what that
      final alone would have appended. */
  lemma SpeculationResolves(lower: char -> char, l: Local, text: string, now: int, i: Input)
    requires !l.speculating && Potential(l.stab, text, now) && (i.Partial? || i.SpeechStarted? || i.Final?)
    ensures var open := Next(lower, true, l, Partial(text, now));
            var closed := Next(lower, true, open, i);
            && open.speculating && open.history == l.history + [Message("user", text)]
            && (i.SpeechStarted? ==> closed.history == l.history)
            && (i.Partial? ==> Unspeculated(closed).history == l.history)
            && (i.Final? ==> closed.history == Next(lower, false, l, i).history && !closed.speculating
                             && closed.lastUserText == Next(lower, false, l, i).lastUserText)
  {
    hide Text.Similar, NextStability;
    var open := Next(lower, true, l, Partial(text, now));
    assert open.history[..|open.history| - 1] == l.history;
  }

  /** A reply that lands while a speculation is open is lost: the next new final removes it in
      place of the tentative turn, which stays; and if that final resembles the reply, it
      overwrites the reply's text under the model's role. */
  lemma ReplyDuringSpeculationIsLost(lower: char -> char, l: Local, reply: string, text: string)
    requires l.speculating && Tentative(l) && !Text.Similar(lower, text, l.lastUserText)
    ensures var after := Next(lower, true, Next(lower, true, l, Reply(reply)), Final(text)).history;
            after == l.history + [Message(if Text.Similar(lower, text, reply) then "model" else "user", text)]
  {
    hide Text.Similar;
    var h := Next(lower, true, l, Reply(reply)).history;
    assert h[..|h| - 1] == l.history;
  }
}
