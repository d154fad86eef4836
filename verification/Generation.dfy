/**
 One generation of respond() as interleaved steps of its segmenter, its TTS worker and the
 stages behind them: LLM deltas, the segments channel, synthesis and the hand-back.
 */
module Generation {
  import opened Common
  import opened Segments

  const SEGMENT_CAP := 8

  datatype Worker = Idle | Speaking(left: nat) | Draining | Gone

  datatype Phase = Spawned | Installed | Streaming | Finished

  datatype Gen = Gen(
    phase: Phase,
    cancelled: bool,
    stream: seq<string>,      // the deltas the LLM would deliver if never cancelled
    deltas: seq<string>,      // what its stream will still deliver
    received: seq<string>,    // deltas received
    seg: string,              // sentence being accumulated
    flushed: bool,            // the unfinished last sentence was flushed
    outbox: Option<string>,   // segment the segmenter is sending
    chan: seq<string>,        // the segments channel
    closed: bool,
    worker: Worker,
    quick: bool,
    spoken: seq<(string, bool)>, // segments given to synthesis, with the quick flag
    discarded: seq<string>)   // segments drained after an abort

  datatype Act =
    | Cancel          // by bargeIn
    | Install         // setGenCancel
    | Generated(stream: seq<string>)
    | GenerateFails
    | Receive
    | StreamEnds      // a cancelled stream closes early
    | Send
    | Flush
    | CloseSegments
    | Synthesize(chunks: Option<nat>) // the next segment; None is a synthesis error
    | Chunk           // one PCM chunk to recvCh
    | SegmentDone
    | Abort           // the select at a chunk sees the cancellation
    | Discard
    | WorkerExits
    | HandBack

  function Fresh(): Gen {
    Gen(Spawned, false, [], [], [], "", false, None, [], false, Idle, true, [], [])
  }

  predicate HasAudio(g: Gen) {
    g.worker.Speaking? && g.worker.left > 0
  }

  predicate SegmenterIdle(g: Gen) {
    g.phase == Streaming && g.deltas == [] && g.outbox == None
  }

  /** recvRoom and turnRoom: recvCh and modelTurnCh have a free slot. */
  ghost predicate Enabled(g: Gen, a: Act, recvRoom: bool, turnRoom: bool) {
    match a
    case Cancel => true
    case Install => g.phase == Spawned
    case Generated(_) => g.phase == Installed
    case GenerateFails => g.phase == Installed
    case Receive => g.phase == Streaming && g.deltas != [] && g.outbox == None
    case StreamEnds => g.phase == Streaming && g.cancelled && g.deltas != []
    case Send => g.phase == Streaming && g.outbox.Some? && |g.chan| < SEGMENT_CAP
    case Flush => SegmenterIdle(g) && g.seg != ""
    case CloseSegments => SegmenterIdle(g) && g.seg == "" && !g.closed
    case Synthesize(_) => g.phase == Streaming && g.worker == Idle && g.chan != []
    case Chunk => g.phase == Streaming && HasAudio(g) && recvRoom
    case SegmentDone => g.phase == Streaming && g.worker.Speaking? && !HasAudio(g)
    case Abort => g.phase == Streaming && HasAudio(g) && g.cancelled
    case Discard => g.phase == Streaming && g.worker == Draining && g.chan != []
    case WorkerExits => g.phase == Streaming && g.worker in {Idle, Draining} && g.chan == [] && g.closed
    case HandBack => g.phase == Streaming && g.worker == Gone && (Flatten(g.received) == "" || turnRoom)
  }

  function Received(h: Hooks, g: Gen): Gen {
    if g.deltas == [] then g
    else
      var d := g.deltas[0];
      var tts := Token(h, d, Flatten(g.received));
      var r := g.(deltas := g.deltas[1..], received := g.received + [d]);
      if tts == "" then r
      else if EndsSentence(h, tts) then r.(outbox := Some(g.seg + tts), seg := "")
      else r.(seg := g.seg + tts)
  }

  function Apply(h: Hooks, g: Gen, a: Act): Gen {
    match a
    case Cancel => g.(cancelled := true)
    case Install => g.(phase := Installed)
    case Generated(stream) => g.(phase := Streaming, stream := stream, deltas := stream)
    case GenerateFails => g.(phase := Finished)
    case Receive => Received(h, g)
    case StreamEnds => g.(deltas := [])
    case Send => if g.outbox.None? then g else g.(outbox := None, chan := g.chan + [g.outbox.value])
    case Flush => g.(outbox := Some(g.seg), seg := "", flushed := true)
    case CloseSegments => g.(closed := true)
    case Synthesize(chunks) =>
      if g.chan == [] then g
      else g.(chan := g.chan[1..], spoken := g.spoken + [(g.chan[0], g.quick)],
              worker := if chunks.Some? then Speaking(chunks.value) else Idle,
              quick := if chunks.Some? then g.quick else false)
    case Chunk => if HasAudio(g) then g.(worker := Speaking(g.worker.left - 1)) else g
    case SegmentDone => g.(worker := Idle, quick := false)
    case Abort => g.(worker := Draining)
    case Discard => if g.chan == [] then g else g.(chan := g.chan[1..], discarded := g.discarded + [g.chan[0]])
    case WorkerExits => g.(worker := Gone)
    case HandBack => g.(phase := Finished)
  }

  // ---- Order of the reply pipeline ----

  function Names(spoken: seq<(string, bool)>): seq<string> {
    seq(|spoken|, i requires 0 <= i < |spoken| => spoken[i].0)
  }

  /** Every segment cut so far, in the order it left the segmenter. */
  function Cut(g: Gen): seq<string> {
    Names(g.spoken) + g.discarded + g.chan + if g.outbox.Some? then [g.outbox.value] else []
  }

  /** What the segmenter has cut and holds is determined by the deltas it received. */
  ghost predicate SegmenterInv(h: Hooks, g: Gen) {
    var tokens := Spoken(h, g.received);
    && (if g.flushed then g.deltas == [] && g.seg == "" && Cut(g) == Texts(Groups(h, tokens))
        else g.seg == Flatten(Open(h, tokens)) && Cut(g) == Texts(Closed(h, tokens)))
    && (g.closed ==> g.deltas == [] && g.outbox == None && g.seg == "")
    && g.received + g.deltas <= g.stream
    && (!g.cancelled ==> g.received + g.deltas == g.stream)
  }

  ghost predicate WorkerInv(g: Gen) {
    && (g.discarded != [] || g.worker == Draining ==> g.cancelled)
    && (g.discarded != [] ==> g.worker in {Draining, Gone})
    && (g.worker == Gone ==> g.closed && g.chan == [])
    && (g.worker == Idle ==> (g.quick <==> g.spoken == []))
    && (g.worker.Speaking? ==> g.spoken != [])
    && (forall i :: 0 <= i < |g.spoken| ==> (g.spoken[i].1 <==> i == 0))
  }

  ghost predicate PhaseInv(g: Gen) {
    && (g.phase in {Spawned, Installed} ==> g == Fresh().(phase := g.phase, cancelled := g.cancelled))
    && (g.phase == Finished ==> g.worker == Gone || g == Fresh().(phase := Finished, cancelled := g.cancelled))
  }

  ghost predicate GenInv(h: Hooks, g: Gen) {
    SegmenterInv(h, g) && WorkerInv(g) && PhaseInv(g)
  }

  /** One more token, in terms of the texts that are cut and held. */
  lemma NextText(h: Hooks, tokens: seq<string>, tts: string)
    ensures var text := Flatten(Open(h, tokens)) + tts;
            && Texts(Closed(h, tokens + [tts])) ==
               Texts(Closed(h, tokens)) + (if EndsSentence(h, tts) then [text] else [])
            && Flatten(Open(h, tokens + [tts])) == if EndsSentence(h, tts) then "" else text
  {
    hide Groups, EndsSentence;
    NextToken(h, tokens, tts);
    FlattenSnoc(Open(h, tokens), tts);
    hide Open, Closed;
    TextsSnoc(Closed(h, tokens), Open(h, tokens) + [tts]);
    assert Closed(h, tokens) + [] == Closed(h, tokens) && Texts(Closed(h, tokens)) + [] == Texts(Closed(h, tokens));
    assert Flatten<char>([]) == "";
  }

  lemma SpokenNext(h: Hooks, received: seq<string>, d: string)
    ensures var tts := Token(h, d, Flatten(received));
            Spoken(h, received + [d]) == if tts == "" then Spoken(h, received) else Spoken(h, received) + [tts]
  {
    hide Token, Flatten;
    assert (received + [d])[..|received|] == received;
    assert Spoken(h, received) + [] == Spoken(h, received);
  }

  lemma ReceiveKeepsInv(h: Hooks, g: Gen)
    requires SegmenterInv(h, g) && g.deltas != [] && g.outbox == None
    ensures SegmenterInv(h, Received(h, g))
  {
    hide Groups, Open, Closed, Texts, EndsSentence, Token, Flatten, Spoken, Names;
    var d := g.deltas[0];
    var tokens, tts := Spoken(h, g.received), Token(h, d, Flatten(g.received));
    assert g.received + [d] + g.deltas[1..] == g.received + g.deltas;
    SpokenNext(h, g.received, d);
    NextText(h, tokens, tts);
    var queued := Names(g.spoken) + g.discarded + g.chan;
    assert Cut(g) == queued + [] == queued;
    assert Texts(Closed(h, tokens)) + [] == Texts(Closed(h, tokens));
  }

  // A segment moves down the pipeline without changing its place in the order.

  lemma SendKeepsCut(h: Hooks, g: Gen)
    requires g.outbox.Some?
    ensures Cut(Apply(h, g, Send)) == Cut(g)
  {
  }

  lemma SynthesizeKeepsCut(h: Hooks, g: Gen, chunks: Option<nat>)
    requires g.chan != [] && g.discarded == []
    ensures Cut(Apply(h, g, Synthesize(chunks))) == Cut(g)
  {
    var t := Apply(h, g, Synthesize(chunks));
    assert Names(t.spoken) == Names(g.spoken) + [g.chan[0]];
    assert g.chan == [g.chan[0]] + g.chan[1..];
  }

  lemma DiscardKeepsCut(h: Hooks, g: Gen)
    requires g.chan != []
    ensures Cut(Apply(h, g, Discard)) == Cut(g)
  {
    assert g.chan == [g.chan[0]] + g.chan[1..];
  }

  lemma FlushKeepsInv(h: Hooks, g: Gen)
    requires SegmenterInv(h, g) && g.deltas == [] && g.outbox == None && g.seg != ""
    ensures SegmenterInv(h, Apply(h, g, Flush))
  {
    hide Groups, Open, Closed;
    var tokens := Spoken(h, g.received);
    OpenAndClosed(h, tokens);
    var closed, open := Closed(h, tokens), Open(h, tokens);
    assert open != [] by { assert Flatten<char>([]) == ""; }
    TextsSnoc(closed, open);
  }

  lemma OthersKeepCut(h: Hooks, g: Gen, a: Act)
    requires Enabled(g, a, true, true) && PhaseInv(g)
    requires !a.Receive? && !a.Send? && !a.Synthesize? && !a.Discard? && !a.Flush?
    ensures var r := Apply(h, g, a);
            r == g.(phase := r.phase, cancelled := r.cancelled, stream := r.stream, deltas := r.deltas,
                    worker := r.worker, quick := r.quick, closed := r.closed)
    ensures Cut(Apply(h, g, a)) == Cut(g)
  {
    hide Received;
  }

  /** SegmenterInv only looks at the order of what was cut and at the segmenter's own fields. */
  lemma SameCutKeepsInv(h: Hooks, g: Gen, r: Gen)
    requires SegmenterInv(h, g) && Cut(r) == Cut(g)
    requires r.received == g.received && r.seg == g.seg && r.flushed == g.flushed
    requires r.closed == g.closed && r.deltas == g.deltas && r.stream == g.stream && r.cancelled == g.cancelled
    requires g.closed ==> r.outbox == None
    ensures SegmenterInv(h, r)
  {
    hide Groups, Open, Closed, Texts, Spoken, Cut, Flatten;
  }

  lemma OthersKeepInv(h: Hooks, g: Gen, a: Act)
    requires GenInv(h, g) && Enabled(g, a, true, true)
    requires !a.Receive? && !a.Send? && !a.Synthesize? && !a.Discard? && !a.Flush?
    ensures SegmenterInv(h, Apply(h, g, a))
  {
    OthersKeepCut(h, g, a);
    hide Groups, Open, Closed, Texts, Spoken, Cut, Received;
  }

  lemma StepKeepsSegmenter(h: Hooks, g: Gen, a: Act)
    requires GenInv(h, g) && Enabled(g, a, true, true)
    ensures SegmenterInv(h, Apply(h, g, a))
  {
    assert g.closed ==> g.outbox == None;
    hide Cut, SegmenterInv, Received;
    match a
    case Receive => ReceiveKeepsInv(h, g);
    case Send =>
      SendKeepsCut(h, g);
      SameCutKeepsInv(h, g, Apply(h, g, a));
    case Synthesize(chunks) =>
      SynthesizeKeepsCut(h, g, chunks);
      SameCutKeepsInv(h, g, Apply(h, g, a));
    case Discard =>
      DiscardKeepsCut(h, g);
      SameCutKeepsInv(h, g, Apply(h, g, a));
    case Flush => FlushKeepsInv(h, g);
    case _ => OthersKeepInv(h, g, a);
  }

  /** Receiving is the segmenter's own business. */
  lemma ReceiveIsLocal(h: Hooks, g: Gen)
    ensures var r := Received(h, g);
            r == g.(deltas := r.deltas, received := r.received, seg := r.seg, outbox := r.outbox)
  {
    hide Token, EndsSentence, Flatten;
  }

  lemma StepKeepsWorker(h: Hooks, g: Gen, a: Act)
    requires GenInv(h, g) && Enabled(g, a, true, true)
    ensures WorkerInv(Apply(h, g, a)) && PhaseInv(Apply(h, g, a))
  {
    ReceiveIsLocal(h, g);
    assert g.closed ==> g.outbox == None;
    hide Received, SegmenterInv, WorkerInv, PhaseInv, Apply, Enabled;
    StepKeepsQuick(h, g, a);
    StepKeepsPhase(h, g, a);
  }

  lemma StepKeepsQuick(h: Hooks, g: Gen, a: Act)
    requires WorkerInv(g) && PhaseInv(g) && Enabled(g, a, true, true)
    requires g.closed ==> g.outbox == None
    ensures WorkerInv(Apply(h, g, a))
  {
    if a.Synthesize? {
      SynthesizeKeepsQuick(h, g, a.chunks);
    } else {
      ReceiveIsLocal(h, g);
      hide Received;
      assert Apply(h, g, a).spoken == g.spoken;
    }
  }

  lemma SynthesizeKeepsQuick(h: Hooks, g: Gen, chunks: Option<nat>)
    requires WorkerInv(g) && Enabled(g, Synthesize(chunks), true, true)
    ensures WorkerInv(Apply(h, g, Synthesize(chunks)))
  {
    var r := Apply(h, g, Synthesize(chunks));
    forall i | 0 <= i < |r.spoken| ensures r.spoken[i].1 <==> i == 0 {
      if i < |g.spoken| { assert r.spoken[i] == g.spoken[i]; }
    }
  }

  lemma StepKeepsPhase(h: Hooks, g: Gen, a: Act)
    requires PhaseInv(g) && Enabled(g, a, true, true)
    ensures PhaseInv(Apply(h, g, a))
  {
    ReceiveIsLocal(h, g);
    hide Received;
  }

  ghost predicate ValidActs(h: Hooks, g: Gen, acts: seq<Act>)
    decreases |acts|
  {
    acts == [] || (Enabled(g, acts[0], true, true) && ValidActs(h, Apply(h, g, acts[0]), acts[1..]))
  }

  function EndOf(h: Hooks, g: Gen, acts: seq<Act>): Gen
    decreases |acts|
  {
    if acts == [] then g else EndOf(h, Apply(h, g, acts[0]), acts[1..])
  }

  lemma {:induction false} ActsKeepInv(h: Hooks, g: Gen, acts: seq<Act>)
    requires GenInv(h, g) && ValidActs(h, g, acts)
    ensures GenInv(h, EndOf(h, g, acts))
    decreases |acts|
  {
    if acts != [] {
      StepKeepsSegmenter(h, g, acts[0]);
      StepKeepsWorker(h, g, acts[0]);
      ActsKeepInv(h, Apply(h, g, acts[0]), acts[1..]);
    }
  }

  lemma FreshInv(h: Hooks)
    ensures GenInv(h, Fresh())
  {
    NothingSpoken(h);
  }

  /** For every stream of deltas, hook, synthesis and interleaving of the pipeline, cancelled or
      not: the segments reach synthesis in the order they were cut; what was synthesised is a
      prefix of the sentence segments of the tokens received; only the first is quick; and the
      deltas received are a prefix of the stream. */
  lemma PipelineOrder(h: Hooks, acts: seq<Act>)
    requires ValidActs(h, Fresh(), acts)
    ensures var g := EndOf(h, Fresh(), acts);
            && Names(g.spoken) <= Texts(Groups(h, Spoken(h, g.received)))
            && (forall i :: 0 <= i < |g.spoken| ==> (g.spoken[i].1 <==> i == 0))
            && g.received <= g.stream
  {
    FreshInv(h);
    ActsKeepInv(h, Fresh(), acts);
    var g := EndOf(h, Fresh(), acts);
    assert Names(g.spoken) <= Cut(g);
    ClosedPrefix(h, Spoken(h, g.received));
  }

  lemma ClosedPrefix(h: Hooks, tokens: seq<string>)
    ensures Texts(Closed(h, tokens)) <= Texts(Groups(h, tokens))
    ensures Flatten(Open(h, tokens)) == "" && (forall i :: 0 <= i < |tokens| ==> tokens[i] != "") ==>
              Closed(h, tokens) == Groups(h, tokens)
  {
    hide Groups, Closed, Open;
    OpenAndClosed(h, tokens);
    if Open(h, tokens) != [] {
      TextsSnoc(Closed(h, tokens), Open(h, tokens));
    }
    if forall i :: 0 <= i < |tokens| ==> tokens[i] != "" {
      OpenText(h, tokens);
    }
  }

  /** A generation that ends without having been cancelled has handed every segment of the whole
      reply to synthesis, exactly as the sequential segmenter cuts it, and the reply it hands
      back is the concatenation of all original deltas. */
  lemma UncancelledIsComplete(h: Hooks, acts: seq<Act>)
    requires ValidActs(h, Fresh(), acts)
    requires var g := EndOf(h, Fresh(), acts); g.phase == Finished && !g.cancelled
    ensures var g := EndOf(h, Fresh(), acts);
            && g.received == g.stream
            && Names(g.spoken) == Texts(Groups(h, Spoken(h, g.stream)))
  {
    FreshInv(h);
    ActsKeepInv(h, Fresh(), acts);
    var g := EndOf(h, Fresh(), acts);
    hide EndOf, ValidActs, Groups, Spoken, Open, Closed, Texts, Names, Flatten;
    SpokenAreNonEmpty(h, g.received);
    ClosedPrefix(h, Spoken(h, g.received));
    assert g.deltas == [] && g.discarded == [] && g.chan == [] && g.seg == "";
    assert Cut(g) == Names(g.spoken);
  }

  // ---- A generation ends ----

  datatype Measure = Measure(phase: nat, tokens: nat, segments: nat, audio: nat)

  ghost predicate Below(m: Measure, n: Measure) {
    || m.phase < n.phase
    || (m.phase == n.phase && m.tokens < n.tokens)
    || (m.phase == n.phase && m.tokens == n.tokens && m.segments < n.segments)
    || (m.phase == n.phase && m.tokens == n.tokens && m.segments == n.segments && m.audio < n.audio)
  }

  function Left(g: Gen): Measure {
    Measure(
      match g.phase { case Spawned => 3 case Installed => 2 case Streaming => 1 case Finished => 0 },
      2 * |g.deltas| + (if g.seg == "" then 0 else 1) + (if g.closed then 0 else 1),
      (if g.outbox.Some? then 2 else 0) + |g.chan|,
      match g.worker { case Speaking(left) => left + 2 case Gone => 0 case _ => 1 })
  }

  /** Every step but a repeated cancel leaves less to do, whatever the LLM and TTS answer. */
  lemma StepShrinks(h: Hooks, g: Gen, a: Act)
    requires Enabled(g, a, true, true) && a != Cancel
    ensures Below(Left(Apply(h, g, a)), Left(g))
  {
    if a == Receive {
      ReceiveShrinks(h, g);
    } else if a.Generated? || a.Install? || a.GenerateFails? || a.HandBack? {
      PhaseShrinks(h, g, a);
    } else {
      OthersShrink(h, g, a);
    }
  }

  lemma ReceiveShrinks(h: Hooks, g: Gen)
    requires g.deltas != []
    ensures Below(Left(Received(h, g)), Left(g))
  {
    hide Token, EndsSentence, Flatten;
  }

  lemma PhaseShrinks(h: Hooks, g: Gen, a: Act)
    requires Enabled(g, a, true, true) && (a.Generated? || a.Install? || a.GenerateFails? || a.HandBack?)
    ensures Below(Left(Apply(h, g, a)), Left(g))
  {
    hide Received, Flatten;
  }

  lemma OthersShrink(h: Hooks, g: Gen, a: Act)
    requires Enabled(g, a, true, true) && a != Cancel && a != Receive
    requires !a.Generated? && !a.Install? && !a.GenerateFails? && !a.HandBack?
    ensures Below(Left(Apply(h, g, a)), Left(g))
  {
    hide Received, Flatten;
  }

  ghost predicate Moves(h: Hooks, gens: nat -> Gen, acts: nat -> Act, i: nat) {
    && acts(i) != Cancel && Enabled(gens(i), acts(i), true, true)
    && gens(i + 1) == Apply(h, gens(i), acts(i))
  }

  /** So no generation goes on for ever: an endless sequence of states and acts is not a run. */
  lemma {:induction false} NoEndlessRun(h: Hooks, gens: nat -> Gen, acts: nat -> Act, from: nat)
    ensures exists i: nat :: from <= i && !Moves(h, gens, acts, i)
    decreases Left(gens(from)).phase, Left(gens(from)).tokens, Left(gens(from)).segments, Left(gens(from)).audio
  {
    if Moves(h, gens, acts, from) {
      StepShrinks(h, gens(from), acts(from));
      NoEndlessRun(h, gens, acts, from + 1);
    }
  }

  /** One step a cancelled generation can always take, without room in recvCh. */
  function NextAct(g: Gen): Act {
    if g.phase == Spawned then Install
    else if g.phase == Installed then GenerateFails
    else if g.deltas != [] then StreamEnds
    else if g.outbox.Some? && |g.chan| < SEGMENT_CAP then Send
    else if g.worker.Speaking? then if HasAudio(g) then Abort else SegmentDone
    else if g.chan != [] then if g.worker == Idle then Synthesize(None) else Discard
    else if g.seg != "" then Flush
    else if !g.closed then CloseSegments
    else if g.worker != Gone then WorkerExits
    else HandBack
  }

  /** A cancelled generation is never stuck, even with recvCh full and nobody reading it; only
      handing a non-empty reply back needs a slot in modelTurnCh. */
  lemma CancelledNeverStuck(h: Hooks, g: Gen, turnRoom: bool)
    requires GenInv(h, g) && g.cancelled && g.phase != Finished
    requires turnRoom || Flatten(g.received) == ""
    ensures Enabled(g, NextAct(g), false, turnRoom)
    ensures NextAct(g) != Cancel && Apply(h, g, NextAct(g)).received == g.received
  {
    hide Cut, Texts, Groups, Spoken, Open, Closed, Names, Flatten;
  }
}
