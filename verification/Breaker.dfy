/**
 The provider circuit breaker: three states, two failure counters, a half-open success
 counter and a probe flag. The class follows the source method by method; its methods are
 tied to functions on snapshots, and the properties are about whole event logs.
 Times and durations are integers (nanoseconds).
 */
module Breaker {

  datatype State = Closed | Open | HalfOpen

  datatype Config = Config(openAfter: int, openFor: int, halfOpenSuccess: int, authOpenFor: int)

  datatype Decision = Decision(allowed: bool, state: State, reason: string, retryAfter: int)

  datatype Snapshot = Snapshot(state: State, reason: string, openUntil: int,
                               connectFailures: nat, streamFailures: nat, success: nat,
                               probeInFlight: bool)

  datatype Event =
    | Allow(now: int)
    | Success
    | DialFailure(reason: string, now: int)
    | StreamFailure(now: int)

  const SECOND := 1_000_000_000
  const FRESH := Snapshot(Closed, "", 0, 0, 0, 0, false)

  ghost predicate Positive(c: Config) {
    c.openAfter > 0 && c.openFor > 0 && c.halfOpenSuccess > 0 && c.authOpenFor > 0
  }

  function Normalize(c: Config): Config {
    Config(if c.openAfter <= 0 then 5 else c.openAfter,
           if c.openFor <= 0 then 30 * SECOND else c.openFor,
           if c.halfOpenSuccess <= 0 then 3 else c.halfOpenSuccess,
           if c.authOpenFor <= 0 then 300 * SECOND else c.authOpenFor)
  }

  function Merge(base: Config, ov: Config): Config {
    Config(if ov.openAfter > 0 then ov.openAfter else base.openAfter,
           if ov.openFor > 0 then ov.openFor else base.openFor,
           if ov.halfOpenSuccess > 0 then ov.halfOpenSuccess else base.halfOpenSuccess,
           if ov.authOpenFor > 0 then ov.authOpenFor else base.authOpenFor)
  }

  function FirstPositive(a: int, b: int, c: int): int {
    if a > 0 then a else if b > 0 then b else c
  }

  /** The configuration a provider ends up with is always usable, keeps every explicit
      setting, and normalising it again changes nothing. */
  lemma EffectiveConfig(defaults: Config, ov: Config)
    ensures var c := Normalize(Merge(Normalize(defaults), ov));
            && c.openAfter == FirstPositive(ov.openAfter, defaults.openAfter, 5)
            && c.openFor == FirstPositive(ov.openFor, defaults.openFor, 30 * SECOND)
            && c.halfOpenSuccess == FirstPositive(ov.halfOpenSuccess, defaults.halfOpenSuccess, 3)
            && c.authOpenFor == FirstPositive(ov.authOpenFor, defaults.authOpenFor, 300 * SECOND)
            && Positive(c) && Normalize(c) == c
            && c == Merge(Normalize(defaults), ov)
            && (Positive(ov) ==> c == ov)
  {
  }

  // ---- What each operation does to a snapshot ----

  function Opened(b: Snapshot, reason: string, until: int): Snapshot {
    b.(state := Open, reason := reason, openUntil := until,
       connectFailures := 0, streamFailures := 0, success := 0)
  }

  function AfterAllow(b: Snapshot, now: int): (Snapshot, Decision) {
    match b.state
    case Closed => (b, Decision(true, Closed, "", 0))
    case Open =>
      if now < b.openUntil then (b, Decision(false, Open, b.reason, b.openUntil - now))
      else (b.(state := HalfOpen, success := 0, probeInFlight := true), Decision(true, HalfOpen, "", 0))
    case HalfOpen =>
      if b.probeInFlight then (b, Decision(false, HalfOpen, b.reason, 0))
      else (b.(probeInFlight := true), Decision(true, HalfOpen, "", 0))
  }

  function AfterSuccess(cfg: Config, b: Snapshot): Snapshot {
    match b.state
    case Closed => b.(connectFailures := 0, streamFailures := 0)
    case HalfOpen =>
      if b.success + 1 >= cfg.halfOpenSuccess
      then b.(state := Closed, reason := "", connectFailures := 0, streamFailures := 0, success := 0,
              probeInFlight := false)
      else b.(success := b.success + 1, probeInFlight := false)
    case Open => b
  }

  function AfterDialFailure(cfg: Config, b: Snapshot, reason: string, now: int): Snapshot {
    var until := now + if reason == "auth" then cfg.authOpenFor else cfg.openFor;
    match b.state
    case HalfOpen => Opened(b.(probeInFlight := false), reason, until)
    case Closed =>
      if reason == "auth" || b.connectFailures + 1 >= cfg.openAfter then Opened(b, reason, until)
      else b.(connectFailures := b.connectFailures + 1)
    case Open => b
  }

  function AfterStreamFailure(cfg: Config, b: Snapshot, now: int): Snapshot {
    match b.state
    case HalfOpen => Opened(b.(probeInFlight := false), "stream_early", now + cfg.openFor)
    case Closed =>
      if b.streamFailures + 1 >= cfg.openAfter then Opened(b, "stream_early", now + cfg.openFor)
      else b.(streamFailures := b.streamFailures + 1)
    case Open => b
  }

  // ---- The breaker itself ----

  class Breaker {
    const cfg: Config
    var state: State
    var reason: string
    var openUntil: int
    var connectFailures: nat
    var streamFailures: nat
    var success: nat
    var halfOpenProbeInFlight: bool

    ghost function Model(): Snapshot
      reads this
    {
      Snapshot(state, reason, openUntil, connectFailures, streamFailures, success, halfOpenProbeInFlight)
    }

    constructor (cfg: Config)
      ensures this.cfg == cfg && Model() == FRESH
    {
      this.cfg := cfg;
      state, reason, openUntil := Closed, "", 0;
      connectFailures, streamFailures, success, halfOpenProbeInFlight := 0, 0, 0, false;
    }

    method Allow(now: int) returns (d: Decision)
      modifies this
      ensures (Model(), d) == AfterAllow(old(Model()), now)
    {
      match state {
        case Closed => return Decision(true, Closed, "", 0);
        case Open =>
          if now < openUntil {
            return Decision(false, Open, reason, openUntil - now);
          }
          state := HalfOpen;
          success := 0;
          halfOpenProbeInFlight := false;
        case HalfOpen =>
      }
      if halfOpenProbeInFlight {
        return Decision(false, HalfOpen, reason, 0);
      }
      halfOpenProbeInFlight := true;
      return Decision(true, HalfOpen, "", 0);
    }

    method RecordSuccess()
      modifies this
      ensures Model() == AfterSuccess(cfg, old(Model()))
    {
      match state {
        case Closed =>
          connectFailures := 0;
          streamFailures := 0;
        case HalfOpen =>
          halfOpenProbeInFlight := false;
          success := success + 1;
          if success >= cfg.halfOpenSuccess {
            state := Closed;
            reason := "";
            connectFailures := 0;
            streamFailures := 0;
            success := 0;
          }
        case Open =>
      }
    }

    method RecordDialFailure(why: string, now: int)
      modifies this
      ensures Model() == AfterDialFailure(cfg, old(Model()), why, now)
    {
      var open := false;
      var openFor := cfg.openFor;
      if why == "auth" {
        open := true;
        openFor := cfg.authOpenFor;
      }
      match state {
        case HalfOpen =>
          halfOpenProbeInFlight := false;
          open := true;
        case Closed =>
          if !open {
            connectFailures := connectFailures + 1;
            if connectFailures >= cfg.openAfter {
              open := true;
            }
          }
        case Open => return; // already open; the timer is kept
      }
      if !open {
        return;
      }
      OpenCircuit(why, now + openFor);
    }

    method RecordStreamFailure(now: int)
      modifies this
      ensures Model() == AfterStreamFailure(cfg, old(Model()), now)
    {
      var open := false;
      match state {
        case HalfOpen =>
          halfOpenProbeInFlight := false;
          open := true;
        case Closed =>
          streamFailures := streamFailures + 1;
          if streamFailures >= cfg.openAfter {
            open := true;
          }
        case Open => return;
      }
      if !open {
        return;
      }
      OpenCircuit("stream_early", now + cfg.openFor);
    }

    method OpenCircuit(why: string, until: int)
      modifies this
      ensures Model() == Opened(old(Model()), why, until)
    {
      state := Open;
      reason := why;
      openUntil := until;
      connectFailures := 0;
      streamFailures := 0;
      success := 0;
    }
  }

  // ---- Logs of events ----

  function Apply(cfg: Config, b: Snapshot, e: Event): Snapshot {
    match e
    case Allow(now) => AfterAllow(b, now).0
    case Success => AfterSuccess(cfg, b)
    case DialFailure(reason, now) => AfterDialFailure(cfg, b, reason, now)
    case StreamFailure(now) => AfterStreamFailure(cfg, b, now)
  }

  predicate Granted(b: Snapshot, e: Event) {
    e.Allow? && AfterAllow(b, e.now).1.allowed
  }

  /** The breaker after a whole log. */
  function After(cfg: Config, b: Snapshot, log: seq<Event>): Snapshot
    decreases |log|
  {
    if log == [] then b else Apply(cfg, After(cfg, b, log[..|log| - 1]), log[|log| - 1])
  }

  predicate IsDial(e: Event) { e.DialFailure? && e.reason != "auth" }

  predicate IsStream(e: Event) { e.StreamFailure? }

  predicate IsAuth(e: Event) { e.DialFailure? && e.reason == "auth" }

  /** How many events since the last success in the log satisfy p; read off the log alone. */
  function CountSinceSuccess(p: Event -> bool, log: seq<Event>): nat
    decreases |log|
  {
    if log == [] || log[|log| - 1].Success? then 0
    else CountSinceSuccess(p, log[..|log| - 1]) + if p(log[|log| - 1]) then 1 else 0
  }

  ghost predicate Consistent(cfg: Config, b: Snapshot) {
    && (b.state != Closed ==> b.connectFailures == 0 && b.streamFailures == 0)
    && (b.state != HalfOpen ==> b.success == 0 && !b.probeInFlight)
    && (b.state == HalfOpen ==> b.success < cfg.halfOpenSuccess)
    && b.connectFailures < cfg.openAfter
    && b.streamFailures < cfg.openAfter
  }

  /** In every reachable state the counters of a closed breaker are the failures in the log
      since its last success, both below the threshold and with no auth failure among them;
      an open or half-open breaker has zero counters, and a probe is only in flight half-open. */
  lemma {:induction false} CountersRefineLog(cfg: Config, log: seq<Event>)
    requires Positive(cfg)
    ensures var b := After(cfg, FRESH, log);
            && Consistent(cfg, b)
            && (b.state == Closed ==>
                  && b.connectFailures == CountSinceSuccess(IsDial, log) < cfg.openAfter
                  && b.streamFailures == CountSinceSuccess(IsStream, log) < cfg.openAfter
                  && CountSinceSuccess(IsAuth, log) == 0)
    decreases |log|
  {
    if log != [] {
      CountersRefineLog(cfg, log[..|log| - 1]);
    }
  }

  ghost predicate NoSuccess(log: seq<Event>) { forall e <- log :: !e.Success? }

  ghost predicate ClosedAndClear(b: Snapshot) {
    b.state == Closed && b.connectFailures == 0 && b.streamFailures == 0 && b.success == 0 && !b.probeInFlight
  }

  /** A breaker that was just closed (or just saw a success) opens exactly when one of the two
      counts reaches OpenAfter or an auth failure arrives. */
  lemma {:induction false} OpensExactlyWhen(cfg: Config, b: Snapshot, log: seq<Event>)
    requires Positive(cfg) && ClosedAndClear(b) && NoSuccess(log)
    ensures After(cfg, b, log).state == Closed <==>
            && CountSinceSuccess(IsDial, log) < cfg.openAfter
            && CountSinceSuccess(IsStream, log) < cfg.openAfter
            && CountSinceSuccess(IsAuth, log) == 0
    ensures var c := After(cfg, b, log);
            c.state == Closed ==> c == b.(connectFailures := CountSinceSuccess(IsDial, log),
                                          streamFailures := CountSinceSuccess(IsStream, log))
    decreases |log|
  {
    if log != [] {
      OpensExactlyWhen(cfg, b, log[..|log| - 1]);
    }
  }

  // ---- Bounds on what is granted ----

  /** An open breaker grants nothing before openUntil, whatever outcomes are recorded meanwhile:
      it stays exactly as it is, so the timer is never extended or cut short. */
  lemma {:induction false} NothingBeforeOpenUntil(cfg: Config, b: Snapshot, log: seq<Event>)
    requires b.state == Open
    requires forall e <- log :: e.Allow? ==> e.now < b.openUntil
    ensures After(cfg, b, log) == b
    ensures forall i :: 0 <= i < |log| ==> !Granted(After(cfg, b, log[..i]), log[i])
    decreases |log|
  {
    if log != [] {
      var init := log[..|log| - 1];
      NothingBeforeOpenUntil(cfg, b, init);
      forall i | 0 <= i < |log| ensures !Granted(After(cfg, b, log[..i]), log[i]) {
        if i < |init| { assert log[..i] == init[..i] && log[i] == init[i]; }
      }
    }
  }

  /** Grants until the breaker leaves the half-open state. */
  function HalfOpenGrants(cfg: Config, b: Snapshot, log: seq<Event>): nat
    decreases |log|
  {
    if log == [] || b.state != HalfOpen then 0
    else (if Granted(b, log[0]) then 1 else 0) + HalfOpenGrants(cfg, Apply(cfg, b, log[0]), log[1..])
  }

  lemma {:induction false} HalfOpenBudget(cfg: Config, b: Snapshot, log: seq<Event>)
    requires Consistent(cfg, b) && b.state == HalfOpen
    ensures HalfOpenGrants(cfg, b, log) <= cfg.halfOpenSuccess - b.success - if b.probeInFlight then 1 else 0
    decreases |log|
  {
    if log != [] && Apply(cfg, b, log[0]).state == HalfOpen {
      HalfOpenBudget(cfg, Apply(cfg, b, log[0]), log[1..]);
    }
  }

  /** One half-open period, counted from the dial that starts it, grants at most
      HalfOpenSuccess dials, whatever stray outcomes arrive and whichever are missing. */
  lemma HalfOpenPeriodBound(cfg: Config, b: Snapshot, now: int, log: seq<Event>)
    requires Positive(cfg) && Consistent(cfg, b) && b.state == Open && now >= b.openUntil
    ensures Granted(b, Allow(now))
    ensures 1 + HalfOpenGrants(cfg, AfterAllow(b, now).0, log) <= cfg.halfOpenSuccess
  {
    HalfOpenBudget(cfg, AfterAllow(b, now).0, log);
  }

  /** Once a probe is granted, only a recorded outcome can lead to another grant: however often
      and however late it is asked, the breaker stays as it is and refuses. */
  lemma {:induction false} LostProbeBlocks(cfg: Config, b: Snapshot, log: seq<Event>)
    requires b.state == HalfOpen && b.probeInFlight
    requires forall e <- log :: e.Allow?
    ensures After(cfg, b, log) == b
    ensures forall i :: 0 <= i < |log| ==> !Granted(After(cfg, b, log[..i]), log[i])
    decreases |log|
  {
    if log != [] {
      var init := log[..|log| - 1];
      LostProbeBlocks(cfg, b, init);
      forall i | 0 <= i < |log| ensures !Granted(After(cfg, b, log[..i]), log[i]) {
        if i < |init| { assert log[..i] == init[..i] && log[i] == init[i]; }
      }
    }
  }

  lemma GrantNeedsOutcome(cfg: Config, b: Snapshot, log: seq<Event>, now: int)
    requires b.state == HalfOpen && b.probeInFlight && Granted(After(cfg, b, log), Allow(now))
    ensures exists j :: 0 <= j < |log| && !log[j].Allow?
  {
    if forall j :: 0 <= j < |log| ==> log[j].Allow? {
      LostProbeBlocks(cfg, b, log);
    }
  }

  // ---- How close grants can be without a success ----

  function GrantTimes(cfg: Config, b: Snapshot, log: seq<Event>): seq<int>
    decreases |log|
  {
    if log == [] then []
    else
      var init, e := log[..|log| - 1], log[|log| - 1];
      GrantTimes(cfg, b, init) + if Granted(After(cfg, b, init), e) then [e.now] else []
  }

  function MinOpen(cfg: Config): int {
    if cfg.openFor < cfg.authOpenFor then cfg.openFor else cfg.authOpenFor
  }

  /** When a breaker reopened by the failure e grants again. */
  function Until(cfg: Config, e: Event): int
    requires e.DialFailure? || e.StreamFailure?
  {
    e.now + if e.DialFailure? && e.reason == "auth" then cfg.authOpenFor else cfg.openFor
  }

  predicate Reopens(b: Snapshot, e: Event) {
    b.state == HalfOpen && (e.DialFailure? || e.StreamFailure?)
  }

  /** The last grant, or the earlier time last when there is none yet. */
  function LastGrant(cfg: Config, b: Snapshot, last: int, log: seq<Event>): int {
    var times := [last] + GrantTimes(cfg, b, log);
    times[|times| - 1]
  }

  /** Every failure that reopened the breaker was timed so that the opening outlasts the shortest
      one, counted from the probe it ended. */
  ghost predicate LateReopenings(cfg: Config, b: Snapshot, last: int, log: seq<Event>)
    decreases |log|
  {
    log == [] ||
    (var init, e := log[..|log| - 1], log[|log| - 1];
     && LateReopenings(cfg, b, last, init)
     && (Reopens(After(cfg, b, init), e) ==> Until(cfg, e) >= LastGrant(cfg, b, last, init) + MinOpen(cfg)))
  }

  /** b cannot grant again before MinOpen has passed since the grant at last. */
  ghost predicate Spaced(cfg: Config, b: Snapshot, last: int) {
    b.state != Closed && (b.state == HalfOpen ==> b.probeInFlight)
    && (b.state == Open ==> b.openUntil >= last + MinOpen(cfg))
  }

  ghost predicate Apart(m: int, times: seq<int>) {
    forall i :: 0 <= i < |times| - 1 ==> times[i + 1] - times[i] >= m
  }

  lemma ApartSnoc(m: int, times: seq<int>, t: int)
    requires Apart(m, times) && |times| > 0 && t - times[|times| - 1] >= m
    ensures Apart(m, times + [t])
  {
  }

  lemma {:induction false} SpacedGrants(cfg: Config, b: Snapshot, last: int, log: seq<Event>)
    requires Spaced(cfg, b, last) && NoSuccess(log) && LateReopenings(cfg, b, last, log)
    ensures Spaced(cfg, After(cfg, b, log), LastGrant(cfg, b, last, log))
    ensures Apart(MinOpen(cfg), [last] + GrantTimes(cfg, b, log))
    decreases |log|
  {
    if log != [] {
      var init, e := log[..|log| - 1], log[|log| - 1];
      SpacedGrants(cfg, b, last, init);
      var times := [last] + GrantTimes(cfg, b, init);
      if Granted(After(cfg, b, init), e) {
        ApartSnoc(MinOpen(cfg), times, e.now);
        assert [last] + GrantTimes(cfg, b, log) == times + [e.now];
      } else {
        assert [last] + GrantTimes(cfg, b, log) == times;
      }
    }
  }

  /** A half-open breaker whose probe was granted at g is reopened by e: every later grant keeps
      the distance if and only if e was recorded with a late enough time. */
  lemma ReopeningSpacesExactly(cfg: Config, b: Snapshot, g: int, e: Event)
    requires Positive(cfg) && Reopens(b, e)
    ensures (forall now :: now >= g && Granted(Apply(cfg, b, e), Allow(now)) ==> now - g >= MinOpen(cfg))
            <==> Until(cfg, e) >= g + MinOpen(cfg)
  {
    var c := Apply(cfg, b, e);
    assert c.state == Open && c.openUntil == Until(cfg, e);
    var soonest := if g < Until(cfg, e) then Until(cfg, e) else g;
    assert Granted(c, Allow(soonest));
  }

  /** Whenever it is asked after this log, and however late, the next grant keeps the distance. */
  ghost predicate KeepsDistance(cfg: Config, b: Snapshot, last: int, log: seq<Event>) {
    var g := LastGrant(cfg, b, last, log);
    forall now :: now >= g && Granted(After(cfg, b, log), Allow(now)) ==> now - g >= MinOpen(cfg)
  }

  /** Over whole runs without a success: at every moment the next grant keeps the distance to the
      last one if and only if every reopening was late enough. */
  lemma {:induction false} SpacingExactly(cfg: Config, b: Snapshot, last: int, log: seq<Event>)
    requires Positive(cfg) && Spaced(cfg, b, last) && NoSuccess(log)
    ensures (forall i: nat :: i <= |log| ==> KeepsDistance(cfg, b, last, log[..i]))
            <==> LateReopenings(cfg, b, last, log)
    decreases |log|
  {
    hide KeepsDistance, LateReopenings, Spaced, After, GrantTimes;
    if log == [] {
      assert log[..0] == log;
      SpacingAtEnd(cfg, b, last, log);
    } else {
      var n := |log| - 1;
      SpacingExactly(cfg, b, last, log[..n]);
      assert forall i: nat :: i <= n ==> log[..n][..i] == log[..i];
      assert forall i: nat :: i <= n ==>
        (KeepsDistance(cfg, b, last, log[..n][..i]) <==> KeepsDistance(cfg, b, last, log[..i]));
      assert log[..n + 1] == log;
      SpacingAtEnd(cfg, b, last, log);
    }
  }

  lemma SpacingAtEnd(cfg: Config, b: Snapshot, last: int, log: seq<Event>)
    requires Positive(cfg) && Spaced(cfg, b, last) && NoSuccess(log)
    ensures LateReopenings(cfg, b, last, log) ==> KeepsDistance(cfg, b, last, log)
    ensures log == [] ==> LateReopenings(cfg, b, last, log)
    ensures log != [] && LateReopenings(cfg, b, last, log[..|log| - 1]) && KeepsDistance(cfg, b, last, log)
            ==> LateReopenings(cfg, b, last, log)
    ensures log != [] && LateReopenings(cfg, b, last, log) ==> LateReopenings(cfg, b, last, log[..|log| - 1])
  {
    if LateReopenings(cfg, b, last, log) {
      SpacedGrants(cfg, b, last, log);
    }
    if log != [] {
      var init, e := log[..|log| - 1], log[|log| - 1];
      var c := After(cfg, b, init);
      if Reopens(c, e) {
        assert GrantTimes(cfg, b, log) == GrantTimes(cfg, b, init);
        ReopeningSpacesExactly(cfg, c, LastGrant(cfg, b, last, init), e);
      }
    }
  }

  lemma {:induction false} SpanOfApart(m: int, times: seq<int>)
    requires |times| > 0 && Apart(m, times)
    ensures times[|times| - 1] - times[0] >= (|times| - 1) * m
    decreases |times|
  {
    if |times| > 1 {
      var init := times[..|times| - 1];
      assert forall i :: 0 <= i < |init| - 1 ==> init[i + 1] - init[i] == times[i + 1] - times[i];
      SpanOfApart(m, init);
    }
  }

  /** Without a recorded success and with late enough reopenings, k grants after an opening span
      at least (k-1) * min(OpenFor, AuthOpenFor), and none comes before openUntil. No order among
      the times of the other calls is assumed. */
  lemma DialRateBound(cfg: Config, b: Snapshot, log: seq<Event>)
    requires b.state == Open && NoSuccess(log)
    requires LateReopenings(cfg, b, b.openUntil - MinOpen(cfg), log)
    ensures var g := GrantTimes(cfg, b, log);
            && Apart(MinOpen(cfg), g)
            && (g != [] ==> g[0] >= b.openUntil && g[|g| - 1] - g[0] >= (|g| - 1) * MinOpen(cfg))
  {
    hide After, GrantTimes, LateReopenings, Apart;
    var m := MinOpen(cfg);
    SpacedGrants(cfg, b, b.openUntil - m, log);
    hide MinOpen, Spaced;
    var g := GrantTimes(cfg, b, log);
    ApartTail(m, b.openUntil - m, g);
    if g != [] { SpanOfApart(m, g); }
  }

  lemma ApartTail(m: int, last: int, g: seq<int>)
    requires Apart(m, [last] + g)
    ensures Apart(m, g) && (g != [] ==> g[0] >= last + m)
  {
    var times := [last] + g;
    assert forall i :: 0 <= i < |g| - 1 ==> g[i + 1] - g[i] == times[i + 2] - times[i + 1];
    assert g != [] ==> times[1] - times[0] >= m;
  }

  /** Reopening failures carry a time that is not before the probe's. */
  ghost predicate ProbeTimes(cfg: Config, b: Snapshot, last: int, log: seq<Event>)
    decreases |log|
  {
    log == [] ||
    (var init, e := log[..|log| - 1], log[|log| - 1];
     && ProbeTimes(cfg, b, last, init)
     && (Reopens(After(cfg, b, init), e) ==> e.now >= LastGrant(cfg, b, last, init)))
  }

  /** An offer records its dial with the time it asked at, so a reopening by the probe's own
      failure is always late enough, however long the dial took and whoever asked meanwhile. */
  lemma {:induction false} ProbeTimesAreLate(cfg: Config, b: Snapshot, last: int, log: seq<Event>)
    requires ProbeTimes(cfg, b, last, log)
    ensures LateReopenings(cfg, b, last, log)
    decreases |log|
  {
    if log != [] {
      ProbeTimesAreLate(cfg, b, last, log[..|log| - 1]);
    }
  }

  ghost predicate Timed(log: seq<Event>) {
    forall i, j :: 0 <= i < j < |log| && !log[i].Success? && !log[j].Success? ==> log[i].now <= log[j].now
  }

  lemma {:induction false} LastGrantBelow(cfg: Config, b: Snapshot, last: int, log: seq<Event>, bound: int)
    requires b.state == Open && NoSuccess(log) && forall e <- log :: e.now <= bound
    ensures GrantTimes(cfg, b, log) == [] ==> After(cfg, b, log) == b
    ensures GrantTimes(cfg, b, log) != [] ==> LastGrant(cfg, b, last, log) <= bound
    decreases |log|
  {
    if log != [] {
      LastGrantBelow(cfg, b, last, log[..|log| - 1], bound);
    }
  }

  /** So are reopenings under a clock that never goes back. */
  lemma {:induction false} TimedIsLate(cfg: Config, b: Snapshot, last: int, log: seq<Event>)
    requires b.state == Open && Timed(log) && NoSuccess(log)
    ensures ProbeTimes(cfg, b, last, log) && LateReopenings(cfg, b, last, log)
    decreases |log|
  {
    if log != [] {
      var init := log[..|log| - 1];
      TimedIsLate(cfg, b, last, init);
      forall e | e in init ensures e.now <= log[|log| - 1].now {
        var i :| 0 <= i < |init| && init[i] == e;
        assert log[i] in log && log[|log| - 1] in log;
      }
      LastGrantBelow(cfg, b, last, init, log[|log| - 1].now);
    }
    ProbeTimesAreLate(cfg, b, last, log);
  }

  /** The condition can fail from the start with every outcome recorded as offers record theirs:
      two dials are granted while closed; the later one fails for auth and opens the breaker; a
      probe is granted at u; then the first dial fails, with the time it was granted at. The
      breaker reopens in the past and the next dial is granted at the very same instant. */
  lemma StaleTimeDefeatsSpacing(cfg: Config)
    requires Positive(cfg)
    ensures var u := cfg.openFor + cfg.authOpenFor;
            GrantTimes(cfg, FRESH, [Allow(0), Allow(cfg.openFor), DialFailure("auth", cfg.openFor),
                                    Allow(u), DialFailure("other", 0), Allow(u)]) == [0, cfg.openFor, u, u]
  {
    var t, u := cfg.openFor, cfg.openFor + cfg.authOpenFor;
    StaleSnapshots(cfg);
    hide After, GrantTimes, Apply, Granted;
    var l2 := [Allow(0), Allow(t)];
    var l3 := l2 + [DialFailure("auth", t)];
    var l4 := l3 + [Allow(u)];
    var l5 := l4 + [DialFailure("other", 0)];
    LogSnoc(cfg, FRESH, [], Allow(0));
    LogSnoc(cfg, FRESH, [Allow(0)], Allow(t));
    assert [] + [Allow(0)] == [Allow(0)] && [Allow(0)] + [Allow(t)] == l2;
    LogSnoc(cfg, FRESH, l2, DialFailure("auth", t));
    LogSnoc(cfg, FRESH, l3, Allow(u));
    LogSnoc(cfg, FRESH, l4, DialFailure("other", 0));
    LogSnoc(cfg, FRESH, l5, Allow(u));
    assert GrantTimes(cfg, FRESH, l5 + [Allow(u)]) == [0, t, u, u];
    assert l5 + [Allow(u)]
        == [Allow(0), Allow(t), DialFailure("auth", t), Allow(u), DialFailure("other", 0), Allow(u)];
  }

  /** The breaker after each of those events. */
  lemma StaleSnapshots(cfg: Config)
    requires Positive(cfg)
    ensures var t, u := cfg.openFor, cfg.openFor + cfg.authOpenFor;
            var tripped := Opened(FRESH, "auth", u);
            var probing := tripped.(state := HalfOpen, probeInFlight := true);
            var reopened := Opened(probing.(probeInFlight := false), "other", t);
            && Apply(cfg, FRESH, Allow(0)) == FRESH && Granted(FRESH, Allow(0))
            && Apply(cfg, FRESH, Allow(t)) == FRESH && Granted(FRESH, Allow(t))
            && Apply(cfg, FRESH, DialFailure("auth", t)) == tripped && !Granted(FRESH, DialFailure("auth", t))
            && Apply(cfg, tripped, Allow(u)) == probing && Granted(tripped, Allow(u))
            && Apply(cfg, probing, DialFailure("other", 0)) == reopened && !Granted(probing, DialFailure("other", 0))
            && Granted(reopened, Allow(u))
  {
  }

  lemma LogSnoc(cfg: Config, b: Snapshot, log: seq<Event>, e: Event)
    ensures After(cfg, b, log + [e]) == Apply(cfg, After(cfg, b, log), e)
    ensures GrantTimes(cfg, b, log + [e]) ==
            GrantTimes(cfg, b, log) + if Granted(After(cfg, b, log), e) then [e.now] else []
    ensures After(cfg, b, []) == b && GrantTimes(cfg, b, []) == []
  {
    assert (log + [e])[..|log|] == log;
  }

  // ---- Recovery ----

  /** k dials that are granted at now and succeed. */
  function Recovery(now: int, k: nat): seq<Event>
    decreases k
  {
    if k == 0 then [] else Recovery(now, k - 1) + [Allow(now), Success]
  }

  /** Where a breaker stands after k of them. */
  ghost predicate Recovering(cfg: Config, c: Snapshot, now: int, k: nat) {
    && (k == 0 ==> c.state == Open && now >= c.openUntil)
    && (0 < k < cfg.halfOpenSuccess ==> c.state == HalfOpen && c.success == k && !c.probeInFlight)
    && (k < cfg.halfOpenSuccess ==> c.connectFailures == c.streamFailures == 0)
    && (k == cfg.halfOpenSuccess ==> ClosedAndClear(c) && c.reason == "")
  }

  lemma OneRecovery(cfg: Config, c: Snapshot, now: int, k: nat)
    requires Positive(cfg) && k < cfg.halfOpenSuccess && Recovering(cfg, c, now, k)
    ensures Granted(c, Allow(now))
    ensures Recovering(cfg, Apply(cfg, Apply(cfg, c, Allow(now)), Success), now, k + 1)
  {
  }

  /** A breaker whose opening is over lets one dial after another through as long as they succeed,
      and closes, with every counter clear, at exactly the HalfOpenSuccess-th success. */
  lemma {:induction false} RecoversExactly(cfg: Config, b: Snapshot, now: int, k: nat)
    requires Positive(cfg) && Consistent(cfg, b) && b.state == Open && now >= b.openUntil
    requires k <= cfg.halfOpenSuccess
    ensures var c := After(cfg, b, Recovery(now, k));
            && Recovering(cfg, c, now, k) && Granted(c, Allow(now))
            && (k < cfg.halfOpenSuccess ==> c.state != Closed)
    decreases k
  {
    hide After, Apply, GrantTimes;
    LogSnoc(cfg, b, [], Success);
    if k > 0 {
      var before := Recovery(now, k - 1);
      RecoversExactly(cfg, b, now, k - 1);
      LogSnoc(cfg, b, before, Allow(now));
      LogSnoc(cfg, b, before + [Allow(now)], Success);
      assert before + [Allow(now), Success] == before + [Allow(now)] + [Success];
      OneRecovery(cfg, After(cfg, b, before), now, k - 1);
    }
  }

  // ---- What a refused caller is told ----

  /** Asking again after the time told is granted, and any sooner is refused, if nothing happens
      meanwhile. */
  lemma RetryAfterExactly(b: Snapshot, now: int, later: int)
    requires b.state == Open && !Granted(b, Allow(now))
    ensures Granted(b, Allow(later)) <==> later >= now + AfterAllow(b, now).1.retryAfter
  {
  }

  /** The state a caller is told is the one the breaker is left in, and a granted one is told no more. */
  lemma DecisionNamesTheState(b: Snapshot, now: int)
    ensures var (c, d) := AfterAllow(b, now);
            && d.state == c.state
            && (d.allowed ==> d.reason == "" && d.retryAfter == 0)
            && (!d.allowed ==> c == b && d.reason == b.reason)
            && (d.allowed <==> match b.state
                               case Closed => true
                               case Open => now >= b.openUntil
                               case HalfOpen => !b.probeInFlight)
  {
  }

  /** What a failure that opens the breaker is remembered as. */
  function ReasonOf(e: Event): string
    requires e.DialFailure? || e.StreamFailure?
  {
    if e.DialFailure? then e.reason else "stream_early"
  }

  /** Whichever failure opens the breaker, from closed or half-open, decides how long it stays open
      and the reason every refusal gives until it closes again. */
  lemma {:induction false} RefusalsNameTheFailure(cfg: Config, b: Snapshot, e: Event, later: seq<Event>, now: int)
    requires (e.DialFailure? || e.StreamFailure?) && b.state != Open && Apply(cfg, b, e).state == Open
    requires NoSuccess(later) && forall x <- later :: x.Allow?
    ensures Apply(cfg, b, e).openUntil == Until(cfg, e)
    ensures var c := After(cfg, Apply(cfg, b, e), later);
            c.reason == ReasonOf(e) && c.state != Closed
            && (!Granted(c, Allow(now)) ==> AfterAllow(c, now).1.reason == ReasonOf(e))
    decreases |later|
  {
    if later != [] {
      assert forall x <- later[..|later| - 1] :: x in later;
      RefusalsNameTheFailure(cfg, b, e, later[..|later| - 1], now);
    }
  }
}
