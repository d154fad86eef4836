/** How a reconnecting offer is resolved: session id, starting seq, history, lines to resend. */
module Replay {
  import opened Common
  import opened Transcript
  import opened Sessions
  import opened Events
  import ReplayIndex

  datatype Headers = Headers(requested: bool, incomplete: bool, sessionID: string, lastSeq: nat)

  /** What the replay-index client reports, if there is one. */
  datatype IndexReply = NoIndex | TimedOut | Failed | Found(evs: seq<Event>)

  datatype Status = Disabled | Miss | MemoryHit | IndexTimeout | IndexError | IndexHit

  datatype Outcome = Outcome(sessionID: string, startSeq: nat, initialHistory: seq<Line>,
                             replayLines: seq<Line>, status: Status)

  /** An invalid protocol error comes with the outcome reached so far. */
  datatype Result = Ok(outcome: Outcome) | ProtocolInvalid(outcome: Outcome)

  datatype Offer = Offer(headers: Headers, userID: string, provider: string, enabled: bool,
                         index: IndexReply, newID: string)

  function LineFromEvent(ev: Event): Line {
    Line(ev.sq, if ev.role == "user" then "user" else "model", ev.text)
  }

  function LinesFromEvents(evs: seq<Event>): seq<Line> {
    seq(|evs|, i requires 0 <= i < |evs| => LineFromEvent(evs[i]))
  }

  function Highest(evs: seq<Event>, base: nat): nat
    decreases |evs|
  {
    if evs == [] then base
    else
      var m := Highest(evs[..|evs| - 1], base);
      if evs[|evs| - 1].sq > m then evs[|evs| - 1].sq else m
  }

  /** The reconnect goes as far as asking the hub to resume. */
  predicate AsksHub(w: World, o: Offer, now: int) {
    && o.headers.requested && !o.headers.incomplete && o.userID != ""
    && var known := StateAnswer(w, o.headers.sessionID, o.userID, now);
       known.Some? ==> o.headers.lastSeq <= known.value.1 && known.value.0 == o.provider
  }

  function Unresolved(o: Offer): Outcome {
    Outcome(o.newID, 0, [], [], if o.enabled then Miss else Disabled)
  }

  function FromIndex(o: Offer): Outcome {
    if !o.enabled then Unresolved(o)
    else match o.index
      case NoIndex => Unresolved(o)
      case TimedOut => Unresolved(o).(status := IndexTimeout)
      case Failed => Unresolved(o).(status := IndexError)
      case Found(evs) =>
        if evs == [] then Unresolved(o)
        else Outcome(o.headers.sessionID, Highest(evs, o.headers.lastSeq),
                     LinesFromEvents(evs), LinesFromEvents(evs), IndexHit)
  }

  function Resolution(w: World, o: Offer, now: int): Result {
    var h := o.headers;
    if !h.requested || h.incomplete || o.userID == "" then Ok(Unresolved(o))
    else if !AsksHub(w, o, now) then
      if StateAnswer(w, h.sessionID, o.userID, now).value.1 < h.lastSeq then ProtocolInvalid(Unresolved(o))
      else Ok(Unresolved(o))
    else match ResumeAnswer(w, h.sessionID, o.userID, o.provider, h.lastSeq, now)
      case Some(r) => Ok(Outcome(h.sessionID, r.startSeq, r.full, r.replay, MemoryHit))
      case None => Ok(FromIndex(o))
  }

  function AfterResolution(w: World, ttl: int, o: Offer, now: int): World {
    if AsksHub(w, o, now) then AfterResume(w, ttl, o.headers.sessionID, o.userID, o.provider, now) else w
  }

  method ResolveReplay(hub: Hub, o: Offer, now: int) returns (res: Result)
    requires hub.Valid()
    modifies hub`conns, hub.archives, hub.conns.Values
    ensures hub.Valid()
    ensures res == Resolution(old(hub.Model()), o, now)
    ensures hub.Model() == AfterResolution(old(hub.Model()), hub.archives.ttl, o, now)
  {
    hide AfterResume, ResumeAnswer, StateAnswer, FromIndex;
    var h := o.headers;
    var out := Outcome(o.newID, 0, [], [], Disabled);
    if o.enabled {
      out := out.(status := Miss);
    }
    if !h.requested || h.incomplete {
      return Ok(out);
    }
    if o.userID == "" {
      return Ok(out);
    }
    var known := hub.SessionState(h.sessionID, o.userID, now);
    assert hub.Model() == old(hub.Model());
    if known.Some? {
      if h.lastSeq > known.value.1 {
        return ProtocolInvalid(out);
      }
      if known.value.0 != o.provider {
        return Ok(out);
      }
    }
    res := ResumeOrIndex(hub, o, now, out);
  }

  /** The part of ResolveReplay that may take a session over. */
  method ResumeOrIndex(hub: Hub, o: Offer, now: int, base: Outcome) returns (res: Result)
    requires hub.Valid() && AsksHub(hub.Model(), o, now) && base == Unresolved(o)
    modifies hub`conns, hub.archives, hub.conns.Values
    ensures hub.Valid()
    ensures res == Resolution(old(hub.Model()), o, now)
    ensures hub.Model() == AfterResolution(old(hub.Model()), hub.archives.ttl, o, now)
  {
    hide AfterResume, ResumeAnswer, StateAnswer, FromIndex, AsksHub;
    var h := o.headers;
    AskingOffer(hub.Model(), o, now);
    var resumed := hub.Resume(h.sessionID, o.userID, o.provider, h.lastSeq, now);
    if resumed.Some? {
      var r := resumed.value;
      return Ok(Outcome(h.sessionID, r.startSeq, r.full, r.replay, MemoryHit));
    }
    res := ResolveFromIndex(o, base);
  }

  lemma AskingOffer(w: World, o: Offer, now: int)
    requires AsksHub(w, o, now)
    ensures o.headers.requested && !o.headers.incomplete && o.userID != ""
  {
  }

  /** The cross-node half of ResolveReplay. */
  method ResolveFromIndex(o: Offer, base: Outcome) returns (res: Result)
    requires base == Unresolved(o)
    ensures res == Ok(FromIndex(o))
  {
    var out := base;
    if !o.enabled {
      return Ok(out.(status := Disabled));
    }
    match o.index {
      case NoIndex => return Ok(out);
      case TimedOut => return Ok(out.(status := IndexTimeout));
      case Failed => return Ok(out.(status := IndexError));
      case Found(evs) =>
        if |evs| == 0 {
          return Ok(out);
        }
        var lines: seq<Line> := [];
        var startSeq := o.headers.lastSeq;
        var i := 0;
        while i < |evs|
          invariant 0 <= i <= |evs|
          invariant lines == LinesFromEvents(evs[..i])
          invariant startSeq == Highest(evs[..i], o.headers.lastSeq)
        {
          assert evs[..i + 1][..i] == evs[..i];
          lines := lines + [LineFromEvent(evs[i])];
          if evs[i].sq > startSeq {
            startSeq := evs[i].sq;
          }
          i := i + 1;
        }
        assert evs[..i] == evs;
        res := Ok(Outcome(o.headers.sessionID, startSeq, lines, lines, IndexHit));
    }
  }

  // ---- Continuing after an index hit ----

  ghost predicate Increasing(lines: seq<Line>) {
    forall i, j :: 0 <= i < j < |lines| ==> lines[i].sq < lines[j].sq
  }

  lemma {:induction false} HighestIsMaximum(evs: seq<Event>, base: nat)
    ensures Highest(evs, base) >= base && forall i :: 0 <= i < |evs| ==> evs[i].sq <= Highest(evs, base)
    ensures Highest(evs, base) == base || exists i :: 0 <= i < |evs| && evs[i].sq == Highest(evs, base)
    decreases |evs|
  {
    if evs != [] {
      var init := evs[..|evs| - 1];
      HighestIsMaximum(init, base);
      assert forall i :: 0 <= i < |init| ==> init[i] == evs[i];
    }
  }

  function RecordAll(r: Rec, turns: seq<Turn>): Rec
    decreases |turns|
  {
    if turns == [] then r
    else
      var t := turns[|turns| - 1];
      Recorded(RecordAll(r, turns[..|turns| - 1]), t.role, t.text)
  }

  /** A recorder seeded with an increasing history not above its seq stays that way. */
  lemma {:induction false} RecordingContinues(r: Rec, turns: seq<Turn>)
    requires Increasing(r.history) && forall l <- r.history :: l.sq <= r.sq
    ensures var q := RecordAll(r, turns);
            q.sq == r.sq + |turns| && Increasing(q.history) && forall l <- q.history :: l.sq <= q.sq
    decreases |turns|
  {
    if turns != [] {
      var t := turns[|turns| - 1];
      var p := RecordAll(r, turns[..|turns| - 1]);
      RecordingContinues(r, turns[..|turns| - 1]);
      RecordedContinues(p, t.role, t.text);
    }
  }

  lemma RecordedContinues(r: Rec, role: string, text: string)
    requires Increasing(r.history) && forall l <- r.history :: l.sq <= r.sq
    ensures var q := Recorded(r, role, text);
            q.sq == r.sq + 1 && Increasing(q.history) && forall l <- q.history :: l.sq <= q.sq
  {
    var last := Line(r.sq + 1, role, text);
    IncreasingSnoc(r.history, last);
    var grown := r.history + [last];
    var kept := LastN(grown, HISTORY_LIMIT);
    assert kept == grown[|grown| - |kept|..];
    IncreasingTail(grown, |grown| - |kept|, last.sq);
  }

  lemma IncreasingSnoc(s: seq<Line>, x: Line)
    requires Increasing(s) && forall l <- s :: l.sq < x.sq
    ensures Increasing(s + [x]) && forall l <- s + [x] :: l.sq <= x.sq
  {
    var t := s + [x];
    forall i, j | 0 <= i < j < |t| ensures t[i].sq < t[j].sq {
      assert t[i] == s[i] && s[i] in s;
    }
  }

  lemma IncreasingTail(s: seq<Line>, k: nat, top: nat)
    requires k <= |s| && Increasing(s) && forall l <- s :: l.sq <= top
    ensures Increasing(s[k..]) && forall l <- s[k..] :: l.sq <= top
  {
    var t := s[k..];
    forall i, j | 0 <= i < j < |t| ensures t[i].sq < t[j].sq {
      assert t[i] == s[k + i] && t[j] == s[k + j];
    }
  }

  /** An index hit built from a query page: the replayed lines are strictly increasing and newer
      than what the client has, the session starts at the last of them, and whatever is recorded
      afterwards gets seqs above all of them, keeping the history strictly increasing. */
  lemma IndexHitContinues(m: ReplayIndex.Sessions, o: Offer, limit: int, at: int, turns: seq<Turn>)
    requires forall id :: id in m ==> Ascending(m[id].events)
    requires o.enabled && o.index.Found? && o.index.evs != []
    requires o.index.evs ==
             ReplayIndex.Queried(m, o.headers.sessionID, o.userID, o.provider, o.headers.lastSeq, limit, at)
    ensures var out := FromIndex(o);
            && out.status == IndexHit && out.sessionID == o.headers.sessionID
            && out.initialHistory == out.replayLines && Increasing(out.replayLines)
            && (forall l <- out.replayLines :: o.headers.lastSeq < l.sq <= out.startSeq)
            && out.startSeq == out.replayLines[|out.replayLines| - 1].sq
            && var r := RecordAll(Rec(out.startSeq, out.initialHistory), turns);
               r.sq == out.startSeq + |turns| && Increasing(r.history)
  {
    hide Highest, RecordAll, LinesFromEvents, Increasing, ReplayIndex.Queried, Ascending;
    PageIsNewer(m, o, limit, at);
    PageSeeds(o.index.evs, o.headers.lastSeq);
    var out := FromIndex(o);
    RecordingContinues(Rec(out.startSeq, out.initialHistory), turns);
  }

  lemma PageSeeds(evs: seq<Event>, base: nat)
    requires evs != [] && Ascending(evs) && forall i :: 0 <= i < |evs| ==> evs[i].sq > base
    ensures var lines, start := LinesFromEvents(evs), Highest(evs, base);
            && Increasing(lines) && |lines| == |evs| && start == lines[|lines| - 1].sq
            && forall l <- lines :: base < l.sq <= start
  {
    HighestIsMaximum(evs, base);
    hide Highest;
    var lines := LinesFromEvents(evs);
    assert forall i :: 0 <= i < |lines| ==> lines[i].sq == evs[i].sq;
    assert evs[|evs| - 1].sq == Highest(evs, base);
  }

  lemma PageIsNewer(m: ReplayIndex.Sessions, o: Offer, limit: int, at: int)
    requires forall id :: id in m ==> Ascending(m[id].events)
    requires o.index.Found? && o.index.evs != []
    requires o.index.evs ==
             ReplayIndex.Queried(m, o.headers.sessionID, o.userID, o.provider, o.headers.lastSeq, limit, at)
    ensures Ascending(o.index.evs) && forall i :: 0 <= i < |o.index.evs| ==> o.index.evs[i].sq > o.headers.lastSeq
  {
    hide Suffix;
    var stored, after := m[o.headers.sessionID].events, o.headers.lastSeq;
    SuffixIsTail(stored, after);
    var cut := |stored| - |Suffix(stored, after)|;
    forall i | 0 <= i < |o.index.evs| ensures o.index.evs[i] == stored[cut + i] && stored[cut + i].sq > after {
    }
  }

  // ---- What the client is told ----

  /** The offer asks to resume a session on its own behalf. */
  predicate Asks(o: Offer) {
    o.headers.requested && !o.headers.incomplete && o.userID != ""
  }

  /** Every answer, for every offer. The status says what happened: the offer is refused exactly when
      it claims more lines than its known session has; it resumes from memory exactly when the hub
      answers; otherwise the index decides, if it may be asked, and says whether it failed, timed
      out, knew nothing or answered; and a session that is not resumed is new and starts empty. */
  lemma StatusesExactly(w: World, o: Offer, now: int)
    ensures var h := o.headers;
            var known := StateAnswer(w, h.sessionID, o.userID, now);
            var resumed := ResumeAnswer(w, h.sessionID, o.userID, o.provider, h.lastSeq, now);
            var res := Resolution(w, o, now);
            var out := res.outcome;
            var refused := Asks(o) && known.Some? && h.lastSeq > known.value.1;
            var elsewhere := Asks(o) && !refused && (known.Some? ==> known.value.0 == o.provider);
            && (res.ProtocolInvalid? <==> refused)
            && (out.status == MemoryHit <==> elsewhere && resumed.Some?)
            && (out.status == IndexTimeout <==> elsewhere && resumed.None? && o.enabled && o.index.TimedOut?)
            && (out.status == IndexError <==> elsewhere && resumed.None? && o.enabled && o.index.Failed?)
            && (out.status == IndexHit <==>
                  elsewhere && resumed.None? && o.enabled && o.index.Found? && o.index.evs != [])
            && (out.status == Disabled ==> !o.enabled) && (out.status == Miss ==> o.enabled)
            && (if out.status == MemoryHit || out.status == IndexHit then out.sessionID == h.sessionID
                else out.sessionID == o.newID && out.startSeq == 0 && out.initialHistory == [] && out.replayLines == [])
  {
    hide StateAnswer, ResumeAnswer, Highest;
  }
}
