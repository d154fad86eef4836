/**
 Any number of record, disconnect and reconnect cycles, over all sessions of one hub: for each
 session id they amount to one ever-growing log.
 */
module Reconnect {
  import opened Common
  import opened Transcript
  import opened Sessions
  import opened Replay

  datatype Op =
    | RecordLine(id: string, turn: Turn)
    | Disconnect(id: string)
    | Connect(offer: Offer, dialOk: bool) // an offer; the session is only committed if the dial works

  datatype Timed = Timed(op: Op, now: int)

  function Step(w: World, ttl: int, t: Timed): World {
    match t.op
    case RecordLine(id, turn) =>
      if id in w.conns
      then w.(conns := w.conns[id := w.conns[id].(rec := Recorded(w.conns[id].rec, turn.role, turn.text))]) else w
    case Disconnect(id) =>
      if id in w.conns then Removed(w, ttl, id, w.conns[id], t.now) else w
    case Connect(o, dialOk) =>
      var resolved := AfterResolution(w, ttl, o, t.now);
      match Resolution(w, o, t.now)
      case ProtocolInvalid(_) => resolved
      case Ok(out) =>
        if !dialOk then resolved
        else resolved.(conns := resolved.conns[out.sessionID :=
                                  Live(o.userID, o.provider, Rec(out.startSeq, out.initialHistory))])
  }

  /** An offer against the hub itself: resolve, dial, build the session, serve, commit. A failed
      dial or a failed setup leaves what a takeover archived and registers nothing. */
  method HandleOffer(hub: Hub, o: Offer, dialOk: bool, serveOk: bool, now: int) returns (res: Result)
    requires hub.Valid()
    modifies hub`conns, hub.archives, hub.conns.Values
    ensures hub.Valid()
    ensures res == Resolution(old(hub.Model()), o, now)
    ensures hub.Model() == Step(old(hub.Model()), hub.archives.ttl, Timed(Connect(o, dialOk && serveOk), now))
  {
    hide Resolution, AfterResolution;
    res := ResolveReplay(hub, o, now);
    if res.ProtocolInvalid? || !dialOk {
      return;
    }
    var out := res.outcome;
    var rec := new Recorder(out.startSeq, out.initialHistory);
    var s := new Session(out.sessionID, o.userID, o.provider, rec);
    assert hub.Model() == AfterResolution(old(hub.Model()), hub.archives.ttl, o, now);
    if serveOk {
      hub.Commit(s);
    }
    hub.AbortIfUncommitted(s, now);
  }

  function LogAfter(log: seq<Turn>, w: World, id: string, op: Op): seq<Turn> {
    if op.RecordLine? && op.id == id && id in w.conns then log + [op.turn] else log
  }

  /** The session id is live or archived, for its owner and provider, and stands for the log. */
  ghost predicate Tracked(w: World, id: string, userID: string, provider: string, log: seq<Turn>) {
    && id != "" && userID != ""
    && if id in w.conns then
         w.conns[id].userID == userID && w.conns[id].provider == provider && Represents(w.conns[id].rec, log)
       else
         && log != [] && id in w.archives
         && var a := w.archives[id];
            a.userID == userID && a.provider == provider && Represents(Rec(a.maxSeq, a.history), log)
  }

  /** What is assumed of each operation: the archive has not outlived its TTL; a session that has
      recorded nothing is not dropped; minted ids are new; and the replay index, which only
      answers a session's own user, finds nothing for anyone else. */
  ghost predicate Fits(w: World, id: string, userID: string, log: seq<Turn>, t: Timed) {
    && (id !in w.conns && id in w.archives ==> t.now <= w.archives[id].expiry)
    && (log == [] ==> t.op != Disconnect(id) && (t.op.Connect? && t.op.offer.headers.sessionID == id ==> t.op.dialOk))
    && (t.op.Connect? ==>
          var o := t.op.offer;
          && o.newID != id
          && (o.headers.sessionID == id && o.userID != userID && o.index.Found? ==> o.index.evs == []))
  }

  lemma StepKeepsTracked(w: World, ttl: int, id: string, userID: string, provider: string, log: seq<Turn>, t: Timed)
    requires Tracked(w, id, userID, provider, log) && Fits(w, id, userID, log, t)
    ensures Tracked(Step(w, ttl, t), id, userID, provider, LogAfter(log, w, id, t.op))
  {
    match t.op
    case RecordLine(k, turn) =>
      if k == id && id in w.conns {
        RecordExtendsLog(w.conns[id].rec, log, turn.role, turn.text);
      }
    case Disconnect(k) =>
    case Connect(o, dialOk) => ConnectKeepsTracked(w, ttl, id, userID, provider, log, t);
  }

  lemma ConnectKeepsTracked(w: World, ttl: int, id: string, userID: string, provider: string, log: seq<Turn>, t: Timed)
    requires t.op.Connect? && Tracked(w, id, userID, provider, log) && Fits(w, id, userID, log, t)
    ensures Tracked(Step(w, ttl, t), id, userID, provider, log)
  {
    hide Newer, Highest, LinesFromEvents;
    var o := t.op.offer;
    var k := o.headers.sessionID;
    if k == id && o.userID == userID && o.provider == provider && o.headers.requested && !o.headers.incomplete {
      OwnerReconnects(w, ttl, id, log, o, t.now);
    }
  }

  /** What a reconnect by the owner gets, live or archived: a client holding the first k lines is
      rejected if it claims more than were ever assigned; otherwise it resumes the same session
      id at the same seq with the retained history, and is resent exactly the lines it misses if
      the history reaches back that far. Afterwards the log is safely archived again. */
  lemma OwnerReconnects(w: World, ttl: int, id: string, log: seq<Turn>, o: Offer, now: int)
    requires Tracked(w, id, o.userID, o.provider, log) && o.headers.sessionID == id
    requires o.headers.requested && !o.headers.incomplete
    requires id !in w.conns && id in w.archives ==> now <= w.archives[id].expiry
    ensures var k := o.headers.lastSeq;
            && StateAnswer(w, id, o.userID, now) == Some((o.provider, |log|))
            && (k > |log| ==> Resolution(w, o, now).ProtocolInvalid? && AfterResolution(w, ttl, o, now) == w)
            && (k <= |log| ==>
                  var history := LastN(Lines(log), HISTORY_LIMIT);
                  var missing := if |log| - HISTORY_LIMIT <= k then Lines(log)[k..] else history;
                  && Resolution(w, o, now) == Ok(Outcome(id, |log|, history, missing, MemoryHit))
                  && id !in AfterResolution(w, ttl, o, now).conns
                  && (log != [] ==> Tracked(AfterResolution(w, ttl, o, now), id, o.userID, o.provider, log)))
  {
    hide Newer;
    if o.headers.lastSeq <= |log| {
      MissingSuffix(log, o.headers.lastSeq);
    }
  }

  function End(w: World, ttl: int, run: seq<Timed>): World
    decreases |run|
  {
    if run == [] then w else End(Step(w, ttl, run[0]), ttl, run[1..])
  }

  function LogOf(w: World, ttl: int, id: string, log: seq<Turn>, run: seq<Timed>): seq<Turn>
    decreases |run|
  {
    if run == [] then log
    else LogOf(Step(w, ttl, run[0]), ttl, id, LogAfter(log, w, id, run[0].op), run[1..])
  }

  ghost predicate RunFits(w: World, ttl: int, id: string, userID: string, log: seq<Turn>, run: seq<Timed>)
    decreases |run|
  {
    run == [] ||
    (&& Fits(w, id, userID, log, run[0])
     && RunFits(Step(w, ttl, run[0]), ttl, id, userID, LogAfter(log, w, id, run[0].op), run[1..]))
  }

  /** Over any interleaving of operations on any sessions, one session id within its TTL keeps one
      log: it only grows, its lines carry the seqs 1, 2, 3, ... with none reused, and the last
      256 of them are retained, live or archived, for the same owner. */
  lemma {:induction false} OneLog(w: World, ttl: int, id: string, userID: string, provider: string,
                                  log: seq<Turn>, run: seq<Timed>)
    requires Tracked(w, id, userID, provider, log) && RunFits(w, ttl, id, userID, log, run)
    ensures Tracked(End(w, ttl, run), id, userID, provider, LogOf(w, ttl, id, log, run))
    ensures log <= LogOf(w, ttl, id, log, run)
    decreases |run|
  {
    if run != [] {
      StepKeepsTracked(w, ttl, id, userID, provider, log, run[0]);
      OneLog(Step(w, ttl, run[0]), ttl, id, userID, provider, LogAfter(log, w, id, run[0].op), run[1..]);
    }
  }

  /** A session starts tracked, with an empty log, when a first offer is served. */
  lemma FreshSessionIsTracked(w: World, ttl: int, o: Offer, now: int)
    requires o.newID != "" && o.userID != "" && !o.headers.requested
    ensures Tracked(Step(w, ttl, Timed(Connect(o, true), now)), o.newID, o.userID, o.provider, [])
  {
  }

  /** A session that disconnects before recording anything cannot be resumed from memory. */
  lemma EmptySessionIsForgotten(w: World, ttl: int, id: string, provider: string, userID: string, now: int, later: int)
    requires Tracked(w, id, userID, provider, []) && id !in w.archives
    ensures var w' := Step(w, ttl, Timed(Disconnect(id), now));
            StateAnswer(w', id, userID, later) == None && ResumeAnswer(w', id, userID, provider, 0, later) == None
  {
  }

  /** Why one step is assumed of each reconnect. Two reconnects of an archived session that both
      resolve before either commits start from the same seq: a line recorded by one and a line
      recorded by the other get the same number. The first to close takes the other's
      registration away, and what is archived then knows only its own line. */
  lemma OverlappingReconnects(w: World, ttl: int, id: string, log: seq<Turn>, o: Offer, now: int, a: Turn, b: Turn)
    requires Tracked(w, id, o.userID, o.provider, log) && o.headers.sessionID == id && o.headers.lastSeq <= |log|
    requires o.headers.requested && !o.headers.incomplete
    requires id !in w.conns && now <= w.archives[id].expiry
    ensures AfterResolution(w, ttl, o, now) == w
    ensures var out := Resolution(w, o, now).outcome;
            var live := Live(o.userID, o.provider, Rec(out.startSeq, out.initialHistory));
            var first := live.(rec := Recorded(live.rec, a.role, a.text));
            var second := live.(rec := Recorded(live.rec, b.role, b.text));
            var both := w.(conns := w.conns[id := second]);
            var left := Removed(both, ttl, id, first, now);
            && first.rec.sq == second.rec.sq == |log| + 1
            && Represents(first.rec, log + [a]) && Represents(second.rec, log + [b])
            && id !in left.conns
            && Tracked(left, id, o.userID, o.provider, log + [a])
  {
    hide Newer;
    OwnerReconnects(w, ttl, id, log, o, now);
    var kept := Rec(|log|, LastN(Lines(log), HISTORY_LIMIT));
    RecordExtendsLog(kept, log, a.role, a.text);
    RecordExtendsLog(kept, log, b.role, b.text);
    assert Lines(log + [a]) != [];
  }
}
