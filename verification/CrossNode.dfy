/**
 A session's lines on their way to another node: recorded, published to the side-channel, indexed
 in whatever order they arrive, queried, and resent to a reconnecting client.
 */
module CrossNode {
  import opened Common
  import opened Transcript
  import opened Events
  import opened Replay
  import Index = ReplayIndex
  import Runs = ReplayRuns

  /** What the tap publishes for a recorded line. */
  function EventFromLine(line: Line, sessionID: string, userID: string, provider: string): Event {
    Event(sessionID, userID, provider, line.sq, if line.role == "user" then "user" else "model", line.text)
  }

  /** The tap's method, as the source writes it. */
  method OnLine(line: Line, sessionID: string, userID: string, provider: string) returns (ev: Event)
    ensures ev == EventFromLine(line, sessionID, userID, provider)
  {
    var role := "model";
    if line.role == "user" {
      role := "user";
    }
    ev := Event(sessionID, userID, provider, line.sq, role, line.text);
  }

  predicate Spoken(line: Line) {
    line.role == "user" || line.role == "model"
  }

  /** A line that is published and replayed is the line: its seq, its speaker and its text. */
  lemma LineSurvives(line: Line, sessionID: string, userID: string, provider: string)
    requires Spoken(line)
    ensures LineFromEvent(EventFromLine(line, sessionID, userID, provider)) == line
    ensures var ev := EventFromLine(line, sessionID, userID, provider);
            ev.sessionID == sessionID && ev.userID == userID && ev.provider == provider
  {
  }

  function EventsOf(lines: seq<Line>, sessionID: string, userID: string, provider: string): seq<Event> {
    seq(|lines|, i requires 0 <= i < |lines| => EventFromLine(lines[i], sessionID, userID, provider))
  }

  /** arrived holds the events of all lines, in any order and any number of times, and nothing else. */
  ghost predicate AllArrived(arrived: seq<Event>, events: seq<Event>) {
    forall e :: e in arrived <==> e in events
  }

  lemma {:induction false} BatchOfArrived(arrived: seq<Event>, events: seq<Event>)
    requires Ascending(events) && AllArrived(arrived, events)
    ensures Batch(arrived) == events
  {
    forall e ensures e in Batch(arrived) <==> e in events {
      BatchIsFirstArrivals(arrived, e);
      if e in arrived {
        FirstOfItsSeq(arrived, events, e);
      }
      if FirstArrival(arrived, e) {
        var i :| 0 <= i < |arrived| && arrived[i] == e;
      }
    }
    SeqsOfBatch(arrived, 0);
    AscendingIsUnique(Batch(arrived), events);
  }

  /** Copies of one event are the only arrivals with its seq. */
  lemma FirstOfItsSeq(arrived: seq<Event>, events: seq<Event>, e: Event)
    requires Ascending(events) && AllArrived(arrived, events) && e in arrived
    ensures FirstArrival(arrived, e)
  {
    var i := FirstIndex(arrived, e.sq);
    assert arrived[i] in events && e in events;
    var a :| 0 <= a < |events| && events[a] == arrived[i];
    var b :| 0 <= b < |events| && events[b] == e;
    assert a == b;
  }

  lemma {:induction false} FirstIndex(arrived: seq<Event>, q: nat) returns (i: nat)
    requires exists e :: e in arrived && e.sq == q
    ensures i < |arrived| && arrived[i].sq == q && forall j :: 0 <= j < i ==> arrived[j].sq != q
    decreases |arrived|
  {
    var e :| e in arrived && e.sq == q;
    if arrived[0].sq == q {
      i := 0;
    } else {
      var k :| 0 <= k < |arrived| && arrived[k] == e;
      assert arrived[1..][k - 1] == e;
      var j := FirstIndex(arrived[1..], q);
      i := j + 1;
      assert forall x :: 1 <= x < i ==> arrived[x] == arrived[1..][x - 1];
    }
  }

  lemma EventsAscend(lines: seq<Line>, sessionID: string, userID: string, provider: string)
    requires Increasing(lines)
    ensures Ascending(EventsOf(lines, sessionID, userID, provider))
  {
  }

  /** Asking the events for what is newer than k is asking the lines. */
  lemma {:induction false} SuffixOfLines(lines: seq<Line>, k: nat, sessionID: string, userID: string, provider: string)
    requires forall i :: 0 <= i < |lines| ==> Spoken(lines[i])
    ensures LinesFromEvents(Suffix(EventsOf(lines, sessionID, userID, provider), k)) == Newer(lines, k)
    decreases |lines|
  {
    if lines != [] {
      var n := |lines| - 1;
      SuffixOfLines(lines[..n], k, sessionID, userID, provider);
      NewerInit(lines, k);
      hide Newer, Suffix, EventsOf, LinesFromEvents, Spoken, LineFromEvent;
      var es := EventsOf(lines[..n], sessionID, userID, provider);
      var e := EventFromLine(lines[n], sessionID, userID, provider);
      OneMoreEvent(lines, sessionID, userID, provider);
      SuffixOfConcat(es, [e], k);
      LinesOfConcat(Suffix(es, k), Suffix([e], k));
      LinesOfOne(lines[n], k, sessionID, userID, provider);
    } else {
      assert EventsOf(lines, sessionID, userID, provider) == [];
    }
  }

  lemma OneMoreEvent(lines: seq<Line>, sessionID: string, userID: string, provider: string)
    requires lines != []
    ensures var n := |lines| - 1;
            EventsOf(lines, sessionID, userID, provider) ==
            EventsOf(lines[..n], sessionID, userID, provider) + [EventFromLine(lines[n], sessionID, userID, provider)]
  {
  }

  lemma LinesOfOne(line: Line, k: nat, sessionID: string, userID: string, provider: string)
    requires Spoken(line)
    ensures LinesFromEvents(Suffix([EventFromLine(line, sessionID, userID, provider)], k)) ==
            if line.sq > k then [line] else []
  {
    var e := EventFromLine(line, sessionID, userID, provider);
    assert [e][1..] == [];
    assert Suffix([e], k) == if e.sq > k then [e] else [];
    LineSurvives(line, sessionID, userID, provider);
  }

  lemma LinesOfConcat(a: seq<Event>, b: seq<Event>)
    ensures LinesFromEvents(a + b) == LinesFromEvents(a) + LinesFromEvents(b)
  {
  }

  /** What the index keeps of a whole log. */
  lemma KeptOfLog(log: seq<Turn>, n: nat, sessionID: string, userID: string, provider: string)
    ensures var lines := LastN(Lines(log), n);
            LastN(EventsOf(Lines(log), sessionID, userID, provider), n) == EventsOf(lines, sessionID, userID, provider)
  {
  }

  /** Newer(lines, k) of the last n lines of a log. */
  lemma NewerOfKept(log: seq<Turn>, n: nat, k: nat)
    requires k <= |log|
    ensures Newer(LastN(Lines(log), n), k) == Lines(log)[if k < |log| - n then |log| - n else k..]
  {
    var kept := LastN(Lines(log), n);
    assert forall i :: 0 <= i < |kept| ==> kept[i].sq == |log| - |kept| + 1 + i;
    NewerOfLines(kept, |log| - |kept| + 1, k);
    hide Newer;
    WithoutOfLast(Lines(log), n, k);
    if k < |log| - n {
      assert kept == Lines(log)[|log| - n..];
    }
  }

  /** The first n elements, or all of them. */
  function FirstN<T>(s: seq<T>, n: nat): seq<T> { if |s| <= n then s else s[..n] }

  /** Cross-node replay, end to end. A session's whole log was recorded on one node, by users and
      models, and its events reached the index in any order and with any repetition, keeping the
      last maxLines. Its owner, holding the first k lines, reconnects to another node whose index
      answers with a page. He is resent exactly the next lines he misses, from what is kept, with
      their speakers and texts, and the session goes on from the last of them. */
  lemma CrossNodeReplay(log: seq<Turn>, arrived: seq<Event>, m: Index.Sessions, o: Offer, maxLines: nat, limit: nat,
                        now: int)
    requires forall t <- log :: t.role == "user" || t.role == "model"
    requires o.headers.sessionID != "" && o.userID != "" && limit > 0 && o.enabled
    requires AllArrived(arrived, EventsOf(Lines(log), o.headers.sessionID, o.userID, o.provider))
    requires o.headers.sessionID in m
    requires var idx := m[o.headers.sessionID];
             && idx.userID == o.userID && idx.provider == o.provider && now <= idx.expiry
             && idx.events == KeptAfter(maxLines, arrived)
    requires o.headers.lastSeq < |log| && maxLines > 0
    requires var h := o.headers;
             o.index == Found(Index.Queried(m, h.sessionID, o.userID, o.provider, h.lastSeq, limit, now))
    ensures var from := if o.headers.lastSeq < |log| - maxLines then |log| - maxLines else o.headers.lastSeq;
            var missed := FirstN(Lines(log)[from..], limit);
            FromIndex(o) == Outcome(o.headers.sessionID, from + |missed|, missed, missed, IndexHit)
  {
    var sid, k := o.headers.sessionID, o.headers.lastSeq;
    LinesAreSpoken(log, maxLines);
    hide Lines, LastN, EventsOf, KeptAfter, Batch, Suffix, Page, Newer, AllArrived, FirstN, FromIndex, LinesFromEvents,
         Spoken;
    var all, kept := Lines(log), LastN(Lines(log), maxLines);
    EventsAscend(all, sid, o.userID, o.provider);
    BatchOfArrived(arrived, EventsOf(all, sid, o.userID, o.provider));
    StreamingTopN(maxLines, arrived);
    KeptOfLog(log, maxLines, sid, o.userID, o.provider);
    SuffixOfLines(kept, k, sid, o.userID, o.provider);
    NewerOfKept(log, maxLines, k);
    var from := if k < |log| - maxLines then |log| - maxLines else k;
    PageOfKept(o, m[sid].events, k, limit, all[from..]);
    EndOfPage(log, o, k, limit, from);
  }

  lemma LinesAreSpoken(log: seq<Turn>, n: nat)
    requires forall t <- log :: t.role == "user" || t.role == "model"
    ensures |Lines(log)| == |log| && Increasing(Lines(log))
    ensures forall i :: 0 <= i < |LastN(Lines(log), n)| ==> Spoken(LastN(Lines(log), n)[i])
  {
    var kept := LastN(Lines(log), n);
    var cut := |log| - |kept|;
    forall i | 0 <= i < |kept| ensures Spoken(kept[i]) {
      assert kept[i] == Lines(log)[cut + i] && log[cut + i] in log;
    }
  }

  lemma PageOfKept(o: Offer, events: seq<Event>, k: nat, limit: nat, missing: seq<Line>)
    requires LinesFromEvents(Suffix(events, k)) == missing
    ensures LinesFromEvents(Page(events, k, limit)) == FirstN(missing, limit)
  {
    hide Suffix;
  }

  lemma EndOfPage(log: seq<Turn>, o: Offer, k: nat, limit: nat, from: nat)
    requires k <= from < |log| && limit > 0 && o.index.Found? && o.enabled && o.headers.lastSeq == k
    requires LinesFromEvents(o.index.evs) == FirstN(Lines(log)[from..], limit)
    ensures var missed := FirstN(Lines(log)[from..], limit);
            FromIndex(o) == Outcome(o.headers.sessionID, from + |missed|, missed, missed, IndexHit)
  {
    MissedSeqs(log, from, limit);
    hide FirstN, Lines;
    var missed := FirstN(Lines(log)[from..], limit);
    LastOfPage(o.index.evs, k, missed);
  }

  lemma MissedSeqs(log: seq<Turn>, from: nat, limit: nat)
    requires from < |log| && limit > 0
    ensures var missed := FirstN(Lines(log)[from..], limit);
            |missed| > 0 && forall i :: 0 <= i < |missed| ==> missed[i].sq == from + i + 1
  {
  }

  /** Of lines with rising seqs the last one has the highest. */
  lemma LastOfPage(evs: seq<Event>, k: nat, lines: seq<Line>)
    requires LinesFromEvents(evs) == lines && lines != []
    requires forall i :: 0 <= i < |lines| ==> lines[i].sq == lines[0].sq + i && lines[i].sq > k
    ensures Highest(evs, k) == lines[0].sq + |lines| - 1
  {
    assert forall i :: 0 <= i < |evs| ==> LinesFromEvents(evs)[i].sq == evs[i].sq;
    HighestIsMaximum(evs, k);
    hide Highest;
    assert evs[|evs| - 1].sq == lines[|lines| - 1].sq;
  }

  /** The same for an index that took in the events itself, among those of any other sessions, and
      never dropped this session: only that it has not expired is left to assume. */
  lemma CrossNodeReplayOverRuns(log: seq<Turn>, c: Index.Config, steps: seq<Runs.Step>, o: Offer, limit: nat, now: int)
    requires Index.Usable(c) && Runs.NeverEvicted(c, steps, o.headers.sessionID)
    requires forall t <- log :: t.role == "user" || t.role == "model"
    requires o.headers.sessionID != "" && o.userID != "" && limit > 0 && o.enabled && o.headers.lastSeq < |log|
    requires var sid := o.headers.sessionID;
             && AllArrived(Runs.EventsOf(steps, sid), EventsOf(Lines(log), sid, o.userID, o.provider))
             && var m := Runs.Run(c, steps);
                && (sid in m ==> now <= m[sid].expiry)
                && o.index == Found(Index.Queried(m, sid, o.userID, o.provider, o.headers.lastSeq, limit, now))
    ensures var from := if o.headers.lastSeq < |log| - c.maxLines then |log| - c.maxLines else o.headers.lastSeq;
            var missed := FirstN(Lines(log)[from..], limit);
            FromIndex(o) == Outcome(o.headers.sessionID, from + |missed|, missed, missed, IndexHit)
  {
    var sid := o.headers.sessionID;
    var arrived := Runs.EventsOf(steps, sid);
    SomethingArrived(log, arrived, sid, o.userID, o.provider);
    hide FromIndex, FirstN, Index.Queried, AllArrived, Runs.EventsOf, Runs.Run, Runs.NeverEvicted, KeptAfter, Lines,
         EventsOf;
    Runs.KeptPerSession(c, steps, sid);
    Runs.HasLatestOwner(c, steps, sid);
    LastIsOwned(log, arrived, sid, o.userID, o.provider);
    CrossNodeReplay(log, arrived, Runs.Run(c, steps), o, c.maxLines, limit, now);
  }

  lemma SomethingArrived(log: seq<Turn>, arrived: seq<Event>, sid: string, userID: string, provider: string)
    requires AllArrived(arrived, EventsOf(Lines(log), sid, userID, provider)) && log != []
    ensures arrived != []
  {
    var all := EventsOf(Lines(log), sid, userID, provider);
    assert all[0] in all;
  }

  lemma LastIsOwned(log: seq<Turn>, arrived: seq<Event>, sid: string, userID: string, provider: string)
    requires AllArrived(arrived, EventsOf(Lines(log), sid, userID, provider)) && arrived != []
    ensures arrived[|arrived| - 1].userID == userID && arrived[|arrived| - 1].provider == provider
  {
    var e := arrived[|arrived| - 1];
    assert e in arrived && e in EventsOf(Lines(log), sid, userID, provider);
  }
}
