/** The replay index over whole runs of ingests: what is kept per session, and which sessions. */
module ReplayRuns {
  import opened Common
  import opened Events
  import opened ReplayIndex

  /** One Ingest call: the event, the clock, and the victim map iteration happened to pick. */
  datatype Step = Step(ev: Event, now: int, victim: string)

  function Run(c: Config, steps: seq<Step>): Sessions
    requires Usable(c)
    decreases |steps|
  {
    if steps == [] then map[]
    else
      var s := steps[|steps| - 1];
      Ingested(c, Run(c, steps[..|steps| - 1]), s.ev, s.now, s.victim)
  }

  ghost predicate ValidRun(c: Config, steps: seq<Step>)
    requires Usable(c)
    decreases |steps|
  {
    steps == [] ||
    (var s, init := steps[|steps| - 1], steps[..|steps| - 1];
     ValidRun(c, init) && ValidVictim(c, Run(c, init), s.ev, s.now, s.victim))
  }

  // ---- Size bound ----

  lemma SubsetCard(a: Sessions, b: Sessions)
    requires a.Keys <= b.Keys
    ensures |a| <= |b|
  {
    CardOfSubset(a.Keys, b.Keys);
  }

  lemma {:induction false} CardOfSubset<T>(a: set<T>, b: set<T>)
    requires a <= b
    ensures |a| <= |b|
    ensures |a| == |b| ==> a == b
  {
    assert b == a + (b - a) && |b| == |a| + |b - a|;
  }

  /** The number of sessions never exceeds the bound, whatever the clock does. */
  lemma {:induction false} SizeBound(c: Config, steps: seq<Step>)
    requires Usable(c) && ValidRun(c, steps)
    ensures |Run(c, steps)| <= c.maxSessions
    decreases |steps|
  {
    if steps != [] {
      hide Unexpired, Oldest, Absorb;
      var s, init := steps[|steps| - 1], steps[..|steps| - 1];
      SizeBound(c, init);
      IngestKeepsBound(c, Run(c, init), s);
    }
  }

  lemma IngestKeepsBound(c: Config, m: Sessions, s: Step)
    requires Usable(c) && |m| <= c.maxSessions && ValidVictim(c, m, s.ev, s.now, s.victim)
    ensures |Ingested(c, m, s.ev, s.now, s.victim)| <= c.maxSessions
  {
    hide Absorb, Candidates, AfterEviction;
    if Accepted(s.ev) {
      LeftWithinBound(c, m, s);
      SubsetCard(Ingested(c, m, s.ev, s.now, s.victim), AfterEviction(c, m, s.ev, s.now, s.victim));
    }
  }

  lemma LeftWithinBound(c: Config, m: Sessions, s: Step)
    requires Usable(c) && |m| <= c.maxSessions && Accepted(s.ev) && ValidVictim(c, m, s.ev, s.now, s.victim)
    ensures |AfterEviction(c, m, s.ev, s.now, s.victim)| <= c.maxSessions
  {
    var live := Unexpired(m, s.now);
    SubsetCard(live, m);
    hide Unexpired;
    var id, all := s.ev.sessionID, Candidates(c, m, s.ev, s.now);
    if id !in live && |all| > c.maxSessions {
      assert all == live[id := NewIndex(c, s.ev, s.now)];
      OneMoreOneLess(live, id, NewIndex(c, s.ev, s.now), s.victim);
    }
  }

  lemma OneMoreOneLess(live: Sessions, id: string, idx: Index, victim: string)
    requires id !in live && victim in live[id := idx]
    ensures |live[id := idx] - {victim}| == |live|
  {
    var all := live[id := idx];
    assert all.Keys == live.Keys + {id} && (all - {victim}).Keys == all.Keys - {victim};
  }

  // ---- One session ----

  function EventsOf(steps: seq<Step>, id: string): seq<Event>
    decreases |steps|
  {
    if steps == [] then []
    else
      var ev := steps[|steps| - 1].ev;
      EventsOf(steps[..|steps| - 1], id) + if Accepted(ev) && ev.sessionID == id then [ev] else []
  }

  /** From its first event on, the session is neither evicted nor expired. */
  ghost predicate NeverEvicted(c: Config, steps: seq<Step>, id: string)
    requires Usable(c)
    decreases |steps|
  {
    steps == [] ||
    (var init := steps[..|steps| - 1];
     && NeverEvicted(c, init, id)
     && (EventsOf(init, id) != [] ==> id in Unexpired(Run(c, init), steps[|steps| - 1].now))
     && (EventsOf(steps, id) != [] ==> id in Run(c, steps)))
  }

  /** A session that is never evicted holds exactly the last MaxLinesPerSess of its events,
      deduplicated by first arrival and sorted by seq. */
  lemma {:induction false} SessionHoldsTopN(c: Config, steps: seq<Step>, id: string)
    requires Usable(c) && NeverEvicted(c, steps, id) && EventsOf(steps, id) != []
    ensures id in Run(c, steps)
    ensures Run(c, steps)[id].events == LastN(Batch(EventsOf(steps, id)), c.maxLines)
    decreases |steps|
  {
    StreamingTopN(c.maxLines, EventsOf(steps, id));
    KeptPerSession(c, steps, id);
  }

  lemma {:induction false} KeptPerSession(c: Config, steps: seq<Step>, id: string)
    requires Usable(c) && NeverEvicted(c, steps, id)
    ensures if EventsOf(steps, id) == [] then id !in Run(c, steps)
            else id in Run(c, steps) && Run(c, steps)[id].events == KeptAfter(c.maxLines, EventsOf(steps, id))
    decreases |steps|
  {
    if steps != [] {
      var s, init := steps[|steps| - 1], steps[..|steps| - 1];
      KeptPerSession(c, init, id);
      OneIngest(c, Run(c, init), s, id);
      var log, before := EventsOf(steps, id), EventsOf(init, id);
      if log != before {
        assert log[..|log| - 1] == before;
      }
    }
  }

  /** A session that is never evicted belongs to whoever its latest event came from. */
  lemma {:induction false} HasLatestOwner(c: Config, steps: seq<Step>, id: string)
    requires Usable(c) && NeverEvicted(c, steps, id) && EventsOf(steps, id) != []
    ensures id in Run(c, steps)
    ensures var log := EventsOf(steps, id);
            && Run(c, steps)[id].userID == log[|log| - 1].userID
            && Run(c, steps)[id].provider == log[|log| - 1].provider
    decreases |steps|
  {
    hide Keep, HasSeq, Candidates, AfterEviction;
    var s, init := steps[|steps| - 1], steps[..|steps| - 1];
    if Accepted(s.ev) {
      LatestEventOwns(c, Run(c, init), s.ev, s.now, s.victim, id);
    }
    if EventsOf(steps, id) == EventsOf(init, id) {
      HasLatestOwner(c, init, id);
    }
  }

  /** The highest seq the index remembers for a session is that of all its arrivals, trimmed ones
      included. */
  lemma {:induction false} RemembersHighestSeq(c: Config, steps: seq<Step>, id: string)
    requires Usable(c) && NeverEvicted(c, steps, id) && EventsOf(steps, id) != []
    ensures id in Run(c, steps)
    ensures var log, top := EventsOf(steps, id), Run(c, steps)[id].maxSeq;
            (forall e <- log :: e.sq <= top) && (top == 0 || HasSeq(log, top))
    decreases |steps|
  {
    var s, init := steps[|steps| - 1], steps[..|steps| - 1];
    var before, log := EventsOf(init, id), EventsOf(steps, id);
    KeptPerSession(c, init, id);
    OneMaxSeq(c, Run(c, init), s, id);
    if before != [] {
      RemembersHighestSeq(c, init, id);
      StreamingTopN(c.maxLines, before);
      KeptAmong(c.maxLines, Batch(before), s.ev.sq);
      SeqsOfBatch(before, s.ev.sq);
      SeqBelow(before, s.ev.sq);
    }
    hide Run, NeverEvicted, Batch, KeptAfter, Unexpired, Ingested;
    if log != before {
      assert log == before + [s.ev];
      SeqOfSnoc(before, s.ev);
    }
  }

  lemma SeqBelow(log: seq<Event>, q: nat)
    ensures HasSeq(log, q) ==> exists e :: e in log && e.sq == q
  {
    HasSeqIsMembership(log, q);
  }

  lemma SeqOfSnoc(log: seq<Event>, e: Event)
    ensures HasSeq(log + [e], e.sq)
    ensures forall q: nat :: HasSeq(log, q) ==> HasSeq(log + [e], q)
  {
    var all := log + [e];
    assert all[|log|] == e;
    assert forall i :: 0 <= i < |log| ==> all[i] == log[i];
  }

  lemma OneMaxSeq(c: Config, m: Sessions, s: Step, id: string)
    requires Usable(c)
    ensures var m' := Ingested(c, m, s.ev, s.now, s.victim);
            if Accepted(s.ev) && s.ev.sessionID == id then
              id in m' ==>
                var known := id in Unexpired(m, s.now);
                var was := if known then m[id].maxSeq else 0;
                m'[id].maxSeq == if s.ev.sq > was && !(known && HasSeq(m[id].events, s.ev.sq)) then s.ev.sq else was
            else id in m' ==> id in m && m'[id] == m[id]
  {
    hide Keep;
  }

  lemma OneIngest(c: Config, m: Sessions, s: Step, id: string)
    requires Usable(c)
    ensures var m' := Ingested(c, m, s.ev, s.now, s.victim);
            if Accepted(s.ev) && s.ev.sessionID == id
            then id in m' ==>
                   m'[id].events == Keep(c.maxLines, if id in Unexpired(m, s.now) then m[id].events else [], s.ev)
            else id in m' ==> id in m && m'[id] == m[id]
  {
    hide Keep;
  }

  // ---- Which sessions are indexed ----

  function Position(r: seq<string>, id: string): (p: nat)
    ensures p <= |r| && (p < |r| ==> r[p] == id) && forall j :: 0 <= j < p ==> r[j] != id
  {
    if r == [] || r[0] == id then 0 else 1 + Position(r[1..], id)
  }

  function MoveToFront(r: seq<string>, id: string): (q: seq<string>)
    ensures var p := Position(r, id);
            && |q| == (if p < |r| then |r| else |r| + 1)
            && q[0] == id
            && (forall j :: 1 <= j <= p ==> q[j] == r[j - 1])
            && (forall j :: p < j < |q| ==> q[j] == r[j])
  {
    var p := Position(r, id);
    [id] + r[..p] + if p < |r| then r[p + 1..] else []
  }

  /** Session ids by their last ingest, most recent first. */
  function Recency(steps: seq<Step>): seq<string>
    decreases |steps|
  {
    if steps == [] then [] else MoveToFront(Recency(steps[..|steps| - 1]), steps[|steps| - 1].ev.sessionID)
  }

  function LastIngest(steps: seq<Step>, id: string): int
    decreases |steps|
  {
    if steps == [] then 0
    else if steps[|steps| - 1].ev.sessionID == id then steps[|steps| - 1].now
    else LastIngest(steps[..|steps| - 1], id)
  }

  ghost predicate StrictClock(steps: seq<Step>) {
    forall i, j :: 0 <= i < j < |steps| ==> steps[i].now < steps[j].now
  }

  ghost predicate Distinct(r: seq<string>) {
    forall i, j :: 0 <= i < j < |r| ==> r[i] != r[j]
  }

  /** id is among the most recent maxSessions ids and has not outlived its TTL at now. */
  ghost predicate Current(c: Config, steps: seq<Step>, id: string, now: int) {
    exists i :: 0 <= i < |Recency(steps)| && i < c.maxSessions && Recency(steps)[i] == id
                && now <= LastIngest(steps, id) + c.ttl
  }

  lemma MovedDistinct(r: seq<string>, id: string)
    requires Distinct(r)
    ensures var q := MoveToFront(r, id); Distinct(q) && forall j :: 1 <= j < |q| ==> q[j] != id
  {
    hide MoveToFront;
    var q, p := MoveToFront(r, id), Position(r, id);
  }

  ghost predicate NewestFirst(steps: seq<Step>) {
    var r := Recency(steps);
    && Distinct(r)
    && (forall i, j :: 0 <= i < j < |r| ==> LastIngest(steps, r[i]) > LastIngest(steps, r[j]))
    && (steps != [] ==> forall i :: 0 <= i < |r| ==> LastIngest(steps, r[i]) <= steps[|steps| - 1].now)
  }

  lemma {:induction false} RecencyOrder(steps: seq<Step>)
    requires StrictClock(steps)
    ensures NewestFirst(steps)
    decreases |steps|
  {
    if steps != [] {
      hide NewestFirst, Recency;
      RecencyOrder(steps[..|steps| - 1]);
      OneMoreRecent(steps);
    } else {
      assert Recency(steps) == [];
    }
  }

  /** Where an id stood before another one moved to the front. */
  lemma MovedFrom(r: seq<string>, id: string, j: nat)
    requires 1 <= j < |MoveToFront(r, id)| && Distinct(r)
    ensures var q := MoveToFront(r, id); var k := if j <= Position(r, id) then j - 1 else j;
            0 <= k < |r| && q[j] == r[k] && q[j] != id
  {
    hide MoveToFront;
    MovedDistinct(r, id);
  }

  lemma OneMoreRecent(steps: seq<Step>)
    requires StrictClock(steps) && steps != [] && NewestFirst(steps[..|steps| - 1])
    ensures NewestFirst(steps)
  {
    var n := |steps| - 1;
    var init, s := steps[..n], steps[n];
    var r, id := Recency(init), s.ev.sessionID;
    var q, p := Recency(steps), Position(r, id);
    assert init != [] ==> init[|init| - 1].now < s.now;
    hide MoveToFront, Position, Recency, StrictClock;
    MovedDistinct(r, id);
    forall j | 1 <= j < |q| ensures LastIngest(steps, q[j]) == LastIngest(init, q[j]) < s.now {
      MovedFrom(r, id, j);
    }
    forall i, j | 0 <= i < j < |q| ensures LastIngest(steps, q[i]) > LastIngest(steps, q[j]) {
      MovedFrom(r, id, j);
      if i > 0 { MovedFrom(r, id, i); }
    }
  }

  // ---- LRU ----

  lemma {:induction false} PrefixCard(r: seq<string>, k: nat)
    requires Distinct(r) && k <= |r|
    ensures |set i | 0 <= i < k :: r[i]| == k
    decreases k
  {
    if k > 0 {
      PrefixCard(r, k - 1);
      assert (set i | 0 <= i < k :: r[i]) == (set i | 0 <= i < k - 1 :: r[i]) + {r[k - 1]};
    }
  }

  ghost predicate IsLru(c: Config, steps: seq<Step>, m: Sessions, now: int) {
    && (forall id :: id in m <==> Current(c, steps, id, now))
    && (forall id :: id in m ==> m[id].expiry == LastIngest(steps, id) + c.ttl)
  }

  function Last(steps: seq<Step>): Step
    requires steps != []
  {
    steps[|steps| - 1]
  }

  /** Under a strictly increasing clock the index is a least-recently-used cache with a time to
      live: after each ingest the indexed ids are exactly those among the MaxSessions most
      recently ingested ids whose last ingest is within the TTL; in particular the session just
      ingested is never the victim. */
  lemma {:induction false} LruWithTtl(c: Config, steps: seq<Step>)
    requires Usable(c) && StrictClock(steps) && ValidRun(c, steps) && steps != []
    requires forall s <- steps :: Accepted(s.ev)
    ensures IsLru(c, steps, Run(c, steps), Last(steps).now)
    ensures Last(steps).ev.sessionID in Run(c, steps)
    decreases |steps|
  {
    hide Ingested, ValidVictim, Unexpired, Recency;
    var init, s := steps[..|steps| - 1], Last(steps);
    var m := Run(c, init);
    if init != [] {
      LruWithTtl(c, init);
      assert Last(init).now < s.now;
    }
    RecencyOrder(init);
    assert forall x :: x in m ==> LastIngest(init, x) < s.now;
    Expiring(c, init, m, s.now);
    LruStep(c, init, m, s);
    assert steps == init + [s];
  }

  /** The steps whose event the index does not ignore. */
  function AcceptedOnly(steps: seq<Step>): seq<Step>
    decreases |steps|
  {
    if steps == [] then []
    else
      var s := Last(steps);
      AcceptedOnly(steps[..|steps| - 1]) + if Accepted(s.ev) then [s] else []
  }

  lemma {:induction false} AcceptedClock(steps: seq<Step>)
    requires StrictClock(steps)
    ensures var a := AcceptedOnly(steps);
            && StrictClock(a) && (forall s <- a :: Accepted(s.ev))
            && (a != [] ==> steps != [] && Last(a).now <= Last(steps).now)
    decreases |steps|
  {
    if steps != [] {
      var init, s := steps[..|steps| - 1], Last(steps);
      AcceptedClock(init);
      var b := AcceptedOnly(init);
      assert init != [] ==> Last(init).now < s.now;
      assert forall i :: 0 <= i < |b| ==> b[i].now <= Last(b).now < s.now;
      assert b + [] == b;
    }
  }

  lemma {:induction false} IgnoredEventsDoNothing(c: Config, steps: seq<Step>)
    requires Usable(c) && ValidRun(c, steps)
    ensures var a := AcceptedOnly(steps); Run(c, a) == Run(c, steps) && ValidRun(c, a)
    decreases |steps|
  {
    hide Candidates, AfterEviction, Absorb, Oldest, Unexpired;
    if steps != [] {
      var s := Last(steps);
      IgnoredEventsDoNothing(c, steps[..|steps| - 1]);
      var a, b := AcceptedOnly(steps), AcceptedOnly(steps[..|steps| - 1]);
      if Accepted(s.ev) {
        assert a[..|a| - 1] == b && a[|a| - 1] == s;
      } else {
        assert a == b;
      }
    }
  }

  /** The same over any events: anonymous and unnamed ones change nothing at all. */
  lemma LruForAllEvents(c: Config, steps: seq<Step>)
    requires Usable(c) && StrictClock(steps) && ValidRun(c, steps)
    ensures var a := AcceptedOnly(steps);
            if a == [] then Run(c, steps) == map[]
            else IsLru(c, a, Run(c, steps), Last(a).now) && Last(a).ev.sessionID in Run(c, steps)
  {
    hide Ingested, ValidVictim, IsLru;
    AcceptedClock(steps);
    IgnoredEventsDoNothing(c, steps);
    if AcceptedOnly(steps) != [] {
      LruWithTtl(c, AcceptedOnly(steps));
    }
  }

  lemma Expiring(c: Config, steps: seq<Step>, m: Sessions, now: int)
    requires if steps == [] then m == map[] else IsLru(c, steps, m, Last(steps).now) && Last(steps).now < now
    ensures IsLru(c, steps, Unexpired(m, now), now)
  {
  }

  /** There is room for one more session exactly when the oldest slot is free. */
  lemma FullOrNot(c: Config, steps: seq<Step>, live: Sessions, now: int)
    requires Usable(c) && IsLru(c, steps, live, now) && NewestFirst(steps)
    ensures Full(c, steps, live)
  {
    hide Recency, LastIngest, NewestFirst, IsLru;
    var r := Recency(steps);
    var k := if |r| < c.maxSessions then |r| else c.maxSessions;
    var top := set i | 0 <= i < k :: r[i];
    LiveWithinTop(c, steps, live, now, k, top);
    assert k > 0 ==> r[k - 1] in top;
    if |r| >= c.maxSessions && r[k - 1] in live {
      OlderSlotsLive(c, steps, live, now);
      assert top <= live.Keys;
      assert live.Keys == top && |live| == |live.Keys|;
    }
  }

  lemma LiveWithinTop(c: Config, steps: seq<Step>, live: Sessions, now: int, k: nat, top: set<string>)
    requires Usable(c) && IsLru(c, steps, live, now) && NewestFirst(steps)
    requires k <= |Recency(steps)| && k <= c.maxSessions && (k == |Recency(steps)| || k == c.maxSessions)
    requires top == set i | 0 <= i < k :: Recency(steps)[i]
    ensures live.Keys <= top && |live.Keys| <= |top| == k && (|live.Keys| == k ==> live.Keys == top)
  {
    PrefixCard(Recency(steps), k);
    forall id | id in live ensures id in top {
      assert Current(c, steps, id, now);
    }
    CardOfSubset(live.Keys, top);
  }

  lemma OlderSlotsLive(c: Config, steps: seq<Step>, live: Sessions, now: int)
    requires Usable(c) && IsLru(c, steps, live, now) && NewestFirst(steps)
    requires |Recency(steps)| >= c.maxSessions && Recency(steps)[c.maxSessions - 1] in live
    ensures forall i :: 0 <= i < c.maxSessions ==> Recency(steps)[i] in live
  {
    var r := Recency(steps);
    var oldest := r[c.maxSessions - 1];
    assert Current(c, steps, oldest, now);
    forall i | 0 <= i < c.maxSessions ensures r[i] in live {
      assert LastIngest(steps, r[i]) >= LastIngest(steps, oldest);
      assert Current(c, steps, r[i], now);
    }
  }

  /** x is at i before the move, within its TTL, and still among the first maxSessions after it. */
  ghost predicate InSlot(c: Config, init: seq<Step>, s: Step, x: string, i: int) {
    var r := Recency(init);
    && 0 <= i < |r| && r[i] == x
    && (if i < Position(r, s.ev.sessionID) then i + 1 else i) < c.maxSessions
    && s.now <= LastIngest(init, x) + c.ttl
  }

  /** How the slot of an id changes when another one moves to the front. */
  lemma Moved(c: Config, init: seq<Step>, s: Step, x: string)
    requires Usable(c) && Distinct(Recency(init))
    ensures Current(c, init + [s], x, s.now) <==>
            if x == s.ev.sessionID then c.ttl >= 0 else exists i :: InSlot(c, init, s, x, i)
  {
    hide MoveToFront, Position;
    var steps := init + [s];
    assert steps[..|steps| - 1] == init;
    var r, id := Recency(init), s.ev.sessionID;
    var q, p := Recency(steps), Position(r, id);
    assert q == MoveToFront(r, id);
    MovedDistinct(r, id);
    if x == id {
      assert q[0] == id;
    } else {
      assert LastIngest(steps, x) == LastIngest(init, x);
      if i :| InSlot(c, init, s, x, i) {
        assert i != p;
        assert q[if i < p then i + 1 else i] == x;
      }
      if j :| 0 <= j < |q| && j < c.maxSessions && q[j] == x && s.now <= LastIngest(steps, x) + c.ttl {
        assert j > 0;
        assert InSlot(c, init, s, x, if j <= p then j - 1 else j);
      }
    }
  }

  lemma SlotOf(c: Config, steps: seq<Step>, id: string, now: int)
    requires Current(c, steps, id, now) && Distinct(Recency(steps))
    ensures Position(Recency(steps), id) < c.maxSessions && Position(Recency(steps), id) < |Recency(steps)|
  {
    var r := Recency(steps);
    var p := Position(r, id);
    var i :| 0 <= i < |r| && i < c.maxSessions && r[i] == id;
  }

  lemma LruStep(c: Config, init: seq<Step>, m: Sessions, s: Step)
    requires Usable(c) && Accepted(s.ev) && ValidVictim(c, m, s.ev, s.now, s.victim)
    requires IsLru(c, init, Unexpired(m, s.now), s.now) && NewestFirst(init)
    requires forall id :: id in m ==> LastIngest(init, id) < s.now
    ensures var m' := Ingested(c, m, s.ev, s.now, s.victim);
            IsLru(c, init + [s], m', s.now) && s.ev.sessionID in m'
  {
    hide Recency, NewestFirst, Position, Keep, HasSeq, Current;
    var id, live := s.ev.sessionID, Unexpired(m, s.now);
    var all := Candidates(c, m, s.ev, s.now);
    var left := AfterEviction(c, m, s.ev, s.now, s.victim);
    FullOrNot(c, init, live, s.now);
    if id !in live && |all| > c.maxSessions {
      OlderSlotsLive(c, init, live, s.now);
      VictimIsOldest(c, init, live, s, all);
    }
    LeftIsCurrent(c, init, live, s, all, left);
    forall x ensures LastIngest(init + [s], x) == if x == id then s.now else LastIngest(init, x) {
      assert (init + [s])[..|init|] == init;
    }
  }

  lemma LeftIsCurrent(c: Config, init: seq<Step>, live: Sessions, s: Step, all: Sessions, left: Sessions)
    requires Usable(c) && IsLru(c, init, live, s.now) && NewestFirst(init)
    requires all == if s.ev.sessionID in live then live else live[s.ev.sessionID := NewIndex(c, s.ev, s.now)]
    requires s.ev.sessionID !in live && |all| > c.maxSessions ==>
               |Recency(init)| >= c.maxSessions && s.victim == Recency(init)[c.maxSessions - 1] && s.victim in live
    requires left == if s.ev.sessionID !in live && |all| > c.maxSessions then all - {s.victim} else all
    ensures s.ev.sessionID in left
    ensures forall x :: x in left <==> Current(c, init + [s], x, s.now)
    ensures forall x :: x in left && x != s.ev.sessionID ==> x in live && left[x] == live[x]
  {
    hide Recency, LastIngest, Position;
    FullOrNot(c, init, live, s.now);
    var id := s.ev.sessionID;
    assert id !in live ==> |all| == |live| + 1 && all.Keys == live.Keys + {id};
    forall x ensures x in left <==> Current(c, init + [s], x, s.now) {
      Moved(c, init, s, x);
      if x != id {
        SameSlots(c, init, live, s, left, x);
      }
    }
  }

  lemma VictimIsOldest(c: Config, init: seq<Step>, live: Sessions, s: Step, all: Sessions)
    requires Usable(c) && IsLru(c, init, live, s.now) && NewestFirst(init)
    requires s.ev.sessionID !in live && all == live[s.ev.sessionID := NewIndex(c, s.ev, s.now)]
    requires |Recency(init)| >= c.maxSessions && Recency(init)[c.maxSessions - 1] in live
    requires LastIngest(init, Recency(init)[c.maxSessions - 1]) < s.now
    requires Oldest(all, s.victim)
    ensures s.victim == Recency(init)[c.maxSessions - 1]
  {
    var last, v := Recency(init)[c.maxSessions - 1], s.victim;
    assert all[v].expiry <= all[last].expiry;
    assert all[last].expiry == LastIngest(init, last) + c.ttl;
    assert all[s.ev.sessionID].expiry == s.now + c.ttl;
    assert v in live && all[v].expiry == LastIngest(init, v) + c.ttl;
    hide IsLru, Oldest;
    OldestSlot(c, init, v, s.now);
  }

  /** Of the current ids none but the one in the last slot is as old as that. */
  lemma OldestSlot(c: Config, init: seq<Step>, v: string, now: int)
    requires Usable(c) && NewestFirst(init) && |Recency(init)| >= c.maxSessions
    requires Current(c, init, v, now)
    requires LastIngest(init, v) <= LastIngest(init, Recency(init)[c.maxSessions - 1])
    ensures v == Recency(init)[c.maxSessions - 1]
  {
    hide Recency, LastIngest;
    var r := Recency(init);
    var i :| 0 <= i < |r| && i < c.maxSessions && r[i] == v;
    assert forall j :: 0 <= j < c.maxSessions - 1 ==> LastIngest(init, r[j]) > LastIngest(init, r[c.maxSessions - 1]);
  }

  /** Apart from the session just ingested, the sessions left are those whose slot, after the
      move, is still among the first maxSessions. */
  lemma SameSlots(c: Config, init: seq<Step>, live: Sessions, s: Step, left: Sessions, x: string)
    requires Usable(c) && IsLru(c, init, live, s.now) && NewestFirst(init) && x != s.ev.sessionID
    requires Full(c, init, live)
    requires x in left <==>
             x in live && (s.ev.sessionID !in live && |live| == c.maxSessions ==> x != Recency(init)[c.maxSessions - 1])
    ensures x in left <==> exists i :: InSlot(c, init, s, x, i)
  {
    hide Position, Recency, LastIngest, NewestFirst;
    var r := Recency(init);
    assert x in live <==> Current(c, init, x, s.now);
    if x in left {
      var i :| 0 <= i < |r| && i < c.maxSessions && r[i] == x;
      LeftKeepsSlot(c, init, live, s, left, x, i);
    }
    if i :| InSlot(c, init, s, x, i) {
      SlotIsLeft(c, init, live, s, left, x, i);
    }
  }

  ghost predicate Full(c: Config, init: seq<Step>, live: Sessions) {
    var r := Recency(init);
    && |live| <= c.maxSessions
    && (|live| == c.maxSessions <==> 0 < c.maxSessions <= |r| && r[c.maxSessions - 1] in live)
  }

  lemma LeftKeepsSlot(c: Config, init: seq<Step>, live: Sessions, s: Step, left: Sessions, x: string, i: int)
    requires Usable(c) && IsLru(c, init, live, s.now) && NewestFirst(init) && Full(c, init, live)
    requires x in live && (s.ev.sessionID !in live && |live| == c.maxSessions ==> x != Recency(init)[c.maxSessions - 1])
    requires 0 <= i < |Recency(init)| && i < c.maxSessions && Recency(init)[i] == x
    ensures InSlot(c, init, s, x, i)
  {
    hide Position, Recency, LastIngest;
    var r, id := Recency(init), s.ev.sessionID;
    assert Current(c, init, x, s.now);
    if id in live {
      assert Current(c, init, id, s.now);
      SlotOf(c, init, id, s.now);
    }
  }

  lemma SlotIsLeft(c: Config, init: seq<Step>, live: Sessions, s: Step, left: Sessions, x: string, i: int)
    requires Usable(c) && IsLru(c, init, live, s.now) && NewestFirst(init) && Full(c, init, live)
    requires InSlot(c, init, s, x, i)
    ensures x in live && (s.ev.sessionID !in live && |live| == c.maxSessions ==> x != Recency(init)[c.maxSessions - 1])
  {
    hide Position, Recency, LastIngest;
    var r, id := Recency(init), s.ev.sessionID;
    var p := Position(r, id);
    assert Current(c, init, x, s.now);
    if id !in live && |live| == c.maxSessions {
      OlderSlotsLive(c, init, live, s.now);
      assert p < |r| ==> r[p] == id;
      assert p >= c.maxSessions;
      assert i < c.maxSessions - 1;
    }
  }

  /** Without the hypothesis on the clock the session just created can be the victim, and its
      event is lost. It is safe, whichever way the map is traversed, exactly when it needs no
      eviction or some other session expires strictly earlier. */
  lemma NewSessionSafety(c: Config, m: Sessions, ev: Event, now: int)
    requires Usable(c) && Accepted(ev)
    ensures var live := Unexpired(m, now);
            (forall victim :: ValidVictim(c, m, ev, now, victim) ==> ev.sessionID in Ingested(c, m, ev, now, victim))
            <==> || ev.sessionID in live
                 || |live| < c.maxSessions
                 || exists other :: other in live && live[other].expiry < now + c.ttl
  {
    hide Ingested, Unexpired, Candidates, Oldest;
    var live, all, id := Unexpired(m, now), Candidates(c, m, ev, now), ev.sessionID;
    forall victim
      ensures id in Ingested(c, m, ev, now, victim) <==> !(id !in live && |live| >= c.maxSessions && victim == id)
    {
      LostOnlyAsVictim(c, m, ev, now, victim);
    }
    LostOnlyAsVictim(c, m, ev, now, id);
  }

  /** Such a loss happens on a run from the empty index: with room for one session and two clock
      readings that are equal, the second session is evicted by its own first event. */
  lemma TieEvictsNewSession(c: Config, first: Event, second: Event, now: int)
    requires Usable(c) && c.maxSessions == 1
    requires Accepted(first) && Accepted(second) && first.sessionID != second.sessionID
    ensures var steps := [Step(first, now, ""), Step(second, now, second.sessionID)];
            && ValidRun(c, steps)
            && second.sessionID !in Run(c, steps) && first.sessionID in Run(c, steps)
  {
    hide Ingested, ValidVictim, Unexpired;
    var s1, s2 := Step(first, now, ""), Step(second, now, second.sessionID);
    FirstIngest(c, first, now);
    SecondAtOnce(c, Ingested(c, map[], first, now, ""), first, second, now);
    assert [s1, s2][..1] == [s1] && [s1][..0] == [];
    assert Run(c, []) == map[] && ValidRun(c, []);
    assert Run(c, [s1]) == Ingested(c, map[], first, now, "") && ValidRun(c, [s1]);
  }

  lemma FirstIngest(c: Config, first: Event, now: int)
    requires Usable(c) && Accepted(first)
    ensures ValidVictim(c, map[], first, now, "")
    ensures var m := Ingested(c, map[], first, now, "");
            m.Keys == {first.sessionID} && m[first.sessionID].expiry == now + c.ttl
  {
    hide Keep, HasSeq;
    assert Unexpired(map[], now) == map[];
    assert |Candidates(c, map[], first, now)| == 1;
  }

  lemma SecondAtOnce(c: Config, m: Sessions, first: Event, second: Event, now: int)
    requires Usable(c) && c.maxSessions == 1 && Accepted(second) && first.sessionID != second.sessionID
    requires m.Keys == {first.sessionID} && m[first.sessionID].expiry == now + c.ttl
    ensures ValidVictim(c, m, second, now, second.sessionID)
    ensures var n := Ingested(c, m, second, now, second.sessionID);
            second.sessionID !in n && first.sessionID in n
  {
    hide Absorb;
    assert Unexpired(m, now) == m;
    assert |m| == |m.Keys|;
    LostOnlyAsVictim(c, m, second, now, second.sessionID);
    assert Candidates(c, m, second, now)[first.sessionID] == m[first.sessionID];
  }

  lemma LostOnlyAsVictim(c: Config, m: Sessions, ev: Event, now: int, victim: string)
    requires Usable(c) && Accepted(ev)
    ensures var live, all, id := Unexpired(m, now), Candidates(c, m, ev, now), ev.sessionID;
            && (id in Ingested(c, m, ev, now, victim) <==> !(id !in live && |live| >= c.maxSessions && victim == id))
            && (id !in live ==> |all| == |live| + 1)
            && (id !in live ==>
                  (Oldest(all, id) <==> forall other :: other in live ==> now + c.ttl <= live[other].expiry))
  {
    hide Absorb, Unexpired;
    var live, all, id := Unexpired(m, now), Candidates(c, m, ev, now), ev.sessionID;
    if id !in live {
      assert all.Keys == live.Keys + {id} && |all| == |all.Keys|;
      assert forall other :: other in live ==> all[other] == live[other];
    }
  }
}
