/**
 The in-memory replay index: per-session lists of events, with expiry and a bound on the number
 of sessions. Session objects live on the heap, as in the source, because Ingest goes on
 updating the object it looked up or created even if eviction has just unlinked it. Map
 iteration order is unspecified, so any session with the least expiry may be the victim.
 */
module ReplayIndex {
  import opened Common
  import opened Events

  datatype Config = Config(maxSessions: int, maxLines: int, ttl: int)

  function Normalize(c: Config): Config {
    Config(if c.maxSessions <= 0 then 10_000 else c.maxSessions,
           if c.maxLines <= 0 then 512 else c.maxLines,
           if c.ttl <= 0 then 86_400_000_000_000 else c.ttl)
  }

  ghost predicate Usable(c: Config) { c.maxSessions > 0 && c.maxLines > 0 && c.ttl > 0 }

  datatype Index = Index(userID: string, provider: string, events: seq<Event>, maxSeq: nat, expiry: int)

  type Sessions = map<string, Index>

  // ---- What Ingest does ----

  predicate Accepted(ev: Event) { ev.sessionID != "" && ev.userID != "" }

  function Unexpired(m: Sessions, now: int): Sessions {
    map id | id in m && now <= m[id].expiry :: m[id]
  }

  ghost predicate Oldest(m: Sessions, victim: string) {
    victim in m && forall id :: id in m ==> m[victim].expiry <= m[id].expiry
  }

  function Absorb(c: Config, idx: Index, ev: Event, now: int): Index
    requires c.maxLines > 0
  {
    Index(ev.userID, ev.provider, Keep(c.maxLines, idx.events, ev),
          if ev.sq > idx.maxSeq && !HasSeq(idx.events, ev.sq) then ev.sq else idx.maxSeq, now + c.ttl)
  }

  function NewIndex(c: Config, ev: Event, now: int): Index {
    Index(ev.userID, ev.provider, [], 0, now + c.ttl)
  }

  /** The sessions an ingest may choose its victim from; none is chosen while there is room. */
  function Candidates(c: Config, m: Sessions, ev: Event, now: int): Sessions {
    var live := Unexpired(m, now);
    if ev.sessionID in live then live else live[ev.sessionID := NewIndex(c, ev, now)]
  }

  function AfterEviction(c: Config, m: Sessions, ev: Event, now: int, victim: string): Sessions {
    var all := Candidates(c, m, ev, now);
    if |all| > c.maxSessions && ev.sessionID !in Unexpired(m, now) then all - {victim} else all
  }

  function Ingested(c: Config, m: Sessions, ev: Event, now: int, victim: string): Sessions
    requires Usable(c)
  {
    if !Accepted(ev) then m
    else
      var left := AfterEviction(c, m, ev, now, victim);
      if ev.sessionID in left then left[ev.sessionID := Absorb(c, left[ev.sessionID], ev, now)] else left
  }

  ghost predicate ValidVictim(c: Config, m: Sessions, ev: Event, now: int, victim: string) {
    Accepted(ev) && |Candidates(c, m, ev, now)| > c.maxSessions && ev.sessionID !in Unexpired(m, now)
    ==> Oldest(Candidates(c, m, ev, now), victim)
  }

  function Queried(m: Sessions, sessionID: string, userID: string, provider: string,
                   after: nat, limit: int, now: int): seq<Event> {
    if sessionID == "" || userID == "" || sessionID !in m then []
    else
      var idx := m[sessionID];
      if idx.userID != userID || idx.provider != provider || now > idx.expiry then []
      else Page(idx.events, after, if limit <= 0 then 256 else limit)
  }

  lemma EvictionCases(c: Config, m: Sessions, ev: Event, now: int, victim: string)
    ensures var live := Unexpired(m, now);
            var all := live[ev.sessionID := NewIndex(c, ev, now)];
            if ev.sessionID in live then
              AfterEviction(c, m, ev, now, victim) == live && ValidVictim(c, m, ev, now, victim)
            else if |all| > c.maxSessions then
              && AfterEviction(c, m, ev, now, victim) == all - {victim}
              && (Oldest(all, victim) ==> ValidVictim(c, m, ev, now, victim))
            else AfterEviction(c, m, ev, now, victim) == all && ValidVictim(c, m, ev, now, victim)
  {
    hide Unexpired, Oldest;
  }

  lemma Without(m: Sessions, victim: string, rest: Sessions)
    requires rest.Keys == m.Keys - {victim} && forall id :: id in rest ==> rest[id] == m[id]
    ensures rest == m - {victim}
  {
  }

  lemma Replaced(left: Sessions, m: Sessions, id: string, idx: Index)
    requires m.Keys == left.Keys && forall k :: k in m && k != id ==> m[k] == left[k]
    requires id in m ==> m[id] == idx
    ensures m == if id in left then left[id := idx] else left
  {
  }

  // ---- The store ----

  class SessionIndex {
    var userID: string
    var provider: string
    var events: seq<Event>
    var maxSeq: nat
    var expiry: int

    constructor (userID: string, provider: string, expiry: int)
      ensures Value() == Index(userID, provider, [], 0, expiry)
    {
      this.userID, this.provider, this.events, this.maxSeq, this.expiry := userID, provider, [], 0, expiry;
    }

    ghost function Value(): Index
      reads this
    {
      Index(userID, provider, events, maxSeq, expiry)
    }
  }

  class Store {
    const cfg: Config
    var sessions: map<string, SessionIndex>

    /** No two ids share an object, and every session's events are in order. */
    ghost predicate Valid()
      reads this, sessions.Values
    {
      && Usable(cfg)
      && (forall a, b :: a in sessions && b in sessions && a != b ==> sessions[a] != sessions[b])
      && (forall a :: a in sessions ==> Ascending(sessions[a].events))
    }

    ghost function Model(): Sessions
      reads this, sessions.Values
    {
      map id | id in sessions :: sessions[id].Value()
    }

    constructor (c: Config)
      ensures Valid() && cfg == Normalize(c) && Model() == map[]
    {
      cfg := Normalize(c);
      sessions := map[];
    }

    method EvictExpired(now: int)
      requires Valid()
      modifies this`sessions
      ensures Valid()
      ensures sessions.Keys <= old(sessions.Keys) && forall id :: id in sessions ==> sessions[id] == old(sessions[id])
      ensures Model() == Unexpired(old(Model()), now)
    {
      var ids := sessions.Keys;
      while ids != {}
        invariant Valid()
        invariant sessions.Keys <= old(sessions.Keys)
        invariant forall id :: id in sessions ==> sessions[id] == old(sessions[id])
        invariant forall id :: id in old(sessions) ==>
                    (id in sessions <==> id in ids || now <= old(sessions[id].expiry))
        invariant ids <= old(sessions.Keys)
      {
        var id :| id in ids;
        ids := ids - {id};
        if id in sessions && now > sessions[id].expiry {
          sessions := sessions - {id};
        }
      }
    }

    method EvictOldest() returns (ghost victim: string)
      requires Valid() && sessions != map[] && "" !in sessions
      modifies this`sessions
      ensures Valid()
      ensures Oldest(old(Model()), victim)
      ensures sessions == old(sessions) - {victim}
      ensures Model() == old(Model()) - {victim}
    {
      ghost var all := Model();
      var oldestID := "";
      var oldestExpiry := 0;
      var first := true;
      var ids := sessions.Keys;
      while ids != {}
        invariant ids <= sessions.Keys
        invariant first <==> ids == sessions.Keys
        invariant !first ==> oldestID in sessions && oldestExpiry == sessions[oldestID].expiry
        invariant !first ==> forall id :: id in sessions && id !in ids ==> oldestExpiry <= sessions[id].expiry
      {
        var id :| id in ids;
        ids := ids - {id};
        if first || sessions[id].expiry < oldestExpiry {
          oldestID := id;
          oldestExpiry := sessions[id].expiry;
          first := false;
        }
      }
      victim := oldestID;
      if oldestID != "" {
        sessions := sessions - {oldestID};
      }
      Without(all, victim, Model());
    }

    method Ingest(ev: Event, now: int) returns (ghost victim: string)
      requires Valid() && "" !in sessions
      modifies this, sessions.Values
      ensures Valid() && "" !in sessions
      ensures ValidVictim(cfg, old(Model()), ev, now, victim)
      ensures Model() == Ingested(cfg, old(Model()), ev, now, victim)
    {
      victim := "";
      if ev.sessionID == "" || ev.userID == "" {
        return;
      }
      hide Candidates, AfterEviction, Unexpired, Oldest, ValidVictim, Absorb, Keep, HasSeq;
      var idx;
      idx, victim := LookUpOrCreate(ev, now);
      ghost var left := Model();
      ghost var was := idx.Value();
      Update(idx, ev, now);
      assert Valid();
      Replaced(left, Model(), ev.sessionID, Absorb(cfg, was, ev, now));
    }

    /** The first half of Ingest. The object returned may no longer be in the map. */
    method LookUpOrCreate(ev: Event, now: int) returns (idx: SessionIndex, ghost victim: string)
      requires Valid() && "" !in sessions && Accepted(ev)
      modifies this`sessions
      ensures Valid() && "" !in sessions
      ensures ValidVictim(cfg, old(Model()), ev, now, victim)
      ensures Model() == AfterEviction(cfg, old(Model()), ev, now, victim)
      ensures fresh(idx) || idx in old(sessions.Values)
      ensures forall id :: id in sessions ==> fresh(sessions[id]) || sessions[id] in old(sessions.Values)
      ensures forall id :: id in sessions ==> (sessions[id] == idx <==> id == ev.sessionID)
      ensures ev.sessionID !in sessions ==> fresh(idx)
      ensures Ascending(idx.events)
    {
      hide Oldest, Ascending, Unexpired, Candidates, AfterEviction, ValidVictim, Valid, Model;
      victim := "";
      ghost var before := Model();
      EvictExpired(now);
      ModelKeys();
      if ev.sessionID in sessions {
        idx := sessions[ev.sessionID];
        OneObjectEach(ev.sessionID);
      } else {
        idx, victim := Create(ev, now);
      }
      EvictionCases(cfg, before, ev, now, victim);
    }

    lemma ModelKeys()
      ensures Model().Keys == sessions.Keys
    {
    }

    lemma OneObjectEach(id: string)
      requires Valid() && id in sessions
      ensures Ascending(sessions[id].events)
      ensures forall a :: a in sessions ==> (sessions[a] == sessions[id] <==> a == id)
    {
      hide Ascending;
    }

    method Create(ev: Event, now: int) returns (idx: SessionIndex, ghost victim: string)
      requires Valid() && "" !in sessions && Accepted(ev) && ev.sessionID !in sessions
      modifies this`sessions
      ensures Valid() && "" !in sessions
      ensures var all := old(Model())[ev.sessionID := NewIndex(cfg, ev, now)];
              if |all| > cfg.maxSessions then Oldest(all, victim) && Model() == all - {victim} else Model() == all
      ensures Ascending(idx.events)
      ensures fresh(idx) && idx.Value() == NewIndex(cfg, ev, now)
      ensures forall id :: id in sessions ==>
                if id == ev.sessionID then sessions[id] == idx
                else id in old(sessions) && sessions[id] == old(sessions)[id]
      ensures sessions.Keys <= old(sessions.Keys) + {ev.sessionID}
    {
      hide Oldest, Ascending;
      victim := "";
      idx := AddSession(ev, now);
      ghost var all := Model();
      assert |sessions| == |all| by { assert sessions.Keys == all.Keys; }
      if |sessions| > cfg.maxSessions {
        victim := EvictOldest();
      }
    }

    method AddSession(ev: Event, now: int) returns (idx: SessionIndex)
      requires Valid() && ev.sessionID !in sessions
      modifies this`sessions
      ensures Valid() && fresh(idx) && idx.Value() == NewIndex(cfg, ev, now)
      ensures Ascending(idx.events)
      ensures sessions == old(sessions)[ev.sessionID := idx]
      ensures Model() == old(Model())[ev.sessionID := NewIndex(cfg, ev, now)]
    {
      ghost var was, live := sessions, Model();
      idx := new SessionIndex(ev.userID, ev.provider, now + cfg.ttl);
      assert forall a :: a in was ==> was[a] != idx;
      sessions := sessions[ev.sessionID := idx];
      assert Ascending(idx.events);
      hide Ascending;
      AddedIsValid(was, ev.sessionID, idx);
      ModelOfAdded(was, live, ev.sessionID, idx);
    }

    lemma AddedIsValid(was: map<string, SessionIndex>, id: string, idx: SessionIndex)
      requires Usable(cfg) && sessions == was[id := idx] && Ascending(idx.events)
      requires forall a :: a in was ==> was[a] != idx && Ascending(was[a].events)
      requires forall a, b :: a in was && b in was && a != b ==> was[a] != was[b]
      ensures Valid()
    {
      hide Ascending;
    }

    lemma ModelOfAdded(was: map<string, SessionIndex>, live: Sessions, id: string, idx: SessionIndex)
      requires sessions == was[id := idx] && live == map a | a in was :: was[a].Value()
      ensures Model() == live[id := idx.Value()]
    {
    }

    /** The part of Ingest that works on the session object alone. */
    method Update(idx: SessionIndex, ev: Event, now: int)
      requires Usable(cfg) && Ascending(idx.events)
      modifies idx
      ensures idx.Value() == Absorb(cfg, old(idx.Value()), ev, now)
      ensures Ascending(idx.events)
    {
      hide HasSeq, Keep, Ascending;
      idx.userID := ev.userID;
      idx.provider := ev.provider;
      idx.expiry := now + cfg.ttl;
      var known := FindSeq(idx.events, ev.sq);
      KeepOrAdd(cfg.maxLines, idx.events, ev);
      if known {
        return;
      }
      idx.events := Added(idx.events, ev, cfg.maxLines);
      if ev.sq > idx.maxSeq {
        idx.maxSeq := ev.sq;
      }
    }

    method Query(sessionID: string, userID: string, provider: string, after: nat, limit: int, now: int)
      returns (out: seq<Event>)
      requires Valid()
      ensures out == Queried(Model(), sessionID, userID, provider, after, limit, now)
    {
      if sessionID == "" || userID == "" {
        return [];
      }
      var max := limit;
      if max <= 0 {
        max := 256;
      }
      if sessionID !in sessions {
        return [];
      }
      var idx := sessions[sessionID];
      if idx.userID != userID || idx.provider != provider || now > idx.expiry {
        return [];
      }
      out := FirstNewer(idx.events, after, max);
    }
  }

  // ---- Loops over one session's events ----

  method FindSeq(events: seq<Event>, q: nat) returns (found: bool)
    ensures found == HasSeq(events, q)
  {
    var i := 0;
    while i < |events|
      invariant 0 <= i <= |events|
      invariant forall j :: 0 <= j < i ==> events[j].sq != q
    {
      if events[i].sq == q {
        return true;
      }
      i := i + 1;
    }
    found := false;
  }

  lemma KeepOrAdd(n: nat, events: seq<Event>, ev: Event)
    ensures Keep(n, events, ev) == if HasSeq(events, ev.sq) then events else LastN(InsertSorted(events, ev), n)
  {
  }

  /** Append, sort, trim. */
  method Added(events: seq<Event>, ev: Event, limit: nat) returns (r: seq<Event>)
    requires Ascending(events) && !HasSeq(events, ev.sq)
    ensures r == LastN(InsertSorted(events, ev), limit) && Ascending(r)
  {
    hide InsertSorted;
    InsertKeepsOrder(events, ev);
    r := SortBySeq(events + [ev]);
    AscendingIsUnique(r, InsertSorted(events, ev));
    if |r| > limit {
      r := r[|r| - limit..];
    }
  }

  method FirstNewer(events: seq<Event>, after: nat, max: nat) returns (out: seq<Event>)
    requires max > 0
    ensures out == Page(events, after, max)
  {
    hide Suffix;
    out := [];
    var i := 0;
    SuffixOfConcat(events[..0], events, after);
    assert events[..0] + events == events;
    SuffixOfOne(events[..0], after);
    while i < |events|
      invariant 0 <= i <= |events|
      invariant out == Suffix(events[..i], after) && |out| < max
    {
      assert events[..i + 1] == events[..i] + [events[i]];
      SuffixOfConcat(events[..i], [events[i]], after);
      SuffixOfOne([events[i]], after);
      if events[i].sq > after {
        out := out + [events[i]];
        if |out| >= max {
          FullPage(events, i + 1, after, max);
          return;
        }
      }
      i := i + 1;
    }
    assert events[..i] == events;
  }

  lemma SuffixOfOne(s: seq<Event>, after: nat)
    requires |s| <= 1
    ensures Suffix(s, after) == if s != [] && s[0].sq > after then s else []
  {
  }

  lemma FullPage(events: seq<Event>, i: nat, after: nat, max: nat)
    requires i <= |events| && |Suffix(events[..i], after)| == max
    ensures Page(events, after, max) == Suffix(events[..i], after)
  {
    hide Suffix;
    assert events == events[..i] + events[i..];
    SuffixOfConcat(events[..i], events[i..], after);
  }

  // ---- Bounds and owners ----

  function Given(value: int, default: int): int { if value > 0 then value else default }

  /** Every bound is the one given if it is positive, and 10000 sessions, 512 lines and a day if not. */
  lemma EffectiveBounds(c: Config)
    ensures var d := Normalize(c);
            && Usable(d) && Normalize(d) == d
            && d.maxSessions == Given(c.maxSessions, 10_000) && d.maxLines == Given(c.maxLines, 512)
            && d.ttl == Given(c.ttl, 24 * 3600 * 1_000_000_000)
  {
  }

  /** Who gets an answer from the index, and what: exactly the user and provider the session belongs
      to, before it expires and if something newer than asked for is stored; then it is the oldest
      newer events, all of them or as many as the limit, 256 when none is given. */
  lemma OnlyTheOwnerIsAnswered(m: Sessions, sessionID: string, userID: string, provider: string, after: nat,
                               limit: int, now: int)
    ensures var out := Queried(m, sessionID, userID, provider, after, limit, now);
            && (out != [] <==>
                  && sessionID != "" && userID != "" && sessionID in m
                  && m[sessionID].userID == userID && m[sessionID].provider == provider && now <= m[sessionID].expiry
                  && exists i :: 0 <= i < |m[sessionID].events| && m[sessionID].events[i].sq > after)
            && (out != [] ==>
                  && out <= Suffix(m[sessionID].events, after)
                  && (|out| == Given(limit, 256) || out == Suffix(m[sessionID].events, after))
                  && |out| <= Given(limit, 256))
  {
    hide Suffix, Page;
    if sessionID in m {
      PageIsFull(m[sessionID].events, after, Given(limit, 256));
      SomethingNewer(m[sessionID].events, after);
    }
  }

  lemma {:induction false} SomethingNewer(s: seq<Event>, after: nat)
    ensures Suffix(s, after) != [] <==> exists i :: 0 <= i < |s| && s[i].sq > after
    decreases |s|
  {
    if s != [] {
      SomethingNewer(s[1..], after);
      if i :| 0 <= i < |s[1..]| && s[1..][i].sq > after {
        assert s[i + 1].sq > after;
      }
      if i :| 0 <= i < |s| && s[i].sq > after && i > 0 {
        assert s[1..][i - 1].sq > after;
      }
      if s[0].sq > after { assert s[0].sq > after; }
    }
  }

  /** Events without a session or a user are not taken in; every other event makes its session live
      unless it is itself the victim. */
  lemma TakenInExactly(c: Config, m: Sessions, ev: Event, now: int, victim: string)
    requires Usable(c)
    ensures ev.sessionID == "" || ev.userID == "" ==> Ingested(c, m, ev, now, victim) == m
    ensures ev.sessionID != "" && ev.userID != "" && victim != ev.sessionID ==>
              ev.sessionID in Ingested(c, m, ev, now, victim)
  {
    hide Absorb;
  }

  /** A session belongs to whoever its latest event came from, and lives one TTL from then; every
      other session that is left stays exactly as it was. */
  lemma LatestEventOwns(c: Config, m: Sessions, ev: Event, now: int, victim: string, id: string)
    requires Usable(c) && Accepted(ev)
    ensures var m' := Ingested(c, m, ev, now, victim);
            && (ev.sessionID in m' ==>
                  && m'[ev.sessionID].userID == ev.userID && m'[ev.sessionID].provider == ev.provider
                  && m'[ev.sessionID].expiry == now + c.ttl)
            && (id in m' && id != ev.sessionID ==> id in m && m'[id] == m[id] && now <= m[id].expiry)
  {
    hide Keep, HasSeq;
  }
}
