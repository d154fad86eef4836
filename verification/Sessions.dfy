/**
 Live sessions, the archive of disconnected ones, and the hub that moves a session between the
 two. A session's scope (scope.go) is folded into the session object, one to one.
 */
module Sessions {
  import opened Common
  import opened Transcript

  datatype Archive = Archive(provider: string, userID: string, history: seq<Line>, maxSeq: nat, expiry: int)

  /** A live session as the hub sees it. */
  datatype Live = Live(userID: string, provider: string, rec: Rec)

  datatype World = World(conns: map<string, Live>, archives: map<string, Archive>)

  datatype Resumption = Resumption(full: seq<Line>, replay: seq<Line>, startSeq: nat)

  // ---- What the operations do ----

  function Put(archives: map<string, Archive>, ttl: int, id: string, live: Live, now: int): map<string, Archive> {
    (map k | k in archives && now <= archives[k].expiry :: archives[k])
    [id := Archive(live.provider, live.userID, live.rec.history, live.rec.sq, now + ttl)]
  }

  function Removed(w: World, ttl: int, id: string, live: Live, now: int): World {
    World(w.conns - {id}, if live.rec.history == [] then w.archives else Put(w.archives, ttl, id, live, now))
  }

  lemma RemovedParts(w: World, ttl: int, id: string, live: Live, now: int)
    ensures var unlinked := w.(conns := w.conns - {id});
            Removed(w, ttl, id, live, now) ==
            if live.rec.history == [] then unlinked
            else unlinked.(archives := Put(unlinked.archives, ttl, id, live, now))
  {
  }

  predicate Owned(a: Archive, userID: string, now: int) {
    a.userID == userID && now <= a.expiry
  }

  function ResumeAnswer(w: World, id: string, userID: string, provider: string, after: nat, now: int):
    Option<Resumption>
  {
    if id == "" || userID == "" then None
    else if id in w.conns then
      var s := w.conns[id];
      if s.provider != provider || s.userID != userID then None
      else Some(Resumption(s.rec.history, Newer(s.rec.history, after), s.rec.sq))
    else if id in w.archives && Owned(w.archives[id], userID, now) && w.archives[id].provider == provider then
      Some(Resumption(w.archives[id].history, Newer(w.archives[id].history, after), w.archives[id].maxSeq))
    else None
  }

  /** A resume of a live session takes it over: the old one is closed and archived. */
  function AfterResume(w: World, ttl: int, id: string, userID: string, provider: string, now: int): World {
    if id in w.conns && ResumeAnswer(w, id, userID, provider, 0, now).Some?
    then Removed(w, ttl, id, w.conns[id], now) else w
  }

  function StateAnswer(w: World, id: string, userID: string, now: int): Option<(string, nat)> {
    if id == "" || userID == "" then None
    else if id in w.conns then
      if w.conns[id].userID != userID then None else Some((w.conns[id].provider, w.conns[id].rec.sq))
    else if id in w.archives && Owned(w.archives[id], userID, now) then
      Some((w.archives[id].provider, w.archives[id].maxSeq))
    else None
  }

  // ---- The archive ----

  class SessionArchiveStore {
    const ttl: int
    var archives: map<string, Archive>

    constructor (ttl: int)
      ensures this.ttl == ttl && archives == map[]
    {
      this.ttl := ttl;
      archives := map[];
    }

    method Store(id: string, live: Live, now: int)
      modifies this
      ensures archives == Put(old(archives), ttl, id, live, now)
    {
      var ids := archives.Keys;
      while ids != {}
        invariant ids <= old(archives).Keys
        invariant archives.Keys <= old(archives).Keys
        invariant forall k :: k in old(archives) ==>
                    (k in archives <==> k in ids || now <= old(archives)[k].expiry)
        invariant forall k :: k in archives ==> archives[k] == old(archives)[k]
      {
        var k :| k in ids;
        ids := ids - {k};
        if k in archives && now > archives[k].expiry {
          archives := archives - {k};
        }
      }
      archives := archives[id := Archive(live.provider, live.userID, live.rec.history, live.rec.sq, now + ttl)];
    }

    method Resume(id: string, userID: string, provider: string, after: nat, now: int) returns (r: Option<Resumption>)
      requires id != "" && userID != ""
      ensures r == ResumeAnswer(World(map[], archives), id, userID, provider, after, now)
    {
      if id !in archives {
        return None;
      }
      var a := archives[id];
      if a.userID != userID || a.provider != provider || now > a.expiry {
        return None;
      }
      var replay := CollectNewer(a.history, after);
      r := Some(Resumption(a.history, replay, a.maxSeq));
    }

    method State(id: string, userID: string, now: int) returns (r: Option<(string, nat)>)
      requires id != "" && userID != ""
      ensures r == StateAnswer(World(map[], archives), id, userID, now)
    {
      if id !in archives || archives[id].userID != userID || now > archives[id].expiry {
        return None;
      }
      r := Some((archives[id].provider, archives[id].maxSeq));
    }
  }

  // ---- The hub ----

  class Session {
    const id: string
    const userID: string
    const provider: string
    const rec: Recorder
    var committed: bool
    var closed: bool

    constructor (id: string, userID: string, provider: string, rec: Recorder)
      ensures this.id == id && this.userID == userID && this.provider == provider && this.rec == rec
      ensures !committed && !closed
    {
      this.id, this.userID, this.provider, this.rec := id, userID, provider, rec;
      committed, closed := false, false;
    }

    ghost function Value(): Live
      reads rec
    {
      Live(userID, provider, rec.Model())
    }
  }

  class Hub {
    const archives: SessionArchiveStore
    var conns: map<string, Session>

    ghost predicate Valid()
      reads this, conns.Values
    {
      forall id :: id in conns ==> conns[id].id == id && conns[id].committed && !conns[id].closed
    }

    ghost function Recs(): set<object>
      reads this
    {
      set id | id in conns :: conns[id].rec
    }

    ghost function Model(): World
      reads this, archives, Recs()
    {
      World(map id | id in conns :: conns[id].Value(), archives.archives)
    }

    constructor (ttl: int)
      ensures Valid() && Model() == World(map[], map[]) && archives.ttl == ttl && fresh(archives)
    {
      archives := new SessionArchiveStore(ttl);
      conns := map[];
    }

    /** commit: the session becomes visible to reconnects. */
    method Commit(s: Session)
      requires Valid() && !s.closed
      modifies this`conns, s`committed
      ensures Valid() && s.committed
      ensures conns == old(conns)[s.id := s]
      ensures Model() == old(Model()).(conns := old(Model()).conns[s.id := s.Value()])
    {
      s.committed := true;
      conns := conns[s.id := s];
      assert Model().conns == old(Model()).conns[s.id := s.Value()];
    }

    method AbortIfUncommitted(s: Session, now: int)
      requires Valid()
      modifies this`conns, archives, s`closed
      ensures Valid()
      ensures Model() == old(Model())
      ensures s.closed == (old(s.closed) || !s.committed)
    {
      if !s.committed {
        Close(s, now);
      }
    }

    /** Idempotent; only a committed session is removed from the hub and archived. It need not be
        the one registered under its id: whatever is registered there is removed. */
    method Close(s: Session, now: int)
      requires Valid()
      modifies this`conns, archives, s`closed
      ensures Valid() && s.closed
      ensures Model() == if old(s.closed) || !s.committed then old(Model())
                         else Removed(old(Model()), archives.ttl, s.id, s.Value(), now)
      ensures conns == if old(s.closed) || !s.committed then old(conns) else old(conns) - {s.id}
    {
      hide Removed, Put;
      if s.closed {
        return;
      }
      s.closed := true;
      assert Model() == old(Model()) && s.Value() == old(s.Value());
      if s.committed {
        Remove(s, now);
      }
    }

    method Remove(s: Session, now: int)
      requires forall id :: id in conns && id != s.id ==>
                 conns[id].id == id && conns[id].committed && !conns[id].closed
      modifies this`conns, archives
      ensures Valid()
      ensures Model() == Removed(old(Model()), archives.ttl, s.id, s.Value(), now)
      ensures conns == old(conns) - {s.id}
    {
      hide Put, Removed;
      ghost var w, live := Model(), s.Value();
      var snapshot := s.rec.FullHistory();
      var maxSeq := s.rec.MaxSeq();
      assert Model() == w;
      assert live == Live(s.userID, s.provider, Rec(maxSeq, snapshot));
      RemovedParts(w, archives.ttl, s.id, live, now);
      Unregister(s.id);
      assert Model() == w.(conns := w.conns - {s.id});
      if |snapshot| > 0 {
        ArchiveSession(s.id, Live(s.userID, s.provider, Rec(maxSeq, snapshot)), now);
      }
      assert s.Value() == live;
    }

    method Unregister(id: string)
      modifies this`conns
      ensures conns == old(conns) - {id}
      ensures Model() == old(Model()).(conns := old(Model()).conns - {id})
    {
      ghost var was, before := conns, Model().conns;
      conns := conns - {id};
      LivesWithout(was, before, id);
    }

    method ArchiveSession(id: string, live: Live, now: int)
      modifies archives
      ensures Model() == old(Model()).(archives := Put(old(Model()).archives, archives.ttl, id, live, now))
    {
      hide Put;
      archives.Store(id, live, now);
    }

    lemma LivesWithout(was: map<string, Session>, before: map<string, Live>, id: string)
      requires conns == was - {id} && before == map a | a in was :: was[a].Value()
      ensures Model().conns == before - {id}
    {
    }

    method Resume(id: string, userID: string, provider: string, after: nat, now: int) returns (r: Option<Resumption>)
      requires Valid()
      modifies this`conns, archives, conns.Values
      ensures Valid()
      ensures r == ResumeAnswer(old(Model()), id, userID, provider, after, now)
      ensures Model() == AfterResume(old(Model()), archives.ttl, id, userID, provider, now)
    {
      hide Removed, Put, Newer, Owned;
      if id == "" || userID == "" {
        return None;
      }
      if id in conns {
        var active := conns[id];
        if active.provider != provider || active.userID != userID {
          return None;
        }
        var full := active.rec.FullHistory();
        var startSeq := active.rec.MaxSeq();
        var replay := CollectNewer(full, after);
        assert Model() == old(Model()) && active.Value() == Model().conns[id] && active.id == id && !active.closed;
        Close(active, now);
        assert Model() == Removed(old(Model()), archives.ttl, id, old(Model()).conns[id], now);
        return Some(Resumption(full, replay, startSeq));
      }
      r := archives.Resume(id, userID, provider, after, now);
    }

    method SessionState(id: string, userID: string, now: int) returns (r: Option<(string, nat)>)
      requires Valid()
      ensures r == StateAnswer(Model(), id, userID, now)
    {
      if id == "" || userID == "" {
        return None;
      }
      if id in conns {
        if conns[id].userID != userID {
          return None;
        }
        var q := conns[id].rec.MaxSeq();
        return Some((conns[id].provider, q));
      }
      r := archives.State(id, userID, now);
    }
  }

  /** A disconnect is invisible to queries: within the TTL, and for every caller, Resume and
      SessionState answer the same after it as before, as long as something was recorded. */
  lemma DisconnectIsInvisible(w: World, ttl: int, id: string, at: int, now: int,
                              userID: string, provider: string, after: nat)
    requires id in w.conns && w.conns[id].rec.history != [] && at <= now <= at + ttl
    ensures var w' := Removed(w, ttl, id, w.conns[id], at);
            && ResumeAnswer(w', id, userID, provider, after, now) == ResumeAnswer(w, id, userID, provider, after, now)
            && StateAnswer(w', id, userID, now) == StateAnswer(w, id, userID, now)
  {
  }

  /** No one but the owner, on the right provider, ever gets a line or takes a session over. */
  lemma OnlyTheOwnerResumes(w: World, ttl: int, id: string, userID: string, provider: string, after: nat, now: int)
    requires ResumeAnswer(w, id, userID, provider, after, now).Some?
             || AfterResume(w, ttl, id, userID, provider, now) != w
    ensures userID != ""
    ensures if id in w.conns then w.conns[id].userID == userID && w.conns[id].provider == provider
            else id in w.archives && w.archives[id].userID == userID && w.archives[id].provider == provider
                 && now <= w.archives[id].expiry
  {
  }

  /** An archive answers for exactly its TTL: after that no one gets lines or state from it. */
  lemma ArchiveExpires(w: World, ttl: int, id: string, at: int, now: int, provider: string, after: nat)
    requires id in w.conns && w.conns[id].rec.history != [] && id != "" && w.conns[id].userID != ""
    requires w.conns[id].provider == provider
    ensures var w' := Removed(w, ttl, id, w.conns[id], at);
            && (ResumeAnswer(w', id, w.conns[id].userID, provider, after, now).Some? <==> now <= at + ttl)
            && (StateAnswer(w', id, w.conns[id].userID, now).Some? <==> now <= at + ttl)
  {
  }

  /** Filing an archive throws away exactly the expired ones, so none is kept past the next disconnect. */
  lemma OnlyExpiredAreDropped(archives: map<string, Archive>, ttl: int, id: string, live: Live, now: int, other: string)
    requires other != id
    ensures var kept := Put(archives, ttl, id, live, now);
            && (other in kept <==> other in archives && now <= archives[other].expiry)
            && (other in kept ==> kept[other] == archives[other])
            && id in kept && kept[id].expiry == now + ttl
  {
  }
}
