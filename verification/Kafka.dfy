/**
 Shutdown protocol of the side-channel publisher. Publishers, closers and the drain goroutine
 interleave at the granularity of single lock, check, channel and unlock operations; the
 broker client behind the drain goroutine is not modelled. A send on, or a second close of,
 a closed channel is a Go panic and is recorded as such.
 */
module Kafka {
  import opened Common

  const KAFKA_BUFFER := 1024

  /** The fields that the mutex protects, plus the drop counter. */
  datatype Shared<E> = Shared(ch: seq<E>, chClosed: bool, closed: bool, dropped: nat)

  datatype PublishPc<E> = Outside | Locked(ev: E) | Checked(ev: E) | Unlocking

  datatype ClosePc = NotCalled | Holding | Marked | Sealed | Waiting | Returned(first: bool)

  datatype Sys<E> = Sys(
    sh: Shared<E>,
    writer: Option<nat>,              // the closer that holds the write lock
    publishers: map<nat, PublishPc<E>>, // read-lock holders are those not Outside
    closers: map<nat, ClosePc>,
    done: bool,                       // the drain goroutine has exited
    panicked: bool,
    accepted: seq<E>,                 // every event ever put on the channel, in order
    drained: seq<E>,                  // every event the drain goroutine took, in order
    completed: nat)                   // Publish calls that returned

  datatype Action<E> =
    | RLock(p: nat, ev: E)
    | CheckClosed(p: nat)
    | TrySend(p: nat)
    | RUnlock(p: nat)
    | Lock(c: nat)
    | MarkClosed(c: nat)
    | CloseChannel(c: nat)
    | Unlock(c: nat)
    | AwaitDone(c: nat)
    | Receive
    | DrainExit

  function Init<E>(): Sys<E> {
    Sys(Shared([], false, false, 0), None, map[], map[], false, false, [], [], 0)
  }

  function PublisherPc<E>(s: Sys<E>, p: nat): PublishPc<E> {
    if p in s.publishers then s.publishers[p] else Outside
  }

  function Closer<E>(s: Sys<E>, c: nat): ClosePc {
    if c in s.closers then s.closers[c] else NotCalled
  }

  ghost predicate NoReaders<E>(s: Sys<E>) {
    forall p :: p in s.publishers ==> s.publishers[p].Outside?
  }

  ghost predicate Enabled<E>(s: Sys<E>, a: Action<E>) {
    match a
    case RLock(p, _) => PublisherPc(s, p).Outside? && s.writer == None
    case CheckClosed(p) => PublisherPc(s, p).Locked?
    case TrySend(p) => PublisherPc(s, p).Checked?
    case RUnlock(p) => PublisherPc(s, p).Unlocking?
    case Lock(c) => Closer(s, c) == NotCalled && s.writer == None && NoReaders(s)
    case MarkClosed(c) => Closer(s, c) == Holding
    case CloseChannel(c) => Closer(s, c) == Marked
    case Unlock(c) => Closer(s, c) == Sealed
    case AwaitDone(c) => Closer(s, c) == Waiting && s.done
    case Receive => !s.done && s.sh.ch != []
    case DrainExit => !s.done && s.sh.ch == [] && s.sh.chClosed
  }

  /** The non-blocking send of Publish once closed was seen to be false. */
  function Sent<E>(sh: Shared<E>, ev: E): Shared<E> {
    if |sh.ch| < KAFKA_BUFFER then sh.(ch := sh.ch + [ev]) else sh.(dropped := sh.dropped + 1)
  }

  function Next<E>(s: Sys<E>, a: Action<E>): Sys<E> {
    match a
    case RLock(p, ev) => s.(publishers := s.publishers[p := Locked(ev)])
    case CheckClosed(p) =>
      if PublisherPc(s, p).Locked? then
        if s.sh.closed
        then s.(sh := s.sh.(dropped := s.sh.dropped + 1), publishers := s.publishers[p := Unlocking])
        else s.(publishers := s.publishers[p := Checked(PublisherPc(s, p).ev)])
      else s
    case TrySend(p) =>
      if PublisherPc(s, p).Checked? then
        var ev := PublisherPc(s, p).ev;
        if s.sh.chClosed then s.(panicked := true)
        else s.(sh := Sent(s.sh, ev),
                accepted := s.accepted + if |s.sh.ch| < KAFKA_BUFFER then [ev] else [],
                publishers := s.publishers[p := Unlocking])
      else s
    case RUnlock(p) => s.(publishers := s.publishers[p := Outside], completed := s.completed + 1)
    case Lock(c) => s.(writer := Some(c), closers := s.closers[c := Holding])
    case MarkClosed(c) =>
      if s.sh.closed then s.(writer := None, closers := s.closers[c := Returned(false)])
      else s.(sh := s.sh.(closed := true), closers := s.closers[c := Marked])
    case CloseChannel(c) =>
      if s.sh.chClosed then s.(panicked := true)
      else s.(sh := s.sh.(chClosed := true), closers := s.closers[c := Sealed])
    case Unlock(c) => s.(writer := None, closers := s.closers[c := Waiting])
    case AwaitDone(c) => s.(closers := s.closers[c := Returned(true)])
    case Receive =>
      if s.sh.ch == [] then s
      else s.(sh := s.sh.(ch := s.sh.ch[1..]), drained := s.drained + [s.sh.ch[0]])
    case DrainExit => s.(done := true)
  }

  ghost predicate ValidRun<E>(s: Sys<E>, run: seq<Action<E>>)
    decreases |run|
  {
    run != [] ==> Enabled(s, run[0]) && ValidRun(Next(s, run[0]), run[1..])
  }

  function End<E>(s: Sys<E>, run: seq<Action<E>>): Sys<E>
    decreases |run|
  {
    if run == [] then s else End(Next(s, run[0]), run[1..])
  }

  // ---- Invariant ----

  function Undecided<E>(s: Sys<E>): set<nat> {
    set p | p in s.publishers && s.publishers[p].Unlocking?
  }

  ghost predicate LockInv<E>(s: Sys<E>) {
    && (forall c :: c in s.closers && s.closers[c] in {Holding, Marked, Sealed} ==> s.writer == Some(c))
    && (s.writer != None ==> NoReaders(s))
    && (s.sh.chClosed ==> s.sh.closed)
    && (s.sh.closed && !s.sh.chClosed ==> s.writer != None && Closer(s, s.writer.value) == Marked)
    && (forall p :: p in s.publishers && s.publishers[p].Checked? ==> !s.sh.closed)
    && (forall c :: c in s.closers && s.closers[c] == Marked ==> s.sh.closed && !s.sh.chClosed)
    && (forall c :: c in s.closers && s.closers[c] in {Sealed, Waiting, Returned(true)} ==> s.sh.chClosed)
  }

  ghost predicate DataInv<E>(s: Sys<E>) {
    && !s.panicked
    && s.accepted == s.drained + s.sh.ch
    && |s.sh.ch| <= KAFKA_BUFFER
    && (s.done ==> s.sh.chClosed && s.sh.ch == [])
    && (forall c :: c in s.closers && s.closers[c] == Returned(true) ==> s.done)
    && s.completed + |Undecided(s)| == |s.accepted| + s.sh.dropped
  }

  lemma UndecidedUpdate<E>(s: Sys<E>, p: nat, pc: PublishPc<E>)
    ensures var t := s.(publishers := s.publishers[p := pc]);
            |Undecided(t)| == |Undecided(s)| + (if pc.Unlocking? then 1 else 0)
                              - (if PublisherPc(s, p).Unlocking? then 1 else 0)
  {
    var t := s.(publishers := s.publishers[p := pc]);
    forall q | q != p ensures q in Undecided(t) <==> q in Undecided(s) {}
    assert p in Undecided(s) <==> PublisherPc(s, p).Unlocking?;
    assert p in Undecided(t) <==> pc.Unlocking?;
    hide Undecided;
    SizeButOne(Undecided(s), Undecided(t), p);
  }

  lemma SizeButOne(a: set<nat>, b: set<nat>, p: nat)
    requires forall q :: q != p ==> (q in a <==> q in b)
    ensures |b| == |a| + (if p in b then 1 else 0) - (if p in a then 1 else 0)
  {
    var rest := a - {p};
    assert rest == b - {p};
    assert a == if p in a then rest + {p} else rest;
    assert b == if p in b then rest + {p} else rest;
  }

  lemma StepKeepsInv<E>(s: Sys<E>, a: Action<E>)
    requires LockInv(s) && DataInv(s) && Enabled(s, a)
    ensures LockInv(Next(s, a)) && DataInv(Next(s, a))
  {
    StepKeepsLock(s, a);
    StepKeepsData(s, a);
  }

  lemma StepKeepsLock<E>(s: Sys<E>, a: Action<E>)
    requires LockInv(s) && Enabled(s, a)
    ensures LockInv(Next(s, a))
  {
  }

  lemma StepKeepsData<E>(s: Sys<E>, a: Action<E>)
    requires LockInv(s) && DataInv(s) && Enabled(s, a)
    ensures DataInv(Next(s, a))
  {
    hide Undecided;
    match a
    case RLock(p, ev) => PublisherMoves(s, Next(s, a), p, Locked(ev));
    case CheckClosed(p) =>
      PublisherMoves(s, Next(s, a), p, if s.sh.closed then Unlocking else Checked(PublisherPc(s, p).ev));
    case TrySend(p) => PublisherMoves(s, Next(s, a), p, Unlocking);
    case RUnlock(p) => PublisherMoves(s, Next(s, a), p, Outside);
    case _ => SamePublishers(s, Next(s, a));
  }

  lemma PublisherMoves<E>(s: Sys<E>, t: Sys<E>, p: nat, pc: PublishPc<E>)
    ensures t.publishers == s.publishers[p := pc] ==>
              |Undecided(t)| == |Undecided(s)| + (if pc.Unlocking? then 1 else 0)
                                - (if PublisherPc(s, p).Unlocking? then 1 else 0)
  {
    if t.publishers == s.publishers[p := pc] {
      UndecidedUpdate(s, p, pc);
      SamePublishers(s.(publishers := s.publishers[p := pc]), t);
    }
  }

  lemma SamePublishers<E>(s: Sys<E>, t: Sys<E>)
    requires s.publishers == t.publishers
    ensures Undecided(s) == Undecided(t)
  {
  }

  /** Every interleaving: no panic, the drained events are a first-in first-out prefix of the
      accepted ones with the rest still queued, and every finished or about to finish call was
      either accepted or dropped. A Close call that closed the channel returns only when
      everything accepted has been drained. */
  lemma {:induction false} ShutdownSafety<E>(s: Sys<E>, run: seq<Action<E>>)
    requires LockInv(s) && DataInv(s) && ValidRun(s, run)
    ensures var t := End(s, run);
            && LockInv(t) && DataInv(t)
            && !t.panicked
            && t.drained <= t.accepted && t.accepted == t.drained + t.sh.ch
            && (NoReaders(t) ==> t.completed == |t.accepted| + t.sh.dropped)
            && (forall c :: Closer(t, c) == Returned(true) ==> t.drained == t.accepted && t.done)
    decreases |run|
  {
    if run != [] {
      StepKeepsInv(s, run[0]);
      ShutdownSafety(Next(s, run[0]), run[1..]);
    } else if NoReaders(s) {
      assert Undecided(s) == {};
    }
  }

  lemma ShutdownSafetyFromStart<E>(run: seq<Action<E>>)
    requires ValidRun(Init<E>(), run)
    ensures var t := End(Init<E>(), run);
            && !t.panicked
            && t.drained <= t.accepted && t.accepted == t.drained + t.sh.ch
            && (NoReaders(t) ==> t.completed == |t.accepted| + t.sh.dropped)
            && (forall c :: Closer(t, c) == Returned(true) ==> t.drained == t.accepted && t.done)
  {
    assert Undecided(Init<E>()) == {};
    ShutdownSafety(Init<E>(), run);
  }

  /** Work left for the drain goroutine. */
  function DrainWork<E>(s: Sys<E>): nat {
    |s.sh.ch| + if s.done then 0 else 1
  }

  function DrainSteps<E>(run: seq<Action<E>>): nat {
    if run == [] then 0 else (if run[0].Receive? || run[0].DrainExit? then 1 else 0) + DrainSteps(run[1..])
  }

  /** After the channel is closed nothing more is accepted, the drain goroutine always has an
      enabled step until it exits, and it exits after exactly DrainWork of its own steps,
      however the others are scheduled; so a waiting Close is always released. */
  lemma {:induction false} ShutdownProgress<E>(s: Sys<E>, run: seq<Action<E>>)
    requires LockInv(s) && DataInv(s) && s.sh.chClosed && ValidRun(s, run)
    ensures var t := End(s, run);
            && t.accepted == s.accepted
            && DrainWork(s) == DrainWork(t) + DrainSteps(run)
            && (!t.done ==> Enabled(t, if t.sh.ch != [] then Receive else DrainExit))
            && (DrainSteps(run) == DrainWork(s) ==>
                  t.done && t.drained == s.accepted
                  && forall c :: Closer(t, c) == Waiting ==> Enabled(t, AwaitDone(c)))
    decreases |run|
  {
    if run != [] {
      StepKeepsInv(s, run[0]);
      ShutdownProgress(Next(s, run[0]), run[1..]);
    }
  }

  // ---- The critical sections as code ----

  function Published<E>(sh: Shared<E>, ev: E): Shared<E> {
    if sh.closed then sh.(dropped := sh.dropped + 1) else Sent(sh, ev)
  }

  /** Publish and the locked part of Close, as the source writes them. */
  class Publisher<E> {
    var ch: seq<E>
    var chClosed: bool
    var closed: bool
    var dropped: nat

    ghost function Model(): Shared<E>
      reads this
    {
      Shared(ch, chClosed, closed, dropped)
    }

    constructor ()
      ensures Model() == Init<E>().sh
    {
      ch, chClosed, closed, dropped := [], false, false, 0;
    }

    method Publish(ev: E)
      modifies this
      ensures Model() == Published(old(Model()), ev)
    {
      if closed {
        dropped := dropped + 1;
        return;
      }
      if |ch| < KAFKA_BUFFER {
        ch := ch + [ev];
      } else {
        dropped := dropped + 1;
      }
    }

    method BeginClose() returns (first: bool)
      modifies this
      ensures first == !old(closed)
      ensures Model() == BegunClose(old(Model()))
    {
      if closed {
        return false;
      }
      closed := true;
      chClosed := true;
      first := true;
    }
  }

  /** Run without interruption, the four steps of a Publish call have exactly the effect of the
      method. The event is accepted, behind all others, precisely when the publisher is open and
      fewer than 1024 events are queued, and is counted as dropped otherwise. */
  lemma PublishIsItsSteps<E>(s: Sys<E>, p: nat, ev: E)
    requires LockInv(s) && Enabled(s, RLock(p, ev))
    ensures var run := [RLock(p, ev), CheckClosed(p), TrySend(p), RUnlock(p)];
            var closedRun := [RLock(p, ev), CheckClosed(p), RUnlock(p)];
            var r := if s.sh.closed then closedRun else run;
            && ValidRun(s, r)
            && End(s, r).sh == Published(s.sh, ev)
            && PublisherPc(End(s, r), p).Outside?
            && (End(s, r).accepted == s.accepted + [ev] <==> End(s, r).sh.dropped == s.sh.dropped)
            && (if !s.sh.closed && |s.sh.ch| < 1024
                then && End(s, r).accepted == s.accepted + [ev] && End(s, r).sh.ch == s.sh.ch + [ev]
                     && End(s, r).sh.dropped == s.sh.dropped
                else && End(s, r).accepted == s.accepted && End(s, r).sh.ch == s.sh.ch
                     && End(s, r).sh.dropped == s.sh.dropped + 1)
            && End(s, r).completed == s.completed + 1
  {
    var s1 := Next(s, RLock(p, ev));
    var s2 := Next(s1, CheckClosed(p));
    if s.sh.closed {
      Unroll(s, RLock(p, ev), [CheckClosed(p), RUnlock(p)]);
      Unroll(s1, CheckClosed(p), [RUnlock(p)]);
      Unroll(s2, RUnlock(p), []);
    } else {
      Unroll(s, RLock(p, ev), [CheckClosed(p), TrySend(p), RUnlock(p)]);
      Unroll(s1, CheckClosed(p), [TrySend(p), RUnlock(p)]);
      Unroll(s2, TrySend(p), [RUnlock(p)]);
      Unroll(Next(s2, TrySend(p)), RUnlock(p), []);
    }
  }

  function BegunClose<E>(sh: Shared<E>): Shared<E> {
    if sh.closed then sh else sh.(closed := true, chClosed := true)
  }

  /** Run without interruption, the locked steps of a Close call have exactly the effect of
      BeginClose: the channel is closed afterwards, what is queued stays queued, and only the call
      that closed it goes on to wait. */
  lemma CloseIsItsSteps<E>(s: Sys<E>, c: nat)
    requires LockInv(s) && Enabled(s, Lock(c))
    ensures var run := if s.sh.closed then [Lock(c), MarkClosed(c)]
                       else [Lock(c), MarkClosed(c), CloseChannel(c), Unlock(c)];
            && ValidRun(s, run)
            && End(s, run).sh == BegunClose(s.sh)
            && End(s, run).sh.chClosed && End(s, run).sh.closed && End(s, run).sh.ch == s.sh.ch
            && End(s, run).writer == None
            && !End(s, run).panicked == !s.panicked
            && Closer(End(s, run), c) == if s.sh.closed then Returned(false) else Waiting
  {
    var s1 := Next(s, Lock(c));
    var s2 := Next(s1, MarkClosed(c));
    if s.sh.closed {
      Unroll(s, Lock(c), [MarkClosed(c)]);
      Unroll(s1, MarkClosed(c), []);
    } else {
      Unroll(s, Lock(c), [MarkClosed(c), CloseChannel(c), Unlock(c)]);
      Unroll(s1, MarkClosed(c), [CloseChannel(c), Unlock(c)]);
      Unroll(s2, CloseChannel(c), [Unlock(c)]);
      Unroll(Next(s2, CloseChannel(c)), Unlock(c), []);
    }
  }

  lemma Unroll<E>(s: Sys<E>, a: Action<E>, rest: seq<Action<E>>)
    ensures End(s, [a] + rest) == End(Next(s, a), rest)
    ensures ValidRun(s, [a] + rest) <==> Enabled(s, a) && ValidRun(Next(s, a), rest)
  {
    assert ([a] + rest)[1..] == rest;
  }
}
