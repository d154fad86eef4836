/** Transcript events of one session: first-arrival deduplication, ordering by seq, trimming. */
module Events {
  import opened Common

  datatype Event = Event(sessionID: string, userID: string, provider: string, sq: nat, role: string, text: string)

  ghost predicate Ascending(s: seq<Event>) {
    forall i, j :: 0 <= i < j < |s| ==> s[i].sq < s[j].sq
  }

  predicate HasSeq(s: seq<Event>, q: nat) {
    exists i :: 0 <= i < |s| && s[i].sq == q
  }

  /** ev put in its place in a list that is sorted by seq. */
  function InsertSorted(s: seq<Event>, ev: Event): (r: seq<Event>)
    ensures |r| == |s| + 1
  {
    if s == [] || ev.sq < s[0].sq then [ev] + s else [s[0]] + InsertSorted(s[1..], ev)
  }

  lemma {:induction false} InsertKeepsOrder(s: seq<Event>, ev: Event)
    requires Ascending(s) && !HasSeq(s, ev.sq)
    ensures Ascending(InsertSorted(s, ev))
    ensures forall e :: e in InsertSorted(s, ev) <==> e == ev || e in s
    decreases |s|
  {
    if s != [] && ev.sq >= s[0].sq {
      var t := s[1..];
      TailOf(s, ev.sq);
      assert s[0].sq != ev.sq;
      InsertKeepsOrder(t, ev);
      forall e | e in t ensures s[0].sq < e.sq {
        var i :| 0 <= i < |t| && t[i] == e;
        assert s[i + 1] == e;
      }
      ConsAscending(s[0], InsertSorted(t, ev));
    } else {
      assert InsertSorted(s, ev) == [ev] + s;
    }
  }

  lemma ConsAscending(x: Event, s: seq<Event>)
    requires Ascending(s) && forall e <- s :: x.sq < e.sq
    ensures Ascending([x] + s)
  {
    var t := [x] + s;
    forall i, j | 0 <= i < j < |t| ensures t[i].sq < t[j].sq {
      assert t[j] == s[j - 1] && s[j - 1] in s;
      assert i > 0 ==> t[i] == s[i - 1];
    }
  }

  // ---- Sorting, as sort.Slice does ----

  ghost predicate DistinctSeqs(s: seq<Event>) {
    forall i, j :: 0 <= i < j < |s| ==> s[i].sq != s[j].sq
  }

  lemma {:induction false} AscendingIsUnique(a: seq<Event>, b: seq<Event>)
    requires Ascending(a) && Ascending(b) && forall e :: e in a <==> e in b
    ensures a == b
    decreases |a|
  {
    assert b != [] ==> b[0] in b && b[0] in a;
    assert a != [] ==> a[0] in a && a[0] in b;
    if a != [] {
      LeastFirst(a, b[0]);
      LeastFirst(b, a[0]);
      var s, t := a[1..], b[1..];
      forall e ensures e in s <==> e in t {
        TailMembers(a, e);
        TailMembers(b, e);
      }
      AscendingIsUnique(s, t);
      assert a == [a[0]] + s && b == [b[0]] + t;
    }
  }

  lemma LeastFirst(a: seq<Event>, e: Event)
    requires Ascending(a) && e in a
    ensures a[0].sq <= e.sq && (a[0].sq == e.sq ==> a[0] == e)
  {
    var i :| 0 <= i < |a| && a[i] == e;
  }

  lemma TailMembers(a: seq<Event>, e: Event)
    requires Ascending(a) && a != []
    ensures e in a[1..] <==> e in a && e != a[0]
  {
    assert a == [a[0]] + a[1..];
    if e in a[1..] {
      var i :| 0 <= i < |a[1..]| && a[1..][i] == e;
      assert a[i + 1] == e;
    }
  }

  /** With distinct seqs, sorted with the same members is the same as a sorted permutation. */
  method SortBySeq(s: seq<Event>) returns (r: seq<Event>)
    requires DistinctSeqs(s)
    ensures Ascending(r) && |r| == |s| && forall e :: e in r <==> e in s
  {
    r := [];
    var i := 0;
    while i < |s|
      invariant 0 <= i <= |s|
      invariant Ascending(r) && |r| == i
      invariant forall e :: e in r <==> e in s[..i]
    {
      NotYet(s, i);
      r := Placed(r, s[i]);
      assert s[..i + 1] == s[..i] + [s[i]];
      i := i + 1;
    }
    assert s[..i] == s;
  }

  lemma NotYet(s: seq<Event>, i: nat)
    requires DistinctSeqs(s) && i < |s|
    ensures forall e <- s[..i] :: e.sq != s[i].sq
  {
    forall e | e in s[..i] ensures e.sq != s[i].sq {
      var k :| 0 <= k < i && s[k] == e;
    }
  }

  method Placed(r: seq<Event>, x: Event) returns (t: seq<Event>)
    requires Ascending(r) && forall e <- r :: e.sq != x.sq
    ensures Ascending(t) && |t| == |r| + 1 && forall e :: e in t <==> e == x || e in r
  {
    var k := |r|;
    while k > 0 && r[k - 1].sq > x.sq
      invariant 0 <= k <= |r|
      invariant forall j :: k <= j < |r| ==> r[j].sq > x.sq
    {
      k := k - 1;
    }
    assert k > 0 ==> r[k - 1] in r && r[k - 1].sq < x.sq;
    Spliced(r, x, k);
    t := r[..k] + [x] + r[k..];
  }

  lemma Spliced(r: seq<Event>, x: Event, k: nat)
    requires Ascending(r) && k <= |r|
    requires k > 0 ==> r[k - 1].sq < x.sq
    requires k < |r| ==> x.sq < r[k].sq
    ensures var t := r[..k] + [x] + r[k..]; Ascending(t) && forall e :: e in t <==> e == x || e in r
  {
    var t := r[..k] + [x] + r[k..];
    assert forall i :: 0 <= i < |t| ==> t[i] == if i < k then r[i] else if i == k then x else r[i - 1];
    assert forall i :: 0 <= i < k ==> r[i].sq <= r[k - 1].sq;
    assert forall i :: k <= i < |r| ==> r[k].sq <= r[i].sq;
    SplicedMembers(r, x, k);
  }

  lemma SplicedMembers(r: seq<Event>, x: Event, k: nat)
    requires k <= |r|
    ensures forall e :: e in r[..k] + [x] + r[k..] <==> e == x || e in r
  {
    assert r == r[..k] + r[k..];
    forall e ensures e in r[..k] + [x] + r[k..] <==> e == x || e in r {
      assert e in r <==> e in r[..k] || e in r[k..];
    }
  }

  // ---- Streaming against batch ----

  /** One arrival at a session that keeps at most n lines. */
  function Keep(n: nat, kept: seq<Event>, ev: Event): seq<Event> {
    if HasSeq(kept, ev.sq) then kept else LastN(InsertSorted(kept, ev), n)
  }

  function KeptAfter(n: nat, log: seq<Event>): seq<Event>
    decreases |log|
  {
    if log == [] then [] else Keep(n, KeptAfter(n, log[..|log| - 1]), log[|log| - 1])
  }

  /** Everything that arrived, deduplicated by first arrival and sorted; nothing trimmed. */
  function Batch(log: seq<Event>): seq<Event>
    decreases |log|
  {
    if log == [] then []
    else
      var b := Batch(log[..|log| - 1]);
      if HasSeq(b, log[|log| - 1].sq) then b else InsertSorted(b, log[|log| - 1])
  }

  ghost predicate FirstArrival(log: seq<Event>, e: Event) {
    exists i :: 0 <= i < |log| && log[i] == e && forall j :: 0 <= j < i ==> log[j].sq != e.sq
  }

  lemma {:induction false} SeqsOfBatch(log: seq<Event>, q: nat)
    ensures Ascending(Batch(log))
    ensures HasSeq(Batch(log), q) <==> HasSeq(log, q)
    decreases |log|
  {
    if log != [] {
      var init, ev := log[..|log| - 1], log[|log| - 1];
      SeqsOfBatch(init, q);
      assert HasSeq(log, q) <==> HasSeq(init, q) || ev.sq == q by {
        assert forall i :: 0 <= i < |init| ==> init[i] == log[i];
      }
      if !HasSeq(Batch(init), ev.sq) {
        InsertKeepsOrder(Batch(init), ev);
        HasSeqIsMembership(Batch(init), q);
        HasSeqIsMembership(Batch(log), q);
      }
    }
  }

  lemma HasSeqIsMembership(s: seq<Event>, q: nat)
    ensures HasSeq(s, q) <==> exists e :: e in s && e.sq == q
  {
    if e :| e in s && e.sq == q {
      var i :| 0 <= i < |s| && s[i] == e;
      assert s[i].sq == q;
    }
    if i :| 0 <= i < |s| && s[i].sq == q {
      assert s[i] in s;
    }
  }

  /** The batch really is the first arrivals, in ascending seq order. */
  lemma {:induction false} BatchIsFirstArrivals(log: seq<Event>, e: Event)
    ensures Ascending(Batch(log))
    ensures e in Batch(log) <==> FirstArrival(log, e)
    decreases |log|
  {
    hide FirstArrival, HasSeq, Ascending;
    SeqsOfBatch(log, e.sq);
    if log != [] {
      var init, ev := log[..|log| - 1], log[|log| - 1];
      BatchIsFirstArrivals(init, e);
      SeqsOfBatch(init, ev.sq);
      FirstArrivalSnoc(log, e);
      if !HasSeq(init, ev.sq) {
        InsertKeepsOrder(Batch(init), ev);
      }
    } else {
      NothingArrived(e);
    }
  }

  lemma NothingArrived(e: Event)
    ensures !FirstArrival([], e)
  {
  }

  /** One more arrival is a first arrival exactly when its seq is new. */
  lemma FirstArrivalSnoc(log: seq<Event>, e: Event)
    requires log != []
    ensures var init, ev := log[..|log| - 1], log[|log| - 1];
            FirstArrival(log, e) <==> FirstArrival(init, e) || (e == ev && !HasSeq(init, ev.sq))
  {
    var n := |log| - 1;
    var init, ev := log[..n], log[n];
    assert forall j :: 0 <= j < n ==> init[j] == log[j];
    if i :| 0 <= i < n && init[i] == e && forall j :: 0 <= j < i ==> init[j].sq != e.sq {
      assert log[i] == e && forall j :: 0 <= j < i ==> log[j].sq != e.sq;
    }
    if e == ev && !HasSeq(init, ev.sq) {
      assert log[n] == e && forall j :: 0 <= j < n ==> init[j].sq != e.sq;
    }
    if i :| 0 <= i <= n && log[i] == e && forall j :: 0 <= j < i ==> log[j].sq != e.sq {
      if i < n {
        assert init[i] == e && forall j :: 0 <= j < i ==> init[j].sq != e.sq;
      }
    }
  }

  lemma TailOf(s: seq<Event>, q: nat)
    requires Ascending(s) && s != []
    ensures Ascending(s[1..]) && (!HasSeq(s, q) ==> !HasSeq(s[1..], q))
    ensures s == [s[0]] + s[1..]
  {
    var t := s[1..];
    assert forall i :: 0 <= i < |t| ==> t[i] == s[i + 1];
  }

  /** Everything before all of s goes to the front, and is trimmed if s is already full. */
  lemma InsertAtFront(s: seq<Event>, ev: Event, n: nat)
    requires |s| == n && (s != [] ==> ev.sq < s[0].sq)
    ensures LastN(InsertSorted(s, ev), n) == s
  {
    assert InsertSorted(s, ev) == [ev] + s;
    LastNCons(ev, s, n);
  }

  lemma KeptAreLast(s: seq<Event>, n: nat)
    requires Ascending(s) && |s| >= n > 0
    ensures LastN(s, n) == s[|s| - n..] && LastN(s, n)[0] == s[|s| - n] && LastN(s, n)[0].sq >= s[0].sq
    ensures Ascending(LastN(s, n))
  {
    var t := LastN(s, n);
    assert t == s[|s| - n..];
    assert forall i :: 0 <= i < n ==> t[i] == s[|s| - n + i];
  }

  lemma {:induction false} InsertIntoSuffix(s: seq<Event>, ev: Event, n: nat)
    requires Ascending(s) && !HasSeq(s, ev.sq)
    ensures LastN(InsertSorted(s, ev), n) == LastN(InsertSorted(LastN(s, n), ev), n)
    decreases |s|
  {
    if |s| > n {
      hide LastN, HasSeq, Ascending;
      var t := s[1..];
      TailOf(s, ev.sq);
      LastNCons(s[0], t, n);
      if n > 0 { KeptAreLast(s, n); }
      if ev.sq < s[0].sq {
        LastNCons(ev, s, n);
        InsertAtFront(LastN(s, n), ev, n);
      } else {
        InsertIntoSuffix(t, ev, n);
        LastNCons(s[0], InsertSorted(t, ev), n);
      }
    }
  }

  /** A seq that arrived before but was trimmed is below everything kept, so its redelivery
      changes nothing. */
  lemma TrimmedStaysOut(s: seq<Event>, ev: Event, n: nat)
    requires Ascending(s) && HasSeq(s, ev.sq) && !HasSeq(LastN(s, n), ev.sq)
    ensures LastN(InsertSorted(LastN(s, n), ev), n) == LastN(s, n)
  {
    hide InsertSorted;
    var kept := LastN(s, n);
    var k := |s| - |kept|;
    assert kept == s[k..];
    var i :| 0 <= i < |s| && s[i].sq == ev.sq;
    forall j | k <= j < |s| ensures s[j].sq != ev.sq {
      assert s[j] == kept[j - k];
    }
    assert i < k;
    assert kept != [] ==> kept[0] == s[k];
    InsertAtFront(kept, ev, n);
  }

  /** Streaming top-N: whatever the order of arrival and however often lines are redelivered,
      including lines that were trimmed before, the kept lines are the last n of the batch. */
  lemma {:induction false} StreamingTopN(n: nat, log: seq<Event>)
    ensures KeptAfter(n, log) == LastN(Batch(log), n)
    decreases |log|
  {
    if log != [] {
      var init, ev := log[..|log| - 1], log[|log| - 1];
      StreamingTopN(n, init);
      SeqsOfBatch(init, ev.sq);
      KeepOfSuffix(n, Batch(init), ev);
    }
  }

  lemma KeepOfSuffix(n: nat, b: seq<Event>, ev: Event)
    requires Ascending(b)
    ensures Keep(n, LastN(b, n), ev) == LastN(if HasSeq(b, ev.sq) then b else InsertSorted(b, ev), n)
  {
    KeptAmong(n, b, ev.sq);
    if HasSeq(b, ev.sq) {
      if !HasSeq(LastN(b, n), ev.sq) { TrimmedStaysOut(b, ev, n); }
    } else {
      InsertIntoSuffix(b, ev, n);
    }
  }

  lemma KeptAmong(n: nat, b: seq<Event>, q: nat)
    ensures HasSeq(LastN(b, n), q) ==> HasSeq(b, q)
  {
    var kept := LastN(b, n);
    var k := |b| - |kept|;
    assert kept == b[k..];
    if i :| 0 <= i < |kept| && kept[i].sq == q {
      assert b[k + i].sq == q;
    }
  }

  function Seqs(s: seq<Event>): seq<nat> { seq(|s|, i requires 0 <= i < |s| => s[i].sq) }

  lemma {:induction false} AscendingIsDetermined(a: seq<Event>, b: seq<Event>)
    requires Ascending(a) && Ascending(b) && forall q: nat :: HasSeq(a, q) <==> HasSeq(b, q)
    ensures Seqs(a) == Seqs(b)
    decreases |a|
  {
    if a == [] {
      if b != [] { assert HasSeq(b, b[0].sq); }
    } else {
      assert HasSeq(a, a[0].sq);
      assert HasSeq(b, b[0].sq);
      assert a[0].sq == b[0].sq;
      var s, t := a[1..], b[1..];
      forall q: nat ensures HasSeq(s, q) <==> HasSeq(t, q) {
        TailSeqs(a, q);
        TailSeqs(b, q);
      }
      AscendingIsDetermined(s, t);
      assert Seqs(a) == [a[0].sq] + Seqs(s) && Seqs(b) == [b[0].sq] + Seqs(t);
    }
  }

  lemma TailSeqs(a: seq<Event>, q: nat)
    requires Ascending(a) && a != []
    ensures HasSeq(a[1..], q) <==> HasSeq(a, q) && q != a[0].sq
  {
    var s := a[1..];
    assert forall i :: 0 <= i < |s| ==> s[i] == a[i + 1];
    if i :| 0 <= i < |a| && a[i].sq == q && q != a[0].sq {
      assert s[i - 1].sq == q;
    }
  }

  /** The kept seqs depend on which seqs arrived, not on their order or multiplicity. */
  lemma OrderIndependence(n: nat, a: seq<Event>, b: seq<Event>)
    requires forall q: nat :: HasSeq(a, q) <==> HasSeq(b, q)
    ensures Seqs(KeptAfter(n, a)) == Seqs(KeptAfter(n, b))
  {
    hide HasSeq, Seqs, Ascending, LastN;
    StreamingTopN(n, a);
    StreamingTopN(n, b);
    forall q: nat ensures HasSeq(Batch(a), q) <==> HasSeq(Batch(b), q) {
      SeqsOfBatch(a, q);
      SeqsOfBatch(b, q);
    }
    SeqsOfBatch(a, 0);
    SeqsOfBatch(b, 0);
    AscendingIsDetermined(Batch(a), Batch(b));
    SeqsOfLast(Batch(a), n);
    SeqsOfLast(Batch(b), n);
  }

  lemma SeqsOfLast(s: seq<Event>, n: nat)
    ensures Seqs(LastN(s, n)) == LastN(Seqs(s), n)
  {
  }

  // ---- Pages ----

  /** The kept lines after a seq. */
  function Suffix(s: seq<Event>, after: nat): seq<Event> {
    if s == [] then [] else (if s[0].sq > after then [s[0]] else []) + Suffix(s[1..], after)
  }

  function Page(s: seq<Event>, after: nat, limit: nat): seq<Event> {
    var rest := Suffix(s, after);
    if |rest| <= limit then rest else rest[..limit]
  }

  lemma {:induction false} SuffixOfConcat(a: seq<Event>, b: seq<Event>, after: nat)
    ensures Suffix(a + b, after) == Suffix(a, after) + Suffix(b, after)
    decreases |a|
  {
    if a == [] {
      assert a + b == b;
    } else {
      assert (a + b)[1..] == a[1..] + b;
      SuffixOfConcat(a[1..], b, after);
    }
  }

  /** t is the tail of s that lies above after. */
  ghost predicate TailAbove(s: seq<Event>, t: seq<Event>, after: nat) {
    && |t| <= |s| && t == s[|s| - |t|..]
    && (forall i :: 0 <= i < |s| ==> (s[i].sq > after <==> i >= |s| - |t|))
  }

  lemma TailAboveCons(s: seq<Event>, t: seq<Event>, after: nat)
    requires Ascending(s) && s != [] && TailAbove(s[1..], t, after)
    ensures TailAbove(s, if s[0].sq > after then [s[0]] + t else t, after)
  {
    var rest := s[1..];
    assert forall i :: 1 <= i < |s| ==> s[i] == rest[i - 1];
    if s[0].sq > after {
      assert rest != [] ==> s[1].sq > s[0].sq && rest[0].sq > after;
      assert t == rest;
      assert [s[0]] + t == s;
    } else {
      var k := |rest| - |t|;
      assert t == rest[k..] == s[k + 1..];
    }
  }

  /** In an ascending list the lines after a seq are a tail of the list. */
  lemma {:induction false} SuffixIsTail(s: seq<Event>, after: nat)
    requires Ascending(s)
    ensures TailAbove(s, Suffix(s, after), after)
    decreases |s|
  {
    if s != [] {
      hide TailAbove, Suffix;
      TailOf(s, 0);
      SuffixIsTail(s[1..], after);
      SuffixStep(s, after);
      TailAboveCons(s, Suffix(s[1..], after), after);
    } else {
      assert Suffix(s, after) == [];
    }
  }

  lemma SuffixStep(s: seq<Event>, after: nat)
    requires s != []
    ensures Suffix(s, after) == if s[0].sq > after then [s[0]] + Suffix(s[1..], after) else Suffix(s[1..], after)
  {
    assert [] + Suffix(s[1..], after) == Suffix(s[1..], after);
  }

  /** Asking again with the last seq received. */
  function AllPages(s: seq<Event>, after: nat, limit: nat): seq<Event>
    requires Ascending(s) && limit > 0
    decreases |Suffix(s, after)|
  {
    var page := Page(s, after, limit);
    if page == [] then []
    else
      ResumeAfterPage(s, after, limit);
      page + AllPages(s, page[|page| - 1].sq, limit)
  }

  lemma ResumeAfterPage(s: seq<Event>, after: nat, limit: nat)
    requires Ascending(s) && limit > 0 && Suffix(s, after) != []
    ensures var page := Page(s, after, limit);
            && page != []
            && page + Suffix(s, page[|page| - 1].sq) == Suffix(s, after)
            && |Suffix(s, page[|page| - 1].sq)| < |Suffix(s, after)|
  {
    hide Suffix;
    SuffixIsTail(s, after);
    var all, page := Suffix(s, after), Page(s, after, limit);
    var q := page[|page| - 1].sq;
    var k := |s| - |all| + |page|; // the page ends before index k
    assert s[k - 1] == page[|page| - 1];
    SuffixIsTail(s, q);
    var cut := |s| - |Suffix(s, q)|;
    assert s[k - 1].sq > q <==> k - 1 >= cut;
    assert k < |s| ==> s[k].sq > q;
    assert cut == k;
    assert all == s[|s| - |all|..k] + s[k..];
    assert page == s[|s| - |all|..k];
  }

  /** Paging ends and returns every kept line after the starting seq exactly once, in order. */
  lemma {:induction false} PagingIsComplete(s: seq<Event>, after: nat, limit: nat)
    requires Ascending(s) && limit > 0
    ensures AllPages(s, after, limit) == Suffix(s, after)
    decreases |Suffix(s, after)|
  {
    EmptyPage(s, after, limit);
    hide Suffix, Page;
    var page := Page(s, after, limit);
    if page != [] {
      ResumeAfterPage(s, after, limit);
      PagingIsComplete(s, page[|page| - 1].sq, limit);
    }
  }

  lemma EmptyPage(s: seq<Event>, after: nat, limit: nat)
    requires limit > 0
    ensures Page(s, after, limit) == [] <==> Suffix(s, after) == []
  {
    hide Suffix;
  }

  /** A page holds the oldest of the newer events, as many as the limit allows and there are. */
  lemma PageIsFull(s: seq<Event>, after: nat, limit: nat)
    ensures var page := Page(s, after, limit);
            page <= Suffix(s, after) && (|page| == limit || page == Suffix(s, after)) && |page| <= limit
  {
    hide Suffix;
  }
}
