/**
 The two loops of respond(): the segmenter that groups reply tokens into sentences, and the
 worker that has them synthesised in order. Which characters count as other punctuation (the
 Unicode class Po) and what the token hook answers are parameters.
 */
module Segments {
  import opened Common
  import Text

  datatype Hooks = Hooks(po: char -> bool, onToken: (string, string) -> Option<string>)

  predicate EndsSentence(h: Hooks, s: string) {
    exists i :: 0 <= i < |s| && (s[i] in Text.SENTENCE_ENDERS || h.po(s[i]))
  }

  /** What goes to speech for one delta, given the reply so far. */
  function Token(h: Hooks, delta: string, accumulated: string): string {
    match h.onToken(delta, accumulated)
    case Some(replacement) => replacement
    case None => delta
  }

  /** The tokens to speak, with dropped ones left out. */
  function Spoken(h: Hooks, deltas: seq<string>): seq<string>
    decreases |deltas|
  {
    if deltas == [] then []
    else
      var init := deltas[..|deltas| - 1];
      var t := Token(h, deltas[|deltas| - 1], Flatten(init));
      Spoken(h, init) + if t == "" then [] else [t]
  }

  /** A hook that lets every token through changes nothing that is said. */
  lemma {:induction false} PassingHookSaysTheReply(h: Hooks, deltas: seq<string>)
    requires forall d, acc :: h.onToken(d, acc) == None
    ensures Flatten(Spoken(h, deltas)) == Flatten(deltas)
    decreases |deltas|
  {
    if deltas != [] {
      var n := |deltas| - 1;
      PassingHookSaysTheReply(h, deltas[..n]);
      FlattenInit(deltas);
      SpokenNextDelta(h, deltas[..n], deltas[n]);
      assert deltas[..n] + [deltas[n]] == deltas;
      FlattenSnoc(Spoken(h, deltas[..n]), deltas[n]);
    }
  }

  /** What is said for one more delta: the hook's replacement if it gives one, nothing if that is
      empty, and otherwise the delta itself. The hook is shown the original reply so far. */
  lemma SpokenNextDelta(h: Hooks, deltas: seq<string>, d: string)
    ensures var answer := h.onToken(d, Flatten(deltas));
            var said := if answer.Some? then answer.value else d;
            Spoken(h, deltas + [d]) == if said == "" then Spoken(h, deltas) else Spoken(h, deltas) + [said]
  {
    assert (deltas + [d])[..|deltas|] == deltas;
    assert Spoken(h, deltas) + [] == Spoken(h, deltas);
  }

  /** A token ends a sentence if some part of it does, and a character does if it is one of four or
      counts as other punctuation. */
  lemma SentenceEnds(h: Hooks, a: string, b: string, c: char)
    ensures EndsSentence(h, a + b) <==> EndsSentence(h, a) || EndsSentence(h, b)
    ensures EndsSentence(h, [c]) <==> c == '.' || c == '?' || c == '!' || c == '\n' || h.po(c)
    ensures !EndsSentence(h, "")
  {
    var s := a + b;
    assert forall i :: 0 <= i < |a| ==> s[i] == a[i];
    assert forall i :: 0 <= i < |b| ==> s[|a| + i] == b[i];
    assert forall i :: |a| <= i < |s| ==> s[i] == b[i - |a|];
    assert [c][0] == c;
  }

  // ---- Sentences ----

  /** Tokens cut after each one that ends a sentence. */
  function Groups(h: Hooks, tokens: seq<string>): seq<seq<string>> {
    if tokens == [] then []
    else
      var rest := Groups(h, tokens[1..]);
      if EndsSentence(h, tokens[0]) || rest == [] then [[tokens[0]]] + rest
      else [[tokens[0]] + rest[0]] + rest[1..]
  }

  function Texts(groups: seq<seq<string>>): seq<string> {
    seq(|groups|, i requires 0 <= i < |groups| => Flatten(groups[i]))
  }

  lemma TextsSnoc(groups: seq<seq<string>>, g: seq<string>)
    ensures Texts(groups + [g]) == Texts(groups) + [Flatten(g)]
  {
  }

  /** No token but the last ends a sentence. */
  ghost predicate OneSentence(h: Hooks, g: seq<string>) {
    g != [] && forall i :: 0 <= i < |g| - 1 ==> !EndsSentence(h, g[i])
  }

  predicate Complete(h: Hooks, g: seq<string>) {
    g != [] && EndsSentence(h, g[|g| - 1])
  }

  ghost predicate SentencePartition(h: Hooks, tokens: seq<string>, groups: seq<seq<string>>) {
    && Flatten(groups) == tokens
    && (forall i :: 0 <= i < |groups| ==> OneSentence(h, groups[i]))
    && (forall i :: 0 <= i < |groups| - 1 ==> Complete(h, groups[i]))
  }

  lemma {:induction false} GroupsPartition(h: Hooks, tokens: seq<string>)
    ensures SentencePartition(h, tokens, Groups(h, tokens))
    decreases |tokens|
  {
    if tokens != [] {
      var t, rest := tokens[0], Groups(h, tokens[1..]);
      GroupsPartition(h, tokens[1..]);
      var gs := Groups(h, tokens);
      if EndsSentence(h, t) || rest == [] {
        assert gs[1..] == rest;
      } else {
        assert gs[1..] == rest[1..];
        assert [t] + rest[0] + Flatten(rest[1..]) == [t] + (rest[0] + Flatten(rest[1..]));
        assert forall i :: 0 < i < |gs[0]| ==> gs[0][i] == rest[0][i - 1];
      }
    }
  }

  lemma {:induction false} PartitionIsUnique(h: Hooks, a: seq<seq<string>>, b: seq<seq<string>>)
    requires SentencePartition(h, Flatten(a), a) && SentencePartition(h, Flatten(b), b) && Flatten(a) == Flatten(b)
    ensures a == b
    decreases |a|
  {
    if a == [] || b == [] {
      FirstHasTokens(h, a);
      FirstHasTokens(h, b);
    } else {
      FirstIsPrefix(h, a, b);
      FirstIsPrefix(h, b, a);
      assert a[0] == b[0];
      assert Flatten(a)[|a[0]|..] == Flatten(a[1..]) && Flatten(b)[|b[0]|..] == Flatten(b[1..]);
      PartitionIsUnique(h, a[1..], b[1..]);
      assert a == [a[0]] + a[1..] && b == [b[0]] + b[1..];
    }
  }

  lemma FirstHasTokens(h: Hooks, a: seq<seq<string>>)
    requires SentencePartition(h, Flatten(a), a)
    ensures a != [] ==> Flatten(a) != []
  {
  }

  /** A first group cannot be longer than another first group of the same tokens. */
  lemma FirstIsPrefix(h: Hooks, a: seq<seq<string>>, b: seq<seq<string>>)
    requires a != [] && b != [] && Flatten(a) == Flatten(b)
    requires SentencePartition(h, Flatten(a), a) && SentencePartition(h, Flatten(b), b)
    ensures |a[0]| <= |b[0]| && a[0] == Flatten(a)[..|a[0]|]
  {
    var all := Flatten(a);
    assert all[..|a[0]|] == a[0] && all[..|b[0]|] == b[0];
    if |b| == 1 {
      assert Flatten(b[1..]) == [];
    } else {
      var k := |b[0]| - 1;
      assert EndsSentence(h, b[0][k]) && b[0][k] == all[k];
      assert k < |a[0]| ==> all[k] == a[0][k];
    }
  }

  /** The tokens have exactly one partition into sentences: non-empty groups, each but the last
      ending on its only sentence-ending token. */
  lemma OnlyGroups(h: Hooks, tokens: seq<string>, groups: seq<seq<string>>)
    ensures SentencePartition(h, tokens, groups) <==> groups == Groups(h, tokens)
  {
    GroupsPartition(h, tokens);
    if SentencePartition(h, tokens, groups) {
      PartitionIsUnique(h, groups, Groups(h, tokens));
    }
  }

  // ---- The segmenter, one token at a time ----

  /** The groups that are finished, and the tokens of the one that is not. */
  function Closed(h: Hooks, tokens: seq<string>): seq<seq<string>> {
    var gs := Groups(h, tokens);
    if gs != [] && !Complete(h, gs[|gs| - 1]) then gs[..|gs| - 1] else gs
  }

  function Open(h: Hooks, tokens: seq<string>): seq<string> {
    var gs := Groups(h, tokens);
    if gs != [] && !Complete(h, gs[|gs| - 1]) then gs[|gs| - 1] else []
  }

  lemma OpenAndClosed(h: Hooks, tokens: seq<string>)
    ensures Groups(h, tokens) == Closed(h, tokens) + if Open(h, tokens) == [] then [] else [Open(h, tokens)]
    ensures forall g <- Closed(h, tokens) :: Complete(h, g) && OneSentence(h, g)
    ensures forall i :: 0 <= i < |Open(h, tokens)| ==> !EndsSentence(h, Open(h, tokens)[i])
  {
    hide Groups, EndsSentence, Flatten;
    GroupsPartition(h, tokens);
    var gs := Groups(h, tokens);
    var closed, open := Closed(h, tokens), Open(h, tokens);
    assert closed + [] == closed;
    if gs != [] {
      assert gs == gs[..|gs| - 1] + [gs[|gs| - 1]];
      assert gs[|gs| - 1] != [];
    }
    assert forall i :: 0 <= i < |closed| ==> closed[i] == gs[i];
    assert open != [] ==> !EndsSentence(h, open[|open| - 1]);
  }

  lemma NextToken(h: Hooks, tokens: seq<string>, t: string)
    ensures var open := Open(h, tokens) + [t];
            && Closed(h, tokens + [t]) == Closed(h, tokens) + (if EndsSentence(h, t) then [open] else [])
            && Open(h, tokens + [t]) == if EndsSentence(h, t) then [] else open
  {
    hide Groups, EndsSentence;
    OpenAndClosed(h, tokens);
    GroupsPartition(h, tokens);
    var closed, was := Closed(h, tokens), Open(h, tokens);
    hide Closed, Open;
    var open := was + [t];
    var gs := closed + [open];
    FlattenSnoc(closed, open);
    FlattenSnoc(closed, was);
    assert Flatten(closed) + was == tokens by {
      if was == [] { assert Groups(h, tokens) == closed + [] == closed; }
    }
    assert Flatten(closed) + open == (Flatten(closed) + was) + [t];
    GrownPartition(h, closed, was, t);
    OnlyGroups(h, tokens + [t], gs);
    GroupsSplit(h, tokens + [t], closed, open);
  }

  lemma GrownPartition(h: Hooks, closed: seq<seq<string>>, was: seq<string>, t: string)
    requires forall g <- closed :: Complete(h, g) && OneSentence(h, g)
    requires forall i :: 0 <= i < |was| ==> !EndsSentence(h, was[i])
    ensures var gs := closed + [was + [t]];
            && (forall i :: 0 <= i < |gs| ==> OneSentence(h, gs[i]))
            && (forall i :: 0 <= i < |gs| - 1 ==> Complete(h, gs[i]))
  {
    hide EndsSentence;
    var gs, open := closed + [was + [t]], was + [t];
    assert forall i :: 0 <= i < |closed| ==> gs[i] == closed[i] && closed[i] in closed;
    assert forall i :: 0 <= i < |open| - 1 ==> open[i] == was[i];
  }

  lemma GroupsSplit(h: Hooks, tokens: seq<string>, closed: seq<seq<string>>, open: seq<string>)
    requires open != [] && Groups(h, tokens) == closed + [open]
    ensures if Complete(h, open) then Closed(h, tokens) == closed + [open] && Open(h, tokens) == []
            else Closed(h, tokens) == closed && Open(h, tokens) == open
  {
    hide Groups, Complete;
    var gs := closed + [open];
    assert gs[|gs| - 1] == open && gs[..|gs| - 1] == closed;
  }

  method EndsSentenceScan(h: Hooks, s: string) returns (r: bool)
    ensures r == EndsSentence(h, s)
  {
    var i := 0;
    while i < |s|
      invariant 0 <= i <= |s|
      invariant forall k :: 0 <= k < i ==> s[k] !in Text.SENTENCE_ENDERS && !h.po(s[k])
    {
      if s[i] in Text.SENTENCE_ENDERS || h.po(s[i]) {
        return true;
      }
      i := i + 1;
    }
    r := false;
  }

  /** The delta loop of respond(), run to the end of the stream. The segments are the texts of
      the only sentence partition of the rewritten tokens; the reply is the original deltas. */
  method Segment(h: Hooks, deltas: seq<string>) returns (segments: seq<string>, full: string)
    ensures segments == Texts(Groups(h, Spoken(h, deltas)))
    ensures full == Flatten(deltas)
  {
    hide Groups, Closed, Open;
    segments, full := [], "";
    var seg := "";
    NothingSpoken(h);
    assert deltas[..0] == [];
    var i := 0;
    while i < |deltas|
      invariant 0 <= i <= |deltas|
      invariant full == Flatten(deltas[..i])
      invariant segments == Texts(Closed(h, Spoken(h, deltas[..i]))) && seg == Flatten(Open(h, Spoken(h, deltas[..i])))
    {
      ghost var before := Spoken(h, deltas[..i]);
      assert deltas[..i + 1][..i] == deltas[..i] && deltas[..i + 1] == deltas[..i] + [deltas[i]];
      var tts := deltas[i];
      var hooked := h.onToken(deltas[i], full);
      if hooked.Some? {
        tts := hooked.value;
      }
      FlattenSnoc(deltas[..i], deltas[i]);
      full := full + deltas[i];
      i := i + 1;
      if tts == "" {
        assert Spoken(h, deltas[..i]) == before;
        continue;
      }
      assert Spoken(h, deltas[..i]) == before + [tts];
      NextToken(h, before, tts);
      FlattenSnoc(Open(h, before), tts);
      seg := seg + tts;
      var ends := EndsSentenceScan(h, tts);
      if ends {
        segments := segments + [seg];
        seg := "";
      }
    }
    assert deltas[..i] == deltas;
    var tokens := Spoken(h, deltas);
    OpenAndClosed(h, tokens);
    SpokenAreNonEmpty(h, deltas);
    GroupsPartition(h, tokens);
    OpenText(h, tokens);
    if |seg| > 0 {
      segments := segments + [seg];
    }
  }

  lemma NothingSpoken(h: Hooks)
    ensures Closed(h, []) == [] && Open(h, []) == [] && Texts([]) == [] && Spoken(h, []) == []
  {
  }

  lemma {:induction false} SpokenAreNonEmpty(h: Hooks, deltas: seq<string>)
    ensures forall i :: 0 <= i < |Spoken(h, deltas)| ==> Spoken(h, deltas)[i] != ""
    decreases |deltas|
  {
    if deltas != [] {
      SpokenAreNonEmpty(h, deltas[..|deltas| - 1]);
    }
  }

  lemma {:induction false} NonEmptyText(g: seq<string>)
    requires forall i :: 0 <= i < |g| ==> g[i] != ""
    ensures Flatten(g) == "" <==> g == []
    decreases |g|
  {
  }

  lemma {:induction false} MembersOfFlatten(gs: seq<seq<string>>, k: nat, i: nat)
    requires k < |gs| && i < |gs[k]|
    ensures gs[k][i] in Flatten(gs)
    decreases |gs|
  {
    if k > 0 { MembersOfFlatten(gs[1..], k - 1, i); }
  }

  /** Open tokens have text as soon as there is one, so flushing by text length is flushing by
      tokens. */
  lemma OpenText(h: Hooks, tokens: seq<string>)
    requires forall i :: 0 <= i < |tokens| ==> tokens[i] != ""
    ensures Flatten(Open(h, tokens)) == "" <==> Open(h, tokens) == []
  {
    GroupsPartition(h, tokens);
    var gs, open := Groups(h, tokens), Open(h, tokens);
    forall i | 0 <= i < |open| ensures open[i] != "" {
      MembersOfFlatten(gs, |gs| - 1, i);
    }
    NonEmptyText(open);
  }

  /** What the segments are worth to a listener: in order they are all non-empty and spell out
      the rewritten tokens, nothing more and nothing less. */
  lemma {:induction false} SegmentsSpellTheTokens(h: Hooks, deltas: seq<string>)
    ensures var segments := Texts(Groups(h, Spoken(h, deltas)));
            && Flatten(segments) == Flatten(Spoken(h, deltas))
            && forall i :: 0 <= i < |segments| ==> segments[i] != ""
  {
    var tokens := Spoken(h, deltas);
    var gs := Groups(h, tokens);
    GroupsPartition(h, tokens);
    SpokenAreNonEmpty(h, deltas);
    FlattenTexts(gs);
    forall k | 0 <= k < |gs| ensures Texts(gs)[k] != "" {
      forall i | 0 <= i < |gs[k]| ensures gs[k][i] != "" {
        MembersOfFlatten(gs, k, i);
      }
      NonEmptyText(gs[k]);
    }
  }

  lemma {:induction false} FlattenTexts(gs: seq<seq<string>>)
    ensures Flatten(Texts(gs)) == Flatten(Flatten(gs))
    decreases |gs|
  {
    if gs != [] {
      FlattenTexts(gs[1..]);
      assert Texts(gs)[1..] == Texts(gs[1..]);
      FlattenConcat(gs[0], Flatten(gs[1..]));
    }
  }

  // ---- The TTS worker ----

  /** Audio of one segment: none when the stage reports an error. */
  function Audio(pcmOf: (string, bool) -> Option<seq<int>>, text: string, quick: bool): seq<int> {
    match pcmOf(text, quick)
    case Some(pcm) => pcm
    case None => []
  }

  function AllAudio(pcmOf: (string, bool) -> Option<seq<int>>, segments: seq<string>): seq<int>
    decreases |segments|
  {
    if segments == [] then []
    else
      var n := |segments| - 1;
      AllAudio(pcmOf, segments[..n]) + Audio(pcmOf, segments[n], n == 0)
  }

  /** The worker goroutine with synthesize() inlined. done(k) tells whether the select at chunk k
      finds the context cancelled. Only the first segment is quick; a cancelled run has spoken a
      prefix of the segments and sent a prefix of their audio. */
  method Speak(pcmOf: (string, bool) -> Option<seq<int>>, segments: seq<string>, done: nat -> bool)
    returns (recv: seq<int>, spoken: nat, completed: bool)
    ensures spoken <= |segments| && recv <= AllAudio(pcmOf, segments[..spoken])
    ensures completed ==> spoken == |segments| && recv == AllAudio(pcmOf, segments)
    ensures (forall k: nat :: k < |recv| ==> !done(k)) && (!completed ==> done(|recv|))
  {
    recv, spoken := [], 0;
    var quick := true;
    while spoken < |segments|
      invariant spoken <= |segments| && recv == AllAudio(pcmOf, segments[..spoken])
      invariant quick <==> spoken == 0
      invariant forall k: nat :: k < |recv| ==> !done(k)
    {
      var pcm := pcmOf(segments[spoken], quick);
      ghost var before := recv;
      assert segments[..spoken + 1][..spoken] == segments[..spoken];
      spoken := spoken + 1;
      if pcm.Some? {
        var i := 0;
        while i < |pcm.value|
          invariant 0 <= i <= |pcm.value| && recv == before + pcm.value[..i]
          invariant forall k: nat :: k < |recv| ==> !done(k)
        {
          if done(|recv|) {
            completed := false;
            return;
          }
          recv := recv + [pcm.value[i]];
          i := i + 1;
        }
      }
      quick := false;
    }
    assert segments[..spoken] == segments;
    completed := true;
  }

  /** The audio of a reply is that of its segments one after another, the first alone asked for
      quickly; a segment that cannot be synthesised is silent and takes nothing from the others. */
  lemma {:induction false} AudioIsOfTheSegments(pcmOf: (string, bool) -> Option<seq<int>>, segments: seq<string>)
    ensures AllAudio(pcmOf, segments) ==
            Flatten(seq(|segments|, i requires 0 <= i < |segments| =>
                      match pcmOf(segments[i], i == 0) case Some(pcm) => pcm case None => []))
    decreases |segments|
  {
    var all := seq(|segments|, i requires 0 <= i < |segments| =>
                     match pcmOf(segments[i], i == 0) case Some(pcm) => pcm case None => []);
    if segments != [] {
      var n := |segments| - 1;
      AudioIsOfTheSegments(pcmOf, segments[..n]);
      FlattenInit(all);
      assert all[..n] == seq(n, i requires 0 <= i < n =>
                               match pcmOf(segments[..n][i], i == 0) case Some(pcm) => pcm case None => []);
    }
  }
}
