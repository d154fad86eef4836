/**
 Text rules the orchestrator and the segmenter share, and token similarity of two utterances.
 Lower-casing is a map on characters, given as a parameter.
 The similarity is an exact fraction; comparing it with 0.9 is comparing 10 * inter with 9 * union.
 */
module Text {

  const SENTENCE_ENDERS := ".?!\n"

  predicate IsSpace(c: char) {
    || '\t' <= c <= '\r' || c == ' ' || c == '\U{85}' || c == '\U{A0}' || c == '\U{1680}'
    || '\U{2000}' <= c <= '\U{200A}' || c in ['\U{2028}', '\U{2029}', '\U{202F}', '\U{205F}', '\U{3000}']
  }

  function Lower(lower: char -> char, s: string): string {
    seq(|s|, i requires 0 <= i < |s| => lower(s[i]))
  }

  function WordLength(s: string): (n: nat)
    ensures n <= |s|
    ensures s != [] && !IsSpace(s[0]) ==> n > 0
  {
    if s == [] || IsSpace(s[0]) then 0 else 1 + WordLength(s[1..])
  }

  /** The whitespace-separated words of s. */
  function Words(s: string): seq<string>
    decreases |s|
  {
    if s == [] then []
    else if IsSpace(s[0]) then Words(s[1..])
    else [s[..WordLength(s)]] + Words(s[WordLength(s)..])
  }

  function Tokens(lower: char -> char, s: string): set<string> {
    set w | w in Words(Lower(lower, s))
  }

  /** At least 0.9 similar. */
  predicate Similar(lower: char -> char, a: string, b: string) {
    var s, t := Tokens(lower, a), Tokens(lower, b);
    (s == {} && t == {}) || 10 * |s * t| >= 9 * |s + t|
  }

  method TokenSet(lower: char -> char, s: string) returns (m: set<string>)
    ensures m == Tokens(lower, s)
  {
    m := {};
    var words := Words(Lower(lower, s));
    var i := 0;
    while i < |words|
      invariant 0 <= i <= |words|
      invariant m == set w | w in words[..i]
    {
      assert words[..i + 1] == words[..i] + [words[i]];
      m := m + {words[i]};
      i := i + 1;
    }
    assert words[..i] == words;
  }

  method Jaccard(lower: char -> char, a: string, b: string) returns (r: real)
    ensures var s, t := Tokens(lower, a), Tokens(lower, b);
            r == if s == {} && t == {} then 1.0 else |s * t| as real / |s + t| as real
    ensures r >= 0.9 <==> Similar(lower, a, b)
  {
    var sa := TokenSet(lower, a);
    var sb := TokenSet(lower, b);
    if |sa| == 0 && |sb| == 0 {
      return 1.0;
    }
    var inter := CountCommon(sa, sb);
    UnionCard(sa, sb);
    var union := |sa| + |sb| - inter;
    r := inter as real / union as real;
    NineTenths(inter, union);
  }

  method CountCommon(sa: set<string>, sb: set<string>) returns (inter: nat)
    ensures inter == |sa * sb|
  {
    inter := 0;
    var todo := sa;
    while todo != {}
      invariant todo <= sa
      invariant inter == |(sa - todo) * sb|
    {
      var t :| t in todo;
      OneMoreSeen(sa, sb, todo, t);
      if t in sb {
        inter := inter + 1;
      }
      todo := todo - {t};
    }
    assert (sa - todo) * sb == sa * sb;
  }

  lemma OneMoreSeen(sa: set<string>, sb: set<string>, todo: set<string>, t: string)
    requires t in todo && todo <= sa
    ensures |(sa - (todo - {t})) * sb| == |(sa - todo) * sb| + if t in sb then 1 else 0
  {
    var seen := (sa - todo) * sb;
    assert t !in seen;
    assert (sa - (todo - {t})) * sb == seen + if t in sb then {t} else {};
  }

  lemma UnionCard(s: set<string>, t: set<string>)
    ensures |s + t| == |s| + |t| - |s * t|
    ensures s != {} || t != {} ==> |s + t| > 0
  {
    assert s + t == s + (t - s) && t == (t - s) + (s * t);
    if s + t == {} {
      assert s == {} && t == {};
    }
  }

  lemma NineTenths(inter: nat, union: nat)
    requires union > 0
    ensures inter as real / union as real >= 0.9 <==> 10 * inter >= 9 * union
  {
    var u, i := union as real, inter as real;
    var q := i / u;
    assert q * u == i;
    Scaled(q, 0.9, u);
    assert (10 * inter) as real == 10.0 * i && (9 * union) as real == 9.0 * u;
  }

  lemma Scaled(q: real, c: real, u: real)
    requires u > 0.0
    ensures q >= c <==> q * u >= c * u
  {
    var d := q - c;
    assert q * u == c * u + d * u;
    assert if d >= 0.0 then d * u >= 0.0 else d * u < 0.0;
  }

  /** Similarity is symmetric, every text is similar to itself, and two texts without words are
      similar to each other and to nothing else. */
  lemma SimilarityLaws(lower: char -> char, a: string, b: string)
    ensures Similar(lower, a, b) <==> Similar(lower, b, a)
    ensures Similar(lower, a, a)
    ensures Tokens(lower, a) == {} ==> (Similar(lower, a, b) <==> Tokens(lower, b) == {})
  {
    var s, t := Tokens(lower, a), Tokens(lower, b);
    assert s * t == t * s && s + t == t + s;
    assert s * s == s && s + s == s;
    UnionCard(s, t);
  }

  /** Among fewer than ten distinct words, only texts with exactly the same words are similar. */
  lemma ShortTextsMatchExactly(lower: char -> char, a: string, b: string)
    requires |Tokens(lower, a) + Tokens(lower, b)| < 10
    ensures Similar(lower, a, b) <==> Tokens(lower, a) == Tokens(lower, b)
  {
    var s, t := Tokens(lower, a), Tokens(lower, b);
    UnionCard(s, t);
    assert s + t == s * t + ((s - t) + (t - s));
    assert |s + t| == |s * t| + |(s - t) + (t - s)|;
    if |(s - t) + (t - s)| == 0 {
      assert (s - t) + (t - s) == {};
      assert s == t;
    }
    if s == t { assert s * t == s + t; }
  }

  // ---- What the words of a text are ----

  /** The words on both sides of a space are those of the sides. */
  lemma {:induction false} WordsSplit(a: string, c: char, b: string)
    requires IsSpace(c)
    ensures Words(a + [c] + b) == Words(a) + Words(b)
    decreases |a|
  {
    var s := a + [c] + b;
    if a == [] {
      assert s == [c] + b && s[1..] == b;
    } else if IsSpace(a[0]) {
      assert s[1..] == a[1..] + [c] + b;
      WordsSplit(a[1..], c, b);
    } else {
      hide IsSpace;
      var n := WordLength(a);
      LengthBeforeSpace(a, c, b);
      assert s[..n] == a[..n] && s[n..] == a[n..] + [c] + b;
      WordsSplit(a[n..], c, b);
    }
  }

  lemma {:induction false} LengthBeforeSpace(a: string, c: char, b: string)
    requires IsSpace(c)
    ensures WordLength(a + [c] + b) == WordLength(a)
    decreases |a|
  {
    var s := a + [c] + b;
    if a != [] {
      assert s[1..] == a[1..] + [c] + b;
      LengthBeforeSpace(a[1..], c, b);
    }
  }

  /** A text without spaces is one word, and nothing is none. */
  lemma OneWord(s: string)
    requires forall i :: 0 <= i < |s| ==> !IsSpace(s[i])
    ensures Words(s) == if s == "" then [] else [s]
  {
    WholeLength(s);
    assert s[..|s|] == s && s[|s|..] == [];
  }

  lemma {:induction false} WholeLength(s: string)
    requires forall i :: 0 <= i < |s| ==> !IsSpace(s[i])
    ensures WordLength(s) == |s|
    decreases |s|
  {
    hide IsSpace;
    if s != [] {
      WholeLength(s[1..]);
    }
  }

  /** The spaces among the ASCII characters. */
  lemma AsciiSpaces(c: char)
    requires c < '\U{80}'
    ensures IsSpace(c) <==> c in " \t\n\r" || c == '\U{0B}' || c == '\U{0C}'
  {
  }

  /** The words of two texts put together with a space between them are all their words, in either
      order; so neither order nor repetition of words matters to similarity. */
  lemma TokensOfJoined(lower: char -> char, a: string, c: char, b: string)
    requires IsSpace(lower(c))
    ensures Tokens(lower, a + [c] + b) == Tokens(lower, a) + Tokens(lower, b)
    ensures Similar(lower, a + [c] + b, b + [c] + a)
  {
    hide Words, IsSpace, Similar;
    WordsOfJoined(lower, a, c, b);
    WordsOfJoined(lower, b, c, a);
    assert Tokens(lower, a + [c] + b) == Tokens(lower, b + [c] + a);
    SameTokens(lower, a + [c] + b, b + [c] + a);
  }

  lemma WordsOfJoined(lower: char -> char, a: string, c: char, b: string)
    requires IsSpace(lower(c))
    ensures Words(Lower(lower, a + [c] + b)) == Words(Lower(lower, a)) + Words(Lower(lower, b))
  {
    hide Words, IsSpace;
    assert Lower(lower, a + [c] + b) == Lower(lower, a) + [lower(c)] + Lower(lower, b);
    WordsSplit(Lower(lower, a), lower(c), Lower(lower, b));
  }

  lemma SameTokens(lower: char -> char, a: string, b: string)
    requires Tokens(lower, a) == Tokens(lower, b)
    ensures Similar(lower, a, b)
  {
    hide Tokens;
    var s := Tokens(lower, a);
    assert s * s == s && s + s == s;
  }

  /** Texts that differ by case only are similar. */
  lemma CaseDoesNotMatter(lower: char -> char, a: string, b: string)
    requires |a| == |b| && forall i :: 0 <= i < |a| ==> lower(a[i]) == lower(b[i])
    ensures Similar(lower, a, b)
  {
    assert Lower(lower, a) == Lower(lower, b);
    SimilarityLaws(lower, a, a);
  }

  /** Different single words are not similar. */
  lemma DifferentWords(lower: char -> char, a: string, b: string)
    requires a != "" && b != "" && Lower(lower, a) != Lower(lower, b)
    requires forall i :: 0 <= i < |a| ==> !IsSpace(lower(a[i]))
    requires forall i :: 0 <= i < |b| ==> !IsSpace(lower(b[i]))
    ensures !Similar(lower, a, b)
  {
    var x, y := Lower(lower, a), Lower(lower, b);
    OneWord(x);
    OneWord(y);
    assert Tokens(lower, a) == {x} && Tokens(lower, b) == {y};
    assert {x} * {y} == {} && {x} + {y} == {x, y} && |{x, y}| == 2;
  }
}
