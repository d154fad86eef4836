/**
 Linear resampling of 16-bit PCM in exact rational arithmetic. The interpolated value is
 truncated toward zero, as the conversion from float64 to int16 does.
 */
module Resample {

  function TruncDiv(a: int, b: int): int
    requires b > 0
  {
    if a >= 0 then a / b else -((-a) / b)
  }

  /** Truncation is toward zero, the same for both signs. */
  lemma TruncatesTowardZero(a: nat, b: nat)
    requires b > 0
    ensures TruncDiv(0 - a, b) == 0 - TruncDiv(a, b)
    ensures TruncDiv(a, b) * b <= a < (TruncDiv(a, b) + 1) * b
  {
    Floor(a, b);
    NothingDivided(b);
    assert a == 0 ==> TruncDiv(0 - a, b) == 0;
  }

  lemma NothingDivided(b: nat)
    requires b > 0
    ensures 0 / b == 0
  {
  }

  lemma Floor(a: nat, b: nat)
    requires b > 0
    ensures a / b * b <= a < (a / b + 1) * b
  {
    assert a == a / b * b + a % b;
    assert (a / b + 1) * b == a / b * b + b;
  }

  lemma TimesMonotone(x: int, y: int, b: nat)
    requires x <= y
    ensures x * b <= y * b
  {
  }

  lemma IndexInBounds(len: nat, i: nat, inRate: nat, outRate: nat)
    requires inRate > 0 && outRate > 0 && i < len * outRate / inRate
    ensures i * inRate / outRate < len
  {
    var n := len * outRate;
    var p := i * inRate;
    Floor(n, inRate);
    TimesMonotone(i + 1, n / inRate, inRate);
    assert (i + 1) * inRate == p + inRate;
    assert p < n;
    Floor(p, outRate);
    if p / outRate >= len {
      TimesMonotone(len, p / outRate, outRate);
    }
  }

  /** The output sample at i: between s[idx] and the next sample (or itself at the end). */
  function SampleAt(s: seq<int>, i: nat, inRate: nat, outRate: nat): int
    requires inRate > 0 && outRate > 0 && i * inRate / outRate < |s|
  {
    var idx := i * inRate / outRate;
    var frac := i * inRate % outRate;
    var s0 := s[idx];
    var s1 := if idx + 1 < |s| then s[idx + 1] else s0;
    TruncDiv(s0 * outRate + (s1 - s0) * frac, outRate)
  }

  function Resampled(s: seq<int>, inRate: nat, outRate: nat): (r: seq<int>)
    requires inRate > 0 && outRate > 0
    ensures inRate != outRate ==> |r| == |s| * outRate / inRate
  {
    if inRate == outRate || |s| == 0 then s
    else
      seq(|s| * outRate / inRate, (i: int) requires 0 <= i < |s| * outRate / inRate =>
        (IndexInBounds(|s|, i, inRate, outRate); SampleAt(s, i, inRate, outRate)))
  }

  lemma ResampledAt(s: seq<int>, i: nat, inRate: nat, outRate: nat)
    requires inRate > 0 && outRate > 0 && inRate != outRate && i < |Resampled(s, inRate, outRate)|
    ensures i * inRate / outRate < |s| && Resampled(s, inRate, outRate)[i] == SampleAt(s, i, inRate, outRate)
  {
    hide SampleAt;
    IndexInBounds(|s|, i, inRate, outRate);
  }

  method ResampleLinear(input: seq<int>, inRate: nat, outRate: nat) returns (r: seq<int>)
    requires inRate > 0 && outRate > 0
    ensures r == Resampled(input, inRate, outRate)
  {
    if inRate == outRate || |input| == 0 {
      return input;
    }
    var outLen := |input| * outRate / inRate;
    if outLen == 0 {
      return [];
    }
    var out := new int[outLen];
    ghost var expected := Resampled(input, inRate, outRate);
    hide Resampled, SampleAt;
    var i := 0;
    while i < outLen
      invariant 0 <= i <= outLen == |expected|
      invariant forall k :: 0 <= k < i ==> out[k] == expected[k]
    {
      ResampledAt(input, i, inRate, outRate);
      out[i] := Interpolated(input, i, inRate, outRate);
      i := i + 1;
    }
    r := out[..];
  }

  /** The body of the loop. */
  method Interpolated(input: seq<int>, i: nat, inRate: nat, outRate: nat) returns (v: int)
    requires inRate > 0 && outRate > 0 && i * inRate / outRate < |input|
    ensures v == SampleAt(input, i, inRate, outRate)
  {
    var idx := i * inRate / outRate;
    var frac := i * inRate % outRate;
    var s0 := input[idx];
    var s1 := s0;
    if idx + 1 < |input| {
      s1 := input[idx + 1];
    }
    v := TruncDiv(s0 * outRate + (s1 - s0) * frac, outRate);
  }

  lemma TruncMonotone(a: int, m: int, b: nat)
    requires b > 0
    ensures a >= m * b ==> TruncDiv(a, b) >= m
    ensures a <= m * b ==> TruncDiv(a, b) <= m
  {
    if a >= 0 {
      FloorMonotone(a, m, b);
    } else {
      FloorMonotone(-a, -m, b);
      assert -m * b == -(m * b);
    }
  }

  lemma FloorMonotone(a: nat, m: int, b: nat)
    requires b > 0
    ensures a >= m * b ==> a / b >= m
    ensures a <= m * b ==> a / b <= m
  {
    Floor(a, b);
    var q := a / b;
    if q < m { TimesMonotone(q + 1, m, b); }
    if q > m {
      TimesMonotone(m + 1, q, b);
      assert (m + 1) * b == m * b + b;
    }
  }

  /** v lies between the two input samples around output position i. */
  ghost predicate BetweenNeighbours(s: seq<int>, i: nat, inRate: nat, outRate: nat, v: int)
    requires inRate > 0 && outRate > 0
  {
    var idx := i * inRate / outRate;
    && idx < |s|
    && var s0, s1 := s[idx], if idx + 1 < |s| then s[idx + 1] else s[idx];
       (s0 <= v <= s1) || (s1 <= v <= s0)
  }

  /** Every output sample lies between its two neighbouring inputs. */
  lemma Between(s: seq<int>, i: nat, inRate: nat, outRate: nat)
    requires inRate > 0 && outRate > 0 && inRate != outRate && i < |Resampled(s, inRate, outRate)|
    ensures BetweenNeighbours(s, i, inRate, outRate, Resampled(s, inRate, outRate)[i])
  {
    hide Resampled, SampleAt;
    ResampledAt(s, i, inRate, outRate);
    SampleBetween(s, i, inRate, outRate);
  }

  lemma SampleBetween(s: seq<int>, i: nat, inRate: nat, outRate: nat)
    requires inRate > 0 && outRate > 0 && i * inRate / outRate < |s|
    ensures BetweenNeighbours(s, i, inRate, outRate, SampleAt(s, i, inRate, outRate))
  {
    hide TruncDiv;
    var idx := i * inRate / outRate;
    RemainderBelow(i * inRate, outRate);
    Mixed(s[idx], if idx + 1 < |s| then s[idx + 1] else s[idx], i * inRate % outRate, outRate);
  }

  lemma Mixed(s0: int, s1: int, frac: nat, rate: nat)
    requires frac < rate
    ensures var v := TruncDiv(s0 * rate + (s1 - s0) * frac, rate); (s0 <= v <= s1) || (s1 <= v <= s0)
  {
    hide TruncDiv;
    Interpolate(s0, s1, frac, rate);
    var a := s0 * rate + (s1 - s0) * frac;
    TruncMonotone(a, s0, rate);
    TruncMonotone(a, s1, rate);
  }

  lemma RemainderBelow(n: nat, b: nat)
    requires b > 0
    ensures 0 <= n % b < b
  {
  }

  lemma Interpolate(s0: int, s1: int, frac: nat, rate: nat)
    requires frac <= rate
    ensures var a := s0 * rate + (s1 - s0) * frac;
            (s0 * rate <= a <= s1 * rate) || (s1 * rate <= a <= s0 * rate)
  {
    var d := s1 - s0;
    assert s1 * rate == s0 * rate + d * rate;
    if d >= 0 {
      assert 0 <= d * frac <= d * rate;
    } else {
      assert d * rate <= d * frac <= 0;
    }
  }

  // ---- The ratios the proxy uses ----

  /** 24 kHz to 48 kHz: every input sample, each followed by the truncated midpoint to the next. */
  lemma Doubled(s: seq<int>, i: nat)
    requires i < |s|
    ensures var d := Resampled(s, 24000, 48000);
            && |d| == 2 * |s|
            && d[2 * i] == s[i]
            && d[2 * i + 1] == if i + 1 < |s| then TruncDiv(s[i] + s[i + 1], 2) else s[i]
  {
    var s1 := if i + 1 < |s| then s[i + 1] else s[i];
    assert 2 * i * 24000 / 48000 == i && 2 * i * 24000 % 48000 == 0;
    assert (2 * i + 1) * 24000 / 48000 == i && (2 * i + 1) * 24000 % 48000 == 24000;
    assert s[i] * 48000 + (s1 - s[i]) * 24000 == (s[i] + s1) * 24000;
  }

  lemma DoubledLength(s: seq<int>)
    ensures |Resampled(s, 24000, 48000)| == 2 * |s|
  {
  }

  /** Doubling 24 kHz to 48 kHz and halving again is the identity. */
  lemma DoubleThenHalve(s: seq<int>)
    ensures Resampled(Resampled(s, 24000, 48000), 48000, 24000) == s
  {
    hide Resampled;
    var d := Resampled(s, 24000, 48000);
    var h := Resampled(d, 48000, 24000);
    DoubledLength(s);
    HalvedLength(d);
    forall i | 0 <= i < |s| ensures h[i] == s[i] {
      Doubled(s, i);
      HalvedAt(d, i);
    }
  }

  lemma HalvedLength(d: seq<int>)
    ensures |Resampled(d, 48000, 24000)| == |d| / 2
  {
    assert |d| * 24000 / 48000 == |d| / 2;
  }

  lemma HalvedAt(d: seq<int>, i: nat)
    requires 2 * i < |d| && i < |Resampled(d, 48000, 24000)|
    ensures Resampled(d, 48000, 24000)[i] == d[2 * i]
  {
    ResampledAt(d, i, 48000, 24000);
    assert i * 48000 / 24000 == 2 * i && i * 48000 % 24000 == 0;
  }

  /** 48 kHz to 16 kHz keeps every third sample. */
  lemma Thirds(s: seq<int>, i: nat)
    requires i < |s| / 3
    ensures |Resampled(s, 48000, 16000)| == |s| / 3 && Resampled(s, 48000, 16000)[i] == s[3 * i]
  {
    assert i * 48000 / 16000 == 3 * i && i * 48000 % 16000 == 0;
  }

  lemma ThirdsOfConcat(a: seq<int>, b: seq<int>)
    requires |a| % 3 == 0 || |a| % 3 + |b| < 3
    ensures Resampled(a + b, 48000, 16000) == Resampled(a, 48000, 16000) + Resampled(b, 48000, 16000)
  {
    hide Resampled;
    var whole := Resampled(a + b, 48000, 16000);
    var parts := Resampled(a, 48000, 16000) + Resampled(b, 48000, 16000);
    ThirdsLength(a);
    ThirdsLength(b);
    ThirdsLength(a + b);
    forall i | 0 <= i < |whole| ensures whole[i] == parts[i] {
      Thirds(a + b, i);
      if i < |a| / 3 { Thirds(a, i); } else { Thirds(b, i - |a| / 3); }
    }
  }

  lemma ThirdsLength(s: seq<int>)
    ensures |Resampled(s, 48000, 16000)| == |s| / 3
  {
    assert |s| * 16000 / 48000 == |s| / 3;
  }

  ghost predicate ThirdsDistribute(la: nat, lb: nat) {
    forall a: seq<int>, b: seq<int> :: |a| == la && |b| == lb ==>
      Resampled(a + b, 48000, 16000) == Resampled(a, 48000, 16000) + Resampled(b, 48000, 16000)
  }

  /** 48 kHz to 16 kHz distributes over concatenation, for every content, exactly when the first
      chunk is a whole number of triples (or so little follows that no sample is completed). */
  lemma ThirdsDistributeExactly(la: nat, lb: nat)
    ensures ThirdsDistribute(la, lb) <==> la % 3 == 0 || la % 3 + lb < 3
  {
    hide Resampled;
    if la % 3 == 0 || la % 3 + lb < 3 {
      forall a: seq<int>, b: seq<int> | |a| == la && |b| == lb
        ensures Resampled(a + b, 48000, 16000) == Resampled(a, 48000, 16000) + Resampled(b, 48000, 16000)
      {
        ThirdsOfConcat(a, b);
      }
    } else {
      var a, b := seq(la, _ => 0), seq(lb, _ => 1);
      var k := la / 3;
      ThirdsLength(a);
      ThirdsLength(b);
      ThirdsLength(a + b);
      Thirds(a + b, k);
      if lb >= 3 { Thirds(b, 0); }
      assert Resampled(a + b, 48000, 16000) != Resampled(a, 48000, 16000) + Resampled(b, 48000, 16000);
    }
  }
}
