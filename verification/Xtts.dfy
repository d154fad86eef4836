/**
 The read, carry, resample and re-frame loop of the XTTS stage. Bytes arrive in reads of any
 size; a 16-bit sample split across two reads is completed through a one-byte slice that is
 reused from read to read. The slice is modelled with its backing array, because a short read
 appended to it is written into that same array. cap is the capacity the run-time gives the
 slice when its first byte is appended.
 */
module Xtts {
  import opened Common
  import opened Framing
  import opened Resample

  type Byte = x: int | 0 <= x < 256

  const WIRE_RATE := 24000
  const OPUS_RATE := 48000

  /** Little-endian signed 16-bit. */
  function Sample(lo: Byte, hi: Byte): int {
    var u := lo + 256 * hi;
    if u < 0x8000 then u else u - 0x1_0000
  }

  function Decoded(b: seq<Byte>): (r: seq<int>)
    ensures |r| == |b| / 2
  {
    seq(|b| / 2, i requires 0 <= i < |b| / 2 => Sample(b[2 * i], b[2 * i + 1]))
  }

  /** The largest even number up to n. */
  function Even(n: nat): nat { n / 2 * 2 }

  // ---- One read ----

  /** The carried byte is overwritten before it is decoded: the read is joined inside the carry
      slice's own array, and its own odd byte then goes to the front of that array. */
  predicate Clobbers(carried: bool, n: nat, cap: nat) {
    carried && n > 0 && n % 2 == 0 && 1 + n <= cap
  }

  /** The bytes of a read that are decoded. */
  function Body(carry: seq<Byte>, chunk: seq<Byte>, cap: nat): (r: seq<Byte>)
    requires |carry| <= 1
    ensures |r| == Even(|carry| + |chunk|)
  {
    var joined := carry + chunk;
    var even := joined[..Even(|joined|)];
    if Clobbers(|carry| == 1, |chunk|, cap) then even[0 := chunk[|chunk| - 1]] else even
  }

  function Carry(carry: seq<Byte>, chunk: seq<Byte>): (r: seq<Byte>)
    requires |carry| <= 1
    ensures |r| <= 1
  {
    var joined := carry + chunk;
    joined[Even(|joined|)..]
  }

  method CopyInto(a: array<Byte>, at: nat, chunk: seq<Byte>)
    requires at + |chunk| <= a.Length
    modifies a
    ensures a[..] == old(a[..at]) + chunk + old(a[at + |chunk|..])
  {
    var i := 0;
    while i < |chunk|
      invariant 0 <= i <= |chunk|
      invariant forall k :: 0 <= k < i ==> a[at + k] == chunk[k]
      invariant forall k :: 0 <= k < at || at + i <= k < a.Length ==> a[k] == old(a[k])
    {
      a[at + i] := chunk[i];
      i := i + 1;
    }
  }

  /** One non-empty read: odd is the backing array of the carry slice, whose length is oddLen. */
  method HandleRead(odd: array<Byte>, oddLen: nat, chunk: seq<Byte>) returns (samples: seq<int>, newLen: nat)
    requires odd.Length >= 1 && oddLen <= 1 && chunk != []
    modifies odd
    ensures samples == Decoded(Body(old(odd[..oddLen]), chunk, odd.Length))
    ensures newLen <= 1 && odd[..newLen] == Carry(old(odd[..oddLen]), chunk)
  {
    ghost var carry := odd[..oddLen];
    var raw: array<Byte>;
    var rawLen := oddLen + |chunk|;
    newLen := oddLen;
    if oddLen == 1 {
      if rawLen <= odd.Length {
        raw := odd; // append in place
      } else {
        raw := new Byte[rawLen];
        raw[0] := odd[0];
      }
      CopyInto(raw, 1, chunk);
      newLen := 0;
    } else {
      raw := new Byte[rawLen];
      CopyInto(raw, 0, chunk);
    }
    assert raw[..rawLen] == carry + chunk;
    if rawLen % 2 == 1 {
      odd[0] := raw[rawLen - 1];
      newLen := 1;
      rawLen := rawLen - 1;
    }
    assert raw[..rawLen] == Body(carry, chunk, odd.Length);
    samples := Decoded(raw[..rawLen]);
  }

  // ---- The stream ----

  /** Decoded bytes, the carried byte, and the 48 kHz samples so far. */
  datatype Progress = Progress(bytes: seq<Byte>, carry: seq<Byte>, pcm: seq<int>)

  function After(chunks: seq<seq<Byte>>, cap: nat): (p: Progress)
    ensures |p.carry| <= 1
    decreases |chunks|
  {
    if chunks == [] then Progress([], [], [])
    else
      var p := After(chunks[..|chunks| - 1], cap);
      var chunk := chunks[|chunks| - 1];
      var body := Body(p.carry, chunk, cap);
      Progress(p.bytes + body, Carry(p.carry, chunk), p.pcm + Resampled(Decoded(body), WIRE_RATE, OPUS_RATE))
  }

  /** The frames of a whole stream: full ones, then a shorter non-empty tail. */
  function WithTail(pcm: seq<int>): seq<seq<int>> {
    Frames(pcm) + if Rest(pcm) == [] then [] else [Rest(pcm)]
  }

  /** sends(k) tells whether the k-th send succeeds or the context is cancelled instead. */
  method Stream(chunks: seq<seq<Byte>>, cap: nat, sends: nat -> bool)
    returns (frames: seq<seq<int>>, cancelled: bool)
    requires cap >= 1
    ensures frames <= WithTail(After(chunks, cap).pcm)
    ensures !cancelled ==> frames == WithTail(After(chunks, cap).pcm)
    ensures (forall k: nat :: k < |frames| ==> sends(k)) && (cancelled ==> !sends(|frames|))
  {
    hide Frames, Rest, After, Body, Carry, Resampled;
    var odd := new Byte[cap];
    var oddLen: nat := 0;
    var pending: seq<int> := [];
    frames := [];
    StartOf(chunks, cap);
    var i := 0;
    while i < |chunks|
      invariant 0 <= i <= |chunks| && oddLen <= 1
      invariant odd[..oddLen] == After(chunks[..i], cap).carry
      invariant frames == Frames(After(chunks[..i], cap).pcm) && pending == Rest(After(chunks[..i], cap).pcm)
      invariant forall k: nat :: k < |frames| ==> sends(k)
    {
      NextRead(chunks, cap, i);
      ghost var upTo := After(chunks[..i + 1], cap).pcm;
      if chunks[i] != [] {
        var samples;
        samples, oddLen := HandleRead(odd, oddLen, chunks[i]);
        var up := ResampleLinear(samples, WIRE_RATE, OPUS_RATE);
        pending := pending + up;
        while |pending| >= FRAME_SAMPLES
          invariant oddLen <= 1 && odd[..oddLen] == After(chunks[..i + 1], cap).carry
          invariant frames + Frames(pending) == Frames(upTo) && Rest(pending) == Rest(upTo)
          invariant forall k: nat :: k < |frames| ==> sends(k)
        {
          FrameStep(pending);
          if !sends(|frames|) {
            PcmGrows(chunks, cap, i + 1);
            cancelled := true;
            return;
          }
          assert frames + ([pending[..FRAME_SAMPLES]] + Frames(pending[FRAME_SAMPLES..]))
              == frames + [pending[..FRAME_SAMPLES]] + Frames(pending[FRAME_SAMPLES..]);
          frames := frames + [pending[..FRAME_SAMPLES]];
          pending := pending[FRAME_SAMPLES..];
        }
        ShortPending(pending);
      }
      i := i + 1;
    }
    assert chunks[..i] == chunks;
    if pending != [] {
      if sends(|frames|) {
        frames := frames + [pending];
      } else {
        cancelled := true;
        return;
      }
    }
    cancelled := false;
  }

  lemma StartOf(chunks: seq<seq<Byte>>, cap: nat)
    ensures var p := After(chunks[..0], cap); p.carry == [] && Frames(p.pcm) == [] && Rest(p.pcm) == []
  {
  }

  lemma ShortPending(s: seq<int>)
    requires |s| < FRAME_SAMPLES
    ensures Frames(s) == [] && Rest(s) == s
  {
  }

  lemma FrameStep(s: seq<int>)
    requires |s| >= FRAME_SAMPLES
    ensures Frames(s) == [s[..FRAME_SAMPLES]] + Frames(s[FRAME_SAMPLES..]) && Rest(s) == Rest(s[FRAME_SAMPLES..])
  {
  }

  lemma NextRead(chunks: seq<seq<Byte>>, cap: nat, i: nat)
    requires i < |chunks|
    ensures var p, q := After(chunks[..i], cap), After(chunks[..i + 1], cap);
            var body := Body(p.carry, chunks[i], cap);
            && q.carry == Carry(p.carry, chunks[i])
            && q.bytes == p.bytes + body
            && Frames(q.pcm) == Frames(p.pcm) + Frames(Rest(p.pcm) + Resampled(Decoded(body), WIRE_RATE, OPUS_RATE))
            && Rest(q.pcm) == Rest(Rest(p.pcm) + Resampled(Decoded(body), WIRE_RATE, OPUS_RATE))
            && (chunks[i] == [] ==> q == p)
  {
    hide Frames, Rest, Resampled;
    assert chunks[..i + 1][..i] == chunks[..i];
    var p := After(chunks[..i], cap);
    var up := Resampled(Decoded(Body(p.carry, chunks[i], cap)), WIRE_RATE, OPUS_RATE);
    FramesResume(p.pcm, up);
    if chunks[i] == [] {
      assert up == [] by { NoSamples(); }
    }
  }

  lemma NoSamples()
    ensures Resampled([], WIRE_RATE, OPUS_RATE) == []
  {
  }

  lemma {:induction false} PcmGrows(chunks: seq<seq<Byte>>, cap: nat, i: nat)
    requires i <= |chunks|
    ensures After(chunks[..i], cap).pcm <= After(chunks, cap).pcm
    ensures After(chunks[..i], cap).bytes <= After(chunks, cap).bytes
    ensures Frames(After(chunks[..i], cap).pcm) <= WithTail(After(chunks, cap).pcm)
    decreases |chunks|
  {
    hide Frames, Rest, Resampled, Body, Carry;
    if i == |chunks| {
      assert chunks[..i] == chunks;
    } else {
      var init := chunks[..|chunks| - 1];
      assert init[..i] == chunks[..i];
      PcmGrows(init, cap, i);
      var a, b := After(chunks[..i], cap).pcm, After(chunks, cap).pcm;
      FramesResume(a, b[|a|..]);
      assert a + b[|a|..] == b;
    }
  }

  // ---- What comes out ----

  /** Whatever the split, decoding produces two bytes per complete pair received, twice as many
      48 kHz samples, and the carried byte is the true last byte. */
  lemma {:induction false} StreamLength(chunks: seq<seq<Byte>>, cap: nat)
    ensures var p := After(chunks, cap); var all := Flatten(chunks);
            && |p.bytes| == Even(|all|) == |p.pcm|
            && p.carry == all[Even(|all|)..]
    decreases |chunks|
  {
    if chunks != [] {
      hide Resampled, Body, After, Flatten, Even, Decoded, Carry;
      var init, chunk := chunks[..|chunks| - 1], chunks[|chunks| - 1];
      StreamLength(init, cap);
      FlattenInit(chunks);
      OneMoreRead(chunks, cap);
      var p, q := After(init, cap), After(chunks, cap);
      CarriedOn(Flatten(init), p.carry, chunk);
      UpsampledLength(p.carry, chunk, cap);
      assert |q.bytes| == |p.bytes| + |Body(p.carry, chunk, cap)|;
      assert |q.pcm| == |p.pcm| + Even(|p.carry| + |chunk|);
    } else {
      NoBytes();
    }
  }

  lemma CarriedOn(before: seq<Byte>, carry: seq<Byte>, chunk: seq<Byte>)
    requires carry == before[Even(|before|)..]
    ensures |carry| <= 1
    ensures var all := before + chunk;
            && Even(|all|) == Even(|before|) + Even(|carry| + |chunk|)
            && Carry(carry, chunk) == all[Even(|all|)..]
  {
    Halving(before, chunk);
  }

  lemma UpsampledLength(carry: seq<Byte>, chunk: seq<Byte>, cap: nat)
    requires |carry| <= 1
    ensures |Resampled(Decoded(Body(carry, chunk, cap)), WIRE_RATE, OPUS_RATE)| == Even(|carry| + |chunk|)
  {
    DoubledLength(Decoded(Body(carry, chunk, cap)));
  }

  lemma OneMoreRead(chunks: seq<seq<Byte>>, cap: nat)
    requires chunks != []
    ensures var n := |chunks| - 1;
            var p := After(chunks[..n], cap);
            var body := Body(p.carry, chunks[n], cap);
            After(chunks, cap) ==
            Progress(p.bytes + body, Carry(p.carry, chunks[n]), p.pcm + Resampled(Decoded(body), WIRE_RATE, OPUS_RATE))
  {
    hide Resampled, Body, Carry, Decoded;
  }

  /** Cutting off the odd byte, joining it to the next chunk and cutting again. */
  lemma Halving(before: seq<Byte>, chunk: seq<Byte>)
    ensures var all := before + chunk; var e := Even(|before|);
            var joined := before[e..] + chunk;
            && Even(|all|) == e + Even(|joined|)
            && joined[..Even(|joined|)] == all[e..Even(|all|)]
            && joined[Even(|joined|)..] == all[Even(|all|)..]
  {
    var all, e := before + chunk, Even(|before|);
    assert before[e..] + chunk == all[e..];
  }

  /** Even-indexed output samples are the decoded input samples, wherever reads were cut. */
  lemma {:induction false} EvenSamples(chunks: seq<seq<Byte>>, cap: nat, i: nat)
    requires i < |Flatten(chunks)| / 2
    ensures var p := After(chunks, cap);
            2 * i + 1 < |p.bytes| == |p.pcm| && p.pcm[2 * i] == Sample(p.bytes[2 * i], p.bytes[2 * i + 1])
    decreases |chunks|
  {
    hide Resampled, Body, Carry, After, Flatten;
    StreamLength(chunks, cap);
    assert chunks != [] by { NoBytes(); }
    var init, chunk := chunks[..|chunks| - 1], chunks[|chunks| - 1];
    StreamLength(init, cap);
    OneMoreRead(chunks, cap);
    var p, q := After(init, cap), After(chunks, cap);
    var body := Body(p.carry, chunk, cap);
    var half := |p.bytes| / 2;
    DoubledLength(Decoded(body));
    if i < half {
      EvenSamples(init, cap, i);
    } else {
      Doubled(Decoded(body), i - half);
      assert q.bytes[2 * i] == body[2 * (i - half)] && q.bytes[2 * i + 1] == body[2 * (i - half) + 1];
      assert q.pcm[2 * i] == Resampled(Decoded(body), WIRE_RATE, OPUS_RATE)[2 * (i - half)];
    }
  }

  lemma NoBytes()
    ensures Flatten<Byte>([]) == []
  {
  }

  ghost predicate ByteExact(chunks: seq<seq<Byte>>, cap: nat) {
    After(chunks, cap).bytes == Flatten(chunks)[..Even(|Flatten(chunks)|)]
  }

  /** The k-th read meets a carried byte and is short enough to be joined in place. */
  predicate ClobbersAt(chunks: seq<seq<Byte>>, cap: nat, k: nat)
    requires k < |chunks|
  {
    Clobbers(|Flatten(chunks[..k])| % 2 == 1, |chunks[k]|, cap)
  }

  ghost predicate SafeSplit(chunks: seq<seq<Byte>>, cap: nat) {
    forall k: nat :: k < |chunks| ==> !ClobbersAt(chunks, cap, k)
  }

  lemma {:induction false} SafeSplitIsExact(chunks: seq<seq<Byte>>, cap: nat)
    requires SafeSplit(chunks, cap)
    ensures ByteExact(chunks, cap)
    decreases |chunks|
  {
    if chunks != [] {
      var n := |chunks| - 1;
      var init, chunk := chunks[..n], chunks[n];
      forall k: nat | k < n ensures !ClobbersAt(init, cap, k) {
        assert init[..k] == chunks[..k];
        assert !ClobbersAt(chunks, cap, k);
      }
      SafeSplitIsExact(init, cap);
      assert !ClobbersAt(chunks, cap, n);
      hide After, Flatten, Resampled, Decoded, Even;
      StreamLength(init, cap);
      FlattenInit(chunks);
      OneMoreRead(chunks, cap);
      WholeBody(Flatten(init), After(init, cap).carry, chunk, cap);
    } else {
      NoBytes();
    }
  }

  /** An undamaged read continues the whole pairs of what was received. */
  lemma WholeBody(before: seq<Byte>, carry: seq<Byte>, chunk: seq<Byte>, cap: nat)
    requires carry == before[Even(|before|)..] && !Clobbers(|before| % 2 == 1, |chunk|, cap)
    ensures |carry| <= 1
    ensures var all := before + chunk;
            before[..Even(|before|)] + Body(carry, chunk, cap) == all[..Even(|all|)]
  {
    var all, e := before + chunk, Even(|before|);
    Halving(before, chunk);
    assert Body(carry, chunk, cap) == all[e..Even(|all|)];
    assert before[..e] == all[..e];
  }

  // Content that shows the damage: zeros up to read k, ones from there on.

  function Marked(chunks: seq<seq<Byte>>, k: nat): seq<seq<Byte>> {
    seq(|chunks|, i requires 0 <= i < |chunks| => seq(|chunks[i]|, _ => if i < k then 0 else 1))
  }

  ghost predicate SameSizes(a: seq<seq<Byte>>, b: seq<seq<Byte>>) {
    |a| == |b| && forall i :: 0 <= i < |a| ==> |a[i]| == |b[i]|
  }

  lemma {:induction false} SameTotal(a: seq<seq<Byte>>, b: seq<seq<Byte>>)
    requires SameSizes(a, b)
    ensures |Flatten(a)| == |Flatten(b)|
    decreases |a|
  {
    if a != [] {
      SameTotal(a[1..], b[1..]);
    }
  }

  ghost predicate AllZero(s: seq<Byte>) { forall i :: 0 <= i < |s| ==> s[i] == 0 }

  lemma {:induction false} ZerosStayZero(chunks: seq<seq<Byte>>, cap: nat)
    requires forall i :: 0 <= i < |chunks| ==> AllZero(chunks[i])
    ensures AllZero(After(chunks, cap).bytes) && AllZero(After(chunks, cap).carry) && AllZero(Flatten(chunks))
    decreases |chunks|
  {
    if chunks != [] {
      var init, chunk := chunks[..|chunks| - 1], chunks[|chunks| - 1];
      ZerosStayZero(init, cap);
      hide After, Flatten, Resampled, Decoded, Body, Carry;
      FlattenInit(chunks);
      OneMoreRead(chunks, cap);
      ZeroBody(After(init, cap).carry, chunk, cap);
    }
  }

  lemma ZeroBody(carry: seq<Byte>, chunk: seq<Byte>, cap: nat)
    requires |carry| <= 1 && AllZero(carry) && AllZero(chunk)
    ensures AllZero(Body(carry, chunk, cap)) && AllZero(Carry(carry, chunk))
  {
    assert AllZero(carry + chunk);
  }

  lemma ShortReadDamages(chunks: seq<seq<Byte>>, cap: nat, k: nat)
    requires k < |chunks| && ClobbersAt(chunks, cap, k)
    ensures SameSizes(chunks, Marked(chunks, k)) && !ByteExact(Marked(chunks, k), cap)
  {
    hide After, Flatten;
    var m := Marked(chunks, k);
    var before := m[..k];
    SameTotal(chunks[..k], before);
    forall i | 0 <= i < k ensures AllZero(before[i]) {}
    ZerosStayZero(before, cap);
    StreamLength(before, cap);
    DamagedByte(m, cap, k);
    StreamLength(m, cap);
    FirstBytes(m, k, |After(before, cap).bytes|);
  }

  lemma FirstBytes(m: seq<seq<Byte>>, k: nat, p: nat)
    requires k <= |m| && p < |Flatten(m[..k])|
    ensures p < |Flatten(m)| && Flatten(m)[p] == Flatten(m[..k])[p]
  {
    hide Flatten;
    FlattenConcat(m[..k], m[k..]);
    assert m == m[..k] + m[k..];
  }

  lemma DamagedByte(m: seq<seq<Byte>>, cap: nat, k: nat)
    requires k < |m| && |After(m[..k], cap).carry| == 1 && Clobbers(true, |m[k]|, cap) && m[k][|m[k]| - 1] == 1
    ensures var p := |After(m[..k], cap).bytes|;
            p < |After(m, cap).bytes| && After(m, cap).bytes[p] == 1
  {
    NextRead(m, cap, k);
    PcmGrows(m, cap, k + 1);
  }

  /** The decoded byte stream is right for every content exactly when no even-sized read that
      fits the carry slice's capacity arrives while a byte is carried. */
  lemma ExactForAllContents(chunks: seq<seq<Byte>>, cap: nat)
    ensures SafeSplit(chunks, cap) <==> forall other :: SameSizes(chunks, other) ==> ByteExact(other, cap)
  {
    if SafeSplit(chunks, cap) {
      forall other | SameSizes(chunks, other) ensures ByteExact(other, cap) {
        forall k: nat | k < |other| ensures !ClobbersAt(other, cap, k) {
          SameTotal(chunks[..k], other[..k]);
          assert !ClobbersAt(chunks, cap, k);
        }
        SafeSplitIsExact(other, cap);
      }
    } else {
      var k: nat :| k < |chunks| && ClobbersAt(chunks, cap, k);
      ShortReadDamages(chunks, cap, k);
    }
  }

  /** Two safe splits of one byte stream give the same decoded bytes, equally many output
      samples, and the same even-indexed ones. */
  lemma SplitInvariance(a: seq<seq<Byte>>, b: seq<seq<Byte>>, cap: nat)
    requires Flatten(a) == Flatten(b) && SafeSplit(a, cap) && SafeSplit(b, cap)
    ensures var p, q := After(a, cap), After(b, cap);
            && p.bytes == q.bytes && p.carry == q.carry && |p.pcm| == |q.pcm|
            && forall i: nat :: i < |Flatten(a)| / 2 ==> 2 * i < |p.pcm| && p.pcm[2 * i] == q.pcm[2 * i]
  {
    SafeSplitIsExact(a, cap);
    SafeSplitIsExact(b, cap);
    StreamLength(a, cap);
    StreamLength(b, cap);
    forall i: nat | i < |Flatten(a)| / 2
      ensures 2 * i < |After(a, cap).pcm| && After(a, cap).pcm[2 * i] == After(b, cap).pcm[2 * i]
    {
      EvenSamples(a, cap, i);
      EvenSamples(b, cap, i);
    }
  }

  // ---- The sample format ----

  /** A 16-bit sample as it travels: low byte first. */
  function Encoded(x: int): seq<Byte>
    requires -0x8000 <= x < 0x8000
  {
    var u := if x < 0 then x + 0x1_0000 else x;
    [u % 256, u / 256]
  }

  function EncodedAll(s: seq<int>): seq<Byte>
    requires forall i :: 0 <= i < |s| ==> -0x8000 <= s[i] < 0x8000
  {
    if s == [] then [] else Encoded(s[0]) + EncodedAll(s[1..])
  }

  /** Decoding gives back every sample that was encoded, sign included. */
  lemma {:induction false} DecodesWhatWasEncoded(s: seq<int>)
    requires forall i :: 0 <= i < |s| ==> -0x8000 <= s[i] < 0x8000
    ensures Decoded(EncodedAll(s)) == s
    decreases |s|
  {
    if s != [] {
      DecodesWhatWasEncoded(s[1..]);
      var head, tail := Encoded(s[0]), EncodedAll(s[1..]);
      assert EncodedAll(s) == head + tail;
      DecodedPair(head, tail);
      assert Sample(head[0], head[1]) == s[0];
    }
  }

  lemma DecodedPair(head: seq<Byte>, tail: seq<Byte>)
    requires |head| == 2
    ensures Decoded(head + tail) == [Sample(head[0], head[1])] + Decoded(tail)
  {
    var all := head + tail;
    hide Sample;
    forall i | 0 <= i < |all| / 2 ensures Decoded(all)[i] == ([Sample(head[0], head[1])] + Decoded(tail))[i] {
      if i > 0 {
        assert all[2 * i] == tail[2 * (i - 1)] && all[2 * i + 1] == tail[2 * (i - 1) + 1];
      }
    }
  }
}
