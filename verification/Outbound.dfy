/**
 The outbound pump: receive PCM, cut it into frames, encode and write each at the tick.
 What the receiver, encoder, track and scheduler do is given by oracles: the chunks received
 before Recv fails, and, by call number, whether an encode or a write succeeds and whether the
 wait after a write ends by the tick or by cancellation.
 */
module Outbound {
  import opened Common
  import opened Framing

  datatype Exit = RecvFailed | WriteFailed | Cancelled

  datatype Env = Env(chunks: seq<seq<int>>, encodes: nat -> bool, writes: nat -> bool, ticks: nat -> bool)

  /** The frames that got through the encoder, by call number. */
  function Encodable(frames: seq<seq<int>>, encodes: nat -> bool): seq<seq<int>>
    decreases |frames|
  {
    if frames == [] then []
    else Encodable(frames[..|frames| - 1], encodes)
         + if encodes(|frames| - 1) then [frames[|frames| - 1]] else []
  }

  datatype Outcome = Outcome(exit: Exit, produced: bool, fault: Option<bool>,
                             encoded: seq<seq<int>>, written: seq<seq<int>>, buf: seq<int>)

  /** What the pump promises. */
  ghost predicate Promised(env: Env, o: Outcome) {
    var stream := Flatten(env.chunks);
    // what reaches the encoder is always a prefix of the frames of the whole stream
    && o.encoded <= Frames(stream)
    && (o.exit == RecvFailed ==> o.encoded == Frames(stream) && o.buf == Rest(stream) && |o.buf| < FRAME_SAMPLES)
    // one frame is written per successful encode, in order
    && (if o.exit == WriteFailed
        then o.encoded != [] && o.written + [o.encoded[|o.encoded| - 1]] == Encodable(o.encoded, env.encodes)
        else o.written == Encodable(o.encoded, env.encodes))
    // which calls succeeded decides where it stops
    && (forall k: nat :: k < |o.written| ==> env.writes(k))
    && (forall k: nat :: k + 1 < |o.written| ==> env.ticks(k))
    && (match o.exit
        case RecvFailed => o.written != [] ==> env.ticks(|o.written| - 1)
        case WriteFailed => !env.writes(|o.written|) && (o.written != [] ==> env.ticks(|o.written| - 1))
        case Cancelled => o.written != [] && !env.ticks(|o.written| - 1))
    // what is reported
    && (o.produced <==> o.written != [])
    && o.fault == if o.exit == RecvFailed then Some(o.produced) else None
  }

  ghost predicate AllWentWell(env: Env, written: seq<seq<int>>) {
    forall k: nat :: k < |written| ==> env.writes(k) && env.ticks(k)
  }

  method WriteOutboundLoop(env: Env) returns (o: Outcome)
    ensures Promised(env, o)
  {
    hide Frames, Rest, Flatten, Encodable;
    var produced := false;
    var encoded: seq<seq<int>>, written: seq<seq<int>>, buf := [], [], [];
    var i := 0;
    NothingYet(env.encodes);
    assert env.chunks[..0] == [];
    while i < |env.chunks|
      invariant 0 <= i <= |env.chunks|
      invariant encoded == Frames(Flatten(env.chunks[..i])) && buf == Rest(Flatten(env.chunks[..i]))
      invariant written == Encodable(encoded, env.encodes)
      invariant AllWentWell(env, written)
      invariant produced <==> written != []
    {
      ghost var upTo := Flatten(env.chunks[..i + 1]);
      NextChunk(env.chunks, i);
      PrefixFrames(env.chunks, i + 1);
      buf := buf + env.chunks[i];
      while |buf| >= FRAME_SAMPLES
        invariant encoded + Frames(buf) == Frames(upTo) && Rest(buf) == Rest(upTo)
        invariant written == Encodable(encoded, env.encodes)
        invariant AllWentWell(env, written)
        invariant produced <==> written != []
      {
        NextFrame(encoded, buf, upTo);
        var frame := buf[..FRAME_SAMPLES];
        var ok := env.encodes(|encoded|);
        EncodeNext(encoded, frame, env.encodes);
        encoded := encoded + [frame];
        buf := buf[FRAME_SAMPLES..];
        if !ok {
          continue;
        }
        if !env.writes(|written|) {
          return Outcome(WriteFailed, produced, None, encoded, written, buf);
        }
        written := written + [frame];
        produced := true;
        if !env.ticks(|written| - 1) {
          return Outcome(Cancelled, produced, None, encoded, written, buf);
        }
      }
      ShortBuffer(buf);
      i := i + 1;
    }
    assert env.chunks[..i] == env.chunks;
    FramesPartition(Flatten(env.chunks));
    return Outcome(RecvFailed, produced, Some(produced), encoded, written, buf);
  }

  lemma EncodeNext(encoded: seq<seq<int>>, frame: seq<int>, encodes: nat -> bool)
    ensures Encodable(encoded + [frame], encodes)
            == Encodable(encoded, encodes) + if encodes(|encoded|) then [frame] else []
  {
    assert (encoded + [frame])[..|encoded|] == encoded;
  }

  lemma NothingYet(encodes: nat -> bool)
    ensures Encodable([], encodes) == []
    ensures Frames(Flatten([])) == [] && Rest(Flatten([])) == []
  {
  }

  lemma ShortBuffer(buf: seq<int>)
    requires |buf| < FRAME_SAMPLES
    ensures Frames(buf) == [] && Rest(buf) == buf
  {
  }

  lemma NextFrame(encoded: seq<seq<int>>, buf: seq<int>, upTo: seq<int>)
    requires |buf| >= FRAME_SAMPLES && encoded + Frames(buf) == Frames(upTo)
    ensures (encoded + [buf[..FRAME_SAMPLES]]) + Frames(buf[FRAME_SAMPLES..]) == Frames(upTo)
    ensures Rest(buf[FRAME_SAMPLES..]) == Rest(buf)
  {
  }

  lemma NextChunk(chunks: seq<seq<int>>, i: nat)
    requires i < |chunks|
    ensures var before, upTo := Flatten(chunks[..i]), Flatten(chunks[..i + 1]);
            && Frames(upTo) == Frames(before) + Frames(Rest(before) + chunks[i])
            && Rest(upTo) == Rest(Rest(before) + chunks[i])
  {
    hide Frames, Rest, Flatten;
    var before := chunks[..i];
    assert chunks[..i + 1] == before + [chunks[i]];
    FlattenSnoc(before, chunks[i]);
    FramesResume(Flatten(before), chunks[i]);
  }

  lemma PrefixFrames(chunks: seq<seq<int>>, i: nat)
    requires i <= |chunks|
    ensures Frames(Flatten(chunks[..i])) <= Frames(Flatten(chunks))
  {
    hide Frames, Rest, Flatten;
    var p, q := chunks[..i], chunks[i..];
    assert chunks == p + q;
    FlattenConcat(p, q);
    FramesResume(Flatten(p), Flatten(q));
    assert Frames(Flatten(chunks)) == Frames(Flatten(p)) + Frames(Rest(Flatten(p)) + Flatten(q));
  }

  /** The promise leaves nothing open, and it only depends on the stream: two runs over
      differently cut copies of one stream, undisturbed by write errors and cancellation, encode,
      write, keep and report the same. */
  lemma ChunkInvariance(a: Env, b: Env, oa: Outcome, ob: Outcome)
    requires Flatten(a.chunks) == Flatten(b.chunks) && a.encodes == b.encodes
    requires forall k: nat :: a.writes(k) && b.writes(k) && a.ticks(k) && b.ticks(k)
    requires Promised(a, oa) && Promised(b, ob)
    ensures oa == ob && oa.exit == RecvFailed && oa.encoded == Frames(Flatten(a.chunks))
  {
  }

  /** Encoding never repeats a frame, and every frame is written exactly when no encode fails. */
  lemma {:induction false} WrittenFrames(frames: seq<seq<int>>, encodes: nat -> bool)
    ensures var w := Encodable(frames, encodes);
            && |w| <= |frames|
            && (|w| == |frames| ==> w == frames)
            && (|w| == |frames| <==> forall k: nat :: k < |frames| ==> encodes(k))
    decreases |frames|
  {
    if frames != [] {
      var n := |frames| - 1;
      var init := frames[..n];
      WrittenFrames(init, encodes);
      assert frames == init + [frames[n]];
      if encodes(n) {
        assert Encodable(frames, encodes) == Encodable(init, encodes) + [frames[n]];
      }
    }
  }

  function Successes(encodes: nat -> bool, k: nat): nat {
    if k == 0 then 0 else Successes(encodes, k - 1) + if encodes(k - 1) then 1 else 0
  }

  /** The frames written are exactly those whose encode succeeded, each in its turn. */
  lemma {:induction false} WrittenAreTheEncoded(frames: seq<seq<int>>, encodes: nat -> bool, k: nat)
    requires k < |frames|
    ensures var w := Encodable(frames, encodes);
            && |w| == Successes(encodes, |frames|)
            && (encodes(k) ==> Successes(encodes, k) < |w| && w[Successes(encodes, k)] == frames[k])
    decreases |frames|
  {
    var n := |frames| - 1;
    var init := frames[..n];
    if n > 0 {
      WrittenAreTheEncoded(init, encodes, if k < n then k else 0);
    } else {
      assert init == [];
    }
  }
}
