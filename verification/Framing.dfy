/** Cutting a sample stream into fixed-size frames: what both framing loops compute. */
module Framing {
  import opened Common

  const FRAME_SAMPLES := 960 // 20 ms at 48 kHz

  /** The successive full frames of s. */
  function Frames(s: seq<int>): seq<seq<int>>
    decreases |s|
  {
    if |s| < FRAME_SAMPLES then [] else [s[..FRAME_SAMPLES]] + Frames(s[FRAME_SAMPLES..])
  }

  /** What is left after the last full frame. */
  function Rest(s: seq<int>): seq<int>
    decreases |s|
  {
    if |s| < FRAME_SAMPLES then s else Rest(s[FRAME_SAMPLES..])
  }

  /** Framing loses and reorders nothing, every frame is full and the rest is shorter than one. */
  lemma {:induction false} FramesPartition(s: seq<int>)
    ensures Flatten(Frames(s)) + Rest(s) == s
    ensures forall f <- Frames(s) :: |f| == 960
    ensures |Rest(s)| < FRAME_SAMPLES && |Frames(s)| == |s| / FRAME_SAMPLES
    decreases |s|
  {
    if |s| >= FRAME_SAMPLES {
      var tail := s[FRAME_SAMPLES..];
      FramesPartition(tail);
      assert Frames(s)[1..] == Frames(tail);
      assert s == s[..FRAME_SAMPLES] + tail;
    }
  }

  /** Framing a concatenation resumes from the rest, so it does not matter where a stream was cut. */
  lemma {:induction false} FramesResume(a: seq<int>, b: seq<int>)
    ensures Frames(a + b) == Frames(a) + Frames(Rest(a) + b)
    ensures Rest(a + b) == Rest(Rest(a) + b)
    decreases |a|
  {
    if |a| >= FRAME_SAMPLES {
      var tail := a[FRAME_SAMPLES..];
      FramesResume(tail, b);
      assert (a + b)[..FRAME_SAMPLES] == a[..FRAME_SAMPLES];
      assert (a + b)[FRAME_SAMPLES..] == tail + b;
    }
  }
}
