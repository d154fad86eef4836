/** The transcript recorder: it numbers lines and keeps a bounded history. */
module Transcript {
  import opened Common

  datatype Line = Line(sq: nat, role: string, text: string)

  datatype Rec = Rec(sq: nat, history: seq<Line>)

  const HISTORY_LIMIT := 256

  function Recorded(r: Rec, role: string, text: string): Rec {
    Rec(r.sq + 1, LastN(r.history + [Line(r.sq + 1, role, text)], HISTORY_LIMIT))
  }

  /** The lines after a seq, as both replay loops collect them. */
  function Newer(lines: seq<Line>, after: nat): seq<Line>
    decreases |lines|
  {
    if lines == [] then []
    else
      var last := lines[|lines| - 1];
      Newer(lines[..|lines| - 1], after) + if last.sq > after then [last] else []
  }

  class Recorder {
    var sq: nat
    var history: seq<Line>

    ghost function Model(): Rec
      reads this
    {
      Rec(sq, history)
    }

    constructor (startSeq: nat, initial: seq<Line>)
      ensures Model() == Rec(startSeq, initial)
    {
      sq, history := startSeq, initial;
    }

    method Record(role: string, text: string) returns (line: Line)
      modifies this
      ensures Model() == Recorded(old(Model()), role, text)
      ensures line == Line(sq, role, text) && sq == old(sq) + 1
    {
      sq := sq + 1;
      line := Line(sq, role, text);
      history := history + [line];
      var extra := |history| - HISTORY_LIMIT;
      if extra > 0 {
        history := history[extra..];
      }
    }

    method Snapshot(after: nat) returns (out: seq<Line>)
      ensures out == Newer(history, after)
    {
      out := CollectNewer(history, after);
    }

    method FullHistory() returns (h: seq<Line>)
      ensures h == Model().history
    {
      h := history;
    }

    method MaxSeq() returns (q: nat)
      ensures q == Model().sq
    {
      q := sq;
    }
  }

  method CollectNewer(lines: seq<Line>, after: nat) returns (out: seq<Line>)
    ensures out == Newer(lines, after)
  {
    out := [];
    var i := 0;
    while i < |lines|
      invariant 0 <= i <= |lines|
      invariant out == Newer(lines[..i], after)
    {
      assert lines[..i + 1][..i] == lines[..i];
      if lines[i].sq > after {
        out := out + [lines[i]];
      }
      i := i + 1;
    }
    assert lines[..i] == lines;
  }

  // ---- The log a recorder stands for ----

  datatype Turn = Turn(role: string, text: string)

  /** The ever-growing log, with the seqs it should have: 1, 2, 3, ... */
  function Lines(log: seq<Turn>): seq<Line> {
    seq(|log|, i requires 0 <= i < |log| => Line(i + 1, log[i].role, log[i].text))
  }

  /** The recorder has assigned the seqs up to the length of the log and keeps its last lines. */
  ghost predicate Represents(r: Rec, log: seq<Turn>) {
    r.sq == |log| && r.history == LastN(Lines(log), HISTORY_LIMIT)
  }

  lemma RecordExtendsLog(r: Rec, log: seq<Turn>, role: string, text: string)
    requires Represents(r, log)
    ensures Represents(Recorded(r, role, text), log + [Turn(role, text)])
  {
    assert Lines(log + [Turn(role, text)]) == Lines(log) + [Line(|log| + 1, role, text)];
  }

  /** lines without the first k. */
  function Without(lines: seq<Line>, k: int): seq<Line> {
    if k <= 0 then lines else if k > |lines| then [] else lines[k..]
  }

  lemma WithoutSnoc(lines: seq<Line>, x: Line, k: int)
    ensures Without(lines + [x], k) == if k <= |lines| then Without(lines, k) + [x] else []
  {
  }

  lemma {:induction false} NewerOfLines(lines: seq<Line>, first: nat, after: nat)
    requires forall i :: 0 <= i < |lines| ==> lines[i].sq == first + i
    ensures Newer(lines, after) == Without(lines, after - first + 1)
    decreases |lines|
  {
    if lines != [] {
      hide Newer, Without;
      var n := |lines| - 1;
      var init := lines[..n];
      assert forall i :: 0 <= i < n ==> init[i] == lines[i];
      assert lines[n].sq == first + n;
      NewerOfLines(init, first, after);
      NewerInit(lines, after);
      assert lines == lines[..n] + [lines[n]];
      WithoutSnoc(lines[..n], lines[n], after - first + 1);
    }
  }

  lemma NewerInit(lines: seq<Line>, after: nat)
    requires lines != []
    ensures var n := |lines| - 1;
            Newer(lines, after) ==
            if lines[n].sq > after then Newer(lines[..n], after) + [lines[n]] else Newer(lines[..n], after)
  {
    assert Newer(lines[..|lines| - 1], after) + [] == Newer(lines[..|lines| - 1], after);
  }

  /** A client holding the first k lines is sent exactly what it misses when the history still
      reaches back that far, and otherwise the whole retained history. */
  lemma MissingSuffix(log: seq<Turn>, k: nat)
    requires k <= |log|
    ensures Newer(LastN(Lines(log), HISTORY_LIMIT), k) ==
            if |log| - HISTORY_LIMIT <= k then Lines(log)[k..] else LastN(Lines(log), HISTORY_LIMIT)
  {
    hide Newer, LastN, Lines, Without;
    var kept := LastN(Lines(log), HISTORY_LIMIT);
    KeptSeqs(log);
    NewerOfLines(kept, |log| - |kept| + 1, k);
    WithoutOfLast(Lines(log), HISTORY_LIMIT, k);
  }

  lemma KeptSeqs(log: seq<Turn>)
    ensures |Lines(log)| == |log|
    ensures var kept := LastN(Lines(log), HISTORY_LIMIT);
            forall i :: 0 <= i < |kept| ==> kept[i].sq == |log| - |kept| + 1 + i
  {
  }

  lemma WithoutOfLast(lines: seq<Line>, n: nat, k: nat)
    requires k <= |lines|
    ensures Without(LastN(lines, n), k - (|lines| - |LastN(lines, n)|)) ==
            if |lines| - n <= k then lines[k..] else LastN(lines, n)
  {
    var kept := LastN(lines, n);
    var cut := |lines| - |kept|;
    assert kept == lines[cut..];
    if k >= cut {
      assert kept[k - cut..] == lines[k..];
    }
  }

  /** For every k: exactly the missing suffix is sent if and only if k is within the history. */
  lemma MissingSuffixExactly(log: seq<Turn>, k: nat)
    requires k <= |log|
    ensures Newer(LastN(Lines(log), HISTORY_LIMIT), k) == Lines(log)[k..] <==> |log| - HISTORY_LIMIT <= k
  {
    MissingSuffix(log, k);
  }
}
