/** Small shared definitions. */
module Common {

  datatype Option<+T> = None | Some(value: T) {
    predicate IsFailure() { None? }
    function PropagateFailure<U>(): Option<U> { None }
    function Extract(): T
      requires Some?
    {
      value
    }
  }

  /** The last n elements of s, or all of s when it is shorter. */
  function LastN<T>(s: seq<T>, n: nat): (r: seq<T>)
    ensures |r| == if |s| < n then |s| else n
  {
    if |s| <= n then s else s[|s| - n..]
  }

  lemma LastNCons<T>(x: T, s: seq<T>, n: nat)
    requires |s| >= n
    ensures LastN([x] + s, n) == LastN(s, n)
  {
    var i := |s| - n;
    assert ([x] + s)[i + 1..] == s[i..];
  }

  function Flatten<T>(ss: seq<seq<T>>): seq<T> {
    if ss == [] then [] else ss[0] + Flatten(ss[1..])
  }

  lemma {:induction false} FlattenConcat<T>(a: seq<seq<T>>, b: seq<seq<T>>)
    ensures Flatten(a + b) == Flatten(a) + Flatten(b)
    decreases |a|
  {
    if a == [] {
      assert a + b == b;
    } else {
      assert (a + b)[1..] == a[1..] + b;
      FlattenConcat(a[1..], b);
    }
  }

  lemma FlattenSnoc<T>(a: seq<seq<T>>, x: seq<T>)
    ensures Flatten(a + [x]) == Flatten(a) + x
  {
    FlattenConcat(a, [x]);
    assert [x][1..] == [];
  }

  lemma FlattenInit<T>(a: seq<seq<T>>)
    requires a != []
    ensures Flatten(a) == Flatten(a[..|a| - 1]) + a[|a| - 1]
  {
    assert a == a[..|a| - 1] + [a[|a| - 1]];
    FlattenSnoc(a[..|a| - 1], a[|a| - 1]);
  }
}
