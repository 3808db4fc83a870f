/** What several modules share. */
module Basics {
  datatype Option<T> = None | Some(value: T)

  /** 32-bit unsigned arithmetic is modulo this. */
  const UINT_RANGE: nat := 0x1_0000_0000

  function Elements<T>(s: seq<T>): set<T> {
    set x | x in s
  }

  ghost predicate Distinct<T>(s: seq<T>) {
    forall a, b | 0 <= a < b < |s| :: s[a] != s[b]
  }

  /** Positions of a sequence of length n, in order and without repetition. */
  ghost predicate Increasing(ix: seq<nat>, n: nat) {
    (forall a, b | 0 <= a < b < |ix| :: ix[a] < ix[b]) && forall a | 0 <= a < |ix| :: ix[a] < n
  }

  /** The elements at these positions. */
  function Pick<T>(s: seq<T>, ix: seq<nat>): (r: seq<T>)
    requires forall a | 0 <= a < |ix| :: ix[a] < |s|
    ensures |r| == |ix|
  {
    seq(|ix|, a requires 0 <= a < |ix| => s[ix[a]])
  }

  lemma IncreasingSnoc(ix: seq<nat>, n: nat)
    requires Increasing(ix, n)
    ensures Increasing(ix, n + 1) && Increasing(ix + [n], n + 1)
  {
  }

  lemma {:induction false} IncreasingLength(ix: seq<nat>, n: nat)
    requires Increasing(ix, n)
    ensures |ix| <= n
    decreases |ix|
  {
    if ix != [] {
      var last := |ix| - 1;
      IncreasingLength(ix[..last], ix[last]);
    }
  }

  /** The positions below n - 1, of those below n. */
  lemma IncreasingFront(ix: seq<nat>, n: nat) returns (front: seq<nat>)
    requires n > 0 && Increasing(ix, n)
    ensures Increasing(front, n - 1) && ix == if n - 1 in ix then front + [n - 1] else front
    ensures forall m | 0 <= m < n - 1 :: m in front <==> m in ix
  {
    if n - 1 in ix {
      var a :| 0 <= a < |ix| && ix[a] == n - 1;
      var last := |ix| - 1;
      assert ix[last] < n;
      assert a == last;
      front := ix[..a];
    } else {
      front := ix;
    }
  }
}
