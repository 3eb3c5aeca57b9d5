/** Small facts about sequence slicing and concatenation. */
module Sequences {

  lemma SliceCons<T>(xs: seq<T>, i: nat)
    requires i < |xs|
    ensures xs[i..] == [xs[i]] + xs[i + 1..]
  {
  }

  lemma SlicePush<T>(xs: seq<T>, i: nat)
    requires i < |xs|
    ensures xs[..i + 1] == xs[..i] + [xs[i]]
  {
  }

  lemma ConsIndex<T>(x: T, f: seq<T>)
    ensures |[x] + f| == 1 + |f| && ([x] + f)[0] == x && ([x] + f)[1..] == f
    ensures forall i | 1 <= i < 1 + |f| :: ([x] + f)[i] == f[i - 1]
  {
  }

  lemma AppendAssoc<T>(a: seq<T>, b: seq<T>, c: seq<T>)
    ensures (a + b) + c == a + (b + c)
  {
  }

  lemma TakeDrop<T>(xs: seq<T>, k: nat)
    requires k <= |xs|
    ensures xs[..k] + xs[k..] == xs
  {
  }
}
