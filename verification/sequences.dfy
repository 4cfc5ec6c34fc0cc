// Facts about sequences of anything.
module Sequences {

  lemma Regroup<T>(x: seq<T>, y: seq<T>, z: seq<T>)
    ensures (x + y) + z == x + (y + z)
  {
  }

  /** Two sequences that agree at a position and behind it agree from there on. */
  lemma TailsMeet<T>(a: seq<T>, b: seq<T>, i: nat)
    requires i < |a| && i < |b| && a[i] == b[i] && a[i + 1..] == b[i + 1..]
    ensures a[i..] == b[i..]
  {
    assert a[i..] == [a[i]] + a[i + 1..] && b[i..] == [b[i]] + b[i + 1..];
  }

  lemma SliceOfSlice<T>(s: seq<T>, from: nat, to: nat, low: nat, high: nat)
    requires from <= to <= |s| && low <= high <= to - from
    ensures s[from..to][low..high] == s[from + low..from + high]
  {
    var x, y := s[from..to][low..high], s[from + low..from + high];
    assert |x| == |y|;
    forall i | 0 <= i < |x|
      ensures x[i] == y[i]
    {
      assert x[i] == s[from..to][low + i];
    }
    assert x == y;
  }

  lemma FourParts<T>(s: seq<T>, i: nat, j: nat, k: nat, n: nat)
    requires i <= j <= k <= n <= |s|
    ensures s[..n] == s[..i] + s[i..j] + s[j..k] + s[k..n]
  {
  }
}
