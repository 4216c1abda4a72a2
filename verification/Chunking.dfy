/** A list cut into pieces of a given size, the last one possibly shorter. */
module Chunking {
  import opened Bytes

  function Flatten<T>(bs: seq<seq<T>>): seq<T> {
    if bs == [] then [] else bs[0] + Flatten(bs[1..])
  }

  function Chunks<T>(s: seq<T>, k: nat): (bs: seq<seq<T>>)
    requires k >= 1
    ensures Flatten(bs) == s
    ensures forall i :: 0 <= i < |bs| ==> 1 <= |bs[i]| <= k
    decreases |s|
  {
    if s == [] then [] else
    if |s| <= k then
      assert [s][1..] == [];
      [s]
    else
      var rest := Chunks(s[k..], k);
      assert ([s[..k]] + rest)[1..] == rest;
      assert s == s[..k] + s[k..];
      [s[..k]] + rest
  }

  /** The number of pieces is the length divided by the size, rounded up. */
  lemma {:induction false} ChunkCount<T>(s: seq<T>, k: nat)
    requires k >= 1
    ensures |Chunks(s, k)| == (|s| + k - 1) / k
    decreases |s|
  {
    if s == [] {
      ModUnique(k - 1, k, 0, k - 1);
    } else if |s| <= k {
      ModUnique(|s| + k - 1, k, 1, |s| - 1);
    } else {
      ChunkCount(s[k..], k);
      DivStep(|s| - 1, k);
    }
  }

  lemma {:induction false} DivStep(n: nat, k: nat)
    requires k >= 1
    ensures (n + k) / k == n / k + 1
  {
    var q := n / k;
    assert n == k * q + n % k;
    assert k * (q + 1) == k * q + k;
    ModUnique(n + k, k, q + 1, n % k);
  }

  /** All pieces but the last are full. */
  lemma {:induction false} ChunksFull<T>(s: seq<T>, k: nat)
    requires k >= 1 && s != []
    ensures |Chunks(s, k)| >= 1 && (|Chunks(s, k)| - 1) * k < |s|
  {
    ChunkCount(s, k);
    RoundedUp(|s|, k);
  }

  lemma {:induction false} RoundedUp(n: nat, k: nat)
    requires k >= 1 && n >= 1
    ensures (n + k - 1) / k >= 1 && ((n + k - 1) / k - 1) * k < n
  {
    DivStep(n - 1, k);
    assert n - 1 == (n - 1) / k * k + (n - 1) % k;
  }
}
