/**
 * Small value types shared by every module of the model: an optional value
 * (Python's `None`-or-value results) and the byte type of `bytes` objects.
 */
module Base {
  datatype Option<T> = None | Some(value: T)

  /** One element of a Python `bytes` object. */
  type Byte = x: int | 0 <= x < 256

  /** The Python sequence product `b * n`: `n` copies of `b` back to back. */
  function Repeat<T>(b: seq<T>, n: nat): (r: seq<T>)
    ensures |r| == n * |b|
  {
    if n == 0 then [] else b + Repeat(b, n - 1)
  }

  /** Copy number `k` of `b * n` sits at offset `k * |b|`. */
  lemma {:induction false} RepeatCopy<T>(b: seq<T>, n: nat, k: nat)
    requires k < n
    ensures (k + 1) * |b| <= n * |b|
    ensures Repeat(b, n)[k * |b| .. (k + 1) * |b|] == b
  {
    var rest := Repeat(b, n - 1);
    assert Repeat(b, n) == b + rest;
    if k > 0 {
      RepeatCopy(b, n - 1, k - 1);
      assert (k - 1) * |b| == k * |b| - |b|;
      assert (k + 1) * |b| == k * |b| + |b|;
      assert (b + rest)[k * |b| .. (k + 1) * |b|] == rest[(k - 1) * |b| .. k * |b|];
    } else {
      assert (b + rest)[0 .. |b|] == b;
    }
  }

  /** One more copy goes on the end. */
  lemma {:induction false} RepeatSnoc<T>(b: seq<T>, n: nat)
    ensures Repeat(b, n + 1) == Repeat(b, n) + b
  {
    if n > 0 {
      RepeatSnoc(b, n - 1);
      Assoc(b, Repeat(b, n - 1), b);
    }
  }

  /** Index of the first `True`, or `|bs|` when there is none. */
  function FirstTrue(bs: seq<bool>): (k: nat)
    ensures k <= |bs|
    ensures k < |bs| ==> bs[k]
    ensures forall j :: 0 <= j < k ==> !bs[j]
  {
    if bs == [] || bs[0] then 0 else 1 + FirstTrue(bs[1..])
  }

  lemma {:induction false} FirstTrueAt(bs: seq<bool>, k: nat)
    requires k <= |bs|
    requires k < |bs| ==> bs[k]
    requires forall j :: 0 <= j < k ==> !bs[j]
    ensures FirstTrue(bs) == k
  {
    if k > 0 {
      FirstTrueAt(bs[1..], k - 1);
    }
  }

  /** Concatenation is associative (stated once, for sequences of any element type). */
  lemma Assoc<T>(a: seq<T>, b: seq<T>, c: seq<T>)
    ensures (a + b) + c == a + (b + c)
  {
  }
}
