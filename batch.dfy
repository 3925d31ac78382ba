/** The batch discipline of the stream monitor: entries are buffered and
    handed on in groups of a fixed size, and whatever is left when the
    stream ends goes out as one last, smaller group. */
module Batch {

  /** All the batches, one after the other. */
  function Flatten<T>(bs: seq<seq<T>>): seq<T> {
    if bs == [] then [] else bs[0] + Flatten(bs[1..])
  }

  /** The batches flushed for the accepted entries `xs`: full batches of
      `size` while more than `size` remain, then the rest if there is any. */
  function Batches<T>(xs: seq<T>, size: nat): seq<seq<T>>
    requires size > 0
    decreases |xs|
  {
    if |xs| <= size then
      if xs == [] then [] else [xs]
    else
      [xs[..size]] + Batches(xs[size..], size)
  }

  lemma {:induction false} FlattenConcat<T>(a: seq<seq<T>>, b: seq<seq<T>>)
    ensures Flatten(a + b) == Flatten(a) + Flatten(b)
    decreases |a|
  {
    if a == [] {
      assert a + b == b;
    } else {
      assert (a + b)[1..] == a[1..] + b;
      FlattenConcat(a[1..], b);
    }
  }

  /** Nothing is lost, duplicated or reordered: the batches, one after the
      other, are exactly the entries. */
  lemma {:induction false} FlattenBatches<T>(xs: seq<T>, size: nat)
    requires size > 0
    ensures Flatten(Batches(xs, size)) == xs
    decreases |xs|
  {
    if |xs| > size {
      FlattenBatches(xs[size..], size);
      assert xs[..size] + xs[size..] == xs;
    }
  }

  /** Every batch but the last holds exactly `size` entries; the last holds
      between one and `size`, so no empty batch is ever flushed. */
  lemma {:induction false} BatchSizes<T>(xs: seq<T>, size: nat)
    requires size > 0
    ensures var bs := Batches(xs, size);
            forall k :: 0 <= k < |bs| ==> 0 < |bs[k]| <= size && (k < |bs| - 1 ==> |bs[k]| == size)
    decreases |xs|
  {
    if |xs| > size {
      BatchSizes(xs[size..], size);
      var bs := Batches(xs, size);
      assert bs[1..] == Batches(xs[size..], size);
      forall k | 0 <= k < |bs|
        ensures 0 < |bs[k]| <= size && (k < |bs| - 1 ==> |bs[k]| == size)
      {
        if k > 0 { assert bs[k] == bs[1..][k - 1]; }
      }
    }
  }

  /** N entries make ceil(N / size) batches. */
  lemma {:induction false} BatchCount<T>(xs: seq<T>, size: nat)
    requires size > 0
    ensures |Batches(xs, size)| == (|xs| + size - 1) / size
    decreases |xs|
  {
    var n := |xs|;
    if n == 0 {
      DivInRange(size - 1, size, 0);
    } else if n <= size {
      DivInRange(n + size - 1, size, 1);
    } else {
      BatchCount(xs[size..], size);
      assert |Batches(xs, size)| == 1 + (n - 1) / size;
      DivShift(n - 1, size);
      assert n + size - 1 == (n - 1) + size;
    }
  }

  lemma DivInRange(a: int, d: int, q: int)
    requires d > 0 && q * d <= a < (q + 1) * d
    ensures a / d == q
  {
    var p, r := a / d, a % d;
    assert a == p * d + r && 0 <= r < d;
    if p > q {
      MulMono(q + 1, p, d);
      assert false;
    }
    if p < q {
      MulMono(p + 1, q, d);
      MulSucc(p, d);
      assert false;
    }
  }

  lemma MulMono(x: int, y: int, d: int)
    requires x <= y && d > 0
    ensures x * d <= y * d
  {
    assert y * d - x * d == (y - x) * d;
  }

  lemma MulSucc(x: int, d: int)
    ensures (x + 1) * d == x * d + d
  {
  }

  lemma DivShift(a: int, d: int)
    requires d > 0 && a >= 0
    ensures (a + d) / d == a / d + 1
  {
    var q, r := a / d, a % d;
    assert a == q * d + r && 0 <= r < d;
    assert a + d == (q + 1) * d + r;
    DivInRange(a + d, d, q + 1);
  }

  /** The monitor's running state determines the whole answer: full
      batches already flushed, followed by a short remainder, are what
      Batches gives for all of those entries together. */
  lemma {:induction false} BatchesOfFull<T>(full: seq<seq<T>>, rest: seq<T>, size: nat)
    requires size > 0
    requires forall k :: 0 <= k < |full| ==> |full[k]| == size
    requires |rest| < size
    ensures Batches(Flatten(full) + rest, size) == full + (if rest == [] then [] else [rest])
    decreases |full|
  {
    if full != [] {
      var xs := Flatten(full) + rest;
      assert xs == full[0] + (Flatten(full[1..]) + rest);
      assert xs[..size] == full[0];
      assert xs[size..] == Flatten(full[1..]) + rest;
      BatchesOfFull(full[1..], rest, size);
      assert full == [full[0]] + full[1..];
    } else {
      assert Flatten(full) + rest == rest;
    }
  }
}
