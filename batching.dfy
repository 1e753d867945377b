/** Cutting the rows of a run into consecutive batches, and the progress
    percentage shown after each record. */
module Batching {
  import opened Seqs

  /** The batches `s.slice(i, i + size)` for `i = 0, size, 2 * size, ...`
      while `i < |s|`. */
  function Slices<T>(s: seq<T>, size: nat): seq<seq<T>>
    requires size > 0
    decreases |s|
  {
    if s == [] then []
    else if |s| <= size then [s]
    else [s[..size]] + Slices(s[size..], size)
  }

  /** The batches are non-empty, all but the last hold exactly `size` rows,
      there are `ceil(|s| / size)` of them, and together, in order, they are
      `s`: every row is in exactly one batch, at its own position. */
  lemma SlicesPartition<T>(s: seq<T>, size: nat)
    requires size > 0
    ensures Flatten(Slices(s, size)) == s
    ensures |Slices(s, size)| == (|s| + size - 1) / size
    ensures forall b :: 0 <= b < |Slices(s, size)| ==> 0 < |Slices(s, size)[b]| <= size
    ensures forall b :: 0 <= b < |Slices(s, size)| - 1 ==> |Slices(s, size)[b]| == size
  {
    SlicesFlatten(s, size);
    SlicesCount(s, size);
    SlicesSizes(s, size);
  }

  lemma {:induction false} SlicesFlatten<T>(s: seq<T>, size: nat)
    requires size > 0
    ensures Flatten(Slices(s, size)) == s
    decreases |s|
  {
    if s == [] {
    } else if |s| <= size {
      assert Slices(s, size) == [s];
      assert [s][..0] == [];
    } else {
      SlicesFlatten(s[size..], size);
      FlattenCons(s[..size], Slices(s[size..], size));
      assert s[..size] + s[size..] == s;
    }
  }

  lemma {:induction false} SlicesCount<T>(s: seq<T>, size: nat)
    requires size > 0
    ensures |Slices(s, size)| == (|s| + size - 1) / size
    decreases |s|
  {
    if s == [] {
    } else if |s| <= size {
      assert Slices(s, size) == [s];
      DivOfRange(|s| + size - 1, size, 1);
    } else {
      SlicesCount(s[size..], size);
      DivStep(|s| - size + size - 1, size);
      assert |s| + size - 1 == (|s| - size + size - 1) + size;
    }
  }

  lemma {:induction false} SlicesSizes<T>(s: seq<T>, size: nat)
    requires size > 0
    ensures forall b :: 0 <= b < |Slices(s, size)| ==> 0 < |Slices(s, size)[b]| <= size
    ensures forall b :: 0 <= b < |Slices(s, size)| - 1 ==> |Slices(s, size)[b]| == size
    decreases |s|
  {
    if s == [] {
    } else if |s| <= size {
      assert Slices(s, size) == [s];
    } else {
      var rest := Slices(s[size..], size);
      SlicesSizes(s[size..], size);
      assert Slices(s, size) == [s[..size]] + rest;
      assert forall b :: 1 <= b < |Slices(s, size)| ==> Slices(s, size)[b] == rest[b - 1];
    }
  }

  /** The first batch is `s.slice(0, size)` and the rest are the batches of
      what follows it. */
  lemma SlicesHead<T>(s: seq<T>, size: nat)
    requires size > 0 && s != []
    ensures var n := if |s| < size then |s| else size;
      Slices(s, size) == [s[..n]] + Slices(s[n..], size)
  {
    if |s| <= size {
      assert s[..|s|] == s;
      assert s[|s|..] == [];
    }
  }

  /** Taking the next batch off the remaining rows keeps the batches taken
      so far plus the batches of the rest equal to all the batches. */
  lemma SlicesAdvance<T>(s: seq<T>, size: nat, taken: seq<seq<T>>, p: nat, end: nat)
    requires size > 0 && p < |s|
    requires end == if p + size < |s| then p + size else |s|
    requires taken + Slices(s[p..], size) == Slices(s, size)
    ensures (taken + [s[p..end]]) + Slices(s[end..], size) == Slices(s, size)
  {
    SlicesHead(s[p..], size);
    assert s[p..][..end - p] == s[p..end];
    assert s[p..][end - p..] == s[end..];
  }

  lemma DivStep(x: nat, d: nat)
    requires d > 0
    ensures (x + d) / d == x / d + 1
  {
    var q := x / d;
    MulStep(q, d);
    assert q * d <= x < q * d + d;
    DivOfRange(x + d, d, q + 1);
  }

  /** Twenty-five rows in batches of ten give batches of 10, 10 and 5 rows. */
  lemma TwentyFiveInTens<T>(s: seq<T>)
    requires |s| == 25
    ensures |Slices(s, 10)| == 3
    ensures |Slices(s, 10)[0]| == 10 && |Slices(s, 10)[1]| == 10 && |Slices(s, 10)[2]| == 5
  {
    assert Slices(s, 10) == [s[..10]] + Slices(s[10..], 10);
    assert Slices(s[10..], 10) == [s[10..][..10]] + Slices(s[10..][10..], 10);
    assert Slices(s[10..][10..], 10) == [s[10..][10..]];
  }

  /** `Math.round(done / total * 100)` in exact arithmetic: the nearest whole
      percentage, halves rounded up. */
  function Percent(done: nat, total: nat): (r: nat)
    requires total > 0
    ensures 2 * total * r <= 200 * done + total < 2 * total * (r + 1)
  {
    (200 * done + total) / (2 * total)
  }

  /** The percentage grows with the number of records done, starts at 0 and
      reaches 100 with the last record. */
  lemma PercentFacts(a: nat, b: nat, total: nat)
    requires 0 < total && a <= b
    ensures Percent(a, total) <= Percent(b, total)
    ensures Percent(0, total) == 0
    ensures Percent(total, total) == 100
    ensures b <= total ==> Percent(b, total) <= 100
  {
    var d := 2 * total;
    DivMonotone(200 * a + total, 200 * b + total, d);
    assert 200 * total + total == 100 * d + total;
    DivOfRange(200 * total + total, d, 100);
    DivOfRange(total, d, 0);
    if b <= total {
      DivMonotone(200 * b + total, 200 * total + total, d);
    }
  }

  lemma DivMonotone(x: nat, y: nat, d: nat)
    requires d > 0 && x <= y
    ensures x / d <= y / d
  {
    var qx, qy := x / d, y / d;
    assert qx * d <= x && y < qy * d + d;
    if qy < qx {
      MulMonotone(qy + 1, qx, d);
      MulStep(qy, d);
    }
  }

  /** The quotient is the unique `q` with `q * d <= x < (q + 1) * d`. */
  lemma DivOfRange(x: nat, d: nat, q: nat)
    requires d > 0 && q * d <= x < q * d + d
    ensures x / d == q
  {
    var q' := x / d;
    assert q' * d <= x < q' * d + d;
    MulStep(q, d);
    MulStep(q', d);
    if q' < q {
      MulMonotone(q' + 1, q, d);
    } else if q < q' {
      MulMonotone(q + 1, q', d);
    }
  }

  lemma MulStep(q: nat, d: nat)
    ensures (q + 1) * d == q * d + d
  {
  }

  lemma {:induction false} MulMonotone(a: nat, b: nat, d: nat)
    requires a <= b
    ensures a * d <= b * d
    decreases b - a
  {
    if a < b {
      MulMonotone(a + 1, b, d);
      MulStep(a, d);
    }
  }

  /** The progress values set after each of `total` records. */
  function ProgressTrace(total: nat): (t: seq<nat>)
    ensures |t| == total
  {
    seq(total, k requires 0 <= k < total => Percent(k + 1, total))
  }

  /** The progress values after `k + 1` records extend those after `k` by
      the percentage for `k + 1`. */
  lemma ProgressTraceStep(total: nat, k: nat)
    requires k < total
    ensures ProgressTrace(total)[..k + 1] == ProgressTrace(total)[..k] + [Percent(k + 1, total)]
  {
  }

  /** Progress never decreases during a run and ends at 100. */
  lemma ProgressTraceFacts(total: nat)
    ensures forall i, j :: 0 <= i <= j < total ==> ProgressTrace(total)[i] <= ProgressTrace(total)[j]
    ensures total > 0 ==> ProgressTrace(total)[total - 1] == 100
    ensures forall i :: 0 <= i < total ==> ProgressTrace(total)[i] <= 100
  {
    var t := ProgressTrace(total);
    forall i, j | 0 <= i <= j < total
      ensures t[i] <= t[j] && t[j] <= 100
    {
      PercentFacts(i + 1, j + 1, total);
    }
    if total > 0 {
      PercentFacts(total, total, total);
    }
  }
}
