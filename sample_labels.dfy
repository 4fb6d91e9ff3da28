/**
  * scripts/sample_labels.py: keeps one label in every `n`, starting with
  * frame 0.
  */
module SampleLabels {
  import opened Text

  /**
    * `len(range(0, length, n))`: how many frames are kept; with a negative
    * step `range` counts down from 0 and keeps nothing.
    */
  function Count(length: nat, n: int): nat {
    if n <= 0 || length == 0 then 0 else (length + n - 1) / n
  }

  /** With a positive step, sample `k` exists exactly when frame `k * n` does. */
  lemma CountIsCeiling(length: nat, n: int, k: nat)
    requires n > 0
    ensures k < Count(length, n) <==> k * n < length
  {
    var c := Count(length, n);
    if length > 0 {
      var q, m := (length + n - 1) / n, (length + n - 1) % n;
      assert q * n + m == length + n - 1 && 0 <= m < n;
      assert c == q;
      if k < c {
        assert k * n <= (c - 1) * n by {
          MulMonotone(k, c - 1, n);
        }
        assert (c - 1) * n == c * n - n;
      } else {
        assert c * n <= k * n by {
          MulMonotone(c, k, n);
        }
      }
    }
  }

  /** Multiplying by a positive step keeps order. */
  lemma {:induction false} MulMonotone(a: nat, b: nat, n: int)
    requires a <= b && n > 0
    ensures a * n <= b * n
    decreases b - a
  {
    if a < b {
      MulMonotone(a, b - 1, n);
      assert b * n == (b - 1) * n + n;
    }
  }

  /** The frames `range(0, length, n)` visits: every `n`-th frame from 0, in order. */
  function Indices(length: nat, n: int): (r: seq<int>)
    ensures |r| == Count(length, n)
  {
    seq(Count(length, n), k requires 0 <= k => k * n)
  }

  /**
    * With a positive step the kept frames are exactly the frames that are a
    * multiple of `n`, each once and in increasing order.
    */
  lemma IndicesAreMultiples(length: nat, n: int)
    requires n > 0
    ensures forall f :: f in Indices(length, n) <==> 0 <= f < length && f % n == 0
    ensures forall i, j :: 0 <= i < j < |Indices(length, n)| ==> Indices(length, n)[i] < Indices(length, n)[j]
  {
    var idx := Indices(length, n);
    forall f ensures f in idx <==> 0 <= f < length && f % n == 0 {
      if f in idx {
        var k :| 0 <= k < |idx| && idx[k] == f;
        CountIsCeiling(length, n, k);
        assert f == k * n;
        assert (k * n) % n == 0 by {
          MulMod(k, n);
        }
      }
      if 0 <= f < length && f % n == 0 {
        var k := f / n;
        assert k * n == f;
        CountIsCeiling(length, n, k);
        assert idx[k] == f;
      }
    }
    forall i, j | 0 <= i < j < |idx| ensures idx[i] < idx[j] {
      MulMonotone(i + 1, j, n);
    }
  }

  /** Euclidean division has one quotient and one remainder. */
  lemma DivModUnique(x: int, n: int, q: int, m: int)
    requires n > 0 && 0 <= m < n && x == q * n + m
    ensures x % n == m && x / n == q
  {
    var q', m' := x / n, x % n;
    assert x == q' * n + m' && 0 <= m' < n;
    if q' < q {
      assert (q - q') * n == q * n - q' * n;
      MulMonotone(1, q - q', n);
    } else if q < q' {
      assert (q' - q) * n == q' * n - q * n;
      MulMonotone(1, q' - q, n);
    }
  }

  /** A multiple of `n` leaves no remainder. */
  lemma MulMod(k: nat, n: int)
    requires n > 0
    ensures (k * n) % n == 0
  {
    DivModUnique(k * n, n, k, 0);
  }

  /**
    * The copy (sample_labels.py:29-34): the new dataset holds label
    * `k * n` at position `k`; a step of 0 makes `range` fail.
    */
  method Sample(labels: array<int>, n: int) returns (r: Option<array<int>>)
    ensures r.None? <==> n == 0
    ensures r.Some? ==> fresh(r.value) && r.value.Length == Count(labels.Length, n)
    ensures r.Some? ==> forall k :: 0 <= k < r.value.Length ==> 0 <= k * n < labels.Length && r.value[k] == labels[k * n]
  {
    if n == 0 {
      return None;
    }
    var count := Count(labels.Length, n);
    assert n < 0 ==> count == 0;
    var out := new int[count];
    for outIdx := 0 to count
      invariant forall k :: 0 <= k < outIdx ==> 0 <= k * n < labels.Length && out[k] == labels[k * n]
    {
      var inIdx := outIdx * n;
      CountIsCeiling(labels.Length, n, outIdx);
      assert inIdx % n == 0 by {
        MulMod(outIdx, n);
      }
      out[outIdx] := labels[inIdx];
    }
    r := Some(out);
  }
}
