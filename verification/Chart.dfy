/** Which blocks the emission chart shows (crates/node/src/rpc.rs). */
module Chart {
  import opened Machine
  import opened Types
  import opened Node
  import N = Node

  ghost predicate TimeOrdered(blocks: seq<Block>) {
    forall i, j :: 0 <= i <= j < |blocks| ==> blocks[i].header.timestamp <= blocks[j].header.timestamp
  }

  /** From the first block young enough on, all are in the window. */
  lemma {:induction false} WindowFrom(blocks: seq<Block>, cutoff: u64, k: nat)
    requires forall i :: 0 <= i < |blocks| ==> (blocks[i].header.timestamp < cutoff <==> i < k)
    requires k <= |blocks|
    ensures InWindow(blocks, cutoff) == blocks[k..]
  {
    if blocks != [] {
      var front := blocks[..|blocks| - 1];
      assert forall i :: 0 <= i < |front| ==> front[i] == blocks[i];
      WindowFrom(front, cutoff, Min(k, |front|));
      if k <= |front| { assert blocks[k..] == front[k..] + [blocks[|front|]]; }
    }
  }

  lemma FirstInWindow(blocks: seq<Block>, cutoff: u64) returns (k: nat)
    requires TimeOrdered(blocks)
    ensures k <= |blocks| && forall i :: 0 <= i < |blocks| ==> (blocks[i].header.timestamp < cutoff <==> i < k)
  {
    k := 0;
    while k < |blocks| && blocks[k].header.timestamp < cutoff
      invariant k <= |blocks| && forall i :: 0 <= i < k ==> blocks[i].header.timestamp < cutoff
    {
      k := k + 1;
    }
  }

  /** One block more: `c` samples are enough for it, unless a sample falls on it. */
  lemma NextSample(c: nat, stride: nat, n: nat)
    requires n > 0 && stride >= 1 && n - 1 <= c * stride < n - 1 + stride
    ensures (n - 1) % stride == 0 <==> c * stride == n - 1
    ensures c * stride == n - 1 ==> n <= (c + 1) * stride < n + stride
  {
    assert (c + 1) * stride == c * stride + stride && (c - 1) * stride == c * stride - stride;
    if c * stride == n - 1 {
      DivUnique(n - 1, stride, c, 0);
    } else {
      DivUnique(n - 1, stride, c - 1, n - 1 - (c - 1) * stride);
    }
  }

  predicate SampledAt(totals: map<u64, u128>, blocks: seq<Block>, stride: nat, s: seq<Sample>, j: nat)
    requires j < |s|
  {
    0 <= j * stride < |blocks| && s[j] == SampleOf(totals, blocks[j * stride])
  }

  /** Every `stride`-th block from the first one on, and as many as there are. */
  lemma {:induction false} EveryNthAt(totals: map<u64, u128>, blocks: seq<Block>, stride: nat, n: nat)
    requires n <= |blocks| && stride >= 1
    ensures var s := EveryNth(totals, blocks, stride, n);
            n <= |s| * stride < n + stride && forall j :: 0 <= j < |s| ==> SampledAt(totals, blocks, stride, s, j)
  {
    if n > 0 {
      var before, s := EveryNth(totals, blocks, stride, n - 1), EveryNth(totals, blocks, stride, n);
      EveryNthAt(totals, blocks, stride, n - 1);
      NextSample(|before|, stride, n);
      forall j | 0 <= j < |s| ensures SampledAt(totals, blocks, stride, s, j) {
        if j < |before| { assert SampledAt(totals, blocks, stride, before, j) && s[j] == before[j]; }
      }
    }
  }

  /** What the chart says of the `k`-th block. */
  function Point(o: Rules, log: seq<Block>, k: nat): Sample
    requires k < |log|
  {
    Sample(log[k].header.height, log[k].header.timestamp, SeriesTo(o, log, k + 1).minted)
  }

  /** The chart's first `shown` samples are every `stride`-th block from `first` on,
      as far as the log goes; at most one more follows, and the last is the tip. */
  ghost predicate Shows(o: Rules, log: seq<Block>, chart: seq<Sample>, first: nat, stride: nat, shown: nat) {
    && |log| - first <= shown * stride < |log| - first + stride
    && shown <= |chart| <= shown + 1 && chart != [] && chart[|chart| - 1].height == |log| - 1
    && forall j :: 0 <= j < shown ==>
         0 <= first + j * stride < |log| && chart[j] == Point(o, log, first + j * stride)
  }

  lemma SampleIsPoint(o: Rules, log: seq<Block>, k: nat)
    requires k < |log| <= U64_MAX && forall i :: 0 <= i < |log| ==> log[i].header.height == i
    ensures SampleOf(CumulativeTo(o, log, |log|), log[k]) == Point(o, log, k)
  {
    CumulativeAt(o, log, |log|, k);
  }

  /** On a log with contiguous heights and ordered times the chart starts at the
      first block no older than the window, shows every `stride`-th block from there,
      and at most the tip beside them. The stride is the least that keeps to the
      number of points asked for, between 2 and 500, or one. */
  lemma ChartIsEvenlySpaced(o: Rules, log: seq<Block>, points: nat, windowSeconds: u64)
      returns (first: nat, stride: nat, shown: nat)
    requires log != [] && |log| <= U64_MAX && TimeOrdered(log)
    requires forall i :: 0 <= i < |log| ==> log[i].header.height == i
    ensures first < |log| && forall i :: 0 <= i < |log| ==>
              (log[i].header.timestamp + 1000 * windowSeconds < log[|log| - 1].header.timestamp <==> i < first)
    ensures var n, most := |log| - first, Max(2, Min(points, 500));
            && (if n < most then stride == 1 else stride * most <= n < (stride + 1) * most)
    ensures Shows(o, log, N.Chart(o, log, points, windowSeconds), first, stride, shown)
  {
    first := WindowStart(log, windowSeconds);
    stride := Stride(|log| - first, points);
    StrideFits(|log| - first, Max(2, Min(points, 500)), stride);
    shown := ChartFrom(o, log, points, windowSeconds, first, stride);
  }

  lemma WindowStart(log: seq<Block>, windowSeconds: u64) returns (first: nat)
    requires log != [] && TimeOrdered(log)
    ensures first < |log| && InWindow(log, Cutoff(log[|log| - 1].header.timestamp, windowSeconds)) == log[first..]
    ensures forall i :: 0 <= i < |log| ==>
              (log[i].header.timestamp + 1000 * windowSeconds < log[|log| - 1].header.timestamp <==> i < first)
  {
    var cutoff := Cutoff(log[|log| - 1].header.timestamp, windowSeconds);
    first := FirstInWindow(log, cutoff);
    WindowFrom(log, cutoff, first);
  }

  lemma ChartFrom(o: Rules, log: seq<Block>, points: nat, windowSeconds: u64, first: nat, stride: nat)
      returns (shown: nat)
    requires log != [] && |log| <= U64_MAX && forall i :: 0 <= i < |log| ==> log[i].header.height == i
    requires first < |log| && InWindow(log, Cutoff(log[|log| - 1].header.timestamp, windowSeconds)) == log[first..]
    requires stride >= 1 && stride == Stride(|log| - first, points)
    ensures Shows(o, log, N.Chart(o, log, points, windowSeconds), first, stride, shown)
  {
    var samples := PointsFrom(o, log, first, stride);
    TipInWindow(log, Cutoff(log[|log| - 1].header.timestamp, windowSeconds));
    shown := |samples|;
    assert N.Chart(o, log, points, windowSeconds)[..shown] == samples;
  }

  lemma PointsFrom(o: Rules, log: seq<Block>, first: nat, stride: nat) returns (samples: seq<Sample>)
    requires |log| <= U64_MAX && forall i :: 0 <= i < |log| ==> log[i].header.height == i
    requires first < |log| && stride >= 1
    ensures samples == EveryNth(CumulativeTo(o, log, |log|), log[first..], stride, |log| - first)
    ensures |log| - first <= |samples| * stride < |log| - first + stride
    ensures forall j :: 0 <= j < |samples| ==>
              0 <= first + j * stride < |log| && samples[j] == Point(o, log, first + j * stride)
  {
    var totals := CumulativeTo(o, log, |log|);
    samples := EveryNth(totals, log[first..], stride, |log| - first);
    EveryNthAt(totals, log[first..], stride, |log| - first);
    forall j | 0 <= j < |samples|
      ensures 0 <= first + j * stride < |log| && samples[j] == Point(o, log, first + j * stride)
    {
      assert SampledAt(totals, log[first..], stride, samples, j);
      SampleIsPoint(o, log, first + j * stride);
    }
  }

  lemma StrideFits(n: nat, most: nat, stride: nat)
    requires most >= 2 && stride == Max(n / most, 1)
    ensures if n < most then stride == 1 else stride * most <= n < (stride + 1) * most
  {
    DivLower(1, n, most);
    DivLower(n / most, n, most);
    DivLower(n / most + 1, n, most);
  }
}
