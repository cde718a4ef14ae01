/** `findDominantColorByKMeans` and its helpers: a deterministic k-means
    over the sampled colours, ten assign/update rounds with centroids
    rounded to whole channel values every round, then the most saturated
    centroid. */
module KMeans {
  import opened Colors

  /** The `k` `processImage` asks for. */
  const ClusterCount: nat := 5

  /** Assign/update rounds. */
  const Rounds: nat := 10

  /** The colour returned when there is nothing to cluster. */
  const Fallback: Rgb := Rgb(255, 200, 200)

  function Ch(c: Rgb, ch: Channel): Byte {
    match ch
    case Red => c.r
    case Green => c.g
    case Blue => c.b
  }

  /** `c` lies channel by channel between `lo` and `hi`. */
  predicate Between(lo: Rgb, c: Rgb, hi: Rgb) {
    forall ch: Channel :: Ch(lo, ch) <= Ch(c, ch) <= Ch(hi, ch)
  }

  predicate AllBetween(lo: Rgb, cs: seq<Rgb>, hi: Rgb) {
    forall i :: 0 <= i < |cs| ==> Between(lo, cs[i], hi)
  }

  // ---------------------------------------------------------------------
  // Distance

  /** `colorDistance` squared. The square root is increasing, so comparing
      squares picks the same centroid (see `SquaresOrderDistances`). */
  function SquaredDistance(c1: Rgb, c2: Rgb): (d: nat)
    ensures d == 0 <==> c1 == c2
  {
    var dr, dg, db := c1.r - c2.r, c1.g - c2.g, c1.b - c2.b;
    Square(dr) + Square(dg) + Square(db)
  }

  /** The distance does not depend on the order of its arguments. */
  lemma DistanceSymmetric(c1: Rgb, c2: Rgb)
    ensures SquaredDistance(c1, c2) == SquaredDistance(c2, c1)
  {
    assert Square(c1.r - c2.r) == Square(c2.r - c1.r);
    assert Square(c1.g - c2.g) == Square(c2.g - c1.g);
    assert Square(c1.b - c2.b) == Square(c2.b - c1.b);
  }

  function Square(x: int): (y: nat)
    ensures y == 0 <==> x == 0
  {
    if x < 0 then (-x) * (-x) else x * x
  }

  /** Distances are never negative, and for such numbers the order of the
      squares is the order of the numbers. */
  lemma SquaresOrderDistances(d1: real, d2: real)
    requires 0.0 <= d1 && 0.0 <= d2
    ensures d1 < d2 <==> d1 * d1 < d2 * d2
  {
    if d1 < d2 {
      SquareLess(d1, d2);
    } else {
      SquareAtMost(d2, d1);
    }
  }

  lemma SquareLess(x: real, y: real)
    requires 0.0 <= x < y
    ensures x * x < y * y
  {
    var d := y - x;
    assert y * y == x * x + 2.0 * x * d + d * d;
    assert d * d > 0.0;
    assert x * d >= 0.0;
  }

  lemma SquareAtMost(x: real, y: real)
    requires 0.0 <= x <= y
    ensures x * x <= y * y
  {
    var d := y - x;
    assert y * y == x * x + 2.0 * x * d + d * d;
    assert d * d >= 0.0;
    assert x * d >= 0.0;
  }

  // ---------------------------------------------------------------------
  // initializeCentroids

  /** The sample that centroid `i` of `k` starts from: `floor(i / k * n)`. */
  function InitIndex(i: nat, k: nat, n: nat): (idx: nat)
    requires k > 0
    ensures i < k && n > 0 ==> idx < n
  {
    if i < k && n > 0 then InitIndexInRange(i, k, n); i * n / k else i * n / k
  }

  lemma InitIndexInRange(i: nat, k: nat, n: nat)
    requires i < k && n > 0
    ensures i * n / k < n
  {
    assert i * n < k * n by { MulStrict(i, k, n); }
    DivBelow(i * n, k, n);
  }

  /** `initializeCentroids`: exactly `k` centroids, centroid `i` a copy of
      the sample at `floor(i / k * n)`. */
  function InitializeCentroids(colors: seq<Rgb>, k: nat): (cs: seq<Rgb>)
    requires |colors| > 0
    ensures |cs| == k
    ensures forall i :: 0 <= i < k ==> cs[i] == colors[InitIndex(i, k, |colors|)]
  {
    seq(k, i requires 0 <= i < k && |colors| > 0 => colors[InitIndex(i, k, |colors|)])
  }

  /** With at least as many samples as clusters, the starting samples are
      distinct positions, taken in increasing order. */
  lemma InitIndicesIncrease(i: nat, j: nat, k: nat, n: nat)
    requires i < j < k && k <= n
    ensures InitIndex(i, k, n) < InitIndex(j, k, n)
  {
    assert i * n + k <= j * n by {
      assert j * n == i * n + (j - i) * n;
      MulAtLeast(j - i, n, k);
    }
    DivStep(i * n, j * n, k);
  }

  // ---------------------------------------------------------------------
  // findNearestCentroid

  /** `j` is nearest to `color` and no earlier centroid is as near. */
  predicate IsNearest(color: Rgb, cs: seq<Rgb>, j: nat) {
    && j < |cs|
    && (forall i :: 0 <= i < |cs| ==> SquaredDistance(color, cs[j]) <= SquaredDistance(color, cs[i]))
    && (forall i :: 0 <= i < j ==> SquaredDistance(color, cs[j]) < SquaredDistance(color, cs[i]))
  }

  /** The loop of `findNearestCentroid` over the first `n` centroids: a
      centroid replaces the best so far only when strictly nearer. */
  function NearestAmong(color: Rgb, cs: seq<Rgb>, n: nat): (j: nat)
    requires 1 <= n <= |cs|
    ensures j < n
    ensures forall i :: 0 <= i < n ==> SquaredDistance(color, cs[j]) <= SquaredDistance(color, cs[i])
    ensures forall i :: 0 <= i < j ==> SquaredDistance(color, cs[j]) < SquaredDistance(color, cs[i])
  {
    if n == 1 then 0
    else
      var best := NearestAmong(color, cs, n - 1);
      if SquaredDistance(color, cs[n - 1]) < SquaredDistance(color, cs[best]) then n - 1 else best
  }

  /** `findNearestCentroid`: index 0 when there are no centroids. */
  function FindNearestCentroid(color: Rgb, cs: seq<Rgb>): (j: nat)
    ensures |cs| == 0 ==> j == 0
    ensures |cs| > 0 ==> IsNearest(color, cs, j)
  {
    if |cs| == 0 then 0 else NearestAmong(color, cs, |cs|)
  }

  /** Exactly one index is nearest with ties going to the lowest, and it
      is the one the scan returns. */
  lemma NearestIsUnique(color: Rgb, cs: seq<Rgb>, j: nat)
    requires |cs| > 0
    ensures FindNearestCentroid(color, cs) == j <==> IsNearest(color, cs, j)
  {
    var r := FindNearestCentroid(color, cs);
    if IsNearest(color, cs, j) {
      assert SquaredDistance(color, cs[j]) <= SquaredDistance(color, cs[r]);
      assert SquaredDistance(color, cs[r]) <= SquaredDistance(color, cs[j]);
    }
  }

  // ---------------------------------------------------------------------
  // assignColorsToClusters

  /** The samples, in order, whose nearest centroid is `j`. */
  function Members(colors: seq<Rgb>, cs: seq<Rgb>, j: nat): (m: seq<Rgb>)
    ensures |m| <= |colors|
    ensures forall x :: x in m ==> x in colors
  {
    if |colors| == 0 then []
    else
      var last := colors[|colors| - 1];
      Members(colors[..|colors| - 1], cs, j) + (if FindNearestCentroid(last, cs) == j then [last] else [])
  }

  /** `assignColorsToClusters`: `k` clusters, cluster `j` holding the
      samples nearest to centroid `j`, in sample order. */
  function AssignColorsToClusters(colors: seq<Rgb>, cs: seq<Rgb>, k: nat): (clusters: seq<seq<Rgb>>)
    requires 1 <= k && |cs| <= k
    ensures |clusters| == k
    ensures forall j :: 0 <= j < k ==> clusters[j] == Members(colors, cs, j)
  {
    if |colors| == 0 then NoClusters(k)
    else
      var last := colors[|colors| - 1];
      var before := AssignColorsToClusters(colors[..|colors| - 1], cs, k);
      var j := FindNearestCentroid(last, cs);
      before[j := before[j] + [last]]
  }

  function TotalSize(clusters: seq<seq<Rgb>>): nat {
    if |clusters| == 0 then 0 else TotalSize(clusters[..|clusters| - 1]) + |clusters[|clusters| - 1]|
  }

  /** Every sample lands in exactly one cluster: the sizes add up to the
      number of samples. */
  lemma {:induction false} ClusterSizesSum(colors: seq<Rgb>, cs: seq<Rgb>, k: nat)
    requires 1 <= k && |cs| <= k
    ensures TotalSize(AssignColorsToClusters(colors, cs, k)) == |colors|
  {
    if |colors| == 0 {
      EmptyClustersSize(k);
    } else {
      var last := colors[|colors| - 1];
      ClusterSizesSum(colors[..|colors| - 1], cs, k);
      var before := AssignColorsToClusters(colors[..|colors| - 1], cs, k);
      var j := FindNearestCentroid(last, cs);
      GrowOneCluster(before, j, last);
    }
  }

  /** `k` empty clusters. */
  function NoClusters(k: nat): (clusters: seq<seq<Rgb>>)
    ensures |clusters| == k && forall j :: 0 <= j < k ==> clusters[j] == []
  {
    seq(k, _ => [])
  }

  lemma {:induction false} EmptyClustersSize(k: nat)
    ensures TotalSize(NoClusters(k)) == 0
  {
    if k > 0 {
      EmptyClustersSize(k - 1);
      assert NoClusters(k)[..k - 1] == NoClusters(k - 1);
    }
  }

  lemma {:induction false} GrowOneCluster(clusters: seq<seq<Rgb>>, j: nat, x: Rgb)
    requires j < |clusters|
    ensures TotalSize(clusters[j := clusters[j] + [x]]) == TotalSize(clusters) + 1
  {
    var n := |clusters|;
    var grown := clusters[j := clusters[j] + [x]];
    if j < n - 1 {
      GrowOneCluster(clusters[..n - 1], j, x);
      assert grown[..n - 1] == clusters[..n - 1][j := clusters[j] + [x]];
    } else {
      assert grown[..n - 1] == clusters[..n - 1];
    }
  }

  // ---------------------------------------------------------------------
  // updateCentroids

  function ChannelSum(cluster: seq<Rgb>, ch: Channel): nat {
    if |cluster| == 0 then 0
    else ChannelSum(cluster[..|cluster| - 1], ch) + Ch(cluster[|cluster| - 1], ch)
  }

  /** `Math.round(s / n)` for `s ≥ 0` and `n > 0`: the nearest integer,
      halves rounded up. */
  function RoundDiv(s: nat, n: nat): nat
    requires n > 0
  {
    (2 * s + n) / (2 * n)
  }

  /** `v` is `s / n` rounded to the nearest integer, halves going up:
      `v - 1/2 <= s / n < v + 1/2`, with both sides doubled and
      multiplied by `n`. */
  predicate RoundsQuotient(v: int, s: int, n: int) {
    2 * n * v - n <= 2 * s < 2 * n * v + n
  }

  lemma RoundDivRounds(s: nat, n: nat)
    requires n > 0
    ensures RoundsQuotient(RoundDiv(s, n), s, n)
  {
    DivBounds(2 * s + n, 2 * n);
  }

  /** The rounding is the one `Math.round` applies to the exact quotient. */
  lemma RoundDivIsMathRound(s: nat, n: nat)
    requires n > 0
    ensures (RoundDiv(s, n) as real) - 0.5 <= (s as real) / (n as real) < (RoundDiv(s, n) as real) + 0.5
  {
    RoundDivRounds(s, n);
    var v := RoundDiv(s, n);
    var w := n * v;
    assert 2 * w - n <= 2 * s < 2 * w + n;
    assert (w as real) == (n as real) * (v as real) by { CastProduct(n, v); }
    RoundedQuotient(s as real, n as real, v as real);
  }

  lemma CastProduct(a: int, b: int)
    ensures ((a * b) as real) == (a as real) * (b as real)
  {
  }

  lemma RoundedQuotient(s: real, n: real, v: real)
    requires n > 0.0 && 2.0 * n * v - n <= 2.0 * s < 2.0 * n * v + n
    ensures v - 0.5 <= s / n < v + 0.5
  {
    var q := s / n;
    assert s == q * n;
    assert (2.0 * q) * n == 2.0 * s;
    assert (2.0 * v - 1.0) * n == 2.0 * n * v - n;
    assert (2.0 * v + 1.0) * n == 2.0 * n * v + n;
    RealCancel(2.0 * v - 1.0, 2.0 * q, n);
    RealCancel(2.0 * q, 2.0 * v + 1.0, n);
  }

  /** The rounded mean of one channel stays between the smallest and the
      largest value of that channel in the cluster. */
  lemma {:induction false} ChannelSumBounds(cluster: seq<Rgb>, ch: Channel, lo: int, hi: int)
    requires forall i :: 0 <= i < |cluster| ==> lo <= Ch(cluster[i], ch) <= hi
    ensures |cluster| * lo <= ChannelSum(cluster, ch) <= |cluster| * hi
  {
    if |cluster| > 0 {
      var m := |cluster| - 1;
      var init := cluster[..m];
      forall i | 0 <= i < m ensures lo <= Ch(init[i], ch) <= hi {
        assert init[i] == cluster[i];
      }
      ChannelSumBounds(init, ch, lo, hi);
      assert ChannelSum(cluster, ch) == ChannelSum(init, ch) + Ch(cluster[m], ch);
      MulSucc(m, lo);
      MulSucc(m, hi);
    }
  }

  lemma MulSucc(m: nat, x: int)
    ensures (m + 1) * x == m * x + x
  {
  }

  lemma RoundDivBetween(s: nat, n: nat, lo: int, hi: int)
    requires n > 0 && n * lo <= s <= n * hi
    ensures lo <= RoundDiv(s, n) <= hi
  {
    RoundDivRounds(s, n);
    var v := RoundDiv(s, n);
    assert 2 * n * v < 2 * n * (hi + 1);
    CancelLess(v, hi + 1, 2 * n);
    assert 2 * n * lo < 2 * n * (v + 1);
    CancelLess(lo, v + 1, 2 * n);
  }

  /** The channel-wise rounded mean of a non-empty cluster. */
  function MeanColor(cluster: seq<Rgb>): Rgb
    requires |cluster| > 0
  {
    Rgb(ChannelMean(cluster, Red), ChannelMean(cluster, Green), ChannelMean(cluster, Blue))
  }

  function ChannelMean(cluster: seq<Rgb>, ch: Channel): Byte
    requires |cluster| > 0
  {
    ChannelSumBounds(cluster, ch, 0, 255);
    RoundDivBetween(ChannelSum(cluster, ch), |cluster|, 0, 255);
    RoundDiv(ChannelSum(cluster, ch), |cluster|)
  }

  /** Each channel of the new centroid of a non-empty cluster is the
      cluster's mean of that channel, rounded as `Math.round` does. */
  lemma MeanColorRounds(cluster: seq<Rgb>, ch: Channel)
    requires |cluster| > 0
    ensures RoundsQuotient(Ch(MeanColor(cluster), ch), ChannelSum(cluster, ch), |cluster|)
  {
    RoundDivRounds(ChannelSum(cluster, ch), |cluster|);
  }

  /** A mean colour lies in every channel-wise box that holds the cluster. */
  lemma MeanBetween(cluster: seq<Rgb>, lo: Rgb, hi: Rgb)
    requires |cluster| > 0 && AllBetween(lo, cluster, hi)
    ensures Between(lo, MeanColor(cluster), hi)
  {
    forall ch: Channel ensures Ch(lo, ch) <= Ch(MeanColor(cluster), ch) <= Ch(hi, ch) {
      ChannelSumBounds(cluster, ch, Ch(lo, ch), Ch(hi, ch));
      RoundDivBetween(ChannelSum(cluster, ch), |cluster|, Ch(lo, ch), Ch(hi, ch));
    }
  }

  /** `updateCentroids`: as many centroids as before; a centroid with a
      non-empty cluster moves to the rounded mean of that cluster, one
      with an empty cluster stays where it is. */
  function UpdateCentroids(cs: seq<Rgb>, clusters: seq<seq<Rgb>>): (next: seq<Rgb>)
    requires |clusters| == |cs|
    ensures |next| == |cs|
    ensures forall i :: 0 <= i < |cs| && |clusters[i]| == 0 ==> next[i] == cs[i]
    ensures forall i :: 0 <= i < |cs| && |clusters[i]| > 0 ==> next[i] == MeanColor(clusters[i])
  {
    seq(|cs|, i requires 0 <= i < |cs| && |clusters| == |cs| =>
      if |clusters[i]| > 0 then MeanColor(clusters[i]) else cs[i])
  }

  // ---------------------------------------------------------------------
  // The rounds

  /** `rounds` assign/update rounds starting from centroids `cs`. */
  function Iterate(colors: seq<Rgb>, cs: seq<Rgb>, k: nat, rounds: nat): (final: seq<Rgb>)
    requires 1 <= k && |cs| == k
    ensures |final| == k
    decreases rounds
  {
    if rounds == 0 then cs
    else
      var next := UpdateCentroids(cs, AssignColorsToClusters(colors, cs, k));
      Iterate(colors, next, k, rounds - 1)
  }

  /** A round keeps every centroid inside any channel-wise box that holds
      the samples and the centroids. */
  lemma RoundStaysBetween(colors: seq<Rgb>, cs: seq<Rgb>, k: nat, lo: Rgb, hi: Rgb)
    requires 1 <= k && |cs| == k
    requires AllBetween(lo, colors, hi) && AllBetween(lo, cs, hi)
    ensures AllBetween(lo, UpdateCentroids(cs, AssignColorsToClusters(colors, cs, k)), hi)
  {
    var clusters := AssignColorsToClusters(colors, cs, k);
    var next := UpdateCentroids(cs, clusters);
    forall i | 0 <= i < k ensures Between(lo, next[i], hi) {
      if |clusters[i]| > 0 {
        forall x | 0 <= x < |clusters[i]| ensures Between(lo, clusters[i][x], hi) {
          assert clusters[i][x] in Members(colors, cs, i);
        }
        assert next[i] == MeanColor(clusters[i]);
        MeanBetween(clusters[i], lo, hi);
      }
    }
  }

  lemma {:induction false} IterateStaysBetween(colors: seq<Rgb>, cs: seq<Rgb>, k: nat, rounds: nat, lo: Rgb, hi: Rgb)
    requires 1 <= k && |cs| == k
    requires AllBetween(lo, colors, hi) && AllBetween(lo, cs, hi)
    ensures AllBetween(lo, Iterate(colors, cs, k, rounds), hi)
    decreases rounds
  {
    if rounds > 0 {
      RoundStaysBetween(colors, cs, k, lo, hi);
      var next := UpdateCentroids(cs, AssignColorsToClusters(colors, cs, k));
      IterateStaysBetween(colors, next, k, rounds - 1, lo, hi);
    }
  }

  /** Every sample coincides with one of the centroids. */
  predicate OnCentroids(colors: seq<Rgb>, cs: seq<Rgb>) {
    forall i :: 0 <= i < |colors| ==> colors[i] in cs
  }

  /** A colour that is a centroid is nearest to a copy of itself. */
  lemma NearestToItself(x: Rgb, cs: seq<Rgb>)
    requires x in cs
    ensures cs[FindNearestCentroid(x, cs)] == x
  {
    var j :| 0 <= j < |cs| && cs[j] == x;
    var r := FindNearestCentroid(x, cs);
    assert SquaredDistance(x, cs[r]) <= SquaredDistance(x, cs[j]);
  }

  /** Cluster `j` holds exactly the samples whose nearest centroid is `j`. */
  lemma {:induction false} MembersNearest(colors: seq<Rgb>, cs: seq<Rgb>, j: nat)
    ensures forall i :: 0 <= i < |Members(colors, cs, j)| ==>
              Members(colors, cs, j)[i] in colors
              && FindNearestCentroid(Members(colors, cs, j)[i], cs) == j
  {
    if |colors| > 0 {
      var init := colors[..|colors| - 1];
      MembersNearest(init, cs, j);
      var m := Members(colors, cs, j);
      forall i | 0 <= i < |m| ensures m[i] in colors && FindNearestCentroid(m[i], cs) == j {
        if i < |Members(init, cs, j)| {
          assert m[i] == Members(init, cs, j)[i];
          assert m[i] in init;
        }
      }
    }
  }

  /** Centroids on which every sample already sits do not move in a round. */
  lemma FixedRound(colors: seq<Rgb>, cs: seq<Rgb>, k: nat)
    requires 1 <= k && |cs| == k && OnCentroids(colors, cs)
    ensures UpdateCentroids(cs, AssignColorsToClusters(colors, cs, k)) == cs
  {
    var clusters := AssignColorsToClusters(colors, cs, k);
    var next := UpdateCentroids(cs, clusters);
    forall i | 0 <= i < k ensures next[i] == cs[i] {
      if |clusters[i]| > 0 {
        MembersNearest(colors, cs, i);
        forall x | 0 <= x < |clusters[i]| ensures Between(cs[i], clusters[i][x], cs[i]) {
          var y := clusters[i][x];
          assert y in colors;
          NearestToItself(y, cs);
        }
        MeanBetween(clusters[i], cs[i], cs[i]);
        var c := next[i];
        assert Ch(c, Red) == Ch(cs[i], Red) && Ch(c, Green) == Ch(cs[i], Green)
               && Ch(c, Blue) == Ch(cs[i], Blue);
      }
    }
  }

  lemma {:induction false} FixedIterate(colors: seq<Rgb>, cs: seq<Rgb>, k: nat, rounds: nat)
    requires 1 <= k && |cs| == k && OnCentroids(colors, cs)
    ensures Iterate(colors, cs, k, rounds) == cs
    decreases rounds
  {
    if rounds > 0 {
      FixedRound(colors, cs, k);
      FixedIterate(colors, cs, k, rounds - 1);
    }
  }

  /** `m` samples of `a` followed by `m` samples of `b`. */
  function TwoColors(a: Rgb, b: Rgb, m: nat): (colors: seq<Rgb>)
    ensures |colors| == 2 * m
    ensures forall i :: 0 <= i < 2 * m ==> colors[i] == (if i < m then a else b)
  {
    seq(m, _ => a) + seq(m, _ => b)
  }

  /** Half the samples one colour and half another: two clusters start on
      one of each and stay there. */
  lemma TwoColorSamples(a: Rgb, b: Rgb, m: nat)
    requires m >= 1
    ensures Iterate(TwoColors(a, b, m), InitializeCentroids(TwoColors(a, b, m), 2), 2, Rounds) == [a, b]
  {
    var colors := TwoColors(a, b, m);
    TwoColorStart(a, b, m);
    assert OnCentroids(colors, [a, b]) by {
      forall i | 0 <= i < |colors| ensures colors[i] in [a, b] {
        assert colors[i] == (if i < m then a else b);
      }
    }
    FixedIterate(colors, [a, b], 2, Rounds);
  }

  lemma TwoColorStart(a: Rgb, b: Rgb, m: nat)
    requires m >= 1
    ensures InitializeCentroids(TwoColors(a, b, m), 2) == [a, b]
  {
    var colors := TwoColors(a, b, m);
    var start := InitializeCentroids(colors, 2);
    assert InitIndex(0, 2, 2 * m) == 0;
    assert InitIndex(1, 2, 2 * m) == m;
    assert start[0] == colors[0] == a;
    assert start[1] == colors[m] == b;
  }

  /** Of those two colours the more saturated one is the result, the
      first on a tie. */
  lemma TwoColorDominant(a: Rgb, b: Rgb, m: nat)
    requires m >= 1
    ensures FindDominantColorByKMeans(TwoColors(a, b, m), 2)
            == (if SaturationOf(b) > SaturationOf(a) then b else a)
  {
    TwoColorSamples(a, b, m);
    MostSaturatedOfTwo(a, b);
  }

  lemma MostSaturatedOfTwo(a: Rgb, b: Rgb)
    ensures FindMostSaturatedCentroid([a, b]) == (if SaturationOf(b) > SaturationOf(a) then b else a)
  {
    var j := MostSaturatedIndex([a, b]);
    assert SaturationOf([a, b][0]) <= SaturationOf([a, b][j]);
    assert SaturationOf([a, b][1]) <= SaturationOf([a, b][j]);
  }

  // ---------------------------------------------------------------------
  // findMostSaturatedCentroid

  /** The saturation a centroid is ranked by: that of `rgbToHsl`. */
  function SaturationOf(c: Rgb): real {
    RgbToHsl(c).s
  }

  /** The best centroid so far and the saturation to beat. */
  datatype Best = Best(index: nat, saturation: real)

  /** The loop of `findMostSaturatedCentroid` over the first `n`
      centroids, starting from centroid 0 and saturation 0: a centroid
      replaces the best so far only when strictly more saturated. */
  function BestAmong(cs: seq<Rgb>, n: nat): (b: Best)
    requires 1 <= |cs| && n <= |cs|
    ensures b.index < |cs| && (n > 0 ==> b.index < n)
    ensures n > 0 ==> b.saturation == SaturationOf(cs[b.index])
    ensures forall i :: 0 <= i < n ==> SaturationOf(cs[i]) <= b.saturation
    ensures forall i :: 0 <= i < b.index ==> SaturationOf(cs[i]) < b.saturation
  {
    if n == 0 then Best(0, 0.0)
    else
      var b := BestAmong(cs, n - 1);
      var s := SaturationOf(cs[n - 1]);
      if s > b.saturation then Best(n - 1, s) else b
  }

  /** Index of the first centroid of greatest saturation. */
  function MostSaturatedIndex(cs: seq<Rgb>): (j: nat)
    requires |cs| >= 1
    ensures j < |cs|
    ensures forall i :: 0 <= i < |cs| ==> SaturationOf(cs[i]) <= SaturationOf(cs[j])
    ensures forall i :: 0 <= i < j ==> SaturationOf(cs[i]) < SaturationOf(cs[j])
  {
    BestAmong(cs, |cs|).index
  }

  /** `findMostSaturatedCentroid`. */
  function FindMostSaturatedCentroid(cs: seq<Rgb>): (c: Rgb)
    requires |cs| >= 1
    ensures c in cs
    ensures forall i :: 0 <= i < |cs| ==> SaturationOf(cs[i]) <= SaturationOf(c)
  {
    cs[MostSaturatedIndex(cs)]
  }

  /** When every centroid is grey the first one is returned. */
  lemma AllGreyGivesFirst(cs: seq<Rgb>)
    requires |cs| >= 1
    requires forall i :: 0 <= i < |cs| ==> cs[i].r == cs[i].g == cs[i].b
    ensures FindMostSaturatedCentroid(cs) == cs[0]
  {
    var j := MostSaturatedIndex(cs);
    assert SaturationOf(cs[0]) == 0.0 && SaturationOf(cs[j]) == 0.0;
  }

  // ---------------------------------------------------------------------
  // findDominantColorByKMeans

  /** `findDominantColorByKMeans`. */
  function FindDominantColorByKMeans(colors: seq<Rgb>, k: nat): (c: Rgb)
    requires |colors| == 0 || k >= 1
    ensures |colors| == 0 ==> c == Fallback
  {
    if |colors| == 0 then Fallback
    else
      var start := InitializeCentroids(colors, k);
      FindMostSaturatedCentroid(Iterate(colors, start, k, Rounds))
  }

  /** The dominant colour lies in every channel-wise box that holds all
      the samples. */
  lemma DominantBetween(colors: seq<Rgb>, k: nat, lo: Rgb, hi: Rgb)
    requires |colors| > 0 && k >= 1
    requires AllBetween(lo, colors, hi)
    ensures Between(lo, FindDominantColorByKMeans(colors, k), hi)
  {
    var start := InitializeCentroids(colors, k);
    IterateStaysBetween(colors, start, k, Rounds, lo, hi);
    var final := Iterate(colors, start, k, Rounds);
    var j := MostSaturatedIndex(final);
    assert Between(lo, final[j], hi);
  }

  /** When every sample is the same colour, that colour is the result. */
  lemma UniformSamples(colors: seq<Rgb>, k: nat, c: Rgb)
    requires |colors| > 0 && k >= 1
    requires forall i :: 0 <= i < |colors| ==> colors[i] == c
    ensures FindDominantColorByKMeans(colors, k) == c
  {
    DominantBetween(colors, k, c, c);
    var d := FindDominantColorByKMeans(colors, k);
    assert Ch(d, Red) == Ch(c, Red) && Ch(d, Green) == Ch(c, Green) && Ch(d, Blue) == Ch(c, Blue);
  }

  // ---------------------------------------------------------------------
  // Integer arithmetic

  lemma DivBounds(a: nat, d: nat)
    requires d > 0
    ensures d * (a / d) <= a < d * (a / d) + d
  {
  }

  lemma CancelLess(a: int, b: int, m: int)
    requires m > 0 && m * a < m * b
    ensures a < b
  {
    MulMonotone(m, b, a);
  }

  lemma RealCancel(a: real, b: real, n: real)
    requires n > 0.0
    ensures a * n <= b * n ==> a <= b
    ensures a * n < b * n ==> a < b
  {
  }

  /** Multiplying by a positive number keeps the order. */
  lemma MulMonotone(k: int, x: int, y: int)
    requires k > 0
    ensures x <= y ==> k * x <= k * y
  {
    if x <= y {
      assert k * y - k * x == k * (y - x);
    }
  }

  lemma MulStrict(i: nat, k: nat, n: nat)
    requires i < k && n > 0
    ensures i * n < k * n
  {
    assert k * n - i * n == (k - i) * n;
  }

  lemma MulAtLeast(a: nat, n: nat, k: nat)
    requires a >= 1 && n >= k
    ensures a * n >= k
  {
    assert a * n == (a - 1) * n + n;
  }

  lemma DivBelow(a: nat, k: nat, n: nat)
    requires k > 0 && a < k * n
    ensures a / k < n
  {
    DivBounds(a, k);
    MulMonotone(k, n, a / k);
  }

  lemma DivStep(a: nat, b: nat, k: nat)
    requires k > 0 && a + k <= b
    ensures a / k < b / k
  {
    DivBounds(a, k);
    DivBounds(b, k);
    MulMonotone(k, b / k, a / k);
  }
}
