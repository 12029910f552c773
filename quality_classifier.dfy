/**
 * The quality classifier: from one transmission spectrum (ascending wavelengths in nm,
 * transmission in percent) it derives the peak and average transmission, the
 * bandwidth above a threshold, a uniformity score, the defect locations, a grade of
 * four bands and a pass/fail verdict with notes; over a table of many samples it
 * produces one summary row per sample.
 */
module QualityClassifier {
  import opened Analytic
  import opened RealSeqs
  import opened Frames

  // ---------------------------------------------------------------------------
  // Grades
  // ---------------------------------------------------------------------------

  datatype QualityGrade = Excellent | Good | Fair | Poor

  /** The enum's string value. */
  function GradeValue(g: QualityGrade): string
  {
    match g
    case Excellent => "Excellent"
    case Good => "Good"
    case Fair => "Fair"
    case Poor => "Poor"
  }

  /** `GRADE_THRESHOLDS`: the lowest average visible transmission (%) of each grade. */
  function GradeThreshold(g: QualityGrade): real
  {
    match g
    case Excellent => 90.0
    case Good => 80.0
    case Fair => 70.0
    case Poor => 0.0
  }

  /** The grades ordered from worst to best. */
  function Rank(g: QualityGrade): nat
  {
    match g
    case Poor => 0
    case Fair => 1
    case Good => 2
    case Excellent => 3
  }

  /** The grade of an average visible transmission: four bands, each lower bound inclusive. */
  function ClassifyGrade(avgTransmission: real): (g: QualityGrade)
    ensures g == Excellent <==> avgTransmission >= 90.0
    ensures g == Good <==> 80.0 <= avgTransmission < 90.0
    ensures g == Fair <==> 70.0 <= avgTransmission < 80.0
    ensures g == Poor <==> avgTransmission < 70.0
  {
    if avgTransmission >= GradeThreshold(Excellent) then Excellent
    else if avgTransmission >= GradeThreshold(Good) then Good
    else if avgTransmission >= GradeThreshold(Fair) then Fair
    else Poor
  }

  /** A higher average never earns a worse grade. */
  lemma ClassifyGradeMonotone(a: real, b: real)
    requires a <= b
    ensures Rank(ClassifyGrade(a)) <= Rank(ClassifyGrade(b))
  {
  }

  /**
   * For a non-negative average the grade is the best one whose threshold the average
   * reaches: its threshold is reached, and no better grade's threshold is.
   */
  lemma ClassifyGradeIsBestReached(avg: real)
    requires avg >= 0.0
    ensures GradeThreshold(ClassifyGrade(avg)) <= avg
    ensures forall g :: Rank(g) > Rank(ClassifyGrade(avg)) ==> GradeThreshold(g) > avg
  {
  }

  // ---------------------------------------------------------------------------
  // Constants
  // ---------------------------------------------------------------------------

  const UV_RANGE_LO: real := 200.0
  const UV_RANGE_HI: real := 400.0
  const VISIBLE_RANGE_LO: real := 400.0
  const VISIBLE_RANGE_HI: real := 700.0
  const NIR_RANGE_LO: real := 700.0
  const NIR_RANGE_HI: real := 1400.0

  /** A dip of 10 percentage points below the local mean marks an absorption band. */
  const DEFECT_DROP_THRESHOLD: real := 0.10
  /** A smoothed gradient below -0.5 %/nm marks a sharp drop. */
  const DEFECT_GRADIENT_THRESHOLD: real := 0.5
  /** Drop indices closer than this many samples belong to one cluster. */
  const CLUSTER_GAP: int := 10
  /** An absorption band this close (nm) to a recorded location is not recorded again. */
  const DEDUPE_DISTANCE_NM: real := 50.0
  /**
   * The taps of the local-mean filter. `np.convolve(..., mode='same')` returns the longer
   * of its two inputs, so spectra shorter than this make `transmission - local_mean`
   * fail; a single point already makes `np.gradient` fail. Only spectra of at least this
   * many points get metrics.
   */
  const LOCAL_MEAN_WINDOW: nat := 20

  // ---------------------------------------------------------------------------
  // Averages and uniformity
  // ---------------------------------------------------------------------------

  predicate InVisible(lambdaNm: real)
  {
    VISIBLE_RANGE_LO <= lambdaNm <= VISIBLE_RANGE_HI
  }

  /** The indices of the points inside the visible window 400..700 nm, both ends included. */
  function VisibleIndices(wl: seq<real>): (r: seq<nat>)
    ensures forall k :: 0 <= k < |r| ==> r[k] < |wl| && InVisible(wl[r[k]])
    ensures forall k, l :: 0 <= k < l < |r| ==> r[k] < r[l]
    ensures forall i :: 0 <= i < |wl| && InVisible(wl[i]) ==> i in r
  {
    Where(seq(|wl|, i requires 0 <= i < |wl| => InVisible(wl[i])))
  }

  /**
   * The transmission values measured inside the visible window, in wavelength order:
   * one value per visible point, repetitions included, as the mean over them needs.
   */
  function VisibleTransmission(wl: seq<real>, t: seq<real>): (v: seq<real>)
    requires |wl| == |t|
    ensures |v| == |VisibleIndices(wl)| && forall k :: 0 <= k < |v| ==> v[k] == t[VisibleIndices(wl)[k]]
    ensures |v| > 0 <==> exists i :: 0 <= i < |wl| && InVisible(wl[i])
  {
    var idx := VisibleIndices(wl);
    assert (exists i :: 0 <= i < |wl| && InVisible(wl[i])) ==> |idx| > 0 by {
      if i :| 0 <= i < |wl| && InVisible(wl[i]) {
        assert i in idx;
      }
    }
    assert |idx| > 0 ==> InVisible(wl[idx[0]]);
    Select(t, idx)
  }

  /** The visible values are exactly the transmissions of the points in the visible window. */
  lemma VisibleTransmissionMembers(wl: seq<real>, t: seq<real>)
    requires |wl| == |t|
    ensures forall x :: x in VisibleTransmission(wl, t) <==> exists i :: 0 <= i < |wl| && InVisible(wl[i]) && t[i] == x
  {
    var idx := VisibleIndices(wl);
    var v := VisibleTransmission(wl, t);
    forall x | x in v
      ensures exists i :: 0 <= i < |wl| && InVisible(wl[i]) && t[i] == x
    {
      var k :| 0 <= k < |v| && v[k] == x;
      assert InVisible(wl[idx[k]]) && t[idx[k]] == x;
    }
    forall i | 0 <= i < |wl| && InVisible(wl[i])
      ensures t[i] in v
    {
      var k :| 0 <= k < |idx| && idx[k] == i;
      assert v[k] == t[i];
    }
  }

  /** The average visible transmission, or the full-spectrum mean when the window is empty. */
  function AvgVisible(wl: seq<real>, t: seq<real>): real
    requires |wl| == |t| > 0
  {
    var v := VisibleTransmission(wl, t);
    if |v| > 0 then Mean(v) else Mean(t)
  }

  /** Σ (x - m)² over s. */
  function SquaredDeviations(s: seq<real>, m: real): (r: real)
    ensures r >= 0.0
    ensures (forall i :: 0 <= i < |s| ==> s[i] == m) ==> r == 0.0
  {
    if s == [] then 0.0
    else
      var d := s[|s| - 1] - m;
      SquaredDeviations(s[..|s| - 1], m) + d * d
  }

  /** The population standard deviation (`np.std`, one degree of freedom not removed). */
  function Std(s: seq<real>, sqrt: real -> real): (r: real)
    requires |s| > 0 && IsSqrt(sqrt)
    ensures r >= 0.0
  {
    sqrt(SquaredDeviations(s, Mean(s)) / (|s| as real))
  }

  /**
   * max(0, 1 - cv)·100 with cv the coefficient of variation std/mean of the visible
   * values, cv taken as 1 when their mean is not positive: a score in [0, 100] that is
   * 0 when there are no visible values or their mean is not positive.
   */
  function Uniformity(v: seq<real>, sqrt: real -> real): (u: real)
    requires IsSqrt(sqrt)
    ensures 0.0 <= u <= 100.0
    ensures |v| == 0 ==> u == 0.0
    ensures |v| > 0 && Mean(v) <= 0.0 ==> u == 0.0
  {
    if |v| == 0 then 0.0
    else
      var m := Mean(v);
      var cv := if m > 0.0 then Std(v, sqrt) / m else 1.0;
      assert cv >= 0.0;
      Larger(0.0, 1.0 - cv) * 100.0
  }

  /** A constant, positive visible window is perfectly uniform. */
  lemma UniformityOfConstant(v: seq<real>, c: real, sqrt: real -> real)
    requires IsSqrt(sqrt) && |v| > 0 && c > 0.0
    requires forall i :: 0 <= i < |v| ==> v[i] == c
    ensures Uniformity(v, sqrt) == 100.0
  {
    MeanBounds(v, c, c);
    assert Mean(v) == c;
    assert SquaredDeviations(v, Mean(v)) == 0.0;
    assert Std(v, sqrt) == 0.0;
  }

  // ---------------------------------------------------------------------------
  // Bandwidth
  // ---------------------------------------------------------------------------

  /** The indices of the points at or above the threshold. */
  function AboveThreshold(t: seq<real>, threshold: real): (r: seq<nat>)
    ensures forall k :: 0 <= k < |r| ==> r[k] < |t| && t[r[k]] >= threshold
    ensures forall k, l :: 0 <= k < l < |r| ==> r[k] < r[l]
    ensures forall i :: 0 <= i < |t| && t[i] >= threshold ==> i in r
  {
    Where(seq(|t|, i requires 0 <= i < |t| => t[i] >= threshold))
  }

  /**
   * The wavelength span from the first to the last point at or above the threshold;
   * 0 when no point reaches it (`>=`, so a point equal to the threshold counts).
   */
  function Bandwidth(wl: seq<real>, t: seq<real>, threshold: real): (b: real)
    requires |wl| == |t|
    ensures (forall i :: 0 <= i < |t| ==> t[i] < threshold) ==> b == 0.0
  {
    var idx := AboveThreshold(t, threshold);
    if |idx| == 0 then 0.0 else wl[idx[|idx| - 1]] - wl[idx[0]]
  }

  ghost predicate Ascending(wl: seq<real>)
  {
    forall i, j :: 0 <= i < j < |wl| ==> wl[i] < wl[j]
  }

  /** Every qualifying index lies between the first and the last qualifying index. */
  lemma AboveThresholdSpan(t: seq<real>, threshold: real, i: nat)
    requires i < |t| && t[i] >= threshold
    ensures |AboveThreshold(t, threshold)| > 0
    ensures AboveThreshold(t, threshold)[0] <= i <= AboveThreshold(t, threshold)[|AboveThreshold(t, threshold)| - 1]
  {
    var idx := AboveThreshold(t, threshold);
    var k :| 0 <= k < |idx| && idx[k] == i;
  }

  /**
   * When some point reaches the threshold, the bandwidth is λ[last] - λ[first] for the
   * first and the last qualifying points.
   */
  lemma BandwidthFirstLast(wl: seq<real>, t: seq<real>, threshold: real, first: nat, last: nat)
    requires |wl| == |t|
    requires first <= last < |t| && t[first] >= threshold && t[last] >= threshold
    requires forall i :: 0 <= i < first ==> t[i] < threshold
    requires forall i :: last < i < |t| ==> t[i] < threshold
    ensures Bandwidth(wl, t, threshold) == wl[last] - wl[first]
  {
    var idx := AboveThreshold(t, threshold);
    AboveThresholdSpan(t, threshold, first);
    AboveThresholdSpan(t, threshold, last);
    assert t[idx[0]] >= threshold && t[idx[|idx| - 1]] >= threshold;
  }

  /**
   * For ascending wavelengths the bandwidth lies in [0, λ_last - λ_first] and covers the
   * span between any two qualifying points.
   */
  lemma BandwidthAscending(wl: seq<real>, t: seq<real>, threshold: real)
    requires |wl| == |t| > 0 && Ascending(wl)
    ensures 0.0 <= Bandwidth(wl, t, threshold) <= wl[|wl| - 1] - wl[0]
    ensures forall i, j :: 0 <= i <= j < |t| && t[i] >= threshold && t[j] >= threshold ==>
      wl[j] - wl[i] <= Bandwidth(wl, t, threshold)
  {
    var idx := AboveThreshold(t, threshold);
    if |idx| > 0 {
      var first, last := idx[0], idx[|idx| - 1];
      assert wl[0] <= wl[first] <= wl[last] <= wl[|wl| - 1];
      forall i, j | 0 <= i <= j < |t| && t[i] >= threshold && t[j] >= threshold
        ensures wl[j] - wl[i] <= Bandwidth(wl, t, threshold)
      {
        AboveThresholdSpan(t, threshold, i);
        AboveThresholdSpan(t, threshold, j);
      }
    }
  }

  // ---------------------------------------------------------------------------
  // Defect detection: sharp drops and their clusters
  // ---------------------------------------------------------------------------

  /** The indices where the smoothed gradient falls below -DEFECT_GRADIENT_THRESHOLD. */
  function SharpDrops(gradientSmooth: seq<real>): (r: seq<nat>)
    ensures forall k :: 0 <= k < |r| ==> r[k] < |gradientSmooth| && gradientSmooth[r[k]] < -DEFECT_GRADIENT_THRESHOLD
    ensures forall k, l :: 0 <= k < l < |r| ==> r[k] < r[l]
    ensures forall i :: 0 <= i < |gradientSmooth| && gradientSmooth[i] < -DEFECT_GRADIENT_THRESHOLD ==> i in r
  {
    Where(seq(|gradientSmooth|, i requires 0 <= i < |gradientSmooth| => gradientSmooth[i] < -DEFECT_GRADIENT_THRESHOLD))
  }

  /** The indices where the transmission dips more than 10 points below the local mean. */
  function AbsorptionBands(t: seq<real>, localMean: seq<real>): (r: seq<nat>)
    requires |localMean| == |t|
    ensures forall k :: 0 <= k < |r| ==> r[k] < |t| && t[r[k]] - localMean[r[k]] < -DEFECT_DROP_THRESHOLD * 100.0
    ensures forall k, l :: 0 <= k < l < |r| ==> r[k] < r[l]
    ensures forall i :: 0 <= i < |t| && t[i] - localMean[i] < -DEFECT_DROP_THRESHOLD * 100.0 ==> i in r
  {
    Where(seq(|t|, i requires 0 <= i < |t| => t[i] - localMean[i] < -DEFECT_DROP_THRESHOLD * 100.0))
  }

  /** The clusters laid end to end. */
  function Flatten(cs: seq<seq<nat>>): seq<nat>
  {
    if cs == [] then [] else Flatten(cs[..|cs| - 1]) + cs[|cs| - 1]
  }

  function Last(c: seq<nat>): nat
    requires |c| > 0
  {
    c[|c| - 1]
  }

  /** A non-empty cluster whose consecutive members are less than CLUSTER_GAP apart. */
  ghost predicate IsRun(c: seq<nat>)
  {
    |c| > 0 && forall j :: 0 < j < |c| ==> c[j] - c[j - 1] < CLUSTER_GAP
  }

  /** Two non-empty clusters at least CLUSTER_GAP apart. */
  ghost predicate Separated(a: seq<nat>, b: seq<nat>)
  {
    |a| > 0 && |b| > 0 && b[0] - Last(a) >= CLUSTER_GAP
  }

  /**
   * `cs` cuts `d` into maximal runs: laid end to end the clusters give back `d`, each
   * is a run, and consecutive clusters are at least CLUSTER_GAP apart.
   */
  ghost predicate IsRunPartition(d: seq<nat>, cs: seq<seq<nat>>)
  {
    && Flatten(cs) == d
    && (forall k :: 0 <= k < |cs| ==> IsRun(cs[k]))
    && (forall k :: 0 <= k < |cs| - 1 ==> Separated(cs[k], cs[k + 1]))
  }

  /** Appending `x` to the last run when it is within the gap of that run's last member. */
  lemma ExtendLastRun(d: seq<nat>, cs: seq<seq<nat>>, x: nat)
    requires IsRunPartition(d, cs) && |cs| > 0 && x - Last(cs[|cs| - 1]) < CLUSTER_GAP
    ensures IsRunPartition(d + [x], cs[..|cs| - 1] + [cs[|cs| - 1] + [x]])
  {
    var front, lastC := cs[..|cs| - 1], cs[|cs| - 1];
    var ncs := front + [lastC + [x]];
    assert ncs[..|ncs| - 1] == front && cs[..|cs| - 1] == front;
    assert Flatten(ncs) == Flatten(front) + (lastC + [x]);
    assert Flatten(cs) == Flatten(front) + lastC;
    assert IsRun(lastC + [x]);
    if |cs| > 1 {
      assert Separated(ncs[|ncs| - 2], ncs[|ncs| - 1]) by {
        assert ncs[|ncs| - 2] == cs[|cs| - 2];
        assert (lastC + [x])[0] == lastC[0];
      }
    }
    assert forall k :: 0 <= k < |ncs| - 1 ==> ncs[k] == cs[k];
  }

  /** Starting a new run with `x` when it is at least the gap past the last run. */
  lemma StartNewRun(d: seq<nat>, cs: seq<seq<nat>>, x: nat)
    requires IsRunPartition(d, cs)
    requires |cs| > 0 ==> x - Last(cs[|cs| - 1]) >= CLUSTER_GAP
    ensures IsRunPartition(d + [x], cs + [[x]])
  {
    var ncs := cs + [[x]];
    assert ncs[..|ncs| - 1] == cs;
    assert IsRun([x]);
  }

  /** The last element of a flattening of runs is the last run's last element. */
  lemma FlattenLast(cs: seq<seq<nat>>)
    requires |cs| > 0 && |cs[|cs| - 1]| > 0
    ensures |Flatten(cs)| > 0 && Flatten(cs)[|Flatten(cs)| - 1] == Last(cs[|cs| - 1])
  {
  }

  /** The clusters of the drop indices: each index joins the previous one's cluster when within the gap. */
  function Runs(d: seq<nat>): (cs: seq<seq<nat>>)
    ensures |d| > 0 ==> |cs| > 0
    ensures forall k :: 0 <= k < |cs| ==> |cs[k]| > 0
  {
    if d == [] then []
    else
      var init := d[..|d| - 1];
      var x := d[|d| - 1];
      var prev := Runs(init);
      if |init| > 0 && x - init[|init| - 1] < CLUSTER_GAP then
        prev[..|prev| - 1] + [prev[|prev| - 1] + [x]]
      else
        prev + [[x]]
  }

  /** Runs cuts the drops into maximal runs. */
  lemma {:induction false} RunsPartition(d: seq<nat>)
    ensures IsRunPartition(d, Runs(d))
  {
    if d != [] {
      var init := d[..|d| - 1];
      var x := d[|d| - 1];
      var prev := Runs(init);
      RunsPartition(init);
      assert d == init + [x];
      if |init| > 0 && x - init[|init| - 1] < CLUSTER_GAP {
        FlattenLast(prev);
        ExtendLastRun(init, prev, x);
      } else {
        if |init| > 0 {
          FlattenLast(prev);
        }
        StartNewRun(init, prev, x);
      }
    }
  }

  lemma {:induction false} FlattenLength(cs: seq<seq<nat>>)
    requires forall k :: 0 <= k < |cs| ==> |cs[k]| > 0
    ensures |cs| <= |Flatten(cs)|
  {
    if cs != [] {
      FlattenLength(cs[..|cs| - 1]);
    }
  }

  /** Removing a last run of one element leaves a run partition of the shorter sequence. */
  lemma DropLastRun(d: seq<nat>, cs: seq<seq<nat>>)
    requires IsRunPartition(d, cs) && |d| > 0 && |cs| > 0 && |cs[|cs| - 1]| == 1
    ensures IsRunPartition(d[..|d| - 1], cs[..|cs| - 1])
    ensures cs == cs[..|cs| - 1] + [[d[|d| - 1]]]
  {
    var front := cs[..|cs| - 1];
    var lastC := cs[|cs| - 1];
    assert Flatten(cs) == Flatten(front) + lastC;
    assert lastC == [lastC[0]] && lastC[0] == d[|d| - 1];
    assert cs == front + [lastC];
  }

  /** Removing the last member of a last run of several leaves a run partition of the shorter sequence. */
  lemma ShortenLastRun(d: seq<nat>, cs: seq<seq<nat>>)
    requires IsRunPartition(d, cs) && |d| > 0 && |cs| > 0 && |cs[|cs| - 1]| > 1
    ensures var lastC := cs[|cs| - 1];
      && IsRunPartition(d[..|d| - 1], cs[..|cs| - 1] + [lastC[..|lastC| - 1]])
      && cs == cs[..|cs| - 1] + [lastC[..|lastC| - 1] + [d[|d| - 1]]]
  {
    var front, lastC := cs[..|cs| - 1], cs[|cs| - 1];
    var shorter := front + [lastC[..|lastC| - 1]];
    assert Flatten(cs) == Flatten(front) + lastC;
    assert lastC == lastC[..|lastC| - 1] + [d[|d| - 1]];
    assert shorter[..|shorter| - 1] == front;
    assert Flatten(shorter) == Flatten(front) + lastC[..|lastC| - 1];
    assert IsRun(lastC[..|lastC| - 1]);
    if |cs| > 1 {
      assert Separated(shorter[|shorter| - 2], shorter[|shorter| - 1]) by {
        assert shorter[|shorter| - 2] == cs[|cs| - 2];
      }
    }
    assert forall k :: 0 <= k < |shorter| - 1 ==> shorter[k] == cs[k];
    assert cs == front + [lastC];
  }

  /** The step of RunPartitionUnique whose last run is a single drop. */
  lemma UniqueAfterSingleton(d: seq<nat>, cs: seq<seq<nat>>)
    requires IsRunPartition(d, cs) && |d| > 0 && |cs| > 0 && |cs[|cs| - 1]| == 1
    requires cs[..|cs| - 1] == Runs(d[..|d| - 1])
    ensures cs == Runs(d)
  {
    var init, x := d[..|d| - 1], d[|d| - 1];
    var front := cs[..|cs| - 1];
    DropLastRun(d, cs);
    if |init| > 0 {
      assert |front| > 0;
      FlattenLast(front);
      assert init[|init| - 1] == Last(front[|front| - 1]);
      assert front[|front| - 1] == cs[|cs| - 2];
      assert Separated(cs[|cs| - 2], cs[|cs| - 1]);
      assert cs[|cs| - 1][0] == x;
      assert !(x - init[|init| - 1] < CLUSTER_GAP);
    }
  }

  /** The step of RunPartitionUnique whose last run has several drops. */
  lemma UniqueAfterLonger(d: seq<nat>, cs: seq<seq<nat>>)
    requires IsRunPartition(d, cs) && |d| > 0 && |cs| > 0 && |cs[|cs| - 1]| > 1
    requires var lastC := cs[|cs| - 1]; cs[..|cs| - 1] + [lastC[..|lastC| - 1]] == Runs(d[..|d| - 1])
    ensures cs == Runs(d)
  {
    var init, x := d[..|d| - 1], d[|d| - 1];
    var lastC := cs[|cs| - 1];
    var shorter := cs[..|cs| - 1] + [lastC[..|lastC| - 1]];
    ShortenLastRun(d, cs);
    FlattenLast(shorter);
    assert init[|init| - 1] == lastC[|lastC| - 2];
    assert IsRun(lastC);
    assert lastC[|lastC| - 1] == x;
    assert x - init[|init| - 1] < CLUSTER_GAP;
    assert shorter[..|shorter| - 1] == cs[..|cs| - 1];
  }

  /** A run partition is unique: Runs is the only way to cut the drops into maximal runs. */
  lemma {:induction false} RunPartitionUnique(d: seq<nat>, cs: seq<seq<nat>>)
    requires IsRunPartition(d, cs)
    ensures cs == Runs(d)
    decreases |d|
  {
    FlattenLength(cs);
    if d != [] {
      var lastC := cs[|cs| - 1];
      if |lastC| == 1 {
        DropLastRun(d, cs);
        RunPartitionUnique(d[..|d| - 1], cs[..|cs| - 1]);
        UniqueAfterSingleton(d, cs);
      } else {
        ShortenLastRun(d, cs);
        RunPartitionUnique(d[..|d| - 1], cs[..|cs| - 1] + [lastC[..|lastC| - 1]]);
        UniqueAfterLonger(d, cs);
      }
    }
  }

  /**
   * The clustering loop of the source: a current cluster grows while consecutive drop
   * indices are less than CLUSTER_GAP apart and is closed otherwise.
   */
  method ClusterDrops(drops: seq<nat>) returns (clusters: seq<seq<nat>>)
    requires |drops| > 0
    ensures clusters == Runs(drops)
  {
    clusters := [];
    var current := [drops[0]];
    assert drops[..1] == [drops[0]];
    var i := 1;
    while i < |drops|
      invariant 1 <= i <= |drops|
      invariant clusters + [current] == Runs(drops[..i])
    {
      ghost var prev := clusters + [current];
      assert drops[..i + 1] == drops[..i] + [drops[i]];
      RunsSnoc(drops[..i], drops[i]);
      assert prev[..|prev| - 1] == clusters && prev[|prev| - 1] == current;
      if drops[i] - drops[i - 1] < CLUSTER_GAP {
        current := current + [drops[i]];
      } else {
        clusters := clusters + [current];
        current := [drops[i]];
      }
      i := i + 1;
    }
    clusters := clusters + [current];
    assert drops[..i] == drops;
  }

  /** One more drop index either extends the last cluster or opens a new one. */
  lemma RunsSnoc(d: seq<nat>, x: nat)
    requires |d| > 0
    ensures var cs := Runs(d);
      Runs(d + [x]) ==
        if x - d[|d| - 1] < CLUSTER_GAP then cs[..|cs| - 1] + [cs[|cs| - 1] + [x]] else cs + [[x]]
  {
    assert (d + [x])[..|d + [x]| - 1] == d;
  }

  /** Every cluster member is a valid index into the wavelength grid. */
  predicate ClustersWithin(cs: seq<seq<nat>>, n: nat)
  {
    forall k, j :: 0 <= k < |cs| && 0 <= j < |cs[k]| ==> cs[k][j] < n
  }

  /** The wavelength at each cluster's middle element (`cluster[len(cluster)//2]`). */
  function Centers(wl: seq<real>, cs: seq<seq<nat>>): (r: seq<real>)
    requires forall k :: 0 <= k < |cs| ==> |cs[k]| > 0
    requires ClustersWithin(cs, |wl|)
    ensures |r| == |cs|
    ensures forall k :: 0 <= k < |cs| ==> r[k] == wl[cs[k][|cs[k]| / 2]]
  {
    seq(|cs|, k requires 0 <= k < |cs| => wl[cs[k][|cs[k]| / 2]])
  }

  /** The members of the clusters are the members of the flattening. */
  lemma {:induction false} FlattenMembers(cs: seq<seq<nat>>, k: nat, j: nat)
    requires k < |cs| && j < |cs[k]|
    ensures cs[k][j] in Flatten(cs)
  {
    if k < |cs| - 1 {
      FlattenMembers(cs[..|cs| - 1], k, j);
    }
  }

  /**
   * The clusters of in-range drop indices stay in range, and there is at least one
   * cluster, and never more clusters than drops, whenever there is a drop.
   */
  lemma RunsOfDrops(d: seq<nat>, n: nat)
    requires forall k :: 0 <= k < |d| ==> d[k] < n
    ensures ClustersWithin(Runs(d), n)
    ensures |d| > 0 ==> 1 <= |Runs(d)| <= |d|
  {
    var cs := Runs(d);
    RunsPartition(d);
    forall k, j | 0 <= k < |cs| && 0 <= j < |cs[k]|
      ensures cs[k][j] < n
    {
      FlattenMembers(cs, k, j);
    }
    FlattenLength(cs);
  }

  // ---------------------------------------------------------------------------
  // Defect detection: absorption bands and the final list
  // ---------------------------------------------------------------------------

  /** `w` is at least DEDUPE_DISTANCE_NM from every recorded location. */
  predicate FarFromAll(w: real, locations: seq<real>)
  {
    forall i :: 0 <= i < |locations| ==> Abs(w - locations[i]) >= DEDUPE_DISTANCE_NM
  }

  /**
   * The candidates appended in order, each only when far from every location recorded
   * so far; the result extends `locations`.
   */
  function AddUnique(locations: seq<real>, candidates: seq<real>): (r: seq<real>)
    ensures |locations| <= |r| && r[..|locations|] == locations
  {
    if candidates == [] then locations
    else
      var prev := AddUnique(locations, candidates[..|candidates| - 1]);
      var w := candidates[|candidates| - 1];
      if FarFromAll(w, prev) then prev + [w] else prev
  }

  /** Each appended value is a candidate at least DEDUPE_DISTANCE_NM from every value before it. */
  lemma {:induction false} AddUniqueAppended(locations: seq<real>, candidates: seq<real>)
    ensures forall k :: |locations| <= k < |AddUnique(locations, candidates)| ==>
      AddUnique(locations, candidates)[k] in candidates
      && FarFromAll(AddUnique(locations, candidates)[k], AddUnique(locations, candidates)[..k])
  {
    if candidates != [] {
      var init := candidates[..|candidates| - 1];
      var w := candidates[|candidates| - 1];
      assert candidates == init + [w];
      AddUniqueAppended(locations, init);
      var prev := AddUnique(locations, init);
      assert forall k :: |locations| <= k < |prev| ==> prev[k] in init && FarFromAll(prev[k], prev[..k]);
      var r := AddUnique(locations, candidates);
      forall k | |locations| <= k < |r|
        ensures r[k] in candidates && FarFromAll(r[k], r[..k])
      {
        if k < |prev| {
          assert r[k] == prev[k] && r[..k] == prev[..k];
          assert prev[k] in init;
        } else {
          assert r[k] == w && r[..k] == prev;
        }
      }
    }
  }

  /** Every candidate lies within DEDUPE_DISTANCE_NM of some value of the result. */
  lemma {:induction false} AddUniqueCovers(locations: seq<real>, candidates: seq<real>)
    ensures forall w :: w in candidates ==> !FarFromAll(w, AddUnique(locations, candidates))
  {
    if candidates != [] {
      var init := candidates[..|candidates| - 1];
      var w := candidates[|candidates| - 1];
      assert candidates == init + [w];
      AddUniqueCovers(locations, init);
      var prev := AddUnique(locations, init);
      var r := AddUnique(locations, candidates);
      forall v | v in candidates
        ensures !FarFromAll(v, r)
      {
        if v in init {
          var i :| 0 <= i < |prev| && Abs(v - prev[i]) < DEDUPE_DISTANCE_NM;
          assert r[i] == prev[i];
        } else if FarFromAll(w, prev) {
          assert v == w && r[|prev|] == w;
        } else {
          var i :| 0 <= i < |prev| && Abs(w - prev[i]) < DEDUPE_DISTANCE_NM;
          assert v == w && r[i] == prev[i];
        }
      }
    }
  }

  /** The wavelengths at the absorption-band indices. */
  function BandWavelengths(wl: seq<real>, bands: seq<nat>): (r: seq<real>)
    requires forall k :: 0 <= k < |bands| ==> bands[k] < |wl|
    ensures |r| == |bands| && forall k :: 0 <= k < |bands| ==> r[k] == wl[bands[k]]
  {
    Select(wl, bands)
  }

  /** The defect wavelengths: cluster centres, then far-enough absorption bands, sorted. */
  function DefectLocations(wl: seq<real>, t: seq<real>, gradientSmooth: seq<real>, localMean: seq<real>): (r: seq<real>)
    requires |wl| == |t| == |gradientSmooth| == |localMean|
    ensures IsSorted(r)
    ensures |SharpDrops(gradientSmooth)| > 0 ==> |r| >= 1
  {
    var drops := SharpDrops(gradientSmooth);
    RunsOfDrops(drops, |wl|);
    var centers := Centers(wl, Runs(drops));
    var added := AddUnique(centers, BandWavelengths(wl, AbsorptionBands(t, localMean)));
    SortMembers(added);
    Sort(added)
  }

  /** Sorting keeps the length and the members. */
  lemma SortMembers(s: seq<real>)
    ensures |Sort(s)| == |s|
    ensures forall x :: x in Sort(s) <==> x in s
  {
    var r := Sort(s);
    assert |multiset(r)| == |multiset(s)|;
    assert forall x :: x in r <==> x in multiset(r);
    assert forall x :: x in s <==> x in multiset(s);
  }

  /**
   * The list holds the wavelength of every drop cluster's middle element, and each of
   * its values is such a cluster centre or the wavelength of an absorption-band point.
   */
  lemma DefectLocationsMembers(wl: seq<real>, t: seq<real>, gradientSmooth: seq<real>, localMean: seq<real>)
    requires |wl| == |t| == |gradientSmooth| == |localMean|
    ensures ClustersWithin(Runs(SharpDrops(gradientSmooth)), |wl|)
    ensures forall k :: 0 <= k < |Runs(SharpDrops(gradientSmooth))| ==>
      Centers(wl, Runs(SharpDrops(gradientSmooth)))[k] in DefectLocations(wl, t, gradientSmooth, localMean)
    ensures forall x :: x in DefectLocations(wl, t, gradientSmooth, localMean) ==>
      x in Centers(wl, Runs(SharpDrops(gradientSmooth))) || IsBandWavelength(x, wl, t, localMean)
  {
    DefectLocationsKeepCenters(wl, t, gradientSmooth, localMean);
    DefectLocationsOrigin(wl, t, gradientSmooth, localMean);
  }

  /** Every cluster centre is a defect location. */
  lemma DefectLocationsKeepCenters(wl: seq<real>, t: seq<real>, gradientSmooth: seq<real>, localMean: seq<real>)
    requires |wl| == |t| == |gradientSmooth| == |localMean|
    ensures ClustersWithin(Runs(SharpDrops(gradientSmooth)), |wl|)
    ensures forall k :: 0 <= k < |Runs(SharpDrops(gradientSmooth))| ==>
      Centers(wl, Runs(SharpDrops(gradientSmooth)))[k] in DefectLocations(wl, t, gradientSmooth, localMean)
  {
    var drops := SharpDrops(gradientSmooth);
    RunsOfDrops(drops, |wl|);
    var cs := Runs(drops);
    var centers := Centers(wl, cs);
    var cands := BandWavelengths(wl, AbsorptionBands(t, localMean));
    var added := AddUnique(centers, cands);
    var r := DefectLocations(wl, t, gradientSmooth, localMean);
    SortMembers(added);
    assert r == Sort(added);
    forall k | 0 <= k < |cs|
      ensures centers[k] in r
    {
      assert added[k] == centers[k];
    }
  }

  /** Every defect location is a cluster centre or the wavelength of an absorption-band point. */
  lemma DefectLocationsOrigin(wl: seq<real>, t: seq<real>, gradientSmooth: seq<real>, localMean: seq<real>)
    requires |wl| == |t| == |gradientSmooth| == |localMean|
    ensures ClustersWithin(Runs(SharpDrops(gradientSmooth)), |wl|)
    ensures forall x :: x in DefectLocations(wl, t, gradientSmooth, localMean) ==>
      x in Centers(wl, Runs(SharpDrops(gradientSmooth))) || IsBandWavelength(x, wl, t, localMean)
  {
    var drops := SharpDrops(gradientSmooth);
    RunsOfDrops(drops, |wl|);
    var centers := Centers(wl, Runs(drops));
    var cands := BandWavelengths(wl, AbsorptionBands(t, localMean));
    var added := AddUnique(centers, cands);
    SortMembers(added);
    assert DefectLocations(wl, t, gradientSmooth, localMean) == Sort(added);
    AddUniqueMembers(centers, cands);
    BandWavelengthsAreBands(wl, t, localMean);
  }

  /** What AddUnique returns comes from the locations or the candidates. */
  lemma AddUniqueMembers(locations: seq<real>, candidates: seq<real>)
    ensures forall x :: x in AddUnique(locations, candidates) ==> x in locations || x in candidates
  {
    var r := AddUnique(locations, candidates);
    AddUniqueAppended(locations, candidates);
    forall x | x in r
      ensures x in locations || x in candidates
    {
      var k :| 0 <= k < |r| && r[k] == x;
      if k < |locations| {
        assert r[..|locations|][k] == x;
      }
    }
  }

  /** The candidate wavelengths are absorption-band wavelengths. */
  lemma BandWavelengthsAreBands(wl: seq<real>, t: seq<real>, localMean: seq<real>)
    requires |wl| == |t| == |localMean|
    ensures forall x :: x in BandWavelengths(wl, AbsorptionBands(t, localMean)) ==> IsBandWavelength(x, wl, t, localMean)
  {
    var bands := AbsorptionBands(t, localMean);
    var cands := BandWavelengths(wl, bands);
    forall x | x in cands
      ensures IsBandWavelength(x, wl, t, localMean)
    {
      var b :| 0 <= b < |cands| && cands[b] == x;
      assert bands[b] < |wl| && x == wl[bands[b]];
    }
  }

  /** `x` is the wavelength of a point that dips more than 10 points below its local mean. */
  ghost predicate IsBandWavelength(x: real, wl: seq<real>, t: seq<real>, localMean: seq<real>)
    requires |wl| == |t| == |localMean|
  {
    exists i :: 0 <= i < |wl| && t[i] - localMean[i] < -DEFECT_DROP_THRESHOLD * 100.0 && x == wl[i]
  }

  /** Every absorption-band wavelength lies within DEDUPE_DISTANCE_NM of a listed location. */
  lemma DefectLocationsCoverBands(wl: seq<real>, t: seq<real>, gradientSmooth: seq<real>, localMean: seq<real>)
    requires |wl| == |t| == |gradientSmooth| == |localMean|
    ensures forall i :: 0 <= i < |wl| && t[i] - localMean[i] < -DEFECT_DROP_THRESHOLD * 100.0 ==>
      !FarFromAll(wl[i], DefectLocations(wl, t, gradientSmooth, localMean))
  {
    var drops := SharpDrops(gradientSmooth);
    RunsOfDrops(drops, |wl|);
    var centers := Centers(wl, Runs(drops));
    var bands := AbsorptionBands(t, localMean);
    var cands := BandWavelengths(wl, bands);
    var added := AddUnique(centers, cands);
    var r := DefectLocations(wl, t, gradientSmooth, localMean);
    SortMembers(added);
    AddUniqueCovers(centers, cands);
    forall i | 0 <= i < |wl| && t[i] - localMean[i] < -DEFECT_DROP_THRESHOLD * 100.0
      ensures !FarFromAll(wl[i], r)
    {
      var b :| 0 <= b < |bands| && bands[b] == i;
      assert cands[b] == wl[i];
      NearSurvivesSort(wl[i], added);
    }
  }

  /** Being near some value of a list does not depend on the list's order. */
  lemma NearSurvivesSort(w: real, s: seq<real>)
    requires !FarFromAll(w, s)
    ensures !FarFromAll(w, Sort(s))
  {
    SortMembers(s);
    var j :| 0 <= j < |s| && Abs(w - s[j]) < DEDUPE_DISTANCE_NM;
    assert s[j] in Sort(s);
    var k :| 0 <= k < |Sort(s)| && Sort(s)[k] == s[j];
  }

  /**
   * `_detect_defects` over a given smoothed gradient and local mean: the clustering
   * loop, the centre of each cluster appended, then every absorption band appended in
   * a loop when far from all locations so far, and the list sorted.
   */
  method DetectDefects(wl: seq<real>, t: seq<real>, gradientSmooth: seq<real>, localMean: seq<real>)
    returns (locations: seq<real>)
    requires |wl| == |t| == |gradientSmooth| == |localMean|
    ensures locations == DefectLocations(wl, t, gradientSmooth, localMean)
  {
    var drops := SharpDrops(gradientSmooth);
    RunsOfDrops(drops, |wl|);
    var found: seq<real> := [];
    if |drops| > 0 {
      var clusters := ClusterDrops(drops);
      found := ClusterCenters(wl, clusters);
    }
    var bands := AbsorptionBands(t, localMean);
    found := AddBandLocations(found, wl, bands);
    locations := Sort(found);
  }

  /** The wavelength of each cluster's middle element, appended cluster by cluster. */
  method ClusterCenters(wl: seq<real>, clusters: seq<seq<nat>>) returns (found: seq<real>)
    requires forall k :: 0 <= k < |clusters| ==> |clusters[k]| > 0
    requires ClustersWithin(clusters, |wl|)
    ensures found == Centers(wl, clusters)
  {
    found := [];
    var k := 0;
    while k < |clusters|
      invariant 0 <= k <= |clusters|
      invariant found == Centers(wl, clusters)[..k]
    {
      var cluster := clusters[k];
      found := found + [wl[cluster[|cluster| / 2]]];
      k := k + 1;
    }
  }

  /** Each absorption-band wavelength appended, in order, when far from every location so far. */
  method AddBandLocations(locations: seq<real>, wl: seq<real>, bands: seq<nat>) returns (found: seq<real>)
    requires forall k :: 0 <= k < |bands| ==> bands[k] < |wl|
    ensures found == AddUnique(locations, BandWavelengths(wl, bands))
  {
    ghost var cands := BandWavelengths(wl, bands);
    found := locations;
    var b := 0;
    while b < |bands|
      invariant 0 <= b <= |bands|
      invariant found == AddUnique(locations, cands[..b])
    {
      assert cands[..b + 1][..b] == cands[..b];
      var w := wl[bands[b]];
      if FarFromAll(w, found) {
        found := found + [w];
      }
      b := b + 1;
    }
    assert cands[..b] == cands;
  }

  // ---------------------------------------------------------------------------
  // Metrics of one spectrum
  // ---------------------------------------------------------------------------

  /** The notes the classifier attaches; the numbers of the threshold note are kept unformatted. */
  datatype Note =
    | VisibleRangeNotCovered
    | DefectsDetected(count: nat)
    | BelowTransmissionThreshold(avgVisible: real, threshold: real)
    | FailedDueToDefects

  /** The pass/fail verdict: the visible average reaches the threshold and no defect was found. */
  predicate PassQc(avgVisible: real, threshold: real, defectCount: nat)
  {
    avgVisible >= threshold && defectCount == 0
  }

  /** The notes in the order the source appends them. */
  function NotesFor(visibleCovered: bool, defectCount: nat, avgVisible: real, threshold: real): seq<Note>
  {
    (if visibleCovered then [] else [VisibleRangeNotCovered])
    + (if defectCount > 0 then [DefectsDetected(defectCount)] else [])
    + (if PassQc(avgVisible, threshold, defectCount) then []
       else
         (if avgVisible < threshold then [BelowTransmissionThreshold(avgVisible, threshold)] else [])
         + (if defectCount > 0 then [FailedDueToDefects] else []))
  }

  /**
   * Each note appears exactly under its rule: the coverage note when the visible window
   * is empty, the count note and the defect-failure note when a defect was found, the
   * threshold note when the visible average is below the threshold; the two failure
   * notes can appear together, and a passing sample has no failure note.
   */
  lemma NoteRules(visibleCovered: bool, defectCount: nat, avgVisible: real, threshold: real)
    ensures var notes := NotesFor(visibleCovered, defectCount, avgVisible, threshold);
      && (VisibleRangeNotCovered in notes <==> !visibleCovered)
      && (DefectsDetected(defectCount) in notes <==> defectCount > 0)
      && (forall n :: 0 <= n != defectCount ==> DefectsDetected(n) !in notes)
      && (BelowTransmissionThreshold(avgVisible, threshold) in notes <==> avgVisible < threshold)
      && (FailedDueToDefects in notes <==> defectCount > 0)
      && (PassQc(avgVisible, threshold, defectCount) ==>
            BelowTransmissionThreshold(avgVisible, threshold) !in notes && FailedDueToDefects !in notes)
      && |notes| <= 4
  {
  }

  datatype QualityMetrics = QualityMetrics(
    sampleId: string,
    materialType: string,
    peakTransmission: real,
    avgTransmissionVisible: real,
    avgTransmissionFull: real,
    transmissionBandwidthNm: real,
    uniformityScore: real,
    defectCount: nat,
    defectLocations: seq<real>,
    qualityGrade: QualityGrade,
    passQc: bool,
    notes: seq<Note>)

  /** The two settings of a classifier: the pass threshold and the bandwidth threshold (%). */
  datatype Classifier = Classifier(visibleThreshold: real, bandwidthThreshold: real)

  const DEFAULT_CLASSIFIER: Classifier := Classifier(80.0, 80.0)

  /**
   * The numerical routines the classifier takes from numpy and does not itself define:
   * the square root, the smoothed gradient of the transmission over the wavelengths
   * (`np.gradient` then a moving average), and the 20-point local mean (`np.convolve`).
   */
  datatype Kernels = Kernels(
    sqrt: real -> real,
    smoothedGradient: (seq<real>, seq<real>) -> seq<real>,
    localMean: seq<real> -> seq<real>)
  {
    /**
     * The square root is one, and on spectra long enough for the source's filters both
     * return one value per sample.
     */
    ghost predicate Valid()
    {
      && IsSqrt(sqrt)
      && (forall t, wl :: |t| >= LOCAL_MEAN_WINDOW ==> |smoothedGradient(t, wl)| == |t|)
      && (forall t :: |t| >= LOCAL_MEAN_WINDOW ==> |localMean(t)| == |t|)
    }
  }

  /** The metrics of one spectrum, as `calculate_metrics` computes them. */
  function Metrics(
    c: Classifier, wl: seq<real>, t: seq<real>, sampleId: string, materialType: string, k: Kernels): QualityMetrics
    requires |wl| == |t| >= LOCAL_MEAN_WINDOW && k.Valid()
  {
    var visible := VisibleTransmission(wl, t);
    var avgVisible := AvgVisible(wl, t);
    var locations := DefectLocations(wl, t, k.smoothedGradient(t, wl), k.localMean(t));
    QualityMetrics(
      sampleId, materialType, Max(t), avgVisible, Mean(t), Bandwidth(wl, t, c.bandwidthThreshold),
      Uniformity(visible, k.sqrt), |locations|, locations, ClassifyGrade(avgVisible),
      PassQc(avgVisible, c.visibleThreshold, |locations|),
      NotesFor(|visible| > 0, |locations|, avgVisible, c.visibleThreshold))
  }

  /**
   * What the metrics promise: the peak is the largest value and is attained; both
   * averages lie between the smallest and the largest value; the visible average falls
   * back to the full mean, with its note and a zero uniformity, exactly when no point
   * lies in 400..700 nm; the uniformity is in [0, 100]; the defect count is the number
   * of sorted defect locations; the grade is that of the visible average; and the
   * sample passes exactly when that average reaches the threshold and no defect was found.
   */
  lemma MetricsProperties(
    c: Classifier, wl: seq<real>, t: seq<real>, sampleId: string, materialType: string, k: Kernels)
    requires |wl| == |t| >= LOCAL_MEAN_WINDOW && k.Valid()
    ensures var m := Metrics(c, wl, t, sampleId, materialType, k);
      && m.peakTransmission in t
      && (forall i :: 0 <= i < |t| ==> t[i] <= m.peakTransmission)
      && Min(t) <= m.avgTransmissionVisible <= Max(t)
      && Min(t) <= m.avgTransmissionFull <= Max(t)
      && ((forall i :: 0 <= i < |wl| ==> !InVisible(wl[i])) <==> VisibleRangeNotCovered in m.notes)
      && ((forall i :: 0 <= i < |wl| ==> !InVisible(wl[i])) ==>
            m.avgTransmissionVisible == m.avgTransmissionFull && m.uniformityScore == 0.0)
      && 0.0 <= m.uniformityScore <= 100.0
      && m.defectCount == |m.defectLocations| && IsSorted(m.defectLocations)
      && m.qualityGrade == ClassifyGrade(m.avgTransmissionVisible)
      && (m.passQc <==> m.avgTransmissionVisible >= c.visibleThreshold && m.defectCount == 0)
  {
    MetricsAverages(c, wl, t, sampleId, materialType, k);
    MetricsCoverage(c, wl, t, sampleId, materialType, k);
    MetricsVerdict(c, wl, t, sampleId, materialType, k);
  }

  lemma MetricsAverages(
    c: Classifier, wl: seq<real>, t: seq<real>, sampleId: string, materialType: string, k: Kernels)
    requires |wl| == |t| >= LOCAL_MEAN_WINDOW && k.Valid()
    ensures var m := Metrics(c, wl, t, sampleId, materialType, k);
      && Min(t) <= m.avgTransmissionVisible <= Max(t)
      && Min(t) <= m.avgTransmissionFull <= Max(t)
  {
    MeanBounds(t, Min(t), Max(t));
    AvgVisibleBounds(wl, t);
  }

  lemma MetricsCoverage(
    c: Classifier, wl: seq<real>, t: seq<real>, sampleId: string, materialType: string, k: Kernels)
    requires |wl| == |t| >= LOCAL_MEAN_WINDOW && k.Valid()
    ensures var m := Metrics(c, wl, t, sampleId, materialType, k);
      && ((forall i :: 0 <= i < |wl| ==> !InVisible(wl[i])) <==> VisibleRangeNotCovered in m.notes)
      && ((forall i :: 0 <= i < |wl| ==> !InVisible(wl[i])) ==>
            m.avgTransmissionVisible == m.avgTransmissionFull && m.uniformityScore == 0.0)
  {
    NoteRules(|VisibleTransmission(wl, t)| > 0, |DefectLocations(wl, t, k.smoothedGradient(t, wl), k.localMean(t))|,
      AvgVisible(wl, t), c.visibleThreshold);
  }

  lemma MetricsVerdict(
    c: Classifier, wl: seq<real>, t: seq<real>, sampleId: string, materialType: string, k: Kernels)
    requires |wl| == |t| >= LOCAL_MEAN_WINDOW && k.Valid()
    ensures var m := Metrics(c, wl, t, sampleId, materialType, k);
      && 0.0 <= m.uniformityScore <= 100.0
      && m.defectCount == |m.defectLocations| && IsSorted(m.defectLocations)
      && m.qualityGrade == ClassifyGrade(m.avgTransmissionVisible)
      && (m.passQc <==> m.avgTransmissionVisible >= c.visibleThreshold && m.defectCount == 0)
  {
  }

  /** The visible average lies between the smallest and the largest transmission. */
  lemma AvgVisibleBounds(wl: seq<real>, t: seq<real>)
    requires |wl| == |t| > 0
    ensures Min(t) <= AvgVisible(wl, t) <= Max(t)
  {
    var visible := VisibleTransmission(wl, t);
    if |visible| > 0 {
      forall i | 0 <= i < |visible|
        ensures Min(t) <= visible[i] <= Max(t)
      {
        assert visible[i] == t[VisibleIndices(wl)[i]];
      }
      MeanBounds(visible, Min(t), Max(t));
    } else {
      MeanBounds(t, Min(t), Max(t));
    }
  }

  /**
   * The appends `calculate_metrics` makes to its notes list once the visible window,
   * the defects and the verdict are known.
   */
  method CollectNotes(visibleCovered: bool, defectCount: nat, avgVisible: real, threshold: real, pass: bool)
    returns (notes: seq<Note>)
    requires pass == PassQc(avgVisible, threshold, defectCount)
    ensures notes == NotesFor(visibleCovered, defectCount, avgVisible, threshold)
  {
    notes := [];
    if !visibleCovered {
      notes := notes + [VisibleRangeNotCovered];
    }
    if defectCount > 0 {
      notes := notes + [DefectsDetected(defectCount)];
    }
    if !pass {
      if avgVisible < threshold {
        notes := notes + [BelowTransmissionThreshold(avgVisible, threshold)];
      }
      if defectCount > 0 {
        notes := notes + [FailedDueToDefects];
      }
    }
  }

  /** `calculate_metrics`: each metric in turn, then the verdict and its notes. */
  method CalculateMetrics(
    c: Classifier, wl: seq<real>, t: seq<real>, sampleId: string, materialType: string, k: Kernels)
    returns (m: QualityMetrics)
    requires |wl| == |t| >= LOCAL_MEAN_WINDOW && k.Valid()
    ensures m == Metrics(c, wl, t, sampleId, materialType, k)
  {
    var peak := Max(t);
    var visible := VisibleTransmission(wl, t);
    var avgVisible := if |visible| > 0 then Mean(visible) else Mean(t);
    assert avgVisible == AvgVisible(wl, t);
    var avgFull := Mean(t);
    var bandwidth := Bandwidth(wl, t, c.bandwidthThreshold);
    var uniformity := Uniformity(visible, k.sqrt);
    var locations := DetectDefects(wl, t, k.smoothedGradient(t, wl), k.localMean(t));
    var defectCount := |locations|;
    var grade := ClassifyGrade(avgVisible);
    var pass := avgVisible >= c.visibleThreshold && defectCount == 0;
    var notes := CollectNotes(|visible| > 0, defectCount, avgVisible, c.visibleThreshold, pass);
    m := QualityMetrics(sampleId, materialType, peak, avgVisible, avgFull, bandwidth, uniformity,
      defectCount, locations, grade, pass, notes);
  }

  // ---------------------------------------------------------------------------
  // A table of samples
  // ---------------------------------------------------------------------------

  /** One row of the summary table. */
  datatype SummaryRow = SummaryRow(
    sampleId: string,
    materialType: string,
    peakTransmissionPct: real,
    avgVisibleTransmissionPct: real,
    transmissionBandwidthNm: real,
    uniformityScore: real,
    defectCount: nat,
    qualityGrade: string,
    passQc: bool,
    notes: seq<Note>)

  function ToRow(m: QualityMetrics): SummaryRow
  {
    SummaryRow(m.sampleId, m.materialType, m.peakTransmission, m.avgTransmissionVisible,
      m.transmissionBandwidthNm, m.uniformityScore, m.defectCount, GradeValue(m.qualityGrade),
      m.passQc, m.notes)
  }

  /**
   * The columns every sample needs: numeric wavelengths and transmissions, and a
   * material column, of which only the first cell of a sample is read.
   */
  ghost predicate SpectrumColumns(df: Frame)
  {
    && df.WellFormed()
    && "wavelength_nm" in df.columns && "transmission_percent" in df.columns && "material_type" in df.columns
    && AllNum(Column(df, "wavelength_nm"))
    && AllNum(Column(df, "transmission_percent"))
  }

  /**
   * A table whose samples `analyze_dataframe` can enumerate: the spectrum columns,
   * textual sample ids when there is a sample_id column, and a first row with a
   * textual material when there is none (that material names the single sample).
   */
  ghost predicate SampleTable(df: Frame)
  {
    && SpectrumColumns(df)
    && ("sample_id" in df.columns ==> AllText(Column(df, "sample_id")))
    && ("sample_id" !in df.columns ==> |df.rows| > 0 && Column(df, "material_type")[0].Text?)
  }

  /**
   * A table `analyze_dataframe` can process: every sample has enough points for the
   * metrics, and the material read from its first row is a text.
   */
  ghost predicate Analyzable(df: Frame)
  {
    && SampleTable(df)
    && forall id :: id in Samples(df) ==>
         |SampleFrame(df, id).rows| >= LOCAL_MEAN_WINDOW && Column(SampleFrame(df, id), "material_type")[0].Text?
  }

  /** The samples: the distinct sample ids in order of first appearance, or the first row's material. */
  function Samples(df: Frame): (ids: seq<Cell>)
    requires SampleTable(df)
    ensures forall i :: 0 <= i < |ids| ==> ids[i].Text?
  {
    if "sample_id" in df.columns then
      var u := Unique(Column(df, "sample_id"));
      assert forall i :: 0 <= i < |u| ==> u[i] in Column(df, "sample_id");
      u
    else [Column(df, "material_type")[0]]
  }

  /** The rows of one sample. */
  function SampleFrame(df: Frame, id: Cell): Frame
    requires SampleTable(df)
  {
    if "sample_id" in df.columns then SelectRows(df, "sample_id", id) else df
  }

  /** The rows selected for a sample of the table are non-empty and keep the spectrum columns. */
  lemma SampleFrameColumns(df: Frame, id: Cell)
    requires SampleTable(df) && id in Samples(df)
    ensures SpectrumColumns(SampleFrame(df, id)) && |SampleFrame(df, id).rows| > 0
  {
    if "sample_id" in df.columns {
      var g := SelectRows(df, "sample_id", id);
      var col := Column(df, "sample_id");
      var j :| 0 <= j < |col| && col[j] == id;
      RowsWhereMembers(df.rows, IndexOf(df.columns, "sample_id"), id);
      assert df.rows[j] in g.rows;
      SelectedColumn(df, g, "wavelength_nm");
      SelectedColumn(df, g, "transmission_percent");
    }
  }

  /** Every cell of a column of a row selection is a cell of the same column of the table. */
  lemma SelectedColumn(df: Frame, g: Frame, name: string)
    requires df.WellFormed() && g.WellFormed() && g.columns == df.columns && name in df.columns
    requires forall row :: row in g.rows ==> row in df.rows
    ensures forall i :: 0 <= i < |g.rows| ==> Column(g, name)[i] in Column(df, name)
  {
    forall i | 0 <= i < |g.rows|
      ensures Column(g, name)[i] in Column(df, name)
    {
      assert g.rows[i] in g.rows;
      var j :| 0 <= j < |df.rows| && df.rows[j] == g.rows[i];
      assert Column(df, name)[j] == Column(g, name)[i];
    }
  }

  /** The summary row of one sample. */
  function SampleRow(c: Classifier, df: Frame, id: Cell, k: Kernels): SummaryRow
    requires Analyzable(df) && id in Samples(df) && k.Valid()
  {
    var sub := SampleFrame(df, id);
    SampleFrameColumns(df, id);
    var wl := Reals(Column(sub, "wavelength_nm"));
    var t := Reals(Column(sub, "transmission_percent"));
    ToRow(Metrics(c, wl, t, id.s, Column(sub, "material_type")[0].s, k))
  }

  /**
   * With a sample_id column, the summary has one row per distinct sample id, the ids
   * distinct and in the order of their first appearance; without one it has a single
   * row named after the first row's material.
   */
  lemma SamplesProperties(df: Frame)
    requires SampleTable(df)
    ensures "sample_id" in df.columns ==>
      && (forall id :: id in Samples(df) <==> id in Column(df, "sample_id"))
      && (forall i, j :: 0 <= i < j < |Samples(df)| ==>
            Samples(df)[i].s != Samples(df)[j].s
            && IndexOf(Column(df, "sample_id"), Samples(df)[i]) < IndexOf(Column(df, "sample_id"), Samples(df)[j]))
    ensures "sample_id" !in df.columns ==> Samples(df) == [Column(df, "material_type")[0]]
  {
    if "sample_id" in df.columns {
      var col := Column(df, "sample_id");
      var ids := Samples(df);
      forall i, j | 0 <= i < j < |ids|
        ensures ids[i].s != ids[j].s && IndexOf(col, ids[i]) < IndexOf(col, ids[j])
      {
        UniqueFirstAppearance(col, i, j);
      }
    }
  }

  /** `rows` are the summary rows of the first `|rows|` samples, in the order of `Samples`. */
  ghost predicate SummarisesSamples(c: Classifier, df: Frame, k: Kernels, rows: seq<SummaryRow>)
    requires Analyzable(df) && k.Valid()
  {
    && |rows| <= |Samples(df)|
    && forall i :: 0 <= i < |rows| ==> rows[i] == SampleRow(c, df, Samples(df)[i], k)
  }

  /** Appending the next sample's row keeps the summary in step with the samples. */
  lemma SummarisesNext(c: Classifier, df: Frame, k: Kernels, rows: seq<SummaryRow>, row: SummaryRow)
    requires Analyzable(df) && k.Valid() && SummarisesSamples(c, df, k, rows) && |rows| < |Samples(df)|
    requires row == SampleRow(c, df, Samples(df)[|rows|], k)
    ensures SummarisesSamples(c, df, k, rows + [row])
  {
    var next := rows + [row];
    forall i | 0 <= i < |next|
      ensures next[i] == SampleRow(c, df, Samples(df)[i], k)
    {
      if i < |rows| {
        assert next[i] == rows[i];
      }
    }
  }

  /** `analyze_dataframe`: the summary rows, appended sample by sample. */
  method AnalyzeDataframe(c: Classifier, df: Frame, k: Kernels) returns (results: seq<SummaryRow>)
    requires Analyzable(df) && k.Valid()
    ensures |results| == |Samples(df)|
    ensures forall i :: 0 <= i < |results| ==> results[i] == SampleRow(c, df, Samples(df)[i], k)
  {
    var samples := Samples(df);
    results := [];
    var i := 0;
    while i < |samples|
      invariant i == |results| <= |samples|
      invariant SummarisesSamples(c, df, k, results)
    {
      var row := AnalyzeSample(c, df, samples[i], k);
      SummarisesNext(c, df, k, results, row);
      results := results + [row];
      i := i + 1;
    }
  }

  /** One iteration of the per-sample loop: select the sample's rows and summarise them. */
  method AnalyzeSample(c: Classifier, df: Frame, sample: Cell, k: Kernels) returns (row: SummaryRow)
    requires Analyzable(df) && sample in Samples(df) && k.Valid()
    ensures row == SampleRow(c, df, sample, k)
  {
    var sampleData := SampleFrame(df, sample);
    SampleFrameColumns(df, sample);
    var wavelength := Reals(Column(sampleData, "wavelength_nm"));
    var transmission := Reals(Column(sampleData, "transmission_percent"));
    var material := Column(sampleData, "material_type")[0].s;
    var metrics := CalculateMetrics(c, wavelength, transmission, sample.s, material, k);
    row := ToRow(metrics);
  }
}
