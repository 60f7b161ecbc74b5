/**
 * `Spline._monotonize`: keep only the "record" points of (x, y) data, those
 * whose x exceeds every x kept before, so that the kept x values strictly increase.
 */
module CurveFitting {
  import opened Wrappers

  type Point = (int, int)

  /** The two parallel arrays `_monotonize` returns. */
  datatype Monotone = Monotone(newX: seq<int>, newY: seq<int>)

  function Min(a: int, b: int): int { if a < b then a else b }

  /** Python's `zip(xs, ys)`: pairs up to the shorter length. */
  function Zip(xs: seq<int>, ys: seq<int>): (pts: seq<Point>)
    ensures |pts| == Min(|xs|, |ys|)
    ensures forall i :: 0 <= i < |pts| ==> pts[i] == (xs[i], ys[i])
  {
    seq(Min(|xs|, |ys|), i requires 0 <= i < Min(|xs|, |ys|) => (xs[i], ys[i]))
  }

  function Xs(pts: seq<Point>): (xs: seq<int>)
    ensures |xs| == |pts| && forall i :: 0 <= i < |pts| ==> xs[i] == pts[i].0
  {
    seq(|pts|, i requires 0 <= i < |pts| => pts[i].0)
  }

  function Ys(pts: seq<Point>): (ys: seq<int>)
    ensures |ys| == |pts| && forall i :: 0 <= i < |pts| ==> ys[i] == pts[i].1
  {
    seq(|pts|, i requires 0 <= i < |pts| => pts[i].1)
  }

  predicate StrictlyIncreasing(xs: seq<int>)
  {
    forall i, j :: 0 <= i < j < |xs| ==> xs[i] < xs[j]
  }

  /** The value of `highest` once `kept` has been kept, starting from `start`. */
  function Highest(kept: seq<Point>, start: int): int
  {
    if kept == [] then start else kept[|kept| - 1].0
  }

  /** The points the loop has kept after visiting `pts`, with `highest` starting at `start`. */
  function Records(pts: seq<Point>, start: int): (kept: seq<Point>)
    ensures |kept| <= |pts|
    decreases |pts|
  {
    if pts == [] then []
    else
      var kept := Records(pts[..|pts| - 1], start);
      if pts[|pts| - 1].0 > Highest(kept, start) then kept + [pts[|pts| - 1]] else kept
  }

  /** What `_monotonize(xdata, ydata)` returns; `xdata[0]` raises `IndexError` on empty x data. */
  function Monotonized(xdata: seq<int>, ydata: seq<int>): (r: Result<Monotone>)
    ensures r.Err? <==> |xdata| == 0
    ensures r.Ok? ==> |r.value.newX| == |r.value.newY| <= Min(|xdata|, |ydata|)
  {
    if |xdata| == 0 then Err(IndexError)
    else
      var kept := Records(Zip(xdata, ydata), xdata[0] - 1);
      Ok(Monotone(Xs(kept), Ys(kept)))
  }

  /** `_monotonize`: the loop over `zip(xdata, ydata)` appending to `new_x`, `new_y`. */
  method Monotonize(xdata: seq<int>, ydata: seq<int>) returns (r: Result<Monotone>)
    ensures r == Monotonized(xdata, ydata)
    ensures r.Ok? <==> |xdata| >= 1
    ensures r.Ok? ==> |r.value.newX| == |r.value.newY| <= Min(|xdata|, |ydata|)
    ensures r.Ok? ==> StrictlyIncreasing(r.value.newX)
  {
    if |xdata| == 0 {
      return Err(IndexError);
    }
    var highest := xdata[0] - 1;
    var newX: seq<int> := [];
    var newY: seq<int> := [];
    ghost var start := highest;
    ghost var pts := Zip(xdata, ydata);
    for i := 0 to Min(|xdata|, |ydata|)
      invariant newX == Xs(Records(pts[..i], start))
      invariant newY == Ys(Records(pts[..i], start))
      invariant highest == Highest(Records(pts[..i], start), start)
    {
      RecordsPrefixStep(pts, i, start);
      if xdata[i] > highest {
        newX := newX + [xdata[i]];
        newY := newY + [ydata[i]];
        highest := xdata[i];
        XsYsSnoc(Records(pts[..i], start), pts[i]);
      }
    }
    assert pts[..|pts|] == pts;
    RecordsIncrease(pts, start);
    r := Ok(Monotone(newX, newY));
  }

  lemma RecordsPrefixStep(pts: seq<Point>, i: int, start: int)
    requires 0 <= i < |pts|
    ensures var kept := Records(pts[..i], start);
            Records(pts[..i + 1], start) == if pts[i].0 > Highest(kept, start) then kept + [pts[i]] else kept
  {
    assert pts[..i + 1][..i] == pts[..i];
  }

  lemma XsYsSnoc(kept: seq<Point>, p: Point)
    ensures Xs(kept + [p]) == Xs(kept) + [p.0] && Ys(kept + [p]) == Ys(kept) + [p.1]
  {
  }

  // ---------------------------------------------------------------------------
  // Properties of the kept points
  // ---------------------------------------------------------------------------

  /** The kept x values strictly increase and all exceed the initial `highest`. */
  lemma {:induction false} RecordsIncrease(pts: seq<Point>, start: int)
    ensures StrictlyIncreasing(Xs(Records(pts, start)))
    ensures forall k :: 0 <= k < |Records(pts, start)| ==> Records(pts, start)[k].0 > start
    decreases |pts|
  {
    if pts != [] {
      RecordsIncrease(pts[..|pts| - 1], start);
    }
  }

  /** The largest of `start` and every x in `pts`. */
  function MaxX(pts: seq<Point>, start: int): (m: int)
    ensures m >= start && forall i :: 0 <= i < |pts| ==> pts[i].0 <= m
    decreases |pts|
  {
    if pts == [] then start
    else
      var m := MaxX(pts[..|pts| - 1], start);
      assert forall i :: 0 <= i < |pts| - 1 ==> pts[..|pts| - 1][i] == pts[i];
      if pts[|pts| - 1].0 > m then pts[|pts| - 1].0 else m
  }

  /** `highest` is the running maximum of the x values seen so far. */
  lemma {:induction false} HighestIsRunningMax(pts: seq<Point>, start: int)
    ensures Highest(Records(pts, start), start) == MaxX(pts, start)
    decreases |pts|
  {
    if pts != [] {
      HighestIsRunningMax(pts[..|pts| - 1], start);
    }
  }

  /** Exceeding the running maximum means exceeding `start` and every x seen. */
  lemma {:induction false} AboveMaxX(pts: seq<Point>, start: int, x: int)
    ensures x > MaxX(pts, start) <==> x > start && forall i :: 0 <= i < |pts| ==> x > pts[i].0
    decreases |pts|
  {
    if pts != [] {
      var init := pts[..|pts| - 1];
      AboveMaxX(init, start, x);
      assert forall i :: 0 <= i < |init| ==> init[i] == pts[i];
    }
  }

  /** Point `j` is a record: its x exceeds `start` and every earlier x. */
  predicate IsRecord(pts: seq<Point>, j: int, start: int)
    requires 0 <= j < |pts|
  {
    pts[j].0 > start && forall i :: 0 <= i < j ==> pts[i].0 < pts[j].0
  }

  /** The positions of the records, in increasing order: a reference definition of what is kept. */
  function RecordIndices(pts: seq<Point>, start: int): seq<int>
    decreases |pts|
  {
    if pts == [] then []
    else
      var n := |pts| - 1;
      RecordIndices(pts[..n], start) + (if IsRecord(pts, n, start) then [n] else [])
  }

  /** One step of the loop: the last point is appended exactly when it is a record. */
  lemma RecordsStep(pts: seq<Point>, start: int)
    requires pts != []
    ensures var n := |pts| - 1;
            Records(pts, start) == Records(pts[..n], start) + (if IsRecord(pts, n, start) then [pts[n]] else [])
  {
    var n := |pts| - 1;
    var init := pts[..n];
    HighestIsRunningMax(init, start);
    AboveMaxX(init, start, pts[n].0);
    assert forall i :: 0 <= i < n ==> init[i] == pts[i];
  }

  /** Whether `j` is a record depends only on the points up to `j`. */
  lemma IsRecordOfPrefix(pts: seq<Point>, n: int, j: int, start: int)
    requires 0 <= j < n <= |pts|
    ensures IsRecord(pts[..n], j, start) <==> IsRecord(pts, j, start)
  {
    assert forall i :: 0 <= i <= j ==> pts[..n][i] == pts[i];
  }

  /** The record positions are increasing, in range, and are exactly the records. */
  lemma {:induction false} RecordIndicesSound(pts: seq<Point>, start: int)
    ensures var idx := RecordIndices(pts, start);
            (forall k :: 0 <= k < |idx| ==> 0 <= idx[k] < |pts|)
            && (forall k, l :: 0 <= k < l < |idx| ==> idx[k] < idx[l])
            && (forall j :: 0 <= j < |pts| ==> (j in idx <==> IsRecord(pts, j, start)))
    decreases |pts|
  {
    if pts != [] {
      var n := |pts| - 1;
      RecordIndicesSound(pts[..n], start);
      forall j | 0 <= j < n ensures IsRecord(pts[..n], j, start) <==> IsRecord(pts, j, start) {
        IsRecordOfPrefix(pts, n, j, start);
      }
    }
  }

  /**
   * The kept points are exactly the records of `zip(xdata, ydata)`, as a subsequence
   * in original order: a point is kept iff its x exceeds every x kept before it.
   */
  lemma {:induction false} RecordsAreRecordPoints(pts: seq<Point>, start: int)
    ensures var kept, idx := Records(pts, start), RecordIndices(pts, start);
            |kept| == |idx|
            && (forall k :: 0 <= k < |idx| ==> 0 <= idx[k] < |pts| && kept[k] == pts[idx[k]])
            && (forall k, l :: 0 <= k < l < |idx| ==> idx[k] < idx[l])
            && (forall j :: 0 <= j < |pts| ==> (j in idx <==> IsRecord(pts, j, start)))
    decreases |pts|
  {
    RecordIndicesSound(pts, start);
    if pts != [] {
      var n := |pts| - 1;
      var init := pts[..n];
      RecordsAreRecordPoints(init, start);
      RecordsStep(pts, start);
      var kept0, idx0 := Records(init, start), RecordIndices(init, start);
      var kept, idx := Records(pts, start), RecordIndices(pts, start);
      forall k | 0 <= k < |idx0| ensures kept[k] == pts[idx[k]] {
        assert kept[k] == kept0[k] && idx[k] == idx0[k];
        assert init[idx0[k]] == pts[idx0[k]];
      }
    }
  }

  /** The first pair is always kept, because `highest` starts below `xdata[0]`. */
  lemma FirstPairKept(xdata: seq<int>, ydata: seq<int>)
    requires |xdata| >= 1 && |ydata| >= 1
    ensures Monotonized(xdata, ydata).Ok?
    ensures var m := Monotonized(xdata, ydata).value;
            |m.newX| >= 1 && m.newX[0] == xdata[0] && m.newY[0] == ydata[0]
  {
    var pts := Zip(xdata, ydata);
    var start := xdata[0] - 1;
    RecordsAreRecordPoints(pts, start);
    var idx := RecordIndices(pts, start);
    assert IsRecord(pts, 0, start);
    assert 0 in idx;
    var k :| 0 <= k < |idx| && idx[k] == 0;
    assert idx[0] == 0;
  }

  /** Data whose x already strictly increases is kept whole (up to `zip` truncation). */
  lemma {:induction false} RecordsOfIncreasing(pts: seq<Point>, start: int)
    requires StrictlyIncreasing(Xs(pts))
    requires pts != [] ==> pts[0].0 > start
    ensures Records(pts, start) == pts
    decreases |pts|
  {
    if pts != [] {
      var init := pts[..|pts| - 1];
      assert Xs(init) == Xs(pts)[..|pts| - 1];
      RecordsOfIncreasing(init, start);
      if |pts| >= 2 {
        assert Xs(pts)[|pts| - 2] < Xs(pts)[|pts| - 1];
      }
      assert init + [pts[|pts| - 1]] == pts;
    }
  }

  lemma ZipUnzip(pts: seq<Point>)
    ensures Zip(Xs(pts), Ys(pts)) == pts
  {
  }

  /** Already monotone data passes through unchanged (truncated to the shorter array). */
  lemma MonotonizeIncreasing(xdata: seq<int>, ydata: seq<int>)
    requires |xdata| >= 1 && StrictlyIncreasing(xdata)
    ensures Monotonized(xdata, ydata)
            == Ok(Monotone(xdata[..Min(|xdata|, |ydata|)], ydata[..Min(|xdata|, |ydata|)]))
  {
    var pts := Zip(xdata, ydata);
    assert Xs(pts) == xdata[..|pts|];
    assert Ys(pts) == ydata[..|pts|];
    RecordsOfIncreasing(pts, xdata[0] - 1);
  }

  /**
   * Monotonizing twice equals monotonizing once, unless the first result is empty
   * (empty y data), in which case the second call indexes an empty x array.
   */
  lemma MonotonizeIdempotent(xdata: seq<int>, ydata: seq<int>)
    requires Monotonized(xdata, ydata).Ok?
    ensures var m := Monotonized(xdata, ydata).value;
            Monotonized(m.newX, m.newY) == if m.newX == [] then Err(IndexError) else Ok(m)
  {
    var m := Monotonized(xdata, ydata).value;
    var kept := Records(Zip(xdata, ydata), xdata[0] - 1);
    assert m.newX == Xs(kept) && m.newY == Ys(kept);
    if m.newX != [] {
      RecordsIncrease(Zip(xdata, ydata), xdata[0] - 1);
      ZipUnzip(kept);
      RecordsOfIncreasing(kept, m.newX[0] - 1);
      assert Records(Zip(m.newX, m.newY), m.newX[0] - 1) == kept;
    }
  }
}
