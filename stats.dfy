/** The meaning of `get_prediction_stats`: predictions of the trailing window,
    grouped by predicted category, each group's size and its share of the
    window rounded to two decimals, ordered by category. */
module Stats {
  import opened StoreTypes
  import opened Grouping

  /** `ts > NOW() - INTERVAL 'hours hours'`, with times in seconds. */
  predicate InWindow(p: Prediction, now: int, hours: int) {
    p.ts > now - hours * 3600
  }

  /** The rows the `WHERE` clause keeps, in log order. */
  function Window(log: seq<Prediction>, now: int, hours: int): (w: seq<Prediction>)
    ensures |w| <= |log|
    ensures forall p :: p in w <==> p in log && InWindow(p, now, hours)
  {
    if log == [] then []
    else (if InWindow(log[0], now, hours) then [log[0]] else []) + Window(log[1..], now, hours)
  }

  /** Appending a prediction to the log adds it to the window exactly when
      its time is inside the window, and changes nothing else. */
  lemma {:induction false} WindowAppend(log: seq<Prediction>, p: Prediction, now: int, hours: int)
    ensures Window(log + [p], now, hours)
         == Window(log, now, hours) + (if InWindow(p, now, hours) then [p] else [])
  {
    if log == [] {
      assert log + [p] == [p] && [p][1..] == [];
    } else {
      assert (log + [p])[0] == log[0] && (log + [p])[1..] == log[1..] + [p];
      WindowAppend(log[1..], p, now, hours);
    }
  }

  /** `ROUND(count / total * 100, 2)` on exact decimals, as hundredths of a
      percent: the nearest integer to `count * 10000 / total`, halves
      rounded up. */
  function RoundPercent(count: nat, total: nat): (pct: int)
    requires 0 < total
    ensures 0 <= pct
    ensures count <= total ==> pct <= 10000
    ensures 2 * total * pct - total <= 20000 * count < 2 * total * pct + total
  {
    HalfUpBounds(count, total);
    (20000 * count + total) / (2 * total)
  }

  lemma HalfUpBounds(count: nat, total: nat)
    requires 0 < total
    ensures var q := (20000 * count + total) / (2 * total);
      && 0 <= q
      && (count <= total ==> q <= 10000)
      && 2 * total * q - total <= 20000 * count < 2 * total * q + total
  {
    var n, d := 20000 * count + total, 2 * total;
    var q := n / d;
    DivisionBounds(n, d);
    assert 2 * total * q == d * q;
    if count <= total {
      assert n <= d * 10000 + total;
      if q > 10000 {
        MulMonotone(d, 10001, q);
      }
    }
  }

  lemma DivisionBounds(n: int, d: int)
    requires 0 <= n && 0 < d
    ensures 0 <= n / d
    ensures d * (n / d) <= n < d * (n / d) + d
  {
  }

  lemma MulMonotone(d: int, a: int, b: int)
    requires 0 <= d && a <= b
    ensures d * a <= d * b
  {
    assert d * b - d * a == d * (b - a);
  }

  /** One row of the result: `predicted_price_range`, `count` and
      `percentage` in hundredths. */
  datatype StatsRow = StatsRow(category: int, count: nat, percentage: int)

  /** The rows for the categories `cats` of the (nonempty) window `w`. */
  function StatsRows(cats: seq<int>, w: seq<Prediction>): (rows: seq<StatsRow>)
    requires 0 < |w|
    ensures |rows| == |cats|
    ensures forall i :: 0 <= i < |rows| ==>
      && rows[i].category == cats[i]
      && rows[i].count == |Select(w, ByCategory, cats[i])|
      && rows[i].percentage == RoundPercent(rows[i].count, |w|)
  {
    if cats == [] then []
    else
      var n := |Select(w, ByCategory, cats[0])|;
      [StatsRow(cats[0], n, RoundPercent(n, |w|))] + StatsRows(cats[1..], w)
  }

  /** The result of `get_prediction_stats(hours)` at time `now`. */
  function PredictionStats(log: seq<Prediction>, now: int, hours: int): (rows: seq<StatsRow>)
    ensures var w := Window(log, now, hours);
      && (rows == [] <==> w == [])
      // ordered by category, one row per category
      && (forall i, j :: 0 <= i < j < |rows| ==> rows[i].category < rows[j].category)
      // each row counts the window's predictions of its category, at least one
      && (forall i :: 0 <= i < |rows| ==>
            && rows[i].count == |Select(w, ByCategory, rows[i].category)|
            && 1 <= rows[i].count <= |w|)
      // every category of the window has its row
      && (forall p :: p in w ==> exists i :: 0 <= i < |rows| && rows[i].category == p.category)
      // each percentage is the row's share of the window, rounded to hundredths
      && (forall i :: 0 <= i < |rows| ==>
            && rows[i].percentage == RoundPercent(rows[i].count, |w|)
            && 0 <= rows[i].percentage <= 10000)
  {
    var w := Window(log, now, hours);
    if w == [] then []
    else
      GroupRows(w);
      StatsRows(Keys(w, ByCategory), w)
  }

  /** The rows built from the window's distinct categories describe the
      window's groups, each once and in order. */
  lemma GroupRows(w: seq<Prediction>)
    requires 0 < |w|
    ensures var rows := StatsRows(Keys(w, ByCategory), w);
      && rows != []
      && (forall i, j :: 0 <= i < j < |rows| ==> rows[i].category < rows[j].category)
      && (forall i :: 0 <= i < |rows| ==> 1 <= rows[i].count <= |w|)
      && (forall p :: p in w ==> exists i :: 0 <= i < |rows| && rows[i].category == p.category)
      && (forall i :: 0 <= i < |rows| ==> 0 <= rows[i].percentage <= 10000)
  {
    var cats := Keys(w, ByCategory);
    var rows := StatsRows(cats, w);
    assert KeyOf(w[0], ByCategory) in cats by {
      assert w[0] in w;
    }
    forall i | 0 <= i < |rows| ensures 1 <= rows[i].count <= |w| {
      assert cats[i] in cats;
      var p :| p in w && KeyOf(p, ByCategory) == cats[i];
      assert p in Select(w, ByCategory, cats[i]);
    }
    forall p | p in w ensures exists i :: 0 <= i < |rows| && rows[i].category == p.category {
      assert KeyOf(p, ByCategory) in cats;
      var i :| 0 <= i < |cats| && cats[i] == p.category;
      assert rows[i].category == p.category;
    }
  }

  function TotalCount(rows: seq<StatsRow>): nat {
    if rows == [] then 0 else rows[0].count + TotalCount(rows[1..])
  }

  function TotalPercent(rows: seq<StatsRow>): int {
    if rows == [] then 0 else rows[0].percentage + TotalPercent(rows[1..])
  }

  lemma {:induction false} StatsRowsTotal(cats: seq<int>, w: seq<Prediction>)
    requires 0 < |w|
    ensures TotalCount(StatsRows(cats, w)) == SumCounts(cats, w, ByCategory)
  {
    if cats != [] {
      StatsRowsTotal(cats[1..], w);
    }
  }

  /** The counts of the result add up to the number of predictions in the
      window. */
  lemma StatsCountsSumToWindow(log: seq<Prediction>, now: int, hours: int)
    ensures TotalCount(PredictionStats(log, now, hours)) == |Window(log, now, hours)|
  {
    var w := Window(log, now, hours);
    if w != [] {
      StatsRowsTotal(Keys(w, ByCategory), w);
      GroupsPartition(w, ByCategory);
    }
  }

  /** A prediction appended inside the window is counted once more by the
      stats, and one appended outside it changes no count. */
  lemma AppendedPredictionCounted(log: seq<Prediction>, p: Prediction, now: int, hours: int)
    ensures TotalCount(PredictionStats(log + [p], now, hours))
         == TotalCount(PredictionStats(log, now, hours)) + (if InWindow(p, now, hours) then 1 else 0)
  {
    WindowAppend(log, p, now, hours);
    StatsCountsSumToWindow(log, now, hours);
    StatsCountsSumToWindow(log + [p], now, hours);
  }

  /** Each row's rounding error is at most half a hundredth, so the errors of
      `k` rows add up to at most `k` halves. */
  lemma {:induction false} StatsRowsPercentError(cats: seq<int>, w: seq<Prediction>)
    requires 0 < |w|
    ensures var rows := StatsRows(cats, w);
      && 2 * |w| * TotalPercent(rows) - |rows| * |w| <= 20000 * TotalCount(rows)
      && 20000 * TotalCount(rows) <= 2 * |w| * TotalPercent(rows) + |rows| * |w|
  {
    if cats != [] {
      var rows := StatsRows(cats, w);
      var tail := StatsRows(cats[1..], w);
      assert rows[1..] == tail;
      StatsRowsPercentError(cats[1..], w);
      ErrorStep(|w|, rows[0].percentage, rows[0].count,
                TotalPercent(tail), TotalCount(tail), |tail|);
    }
  }

  /** Adding one row's rounding error to the accumulated bound. */
  lemma ErrorStep(t: int, p0: int, c0: int, s1: int, n1: int, k1: int)
    requires 2 * t * p0 - t <= 20000 * c0 < 2 * t * p0 + t
    requires 2 * t * s1 - k1 * t <= 20000 * n1 <= 2 * t * s1 + k1 * t
    ensures 2 * t * (p0 + s1) - (1 + k1) * t <= 20000 * (c0 + n1)
    ensures 20000 * (c0 + n1) <= 2 * t * (p0 + s1) + (1 + k1) * t
  {
    assert 2 * t * (p0 + s1) == 2 * t * p0 + 2 * t * s1;
    assert (1 + k1) * t == t + k1 * t;
  }

  /** Dividing the accumulated bound by the (positive) window size. */
  lemma CancelWindow(t: int, s: int, k: int)
    requires 0 < t
    requires 2 * t * s - k * t <= 20000 * t <= 2 * t * s + k * t
    ensures 2 * s - k <= 20000 <= 2 * s + k
  {
    assert t * (2 * s - k) == 2 * t * s - k * t;
    assert t * (2 * s + k) == 2 * t * s + k * t;
    if 2 * s - k > 20000 {
      MulMonotone(t, 20001, 2 * s - k);
    }
    if 20000 > 2 * s + k {
      MulMonotone(t, 2 * s + k + 1, 20000);
    }
  }

  /** The percentages of a nonempty window add up to 100 within half a
      hundredth per returned category. */
  lemma StatsPercentagesSumTo100(log: seq<Prediction>, now: int, hours: int)
    requires Window(log, now, hours) != []
    ensures var rows := PredictionStats(log, now, hours);
      && 2 * TotalPercent(rows) - |rows| <= 20000
      && 20000 <= 2 * TotalPercent(rows) + |rows|
  {
    var w := Window(log, now, hours);
    var rows := PredictionStats(log, now, hours);
    StatsRowsPercentError(Keys(w, ByCategory), w);
    StatsCountsSumToWindow(log, now, hours);
    CancelWindow(|w|, TotalPercent(rows), |rows|);
  }

  lemma {:induction false} IncreasingWithin(s: seq<int>, lo: int, hi: int)
    requires StrictlyIncreasing(s)
    requires lo <= hi + 1
    requires forall i :: 0 <= i < |s| ==> lo <= s[i] <= hi
    ensures |s| <= hi - lo + 1
  {
    if s != [] {
      IncreasingWithin(s[1..], s[0] + 1, hi);
    }
  }

  /** With the classifier's four categories 0..3 the result has at most four
      rows, so the percentages add up to 100 within 0.02. */
  lemma StatsOfFourCategories(log: seq<Prediction>, now: int, hours: int)
    requires forall p :: p in log ==> 0 <= p.category <= 3
    ensures |PredictionStats(log, now, hours)| <= 4
    ensures Window(log, now, hours) != [] ==>
      var s := TotalPercent(PredictionStats(log, now, hours));
      9998 <= s <= 10002
  {
    var rows := PredictionStats(log, now, hours);
    var w := Window(log, now, hours);
    var cats := seq(|rows|, i requires 0 <= i < |rows| => rows[i].category);
    forall i | 0 <= i < |rows| ensures 0 <= cats[i] <= 3 {
      var p := Select(w, ByCategory, rows[i].category)[0];
      assert p in Select(w, ByCategory, rows[i].category);
    }
    IncreasingWithin(cats, 0, 3);
    if w != [] {
      StatsPercentagesSumTo100(log, now, hours);
    }
  }

  /** A single in-window prediction of category `c`: one row, count 1,
      100.00 percent. */
  lemma SinglePrediction(p: Prediction, now: int, hours: int)
    requires InWindow(p, now, hours)
    ensures PredictionStats([p], now, hours) == [StatsRow(p.category, 1, 10000)]
  {
    assert [p][1..] == [];
    assert Window([p], now, hours) == [p];
    assert Keys([p], ByCategory) == [p.category];
    assert Select([p], ByCategory, p.category) == [p];
    assert RoundPercent(1, 1) == 10000;
  }
}
