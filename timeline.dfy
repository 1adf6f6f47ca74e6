/** The meaning of `get_prediction_distribution_timeline`: predictions of the
    trailing window grouped by (hour bucket, category), counted, and ordered
    by hour and then category. */
module Timeline {
  import opened StoreTypes
  import opened Grouping
  import opened Stats

  /** One row of the result: `hour`, `predicted_price_range`, `count`. */
  datatype TimelineRow = TimelineRow(hour: int, category: int, count: nat)

  /** `ORDER BY hour, predicted_price_range`, strictly. */
  predicate Before(a: TimelineRow, b: TimelineRow) {
    a.hour < b.hour || (a.hour == b.hour && a.category < b.category)
  }

  predicate Ordered(rows: seq<TimelineRow>) {
    forall i, j :: 0 <= i < j < |rows| ==> Before(rows[i], rows[j])
  }

  /** The size of the group (hour `h`, category `c`) of the window `w`. */
  function GroupSize(w: seq<Prediction>, h: int, c: int): nat {
    |Select(Select(w, ByHour, h), ByCategory, c)|
  }

  /** The rows of the hour `h` for the categories `cats`. */
  function HourRows(h: int, cats: seq<int>, w: seq<Prediction>): (rows: seq<TimelineRow>)
    ensures |rows| == |cats|
    ensures forall i :: 0 <= i < |rows| ==> rows[i] == TimelineRow(h, cats[i], GroupSize(w, h, cats[i]))
  {
    if cats == [] then []
    else [TimelineRow(h, cats[0], GroupSize(w, h, cats[0]))] + HourRows(h, cats[1..], w)
  }

  /** The categories present in the hour `h` of `w`, ascending. */
  function CategoriesOfHour(w: seq<Prediction>, h: int): seq<int> {
    Keys(Select(w, ByHour, h), ByCategory)
  }

  /** The rows of the hours `hs` in order, each hour's categories in order. */
  function TimelineRows(hs: seq<int>, w: seq<Prediction>): seq<TimelineRow> {
    if hs == [] then []
    else HourRows(hs[0], CategoriesOfHour(w, hs[0]), w) + TimelineRows(hs[1..], w)
  }

  /** The result of `get_prediction_distribution_timeline(hours)` at `now`. */
  function PredictionTimeline(log: seq<Prediction>, now: int, hours: int): (rows: seq<TimelineRow>)
    ensures var w := Window(log, now, hours);
      && Ordered(rows)
      // each row is a nonempty group of the window, counted exactly
      && (forall r :: r in rows ==>
            && r.hour % 3600 == 0
            && (exists p :: p in w && HourOf(p.ts) == r.hour && p.category == r.category)
            && r.count == GroupSize(w, r.hour, r.category)
            && 1 <= r.count)
      // every prediction of the window falls in some row's group
      && (forall p :: p in w ==> exists r :: r in rows && r.hour == HourOf(p.ts) && r.category == p.category)
  {
    var w := Window(log, now, hours);
    TimelineRowsShape(Keys(w, ByHour), w);
    TimelineRows(Keys(w, ByHour), w)
  }

  /** What `TimelineRows` returns for ascending hours: ordered rows, one per
      nonempty group whose hour is listed. */
  lemma TimelineRowsShape(hs: seq<int>, w: seq<Prediction>)
    requires StrictlyIncreasing(hs)
    ensures var rows := TimelineRows(hs, w);
      && Ordered(rows)
      && (forall r :: r in rows ==>
            && r.hour in hs
            && (exists p :: p in w && HourOf(p.ts) == r.hour && p.category == r.category)
            && r.count == GroupSize(w, r.hour, r.category)
            && 1 <= r.count)
      && (forall p :: p in w && HourOf(p.ts) in hs ==>
            exists r :: r in rows && r.hour == HourOf(p.ts) && r.category == p.category)
  {
    TimelineRowsGroups(hs, w);
    TimelineRowsOrdered(hs, w);
    TimelineRowsCover(hs, w);
  }

  lemma {:induction false} TimelineRowsGroups(hs: seq<int>, w: seq<Prediction>)
    ensures forall r :: r in TimelineRows(hs, w) ==>
      && r.hour in hs
      && (exists p :: p in w && HourOf(p.ts) == r.hour && p.category == r.category)
      && r.count == GroupSize(w, r.hour, r.category)
      && 1 <= r.count
  {
    if hs != [] {
      var head := HourRows(hs[0], CategoriesOfHour(w, hs[0]), w);
      var tail := TimelineRows(hs[1..], w);
      TimelineRowsGroups(hs[1..], w);
      HourRowsShape(hs[0], w);
      assert forall r :: r in head + tail ==> r in head || r in tail;
      assert forall h :: h in hs[1..] ==> h in hs;
    }
  }

  lemma {:induction false} TimelineRowsOrdered(hs: seq<int>, w: seq<Prediction>)
    requires StrictlyIncreasing(hs)
    ensures Ordered(TimelineRows(hs, w))
    ensures forall r :: r in TimelineRows(hs, w) ==> r.hour in hs
  {
    if hs != [] {
      var h := hs[0];
      var cats := CategoriesOfHour(w, h);
      var head := HourRows(h, cats, w);
      var tail := TimelineRows(hs[1..], w);
      TimelineRowsOrdered(hs[1..], w);
      assert forall r :: r in tail ==> h < r.hour;
      assert forall r :: r in head ==> r.hour == h;
      OrderedConcat(head, tail, h);
      assert forall r :: r in head + tail ==> r in head || r in tail;
    }
  }

  /** The rows of one hour followed by rows of later hours stay ordered. */
  lemma OrderedConcat(head: seq<TimelineRow>, tail: seq<TimelineRow>, h: int)
    requires Ordered(head) && Ordered(tail)
    requires forall r :: r in head ==> r.hour == h
    requires forall r :: r in tail ==> h < r.hour
    ensures Ordered(head + tail)
  {
    forall i, j | 0 <= i < j < |head + tail| ensures Before((head + tail)[i], (head + tail)[j]) {
      if j < |head| {
        assert (head + tail)[i] == head[i] && (head + tail)[j] == head[j];
      } else if i < |head| {
        assert head[i] in head && tail[j - |head|] in tail;
      } else {
        assert (head + tail)[i] == tail[i - |head|] && (head + tail)[j] == tail[j - |head|];
      }
    }
  }

  lemma {:induction false} TimelineRowsCover(hs: seq<int>, w: seq<Prediction>)
    ensures forall p :: p in w && HourOf(p.ts) in hs ==>
      exists r :: r in TimelineRows(hs, w) && r.hour == HourOf(p.ts) && r.category == p.category
  {
    if hs != [] {
      var h := hs[0];
      var head := HourRows(h, CategoriesOfHour(w, h), w);
      var tail := TimelineRows(hs[1..], w);
      TimelineRowsCover(hs[1..], w);
      HourRowsShape(h, w);
      forall p | p in w && HourOf(p.ts) in hs
        ensures exists r: TimelineRow :: r in head + tail && r.hour == HourOf(p.ts) && r.category == p.category
      {
        if HourOf(p.ts) != h {
          assert HourOf(p.ts) in hs[1..];
          var r :| r in tail && r.hour == HourOf(p.ts) && r.category == p.category;
          assert r in head + tail;
        } else {
          var r :| r in head && r.hour == HourOf(p.ts) && r.category == p.category;
          assert r in head + tail;
        }
      }
    }
  }

  /** The rows of one hour: ordered by category, each a nonempty group, and
      covering every prediction of that hour. */
  lemma HourRowsShape(h: int, w: seq<Prediction>)
    ensures var rows := HourRows(h, CategoriesOfHour(w, h), w);
      && Ordered(rows)
      && (forall r :: r in rows ==>
            && r.hour == h
            && (exists p :: p in w && HourOf(p.ts) == r.hour && p.category == r.category)
            && r.count == GroupSize(w, r.hour, r.category)
            && 1 <= r.count)
      && (forall p :: p in w && HourOf(p.ts) == h ==>
            exists r :: r in rows && r.hour == h && r.category == p.category)
  {
    var wh := Select(w, ByHour, h);
    var cats := CategoriesOfHour(w, h);
    var rows := HourRows(h, cats, w);
    forall r | r in rows
      ensures && r.hour == h
              && (exists p :: p in w && HourOf(p.ts) == r.hour && p.category == r.category)
              && r.count == GroupSize(w, r.hour, r.category)
              && 1 <= r.count
    {
      var i :| 0 <= i < |rows| && rows[i] == r;
      assert cats[i] in cats;
      var p :| p in wh && KeyOf(p, ByCategory) == cats[i];
      assert p in Select(wh, ByCategory, cats[i]);
    }
    forall p | p in w && HourOf(p.ts) == h
      ensures exists r :: r in rows && r.hour == h && r.category == p.category
    {
      assert p in wh;
      assert p.category in cats;
      var i :| 0 <= i < |cats| && cats[i] == p.category;
      assert rows[i] in rows;
    }
  }

  function TimelineTotal(rows: seq<TimelineRow>): nat {
    if rows == [] then 0 else rows[0].count + TimelineTotal(rows[1..])
  }

  /** The counts of the rows of category `c`. */
  function CategoryTotal(rows: seq<TimelineRow>, c: int): nat {
    if rows == [] then 0
    else (if rows[0].category == c then rows[0].count else 0) + CategoryTotal(rows[1..], c)
  }

  lemma {:induction false} TotalsAppend(a: seq<TimelineRow>, b: seq<TimelineRow>, c: int)
    ensures TimelineTotal(a + b) == TimelineTotal(a) + TimelineTotal(b)
    ensures CategoryTotal(a + b, c) == CategoryTotal(a, c) + CategoryTotal(b, c)
  {
    if a == [] {
      assert a + b == b;
    } else {
      assert (a + b)[0] == a[0] && (a + b)[1..] == a[1..] + b;
      TotalsAppend(a[1..], b, c);
    }
  }

  lemma {:induction false} HourRowsTotal(h: int, cats: seq<int>, w: seq<Prediction>)
    ensures TimelineTotal(HourRows(h, cats, w)) == SumCounts(cats, Select(w, ByHour, h), ByCategory)
  {
    if cats != [] {
      HourRowsTotal(h, cats[1..], w);
    }
  }

  lemma {:induction false} HourRowsCategory(h: int, cats: seq<int>, w: seq<Prediction>, c: int)
    requires StrictlyIncreasing(cats)
    ensures CategoryTotal(HourRows(h, cats, w), c) == if c in cats then GroupSize(w, h, c) else 0
  {
    if cats != [] {
      HourRowsCategory(h, cats[1..], w, c);
      assert c in cats <==> c == cats[0] || c in cats[1..];
      if c == cats[0] {
        assert c !in cats[1..];
      }
    }
  }

  lemma {:induction false} TimelineRowsTotal(hs: seq<int>, w: seq<Prediction>)
    ensures TimelineTotal(TimelineRows(hs, w)) == SumCounts(hs, w, ByHour)
  {
    if hs != [] {
      var h := hs[0];
      TimelineRowsTotal(hs[1..], w);
      TotalsAppend(HourRows(h, CategoriesOfHour(w, h), w), TimelineRows(hs[1..], w), 0);
      HourRowsTotal(h, CategoriesOfHour(w, h), w);
      GroupsPartition(Select(w, ByHour, h), ByCategory);
    }
  }

  /** Summing one category over the timeline adds up that category's
      predictions hour by hour. */
  lemma {:induction false} TimelineRowsCategory(hs: seq<int>, w: seq<Prediction>, c: int)
    ensures CategoryTotal(TimelineRows(hs, w), c) == SumCounts(hs, Select(w, ByCategory, c), ByHour)
  {
    if hs != [] {
      var h := hs[0];
      var cats := CategoriesOfHour(w, h);
      TimelineRowsCategory(hs[1..], w, c);
      TotalsAppend(HourRows(h, cats, w), TimelineRows(hs[1..], w), c);
      HourRowsCategory(h, cats, w, c);
      SelectCommutes(w, ByHour, h, ByCategory, c);
      if c !in cats {
        SelectEmpty(Select(w, ByHour, h), ByCategory, c);
      }
    }
  }

  /** The counts of the timeline add up to the number of predictions in the
      window. */
  lemma TimelineCountsSumToWindow(log: seq<Prediction>, now: int, hours: int)
    ensures TimelineTotal(PredictionTimeline(log, now, hours)) == |Window(log, now, hours)|
  {
    var w := Window(log, now, hours);
    TimelineRowsTotal(Keys(w, ByHour), w);
    GroupsPartition(w, ByHour);
  }

  /** For the same `now` and window, summing the timeline per category gives
      the category counts of `get_prediction_stats`, and categories absent
      from the stats sum to zero. */
  lemma TimelineAgreesWithStats(log: seq<Prediction>, now: int, hours: int)
    ensures var w := Window(log, now, hours);
            var timeline := PredictionTimeline(log, now, hours);
            var stats := PredictionStats(log, now, hours);
      && (forall i :: 0 <= i < |stats| ==> CategoryTotal(timeline, stats[i].category) == stats[i].count)
      && (forall c :: (forall i :: 0 <= i < |stats| ==> stats[i].category != c) ==> CategoryTotal(timeline, c) == 0)
  {
    var w := Window(log, now, hours);
    var timeline := PredictionTimeline(log, now, hours);
    var stats := PredictionStats(log, now, hours);
    var hs := Keys(w, ByHour);
    forall c ensures CategoryTotal(timeline, c) == |Select(w, ByCategory, c)| {
      TimelineRowsCategory(hs, w, c);
      assert forall p :: p in Select(w, ByCategory, c) ==> p in w;
      SumCountsCover(hs, Select(w, ByCategory, c), ByHour);
    }
    forall c | forall i :: 0 <= i < |stats| ==> stats[i].category != c
      ensures CategoryTotal(timeline, c) == 0
    {
      assert forall p :: p in w ==> p.category != c;
      SelectEmpty(w, ByCategory, c);
    }
  }
}
