/** `GROUP BY` over the predictions log: selecting the rows that share a key,
    the ascending list of distinct keys, and the fact that the groups of a
    grouping partition the rows (their counts add up to the total). */
module Grouping {
  import opened StoreTypes
  import opened SeqFacts

  /** The grouping keys the two queries use. */
  datatype GroupKey = ByCategory | ByHour

  /** `date_trunc('hour', ts)` on timestamps in whole seconds: the start of
      the hour that contains `ts`. */
  function HourOf(ts: int): (h: int)
    ensures h % 3600 == 0
    ensures h <= ts < h + 3600
  {
    ts - ts % 3600
  }

  function KeyOf(p: Prediction, g: GroupKey): int {
    match g
    case ByCategory => p.category
    case ByHour => HourOf(p.ts)
  }

  /** The rows of `w` whose key is `v`, in log order. */
  function Select(w: seq<Prediction>, g: GroupKey, v: int): (r: seq<Prediction>)
    ensures |r| <= |w|
    ensures forall p :: p in r <==> p in w && KeyOf(p, g) == v
  {
    if w == [] then []
    else (if KeyOf(w[0], g) == v then [w[0]] else []) + Select(w[1..], g, v)
  }

  predicate StrictlyIncreasing(s: seq<int>) {
    forall i, j :: 0 <= i < j < |s| ==> s[i] < s[j]
  }

  /** Adds `x` to an ascending list of distinct keys, unless it is there. */
  function Insert(s: seq<int>, x: int): (r: seq<int>)
    requires StrictlyIncreasing(s)
    ensures StrictlyIncreasing(r)
    ensures forall v :: v in r <==> v in s || v == x
  {
    if s == [] then [x]
    else if x < s[0] then [x] + s
    else if x == s[0] then s
    else
      var t := Insert(s[1..], x);
      assert forall j :: 0 <= j < |t| ==> t[j] in s[1..] || t[j] == x;
      assert forall v :: v in s[1..] ==> s[0] < v;
      [s[0]] + t
  }

  /** The distinct keys of `w`, ascending: the groups of `GROUP BY` in the
      order of `ORDER BY`. */
  function Keys(w: seq<Prediction>, g: GroupKey): (ks: seq<int>)
    ensures StrictlyIncreasing(ks)
    ensures forall v :: v in ks <==> exists p :: p in w && KeyOf(p, g) == v
  {
    if w == [] then []
    else
      var ks := Insert(Keys(w[1..], g), KeyOf(w[0], g));
      assert forall p :: p in w <==> p == w[0] || p in w[1..];
      ks
  }

  /** The sum of the group sizes of the keys `ks`. */
  function SumCounts(ks: seq<int>, w: seq<Prediction>, g: GroupKey): nat {
    if ks == [] then 0 else |Select(w, g, ks[0])| + SumCounts(ks[1..], w, g)
  }

  lemma {:induction false} SumCountsEmpty(ks: seq<int>, g: GroupKey)
    ensures SumCounts(ks, [], g) == 0
  {
    if ks != [] {
      SumCountsEmpty(ks[1..], g);
    }
  }

  /** Adding one row in front adds one to the sum exactly when its key is
      one of the (distinct) keys summed over. */
  lemma {:induction false} SumCountsCons(ks: seq<int>, p: Prediction, t: seq<Prediction>, g: GroupKey)
    requires StrictlyIncreasing(ks)
    ensures SumCounts(ks, [p] + t, g) == SumCounts(ks, t, g) + (if KeyOf(p, g) in ks then 1 else 0)
  {
    if ks != [] {
      assert ([p] + t)[0] == p && ([p] + t)[1..] == t;
      SumCountsCons(ks[1..], p, t, g);
      assert KeyOf(p, g) in ks <==> KeyOf(p, g) == ks[0] || KeyOf(p, g) in ks[1..];
      if KeyOf(p, g) == ks[0] {
        assert KeyOf(p, g) !in ks[1..];
      }
    }
  }

  /** Summing the group sizes over any list of distinct keys that covers
      every row's key counts every row exactly once. */
  lemma {:induction false} SumCountsCover(ks: seq<int>, w: seq<Prediction>, g: GroupKey)
    requires StrictlyIncreasing(ks)
    requires forall p :: p in w ==> KeyOf(p, g) in ks
    ensures SumCounts(ks, w, g) == |w|
  {
    if w == [] {
      SumCountsEmpty(ks, g);
    } else {
      assert w == [w[0]] + w[1..];
      SumCountsCons(ks, w[0], w[1..], g);
      SumCountsCover(ks, w[1..], g);
    }
  }

  /** The groups of a `GROUP BY` partition the rows. */
  lemma GroupsPartition(w: seq<Prediction>, g: GroupKey)
    ensures SumCounts(Keys(w, g), w, g) == |w|
  {
    SumCountsCover(Keys(w, g), w, g);
  }

  /** Filtering by two keys gives the same rows in either order. */
  lemma {:induction false} SelectCommutes(w: seq<Prediction>, g1: GroupKey, v1: int, g2: GroupKey, v2: int)
    ensures Select(Select(w, g1, v1), g2, v2) == Select(Select(w, g2, v2), g1, v1)
  {
    if w != [] {
      SelectCommutes(w[1..], g1, v1, g2, v2);
      SelectAppend([w[0]], w[1..], g1, v1);
      SelectAppend([w[0]], w[1..], g2, v2);
      var h1 := if KeyOf(w[0], g1) == v1 then [w[0]] else [];
      var h2 := if KeyOf(w[0], g2) == v2 then [w[0]] else [];
      SelectAppend(h1, Select(w[1..], g1, v1), g2, v2);
      SelectAppend(h2, Select(w[1..], g2, v2), g1, v1);
      SelectSingle(w[0], g1, v1);
      SelectSingle(w[0], g2, v2);
    }
  }

  lemma SelectSingle(p: Prediction, g: GroupKey, v: int)
    ensures Select([p], g, v) == if KeyOf(p, g) == v then [p] else []
  {
    assert [p][1..] == [];
  }

  /** A group is empty exactly when no row has its key. */
  lemma SelectEmpty(w: seq<Prediction>, g: GroupKey, v: int)
    ensures Select(w, g, v) == [] <==> forall p :: p in w ==> KeyOf(p, g) != v
  {
    var r := Select(w, g, v);
    if r != [] {
      assert r[0] in r;
    }
  }

  /** Selecting from a concatenation concatenates the selections. */
  lemma {:induction false} SelectAppend(a: seq<Prediction>, b: seq<Prediction>, g: GroupKey, v: int)
    ensures Select(a + b, g, v) == Select(a, g, v) + Select(b, g, v)
  {
    if a == [] {
      assert a + b == b;
    } else {
      var h := if KeyOf(a[0], g) == v then [a[0]] else [];
      SelectAppend(a[1..], b, g, v);
      ConsAppend(a, b);
      SelectCons(a[0], a[1..] + b, g, v);
      SelectCons(a[0], a[1..], g, v);
      Regroup(h, Select(a[1..], g, v), Select(b, g, v));
    }
  }

  lemma SelectCons(x: Prediction, t: seq<Prediction>, g: GroupKey, v: int)
    ensures Select([x] + t, g, v) == (if KeyOf(x, g) == v then [x] else []) + Select(t, g, v)
  {
    assert ([x] + t)[0] == x && ([x] + t)[1..] == t;
  }
}
