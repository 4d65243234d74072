/** pickDailySummaries (app.js): the 3-hourly forecast feed grouped by local
    calendar day, the first five days in date order, and per day the minimum
    and maximum temperature, the most frequent icon and the sample nearest to
    local noon. */
module Forecast {

  const SecondsPerDay := 86400
  const NoonSeconds := 43200
  const MaxDays := 5

  /** 0000-01-01T00:00:00Z and 10000-01-01T00:00:00Z in seconds from the epoch.
      Between them toISOString gives four-digit years, so the date keys sort
      as their day numbers do. */
  const FirstIsoSecond := -62167219200
  const EndIsoSecond := 253402300800

  /** The first entry of a sample's weather array. */
  datatype Weather = Weather(icon: string, description: string)

  /** One forecast entry: its time dt in seconds from the epoch, main.temp and weather[0]. */
  datatype Sample = Sample(dt: int, temp: real, weather: Weather)

  /** One forecast card. dateKey is the local day number (days since
      1970-01-01) whose ISO form the source uses as key; labelDt is the time of
      the sample whose local date is shown as the card's label. */
  datatype DailySummary = DailySummary(dateKey: int, labelDt: int, min: real, max: real,
                                       icon: string, desc: string)

  /** toLocalDateKey: the local calendar day containing dt shifted by the UTC offset tz. */
  function LocalDateKey(dt: int, tz: int): (day: int)
    ensures day * SecondsPerDay <= dt + tz < (day + 1) * SecondsPerDay
  {
    (dt + tz) / SecondsPerDay
  }

  predicate InIsoRange(list: seq<Sample>, tz: int) {
    forall i :: 0 <= i < |list| ==> FirstIsoSecond <= list[i].dt + tz < EndIsoSecond
  }

  /** JavaScript's %, whose result takes the sign of the dividend. */
  function JsRem(a: int, b: int): int
    requires b > 0
  {
    if a >= 0 then a % b else -((-a) % b)
  }

  function Abs(x: int): nat {
    if x < 0 then -x else x
  }

  /** |((dt + tz) % 86400) - 43200| as the source computes it. */
  function NoonDistance(s: Sample, tz: int): nat {
    Abs(JsRem(s.dt + tz, SecondsPerDay) - NoonSeconds)
  }

  /** From 1970 on, the distance is that of the local time of day from noon. */
  lemma NoonDistanceIsTimeOfDay(s: Sample, tz: int)
    requires s.dt + tz >= 0
    ensures NoonDistance(s, tz) == Abs((s.dt + tz) - LocalDateKey(s.dt, tz) * SecondsPerDay - NoonSeconds)
  {
  }

  // ---------------------------------------------------------------------
  // Grouping

  /** The samples of s whose local day is key, in feed order. */
  function Bucket(s: seq<Sample>, tz: int, key: int): seq<Sample> {
    if s == [] then []
    else
      var last := s[|s| - 1];
      Bucket(s[..|s| - 1], tz, key) + (if LocalDateKey(last.dt, tz) == key then [last] else [])
  }

  /** The local days that occur in s. */
  function DayKeys(s: seq<Sample>, tz: int): set<int> {
    if s == [] then {} else DayKeys(s[..|s| - 1], tz) + {LocalDateKey(s[|s| - 1].dt, tz)}
  }

  lemma {:induction false} BucketMembers(s: seq<Sample>, tz: int, key: int, x: Sample)
    ensures x in Bucket(s, tz, key) <==> x in s && LocalDateKey(x.dt, tz) == key
  {
    if s != [] {
      BucketMembers(s[..|s| - 1], tz, key, x);
      assert s == s[..|s| - 1] + [s[|s| - 1]];
    }
  }

  /** Grouping distributes over concatenation: every bucket keeps feed order. */
  lemma {:induction false} BucketConcat(s: seq<Sample>, t: seq<Sample>, tz: int, key: int)
    ensures Bucket(s + t, tz, key) == Bucket(s, tz, key) + Bucket(t, tz, key)
    decreases |t|
  {
    if t == [] {
      assert s + t == s;
    } else {
      assert (s + t)[..|s + t| - 1] == s + t[..|t| - 1];
      BucketConcat(s, t[..|t| - 1], tz, key);
    }
  }

  lemma {:induction false} BucketEmpty(s: seq<Sample>, tz: int, key: int)
    ensures Bucket(s, tz, key) == [] <==> key !in DayKeys(s, tz)
  {
    if s != [] {
      BucketEmpty(s[..|s| - 1], tz, key);
    }
  }

  // ---------------------------------------------------------------------
  // Object.keys(buckets).sort(): the keys are distinct

  predicate Distinct(s: seq<int>) {
    forall a, b :: 0 <= a < b < |s| ==> s[a] != s[b]
  }

  predicate StrictlyAscending(s: seq<int>) {
    forall a, b :: 0 <= a < b < |s| ==> s[a] < s[b]
  }

  function InsertSorted(x: int, s: seq<int>): (r: seq<int>)
    requires StrictlyAscending(s) && x !in s
    ensures StrictlyAscending(r) && |r| == |s| + 1
    ensures forall y :: y in r <==> y == x || y in s
  {
    if s == [] || x < s[0] then [x] + s
    else
      var t := InsertSorted(x, s[1..]);
      assert forall y :: y in s <==> y == s[0] || y in s[1..];
      assert forall b :: 0 <= b < |t| ==> s[0] < t[b] by {
        forall b | 0 <= b < |t| ensures s[0] < t[b] {
          assert t[b] in t;
          if t[b] != x {
            var q :| 0 <= q < |s[1..]| && s[1..][q] == t[b];
            assert s[q + 1] == t[b];
          }
        }
      }
      [s[0]] + t
  }

  function SortKeys(s: seq<int>): (r: seq<int>)
    requires Distinct(s)
    ensures StrictlyAscending(r) && |r| == |s|
    ensures forall y :: y in r <==> y in s
  {
    if s == [] then []
    else
      var r := SortKeys(s[1..]);
      assert s[0] !in s[1..];
      assert forall y :: y in s <==> y == s[0] || y in s[1..];
      InsertSorted(s[0], r)
  }

  lemma {:induction false} DistinctSize(s: seq<int>, t: set<int>)
    requires Distinct(s) && forall y :: y in s <==> y in t
    ensures |t| == |s|
  {
    if s != [] {
      var last := s[|s| - 1];
      var init := s[..|s| - 1];
      var u := t - {last};
      assert s == init + [last];
      assert last in t;
      assert t == u + {last} && last !in u;
      assert forall y :: y in init <==> y in u by {
        forall y ensures y in init <==> y in u {
          assert y in s <==> y in init || y == last;
          if y in init {
            var q :| 0 <= q < |init| && init[q] == y;
            assert s[q] == y;
          }
        }
      }
      DistinctSize(init, u);
      assert |t| == |u| + 1;
    } else {
      assert forall y :: y !in t;
      assert t == {};
    }
  }

  // ---------------------------------------------------------------------
  // Per-day minimum and maximum: Math.min/Math.max over the mapped temperatures

  function Temps(items: seq<Sample>): (ts: seq<real>)
    ensures |ts| == |items| && forall i :: 0 <= i < |items| ==> ts[i] == items[i].temp
  {
    if items == [] then [] else [items[0].temp] + Temps(items[1..])
  }

  function MinOf(xs: seq<real>): (m: real)
    requires |xs| > 0
    ensures m in xs && forall i :: 0 <= i < |xs| ==> m <= xs[i]
  {
    if |xs| == 1 then xs[0]
    else
      var r := MinOf(xs[1..]);
      if xs[0] < r then xs[0] else r
  }

  function MaxOf(xs: seq<real>): (m: real)
    requires |xs| > 0
    ensures m in xs && forall i :: 0 <= i < |xs| ==> xs[i] <= m
  {
    if |xs| == 1 then xs[0]
    else
      var r := MaxOf(xs[1..]);
      if xs[0] > r then xs[0] else r
  }

  // ---------------------------------------------------------------------
  // The representative icon

  /** How many samples of s carry icon. */
  function CountIcon(s: seq<Sample>, icon: string): nat {
    if s == [] then 0
    else CountIcon(s[..|s| - 1], icon) + (if s[|s| - 1].weather.icon == icon then 1 else 0)
  }

  /** counter[w.icon] just after the scan has counted sample j. */
  function RunningCount(items: seq<Sample>, j: nat): nat
    requires j < |items|
  {
    CountIcon(items[..j + 1], items[j].weather.icon)
  }

  /** What the scan with replacement on >= chooses, with sample k as the one
      chosen: k's icon has the largest count, k is where that icon's running
      count reached its final value, and no later sample's running count
      reaches that value. */
  ghost predicate IsRepresentativeAt(w: Weather, items: seq<Sample>, k: nat) {
    && k < |items| && items[k].weather == w
    && RunningCount(items, k) == CountIcon(items, w.icon)
    && (forall j :: 0 <= j < |items| ==> CountIcon(items, items[j].weather.icon) <= CountIcon(items, w.icon))
    && (forall j :: k < j < |items| ==> RunningCount(items, j) < CountIcon(items, w.icon))
  }

  ghost predicate IsRepresentative(w: Weather, items: seq<Sample>) {
    exists k: nat :: IsRepresentativeAt(w, items, k)
  }

  function Lookup(counter: map<string, nat>, icon: string): nat {
    if icon in counter then counter[icon] else 0
  }

  lemma CountSnoc(s: seq<Sample>, x: Sample, icon: string)
    ensures CountIcon(s + [x], icon) == CountIcon(s, icon) + (if x.weather.icon == icon then 1 else 0)
  {
    assert (s + [x])[..|s|] == s;
  }

  /** Appending a sample leaves the running counts of the earlier samples
      alone and adds one to the count of its own icon. */
  lemma SnocCounts(s: seq<Sample>, x: Sample)
    ensures forall j :: 0 <= j < |s| ==> RunningCount(s + [x], j) == RunningCount(s, j) && (s + [x])[j] == s[j]
    ensures forall icon :: CountIcon(s + [x], icon) == CountIcon(s, icon) + (if x.weather.icon == icon then 1 else 0)
    ensures RunningCount(s + [x], |s|) == CountIcon(s + [x], x.weather.icon)
  {
    SnocRunning(s, x);
    forall icon ensures CountIcon(s + [x], icon) == CountIcon(s, icon) + (if x.weather.icon == icon then 1 else 0) {
      CountSnoc(s, x, icon);
    }
    SnocLast(s, x);
  }

  lemma SnocRunning(s: seq<Sample>, x: Sample)
    ensures forall j :: 0 <= j < |s| ==> RunningCount(s + [x], j) == RunningCount(s, j) && (s + [x])[j] == s[j]
  {
    var t := s + [x];
    forall j | 0 <= j < |s| ensures RunningCount(t, j) == RunningCount(s, j) && t[j] == s[j] {
      assert t[..j + 1] == s[..j + 1];
    }
  }

  lemma SnocLast(s: seq<Sample>, x: Sample)
    ensures RunningCount(s + [x], |s|) == CountIcon(s + [x], x.weather.icon)
  {
    assert (s + [x])[..|s| + 1] == s + [x];
  }

  /** A step of the icon scan in which the new sample replaces the best one,
      because its icon's count is at least the best icon's. */
  lemma RepresentativeReplace(s: seq<Sample>, x: Sample, best: Weather, k: nat)
    requires IsRepresentativeAt(best, s, k)
    requires CountIcon(s + [x], x.weather.icon) >= CountIcon(s + [x], best.icon)
    ensures IsRepresentativeAt(x.weather, s + [x], |s|)
  {
    SnocCounts(s, x);
    var t := s + [x];
    forall j | 0 <= j < |t| ensures CountIcon(t, t[j].weather.icon) <= CountIcon(t, x.weather.icon) {
      if j < |s| && t[j].weather.icon != x.weather.icon {
        assert CountIcon(s, s[j].weather.icon) <= CountIcon(s, best.icon);
      }
    }
  }

  /** A step of the icon scan in which the best sample stays. */
  lemma RepresentativeKeep(s: seq<Sample>, x: Sample, best: Weather, k: nat)
    requires IsRepresentativeAt(best, s, k)
    requires CountIcon(s + [x], x.weather.icon) < CountIcon(s + [x], best.icon)
    ensures IsRepresentativeAt(best, s + [x], k)
  {
    SnocCounts(s, x);
    assert x.weather.icon != best.icon;
  }

  /** The icon loop of pickDailySummaries, with its counter dictionary and its
      running best. */
  method PickIcon(items: seq<Sample>) returns (best: Weather)
    requires |items| > 0
    ensures IsRepresentative(best, items)
  {
    var counter: map<string, nat> := map[];
    best := items[0].weather;
    ghost var bestIdx: nat := 0;
    var i := 0;
    while i < |items|
      invariant 0 <= i <= |items|
      invariant forall icon :: Lookup(counter, icon) == CountIcon(items[..i], icon)
      invariant i == 0 ==> best == items[0].weather
      invariant i > 0 ==> IsRepresentativeAt(best, items[..i], bestIdx)
    {
      var w := items[i].weather;
      assert items[..i + 1] == items[..i] + [items[i]];
      var c := Lookup(counter, w.icon) + 1;
      counter := counter[w.icon := c];
      forall icon ensures Lookup(counter, icon) == CountIcon(items[..i + 1], icon) {
        CountSnoc(items[..i], items[i], icon);
      }
      if counter[w.icon] >= Lookup(counter, best.icon) {
        if i > 0 {
          RepresentativeReplace(items[..i], items[i], best, bestIdx);
        } else {
          assert [items[0]][..1] == [items[0]];
        }
        best := w;
        bestIdx := i;
      } else {
        RepresentativeKeep(items[..i], items[i], best, bestIdx);
      }
      i := i + 1;
    }
    assert items[..|items|] == items;
  }

  lemma {:induction false} CountConcat(a: seq<Sample>, b: seq<Sample>, icon: string)
    ensures CountIcon(a + b, icon) == CountIcon(a, icon) + CountIcon(b, icon)
    decreases |b|
  {
    if b == [] {
      assert a + b == a;
    } else {
      assert (a + b)[..|a + b| - 1] == a + b[..|b| - 1];
      CountConcat(a, b[..|b| - 1], icon);
    }
  }

  lemma {:induction false} CountAbsent(s: seq<Sample>, icon: string)
    requires forall i :: 0 <= i < |s| ==> s[i].weather.icon != icon
    ensures CountIcon(s, icon) == 0
  {
    if s != [] {
      CountAbsent(s[..|s| - 1], icon);
    }
  }

  /** The last sample carrying a given icon, at or after sample j, is where
      that icon's running count reaches its total. */
  lemma {:induction false} LastReach(items: seq<Sample>, j: nat, icon: string) returns (l: nat)
    requires j < |items| && items[j].weather.icon == icon
    ensures j <= l < |items| && items[l].weather.icon == icon
    ensures RunningCount(items, l) == CountIcon(items, icon)
    decreases |items| - j
  {
    if m :| j < m < |items| && items[m].weather.icon == icon {
      l := LastReach(items, m, icon);
    } else {
      l := j;
      assert items[..j + 1] + items[j + 1..] == items;
      CountConcat(items[..j + 1], items[j + 1..], icon);
      CountAbsent(items[j + 1..], icon);
    }
  }

  /** The chosen weather is that of a sample whose icon has the largest count,
      every later sample carries an icon with a strictly smaller count: among
      tied icons the one whose last sample comes latest wins, and the
      description is that of the last sample carrying the chosen icon. */
  lemma RepresentativeIsLatestMaximal(w: Weather, items: seq<Sample>) returns (k: nat)
    requires IsRepresentative(w, items)
    ensures k < |items| && items[k].weather == w
    ensures forall j :: 0 <= j < |items| ==> CountIcon(items, items[j].weather.icon) <= CountIcon(items, w.icon)
    ensures forall j :: k < j < |items| ==> CountIcon(items, items[j].weather.icon) < CountIcon(items, w.icon)
  {
    k :| IsRepresentativeAt(w, items, k);
    forall j | k < j < |items|
      ensures CountIcon(items, items[j].weather.icon) < CountIcon(items, w.icon)
    {
      var l := LastReach(items, j, items[j].weather.icon);
    }
  }

  /** At most one weather satisfies IsRepresentative. */
  lemma RepresentativeUnique(w1: Weather, w2: Weather, items: seq<Sample>)
    requires IsRepresentative(w1, items) && IsRepresentative(w2, items)
    ensures w1 == w2
  {
    var k1: nat :| IsRepresentativeAt(w1, items, k1);
    var k2: nat :| IsRepresentativeAt(w2, items, k2);
    assert CountIcon(items, w1.icon) == CountIcon(items, w2.icon) by {
      assert CountIcon(items, items[k1].weather.icon) <= CountIcon(items, w2.icon);
      assert CountIcon(items, items[k2].weather.icon) <= CountIcon(items, w1.icon);
    }
  }

  lemma NoonishUnique(dt1: int, dt2: int, items: seq<Sample>, tz: int)
    requires IsNoonish(dt1, items, tz) && IsNoonish(dt2, items, tz)
    ensures dt1 == dt2
  {
    var k1 :| 0 <= k1 < |items| && items[k1].dt == dt1
      && (forall j :: 0 <= j < |items| ==> NoonDistance(items[k1], tz) <= NoonDistance(items[j], tz))
      && (forall j :: 0 <= j < k1 ==> NoonDistance(items[j], tz) > NoonDistance(items[k1], tz));
    var k2 :| 0 <= k2 < |items| && items[k2].dt == dt2
      && (forall j :: 0 <= j < |items| ==> NoonDistance(items[k2], tz) <= NoonDistance(items[j], tz))
      && (forall j :: 0 <= j < k2 ==> NoonDistance(items[j], tz) > NoonDistance(items[k2], tz));
    assert k1 == k2;
  }

  // ---------------------------------------------------------------------
  // The label sample: the reduce that keeps the earlier sample unless the
  // next one is strictly closer to noon

  function NoonishIndex(items: seq<Sample>, tz: int): (k: nat)
    requires |items| > 0
    ensures k < |items|
    ensures forall j :: 0 <= j < |items| ==> NoonDistance(items[k], tz) <= NoonDistance(items[j], tz)
    ensures forall j :: 0 <= j < k ==> NoonDistance(items[j], tz) > NoonDistance(items[k], tz)
  {
    if |items| == 1 then 0
    else
      var p := NoonishIndex(items[..|items| - 1], tz);
      var c := |items| - 1;
      if NoonDistance(items[c], tz) < NoonDistance(items[p], tz) then c else p
  }

  /** dt is the time of the earliest of the samples nearest to noon. */
  ghost predicate IsNoonish(dt: int, items: seq<Sample>, tz: int) {
    exists k :: 0 <= k < |items| && items[k].dt == dt
      && (forall j :: 0 <= j < |items| ==> NoonDistance(items[k], tz) <= NoonDistance(items[j], tz))
      && (forall j :: 0 <= j < k ==> NoonDistance(items[j], tz) > NoonDistance(items[k], tz))
  }

  // ---------------------------------------------------------------------
  // One day

  /** The card for the day key built from that day's samples. */
  ghost predicate IsDaySummary(d: DailySummary, key: int, items: seq<Sample>, tz: int) {
    && |items| > 0
    && d.dateKey == key
    && d.min in Temps(items) && (forall i :: 0 <= i < |items| ==> d.min <= items[i].temp)
    && d.max in Temps(items) && (forall i :: 0 <= i < |items| ==> items[i].temp <= d.max)
    && IsRepresentative(Weather(d.icon, d.desc), items)
    && IsNoonish(d.labelDt, items, tz)
  }

  method SummarizeDay(key: int, items: seq<Sample>, tz: int) returns (d: DailySummary)
    requires |items| > 0
    ensures IsDaySummary(d, key, items, tz)
    ensures d.min <= d.max
  {
    var temps := Temps(items);
    var min := MinOf(temps);
    var max := MaxOf(temps);
    var best := PickIcon(items);
    var noonish := items[NoonishIndex(items, tz)];
    d := DailySummary(key, noonish.dt, min, max, best.icon, best.description);
  }

  /** The card of a day is determined by the day's samples: IsDaySummary is
      a complete specification of SummarizeDay. */
  lemma SummaryDeterministic(d1: DailySummary, d2: DailySummary, key: int, items: seq<Sample>, tz: int)
    requires IsDaySummary(d1, key, items, tz) && IsDaySummary(d2, key, items, tz)
    ensures d1 == d2
  {
    RepresentativeUnique(Weather(d1.icon, d1.desc), Weather(d2.icon, d2.desc), items);
    NoonishUnique(d1.labelDt, d2.labelDt, items, tz);
    var ts := Temps(items);
    var a1 :| 0 <= a1 < |ts| && ts[a1] == d1.min;
    var a2 :| 0 <= a2 < |ts| && ts[a2] == d2.min;
    var b1 :| 0 <= b1 < |ts| && ts[b1] == d1.max;
    var b2 :| 0 <= b2 < |ts| && ts[b2] == d2.max;
    assert d1.min <= items[a2].temp && d2.min <= items[a1].temp;
    assert items[b2].temp <= d1.max && items[b1].temp <= d2.max;
  }

  // ---------------------------------------------------------------------
  // The whole summarizer

  /** The loop that fills the buckets object and records its keys in
      insertion order. */
  method GroupByDay(list: seq<Sample>, tz: int) returns (buckets: map<int, seq<Sample>>, keys: seq<int>)
    ensures Distinct(keys)
    ensures forall k :: k in buckets <==> k in keys
    ensures forall k :: k in keys <==> k in DayKeys(list, tz)
    ensures forall k :: k in buckets ==> buckets[k] == Bucket(list, tz, k)
  {
    buckets := map[];
    keys := [];
    var i := 0;
    while i < |list|
      invariant 0 <= i <= |list|
      invariant Distinct(keys)
      invariant forall k :: k in buckets <==> k in keys
      invariant forall k :: k in keys <==> k in DayKeys(list[..i], tz)
      invariant forall k :: k in buckets ==> buckets[k] == Bucket(list[..i], tz, k)
    {
      var item := list[i];
      var key := LocalDateKey(item.dt, tz);
      assert list[..i + 1][..i] == list[..i];
      if key in buckets {
        buckets := buckets[key := buckets[key] + [item]];
      } else {
        BucketEmpty(list[..i], tz, key);
        keys := keys + [key];
        buckets := buckets[key := [item]];
      }
      i := i + 1;
    }
    assert list[..|list|] == list;
  }

  /** Cards made for the first keys of a strictly ascending enumeration of
      the day keys: as many as there are days up to five, in ascending key
      order, and a key without a card comes after every key with one. */
  lemma FirstDaysOfSorted(days: seq<DailySummary>, sorted: seq<int>, n: nat, all: set<int>)
    requires StrictlyAscending(sorted) && |sorted| == |all|
    requires forall y :: y in sorted <==> y in all
    requires n == if |sorted| < MaxDays then |sorted| else MaxDays
    requires |days| == n && forall a :: 0 <= a < |days| ==> days[a].dateKey == sorted[..n][a]
    ensures |days| == if |all| < MaxDays then |all| else MaxDays
    ensures forall a, b :: 0 <= a < b < |days| ==> days[a].dateKey < days[b].dateKey
    ensures forall a :: 0 <= a < |days| ==> days[a].dateKey in all
    ensures forall k :: k in all && (forall a :: 0 <= a < |days| ==> days[a].dateKey != k) ==>
              |days| == MaxDays && forall a :: 0 <= a < |days| ==> days[a].dateKey < k
  {
    assert forall a :: 0 <= a < |days| ==> days[a].dateKey == sorted[a];
    forall a | 0 <= a < |days| ensures days[a].dateKey in all {
      assert sorted[a] in sorted;
    }
    forall k | k in all && (forall a :: 0 <= a < |days| ==> days[a].dateKey != k)
      ensures |days| == MaxDays && forall a :: 0 <= a < |days| ==> days[a].dateKey < k
    {
      var p :| 0 <= p < |sorted| && sorted[p] == k;
    }
  }

  /** Appending the card for the next key keeps every card a summary of its own key. */
  lemma SummaryAppended(days: seq<DailySummary>, d: DailySummary, keys: seq<int>, list: seq<Sample>, tz: int)
    requires |days| < |keys|
    requires forall a :: 0 <= a < |days| ==> IsDaySummary(days[a], keys[a], Bucket(list, tz, keys[a]), tz)
    requires IsDaySummary(d, keys[|days|], Bucket(list, tz, keys[|days|]), tz)
    ensures forall a :: 0 <= a <= |days| ==> IsDaySummary((days + [d])[a], keys[a], Bucket(list, tz, keys[a]), tz)
  {
    forall a | 0 <= a <= |days| ensures IsDaySummary((days + [d])[a], keys[a], Bucket(list, tz, keys[a]), tz) {
      if a < |days| {
        assert (days + [d])[a] == days[a];
      }
    }
  }

  /** The map over the chosen keys, one card per key. */
  method SummarizeDays(keys: seq<int>, buckets: map<int, seq<Sample>>, list: seq<Sample>, tz: int)
    returns (days: seq<DailySummary>)
    requires forall key :: key in keys ==> key in buckets && buckets[key] == Bucket(list, tz, key) != []
    ensures |days| == |keys|
    ensures forall a :: 0 <= a < |keys| ==> days[a].dateKey == keys[a]
    ensures forall a :: 0 <= a < |days| ==>
              IsDaySummary(days[a], days[a].dateKey, Bucket(list, tz, days[a].dateKey), tz)
  {
    days := [];
    var j := 0;
    while j < |keys|
      invariant 0 <= j <= |keys| && |days| == j
      invariant forall a :: 0 <= a < j ==> days[a].dateKey == keys[a]
      invariant forall a :: 0 <= a < j ==> IsDaySummary(days[a], keys[a], Bucket(list, tz, keys[a]), tz)
    {
      var key := keys[j];
      var d := SummarizeDay(key, buckets[key], tz);
      SummaryAppended(days, d, keys, list, tz);
      days := days + [d];
      j := j + 1;
    }
  }

  /** Sorting the distinct day keys enumerates the set of day keys. */
  lemma SortedDayKeys(keys: seq<int>, sorted: seq<int>, all: set<int>)
    requires Distinct(keys) && forall k :: k in keys <==> k in all
    requires |sorted| == |keys| && forall y :: y in sorted <==> y in keys
    ensures |sorted| == |all| && forall y :: y in sorted <==> y in all
  {
    DistinctSize(keys, all);
  }

  /** Every key among the first n sorted day keys has its non-empty bucket. */
  lemma ChosenBucketed(sorted: seq<int>, n: nat, buckets: map<int, seq<Sample>>, list: seq<Sample>, tz: int)
    requires n <= |sorted| && forall y :: y in sorted ==> y in DayKeys(list, tz)
    requires forall k :: k in DayKeys(list, tz) ==> k in buckets && buckets[k] == Bucket(list, tz, k)
    ensures forall key :: key in sorted[..n] ==> key in buckets && buckets[key] == Bucket(list, tz, key) != []
  {
    forall key | key in sorted[..n] ensures key in buckets && buckets[key] == Bucket(list, tz, key) != [] {
      assert key in sorted;
      BucketEmpty(list, tz, key);
    }
  }

  method PickDailySummaries(list: seq<Sample>, tz: int) returns (days: seq<DailySummary>)
    requires InIsoRange(list, tz)
    ensures |days| == if |DayKeys(list, tz)| < MaxDays then |DayKeys(list, tz)| else MaxDays
    ensures forall a, b :: 0 <= a < b < |days| ==> days[a].dateKey < days[b].dateKey
    ensures forall a :: 0 <= a < |days| ==> days[a].dateKey in DayKeys(list, tz)
    ensures forall k :: k in DayKeys(list, tz) && (forall a :: 0 <= a < |days| ==> days[a].dateKey != k) ==>
              |days| == MaxDays && forall a :: 0 <= a < |days| ==> days[a].dateKey < k
    ensures forall a :: 0 <= a < |days| ==>
              IsDaySummary(days[a], days[a].dateKey, Bucket(list, tz, days[a].dateKey), tz)
  {
    var buckets, keys := GroupByDay(list, tz);
    var sorted := SortKeys(keys);
    SortedDayKeys(keys, sorted, DayKeys(list, tz));
    var n := if |sorted| < MaxDays then |sorted| else MaxDays;
    var chosen := sorted[..n];
    ChosenBucketed(sorted, n, buckets, list, tz);
    days := SummarizeDays(chosen, buckets, list, tz);

    FirstDaysOfSorted(days, sorted, n, DayKeys(list, tz));
  }
}
