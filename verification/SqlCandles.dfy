/** The web API's SQL aggregation of candles, and its agreement with the resampling program. */
module SqlCandles {
  import opened Sequences
  import opened Candles
  import opened Resampling
  import opened ResamplingLaws

  /** One row of the `aggregated` relation. */
  datatype Aggregated = Aggregated(
    bucket: int, open: real, high: real, low: real, close: real, volume: real,
    quoteVolume: Option<real>, tradeCount: Option<int>,
    rowCount: nat, firstTime: int, lastTime: int, minuteAligned: bool)

  /** The `source` relation: the rows of one series with `from <= time < to`. */
  ghost function Source(table: Table, from: int, to: int): Table {
    map t | t in table && from <= t < to :: table[t]
  }

  /** `date_bin` from the epoch. */
  ghost function DateBin(n: nat, t: int): int
    requires n > 0
  {
    BucketStart(t, n)
  }

  /** The rows of a group in the order of their time. */
  ghost function OrderedByTime(source: Table, group: set<int>): seq<Row>
    requires group <= source.Keys
  {
    var times := Ascending(group);
    seq(|times|, i requires 0 <= i < |times| => assert times[i] in group; source[times[i]])
  }

  /** `count(x)` skips NULLs, so a sum is published only when no value is NULL. */
  function SumUnlessNull(s: seq<Option<real>>): Option<real> {
    var present := seq(|s|, i requires 0 <= i < |s| => if s[i].Some? then 1 else 0);
    if CountOf(present) == |s| then
      Some(SumOf(seq(|s|, i requires 0 <= i < |s| => if s[i].Some? then s[i].value else 0.0)))
    else None
  }

  function CountUnlessNull(s: seq<Option<int>>): Option<int> {
    var present := seq(|s|, i requires 0 <= i < |s| => if s[i].Some? then 1 else 0);
    if CountOf(present) == |s| then
      Some(CountOf(seq(|s|, i requires 0 <= i < |s| => if s[i].Some? then s[i].value else 0)))
    else None
  }

  /** `GROUP BY bucket`: one aggregated row for a non-empty group of times. */
  ghost function Aggregate(source: Table, n: nat, bucket: int, group: set<int>): Aggregated
    requires group != {} && group <= source.Keys
  {
    var times := Ascending(group);
    var rows := OrderedByTime(source, group);
    var x := AnyElement(group);
    assert x in times;
    Aggregated(bucket,
               Opens(rows)[0], MaxOf(Highs(rows)), MinOf(Lows(rows)), Closes(rows)[|rows| - 1],
               SumOf(Volumes(rows)), SumUnlessNull(Quotes(rows)), CountUnlessNull(Trades(rows)),
               |group|, times[0], times[|times| - 1], forall t :: t in group ==> t % MINUTE == 0)
  }

  ghost function AnyElement(group: set<int>): (x: int)
    requires group != {}
    ensures x in group
  {
    NonEmpty(group);
    var x :| x in group;
    x
  }

  /** The WHERE clause of the `complete` relation. */
  ghost predicate CompleteRow(a: Aggregated, n: nat, to: int) {
    && a.rowCount == n
    && a.minuteAligned
    && a.firstTime == a.bucket
    && a.lastTime == a.bucket + Secs(n) - MINUTE
    && a.bucket + Secs(n) <= to
  }

  ghost function Group(source: Table, n: nat, bucket: int): set<int>
    requires n > 0
  {
    set t | t in source && DateBin(n, t) == bucket
  }

  ghost predicate CompleteBucket(source: Table, n: nat, bucket: int, to: int)
    requires n > 0
  {
    Group(source, n, bucket) != {} && CompleteRow(Aggregate(source, n, bucket, Group(source, n, bucket)), n, to)
  }

  function Published(a: Aggregated, n: nat): Candle {
    Candle(a.bucket, a.bucket + Secs(n), a.open, a.high, a.low, a.close, a.volume, a.quoteVolume, a.tradeCount)
  }

  ghost function CompleteBuckets(source: Table, n: nat, to: int): set<int>
    requires n > 0
  {
    set b | b in Buckets(source, n) && CompleteBucket(source, n, b, to)
  }

  ghost function InOrder(source: Table, n: nat, to: int): (buckets: seq<int>)
    requires n > 0
    ensures forall i :: 0 <= i < |buckets| ==> CompleteBucket(source, n, buckets[i], to)
  {
    var buckets := Ascending(CompleteBuckets(source, n, to));
    InSet(buckets, CompleteBuckets(source, n, to));
    buckets
  }

  lemma InSet(s: seq<int>, xs: set<int>)
    requires SameElements(s, xs)
    ensures forall i :: 0 <= i < |s| ==> s[i] in xs
  {
    forall i | 0 <= i < |s| ensures s[i] in xs {
      var x := s[i];
      assert x in s;
    }
  }

  ghost function CandleOf(source: Table, n: nat, bucket: int, to: int): Candle
    requires n > 0 && CompleteBucket(source, n, bucket, to)
  {
    Published(Aggregate(source, n, bucket, Group(source, n, bucket)), n)
  }

  /** The query: complete buckets in bucket order, before LIMIT. */
  ghost function QueryCandles(table: Table, n: nat, from: int, to: int): seq<Candle>
    requires n > 0
  {
    var source := Source(table, from, to);
    var buckets := InOrder(source, n, to);
    seq(|buckets|, i requires 0 <= i < |buckets| => CandleOf(source, n, buckets[i], to))
  }

  // ---- the counting argument -----------------------------------------------------------

  lemma {:induction false} ExpectedSize(b: int, n: nat)
    ensures |ExpectedTimes(b, n)| == n
    decreases n
  {
    if n > 0 {
      ExpectedSize(b, n - 1);
      assert ExpectedTimes(b, n) == ExpectedTimes(b, n - 1) + {Minute(b, n - 1)};
      assert Minute(b, n - 1) !in ExpectedTimes(b, n - 1);
    } else {
      assert ExpectedTimes(b, n) == {};
    }
  }

  lemma SlotOnMinute(q: int, n: nat)
    ensures Slot(q, n) % MINUTE == 0
  {
    assert Slot(q, n) == MINUTE * (q * n);
  }

  lemma ExpectedMinute(t: int, b: int, n: nat)
    requires t % MINUTE == 0 && b % MINUTE == 0 && b <= t < b + Secs(n)
    ensures t in ExpectedTimes(b, n)
  {
    var i := (t - b) / MINUTE;
    assert 0 <= i < n && t == Minute(b, i);
  }

  /** Times on minutes inside one slot are among the expected ones; enough of them are all of them. */
  lemma EnoughTimes(source: Table, n: nat, q: int, group: set<int>)
    requires n > 0 && group == BucketTimes(source, Slot(q, n), n) && |group| == n
    requires forall t :: t in group ==> t % MINUTE == 0
    ensures group == ExpectedTimes(Slot(q, n), n)
  {
    hide Slot, BucketStart;
    var b := Slot(q, n);
    SlotOnMinute(q, n);
    ExpectedSize(b, n);
    hide ExpectedTimes;
    forall t | t in group ensures t in ExpectedTimes(b, n) {
      SlotHolds(t, q, n);
      ExpectedMinute(t, b, n);
    }
    SubsetSameSize(group, ExpectedTimes(b, n));
  }

  /** Count, alignment and endpoints hold together exactly when the times are the expected ones. */
  lemma CountingCompleteness(source: Table, n: nat, q: int, to: int)
    requires n > 0
    ensures CompleteBucket(source, n, Slot(q, n), to) <==>
              Complete(source, Slot(q, n), n) && Slot(q + 1, n) <= to
  {
    hide Aggregate, Slot, BucketStart;
    var b := Slot(q, n);
    var group := Group(source, n, b);
    assert group == BucketTimes(source, b, n);
    SlotOrder(q, q, n);
    SlotOnMinute(q, n);
    if Complete(source, b, n) {
      assert Minute(b, 0) in group;
      ExpectedAggregate(source, n, b, group);
    }
    if CompleteBucket(source, n, b, to) {
      AggregateCounts(source, n, b, group);
      EnoughTimes(source, n, q, group);
    }
  }

  lemma AggregateCounts(source: Table, n: nat, b: int, group: set<int>)
    requires group != {} && group <= source.Keys
    ensures Aggregate(source, n, b, group).bucket == b
    ensures Aggregate(source, n, b, group).rowCount == |group|
    ensures Aggregate(source, n, b, group).minuteAligned <==> forall t :: t in group ==> t % MINUTE == 0
  {
  }

  /** The aggregated row of a group that has the expected times. */
  lemma ExpectedAggregate(source: Table, n: nat, b: int, group: set<int>)
    requires n > 0 && group == ExpectedTimes(b, n) && group <= source.Keys && b % MINUTE == 0 && group != {}
    ensures Aggregate(source, n, b, group).bucket == b
    ensures Aggregate(source, n, b, group).rowCount == n
    ensures Aggregate(source, n, b, group).minuteAligned
    ensures Aggregate(source, n, b, group).firstTime == b
    ensures Aggregate(source, n, b, group).lastTime == b + Secs(n) - MINUTE
    ensures Covered(source, b, n) && OrderedByTime(source, group) == SlotRows(source, b, n)
  {
    ExpectedSize(b, n);
    var times := Ascending(group);
    ProgressionSorted(times, b, n);
    forall t | t in group ensures t % MINUTE == 0 {
      var i :| 0 <= i < n && t == Minute(b, i);
    }
    forall i | 0 <= i < n ensures Minute(b, i) in source {
      assert Minute(b, i) in group;
    }
    assert OrderedByTime(source, group) == SlotRows(source, b, n);
  }

  // ---- NULL handling ---------------------------------------------------------------------

  /** Ones and zeros add up to the length exactly when there is no zero. */
  lemma {:induction false} AllOnes(s: seq<int>)
    requires forall i :: 0 <= i < |s| ==> s[i] == 0 || s[i] == 1
    ensures CountOf(s) <= |s|
    ensures CountOf(s) == |s| <==> forall i :: 0 <= i < |s| ==> s[i] == 1
    decreases |s|
  {
    if s != [] {
      var m := |s| - 1;
      AllOnes(s[..m]);
      assert (forall i :: 0 <= i < |s| ==> s[i] == 1) <==>
             (forall i :: 0 <= i < m ==> s[..m][i] == 1) && s[m] == 1 by {
        assert forall i :: 0 <= i < m ==> s[i] == s[..m][i];
      }
    }
  }

  lemma SumUnlessNullIsTotal(s: seq<Option<real>>)
    ensures SumUnlessNull(s) == TotalOf(s)
  {
    var present := seq(|s|, i requires 0 <= i < |s| => if s[i].Some? then 1 else 0);
    AllOnes(present);
    if None in s {
      var i :| 0 <= i < |s| && s[i] == None;
      assert present[i] == 0;
    } else {
      assert forall i :: 0 <= i < |s| ==> s[i] in s && present[i] == 1;
      assert seq(|s|, i requires 0 <= i < |s| => if s[i].Some? then s[i].value else 0.0)
          == seq(|s|, i requires 0 <= i < |s| => s[i].value);
    }
  }

  lemma CountUnlessNullIsTotal(s: seq<Option<int>>)
    ensures CountUnlessNull(s) == TotalCountOf(s)
  {
    var present := seq(|s|, i requires 0 <= i < |s| => if s[i].Some? then 1 else 0);
    AllOnes(present);
    if None in s {
      var i :| 0 <= i < |s| && s[i] == None;
      assert present[i] == 0;
    } else {
      assert forall i :: 0 <= i < |s| ==> s[i] in s && present[i] == 1;
      assert seq(|s|, i requires 0 <= i < |s| => if s[i].Some? then s[i].value else 0)
          == seq(|s|, i requires 0 <= i < |s| => s[i].value);
    }
  }

  // ---- agreement ---------------------------------------------------------------------------

  /** A complete bucket publishes the candle that the program builds for that slot. */
  lemma PublishedIsCandle(source: Table, n: nat, q: int, to: int)
    requires n > 0 && CompleteBucket(source, n, Slot(q, n), to)
    ensures CandleOfSlot(CandleOf(source, n, Slot(q, n), to), source, q, n)
  {
    hide Slot, BucketStart, CompleteRow, MaxOf, MinOf, SumOf, SumUnlessNull, CountUnlessNull, TotalOf, TotalCountOf;
    var b := Slot(q, n);
    var group := Group(source, n, b);
    CountingCompleteness(source, n, q, to);
    assert group == BucketTimes(source, b, n);
    SlotOnMinute(q, n);
    ExpectedAggregate(source, n, b, group);
    SumUnlessNullIsTotal(Quotes(SlotRows(source, b, n)));
    CountUnlessNullIsTotal(Trades(SlotRows(source, b, n)));
  }

  /** The slot behind the `i`-th row of the query. */
  lemma QueryRow(source: Table, n: nat, p: int, to: int, i: nat) returns (s: int)
    requires n > 0 && i < |InOrder(source, n, to)|
    requires forall t :: t in source ==> p <= SlotOf(t, n)
    ensures p <= s <= LatestSlot(to, n) && InOrder(source, n, to)[i] == Slot(s, n)
    ensures CandleOfSlot(CandleOf(source, n, InOrder(source, n, to)[i], to), source, s, n)
  {
    hide CompleteBucket, CandleOf, Slot, SlotOf, LatestSlot, Buckets;
    var b := InOrder(source, n, to)[i];
    InSet(InOrder(source, n, to), CompleteBuckets(source, n, to));
    s := BucketNumber(source, n, b, p, to);
    PublishedIsCandle(source, n, s, to);
  }

  /** The query lists exactly the candles of the complete slots that close by `to`. */
  lemma QueryExact(table: Table, n: nat, from: int, to: int, p: int)
    requires n > 0
    requires forall t :: t in Source(table, from, to) ==> p <= SlotOf(t, n)
    ensures ExactCandles(QueryCandles(table, n, from, to), Source(table, from, to), p, LatestSlot(to, n) + 1, n)
  {
    hide Slot, Complete, CompleteBucket, CandleOf, CandleOfSlot, InOrder, SlotOf, LatestSlot, Source;
    var source, end := Source(table, from, to), LatestSlot(to, n) + 1;
    var buckets, cs := InOrder(source, n, to), QueryCandles(table, n, from, to);
    forall i | 0 <= i < |cs|
      ensures exists s :: p <= s < end && CandleOfSlot(cs[i], source, s, n)
    {
      var s := QueryRow(source, n, p, to, i);
      assert cs[i] == CandleOf(source, n, buckets[i], to);
    }
    forall s | p <= s < end && Complete(source, Slot(s, n), n)
      ensures exists c :: c in cs && CandleOfSlot(c, source, s, n)
    {
      var i := SlotListed(source, n, s, to);
      PublishedIsCandle(source, n, s, to);
      assert cs[i] in cs;
    }
    forall i, j | 0 <= i < j < |cs| ensures cs[i].closeTime <= cs[j].openTime {
      QueryOrdered(source, n, p, to, i, j);
    }
  }

  lemma QueryOrdered(source: Table, n: nat, p: int, to: int, i: nat, j: nat)
    requires n > 0 && i < j < |InOrder(source, n, to)|
    requires forall t :: t in source ==> p <= SlotOf(t, n)
    ensures CandleOf(source, n, InOrder(source, n, to)[i], to).closeTime
         <= CandleOf(source, n, InOrder(source, n, to)[j], to).openTime
  {
    hide CompleteBucket, CandleOf, CandleOfSlot, Slot, SlotOf, LatestSlot, Secs, Buckets;
    var buckets := InOrder(source, n, to);
    assert buckets[i] < buckets[j];
    hide InOrder;
    var s := QueryRow(source, n, p, to, i);
    var s' := QueryRow(source, n, p, to, j);
    CandleTimes(CandleOf(source, n, buckets[i], to), source, s, n);
    CandleTimes(CandleOf(source, n, buckets[j], to), source, s', n);
    SlotOrder(s, s', n);
  }

  lemma BucketNumber(source: Table, n: nat, b: int, p: int, to: int) returns (s: int)
    requires n > 0 && b in Buckets(source, n) && CompleteBucket(source, n, b, to)
    requires forall t :: t in source ==> p <= SlotOf(t, n)
    ensures b == Slot(s, n) && p <= s <= LatestSlot(to, n)
  {
    var t :| t in source && BucketStart(t, n) == b;
    s := SlotOf(t, n);
    CountingCompleteness(source, n, s, to);
    SlotOrder(s, LatestSlot(to, n), n);
  }

  lemma SlotListed(source: Table, n: nat, s: int, to: int) returns (i: nat)
    requires n > 0 && Complete(source, Slot(s, n), n) && s <= LatestSlot(to, n)
    ensures CompleteBucket(source, n, Slot(s, n), to)
    ensures i < |InOrder(source, n, to)| && InOrder(source, n, to)[i] == Slot(s, n)
  {
    var b := Slot(s, n);
    CompleteCovers(source, b, n);
    assert Minute(b, 0) in source;
    SlotOrder(s, LatestSlot(to, n), n);
    SlotHolds(b, s, n);
    CountingCompleteness(source, n, s, to);
    hide CompleteBucket, Slot, LatestSlot, Complete;
    assert BucketStart(b, n) in Buckets(source, n);
    assert b in CompleteBuckets(source, n, to);
    assert b in InOrder(source, n, to);
    i :| 0 <= i < |InOrder(source, n, to)| && InOrder(source, n, to)[i] == b;
  }

  /** The SQL query and the resampling program give the same candles, in the same order. */
  lemma QueryMatchesProgram(table: Table, n: nat, from: int, to: int)
    requires n > 0
    ensures QueryCandles(table, n, from, to) == ResampleTable(Source(table, from, to), n, to).candles
  {
    var source, end := Source(table, from, to), LatestSlot(to, n) + 1;
    var p := if source == map[] then end else FirstSlot(source, n);
    forall t | t in source ensures p <= SlotOf(t, n) {
      assert BucketStart(t, n) in Buckets(source, n);
      SlotOrder(p, SlotOf(t, n), n);
    }
    QueryExact(table, n, from, to, p);
    WalkExact(source, p, end, n);
    ExactUnique(QueryCandles(table, n, from, to), Walk(source, p, end, n).candles, source, p, end, n);
  }

  /** On the rows themselves: the query over a window is a run of the program on the rows of that window. */
  lemma QueryMatchesRun(rows: seq<Row>, kept: seq<Row>, n: nat, from: int, to: int)
    requires n > 0 && DistinctTimes(rows) && DistinctTimes(kept)
    requires forall r :: r in kept <==> r in rows && from <= r.time < to
    ensures Resample(kept, n, to).Ok?
    ensures QueryCandles(TableOf(rows), n, from, to) == Resample(kept, n, to).result.candles
  {
    hide QueryCandles, ResampleTable, DistinctTimes;
    var source, table := Source(TableOf(rows), from, to), TableOf(kept);
    forall t ensures t in source <==> t in table {
      if t in source { assert source[t] in rows && source[t] in kept; }
      if t in table { assert table[t] in kept && table[t] in rows; }
    }
    forall t | t in source ensures source[t] == table[t] {
      assert table[t] in kept && table[t] in rows;
    }
    assert source == table;
    QueryMatchesProgram(TableOf(rows), n, from, to);
  }
}
