/** Consistency across timeframes: a coarse run is the merge of a fine run on the same rows. */
module Timeframes {
  import opened Candles
  import opened Resampling
  import opened ResamplingLaws

  /** First open, highest high, lowest low, last close, added volume, totals unknown if any part is. */
  function Merge(cs: seq<Candle>): Candle
    requires cs != []
  {
    var k := |cs|;
    Candle(cs[0].openTime, cs[k - 1].closeTime, cs[0].open,
           MaxOf(seq(k, i requires 0 <= i < k => cs[i].high)),
           MinOf(seq(k, i requires 0 <= i < k => cs[i].low)),
           cs[k - 1].close,
           SumOf(seq(k, i requires 0 <= i < k => cs[i].volume)),
           TotalOf(seq(k, i requires 0 <= i < k => cs[i].quoteVolume)),
           TotalCountOf(seq(k, i requires 0 <= i < k => cs[i].tradeCount)))
  }

  lemma MergeOne(c: Candle)
    ensures Merge([c]) == c
  {
    var cs := [c];
    assert seq(1, i requires 0 <= i < 1 => cs[i].quoteVolume) == [c.quoteVolume];
    assert seq(1, i requires 0 <= i < 1 => cs[i].tradeCount) == [c.tradeCount];
    assert SumOf([c.volume]) == SumOf([]) + c.volume;
    OneTotal(c.quoteVolume);
    OneCount(c.tradeCount);
  }

  /** Merging one more candle joins it to the merge of the others. */
  lemma MergeMore(cs: seq<Candle>, c: Candle)
    requires cs != []
    ensures Merge(cs + [c]) == Join(Merge(cs), c)
  {
    MergeOne(c);
    var all, k, one := cs + [c], |cs|, [c];
    var highs := seq(k, i requires 0 <= i < k => cs[i].high);
    var lows := seq(k, i requires 0 <= i < k => cs[i].low);
    var volumes := seq(k, i requires 0 <= i < k => cs[i].volume);
    var quotes := seq(k, i requires 0 <= i < k => cs[i].quoteVolume);
    var trades := seq(k, i requires 0 <= i < k => cs[i].tradeCount);
    assert seq(k + 1, i requires 0 <= i < k + 1 => all[i].high) == highs + [c.high];
    assert seq(k + 1, i requires 0 <= i < k + 1 => all[i].low) == lows + [c.low];
    assert seq(k + 1, i requires 0 <= i < k + 1 => all[i].volume) == volumes + [c.volume];
    assert seq(k + 1, i requires 0 <= i < k + 1 => all[i].quoteVolume) == quotes + [c.quoteVolume];
    assert seq(k + 1, i requires 0 <= i < k + 1 => all[i].tradeCount) == trades + [c.tradeCount];
    assert seq(1, i requires 0 <= i < 1 => one[i].high) == [c.high];
    assert seq(1, i requires 0 <= i < 1 => one[i].low) == [c.low];
    assert seq(1, i requires 0 <= i < 1 => one[i].volume) == [c.volume];
    assert seq(1, i requires 0 <= i < 1 => one[i].quoteVolume) == [c.quoteVolume];
    assert seq(1, i requires 0 <= i < 1 => one[i].tradeCount) == [c.tradeCount];
    MaxAppend(highs, [c.high]);
    MinAppend(lows, [c.low]);
    SumAppend(volumes, [c.volume]);
    TotalAppend(quotes, [c.quoteVolume]);
    TotalCountAppend(trades, [c.tradeCount]);
  }

  /** Candles joined one after the other. */
  function JoinAll(cs: seq<Candle>): Candle
    requires cs != []
  {
    if |cs| == 1 then cs[0] else Join(JoinAll(cs[..|cs| - 1]), cs[|cs| - 1])
  }

  lemma {:induction false} JoinAllIsMerge(cs: seq<Candle>)
    requires cs != []
    ensures JoinAll(cs) == Merge(cs)
    decreases |cs|
  {
    var m := |cs| - 1;
    if m == 0 {
      assert cs == [cs[0]];
      MergeOne(cs[0]);
    } else {
      assert cs == cs[..m] + [cs[m]];
      JoinAllIsMerge(cs[..m]);
      MergeMore(cs[..m], cs[m]);
    }
  }

  // ---- one coarse slot and its fine slots ----------------------------------------------

  /** Completeness by intervals: every minute present, and no row between the minutes. */
  lemma CompleteMeans(table: Table, q: int, n: nat)
    requires n > 0
    ensures Complete(table, Slot(q, n), n) <==>
              Covered(table, Slot(q, n), n) && OnMinutes(table, Slot(q, n), n)
  {
    var b := Slot(q, n);
    if Complete(table, b, n) {
      CompleteCovers(table, b, n);
      forall t | t in table && b <= t < b + Secs(n) ensures (t - b) % MINUTE == 0 {
        SlotHolds(t, q, n);
        assert t in BucketTimes(table, b, n);
        assert t in ExpectedTimes(b, n);
        var i :| 0 <= i < n && t == Minute(b, i);
      }
    }
    if Covered(table, b, n) && OnMinutes(table, b, n) {
      forall t ensures t in BucketTimes(table, b, n) <==> t in ExpectedTimes(b, n) {
        SlotHolds(t, q, n);
        if t in BucketTimes(table, b, n) {
          var i := (t - b) / MINUTE;
          assert 0 <= i < n && t == Minute(b, i);
        }
      }
    }
  }

  ghost predicate OnMinutes(table: Table, b: int, n: nat) {
    forall t :: t in table && b <= t < b + Secs(n) ==> (t - b) % MINUTE == 0
  }

  /** Slot `s` of `k * n` minutes starts where fine slot `s * k` starts. */
  lemma CoarseSlot(s: int, k: nat, n: nat)
    ensures Slot(s, k * n) == Slot(s * k, n)
  {
    assert s * (MINUTE * (k * n)) == (s * k) * (MINUTE * n);
  }

  /** The `j`-th fine slot of a block starts `j * n` minutes into it. */
  lemma FineSlot(a: int, j: nat, n: nat)
    ensures Slot(a + j, n) == Minute(Slot(a, n), j * n)
  {
    assert (a + j) * (MINUTE * n) == a * (MINUTE * n) + MINUTE * (j * n);
  }

  lemma {:induction false} BlockFits(j: nat, k: nat, n: nat)
    requires j < k
    ensures j * n + n <= k * n
    decreases k
  {
    assert k * n == (k - 1) * n + n;
    if j + 1 < k { BlockFits(j, k - 1, n); }
  }

  /** A complete coarse slot consists of complete fine slots. */
  lemma FineSlotsComplete(table: Table, s: int, k: nat, n: nat, j: nat)
    requires n > 0 && j < k && k * n > 0 && Complete(table, Slot(s, k * n), k * n)
    ensures Complete(table, Slot(s * k + j, n), n)
  {
    hide Slot, BucketStart, Complete;
    var b, f := Slot(s * k, n), Slot(s * k + j, n);
    CoarseSlot(s, k, n);
    FineSlot(s * k, j, n);
    BlockFits(j, k, n);
    CompleteMeans(table, s, k * n);
    CompleteMeans(table, s * k + j, n);
    forall i | 0 <= i < n ensures Minute(f, i) in table {
      assert Minute(f, i) == Minute(b, j * n + i);
    }
    forall t | t in table && f <= t < f + Secs(n) ensures (t - f) % MINUTE == 0 {
      assert b <= t < b + Secs(k * n);
      assert t - f == (t - b) - MINUTE * (j * n);
    }
  }

  lemma SlotRowsSplit(table: Table, b: int, m: nat, n: nat)
    requires Covered(table, b, m + n)
    ensures Covered(table, b, m) && Covered(table, Minute(b, m), n)
    ensures SlotRows(table, b, m + n) == SlotRows(table, b, m) + SlotRows(table, Minute(b, m), n)
  {
    forall i | 0 <= i < n ensures Minute(Minute(b, m), i) == Minute(b, m + i) && Minute(b, m + i) in table {
    }
  }

  /** A candle over `m + n` minutes joins the candles over its two parts. */
  lemma CandleAtSplit(table: Table, b: int, m: nat, n: nat)
    requires m > 0 && n > 0 && Covered(table, b, m + n)
    ensures Covered(table, b, m) && Covered(table, Minute(b, m), n)
    ensures CandleAt(table, b, m + n) == Join(CandleAt(table, b, m), CandleAt(table, Minute(b, m), n))
  {
    SlotRowsSplit(table, b, m, n);
    BuildAppend(SlotRows(table, b, m), SlotRows(table, Minute(b, m), n), b, Secs(m), Secs(n));
  }

  /** `cs` are the candles of the complete slots `a`, `a + 1`, ... */
  ghost predicate IsBlock(cs: seq<Candle>, table: Table, a: int, n: nat)
    requires n > 0
  {
    forall j :: 0 <= j < |cs| ==> CandleOfSlot(cs[j], table, a + j, n)
  }

  /** The candle over a whole block is its fine candles joined. */
  lemma {:induction false} BlockJoins(cs: seq<Candle>, table: Table, a: int, n: nat)
    requires n > 0 && cs != [] && IsBlock(cs, table, a, n)
    requires Covered(table, Slot(a, n), |cs| * n) && |cs| * n > 0
    ensures CandleAt(table, Slot(a, n), |cs| * n) == JoinAll(cs)
    decreases |cs|
  {
    hide BuildCandle, Join;
    var m := |cs| - 1;
    assert CandleOfSlot(cs[m], table, a + m, n);
    if m > 0 {
      BlockFits(0, m, n);
      assert |cs| * n == m * n + n;
      CandleAtSplit(table, Slot(a, n), m * n, n);
      BlockJoins(cs[..m], table, a, n);
      FineSlot(a, m, n);
    }
  }

  // ---- whole runs --------------------------------------------------------------------------

  /** A block of complete slots shows up as a contiguous block of the walk. */
  lemma {:induction false} WalkShowsBlock(cs: seq<Candle>, table: Table, p: int, a: int, n: nat)
    requires n > 0 && p <= a && IsBlock(cs, table, a, n)
    ensures Walk(table, p, a + |cs|, n).candles == Walk(table, p, a, n).candles + cs
    decreases |cs|
  {
    hide BuildCandle;
    if cs != [] {
      var m := |cs| - 1;
      WalkShowsBlock(cs[..m], table, p, a, n);
      assert CandleOfSlot(cs[m], table, a + m, n);
      assert cs == cs[..m] + [cs[m]];
    }
  }

  /** Candles `p` to `p + k` of the fine run are consecutive, start where `c` starts and merge to `c`. */
  ghost predicate MergedFrom(c: Candle, fine: seq<Candle>, p: nat, k: nat, n: nat)
    requires k > 0
  {
    && p + k <= |fine|
    && c == Merge(fine[p..p + k])
    && c.openTime == fine[p].openTime
    && forall i :: p < i < p + k ==> fine[i - 1].closeTime == fine[i].openTime
  }

  lemma FineSlotsInRange(table: Table, s: int, k: nat, n: nat, boundary: int)
    requires n > 0 && k > 0 && k * n > 0 && table != map[]
    requires Complete(table, Slot(s, k * n), k * n)
    requires s <= LatestSlot(boundary, k * n)
    ensures FirstSlot(table, n) <= s * k && s * k + k <= LatestSlot(boundary, n) + 1
  {
    var b := Slot(s * k, n);
    CoarseSlot(s, k, n);
    CompleteCovers(table, b, k * n);
    assert Minute(b, 0) in table;
    SlotHolds(b, s * k, n);
    SlotOrder(s * k, s * k, n);
    assert BucketStart(b, n) in Buckets(table, n);
    SlotOrder(FirstSlot(table, n), s * k, n);
    var latest, last := LatestSlot(boundary, k * n), s * k + (k - 1);
    SlotOrder(s, latest, k * n);
    FineSlot(s * k, k - 1, n);
    assert Slot(last, n) + Secs(n) <= boundary by {
      assert (k - 1) * n + n == k * n;
    }
    SlotOrder(last, LatestSlot(boundary, n), n);
  }

  /** The fine candles of a complete coarse slot. */
  lemma {:induction false} FineBlock(table: Table, s: int, k: nat, n: nat, m: nat) returns (cs: seq<Candle>)
    requires n > 0 && m <= k && k * n > 0 && Complete(table, Slot(s, k * n), k * n)
    ensures |cs| == m && IsBlock(cs, table, s * k, n)
    decreases m
  {
    hide BuildCandle, Slot;
    if m == 0 {
      cs := [];
    } else {
      cs := FineBlock(table, s, k, n, m - 1);
      FineSlotsComplete(table, s, k, n, m - 1);
      cs := cs + [SlotOutcome(table, Slot(s * k + (m - 1), n), n).value];
    }
  }

  lemma BlockTimes(cs: seq<Candle>, table: Table, a: int, n: nat)
    requires n > 0 && IsBlock(cs, table, a, n)
    ensures forall j :: 0 < j < |cs| ==> cs[j - 1].closeTime == cs[j].openTime
  {
    forall j | 0 < j < |cs| ensures cs[j - 1].closeTime == cs[j].openTime {
      CandleTimes(cs[j - 1], table, a + (j - 1), n);
      CandleTimes(cs[j], table, a + j, n);
    }
  }

  /** A complete coarse slot inside the range is the merge of a block of the fine run. */
  lemma CoarseSlotMerges(table: Table, s: int, n: nat, k: nat, boundary: int, c: Candle) returns (p: nat)
    requires n > 0 && k > 0 && k * n > 0 && table != map[]
    requires s <= LatestSlot(boundary, k * n) && CandleOfSlot(c, table, s, k * n)
    ensures MergedFrom(c, ResampleTable(table, n, boundary).candles, p, k, n)
  {
    hide BuildCandle, Merge, JoinAll;
    var a, first, end := s * k, FirstSlot(table, n), LatestSlot(boundary, n) + 1;
    var cs := FineBlock(table, s, k, n, k);
    FineSlotsInRange(table, s, k, n, boundary);
    WalkShowsBlock(cs, table, first, a, n);
    WalkPrefix(table, first, a + k, end, n);
    p := |Walk(table, first, a, n).candles|;
    var fine := Walk(table, first, end, n).candles;
    assert fine[p..p + k] == cs;
    CoarseSlot(s, k, n);
    CompleteCovers(table, Slot(a, n), k * n);
    BlockJoins(cs, table, a, n);
    JoinAllIsMerge(cs);
    BlockTimes(cs, table, a, n);
    BlockShows(c, cs, fine, p, n);
  }

  lemma BlockShows(c: Candle, cs: seq<Candle>, fine: seq<Candle>, p: nat, n: nat)
    requires cs != [] && p + |cs| <= |fine| && fine[p..p + |cs|] == cs && c == Merge(cs)
    requires forall j :: 0 < j < |cs| ==> cs[j - 1].closeTime == cs[j].openTime
    ensures MergedFrom(c, fine, p, |cs|, n)
  {
    forall i | p < i < p + |cs| ensures fine[i - 1].closeTime == fine[i].openTime {
      assert fine[i] == cs[i - p] && fine[i - 1] == cs[i - p - 1];
    }
    assert fine[p] == cs[0];
  }

  /** Every candle of the coarse run is the merge of `k` consecutive candles of the fine run. */
  lemma CoarseRunMergesFineRun(table: Table, n: nat, k: nat, boundary: int)
    requires n > 0 && k > 0 && k * n > 0
    ensures forall c :: c in ResampleTable(table, k * n, boundary).candles ==>
              exists p :: MergedFrom(c, ResampleTable(table, n, boundary).candles, p, k, n)
  {
    hide CandleOfSlot, MergedFrom, Slot;
    forall c | c in ResampleTable(table, k * n, boundary).candles
      ensures exists p :: MergedFrom(c, ResampleTable(table, n, boundary).candles, p, k, n)
    {
      var first, end := FirstSlot(table, k * n), LatestSlot(boundary, k * n) + 1;
      WalkExact(table, first, end, k * n);
      var s :| first <= s < end && CandleOfSlot(c, table, s, k * n);
      var p := CoarseSlotMerges(table, s, n, k, boundary, c);
    }
  }

  // ---- published numbers -----------------------------------------------------------------

  ghost predicate Monotone(round: real -> real) {
    forall x, y :: x <= y ==> round(x) <= round(y)
  }

  /** Rounding to floats is the last step, so prices of a merge are merges of published prices. */
  lemma {:induction false} PublishedHighMerges(highs: seq<real>, round: real -> real)
    requires Monotone(round) && highs != []
    ensures round(MaxOf(highs)) == MaxOf(seq(|highs|, i requires 0 <= i < |highs| => round(highs[i])))
  {
    var published := seq(|highs|, i requires 0 <= i < |highs| => round(highs[i]));
    MaxOfMeaning(highs);
    MaxOfMeaning(published);
    var i :| 0 <= i < |highs| && highs[i] == MaxOf(highs);
    assert published[i] in published;
    var j :| 0 <= j < |published| && published[j] == MaxOf(published);
    assert highs[j] in highs && highs[j] <= MaxOf(highs);
    assert round(highs[j]) <= round(MaxOf(highs));
  }

  lemma {:induction false} PublishedLowMerges(lows: seq<real>, round: real -> real)
    requires Monotone(round) && lows != []
    ensures round(MinOf(lows)) == MinOf(seq(|lows|, i requires 0 <= i < |lows| => round(lows[i])))
  {
    var published := seq(|lows|, i requires 0 <= i < |lows| => round(lows[i]));
    MinOfMeaning(lows);
    MinOfMeaning(published);
    var i :| 0 <= i < |lows| && lows[i] == MinOf(lows);
    assert published[i] in published;
    var j :| 0 <= j < |published| && published[j] == MinOf(published);
    assert lows[j] in lows && MinOf(lows) <= lows[j];
    assert round(MinOf(lows)) <= round(lows[j]);
  }
}
