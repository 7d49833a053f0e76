/** Confirmed one-minute rows and the candle built from one full bucket of them. */
module Candles {
  import opened Sequences

  const MINUTE := 60

  /** One row of the one-minute source table; times are whole epoch seconds. */
  datatype Row = Row(
    time: int, open: real, high: real, low: real, close: real, volume: real,
    quoteVolume: Option<real>, tradeCount: Option<int>)

  datatype Candle = Candle(
    openTime: int, closeTime: int,
    open: real, high: real, low: real, close: real, volume: real,
    quoteVolume: Option<real>, tradeCount: Option<int>)

  // ---- the epoch grid ----------------------------------------------------------------

  /** Seconds in a timeframe of `n` minutes. */
  function Secs(n: nat): nat { MINUTE * n }

  /** The start of grid slot number `q`. */
  function Slot(q: int, n: nat): int { q * Secs(n) }

  /** The start of the slot that holds `t`. Python's `%` and Dafny's agree on a positive divisor. */
  function BucketStart(t: int, n: nat): int
    requires n > 0
  {
    t - t % Secs(n)
  }

  /** The number of the slot that holds `t`. */
  function SlotOf(t: int, n: nat): (q: int)
    requires n > 0
    ensures BucketStart(t, n) == Slot(q, n)
    ensures Slot(q, n) <= t < Slot(q, n) + Secs(n)
  {
    t / Secs(n)
  }

  lemma Distribute(x: int, y: int, d: int)
    ensures (x + y) * d == x * d + y * d
  {
  }

  lemma ProductNonNegative(k: nat, d: nat)
    ensures k * d >= 0
  {
  }

  lemma StepsApart(p: int, q: int, d: nat)
    ensures p < q ==> p * d + d <= q * d
    ensures (p + 1) * d == p * d + d
  {
    Distribute(p, 1, d);
    if p < q {
      var k := q - p - 1;
      ProductNonNegative(k, d);
      Distribute(p + 1, k, d);
      assert (p + 1) + k == q;
    }
  }

  /** Slot starts are ordered like slot numbers and lie one duration apart. */
  lemma SlotOrder(p: int, q: int, n: nat)
    requires n > 0
    ensures p < q ==> Slot(p, n) + Secs(n) <= Slot(q, n)
    ensures p == q ==> Slot(p, n) == Slot(q, n)
    ensures p > q ==> Slot(q, n) + Secs(n) <= Slot(p, n)
    ensures Slot(p + 1, n) == Slot(p, n) + Secs(n)
  {
    StepsApart(p, q, Secs(n));
    StepsApart(q, p, Secs(n));
    hide Secs;
  }

  /** A slot holds exactly the times of its half-open interval. */
  lemma SlotHolds(t: int, q: int, n: nat)
    requires n > 0
    ensures SlotOf(t, n) == q <==> Slot(q, n) <= t < Slot(q, n) + Secs(n)
    ensures BucketStart(t, n) == Slot(q, n) <==> Slot(q, n) <= t < Slot(q, n) + Secs(n)
  {
    SlotOrder(SlotOf(t, n), q, n);
  }

  // ---- aggregates over the ordered rows of one bucket ---------------------------------

  function MaxOf(s: seq<real>): (m: real)
    requires s != []
  {
    var x := s[|s| - 1];
    if |s| == 1 then x else
      var m := MaxOf(s[..|s| - 1]);
      if m < x then x else m
  }

  function MinOf(s: seq<real>): (m: real)
    requires s != []
  {
    var x := s[|s| - 1];
    if |s| == 1 then x else
      var m := MinOf(s[..|s| - 1]);
      if x < m then x else m
  }

  function SumOf(s: seq<real>): real {
    if s == [] then 0.0 else SumOf(s[..|s| - 1]) + s[|s| - 1]
  }

  function CountOf(s: seq<int>): int {
    if s == [] then 0 else CountOf(s[..|s| - 1]) + s[|s| - 1]
  }

  /** A total that is unknown as soon as one of its parts is unknown. */
  function TotalOf(s: seq<Option<real>>): Option<real> {
    if None in s then None else
      assert forall i :: 0 <= i < |s| ==> s[i] in s;
      Some(SumOf(seq(|s|, i requires 0 <= i < |s| => s[i].value)))
  }

  function TotalCountOf(s: seq<Option<int>>): Option<int> {
    if None in s then None else
      assert forall i :: 0 <= i < |s| ==> s[i] in s;
      Some(CountOf(seq(|s|, i requires 0 <= i < |s| => s[i].value)))
  }

  function Opens(rows: seq<Row>): seq<real> { seq(|rows|, i requires 0 <= i < |rows| => rows[i].open) }
  function Highs(rows: seq<Row>): seq<real> { seq(|rows|, i requires 0 <= i < |rows| => rows[i].high) }
  function Lows(rows: seq<Row>): seq<real> { seq(|rows|, i requires 0 <= i < |rows| => rows[i].low) }
  function Closes(rows: seq<Row>): seq<real> { seq(|rows|, i requires 0 <= i < |rows| => rows[i].close) }
  function Volumes(rows: seq<Row>): seq<real> { seq(|rows|, i requires 0 <= i < |rows| => rows[i].volume) }
  function Quotes(rows: seq<Row>): seq<Option<real>> {
    seq(|rows|, i requires 0 <= i < |rows| => rows[i].quoteVolume)
  }
  function Trades(rows: seq<Row>): seq<Option<int>> {
    seq(|rows|, i requires 0 <= i < |rows| => rows[i].tradeCount)
  }

  /** The candle over time-ordered rows, before its numbers are rounded to floats. */
  function BuildCandle(rows: seq<Row>, openTime: int, duration: int): Candle
    requires rows != []
  {
    Candle(openTime, openTime + duration,
           Opens(rows)[0], MaxOf(Highs(rows)), MinOf(Lows(rows)), Closes(rows)[|rows| - 1],
           SumOf(Volumes(rows)), TotalOf(Quotes(rows)), TotalCountOf(Trades(rows)))
  }

  /** The maximum is a member and an upper bound. */
  lemma {:induction false} MaxOfMeaning(s: seq<real>)
    requires s != []
    ensures MaxOf(s) in s && forall x :: x in s ==> x <= MaxOf(s)
    decreases |s|
  {
    if |s| > 1 {
      MaxOfMeaning(s[..|s| - 1]);
      assert s == s[..|s| - 1] + [s[|s| - 1]];
    }
  }

  lemma {:induction false} MinOfMeaning(s: seq<real>)
    requires s != []
    ensures MinOf(s) in s && forall x :: x in s ==> MinOf(s) <= x
    decreases |s|
  {
    if |s| > 1 {
      MinOfMeaning(s[..|s| - 1]);
      assert s == s[..|s| - 1] + [s[|s| - 1]];
    }
  }

  // ---- appending: the algebra behind merging candles ----------------------------------

  lemma MaxAppend(a: seq<real>, b: seq<real>)
    requires a != [] && b != []
    ensures MaxOf(a + b) == if MaxOf(a) < MaxOf(b) then MaxOf(b) else MaxOf(a)
  {
    MaxOfMeaning(a);
    MaxOfMeaning(b);
    MaxOfMeaning(a + b);
    assert forall x :: x in a + b <==> x in a || x in b;
  }

  lemma MinAppend(a: seq<real>, b: seq<real>)
    requires a != [] && b != []
    ensures MinOf(a + b) == if MinOf(b) < MinOf(a) then MinOf(b) else MinOf(a)
  {
    MinOfMeaning(a);
    MinOfMeaning(b);
    MinOfMeaning(a + b);
    assert forall x :: x in a + b <==> x in a || x in b;
  }

  lemma {:induction false} SumAppend(a: seq<real>, b: seq<real>)
    ensures SumOf(a + b) == SumOf(a) + SumOf(b)
    decreases |b|
  {
    if b == [] {
      assert a + b == a;
    } else {
      assert (a + b)[..|a + b| - 1] == a + b[..|b| - 1];
      SumAppend(a, b[..|b| - 1]);
    }
  }

  lemma {:induction false} CountAppend(a: seq<int>, b: seq<int>)
    ensures CountOf(a + b) == CountOf(a) + CountOf(b)
    decreases |b|
  {
    if b == [] {
      assert a + b == a;
    } else {
      assert (a + b)[..|a + b| - 1] == a + b[..|b| - 1];
      CountAppend(a, b[..|b| - 1]);
    }
  }

  function PlusTotal(a: Option<real>, b: Option<real>): Option<real> {
    if a.None? || b.None? then None else Some(a.value + b.value)
  }

  function PlusCount(a: Option<int>, b: Option<int>): Option<int> {
    if a.None? || b.None? then None else Some(a.value + b.value)
  }

  lemma TotalAppend(a: seq<Option<real>>, b: seq<Option<real>>)
    ensures TotalOf(a + b) == PlusTotal(TotalOf(a), TotalOf(b))
  {
    assert None in a + b <==> None in a || None in b;
    if None !in a && None !in b {
      assert forall i :: 0 <= i < |a| ==> a[i] in a;
      assert forall i :: 0 <= i < |b| ==> b[i] in b;
      assert forall i :: 0 <= i < |a + b| ==> (a + b)[i] in a + b;
      var va := seq(|a|, i requires 0 <= i < |a| => a[i].value);
      var vb := seq(|b|, i requires 0 <= i < |b| => b[i].value);
      assert seq(|a + b|, i requires 0 <= i < |a + b| => (a + b)[i].value) == va + vb;
      SumAppend(va, vb);
    }
  }

  lemma TotalCountAppend(a: seq<Option<int>>, b: seq<Option<int>>)
    ensures TotalCountOf(a + b) == PlusCount(TotalCountOf(a), TotalCountOf(b))
  {
    assert None in a + b <==> None in a || None in b;
    if None !in a && None !in b {
      assert forall i :: 0 <= i < |a| ==> a[i] in a;
      assert forall i :: 0 <= i < |b| ==> b[i] in b;
      assert forall i :: 0 <= i < |a + b| ==> (a + b)[i] in a + b;
      var va := seq(|a|, i requires 0 <= i < |a| => a[i].value);
      var vb := seq(|b|, i requires 0 <= i < |b| => b[i].value);
      assert seq(|a + b|, i requires 0 <= i < |a + b| => (a + b)[i].value) == va + vb;
      CountAppend(va, vb);
    }
  }

  /** Two adjacent candles seen as one: first open, extremes, last close, added totals. */
  function Join(a: Candle, b: Candle): Candle {
    Candle(a.openTime, b.closeTime,
           a.open,
           if a.high < b.high then b.high else a.high,
           if b.low < a.low then b.low else a.low,
           b.close, a.volume + b.volume,
           PlusTotal(a.quoteVolume, b.quoteVolume), PlusCount(a.tradeCount, b.tradeCount))
  }

  /** Building over concatenated rows is joining the two candles. */
  lemma BuildAppend(a: seq<Row>, b: seq<Row>, at: int, da: int, db: int)
    requires a != [] && b != []
    ensures BuildCandle(a + b, at, da + db) == Join(BuildCandle(a, at, da), BuildCandle(b, at + da, db))
  {
    hide MaxOf, MinOf, SumOf, TotalOf, TotalCountOf;
    assert Opens(a + b) == Opens(a) + Opens(b);
    assert Highs(a + b) == Highs(a) + Highs(b);
    assert Lows(a + b) == Lows(a) + Lows(b);
    assert Closes(a + b) == Closes(a) + Closes(b);
    assert Volumes(a + b) == Volumes(a) + Volumes(b);
    assert Quotes(a + b) == Quotes(a) + Quotes(b);
    assert Trades(a + b) == Trades(a) + Trades(b);
    MaxAppend(Highs(a), Highs(b));
    MinAppend(Lows(a), Lows(b));
    SumAppend(Volumes(a), Volumes(b));
    TotalAppend(Quotes(a), Quotes(b));
    TotalCountAppend(Trades(a), Trades(b));
  }

  // ---- what a candle says about its rows ----------------------------------------------

  /** The candle over one row carries that row's own numbers. */
  lemma BuildOne(r: Row, at: int, duration: int)
    ensures BuildCandle([r], at, duration)
         == Candle(at, at + duration, r.open, r.high, r.low, r.close, r.volume, r.quoteVolume, r.tradeCount)
  {
    assert Opens([r]) == [r.open] && Closes([r]) == [r.close];
    assert Highs([r]) == [r.high] && Lows([r]) == [r.low];
    assert Volumes([r]) == [r.volume] && SumOf([r.volume]) == SumOf([]) + r.volume;
    assert Quotes([r]) == [r.quoteVolume] && Trades([r]) == [r.tradeCount];
    OneTotal(r.quoteVolume);
    OneCount(r.tradeCount);
  }

  lemma OneTotal(q: Option<real>)
    ensures TotalOf([q]) == q
  {
    if q.Some? {
      assert seq(1, i requires 0 <= i < 1 => [q][i].value) == [q.value];
      assert SumOf([q.value]) == SumOf([]) + q.value;
    }
  }

  lemma OneCount(t: Option<int>)
    ensures TotalCountOf([t]) == t
  {
    if t.Some? {
      assert seq(1, i requires 0 <= i < 1 => [t][i].value) == [t.value];
      assert CountOf([t.value]) == CountOf([]) + t.value;
    }
  }

  ghost function VolumeAdded(rows: seq<Row>): real {
    if rows == [] then 0.0 else VolumeAdded(rows[..|rows| - 1]) + rows[|rows| - 1].volume
  }

  ghost function QuoteVolumeAdded(rows: seq<Row>): Option<real> {
    if rows == [] then Some(0.0) else
      var before, x := QuoteVolumeAdded(rows[..|rows| - 1]), rows[|rows| - 1].quoteVolume;
      if before.Some? && x.Some? then Some(before.value + x.value) else None
  }

  ghost function TradesAdded(rows: seq<Row>): Option<int> {
    if rows == [] then Some(0) else
      var before, x := TradesAdded(rows[..|rows| - 1]), rows[|rows| - 1].tradeCount;
      if before.Some? && x.Some? then Some(before.value + x.value) else None
  }

  /** The first open, the last close, the extremes of the rows' highs and lows, and the added columns. */
  ghost predicate Tells(c: Candle, rows: seq<Row>)
    requires rows != []
  {
    && c.open == rows[0].open
    && c.close == rows[|rows| - 1].close
    && (exists r :: r in rows && r.high == c.high)
    && (forall r :: r in rows ==> r.high <= c.high)
    && (exists r :: r in rows && r.low == c.low)
    && (forall r :: r in rows ==> c.low <= r.low)
    && c.volume == VolumeAdded(rows)
    && c.quoteVolume == QuoteVolumeAdded(rows)
    && c.tradeCount == TradesAdded(rows)
  }

  /** Joining one more row's candle keeps the account. */
  lemma TellsMore(c: Candle, rows: seq<Row>, r: Row, x: Candle)
    requires rows != [] && Tells(c, rows)
    requires x.open == r.open && x.high == r.high && x.low == r.low && x.close == r.close
    requires x.volume == r.volume && x.quoteVolume == r.quoteVolume && x.tradeCount == r.tradeCount
    ensures Tells(Join(c, x), rows + [r])
  {
    var all, m := rows + [r], |rows|;
    assert all[m] == r && all[..m] == rows;
    assert forall y :: y in all <==> y in rows || y == r;
    var h :| h in rows && h.high == c.high;
    var l :| l in rows && l.low == c.low;
    assert h in all && l in all && r in all;
  }

  /** What a candle is, in terms of its rows. */
  lemma {:induction false} BuildTells(rows: seq<Row>, at: int, duration: int)
    requires rows != []
    ensures Tells(BuildCandle(rows, at, duration), rows)
    ensures BuildCandle(rows, at, duration).openTime == at
    ensures BuildCandle(rows, at, duration).closeTime == at + duration
    decreases |rows|
  {
    var m := |rows| - 1;
    var r := rows[m];
    BuildOne(r, at + duration, 0);
    if m == 0 {
      assert rows == [r];
      BuildOne(r, at, duration);
      OneTells(r, at, duration);
    } else {
      assert rows == rows[..m] + [r];
      BuildTells(rows[..m], at, duration);
      BuildAppend(rows[..m], [r], at, duration, 0);
      hide BuildCandle;
      TellsMore(BuildCandle(rows[..m], at, duration), rows[..m], r, BuildCandle([r], at + duration, 0));
    }
  }

  lemma OneTells(r: Row, at: int, duration: int)
    ensures Tells(BuildCandle([r], at, duration), [r])
  {
    BuildOne(r, at, duration);
    hide BuildCandle;
    assert r in [r];
    assert [r][..0] == [];
    assert VolumeAdded([r]) == VolumeAdded([]) + r.volume;
    assert QuoteVolumeAdded([]) == Some(0.0) && QuoteVolumeAdded([r]) == r.quoteVolume;
    assert TradesAdded([]) == Some(0) && TradesAdded([r]) == r.tradeCount;
  }
}
