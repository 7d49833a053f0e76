/** What every resampling run guarantees: conservation, exactness, no lookahead, order independence. */
module ResamplingLaws {
  import opened Sequences
  import opened Sorting
  import opened Candles
  import opened Resampling

  // ---- conservation and exactness ------------------------------------------------------

  /** Every slot of the range is counted once, as a candle or as a dropped bucket. */
  lemma {:induction false} WalkConserves(table: Table, p: int, q: int, n: nat)
    requires n > 0 && p <= q
    ensures |Walk(table, p, q, n).candles| + Walk(table, p, q, n).dropped == q - p
    decreases q - p
  {
    if p < q {
      WalkConserves(table, p, q - 1, n);
    }
  }

  /** `c` is the candle of slot number `s`, and that slot is complete. */
  ghost predicate CandleOfSlot(c: Candle, table: Table, s: int, n: nat)
    requires n > 0
  {
    SlotOutcome(table, Slot(s, n), n) == Some(c)
  }

  lemma CandleTimes(c: Candle, table: Table, s: int, n: nat)
    requires n > 0 && CandleOfSlot(c, table, s, n)
    ensures c.openTime == Slot(s, n) && c.closeTime == Slot(s + 1, n)
    ensures Complete(table, Slot(s, n), n)
  {
    SlotOrder(s, s, n);
  }

  /** Grid-aligned candles of complete slots, each such slot exactly once, in time order and disjoint. */
  ghost predicate ExactCandles(cs: seq<Candle>, table: Table, p: int, q: int, n: nat)
    requires n > 0
  {
    && (forall c :: c in cs ==> exists s :: p <= s < q && CandleOfSlot(c, table, s, n))
    && (forall s :: p <= s < q && Complete(table, Slot(s, n), n) ==>
          exists c :: c in cs && CandleOfSlot(c, table, s, n))
    && (forall i, j :: 0 <= i < j < |cs| ==> cs[i].closeTime <= cs[j].openTime)
  }

  lemma ExactSkip(cs: seq<Candle>, table: Table, p: int, q: int, n: nat)
    requires n > 0 && p <= q && ExactCandles(cs, table, p, q, n)
    requires !Complete(table, Slot(q, n), n)
    ensures ExactCandles(cs, table, p, q + 1, n)
  {
    forall c | c in cs ensures exists s :: p <= s < q + 1 && CandleOfSlot(c, table, s, n) {
      var s :| p <= s < q && CandleOfSlot(c, table, s, n);
      assert p <= s < q + 1;
    }
  }

  lemma ExactAdd(cs: seq<Candle>, c: Candle, table: Table, p: int, q: int, n: nat)
    requires n > 0 && p <= q && ExactCandles(cs, table, p, q, n)
    requires CandleOfSlot(c, table, q, n)
    ensures ExactCandles(cs + [c], table, p, q + 1, n)
  {
    hide BuildCandle, Slot;
    var cs' := cs + [c];
    assert forall x :: x in cs' <==> x in cs || x == c;
    forall x | x in cs' ensures exists s :: p <= s < q + 1 && CandleOfSlot(x, table, s, n) {
      if x in cs {
        var s :| p <= s < q && CandleOfSlot(x, table, s, n);
        assert p <= s < q + 1;
      }
    }
    forall s | p <= s < q + 1 && Complete(table, Slot(s, n), n)
      ensures exists x :: x in cs' && CandleOfSlot(x, table, s, n)
    {
      if s < q {
        var x :| x in cs && CandleOfSlot(x, table, s, n);
        assert x in cs';
      }
    }
    forall i | 0 <= i < |cs| ensures cs[i].closeTime <= c.openTime {
      EarlierCloses(cs, c, table, p, q, n, i);
    }
  }

  lemma EarlierCloses(cs: seq<Candle>, c: Candle, table: Table, p: int, q: int, n: nat, i: nat)
    requires n > 0 && ExactCandles(cs, table, p, q, n) && i < |cs|
    requires CandleOfSlot(c, table, q, n)
    ensures cs[i].closeTime <= c.openTime
  {
    hide CandleOfSlot, Slot, Complete;
    assert cs[i] in cs;
    var s :| p <= s < q && CandleOfSlot(cs[i], table, s, n);
    CandleTimes(cs[i], table, s, n);
    CandleTimes(c, table, q, n);
    SlotOrder(s + 1, q, n);
  }

  lemma {:induction false} WalkExact(table: Table, p: int, q: int, n: nat)
    requires n > 0
    ensures ExactCandles(Walk(table, p, q, n).candles, table, p, q, n)
    decreases if q <= p then 0 else q - p
  {
    if p < q {
      WalkExact(table, p, q - 1, n);
      var before := Walk(table, p, q - 1, n).candles;
      match SlotOutcome(table, Slot(q - 1, n), n)
      case None => ExactSkip(before, table, p, q - 1, n);
      case Some(c) => ExactAdd(before, c, table, p, q - 1, n);
    }
  }

  /** The list is determined by being exact: nothing else about the walk can show. */
  lemma {:induction false} ExactUnique(a: seq<Candle>, b: seq<Candle>, table: Table, p: int, q: int, n: nat)
    requires n > 0 && ExactCandles(a, table, p, q, n) && ExactCandles(b, table, p, q, n)
    ensures a == b
  {
    var ta := seq(|a|, i requires 0 <= i < |a| => a[i].openTime);
    var tb := seq(|b|, i requires 0 <= i < |b| => b[i].openTime);
    ExactTimes(a, table, p, q, n);
    ExactTimes(b, table, p, q, n);
    forall x ensures x in ta <==> x in tb {
      if x in ta { ExactCarries(a, b, table, p, q, n, x); }
      if x in tb { ExactCarries(b, a, table, p, q, n, x); }
    }
    IncreasingUnique(ta, tb);
    forall i | 0 <= i < |a| ensures a[i] == b[i] {
      assert ta[i] == tb[i];
      assert a[i] in a && b[i] in b;
      var s :| p <= s < q && CandleOfSlot(a[i], table, s, n);
      var s' :| p <= s' < q && CandleOfSlot(b[i], table, s', n);
      CandleTimes(a[i], table, s, n);
      CandleTimes(b[i], table, s', n);
      SlotOrder(s, s', n);
    }
  }

  lemma ExactTimes(a: seq<Candle>, table: Table, p: int, q: int, n: nat)
    requires n > 0 && ExactCandles(a, table, p, q, n)
    ensures StrictlyIncreasing(seq(|a|, i requires 0 <= i < |a| => a[i].openTime))
  {
    hide CandleOfSlot, Slot, Complete;
    forall i, j | 0 <= i < j < |a| ensures a[i].openTime < a[j].openTime {
      assert a[i] in a;
      var s :| p <= s < q && CandleOfSlot(a[i], table, s, n);
      CandleTimes(a[i], table, s, n);
      SlotOrder(s, s + 1, n);
    }
  }

  lemma ExactCarries(a: seq<Candle>, b: seq<Candle>, table: Table, p: int, q: int, n: nat, x: int)
    requires n > 0 && ExactCandles(a, table, p, q, n) && ExactCandles(b, table, p, q, n)
    requires x in seq(|a|, i requires 0 <= i < |a| => a[i].openTime)
    ensures x in seq(|b|, i requires 0 <= i < |b| => b[i].openTime)
  {
    hide CandleOfSlot, Complete, Slot;
    var i :| 0 <= i < |a| && a[i].openTime == x;
    assert a[i] in a;
    var s :| p <= s < q && CandleOfSlot(a[i], table, s, n);
    CandleTimes(a[i], table, s, n);
    var c :| c in b && CandleOfSlot(c, table, s, n);
    CandleTimes(c, table, s, n);
    var j :| 0 <= j < |b| && b[j] == c;
    assert seq(|b|, i requires 0 <= i < |b| => b[i].openTime)[j] == x;
  }

  // ---- no lookahead --------------------------------------------------------------------

  /** Every candle is closed by the boundary. */
  lemma ClosedByBoundary(table: Table, n: nat, boundary: int, c: Candle)
    requires n > 0 && c in ResampleTable(table, n, boundary).candles
    ensures c.closeTime <= boundary
  {
    hide Slot, CandleOfSlot;
    var p, q := FirstSlot(table, n), LatestSlot(boundary, n) + 1;
    WalkExact(table, p, q, n);
    var s :| p <= s < q && CandleOfSlot(c, table, s, n);
    CandleTimes(c, table, s, n);
    SlotOrder(s + 1, q, n);
    SlotOrder(q - 1, q, n);
  }

  /** The tables hold the same rows before time `h`. */
  ghost predicate AgreeBefore(a: Table, b: Table, h: int) {
    forall t :: t < h ==> (t in a <==> t in b) && (t in a && t in b ==> a[t] == b[t])
  }

  lemma SlotAgrees(a: Table, b: Table, s: int, n: nat, h: int)
    requires n > 0 && AgreeBefore(a, b, h) && Slot(s + 1, n) <= h
    ensures SlotOutcome(a, Slot(s, n), n) == SlotOutcome(b, Slot(s, n), n)
  {
    var at := Slot(s, n);
    SlotOrder(s, s + 1, n);
    forall t ensures t in BucketTimes(a, at, n) <==> t in BucketTimes(b, at, n) {
      SlotHolds(t, s, n);
    }
    assert BucketTimes(a, at, n) == BucketTimes(b, at, n);
    if Complete(a, at, n) {
      CompleteCovers(a, at, n);
      CompleteCovers(b, at, n);
      assert SlotRows(a, at, n) == SlotRows(b, at, n);
    }
  }

  lemma {:induction false} WalkAgrees(a: Table, b: Table, p: int, q: int, n: nat, h: int)
    requires n > 0 && AgreeBefore(a, b, h) && Slot(q, n) <= h
    ensures Walk(a, p, q, n) == Walk(b, p, q, n)
    decreases if q <= p then 0 else q - p
  {
    if p < q {
      SlotOrder(q - 1, q, n);
      WalkAgrees(a, b, p, q - 1, n, h);
      SlotAgrees(a, b, q - 1, n, h);
    }
  }

  lemma FirstSlotAgrees(a: Table, b: Table, n: nat, h: int, latest: int)
    requires n > 0 && AgreeBefore(a, b, h) && h == Slot(latest + 1, n) && a != map[]
    requires FirstSlot(a, n) <= latest
    ensures b != map[] && FirstSlot(b, n) <= FirstSlot(a, n)
  {
    var p := FirstSlot(a, n);
    var t :| t in a && BucketStart(t, n) == Slot(p, n);
    SlotHolds(t, p, n);
    SlotOrder(p, latest, n);
    SlotOrder(latest, latest + 1, n);
    assert t in b;
    assert BucketStart(t, n) in Buckets(b, n);
    SlotOrder(FirstSlot(b, n), p, n);
  }

  /** No slot lies between the first row and the latest complete slot. */
  ghost predicate NothingClosed(table: Table, n: nat, latest: int)
    requires n > 0
  {
    table == map[] || FirstSlot(table, n) > latest
  }

  lemma NothingClosedEmpty(table: Table, n: nat, boundary: int)
    requires n > 0 && NothingClosed(table, n, LatestSlot(boundary, n))
    ensures ResampleTable(table, n, boundary) == Resampled([], 0)
  {
    hide FirstSlot, LatestSlot;
  }

  lemma LateEntriesIrrelevant(a: Table, b: Table, n: nat, boundary: int)
    requires n > 0 && AgreeBefore(a, b, Slot(LatestSlot(boundary, n) + 1, n))
    ensures ResampleTable(a, n, boundary) == ResampleTable(b, n, boundary)
  {
    var latest := LatestSlot(boundary, n);
    var h := Slot(latest + 1, n);
    hide LatestSlot, FirstSlot, Walk, Slot, Buckets, IsMin;
    assert AgreeBefore(b, a, h);
    hide AgreeBefore;
    if NothingClosed(a, n, latest) {
      NothingClosedEmpty(a, n, boundary);
      if !NothingClosed(b, n, latest) { FirstSlotAgrees(b, a, n, h, latest); }
      NothingClosedEmpty(b, n, boundary);
    } else {
      FirstSlotAgrees(a, b, n, h, latest);
      FirstSlotAgrees(b, a, n, h, latest);
      WalkAgrees(a, b, FirstSlot(a, n), latest + 1, n, h);
    }
  }

  /** The same rows before a time, each as often as it likes. */
  ghost predicate SameBefore(a: seq<Row>, b: seq<Row>, h: int) {
    forall r: Row :: r.time < h ==> (r in a <==> r in b)
  }

  lemma SameBeforeAgrees(a: seq<Row>, b: seq<Row>, h: int)
    requires SameBefore(a, b, h) && DistinctTimes(a) && DistinctTimes(b)
    ensures AgreeBefore(TableOf(a), TableOf(b), h)
  {
    var s, t := TableOf(a), TableOf(b);
    forall x | x < h ensures (x in s <==> x in t) && (x in s && x in t ==> s[x] == t[x]) {
      if x in s { assert s[x] in b; }
      if x in t { assert t[x] in a; }
    }
  }

  /**
   * Rows after the latest complete slot cannot change the candles or the drop count: two inputs that
   * agree before it have one outcome exactly when both or neither repeat a time, be it a late one.
   */
  lemma LateRowsIrrelevant(a: seq<Row>, b: seq<Row>, n: nat, boundary: int)
    requires n > 0 && SameBefore(a, b, Slot(LatestSlot(boundary, n) + 1, n))
    ensures Resample(a, n, boundary) == Resample(b, n, boundary) <==> (DistinctTimes(a) <==> DistinctTimes(b))
  {
    hide SameBefore, DistinctTimes, ResampleTable;
    if DistinctTimes(a) && DistinctTimes(b) {
      SameBeforeAgrees(a, b, Slot(LatestSlot(boundary, n) + 1, n));
      LateEntriesIrrelevant(TableOf(a), TableOf(b), n, boundary);
    }
  }

  lemma {:induction false} WalkPrefix(table: Table, p: int, q: int, q': int, n: nat)
    requires n > 0 && q <= q'
    ensures Walk(table, p, q, n).candles <= Walk(table, p, q', n).candles
    ensures Walk(table, p, q, n).dropped <= Walk(table, p, q', n).dropped
    decreases q' - q
  {
    if q < q' {
      WalkPrefix(table, p, q, q' - 1, n);
    }
  }

  /** Moving the boundary forward only appends candles; none is revised. */
  lemma LaterBoundaryExtends(table: Table, n: nat, b1: int, b2: int)
    requires n > 0 && b1 <= b2
    ensures ResampleTable(table, n, b1).candles <= ResampleTable(table, n, b2).candles
    ensures ResampleTable(table, n, b1).dropped <= ResampleTable(table, n, b2).dropped
  {
    var l1, l2 := LatestSlot(b1, n), LatestSlot(b2, n);
    SlotOrder(l1, l2, n);
    if table != map[] {
      WalkPrefix(table, FirstSlot(table, n), l1 + 1, l2 + 1, n);
    }
  }

  // ---- the order of the rows -------------------------------------------------------------

  lemma {:induction false} DistinctCounts(rows: seq<Row>, r: Row)
    requires DistinctTimes(rows)
    ensures multiset(rows)[r] <= 1
    decreases |rows|
  {
    if rows != [] {
      var m := |rows| - 1;
      assert rows == rows[..m] + [rows[m]];
      DistinctCounts(rows[..m], r);
      if r == rows[m] {
        assert r !in rows[..m];
      }
    }
  }

  lemma PermutedDistinct(a: seq<Row>, b: seq<Row>)
    requires multiset(a) == multiset(b) && DistinctTimes(a)
    ensures DistinctTimes(b)
  {
    forall i, j | 0 <= i < j < |b| ensures b[i].time != b[j].time {
      if b[i] == b[j] {
        Twice(b, i, j);
        DistinctCounts(a, b[i]);
      } else {
        assert b[i] in multiset(a) && b[j] in multiset(a);
        assert b[i] in a && b[j] in a;
      }
    }
  }

  lemma SameRowsSameTable(a: seq<Row>, b: seq<Row>)
    requires multiset(a) == multiset(b) && DistinctTimes(a) && DistinctTimes(b)
    ensures TableOf(a) == TableOf(b)
  {
    forall r ensures r in a <==> r in b {
      assert r in a <==> r in multiset(a);
      assert r in b <==> r in multiset(b);
    }
    forall t ensures t in TableOf(a) <==> t in TableOf(b) {
      if t in TableOf(a) { assert TableOf(a)[t] in b; }
      if t in TableOf(b) { assert TableOf(b)[t] in a; }
    }
    forall t | t in TableOf(a) ensures TableOf(a)[t] == TableOf(b)[t] {
      assert TableOf(a)[t] in b;
    }
  }

  /** The outcome, error included, is the same for every order of the rows. */
  lemma OrderIndependent(a: seq<Row>, b: seq<Row>, n: nat, boundary: int)
    requires n > 0 && multiset(a) == multiset(b)
    ensures Resample(a, n, boundary) == Resample(b, n, boundary)
  {
    if DistinctTimes(a) {
      PermutedDistinct(a, b);
      SameRowsSameTable(a, b);
    } else if DistinctTimes(b) {
      PermutedDistinct(b, a);
    }
  }

  /** The whole contract of one run on rows that do not repeat a time. */
  lemma RunLaws(rows: seq<Row>, n: nat, boundary: int, table: Table, p: int, q: int)
    requires n > 0 && rows != [] && DistinctTimes(rows)
    requires table == TableOf(rows) && table != map[]
    requires p == FirstSlot(table, n) && q == LatestSlot(boundary, n) + 1
    ensures Resample(rows, n, boundary).Ok?
    ensures var r := Resample(rows, n, boundary).result;
            && ExactCandles(r.candles, table, p, q, n)
            && |r.candles| + r.dropped == (if p <= q then q - p else 0)
  {
    WalkExact(table, p, q, n);
    if p <= q { WalkConserves(table, p, q, n); }
  }

  // ---- the run, told in terms of its rows alone ------------------------------------------

  /** `part` is one row for each minute of the slot from `b` on, and the slot has no other row. */
  ghost predicate FillsSlot(rows: seq<Row>, part: seq<Row>, b: int, n: nat) {
    && |part| == n
    && (forall i :: 0 <= i < n ==> part[i] in rows && part[i].time == b + 60 * i)
    && (forall r :: r in rows && b <= r.time < b + 60 * n ==> r in part)
  }

  /** A slot on the epoch grid, closed by the boundary and filled by rows. */
  ghost predicate ClosedSlot(rows: seq<Row>, part: seq<Row>, b: int, n: nat, boundary: int)
    requires n > 0
  {
    b % (60 * n) == 0 && b + 60 * n <= boundary && FillsSlot(rows, part, b, n)
  }

  /** The candle of a closed slot: its opening and closing time, and the numbers of its rows. */
  ghost predicate FromRows(c: Candle, rows: seq<Row>, n: nat, boundary: int)
    requires n > 0
  {
    && c.closeTime == c.openTime + 60 * n
    && exists part :: part != [] && ClosedSlot(rows, part, c.openTime, n, boundary) && Tells(c, part)
  }

  lemma CandleTells(rows: seq<Row>, n: nat, c: Candle, s: int)
    requires n > 0 && DistinctTimes(rows) && CandleOfSlot(c, TableOf(rows), s, n)
    ensures Covered(TableOf(rows), Slot(s, n), n)
    ensures var part := SlotRows(TableOf(rows), Slot(s, n), n);
            part != [] && FillsSlot(rows, part, Slot(s, n), n) && Tells(c, part)
  {
    hide Slot, BuildCandle, Tells, BucketStart;
    var table, b := TableOf(rows), Slot(s, n);
    CompleteCovers(table, b, n);
    var part := SlotRows(table, b, n);
    BuildTells(part, b, Secs(n));
    forall r | r in rows && b <= r.time < b + 60 * n ensures r in part {
      SlotHolds(r.time, s, n);
      assert r.time in BucketTimes(table, b, n);
      assert r.time in ExpectedTimes(b, n);
      var i :| 0 <= i < n && r.time == Minute(b, i);
      assert part[i] == r;
    }
  }

  lemma FilledComplete(rows: seq<Row>, part: seq<Row>, s: int, n: nat)
    requires n > 0 && DistinctTimes(rows) && FillsSlot(rows, part, Slot(s, n), n)
    ensures Complete(TableOf(rows), Slot(s, n), n)
  {
    hide Slot, BucketStart;
    var table, b := TableOf(rows), Slot(s, n);
    forall t ensures t in BucketTimes(table, b, n) <==> t in ExpectedTimes(b, n) {
      SlotHolds(t, s, n);
      if t in BucketTimes(table, b, n) {
        assert table[t] in part;
        var i :| 0 <= i < n && part[i] == table[t];
        assert t == Minute(b, i);
      }
      if t in ExpectedTimes(b, n) {
        var i :| 0 <= i < n && t == Minute(b, i);
        assert part[i] in rows && part[i].time == t;
      }
    }
  }

  lemma MultipleOf(k: int, d: nat)
    requires d > 0
    ensures (k * d) % d == 0 && (k * d) / d == k
  {
    var q := (k * d) / d;
    assert k * d == q * d + (k * d) % d;
    StepsApart(q, k, d);
    StepsApart(k, q, d);
  }

  lemma FirstSlotIs(rows: seq<Row>, n: nat, first: Row)
    requires n > 0 && DistinctTimes(rows) && first in rows && TableOf(rows) != map[]
    requires forall r :: r in rows ==> first.time <= r.time
    ensures FirstSlot(TableOf(rows), n) == SlotOf(first.time, n)
  {
    hide Slot, SlotOf, BucketStart, FirstSlot;
    var table, q := TableOf(rows), FirstSlot(TableOf(rows), n);
    assert first.time in table;
    assert BucketStart(first.time, n) in Buckets(table, n);
    var t :| t in table && BucketStart(t, n) == Slot(q, n);
    assert table[t] in rows;
    SlotHolds(t, q, n);
    SlotOrder(q, SlotOf(first.time, n), n);
  }

  /** Every candle of a run is made from the rows of a closed slot. */
  lemma RunFromRows(rows: seq<Row>, n: nat, boundary: int, c: Candle)
    requires n > 0 && DistinctTimes(rows) && c in ResampleTable(TableOf(rows), n, boundary).candles
    ensures FromRows(c, rows, n, boundary)
  {
    hide Slot, BuildCandle, Tells, CandleOfSlot, FillsSlot, FirstSlot, LatestSlot, SlotOf, BucketStart;
    var table := TableOf(rows);
    var p, q := FirstSlot(table, n), LatestSlot(boundary, n) + 1;
    WalkExact(table, p, q, n);
    var s :| p <= s < q && CandleOfSlot(c, table, s, n);
    CandleTimes(c, table, s, n);
    SlotOrder(s, s, n);
    CandleTells(rows, n, c, s);
    ClosedByBoundary(table, n, boundary, c);
    SlotIsMultiple(s, n);
    assert ClosedSlot(rows, SlotRows(table, Slot(s, n), n), c.openTime, n, boundary);
  }

  lemma SlotIsMultiple(s: int, n: nat)
    requires n > 0
    ensures Slot(s, n) % (60 * n) == 0 && Slot(s, n) / (60 * n) == s
  {
    MultipleOf(s, 60 * n);
  }

  lemma GridStart(b: int, n: nat)
    requires n > 0 && b % (60 * n) == 0
    ensures b == Slot(SlotOf(b, n), n)
  {
    assert BucketStart(b, n) == b;
    hide Slot, SlotOf;
  }

  lemma SlotNumbers(t: int, boundary: int, n: nat)
    requires n > 0
    ensures SlotOf(t, n) == t / (60 * n)
    ensures LatestSlot(boundary, n) == (boundary - 60 * n) / (60 * n)
  {
  }

  /** A closed slot is complete and lies in the range that the run walks. */
  lemma ClosedInRange(rows: seq<Row>, n: nat, boundary: int, part: seq<Row>, s: int)
    requires n > 0 && DistinctTimes(rows) && ClosedSlot(rows, part, Slot(s, n), n, boundary)
    ensures TableOf(rows) != map[] && Complete(TableOf(rows), Slot(s, n), n)
    ensures FirstSlot(TableOf(rows), n) <= s <= LatestSlot(boundary, n)
  {
    hide Slot, SlotOf, BucketStart, FirstSlot, Complete;
    var table, b := TableOf(rows), Slot(s, n);
    assert part[0] in rows && part[0].time == b && b in table;
    FilledComplete(rows, part, s, n);
    hide FillsSlot;
    SlotHolds(b, s, n);
    assert BucketStart(b, n) in Buckets(table, n);
    SlotOrder(FirstSlot(table, n), s, n);
    SlotOrder(s, LatestSlot(boundary, n), n);
  }

  /** Every closed slot has its candle in the run. */
  lemma RunHasSlot(rows: seq<Row>, n: nat, boundary: int, part: seq<Row>, b: int)
    requires n > 0 && DistinctTimes(rows) && ClosedSlot(rows, part, b, n, boundary)
    ensures exists c :: c in ResampleTable(TableOf(rows), n, boundary).candles && c.openTime == b
  {
    hide Slot, SlotOf, FirstSlot, LatestSlot, CandleOfSlot, Complete, Walk, FillsSlot;
    var table, s := TableOf(rows), SlotOf(b, n);
    GridStart(b, n);
    ClosedInRange(rows, n, boundary, part, s);
    hide ClosedSlot;
    var p, q := FirstSlot(table, n), LatestSlot(boundary, n) + 1;
    WalkExact(table, p, q, n);
    var c :| c in Walk(table, p, q, n).candles && CandleOfSlot(c, table, s, n);
    CandleTimes(c, table, s, n);
  }

  /**
   * One run, told in terms of its rows alone: it fails exactly on a repeated time; its candles are those
   * of the closed slots, one each and in order; and every other slot since the first row is counted.
   */
  lemma RunTells(rows: seq<Row>, n: nat, boundary: int)
    requires n > 0
    ensures Resample(rows, n, boundary) == DuplicateRow <==>
              exists i, j :: 0 <= i < j < |rows| && rows[i].time == rows[j].time
    ensures Resample(rows, n, boundary).Ok? ==>
              var r := Resample(rows, n, boundary).result;
              && (forall c :: c in r.candles ==> FromRows(c, rows, n, boundary))
              && (forall b, part :: ClosedSlot(rows, part, b, n, boundary) ==>
                    exists c :: c in r.candles && c.openTime == b)
              && (forall i, j :: 0 <= i < j < |r.candles| ==> r.candles[i].closeTime <= r.candles[j].openTime)
              && (forall first :: first in rows && (forall x :: x in rows ==> first.time <= x.time) ==>
                    var slots := (boundary - 60 * n) / (60 * n) - first.time / (60 * n) + 1;
                    |r.candles| + r.dropped == if slots > 0 then slots else 0)
  {
    hide ResampleTable, FromRows, ClosedSlot;
    if DistinctTimes(rows) {
      var r := ResampleTable(TableOf(rows), n, boundary);
      forall c | c in r.candles ensures FromRows(c, rows, n, boundary) { RunFromRows(rows, n, boundary, c); }
      forall b, part | ClosedSlot(rows, part, b, n, boundary)
        ensures exists c :: c in r.candles && c.openTime == b
      {
        RunHasSlot(rows, n, boundary, part, b);
      }
      RunOrdered(rows, n, boundary);
      forall first | first in rows && (forall x :: x in rows ==> first.time <= x.time)
        ensures var slots := (boundary - 60 * n) / (60 * n) - first.time / (60 * n) + 1;
                |r.candles| + r.dropped == if slots > 0 then slots else 0
      {
        RunCounts(rows, n, boundary, first);
      }
    }
  }

  lemma RunOrdered(rows: seq<Row>, n: nat, boundary: int)
    requires n > 0 && DistinctTimes(rows)
    ensures var cs := ResampleTable(TableOf(rows), n, boundary).candles;
            forall i, j :: 0 <= i < j < |cs| ==> cs[i].closeTime <= cs[j].openTime
  {
    var table := TableOf(rows);
    if table != map[] { WalkExact(table, FirstSlot(table, n), LatestSlot(boundary, n) + 1, n); }
  }

  lemma RunCounts(rows: seq<Row>, n: nat, boundary: int, first: Row)
    requires n > 0 && DistinctTimes(rows)
    requires first in rows && forall x :: x in rows ==> first.time <= x.time
    ensures var r := ResampleTable(TableOf(rows), n, boundary);
            var slots := (boundary - 60 * n) / (60 * n) - first.time / (60 * n) + 1;
            |r.candles| + r.dropped == if slots > 0 then slots else 0
  {
    hide FirstSlot, LatestSlot, SlotOf, Slot, Buckets, IsMin;
    var table := TableOf(rows);
    assert first.time in table;
    FirstSlotIs(rows, n, first);
    SlotNumbers(first.time, boundary, n);
    var p, q := FirstSlot(table, n), LatestSlot(boundary, n) + 1;
    if p <= q { WalkConserves(table, p, q, n); }
  }
}
