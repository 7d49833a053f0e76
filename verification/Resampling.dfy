/** Aggregation of confirmed one-minute rows into finalized candles on the epoch grid. */
module Resampling {
  import opened Sequences
  import opened Candles

  /** Source rows by their open time. */
  type Table = map<int, Row>

  datatype Resampled = Resampled(candles: seq<Candle>, dropped: nat)
  datatype Outcome = Ok(result: Resampled) | DuplicateRow

  function Minute(b: int, i: int): int { b + MINUTE * i }

  ghost predicate DistinctTimes(rows: seq<Row>) {
    forall i, j :: 0 <= i < j < |rows| ==> rows[i].time != rows[j].time
  }

  ghost function TableOf(rows: seq<Row>): (table: Table)
    requires DistinctTimes(rows)
    ensures forall t :: t in table ==> table[t] in rows && table[t].time == t
    ensures forall r :: r in rows ==> r.time in table && table[r.time] == r
  {
    map r | r in rows :: r.time := r
  }

  // ---- what a complete slot is ---------------------------------------------------------

  ghost function BucketTimes(table: Table, b: int, n: nat): set<int>
    requires n > 0
  {
    set t | t in table && BucketStart(t, n) == b
  }

  ghost function ExpectedTimes(b: int, n: nat): set<int> {
    set i | 0 <= i < n :: Minute(b, i)
  }

  /** The slot holds one row for each of its minutes and nothing else. */
  ghost predicate Complete(table: Table, b: int, n: nat)
    requires n > 0
  {
    BucketTimes(table, b, n) == ExpectedTimes(b, n)
  }

  ghost predicate Covered(table: Table, b: int, n: nat) {
    forall i :: 0 <= i < n ==> Minute(b, i) in table
  }

  ghost function SlotRows(table: Table, b: int, n: nat): seq<Row>
    requires Covered(table, b, n)
  {
    seq(n, i requires 0 <= i < n => table[Minute(b, i)])
  }

  ghost function CandleAt(table: Table, b: int, n: nat): Candle
    requires n > 0 && Covered(table, b, n)
  {
    BuildCandle(SlotRows(table, b, n), b, Secs(n))
  }

  lemma CompleteCovers(table: Table, b: int, n: nat)
    requires n > 0 && Complete(table, b, n)
    ensures Covered(table, b, n)
  {
    forall i | 0 <= i < n ensures Minute(b, i) in table {
      assert Minute(b, i) in ExpectedTimes(b, n);
      assert Minute(b, i) in BucketTimes(table, b, n);
    }
  }

  /** What one slot yields: its candle when complete, nothing when it has a gap. */
  ghost function SlotOutcome(table: Table, b: int, n: nat): Option<Candle>
    requires n > 0
  {
    if Complete(table, b, n) then
      CompleteCovers(table, b, n);
      Some(CandleAt(table, b, n))
    else None
  }

  // ---- the walk over the grid ----------------------------------------------------------

  /** Records what one slot yields: its candle, or one more dropped bucket. */
  function Collect(done: Resampled, slot: Option<Candle>): Resampled {
    match slot
    case Some(candle) => Resampled(done.candles + [candle], done.dropped)
    case None => Resampled(done.candles, done.dropped + 1)
  }

  /** The slots numbered from `p` up to but not including `q`, in order. */
  ghost function Walk(table: Table, p: int, q: int, n: nat): Resampled
    requires n > 0
    decreases if q <= p then 0 else q - p
  {
    if q <= p then Resampled([], 0) else
      Collect(Walk(table, p, q - 1, n), SlotOutcome(table, Slot(q - 1, n), n))
  }

  ghost function Buckets(table: Table, n: nat): set<int>
    requires n > 0
  {
    set t | t in table :: BucketStart(t, n)
  }

  /** The number of the earliest slot that holds a row. */
  ghost function FirstSlot(table: Table, n: nat): (q: int)
    requires n > 0 && table != map[]
    ensures IsMin(Slot(q, n), Buckets(table, n))
  {
    var t := AnyKey(table);
    assert BucketStart(t, n) in Buckets(table, n);
    MinExists(Buckets(table, n));
    var m :| IsMin(m, Buckets(table, n));
    assert exists t :: t in table && BucketStart(t, n) == m;
    var t' :| t' in table && BucketStart(t', n) == m;
    SlotOf(t', n)
  }

  ghost function AnyKey(table: Table): (t: int)
    requires table != map[]
    ensures t in table
  {
    assert table.Keys != {};
    NonEmpty(table.Keys);
    var t :| t in table.Keys;
    t
  }

  lemma NonEmpty(xs: set<int>)
    requires xs != {}
    ensures exists x :: x in xs
  {
    var x := Pick(xs);
  }

  /** The number of the latest slot that closes at or before the boundary. */
  ghost function LatestSlot(boundary: int, n: nat): int
    requires n > 0
  {
    SlotOf(boundary - Secs(n), n)
  }

  ghost function ResampleTable(table: Table, n: nat, boundary: int): Resampled
    requires n > 0
  {
    if table == map[] then Resampled([], 0) else
      Walk(table, FirstSlot(table, n), LatestSlot(boundary, n) + 1, n)
  }

  ghost function Resample(rows: seq<Row>, n: nat, boundary: int): Outcome
    requires n > 0
  {
    if DistinctTimes(rows) then Ok(ResampleTable(TableOf(rows), n, boundary)) else DuplicateRow
  }

  // ---- the program ---------------------------------------------------------------------

  ghost predicate Groups(grouped: map<int, map<int, Row>>, table: Table, n: nat)
    requires n > 0
  {
    && grouped.Keys == Buckets(table, n)
    && forall b :: b in grouped ==>
         grouped[b] == GroupOf(table, b, n)
  }

  lemma TableExtend(rows: seq<Row>, i: nat)
    requires i < |rows| && DistinctTimes(rows[..i])
    ensures DistinctTimes(rows[..i + 1]) <==> rows[i].time !in TableOf(rows[..i])
    ensures DistinctTimes(rows[..i + 1]) ==>
              TableOf(rows[..i + 1]) == TableOf(rows[..i])[rows[i].time := rows[i]]
  {
    var old', new' := rows[..i], rows[..i + 1];
    assert new' == old' + [rows[i]];
    if rows[i].time in TableOf(old') {
      var k :| 0 <= k < i && old'[k] == TableOf(old')[rows[i].time];
      assert new'[k].time == new'[i].time;
    } else {
      forall k | 0 <= k < i ensures new'[k].time != rows[i].time {
        assert new'[k] == old'[k] && old'[k] in old';
      }
      assert DistinctTimes(new');
      assert TableOf(new').Keys == TableOf(old').Keys + {rows[i].time};
    }
  }

  lemma DuplicateStays(rows: seq<Row>, i: nat)
    requires i <= |rows| && !DistinctTimes(rows[..i])
    ensures !DistinctTimes(rows)
  {
    var a, b :| 0 <= a < b < i && rows[..i][a].time == rows[..i][b].time;
    assert rows[a].time == rows[b].time;
  }

  ghost function GroupOf(table: Table, b: int, n: nat): map<int, Row>
    requires n > 0
  {
    map t | t in table && BucketStart(t, n) == b :: table[t]
  }

  lemma GroupsExtend(grouped: map<int, map<int, Row>>, table: Table, row: Row, n: nat)
    requires n > 0 && Groups(grouped, table, n)
    requires row.time !in table
    ensures var b := BucketStart(row.time, n);
            Groups(grouped[b := GroupOf(table, b, n)[row.time := row]], table[row.time := row], n)
  {
    var b := BucketStart(row.time, n);
    var next := table[row.time := row];
    assert Buckets(next, n) == Buckets(table, n) + {b};
    assert GroupOf(next, b, n) == GroupOf(table, b, n)[row.time := row];
    forall c | c in grouped && c != b ensures GroupOf(next, c, n) == grouped[c] {
      assert GroupOf(next, c, n) == GroupOf(table, c, n);
    }
  }

  lemma GroupAt(grouped: map<int, map<int, Row>>, table: Table, b: int, n: nat)
    requires n > 0 && Groups(grouped, table, n)
    ensures GroupFor(grouped, b) == GroupOf(table, b, n)
  {
    if b !in grouped {
      forall t | t in table ensures BucketStart(t, n) != b {
        assert BucketStart(t, n) in Buckets(table, n);
      }
    }
  }

  /** The group a row falls into, as `setdefault` finds or creates it. */
  function GroupFor(groups: map<int, map<int, Row>>, b: int): map<int, Row> {
    if b in groups then groups[b] else map[]
  }

  /** One turn of the first loop either meets a repeated time or extends the grouping by one row. */
  lemma GroupStep(groups: map<int, map<int, Row>>, rows: seq<Row>, i: nat, n: nat)
    requires n > 0 && i < |rows| && DistinctTimes(rows[..i])
    requires Groups(groups, TableOf(rows[..i]), n)
    ensures var b := BucketStart(rows[i].time, n);
            var group := GroupFor(groups, b);
            if rows[i].time in group then !DistinctTimes(rows)
            else
              && DistinctTimes(rows[..i + 1])
              && Groups(groups[b := group[rows[i].time := rows[i]]], TableOf(rows[..i + 1]), n)
  {
    var table := TableOf(rows[..i]);
    TableExtend(rows, i);
    GroupAt(groups, table, BucketStart(rows[i].time, n), n);
    if rows[i].time in table {
      DuplicateStays(rows, i + 1);
    } else {
      GroupsExtend(groups, table, rows[i], n);
    }
  }

  /** The first loop: rows by slot and time, refusing a repeated time. */
  method GroupRows(rows: seq<Row>, n: nat) returns (grouped: Option<map<int, map<int, Row>>>)
    requires n > 0
    ensures grouped.Some? <==> DistinctTimes(rows)
    ensures grouped.Some? ==> Groups(grouped.value, TableOf(rows), n)
  {
    var groups: map<int, map<int, Row>> := map[];
    for i := 0 to |rows|
      invariant DistinctTimes(rows[..i])
      invariant Groups(groups, TableOf(rows[..i]), n)
    {
      GroupStep(groups, rows, i, n);
      var row := rows[i];
      var bucket := BucketStart(row.time, n);
      var group := GroupFor(groups, bucket);
      if row.time in group {
        return None;
      }
      groups := groups[bucket := group[row.time := row]];
    }
    assert rows[..|rows|] == rows;
    grouped := Some(groups);
  }

  /** One turn of the second loop: the candle of a slot, or nothing when the slot has a gap. */
  method SlotCandle(group: map<int, Row>, ghost table: Table, b: int, n: nat) returns (c: Option<Candle>)
    requires n > 0 && group == GroupOf(table, b, n)
    ensures c == SlotOutcome(table, b, n)
  {
    var expectedTimes := set i | 0 <= i < n :: Minute(b, i);
    assert group.Keys == BucketTimes(table, b, n);
    if group.Keys != expectedTimes {
      return None;
    }
    CompleteCovers(table, b, n);
    var times := SortSet(group.Keys);
    ProgressionSorted(times, b, n);
    var ordered := seq(|times|, i requires 0 <= i < |times| && times[i] in group => group[times[i]]);
    assert ordered == SlotRows(table, b, n);
    c := Some(BuildCandle(ordered, b, Secs(n)));
  }

  /** The second loop: every slot from the first to the latest complete one. */
  method WalkGrid(grouped: map<int, map<int, Row>>, first: int, latest: int, n: nat,
                  ghost table: Table, ghost p: int, ghost q: int)
    returns (r: Resampled)
    requires n > 0 && Groups(grouped, table, n)
    requires p <= q && first == Slot(p, n) && latest == Slot(q, n)
    ensures r == Walk(table, p, q + 1, n)
  {
    r := Resampled([], 0);
    var current := first;
    ghost var i := p;
    while current <= latest
      invariant p <= i <= q + 1 && current == Slot(i, n)
      invariant r == Walk(table, p, i, n)
      decreases q + 1 - i
    {
      SlotOrder(i, q, n);
      GroupAt(grouped, table, current, n);
      var slot := SlotCandle(GroupFor(grouped, current), table, current, n);
      r := Collect(r, slot);
      current := current + Secs(n);
      i := i + 1;
    }
    SlotOrder(i, q, n);
  }

  /** Groups rows by slot, then walks the grid from the first slot to the latest complete one. */
  method ResampleConfirmed(rows: seq<Row>, n: nat, boundary: int) returns (r: Outcome)
    requires n > 0
    ensures r == Resample(rows, n, boundary)
  {
    if rows == [] {
      return Ok(Resampled([], 0));
    }
    var groups := GroupRows(rows, n);
    if groups.None? {
      return DuplicateRow;
    }
    ghost var table := TableOf(rows);
    assert rows[0] in rows;
    assert BucketStart(rows[0].time, n) in Buckets(table, n);
    var first := Min(groups.value.Keys);
    var latest := BucketStart(boundary - Secs(n), n);
    ghost var p, q := FirstSlot(table, n), LatestSlot(boundary, n);
    SlotOrder(p, q, n);
    if latest < first {
      return Ok(Resampled([], 0));
    }
    var walked := WalkGrid(groups.value, first, latest, n, table, p, q);
    r := Ok(walked);
  }

  /** The ascending order of the expected times is the arithmetic progression itself. */
  lemma ProgressionSorted(times: seq<int>, b: int, n: nat)
    requires StrictlyIncreasing(times) && SameElements(times, ExpectedTimes(b, n))
    ensures times == seq(n, i => Minute(b, i))
  {
    var p := seq(n, i => Minute(b, i));
    forall x ensures x in times <==> x in p {
      if x in p {
        var i :| 0 <= i < n && p[i] == x;
        assert Minute(b, i) in ExpectedTimes(b, n);
      }
      if x in times {
        var i :| 0 <= i < n && Minute(b, i) == x;
        assert p[i] == x;
      }
    }
    IncreasingUnique(times, p);
  }
}
