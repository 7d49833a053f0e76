/** The executions query: each execution joined to the smallest trade that names it. */
module Executions {
  import opened Sequences
  import opened Pagination

  datatype Execution = Execution(id: int, data: string)

  datatype Trade = Trade(id: int, entryExecution: int, exitExecution: Option<int>)

  datatype Link = Link(execution: int, trade: int)

  datatype Joined = Joined(data: string, trade: Option<int>)

  function EntryLinks(trades: seq<Trade>): seq<Link> {
    if trades == [] then [] else [Link(trades[0].entryExecution, trades[0].id)] + EntryLinks(trades[1..])
  }

  function ExitLinks(trades: seq<Trade>): seq<Link> {
    if trades == [] then []
    else (if trades[0].exitExecution.Some? then [Link(trades[0].exitExecution.value, trades[0].id)] else [])
         + ExitLinks(trades[1..])
  }

  /** The UNION ALL of both links of every trade. */
  function Links(trades: seq<Trade>): seq<Link> { EntryLinks(trades) + ExitLinks(trades) }

  function Put(groups: seq<Link>, l: Link): seq<Link> {
    if groups == [] then [l]
    else if groups[0].execution == l.execution
    then [Link(l.execution, if l.trade < groups[0].trade then l.trade else groups[0].trade)] + groups[1..]
    else [groups[0]] + Put(groups[1..], l)
  }

  /** MIN(trade_id) GROUP BY execution_id. */
  function GroupMin(links: seq<Link>): seq<Link> {
    if links == [] then [] else Put(GroupMin(links[..|links| - 1]), links[|links| - 1])
  }

  function MatchesOf(e: Execution, groups: seq<Link>): seq<Row<Joined>> {
    if groups == [] then []
    else (if groups[0].execution == e.id then [Row(e.id, Joined(e.data, Some(groups[0].trade)))] else [])
         + MatchesOf(e, groups[1..])
  }

  /** LEFT JOIN of one execution. */
  function JoinOne(e: Execution, groups: seq<Link>): seq<Row<Joined>> {
    var matches := MatchesOf(e, groups);
    if matches == [] then [Row(e.id, Joined(e.data, None))] else matches
  }

  function LeftJoin(executions: seq<Execution>, groups: seq<Link>): seq<Row<Joined>> {
    if executions == [] then [] else JoinOne(executions[0], groups) + LeftJoin(executions[1..], groups)
  }

  function ExecutionRows(executions: seq<Execution>, trades: seq<Trade>): seq<Row<Joined>> {
    LeftJoin(executions, GroupMin(Links(trades)))
  }

  // ---- one row per execution -------------------------------------------------------------

  ghost predicate OnePerExecution(groups: seq<Link>) {
    forall i, j :: 0 <= i < j < |groups| ==> groups[i].execution != groups[j].execution
  }

  ghost predicate SmallestLink(links: seq<Link>, l: Link) {
    l in links && forall m :: m in links && m.execution == l.execution ==> l.trade <= m.trade
  }

  /** One entry per execution named by a link, holding its smallest trade. */
  ghost predicate GroupsOf(groups: seq<Link>, links: seq<Link>) {
    && OnePerExecution(groups)
    && (forall l :: l in groups ==> SmallestLink(links, l))
    && (forall m :: m in links ==> exists l :: l in groups && l.execution == m.execution)
  }

  lemma {:induction false} PutKeeps(groups: seq<Link>, l: Link)
    requires OnePerExecution(groups)
    ensures OnePerExecution(Put(groups, l))
    ensures forall x :: x in Put(groups, l) ==>
              x in groups || x.execution == l.execution
    ensures forall x :: x in groups && x.execution != l.execution ==> x in Put(groups, l)
    ensures exists x :: x in Put(groups, l) && x.execution == l.execution
    ensures forall x :: x in Put(groups, l) && x.execution == l.execution ==>
              x.trade <= l.trade && (x == l || x in groups)
              && forall g :: g in groups && g.execution == l.execution ==> x.trade <= g.trade
    decreases |groups|
  {
    if groups == [] {
      assert Put(groups, l)[0] == l;
    } else {
      assert groups == [groups[0]] + groups[1..];
      var p := Put(groups, l);
      if groups[0].execution == l.execution {
        assert p[0].execution == l.execution;
        assert forall g :: g in groups[1..] ==> g.execution != l.execution;
      } else {
        PutKeeps(groups[1..], l);
        var rest := Put(groups[1..], l);
        assert p == [groups[0]] + rest;
        forall j | 0 <= j < |rest| ensures rest[j].execution != groups[0].execution {
          assert rest[j] in rest;
        }
      }
    }
  }

  /** The kept entry of an execution stays its smallest link when one more link arrives. */
  lemma PutSmallest(before: seq<Link>, links: seq<Link>, l: Link, x: Link)
    requires GroupsOf(before, links) && x in Put(before, l)
    ensures SmallestLink(links + [l], x)
  {
    PutKeeps(before, l);
    hide Put, OnePerExecution;
    var all := links + [l];
    assert all[|links|] == l;
    assert forall y :: y in all ==> y in links || y == l;
    if x.execution == l.execution {
      forall y | y in links && y.execution == x.execution ensures x.trade <= y.trade {
        var g :| g in before && g.execution == y.execution;
      }
    }
  }

  lemma PutCovers(before: seq<Link>, links: seq<Link>, l: Link, y: Link)
    requires GroupsOf(before, links) && y in links + [l]
    ensures exists g :: g in Put(before, l) && g.execution == y.execution
  {
    PutKeeps(before, l);
    hide Put, OnePerExecution, SmallestLink;
    if y.execution != l.execution {
      var g :| g in before && g.execution == y.execution;
      assert g in Put(before, l);
    }
  }

  lemma PutGroups(before: seq<Link>, links: seq<Link>, l: Link)
    requires GroupsOf(before, links)
    ensures GroupsOf(Put(before, l), links + [l])
  {
    PutKeeps(before, l);
    hide Put, OnePerExecution, SmallestLink;
    forall x | x in Put(before, l) ensures SmallestLink(links + [l], x) {
      PutSmallest(before, links, l, x);
    }
    forall y | y in links + [l] ensures exists g :: g in Put(before, l) && g.execution == y.execution {
      PutCovers(before, links, l, y);
    }
  }

  lemma {:induction false} GroupMinGroups(links: seq<Link>)
    ensures GroupsOf(GroupMin(links), links)
    decreases |links|
  {
    if links != [] {
      var m := |links| - 1;
      GroupMinGroups(links[..m]);
      PutGroups(GroupMin(links[..m]), links[..m], links[m]);
      assert links == links[..m] + [links[m]];
    }
  }

  /** The trade shown with an execution: the smallest one naming it, or none. */
  ghost predicate ShowsTrade(links: seq<Link>, execution: int, trade: Option<int>) {
    match trade
    case None => forall l :: l in links ==> l.execution != execution
    case Some(t) => SmallestLink(links, Link(execution, t))
  }

  lemma {:induction false} MatchesAtMostOne(e: Execution, groups: seq<Link>)
    requires OnePerExecution(groups)
    ensures |MatchesOf(e, groups)| <= 1
    ensures MatchesOf(e, groups) == [] <==> forall l :: l in groups ==> l.execution != e.id
    ensures forall r :: r in MatchesOf(e, groups) ==>
              r.cursor == e.id && r.payload.data == e.data && r.payload.trade.Some?
              && Link(e.id, r.payload.trade.value) in groups
    decreases |groups|
  {
    if groups != [] {
      MatchesAtMostOne(e, groups[1..]);
      assert groups == [groups[0]] + groups[1..];
      if groups[0].execution == e.id {
        assert forall l :: l in groups[1..] ==> l.execution != e.id;
        assert MatchesOf(e, groups[1..]) == [];
      }
    }
  }

  lemma JoinOneRow(e: Execution, links: seq<Link>)
    ensures |JoinOne(e, GroupMin(links))| == 1
    ensures var r := JoinOne(e, GroupMin(links))[0];
            r.cursor == e.id && r.payload.data == e.data && ShowsTrade(links, e.id, r.payload.trade)
  {
    var groups := GroupMin(links);
    GroupMinGroups(links);
    MatchesAtMostOne(e, groups);
    if MatchesOf(e, groups) != [] {
      assert MatchesOf(e, groups)[0] in MatchesOf(e, groups);
    } else {
      forall l | l in links ensures l.execution != e.id {
        var g :| g in groups && g.execution == l.execution;
      }
    }
  }

  /** The joined relation has exactly one row per execution, in order, with its smallest trade. */
  lemma {:induction false} OneRowPerExecution(executions: seq<Execution>, links: seq<Link>)
    ensures var rows := LeftJoin(executions, GroupMin(links));
            && |rows| == |executions|
            && forall i :: 0 <= i < |rows| ==>
                 && rows[i].cursor == executions[i].id && rows[i].payload.data == executions[i].data
                 && ShowsTrade(links, executions[i].id, rows[i].payload.trade)
    decreases |executions|
  {
    if executions != [] {
      var groups := GroupMin(links);
      JoinOneRow(executions[0], links);
      OneRowPerExecution(executions[1..], links);
      var first, rest := JoinOne(executions[0], groups), LeftJoin(executions[1..], groups);
      var rows: seq<Row<Joined>> := first + rest;
      forall i | 0 <= i < |executions|
        ensures rows[i].cursor == executions[i].id
             && rows[i].payload.data == executions[i].data
             && ShowsTrade(links, executions[i].id, rows[i].payload.trade)
      {
        if i > 0 { assert executions[i] == executions[1..][i - 1] && rows[i] == rest[i - 1]; }
      }
    }
  }

  /** So the execution id stays a key after the join, and pagination of executions is exact. */
  lemma ExecutionRowsKeyed(executions: seq<Execution>, trades: seq<Trade>)
    requires forall i, j :: 0 <= i < j < |executions| ==> executions[i].id != executions[j].id
    ensures Keyed(ExecutionRows(executions, trades))
  {
    OneRowPerExecution(executions, Links(trades));
  }

  // ---- in terms of the trades ------------------------------------------------------------

  /** The trade was entered or left by this execution. */
  predicate Involves(t: Trade, execution: int) {
    t.entryExecution == execution || t.exitExecution == Some(execution)
  }

  ghost predicate SmallestTrade(trades: seq<Trade>, execution: int, k: int) {
    && (exists t :: t in trades && Involves(t, execution) && t.id == k)
    && (forall t :: t in trades && Involves(t, execution) ==> k <= t.id)
  }

  lemma {:induction false} EntryLinksMean(trades: seq<Trade>, l: Link)
    ensures l in EntryLinks(trades) <==> exists t :: t in trades && t.entryExecution == l.execution && t.id == l.trade
    decreases |trades|
  {
    if trades != [] {
      EntryLinksMean(trades[1..], l);
      assert trades == [trades[0]] + trades[1..];
    }
  }

  lemma {:induction false} ExitLinksMean(trades: seq<Trade>, l: Link)
    ensures l in ExitLinks(trades) <==>
              exists t :: t in trades && t.exitExecution == Some(l.execution) && t.id == l.trade
    decreases |trades|
  {
    if trades != [] {
      ExitLinksMean(trades[1..], l);
      assert trades == [trades[0]] + trades[1..];
    }
  }

  /** A link says that its trade was entered or left by its execution. */
  lemma LinksMean(trades: seq<Trade>, execution: int, k: int)
    ensures Link(execution, k) in Links(trades) <==>
              exists t :: t in trades && Involves(t, execution) && t.id == k
  {
    EntryLinksMean(trades, Link(execution, k));
    ExitLinksMean(trades, Link(execution, k));
    hide EntryLinks, ExitLinks;
  }

  lemma ShowsSmallest(trades: seq<Trade>, execution: int, shown: Option<int>)
    requires ShowsTrade(Links(trades), execution, shown)
    ensures shown.None? <==> forall t :: t in trades ==> !Involves(t, execution)
    ensures forall k :: shown == Some(k) <==> SmallestTrade(trades, execution, k)
  {
    hide Links;
    forall k ensures Link(execution, k) in Links(trades) <==>
                       exists t :: t in trades && Involves(t, execution) && t.id == k
    {
      LinksMean(trades, execution, k);
    }
    forall t | t in trades && Involves(t, execution) ensures Link(execution, t.id) in Links(trades) {
    }
  }

  /**
   * In terms of the trades: the row of an execution shows the smallest trade that it entered or left,
   * and no trade exactly when there is none.
   */
  lemma RowShowsTrade(executions: seq<Execution>, trades: seq<Trade>, i: nat)
    requires i < |executions|
    ensures |ExecutionRows(executions, trades)| == |executions|
    ensures var row := ExecutionRows(executions, trades)[i];
            && row.cursor == executions[i].id && row.payload.data == executions[i].data
            && (row.payload.trade.None? <==> forall t :: t in trades ==> !Involves(t, executions[i].id))
            && (forall k :: row.payload.trade == Some(k) <==> SmallestTrade(trades, executions[i].id, k))
  {
    hide Links, LeftJoin, ShowsTrade, SmallestTrade, Involves;
    OneRowPerExecution(executions, Links(trades));
    ShowsSmallest(trades, executions[i].id, ExecutionRows(executions, trades)[i].payload.trade);
  }

  /** The execution passes the filter: any does, or its smallest trade is the given one. */
  ghost predicate Wanted(trades: seq<Trade>, trade: Option<int>, execution: int) {
    execution > 0 && (trade.Some? ==> SmallestTrade(trades, execution, trade.value))
  }

  /** The row shows a wanted execution with its data and its smallest trade, or none if it has none. */
  ghost predicate RowOf(row: Row<Joined>, e: Execution, trades: seq<Trade>, trade: Option<int>) {
    && row.cursor == e.id && row.payload.data == e.data && Wanted(trades, trade, e.id)
    && match row.payload.trade
       case None => forall t :: t in trades ==> !Involves(t, e.id)
       case Some(k) => SmallestTrade(trades, e.id, k)
  }

  function TradeFilter(trade: Option<int>): Row<Joined> -> bool {
    (row: Row<Joined>) => trade.None? || row.payload.trade == trade
  }

  lemma RowCount(executions: seq<Execution>, trades: seq<Trade>)
    ensures |ExecutionRows(executions, trades)| == |executions|
  {
    OneRowPerExecution(executions, Links(trades));
  }

  /** The selected rows are those of the wanted executions. */
  lemma SelectedExecutions(executions: seq<Execution>, trades: seq<Trade>, trade: Option<int>)
    ensures var all := Select(ExecutionRows(executions, trades), TradeFilter(trade), 0);
            && (forall row :: row in all ==> exists e :: e in executions && RowOf(row, e, trades, trade))
            && (forall e :: e in executions && Wanted(trades, trade, e.id) ==>
                  exists row :: row in all && RowOf(row, e, trades, trade))
  {
    hide Select, ExecutionRows, SmallestTrade, Involves;
    var table := ExecutionRows(executions, trades);
    var all := Select(table, TradeFilter(trade), 0);
    SelectRows(table, TradeFilter(trade), 0);
    RowCount(executions, trades);
    forall row | row in all ensures exists e :: e in executions && RowOf(row, e, trades, trade) {
      var i :| 0 <= i < |table| && table[i] == row;
      RowShowsTrade(executions, trades, i);
      assert executions[i] in executions && RowOf(row, executions[i], trades, trade);
    }
    forall e | e in executions && Wanted(trades, trade, e.id)
      ensures exists row :: row in all && RowOf(row, e, trades, trade)
    {
      var i :| 0 <= i < |executions| && executions[i] == e;
      RowShowsTrade(executions, trades, i);
      assert table[i] in table;
      assert table[i] in all && RowOf(table[i], e, trades, trade);
    }
  }

  /** A part of the selected rows is in order, and is missing a wanted execution unless it is all of them. */
  lemma PagesShow(table: seq<Row<Joined>>, executions: seq<Execution>, trades: seq<Trade>, trade: Option<int>,
                  rows: seq<Row<Joined>>)
    requires table == ExecutionRows(executions, trades) && Keyed(table)
    requires rows <= Select(table, TradeFilter(trade), 0)
    ensures forall i, j :: 0 <= i < j < |rows| ==> rows[i].cursor < rows[j].cursor
    ensures forall row :: row in rows ==> exists e :: e in executions && RowOf(row, e, trades, trade)
    ensures rows == Select(table, TradeFilter(trade), 0) <==>
              forall e :: e in executions && Wanted(trades, trade, e.id) ==>
                exists row :: row in rows && RowOf(row, e, trades, trade)
  {
    hide Select, ExecutionRows, Wanted, SmallestTrade, Involves, Cursors, StrictlyIncreasing, Keyed;
    var all := Select(table, TradeFilter(trade), 0);
    SelectExact(table, TradeFilter(trade), 0);
    CursorsOrdered(all);
    SelectedExecutions(executions, trades, trade);
    forall row | row in rows ensures row in all {
      var i :| 0 <= i < |rows| && rows[i] == row;
      assert all[i] == row;
    }
    if rows != all {
      assert all[|rows|] in all;
      var e :| e in executions && RowOf(all[|rows|], e, trades, trade);
      forall row | row in rows ensures !RowOf(row, e, trades, trade) {
        var i :| 0 <= i < |rows| && rows[i] == row;
        assert row == all[i];
      }
    }
  }

  /** All pages of a run's executions, optionally of one trade. */
  method AllExecutions(executions: seq<Execution>, trades: seq<Trade>, trade: Option<int>, limit: nat)
    returns (r: EvidencePage<Joined>, requests: nat)
    requires forall i, j :: 0 <= i < j < |executions| ==> executions[i].id != executions[j].id
    requires limit >= 1
    ensures var all := Select(ExecutionRows(executions, trades), TradeFilter(trade), 0);
            && r.rows <= all
            && |r.rows| == Smaller(|all|, Smaller(5000, 25 * limit))
            && (r.truncated <==> r.rows != all)
    ensures forall row :: row in r.rows ==> exists e :: e in executions && RowOf(row, e, trades, trade)
    ensures forall i, j :: 0 <= i < j < |r.rows| ==> r.rows[i].cursor < r.rows[j].cursor
    ensures !r.truncated <==> forall e :: e in executions && Wanted(trades, trade, e.id) ==>
                                exists row :: row in r.rows && RowOf(row, e, trades, trade)
    ensures 1 <= requests <= 25 && |r.rows| <= requests * limit
  {
    hide Select, ExecutionRows, RowOf, Wanted;
    ghost var table := ExecutionRows(executions, trades);
    ExecutionRowsKeyed(executions, trades);
    r, requests := AllPages(ExecutionRows(executions, trades), TradeFilter(trade), limit);
    PagesShow(table, executions, trades, trade, r.rows);
  }
}
