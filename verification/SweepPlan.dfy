/** The grid plan of a sweep: one configuration per combination of axis values. */
module SweepPlan {
  import opened Sequences
  import opened Sorting
  import opened Sweep
  import D = Decimals

  datatype Axis = Axis(parameter: string, values: seq<Tree>)

  const MAX_CELLS := 100

  // ---- axis parameters ---------------------------------------------------------------------

  function RemovePrefix(s: string, p: string): string { if StartsWith(s, p) then s[|p|..] else s }

  function SplitDots(s: string): (parts: seq<string>)
    ensures parts != []
  {
    if s == "" then [""] else
      var rest := SplitDots(s[1..]);
      if s[0] == '.' then [""] + rest else [[s[0]] + rest[0]] + rest[1..]
  }

  function PathOf(parameter: string): (p: Path)
    ensures p != []
  {
    SplitDots(RemovePrefix(parameter, "params."))
  }

  const MONEY := "money_management."

  predicate ForMoney(parameter: string) { StartsWith(parameter, MONEY) }

  /** The full path in the cell that an axis parameter names. */
  function Target(parameter: string): (p: Path)
    ensures |p| >= 2 && p[0] in {"params", "money_management"}
  {
    if ForMoney(parameter) then ["money_management"] + PathOf(parameter[|MONEY|..])
    else ["params"] + PathOf(parameter)
  }

  /** The cell of a run configuration has both dictionaries. */
  predicate Shaped(cell: Entries) {
    && "params" in cell && cell["params"].Dict?
    && "money_management" in cell && cell["money_management"].Dict?
  }

  const LEGACY_NAMES := {"leverage", "reward_risk", "atr_stop_multiple"}

  /** The deprecated strategy under manual money management. */
  predicate Legacy(cell: Entries)
    requires Shaped(cell)
  {
    var money := cell["money_management"].entries;
    && "strategy_id" in cell && cell["strategy_id"] == Scalar("vessel-reference")
    && "mode" in money && money["mode"] == Scalar("manual")
  }

  /** `_assign_sweep_axis`, with the extra write of the legacy parameter names. */
  function AssignSweepAxis(cell: Entries, parameter: string, v: Tree): (r: Option<Entries>)
    requires Shaped(cell)
    ensures r.Some? ==> Shaped(r.value)
  {
    if ForMoney(parameter) then
      match Assign(cell["money_management"].entries, PathOf(parameter[|MONEY|..]), v)
      case None => None
      case Some(money) => Some(cell["money_management" := Dict(money)])
    else
      match Assign(cell["params"].entries, PathOf(parameter), v)
      case None => None
      case Some(params) =>
        var updated := cell["params" := Dict(params)];
        if Legacy(updated) && RemovePrefix(parameter, "params.") in LEGACY_NAMES then
          var money := updated["money_management"].entries;
          Some(updated["money_management" := Dict(money[RemovePrefix(parameter, "params.") := v])])
        else Some(updated)
  }

  /** The assignments an axis makes: one to its target, and in the legacy branch one to the setting of that name. */
  function AxisWrites(legacy: bool, parameter: string, v: Tree): (ws: seq<Write>)
    ensures Usable(ws)
  {
    var name := RemovePrefix(parameter, "params.");
    [Write(Target(parameter), v)]
    + if legacy && !ForMoney(parameter) && name in LEGACY_NAMES then [Write(["money_management", name], v)] else []
  }

  /** The dotted spelling of a path. */
  ghost function JoinDots(parts: seq<string>): string
    requires parts != []
  {
    if |parts| == 1 then parts[0] else parts[0] + "." + JoinDots(parts[1..])
  }

  ghost predicate DotFree(parts: seq<string>) { forall i :: 0 <= i < |parts| ==> '.' !in parts[i] }

  lemma JoinMore(head: string, rest: seq<string>)
    requires rest != []
    ensures JoinDots([head] + rest) == head + "." + JoinDots(rest)
  {
    assert ([head] + rest)[1..] == rest;
  }

  /** Splitting at the dots is undone by joining with dots, and leaves no dot inside a part. */
  lemma {:induction false} SplitJoins(s: string)
    ensures JoinDots(SplitDots(s)) == s && DotFree(SplitDots(s))
    decreases |s|
  {
    if s != "" {
      var rest := SplitDots(s[1..]);
      SplitJoins(s[1..]);
      assert s == [s[0]] + s[1..];
      if s[0] == '.' {
        JoinMore("", rest);
        assert "" + "." + s[1..] == s;
      } else if |rest| > 1 {
        HeadGrows(s[0], rest);
      }
    }
  }

  lemma CharFirst(c: char, a: string, b: string)
    ensures [c] + a + "." + b == [c] + (a + "." + b)
  {
  }

  lemma HeadGrows(c: char, rest: seq<string>)
    requires |rest| > 1
    ensures JoinDots([[c] + rest[0]] + rest[1..]) == [c] + JoinDots(rest)
  {
    JoinMore([c] + rest[0], rest[1..]);
    assert JoinDots(rest) == rest[0] + "." + JoinDots(rest[1..]);
    hide JoinDots;
    CharFirst(c, rest[0], JoinDots(rest[1..]));
  }

  /** What a parameter is called once a leading `params.` is gone. */
  ghost predicate Shortened(parameter: string, name: string) {
    parameter == "params." + name || (parameter == name && !("params." <= parameter))
  }

  /** The dotted name of the entry that an axis parameter is about. */
  ghost predicate Spells(parameter: string, dotted: string) {
    if "money_management." <= parameter
    then exists rest, name ::
           parameter == "money_management." + rest && Shortened(rest, name) && dotted == "money_management." + name
    else exists name :: Shortened(parameter, name) && dotted == "params." + name
  }

  lemma PathSpelled(parameter: string)
    ensures Shortened(parameter, JoinDots(PathOf(parameter))) && DotFree(PathOf(parameter))
    ensures JoinDots(PathOf(parameter)) == RemovePrefix(parameter, "params.")
  {
    SplitJoins(RemovePrefix(parameter, "params."));
    if StartsWith(parameter, "params.") { assert parameter == "params." + parameter[7..]; }
  }

  lemma TargetSpelled(parameter: string)
    ensures Spells(parameter, JoinDots(Target(parameter))) && DotFree(Target(parameter))
  {
    hide PathOf, RemovePrefix, JoinDots;
    if ForMoney(parameter) {
      var rest := parameter[|MONEY|..];
      assert parameter == "money_management." + rest;
      PathSpelled(rest);
      JoinMore("money_management", PathOf(rest));
      assert "money_management" + "." == "money_management.";
    } else {
      PathSpelled(parameter);
      JoinMore("params", PathOf(parameter));
      assert "params" + "." == "params.";
    }
  }

  /** The three parameter names of the deprecated strategy, with or without the leading `params.`. */
  ghost predicate LegacyParameter(parameter: string) {
    && !("money_management." <= parameter)
    && exists name :: Shortened(parameter, name) && name in {"leverage", "reward_risk", "atr_stop_multiple"}
  }

  lemma ShortenedOnce(parameter: string, name: string)
    requires Shortened(parameter, name)
    ensures name == RemovePrefix(parameter, "params.")
  {
    if parameter == "params." + name { assert StartsWith(parameter, "params.") && parameter[7..] == name; }
  }

  lemma LegacyParameterNamed(parameter: string)
    ensures LegacyParameter(parameter) <==>
              !ForMoney(parameter) && RemovePrefix(parameter, "params.") in LEGACY_NAMES
    ensures Shortened(parameter, RemovePrefix(parameter, "params."))
  {
    hide JoinDots, PathOf;
    PathSpelled(parameter);
    hide RemovePrefix, Shortened;
    if LegacyParameter(parameter) {
      var name :| Shortened(parameter, name) && name in {"leverage", "reward_risk", "atr_stop_multiple"};
      ShortenedOnce(parameter, name);
    }
  }

  /**
   * What an axis assigns, in the words of its parameter: the entry of that dotted name, and the setting of
   * the same name exactly for the three legacy parameters of the deprecated strategy under manual money.
   */
  lemma AxisSpelled(cell: Entries, parameter: string, v: Tree)
    requires Shaped(cell)
    ensures var ws := AxisWrites(Legacy(cell), parameter, v);
            && 1 <= |ws| <= 2 && (forall w :: w in ws ==> w.value == v)
            && Spells(parameter, JoinDots(ws[0].path)) && DotFree(ws[0].path)
            && (|ws| == 2 <==>
                  && "strategy_id" in cell && cell["strategy_id"] == Scalar("vessel-reference")
                  && ReadAt(cell, ["money_management", "mode"]) == Some(Scalar("manual"))
                  && LegacyParameter(parameter))
            && (|ws| == 2 ==> exists name :: Shortened(parameter, name) && ws[1].path == ["money_management", name])
  {
    TargetSpelled(parameter);
    LegacyParameterNamed(parameter);
    LegacyRead(cell);
    hide Legacy, LEGACY_NAMES, ForMoney, RemovePrefix, Shortened, JoinDots, Spells, Target, ReadAt, DotFree,
         LegacyParameter;
  }

  lemma AssignBelow(cell: Entries, key: string, inner: Entries, path: Path, v: Tree)
    requires key in cell && cell[key] == Dict(inner) && path != []
    ensures Assign(cell, [key] + path, v) ==
            match Assign(inner, path, v) case None => None case Some(updated) => Some(cell[key := Dict(updated)])
  {
    assert ([key] + path)[1..] == path;
    assert Nested(cell, key) == Some(inner);
  }

  lemma AssignOneOrTwo(r: Option<Entries>, a: Write, b: Write)
    requires a.path != [] && b.path != []
    ensures AssignAll(r, [a]) == Then(r, a.path, a.value)
    ensures AssignAll(r, [a] + [b]) == Then(Then(r, a.path, a.value), b.path, b.value)
  {
    hide Then;
    assert ([a] + [b])[1..] == [b] && [a][1..] == [] && [b][1..] == [];
    assert AssignAll(Then(r, a.path, a.value), [b]) == AssignAll(Then(Then(r, a.path, a.value), b.path, b.value), []);
  }

  /** An axis is exactly these assignments, failures included. */
  lemma AxisIsAssignment(cell: Entries, parameter: string, v: Tree)
    requires Shaped(cell)
    ensures AssignSweepAxis(cell, parameter, v) == AssignAll(Some(cell), AxisWrites(Legacy(cell), parameter, v))
  {
    hide PathOf, Assign;
    var name := RemovePrefix(parameter, "params.");
    var first, second := Write(Target(parameter), v), Write(["money_management", name], v);
    AssignOneOrTwo(Some(cell), first, second);
    if ForMoney(parameter) {
      AssignBelow(cell, "money_management", cell["money_management"].entries, PathOf(parameter[|MONEY|..]), v);
    } else {
      AssignBelow(cell, "params", cell["params"].entries, PathOf(parameter), v);
      match Assign(cell["params"].entries, PathOf(parameter), v)
      case None =>
      case Some(params) =>
        var updated := cell["params" := Dict(params)];
        assert Legacy(updated) == Legacy(cell);
        SetBelow(updated, "money_management", updated["money_management"].entries, name, v);
    }
  }

  lemma SetBelow(cell: Entries, key: string, inner: Entries, name: string, v: Tree)
    requires key in cell && cell[key] == Dict(inner)
    ensures Assign(cell, [key, name], v) == Some(cell[key := Dict(inner[name := v])])
  {
    assert [key] + [name] == [key, name];
    AssignBelow(cell, key, inner, [name], v);
  }

  // ---- one cell ------------------------------------------------------------------------------

  /** The value that one cell takes on one axis. */
  datatype Choice = Choice(axis: Axis, value: Tree)

  /** The choices of a cell, axis by axis. */
  function Zip(axes: seq<Axis>, combination: seq<Tree>): (cs: seq<Choice>)
    requires |axes| == |combination|
    ensures |cs| == |axes| && forall i :: 0 <= i < |cs| ==> cs[i] == Choice(axes[i], combination[i])
  {
    if axes == [] then [] else [Choice(axes[0], combination[0])] + Zip(axes[1..], combination[1..])
  }

  function AssignAxes(cell: Entries, cs: seq<Choice>): (r: Option<Entries>)
    requires Shaped(cell)
    ensures r.Some? ==> Shaped(r.value)
    decreases |cs|
  {
    if cs == [] then Some(cell) else
      match AssignSweepAxis(cell, cs[0].axis.parameter, cs[0].value)
      case None => None
      case Some(next) => AssignAxes(next, cs[1..])
  }

  /** `_sweep_run_name`. */
  function RunName(baseName: string, index: nat): string {
    var suffix := "g" + D.Digits(index + 1);
    var keep := 24 - |suffix| - 1;
    var cut := if keep >= |baseName| then baseName
               else if keep >= 0 then baseName[..keep]
               else if -keep >= |baseName| then "" else baseName[..|baseName| + keep];
    StripDashes(cut) + "-" + suffix
  }

  function StripDashes(s: string): (r: string)
    ensures |r| <= |s|
  {
    if s != "" && s[|s| - 1] == '-' then StripDashes(s[..|s| - 1]) else s
  }

  /** The run name and the sweep entry of a cell. */
  function Labelled(cell: Entries, meta: Entries, baseName: string, index: nat): Entries {
    cell["run_name" := Scalar(RunName(baseName, index))]
        ["sweep" := Dict(meta["fold_label" := Scalar("grid-" + D.Digits(index + 1))])]
  }

  function CellFor(base: Entries, meta: Entries, baseName: string, cs: seq<Choice>, index: nat): Option<Entries>
    requires Shaped(base)
  {
    match AssignAxes(base, cs)
    case None => None
    case Some(cell) => Some(Labelled(cell, meta, baseName, index))
  }

  lemma CellOfFilled(base: Entries, meta: Entries, baseName: string, cs: seq<Choice>, index: nat)
    requires Shaped(base)
    ensures var filled := AssignAxes(base, cs);
            CellFor(base, meta, baseName, cs, index) ==
              if filled.None? then None else Some(Labelled(filled.value, meta, baseName, index))
  {
  }

  lemma {:induction false} AssignMore(cell: Entries, a: seq<Choice>, b: seq<Choice>)
    requires Shaped(cell)
    ensures AssignAxes(cell, a + b) ==
            match AssignAxes(cell, a) case None => None case Some(next) => AssignAxes(next, b)
    decreases |a|
  {
    hide AssignSweepAxis;
    if a == [] {
      assert a + b == b;
    } else {
      assert (a + b)[0] == a[0] && (a + b)[1..] == a[1..] + b;
      match AssignSweepAxis(cell, a[0].axis.parameter, a[0].value)
      case None =>
      case Some(next) => AssignMore(next, a[1..], b);
    }
  }

  lemma AssignLast(cell: Entries, c: Choice)
    requires Shaped(cell)
    ensures AssignAxes(cell, [c]) == AssignSweepAxis(cell, c.axis.parameter, c.value)
  {
    hide AssignSweepAxis;
    assert [c][1..] == [];
    match AssignSweepAxis(cell, c.axis.parameter, c.value)
    case None =>
    case Some(next) => assert AssignAxes(next, []) == Some(next);
  }

  /** All assignments of a cell in order; whether the legacy branch is open is read off the cell so far. */
  ghost function Writes(cell: Entries, cs: seq<Choice>): (ws: seq<Write>)
    requires Shaped(cell)
    ensures Usable(ws)
    decreases |cs|
  {
    if cs == [] then [] else
      var first := AxisWrites(Legacy(cell), cs[0].axis.parameter, cs[0].value);
      match AssignSweepAxis(cell, cs[0].axis.parameter, cs[0].value)
      case None => first
      case Some(next) => first + Writes(next, cs[1..])
  }

  lemma {:induction false} AxesAreWrites(cell: Entries, cs: seq<Choice>)
    requires Shaped(cell)
    ensures AssignAxes(cell, cs) == AssignAll(Some(cell), Writes(cell, cs))
    decreases |cs|
  {
    hide AxisWrites, AssignSweepAxis, Legacy;
    if cs != [] {
      var first := AxisWrites(Legacy(cell), cs[0].axis.parameter, cs[0].value);
      AxisIsAssignment(cell, cs[0].axis.parameter, cs[0].value);
      match AssignSweepAxis(cell, cs[0].axis.parameter, cs[0].value)
      case None =>
      case Some(next) =>
        AxesAreWrites(next, cs[1..]);
        AssignAppend(Some(cell), first, Writes(next, cs[1..]));
    }
  }

  /** The assignment of an axis to its own target. */
  function Targeted(c: Choice): Write { Write(Target(c.axis.parameter), c.value) }

  /** Every axis writes its target, unless an earlier one fails. */
  lemma {:induction false} TargetsWritten(cell: Entries, cs: seq<Choice>, c: Choice)
    requires Shaped(cell) && c in cs && AssignAxes(cell, cs).Some?
    ensures Targeted(c) in Writes(cell, cs)
    decreases |cs|
  {
    hide AssignSweepAxis, Legacy, Target;
    if c != cs[0] {
      TargetsWritten(AssignSweepAxis(cell, cs[0].axis.parameter, cs[0].value).value, cs[1..], c);
    }
  }

  ghost predicate Scalars(cs: seq<Choice>) { forall c :: c in cs ==> c.value.Scalar? }

  /** A path the sweep is free to leave alone. */
  ghost predicate Elsewhere(q: Path, ws: seq<Write>) {
    && q != [] && q[0] != "run_name" && q[0] != "sweep"
    && forall i :: 0 <= i < |ws| ==> Apart(ws[i].path, q)
  }

  /**
   * What a planned cell holds: every axis is written, whatever is apart from the assignments reads as
   * in the base, an axis reads its chosen value exactly when no later assignment touches it with another
   * one, and all assigned values read back exactly when every two assignments are apart or equal.
   */
  lemma CellContract(base: Entries, meta: Entries, baseName: string, cs: seq<Choice>, index: nat)
    requires Shaped(base) && Scalars(cs)
    requires CellFor(base, meta, baseName, cs, index).Some?
    ensures var cell := CellFor(base, meta, baseName, cs, index).value;
            var ws := Writes(base, cs);
            && (forall c :: c in cs ==> Targeted(c) in ws)
            && (forall q :: Elsewhere(q, ws) ==> ReadAt(cell, q) == ReadAt(base, q))
            && (forall c :: c in cs ==>
                  (ReadAt(cell, Target(c.axis.parameter)) == Some(c.value) <==> Survives(ws, Targeted(c))))
            && ((forall w :: w in ws ==> ReadAt(cell, w.path) == Some(w.value)) <==>
                  (forall a, b :: a in ws && b in ws ==> a == b || Apart(a.path, b.path)))
  {
    hide AssignAxes, Writes, AssignAll, ReadAt, Apart, Survives, Target;
    var ws := Writes(base, cs);
    var cell := CellFor(base, meta, baseName, cs, index).value;
    AxesAreWrites(base, cs);
    var updated := AssignAll(Some(base), ws).value;
    WritesShape(base, cs);
    AllReadBack(base, ws);
    forall w | w in ws ensures ReadAt(cell, w.path) == ReadAt(updated, w.path) {
      LabelsElsewhere(updated, cell, w.path);
    }
    forall c | c in cs
      ensures Targeted(c) in ws
      ensures ReadAt(cell, Target(c.axis.parameter)) == Some(c.value) <==> Survives(ws, Targeted(c))
    {
      TargetsWritten(base, cs, c);
      ReadsBackExactly(base, ws, Targeted(c));
    }
    forall q | Elsewhere(q, ws) ensures ReadAt(cell, q) == ReadAt(base, q) {
      WritesFrame(base, ws, q);
      LabelsElsewhere(updated, cell, q);
    }
  }

  /** All assignments go to the parameters or the money management, and write a value of the combination. */
  lemma {:induction false} WritesShape(cell: Entries, cs: seq<Choice>)
    requires Shaped(cell) && Scalars(cs)
    ensures forall w :: w in Writes(cell, cs) ==>
              w.value.Scalar? && w.path != [] && w.path[0] in {"params", "money_management"}
    decreases |cs|
  {
    hide AssignSweepAxis, Legacy;
    if cs != [] {
      assert forall c :: c in cs[1..] ==> c in cs;
      match AssignSweepAxis(cell, cs[0].axis.parameter, cs[0].value)
      case None =>
      case Some(next) => WritesShape(next, cs[1..]);
    }
  }

  lemma LabelsElsewhere(a: Entries, b: Entries, q: Path)
    requires q != [] && q[0] != "run_name" && q[0] != "sweep"
    requires forall k :: k != "run_name" && k != "sweep" ==> (k in a <==> k in b) && (k in a && k in b ==> a[k] == b[k])
    ensures ReadAt(a, q) == ReadAt(b, q)
  {
  }

  // ---- the money-management mode ---------------------------------------------------------------

  const MODE: Path := ["money_management", "mode"]

  ghost predicate Vessel(cell: Entries) { "strategy_id" in cell && cell["strategy_id"] == Scalar("vessel-reference") }

  /** A target that is the mode or lies below it. */
  predicate AtMode(c: Choice) { MODE <= Target(c.axis.parameter) }

  lemma NearMode(c: Choice)
    ensures AtMode(c) <==> !Apart(Target(c.axis.parameter), MODE)
    ensures AtMode(c) ==> ForMoney(c.axis.parameter)
  {
    var t := Target(c.axis.parameter);
    hide PathOf;
    assert |MODE| == 2 && MODE[0] == "money_management" && MODE[0] != "params";
    if t <= MODE { assert t == MODE; }
    if AtMode(c) { assert t[0] == MODE[0]; }
  }

  /** The choice leaves the legacy branch open or closed as it is. */
  ghost predicate KeepsBranch(legacy: bool, c: Choice) {
    Target(c.axis.parameter) == MODE ==> (c.value == Scalar("manual") <==> legacy)
  }

  /**
   * The legacy branch stays as the base has it: another strategy, no legacy name among the axes, or no
   * choice that changes whether the mode is manual.
   */
  ghost predicate Settled(base: Entries, cs: seq<Choice>)
    requires Shaped(base)
  {
    || !Vessel(base)
    || (forall c :: c in cs ==> RemovePrefix(c.axis.parameter, "params.") !in LEGACY_NAMES)
    || (forall c :: c in cs ==> KeepsBranch(Legacy(base), c))
  }

  /** The assignments when the legacy branch stays as the base has it. */
  ghost function PlainWrites(legacy: bool, cs: seq<Choice>): (ws: seq<Write>)
    ensures Usable(ws)
    decreases |cs|
  {
    if cs == [] then [] else AxisWrites(legacy, cs[0].axis.parameter, cs[0].value) + PlainWrites(legacy, cs[1..])
  }

  /** Then a cell is filled by assignments that the choices and the base alone determine, failures included. */
  lemma {:induction false} SettledWrites(cell: Entries, cs: seq<Choice>)
    requires Shaped(cell) && Settled(cell, cs)
    ensures AssignAxes(cell, cs) == AssignAll(Some(cell), PlainWrites(Legacy(cell), cs))
    ensures AssignAxes(cell, cs).Some? ==> Writes(cell, cs) == PlainWrites(Legacy(cell), cs)
    decreases |cs|
  {
    if cs != [] {
      hide Target, Apart, Assign, Vessel;
      var c := cs[0];
      var first := AxisWrites(Legacy(cell), c.axis.parameter, c.value);
      AxisIsAssignment(cell, c.axis.parameter, c.value);
      AssignAppend(Some(cell), first, PlainWrites(Legacy(cell), cs[1..]));
      match AssignSweepAxis(cell, c.axis.parameter, c.value)
      case None =>
        FailureStays(PlainWrites(Legacy(cell), cs[1..]));
      case Some(next) =>
        AxisKeeps(cell, c);
        assert forall d :: d in cs[1..] ==> d in cs;
        hide Legacy, AssignSweepAxis, KeepsBranch;
        if Legacy(next) != Legacy(cell) { NoLegacyNames(cs[1..]); }
        SettledWrites(next, cs[1..]);
    }
  }

  lemma AxisKeeps(cell: Entries, c: Choice)
    requires Shaped(cell) && AssignSweepAxis(cell, c.axis.parameter, c.value).Some?
    ensures var next := AssignSweepAxis(cell, c.axis.parameter, c.value).value;
            && (Vessel(next) <==> Vessel(cell))
            && (!Vessel(cell) ==> !Legacy(next) && !Legacy(cell))
            && (KeepsBranch(Legacy(cell), c) && Vessel(cell) ==> Legacy(next) == Legacy(cell))
  {
    StrategyKept(cell, c.axis.parameter, c.value);
    var next := AssignSweepAxis(cell, c.axis.parameter, c.value).value;
    LegacyRead(cell);
    LegacyRead(next);
    hide Legacy, AssignSweepAxis;
    if Vessel(cell) && KeepsBranch(Legacy(cell), c) {
      ModeAfter(cell, c);
    }
  }

  /** What an axis does to the mode. */
  lemma ModeAfter(cell: Entries, c: Choice)
    requires Shaped(cell) && AssignSweepAxis(cell, c.axis.parameter, c.value).Some?
    ensures var next, t := AssignSweepAxis(cell, c.axis.parameter, c.value).value, Target(c.axis.parameter);
            && (!AtMode(c) ==> ReadAt(next, MODE) == ReadAt(cell, MODE))
            && (t == MODE ==> ReadAt(next, MODE) == Some(c.value))
            && (AtMode(c) && t != MODE ==>
                  ReadAt(next, MODE) != Some(Scalar("manual")) && ReadAt(cell, MODE) != Some(Scalar("manual")))
  {
    var legacy, t := Legacy(cell), Target(c.axis.parameter);
    var ws := AxisWrites(legacy, c.axis.parameter, c.value);
    AxisIsAssignment(cell, c.axis.parameter, c.value);
    NearMode(c);
    assert AtMode(c) ==> ws == [Targeted(c)];
    hide AssignSweepAxis, Legacy, Target, ReadAt, AssignAll, Assign, Apart;
    if !AtMode(c) {
      AxisWritesApart(legacy, c.axis.parameter, c.value);
      hide AxisWrites;
      WritesFrame(cell, ws, MODE);
    } else {
      assert [] + [Targeted(c)] == ws;
      LastReads(cell, [], Targeted(c));
      EmptyWrites(cell);
      if t != MODE { AssignThrough(cell, t, c.value, MODE); }
    }
  }

  lemma EmptyWrites(cell: Entries)
    ensures AssignAll(Some(cell), []) == Some(cell)
  {
  }

  lemma StrategyKept(cell: Entries, parameter: string, v: Tree)
    requires Shaped(cell) && AssignSweepAxis(cell, parameter, v).Some?
    ensures Vessel(AssignSweepAxis(cell, parameter, v).value) <==> Vessel(cell)
  {
    hide Assign, PathOf, ForMoney, Legacy, RemovePrefix;
  }

  lemma AxisWritesApart(legacy: bool, parameter: string, v: Tree)
    requires Apart(Target(parameter), MODE)
    ensures forall w :: w in AxisWrites(legacy, parameter, v) ==> Apart(w.path, MODE)
  {
    hide Target, ForMoney;
    var name := RemovePrefix(parameter, "params.");
    hide RemovePrefix;
    if name in LEGACY_NAMES {
      assert "mode" !in LEGACY_NAMES by { assert |"mode"| == 4; }
      assert ["money_management", name][1] != MODE[1];
    }
  }

  lemma LegacyRead(cell: Entries)
    requires Shaped(cell)
    ensures Legacy(cell) <==> Vessel(cell) && ReadAt(cell, MODE) == Some(Scalar("manual"))
  {
    assert MODE[1..] == ["mode"];
  }

  lemma {:induction false} NoLegacyNames(cs: seq<Choice>)
    requires forall c :: c in cs ==> RemovePrefix(c.axis.parameter, "params.") !in LEGACY_NAMES
    ensures PlainWrites(true, cs) == PlainWrites(false, cs)
    decreases |cs|
  {
    if cs != [] {
      assert forall c :: c in cs[1..] ==> c in cs;
      NoLegacyNames(cs[1..]);
    }
  }

  // ---- the order of the axes -------------------------------------------------------------------

  lemma {:induction false} PlainMore(legacy: bool, a: seq<Choice>, b: seq<Choice>)
    ensures PlainWrites(legacy, a + b) == PlainWrites(legacy, a) + PlainWrites(legacy, b)
    decreases |a|
  {
    hide AxisWrites;
    if a == [] {
      assert a + b == b;
    } else {
      assert (a + b)[0] == a[0] && (a + b)[1..] == a[1..] + b;
      PlainMore(legacy, a[1..], b);
    }
  }

  /** Every plain assignment belongs to a choice. */
  lemma {:induction false} PlainFrom(legacy: bool, cs: seq<Choice>, w: Write) returns (k: nat)
    requires w in PlainWrites(legacy, cs)
    ensures k < |cs| && w in AxisWrites(legacy, cs[k].axis.parameter, cs[k].value)
    decreases |cs|
  {
    hide AxisWrites;
    if w in AxisWrites(legacy, cs[0].axis.parameter, cs[0].value) {
      k := 0;
    } else {
      k := PlainFrom(legacy, cs[1..], w);
      k := k + 1;
    }
  }

  lemma {:induction false} TargetsPlain(legacy: bool, cs: seq<Choice>, c: Choice)
    requires c in cs
    ensures Targeted(c) in PlainWrites(legacy, cs)
    decreases |cs|
  {
    hide Target;
    if c != cs[0] { TargetsPlain(legacy, cs[1..], c); }
  }

  lemma Concat<T>(a: seq<T>, b: seq<T>, c: seq<T>)
    ensures multiset(a + (b + c)) == multiset(b) + multiset(a + c)
  {
  }

  /** Reordering the choices reorders their assignments. */
  lemma {:induction false} PlainPermuted(legacy: bool, cs: seq<Choice>, us: seq<Choice>)
    requires multiset(cs) == multiset(us)
    ensures multiset(PlainWrites(legacy, cs)) == multiset(PlainWrites(legacy, us))
    decreases |cs|
  {
    hide AxisWrites, PlainWrites;
    if cs == [] {
      assert |us| == |multiset(us)| == 0;
    } else {
      var j := FindFirst(cs, us);
      var before, after := us[..j], us[j + 1..];
      PlainPermuted(legacy, cs[1..], before + after);
      PlainMore(legacy, [cs[0]], cs[1..]);
      PlainMore(legacy, [us[j]], after);
      PlainMore(legacy, before, [us[j]] + after);
      PlainMore(legacy, before, after);
      assert cs == [cs[0]] + cs[1..] && us == before + ([us[j]] + after);
      Concat(PlainWrites(legacy, before), PlainWrites(legacy, [us[j]]), PlainWrites(legacy, after));
    }
  }

  lemma SameChoices(cs: seq<Choice>, us: seq<Choice>)
    requires multiset(cs) == multiset(us)
    ensures forall c :: c in cs <==> c in us
  {
    forall c ensures c in cs <==> c in us {
      assert c in cs <==> c in multiset(cs);
      assert c in us <==> c in multiset(us);
    }
  }

  /** In a settled cell, compatible assignments make the order of the axes irrelevant, failures included. */
  lemma SettledOrderFree(base: Entries, meta: Entries, baseName: string, cs: seq<Choice>, us: seq<Choice>, index: nat)
    requires Shaped(base) && Settled(base, cs) && multiset(cs) == multiset(us)
    requires Compatible(PlainWrites(Legacy(base), cs))
    ensures CellFor(base, meta, baseName, cs, index) == CellFor(base, meta, baseName, us, index)
  {
    SameChoices(cs, us);
    assert Settled(base, us);
    SettledWrites(base, cs);
    SettledWrites(base, us);
    PlainPermuted(Legacy(base), cs, us);
    hide Settled, Legacy, Compatible, PlainWrites, AssignAll;
    OrderFree(Some(base), PlainWrites(Legacy(base), cs), PlainWrites(Legacy(base), us));
  }

  /** An assignment of a cell is one to the target of a choice, or one to a setting with a legacy name. */
  lemma {:induction false} WritesFrom(cell: Entries, cs: seq<Choice>, w: Write)
    requires Shaped(cell) && w in Writes(cell, cs)
    ensures (exists c :: c in cs && w == Targeted(c)) || (|w.path| == 2 && w.path[1] in LEGACY_NAMES)
    decreases |cs|
  {
    hide AssignSweepAxis, Legacy, RemovePrefix, Target, ForMoney;
    if w !in AxisWrites(Legacy(cell), cs[0].axis.parameter, cs[0].value) {
      WritesFrom(AssignSweepAxis(cell, cs[0].axis.parameter, cs[0].value).value, cs[1..], w);
      assert forall c :: c in cs[1..] ==> c in cs;
    } else if w == Targeted(cs[0]) {
      assert cs[0] in cs;
    }
  }

  lemma LegacyNotMode(p: Path)
    requires |p| == 2 && p[1] in LEGACY_NAMES
    ensures Apart(p, MODE)
  {
    assert |"mode"| == 4 && MODE[1] == "mode" && p[1] != MODE[1];
  }

  /** A compatible cell that ends with the mode of the base never changed the legacy branch. */
  lemma CompatibleSettles(base: Entries, cs: seq<Choice>)
    requires Shaped(base) && AssignAxes(base, cs).Some? && Compatible(PlainWrites(Legacy(base), cs))
    requires ReadAt(AssignAxes(base, cs).value, MODE) == ReadAt(base, MODE)
    ensures Settled(base, cs)
  {
    LegacyRead(base);
    AxesAreWrites(base, cs);
    hide Legacy, AssignAxes, AssignAll, ReadAt, PlainWrites, Writes, Apart, Vessel, Target;
    forall c | c in cs && Vessel(base) ensures KeepsBranch(Legacy(base), c) {
      if Target(c.axis.parameter) == MODE {
        forall w | w in Writes(base, cs) ensures w == Targeted(c) || Apart(w.path, MODE) {
          WritesFrom(base, cs, w);
          TargetsPlain(Legacy(base), cs, c);
          if exists d :: d in cs && w == Targeted(d) {
            var d :| d in cs && w == Targeted(d);
            TargetsPlain(Legacy(base), cs, d);
          } else {
            LegacyNotMode(w.path);
          }
        }
        TargetsWritten(base, cs, c);
        WritesRead(base, Writes(base, cs), Targeted(c));
      }
    }
  }

  /** Choices away from the mode first, those at the mode last. */
  lemma {:induction false} Partition(cs: seq<Choice>) returns (far: seq<Choice>, near: seq<Choice>)
    ensures multiset(far + near) == multiset(cs)
    ensures (forall c :: c in far ==> !AtMode(c)) && (forall c :: c in near ==> AtMode(c))
    decreases |cs|
  {
    hide AtMode;
    if cs == [] {
      far, near := [], [];
    } else {
      far, near := Partition(cs[1..]);
      assert cs == [cs[0]] + cs[1..];
      if AtMode(cs[0]) { near := [cs[0]] + near; } else { far := [cs[0]] + far; }
    }
  }

  /** Choices away from the mode leave the legacy branch as it is. */
  lemma {:induction false} FarKeep(cell: Entries, cs: seq<Choice>)
    requires Shaped(cell) && AssignAxes(cell, cs).Some? && forall c :: c in cs ==> !AtMode(c)
    ensures Legacy(AssignAxes(cell, cs).value) == Legacy(cell)
    decreases |cs|
  {
    hide AssignSweepAxis, Legacy, AtMode, Target, Vessel;
    if cs != [] {
      assert cs[0] in cs && forall c :: c in cs[1..] ==> c in cs;
      FarBranch(Legacy(cell), cs[0]);
      AxisKeeps(cell, cs[0]);
      FarKeep(AssignSweepAxis(cell, cs[0].axis.parameter, cs[0].value).value, cs[1..]);
    }
  }

  lemma FarBranch(legacy: bool, c: Choice)
    requires !AtMode(c)
    ensures KeepsBranch(legacy, c)
  {
  }

  /** Choices at the mode leave every path apart from it alone. */
  lemma {:induction false} NearFrame(cell: Entries, cs: seq<Choice>, p: Path)
    requires Shaped(cell) && AssignAxes(cell, cs).Some? && p != [] && Apart(p, MODE)
    requires forall c :: c in cs ==> AtMode(c)
    ensures ReadAt(AssignAxes(cell, cs).value, p) == ReadAt(cell, p)
    decreases |cs|
  {
    hide AssignSweepAxis, Legacy, ReadAt;
    if cs != [] {
      var c := cs[0];
      assert c in cs && forall d :: d in cs[1..] ==> d in cs;
      var next := AssignSweepAxis(cell, c.axis.parameter, c.value).value;
      AxisIsAssignment(cell, c.axis.parameter, c.value);
      NearMode(c);
      assert AxisWrites(Legacy(cell), c.axis.parameter, c.value) == [Targeted(c)];
      hide AxisWrites, Target;
      if !Apart(Target(c.axis.parameter), p) { TouchesMode(Target(c.axis.parameter), p); }
      WritesFrame(cell, [Targeted(c)], p);
      NearFrame(next, cs[1..], p);
    }
  }

  /** What touches a path below the mode touches the mode. */
  lemma TouchesMode(q: Path, p: Path)
    requires MODE <= q && !Apart(q, p)
    ensures !Apart(p, MODE)
  {
    assert forall i :: 0 <= i < |MODE| ==> q[i] == MODE[i];
    if p <= q {
      assert forall i :: 0 <= i < |p| ==> p[i] == q[i];
    } else {
      assert forall i :: 0 <= i < |q| ==> p[i] == q[i];
    }
  }

  /** The assignments of one axis are compatible and read back right after it. */
  lemma AxisReads(cell: Entries, c: Choice, w: Write)
    requires Shaped(cell) && AssignSweepAxis(cell, c.axis.parameter, c.value).Some?
    requires w in AxisWrites(Legacy(cell), c.axis.parameter, c.value)
    ensures ReadAt(AssignSweepAxis(cell, c.axis.parameter, c.value).value, w.path) == Some(w.value)
  {
    var ws := AxisWrites(Legacy(cell), c.axis.parameter, c.value);
    AxisIsAssignment(cell, c.axis.parameter, c.value);
    hide AssignSweepAxis, Legacy, ReadAt, AssignAll;
    AxisCompatible(Legacy(cell), c);
    WritesRead(cell, ws, w);
  }

  lemma AxisCompatible(legacy: bool, c: Choice)
    ensures Compatible(AxisWrites(legacy, c.axis.parameter, c.value))
  {
    var t := Target(c.axis.parameter);
    assert !ForMoney(c.axis.parameter) ==> t[0] == "params" && "params" != "money_management";
    hide Target, RemovePrefix, ForMoney;
  }

  /** A choice away from the mode reads back when only choices at the mode follow it. */
  lemma FarReads(base: Entries, far: seq<Choice>, c: Choice, near: seq<Choice>, w: Write)
    requires Shaped(base) && AssignAxes(base, far + ([c] + near)).Some?
    requires (forall d :: d in far ==> !AtMode(d)) && !AtMode(c) && (forall d :: d in near ==> AtMode(d))
    requires w in AxisWrites(Legacy(base), c.axis.parameter, c.value)
    ensures ReadAt(AssignAxes(base, far + ([c] + near)).value, w.path) == Some(w.value)
  {
    AssignMore(base, far, [c] + near);
    var mid := AssignAxes(base, far).value;
    AssignMore(mid, [c], near);
    AssignLast(mid, c);
    NearMode(c);
    AxisWritesApart(Legacy(base), c.axis.parameter, c.value);
    assert w.path != [] by { assert Usable(AxisWrites(Legacy(base), c.axis.parameter, c.value)); }
    hide AssignAxes, AssignSweepAxis, Legacy, ReadAt, AxisWrites, Apart, AtMode;
    FarKeep(base, far);
    AxisReads(mid, c, w);
    NearFrame(AssignSweepAxis(mid, c.axis.parameter, c.value).value, near, w.path);
  }

  /** A choice at the mode reads back when it comes last. */
  lemma NearReads(base: Entries, rest: seq<Choice>, c: Choice, w: Write)
    requires Shaped(base) && AssignAxes(base, rest + [c]).Some? && AtMode(c)
    requires w in AxisWrites(Legacy(base), c.axis.parameter, c.value)
    ensures ReadAt(AssignAxes(base, rest + [c]).value, w.path) == Some(w.value)
  {
    AssignMore(base, rest, [c]);
    var mid := AssignAxes(base, rest).value;
    AssignLast(mid, c);
    NearMode(c);
    assert w in AxisWrites(Legacy(mid), c.axis.parameter, c.value);
    hide AssignAxes, AssignSweepAxis, Legacy, ReadAt, AxisWrites;
    AxisReads(mid, c, w);
  }

  /** Every order of the choices gives one cell. */
  ghost predicate AnyOrder(base: Entries, meta: Entries, baseName: string, cs: seq<Choice>, index: nat)
    requires Shaped(base)
  {
    forall us: seq<Choice> :: multiset(us) == multiset(cs) ==>
      CellFor(base, meta, baseName, us, index) == CellFor(base, meta, baseName, cs, index)
  }

  /** An order in which the assignment is done after all that could touch it or decide about it. */
  lemma LateOrder(base: Entries, cs: seq<Choice>, k: nat, w: Write) returns (us: seq<Choice>)
    requires Shaped(base) && k < |cs| && w in AxisWrites(Legacy(base), cs[k].axis.parameter, cs[k].value)
    ensures multiset(us) == multiset(cs)
    ensures AssignAxes(base, us).Some? ==> ReadAt(AssignAxes(base, us).value, w.path) == Some(w.value)
  {
    hide *;
    var c, rest := cs[k], cs[..k] + cs[k + 1..];
    TakeOut(cs, k);
    if AtMode(c) {
      us := rest + [c];
      if AssignAxes(base, us).Some? { NearReads(base, rest, c, w); }
    } else {
      var far, near := Partition(rest);
      us := far + ([c] + near);
      Concat(far, [c], near);
      if AssignAxes(base, us).Some? { FarReads(base, far, c, near, w); }
    }
  }

  /** A cell that every order gives reads every assignment back. */
  lemma AnyOrderKeeps(base: Entries, meta: Entries, baseName: string, cs: seq<Choice>, index: nat, w: Write)
    requires Shaped(base) && AnyOrder(base, meta, baseName, cs, index)
    requires CellFor(base, meta, baseName, cs, index).Some? && w in PlainWrites(Legacy(base), cs)
    ensures ReadAt(CellFor(base, meta, baseName, cs, index).value, w.path) == Some(w.value)
  {
    hide ReadAt, AssignAxes, AxisWrites, PlainWrites, Legacy, Labelled, CellFor;
    var k := PlainFrom(Legacy(base), cs, w);
    var us := LateOrder(base, cs, k, w);
    assert CellFor(base, meta, baseName, us, index) == CellFor(base, meta, baseName, cs, index);
    CellOfFilled(base, meta, baseName, us, index);
    AxisPlaces(Legacy(base), cs[k], w);
    LabelledSame(AssignAxes(base, us).value, meta, baseName, index, w.path);
  }

  lemma AxisPlaces(legacy: bool, c: Choice, w: Write)
    requires w in AxisWrites(legacy, c.axis.parameter, c.value)
    ensures w.path != [] && w.path[0] in {"params", "money_management"} && w.value == c.value
  {
    hide RemovePrefix, ForMoney;
  }

  lemma LabelledSame(filled: Entries, meta: Entries, baseName: string, index: nat, p: Path)
    requires p != [] && p[0] in {"params", "money_management"}
    ensures ReadAt(Labelled(filled, meta, baseName, index), p) == ReadAt(filled, p)
  {
    hide ReadAt, RunName;
    LabelsElsewhere(filled, Labelled(filled, meta, baseName, index), p);
  }

  lemma {:induction false} PlainScalars(legacy: bool, cs: seq<Choice>, w: Write)
    requires Scalars(cs) && w in PlainWrites(legacy, cs)
    ensures w.value.Scalar? && w.path != []
  {
    hide AxisWrites, PlainWrites;
    var k := PlainFrom(legacy, cs, w);
    AxisPlaces(legacy, cs[k], w);
    assert cs[k] in cs;
  }

  /**
   * For a cell that ends with the mode of its base, every order of the axes gives the same cell exactly
   * when every two of the assignments are apart or equal.
   */
  lemma AxisOrderFree(base: Entries, meta: Entries, baseName: string, cs: seq<Choice>, index: nat)
    requires Shaped(base) && Scalars(cs) && CellFor(base, meta, baseName, cs, index).Some?
    requires ReadAt(CellFor(base, meta, baseName, cs, index).value, MODE) == ReadAt(base, MODE)
    ensures (forall us: seq<Choice> :: multiset(us) == multiset(cs) ==>
               CellFor(base, meta, baseName, us, index) == CellFor(base, meta, baseName, cs, index))
       <==> (forall a, b :: a in PlainWrites(Legacy(base), cs) && b in PlainWrites(Legacy(base), cs) ==>
               a == b || Apart(a.path, b.path))
  {
    var ws := PlainWrites(Legacy(base), cs);
    var cell := CellFor(base, meta, baseName, cs, index).value;
    CellOfFilled(base, meta, baseName, cs, index);
    hide ReadAt, AssignAxes, PlainWrites, Legacy, Labelled, CellFor, Apart, Scalars;
    if AnyOrder(base, meta, baseName, cs, index) {
      forall a, b | a in ws && b in ws ensures a == b || Apart(a.path, b.path) {
        AnyOrderKeeps(base, meta, baseName, cs, index, a);
        AnyOrderKeeps(base, meta, baseName, cs, index, b);
        PlainScalars(Legacy(base), cs, a);
        PlainScalars(Legacy(base), cs, b);
        ScalarsApart(cell, a, b);
      }
    }
    if Compatible(ws) {
      LabelledSame(AssignAxes(base, cs).value, meta, baseName, index, MODE);
      CompatibleSettles(base, cs);
      forall us: seq<Choice> | multiset(us) == multiset(cs)
        ensures CellFor(base, meta, baseName, us, index) == CellFor(base, meta, baseName, cs, index)
      {
        SettledOrderFree(base, meta, baseName, cs, us, index);
      }
    }
  }

  // ---- which cells keep the mode of their base ------------------------------------------------

  /** The settings of each mode a deployment offers, its discriminator included. */
  type Modes = map<string, set<string>>

  const SHIPPED: Modes := map[
    "manual" := {"mode", "leverage", "reward_risk", "atr_stop_multiple"},
    "turtle" := {"mode", "n_period", "n_timeframe", "stop_n_multiple", "leverage_cap"}]

  /** Cell validation refuses a setting that the chosen mode does not have. */
  predicate Accepted(modes: Modes, money: Entries) {
    && "mode" in money && money["mode"].Scalar? && money["mode"].text in modes
    && money.Keys <= modes[money["mode"].text]
  }

  /** A validated configuration, dumped: every setting of its mode is present. */
  predicate Dumped(modes: Modes, money: Entries) {
    Accepted(modes, money) && money.Keys == modes[money["mode"].text]
  }

  /** No mode has all the settings of another one. */
  predicate Separate(modes: Modes) {
    forall m, n :: m in modes && n in modes && modes[m] <= modes[n] ==> m == n
  }

  lemma ShippedSeparate()
    ensures Separate(SHIPPED)
  {
    assert "leverage" in SHIPPED["manual"] && "n_period" in SHIPPED["turtle"];
    assert "leverage" !in SHIPPED["turtle"] by { TurtleHasNoLeverage(); }
    assert "n_period" !in SHIPPED["manual"] by { ManualHasNoPeriod(); }
  }

  lemma TurtleHasNoLeverage()
    ensures "leverage" !in {"mode", "n_period", "n_timeframe", "stop_n_multiple", "leverage_cap"}
  {
    assert "leverage"[0] != "n_period"[0] && "leverage"[0] != "mode"[0];
    assert |"leverage"| != |"leverage_cap"| && |"leverage"| != |"n_timeframe"| && |"leverage"| != |"stop_n_multiple"|;
  }

  lemma ManualHasNoPeriod()
    ensures "n_period" !in {"mode", "leverage", "reward_risk", "atr_stop_multiple"}
  {
    assert "n_period"[0] != "leverage"[0] && "n_period"[0] != "mode"[0];
    assert |"n_period"| != |"reward_risk"| && |"n_period"| != |"atr_stop_multiple"|;
  }

  lemma AxisGrows(cell: Entries, c: Choice)
    requires Shaped(cell) && AssignSweepAxis(cell, c.axis.parameter, c.value).Some?
    ensures var next := AssignSweepAxis(cell, c.axis.parameter, c.value).value;
            cell["money_management"].entries.Keys <= next["money_management"].entries.Keys
  {
    hide PathOf, RemovePrefix, Legacy;
    if ForMoney(c.axis.parameter) {
      var money, path := cell["money_management"].entries, PathOf(c.axis.parameter[|MONEY|..]);
      SlotAssign(money, path, c.value);
      hide Assign, SlotValue;
    } else {
      hide Assign;
    }
  }

  lemma {:induction false} MoneyGrows(cell: Entries, cs: seq<Choice>)
    requires Shaped(cell) && AssignAxes(cell, cs).Some?
    ensures cell["money_management"].entries.Keys <= AssignAxes(cell, cs).value["money_management"].entries.Keys
    decreases |cs|
  {
    hide AssignSweepAxis;
    if cs != [] {
      AxisGrows(cell, cs[0]);
      MoneyGrows(AssignSweepAxis(cell, cs[0].axis.parameter, cs[0].value).value, cs[1..]);
    }
  }

  /**
   * Where no mode has all the settings of another, a cell that validation accepts has the mode of its
   * base: assignments only add settings, and every setting of the base is still there.
   */
  lemma AcceptedKeepsMode(modes: Modes, base: Entries, meta: Entries, baseName: string, cs: seq<Choice>, index: nat)
    requires Separate(modes) && Shaped(base) && Dumped(modes, base["money_management"].entries)
    requires CellFor(base, meta, baseName, cs, index).Some?
    requires Shaped(CellFor(base, meta, baseName, cs, index).value)
    requires Accepted(modes, CellFor(base, meta, baseName, cs, index).value["money_management"].entries)
    ensures ReadAt(CellFor(base, meta, baseName, cs, index).value, MODE) == ReadAt(base, MODE)
  {
    var cell := CellFor(base, meta, baseName, cs, index).value;
    CellOfFilled(base, meta, baseName, cs, index);
    MoneyGrows(base, cs);
    assert cell["money_management"] == AssignAxes(base, cs).value["money_management"];
    hide AssignAxes, CellFor, Labelled;
    var old', new' := base["money_management"].entries, cell["money_management"].entries;
    assert modes[old'["mode"].text] <= modes[new'["mode"].text];
    assert MODE == ["money_management", "mode"];
    MoneyRead(base, "mode");
    MoneyRead(cell, "mode");
  }

  // ---- where the check on names is too weak ----------------------------------------------------

  lemma {:induction false} NoDots(s: string)
    requires '.' !in s
    ensures SplitDots(s) == [s]
    decreases |s|
  {
    if s != "" {
      NoDots(s[1..]);
      assert s == [s[0]] + s[1..];
    }
  }

  /** Two choices are assigned one after the other. */
  lemma TwoChoices(base: Entries, c: Choice, d: Choice)
    requires Shaped(base)
    ensures AssignAxes(base, [c, d]) ==
            match AssignSweepAxis(base, c.axis.parameter, c.value)
            case None => None
            case Some(next) => AssignSweepAxis(next, d.axis.parameter, d.value)
  {
    hide AssignSweepAxis, AssignAxes;
    assert [c, d] == [c] + [d];
    AssignMore(base, [c], [d]);
    AssignLast(base, c);
    if AssignAxes(base, [c]).Some? { AssignLast(AssignAxes(base, [c]).value, d); }
  }

  /** A dictionary with one setting of the money management replaced. */
  function SetMoney(cell: Entries, name: string, v: Tree): (r: Entries)
    requires Shaped(cell)
    ensures Shaped(r)
  {
    cell["money_management" := Dict(cell["money_management"].entries[name := v])]
  }

  /** A parameter that names a setting right below the money management. */
  predicate Names(parameter: string, name: string) {
    ForMoney(parameter) && '.' !in name && RemovePrefix(parameter[|MONEY|..], "params.") == name
  }

  lemma MoneyAxis(cell: Entries, parameter: string, name: string, v: Tree)
    requires Shaped(cell) && Names(parameter, name)
    ensures Target(parameter) == ["money_management", name]
    ensures AssignSweepAxis(cell, parameter, v) == Some(SetMoney(cell, name, v))
  {
    NoDots(name);
    hide ForMoney, RemovePrefix, SplitDots;
  }

  /** What the cell holds right below the money management. */
  lemma MoneyRead(cell: Entries, name: string)
    requires Shaped(cell)
    ensures ReadAt(cell, ["money_management", name]) ==
              var money := cell["money_management"].entries; if name in money then Some(money[name]) else None
  {
    assert ["money_management", name][1..] == [name];
  }

  /** The later of two axes on one setting wins, and nothing else below the money management changes. */
  lemma LaterAxisWins(base: Entries, meta: Entries, baseName: string, index: nat, c: Choice, d: Choice, name: string)
    requires Shaped(base) && Names(c.axis.parameter, name) && Names(d.axis.parameter, name) && name != "mode"
    ensures Target(c.axis.parameter) == Target(d.axis.parameter) == ["money_management", name]
    ensures var cell := CellFor(base, meta, baseName, [c, d], index);
            && cell.Some?
            && ReadAt(cell.value, ["money_management", name]) == Some(d.value)
            && ReadAt(cell.value, MODE) == ReadAt(base, MODE)
  {
    MoneyAxis(base, c.axis.parameter, name, c.value);
    MoneyAxis(SetMoney(base, name, c.value), d.axis.parameter, name, d.value);
    TwoChoices(base, c, d);
    CellOfFilled(base, meta, baseName, [c, d], index);
    hide AssignAxes, AssignSweepAxis, Names, Target, CellFor;
    var filled := SetMoney(SetMoney(base, name, c.value), name, d.value);
    SettingRead(base, meta, baseName, index, filled, name);
  }

  lemma SettingRead(base: Entries, meta: Entries, baseName: string, index: nat, filled: Entries, name: string)
    requires Shaped(base) && Shaped(filled) && name != "mode" && name in filled["money_management"].entries
    requires forall k :: k != name ==>
               var old', new' := base["money_management"].entries, filled["money_management"].entries;
               (k in old' <==> k in new') && (k in old' && k in new' ==> old'[k] == new'[k])
    ensures var cell := Labelled(filled, meta, baseName, index);
            && ReadAt(cell, ["money_management", name]) == Some(filled["money_management"].entries[name])
            && ReadAt(cell, MODE) == ReadAt(base, MODE)
  {
    hide Labelled, ReadAt;
    assert MODE == ["money_management", "mode"];
    LabelledSame(filled, meta, baseName, index, ["money_management", name]);
    LabelledSame(filled, meta, baseName, index, MODE);
    MoneyRead(filled, name);
    MoneyRead(filled, "mode");
    MoneyRead(base, "mode");
  }

  /**
   * The check on axis names lets two axes with one target through. Then, whatever the base and the two
   * values are, no cell holds both values, and the order of the axes decides which one it holds.
   */
  lemma UniqueNamesCanClash(base: Entries, meta: Entries, baseName: string, index: nat, x: Tree, y: Tree)
    requires Shaped(base) && x != y
    ensures var a, b := Axis(MONEY + "leverage", [x, y]), Axis(MONEY + ("params." + "leverage"), [x, y]);
            var one := CellFor(base, meta, baseName, [Choice(a, x), Choice(b, y)], index);
            var other := CellFor(base, meta, baseName, [Choice(b, y), Choice(a, x)], index);
            && NamesUnique([a, b]) && Target(a.parameter) == Target(b.parameter)
            && one.Some? && ReadAt(one.value, Target(a.parameter)) == Some(y)
            && other.Some? && ReadAt(other.value, Target(a.parameter)) == Some(x)
            && ReadAt(one.value, MODE) == ReadAt(base, MODE) == ReadAt(other.value, MODE)
  {
    var a, b := Axis(MONEY + "leverage", [x, y]), Axis(MONEY + ("params." + "leverage"), [x, y]);
    assert "leverage"[0] != 'p' && |"leverage"| != |"mode"|;
    MoneyNames("leverage");
    PairUnique(a, b);
    hide *;
    LaterAxisWins(base, meta, baseName, index, Choice(a, x), Choice(b, y), "leverage");
    LaterAxisWins(base, meta, baseName, index, Choice(b, y), Choice(a, x), "leverage");
  }

  lemma PairUnique(a: Axis, b: Axis)
    requires RemovePrefix(a.parameter, "params.") != RemovePrefix(b.parameter, "params.")
    ensures NamesUnique([a, b])
  {
  }

  /** The two ways to name a setting of the money management are different names. */
  lemma MoneyNames(name: string)
    requires '.' !in name && name != "" && name[0] != 'p'
    ensures var a, b := MONEY + name, MONEY + ("params." + name);
            && RemovePrefix(a, "params.") != RemovePrefix(b, "params.")
            && Names(a, name) && Names(b, name)
  {
    var a, b := MONEY + name, MONEY + ("params." + name);
    Removed(MONEY, name);
    Removed(MONEY, "params." + name);
    Removed("params.", name);
    assert a[0] == MONEY[0] && b[0] == MONEY[0] && MONEY[0] != "params."[0];
    assert |a| != |b|;
  }

  lemma Removed(prefix: string, rest: string)
    ensures StartsWith(prefix + rest, prefix) && (prefix + rest)[|prefix|..] == rest
    ensures RemovePrefix(prefix + rest, prefix) == rest
  {
    assert (prefix + rest)[..|prefix|] == prefix;
  }

  /**
   * In the legacy branch the names do not even look alike: the axis on the parameter writes the setting
   * that the other axis writes, so the later of the two decides it.
   */
  lemma LegacyNamesClash(base: Entries, meta: Entries, baseName: string, index: nat, x: Tree, y: Tree)
    requires Shaped(base) && Legacy(base) && x != y
    ensures var a, b := Axis("leverage", [x, y]), Axis(MONEY + "leverage", [x, y]);
            var one := CellFor(base, meta, baseName, [Choice(a, x), Choice(b, y)], index);
            var other := CellFor(base, meta, baseName, [Choice(b, y), Choice(a, x)], index);
            && NamesUnique([a, b])
            && one.Some? && ReadAt(one.value, ["money_management", "leverage"]) == Some(y)
            && other.Some? && ReadAt(other.value, ["money_management", "leverage"]) == Some(x)
            && ReadAt(one.value, MODE) == ReadAt(base, MODE) == ReadAt(other.value, MODE)
  {
    var name := "leverage";
    var a, b := Axis(name, [x, y]), Axis(MONEY + name, [x, y]);
    assert name[0] != 'p' && |name| != |"mode"| && name[0] != MONEY[0] && name[0] != "params."[0];
    MoneyNames(name);
    assert RemovePrefix(MONEY + name, "params.")[0] == MONEY[0] by { assert (MONEY + name)[0] != "params."[0]; }
    PairUnique(a, b);
    assert LegacyName(name);
    hide *;
    LegacyThenMoney(base, meta, baseName, index, Choice(a, x), Choice(b, y), name);
  }

  lemma LegacyThenMoney(base: Entries, meta: Entries, baseName: string, index: nat, c: Choice, d: Choice, name: string)
    requires Shaped(base) && Legacy(base) && name != "mode"
    requires c.axis.parameter == name && LegacyName(name) && Names(d.axis.parameter, name)
    ensures var one := CellFor(base, meta, baseName, [c, d], index);
            var other := CellFor(base, meta, baseName, [d, c], index);
            && one.Some? && ReadAt(one.value, ["money_management", name]) == Some(d.value)
            && other.Some? && ReadAt(other.value, ["money_management", name]) == Some(c.value)
            && ReadAt(one.value, MODE) == ReadAt(base, MODE) == ReadAt(other.value, MODE)
  {
    var after := SetMoney(base, name, d.value);
    assert Legacy(after);
    TwoChoices(base, c, d);
    TwoChoices(base, d, c);
    CellOfFilled(base, meta, baseName, [c, d], index);
    CellOfFilled(base, meta, baseName, [d, c], index);
    hide AssignAxes, AssignSweepAxis, Names, LegacyName, ReadAt, Legacy, CellFor, Labelled;
    LegacyAxis(base, name, c.value);
    var both := SetMoney(SetParam(base, name, c.value), name, c.value);
    MoneyAxis(both, d.axis.parameter, name, d.value);
    SettingRead(base, meta, baseName, index, SetMoney(both, name, d.value), name);
    MoneyAxis(base, d.axis.parameter, name, d.value);
    LegacyAxis(after, name, c.value);
    SettingRead(base, meta, baseName, index, SetMoney(SetParam(after, name, c.value), name, c.value), name);
  }

  /** A parameter that is a legacy name as it stands. */
  predicate LegacyName(name: string) {
    !ForMoney(name) && RemovePrefix(name, "params.") == name && '.' !in name && name in LEGACY_NAMES
  }

  function SetParam(cell: Entries, name: string, v: Tree): (r: Entries)
    requires Shaped(cell)
    ensures Shaped(r)
  {
    cell["params" := Dict(cell["params"].entries[name := v])]
  }

  /** An axis on a legacy name sets the parameter, and in the legacy branch the money-management entry too. */
  lemma LegacyAxis(cell: Entries, name: string, v: Tree)
    requires Shaped(cell) && LegacyName(name)
    ensures AssignSweepAxis(cell, name, v) ==
              Some(if Legacy(cell) then SetMoney(SetParam(cell, name, v), name, v) else SetParam(cell, name, v))
  {
    NoDots(name);
    hide SplitDots, RemovePrefix, ForMoney;
    assert Assign(cell["params"].entries, [name], v) == Some(cell["params"].entries[name := v]);
    assert Legacy(SetParam(cell, name, v)) == Legacy(cell);
    hide Legacy, Assign;
  }

  // ---- the cartesian product -----------------------------------------------------------------

  function PrependAll(x: Tree, s: seq<seq<Tree>>): (r: seq<seq<Tree>>)
    ensures |r| == |s|
  {
    if s == [] then [] else [[x] + s[0]] + PrependAll(x, s[1..])
  }

  lemma {:induction false} PrependAt(x: Tree, s: seq<seq<Tree>>, i: nat)
    requires i < |s|
    ensures PrependAll(x, s)[i] == [x] + s[i]
    decreases |s|
  {
    if i > 0 { PrependAt(x, s[1..], i - 1); }
  }

  function ProductFrom(xs: seq<Tree>, inner: seq<seq<Tree>>): seq<seq<Tree>> {
    if xs == [] then [] else PrependAll(xs[0], inner) + ProductFrom(xs[1..], inner)
  }

  /** `itertools.product`: the last factor varies fastest. */
  function Product(sets: seq<seq<Tree>>): seq<seq<Tree>> {
    if sets == [] then [[]] else ProductFrom(sets[0], Product(sets[1..]))
  }

  function CellCount(sets: seq<seq<Tree>>): nat {
    if sets == [] then 1 else |sets[0]| * CellCount(sets[1..])
  }

  /** The mixed-radix digits of an index: one index into each axis. */
  function IndexVector(sets: seq<seq<Tree>>, i: nat): seq<nat>
    requires i < CellCount(sets)
    decreases |sets|
  {
    if sets == [] then [] else
      var m := CellCount(sets[1..]);
      SplitIndex(|sets[0]|, m, i);
      [i / m] + IndexVector(sets[1..], i % m)
  }

  lemma ScaleOrder(q: int, n: int, m: nat)
    ensures q >= n ==> q * m >= n * m
    ensures q * m == (q - 1) * m + m
  {
    if q >= n { assert (q - n) * m >= 0; }
  }

  lemma SplitIndex(n: nat, m: nat, i: nat)
    requires i < n * m
    ensures m > 0 && 0 <= i / m < n && 0 <= i % m < m && i == i / m * m + i % m
  {
    ScaleOrder(i / m, n, m);
  }

  lemma {:induction false} ProductFromAt(xs: seq<Tree>, inner: seq<seq<Tree>>, q: nat, r: nat)
    requires q < |xs| && r < |inner|
    ensures q * |inner| + r < |ProductFrom(xs, inner)|
    ensures ProductFrom(xs, inner)[q * |inner| + r] == [xs[q]] + inner[r]
    decreases |xs|
  {
    hide PrependAll;
    var m := |inner|;
    var first, rest := PrependAll(xs[0], inner), ProductFrom(xs[1..], inner);
    if q == 0 {
      PrependAt(xs[0], inner, r);
    } else {
      ProductFromAt(xs[1..], inner, q - 1, r);
      ScaleOrder(q, q, m);
      var o := (q - 1) * m + r;
      SecondPart(first, rest, o);
      assert q * m + r == |first| + o;
    }
  }

  lemma SecondPart<T>(a: seq<T>, b: seq<T>, o: nat)
    requires o < |b|
    ensures (a + b)[|a| + o] == b[o]
  {
  }

  lemma {:induction false} ProductFromSize(xs: seq<Tree>, inner: seq<seq<Tree>>)
    ensures |ProductFrom(xs, inner)| == |xs| * |inner|
    decreases |xs|
  {
    if xs != [] {
      ProductFromSize(xs[1..], inner);
      assert |xs| * |inner| == |inner| + (|xs| - 1) * |inner|;
    }
  }

  /** The combination that an index vector selects. */
  ghost predicate Selects(sets: seq<seq<Tree>>, v: seq<nat>, combination: seq<Tree>) {
    && |v| == |sets| == |combination|
    && forall k :: 0 <= k < |sets| ==> v[k] < |sets[k]| && combination[k] == sets[k][v[k]]
  }

  lemma SelectsMore(sets: seq<seq<Tree>>, q: nat, v: seq<nat>, combination: seq<Tree>)
    requires sets != [] && q < |sets[0]| && Selects(sets[1..], v, combination)
    ensures Selects(sets, [q] + v, [sets[0][q]] + combination)
  {
    forall k | 0 < k < |sets| ensures v[k - 1] < |sets[k]| && combination[k - 1] == sets[k][v[k - 1]] {
      assert sets[k] == sets[1..][k - 1];
    }
  }

  /** Cell number `i` takes from each axis the value at its mixed-radix digit. */
  lemma {:induction false} ProductAt(sets: seq<seq<Tree>>, i: nat)
    requires i < CellCount(sets)
    ensures |Product(sets)| == CellCount(sets)
    ensures Selects(sets, IndexVector(sets, i), Product(sets)[i])
    decreases |sets|
  {
    hide ProductFrom, Selects;
    if sets == [] {
      EmptySelects();
    } else {
      var inner := Product(sets[1..]);
      var m := CellCount(sets[1..]);
      SplitIndex(|sets[0]|, m, i);
      ProductAt(sets[1..], i % m);
      ProductFromSize(sets[0], inner);
      ProductFromAt(sets[0], inner, i / m, i % m);
      SelectsMore(sets, i / m, IndexVector(sets[1..], i % m), inner[i % m]);
    }
  }

  lemma EmptySelects()
    ensures Selects([], [], [])
  {
  }

  /** Different cells have different index vectors, so every combination occurs exactly once. */
  lemma {:induction false} IndexVectorsDiffer(sets: seq<seq<Tree>>, i: nat, j: nat)
    requires i < CellCount(sets) && j < CellCount(sets) && IndexVector(sets, i) == IndexVector(sets, j)
    ensures i == j
    decreases |sets|
  {
    if sets != [] {
      var m := CellCount(sets[1..]);
      SplitIndex(|sets[0]|, m, i);
      SplitIndex(|sets[0]|, m, j);
      var a, b := IndexVector(sets, i), IndexVector(sets, j);
      assert a[0] == b[0] && a[1..] == b[1..];
      IndexVectorsDiffer(sets[1..], i % m, j % m);
    }
  }

  // ---- the plan --------------------------------------------------------------------------------

  function Values(axes: seq<Axis>): (r: seq<seq<Tree>>)
    ensures |r| == |axes| && forall i :: 0 <= i < |axes| ==> r[i] == axes[i].values
  {
    if axes == [] then [] else [axes[0].values] + Values(axes[1..])
  }

  ghost predicate NamesUnique(axes: seq<Axis>) {
    forall i, j :: 0 <= i < j < |axes| ==>
      RemovePrefix(axes[i].parameter, "params.") != RemovePrefix(axes[j].parameter, "params.")
  }

  lemma CombinationSize(axes: seq<Axis>, i: nat)
    requires i < CellCount(Values(axes))
    ensures i < |Product(Values(axes))| && |Product(Values(axes))[i]| == |axes|
  {
    ProductAt(Values(axes), i);
  }

  ghost function Cell(base: Entries, meta: Entries, baseName: string, axes: seq<Axis>, i: nat): Option<Entries>
    requires Shaped(base) && i < CellCount(Values(axes))
  {
    CombinationSize(axes, i);
    CellFor(base, meta, baseName, Zip(axes, Product(Values(axes))[i]), i)
  }

  /** One cell is the base with the axes assigned and the labels put on. */
  lemma CellSteps(base: Entries, meta: Entries, baseName: string, axes: seq<Axis>, i: nat)
    requires Shaped(base) && i < CellCount(Values(axes))
    ensures i < |Product(Values(axes))| && |Product(Values(axes))[i]| == |axes|
    ensures var filled := AssignAxes(base, Zip(axes, Product(Values(axes))[i]));
            Cell(base, meta, baseName, axes, i) ==
              if filled.None? then None else Some(Labelled(filled.value, meta, baseName, i))
  {
    hide AssignAxes, Product, Values, Labelled;
    CombinationSize(axes, i);
  }

  method NamesAreUnique(axes: seq<Axis>) returns (unique: bool)
    ensures unique <==> NamesUnique(axes)
  {
    var seen: set<string> := {};
    for i := 0 to |axes|
      invariant NamesUnique(axes[..i])
      invariant seen == set a | a in axes[..i] :: RemovePrefix(a.parameter, "params.")
    {
      var name := RemovePrefix(axes[i].parameter, "params.");
      if name in seen {
        ghost var a :| a in axes[..i] && RemovePrefix(a.parameter, "params.") == name;
        ghost var k :| 0 <= k < i && axes[k] == a;
        return false;
      }
      assert axes[..i + 1] == axes[..i] + [axes[i]];
      forall k | 0 <= k < i ensures RemovePrefix(axes[k].parameter, "params.") != name {
        assert axes[..i][k] in axes[..i];
      }
      seen := seen + {name};
    }
    assert axes[..|axes|] == axes;
    unique := true;
  }

  /** The inner loop over the axes of one cell; `None` when an axis crosses a value. */
  method FillCell(base: Entries, axes: seq<Axis>, combination: seq<Tree>) returns (r: Option<Entries>)
    requires Shaped(base) && |axes| == |combination|
    ensures r == AssignAxes(base, Zip(axes, combination))
  {
    hide AssignSweepAxis;
    var cell := base;
    for i := 0 to |axes|
      invariant Shaped(cell)
      invariant AssignAxes(base, Zip(axes, combination)) == AssignAxes(cell, Zip(axes[i..], combination[i..]))
    {
      assert axes[i..][1..] == axes[i + 1..] && combination[i..][1..] == combination[i + 1..];
      var next := AssignSweepAxis(cell, axes[i].parameter, combination[i]);
      if next.None? {
        return None;
      }
      cell := next.value;
    }
    r := Some(cell);
  }

  // ---- run names -------------------------------------------------------------------------------

  lemma ShortDigits(n: nat)
    requires n < 1000
    ensures |D.Digits(n)| <= 3
  {
    if n >= 100 {
      assert |D.Digits(n)| == |D.Digits(n / 10)| + 1;
      assert |D.Digits(n / 10)| == |D.Digits(n / 10 / 10)| + 1;
    }
  }

  /** A run name of a plan has at most 24 characters. */
  lemma RunNameShort(baseName: string, index: nat)
    requires index < MAX_CELLS
    ensures |RunName(baseName, index)| <= 24
  {
    ShortDigits(index + 1);
  }

  function AfterLastDash(x: string): string {
    if x == "" || x[|x| - 1] == '-' then "" else AfterLastDash(x[..|x| - 1]) + [x[|x| - 1]]
  }

  lemma {:induction false} AfterDash(a: string, s: string)
    requires '-' !in s
    ensures AfterLastDash(a + "-" + s) == s
    decreases |s|
  {
    var x := a + "-" + s;
    if s != "" {
      var m := |s| - 1;
      assert x[|x| - 1] == s[m] && s[m] in s;
      assert x[..|x| - 1] == a + "-" + s[..m];
      AfterDash(a, s[..m]);
      assert s == s[..m] + [s[m]];
    }
  }

  lemma NameSuffix(baseName: string, i: nat)
    ensures AfterLastDash(RunName(baseName, i)) == "g" + D.Digits(i + 1)
  {
    hide AfterLastDash, StripDashes;
    var s := "g" + D.Digits(i + 1);
    assert '-' !in s;
    var keep := 24 - |s| - 1;
    var cut := if keep >= |baseName| then baseName
               else if keep >= 0 then baseName[..keep]
               else if -keep >= |baseName| then "" else baseName[..|baseName| + keep];
    AfterDash(StripDashes(cut), s);
  }

  /** Run names of different cells differ, whatever the base name. */
  lemma RunNamesDistinct(baseName: string, i: nat, j: nat)
    requires RunName(baseName, i) == RunName(baseName, j)
    ensures i == j
  {
    var s, t := "g" + D.Digits(i + 1), "g" + D.Digits(j + 1);
    NameSuffix(baseName, i);
    NameSuffix(baseName, j);
    assert D.Digits(i + 1) == s[1..] && D.Digits(j + 1) == t[1..];
    D.DigitsRead(i + 1);
    D.DigitsRead(j + 1);
  }

  /** The text is a prefix without trailing dashes, and everything cut from its end is dashes. */
  ghost predicate Trimmed(text: string, prefix: string) {
    && prefix <= text
    && (prefix != "" ==> prefix[|prefix| - 1] != '-')
    && forall k :: |prefix| <= k < |text| ==> text[k] == '-'
  }

  lemma {:induction false} StripTrims(s: string)
    ensures Trimmed(s, StripDashes(s))
    decreases |s|
  {
    if s != "" && s[|s| - 1] == '-' {
      StripTrims(s[..|s| - 1]);
    }
  }

  /**
   * The run name and the sweep entry of cell `i`: as much of the base name as leaves room in 24 characters,
   * without trailing dashes, then the number of the cell; and the plan's entry with the label of the cell.
   */
  ghost predicate NamedFor(cell: Entries, meta: Entries, baseName: string, i: nat) {
    var number := D.Digits(i + 1);
    && |number| <= 3
    && (exists prefix ::
          && Trimmed(if |baseName| > 22 - |number| then baseName[..22 - |number|] else baseName, prefix)
          && "run_name" in cell && cell["run_name"] == Scalar(prefix + "-g" + number)
          && |prefix + "-g" + number| <= 24)
    && "sweep" in cell && cell["sweep"] == Dict(meta["fold_label" := Scalar("grid-" + number)])
  }

  /** All cells have a run name and no two have the same. */
  ghost predicate NamesDiffer(configs: seq<Entries>) {
    && (forall i :: 0 <= i < |configs| ==> "run_name" in configs[i])
    && (forall i, j :: 0 <= i < j < |configs| ==> configs[i]["run_name"] != configs[j]["run_name"])
  }

  lemma JoinSuffix(prefix: string, number: string)
    ensures prefix + "-" + ("g" + number) == prefix + "-g" + number
  {
  }

  lemma LabelsName(cell: Entries, meta: Entries, baseName: string, i: nat)
    requires i < MAX_CELLS
    ensures NamedFor(Labelled(cell, meta, baseName, i), meta, baseName, i)
    ensures "run_name" in Labelled(cell, meta, baseName, i)
    ensures Labelled(cell, meta, baseName, i)["run_name"] == Scalar(RunName(baseName, i))
  {
    hide StripDashes, Trimmed;
    ShortDigits(i + 1);
    var number := D.Digits(i + 1);
    hide D.Digits;
    var cut := if |baseName| > 22 - |number| then baseName[..22 - |number|] else baseName;
    StripTrims(cut);
    JoinSuffix(StripDashes(cut), number);
  }

  /** The cells of a plan carry their own names and labels. */
  lemma CellNamed(base: Entries, meta: Entries, baseName: string, axes: seq<Axis>, i: nat, cell: Entries)
    requires Shaped(base) && i < CellCount(Values(axes)) && i < MAX_CELLS
    requires Cell(base, meta, baseName, axes, i) == Some(cell)
    ensures NamedFor(cell, meta, baseName, i)
    ensures "run_name" in cell && cell["run_name"] == Scalar(RunName(baseName, i))
  {
    hide *;
    CellSteps(base, meta, baseName, axes, i);
    LabelsName(AssignAxes(base, Zip(axes, Product(Values(axes))[i])).value, meta, baseName, i);
  }

  /** So every cell is named for its number, and no two cells share a name. */
  lemma PlanNamed(base: Entries, meta: Entries, baseName: string, axes: seq<Axis>, configs: seq<Entries>)
    requires Shaped(base) && |configs| == CellCount(Values(axes)) <= MAX_CELLS
    requires forall i :: 0 <= i < |configs| ==> Cell(base, meta, baseName, axes, i) == Some(configs[i])
    ensures forall i :: 0 <= i < |configs| ==> NamedFor(configs[i], meta, baseName, i)
    ensures NamesDiffer(configs)
  {
    hide Cell, NamedFor, RunName, Values, Shaped;
    forall i | 0 <= i < |configs|
      ensures NamedFor(configs[i], meta, baseName, i)
      ensures "run_name" in configs[i] && configs[i]["run_name"] == Scalar(RunName(baseName, i))
    {
      CellNamed(base, meta, baseName, axes, i, configs[i]);
    }
    forall i, j | 0 <= i < j < |configs| ensures configs[i]["run_name"] != configs[j]["run_name"] {
      if RunName(baseName, i) == RunName(baseName, j) { RunNamesDistinct(baseName, i, j); }
    }
  }

  // ---- the grid --------------------------------------------------------------------------------

  lemma CellLimit()
    ensures MAX_CELLS == 100
  {
  }

  /** The grid part of `_prepare_sweep`: `None` for repeated names, too many cells or a crossed value. */
  method PrepareGrid(base: Entries, meta: Entries, baseName: string, axes: seq<Axis>)
    returns (r: Option<seq<Entries>>)
    requires Shaped(base)
    ensures r.Some? <==>
              && NamesUnique(axes) && CellCount(Values(axes)) <= 100
              && forall i :: 0 <= i < CellCount(Values(axes)) ==> Cell(base, meta, baseName, axes, i).Some?
    ensures r.Some? ==> |r.value| == CellCount(Values(axes))
    ensures r.Some? ==> forall i :: 0 <= i < |r.value| ==> Cell(base, meta, baseName, axes, i) == Some(r.value[i])
    ensures r.Some? ==> forall i :: 0 <= i < |r.value| ==> NamedFor(r.value[i], meta, baseName, i)
    ensures r.Some? ==> NamesDiffer(r.value)
  {
    CellLimit();
    hide *;
    var unique := NamesAreUnique(axes);
    if !unique || CellCount(Values(axes)) > MAX_CELLS {
      return None;
    }
    var configs: seq<Entries> := [];
    for index := 0 to CellCount(Values(axes))
      invariant |configs| == index
      invariant forall i :: 0 <= i < index ==> Cell(base, meta, baseName, axes, i) == Some(configs[i])
    {
      CellSteps(base, meta, baseName, axes, index);
      var combination := Product(Values(axes))[index];
      var cell := FillCell(base, axes, combination);
      if cell.None? {
        return None;
      }
      configs := configs + [Labelled(cell.value, meta, baseName, index)];
    }
    PlanNamed(base, meta, baseName, axes, configs);
    r := Some(configs);
  }
}
