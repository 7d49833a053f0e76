/** Nested assignment of sweep values, and what lists of such assignments leave behind. */
module Sweep {
  import opened Sequences
  import opened Sorting

  // ---- nested dictionaries -----------------------------------------------------------------

  /** A configuration value: null, a value that is not a dictionary, or a dictionary. */
  datatype Tree = Null | Scalar(text: string) | Dict(entries: Entries)

  type Entries = map<string, Tree>
  type Path = seq<string>

  /** The dictionary a step of the path walks into; a missing or null entry is replaced by a fresh one. */
  function Nested(m: Entries, key: string): Option<Entries> {
    if key !in m || m[key] == Null then Some(map[])
    else if m[key].Dict? then Some(m[key].entries)
    else None
  }

  /** `_assign_axis` after its path is split; `None` when the path crosses a value that is no dictionary. */
  function Assign(m: Entries, path: Path, v: Tree): Option<Entries>
    requires path != []
    decreases |path|
  {
    if |path| == 1 then Some(m[path[0] := v]) else
      match Nested(m, path[0])
      case None => None
      case Some(inner) =>
        match Assign(inner, path[1..], v)
        case None => None
        case Some(updated) => Some(m[path[0] := Dict(updated)])
  }

  function ReadAt(m: Entries, path: Path): Option<Tree>
    requires path != []
    decreases |path|
  {
    if path[0] !in m then None
    else if |path| == 1 then Some(m[path[0]])
    else if m[path[0]].Dict? then ReadAt(m[path[0]].entries, path[1..])
    else None
  }

  /** Neither path is a prefix of the other. */
  predicate Apart(p: Path, q: Path) { !(p <= q) && !(q <= p) }

  lemma ApartTails(p: Path, q: Path)
    requires Apart(p, q) && p != [] && q != [] && p[0] == q[0]
    ensures |p| > 1 && |q| > 1 && Apart(p[1..], q[1..])
  {
    assert p == [p[0]] + p[1..] && q == [q[0]] + q[1..];
  }

  /** An assigned path reads back the assigned value. */
  lemma {:induction false} AssignReads(m: Entries, p: Path, v: Tree)
    requires p != [] && Assign(m, p, v).Some?
    ensures ReadAt(Assign(m, p, v).value, p) == Some(v)
    decreases |p|
  {
    if |p| > 1 { AssignReads(Nested(m, p[0]).value, p[1..], v); }
  }

  /** Every path apart from the assigned one reads what it read before. */
  lemma {:induction false} AssignFrames(m: Entries, p: Path, v: Tree, q: Path)
    requires p != [] && q != [] && Assign(m, p, v).Some? && Apart(p, q)
    ensures ReadAt(Assign(m, p, v).value, q) == ReadAt(m, q)
    decreases |p|
  {
    if p[0] == q[0] {
      ApartTails(p, q);
      AssignFrames(Nested(m, p[0]).value, p[1..], v, q[1..]);
    }
  }

  function Then(r: Option<Entries>, p: Path, v: Tree): Option<Entries>
    requires p != []
  {
    match r
    case None => None
    case Some(m) => Assign(m, p, v)
  }

  /** Assignments to paths that are apart commute, failures included. */
  lemma {:induction false} AssignCommutes(m: Entries, p: Path, v: Tree, q: Path, w: Tree)
    requires p != [] && q != [] && Apart(p, q)
    ensures Then(Assign(m, p, v), q, w) == Then(Assign(m, q, w), p, v)
    decreases |p|
  {
    if p[0] == q[0] {
      ApartTails(p, q);
      var k := p[0];
      match Nested(m, k)
      case None =>
      case Some(inner) =>
        AssignCommutes(inner, p[1..], v, q[1..], w);
        InnerThen(m, k, inner, p, v, q, w);
        InnerThen(m, k, inner, q, w, p, v);
    } else {
      OuterThen(m, p, v, q, w);
    }
  }

  /** Two assignments below one key are two assignments inside its dictionary. */
  lemma InnerThen(m: Entries, k: string, inner: Entries, p: Path, v: Tree, q: Path, w: Tree)
    requires |p| > 1 && |q| > 1 && p[0] == k && q[0] == k && Nested(m, k) == Some(inner)
    ensures Then(Assign(m, p, v), q, w) ==
            match Then(Assign(inner, p[1..], v), q[1..], w)
            case None => None
            case Some(both) => Some(m[k := Dict(both)])
  {
    match Assign(inner, p[1..], v)
    case None =>
    case Some(first) =>
      var m1 := m[k := Dict(first)];
      assert Nested(m1, k) == Some(first);
      match Assign(first, q[1..], w)
      case None =>
      case Some(both) => assert m1[k := Dict(both)] == m[k := Dict(both)];
  }

  lemma OuterThen(m: Entries, p: Path, v: Tree, q: Path, w: Tree)
    requires p != [] && q != [] && p[0] != q[0]
    ensures Then(Assign(m, p, v), q, w) == Then(Assign(m, q, w), p, v)
  {
    hide SlotValue, Assign;
    var a, b := SlotValue(m, p, v), SlotValue(m, q, w);
    SlotAssign(m, p, v);
    SlotAssign(m, q, w);
    if a.Some? {
      SlotAssign(m[p[0] := a.value], q, w);
      SlotElsewhere(m, p[0], a.value, q, w);
    }
    if b.Some? {
      SlotAssign(m[q[0] := b.value], p, v);
      SlotElsewhere(m, q[0], b.value, p, v);
    }
    if a.Some? && b.Some? {
      assert m[p[0] := a.value][q[0] := b.value] == m[q[0] := b.value][p[0] := a.value];
    }
  }

  /** The new value of the first key of the path. */
  function SlotValue(m: Entries, p: Path, v: Tree): Option<Tree>
    requires p != []
  {
    if |p| == 1 then Some(v) else
      match Nested(m, p[0])
      case None => None
      case Some(inner) => match Assign(inner, p[1..], v) case None => None case Some(u) => Some(Dict(u))
  }

  lemma SlotElsewhere(m: Entries, k: string, t: Tree, q: Path, w: Tree)
    requires q != [] && q[0] != k
    ensures SlotValue(m[k := t], q, w) == SlotValue(m, q, w)
  {
  }

  lemma SlotAssign(m: Entries, p: Path, v: Tree)
    requires p != []
    ensures Assign(m, p, v) == match SlotValue(m, p, v) case None => None case Some(t) => Some(m[p[0] := t])
  {
  }

  // ---- a list of writes -------------------------------------------------------------------

  datatype Write = Write(path: Path, value: Tree)

  ghost predicate Usable(ws: seq<Write>) { forall i :: 0 <= i < |ws| ==> ws[i].path != [] }

  ghost function AssignAll(r: Option<Entries>, ws: seq<Write>): Option<Entries>
    requires Usable(ws)
    decreases |ws|
  {
    if ws == [] then r else AssignAll(Then(r, ws[0].path, ws[0].value), ws[1..])
  }

  lemma {:induction false} FailureStays(ws: seq<Write>)
    requires Usable(ws)
    ensures AssignAll(None, ws) == None
    decreases |ws|
  {
    if ws != [] { FailureStays(ws[1..]); }
  }

  /** Every two writes have paths that are apart, or they write one value to one path. */
  ghost predicate Compatible(ws: seq<Write>) {
    && Usable(ws)
    && forall a, b :: a in ws && b in ws ==> a == b || Apart(a.path, b.path)
  }

  /** A path apart from every write reads what it read before. */
  lemma {:induction false} WritesFrame(m: Entries, ws: seq<Write>, q: Path)
    requires Usable(ws) && q != [] && AssignAll(Some(m), ws).Some?
    requires forall i :: 0 <= i < |ws| ==> Apart(ws[i].path, q)
    ensures ReadAt(AssignAll(Some(m), ws).value, q) == ReadAt(m, q)
    decreases |ws|
  {
    hide Apart, Assign, ReadAt;
    if ws != [] {
      FailureStays(ws[1..]);
      AssignFrames(m, ws[0].path, ws[0].value, q);
      WritesFrame(Assign(m, ws[0].path, ws[0].value).value, ws[1..], q);
    }
  }

  /** A value in place survives writes that are apart from it or repeat it. */
  lemma {:induction false} WritesKeep(m: Entries, w: Write, ws: seq<Write>)
    requires Usable(ws) && w.path != [] && AssignAll(Some(m), ws).Some?
    requires forall i :: 0 <= i < |ws| ==> Apart(ws[i].path, w.path) || ws[i] == w
    requires ReadAt(m, w.path) == Some(w.value)
    ensures ReadAt(AssignAll(Some(m), ws).value, w.path) == Some(w.value)
    decreases |ws|
  {
    hide Apart, Assign, ReadAt;
    if ws != [] {
      FailureStays(ws[1..]);
      if ws[0] == w {
        AssignReads(m, w.path, w.value);
      } else {
        AssignFrames(m, ws[0].path, ws[0].value, w.path);
      }
      WritesKeep(Assign(m, ws[0].path, ws[0].value).value, w, ws[1..]);
    }
  }

  lemma {:induction false} AssignAppend(r: Option<Entries>, a: seq<Write>, b: seq<Write>)
    requires Usable(a) && Usable(b)
    ensures Usable(a + b) && AssignAll(r, a + b) == AssignAll(AssignAll(r, a), b)
    decreases |a|
  {
    hide Assign;
    if a == [] {
      assert a + b == b;
    } else {
      assert (a + b)[0] == a[0] && (a + b)[1..] == a[1..] + b;
      AssignAppend(Then(r, a[0].path, a[0].value), a[1..], b);
    }
  }

  /** A last write reads back. */
  lemma LastReads(m: Entries, before: seq<Write>, w: Write)
    requires Usable(before) && w.path != [] && AssignAll(Some(m), before + [w]).Some?
    ensures AssignAll(Some(m), before).Some? && Assign(AssignAll(Some(m), before).value, w.path, w.value).Some?
    ensures AssignAll(Some(m), before + [w]) == Assign(AssignAll(Some(m), before).value, w.path, w.value)
    ensures ReadAt(AssignAll(Some(m), before + [w]).value, w.path) == Some(w.value)
  {
    hide Assign, ReadAt;
    var r := AssignAll(Some(m), before);
    AssignAppend(Some(m), before, [w]);
    assert [w][1..] == [] && AssignAll(r, [w]) == AssignAll(Then(r, w.path, w.value), []);
    AssignReads(r.value, w.path, w.value);
  }

  lemma SplitAt(ws: seq<Write>, w: Write) returns (before: seq<Write>, after: seq<Write>)
    requires Usable(ws) && w in ws
    ensures ws == before + [w] + after
    ensures Usable(before) && Usable(before + [w]) && Usable(after) && w.path != []
    ensures forall i :: 0 <= i < |after| ==> after[i] in ws
  {
    var k :| 0 <= k < |ws| && ws[k] == w;
    before, after := ws[..k], ws[k + 1..];
  }

  /** A write reads back when all others are apart from it or repeat it. */
  lemma WritesRead(m: Entries, ws: seq<Write>, w: Write)
    requires Usable(ws) && w in ws && AssignAll(Some(m), ws).Some?
    requires forall z :: z in ws ==> z == w || Apart(z.path, w.path)
    ensures ReadAt(AssignAll(Some(m), ws).value, w.path) == Some(w.value)
  {
    hide *;
    var before, after := SplitAt(ws, w);
    AssignAppend(Some(m), before + [w], after);
    FailureStays(after);
    LastReads(m, before, w);
    WritesKeep(AssignAll(Some(m), before + [w]).value, w, after);
  }

  /** A path through a scalar reads nothing. */
  lemma {:induction false} ScalarHides(m: Entries, q: Path, w: Tree, p: Path)
    requires q != [] && q < p && w.Scalar? && ReadAt(m, q) == Some(w)
    ensures ReadAt(m, p) == None
    decreases |q|
  {
    if |q| > 1 {
      assert q[1..] < p[1..];
      ScalarHides(m[q[0]].entries, q[1..], w, p[1..]);
    }
  }

  /** A path assigned below another leaves a dictionary there, and cannot pass a scalar. */
  lemma {:induction false} AssignThrough(m: Entries, q: Path, v: Tree, p: Path)
    requires p != [] && p < q && Assign(m, q, v).Some?
    ensures ReadAt(Assign(m, q, v).value, p).Some? && ReadAt(Assign(m, q, v).value, p).value.Dict?
    ensures ReadAt(m, p).Some? ==> !ReadAt(m, p).value.Scalar?
    decreases |p|
  {
    if |p| > 1 {
      assert p[1..] < q[1..];
      AssignThrough(Nested(m, p[0]).value, q[1..], v, p[1..]);
    }
  }

  /** Two scalars read from one dictionary sit on paths that are apart, or they are one entry. */
  lemma ScalarsApart(m: Entries, a: Write, b: Write)
    requires a.path != [] && b.path != [] && a.value.Scalar? && b.value.Scalar?
    requires ReadAt(m, a.path) == Some(a.value) && ReadAt(m, b.path) == Some(b.value)
    ensures Apart(a.path, b.path) || a == b
  {
    if a.path < b.path {
      ScalarHides(m, a.path, a.value, b.path);
    } else if b.path < a.path {
      ScalarHides(m, b.path, b.value, a.path);
    } else if a.path <= b.path || b.path <= a.path {
      assert a.path == b.path;
    }
  }

  /** Writes of scalars all read back exactly when every two are apart or the same write. */
  lemma AllReadBack(m: Entries, ws: seq<Write>)
    requires Usable(ws) && AssignAll(Some(m), ws).Some?
    requires forall w :: w in ws ==> w.value.Scalar?
    ensures (forall w :: w in ws ==> ReadAt(AssignAll(Some(m), ws).value, w.path) == Some(w.value)) <==> Compatible(ws)
  {
    hide ReadAt, AssignAll, Apart;
    var r := AssignAll(Some(m), ws).value;
    if forall w :: w in ws ==> ReadAt(r, w.path) == Some(w.value) {
      forall a, b | a in ws && b in ws ensures a == b || Apart(a.path, b.path) {
        ScalarsApart(r, a, b);
      }
    }
    if Compatible(ws) {
      forall w | w in ws ensures ReadAt(r, w.path) == Some(w.value) {
        WritesRead(m, ws, w);
      }
    }
  }

  /** Some occurrence of the write is followed only by writes apart from it. */
  ghost predicate Survives(ws: seq<Write>, w: Write) {
    exists l :: 0 <= l < |ws| && ws[l] == w && forall j :: l < j < |ws| ==> Apart(ws[j].path, w.path)
  }

  lemma SurvivesMore(before: seq<Write>, z: Write, w: Write)
    requires w.path != []
    ensures Survives(before + [z], w) <==> z == w || (Apart(z.path, w.path) && Survives(before, w))
  {
    var ws, m := before + [z], |before|;
    assert ws[m] == z;
    if Survives(ws, w) && z != w {
      var l :| 0 <= l < |ws| && ws[l] == w && forall j :: l < j < |ws| ==> Apart(ws[j].path, w.path);
      assert before[l] == w && forall j :: l < j < m ==> ws[j] == before[j];
    }
    if Apart(z.path, w.path) && Survives(before, w) {
      var l :| 0 <= l < m && before[l] == w && forall j :: l < j < m ==> Apart(before[j].path, w.path);
      assert ws[l] == w && forall j :: l < j < m ==> ws[j] == before[j];
    }
  }

  /** A single write reads back exactly when it survives the writes after it. */
  lemma {:induction false} ReadsBackExactly(m: Entries, ws: seq<Write>, w: Write)
    requires Usable(ws) && w in ws && AssignAll(Some(m), ws).Some?
    requires forall v :: v in ws ==> v.value.Scalar?
    ensures ReadAt(AssignAll(Some(m), ws).value, w.path) == Some(w.value) <==> Survives(ws, w)
    decreases |ws|
  {
    hide Assign, ReadAt, Apart, AssignAll, Survives;
    var n := |ws| - 1;
    var before, z := ws[..n], ws[n];
    assert ws == before + [z];
    LastReads(m, before, z);
    SurvivesMore(before, z, w);
    var mid := AssignAll(Some(m), before).value;
    if z != w {
      if Apart(z.path, w.path) {
        AssignFrames(mid, z.path, z.value, w.path);
        ReadsBackExactly(m, before, w);
      } else if ReadAt(AssignAll(Some(m), ws).value, w.path) == Some(w.value) {
        ScalarsApart(AssignAll(Some(m), ws).value, z, w);
        ApartFlips(z.path, w.path);
      }
    }
  }

  lemma ApartFlips(p: Path, q: Path)
    ensures Apart(p, q) <==> Apart(q, p)
  {
  }

  // ---- the order of the writes --------------------------------------------------------------

  function MoveFirst(ws: seq<Write>, j: nat): seq<Write>
    requires j < |ws|
  {
    [ws[j]] + (ws[..j] + ws[j + 1..])
  }

  /** Compatibility looks at the writes, not at their order. */
  lemma CompatibleSame(ws: seq<Write>, us: seq<Write>)
    requires Compatible(ws) && forall u :: u in us ==> u in ws
    ensures Compatible(us)
  {
    hide Apart;
    forall i | 0 <= i < |us| ensures us[i].path != [] {
      assert us[i] in us && us[i] in ws;
    }
  }

  lemma CompatibleParts(ws: seq<Write>, j: nat)
    requires Compatible(ws) && 0 < j < |ws|
    ensures Usable(ws) && Compatible(ws[1..]) && Usable(ws[1..])
    ensures Usable(ws[1..][..j - 1] + ws[1..][j..]) && Usable(MoveFirst(ws, j)) && Usable(MoveFirst(ws[1..], j - 1))
    ensures ws[0].path != [] && ws[j].path != [] && (ws[0] == ws[j] || Apart(ws[0].path, ws[j].path))
  {
    hide Apart;
    assert forall w :: w in ws[1..] ==> w in ws;
    CompatibleSame(ws, ws[1..]);
    assert ws[0] in ws && ws[j] in ws;
  }

  lemma MovedShape(ws: seq<Write>, j: nat)
    requires 0 < j < |ws|
    ensures var tail := ws[1..][..j - 1] + ws[1..][j..];
            MoveFirst(ws[1..], j - 1) == [ws[j]] + tail && MoveFirst(ws, j) == [ws[j]] + ([ws[0]] + tail)
  {
    var rest := ws[1..];
    assert [ws[0]] + (rest[..j - 1] + rest[j..]) == ws[..j] + ws[j + 1..];
  }

  /** The `j`-th write can be done first. */
  lemma {:induction false} WriteFirst(r: Option<Entries>, ws: seq<Write>, j: nat)
    requires Compatible(ws) && j < |ws|
    ensures Usable(ws) && Usable(MoveFirst(ws, j))
    ensures AssignAll(r, ws) == AssignAll(r, MoveFirst(ws, j))
    decreases j
  {
    if j == 0 {
      assert MoveFirst(ws, j) == ws;
      hide *;
    } else {
      var a, rest := ws[0], ws[1..];
      CompatibleParts(ws, j);
      assert AssignAll(r, ws) == AssignAll(Then(r, a.path, a.value), rest);
      hide *;
      WriteFirst(Then(r, a.path, a.value), rest, j - 1);
      MovedShape(ws, j);
      SwapFirst(r, a, ws[j], rest[..j - 1] + rest[j..]);
    }
  }

  lemma SwapFirst(r: Option<Entries>, a: Write, b: Write, tail: seq<Write>)
    requires a.path != [] && b.path != [] && (a == b || Apart(a.path, b.path)) && Usable(tail)
    ensures AssignAll(Then(r, a.path, a.value), [b] + tail) == AssignAll(r, [b] + ([a] + tail))
  {
    if r.Some? && a != b { AssignCommutes(r.value, a.path, a.value, b.path, b.value); }
    assert ([b] + tail)[1..] == tail;
    assert ([b] + ([a] + tail))[1..] == [a] + tail;
    assert ([a] + tail)[1..] == tail;
  }

  lemma SameWrites(ws: seq<Write>, us: seq<Write>)
    requires multiset(ws) == multiset(us)
    ensures |ws| == |us| && forall w :: w in ws <==> w in us
  {
    assert |ws| == |multiset(ws)| == |multiset(us)| == |us|;
    forall w ensures w in ws <==> w in us {
      assert w in ws <==> w in multiset(ws);
      assert w in us <==> w in multiset(us);
    }
  }

  /** Compatible writes can be done in any order, failures included. */
  lemma {:induction false} OrderFree(r: Option<Entries>, ws: seq<Write>, us: seq<Write>)
    requires Compatible(ws) && Usable(us) && multiset(ws) == multiset(us)
    ensures AssignAll(r, ws) == AssignAll(r, us)
    decreases |ws|
  {
    hide Apart, Assign;
    SameWrites(ws, us);
    CompatibleSame(ws, us);
    if ws != [] {
      var j := FindFirst(ws, us);
      WriteFirst(r, us, j);
      var rest := us[..j] + us[j + 1..];
      assert MoveFirst(us, j)[1..] == rest;
      assert forall w :: w in ws[1..] ==> w in ws;
      CompatibleSame(ws, ws[1..]);
      OrderFree(Then(r, ws[0].path, ws[0].value), ws[1..], rest);
    }
  }

  /** If every order gives one dictionary, each write reads back from it: put that write last. */
  lemma AnyOrderReads(m: Entries, ws: seq<Write>, w: Write)
    requires Usable(ws) && w in ws && AssignAll(Some(m), ws).Some?
    requires forall us :: Usable(us) && multiset(us) == multiset(ws) ==>
               AssignAll(Some(m), us) == AssignAll(Some(m), ws)
    ensures ReadAt(AssignAll(Some(m), ws).value, w.path) == Some(w.value)
  {
    var k :| 0 <= k < |ws| && ws[k] == w;
    var before := ws[..k] + ws[k + 1..];
    MovedLast(ws, k);
    hide ReadAt, AssignAll, Usable;
    LastReads(m, before, w);
  }

  lemma MovedLast(ws: seq<Write>, k: nat)
    requires Usable(ws) && k < |ws|
    ensures var before := ws[..k] + ws[k + 1..];
            Usable(before) && Usable(before + [ws[k]]) && multiset(before + [ws[k]]) == multiset(ws)
  {
    TakeOut(ws, k);
  }

  /** Every order of some writes of scalars gives one dictionary exactly when the writes are compatible. */
  lemma OrderFreeExactly(m: Entries, ws: seq<Write>)
    requires Usable(ws) && AssignAll(Some(m), ws).Some?
    requires forall w :: w in ws ==> w.value.Scalar?
    ensures (forall us :: Usable(us) && multiset(us) == multiset(ws) ==>
               AssignAll(Some(m), us) == AssignAll(Some(m), ws))
       <==> (forall a, b :: a in ws && b in ws ==> a == b || Apart(a.path, b.path))
  {
    hide ReadAt, AssignAll, Apart;
    if forall us :: Usable(us) && multiset(us) == multiset(ws) ==> AssignAll(Some(m), us) == AssignAll(Some(m), ws) {
      forall w | w in ws ensures ReadAt(AssignAll(Some(m), ws).value, w.path) == Some(w.value) {
        AnyOrderReads(m, ws, w);
      }
      AllReadBack(m, ws);
    }
    if Compatible(ws) {
      forall us | Usable(us) && multiset(us) == multiset(ws) ensures AssignAll(Some(m), us) == AssignAll(Some(m), ws) {
        OrderFree(Some(m), ws, us);
      }
    }
  }
}
