/** The sort key that orders JSON values, and the canonical order of declared series. */
module JsonOrder {
  import opened Sequences
  import opened Sorting

  // ---- values ----------------------------------------------------------------------------

  datatype Json =
    | Null
    | Bool(b: bool)
    | Int(i: int)
    | Float(r: real)
    | Str(s: string)
    | Arr(items: seq<Json>)
    | Obj(members: seq<Member>)

  datatype Member = Member(key: string, value: Json)

  predicate UniqueKeys(members: seq<Member>) {
    forall i, j :: 0 <= i < j < |members| ==> members[i].key != members[j].key
  }

  /** Objects do not repeat a key, at any depth. */
  predicate WellFormed(v: Json) {
    match v
    case Arr(items) => forall i :: 0 <= i < |items| ==> WellFormed(items[i])
    case Obj(members) =>
      && UniqueKeys(members)
      && (forall i :: 0 <= i < |members| ==> WellFormed(members[i].value))
    case _ => true
  }

  /**
   * One JSON value up to spelling: 1 and 1.0 are the same, and objects ignore the order of their members.
   * Unlike Python's `==`, true is not the number 1, as it is not in the sort key either.
   */
  predicate Same(a: Json, b: Json) {
    match (a, b)
    case (Int(x), Float(y)) => x as real == y
    case (Float(x), Int(y)) => x == y as real
    case (Arr(xs), Arr(ys)) => |xs| == |ys| && forall i :: 0 <= i < |xs| ==> Same(xs[i], ys[i])
    case (Obj(xs), Obj(ys)) =>
      |xs| == |ys| && forall i :: 0 <= i < |xs| ==>
        exists j :: 0 <= j < |ys| && xs[i].key == ys[j].key && Same(xs[i].value, ys[j].value)
    case _ => a == b
  }

  // ---- Python values that occur in keys ---------------------------------------------------

  datatype Py = PyStr(s: string) | PyBool(b: bool) | PyNum(r: real) | PyTuple(items: seq<Py>)

  function AsNumber(v: Py): Option<real> {
    match v
    case PyBool(b) => Some(if b then 1.0 else 0.0)
    case PyNum(r) => Some(r)
    case _ => None
  }

  function NumbersLess(a: Option<real>, b: Option<real>): Option<bool> {
    match (a, b)
    case (Some(x), Some(y)) => Some(x < y)
    case _ => None
  }

  /** Python's `==`: values of unlike types are unequal, except that a bool is a number. */
  predicate PyEq(a: Py, b: Py)
    decreases a, 1
  {
    match (a, b)
    case (PyStr(x), PyStr(y)) => x == y
    case (PyTuple(x), PyTuple(y)) => PyEqAll(x, y)
    case _ => AsNumber(a) == AsNumber(b) && AsNumber(a) != None
  }

  predicate PyEqAll(a: seq<Py>, b: seq<Py>)
    decreases a, 0
  {
    if a == [] then b == [] else b != [] && PyEq(a[0], b[0]) && PyEqAll(a[1..], b[1..])
  }

  /** Python's `<`; `None` stands for the TypeError on unlike types. Tuples decide at the first difference. */
  function PyLess(a: Py, b: Py): Option<bool>
    decreases a, 1
  {
    match (a, b)
    case (PyStr(x), PyStr(y)) => Some(x != y && StringLeq(x, y))
    case (PyTuple(x), PyTuple(y)) => PyLessAll(x, y)
    case _ => NumbersLess(AsNumber(a), AsNumber(b))
  }

  function PyLessAll(a: seq<Py>, b: seq<Py>): Option<bool>
    decreases a, 0
  {
    if b == [] then Some(false)
    else if a == [] then Some(true)
    else if PyEq(a[0], b[0]) then PyLessAll(a[1..], b[1..])
    else PyLess(a[0], b[0])
  }

  // ---- the key ---------------------------------------------------------------------------

  datatype Keyed = Keyed(key: string, order: Py)

  function Pair(k: Keyed): Py { PyTuple([PyStr(k.key), k.order]) }

  /** `_json_order_key`. Objects sort pairs of key and sort key; `MembersSorted` relates this to sorting the members. */
  function OrderKey(v: Json): Py
    decreases v, 1
  {
    match v
    case Null => PyTuple([PyStr("0-null")])
    case Bool(b) => PyTuple([PyStr("1-boolean"), PyBool(b)])
    case Int(i) => PyTuple([PyStr("2-number"), PyNum(i as real)])
    case Float(r) => PyTuple([PyStr("2-number"), PyNum(r)])
    case Str(s) => PyTuple([PyStr("3-string"), PyStr(s)])
    case Arr(items) => PyTuple([PyStr("4-array"), PyTuple(OrderKeys(items))])
    case Obj(members) => PyTuple([PyStr("5-object"), PyTuple(Pairs(SortBy(KeyedLeq, KeyedMembers(members))))])
  }

  function OrderKeys(items: seq<Json>): (r: seq<Py>)
    ensures |r| == |items|
    decreases items, 0
  {
    if items == [] then [] else [OrderKey(items[0])] + OrderKeys(items[1..])
  }

  function KeyedMembers(members: seq<Member>): (r: seq<Keyed>)
    ensures |r| == |members|
    decreases members, 0
  {
    if members == [] then [] else [Keyed(members[0].key, OrderKey(members[0].value))] + KeyedMembers(members[1..])
  }

  function Pairs(ks: seq<Keyed>): (r: seq<Py>)
    ensures |r| == |ks| && forall i :: 0 <= i < |ks| ==> r[i] == Pair(ks[i])
  {
    if ks == [] then [] else [Pair(ks[0])] + Pairs(ks[1..])
  }

  // ---- a total order on all keys ----------------------------------------------------------

  function Rank(v: Py): int {
    match v
    case PyStr(_) => 0
    case PyBool(_) => 1
    case PyNum(_) => 2
    case PyTuple(_) => 3
  }

  /** A reference order on every Python value of this kind: by type, then by value, tuples by element. */
  function Cmp(a: Py, b: Py): int
    decreases a, 1
  {
    match (a, b)
    case (PyStr(x), PyStr(y)) => if x == y then 0 else if StringLeq(x, y) then -1 else 1
    case (PyBool(x), PyBool(y)) => if x == y then 0 else if y then -1 else 1
    case (PyNum(x), PyNum(y)) => if x == y then 0 else if x < y then -1 else 1
    case (PyTuple(x), PyTuple(y)) => CmpAll(x, y)
    case _ => if Rank(a) < Rank(b) then -1 else 1
  }

  function CmpAll(a: seq<Py>, b: seq<Py>): int
    decreases a, 0
  {
    if a == [] then (if b == [] then 0 else -1)
    else if b == [] then 1
    else var c := Cmp(a[0], b[0]); if c != 0 then c else CmpAll(a[1..], b[1..])
  }

  predicate PyLeq(a: Py, b: Py) { Cmp(a, b) <= 0 }

  predicate KeyedLeq(a: Keyed, b: Keyed) {
    if a.key != b.key then StringLeq(a.key, b.key) else Cmp(a.order, b.order) <= 0
  }

  lemma {:induction false} CmpZero(a: Py, b: Py)
    ensures Cmp(a, b) == 0 <==> a == b
    decreases a, 1
  {
    if a.PyTuple? && b.PyTuple? { CmpAllZero(a.items, b.items); }
  }

  lemma {:induction false} CmpAllZero(a: seq<Py>, b: seq<Py>)
    ensures CmpAll(a, b) == 0 <==> a == b
    decreases a, 0
  {
    if a != [] && b != [] {
      CmpZero(a[0], b[0]);
      CmpAllZero(a[1..], b[1..]);
      assert a == [a[0]] + a[1..] && b == [b[0]] + b[1..];
    }
  }

  lemma {:induction false} CmpFlips(a: Py, b: Py)
    ensures Cmp(a, b) == -Cmp(b, a)
    decreases a, 1
  {
    match (a, b)
    case (PyStr(x), PyStr(y)) =>
      StringTotal(x, y);
      if StringLeq(x, y) && StringLeq(y, x) { StringAntisymmetric(x, y); }
    case (PyTuple(x), PyTuple(y)) => CmpAllFlips(x, y);
    case _ =>
  }

  lemma {:induction false} CmpAllFlips(a: seq<Py>, b: seq<Py>)
    ensures CmpAll(a, b) == -CmpAll(b, a)
    decreases a, 0
  {
    if a != [] && b != [] {
      CmpFlips(a[0], b[0]);
      CmpAllFlips(a[1..], b[1..]);
    }
  }

  lemma {:induction false} CmpTransitive(a: Py, b: Py, c: Py)
    requires Cmp(a, b) <= 0 && Cmp(b, c) <= 0
    ensures Cmp(a, c) <= 0
    decreases a, 1
  {
    match (a, b, c)
    case (PyStr(x), PyStr(y), PyStr(z)) => if x != y && y != z { StringTransitive(x, y, z); }
    case (PyTuple(x), PyTuple(y), PyTuple(z)) => CmpAllTransitive(x, y, z);
    case _ =>
  }

  lemma {:induction false} CmpAllTransitive(a: seq<Py>, b: seq<Py>, c: seq<Py>)
    requires CmpAll(a, b) <= 0 && CmpAll(b, c) <= 0
    ensures CmpAll(a, c) <= 0
    decreases a, 0
  {
    if a != [] && b != [] && c != [] {
      CmpZero(a[0], b[0]);
      CmpZero(b[0], c[0]);
      CmpTransitive(a[0], b[0], c[0]);
      CmpZero(a[0], c[0]);
      if a[0] == b[0] == c[0] {
        CmpAllTransitive(a[1..], b[1..], c[1..]);
      } else if a[0] == c[0] {
        CmpFlips(a[0], b[0]);
      }
    }
  }

  lemma PyOrder()
    ensures TotalOrder(PyLeq) && Antisymmetric(PyLeq)
  {
    forall a, b ensures PyLeq(a, b) || PyLeq(b, a) { CmpFlips(a, b); }
    forall a, b, c | PyLeq(a, b) && PyLeq(b, c) ensures PyLeq(a, c) { CmpTransitive(a, b, c); }
    forall a, b | PyLeq(a, b) && PyLeq(b, a) ensures a == b { CmpFlips(a, b); CmpZero(a, b); }
  }

  lemma KeyedOrder()
    ensures TotalOrder(KeyedLeq) && Antisymmetric(KeyedLeq)
  {
    forall a, b ensures KeyedLeq(a, b) || KeyedLeq(b, a) {
      StringTotal(a.key, b.key);
      CmpFlips(a.order, b.order);
    }
    forall a, b, c | KeyedLeq(a, b) && KeyedLeq(b, c) ensures KeyedLeq(a, c) {
      if a.key == b.key == c.key { CmpTransitive(a.order, b.order, c.order); }
      if a.key != b.key && b.key != c.key {
        StringTransitive(a.key, b.key, c.key);
        if a.key == c.key { StringAntisymmetric(a.key, b.key); }
      }
    }
    forall a, b | KeyedLeq(a, b) && KeyedLeq(b, a) ensures a == b {
      if a.key != b.key { StringAntisymmetric(a.key, b.key); }
      CmpFlips(a.order, b.order);
      CmpZero(a.order, b.order);
    }
  }

  // ---- sorting the members of an object ------------------------------------------------------

  /** How Python compares two pairs of an object: by key, and only on equal keys by the raw values. */
  function ByKey(valueLeq: (Json, Json) -> bool): (Member, Member) -> bool {
    (a: Member, b: Member) => if a.key != b.key then StringLeq(a.key, b.key) else valueLeq(a.value, b.value)
  }

  lemma {:induction false} InsertKeyed(valueLeq: (Json, Json) -> bool, x: Member, s: seq<Member>)
    requires forall m :: m in s ==> m.key != x.key
    ensures KeyedMembers(InsertBy(ByKey(valueLeq), x, s))
         == InsertBy(KeyedLeq, Keyed(x.key, OrderKey(x.value)), KeyedMembers(s))
    decreases |s|
  {
    hide OrderKey;
    if s != [] {
      assert s[0] in s;
      if ByKey(valueLeq)(x, s[0]) {
        assert ([x] + s)[1..] == s;
      } else {
        var rest := InsertBy(ByKey(valueLeq), x, s[1..]);
        InsertKeyed(valueLeq, x, s[1..]);
        assert ([s[0]] + rest)[1..] == rest;
      }
    }
  }

  /**
   * Whatever comparing two raw values would say, or whether it would raise, sorting the members gives
   * the order of the keys: with unique keys the values are never consulted.
   */
  lemma {:induction false} MembersSorted(valueLeq: (Json, Json) -> bool, members: seq<Member>)
    requires UniqueKeys(members)
    ensures KeyedMembers(SortBy(ByKey(valueLeq), members)) == SortBy(KeyedLeq, KeyedMembers(members))
    decreases |members|
  {
    hide OrderKey;
    if members != [] {
      var rest := SortBy(ByKey(valueLeq), members[1..]);
      MembersSorted(valueLeq, members[1..]);
      SortBySorts(ByKey(valueLeq), members[1..]);
      forall m | m in rest ensures m.key != members[0].key {
        assert m in multiset(members[1..]);
        assert m in members[1..];
      }
      InsertKeyed(valueLeq, members[0], rest);
    }
  }

  // ---- Python's comparison agrees and never meets unlike types ----------------------------

  /** On these two values Python's operators succeed and agree with the reference order. */
  ghost predicate Agree(a: Py, b: Py) {
    PyLess(a, b) == Some(Cmp(a, b) < 0) && (PyEq(a, b) <==> Cmp(a, b) == 0)
  }

  lemma {:induction false} AgreeTuples(x: seq<Py>, y: seq<Py>)
    requires forall i :: 0 <= i < |x| && i < |y| ==> Agree(x[i], y[i])
    ensures PyLessAll(x, y) == Some(CmpAll(x, y) < 0)
    ensures PyEqAll(x, y) <==> CmpAll(x, y) == 0
    decreases |x|
  {
    if x != [] && y != [] {
      assert Agree(x[0], y[0]);
      forall i | 0 <= i < |x[1..]| && i < |y[1..]| ensures Agree(x[1..][i], y[1..][i]) {
        assert Agree(x[i + 1], y[i + 1]);
      }
      AgreeTuples(x[1..], y[1..]);
    }
  }

  lemma AgreeStrings(x: string, y: string)
    ensures Agree(PyStr(x), PyStr(y))
  {
  }

  lemma AgreePairs(a: Py, b: Py, x: Py, y: Py)
    requires Agree(a, b) && (Cmp(a, b) == 0 ==> Agree(x, y))
    ensures Agree(PyTuple([a, x]), PyTuple([b, y]))
  {
    var s, t := [a, x], [b, y];
    assert s[1..] == [x] && t[1..] == [y] && [x][1..] == [] && [y][1..] == [];
    assert CmpAll([x], [y]) == Cmp(x, y);
    if Cmp(a, b) == 0 {
      assert PyLessAll([x], [y]) == (if PyEq(x, y) then Some(false) else PyLess(x, y));
      assert PyEqAll([x], [y]) <==> PyEq(x, y);
      assert CmpAll(s, t) == CmpAll([x], [y]);
      assert PyLessAll(s, t) == PyLessAll([x], [y]);
    } else {
      assert PyLessAll(s, t) == PyLess(a, b);
      assert CmpAll(s, t) == Cmp(a, b);
    }
  }

  lemma {:induction false} OrderKeysAt(items: seq<Json>, i: nat)
    requires i < |items|
    ensures OrderKeys(items)[i] == OrderKey(items[i])
    decreases |items|
  {
    if i > 0 { OrderKeysAt(items[1..], i - 1); }
  }

  lemma {:induction false} KeyedAt(members: seq<Member>, i: nat)
    requires i < |members|
    ensures KeyedMembers(members)[i] == Keyed(members[i].key, OrderKey(members[i].value))
    decreases |members|
  {
    if i > 0 { KeyedAt(members[1..], i - 1); }
  }

  /** Every entry of the sorted list comes from a member. */
  lemma SortedEntry(members: seq<Member>, i: nat) returns (j: nat)
    requires i < |SortBy(KeyedLeq, KeyedMembers(members))|
    ensures j < |members|
    ensures SortBy(KeyedLeq, KeyedMembers(members))[i] == Keyed(members[j].key, OrderKey(members[j].value))
  {
    var ks := KeyedMembers(members);
    SortBySorts(KeyedLeq, ks);
    var k := SortBy(KeyedLeq, ks)[i];
    assert k in multiset(SortBy(KeyedLeq, ks));
    assert k in ks;
    j :| 0 <= j < |ks| && ks[j] == k;
    KeyedAt(members, j);
  }

  /** Comparing two sort keys never raises, and gives the reference order. */
  lemma {:induction false} ComparesLikeTypes(a: Json, b: Json)
    ensures Agree(OrderKey(a), OrderKey(b))
    decreases a, 1
  {
    hide SortBy, KeyedMembers, OrderKeys, Pairs, PyLess, PyEq, Cmp, Agree;
    if a.Arr? && b.Arr? {
      ArraysCompare(a.items, b.items);
    } else if a.Obj? && b.Obj? {
      ObjectsCompare(a.members, b.members);
    } else {
      ScalarsCompare(a, b);
    }
  }

  lemma {:induction false} ScalarsCompare(a: Json, b: Json)
    requires !(a.Arr? && b.Arr?) && !(a.Obj? && b.Obj?)
    ensures Agree(OrderKey(a), OrderKey(b))
  {
    hide Cmp, PyLess, PyEq, Agree;
    var x, y := OrderKey(a), OrderKey(b);
    if Kind(a) != Kind(b) {
      DifferentTags(x.items, y.items);
    } else {
      SameTag(a, b);
    }
  }

  lemma SameTag(a: Json, b: Json)
    requires Kind(a) == Kind(b) && Kind(a) < 4
    ensures Agree(OrderKey(a), OrderKey(b))
  {
    var x, y := OrderKey(a), OrderKey(b);
    AgreeStrings(x.items[0].s, y.items[0].s);
    if a.Null? {
      AgreeTuples(x.items, y.items);
    } else {
      AgreeScalars(x.items[1], y.items[1]);
      hide Agree, Cmp;
      AgreePairs(x.items[0], y.items[0], x.items[1], y.items[1]);
    }
  }

  lemma AgreeScalars(x: Py, y: Py)
    requires (x.PyStr? && y.PyStr?) || (x.PyBool? && y.PyBool?) || (x.PyNum? && y.PyNum?)
    ensures Agree(x, y)
  {
  }

  /** Tuples that differ in their first string are decided there. */
  lemma DifferentTags(x: seq<Py>, y: seq<Py>)
    requires x != [] && y != [] && x[0].PyStr? && y[0].PyStr? && x[0] != y[0]
    ensures Agree(PyTuple(x), PyTuple(y))
  {
    AgreeStrings(x[0].s, y[0].s);
  }

  lemma {:induction false} ArraysCompare(p: seq<Json>, q: seq<Json>)
    ensures Agree(OrderKey(Arr(p)), OrderKey(Arr(q)))
    decreases p, 0
  {
    hide Agree, OrderKeys;
    var x, y := OrderKeys(p), OrderKeys(q);
    forall i | 0 <= i < |p| && i < |q| ensures Agree(x[i], y[i]) {
      OrderKeysAt(p, i);
      OrderKeysAt(q, i);
      ComparesLikeTypes(p[i], q[i]);
    }
    TaggedTuples("4-array", x, y);
  }

  lemma TaggedTuples(tag: string, x: seq<Py>, y: seq<Py>)
    requires forall i :: 0 <= i < |x| && i < |y| ==> Agree(x[i], y[i])
    ensures Agree(PyTuple([PyStr(tag), PyTuple(x)]), PyTuple([PyStr(tag), PyTuple(y)]))
  {
    AgreeTuples(x, y);
    AgreeStrings(tag, tag);
    AgreePairs(PyStr(tag), PyStr(tag), PyTuple(x), PyTuple(y));
  }

  lemma {:induction false} ObjectsCompare(p: seq<Member>, q: seq<Member>)
    ensures Agree(OrderKey(Obj(p)), OrderKey(Obj(q)))
    decreases p, 0
  {
    hide Agree, SortBy, KeyedMembers;
    var ks, ls := SortBy(KeyedLeq, KeyedMembers(p)), SortBy(KeyedLeq, KeyedMembers(q));
    forall i | 0 <= i < |ks| && i < |ls| ensures Agree(Pairs(ks)[i], Pairs(ls)[i]) {
      var j := SortedEntry(p, i);
      var k := SortedEntry(q, i);
      ComparesLikeTypes(p[j].value, q[k].value);
      AgreeStrings(p[j].key, q[k].key);
      AgreePairs(PyStr(ks[i].key), PyStr(ls[i].key), ks[i].order, ls[i].order);
    }
    TaggedTuples("5-object", Pairs(ks), Pairs(ls));
  }

  // ---- equal keys mean equal values --------------------------------------------------------

  ghost predicate DistinctKeys(ks: seq<Keyed>) {
    forall i, j :: 0 <= i < j < |ks| ==> ks[i].key != ks[j].key
  }

  lemma {:induction false} MembersDistinct(members: seq<Member>)
    requires UniqueKeys(members)
    ensures DistinctKeys(KeyedMembers(members))
  {
    hide KeyedMembers, OrderKey;
    var ks := KeyedMembers(members);
    forall i, j | 0 <= i < j < |ks| ensures ks[i].key != ks[j].key {
      KeyedAt(members, i);
      KeyedAt(members, j);
    }
  }

  lemma {:induction false} CountOnce(ks: seq<Keyed>, k: Keyed)
    requires DistinctKeys(ks)
    ensures multiset(ks)[k] == if k in ks then 1 else 0
    decreases |ks|
  {
    if ks != [] {
      var m := |ks| - 1;
      assert ks == ks[..m] + [ks[m]];
      CountOnce(ks[..m], k);
      if k == ks[m] { assert k !in ks[..m]; }
    }
  }

  /** Lists of entries with distinct keys sort to the same list when they hold the same entries. */
  lemma SameEntriesSortSame(ks: seq<Keyed>, ls: seq<Keyed>)
    requires DistinctKeys(ks) && DistinctKeys(ls)
    requires forall k :: k in ks <==> k in ls
    ensures SortBy(KeyedLeq, ks) == SortBy(KeyedLeq, ls)
  {
    forall k ensures multiset(ks)[k] == multiset(ls)[k] {
      CountOnce(ks, k);
      CountOnce(ls, k);
    }
    assert multiset(ks) == multiset(ls);
    KeyedOrder();
    SortBySorts(KeyedLeq, ks);
    SortBySorts(KeyedLeq, ls);
    SortedUnique(KeyedLeq, SortBy(KeyedLeq, ks), SortBy(KeyedLeq, ls));
  }

  lemma SortSameSameEntries(ks: seq<Keyed>, ls: seq<Keyed>)
    requires Pairs(SortBy(KeyedLeq, ks)) == Pairs(SortBy(KeyedLeq, ls))
    ensures |ks| == |ls| && forall k :: k in ks <==> k in ls
  {
    hide SortBy, KeyedLeq;
    var s, t := SortBy(KeyedLeq, ks), SortBy(KeyedLeq, ls);
    SortBySorts(KeyedLeq, ks);
    SortBySorts(KeyedLeq, ls);
    assert |s| == |Pairs(s)| == |Pairs(t)| == |t|;
    forall i | 0 <= i < |s| ensures s[i] == t[i] {
      assert Pairs(s)[i] == Pairs(t)[i];
      assert Pair(s[i]).items[0] == Pair(t[i]).items[0] && Pair(s[i]).items[1] == Pair(t[i]).items[1];
    }
    assert s == t;
    forall k ensures k in ks <==> k in ls {
      assert k in ks <==> k in multiset(ks);
      assert k in ls <==> k in multiset(ls);
    }
    assert |ks| == |multiset(ks)| && |ls| == |multiset(ls)|;
  }

  /** Equal sort keys mean values that are equal up to 1 == 1.0 and member order, and conversely. */
  lemma {:induction false} EqualKeysSameValues(a: Json, b: Json)
    requires WellFormed(a) && WellFormed(b)
    ensures OrderKey(a) == OrderKey(b) <==> Same(a, b)
    decreases a
  {
    var x, y := OrderKey(a), OrderKey(b);
    assert x == y <==> x.items == y.items;
    if a.Arr? && b.Arr? {
      ArraysAgree(a, b);
    } else if a.Obj? && b.Obj? {
      ObjectsAgree(a, b);
    } else {
      assert x.items[0] == y.items[0] <==> Kind(a) == Kind(b);
      if Kind(a) == Kind(b) && |x.items| == 2 {
        assert x.items == y.items <==> x.items[1] == y.items[1];
      }
    }
  }

  /** The kinds of values in their order: null, booleans, numbers, strings, arrays, objects. */
  function Kind(v: Json): nat {
    match v
    case Null => 0
    case Bool(_) => 1
    case Int(_) => 2
    case Float(_) => 2
    case Str(_) => 3
    case Arr(_) => 4
    case Obj(_) => 5
  }

  lemma {:induction false} ArraysAgree(a: Json, b: Json)
    requires a.Arr? && b.Arr? && WellFormed(a) && WellFormed(b)
    ensures OrderKey(a) == OrderKey(b) <==> Same(a, b)
    decreases a, 0
  {
    var p, q := OrderKeys(a.items), OrderKeys(b.items);
    assert OrderKey(a).items[1] == PyTuple(p) && OrderKey(b).items[1] == PyTuple(q);
    assert OrderKey(a) == OrderKey(b) <==> p == q;
    forall i | 0 <= i < |p| && i < |q| ensures p[i] == q[i] <==> Same(a.items[i], b.items[i]) {
      OrderKeysAt(a.items, i);
      OrderKeysAt(b.items, i);
      EqualKeysSameValues(a.items[i], b.items[i]);
    }
  }

  lemma {:induction false} ObjectsAgree(a: Json, b: Json)
    requires a.Obj? && b.Obj? && WellFormed(a) && WellFormed(b)
    ensures OrderKey(a) == OrderKey(b) <==> Same(a, b)
    decreases a, 0
  {
    hide SortBy, KeyedMembers, WellFormed, Same;
    var xs, ys := a.members, b.members;
    var ks, ls := KeyedMembers(xs), KeyedMembers(ys);
    ObjectKeys(xs, ys);
    forall i, j | 0 <= i < |xs| && 0 <= j < |ys|
      ensures ks[i] == ls[j] <==> xs[i].key == ys[j].key && Same(xs[i].value, ys[j].value)
    {
      KeyedAt(xs, i);
      KeyedAt(ys, j);
      WellFormedMember(a, i);
      WellFormedMember(b, j);
      EqualKeysSameValues(xs[i].value, ys[j].value);
    }
    EntriesMatch(a, b, ks, ls);
    WellFormedKeys(a);
    WellFormedKeys(b);
    if Same(a, b) {
      SameSizeSameEntries(ks, ls);
      SameEntriesSortSame(ks, ls);
    } else if OrderKey(a) == OrderKey(b) {
      SortSameSameEntries(ks, ls);
    }
  }

  lemma WellFormedMember(a: Json, i: nat)
    requires a.Obj? && WellFormed(a) && i < |a.members|
    ensures WellFormed(a.members[i].value)
  {
  }

  lemma WellFormedKeys(a: Json)
    requires a.Obj? && WellFormed(a)
    ensures DistinctKeys(KeyedMembers(a.members))
  {
    MembersDistinct(a.members);
  }

  lemma ObjectKeys(xs: seq<Member>, ys: seq<Member>)
    ensures OrderKey(Obj(xs)) == OrderKey(Obj(ys)) <==>
              Pairs(SortBy(KeyedLeq, KeyedMembers(xs))) == Pairs(SortBy(KeyedLeq, KeyedMembers(ys)))
  {
    hide SortBy, KeyedMembers, Pairs;
    var x, y := OrderKey(Obj(xs)), OrderKey(Obj(ys));
    assert x == y ==> x.items[1] == y.items[1];
  }

  /** Entries are equal exactly where members are the same. */
  ghost predicate Mirrors(xs: seq<Member>, ys: seq<Member>, ks: seq<Keyed>, ls: seq<Keyed>) {
    && |ks| == |xs| && |ls| == |ys|
    && forall i, j :: 0 <= i < |ks| && 0 <= j < |ls| ==>
         (ks[i] == ls[j] <==> xs[i].key == ys[j].key && Same(xs[i].value, ys[j].value))
  }

  lemma EntryMatches(xs: seq<Member>, ys: seq<Member>, ks: seq<Keyed>, ls: seq<Keyed>, i: nat)
    requires Mirrors(xs, ys, ks, ls) && i < |ks|
    ensures ks[i] in ls <==> exists j :: 0 <= j < |ys| && xs[i].key == ys[j].key && Same(xs[i].value, ys[j].value)
  {
    hide Same;
    if ks[i] in ls {
      var j :| 0 <= j < |ls| && ls[j] == ks[i];
      assert xs[i].key == ys[j].key && Same(xs[i].value, ys[j].value);
    }
    if exists j :: 0 <= j < |ys| && xs[i].key == ys[j].key && Same(xs[i].value, ys[j].value) {
      var j :| 0 <= j < |ys| && xs[i].key == ys[j].key && Same(xs[i].value, ys[j].value);
      assert ks[i] == ls[j];
    }
  }

  /** Dictionary equality, read off the entries. */
  lemma EntriesMatch(a: Json, b: Json, ks: seq<Keyed>, ls: seq<Keyed>)
    requires a.Obj? && b.Obj? && Mirrors(a.members, b.members, ks, ls)
    ensures Same(a, b) <==> |ks| == |ls| && forall i :: 0 <= i < |ks| ==> ks[i] in ls
  {
    var xs, ys := a.members, b.members;
    assert Same(a, b) <==> |xs| == |ys| && forall i :: 0 <= i < |xs| ==>
      exists j :: 0 <= j < |ys| && xs[i].key == ys[j].key && Same(xs[i].value, ys[j].value);
    hide Same;
    forall i | 0 <= i < |xs|
      ensures ks[i] in ls <==> exists j :: 0 <= j < |ys| && xs[i].key == ys[j].key && Same(xs[i].value, ys[j].value)
    {
      EntryMatches(xs, ys, ks, ls, i);
    }
  }

  lemma SameSizeSameEntries(ks: seq<Keyed>, ls: seq<Keyed>)
    requires DistinctKeys(ks) && DistinctKeys(ls) && |ks| == |ls|
    requires forall i :: 0 <= i < |ks| ==> ks[i] in ls
    ensures forall k :: k in ks <==> k in ls
  {
    var s, t := set k | k in ks, set k | k in ls;
    EntrySet(ks);
    EntrySet(ls);
    SubsetSameSize(s, t);
    forall k ensures k in ks <==> k in ls {
      assert k in ks <==> k in s;
      assert k in ls <==> k in t;
    }
  }

  lemma {:induction false} EntrySet(ks: seq<Keyed>)
    requires DistinctKeys(ks)
    ensures |set k | k in ks| == |ks|
    decreases |ks|
  {
    if ks == [] {
      assert (set k | k in ks) == {};
    } else {
      var m := |ks| - 1;
      EntrySet(ks[..m]);
      assert ks == ks[..m] + [ks[m]];
      assert (set k | k in ks) == (set k | k in ks[..m]) + {ks[m]};
      assert ks[m] !in ks[..m];
    }
  }

  // ---- the canonical order -----------------------------------------------------------------

  predicate ValueLeq(a: Json, b: Json) { Cmp(OrderKey(a), OrderKey(b)) <= 0 }

  /** `sorted(values, key=_json_order_key)`. */
  function CanonicalSeries(values: seq<Json>): seq<Json> { SortBy(ValueLeq, values) }

  /** Sorting compares with Python's `<` on the keys, which is this order. */
  lemma ValueOrder(a: Json, b: Json)
    ensures ValueLeq(a, b) <==> PyLess(OrderKey(b), OrderKey(a)) == Some(false)
  {
    ComparesLikeTypes(b, a);
    CmpFlips(OrderKey(a), OrderKey(b));
  }

  // ---- what the order is, in terms of the values ---------------------------------------------

  /** Neither of the two comes before the other. */
  predicate Level(a: Json, b: Json) { ValueLeq(a, b) && ValueLeq(b, a) }

  function NumberOf(v: Json): real
    requires v.Int? || v.Float?
  {
    if v.Int? then v.i as real else v.r
  }

  /** Kinds come in their order; false before true, smaller numbers first, strings in text order. */
  lemma KindsInOrder(a: Json, b: Json)
    ensures Kind(a) != Kind(b) ==> (ValueLeq(a, b) <==> Kind(a) < Kind(b))
    ensures a == Null && b == Null ==> ValueLeq(a, b)
    ensures a.Bool? && b.Bool? ==> (ValueLeq(a, b) <==> !a.b || b.b)
    ensures Kind(a) == Kind(b) == 2 ==> (ValueLeq(a, b) <==> NumberOf(a) <= NumberOf(b))
    ensures a.Str? && b.Str? ==> (ValueLeq(a, b) <==> InTextOrder(a.s, b.s))
  {
    hide InTextOrder, StringLeq, SortBy, KeyedMembers, OrderKeys, Pairs, Cmp, CmpAll;
    var x, y := OrderKey(a), OrderKey(b);
    if Kind(a) != Kind(b) {
      FirstDecides(x.items, y.items);
      TagsInOrder(a, b);
    } else if a.Bool? || a.Int? || a.Float? || a.Str? {
      SecondDecides(x.items[0], x.items[1], y.items[1]);
      ScalarsInOrder(x.items[1], y.items[1]);
      if a.Str? { StringMeaning(a.s, b.s); }
    } else if a == Null {
      CmpZero(x, y);
    }
  }

  lemma FirstDecides(x: seq<Py>, y: seq<Py>)
    requires x != [] && y != [] && x[0] != y[0]
    ensures Cmp(PyTuple(x), PyTuple(y)) == Cmp(x[0], y[0])
  {
    CmpZero(x[0], y[0]);
    hide Cmp;
    TuplesCompare(x, y);
  }

  lemma TuplesCompare(x: seq<Py>, y: seq<Py>)
    ensures Cmp(PyTuple(x), PyTuple(y)) == CmpAll(x, y)
  {
  }

  lemma SecondDecides(tag: Py, p: Py, q: Py)
    ensures Cmp(PyTuple([tag, p]), PyTuple([tag, q])) == Cmp(p, q)
  {
    CmpZero(tag, tag);
    hide Cmp;
    TuplesCompare([tag, p], [tag, q]);
    assert [tag, p][1..] == [p] && [tag, q][1..] == [q] && [p][1..] == [] && [q][1..] == [];
    assert CmpAll([p], [q]) == Cmp(p, q);
  }

  lemma ScalarsInOrder(p: Py, q: Py)
    ensures p.PyBool? && q.PyBool? ==> (Cmp(p, q) <= 0 <==> !p.b || q.b)
    ensures p.PyNum? && q.PyNum? ==> (Cmp(p, q) <= 0 <==> p.r <= q.r)
    ensures p.PyStr? && q.PyStr? ==> (Cmp(p, q) <= 0 <==> StringLeq(p.s, q.s))
  {
    if p.PyStr? && q.PyStr? { StringTotal(p.s, q.s); }
  }

  /** The tags of the keys are ordered by their leading digits. */
  lemma TagsInOrder(a: Json, b: Json)
    requires Kind(a) != Kind(b)
    ensures Cmp(OrderKey(a).items[0], OrderKey(b).items[0]) <= 0 <==> Kind(a) < Kind(b)
  {
    hide SortBy, KeyedMembers, OrderKeys, Pairs;
    var x, y := OrderKey(a).items[0], OrderKey(b).items[0];
    assert x.PyStr? && y.PyStr? && x.s != "" && y.s != "";
    assert x.s[0] as int == '0' as int + Kind(a) && y.s[0] as int == '0' as int + Kind(b);
    assert StringLeq(x.s, y.s) <==> x.s[0] < y.s[0];
  }

  /** The lists agree before `k`; there the first has ended or has the smaller key. */
  ghost predicate KeysDecided(x: seq<Py>, y: seq<Py>, k: int) {
    && 0 <= k <= |x| && k <= |y| && x[..k] == y[..k]
    && (k == |x| || (k < |y| && Cmp(x[k], y[k]) < 0))
  }

  lemma {:induction false} CmpAllDecided(x: seq<Py>, y: seq<Py>)
    ensures CmpAll(x, y) <= 0 <==> exists k :: KeysDecided(x, y, k)
    decreases |x|
  {
    if x == [] {
      assert KeysDecided(x, y, 0);
    } else if y != [] {
      CmpZero(x[0], y[0]);
      if x[0] == y[0] {
        CmpAllDecided(x[1..], y[1..]);
        DecidedTail(x, y);
      } else {
        hide Cmp;
        assert KeysDecided(x, y, 0) <==> Cmp(x[0], y[0]) < 0;
        forall k | KeysDecided(x, y, k) ensures k == 0 { SameFirst(x, y, k); }
      }
    }
  }

  lemma SameFirst(x: seq<Py>, y: seq<Py>, k: nat)
    requires k <= |x| && k <= |y| && x[..k] == y[..k]
    ensures k > 0 ==> x[0] == y[0]
  {
    if k > 0 { assert x[..k][0] == y[..k][0]; }
  }

  lemma DecidedTail(x: seq<Py>, y: seq<Py>)
    requires x != [] && y != [] && x[0] == y[0]
    ensures (exists k :: KeysDecided(x, y, k)) <==> (exists k :: KeysDecided(x[1..], y[1..], k))
  {
    CmpZero(x[0], y[0]);
    hide Cmp;
    var p, q := x[1..], y[1..];
    if exists k :: KeysDecided(x, y, k) {
      var k :| KeysDecided(x, y, k);
      assert k > 0;
      assert p[..k - 1] == x[..k][1..] && q[..k - 1] == y[..k][1..];
      assert KeysDecided(p, q, k - 1);
    }
    if exists k :: KeysDecided(p, q, k) {
      var k :| KeysDecided(p, q, k);
      assert x[..k + 1] == [x[0]] + p[..k] && y[..k + 1] == [y[0]] + q[..k];
      assert KeysDecided(x, y, k + 1);
    }
  }

  /** The arrays are level before position `k`; there the first has ended or has the smaller item. */
  ghost predicate ItemsDecided(xs: seq<Json>, ys: seq<Json>, k: int) {
    && 0 <= k <= |xs| && k <= |ys|
    && (forall i :: 0 <= i < k ==> Level(xs[i], ys[i]))
    && (k == |xs| || (k < |ys| && !ValueLeq(ys[k], xs[k])))
  }

  /** Arrays compare item by item; an array comes before its extensions. */
  lemma ArraysInOrder(xs: seq<Json>, ys: seq<Json>)
    ensures ValueLeq(Arr(xs), Arr(ys)) <==> exists k :: ItemsDecided(xs, ys, k)
  {
    hide Cmp, CmpAll, OrderKeys, KeysDecided, ItemsDecided;
    var x, y := OrderKeys(xs), OrderKeys(ys);
    SecondDecides(PyStr("4-array"), PyTuple(x), PyTuple(y));
    TuplesCompare(x, y);
    CmpAllDecided(x, y);
    forall k ensures KeysDecided(x, y, k) <==> ItemsDecided(xs, ys, k) {
      DecidedAlike(xs, ys, k);
    }
  }

  lemma LevelKeys(a: Json, b: Json)
    ensures Level(a, b) <==> OrderKey(a) == OrderKey(b)
    ensures !ValueLeq(b, a) <==> Cmp(OrderKey(a), OrderKey(b)) < 0
  {
    CmpFlips(OrderKey(a), OrderKey(b));
    CmpZero(OrderKey(a), OrderKey(b));
  }

  lemma SamePrefix<T>(x: seq<T>, y: seq<T>, k: nat)
    requires k <= |x| && k <= |y|
    ensures x[..k] == y[..k] <==> forall i :: 0 <= i < k ==> x[i] == y[i]
  {
    if x[..k] == y[..k] { forall i | 0 <= i < k ensures x[i] == y[i] { assert x[..k][i] == y[..k][i]; } }
  }

  lemma KeysAt(xs: seq<Json>, ys: seq<Json>, i: nat)
    requires i < |xs| && i < |ys|
    ensures OrderKeys(xs)[i] == OrderKeys(ys)[i] <==> Level(xs[i], ys[i])
    ensures Cmp(OrderKeys(xs)[i], OrderKeys(ys)[i]) < 0 <==> !ValueLeq(ys[i], xs[i])
  {
    OrderKeysAt(xs, i);
    OrderKeysAt(ys, i);
    LevelKeys(xs[i], ys[i]);
  }

  lemma DecidedAlike(xs: seq<Json>, ys: seq<Json>, k: int)
    ensures KeysDecided(OrderKeys(xs), OrderKeys(ys), k) <==> ItemsDecided(xs, ys, k)
  {
    hide Cmp, OrderKey, OrderKeys, Level, ValueLeq;
    var x, y := OrderKeys(xs), OrderKeys(ys);
    if 0 <= k <= |xs| && k <= |ys| {
      SamePrefix(x, y, k);
      forall i | 0 <= i < k ensures x[i] == y[i] <==> Level(xs[i], ys[i]) { KeysAt(xs, ys, i); }
      if k < |xs| && k < |ys| { KeysAt(xs, ys, k); }
    }
  }

  /** The members in the order of their keys. */
  ghost predicate Arranged(s: seq<Member>, members: seq<Member>) {
    && multiset(s) == multiset(members)
    && forall i, j :: 0 <= i < j < |s| ==> s[i].key != s[j].key && InTextOrder(s[i].key, s[j].key)
  }

  /** The earlier key, or the smaller value under one key. */
  ghost predicate MemberBefore(a: Member, b: Member) {
    if a.key == b.key then !ValueLeq(b.value, a.value) else InTextOrder(a.key, b.key)
  }

  /** The arranged members are level before `k`; there the first has ended or has the earlier member. */
  ghost predicate MembersDecided(s: seq<Member>, t: seq<Member>, k: int) {
    && 0 <= k <= |s| && k <= |t|
    && (forall i :: 0 <= i < k ==> s[i].key == t[i].key && Level(s[i].value, t[i].value))
    && (k == |s| || (k < |t| && MemberBefore(s[k], t[k])))
  }

  lemma PairsCompare(a: Member, b: Member)
    ensures var x, y := Pair(Keyed(a.key, OrderKey(a.value))), Pair(Keyed(b.key, OrderKey(b.value)));
            && (x == y <==> a.key == b.key && Level(a.value, b.value))
            && (Cmp(x, y) < 0 <==> MemberBefore(a, b))
  {
    hide OrderKey, InTextOrder, Cmp, ValueLeq, Level, StringLeq;
    var p, q := PyTuple([PyStr(a.key), OrderKey(a.value)]), PyTuple([PyStr(b.key), OrderKey(b.value)]);
    LevelKeys(a.value, b.value);
    assert p == q <==> p.items[0] == q.items[0] && p.items[1] == q.items[1];
    if a.key == b.key {
      SecondDecides(PyStr(a.key), OrderKey(a.value), OrderKey(b.value));
    } else {
      FirstDecides(p.items, q.items);
      ScalarsInOrder(PyStr(a.key), PyStr(b.key));
      CmpZero(PyStr(a.key), PyStr(b.key));
      StringMeaning(a.key, b.key);
    }
  }

  /** The keys of a list, entry by entry. */
  lemma {:induction false} KeysOfPermutation(a: seq<Json>, b: seq<Json>)
    requires multiset(a) == multiset(b)
    ensures multiset(OrderKeys(a)) == multiset(OrderKeys(b))
    decreases |a|
  {
    hide OrderKey, OrderKeys;
    if a == [] {
      assert |multiset(b)| == 0;
    } else {
      var j := FindFirst(a, b);
      KeysOfPermutation(a[1..], b[..j] + b[j + 1..]);
      KeysRemove(a, 0);
      assert a[..0] + a[0 + 1..] == a[1..];
      KeysRemove(b, j);
    }
  }

  lemma KeysCons(x: Json, rest: seq<Json>)
    ensures OrderKeys([x] + rest) == [OrderKey(x)] + OrderKeys(rest)
  {
    hide OrderKey;
    assert ([x] + rest)[1..] == rest;
  }

  lemma {:induction false} KeysRemove(b: seq<Json>, j: nat)
    requires j < |b|
    ensures multiset(OrderKeys(b)) == multiset{OrderKey(b[j])} + multiset(OrderKeys(b[..j] + b[j + 1..]))
    decreases |b|
  {
    hide OrderKey, OrderKeys;
    var rest := b[..j] + b[j + 1..];
    assert b == [b[0]] + b[1..];
    KeysCons(b[0], b[1..]);
    if j == 0 {
      assert rest == b[1..];
    } else {
      KeysRemove(b[1..], j - 1);
      var inner := b[1..][..j - 1] + b[1..][j..];
      assert rest == [b[0]] + inner;
      KeysCons(b[0], inner);
    }
  }

  lemma SortedKeys(values: seq<Json>)
    ensures SortedBy(PyLeq, OrderKeys(CanonicalSeries(values)))
    ensures SortedBy(ValueLeq, CanonicalSeries(values))
    ensures multiset(CanonicalSeries(values)) == multiset(values)
  {
    PyOrder();
    assert TotalOrder(ValueLeq) by {
      forall a, b ensures ValueLeq(a, b) || ValueLeq(b, a) { CmpFlips(OrderKey(a), OrderKey(b)); }
      forall a, b, c | ValueLeq(a, b) && ValueLeq(b, c) ensures ValueLeq(a, c) {
        CmpTransitive(OrderKey(a), OrderKey(b), OrderKey(c));
      }
    }
    SortBySorts(ValueLeq, values);
    var s := CanonicalSeries(values);
    forall i, j | 0 <= i < j < |s| ensures PyLeq(OrderKeys(s)[i], OrderKeys(s)[j]) {
      OrderKeysAt(s, i);
      OrderKeysAt(s, j);
      assert ValueLeq(s[i], s[j]);
    }
  }

  lemma {:induction false} InKeyed(members: seq<Member>, k: Keyed)
    ensures k in KeyedMembers(members) <==> exists m :: m in members && k == Keyed(m.key, OrderKey(m.value))
  {
    hide OrderKey, KeyedMembers;
    var ks := KeyedMembers(members);
    if k in ks {
      var i :| 0 <= i < |ks| && ks[i] == k;
      KeyedAt(members, i);
      assert members[i] in members;
    }
    if exists m :: m in members && k == Keyed(m.key, OrderKey(m.value)) {
      var m :| m in members && k == Keyed(m.key, OrderKey(m.value));
      var i :| 0 <= i < |members| && members[i] == m;
      KeyedAt(members, i);
      assert ks[i] in ks;
    }
  }

  /** An arrangement by key is what sorting the keyed members gives. */
  lemma ArrangedSorts(s: seq<Member>, members: seq<Member>)
    requires Arranged(s, members) && UniqueKeys(members)
    ensures SortBy(KeyedLeq, KeyedMembers(members)) == KeyedMembers(s)
  {
    hide OrderKey, KeyedMembers, SortBy, KeyedLeq, InTextOrder;
    var ks, ls := KeyedMembers(s), KeyedMembers(members);
    MembersDistinct(s);
    MembersDistinct(members);
    ArrangedKeys(s, members);
    forall k ensures k in ks <==> k in ls {
      InKeyed(s, k);
      InKeyed(members, k);
      forall m ensures m in s <==> m in members { InBoth(s, members, m); }
    }
    SameEntriesSortSame(ks, ls);
    KeyedOrder();
    SortBySorts(KeyedLeq, ks);
    SortedUnique(KeyedLeq, SortBy(KeyedLeq, ks), ks);
  }

  lemma InBoth(s: seq<Member>, t: seq<Member>, m: Member)
    requires multiset(s) == multiset(t)
    ensures m in s <==> m in t
  {
    assert m in s <==> m in multiset(s);
    assert m in t <==> m in multiset(t);
  }

  lemma ArrangedKeys(s: seq<Member>, members: seq<Member>)
    requires Arranged(s, members)
    ensures SortedBy(KeyedLeq, KeyedMembers(s))
  {
    hide OrderKey, KeyedMembers, InTextOrder, Cmp;
    var ks := KeyedMembers(s);
    forall i, j | 0 <= i < j < |ks| ensures KeyedLeq(ks[i], ks[j]) {
      KeyedAt(s, i);
      KeyedAt(s, j);
      StringMeaning(s[i].key, s[j].key);
    }
  }

  /** Every object has an arrangement. */
  lemma ArrangementExists(members: seq<Member>)
    requires UniqueKeys(members)
    ensures exists s :: Arranged(s, members)
  {
    hide OrderKey, SortBy, Cmp, InTextOrder, StringLeq;
    var leq := ByKey(ValueLeq);
    var s := SortBy(leq, members);
    KeyedOrder();
    forall a: Member, b: Member
      ensures leq(a, b) == KeyedLeq(Keyed(a.key, OrderKey(a.value)), Keyed(b.key, OrderKey(b.value)))
    {
      assert a.key == b.key ==> leq(a, b) == ValueLeq(a.value, b.value);
    }
    assert TotalOrder(leq);
    SortBySorts(leq, members);
    forall i, j | 0 <= i < j < |s| ensures s[i].key != s[j].key && InTextOrder(s[i].key, s[j].key) {
      assert leq(s[i], s[j]);
      KeysStayUnique(members, s, i, j);
      StringMeaning(s[i].key, s[j].key);
    }
    assert Arranged(s, members);
  }

  lemma KeysStayUnique(members: seq<Member>, s: seq<Member>, i: nat, j: nat)
    requires UniqueKeys(members) && multiset(s) == multiset(members) && i < j < |s|
    ensures s[i].key != s[j].key
  {
    InBoth(s, members, s[i]);
    InBoth(s, members, s[j]);
    if s[i] == s[j] {
      MemberOnce(members, s[i]);
      Twice(s, i, j);
      assert false;
    }
  }

  lemma {:induction false} MemberOnce(members: seq<Member>, m: Member)
    requires UniqueKeys(members)
    ensures multiset(members)[m] <= 1
    decreases |members|
  {
    if members != [] {
      var n := |members| - 1;
      assert members == members[..n] + [members[n]];
      MemberOnce(members[..n], m);
      if m == members[n] { assert m !in members[..n]; }
    }
  }

  /** Objects compare member by member in the order of their keys, first the keys and then the values. */
  lemma ObjectsInOrder(xs: seq<Member>, ys: seq<Member>, s: seq<Member>, t: seq<Member>)
    requires UniqueKeys(xs) && UniqueKeys(ys) && Arranged(s, xs) && Arranged(t, ys)
    ensures ValueLeq(Obj(xs), Obj(ys)) <==> exists k :: MembersDecided(s, t, k)
  {
    hide Cmp, CmpAll, KeyedMembers, KeysDecided, MembersDecided, Pairs, SortBy, Arranged, UniqueKeys;
    ArrangedSorts(s, xs);
    ArrangedSorts(t, ys);
    var x, y := Pairs(KeyedMembers(s)), Pairs(KeyedMembers(t));
    SecondDecides(PyStr("5-object"), PyTuple(x), PyTuple(y));
    TuplesCompare(x, y);
    CmpAllDecided(x, y);
    forall k ensures KeysDecided(x, y, k) <==> MembersDecided(s, t, k) {
      MembersAlike(s, t, k);
    }
  }

  lemma PairsAt(s: seq<Member>, t: seq<Member>, i: nat)
    requires i < |s| && i < |t|
    ensures var x, y := Pairs(KeyedMembers(s))[i], Pairs(KeyedMembers(t))[i];
            && (x == y <==> s[i].key == t[i].key && Level(s[i].value, t[i].value))
            && (Cmp(x, y) < 0 <==> MemberBefore(s[i], t[i]))
  {
    hide Cmp, OrderKey, KeyedMembers, Level, ValueLeq, InTextOrder, Pair;
    KeyedAt(s, i);
    KeyedAt(t, i);
    PairsCompare(s[i], t[i]);
  }

  lemma MembersAlike(s: seq<Member>, t: seq<Member>, k: int)
    ensures KeysDecided(Pairs(KeyedMembers(s)), Pairs(KeyedMembers(t)), k) <==> MembersDecided(s, t, k)
  {
    hide Cmp, OrderKey, KeyedMembers, Level, ValueLeq, InTextOrder, Pair, Pairs, MemberBefore;
    var x, y := Pairs(KeyedMembers(s)), Pairs(KeyedMembers(t));
    if 0 <= k <= |s| && k <= |t| {
      SamePrefix(x, y, k);
      forall i | 0 <= i < k ensures x[i] == y[i] <==> s[i].key == t[i].key && Level(s[i].value, t[i].value) {
        PairsAt(s, t, i);
      }
      if k < |s| && k < |t| { PairsAt(s, t, k); }
    }
  }

  /**
   * The canonical list is the declared one with nulls, booleans, numbers, strings, arrays and objects in this
   * order, and within a kind the smaller value first.
   */
  lemma CanonicalSorted(values: seq<Json>, i: nat, j: nat)
    requires i < j < |CanonicalSeries(values)|
    ensures multiset(CanonicalSeries(values)) == multiset(values)
    ensures var a, b := CanonicalSeries(values)[i], CanonicalSeries(values)[j];
            && Kind(a) <= Kind(b)
            && (a.Bool? && b.Bool? ==> !a.b || b.b)
            && (Kind(a) == Kind(b) == 2 ==> NumberOf(a) <= NumberOf(b))
            && (a.Str? && b.Str? ==> InTextOrder(a.s, b.s))
            && (a.Arr? && b.Arr? ==> exists k :: ItemsDecided(a.items, b.items, k))
            && (a.Obj? && b.Obj? && UniqueKeys(a.members) && UniqueKeys(b.members) ==>
                  forall s, t :: Arranged(s, a.members) && Arranged(t, b.members) ==>
                    exists k :: MembersDecided(s, t, k))
  {
    hide CanonicalSeries, ValueLeq, ItemsDecided, MembersDecided, Arranged, UniqueKeys, InTextOrder, Kind, NumberOf;
    var a, b := CanonicalSeries(values)[i], CanonicalSeries(values)[j];
    SortedKeys(values);
    assert ValueLeq(a, b);
    KindsInOrder(a, b);
    if a.Arr? && b.Arr? { ArraysInOrder(a.items, b.items); }
    if a.Obj? && b.Obj? && UniqueKeys(a.members) && UniqueKeys(b.members) {
      forall s, t | Arranged(s, a.members) && Arranged(t, b.members) ensures exists k :: MembersDecided(s, t, k) {
        ObjectsInOrder(a.members, b.members, s, t);
      }
    }
  }

  /** The canonical list does not depend on the order of declaration, up to equality of values. */
  lemma CanonicalIsOrderFree(a: seq<Json>, b: seq<Json>, i: nat)
    requires multiset(a) == multiset(b) && i < |CanonicalSeries(a)|
    requires forall v :: v in a ==> WellFormed(v)
    ensures |CanonicalSeries(a)| == |CanonicalSeries(b)|
    ensures Same(CanonicalSeries(a)[i], CanonicalSeries(b)[i])
  {
    var s, t := CanonicalSeries(a), CanonicalSeries(b);
    SortedKeys(a);
    SortedKeys(b);
    PyOrder();
    KeysOfPermutation(s, t);
    SortedUnique(PyLeq, OrderKeys(s), OrderKeys(t));
    OrderKeysAt(s, i);
    OrderKeysAt(t, i);
    assert s[i] in multiset(s) && t[i] in multiset(t);
    assert s[i] in multiset(a) && t[i] in multiset(a);
    assert s[i] in a && t[i] in a;
    EqualKeysSameValues(s[i], t[i]);
  }
}
