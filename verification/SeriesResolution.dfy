/** Resolution of declared series: resolve, sort by registry order, drop repeats. */
module SeriesResolution {
  import opened Sequences
  import opened Sorting

  /** One registry calculation bound to a timeframe. */
  datatype Item = Item(identifier: string, name: string, timeframe: string)

  /** What the resolver knows of the registries: positions of the indicators, and Python's `casefold`. */
  datatype Registry = Registry(order: map<string, nat>, fold: string -> string)

  /** Indicators by registry position, then patterns by folded name, then by timeframe. */
  datatype Key = Indicator(index: nat, timeframe: string) | Pattern(folded: string, timeframe: string)

  function KeyOf(reg: Registry, item: Item): Key {
    if item.identifier in reg.order then Indicator(reg.order[item.identifier], item.timeframe)
    else Pattern(reg.fold(item.name), item.timeframe)
  }

  predicate KeyLeq(a: Key, b: Key) {
    match (a, b)
    case (Indicator(_, _), Pattern(_, _)) => true
    case (Pattern(_, _), Indicator(_, _)) => false
    case (Indicator(i, s), Indicator(j, t)) => i < j || (i == j && StringLeq(s, t))
    case (Pattern(m, s), Pattern(n, t)) => (m != n && StringLeq(m, n)) || (m == n && StringLeq(s, t))
  }

  lemma KeyTotal(a: Key, b: Key)
    ensures KeyLeq(a, b) || KeyLeq(b, a)
  {
    StringTotal(a.timeframe, b.timeframe);
    if a.Pattern? && b.Pattern? { StringTotal(a.folded, b.folded); }
  }

  lemma KeyAntisymmetric(a: Key, b: Key)
    requires KeyLeq(a, b) && KeyLeq(b, a)
    ensures a == b
  {
    if a.Pattern? && a.folded != b.folded { StringAntisymmetric(a.folded, b.folded); }
    StringAntisymmetric(a.timeframe, b.timeframe);
  }

  lemma KeyTransitive(a: Key, b: Key, c: Key)
    requires KeyLeq(a, b) && KeyLeq(b, c)
    ensures KeyLeq(a, c)
  {
    if a.Pattern? && a.folded != b.folded && b.folded != c.folded {
      StringTransitive(a.folded, b.folded, c.folded);
      if a.folded == c.folded { StringAntisymmetric(a.folded, b.folded); }
    }
    if StringLeq(a.timeframe, b.timeframe) && StringLeq(b.timeframe, c.timeframe) {
      StringTransitive(a.timeframe, b.timeframe, c.timeframe);
    }
  }

  /** Indicators first and by position; the others by folded name; then by timeframe, all in text order. */
  ghost predicate InRegistryOrder(reg: Registry, a: Item, b: Item) {
    if a.identifier in reg.order && b.identifier in reg.order then
      || reg.order[a.identifier] < reg.order[b.identifier]
      || (reg.order[a.identifier] == reg.order[b.identifier] && InTextOrder(a.timeframe, b.timeframe))
    else if a.identifier in reg.order || b.identifier in reg.order then
      a.identifier in reg.order
    else
      || (reg.fold(a.name) != reg.fold(b.name) && InTextOrder(reg.fold(a.name), reg.fold(b.name)))
      || (reg.fold(a.name) == reg.fold(b.name) && InTextOrder(a.timeframe, b.timeframe))
  }

  lemma KeyMeaning(reg: Registry, a: Item, b: Item)
    ensures KeyLeq(KeyOf(reg, a), KeyOf(reg, b)) <==> InRegistryOrder(reg, a, b)
  {
    StringMeaning(a.timeframe, b.timeframe);
    StringMeaning(reg.fold(a.name), reg.fold(b.name));
  }

  function ItemLeq(reg: Registry): (Item, Item) -> bool {
    (a: Item, b: Item) => KeyLeq(KeyOf(reg, a), KeyOf(reg, b))
  }

  lemma ItemOrder(reg: Registry)
    ensures TotalOrder(ItemLeq(reg))
  {
    var leq := ItemLeq(reg);
    forall a: Item, b: Item ensures leq(a, b) || leq(b, a) { KeyTotal(KeyOf(reg, a), KeyOf(reg, b)); }
    forall a: Item, b: Item, c: Item | leq(a, b) && leq(b, c) ensures leq(a, c) {
      KeyTransitive(KeyOf(reg, a), KeyOf(reg, b), KeyOf(reg, c));
    }
  }

  function Identity(item: Item): (string, string) { (item.identifier, item.timeframe) }

  function Identities(s: seq<Item>): set<(string, string)> { set x | x in s :: Identity(x) }

  /** The first item of each identity, in order. */
  function Dedupe(s: seq<Item>): seq<Item> {
    if s == [] then [] else
      var d, x := Dedupe(s[..|s| - 1]), s[|s| - 1];
      if Identity(x) in Identities(d) then d else d + [x]
  }

  function Resolved(reg: Registry, items: seq<Item>): seq<Item> { Dedupe(SortBy(ItemLeq(reg), items)) }

  ghost predicate AllResolve<D>(descriptors: seq<D>, resolve: D -> Option<Item>) {
    forall i :: 0 <= i < |descriptors| ==> resolve(descriptors[i]).Some?
  }

  ghost function ItemsOf<D>(descriptors: seq<D>, resolve: D -> Option<Item>): seq<Item>
    requires AllResolve(descriptors, resolve)
  {
    seq(|descriptors|, i requires 0 <= i < |descriptors| => resolve(descriptors[i]).value)
  }

  /** In registry order, no identifier and timeframe twice, and exactly the declared ones. */
  ghost predicate ListsDeclared(reg: Registry, r: seq<Item>, items: seq<Item>) {
    && (forall i, j :: 0 <= i < j < |r| ==> InRegistryOrder(reg, r[i], r[j]))
    && (forall i, j :: 0 <= i < j < |r| ==> r[i].identifier != r[j].identifier || r[i].timeframe != r[j].timeframe)
    && (forall x :: x in r ==> x in items)
    && (forall x :: x in items ==> exists y :: y in r && y.identifier == x.identifier && y.timeframe == x.timeframe)
  }

  /** Resolves every descriptor, sorts in place, keeps the first of each identity; `None` when one does not resolve. */
  method SeriesSpecs<D>(reg: Registry, descriptors: seq<D>, resolve: D -> Option<Item>)
    returns (r: Option<seq<Item>>)
    ensures r.Some? <==> AllResolve(descriptors, resolve)
    ensures r.Some? ==> r.value == Resolved(reg, ItemsOf(descriptors, resolve))
    ensures r.Some? ==> ListsDeclared(reg, r.value, ItemsOf(descriptors, resolve))
  {
    hide SortBy, ItemLeq, Dedupe, ListsDeclared;
    var resolved: seq<Item> := [];
    for i := 0 to |descriptors|
      invariant |resolved| == i
      invariant forall k :: 0 <= k < i ==> resolve(descriptors[k]) == Some(resolved[k])
    {
      var item := resolve(descriptors[i]);
      if item.None? {
        return None;
      }
      resolved := resolved + [item.value];
    }
    assert resolved == ItemsOf(descriptors, resolve);
    var sorted := SortBy(ItemLeq(reg), resolved);
    var unique := DropRepeats(sorted);
    ResolvedLists(reg, resolved);
    r := Some(unique);
  }

  /** The last loop: an item is kept when its identity has not been seen. */
  method DropRepeats(sorted: seq<Item>) returns (unique: seq<Item>)
    ensures unique == Dedupe(sorted)
  {
    unique := [];
    var seen: set<(string, string)> := {};
    for i := 0 to |sorted|
      invariant unique == Dedupe(sorted[..i])
      invariant seen == Identities(unique)
    {
      assert sorted[..i + 1][..i] == sorted[..i];
      var item := sorted[i];
      if Identity(item) !in seen {
        seen := seen + {Identity(item)};
        unique := unique + [item];
      }
    }
    assert sorted[..|sorted|] == sorted;
  }

  // ---- what the result is --------------------------------------------------------------------

  /** One identifier and timeframe name one item. */
  ghost predicate Consistent(s: seq<Item>) {
    forall x, y :: x in s && y in s && Identity(x) == Identity(y) ==> x == y
  }

  /** Items that sort alike are the same calculation. */
  ghost predicate NoClash(reg: Registry, s: seq<Item>) {
    forall x, y :: x in s && y in s && KeyOf(reg, x) == KeyOf(reg, y) ==> Identity(x) == Identity(y)
  }

  ghost predicate SameItems(s: seq<Item>, t: seq<Item>) { forall x :: x in s <==> x in t }

  lemma IdentitiesSnoc(s: seq<Item>, x: Item)
    ensures Identities(s + [x]) == Identities(s) + {Identity(x)}
    ensures forall i :: 0 <= i < |s| ==> Identity(s[i]) in Identities(s)
  {
    assert forall i :: 0 <= i < |s| ==> s[i] in s;
  }

  lemma {:induction false} DedupeKeeps(s: seq<Item>)
    ensures forall x :: x in Dedupe(s) ==> x in s
    ensures Identities(Dedupe(s)) == Identities(s)
    ensures forall i, j :: 0 <= i < j < |Dedupe(s)| ==> Identity(Dedupe(s)[i]) != Identity(Dedupe(s)[j])
    decreases |s|
  {
    hide Identities, Identity;
    if s != [] {
      var m := |s| - 1;
      DedupeKeeps(s[..m]);
      assert s == s[..m] + [s[m]];
      var d := Dedupe(s[..m]);
      IdentitiesSnoc(s[..m], s[m]);
      IdentitiesSnoc(d, s[m]);
    }
  }

  lemma {:induction false} DedupeSorted(leq: (Item, Item) -> bool, s: seq<Item>)
    requires SortedBy(leq, s)
    ensures SortedBy(leq, Dedupe(s))
    decreases |s|
  {
    if s != [] {
      var m := |s| - 1;
      DedupeSorted(leq, s[..m]);
      DedupeKeeps(s[..m]);
      var d := Dedupe(s[..m]);
      forall i | 0 <= i < |d| ensures leq(d[i], s[m]) {
        assert d[i] in d;
        var k :| 0 <= k < m && s[..m][k] == d[i];
        assert s[k] == d[i];
      }
    }
  }

  /** Always: in registry order, no calculation twice, and exactly the declared ones. */
  lemma ResolvedContract(reg: Registry, items: seq<Item>)
    ensures var r := Resolved(reg, items);
            && SortedBy(ItemLeq(reg), r)
            && (forall x :: x in r ==> x in items)
            && Identities(r) == Identities(items)
            && (forall i, j :: 0 <= i < j < |r| ==> Identity(r[i]) != Identity(r[j]))
  {
    var leq := ItemLeq(reg);
    var sorted := SortBy(leq, items);
    ItemOrder(reg);
    SortBySorts(leq, items);
    DedupeSorted(leq, sorted);
    DedupeKeeps(sorted);
    SortedItems(leq, items);
  }

  lemma ContractLists(reg: Registry, r: seq<Item>, items: seq<Item>)
    requires SortedBy(ItemLeq(reg), r) && Identities(r) == Identities(items)
    requires forall x :: x in r ==> x in items
    requires forall i, j :: 0 <= i < j < |r| ==> Identity(r[i]) != Identity(r[j])
    ensures ListsDeclared(reg, r, items)
  {
    hide KeyOf, KeyLeq;
    forall i, j | 0 <= i < j < |r| ensures InRegistryOrder(reg, r[i], r[j]) {
      assert ItemLeq(reg)(r[i], r[j]);
      KeyMeaning(reg, r[i], r[j]);
    }
    hide InRegistryOrder;
    forall x | x in items ensures exists y :: y in r && y.identifier == x.identifier && y.timeframe == x.timeframe {
      assert Identity(x) in Identities(r);
      var y :| y in r && Identity(y) == Identity(x);
    }
  }

  /** The same in terms of the items alone. */
  lemma ResolvedLists(reg: Registry, items: seq<Item>)
    ensures ListsDeclared(reg, Resolved(reg, items), items)
  {
    hide Resolved, ListsDeclared;
    ResolvedContract(reg, items);
    ContractLists(reg, Resolved(reg, items), items);
  }

  lemma SortedItems(leq: (Item, Item) -> bool, items: seq<Item>)
    ensures SameItems(SortBy(leq, items), items)
    ensures Identities(SortBy(leq, items)) == Identities(items)
  {
    SortBySorts(leq, items);
    var sorted := SortBy(leq, items);
    forall x ensures x in sorted <==> x in items {
      assert x in sorted <==> x in multiset(sorted);
      assert x in items <==> x in multiset(items);
    }
  }

  ghost predicate StrictlySorted(reg: Registry, s: seq<Item>) {
    forall i, j :: 0 <= i < j < |s| ==> KeyOf(reg, s[i]) != KeyOf(reg, s[j]) && ItemLeq(reg)(s[i], s[j])
  }

  /** Without clashes the order is strict and the items are exactly the declared ones. */
  lemma ResolvedStrict(reg: Registry, items: seq<Item>)
    requires Consistent(items) && NoClash(reg, items)
    ensures StrictlySorted(reg, Resolved(reg, items))
    ensures SameItems(Resolved(reg, items), items)
  {
    var r := Resolved(reg, items);
    ResolvedContract(reg, items);
    forall i, j | 0 <= i < j < |r| ensures KeyOf(reg, r[i]) != KeyOf(reg, r[j]) {
      assert r[i] in r && r[j] in r;
    }
    forall x | x in items ensures x in r {
      assert Identity(x) in Identities(items);
      assert Identity(x) in Identities(r);
      var y :| y in r && Identity(y) == Identity(x);
    }
  }

  /** A strictly sorted list is determined by its items. */
  lemma {:induction false} StrictUnique(reg: Registry, a: seq<Item>, b: seq<Item>)
    requires StrictlySorted(reg, a) && StrictlySorted(reg, b) && SameItems(a, b)
    ensures a == b
    decreases |a|
  {
    if a == [] {
      FirstIn(b);
    } else {
      assert a[0] in a;
      assert b != [];
      assert b[0] in b;
      SmallestFirst(reg, a, b);
      assert a == [a[0]] + a[1..] && b == [b[0]] + b[1..];
      forall x ensures x in a[1..] <==> x in b[1..] {
        assert a[0] !in a[1..] && b[0] !in b[1..];
        assert x in a <==> x == a[0] || x in a[1..];
        assert x in b <==> x == b[0] || x in b[1..];
      }
      StrictUnique(reg, a[1..], b[1..]);
    }
  }

  lemma FirstIn(b: seq<Item>)
    ensures b != [] ==> b[0] in b
  {
  }

  lemma SmallestFirst(reg: Registry, a: seq<Item>, b: seq<Item>)
    requires StrictlySorted(reg, a) && StrictlySorted(reg, b) && SameItems(a, b) && a != [] && b != []
    ensures a[0] == b[0]
  {
    assert a[0] in b && b[0] in a;
    if a[0] != b[0] {
      assert ItemLeq(reg)(a[0], b[0]) && ItemLeq(reg)(b[0], a[0]);
      KeyAntisymmetric(KeyOf(reg, a[0]), KeyOf(reg, b[0]));
      assert false;
    }
  }

  // ---- when declaration order matters ----------------------------------------------------------

  /** The first item that does not sort before `x`. */
  function FirstFrom(leq: (Item, Item) -> bool, x: Item, s: seq<Item>): Option<Item> {
    if s == [] then None else if leq(x, s[0]) then Some(s[0]) else FirstFrom(leq, x, s[1..])
  }

  lemma {:induction false} InsertedIsFirst(leq: (Item, Item) -> bool, x: Item, s: seq<Item>)
    requires leq(x, x)
    ensures FirstFrom(leq, x, InsertBy(leq, x, s)) == Some(x)
    decreases |s|
  {
    if s != [] && !leq(x, s[0]) {
      InsertedIsFirst(leq, x, s[1..]);
      assert InsertBy(leq, x, s)[1..] == InsertBy(leq, x, s[1..]);
    }
  }

  lemma {:induction false} FirstFromSnoc(leq: (Item, Item) -> bool, x: Item, s: seq<Item>, y: Item)
    ensures FirstFrom(leq, x, s + [y]) ==
            if FirstFrom(leq, x, s).Some? then FirstFrom(leq, x, s) else if leq(x, y) then Some(y) else None
    decreases |s|
  {
    if s == [] {
      assert s + [y] == [y];
    } else {
      assert (s + [y])[1..] == s[1..] + [y];
      FirstFromSnoc(leq, x, s[1..], y);
    }
  }

  lemma {:induction false} FirstFromNone(leq: (Item, Item) -> bool, x: Item, s: seq<Item>)
    ensures FirstFrom(leq, x, s).None? <==> forall y :: y in s ==> !leq(x, y)
    decreases |s|
  {
    if s != [] {
      FirstFromNone(leq, x, s[1..]);
      assert s == [s[0]] + s[1..];
    }
  }

  /** Dropping repeats does not change which item comes first from a point on. */
  lemma {:induction false} DedupeFirst(leq: (Item, Item) -> bool, x: Item, s: seq<Item>)
    requires Consistent(s)
    ensures FirstFrom(leq, x, Dedupe(s)) == FirstFrom(leq, x, s)
    decreases |s|
  {
    if s != [] {
      var m := |s| - 1;
      var d, y := Dedupe(s[..m]), s[m];
      assert s == s[..m] + [y];
      assert forall z :: z in s[..m] ==> z in s;
      DedupeFirst(leq, x, s[..m]);
      DedupeKeeps(s[..m]);
      FirstFromSnoc(leq, x, s[..m], y);
      FirstFromSnoc(leq, x, d, y);
      if Identity(y) in Identities(d) {
        var z :| z in d && Identity(z) == Identity(y);
        assert z in s && y in s;
        assert z == y;
        FirstFromNone(leq, x, d);
      }
    }
  }

  /** Declared first, an item comes first among those that sort with it. */
  lemma DeclaredFirst(reg: Registry, x: Item, rest: seq<Item>)
    requires Consistent([x] + rest)
    ensures FirstFrom(ItemLeq(reg), x, Resolved(reg, [x] + rest)) == Some(x)
  {
    var leq := ItemLeq(reg);
    ItemOrder(reg);
    assert leq(x, x);
    var s := [x] + rest;
    assert s[1..] == rest;
    InsertedIsFirst(leq, x, SortBy(leq, rest));
    SortedItems(leq, s);
    DedupeFirst(leq, x, SortBy(leq, s));
  }

  lemma {:induction false} FirstFromCongruent(leq: (Item, Item) -> bool, x: Item, y: Item, s: seq<Item>)
    requires forall z :: leq(x, z) == leq(y, z)
    ensures FirstFrom(leq, x, s) == FirstFrom(leq, y, s)
    decreases |s|
  {
    if s != [] { FirstFromCongruent(leq, x, y, s[1..]); }
  }

  /** Two clashing items: which one is declared first shows in the result. */
  lemma ClashShows(reg: Registry, s: seq<Item>, x: Item, y: Item)
    requires Consistent(s) && x in s && y in s && KeyOf(reg, x) == KeyOf(reg, y) && x != y
    ensures SameItems([x] + s, s) && SameItems([y] + s, s)
    ensures Resolved(reg, [x] + s) != Resolved(reg, [y] + s)
  {
    DeclaredFirst(reg, x, s);
    DeclaredFirst(reg, y, s);
    FirstFromCongruent(ItemLeq(reg), x, y, Resolved(reg, [x] + s));
  }

  /** Declaring the same items in any order and any number of times gives the same result. */
  ghost predicate OrderFree(reg: Registry, s: seq<Item>) {
    forall t :: SameItems(t, s) ==> Resolved(reg, t) == Resolved(reg, s)
  }

  lemma SameItemsResolve(reg: Registry, t: seq<Item>, s: seq<Item>)
    requires Consistent(s) && NoClash(reg, s) && SameItems(t, s)
    ensures Resolved(reg, t) == Resolved(reg, s)
  {
    hide Resolved, KeyOf;
    ResolvedStrict(reg, s);
    ResolvedStrict(reg, t);
    StrictUnique(reg, Resolved(reg, t), Resolved(reg, s));
  }

  /** Resolution is independent of declaration order and repetition exactly when no two items clash. */
  lemma OrderFreeExactly(reg: Registry, s: seq<Item>)
    requires Consistent(s)
    ensures OrderFree(reg, s) <==> NoClash(reg, s)
  {
    hide Resolved, KeyOf;
    if NoClash(reg, s) {
      forall t | SameItems(t, s) ensures Resolved(reg, t) == Resolved(reg, s) {
        SameItemsResolve(reg, t, s);
      }
    } else {
      var x, y :| x in s && y in s && KeyOf(reg, x) == KeyOf(reg, y) && Identity(x) != Identity(y);
      ClashShows(reg, s, x, y);
    }
  }

  predicate SamePattern(reg: Registry, x: Item, y: Item) {
    x.identifier !in reg.order && y.identifier !in reg.order && reg.fold(x.name) == reg.fold(y.name)
  }

  /** Indicators have their own position, and no two patterns fold to one name. */
  ghost predicate UniqueNames(reg: Registry, s: seq<Item>) {
    && (forall a, b :: a in reg.order && b in reg.order && reg.order[a] == reg.order[b] ==> a == b)
    && (forall x, y :: x in s && y in s && SamePattern(reg, x, y) ==> x.identifier == y.identifier)
  }

  /** The registries' own uniqueness rules exclude clashes, so resolution is canonical. */
  lemma UniqueNamesResolve(reg: Registry, s: seq<Item>)
    requires Consistent(s) && UniqueNames(reg, s)
    ensures NoClash(reg, s) && OrderFree(reg, s)
  {
    hide OrderFree, Consistent;
    forall x, y | x in s && y in s && KeyOf(reg, x) == KeyOf(reg, y) ensures Identity(x) == Identity(y) {
    }
    OrderFreeExactly(reg, s);
  }
}
