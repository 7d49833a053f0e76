/** Stored fixed-point integers, the server's decimal text, and the client's digit grouping. */
module Decimals {
  import opened Sequences

  function Pow10(k: nat): nat { if k == 0 then 1 else 10 * Pow10(k - 1) }

  predicate IsDigit(c: char) { '0' <= c <= '9' }

  ghost predicate AllDigits(s: string) { forall i :: 0 <= i < |s| ==> IsDigit(s[i]) }

  function DigitChar(d: nat): (c: char)
    requires d < 10
    ensures IsDigit(c) && c as int - '0' as int == d
  {
    ('0' as int + d) as char
  }

  /** Decimal digits of a natural number, without leading zeros. */
  function Digits(n: nat): (s: string)
    ensures s != "" && AllDigits(s)
    ensures s[0] == '0' <==> n == 0
    ensures n == 0 ==> s == "0"
  {
    if n < 10 then [DigitChar(n)] else Digits(n / 10) + [DigitChar(n % 10)]
  }

  /** The number a string of digits stands for. */
  function NatOf(s: string): int {
    if s == "" then 0 else NatOf(s[..|s| - 1]) * 10 + (s[|s| - 1] as int - '0' as int)
  }

  lemma {:induction false} DigitsRead(n: nat)
    ensures NatOf(Digits(n)) == n
    decreases n
  {
    if n < 10 {
      assert Digits(n)[..0] == "";
    } else {
      DigitsRead(n / 10);
      assert Digits(n)[..|Digits(n)| - 1] == Digits(n / 10);
    }
  }

  function Zeros(k: nat): (s: string)
    ensures |s| == k && AllDigits(s)
  {
    if k == 0 then "" else Zeros(k - 1) + "0"
  }

  lemma {:induction false} ZerosRead(k: nat, s: string)
    ensures NatOf(Zeros(k) + s) == NatOf(s)
    decreases k + |s|
  {
    if s == "" {
      assert Zeros(k) + s == Zeros(k);
      if k > 0 {
        assert Zeros(k)[..k - 1] == Zeros(k - 1) == Zeros(k - 1) + "";
        ZerosRead(k - 1, "");
      }
    } else {
      assert (Zeros(k) + s)[..k + |s| - 1] == Zeros(k) + s[..|s| - 1];
      ZerosRead(k, s[..|s| - 1]);
    }
  }

  // ---- the server ------------------------------------------------------------------------

  const SCALE := 8

  /** A decimal number `coefficient / 10^places`. */
  datatype Decimal = Decimal(negative: bool, coefficient: nat, places: nat)

  /** Division keeps as few places as the exact quotient needs. */
  function Reduce(coefficient: nat, places: nat): (r: (nat, nat))
    ensures r.1 <= places
    ensures r.0 * Pow10(places - r.1) == coefficient
    ensures r.1 == 0 || r.0 % 10 != 0
    decreases places
  {
    if places > 0 && coefficient % 10 == 0 then
      var r := Reduce(coefficient / 10, places - 1);
      assert Pow10(places - r.1) == 10 * Pow10(places - 1 - r.1);
      assert r.0 * (10 * Pow10(places - 1 - r.1)) == 10 * (r.0 * Pow10(places - 1 - r.1));
      r
    else
      assert coefficient * 1 == coefficient;
      (coefficient, places)
  }

  function Abs(v: int): nat { if v < 0 then -v else v }

  /** `Decimal(value) / 10^8`: exact as long as the context's 28 digits hold the value. */
  function Quotient(v: int): Decimal {
    var (c, p) := Reduce(Abs(v), SCALE);
    Decimal(v < 0, c, p)
  }

  /** The digits, with zeros in front until one stands before the point. */
  function Padded(d: Decimal): (s: string)
    ensures |s| > d.places && AllDigits(s)
  {
    var digits := Digits(d.coefficient);
    Zeros(if |digits| > d.places then 0 else d.places + 1 - |digits|) + digits
  }

  /** `format(d, "f")`: a point before the last `places` digits, with at least one digit in front. */
  function FixedText(d: Decimal): string {
    var padded := Padded(d);
    var cut := |padded| - d.places;
    (if d.negative then "-" else "") + padded[..cut] + (if d.places == 0 then "" else "." + padded[cut..])
  }

  function DecimalString(v: int): string { FixedText(Quotient(v)) }

  // ---- the client ------------------------------------------------------------------------

  /** The groups of the pattern `^(-?)(\d+)(\.\d+)?$`; the fraction keeps its point. */
  datatype Parts = Parts(sign: string, integer: string, fraction: string)

  function DigitPrefix(s: string): (k: nat)
    ensures k <= |s|
    ensures forall i :: 0 <= i < k ==> IsDigit(s[i])
    ensures k < |s| ==> !IsDigit(s[k])
  {
    if s != "" && IsDigit(s[0]) then 1 + DigitPrefix(s[1..]) else 0
  }

  function Match(value: string): Option<Parts> {
    if value != "" && value[0] == '-' then MatchUnsigned("-", value[1..]) else MatchUnsigned("", value)
  }

  function MatchUnsigned(sign: string, body: string): Option<Parts> {
    var k := DigitPrefix(body);
    var rest := body[k..];
    if k == 0 then None
    else if rest == "" then Some(Parts(sign, body, ""))
    else if rest[0] == '.' && |rest| > 1 && DigitPrefix(rest[1..]) == |rest| - 1
    then Some(Parts(sign, body[..k], rest))
    else None
  }

  /** The comma before a digit with `before` digits to its left and `left` digits from it on. */
  function Comma(before: nat, left: nat): string { if before > 0 && left % 3 == 0 then "," else "" }

  /** A comma at every inner position with a multiple of three digits after it, from position `i` on. */
  function GroupFrom(s: string, i: nat): string
    requires i <= |s|
    decreases |s| - i
  {
    if i == |s| then "" else Comma(i, |s| - i) + [s[i]] + GroupFrom(s, i + 1)
  }

  function FormatDecimalString(value: Option<string>): string {
    match value
    case None => "\U{2014}"
    case Some(text) =>
      match Match(text)
      case None => text
      case Some(parts) => parts.sign + GroupFrom(parts.integer, 0) + parts.fraction
  }

  // ---- reading the display back -----------------------------------------------------------

  function WithoutCommas(s: string): string {
    if s == "" then "" else (if s[0] == ',' then "" else [s[0]]) + WithoutCommas(s[1..])
  }

  /** The number a matched text stands for, times 10^8. */
  function Scaled(parts: Parts): int
    requires |parts.fraction| <= 9
  {
    var places := if parts.fraction == "" then 0 else |parts.fraction| - 1;
    var digits := parts.integer + (if parts.fraction == "" then "" else parts.fraction[1..]);
    var magnitude := NatOf(digits) * Pow10(8 - places);
    if parts.sign == "-" then -magnitude else magnitude
  }

  lemma {:induction false} NoCommas(s: string)
    requires ',' !in s
    ensures WithoutCommas(s) == s
    decreases |s|
  {
    if s != "" {
      NoCommas(s[1..]);
      assert s == [s[0]] + s[1..];
    }
  }

  lemma {:induction false} CommasOver(a: string, b: string)
    ensures WithoutCommas(a + b) == WithoutCommas(a) + WithoutCommas(b)
    decreases |a|
  {
    if a == "" {
      assert a + b == b;
    } else {
      assert (a + b)[1..] == a[1..] + b;
      CommasOver(a[1..], b);
    }
  }

  lemma OneUndone(comma: string, c: char, rest: string)
    requires (comma == "" || comma == ",") && c != ','
    ensures WithoutCommas(comma + [c] + rest) == [c] + WithoutCommas(rest)
  {
    CommasOver(comma + [c], rest);
    CommasOver(comma, [c]);
    NoCommas([c]);
    assert WithoutCommas(comma) == "";
  }

  lemma {:induction false} GroupingUndone(s: string, i: nat)
    requires i <= |s| && ',' !in s
    ensures WithoutCommas(GroupFrom(s, i)) == s[i..]
    decreases |s| - i
  {
    if i < |s| {
      GroupingUndone(s, i + 1);
      var comma := Comma(i, |s| - i);
      assert GroupFrom(s, i) == comma + [s[i]] + GroupFrom(s, i + 1);
      assert s[i] in s;
      OneUndone(comma, s[i], GroupFrom(s, i + 1));
      assert s[i..] == [s[i]] + s[i + 1..];
    }
  }

  lemma CommaEveryThird(before: nat, left: nat)
    ensures Comma(before, left + 3) == Comma(before, left)
  {
    assert (left + 3) % 3 == left % 3;
  }

  /** The last three digits are one group. */
  lemma LastGroup(t: string, i: nat)
    requires 0 < i && |t| == i + 3
    ensures GroupFrom(t, i) == "," + t[i..]
  {
    assert GroupFrom(t, i + 3) == "";
    assert GroupFrom(t, i + 2) == [t[i + 2]];
    assert GroupFrom(t, i + 1) == [t[i + 1]] + [t[i + 2]];
    assert t[i..] == [t[i]] + ([t[i + 1]] + [t[i + 2]]);
  }

  /** Grouping three more digits puts one comma in front of them. */
  lemma {:induction false} GroupMore(s: string, x: string, i: nat)
    requires |x| == 3 && i <= |s| && s != ""
    ensures GroupFrom(s + x, i) == GroupFrom(s, i) + "," + x
    decreases |s| - i
  {
    var t := s + x;
    assert i == |s| ==> GroupFrom(s, i) == "";
    hide GroupFrom, Comma;
    if i == |s| {
      LastGroup(t, i);
      assert t[i..] == x;
      assert GroupFrom(s, i) + "," + x == "," + x;
    } else {
      GroupMore(s, x, i + 1);
      SameHead(s, x, i);
      Prepend(Comma(i, |s| - i) + [s[i]], GroupFrom(s, i + 1), x);
    }
  }

  lemma SameHead(s: string, x: string, i: nat)
    requires |x| == 3 && i < |s|
    ensures var head := Comma(i, |s| - i) + [s[i]];
            && GroupFrom(s, i) == head + GroupFrom(s, i + 1)
            && GroupFrom(s + x, i) == head + GroupFrom(s + x, i + 1)
  {
    CommaEveryThird(i, |s| - i);
    hide Comma;
    var t := s + x;
    assert |t| - i == |s| - i + 3 && t[i] == s[i];
  }

  lemma Prepend(head: string, rest: string, x: string)
    ensures head + (rest + "," + x) == head + rest + "," + x
  {
  }

  function Split(s: string): (groups: seq<string>)
    ensures groups != []
  {
    if s == "" then [""] else
      var rest := Split(s[1..]);
      if s[0] == ',' then [""] + rest else [[s[0]] + rest[0]] + rest[1..]
  }

  lemma {:induction false} SplitWhole(s: string)
    requires ',' !in s
    ensures Split(s) == [s]
    decreases |s|
  {
    if s != "" {
      SplitWhole(s[1..]);
      assert s == [s[0]] + s[1..];
    }
  }

  lemma {:induction false} SplitMore(a: string, x: string)
    requires ',' !in x
    ensures Split(a + "," + x) == Split(a) + [x]
    decreases |a|
  {
    var whole := a + "," + x;
    if a == "" {
      SplitWhole(x);
      assert whole[1..] == x;
    } else {
      SplitMore(a[1..], x);
      assert whole[1..] == a[1..] + "," + x;
      var rest := Split(a[1..]);
      assert (rest + [x])[1..] == rest[1..] + [x];
    }
  }

  ghost predicate ThreeDigitGroups(groups: seq<string>) {
    && groups != [] && 1 <= |groups[0]| <= 3
    && forall i :: 1 <= i < |groups| ==> |groups[i]| == 3
  }

  /** Every group after the first has exactly three digits, the first has one to three. */
  lemma {:induction false} GroupsOfThree(s: string)
    requires s != "" && ',' !in s
    ensures ThreeDigitGroups(Split(GroupFrom(s, 0)))
    decreases |s|
  {
    if |s| <= 3 {
      assert GroupFrom(s, |s|) == "";
      ShortUngrouped(s, 0);
      assert GroupFrom(s, 0) == s;
      SplitWhole(s);
    } else {
      var m := |s| - 3;
      assert s == s[..m] + s[m..];
      GroupsOfThree(s[..m]);
      GroupMore(s[..m], s[m..], 0);
      SplitMore(GroupFrom(s[..m], 0), s[m..]);
    }
  }

  lemma {:induction false} ShortUngrouped(s: string, i: nat)
    requires |s| <= 3 && i <= |s|
    ensures GroupFrom(s, i) == s[i..]
    decreases |s| - i
  {
    if i < |s| {
      ShortUngrouped(s, i + 1);
      assert s[i..] == [s[i]] + s[i + 1..];
    }
  }

  // ---- the pipeline ------------------------------------------------------------------------

  lemma MatchDigits(sign: string, integer: string, fraction: string)
    requires integer != "" && AllDigits(integer)
    requires fraction == "" || (|fraction| > 1 && fraction[0] == '.' && AllDigits(fraction[1..]))
    ensures MatchUnsigned(sign, integer + fraction) == Some(Parts(sign, integer, fraction))
  {
    var body := integer + fraction;
    PrefixIs(body, |integer|);
    assert body[|integer|..] == fraction && body[..|integer|] == integer;
    if fraction == "" {
      assert body == integer;
    } else {
      PrefixIs(fraction[1..], |fraction| - 1);
    }
  }

  lemma MatchFixed(negative: bool, integer: string, fraction: string)
    requires integer != "" && AllDigits(integer)
    requires fraction == "" || (|fraction| > 1 && fraction[0] == '.' && AllDigits(fraction[1..]))
    ensures Match((if negative then "-" else "") + integer + fraction)
         == Some(Parts(if negative then "-" else "", integer, fraction))
  {
    hide MatchUnsigned;
    var sign := if negative then "-" else "";
    var value := sign + integer + fraction;
    assert value[|sign|..] == integer + fraction;
    assert IsDigit(integer[0]);
    assert sign == "" ==> value[0] == integer[0];
    MatchDigits(sign, integer, fraction);
  }

  lemma {:induction false} PrefixIs(s: string, k: nat)
    requires k <= |s| && (forall i :: 0 <= i < k ==> IsDigit(s[i])) && (k < |s| ==> !IsDigit(s[k]))
    ensures DigitPrefix(s) == k
    decreases |s|
  {
    if k > 0 {
      PrefixIs(s[1..], k - 1);
    }
  }

  lemma LastDigit(n: nat)
    ensures Digits(n)[|Digits(n)| - 1] == '0' ==> n % 10 == 0
  {
  }

  lemma PaddedRead(d: Decimal)
    ensures NatOf(Padded(d)) == d.coefficient
  {
    hide NatOf, Digits, Zeros;
    var digits := Digits(d.coefficient);
    DigitsRead(d.coefficient);
    ZerosRead(if |digits| > d.places then 0 else d.places + 1 - |digits|, digits);
  }

  /** No zero leads before the point except a single one, and the last digit is that of the coefficient. */
  lemma PaddedEnds(d: Decimal)
    ensures var cut := |Padded(d)| - d.places;
            && (Padded(d)[0] == '0' ==> cut == 1)
            && (Padded(d)[|Padded(d)| - 1] == '0' ==> d.coefficient % 10 == 0)
  {
    LastDigit(d.coefficient);
    hide Digits;
    var digits := Digits(d.coefficient);
    if |digits| > d.places {
      assert Padded(d) == digits;
    }
  }

  /** A fixed-point text: its parts, and the number its digits stand for. */
  lemma FixedParts(d: Decimal) returns (parts: Parts)
    ensures FixedText(d) == parts.sign + parts.integer + parts.fraction
    ensures parts.sign == if d.negative then "-" else ""
    ensures parts.integer != "" && AllDigits(parts.integer)
    ensures |parts.fraction| == (if d.places == 0 then 0 else d.places + 1)
    ensures parts.fraction != "" ==> parts.fraction[0] == '.' && AllDigits(parts.fraction[1..])
    ensures NatOf(parts.integer + (if parts.fraction == "" then "" else parts.fraction[1..])) == d.coefficient
    ensures parts.integer[0] == '0' ==> parts.integer == "0"
    ensures parts.fraction != "" && parts.fraction[|parts.fraction| - 1] == '0' ==> d.coefficient % 10 == 0
  {
    PaddedRead(d);
    PaddedEnds(d);
    hide NatOf, Padded;
    var padded := Padded(d);
    var cut := |padded| - d.places;
    var fraction := if d.places == 0 then "" else "." + padded[cut..];
    parts := Parts(if d.negative then "-" else "", padded[..cut], fraction);
    assert fraction != "" ==> fraction[1..] == padded[cut..];
    assert padded[..cut] + padded[cut..] == padded;
    assert parts.integer + (if fraction == "" then "" else fraction[1..]) == padded;
    assert cut == 1 ==> padded[..cut] == [padded[0]];
  }

  /** The text of a stored value: its parts without superfluous zeros, and the number they stand for. */
  lemma ServerText(v: int) returns (parts: Parts)
    ensures Match(DecimalString(v)) == Some(parts)
    ensures DecimalString(v) == parts.sign + parts.integer + parts.fraction
    ensures parts.integer != "" && AllDigits(parts.integer)
    ensures ',' !in DecimalString(v)
    ensures parts.integer[0] == '0' ==> parts.integer == "0"
    ensures parts.fraction != "" ==> parts.fraction[|parts.fraction| - 1] != '0'
    ensures |parts.fraction| <= 9 && Scaled(parts) == v
  {
    hide FixedText, Match, NatOf, Pow10, Reduce;
    parts := FixedParts(Quotient(v));
    MatchFixed(v < 0, parts.integer, parts.fraction);
    assert ',' !in parts.sign && ',' !in parts.integer;
    assert ',' !in parts.fraction by {
      assert parts.fraction != "" ==> parts.fraction == "." + parts.fraction[1..];
    }
  }

  /** Display is lossless: removing the commas gives back a text that stands for the stored value. */
  lemma DisplayLossless(v: int) returns (parts: Parts)
    ensures var shown := FormatDecimalString(Some(DecimalString(v)));
            && WithoutCommas(shown) == DecimalString(v)
            && Match(WithoutCommas(shown)) == Some(parts)
            && |parts.fraction| <= 9 && Scaled(parts) == v
            && shown == parts.sign + GroupFrom(parts.integer, 0) + parts.fraction
            && ThreeDigitGroups(Split(GroupFrom(parts.integer, 0)))
  {
    parts := ServerText(v);
    var text := DecimalString(v);
    assert forall c :: c in parts.sign || c in parts.integer || c in parts.fraction ==> c in text;
    NoCommas(parts.sign);
    NoCommas(parts.fraction);
    GroupingUndone(parts.integer, 0);
    GroupsOfThree(parts.integer);
    var grouped := GroupFrom(parts.integer, 0);
    CommasOver(parts.sign + grouped, parts.fraction);
    CommasOver(parts.sign, grouped);
    assert parts.integer[0..] == parts.integer;
  }

  /** Different stored values are displayed differently. */
  lemma DisplayInjective(v: int, w: int)
    requires FormatDecimalString(Some(DecimalString(v))) == FormatDecimalString(Some(DecimalString(w)))
    ensures v == w
  {
    var p := DisplayLossless(v);
    var q := DisplayLossless(w);
  }
}
