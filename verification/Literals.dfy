/** The printer that renders JSON-like values as Python source, and a reader for what it prints. */
module Literals {
  import opened Sequences
  import D = Decimals

  /** Floats are represented by their `repr`, which identifies them. */
  datatype Value =
    | PyNone
    | PyBool(b: bool)
    | PyStr(s: string)
    | PyInt(i: int)
    | PyFloat(text: string)
    | PyDict(entries: seq<Entry>)
    | PyList(items: seq<Value>)
    | PyTuple(items: seq<Value>)

  datatype Entry = Entry(key: Value, value: Value)

  // ---- numbers ---------------------------------------------------------------------------

  predicate NumberChar(c: char) { D.IsDigit(c) || c in {'.', 'e', '+', '-', 'i', 'n', 'f', 'a'} }

  predicate IntText(t: string) {
    t != "" && (if t[0] == '-' then |t| > 1 && D.DigitPrefix(t[1..]) == |t| - 1 else D.DigitPrefix(t) == |t|)
  }

  /** The shape of a float's `repr`: number characters, and not the text of an integer. */
  predicate FloatText(t: string) {
    t != "" && (forall i :: 0 <= i < |t| ==> NumberChar(t[i])) && !IntText(t)
  }

  function IntRepr(i: int): string { if i < 0 then "-" + D.Digits(-i) else D.Digits(i) }

  function IntOf(t: string): int { if t != "" && t[0] == '-' then -D.NatOf(t[1..]) else D.NatOf(t) }

  predicate WellFormed(v: Value) {
    match v
    case PyFloat(t) => FloatText(t)
    case PyDict(entries) =>
      forall i :: 0 <= i < |entries| ==> WellFormed(entries[i].key) && WellFormed(entries[i].value)
    case PyList(items) => forall i :: 0 <= i < |items| ==> WellFormed(items[i])
    case PyTuple(items) => forall i :: 0 <= i < |items| ==> WellFormed(items[i])
    case _ => true
  }

  // ---- strings: the escapes of section 7 of RFC 8259 ---------------------------------------

  function HexChar(d: nat): (c: char)
    requires d < 16
  {
    if d < 10 then ('0' as int + d) as char else ('a' as int + d - 10) as char
  }

  function HexOf(c: char): Option<nat> {
    if '0' <= c <= '9' then Some(c as int - '0' as int)
    else if 'a' <= c <= 'f' then Some(c as int - 'a' as int + 10)
    else None
  }

  function Escape(c: char): string {
    if c == '"' then ['\\', '"']
    else if c == '\\' then ['\\', '\\']
    else if c == '\n' then ['\\', 'n']
    else if c == '\r' then ['\\', 'r']
    else if c == '\t' then ['\\', 't']
    else if c as int == 12 then ['\\', 'f']
    else if c as int == 8 then ['\\', 'b']
    else if c as int < 32 then ['\\', 'u', '0', '0', HexChar(c as int / 16), HexChar(c as int % 16)]
    else [c]
  }

  function EscapeAll(s: string): string {
    if s == "" then "" else Escape(s[0]) + EscapeAll(s[1..])
  }

  function Unescape(c: char): Option<char> {
    if c == '"' then Some('"')
    else if c == '\\' then Some('\\')
    else if c == 'n' then Some('\n')
    else if c == 'r' then Some('\r')
    else if c == 't' then Some('\t')
    else if c == 'f' then Some(12 as char)
    else if c == 'b' then Some(8 as char)
    else None
  }

  /** The character written as `\u` and four hexadecimal digits at the front of `s`. */
  function ReadUnicode(s: string): Option<char> {
    if |s| < 4 then None else
      match (HexOf(s[0]), HexOf(s[1]), HexOf(s[2]), HexOf(s[3]))
      case (Some(a), Some(b), Some(c), Some(d)) =>
        var v := ((a * 16 + b) * 16 + c) * 16 + d;
        if 0 <= v < 0xD800 then Some(v as char) else None
      case _ => None
  }

  /** Reads up to the closing quote. */
  function ReadString(s: string): (r: Option<(string, string)>)
    ensures r.Some? ==> |r.value.1| < |s|
  {
    if s == "" then None
    else if s[0] == '"' then Some(("", s[1..]))
    else if s[0] == '\\' then
      if |s| < 2 then None
      else if s[1] == 'u' then
        match ReadUnicode(s[2..])
        case None => None
        case Some(c) => Prepend(c, ReadString(s[6..]))
      else
        match Unescape(s[1])
        case None => None
        case Some(c) => Prepend(c, ReadString(s[2..]))
    else if s[0] as int < 32 then None
    else Prepend(s[0], ReadString(s[1..]))
  }

  function Prepend(c: char, r: Option<(string, string)>): Option<(string, string)> {
    match r
    case None => None
    case Some((t, rest)) => Some(([c] + t, rest))
  }

  lemma EscapeRead(c: char, tail: string)
    ensures ReadString(Escape(c) + tail) == Prepend(c, ReadString(tail))
  {
    var s := Escape(c) + tail;
    if c in {'"', '\\', '\n', '\r', '\t'} || c as int in {8, 12} {
      assert s[2..] == tail;
    } else if c as int < 32 {
      assert s[6..] == tail;
      var h := s[2..];
      assert h[0] == '0' && h[1] == '0' && h[2] == HexChar(c as int / 16) && h[3] == HexChar(c as int % 16);
      assert ReadUnicode(h) == Some(c);
    } else {
      assert s[1..] == tail;
    }
  }

  lemma Glue(a: string, b: string, c: string)
    ensures a + b + c == a + (b + c)
  {
  }

  lemma Regroup(a: string, b: string, c: string, d: string)
    ensures a + b + c + d == a + (b + c + d)
  {
  }

  /** Reading undoes the escaping of a whole string. */
  lemma {:induction false} StringRead(t: string, rest: string)
    ensures ReadString(EscapeAll(t) + "\"" + rest) == Some((t, rest))
    decreases |t|
  {
    if t == "" {
      assert EscapeAll(t) + "\"" + rest == "\"" + rest;
    } else {
      assert EscapeAll(t) == Escape(t[0]) + EscapeAll(t[1..]);
      hide EscapeAll, Escape, ReadString;
      StringRead(t[1..], rest);
      Regroup(Escape(t[0]), EscapeAll(t[1..]), "\"", rest);
      EscapeRead(t[0], EscapeAll(t[1..]) + "\"" + rest);
      assert t == [t[0]] + t[1..];
    }
  }

  // ---- the printer -------------------------------------------------------------------------

  function Print(v: Value): string
    decreases v, 1
  {
    match v
    case PyNone => "None"
    case PyBool(b) => if b then "True" else "False"
    case PyStr(s) => "\"" + EscapeAll(s) + "\""
    case PyInt(i) => IntRepr(i)
    case PyFloat(t) => t
    case PyDict(entries) => "{" + PrintEntries(entries) + "}"
    case PyList(items) => "[" + PrintItems(items) + "]"
    case PyTuple(items) => if |items| == 1 then "(" + Print(items[0]) + ",)" else "(" + PrintItems(items) + ")"
  }

  /** Items joined by a comma and a space. */
  function PrintItems(items: seq<Value>): string
    decreases items, 0
  {
    if items == [] then ""
    else if |items| == 1 then Print(items[0])
    else Print(items[0]) + ", " + PrintItems(items[1..])
  }

  function PrintEntry(e: Entry): string
    decreases e, 0
  {
    Print(e.key) + ": " + Print(e.value)
  }

  function PrintEntries(entries: seq<Entry>): string
    decreases entries, 0
  {
    if entries == [] then ""
    else if |entries| == 1 then PrintEntry(entries[0])
    else PrintEntry(entries[0]) + ", " + PrintEntries(entries[1..])
  }

  // ---- the reader --------------------------------------------------------------------------

  function NumberPrefix(s: string): (k: nat)
    ensures k <= |s|
  {
    if s != "" && NumberChar(s[0]) then 1 + NumberPrefix(s[1..]) else 0
  }

  function Word(s: string, word: string, v: Value): (r: Option<(Value, string)>)
    requires word != ""
    ensures r.Some? ==> |r.value.1| < |s|
  {
    if StartsWith(s, word) then Some((v, s[|word|..])) else None
  }

  /** The first character decides what is read. */
  function Read(s: string): (r: Option<(Value, string)>)
    ensures r.Some? ==> |r.value.1| < |s|
    decreases |s|, 0
  {
    if s == "" then None
    else if s[0] == 'N' then Word(s, "None", PyNone)
    else if s[0] == 'T' then Word(s, "True", PyBool(true))
    else if s[0] == 'F' then Word(s, "False", PyBool(false))
    else if s[0] == '"' then
      match ReadString(s[1..])
      case None => None
      case Some((t, rest)) => Some((PyStr(t), rest))
    else if s[0] == '{' then
      if |s| > 1 && s[1] == '}' then Some((PyDict([]), s[2..])) else
        match ReadEntries(s[1..])
        case None => None
        case Some((entries, rest)) => Some((PyDict(entries), rest))
    else if s[0] == '[' then
      if |s| > 1 && s[1] == ']' then Some((PyList([]), s[2..])) else
        match ReadItems(s[1..], ']')
        case None => None
        case Some((items, rest)) => Some((PyList(items), rest))
    else if s[0] == '(' then
      if |s| > 1 && s[1] == ')' then Some((PyTuple([]), s[2..])) else ReadTuple(s[1..])
    else
      var k := NumberPrefix(s);
      if k == 0 then None
      else if IntText(s[..k]) then Some((PyInt(IntOf(s[..k])), s[k..]))
      else Some((PyFloat(s[..k]), s[k..]))
  }

  /** A tuple after its opening parenthesis: one item and `,)`, or at least two items. */
  function ReadTuple(s: string): (r: Option<(Value, string)>)
    ensures r.Some? ==> |r.value.1| < |s|
    decreases |s|, 2
  {
    match Read(s)
    case None => None
    case Some((v, rest)) =>
      if StartsWith(rest, ",)") then Some((PyTuple([v]), rest[2..]))
      else
        match ReadItems(s, ')')
        case None => None
        case Some((items, after)) => if |items| == 1 then None else Some((PyTuple(items), after))
  }

  function ReadItems(s: string, close: char): (r: Option<(seq<Value>, string)>)
    ensures r.Some? ==> |r.value.1| < |s|
    decreases |s|, 1
  {
    match Read(s)
    case None => None
    case Some((v, rest)) =>
      if StartsWith(rest, [close]) then Some(([v], rest[1..]))
      else if StartsWith(rest, ", ") then
        match ReadItems(rest[2..], close)
        case None => None
        case Some((items, after)) => Some(([v] + items, after))
      else None
  }

  function ReadEntries(s: string): (r: Option<(seq<Entry>, string)>)
    ensures r.Some? ==> |r.value.1| < |s|
    decreases |s|, 1
  {
    match Read(s)
    case None => None
    case Some((k, rest)) =>
      if !StartsWith(rest, ": ") then None else
        match Read(rest[2..])
        case None => None
        case Some((v, rest2)) =>
          if StartsWith(rest2, "}") then Some(([Entry(k, v)], rest2[1..]))
          else if StartsWith(rest2, ", ") then
            match ReadEntries(rest2[2..])
            case None => None
            case Some((entries, after)) => Some(([Entry(k, v)] + entries, after))
          else None
  }

  // ---- reading back what was printed -------------------------------------------------------

  /** What follows a value in printed text never continues a number. */
  ghost predicate Stops(rest: string) { rest == "" || !NumberChar(rest[0]) }

  lemma {:induction false} NumberPrefixIs(t: string, rest: string)
    requires (forall i :: 0 <= i < |t| ==> NumberChar(t[i])) && Stops(rest)
    ensures NumberPrefix(t + rest) == |t|
    decreases |t|
  {
    if t == "" {
      assert t + rest == rest;
    } else {
      assert (t + rest)[1..] == t[1..] + rest;
      NumberPrefixIs(t[1..], rest);
    }
  }

  lemma IntReprReads(i: int)
    ensures IntText(IntRepr(i)) && IntOf(IntRepr(i)) == i
    ensures forall k :: 0 <= k < |IntRepr(i)| ==> NumberChar(IntRepr(i)[k])
  {
    var n := if i < 0 then -i else i;
    D.DigitsRead(n);
    D.PrefixIs(D.Digits(n), |D.Digits(n)|);
    assert IntRepr(i) != "" && D.IsDigit(D.Digits(n)[0]);
    if i < 0 { assert IntRepr(i)[1..] == D.Digits(n); }
  }

  /** Text that starts with a number character is read as a number. */
  lemma NumberReads(t: string, rest: string)
    requires t != "" && (forall i :: 0 <= i < |t| ==> NumberChar(t[i])) && Stops(rest)
    ensures Read(t + rest) == Some((if IntText(t) then PyInt(IntOf(t)) else PyFloat(t), rest))
  {
    var s := t + rest;
    NumberPrefixIs(t, rest);
    assert s[0] == t[0];
    assert s[..|t|] == t && s[|t|..] == rest;
  }

  /** No printed value starts with a character that closes or separates. */
  lemma {:induction false} FirstChar(v: Value)
    requires WellFormed(v)
    ensures Print(v) != "" && Print(v)[0] !in {']', ')', '}', ',', ':', ' '}
  {
    match v
    case PyInt(i) => IntReprReads(i);
    case _ =>
  }

  lemma ItemsFirst(items: seq<Value>)
    requires items != [] && WellFormed(items[0])
    ensures PrintItems(items) != "" && PrintItems(items)[0] == Print(items[0])[0]
  {
    FirstChar(items[0]);
  }

  lemma WordReads(v: Value, rest: string)
    requires v.PyNone? || v.PyBool?
    ensures Read(Print(v) + rest) == Some((v, rest))
  {
    var w := Print(v);
    assert (w + rest)[..|w|] == w && (w + rest)[|w|..] == rest && (w + rest)[0] == w[0];
  }

  lemma StrReads(t: string, rest: string)
    ensures Read(Print(PyStr(t)) + rest) == Some((PyStr(t), rest))
  {
    var s := Print(PyStr(t)) + rest;
    assert s[0] == '"';
    assert s[1..] == EscapeAll(t) + "\"" + rest;
    StringRead(t, rest);
  }

  lemma Empties(v: Value, rest: string)
    requires v in {PyDict([]), PyList([]), PyTuple([])}
    ensures Read(Print(v) + rest) == Some((v, rest))
  {
    var w, s := Print(v), Print(v) + rest;
    assert |w| == 2 && s[2..] == rest && s[0] == w[0] && s[1] == w[1];
  }

  /** The reader recovers every printed value exactly, whatever follows it. */
  lemma {:induction false} ReadBack(v: Value, rest: string)
    requires WellFormed(v) && Stops(rest)
    ensures Read(Print(v) + rest) == Some((v, rest))
    decreases v, 1
  {
    match v
    case PyNone => WordReads(v, rest);
    case PyBool(_) => WordReads(v, rest);
    case PyStr(t) => StrReads(t, rest);
    case PyInt(i) =>
      IntReprReads(i);
      NumberReads(IntRepr(i), rest);
    case PyFloat(t) => NumberReads(t, rest);
    case PyDict(entries) =>
      if entries == [] { Empties(v, rest); } else { DictReads(entries, rest); }
    case PyList(items) =>
      if items == [] { Empties(v, rest); } else { ListReads(items, rest); }
    case PyTuple(items) =>
      if items == [] { Empties(v, rest); } else { TupleReads(items, rest); }
  }

  lemma {:induction false} ListReads(items: seq<Value>, rest: string)
    requires items != [] && forall i :: 0 <= i < |items| ==> WellFormed(items[i])
    ensures Read(Print(PyList(items)) + rest) == Some((PyList(items), rest))
    decreases items, 2
  {
    hide ReadItems, PrintItems;
    ItemsFirst(items);
    FirstChar(items[0]);
    var body := PrintItems(items) + "]" + rest;
    var s := Print(PyList(items)) + rest;
    assert s == "[" + body && s[0] == '[' && s[1..] == body && s[1] == body[0];
    ItemsRead(items, ']', rest);
  }

  lemma {:induction false} TupleReads(items: seq<Value>, rest: string)
    requires items != [] && forall i :: 0 <= i < |items| ==> WellFormed(items[i])
    ensures Read(Print(PyTuple(items)) + rest) == Some((PyTuple(items), rest))
    decreases items, 3
  {
    hide ReadTuple, PrintItems;
    FirstChar(items[0]);
    ItemsFirst(items);
    var body := (if |items| == 1 then Print(items[0]) + ",)" else PrintItems(items) + ")") + rest;
    var s := Print(PyTuple(items)) + rest;
    assert s == "(" + body && s[0] == '(' && s[1..] == body && s[1] == body[0];
    if |items| == 1 {
      SingleReads(items[0], rest);
      assert items == [items[0]];
    } else {
      SeveralRead(items, rest);
    }
  }

  lemma {:induction false} SingleReads(v: Value, rest: string)
    requires WellFormed(v)
    ensures ReadTuple(Print(v) + ",)" + rest) == Some((PyTuple([v]), rest))
    decreases v, 2
  {
    hide Read;
    var tail := ",)" + rest;
    assert Print(v) + ",)" + rest == Print(v) + tail;
    ReadBack(v, tail);
    assert tail[..2] == ",)" && tail[2..] == rest;
  }

  lemma {:induction false} SeveralRead(items: seq<Value>, rest: string)
    requires |items| >= 2 && forall i :: 0 <= i < |items| ==> WellFormed(items[i])
    ensures ReadTuple(PrintItems(items) + ")" + rest) == Some((PyTuple(items), rest))
    decreases items, 2
  {
    hide Read, ReadItems;
    var body := PrintItems(items) + ")" + rest;
    var tail := ", " + (PrintItems(items[1..]) + ")" + rest);
    assert body == Print(items[0]) + tail;
    ReadBack(items[0], tail);
    assert tail[..2][1] == ' ';
    ItemsRead(items, ')', rest);
  }

  lemma {:induction false} LastItem(v: Value, close: char, rest: string)
    requires WellFormed(v) && close in {']', ')'}
    ensures ReadItems(Print(v) + ([close] + rest), close) == Some(([v], rest))
    decreases v, 2
  {
    hide Read, Print;
    var tail := [close] + rest;
    ReadBack(v, tail);
    assert tail[..1] == [close] && tail[1..] == rest;
  }

  lemma {:induction false} ItemAndMore(v: Value, close: char, more: string, items: seq<Value>, rest: string)
    requires WellFormed(v) && close in {']', ')'} && ReadItems(more, close) == Some((items, rest))
    ensures ReadItems(Print(v) + (", " + more), close) == Some(([v] + items, rest))
    decreases v, 2
  {
    hide Read, Print;
    var tail := ", " + more;
    ReadBack(v, tail);
    assert tail[..1] == "," && tail[..2] == ", " && tail[2..] == more;
  }

  /** The text of several items is the first item and the text of the others. */
  lemma ItemsText(items: seq<Value>, close: char, rest: string)
    requires items != []
    ensures |items| == 1 ==> PrintItems(items) + [close] + rest == Print(items[0]) + ([close] + rest)
    ensures |items| > 1 ==>
              PrintItems(items) + [close] + rest == Print(items[0]) + (", " + (PrintItems(items[1..]) + [close] + rest))
  {
    hide Print;
    var first := Print(items[0]);
    if |items| == 1 {
      assert PrintItems(items) == first;
      hide PrintItems;
      Glue(first, [close], rest);
    } else {
      var more := PrintItems(items[1..]);
      assert PrintItems(items) == first + ", " + more;
      hide PrintItems;
      Regroup(first + ", ", more, [close], rest);
      Glue(first, ", ", more + [close] + rest);
    }
  }


  lemma {:induction false} ItemsRead(items: seq<Value>, close: char, rest: string)
    requires items != [] && (forall i :: 0 <= i < |items| ==> WellFormed(items[i])) && close in {']', ')'}
    ensures ReadItems(PrintItems(items) + [close] + rest, close) == Some((items, rest))
    decreases items, 1
  {
    hide Read, Print, ReadItems, PrintItems, WellFormed;
    ItemsText(items, close, rest);
    if |items| == 1 {
      LastItem(items[0], close, rest);
      assert items == [items[0]];
    } else {
      ItemsRead(items[1..], close, rest);
      ItemAndMore(items[0], close, PrintItems(items[1..]) + [close] + rest, items[1..], rest);
      assert items == [items[0]] + items[1..];
    }
  }

  lemma {:induction false} DictReads(entries: seq<Entry>, rest: string)
    requires entries != []
    requires forall i :: 0 <= i < |entries| ==> WellFormed(entries[i].key) && WellFormed(entries[i].value)
    ensures Read(Print(PyDict(entries)) + rest) == Some((PyDict(entries), rest))
    decreases entries, 2
  {
    hide ReadEntries;
    FirstChar(entries[0].key);
    EntriesFirst(entries);
    var body := PrintEntries(entries) + "}" + rest;
    var s := Print(PyDict(entries)) + rest;
    assert s == "{" + body && s[0] == '{' && s[1..] == body && s[1] == body[0];
    EntriesRead(entries, rest);
  }

  lemma EntriesFirst(entries: seq<Entry>)
    requires entries != [] && Print(entries[0].key) != ""
    ensures PrintEntries(entries) != "" && PrintEntries(entries)[0] == Print(entries[0].key)[0]
  {
    assert PrintEntry(entries[0])[0] == Print(entries[0].key)[0];
  }

  lemma {:induction false} EntryReads(e: Entry, tail: string)
    requires WellFormed(e.key) && WellFormed(e.value) && Stops(tail)
    ensures var value := ": " + (Print(e.value) + tail);
            && PrintEntry(e) + tail == Print(e.key) + value
            && Read(PrintEntry(e) + tail) == Some((e.key, value))
            && StartsWith(value, ": ") && Read(value[2..]) == Some((e.value, tail))
    decreases e, 2
  {
    hide Read, Print, WellFormed;
    var value := ": " + (Print(e.value) + tail);
    assert PrintEntry(e) + tail == Print(e.key) + value;
    assert value[..2] == ": " && value[2..] == Print(e.value) + tail;
    ReadBack(e.key, value);
    ReadBack(e.value, tail);
  }

  lemma {:induction false} LastEntry(e: Entry, rest: string)
    requires WellFormed(e.key) && WellFormed(e.value)
    ensures ReadEntries(PrintEntry(e) + ("}" + rest)) == Some(([e], rest))
    decreases e, 3
  {
    hide Read, PrintEntry;
    var tail := "}" + rest;
    EntryReads(e, tail);
    assert tail[..1] == "}" && tail[1..] == rest;
  }

  lemma {:induction false} EntryAndMore(e: Entry, more: string, entries: seq<Entry>, rest: string)
    requires WellFormed(e.key) && WellFormed(e.value) && ReadEntries(more) == Some((entries, rest))
    ensures ReadEntries(PrintEntry(e) + (", " + more)) == Some(([e] + entries, rest))
    decreases e, 3
  {
    hide Read, PrintEntry;
    var tail := ", " + more;
    EntryReads(e, tail);
    assert tail[..1] == "," && tail[..2] == ", " && tail[2..] == more;
  }

  lemma {:induction false} EntriesRead(entries: seq<Entry>, rest: string)
    requires entries != []
    requires forall i :: 0 <= i < |entries| ==> WellFormed(entries[i].key) && WellFormed(entries[i].value)
    ensures ReadEntries(PrintEntries(entries) + "}" + rest) == Some((entries, rest))
    decreases entries, 1
  {
    hide Read, PrintEntry, ReadEntries;
    var s := PrintEntries(entries) + "}" + rest;
    if |entries| == 1 {
      assert s == PrintEntry(entries[0]) + ("}" + rest);
      LastEntry(entries[0], rest);
      assert entries == [entries[0]];
    } else {
      var more := PrintEntries(entries[1..]) + "}" + rest;
      assert s == PrintEntry(entries[0]) + (", " + more);
      EntriesRead(entries[1..], rest);
      EntryAndMore(entries[0], more, entries[1..], rest);
      assert entries == [entries[0]] + entries[1..];
    }
  }

  /** Different values never print the same: lists and tuples, one-element tuples, numbers and strings stay apart. */
  lemma PrintUnambiguous(v: Value, w: Value)
    requires WellFormed(v) && WellFormed(w) && Print(v) == Print(w)
    ensures v == w
  {
    ReadBack(v, "");
    ReadBack(w, "");
    assert Print(v) + "" == Print(w) + "";
  }
}
