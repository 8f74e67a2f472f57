/** JavaScript values as they travel through `JSON.stringify`, `JSON.parse`
    and the `cleanObject` helper of src/lib/dataCollection.ts, which strips
    `undefined` before a Firestore write. Numbers are integers: every number
    the analytics layer stores is a timestamp, a count or a percentage. */
module Json {
  import opened Wrappers
  import opened Text

  datatype Value =
    | Undefined
    | Null
    | Bool(b: bool)
    | Num(n: int)
    | Str(s: string)
    | Arr(items: seq<Value>)
    | Obj(fields: seq<Member>)

  /** One own enumerable property of an object, in insertion order. */
  datatype Member = Member(key: string, value: Value)

  /** No `undefined` anywhere inside: the shape Firestore accepts. */
  predicate NoUndefined(v: Value) {
    match v
    case Undefined => false
    case Arr(items) => forall i :: 0 <= i < |items| ==> NoUndefined(items[i])
    case Obj(fields) => forall i :: 0 <= i < |fields| ==> NoUndefined(fields[i].value)
    case _ => true
  }

  // ---------------------------------------------------------------------
  // cleanObject

  /** `cleanObject`: `null` and `undefined` become `null`, primitives are
      kept, arrays are cleaned element by element and object properties whose
      value is `undefined` are dropped. */
  function CleanObject(v: Value): (r: Value)
    ensures NoUndefined(r)
    ensures r.Null? <==> (v.Null? || v.Undefined?)
    ensures v.Arr? <==> r.Arr?
    ensures v.Obj? <==> r.Obj?
  {
    match v
    case Undefined => Null
    case Arr(items) => Arr(CleanItems(items))
    case Obj(fields) => Obj(CleanMembers(fields))
    case _ => v
  }

  function CleanItems(items: seq<Value>): (r: seq<Value>)
    ensures |r| == |items|
    ensures forall i :: 0 <= i < |r| ==> r[i] == CleanObject(items[i])
  {
    if items == [] then [] else [CleanObject(items[0])] + CleanItems(items[1..])
  }

  function CleanMembers(ms: seq<Member>): (r: seq<Member>)
    ensures |r| <= |ms|
    ensures forall i :: 0 <= i < |r| ==> NoUndefined(r[i].value)
    ensures r == [] <==> forall i :: 0 <= i < |ms| ==> ms[i].value.Undefined?
  {
    if ms == [] then []
    else if ms[0].value.Undefined? then CleanMembers(ms[1..])
    else [Member(ms[0].key, CleanObject(ms[0].value))] + CleanMembers(ms[1..])
  }

  /** The cleaned object holds exactly the defined properties, each cleaned. */
  lemma {:induction false} CleanMembersSpec(ms: seq<Member>)
    ensures forall m :: m in CleanMembers(ms) ==>
      exists j :: 0 <= j < |ms| && ms[j].key == m.key && !ms[j].value.Undefined? && m.value == CleanObject(ms[j].value)
    ensures forall j :: 0 <= j < |ms| && !ms[j].value.Undefined? ==>
      Member(ms[j].key, CleanObject(ms[j].value)) in CleanMembers(ms)
  {
    if ms != [] {
      CleanMembersSpec(ms[1..]);
      forall m | m in CleanMembers(ms)
        ensures exists j :: 0 <= j < |ms| && ms[j].key == m.key && !ms[j].value.Undefined? && m.value == CleanObject(ms[j].value)
      {
        if m in CleanMembers(ms[1..]) {
          var j :| 0 <= j < |ms[1..]| && ms[1..][j].key == m.key && !ms[1..][j].value.Undefined? && m.value == CleanObject(ms[1..][j].value);
          assert ms[j + 1] == ms[1..][j];
        } else {
          assert ms[0].key == m.key && !ms[0].value.Undefined? && m.value == CleanObject(ms[0].value);
        }
      }
      forall j | 0 <= j < |ms| && !ms[j].value.Undefined?
        ensures Member(ms[j].key, CleanObject(ms[j].value)) in CleanMembers(ms)
      {
        if j > 0 {
          assert ms[j] == ms[1..][j - 1];
        }
      }
    }
  }

  /** A value without `undefined` is left as it is ... */
  lemma {:induction false} CleanDefined(v: Value)
    requires NoUndefined(v)
    ensures CleanObject(v) == v
  {
    match v
    case Arr(items) => CleanDefinedItems(items);
    case Obj(fields) => CleanDefinedMembers(fields);
    case _ =>
  }

  lemma {:induction false} CleanDefinedItems(items: seq<Value>)
    requires forall i :: 0 <= i < |items| ==> NoUndefined(items[i])
    ensures CleanItems(items) == items
  {
    forall i | 0 <= i < |items| ensures CleanObject(items[i]) == items[i] {
      CleanDefined(items[i]);
    }
  }

  lemma {:induction false} CleanDefinedMembers(ms: seq<Member>)
    requires forall i :: 0 <= i < |ms| ==> NoUndefined(ms[i].value)
    ensures CleanMembers(ms) == ms
  {
    if ms != [] {
      CleanDefined(ms[0].value);
      CleanDefinedMembers(ms[1..]);
      assert ms == [Member(ms[0].key, ms[0].value)] + ms[1..];
    }
  }

  /** ... so cleaning twice is cleaning once. */
  lemma CleanIdempotent(v: Value)
    ensures CleanObject(CleanObject(v)) == CleanObject(v)
  {
    CleanDefined(CleanObject(v));
  }

  // ---------------------------------------------------------------------
  // JSON.stringify (no indentation argument)

  function HexDigit(d: nat): char
    requires d < 16
  {
    if d < 10 then ('0' as int + d) as char else ('a' as int + d - 10) as char
  }

  /** How `JSON.stringify` writes one character inside a string literal. */
  function EscChar(c: char): (r: string)
    ensures r != [] && r[0] != '"' && !(r[0] < ' ')
  {
    if c == '"' then "\\\""
    else if c == '\\' then "\\\\"
    else if c == '\U{0008}' then "\\b"
    else if c == '\U{000C}' then "\\f"
    else if c == '\n' then "\\n"
    else if c == '\r' then "\\r"
    else if c == '\t' then "\\t"
    else if c < ' ' then "\\u00" + [HexDigit(c as int / 16), HexDigit(c as int % 16)]
    else [c]
  }

  function Escape(s: string): string {
    if s == [] then "" else EscChar(s[0]) + Escape(s[1..])
  }

  function Quote(s: string): (r: string)
    ensures |r| >= 2 && r[0] == '"'
  {
    "\"" + Escape(s) + "\""
  }

  function NumText(n: int): string {
    if n < 0 then "-" + NatToString(-n) else NatToString(n)
  }

  /** The text of `v` as an array element or property value; `undefined`
      in an array is written as `null`. */
  function Ser(v: Value): (r: string)
    ensures r != []
  {
    match v
    case Undefined => "null"
    case Null => "null"
    case Bool(b) => if b then "true" else "false"
    case Num(n) => NumText(n)
    case Str(s) => Quote(s)
    case Arr(items) => "[" + SerItems(items) + "]"
    case Obj(fields) => "{" + SerMembers(fields) + "}"
  }

  function SerItems(items: seq<Value>): (r: string)
    ensures r == [] <==> items == []
  {
    if items == [] then ""
    else if |items| == 1 then Ser(items[0])
    else Ser(items[0]) + "," + SerItems(items[1..])
  }

  /** Properties whose value is `undefined` are skipped. */
  function SerMembers(ms: seq<Member>): (r: string)
    ensures r == [] <==> forall i :: 0 <= i < |ms| ==> ms[i].value.Undefined?
  {
    if ms == [] then ""
    else if ms[0].value.Undefined? then SerMembers(ms[1..])
    else
      var tail := SerMembers(ms[1..]);
      Quote(ms[0].key) + ":" + Ser(ms[0].value) + (if tail == "" then "" else "," + tail)
  }

  /** `JSON.stringify(v)`: `undefined` at the top has no text. */
  function Stringify(v: Value): (r: Option<string>)
    ensures r.None? <==> v.Undefined?
  {
    if v.Undefined? then None else Some(Ser(v))
  }

  // ---------------------------------------------------------------------
  // JSON.parse (no insignificant whitespace)

  function Unescape(c: char): Option<char> {
    if c == '"' then Some('"')
    else if c == '\\' then Some('\\')
    else if c == '/' then Some('/')
    else if c == 'b' then Some('\U{0008}')
    else if c == 'f' then Some('\U{000C}')
    else if c == 'n' then Some('\n')
    else if c == 'r' then Some('\r')
    else if c == 't' then Some('\t')
    else None
  }

  /** Four hexadecimal digits, either case. */
  function HexQuad(q: string): (r: Option<nat>)
    requires |q| == 4
    ensures r.Some? ==> r.value < 0x10000
  {
    var d0, d1, d2, d3 := DigitValue(q[0], 16), DigitValue(q[1], 16), DigitValue(q[2], 16), DigitValue(q[3], 16);
    if d0.None? || d1.None? || d2.None? || d3.None? then None
    else Some(d0.value * 4096 + d1.value * 256 + d2.value * 16 + d3.value)
  }

  /** One character of a string literal, escaped or not. A raw control
      character is a syntax error. */
  function ReadChar(t: string): (r: Option<(char, string)>)
    requires t != []
    ensures r.Some? ==> |r.value.1| < |t|
  {
    if t[0] < ' ' then None
    else if t[0] != '\\' then Some((t[0], t[1..]))
    else if |t| < 2 then None
    else if t[1] == 'u' then
      if |t| < 6 then None
      else
        var h := HexQuad(t[2..6]);
        if h.None? || (0xD800 <= h.value < 0xE000) then None
        else Some((h.value as char, t[6..]))
    else
      var e := Unescape(t[1]);
      if e.None? then None else Some((e.value, t[2..]))
  }

  /** The body of a string literal after its opening quote, up to and
      including the closing quote. */
  function ParseString(t: string): (r: Option<(string, string)>)
    ensures r.Some? ==> |r.value.1| < |t|
    decreases |t|
  {
    if t == [] then None
    else if t[0] == '"' then Some(("", t[1..]))
    else
      var c := ReadChar(t);
      if c.None? then None
      else
        var p := ParseString(c.value.1);
        if p.None? then None else Some(([c.value.0] + p.value.0, p.value.1))
  }

  /** An integer literal: an optional minus, digits without a leading zero.
      Fractions and exponents denote non-integers and are not read. */
  function ParseNumber(s: string): (r: Option<(Value, string)>)
    requires s != []
    ensures r.Some? ==> |r.value.1| < |s| && NoUndefined(r.value.0)
  {
    var p := ParseNatural(if s[0] == '-' then s[1..] else s);
    if p.None? then None
    else if s[0] == '-' then Some((Num(0 - p.value.0), p.value.1))
    else Some((Num(p.value.0), p.value.1))
  }

  /** The digits of an integer literal and what follows them. */
  function ParseNatural(u: string): (r: Option<(nat, string)>)
    ensures r.Some? ==> |r.value.1| < |u|
  {
    var k := DigitRun(u, 10);
    if k == 0 || (k > 1 && u[0] == '0') || (k < |u| && (u[k] == '.' || u[k] == 'e' || u[k] == 'E')) then None
    else
      Some((DigitsValue(u[..k], 10), u[k..]))
  }

  /** A keyword literal. */
  function ParseWord(s: string, word: string, v: Value): (r: Option<(Value, string)>)
    requires word != []
    ensures r.Some? ==> |r.value.1| < |s| && r.value.0 == v
  {
    if StartsWith(s, word) then Some((v, s[|word|..])) else None
  }

  function ParseValue(s: string): (r: Option<(Value, string)>)
    ensures r.Some? ==> |r.value.1| < |s| && NoUndefined(r.value.0)
    decreases |s|, 0
  {
    if s == [] then None
    else if s[0] == 'n' then ParseWord(s, "null", Null)
    else if s[0] == 't' then ParseWord(s, "true", Bool(true))
    else if s[0] == 'f' then ParseWord(s, "false", Bool(false))
    else if s[0] == '"' then
      var p := ParseString(s[1..]);
      if p.None? then None else Some((Str(p.value.0), p.value.1))
    else if s[0] == '[' then
      if |s| >= 2 && s[1] == ']' then Some((Arr([]), s[2..]))
      else
        var p := ParseItems(s[1..]);
        if p.None? then None else Some((Arr(p.value.0), p.value.1))
    else if s[0] == '{' then
      if |s| >= 2 && s[1] == '}' then Some((Obj([]), s[2..]))
      else
        var p := ParseMembers(s[1..]);
        if p.None? then None else Some((Obj(p.value.0), p.value.1))
    else if s[0] == '-' || '0' <= s[0] <= '9' then ParseNumber(s)
    else None
  }

  /** Array elements up to and including the closing bracket. */
  function ParseItems(t: string): (r: Option<(seq<Value>, string)>)
    ensures r.Some? ==> |r.value.1| < |t| && forall i :: 0 <= i < |r.value.0| ==> NoUndefined(r.value.0[i])
    decreases |t|, 1
  {
    var p := ParseValue(t);
    if p.None? then None
    else
      var (v, rest) := p.value;
      if rest == [] then None
      else if rest[0] == ']' then Some(([v], rest[1..]))
      else if rest[0] == ',' then
        var q := ParseItems(rest[1..]);
        if q.None? then None else Some(([v] + q.value.0, q.value.1))
      else None
  }

  /** Object members up to and including the closing brace. */
  function ParseMembers(t: string): (r: Option<(seq<Member>, string)>)
    ensures r.Some? ==> |r.value.1| < |t| && forall i :: 0 <= i < |r.value.0| ==> NoUndefined(r.value.0[i].value)
    decreases |t|, 1
  {
    if t == [] || t[0] != '"' then None
    else
      var k := ParseString(t[1..]);
      if k.None? then None
      else
        var (key, r1) := k.value;
        if r1 == [] || r1[0] != ':' then None
        else
          var p := ParseValue(r1[1..]);
          if p.None? then None
          else
            var (v, rest) := p.value;
            if rest == [] then None
            else if rest[0] == '}' then Some(([Member(key, v)], rest[1..]))
            else if rest[0] == ',' then
              var q := ParseMembers(rest[1..]);
              if q.None? then None else Some(([Member(key, v)] + q.value.0, q.value.1))
            else None
  }

  /** `JSON.parse(s)`: the whole text must be one value. */
  function Parse(s: string): (r: Result<Value, Exception>)
    ensures r.Ok? ==> NoUndefined(r.value)
    ensures r.Err? ==> r.error == SyntaxError
  {
    var p := ParseValue(s);
    if p.Some? && p.value.1 == [] then Ok(p.value.0) else Err(SyntaxError)
  }

  // ---------------------------------------------------------------------
  // Round trip

  /** What may follow a value inside JSON text written by `Ser`. */
  predicate Delimited(rest: string) {
    rest == [] || rest[0] == ',' || rest[0] == ']' || rest[0] == '}'
  }

  lemma ReadEscChar(c: char, u: string)
    ensures ReadChar(EscChar(c) + u) == Some((c, u))
  {
    var t := EscChar(c) + u;
    if c < ' ' && c != '\U{0008}' && c != '\U{000C}' && c != '\n' && c != '\r' && c != '\t' {
      var hi, lo := c as int / 16, c as int % 16;
      assert t[2..6] == ['0', '0', HexDigit(hi), HexDigit(lo)];
      assert DigitValue(HexDigit(hi), 16) == Some(hi);
      assert DigitValue(HexDigit(lo), 16) == Some(lo);
      assert HexQuad(t[2..6]) == Some(c as int);
      assert t[6..] == u;
    } else if |EscChar(c)| == 2 {
      assert t[2..] == u;
    } else {
      assert t[1..] == u;
    }
  }

  /** Parsing the escaped text of `s` and its closing quote gives back `s`. */
  lemma {:induction false} StringRoundTrip(s: string, rest: string)
    ensures ParseString(Escape(s) + "\"" + rest) == Some((s, rest))
  {
    if s != [] {
      var tail := Escape(s[1..]) + "\"" + rest;
      assert Escape(s) == EscChar(s[0]) + Escape(s[1..]);
      Regroup(EscChar(s[0]), Escape(s[1..]), "\"", rest);
      ReadEscChar(s[0], tail);
      StringRoundTrip(s[1..], rest);
      assert [s[0]] + s[1..] == s;
    } else {
      assert Escape(s) == "";
      AfterClose('"', rest);
    }
  }

  lemma {:induction false} DigitRunPrefix(p: string, q: string)
    requires forall i :: 0 <= i < |p| ==> '0' <= p[i] <= '9'
    requires q == [] || DigitValue(q[0], 10).None?
    ensures DigitRun(p + q, 10) == |p|
  {
    if p != [] {
      assert (p + q)[1..] == p[1..] + q;
      DigitRunPrefix(p[1..], q);
    }
  }

  lemma {:induction false} NatToStringLead(n: nat)
    ensures |NatToString(n)| > 1 ==> NatToString(n)[0] != '0'
  {
    if n >= 10 {
      NatToStringLead(n / 10);
      assert NatToString(n)[0] == NatToString(n / 10)[0];
    }
  }

  lemma NaturalRoundTrip(m: nat, rest: string)
    requires Delimited(rest)
    ensures ParseNatural(NatToString(m) + rest) == Some((m, rest))
  {
    var d := NatToString(m);
    var u := d + rest;
    DigitRunPrefix(d, rest);
    DigitsOfNatToString(m);
    NatToStringLead(m);
    assert u[..|d|] == d;
    assert u[|d|..] == rest;
  }

  lemma NumberRoundTrip(n: int, rest: string)
    requires Delimited(rest)
    ensures ParseNumber(NumText(n) + rest) == Some((Num(n), rest))
  {
    var s := NumText(n) + rest;
    if n < 0 {
      var m: nat := -n;
      var u := NatToString(m) + rest;
      AfterMark('-', NatToString(m), rest);
      assert s[1..] == u;
      NaturalRoundTrip(m, rest);
      var p := ParseNatural(u);
      assert p == Some((m, rest));
      assert ParseNumber(s) == Some((Num(0 - m), rest));
    } else {
      var u := NatToString(n) + rest;
      assert s == u;
      assert u[0] == NatToString(n)[0];
      NaturalRoundTrip(n, rest);
    }
  }

  lemma {:induction false} SerRoundTrip(v: Value, rest: string)
    requires Delimited(rest)
    ensures ParseValue(Ser(v) + rest) == Some((CleanObject(v), rest))
    decreases v, 2
  {
    match v
    case Undefined => WordRoundTrip("null", Null, rest);
    case Null => WordRoundTrip("null", Null, rest);
    case Bool(b) =>
      if b { WordRoundTrip("true", Bool(true), rest); }
      else { WordRoundTrip("false", Bool(false), rest); }
    case Num(n) => NumValueRoundTrip(n, rest);
    case Str(x) => StrValueRoundTrip(x, rest);
    case Arr(items) =>
      ArrRoundTrip(items, rest);
    case Obj(fields) =>
      ObjRoundTrip(fields, rest);
  }

  lemma NumValueRoundTrip(n: int, rest: string)
    requires Delimited(rest)
    ensures ParseValue(NumText(n) + rest) == Some((Num(n), rest))
  {
    var s := NumText(n) + rest;
    assert s[0] == NumText(n)[0];
    assert s[0] == '-' || '0' <= s[0] <= '9';
    NumberRoundTrip(n, rest);
  }

  lemma StrValueRoundTrip(x: string, rest: string)
    ensures ParseValue(Quote(x) + rest) == Some((Str(x), rest))
  {
    var s := Quote(x) + rest;
    assert s[1..] == Escape(x) + "\"" + rest;
    StringRoundTrip(x, rest);
  }

  lemma WordRoundTrip(word: string, v: Value, rest: string)
    requires (word == "null" && v == Null) || (word == "true" && v == Bool(true)) || (word == "false" && v == Bool(false))
    ensures ParseValue(word + rest) == Some((v, rest))
  {
    var s := word + rest;
    assert s[..|word|] == word;
    assert s[|word|..] == rest;
    assert ParseWord(s, word, v) == Some((v, rest));
    assert s[0] == word[0];
  }

  lemma {:induction false} ArrRoundTrip(items: seq<Value>, rest: string)
    ensures ParseValue("[" + SerItems(items) + "]" + rest) == Some((Arr(CleanItems(items)), rest))
    decreases items, 2
  {
    var s := "[" + SerItems(items) + "]" + rest;
    if items == [] {
      EmptyPair('[', ']', SerItems(items), rest);
    } else {
      AfterSeparator('[', SerItems(items), "]", rest);
      assert s[1] == SerItems(items)[0];
      ParseValueOpen(s);
      ItemsRoundTrip(items, rest);
    }
  }

  lemma {:induction false} ObjRoundTrip(fields: seq<Member>, rest: string)
    ensures ParseValue("{" + SerMembers(fields) + "}" + rest) == Some((Obj(CleanMembers(fields)), rest))
    decreases fields, 3
  {
    var s := "{" + SerMembers(fields) + "}" + rest;
    if SerMembers(fields) == [] {
      EmptyPair('{', '}', SerMembers(fields), rest);
    } else {
      AfterSeparator('{', SerMembers(fields), "}", rest);
      MembersFirst(fields);
      assert s[1] == '"';
      ParseValueOpen(s);
      MembersRoundTrip(fields, rest);
    }
  }

  /** An empty array or object and what follows it. */
  lemma EmptyPair(open: char, close: char, x: string, rest: string)
    requires x == []
    ensures var s := [open] + x + [close] + rest;
      |s| >= 2 && s[0] == open && s[1] == close && s[2..] == rest
  {
    var s := [open] + x + [close] + rest;
    assert s == [open, close] + rest;
  }

  /** `ParseValue` on a bracket that does not close at once. */
  lemma ParseValueOpen(s: string)
    requires |s| >= 2 && (s[0] == '[' || s[0] == '{') && s[1] != ']' && s[1] != '}'
    ensures s[0] == '[' ==>
      ParseValue(s) == (var p := ParseItems(s[1..]); if p.None? then None else Some((Arr(p.value.0), p.value.1)))
    ensures s[0] == '{' ==>
      ParseValue(s) == (var p := ParseMembers(s[1..]); if p.None? then None else Some((Obj(p.value.0), p.value.1)))
  {
  }

  lemma {:induction false} MembersFirst(ms: seq<Member>)
    requires SerMembers(ms) != []
    ensures SerMembers(ms)[0] == '"'
  {
    if ms[0].value.Undefined? {
      MembersFirst(ms[1..]);
    }
  }

  lemma {:induction false} ItemsRoundTrip(items: seq<Value>, rest: string)
    requires items != []
    ensures ParseItems(SerItems(items) + "]" + rest) == Some((CleanItems(items), rest))
    decreases items, 1
  {
    if |items| == 1 {
      LastItemRoundTrip(items, rest);
    } else {
      InnerItemRoundTrip(items, rest);
    }
  }

  lemma {:induction false} LastItemRoundTrip(items: seq<Value>, rest: string)
    requires |items| == 1
    ensures ParseItems(SerItems(items) + "]" + rest) == Some((CleanItems(items), rest))
    decreases items, 0
  {
    assert SerItems(items) == Ser(items[0]);
    assert SerItems(items) + "]" + rest == Ser(items[0]) + ("]" + rest);
    AfterClose(']', rest);
    SerRoundTrip(items[0], "]" + rest);
    assert CleanItems(items) == [CleanObject(items[0])];
  }

  lemma {:induction false} InnerItemRoundTrip(items: seq<Value>, rest: string)
    requires |items| >= 2
    ensures ParseItems(SerItems(items) + "]" + rest) == Some((CleanItems(items), rest))
    decreases items, 0
  {
    var tail := SerItems(items[1..]);
    var after := "," + tail + "]" + rest;
    assert SerItems(items) == Ser(items[0]) + "," + tail;
    RegroupItem(Ser(items[0]), tail, rest);
    AfterSeparator(',', tail, "]", rest);
    SerRoundTrip(items[0], after);
    ItemsRoundTrip(items[1..], rest);
    assert CleanItems(items) == [CleanObject(items[0])] + CleanItems(items[1..]);
  }

  lemma {:induction false} MembersRoundTrip(ms: seq<Member>, rest: string)
    requires SerMembers(ms) != []
    ensures ParseMembers(SerMembers(ms) + "}" + rest) == Some((CleanMembers(ms), rest))
    decreases ms, 2
  {
    if ms[0].value.Undefined? {
      MembersRoundTrip(ms[1..], rest);
    } else {
      DefinedHeadRoundTrip(ms, rest);
    }
  }

  lemma {:induction false} DefinedHeadRoundTrip(ms: seq<Member>, rest: string)
    requires ms != [] && !ms[0].value.Undefined?
    ensures ParseMembers(SerMembers(ms) + "}" + rest) == Some((CleanMembers(ms), rest))
    decreases ms, 1
  {
    if SerMembers(ms[1..]) == "" {
      LastDefinedRoundTrip(ms, rest);
    } else {
      InnerDefinedRoundTrip(ms, rest);
    }
  }

  lemma {:induction false} InnerDefinedRoundTrip(ms: seq<Member>, rest: string)
    requires ms != [] && !ms[0].value.Undefined? && SerMembers(ms[1..]) != ""
    ensures ParseMembers(SerMembers(ms) + "}" + rest) == Some((CleanMembers(ms), rest))
    decreases ms, 0
  {
    var tail := SerMembers(ms[1..]);
    var after := "," + tail + "}" + rest;
    var head := Quote(ms[0].key) + ":" + Ser(ms[0].value);
    DefinedHeadShape(ms, rest);
    AfterSeparator(',', tail, "}", rest);
    MembersRoundTrip(ms[1..], rest);
    var q := ParseMembers(after[1..]);
    assert q == Some((CleanMembers(ms[1..]), rest));
    FirstMember(ms[0].key, ms[0].value, after);
    assert ParseMembers(head + after) == Some(([Member(ms[0].key, CleanObject(ms[0].value))] + q.value.0, q.value.1));
  }

  /** The text and the cleaned list of a defined first property followed by
      more properties. */
  lemma DefinedHeadShape(ms: seq<Member>, rest: string)
    requires ms != [] && !ms[0].value.Undefined? && SerMembers(ms[1..]) != ""
    ensures SerMembers(ms) + "}" + rest ==
      (Quote(ms[0].key) + ":" + Ser(ms[0].value)) + ("," + SerMembers(ms[1..]) + "}" + rest)
    ensures CleanMembers(ms) == [Member(ms[0].key, CleanObject(ms[0].value))] + CleanMembers(ms[1..])
  {
    var head := Quote(ms[0].key) + ":" + Ser(ms[0].value);
    var tail := SerMembers(ms[1..]);
    assert SerMembers(ms) == head + ("," + tail);
    Regroup(head, "," + tail, "}", rest);
  }

  /** Dropping the separator in front of the rest of the text. */
  lemma AfterSeparator(c: char, x: string, y: string, rest: string)
    ensures ([c] + x + y + rest)[0] == c && ([c] + x + y + rest)[1..] == x + y + rest
  {
    assert [c] + x + y + rest == [c] + (x + y + rest);
  }

  lemma AfterMark(c: char, x: string, rest: string)
    ensures ([c] + x + rest)[0] == c && ([c] + x + rest)[1..] == x + rest
  {
    assert [c] + x + rest == [c] + (x + rest);
  }

  lemma AfterClose(c: char, rest: string)
    ensures ([c] + rest)[0] == c && ([c] + rest)[1..] == rest
  {
  }

  /** An element followed by a comma and the rest of the array's text. */
  lemma RegroupItem(h: string, x: string, rest: string)
    ensures h + "," + x + "]" + rest == h + ("," + x + "]" + rest)
  {
  }

  lemma Regroup(a: string, b: string, c: string, d: string)
    ensures a + b + c + d == a + (b + c + d)
  {
  }

  lemma {:induction false} LastDefinedRoundTrip(ms: seq<Member>, rest: string)
    requires ms != [] && !ms[0].value.Undefined? && SerMembers(ms[1..]) == ""
    ensures ParseMembers(SerMembers(ms) + "}" + rest) == Some((CleanMembers(ms), rest))
    decreases ms, 0
  {
    var key, val := ms[0].key, ms[0].value;
    var head := Quote(key) + ":" + Ser(val);
    assert SerMembers(ms) == head;
    var after := "}" + rest;
    assert SerMembers(ms) + "}" + rest == head + after;
    AfterClose('}', rest);
    FirstMember(key, val, after);
    assert CleanMembers(ms[1..]) == [];
    assert CleanMembers(ms) == [Member(key, CleanObject(val))];
  }

  /** Reading one property `"key":value` and the separator after it. */
  lemma {:induction false} FirstMember(key: string, val: Value, after: string)
    requires after != [] && (after[0] == '}' || after[0] == ',')
    ensures ParseMembers((Quote(key) + ":" + Ser(val)) + after) ==
      if after[0] == '}' then Some(([Member(key, CleanObject(val))], after[1..]))
      else
        var q := ParseMembers(after[1..]);
        if q.None? then None else Some(([Member(key, CleanObject(val))] + q.value.0, q.value.1))
    decreases val, 3
  {
    var t := Quote(key) + ":" + Ser(val) + after;
    var afterKey := ":" + Ser(val) + after;
    assert t[1..] == Escape(key) + "\"" + afterKey;
    StringRoundTrip(key, afterKey);
    AfterMark(':', Ser(val), after);
    SerRoundTrip(val, after);
    ParseMembersStep(t, key, afterKey, CleanObject(val), after);
  }

  /** One step of `ParseMembers`, unfolded. */
  lemma ParseMembersStep(t: string, key: string, r1: string, v: Value, r2: string)
    requires t != [] && t[0] == '"' && ParseString(t[1..]) == Some((key, r1))
    requires r1 != [] && r1[0] == ':' && ParseValue(r1[1..]) == Some((v, r2))
    requires r2 != [] && (r2[0] == '}' || r2[0] == ',')
    ensures ParseMembers(t) ==
      if r2[0] == '}' then Some(([Member(key, v)], r2[1..]))
      else
        var q := ParseMembers(r2[1..]);
        if q.None? then None else Some(([Member(key, v)] + q.value.0, q.value.1))
  {
  }

  /** `JSON.parse(JSON.stringify(v))` is `cleanObject(v)`: the helper removes
      exactly what the JSON encoding loses. */
  lemma ParseStringify(v: Value)
    requires !v.Undefined?
    ensures Stringify(v).Some? && Parse(Stringify(v).value) == Ok(CleanObject(v))
  {
    SerRoundTrip(v, "");
    assert Ser(v) + "" == Ser(v);
  }

  /** Values read back from storage are written back unchanged. */
  lemma ParseStringifyDefined(v: Value)
    requires NoUndefined(v)
    ensures Stringify(v).Some? && Parse(Stringify(v).value) == Ok(v)
  {
    ParseStringify(v);
    CleanDefined(v);
  }
}
