/**
 * The JSON text that the spreadsheet grid is stored as: `JSON.stringify` of a
 * grid when it is saved, `JSON.parse` of the stored text when it is opened.
 *
 * Only the part of JSON a grid needs is modelled: `null`, `true`, `false`,
 * strings and arrays, with JSON whitespace between tokens. Numbers and objects
 * are not parsed (a text holding them parses to `None`, as unparseable text does).
 */
module Json {
  import opened Wrappers

  datatype Json = JNull | JBool(b: bool) | JStr(s: string) | JArr(items: seq<Json>)

  /** The four whitespace characters of the JSON grammar. */
  predicate IsWs(c: char) {
    c == ' ' || c == '\t' || c == '\n' || c == '\r'
  }

  function SkipWs(s: string): (r: string)
    ensures |r| <= |s| && r == s[|s| - |r|..]
    ensures r == [] || !IsWs(r[0])
    ensures forall i :: 0 <= i < |s| - |r| ==> IsWs(s[i])
  {
    if s != [] && IsWs(s[0]) then SkipWs(s[1..]) else s
  }

  // ---------------------------------------------------------------- writing

  /** Lower-case hexadecimal digit, as `JSON.stringify` writes in `\u00xx`. */
  function HexDigit(n: nat): (c: char)
    requires n < 16
    ensures HexValue(c) == Some(n)
  {
    if n < 10 then ('0' as int + n) as char else ('a' as int + n - 10) as char
  }

  function HexValue(c: char): (r: Option<nat>)
    ensures r.Some? ==> r.value < 16
  {
    if '0' <= c <= '9' then Some(c as int - '0' as int)
    else if 'a' <= c <= 'f' then Some(c as int - 'a' as int + 10)
    else if 'A' <= c <= 'F' then Some(c as int - 'A' as int + 10)
    else None
  }

  /** How `JSON.stringify` writes one character inside a string literal. */
  function EscapeChar(c: char): string {
    if c == '"' then ['\\', '"']
    else if c == '\\' then ['\\', '\\']
    else if c == 8 as char then ['\\', 'b']
    else if c == 12 as char then ['\\', 'f']
    else if c == '\n' then ['\\', 'n']
    else if c == '\r' then ['\\', 'r']
    else if c == '\t' then ['\\', 't']
    else if (c as int) < 0x20 then ['\\', 'u', '0', '0', HexDigit(c as int / 16), HexDigit(c as int % 16)]
    else [c]
  }

  function Escape(s: string): string {
    if s == [] then [] else EscapeChar(s[0]) + Escape(s[1..])
  }

  /** The parts of an array, separated by commas. */
  function Join(parts: seq<string>): string {
    if |parts| == 0 then []
    else if |parts| == 1 then parts[0]
    else parts[0] + "," + Join(parts[1..])
  }

  /** `JSON.stringify`: no whitespace between tokens. */
  function Encode(j: Json): (text: string)
    ensures text != [] && !IsWs(text[0]) && text[0] != ']' && text[0] != ','
  {
    match j
    case JNull => "null"
    case JBool(b) => if b then "true" else "false"
    case JStr(s) => "\"" + Escape(s) + "\""
    case JArr(items) => "[" + Join(Encodings(items)) + "]"
  }

  function Encodings(items: seq<Json>): (parts: seq<string>)
    ensures |parts| == |items|
  {
    seq(|items|, i requires 0 <= i < |items| => Encode(items[i]))
  }

  // ---------------------------------------------------------------- reading

  /** The character after a backslash: the escaped character and what follows it. */
  function Unescape(s: string): (r: Option<(char, string)>)
    ensures r.Some? ==> |r.value.1| < |s|
  {
    if s == [] then None
    else if s[0] == '"' || s[0] == '\\' || s[0] == '/' then Some((s[0], s[1..]))
    else if s[0] == 'b' then Some((8 as char, s[1..]))
    else if s[0] == 'f' then Some((12 as char, s[1..]))
    else if s[0] == 'n' then Some(('\n', s[1..]))
    else if s[0] == 'r' then Some(('\r', s[1..]))
    else if s[0] == 't' then Some(('\t', s[1..]))
    else if s[0] == 'u' && |s| >= 5 then
      match (HexValue(s[1]), HexValue(s[2]), HexValue(s[3]), HexValue(s[4]))
      case (Some(a), Some(b), Some(c), Some(d)) =>
        var n := ((a * 16 + b) * 16 + c) * 16 + d;
        // a lone UTF-16 surrogate is not a character here
        if 0xD800 <= n < 0xE000 then None else Some((n as char, s[5..]))
      case _ => None
    else None
  }

  /** The characters of a string literal up to its closing quote, and what follows the quote. */
  function ParseChars(s: string): (r: Option<(string, string)>)
    ensures r.Some? ==> |r.value.1| < |s|
  {
    if s == [] then None
    else if s[0] == '"' then Some(([], s[1..]))
    else if s[0] == '\\' then
      match Unescape(s[1..])
      case None => None
      case Some((c, rest)) =>
        match ParseChars(rest)
        case None => None
        case Some((cs, rest')) => Some(([c] + cs, rest'))
    else if (s[0] as int) < 0x20 then None
    else
      match ParseChars(s[1..])
      case None => None
      case Some((cs, rest)) => Some(([s[0]] + cs, rest))
  }

  /** One value after optional whitespace, and the text that follows it. */
  function ParseValue(s: string): (r: Option<(Json, string)>)
    ensures r.Some? ==> |r.value.1| < |s|
    decreases |s|, 0
  {
    var t := SkipWs(s);
    if t == [] then None
    else if t[0] == '"' then ParseString(t[1..])
    else if t[0] == '[' then ParseArray(t[1..])
    else ParseLiteral(t)
  }

  function ParseLiteral(t: string): (r: Option<(Json, string)>)
    ensures r.Some? ==> |r.value.1| < |t|
  {
    if |t| >= 4 && t[..4] == "null" then Some((JNull, t[4..]))
    else if |t| >= 4 && t[..4] == "true" then Some((JBool(true), t[4..]))
    else if |t| >= 5 && t[..5] == "false" then Some((JBool(false), t[5..]))
    else None
  }

  /** A string literal after its opening quote. */
  function ParseString(s: string): (r: Option<(Json, string)>)
    ensures r.Some? ==> |r.value.1| < |s|
  {
    match ParseChars(s)
    case None => None
    case Some((cs, rest)) => Some((JStr(cs), rest))
  }

  /** An array after its opening bracket. */
  function ParseArray(s: string): (r: Option<(Json, string)>)
    ensures r.Some? ==> |r.value.1| < |s|
    decreases |s|, 2
  {
    var u := SkipWs(s);
    if u != [] && u[0] == ']' then Some((JArr([]), u[1..]))
    else
      match ParseItems(s)
      case None => None
      case Some((vs, rest)) => Some((JArr(vs), rest))
  }

  /** The items of a non-empty array up to and including its closing bracket. */
  function ParseItems(s: string): (r: Option<(seq<Json>, string)>)
    ensures r.Some? ==> |r.value.1| < |s|
    decreases |s|, 1
  {
    match ParseValue(s)
    case None => None
    case Some((v, rest)) =>
      var t := SkipWs(rest);
      if t == [] then None
      else if t[0] == ']' then Some(([v], t[1..]))
      else if t[0] == ',' then
        match ParseItems(t[1..])
        case None => None
        case Some((vs, rest')) => Some(([v] + vs, rest'))
      else None
  }

  /** `JSON.parse`: `None` where it would throw. A blank text is not JSON. */
  function Parse(s: string): (r: Option<Json>)
    ensures SkipWs(s) == [] ==> r.None?
  {
    match ParseValue(s)
    case None => None
    case Some((v, rest)) => if SkipWs(rest) == [] then Some(v) else None
  }

  // ---------------------------------------------------------------- round trip

  lemma {:induction false} HexRoundTrip(c: char)
    requires (c as int) < 0x20
    ensures HexValue(HexDigit(c as int / 16)) == Some(c as int / 16)
    ensures HexValue(HexDigit(c as int % 16)) == Some(c as int % 16)
  {
  }

  lemma {:induction false} EscapeCharRoundTrip(c: char, rest: string)
    ensures EscapeChar(c) != []
    ensures EscapeChar(c)[0] == '\\' ==> Unescape(EscapeChar(c)[1..] + rest) == Some((c, rest))
    ensures EscapeChar(c)[0] != '\\' ==> EscapeChar(c) == [c] && c != '"' && (c as int) >= 0x20
  {
    var e := EscapeChar(c);
    if (c as int) < 0x20 && c != 8 as char && c != 12 as char && c != '\n' && c != '\r' && c != '\t' {
      HexRoundTrip(c);
      var s := e[1..] + rest;
      assert s[0] == 'u' && s[1] == '0' && s[2] == '0';
      assert s[3] == HexDigit(c as int / 16) && s[4] == HexDigit(c as int % 16);
      assert s[5..] == rest;
    } else if e[0] == '\\' {
      assert (e[1..] + rest)[1..] == rest;
    }
  }

  lemma {:induction false} StringRoundTrip(s: string, rest: string)
    ensures ParseChars(Escape(s) + "\"" + rest) == Some((s, rest))
  {
    if s == [] {
      assert Escape(s) + "\"" + rest == ['"'] + rest;
    } else {
      var e := EscapeChar(s[0]);
      var tail := Escape(s[1..]) + "\"" + rest;
      assert Escape(s) + "\"" + rest == e + tail;
      StringRoundTrip(s[1..], rest);
      EscapeCharRoundTrip(s[0], tail);
      DropHead(e, tail);
      assert [s[0]] + s[1..] == s;
    }
  }

  lemma {:induction false} DropHead(a: string, b: string)
    requires a != []
    ensures (a + b)[1..] == a[1..] + b
  {
  }

  lemma {:induction false} SkipNothing(s: string)
    requires s != [] && !IsWs(s[0])
    ensures SkipWs(s) == s
  {
  }

  /** How `ParseValue` dispatches on a text that starts with a token. */
  lemma {:induction false} ValueDispatch(s: string)
    requires s != [] && !IsWs(s[0])
    ensures ParseValue(s) == if s[0] == '"' then ParseString(s[1..])
                             else if s[0] == '[' then ParseArray(s[1..])
                             else ParseLiteral(s)
  {
    SkipNothing(s);
  }

  /** Every value reads back as itself, whatever text follows it. */
  lemma {:induction false} ValueRoundTrip(j: Json, rest: string)
    ensures ParseValue(Encode(j) + rest) == Some((j, rest))
    decreases j, if j.JArr? then |j.items| + 2 else 0
  {
    ValueDispatch(Encode(j) + rest);
    match j
    case JArr(items) =>
      ArrayText(j, rest);
      ArrayRoundTrip(j, rest);
    case JStr(str) =>
      StringText(str, rest);
      StringRoundTrip(str, rest);
    case _ =>
      LiteralRoundTrip(j, rest);
  }

  lemma {:induction false} ArrayText(j: Json, rest: string)
    requires j.JArr?
    ensures (Encode(j) + rest)[0] == '['
    ensures (Encode(j) + rest)[1..] == Join(Encodings(j.items)) + "]" + rest
  {
    assert Encode(j) + rest == "[" + (Join(Encodings(j.items)) + "]" + rest);
  }

  lemma {:induction false} StringText(str: string, rest: string)
    ensures (Encode(JStr(str)) + rest)[0] == '"'
    ensures (Encode(JStr(str)) + rest)[1..] == Escape(str) + "\"" + rest
  {
    assert Encode(JStr(str)) + rest == "\"" + (Escape(str) + "\"" + rest);
  }

  lemma {:induction false} LiteralRoundTrip(j: Json, rest: string)
    requires j.JNull? || j.JBool?
    ensures ParseLiteral(Encode(j) + rest) == Some((j, rest))
  {
    var s := Encode(j) + rest;
    if j.JNull? {
      assert s[..4] == "null" && s[4..] == rest;
    } else if j.b {
      assert s[..4] == "true" && s[4..] == rest;
    } else {
      assert s[0] == 'f';
      assert s[..4][0] == 'f';
      assert s[..5] == "false" && s[5..] == rest;
    }
  }

  lemma {:induction false} ArrayRoundTrip(j: Json, rest: string)
    requires j.JArr?
    ensures ParseArray(Join(Encodings(j.items)) + "]" + rest) == Some((j, rest))
    decreases j, |j.items| + 1
  {
    if |j.items| == 0 {
      EmptyArrayRoundTrip(j, rest);
    } else {
      var s := Join(Encodings(j.items)) + "]" + rest;
      JoinStartsWithFirst(Encodings(j.items));
      assert s[0] == Encode(j.items[0])[0];
      SkipNothing(s);
      ItemsRoundTrip(j, 0, rest);
      assert j.items[0..] == j.items;
      assert ParseItems(s) == Some((j.items, rest));
    }
  }

  lemma {:induction false} EmptyArrayRoundTrip(j: Json, rest: string)
    requires j.JArr? && j.items == []
    ensures ParseArray(Join(Encodings(j.items)) + "]" + rest) == Some((j, rest))
  {
    var s := Join(Encodings(j.items)) + "]" + rest;
    assert s == "]" + rest;
    SkipNothing(s);
    assert s[1..] == rest;
  }

  lemma {:induction false} JoinStartsWithFirst(parts: seq<string>)
    requires |parts| > 0 && parts[0] != []
    ensures Join(parts) != [] && Join(parts)[0] == parts[0][0]
  {
  }

  /** The items of an array from position `k` on, each written by `Encode`, read back up to the closing bracket. */
  lemma {:induction false} ItemsRoundTrip(parent: Json, k: nat, rest: string)
    requires parent.JArr? && k < |parent.items|
    ensures ParseItems(Join(Encodings(parent.items[k..])) + "]" + rest) == Some((parent.items[k..], rest))
    decreases parent, |parent.items| - k
  {
    var v := parent.items[k];
    if k + 1 == |parent.items| {
      LastText(parent.items[k..], rest);
      ValueRoundTrip(v, "]" + rest);
      LastItem(v, rest);
    } else {
      var next := parent.items[k + 1..];
      var tail := Join(Encodings(next)) + "]" + rest;
      NextText(parent.items[k..], rest);
      ValueRoundTrip(v, "," + tail);
      ItemsRoundTrip(parent, k + 1, rest);
      NextItem(v, tail, next, rest);
    }
  }

  lemma {:induction false} LastText(items: seq<Json>, rest: string)
    requires |items| == 1
    ensures Join(Encodings(items)) + "]" + rest == Encode(items[0]) + ("]" + rest)
    ensures [items[0]] == items
  {
  }

  lemma {:induction false} NextText(items: seq<Json>, rest: string)
    requires |items| > 1
    ensures Join(Encodings(items)) + "]" + rest
         == Encode(items[0]) + ("," + (Join(Encodings(items[1..])) + "]" + rest))
    ensures [items[0]] + items[1..] == items
  {
    assert Encodings(items)[1..] == Encodings(items[1..]);
  }

  lemma {:induction false} LastItem(v: Json, rest: string)
    requires ParseValue(Encode(v) + ("]" + rest)) == Some((v, "]" + rest))
    ensures ParseItems(Encode(v) + ("]" + rest)) == Some(([v], rest))
  {
    SkipNothing("]" + rest);
    assert ("]" + rest)[1..] == rest;
  }

  lemma {:induction false} NextItem(v: Json, tail: string, vs: seq<Json>, rest: string)
    requires ParseValue(Encode(v) + ("," + tail)) == Some((v, "," + tail))
    requires ParseItems(tail) == Some((vs, rest))
    ensures ParseItems(Encode(v) + ("," + tail)) == Some(([v] + vs, rest))
  {
    SkipNothing("," + tail);
    assert ("," + tail)[1..] == tail;
  }

  /** `JSON.parse(JSON.stringify(j))` gives back `j`. */
  lemma {:induction false} ParseEncode(j: Json)
    ensures Parse(Encode(j)) == Some(j)
  {
    ValueRoundTrip(j, []);
    assert Encode(j) + [] == Encode(j);
  }
}
