/**
 JSON text: `JSON.stringify` without indentation and `JSON.parse`, over UTF-16 code units.
 The grammar is that of RFC 8259. A number keeps the text it is written with, so that no
 property here depends on floating point.
 */
module Json {
  import opened JsText
  import opened Decimals

  datatype Json =
    | Null
    | Bool(b: bool)
    | Num(lexeme: Text)
    | Str(s: Text)
    | Arr(items: seq<Json>)
    | Obj(members: seq<Member>)

  datatype Member = Member(key: Text, value: Json)

  datatype Parsed<+T> = Fail | Ok(value: T, rest: Text)

  const QUOTE: Unit := 0x22
  const BACKSLASH: Unit := 0x5C
  const LBRACKET: Unit := 0x5B
  const RBRACKET: Unit := 0x5D
  const LBRACE: Unit := 0x7B
  const RBRACE: Unit := 0x7D
  const COLON: Unit := 0x3A
  const LOWER_U: Unit := 0x75
  const LESS: Unit := 0x3C
  const GREATER: Unit := 0x3E
  const AMPERSAND: Unit := 0x26
  const NULL_TEXT: Text := [0x6E, 0x75, 0x6C, 0x6C]
  const TRUE_TEXT: Text := [0x74, 0x72, 0x75, 0x65]
  const FALSE_TEXT: Text := [0x66, 0x61, 0x6C, 0x73, 0x65]

  // ---- numbers (section 6 of RFC 8259) ----

  /** Every code unit that can occur in a number. */
  predicate IsNumUnit(u: Unit) {
    IsDigit(u) || u == 0x2B || u == 0x2D || u == 0x2E || u == 0x45 || u == 0x65
  }

  function DigitRun(s: Text): (n: nat)
    ensures n <= |s| && forall i :: 0 <= i < n ==> IsDigit(s[i])
  {
    if s != [] && IsDigit(s[0]) then 1 + DigitRun(s[1..]) else 0
  }

  predicate IsExponent(s: Text) {
    || s == []
    || (&& (s[0] == 0x65 || s[0] == 0x45)
        && var t := if |s| > 1 && (s[1] == 0x2B || s[1] == 0x2D) then s[2..] else s[1..];
           t != [] && DigitRun(t) == |t|)
  }

  predicate IsFractionExponent(s: Text) {
    if s != [] && s[0] == 0x2E then
      var n := DigitRun(s[1..]);
      n > 0 && IsExponent(s[1 + n..])
    else
      IsExponent(s)
  }

  predicate IsNumber(s: Text) {
    var t := if s != [] && s[0] == 0x2D then s[1..] else s;
    var n := DigitRun(t);
    n > 0 && (t[0] == 0x30 ==> n == 1) && IsFractionExponent(t[n..])
  }

  function NumRun(s: Text): (n: nat)
    ensures n <= |s|
  {
    if s != [] && IsNumUnit(s[0]) then 1 + NumRun(s[1..]) else 0
  }

  // ---- stringify ----

  /** `html` also escapes the three characters that can leave an HTML script element. */
  predicate NeedsHex(html: bool, u: Unit) {
    || u < 0x20
    || 0xD800 <= u <= 0xDFFF
    || (html && (u == LESS || u == GREATER || u == AMPERSAND))
  }

  function HexDigit(d: int): (u: Unit)
    requires 0 <= d < 16
  {
    if d < 10 then (0x30 + d) as Unit else (0x61 + d - 10) as Unit
  }

  function HexEscape(u: Unit): Text {
    var n := u as int;
    [BACKSLASH, LOWER_U, HexDigit(n / 4096), HexDigit(n / 256 % 16), HexDigit(n / 16 % 16), HexDigit(n % 16)]
  }

  function QuoteUnit(html: bool, u: Unit): Text {
    if u == 0x08 then [BACKSLASH, 0x62]
    else if u == 0x09 then [BACKSLASH, 0x74]
    else if u == 0x0A then [BACKSLASH, 0x6E]
    else if u == 0x0C then [BACKSLASH, 0x66]
    else if u == 0x0D then [BACKSLASH, 0x72]
    else if u == QUOTE || u == BACKSLASH then [BACKSLASH, u]
    else if NeedsHex(html, u) then HexEscape(u)
    else [u]
  }

  predicate IsSurrogatePair(s: Text) {
    |s| >= 2 && 0xD800 <= s[0] <= 0xDBFF && 0xDC00 <= s[1] <= 0xDFFF
  }

  /** How many code units are quoted together: a surrogate pair is one code point. */
  function HeadSize(s: Text): (n: nat)
    requires s != []
    ensures 0 < n <= |s|
  {
    if IsSurrogatePair(s) then 2 else 1
  }

  /** A surrogate pair is copied; a lone surrogate is escaped, as every control character is. */
  function QuoteHead(html: bool, s: Text): Text
    requires s != []
  {
    if IsSurrogatePair(s) then s[..2] else QuoteUnit(html, s[0])
  }

  function QuoteBody(html: bool, s: Text): Text {
    if s == [] then [] else QuoteHead(html, s) + QuoteBody(html, s[HeadSize(s)..])
  }

  function Quote(html: bool, s: Text): Text {
    [QUOTE] + QuoteBody(html, s) + [QUOTE]
  }

  function StringifyWith(html: bool, v: Json): Text
    decreases v, 1
  {
    match v
    case Null => NULL_TEXT
    case Bool(b) => if b then TRUE_TEXT else FALSE_TEXT
    case Num(lexeme) => lexeme
    case Str(s) => Quote(html, s)
    case Arr(items) => [LBRACKET] + StringifyItems(html, items) + [RBRACKET]
    case Obj(members) => [LBRACE] + StringifyMembers(html, members) + [RBRACE]
  }

  function StringifyItems(html: bool, items: seq<Json>): Text
    decreases items, 0
  {
    if items == [] then []
    else if |items| == 1 then StringifyWith(html, items[0])
    else StringifyWith(html, items[0]) + [COMMA] + StringifyItems(html, items[1..])
  }

  function StringifyMembers(html: bool, members: seq<Member>): Text
    decreases members, 0
  {
    if members == [] then []
    else
      var head := Quote(html, members[0].key) + [COLON] + StringifyWith(html, members[0].value);
      if |members| == 1 then head else head + [COMMA] + StringifyMembers(html, members[1..])
  }

  function Stringify(v: Json): Text { StringifyWith(false, v) }

  // ---- parse ----

  function SkipSpace(s: Text): (r: Text)
    ensures |r| <= |s|
  {
    if s != [] && (s[0] == 0x20 || s[0] == 0x09 || s[0] == 0x0A || s[0] == 0x0D) then SkipSpace(s[1..]) else s
  }

  function HexValue(u: Unit): int {
    if IsDigit(u) then u as int - 0x30
    else if 0x61 <= u <= 0x66 then u as int - 0x61 + 10
    else if 0x41 <= u <= 0x46 then u as int - 0x41 + 10
    else -1
  }

  /** The code unit a two-character escape stands for. */
  function Unescape(u: Unit): Option<Unit> {
    if u == QUOTE || u == BACKSLASH || u == 0x2F then Some(u)
    else if u == 0x62 then Some(0x08)
    else if u == 0x66 then Some(0x0C)
    else if u == 0x6E then Some(0x0A)
    else if u == 0x72 then Some(0x0D)
    else if u == 0x74 then Some(0x09)
    else None
  }

  function HexUnit(s: Text): Option<Unit>
    requires |s| == 4
  {
    var a, b, c, d := HexValue(s[0]), HexValue(s[1]), HexValue(s[2]), HexValue(s[3]);
    if a < 0 || b < 0 || c < 0 || d < 0 then None
    else Some((a * 4096 + b * 256 + c * 16 + d) as Unit)
  }

  /** Section 7 of RFC 8259, from after the opening quotation mark. */
  function ParseBody(s: Text): (r: Parsed<Text>)
    ensures r.Ok? ==> |r.value| + |r.rest| < |s|
  {
    if s == [] then Fail
    else if s[0] == QUOTE then Ok([], s[1..])
    else if s[0] == BACKSLASH then
      if |s| < 2 then Fail
      else if s[1] == LOWER_U then
        if |s| < 6 then Fail
        else match HexUnit(s[2..6])
          case None => Fail
          case Some(u) => Push(u, ParseBody(s[6..]))
      else match Unescape(s[1])
        case None => Fail
        case Some(u) => Push(u, ParseBody(s[2..]))
    else if s[0] < 0x20 then Fail
    else Push(s[0], ParseBody(s[1..]))
  }

  function Push<T>(head: T, tail: Parsed<seq<T>>): Parsed<seq<T>> {
    match tail
    case Fail => Fail
    case Ok(value, rest) => Ok([head] + value, rest)
  }

  function ParseWord(s: Text, word: Text, v: Json): Parsed<Json> {
    if word <= s then Ok(v, s[|word|..]) else Fail
  }

  function ParseValue(s: Text): (r: Parsed<Json>)
    ensures r.Ok? ==> |r.rest| < |s|
    ensures r.Ok? && r.value.Str? ==> |r.value.s| < |s|
    ensures r.Ok? && r.value.Arr? ==> forall v :: v in r.value.items && v.Str? ==> |v.s| < |s|
    decreases |s|, 1
  {
    var t := SkipSpace(s);
    if t == [] then Fail
    else if t[0] == LBRACKET then
      var u := SkipSpace(t[1..]);
      if u != [] && u[0] == RBRACKET then Ok(Arr([]), u[1..])
      else match ParseItems(u)
        case Fail => Fail
        case Ok(items, rest) => Ok(Arr(items), rest)
    else if t[0] == LBRACE then
      var u := SkipSpace(t[1..]);
      if u != [] && u[0] == RBRACE then Ok(Obj([]), u[1..])
      else match ParseMembers(u)
        case Fail => Fail
        case Ok(members, rest) => Ok(Obj(members), rest)
    else if t[0] == QUOTE then
      match ParseBody(t[1..])
        case Fail => Fail
        case Ok(text, rest) => Ok(Str(text), rest)
    else if t[0] == NULL_TEXT[0] then ParseWord(t, NULL_TEXT, Null)
    else if t[0] == TRUE_TEXT[0] then ParseWord(t, TRUE_TEXT, Bool(true))
    else if t[0] == FALSE_TEXT[0] then ParseWord(t, FALSE_TEXT, Bool(false))
    else
      var n := NumRun(t);
      if IsNumber(t[..n]) then Ok(Num(t[..n]), t[n..]) else Fail
  }

  /** One or more values separated by commas, up to and including the closing bracket. */
  function ParseItems(s: Text): (r: Parsed<seq<Json>>)
    ensures r.Ok? ==> |r.rest| < |s|
    ensures r.Ok? ==> forall v :: v in r.value && v.Str? ==> |v.s| < |s|
    decreases |s|, 2
  {
    match ParseValue(s)
    case Fail => Fail
    case Ok(v, afterValue) =>
      var t := SkipSpace(afterValue);
      if t == [] then Fail
      else if t[0] == RBRACKET then Ok([v], t[1..])
      else if t[0] == COMMA then Push(v, ParseItems(t[1..]))
      else Fail
  }

  function ParseMembers(s: Text): (r: Parsed<seq<Member>>)
    ensures r.Ok? ==> |r.rest| < |s|
    decreases |s|, 2
  {
    var t := SkipSpace(s);
    if t == [] || t[0] != QUOTE then Fail
    else match ParseBody(t[1..])
      case Fail => Fail
      case Ok(key, afterKey) =>
        var c := SkipSpace(afterKey);
        if c == [] || c[0] != COLON then Fail
        else match ParseValue(c[1..])
          case Fail => Fail
          case Ok(v, afterValue) =>
            var e := SkipSpace(afterValue);
            if e == [] then Fail
            else if e[0] == RBRACE then Ok([Member(key, v)], e[1..])
            else if e[0] == COMMA then Push(Member(key, v), ParseMembers(e[1..]))
            else Fail
  }

  /** `JSON.parse`; None stands for the thrown SyntaxError. */
  function Parse(s: Text): Option<Json> {
    match ParseValue(s)
    case Fail => None
    case Ok(v, rest) => if SkipSpace(rest) == [] then Some(v) else None
  }

  // ---- well-formed values ----

  /** What a JavaScript value can be once it is JSON: number text is a number, no key occurs twice. */
  ghost predicate WellFormed(v: Json)
    decreases v
  {
    match v
    case Num(lexeme) => IsNumber(lexeme)
    case Arr(items) => forall i :: 0 <= i < |items| ==> WellFormed(items[i])
    case Obj(members) =>
      && DistinctKeys(members)
      && forall i :: 0 <= i < |members| ==> WellFormed(members[i].value)
    case _ => true
  }

  predicate DistinctKeys(members: seq<Member>) {
    forall i, j :: 0 <= i < j < |members| ==> members[i].key != members[j].key
  }

  // ---- round trip ----

  lemma NumberUnits(s: Text)
    requires IsNumber(s)
    ensures s != [] && (s[0] == 0x2D || IsDigit(s[0]))
    ensures forall i :: 0 <= i < |s| ==> IsNumUnit(s[i])
  {
    var t := if s[0] == 0x2D then s[1..] else s;
    UnsignedUnits(t, DigitRun(t));
    hide IsFractionExponent, DigitRun;
    forall i | 0 <= i < |s| ensures IsNumUnit(s[i]) {
      if s[0] != 0x2D { assert s[i] == t[i]; } else if i > 0 { assert s[i] == t[i - 1]; }
    }
  }

  lemma UnsignedUnits(t: Text, n: nat)
    requires n <= |t| && (forall i :: 0 <= i < n ==> IsDigit(t[i])) && IsFractionExponent(t[n..])
    ensures forall i :: 0 <= i < |t| ==> IsNumUnit(t[i])
  {
    FractionUnits(t[n..]);
    hide IsFractionExponent;
    forall i | n <= i < |t| ensures IsNumUnit(t[i]) { assert t[i] == t[n..][i - n]; }
  }

  lemma FractionUnits(s: Text)
    requires IsFractionExponent(s)
    ensures forall i :: 0 <= i < |s| ==> IsNumUnit(s[i])
  {
    if s != [] && s[0] == 0x2E {
      var n := DigitRun(s[1..]);
      ExponentUnits(s[1 + n..]);
      hide IsExponent, DigitRun;
      forall i | 0 <= i < |s| ensures IsNumUnit(s[i]) {
        if i > n {
          assert s[i] == s[1 + n..][i - 1 - n];
        } else if i > 0 {
          assert s[i] == s[1..][i - 1];
        }
      }
    } else {
      ExponentUnits(s);
    }
  }

  lemma ExponentUnits(s: Text)
    requires IsExponent(s)
    ensures forall i :: 0 <= i < |s| ==> IsNumUnit(s[i])
  {}

  lemma {:induction false} NumRunStops(s: Text, rest: Text)
    requires forall i :: 0 <= i < |s| ==> IsNumUnit(s[i])
    requires rest == [] || !IsNumUnit(rest[0])
    ensures NumRun(s + rest) == |s|
  {
    if s == [] {
      assert s + rest == rest;
    } else {
      assert (s + rest)[1..] == s[1..] + rest;
      NumRunStops(s[1..], rest);
    }
  }

  lemma HexDigits(n: int)
    requires 0 <= n < 0x1_0000
    ensures n == n / 4096 * 4096 + n / 256 % 16 * 256 + n / 16 % 16 * 16 + n % 16
  {
    assert n / 256 == n / 4096 * 16 + n / 256 % 16;
    assert n / 16 == n / 256 * 16 + n / 16 % 16;
  }

  lemma HexRoundTrip(u: Unit)
    ensures HexUnit(HexEscape(u)[2..6]) == Some(u)
  {
    var n := u as int;
    HexDigits(n);
    assert HexEscape(u)[2..6] == [HexDigit(n / 4096), HexDigit(n / 256 % 16), HexDigit(n / 16 % 16), HexDigit(n % 16)];
  }

  lemma QuoteUnitRoundTrip(html: bool, u: Unit, rest: Text)
    ensures ParseBody(QuoteUnit(html, u) + rest) == Push(u, ParseBody(rest))
  {
    var q := QuoteUnit(html, u);
    assert (q + rest)[|q|..] == rest;
    if |q| == 6 {
      HexRoundTrip(u);
      assert (q + rest)[2..6] == HexEscape(u)[2..6];
    }
  }

  lemma LiteralUnit(u: Unit, rest: Text)
    requires u >= 0x20 && u != QUOTE && u != BACKSLASH
    ensures ParseBody([u] + rest) == Push(u, ParseBody(rest))
  {}

  lemma QuoteHeadRoundTrip(html: bool, s: Text, body: Text, value: Text, rest: Text)
    requires s != [] && ParseBody(body) == Ok(value, rest)
    ensures ParseBody(QuoteHead(html, s) + body) == Ok(s[..HeadSize(s)] + value, rest)
  {
    if IsSurrogatePair(s) {
      LiteralUnit(s[1], body);
      LiteralUnit(s[0], [s[1]] + body);
      assert s[..2] + body == [s[0]] + ([s[1]] + body);
      assert s[..2] + value == [s[0]] + ([s[1]] + value);
    } else {
      QuoteUnitRoundTrip(html, s[0], body);
      assert s[..1] == [s[0]];
    }
  }

  lemma EmptyBody(tail: Text)
    requires tail != [] && tail[0] == QUOTE
    ensures ParseBody(tail) == Ok([], tail[1..])
  {
  }

  lemma QuoteBodySplit(html: bool, s: Text, tail: Text)
    requires s != []
    ensures QuoteBody(html, s) + tail == QuoteHead(html, s) + (QuoteBody(html, s[HeadSize(s)..]) + tail)
    ensures s[..HeadSize(s)] + s[HeadSize(s)..] == s
  {
    hide QuoteHead, HeadSize;
    Assoc(QuoteHead(html, s), QuoteBody(html, s[HeadSize(s)..]), tail);
  }

  lemma {:induction false} QuoteBodyRoundTrip(html: bool, s: Text, tail: Text)
    requires tail != [] && tail[0] == QUOTE
    ensures ParseBody(QuoteBody(html, s) + tail) == Ok(s, tail[1..])
  {
    EmptyBody(tail);
    if s == [] {
      assert QuoteBody(html, s) + tail == tail;
    } else {
      hide *;
      var rest := s[HeadSize(s)..];
      QuoteBodyRoundTrip(html, rest, tail);
      QuoteHeadRoundTrip(html, s, QuoteBody(html, rest) + tail, rest, tail[1..]);
      QuoteBodySplit(html, s, tail);
    }
  }

  /** A text the parser reads from its first code unit on. */
  predicate Starts(s: Text) {
    s != [] && SkipSpace(s) == s
  }

  lemma StartsConcat(s: Text, rest: Text)
    requires Starts(s)
    ensures Starts(s + rest)
  {
  }

  /** The text of a value starts with neither white space nor a closing bracket. */
  lemma StringifyHead(html: bool, v: Json, rest: Text)
    requires WellFormed(v)
    ensures Starts(StringifyWith(html, v) + rest)
    ensures (StringifyWith(html, v) + rest)[0] != RBRACKET
  {
    if v.Num? { NumberUnits(v.lexeme); }
    StartsConcat(StringifyWith(html, v), rest);
  }

  lemma ParseArrStep(u: Text, items: seq<Json>, rest: Text)
    requires Starts(u) && u[0] != RBRACKET && ParseItems(u) == Ok(items, rest)
    ensures ParseValue([LBRACKET] + u) == Ok(Arr(items), rest)
  {}

  lemma ParseEmptyArr(rest: Text)
    ensures ParseValue([LBRACKET] + ([RBRACKET] + rest)) == Ok(Arr([]), rest)
  {}

  lemma ParseEmptyObj(rest: Text)
    ensures ParseValue([LBRACE] + ([RBRACE] + rest)) == Ok(Obj([]), rest)
  {}

  lemma ParseObjStep(u: Text, members: seq<Member>, rest: Text)
    requires Starts(u) && u[0] != RBRACE && ParseMembers(u) == Ok(members, rest)
    ensures ParseValue([LBRACE] + u) == Ok(Obj(members), rest)
  {}

  lemma ParseStrStep(u: Text, text: Text, rest: Text)
    requires ParseBody(u) == Ok(text, rest)
    ensures ParseValue([QUOTE] + u) == Ok(Str(text), rest)
  {}

  lemma ParseValueAtNumber(t: Text)
    requires t != [] && (t[0] == 0x2D || IsDigit(t[0]))
    ensures var n := NumRun(t);
            ParseValue(t) == if IsNumber(t[..n]) then Ok(Num(t[..n]), t[n..]) else Fail
  {
    hide IsNumber, ParseItems, ParseMembers, ParseBody;
    assert SkipSpace(t) == t;
  }

  lemma ParseNumStep(lexeme: Text, rest: Text)
    requires IsNumber(lexeme)
    requires rest == [] || !IsNumUnit(rest[0])
    ensures ParseValue(lexeme + rest) == Ok(Num(lexeme), rest)
  {
    hide ParseValue, IsNumber, NumRun;
    NumberUnits(lexeme);
    NumRunStops(lexeme, rest);
    var t := lexeme + rest;
    ParseValueAtNumber(t);
    assert t[..|lexeme|] == lexeme && t[|lexeme|..] == rest;
  }

  lemma ParseWordStep(word: Text, v: Json, rest: Text)
    requires || (word == NULL_TEXT && v == Null)
             || (word == TRUE_TEXT && v == Bool(true))
             || (word == FALSE_TEXT && v == Bool(false))
    ensures ParseValue(word + rest) == Ok(v, rest)
  {}

  lemma ParseItemsStep(s: Text, v: Json, after: Text)
    requires ParseValue(s) == Ok(v, after) && Starts(after)
    ensures after[0] == RBRACKET ==> ParseItems(s) == Ok([v], after[1..])
    ensures after[0] == COMMA ==> ParseItems(s) == Push(v, ParseItems(after[1..]))
  {
  }

  lemma ParseMembersStep(body: Text, key: Text, value: Text, v: Json, after: Text)
    requires ParseBody(body) == Ok(key, [COLON] + value)
    requires ParseValue(value) == Ok(v, after) && Starts(after)
    ensures after[0] == RBRACE ==> ParseMembers([QUOTE] + body) == Ok([Member(key, v)], after[1..])
    ensures after[0] == COMMA ==> ParseMembers([QUOTE] + body) == Push(Member(key, v), ParseMembers(after[1..]))
  {}

  lemma StrRoundTrip(html: bool, s: Text, rest: Text)
    ensures ParseValue(Quote(html, s) + rest) == Ok(Str(s), rest)
  {
    hide ParseValue, ParseBody, QuoteBody;
    var tail := [QUOTE] + rest;
    QuoteBodyRoundTrip(html, s, tail);
    assert tail[1..] == rest;
    ParseStrStep(QuoteBody(html, s) + tail, s, rest);
    assert Quote(html, s) + rest == [QUOTE] + (QuoteBody(html, s) + tail);
  }

  lemma Wrapped(open: Unit, inner: Text, close: Unit, rest: Text)
    ensures [open] + inner + [close] + rest == [open] + (inner + ([close] + rest))
    ensures ([close] + rest)[1..] == rest
  {
  }

  lemma {:induction false} ValueRoundTrip(html: bool, v: Json, rest: Text)
    requires WellFormed(v)
    requires rest == [] || !IsNumUnit(rest[0])
    ensures ParseValue(StringifyWith(html, v) + rest) == Ok(v, rest)
    decreases v, 1
  {
    hide ParseValue, ParseItems, ParseMembers, Quote, IsNumber, Starts;
    match v
    case Null => ParseWordStep(NULL_TEXT, v, rest);
    case Bool(b) => ParseWordStep(if b then TRUE_TEXT else FALSE_TEXT, v, rest);
    case Num(lexeme) => ParseNumStep(lexeme, rest);
    case Str(s) => StrRoundTrip(html, s, rest);
    case Arr(items) =>
      var tail := [RBRACKET] + rest;
      Wrapped(LBRACKET, StringifyItems(html, items), RBRACKET, rest);
      if items == [] {
        ParseEmptyArr(rest);
        assert [] + tail == tail;
      } else {
        ItemsRoundTrip(html, items, tail);
        ParseArrStep(StringifyItems(html, items) + tail, items, rest);
      }
    case Obj(members) =>
      var tail := [RBRACE] + rest;
      Wrapped(LBRACE, StringifyMembers(html, members), RBRACE, rest);
      if members == [] {
        ParseEmptyObj(rest);
        assert [] + tail == tail;
      } else {
        MembersRoundTrip(html, members, tail);
        ParseObjStep(StringifyMembers(html, members) + tail, members, rest);
      }
  }

  lemma ItemsText(html: bool, items: seq<Json>, tail: Text)
    requires items != []
    ensures StringifyItems(html, items) + tail
         == StringifyWith(html, items[0])
            + if |items| == 1 then tail else [COMMA] + (StringifyItems(html, items[1..]) + tail)
  {}

  lemma {:induction false} ItemsRoundTrip(html: bool, items: seq<Json>, tail: Text)
    requires items != [] && forall i :: 0 <= i < |items| ==> WellFormed(items[i])
    requires tail != [] && tail[0] == RBRACKET
    ensures var all := StringifyItems(html, items) + tail;
            Starts(all) && all[0] != RBRACKET && ParseItems(all) == Ok(items, tail[1..])
    decreases items, 0
  {
    hide ParseValue, ParseItems, StringifyWith, StringifyItems, IsNumber;
    var h := StringifyWith(html, items[0]);
    var next := StringifyItems(html, items[1..]) + tail;
    var after := if |items| == 1 then tail else [COMMA] + next;
    ItemsText(html, items, tail);
    StringifyHead(html, items[0], after);
    ValueRoundTrip(html, items[0], after);
    ParseItemsStep(h + after, items[0], after);
    assert items == [items[0]] + items[1..];
    if |items| > 1 {
      ItemsRoundTrip(html, items[1..], tail);
      assert after[1..] == next;
    } else {
      assert items == [items[0]];
    }
  }

  lemma MembersText(html: bool, members: seq<Member>, tail: Text)
    requires members != []
    ensures StringifyMembers(html, members) + tail
         == [QUOTE] + (QuoteBody(html, members[0].key) + ([QUOTE] + ([COLON] + (StringifyWith(html, members[0].value)
            + if |members| == 1 then tail else [COMMA] + (StringifyMembers(html, members[1..]) + tail)))))
  {
    hide QuoteBody, StringifyWith;
    var k, h := QuoteBody(html, members[0].key), StringifyWith(html, members[0].value);
    Nest(k, h, tail);
    if |members| > 1 {
      var next := StringifyMembers(html, members[1..]);
      Nest(k, h, [COMMA] + (next + tail));
      Regroup([QUOTE] + k + [QUOTE] + [COLON] + h, next, tail);
    }
  }

  lemma Regroup(head: Text, next: Text, tail: Text)
    ensures head + [COMMA] + next + tail == head + ([COMMA] + (next + tail))
  {
  }

  lemma Nest(k: Text, h: Text, tail: Text)
    ensures [QUOTE] + k + [QUOTE] + [COLON] + h + tail == [QUOTE] + (k + ([QUOTE] + ([COLON] + (h + tail))))
  {
  }

  lemma {:induction false} MembersRoundTrip(html: bool, members: seq<Member>, tail: Text)
    requires members != [] && forall i :: 0 <= i < |members| ==> WellFormed(members[i].value)
    requires tail != [] && tail[0] == RBRACE
    ensures var all := StringifyMembers(html, members) + tail;
            Starts(all) && all[0] != RBRACE && ParseMembers(all) == Ok(members, tail[1..])
    decreases members, 0
  {
    hide ParseValue, ParseBody, ParseMembers, StringifyWith, StringifyMembers, QuoteBody, IsNumber;
    var m := members[0];
    var next := StringifyMembers(html, members[1..]) + tail;
    var after := if |members| == 1 then tail else [COMMA] + next;
    var value := StringifyWith(html, m.value) + after;
    var colon := [COLON] + value;
    MembersText(html, members, tail);
    QuoteBodyRoundTrip(html, m.key, [QUOTE] + colon);
    assert ([QUOTE] + colon)[1..] == colon;
    ValueRoundTrip(html, m.value, after);
    ParseMembersStep(QuoteBody(html, m.key) + ([QUOTE] + colon), m.key, value, m.value, after);
    assert members == [Member(m.key, m.value)] + members[1..];
    if |members| > 1 {
      MembersRoundTrip(html, members[1..], tail);
      assert after[1..] == next;
    } else {
      assert members == [m];
    }
  }

  /** `JSON.parse(JSON.stringify(v))` is `v`, with or without the HTML escapes. */
  lemma RoundTrip(html: bool, v: Json)
    requires WellFormed(v)
    ensures Parse(StringifyWith(html, v)) == Some(v)
  {
    ValueRoundTrip(html, v, []);
    assert StringifyWith(html, v) + [] == StringifyWith(html, v);
  }

  /** Distinct values have distinct texts. */
  lemma StringifyInjective(v: Json, w: Json)
    requires WellFormed(v) && WellFormed(w)
    requires Stringify(v) == Stringify(w)
    ensures v == w
  {
    RoundTrip(false, v);
    RoundTrip(false, w);
  }

  // ---- the text itself ----

  /** A text between quotation marks that is read as the one unit u. */
  predicate StandsFor(t: Text, u: Unit) {
    ParseBody(t + [QUOTE]) == Ok([u], [])
  }

  /** No shorter text stands for a unit than the one printed; a lone surrogate is hex-escaped. */
  lemma ShortestQuote(u: Unit, t: Text)
    requires StandsFor(t, u)
    ensures 0xD800 <= u <= 0xDFFF || |QuoteUnit(false, u)| <= |t|
    ensures 0xD800 <= u <= 0xDFFF ==> QuoteUnit(false, u) == HexEscape(u)
  {
    QuoteSize(u);
    hide StandsFor, QuoteUnit, HexEscape, Unescape;
    if |t| < 6 { ShortText(u, t); }
  }

  lemma QuoteSize(u: Unit)
    ensures |QuoteUnit(false, u)| <= 6
    ensures u >= 0x20 && u != QUOTE && u != BACKSLASH && !(0xD800 <= u <= 0xDFFF) ==> |QuoteUnit(false, u)| == 1
    ensures (exists x :: Unescape(x) == Some(u)) ==> |QuoteUnit(false, u)| <= 2
    ensures 0xD800 <= u <= 0xDFFF ==> QuoteUnit(false, u) == HexEscape(u)
  {
    hide HexDigit;
  }

  /** Fewer than six units stand for u only as u itself or as a two-unit escape. */
  lemma ShortText(u: Unit, t: Text)
    requires |t| < 6 && StandsFor(t, u)
    ensures t != []
    ensures if t[0] == BACKSLASH then |t| >= 2 && Unescape(t[1]) == Some(u) else t[0] == u >= 0x20 && u != QUOTE
  {
    var all := t + [QUOTE];
    var r := ParseBody(all);
    assert r == Ok([u], []);
    hide StandsFor, ParseBody, HexUnit, Unescape, Push;
    BodyHead(all);
    BodyHead([]);
    if |all| == 6 { NoHexAtQuote(all[2..6]); }
    if |all| >= 2 && all[0] == BACKSLASH && Unescape(all[1]).Some? {
      PushOne(Unescape(all[1]).value, ParseBody(all[2..]), u);
    } else if all[0] != QUOTE && all[0] != BACKSLASH && all[0] >= 0x20 {
      PushOne(all[0], ParseBody(all[1..]), u);
    }
  }

  /** The first step of reading a string. */
  lemma BodyHead(s: Text)
    ensures s == [] ==> ParseBody(s) == Fail
    ensures s != [] && s[0] == QUOTE ==> ParseBody(s) == Ok([], s[1..])
    ensures s != [] && s[0] != QUOTE && s[0] != BACKSLASH ==>
              ParseBody(s) == if s[0] < 0x20 then Fail else Push(s[0], ParseBody(s[1..]))
    ensures |s| >= 2 && s[0] == BACKSLASH && s[1] != LOWER_U ==>
              ParseBody(s) == if Unescape(s[1]).Some? then Push(Unescape(s[1]).value, ParseBody(s[2..])) else Fail
    ensures s != [] && s[0] == BACKSLASH && |s| < (if |s| >= 2 && s[1] == LOWER_U then 6 else 2) ==>
              ParseBody(s) == Fail
    ensures |s| >= 6 && s[0] == BACKSLASH && s[1] == LOWER_U && HexUnit(s[2..6]) == None ==> ParseBody(s) == Fail
  {
    hide HexUnit, Unescape, Push;
  }

  lemma PushOne(head: Unit, tail: Parsed<Text>, u: Unit)
    ensures Push(head, tail) == Ok([u], []) ==> head == u && tail == Ok([], [])
  {
    if Push(head, tail) == Ok([u], []) { assert ([head] + tail.value)[0] == u && |tail.value| == 0; }
  }

  lemma NoHexAtQuote(s: Text)
    requires |s| == 4 && s[3] == QUOTE
    ensures HexUnit(s) == None
  {
  }

  /** A hex escape is `\u` and four lower-case digits of base 16. */
  lemma HexEscapeForm(u: Unit)
    ensures var e := HexEscape(u);
            && |e| == 6 && e[..2] == [BACKSLASH, LOWER_U] && HexUnit(e[2..]) == Some(u)
            && forall i :: 2 <= i < 6 ==> IsDigit(e[i]) || 0x61 <= e[i] <= 0x66
  {
    HexRoundTrip(u);
    assert HexEscape(u)[2..6] == HexEscape(u)[2..];
  }

  predicate JsonSpace(u: Unit) { u == 0x20 || u == 0x09 || u == 0x0A || u == 0x0D }

  predicate Solid(s: Text) { forall i :: 0 <= i < |s| ==> !JsonSpace(s[i]) }

  lemma SolidConcat(a: Text, b: Text)
    ensures Solid(a + b) <==> Solid(a) && Solid(b)
  {
    if Solid(a + b) {
      forall i | 0 <= i < |b| ensures !JsonSpace(b[i]) { assert b[i] == (a + b)[|a| + i]; }
      forall i | 0 <= i < |a| ensures !JsonSpace(a[i]) { assert a[i] == (a + b)[i]; }
    }
  }

  lemma SolidMarks()
    ensures Solid([QUOTE]) && Solid([COLON]) && Solid([COMMA])
  {
  }

  /** No string of the value has a space in it. */
  ghost predicate Spaceless(v: Json)
    decreases v
  {
    match v
    case Str(s) => 0x20 !in s
    case Arr(items) => forall i :: 0 <= i < |items| ==> Spaceless(items[i])
    case Obj(members) => forall i :: 0 <= i < |members| ==> 0x20 !in members[i].key && Spaceless(members[i].value)
    case _ => true
  }

  lemma {:induction false} SolidBody(s: Text)
    requires 0x20 !in s
    ensures Solid(QuoteBody(false, s))
  {
    if s != [] { SolidBody(s[HeadSize(s)..]); }
  }

  /** The only white space printed is spaces inside strings. */
  lemma {:induction false} PrintedSolid(v: Json)
    requires WellFormed(v) && Spaceless(v)
    ensures Solid(Stringify(v))
    decreases v, 1
  {
    match v
    case Num(lexeme) => NumberUnits(lexeme);
    case Str(s) => SolidBody(s);
    case Arr(items) => SolidItems(items);
    case Obj(members) => SolidMembers(members);
    case _ =>
  }

  lemma {:induction false} SolidItems(items: seq<Json>)
    requires forall i :: 0 <= i < |items| ==> WellFormed(items[i]) && Spaceless(items[i])
    ensures Solid(StringifyItems(false, items))
    decreases items, 0
  {
    hide WellFormed, Spaceless;
    if items != [] {
      PrintedSolid(items[0]);
      SolidItems(items[1..]);
    }
  }

  lemma {:induction false} SolidMembers(members: seq<Member>)
    requires forall i :: 0 <= i < |members| ==>
               WellFormed(members[i].value) && 0x20 !in members[i].key && Spaceless(members[i].value)
    ensures Solid(StringifyMembers(false, members))
    decreases members, 0
  {
    if members != [] {
      SolidBody(members[0].key);
      PrintedSolid(members[0].value);
      SolidMembers(members[1..]);
      hide WellFormed, Spaceless, Solid;
      var q, k, v := [QUOTE], QuoteBody(false, members[0].key), StringifyWith(false, members[0].value);
      hide QuoteBody, StringifyWith;
      SolidMarks();
      SolidConcat(q, k);
      SolidConcat(q + k, q);
      SolidConcat(q + k + q, [COLON]);
      SolidConcat(q + k + q + [COLON], v);
      SolidConcat(q + k + q + [COLON] + v, [COMMA]);
      SolidConcat(q + k + q + [COLON] + v + [COMMA], StringifyMembers(false, members[1..]));
    }
  }

  // ---- white space in front ----

  lemma {:induction false} SkipsSpace(a: Text, s: Text)
    requires forall i :: 0 <= i < |a| ==> JsonSpace(a[i])
    ensures SkipSpace(a + s) == SkipSpace(s)
  {
    if a == [] {
      assert a + s == s;
    } else {
      assert (a + s)[1..] == a[1..] + s;
      SkipsSpace(a[1..], s);
    }
  }

  /** White space in front of a value makes no difference. */
  lemma ParseAfterSpace(a: Text, s: Text)
    requires forall i :: 0 <= i < |a| ==> JsonSpace(a[i])
    ensures ParseValue(a + s) == ParseValue(s) && ParseItems(a + s) == ParseItems(s)
  {
    SkipsSpace(a, s);
  }
}
