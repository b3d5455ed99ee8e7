/** The JSON-LD serializer of apps/landing/lib/json-ld.ts: JSON that cannot leave its script element. */
module JsonLd {
  import opened JsText
  import opened Json

  const MARKUP: set<Unit> := {LESS, GREATER, AMPERSAND}

  /** `s.replace(/u/g, text)` for a single code unit. */
  function Replace(s: Text, u: Unit, text: Text): Text {
    if s == [] then [] else (if s[0] == u then text else [s[0]]) + Replace(s[1..], u, text)
  }

  function SafeJsonLd(v: Json): Text {
    Replace(Replace(Replace(Stringify(v), LESS, HexEscape(LESS)),
                    GREATER, HexEscape(GREATER)),
            AMPERSAND, HexEscape(AMPERSAND))
  }

  /** One pass that hex-escapes exactly the units of `units`. */
  function Escape(units: set<Unit>, s: Text): Text {
    if s == [] then [] else (if s[0] in units then HexEscape(s[0]) else [s[0]]) + Escape(units, s[1..])
  }

  lemma {:induction false} ReplaceConcat(a: Text, b: Text, u: Unit, text: Text)
    ensures Replace(a + b, u, text) == Replace(a, u, text) + Replace(b, u, text)
  {
    if a == [] {
      assert a + b == b;
    } else {
      ReplaceConcat(a[1..], b, u, text);
      assert (a + b)[1..] == a[1..] + b;
      Assoc(if a[0] == u then text else [a[0]], Replace(a[1..], u, text), Replace(b, u, text));
    }
  }

  lemma {:induction false} EscapeConcat(units: set<Unit>, a: Text, b: Text)
    ensures Escape(units, a + b) == Escape(units, a) + Escape(units, b)
  {
    if a == [] {
      assert a + b == b;
    } else {
      EscapeConcat(units, a[1..], b);
      assert (a + b)[1..] == a[1..] + b;
      hide HexEscape;
      Assoc(if a[0] in units then HexEscape(a[0]) else [a[0]], Escape(units, a[1..]), Escape(units, b));
    }
  }

  /** A text without the unit is left alone. */
  lemma {:induction false} ReplaceAbsent(s: Text, u: Unit, text: Text)
    requires u !in s
    ensures Replace(s, u, text) == s
  {
    if s != [] {
      ReplaceAbsent(s[1..], u, text);
    }
  }

  lemma HexEscapeIsPlain(w: Unit)
    ensures forall u :: u in MARKUP ==> u !in HexEscape(w)
  {
  }

  /** Escaping one more unit after the others is escaping them all in one pass. */
  lemma {:induction false} ReplaceAfterEscape(units: set<Unit>, s: Text, u: Unit)
    requires u in MARKUP && u !in units
    ensures Replace(Escape(units, s), u, HexEscape(u)) == Escape(units + {u}, s)
  {
    if s != [] {
      var head := if s[0] in units then HexEscape(s[0]) else [s[0]];
      ReplaceAfterEscape(units, s[1..], u);
      ReplaceConcat(head, Escape(units, s[1..]), u, HexEscape(u));
      HexEscapeIsPlain(s[0]);
      if s[0] in units {
        ReplaceAbsent(head, u, HexEscape(u));
      }
    }
  }

  lemma {:induction false} EscapeNothing(s: Text)
    ensures Escape({}, s) == s
  {
    if s != [] {
      EscapeNothing(s[1..]);
    }
  }

  /** The three replacements commute: in every order they are the one pass over `MARKUP`. */
  lemma ReplacementsCommute(s: Text, a: Unit, b: Unit, c: Unit)
    requires {a, b, c} == MARKUP && a != b && b != c && a != c
    ensures Replace(Replace(Replace(s, a, HexEscape(a)), b, HexEscape(b)), c, HexEscape(c)) == Escape(MARKUP, s)
  {
    EscapeNothing(s);
    ReplaceAfterEscape({}, s, a);
    ReplaceAfterEscape({} + {a}, s, b);
    ReplaceAfterEscape({} + {a} + {b}, s, c);
    assert {} + {a} + {b} + {c} == MARKUP;
  }

  lemma {:induction false} EscapeLeavesNoMarkup(s: Text)
    ensures forall u :: u in MARKUP ==> u !in Escape(MARKUP, s)
  {
    if s != [] {
      EscapeLeavesNoMarkup(s[1..]);
      HexEscapeIsPlain(s[0]);
    }
  }

  lemma {:induction false} EscapePlain(s: Text)
    requires forall u :: u in MARKUP ==> u !in s
    ensures Escape(MARKUP, s) == s
  {
    if s != [] {
      EscapePlain(s[1..]);
    }
  }

  /** Escaping a printed value is printing it with the escapes on: only string contents change. */
  lemma EscapeHead(s: Text)
    requires s != []
    ensures Escape(MARKUP, QuoteHead(false, s)) == QuoteHead(true, s)
  {
    if IsSurrogatePair(s) {
      EscapePlain(s[..2]);
    } else {
      var q := QuoteUnit(false, s[0]);
      if q == [s[0]] {
        assert Escape(MARKUP, q[1..]) == [];
      } else {
        HexEscapeIsPlain(s[0]);
        EscapePlain(q);
      }
    }
  }

  lemma {:induction false} EscapeBody(s: Text)
    ensures Escape(MARKUP, QuoteBody(false, s)) == QuoteBody(true, s)
  {
    if s != [] {
      hide Escape, QuoteHead, HeadSize;
      var rest := s[HeadSize(s)..];
      EscapeHead(s);
      EscapeBody(rest);
      EscapeConcat(MARKUP, QuoteHead(false, s), QuoteBody(false, rest));
    }
  }

  lemma EscapeQuote(s: Text)
    ensures Escape(MARKUP, Quote(false, s)) == Quote(true, s)
  {
    EscapeBody(s);
    EscapeWrap(QUOTE, QuoteBody(false, s), QUOTE);
  }

  lemma EscapeWrap(open: Unit, body: Text, close: Unit)
    requires open !in MARKUP && close !in MARKUP
    ensures Escape(MARKUP, [open] + body + [close]) == [open] + Escape(MARKUP, body) + [close]
  {
    EscapePlain([open]);
    EscapePlain([close]);
    EscapeConcat(MARKUP, [open], body);
    EscapeConcat(MARKUP, [open] + body, [close]);
  }

  lemma EscapeJoin(a: Text, separator: Unit, b: Text)
    requires separator !in MARKUP
    ensures Escape(MARKUP, a + [separator] + b) == Escape(MARKUP, a) + [separator] + Escape(MARKUP, b)
  {
    EscapePlain([separator]);
    EscapeConcat(MARKUP, a, [separator]);
    EscapeConcat(MARKUP, a + [separator], b);
  }

  lemma {:induction false} EscapeStringify(v: Json)
    requires WellFormed(v)
    ensures Escape(MARKUP, Stringify(v)) == StringifyWith(true, v)
    decreases v, 1
  {
    hide Escape, QuoteBody, IsNumber;
    match v
    case Num(lexeme) =>
      NumberUnits(lexeme);
      EscapePlain(lexeme);
    case Str(s) => EscapeQuote(s);
    case Arr(items) =>
      EscapeItems(items);
      EscapeWrap(LBRACKET, StringifyItems(false, items), RBRACKET);
    case Obj(members) =>
      EscapeMembers(members);
      EscapeWrap(LBRACE, StringifyMembers(false, members), RBRACE);
    case _ => EscapePlain(Stringify(v));
  }

  lemma {:induction false} EscapeItems(items: seq<Json>)
    requires forall i :: 0 <= i < |items| ==> WellFormed(items[i])
    ensures Escape(MARKUP, StringifyItems(false, items)) == StringifyItems(true, items)
    decreases items, 0
  {
    if items != [] {
      hide Escape, StringifyWith;
      EscapeStringify(items[0]);
      EscapeItems(items[1..]);
      EscapeJoin(StringifyWith(false, items[0]), COMMA, StringifyItems(false, items[1..]));
    }
  }

  lemma {:induction false} EscapeMembers(members: seq<Member>)
    requires forall i :: 0 <= i < |members| ==> WellFormed(members[i].value)
    ensures Escape(MARKUP, StringifyMembers(false, members)) == StringifyMembers(true, members)
    decreases members, 0
  {
    if members != [] {
      hide Escape, StringifyWith, Quote;
      var m := members[0];
      EscapeQuote(m.key);
      EscapeStringify(m.value);
      EscapeMembers(members[1..]);
      EscapeJoin(Quote(false, m.key), COLON, StringifyWith(false, m.value));
      var first := Quote(false, m.key) + [COLON] + StringifyWith(false, m.value);
      EscapeJoin(first, COMMA, StringifyMembers(false, members[1..]));
    }
  }

  /** What the serializer is for: no markup character is left, and the value is unchanged. */
  lemma SafeJsonLdCorrect(v: Json)
    requires WellFormed(v)
    ensures forall u :: u in MARKUP ==> u !in SafeJsonLd(v)
    ensures Parse(SafeJsonLd(v)) == Some(v)
  {
    ReplacementsCommute(Stringify(v), LESS, GREATER, AMPERSAND);
    EscapeLeavesNoMarkup(Stringify(v));
    EscapeStringify(v);
    RoundTrip(true, v);
  }
}
