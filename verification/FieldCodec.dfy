/**
 Field values and submission payloads of apps/web/components/dynamic-item-fields.tsx:
 `payloadFromValues`, its inverse `valuesFromPayload`, and `requiredMissing`.
 */
module FieldCodec {
  import opened JsText
  import opened Json
  import opened FileIds

  datatype Role = ListRole | FileRole | OtherRole

  datatype Field = Field(key: Text, role: Role, required: bool, minCount: Option<int>, maxCount: Option<int>)

  /** A payload value as `payloadFromValues` makes them. */
  datatype Entry = Plain(text: Text) | Items(items: seq<Text>)

  function OrOne(n: Option<int>): int { if n.Some? then n.value else 1 }

  predicate MultiFile(f: Field) { f.role == FileRole && OrOne(f.maxCount) > 1 }

  // ---- lists ----

  predicate IsSeparator(u: Unit) { u == NEWLINE || u == COMMA }

  predicate Joined(s: Text) { forall i :: 0 <= i < |s| ==> !IsSeparator(s[i]) }

  /** `s.split(/\n|,/)`. */
  function Split(s: Text): (r: seq<Text>)
    ensures r != [] && forall i :: 0 <= i < |r| ==> Joined(r[i])
  {
    if s == [] then [[]]
    else
      var rest := Split(s[1..]);
      if IsSeparator(s[0]) then [[]] + rest else [[s[0]] + rest[0]] + rest[1..]
  }

  /** `.map(trim).filter(Boolean)`. */
  function KeepTrimmed(pieces: seq<Text>): seq<Text> {
    if pieces == [] then []
    else (if Trim(pieces[0]) != [] then [Trim(pieces[0])] else []) + KeepTrimmed(pieces[1..])
  }

  function SplitItems(raw: Text): seq<Text> { KeepTrimmed(Split(raw)) }

  /** `items.join("\n")`. */
  function Join(items: seq<Text>): Text {
    if items == [] then []
    else if |items| == 1 then items[0]
    else items[0] + [NEWLINE] + Join(items[1..])
  }

  /** An entry that a list field can hold: some text, no separator in it, no space around it. */
  predicate ListItem(t: Text) { t != [] && Trimmed(t) && Joined(t) }

  predicate ListItems(items: seq<Text>) { forall i :: 0 <= i < |items| ==> ListItem(items[i]) }

  lemma TrimmedPart(s: Text)
    requires Joined(s) && Trim(s) != []
    ensures ListItem(Trim(s))
  {}

  lemma {:induction false} KeepTrimmedItems(pieces: seq<Text>)
    requires forall i :: 0 <= i < |pieces| ==> Joined(pieces[i])
    ensures ListItems(KeepTrimmed(pieces))
  {
    if pieces != [] {
      KeepTrimmedItems(pieces[1..]);
      if Trim(pieces[0]) != [] { TrimmedPart(pieces[0]); }
    }
  }

  lemma {:induction false} KeepAll(items: seq<Text>)
    requires ListItems(items)
    ensures KeepTrimmed(items) == items
  {
    if items != [] {
      KeepAll(items[1..]);
      assert ListItem(items[0]);
      TrimmedIsFixed(items[0]);
      assert items == [items[0]] + items[1..];
    }
  }

  lemma {:induction false} SplitFirst(x: Text, rest: Text)
    requires Joined(x)
    ensures Split(x + [NEWLINE] + rest) == [x] + Split(rest)
    ensures Split(x) == [x]
  {
    if x == [] {
      assert x + [NEWLINE] + rest == [NEWLINE] + rest;
      assert ([NEWLINE] + rest)[1..] == rest;
    } else {
      SplitFirst(x[1..], rest);
      assert !IsSeparator(x[0]);
      assert (x + [NEWLINE] + rest)[1..] == x[1..] + [NEWLINE] + rest;
      assert [x[0]] + x[1..] == x;
    }
  }

  /** Every separator, comma or newline, splits the text in two that are split each on its own. */
  lemma {:induction false} SplitConcat(x: Text, u: Unit, y: Text)
    requires IsSeparator(u)
    ensures Split(x + [u] + y) == Split(x) + Split(y)
  {
    if x == [] {
      assert x + [u] + y == [u] + y && ([u] + y)[1..] == y;
    } else {
      assert (x + [u] + y)[1..] == x[1..] + [u] + y;
      SplitConcat(x[1..], u, y);
    }
  }

  lemma {:induction false} KeepConcat(a: seq<Text>, b: seq<Text>)
    ensures KeepTrimmed(a + b) == KeepTrimmed(a) + KeepTrimmed(b)
  {
    if a == [] {
      assert a + b == b;
    } else {
      hide Trim;
      assert (a + b)[1..] == a[1..] + b;
      KeepConcat(a[1..], b);
      Assoc(if Trim(a[0]) != [] then [Trim(a[0])] else [], KeepTrimmed(a[1..]), KeepTrimmed(b));
    }
  }

  /** The items of a list field: those before a comma or newline, and those after it. */
  lemma ItemsConcat(x: Text, u: Unit, y: Text)
    requires u == COMMA || u == NEWLINE
    ensures SplitItems(x + [u] + y) == SplitItems(x) + SplitItems(y)
  {
    SplitConcat(x, u, y);
    KeepConcat(Split(x), Split(y));
  }

  /** A text without either is one item, trimmed, or none if it is blank. */
  lemma OneItem(x: Text)
    requires COMMA !in x && NEWLINE !in x
    ensures SplitItems(x) == if Trim(x) == [] then [] else [Trim(x)]
  {
    hide Trim;
    SplitFirst(x, []);
    assert [x][1..] == [];
    assert KeepTrimmed([x]) == (if Trim(x) != [] then [Trim(x)] else []) + KeepTrimmed([x][1..]);
  }

  /** A list is shown one item a line. */
  lemma {:induction false} JoinConcat(a: seq<Text>, b: seq<Text>)
    requires a != [] && b != []
    ensures Join(a + b) == Join(a) + [NEWLINE] + Join(b)
    ensures Join([a[0]]) == a[0]
  {
    assert (a + b)[1..] == a[1..] + b;
    if |a| > 1 {
      JoinConcat(a[1..], b);
      Assoc(a[0] + [NEWLINE], Join(a[1..]), [NEWLINE]);
      Assoc(a[0] + [NEWLINE], Join(a[1..]) + [NEWLINE], Join(b));
    } else {
      assert a[1..] + b == b;
    }
  }

  lemma {:induction false} SplitJoin(items: seq<Text>)
    requires items != [] && ListItems(items)
    ensures Split(Join(items)) == items
  {
    assert ListItem(items[0]);
    if |items| == 1 {
      SplitFirst(items[0], []);
      assert items == [items[0]];
    } else {
      SplitJoin(items[1..]);
      SplitFirst(items[0], Join(items[1..]));
      assert items == [items[0]] + items[1..];
    }
  }

  /** A list survives being shown and read again exactly when all its entries are ones the field can hold. */
  lemma ListRoundTrip(items: seq<Text>)
    ensures SplitItems(Join(items)) == items <==> ListItems(items)
  {
    KeepTrimmedItems(Split(Join(items)));
    if ListItems(items) {
      if items == [] {
        assert KeepTrimmed([[]]) == KeepTrimmed([[]][1..]);
      } else {
        SplitJoin(items);
        KeepAll(items);
      }
    }
  }

  // ---- one field ----

  function EntryOf(f: Field, raw: Text): Entry {
    if f.role == ListRole then Items(SplitItems(raw))
    else if MultiFile(f) then Items(ParseFileIds(raw))
    else Plain(Trim(raw))
  }

  /** `JSON.stringify(items, null, 2)` of a list of strings. */
  function Pretty(items: seq<Text>): Text {
    if items == [] then [LBRACKET, RBRACKET] else [LBRACKET] + PrettyLines(items) + [NEWLINE, RBRACKET]
  }

  function PrettyLines(items: seq<Text>): Text {
    if items == [] then []
    else
      var more := if |items| == 1 then [] else [COMMA] + PrettyLines(items[1..]);
      [NEWLINE, 0x20, 0x20] + Quote(false, items[0]) + more
  }

  function StringValue(entry: Option<Entry>): Text {
    match entry
    case None => []
    case Some(Plain(text)) => text
    case Some(Items(items)) => Pretty(items)
  }

  function ValueOf(f: Field, entry: Option<Entry>): Text {
    if f.role == ListRole && entry.Some? && entry.value.Items? then Join(entry.value.items)
    else if MultiFile(f) && entry.Some? && entry.value.Items? then SerializeFileIds(entry.value.items)
    else StringValue(entry)
  }

  /** A stored text is shown as it is in every field, and nothing stored as the empty text. */
  lemma ShownAsStored(f: Field, text: Text)
    ensures ValueOf(f, Some(Plain(text))) == text && ValueOf(f, None) == []
  {}

  /** Shown in the editor and read again, a field's entry is unchanged exactly when its file ids are readable. */
  lemma FieldRoundTrip(f: Field, raw: Text)
    ensures var e := EntryOf(f, raw);
            EntryOf(f, ValueOf(f, Some(e))) == e <==> !(MultiFile(f) && Ambiguous(ParseFileIds(raw)))
  {
    hide ParseFileIds, SerializeFileIds, Ambiguous, Trim;
    if f.role == ListRole {
      KeepTrimmedItems(Split(raw));
      ListRoundTrip(SplitItems(raw));
    } else if MultiFile(f) {
      FileIdsRoundTrip(ParseFileIds(raw));
    } else {
      TrimmedIsFixed(raw);
      TrimmedIsFixed(Trim(raw));
    }
  }

  /**
   What a field saves: the list that its lines and commas make up, the file ids encoded in it, or else its text
   without the white space around it.
  */
  lemma SavedAsMeant(f: Field, items: seq<Text>, a: Text, text: Text, b: Text)
    requires Blank(a) && Blank(b) && Trimmed(text)
    ensures f.role == ListRole && ListItems(items) ==> EntryOf(f, Join(items)) == Items(items)
    ensures MultiFile(f) && !Ambiguous(items) ==> EntryOf(f, SerializeFileIds(items)) == Items(items)
    ensures f.role != ListRole && !MultiFile(f) ==> EntryOf(f, a + text + b) == Plain(text)
  {
    ListRoundTrip(items);
    FileIdsRoundTrip(items);
    TrimIgnores(a, text, b);
    hide SplitItems, Join, ParseFileIds, SerializeFileIds, Ambiguous, Trim, ListItems;
  }

  const INDENT: Text := [NEWLINE, 0x20, 0x20]

  /** What follows the first item. */
  function AfterFirst(items: seq<Text>, rest: Text): Text
    requires items != []
  {
    if |items| == 1 then [NEWLINE] + ([RBRACKET] + rest)
    else [COMMA] + (PrettyLines(items[1..]) + ([NEWLINE, RBRACKET] + rest))
  }

  lemma LinesText(items: seq<Text>, rest: Text)
    requires items != []
    ensures PrettyLines(items) + ([NEWLINE, RBRACKET] + rest)
         == INDENT + (Quote(false, items[0]) + AfterFirst(items, rest))
  {
    hide Quote;
    var q, end: Text := Quote(false, items[0]), [NEWLINE, RBRACKET] + rest;
    if |items| == 1 {
      assert PrettyLines(items) == INDENT + q + [];
      assert end == [NEWLINE] + ([RBRACKET] + rest);
      Regroup(INDENT, q, [], [], end);
    } else {
      var lines := PrettyLines(items[1..]);
      assert PrettyLines(items) == INDENT + q + ([COMMA] + lines);
      hide PrettyLines;
      Regroup(INDENT, q, [COMMA], lines, end);
    }
  }

  lemma Regroup(a: Text, b: Text, c: Text, d: Text, e: Text)
    ensures a + b + (c + d) + e == a + (b + (c + (d + e)))
    ensures [] + e == e && a + b + [] + e == a + (b + e)
  {
  }

  lemma {:induction false} PrettyLinesParse(items: seq<Text>, rest: Text)
    requires items != []
    ensures ParseItems(PrettyLines(items) + ([NEWLINE, RBRACKET] + rest)) == Ok(Strs(items), rest)
  {
    hide ParseValue, ParseItems, PrettyLines, Quote;
    var q, after := Quote(false, items[0]), AfterFirst(items, rest);
    LinesText(items, rest);
    StrRoundTrip(false, items[0], after);
    ParseAfterSpace(INDENT, q + after);
    ParseItemsGo(q + after, Str(items[0]), after);
    assert Strs(items) == [Str(items[0])] + Strs(items[1..]);
    if |items| > 1 {
      PrettyLinesParse(items[1..], rest);
      assert after[1..] == PrettyLines(items[1..]) + ([NEWLINE, RBRACKET] + rest);
    } else {
      SkipsSpace([NEWLINE], [RBRACKET] + rest);
      assert Strs(items) == [Str(items[0])];
      assert ([RBRACKET] + rest)[1..] == rest;
    }
  }

  lemma ParseItemsGo(s: Text, v: Json, after: Text)
    requires ParseValue(s) == Ok(v, after) && SkipSpace(after) != []
    ensures var t := SkipSpace(after);
            && (t[0] == RBRACKET ==> ParseItems(s) == Ok([v], t[1..]))
            && (t[0] == COMMA ==> ParseItems(s) == Push(v, ParseItems(t[1..])))
  {
    hide ParseValue;
  }

  /** The indented text of a list is JSON text of that list. */
  lemma PrettyParses(items: seq<Text>)
    ensures Parse(Pretty(items)) == Some(Arr(Strs(items)))
  {
    if items == [] {
      ParseEmptyArr([]);
      assert Pretty(items) == [LBRACKET, RBRACKET] + [] && Strs(items) == [];
    } else {
      hide ParseValue, ParseItems, PrettyLines, Quote;
      var w := Quote(false, items[0]) + AfterFirst(items, []);
      LinesText(items, []);
      PrettyLinesParse(items, []);
      QuoteFirst(items[0]);
      assert Pretty(items) == [LBRACKET] + (PrettyLines(items) + ([NEWLINE, RBRACKET] + []));
      hide Pretty;
      ParseAfterSpace(INDENT, w);
      SkipsSpace(INDENT, w);
      ParseArrAfter(INDENT + w, w);
    }
  }

  lemma QuoteFirst(t: Text)
    ensures Quote(false, t) != [] && Quote(false, t)[0] == QUOTE
  {
  }

  lemma ParseArrAfter(s: Text, w: Text)
    requires SkipSpace(s) == w && w != [] && w[0] != RBRACKET
    ensures ParseItems(w).Ok? ==>
              ParseValue([LBRACKET] + s) == Ok(Arr(ParseItems(w).value), ParseItems(w).rest)
  {
    hide ParseItems, ParseMembers, ParseBody;
    assert ([LBRACKET] + s)[1..] == s;
  }

  // ---- whole payloads ----

  function Get<V>(m: map<Text, V>, k: Text): Option<V> {
    if k in m then Some(m[k]) else None
  }

  function OrEmpty(t: Option<Text>): Text { if t.Some? then t.value else [] }

  function PayloadOf(fields: seq<Field>, values: map<Text, Text>): map<Text, Entry> {
    if fields == [] then map[]
    else
      var f := fields[|fields| - 1];
      PayloadOf(fields[..|fields| - 1], values)[f.key := EntryOf(f, OrEmpty(Get(values, f.key)))]
  }

  function ValuesOf(fields: seq<Field>, payload: map<Text, Entry>): map<Text, Text> {
    if fields == [] then map[]
    else
      var f := fields[|fields| - 1];
      ValuesOf(fields[..|fields| - 1], payload)[f.key := ValueOf(f, Get(payload, f.key))]
  }

  method PayloadFromValues(fields: seq<Field>, values: map<Text, Text>) returns (next: map<Text, Entry>)
    ensures next == PayloadOf(fields, values)
  {
    hide SplitItems, ParseFileIds, Trim;
    next := map[];
    for i := 0 to |fields|
      invariant next == PayloadOf(fields[..i], values)
    {
      var f := fields[i];
      var raw := if f.key in values then values[f.key] else [];
      var entry;
      if f.role == ListRole {
        entry := Items(SplitItems(raw));
      } else if f.role == FileRole && OrOne(f.maxCount) > 1 {
        entry := Items(ParseFileIds(raw));
      } else {
        entry := Plain(Trim(raw));
      }
      next := next[f.key := entry];
      assert fields[..i + 1][..i] == fields[..i];
    }
    assert fields[..|fields|] == fields;
  }

  method ValuesFromPayload(fields: seq<Field>, payload: Option<map<Text, Entry>>) returns (values: map<Text, Text>)
    ensures values == ValuesOf(fields, if payload.Some? then payload.value else map[])
  {
    values := map[];
    var entries := if payload.Some? then payload.value else map[];
    for i := 0 to |fields|
      invariant values == ValuesOf(fields[..i], entries)
    {
      var f := fields[i];
      values := values[f.key := ValueOf(f, Get(entries, f.key))];
      assert fields[..i + 1][..i] == fields[..i];
    }
    assert fields[..|fields|] == fields;
  }

  predicate DistinctFields(fields: seq<Field>) {
    forall i, j :: 0 <= i < j < |fields| ==> fields[i].key != fields[j].key
  }

  lemma {:induction false} PayloadAt(fields: seq<Field>, values: map<Text, Text>)
    requires DistinctFields(fields)
    ensures forall k :: k in PayloadOf(fields, values) <==> exists f :: f in fields && f.key == k
    ensures forall f :: f in fields ==>
              && f.key in PayloadOf(fields, values)
              && PayloadOf(fields, values)[f.key] == EntryOf(f, OrEmpty(Get(values, f.key)))
  {
    hide EntryOf;
    if fields != [] {
      var n := |fields| - 1;
      PayloadAt(fields[..n], values);
      assert fields == fields[..n] + [fields[n]];
    }
  }

  lemma {:induction false} ValuesAt(fields: seq<Field>, payload: map<Text, Entry>)
    requires DistinctFields(fields)
    ensures forall f :: f in fields ==>
              f.key in ValuesOf(fields, payload) && ValuesOf(fields, payload)[f.key] == ValueOf(f, Get(payload, f.key))
  {
    hide ValueOf;
    if fields != [] {
      var n := |fields| - 1;
      ValuesAt(fields[..n], payload);
      assert fields == fields[..n] + [fields[n]];
    }
  }

  /** No multi-file field of the payload holds the one unreadable shape of list. */
  predicate Readable(fields: seq<Field>, values: map<Text, Text>) {
    forall f :: f in fields && MultiFile(f) ==> !Ambiguous(ParseFileIds(OrEmpty(Get(values, f.key))))
  }

  ghost predicate KeyedBy(fields: seq<Field>, m: map<Text, Entry>) {
    (forall k :: k in m ==> exists f :: f in fields && f.key == k) && forall f :: f in fields ==> f.key in m
  }

  lemma SameEntries(fields: seq<Field>, a: map<Text, Entry>, b: map<Text, Entry>)
    requires KeyedBy(fields, a) && KeyedBy(fields, b)
    ensures a == b <==> forall f :: f in fields ==> a[f.key] == b[f.key]
  {
    if forall f :: f in fields ==> a[f.key] == b[f.key] {
      forall k: Text ensures k in a <==> k in b {}
      forall k | k in a ensures a[k] == b[k] {
        var f :| f in fields && f.key == k;
      }
    }
  }

  /** Opening a submission in the editor and saving it changes nothing, exactly when its file lists are readable. */
  lemma PayloadRoundTrip(fields: seq<Field>, values: map<Text, Text>)
    requires DistinctFields(fields)
    ensures var payload := PayloadOf(fields, values);
            PayloadOf(fields, ValuesOf(fields, payload)) == payload <==> Readable(fields, values)
  {
    var payload := PayloadOf(fields, values);
    var shown := ValuesOf(fields, payload);
    var again := PayloadOf(fields, shown);
    PayloadAt(fields, values);
    ValuesAt(fields, payload);
    PayloadAt(fields, shown);
    hide DistinctFields, PayloadOf, ValuesOf, EntryOf, ValueOf, ParseFileIds, Ambiguous, MultiFile;
    SameEntries(fields, again, payload);
    hide KeyedBy;
    forall f | f in fields
      ensures again[f.key] == payload[f.key] <==>
              !(MultiFile(f) && Ambiguous(ParseFileIds(OrEmpty(Get(values, f.key)))))
    {
      FieldRoundTrip(f, OrEmpty(Get(values, f.key)));
    }
  }

  // ---- required fields ----

  function IsMissing(f: Field, entry: Option<Entry>): bool {
    if MultiFile(f) then
      entry.None? || entry.value.Plain? || |entry.value.items| < OrOne(f.minCount)
    else
      Trim(StringValue(entry)) == []
  }

  function RequiredMissing(fields: seq<Field>, payload: map<Text, Entry>): seq<Text> {
    if fields == [] then []
    else (if fields[0].required && IsMissing(fields[0], Get(payload, fields[0].key)) then [fields[0].key] else [])
         + RequiredMissing(fields[1..], payload)
  }

  lemma PrettyIsText(items: seq<Text>)
    ensures Trim(Pretty(items)) != []
  {}

  /**
   What counts as missing in a saved payload: blank text, or too few files. A required list never does,
   not even an empty one: it is judged by its JSON text, which is never blank.
   */
  lemma MissingExactly(f: Field, raw: Text)
    ensures IsMissing(f, Some(EntryOf(f, raw)))
       <==> if f.role == ListRole then false
            else if MultiFile(f) then |ParseFileIds(raw)| < OrOne(f.minCount)
            else Trim(raw) == []
  {
    PrettyIsText(SplitItems(raw));
    TrimmedIsFixed(raw);
    TrimmedIsFixed(Trim(raw));
    hide ParseFileIds, SplitItems, Pretty, Trim, Trimmed;
  }

  lemma {:induction false} MissingKeys(fields: seq<Field>, payload: map<Text, Entry>)
    requires DistinctFields(fields)
    ensures forall k :: k in RequiredMissing(fields, payload) ==> exists f :: f in fields && f.key == k
    ensures forall f :: f in fields ==>
              (f.key in RequiredMissing(fields, payload) <==> f.required && IsMissing(f, Get(payload, f.key)))
  {
    if fields != [] {
      hide IsMissing;
      var rest := fields[1..];
      MissingKeys(rest, payload);
      assert fields == [fields[0]] + rest;
      forall f | f in rest ensures f.key != fields[0].key {
        var i :| 0 <= i < |rest| && rest[i] == f;
        assert fields[i + 1] == f;
      }
    }
  }

  /** The missing keys come in the order of the fields. */
  lemma {:induction false} MissingInOrder(a: seq<Field>, b: seq<Field>, payload: map<Text, Entry>)
    ensures RequiredMissing(a + b, payload) == RequiredMissing(a, payload) + RequiredMissing(b, payload)
  {
    hide IsMissing;
    if a == [] {
      assert a + b == b;
    } else {
      assert (a + b)[1..] == a[1..] + b;
      MissingInOrder(a[1..], b, payload);
    }
  }

  /** Of a saved payload, exactly the required blank texts and short file lists are reported as missing. */
  lemma ReportedExactly(fields: seq<Field>, values: map<Text, Text>, f: Field)
    requires DistinctFields(fields) && f in fields
    ensures var raw := OrEmpty(Get(values, f.key));
            f.key in RequiredMissing(fields, PayloadOf(fields, values)) <==>
            && f.required && f.role != ListRole
            && if MultiFile(f) then |ParseFileIds(raw)| < OrOne(f.minCount) else Trim(raw) == []
  {
    hide IsMissing, EntryOf, ParseFileIds, Trim;
    PayloadAt(fields, values);
    MissingKeys(fields, PayloadOf(fields, values));
    MissingExactly(f, OrEmpty(Get(values, f.key)));
  }
}
