/** JavaScript strings as the program sees them: sequences of UTF-16 code units. */
module JsText {

  newtype Unit = u: int | 0 <= u < 0x1_0000

  type Text = seq<Unit>

  datatype Option<+T> = None | Some(value: T)

  const NEWLINE: Unit := 0x0A
  const COMMA: Unit := 0x2C

  /** `Math.min` and `Math.max` on whole numbers. */
  function Min(a: int, b: int): int {
    if a <= b then a else b
  }

  function Max(a: int, b: int): int {
    if a <= b then b else a
  }

  lemma Assoc<T>(a: seq<T>, b: seq<T>, c: seq<T>)
    ensures a + b + c == a + (b + c)
  {
  }

  /** WhiteSpace and LineTerminator of ECMAScript, the set `trim` removes. */
  predicate IsSpace(u: Unit) {
    || 0x09 <= u <= 0x0D || u == 0x20 || u == 0xA0 || u == 0x1680
    || 0x2000 <= u <= 0x200A || u == 0x2028 || u == 0x2029 || u == 0x202F
    || u == 0x205F || u == 0x3000 || u == 0xFEFF
  }

  function TrimStart(s: Text): (r: Text)
    ensures r != [] ==> !IsSpace(r[0])
    ensures |r| <= |s| && r == s[|s| - |r|..]
  {
    if s != [] && IsSpace(s[0]) then TrimStart(s[1..]) else s
  }

  function TrimEnd(s: Text): (r: Text)
    ensures r != [] ==> !IsSpace(r[|r| - 1])
    ensures |r| <= |s| && r == s[..|r|]
  {
    if s != [] && IsSpace(s[|s| - 1]) then TrimEnd(s[..|s| - 1]) else s
  }

  function Trim(s: Text): Text {
    TrimEnd(TrimStart(s))
  }

  /** Neither end is white space. */
  predicate Trimmed(s: Text) {
    s != [] ==> !IsSpace(s[0]) && !IsSpace(s[|s| - 1])
  }

  lemma TrimmedIsFixed(s: Text)
    ensures Trimmed(Trim(s))
    ensures Trimmed(s) ==> Trim(s) == s
  {}

  predicate Blank(s: Text) {
    forall i :: 0 <= i < |s| ==> IsSpace(s[i])
  }

  lemma {:induction false} TrimStartIgnores(a: Text, s: Text)
    requires Blank(a)
    ensures TrimStart(a + s) == TrimStart(s)
  {
    if a == [] {
      assert a + s == s;
    } else {
      assert (a + s)[1..] == a[1..] + s;
      TrimStartIgnores(a[1..], s);
    }
  }

  lemma {:induction false} TrimEndIgnores(s: Text, b: Text)
    requires Blank(b)
    ensures TrimEnd(s + b) == TrimEnd(s)
  {
    if b == [] {
      assert s + b == s;
    } else {
      assert (s + b)[..|s + b| - 1] == s + b[..|b| - 1];
      TrimEndIgnores(s, b[..|b| - 1]);
    }
  }

  lemma {:induction false} TrimStartStays(s: Text, b: Text)
    ensures Blank(s) ==> TrimStart(s) == []
    ensures !Blank(s) ==> TrimStart(s + b) == TrimStart(s) + b
  {
    if s != [] {
      assert (s + b)[1..] == s[1..] + b;
      if IsSpace(s[0]) {
        assert Blank(s[1..]) ==> Blank(s);
        TrimStartStays(s[1..], b);
      }
    }
  }

  /** White space around a text makes no difference. */
  lemma TrimIgnores(a: Text, s: Text, b: Text)
    requires Blank(a) && Blank(b)
    ensures Trim(a + s + b) == Trim(s)
    ensures Trimmed(s) ==> Trim(a + s + b) == s
  {
    Assoc(a, s, b);
    TrimStartIgnores(a, s + b);
    TrimStartStays(s, b);
    TrimmedIsFixed(s);
    if Blank(s) {
      TrimStartStays(s + b, []);
    } else {
      TrimEndIgnores(TrimStart(s), b);
    }
  }

  lemma TrimIsPart(s: Text) returns (i: nat)
    ensures i + |Trim(s)| <= |s| && Trim(s) == s[i..i + |Trim(s)|]
  {
    i := |s| - |TrimStart(s)|;
  }
}
