/**
 * The form of canonical texts (sections 3.2.2 and 3.2.3 of RFC 8785): the order of keys,
 * the escapes of strings, the digits of numbers, and the separators.
 */
module CanonicalForm {
  import opened Common
  import opened Canonical
  import opened CanonicalTheory

  /** The letter of the short escape, for the units that have one. */
  function ShortEscape(u: Unit): Option<Unit> {
    if u == 0x22 || u == 0x5C then Some(u)
    else if u == 8 then Some(0x62)
    else if u == 9 then Some(0x74)
    else if u == 10 then Some(0x6E)
    else if u == 12 then Some(0x66)
    else if u == 13 then Some(0x72)
    else None
  }

  predicate Raw(u: Unit) { u >= 0x20 && u != 0x22 && u != 0x5C }

  /** Text before and after a point that splits no surrogate pair is quoted apart. */
  lemma {:induction false} QuoteSplitsAt(a: Text, b: Text)
    requires WellFormed(a)
    ensures QuoteBody(a + b) == QuoteBody(a) + QuoteBody(b)
    decreases |a|
  {
    if a == [] {
      assert a + b == b;
    } else {
      var n := if High(a[0]) then 2 else 1;
      QuoteSplitsAt(a[n..], b);
      if n == 2 {
        PairStarts(a, b);
      } else {
        UnitStarts(a, b);
      }
    }
  }

  lemma {:induction false} PairStarts(a: Text, b: Text)
    requires |a| > 1 && High(a[0]) && Low(a[1])
    requires QuoteBody(a[2..] + b) == QuoteBody(a[2..]) + QuoteBody(b)
    ensures QuoteBody(a + b) == QuoteBody(a) + QuoteBody(b)
  {
    var s := a + b;
    assert s[2..] == a[2..] + b && s[0] == a[0] && s[1] == a[1];
  }

  lemma {:induction false} UnitStarts(a: Text, b: Text)
    requires a != [] && !High(a[0])
    requires QuoteBody(a[1..] + b) == QuoteBody(a[1..]) + QuoteBody(b)
    ensures QuoteBody(a + b) == QuoteBody(a) + QuoteBody(b)
  {
    var s := a + b;
    assert s[1..] == a[1..] + b && s[0] == a[0];
  }

  /** Text that needs no escape is written as it is, surrogate pairs included. */
  lemma {:induction false} RawIsItself(s: Text)
    requires WellFormed(s) && forall i :: 0 <= i < |s| ==> Raw(s[i])
    ensures QuoteBody(s) == s
    decreases |s|
  {
    if s != [] {
      var n := if High(s[0]) then 2 else 1;
      RawIsItself(s[n..]);
      RawStarts(s, n);
    }
  }

  lemma {:induction false} RawStarts(s: Text, n: nat)
    requires s != [] && WellFormed(s) && Raw(s[0]) && n == (if High(s[0]) then 2 else 1)
    requires QuoteBody(s[n..]) == s[n..]
    ensures QuoteBody(s) == s
  {
    assert s == s[..n] + s[n..] && s[..n] == if n == 2 then [s[0], s[1]] else [s[0]];
  }

  /** A unit with a short escape gets it; other control units and halves of pairs get four lower-case digits; the rest stay. */
  lemma {:induction false} EscapesAreShort(u: Unit)
    ensures ShortEscape(u).Some? ==> QuoteBody([u]) == [0x5C, ShortEscape(u).value]
    ensures (u < 0x20 || 0xD800 <= u < 0xE000) && ShortEscape(u).None? ==>
      exists a: Unit, b: Unit, c: Unit, d: Unit :: HexOf(u, a, b, c, d) && QuoteBody([u]) == [0x5C, 0x75, a, b, c, d]
    ensures Raw(u) && !(0xD800 <= u < 0xE000) ==> QuoteBody([u]) == [u]
  {
    var a, b, c, d := u / 16 / 16 / 16, u / 16 / 16 % 16, u / 16 % 16, u % 16;
    assert QuoteBody([u]) == QuoteUnit(u) && u == ((a * 16 + b) * 16 + c) * 16 + d;
    assert HexOf(u, Hex(a), Hex(b), Hex(c), Hex(d));
  }

  /** Two units stay together if and only if they are a surrogate pair; else the first is quoted by itself. */
  lemma {:induction false} PairsStayWhole(u: Unit, v: Unit, rest: Text)
    ensures QuoteBody([u, v] + rest)
      == if 0xD800 <= u <= 0xDBFF && 0xDC00 <= v <= 0xDFFF then [u, v] + QuoteBody(rest)
         else QuoteBody([u]) + QuoteBody([v] + rest)
  {
    var s := [u, v] + rest;
    assert s[2..] == rest && s[1..] == [v] + rest && QuoteBody([u]) == QuoteUnit(u);
  }

  function HexValue(d: Unit): int { if d < 0x3A then d as int - 0x30 else d as int - 0x57 }

  predicate HexDigit(d: Unit) { 0x30 <= d <= 0x39 || 0x61 <= d <= 0x66 }

  predicate HexOf(u: Unit, a: Unit, b: Unit, c: Unit, d: Unit) {
    && HexDigit(a) && HexDigit(b) && HexDigit(c) && HexDigit(d)
    && u == ((HexValue(a) * 16 + HexValue(b)) * 16 + HexValue(c)) * 16 + HexValue(d)
  }

  /** The number a text of decimal digits stands for. */
  function Worth(t: Text): int {
    if t == [] then 0 else Worth(t[..|t| - 1]) * 10 + (t[|t| - 1] as int - 0x30)
  }

  predicate Digits(t: Text) { forall i :: 0 <= i < |t| ==> 0x30 <= t[i] <= 0x39 }

  lemma {:induction false} DecimalForm(n: nat)
    ensures Decimal(n) != [] && Digits(Decimal(n)) && Worth(Decimal(n)) == n
    ensures Decimal(n)[0] == 0x30 ==> n == 0
    ensures n == 0 ==> Decimal(n) == [0x30]
  {
    if n >= 10 {
      DecimalForm(n / 10);
      var d: Unit := ZERO + n % 10;
      assert Decimal(n)[..|Decimal(n)| - 1] == Decimal(n / 10) && Decimal(n)[|Decimal(n)| - 1] == d;
    }
  }

  /** Digits without a leading zero that stand for `n`. */
  predicate Spells(t: Text, n: int) {
    t != [] && Digits(t) && (t[0] == 0x30 ==> t == [0x30]) && Worth(t) == n
  }

  /** A number is its decimal digits, without leading zeros, after a minus sign if and only if it is negative. */
  lemma {:induction false} NumberForm(n: int)
    ensures n >= 0 ==> Spells(Number(n), n)
    ensures n < 0 ==> Number(n)[..1] == [0x2D] && Spells(Number(n)[1..], -n)
  {
    DecimalForm(if n < 0 then -n else n);
    if n < 0 {
      assert Number(n)[1..] == Decimal(-n);
    }
  }

  /** Keys in the order of their code units. */
  ghost predicate InUnitOrder(es: seq<Entry<Text>>) {
    forall i, j :: 0 <= i < j < |es| ==> Before(es[i].key, es[j].key)
  }

  /**
   * The text of an object: the members' texts in the order of their keys' code units, each
   * member with its own value's text, between braces and separated by commas.
   */
  lemma {:induction false} ObjectForm(members: seq<Entry<Value>>)
    requires Supported(Obj(members))
    ensures var es := Sort(EncodeMembers(members));
      && multiset(es) == multiset(EncodeMembers(members)) && InUnitOrder(es)
      && Encode(Obj(members)) == [0x7B] + Join(MemberTexts(es)) + [0x7D]
  {
    var ts := EncodeMembers(members);
    var es := Sort(ts);
    SortPermutes(ts);
    forall i, j | 0 <= i < j < |es| ensures Before(es[i].key, es[j].key) {
      SortOrdersByUnits(ts, i, j);
    }
  }

  function Ascii(s: string): Text
    requires forall i :: 0 <= i < |s| ==> s[i] < 128 as char
  {
    seq(|s|, i requires 0 <= i < |s| => s[i] as Unit)
  }

  lemma {:induction false} Words()
    ensures Encode(Bool(true)) == Ascii("true") && Encode(Bool(false)) == Ascii("false")
    ensures Encode(Null) == Encode(Undefined) == Ascii("null")
    ensures Encode(Arr([])) == Ascii("[]") && Encode(Obj([])) == Ascii("{}")
  {
  }

  /** Member and item separators: one comma between two, and a colon after the key. */
  lemma {:induction false} Separators(a: Text, b: Text, more: seq<Text>, e: Entry<Text>)
    ensures Join([a]) == a && Join([a, b] + more) == a + Ascii(",") + Join([b] + more)
    ensures MemberText(e) == Ascii("\"") + QuoteBody(e.key) + Ascii("\":") + e.value
  {
    assert ([a, b] + more)[1..] == [b] + more;
  }
}
