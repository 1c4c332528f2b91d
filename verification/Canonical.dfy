/**
 * The canonical JSON encoder under every digest and signature (bridge_core/crypto.ts),
 * with a parser that inverts it.  Texts are sequences of UTF-16 code units, the unit in
 * which the original sorts keys and escapes strings (sections 3.2.2 and 3.2.3 of RFC 8785).
 */
module Canonical {
  import opened Common

  type Unit = u: int | 0 <= u < 0x10000

  type Text = seq<Unit>

  datatype Entry<+T> = Entry(key: Text, value: T)

  /**
   * Plain data, as the encoder may be handed.  `Fraction` is any number that is not an
   * integer and `Opaque` any other unsupported type; both make it throw.  `Obj` lists the
   * members in insertion order.  Objects with `toJSON` and arrays with holes are not plain.
   */
  datatype Value =
    | Undefined
    | Null
    | Bool(b: bool)
    | Num(n: int)
    | Fraction
    | Str(s: Text)
    | Arr(items: seq<Value>)
    | Obj(members: seq<Entry<Value>>)
    | Opaque

  /** What a value means: member order is gone, and `undefined` reads as null. */
  datatype Meaning =
    | MNull
    | MBool(b: bool)
    | MNum(n: int)
    | MStr(s: Text)
    | MArr(items: seq<Meaning>)
    | MObj(members: map<Text, Meaning>)

  const QUOTE: Unit := 0x22
  const BACKSLASH: Unit := 0x5C
  const COMMA: Unit := 0x2C
  const COLON: Unit := 0x3A
  const MINUS: Unit := 0x2D
  const ZERO: Unit := 0x30
  const OPEN_ARRAY: Unit := 0x5B
  const CLOSE_ARRAY: Unit := 0x5D
  const OPEN_OBJECT: Unit := 0x7B
  const CLOSE_OBJECT: Unit := 0x7D
  const NULL_TEXT: Text := [0x6E, 0x75, 0x6C, 0x6C]
  const TRUE_TEXT: Text := [0x74, 0x72, 0x75, 0x65]
  const FALSE_TEXT: Text := [0x66, 0x61, 0x6C, 0x73, 0x65]
  const MAX_SAFE_INTEGER := 0x1F_FFFF_FFFF_FFFF

  // ---------------------------------------------------------------------------------
  // Key order: lexicographic by code unit, sorted by insertion.

  predicate Leq(a: Text, b: Text) {
    a == [] || (b != [] && (a[0] < b[0] || (a[0] == b[0] && Leq(a[1..], b[1..]))))
  }

  lemma {:induction false} LeqTotal(a: Text, b: Text)
    ensures Leq(a, b) || Leq(b, a)
  {
    if a != [] && b != [] && a[0] == b[0] {
      LeqTotal(a[1..], b[1..]);
    }
  }

  lemma {:induction false} LeqAntisymmetric(a: Text, b: Text)
    requires Leq(a, b) && Leq(b, a)
    ensures a == b
  {
    if a != [] && b != [] {
      LeqAntisymmetric(a[1..], b[1..]);
      assert a == [a[0]] + a[1..] && b == [b[0]] + b[1..];
    }
  }

  lemma {:induction false} LeqTransitive(a: Text, b: Text, c: Text)
    requires Leq(a, b) && Leq(b, c)
    ensures Leq(a, c)
  {
    if a != [] && a[0] == b[0] == c[0] {
      LeqTransitive(a[1..], b[1..], c[1..]);
    }
  }

  /** `a` and `b` agree up to `k`, where `a` ends or has the smaller code unit. */
  predicate PartAt(a: Text, b: Text, k: nat) {
    k <= |a| && k <= |b| && a[..k] == b[..k] && (k == |a| || (k < |b| && a[k] < b[k]))
  }

  /** `a` comes before `b`, or is `b`, in the order of code units. */
  ghost predicate Before(a: Text, b: Text) { exists k :: PartAt(a, b, k) }

  lemma {:induction false} PartFurther(a: Text, b: Text, k: nat)
    requires a != [] && b != [] && a[0] == b[0]
    ensures PartAt(a, b, k + 1) <==> PartAt(a[1..], b[1..], k)
  {
    if k + 1 <= |a| && k + 1 <= |b| {
      assert a[..k + 1] == [a[0]] + a[1..][..k] && b[..k + 1] == [b[0]] + b[1..][..k];
      assert a[..k + 1][1..] == a[1..][..k] && b[..k + 1][1..] == b[1..][..k];
    }
  }

  lemma {:induction false} PartWhere(a: Text, b: Text) returns (k: nat)
    requires Leq(a, b)
    ensures PartAt(a, b, k)
  {
    if a != [] && b != [] && a[0] == b[0] {
      var rest := PartWhere(a[1..], b[1..]);
      k := rest + 1;
      PartFurther(a, b, rest);
    } else {
      k := 0;
    }
  }

  function Insert<T>(e: Entry<T>, s: seq<Entry<T>>): seq<Entry<T>> {
    if s == [] then [e]
    else if Leq(e.key, s[0].key) then [e] + s
    else [s[0]] + Insert(e, s[1..])
  }

  function Sort<T>(s: seq<Entry<T>>): seq<Entry<T>> {
    if s == [] then [] else Insert(s[0], Sort(s[1..]))
  }

  predicate Ascending<T>(s: seq<Entry<T>>) {
    |s| <= 1 || (Leq(s[0].key, s[1].key) && Ascending(s[1..]))
  }

  function Keys<T>(s: seq<Entry<T>>): (ks: set<Text>)
    ensures ks == {} <==> s == []
  {
    if s == [] then {} else {s[0].key} + Keys(s[1..])
  }

  predicate Distinct<T>(s: seq<Entry<T>>) {
    s == [] || (s[0].key !in Keys(s[1..]) && Distinct(s[1..]))
  }

  function Lookup<T>(s: seq<Entry<T>>): (m: map<Text, T>)
    ensures m.Keys == Keys(s)
  {
    if s == [] then map[] else Lookup(s[1..])[s[0].key := s[0].value]
  }

  lemma {:induction false} InsertOrders<T>(e: Entry<T>, s: seq<Entry<T>>)
    requires Ascending(s)
    ensures Insert(e, s) != [] && Insert(e, s)[0].key == (if s == [] || Leq(e.key, s[0].key) then e.key else s[0].key)
    ensures Ascending(Insert(e, s))
  {
    if s != [] && !Leq(e.key, s[0].key) {
      LeqTotal(e.key, s[0].key);
      InsertOrders(e, s[1..]);
      assert Insert(e, s)[1..] == Insert(e, s[1..]);
    } else {
      assert ([e] + s)[1..] == s;
    }
  }

  lemma {:induction false} InsertKeeps<T>(e: Entry<T>, s: seq<Entry<T>>)
    ensures Keys(Insert(e, s)) == {e.key} + Keys(s)
    ensures e.key !in Keys(s) && Distinct(s) ==>
              Distinct(Insert(e, s)) && Lookup(Insert(e, s)) == Lookup(s)[e.key := e.value]
  {
    if s != [] && !Leq(e.key, s[0].key) {
      InsertKeeps(e, s[1..]);
      assert Insert(e, s)[0] == s[0] && Insert(e, s)[1..] == Insert(e, s[1..]);
    } else {
      assert ([e] + s)[1..] == s;
    }
  }

  /** Sorting keeps the members and their values and puts the keys in order. */
  lemma {:induction false} SortKeeps<T>(s: seq<Entry<T>>)
    ensures Ascending(Sort(s)) && Keys(Sort(s)) == Keys(s)
    ensures Distinct(s) ==> Distinct(Sort(s)) && Lookup(Sort(s)) == Lookup(s)
  {
    if s != [] {
      SortKeeps(s[1..]);
      InsertOrders(s[0], Sort(s[1..]));
      InsertKeeps(s[0], Sort(s[1..]));
    }
  }

  lemma {:induction false} InsertPermutes<T>(e: Entry<T>, s: seq<Entry<T>>)
    ensures multiset(Insert(e, s)) == multiset(s) + multiset{e}
  {
    if s != [] && !Leq(e.key, s[0].key) {
      InsertPermutes(e, s[1..]);
      assert s == [s[0]] + s[1..];
    }
  }

  lemma {:induction false} SortPermutes<T>(s: seq<Entry<T>>)
    ensures multiset(Sort(s)) == multiset(s)
  {
    if s != [] {
      SortPermutes(s[1..]);
      InsertPermutes(s[0], Sort(s[1..]));
      assert s == [s[0]] + s[1..];
    }
  }

  lemma {:induction false} AscendingApart<T>(s: seq<Entry<T>>, i: nat, j: nat)
    requires Ascending(s) && i < j < |s|
    ensures Leq(s[i].key, s[j].key)
    decreases j
  {
    if i > 0 {
      AscendingApart(s[1..], i - 1, j - 1);
    } else if j > 1 {
      AscendingApart(s[1..], 0, j - 1);
      LeqTransitive(s[0].key, s[1].key, s[j].key);
    }
  }

  /** Sorting orders keys by their code units: of two, the earlier ends first or has the smaller unit where they part. */
  lemma {:induction false} SortOrdersByUnits<T>(s: seq<Entry<T>>, i: nat, j: nat)
    requires i < j < |Sort(s)|
    ensures multiset(Sort(s)) == multiset(s)
    ensures Before(Sort(s)[i].key, Sort(s)[j].key)
  {
    SortPermutes(s);
    SortKeeps(s);
    AscendingApart(Sort(s), i, j);
    var k := PartWhere(Sort(s)[i].key, Sort(s)[j].key);
  }

  lemma {:induction false} SortedIsFixed<T>(s: seq<Entry<T>>)
    requires Ascending(s)
    ensures Sort(s) == s
  {
    if s != [] {
      SortedIsFixed(s[1..]);
      assert s == [s[0]] + s[1..];
    }
  }

  lemma {:induction false} HeadIsLeast<T>(s: seq<Entry<T>>, k: Text)
    requires s != [] && Ascending(s) && k in Keys(s)
    ensures Leq(s[0].key, k)
  {
    LeqTotal(k, k);
    if k != s[0].key {
      HeadIsLeast(s[1..], k);
      LeqTransitive(s[0].key, s[1].key, k);
    }
  }

  /** Two sorted member lists with the same contents are the same list. */
  lemma {:induction false} SortedIsUnique<T>(s: seq<Entry<T>>, t: seq<Entry<T>>)
    requires Ascending(s) && Distinct(s) && Ascending(t) && Distinct(t)
    requires Lookup(s) == Lookup(t)
    ensures s == t
  {
    assert Keys(s) == Lookup(s).Keys == Lookup(t).Keys == Keys(t);
    if s == [] {
      assert t == [];
    } else {
      assert s[0].key in Keys(t);
      assert t != [] && t[0].key in Keys(s);
      HeadIsLeast(s, t[0].key);
      HeadIsLeast(t, s[0].key);
      LeqAntisymmetric(s[0].key, t[0].key);
      assert Lookup(s)[s[0].key] == s[0].value && Lookup(t)[t[0].key] == t[0].value;
      assert s[0] == t[0];
      assert Lookup(s[1..]) == Lookup(s) - {s[0].key};
      assert Lookup(t[1..]) == Lookup(t) - {t[0].key};
      SortedIsUnique(s[1..], t[1..]);
      assert s == [s[0]] + s[1..] && t == [t[0]] + t[1..];
    }
  }

  // ---------------------------------------------------------------------------------
  // Strings and numbers.

  predicate High(u: Unit) { 0xD800 <= u < 0xDC00 }

  predicate Low(u: Unit) { 0xDC00 <= u < 0xE000 }

  function Hex(d: int): Unit
    requires 0 <= d < 16
  {
    if d < 10 then 0x30 + d else 0x61 + d - 10
  }

  function Escaped(u: Unit): Text {
    [BACKSLASH, 0x75, Hex(u / 16 / 16 / 16), Hex(u / 16 / 16 % 16), Hex(u / 16 % 16), Hex(u % 16)]
  }

  /** `JSON.stringify` of one code unit that is not half of a surrogate pair. */
  function QuoteUnit(u: Unit): Text {
    if u == QUOTE then [BACKSLASH, QUOTE]
    else if u == BACKSLASH then [BACKSLASH, BACKSLASH]
    else if u == 8 then [BACKSLASH, 0x62]
    else if u == 12 then [BACKSLASH, 0x66]
    else if u == 10 then [BACKSLASH, 0x6E]
    else if u == 13 then [BACKSLASH, 0x72]
    else if u == 9 then [BACKSLASH, 0x74]
    else if u < 0x20 || High(u) || Low(u) then Escaped(u)
    else [u]
  }

  function QuoteBody(s: Text): Text {
    if s == [] then []
    else if High(s[0]) && |s| > 1 && Low(s[1]) then [s[0], s[1]] + QuoteBody(s[2..])
    else QuoteUnit(s[0]) + QuoteBody(s[1..])
  }

  function Quote(s: Text): Text {
    [QUOTE] + QuoteBody(s) + [QUOTE]
  }

  function Decimal(n: nat): Text {
    if n < 10 then [ZERO + n] else Decimal(n / 10) + [ZERO + n % 10]
  }

  function Number(n: int): Text {
    if n < 0 then [MINUS] + Decimal(-n) else Decimal(n)
  }

  // ---------------------------------------------------------------------------------
  // The encoder.

  predicate Supported(v: Value) {
    match v
    case Fraction => false
    case Opaque => false
    case Arr(items) => forall i :: 0 <= i < |items| ==> Supported(items[i])
    case Obj(members) => forall i :: 0 <= i < |members| ==> Supported(members[i].value)
    case _ => true
  }

  function Encode(v: Value): Text
    requires Supported(v)
    decreases v, 0
  {
    match v
    case Undefined => NULL_TEXT
    case Null => NULL_TEXT
    case Bool(b) => if b then TRUE_TEXT else FALSE_TEXT
    case Num(n) => Number(n)
    case Str(s) => Quote(s)
    case Arr(items) => [OPEN_ARRAY] + Join(EncodeItems(items)) + [CLOSE_ARRAY]
    case Obj(members) => [OPEN_OBJECT] + Join(MemberTexts(Sort(EncodeMembers(members)))) + [CLOSE_OBJECT]
  }

  function EncodeItems(items: seq<Value>): (ts: seq<Text>)
    requires forall i :: 0 <= i < |items| ==> Supported(items[i])
    ensures |ts| == |items| && forall i :: 0 <= i < |items| ==> ts[i] == Encode(items[i])
    decreases items, 1
  {
    if items == [] then [] else [Encode(items[0])] + EncodeItems(items[1..])
  }

  function EncodeMembers(members: seq<Entry<Value>>): (es: seq<Entry<Text>>)
    requires forall i :: 0 <= i < |members| ==> Supported(members[i].value)
    ensures |es| == |members|
    ensures forall i :: 0 <= i < |members| ==> es[i] == Entry(members[i].key, Encode(members[i].value))
    decreases members, 1
  {
    if members == [] then []
    else [Entry(members[0].key, Encode(members[0].value))] + EncodeMembers(members[1..])
  }

  function Join(ts: seq<Text>): Text {
    if ts == [] then []
    else if |ts| == 1 then ts[0]
    else ts[0] + [COMMA] + Join(ts[1..])
  }

  function MemberText(e: Entry<Text>): Text {
    Quote(e.key) + [COLON] + e.value
  }

  function MemberTexts(es: seq<Entry<Text>>): (ts: seq<Text>)
    ensures |ts| == |es| && forall i :: 0 <= i < |es| ==> ts[i] == MemberText(es[i])
  {
    if es == [] then [] else [MemberText(es[0])] + MemberTexts(es[1..])
  }

  /** `canonicalizeValue`: the canonical text, or the thrown refusal. */
  function Canonicalize(v: Value): Result<Text, ()> {
    if Supported(v) then Ok(Encode(v)) else Err(())
  }

  // ---------------------------------------------------------------------------------
  // The domain: safe integers and objects whose keys are distinct.

  predicate InDomain(v: Value) {
    match v
    case Fraction => false
    case Opaque => false
    case Num(n) => -MAX_SAFE_INTEGER <= n <= MAX_SAFE_INTEGER
    case Arr(items) => forall i :: 0 <= i < |items| ==> InDomain(items[i])
    case Obj(members) => Distinct(members) && forall i :: 0 <= i < |members| ==> InDomain(members[i].value)
    case _ => true
  }

  lemma {:induction false} DomainIsSupported(v: Value)
    requires InDomain(v)
    ensures Supported(v)
    decreases v
  {
    match v
    case Arr(items) =>
      forall i | 0 <= i < |items| ensures Supported(items[i]) { DomainIsSupported(items[i]); }
    case Obj(members) =>
      forall i | 0 <= i < |members| ensures Supported(members[i].value) { DomainIsSupported(members[i].value); }
    case _ =>
  }

  ghost function Mean(v: Value): Meaning
    requires Supported(v)
    decreases v, 0
  {
    match v
    case Undefined => MNull
    case Null => MNull
    case Bool(b) => MBool(b)
    case Num(n) => MNum(n)
    case Str(s) => MStr(s)
    case Arr(items) => MArr(MeanItems(items))
    case Obj(members) => MObj(MeanMembers(members))
  }

  ghost function MeanItems(items: seq<Value>): (ms: seq<Meaning>)
    requires forall i :: 0 <= i < |items| ==> Supported(items[i])
    ensures |ms| == |items| && forall i :: 0 <= i < |items| ==> ms[i] == Mean(items[i])
    decreases items, 1
  {
    if items == [] then [] else [Mean(items[0])] + MeanItems(items[1..])
  }

  ghost function MeanMembers(members: seq<Entry<Value>>): (m: map<Text, Meaning>)
    requires forall i :: 0 <= i < |members| ==> Supported(members[i].value)
    ensures m.Keys == Keys(members)
    decreases members, 1
  {
    if members == [] then map[]
    else MeanMembers(members[1..])[members[0].key := Mean(members[0].value)]
  }

  // ---------------------------------------------------------------------------------
  // The parser.

  function Unhex(u: Unit): Option<int> {
    if 0x30 <= u < 0x3A then Some(u - 0x30)
    else if 0x61 <= u < 0x67 then Some(u - 0x61 + 10)
    else None
  }

  function Unescape(t: Text): (r: Option<(Unit, Text)>)
    ensures r.Some? ==> |r.value.1| < |t|
  {
    if t == [] then None
    else if t[0] != BACKSLASH then Some((t[0], t[1..]))
    else if |t| < 2 then None
    else if t[1] == QUOTE then Some((QUOTE, t[2..]))
    else if t[1] == BACKSLASH then Some((BACKSLASH, t[2..]))
    else if t[1] == 0x62 then Some((8, t[2..]))
    else if t[1] == 0x66 then Some((12, t[2..]))
    else if t[1] == 0x6E then Some((10, t[2..]))
    else if t[1] == 0x72 then Some((13, t[2..]))
    else if t[1] == 0x74 then Some((9, t[2..]))
    else if t[1] == 0x75 && |t| >= 6 then
      match (Unhex(t[2]), Unhex(t[3]), Unhex(t[4]), Unhex(t[5]))
      case (Some(a), Some(b), Some(c), Some(d)) =>
        var u := a * 4096 + b * 256 + c * 16 + d;
        if 0 <= u < 0x10000 then Some((u, t[6..])) else None
      case _ => None
    else None
  }

  /** Reads a string up to and including its closing quote. */
  function ParseString(t: Text): (r: Option<(Text, Text)>)
    ensures r.Some? ==> |r.value.1| < |t|
    decreases |t|
  {
    if t == [] then None
    else if t[0] == QUOTE then Some(([], t[1..]))
    else match Unescape(t)
      case None => None
      case Some((u, rest)) =>
        match ParseString(rest)
        case None => None
        case Some((s, rest')) => Some(([u] + s, rest'))
  }

  predicate Digit(u: Unit) { ZERO <= u < ZERO + 10 }

  function ParseDigits(t: Text, acc: nat): (r: (nat, Text))
    ensures |r.1| <= |t|
    decreases |t|
  {
    if t != [] && Digit(t[0]) then ParseDigits(t[1..], acc * 10 + (t[0] - ZERO)) else (acc, t)
  }

  function ParseValue(t: Text): (r: Option<(Value, Text)>)
    ensures r.Some? ==> |r.value.1| < |t|
    decreases |t|, 0
  {
    if t == [] then None
    else if t[0] == QUOTE then
      match ParseString(t[1..])
      case None => None
      case Some((s, rest)) => Some((Str(s), rest))
    else if t[0] == OPEN_ARRAY then ParseArray(t[1..])
    else if t[0] == OPEN_OBJECT then ParseObject(t[1..])
    else if t[0] == MINUS || Digit(t[0]) then ParseNumber(t)
    else ParseWord(t)
  }

  function ParseNumber(t: Text): (r: Option<(Value, Text)>)
    requires t != []
    ensures r.Some? ==> |r.value.1| < |t|
  {
    if t[0] == MINUS then
      var (n, rest) := ParseDigits(t[1..], 0);
      Some((Num(0 - n as int), rest))
    else if Digit(t[0]) then
      var (n, rest) := ParseDigits(t[1..], t[0] - ZERO);
      Some((Num(n), rest))
    else None
  }

  function ParseWord(t: Text): (r: Option<(Value, Text)>)
    ensures r.Some? ==> |r.value.1| < |t|
  {
    if NULL_TEXT <= t then Some((Null, t[4..]))
    else if TRUE_TEXT <= t then Some((Bool(true), t[4..]))
    else if FALSE_TEXT <= t then Some((Bool(false), t[5..]))
    else None
  }

  /** What follows an opening bracket. */
  function ParseArray(t: Text): (r: Option<(Value, Text)>)
    ensures r.Some? ==> |r.value.1| < |t|
    decreases |t|, 2
  {
    if t != [] && t[0] == CLOSE_ARRAY then Some((Arr([]), t[1..])) else
    match ParseItems(t)
    case None => None
    case Some((items, rest)) => Some((Arr(items), rest))
  }

  /** What follows an opening brace. */
  function ParseObject(t: Text): (r: Option<(Value, Text)>)
    ensures r.Some? ==> |r.value.1| < |t|
    decreases |t|, 2
  {
    if t != [] && t[0] == CLOSE_OBJECT then Some((Obj([]), t[1..])) else
    match ParseMembers(t)
    case None => None
    case Some((members, rest)) => Some((Obj(members), rest))
  }

  /** One or more values separated by commas, up to and including the closing bracket. */
  function ParseItems(t: Text): (r: Option<(seq<Value>, Text)>)
    ensures r.Some? ==> |r.value.1| < |t|
    decreases |t|, 1
  {
    match ParseValue(t)
    case None => None
    case Some((v, rest)) =>
      if rest == [] then None
      else if rest[0] == CLOSE_ARRAY then Some(([v], rest[1..]))
      else if rest[0] != COMMA then None
      else match ParseItems(rest[1..])
        case None => None
        case Some((vs, rest')) => Some(([v] + vs, rest'))
  }

  function ParseMembers(t: Text): (r: Option<(seq<Entry<Value>>, Text)>)
    ensures r.Some? ==> |r.value.1| < |t|
    decreases |t|, 1
  {
    match ParseMember(t)
    case None => None
    case Some((m, rest)) =>
      if rest == [] then None
      else if rest[0] == CLOSE_OBJECT then Some(([m], rest[1..]))
      else if rest[0] != COMMA then None
      else match ParseMembers(rest[1..])
        case None => None
        case Some((ms, rest')) => Some(([m] + ms, rest'))
  }

  /** A quoted key, a colon and a value. */
  function ParseMember(t: Text): (r: Option<(Entry<Value>, Text)>)
    ensures r.Some? ==> |r.value.1| < |t|
    decreases |t|, 0
  {
    if t == [] || t[0] != QUOTE then None else
    match ParseString(t[1..])
    case None => None
    case Some((key, afterKey)) =>
      if afterKey == [] || afterKey[0] != COLON then None else
      match ParseValue(afterKey[1..])
      case None => None
      case Some((v, rest)) => Some((Entry(key, v), rest))
  }

  // ---------------------------------------------------------------------------------
  // Normal forms: what the parser returns for an encoded value.

  function Normalize(v: Value): (r: Value)
    requires Supported(v)
    decreases v, 0
  {
    match v
    case Undefined => Null
    case Arr(items) => Arr(NormalizeItems(items))
    case Obj(members) => Obj(Sort(NormalizeMembers(members)))
    case _ => v
  }

  function NormalizeItems(items: seq<Value>): (r: seq<Value>)
    requires forall i :: 0 <= i < |items| ==> Supported(items[i])
    ensures |r| == |items| && forall i :: 0 <= i < |items| ==> r[i] == Normalize(items[i])
    decreases items, 1
  {
    if items == [] then [] else [Normalize(items[0])] + NormalizeItems(items[1..])
  }

  function NormalizeMembers(members: seq<Entry<Value>>): (r: seq<Entry<Value>>)
    requires forall i :: 0 <= i < |members| ==> Supported(members[i].value)
    ensures |r| == |members|
    ensures forall i :: 0 <= i < |members| ==> r[i] == Entry(members[i].key, Normalize(members[i].value))
    ensures Keys(r) == Keys(members)
    decreases members, 1
  {
    if members == [] then [] else
    var rest := NormalizeMembers(members[1..]);
    var r := [Entry(members[0].key, Normalize(members[0].value))] + rest;
    assert r[1..] == rest;
    r
  }

  predicate Normal(v: Value) {
    match v
    case Undefined => false
    case Arr(items) => forall i :: 0 <= i < |items| ==> Normal(items[i])
    case Obj(members) => Ascending(members) && forall i :: 0 <= i < |members| ==> Normal(members[i].value)
    case _ => true
  }
}
