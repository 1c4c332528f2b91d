/**
 * The canonical encoder is injective up to member order, and only member order (and the
 * spelling of null) is lost: two values of the domain have the same text exactly when
 * they mean the same.
 */
module CanonicalTheory {
  import opened Common
  import opened Canonical

  // ---------------------------------------------------------------------------------
  // Strings and numbers read back.

  lemma {:induction false} HexReadsBack(d: int)
    requires 0 <= d < 16
    ensures Unhex(Hex(d)) == Some(d)
  {
  }

  lemma {:induction false} EscapedReadsBack(u: Unit, rest: Text)
    ensures Unescape(Escaped(u) + rest) == Some((u, rest))
  {
    var t := Escaped(u) + rest;
    var a, b, c, d := u / 16 / 16 / 16, u / 16 / 16 % 16, u / 16 % 16, u % 16;
    assert u == a * 4096 + b * 256 + c * 16 + d;
    HexReadsBack(a);
    HexReadsBack(b);
    HexReadsBack(c);
    HexReadsBack(d);
    assert t == [BACKSLASH, 0x75, Hex(a), Hex(b), Hex(c), Hex(d)] + rest;
    assert t[6..] == rest;
  }

  lemma {:induction false} UnitReadsBack(u: Unit, rest: Text)
    ensures QuoteUnit(u) != [] && QuoteUnit(u)[0] != QUOTE
    ensures Unescape(QuoteUnit(u) + rest) == Some((u, rest))
  {
    var t := QuoteUnit(u) + rest;
    if QuoteUnit(u) == Escaped(u) {
      EscapedReadsBack(u, rest);
    } else {
      assert t[|QuoteUnit(u)|..] == rest;
    }
  }

  /** Reading one quoted unit off the front of a string. */
  lemma {:induction false} StringStep(quoted: Text, u: Unit, more: Text, s: Text, rest: Text)
    requires quoted != [] && quoted[0] != QUOTE
    requires Unescape(quoted + more) == Some((u, more)) && ParseString(more) == Some((s, rest))
    ensures ParseString(quoted + more) == Some(([u] + s, rest))
  {
  }

  lemma {:induction false} PairReadsBack(high: Unit, low: Unit, more: Text, s: Text, rest: Text)
    requires High(high) && Low(low) && ParseString(more) == Some((s, rest))
    ensures ParseString([high] + ([low] + more)) == Some(([high] + ([low] + s), rest))
  {
    assert ([low] + more)[1..] == more;
    StringStep([low], low, more, s, rest);
    assert ([high] + ([low] + more))[1..] == [low] + more;
    StringStep([high], high, [low] + more, [low] + s, rest);
  }

  lemma {:induction false} QuoteSplits(s: Text, rest: Text)
    ensures QuoteBody(s) + [QUOTE] + rest ==
      if s == [] then [QUOTE] + rest
      else if High(s[0]) && |s| > 1 && Low(s[1]) then [s[0]] + ([s[1]] + (QuoteBody(s[2..]) + [QUOTE] + rest))
      else QuoteUnit(s[0]) + (QuoteBody(s[1..]) + [QUOTE] + rest)
  {
  }

  lemma {:induction false} BodyReadsBack(s: Text, rest: Text)
    ensures ParseString(QuoteBody(s) + [QUOTE] + rest) == Some((s, rest))
    decreases |s|
  {
    QuoteSplits(s, rest);
    if s == [] {
      assert ([QUOTE] + rest)[1..] == rest;
    } else if High(s[0]) && |s| > 1 && Low(s[1]) {
      var more := QuoteBody(s[2..]) + [QUOTE] + rest;
      BodyReadsBack(s[2..], rest);
      PairReadsBack(s[0], s[1], more, s[2..], rest);
      assert s == [s[0]] + ([s[1]] + s[2..]);
    } else {
      var more := QuoteBody(s[1..]) + [QUOTE] + rest;
      BodyReadsBack(s[1..], rest);
      UnitReadsBack(s[0], more);
      StringStep(QuoteUnit(s[0]), s[0], more, s[1..], rest);
      assert s == [s[0]] + s[1..];
    }
  }

  lemma {:induction false} QuoteReadsBack(s: Text, rest: Text)
    ensures var t := Quote(s) + rest; t[0] == QUOTE && ParseString(t[1..]) == Some((s, rest))
  {
    var t := Quote(s) + rest;
    assert t[1..] == QuoteBody(s) + [QUOTE] + rest;
    BodyReadsBack(s, rest);
  }

  lemma {:induction false} DigitsReadOn(n: nat, rest: Text)
    ensures Decimal(n) != [] && Digit(Decimal(n)[0])
    ensures ParseDigits(Decimal(n) + rest, 0) == ParseDigits(rest, n)
    decreases n
  {
    var d: Unit := ZERO + n % 10;
    if n < 10 {
      assert (Decimal(n) + rest)[1..] == rest;
    } else {
      DigitsReadOn(n / 10, [d] + rest);
      assert Decimal(n) + rest == Decimal(n / 10) + ([d] + rest);
      assert ([d] + rest)[1..] == rest;
    }
  }

  /** What may follow a value inside a text: the end, or something that is no digit. */
  predicate Stops(rest: Text) {
    rest == [] || !Digit(rest[0])
  }

  lemma {:induction false} NumberReadsBack(n: int, rest: Text)
    requires Stops(rest)
    ensures var t := Number(n) + rest;
      t != [] && (t[0] == MINUS || Digit(t[0])) && ParseNumber(t) == Some((Num(n), rest))
  {
    var t := Number(n) + rest;
    if n < 0 {
      DigitsReadOn(-n, rest);
      assert t[0] == MINUS && t[1..] == Decimal(-n) + rest;
    } else {
      DigitsReadOn(n, rest);
      assert Digit(t[0]);
      assert ParseDigits(t, 0) == ParseDigits(t[1..], 0 * 10 + (t[0] - ZERO));
    }
  }

  // ---------------------------------------------------------------------------------
  // Values in normal form read back.

  lemma {:induction false} EncodeCommutesWithInsert(e: Entry<Value>, s: seq<Entry<Value>>)
    requires Supported(e.value) && forall i :: 0 <= i < |s| ==> Supported(s[i].value)
    ensures forall i :: 0 <= i < |Insert(e, s)| ==> Supported(Insert(e, s)[i].value)
    ensures EncodeMembers(Insert(e, s)) == Insert(Entry(e.key, Encode(e.value)), EncodeMembers(s))
    decreases |s|
  {
    if s == [] || Leq(e.key, s[0].key) {
      assert ([e] + s)[1..] == s;
    } else {
      EncodeCommutesWithInsert(e, s[1..]);
      assert Insert(e, s)[1..] == Insert(e, s[1..]);
      assert EncodeMembers(s)[1..] == EncodeMembers(s[1..]);
    }
  }

  lemma {:induction false} EncodeCommutesWithSort(s: seq<Entry<Value>>)
    requires forall i :: 0 <= i < |s| ==> Supported(s[i].value)
    ensures forall i :: 0 <= i < |Sort(s)| ==> Supported(Sort(s)[i].value)
    ensures EncodeMembers(Sort(s)) == Sort(EncodeMembers(s))
    decreases |s|
  {
    if s != [] {
      EncodeCommutesWithSort(s[1..]);
      EncodeCommutesWithInsert(s[0], Sort(s[1..]));
      assert EncodeMembers(s)[1..] == EncodeMembers(s[1..]);
    }
  }

  lemma {:induction false} TextIsNotEmpty(v: Value)
    requires Supported(v)
    ensures Encode(v) != [] && Encode(v)[0] != CLOSE_ARRAY
  {
    if v.Num? {
      DigitsReadOn(if v.n < 0 then -v.n else v.n, []);
    }
  }

  /** A text that reads back as a value in every context where a value may stand. */
  ghost predicate Reads(text: Text, v: Value) {
    forall rest :: Stops(rest) ==> ParseValue(text + rest) == Some((v, rest))
  }

  lemma {:induction false} JoinSplits(ts: seq<Text>, rest: Text)
    requires ts != []
    ensures Join(ts) + rest == ts[0] + (if |ts| == 1 then rest else [COMMA] + (Join(ts[1..]) + rest))
  {
  }

  lemma {:induction false} ItemsReadBack(ts: seq<Text>, items: seq<Value>, rest: Text)
    requires items != [] && |ts| == |items| && forall i :: 0 <= i < |ts| ==> Reads(ts[i], items[i])
    ensures ParseItems(Join(ts) + ([CLOSE_ARRAY] + rest)) == Some((items, rest))
    decreases |ts|
  {
    var close := [CLOSE_ARRAY] + rest;
    assert close[1..] == rest;
    JoinSplits(ts, close);
    assert Reads(ts[0], items[0]);
    if |ts| == 1 {
      assert ParseValue(ts[0] + close) == Some((items[0], close));
      assert items == [items[0]];
    } else {
      var more := Join(ts[1..]) + close;
      var tail := [COMMA] + more;
      assert tail[1..] == more;
      ItemsReadBack(ts[1..], items[1..], rest);
      assert ParseValue(ts[0] + tail) == Some((items[0], tail));
      assert items == [items[0]] + items[1..];
    }
  }

  lemma {:induction false} MemberReadsBack(e: Entry<Text>, v: Value, rest: Text)
    requires Reads(e.value, v) && Stops(rest)
    ensures ParseMember(MemberText(e) + rest) == Some((Entry(e.key, v), rest))
  {
    var afterKey := [COLON] + (e.value + rest);
    assert MemberText(e) + rest == Quote(e.key) + afterKey;
    QuoteReadsBack(e.key, afterKey);
    assert afterKey[1..] == e.value + rest;
  }

  lemma {:induction false} MembersStep(text: Text, m: Entry<Value>, tail: Text)
    requires tail != [] && ParseMember(text + tail) == Some((m, tail))
    ensures tail[0] == CLOSE_OBJECT ==> ParseMembers(text + tail) == Some(([m], tail[1..]))
    ensures tail[0] == COMMA && ParseMembers(tail[1..]).Some? ==>
      var (ms, rest) := ParseMembers(tail[1..]).value;
      ParseMembers(text + tail) == Some(([m] + ms, rest))
  {
  }

  lemma {:induction false} MembersReadBack(es: seq<Entry<Text>>, members: seq<Entry<Value>>, rest: Text)
    requires members != [] && |es| == |members|
    requires forall i :: 0 <= i < |es| ==> es[i].key == members[i].key && Reads(es[i].value, members[i].value)
    ensures ParseMembers(Join(MemberTexts(es)) + ([CLOSE_OBJECT] + rest)) == Some((members, rest))
    decreases |es|
  {
    var close := [CLOSE_OBJECT] + rest;
    var ts, m := MemberTexts(es), members[0];
    JoinSplits(ts, close);
    assert m == Entry(es[0].key, m.value);
    if |es| == 1 {
      LastMemberReadsBack(es[0], m.value, rest);
      assert members == [m];
    } else {
      assert ts[1..] == MemberTexts(es[1..]);
      MembersReadBack(es[1..], members[1..], rest);
      NextMemberReadsBack(es[0], m.value, Join(ts[1..]) + close, members[1..], rest);
      assert members == [m] + members[1..];
    }
  }

  lemma {:induction false} LastMemberReadsBack(e: Entry<Text>, v: Value, rest: Text)
    requires Reads(e.value, v)
    ensures ParseMembers(MemberText(e) + ([CLOSE_OBJECT] + rest)) == Some(([Entry(e.key, v)], rest))
  {
    var close := [CLOSE_OBJECT] + rest;
    assert close[1..] == rest;
    MemberReadsBack(e, v, close);
    MembersStep(MemberText(e), Entry(e.key, v), close);
  }

  lemma {:induction false} NextMemberReadsBack(e: Entry<Text>, v: Value, more: Text, ms: seq<Entry<Value>>, rest: Text)
    requires Reads(e.value, v) && ParseMembers(more) == Some((ms, rest))
    ensures ParseMembers(MemberText(e) + ([COMMA] + more)) == Some(([Entry(e.key, v)] + ms, rest))
  {
    var tail := [COMMA] + more;
    assert tail[1..] == more;
    MemberReadsBack(e, v, tail);
    MembersStep(MemberText(e), Entry(e.key, v), tail);
  }

  lemma {:induction false} ArrayReadsBack(ts: seq<Text>, items: seq<Value>, rest: Text)
    requires |ts| == |items| && forall i :: 0 <= i < |ts| ==> Reads(ts[i], items[i]) && ts[i] != [] && ts[i][0] != CLOSE_ARRAY
    ensures ParseValue([OPEN_ARRAY] + Join(ts) + [CLOSE_ARRAY] + rest) == Some((Arr(items), rest))
  {
    var inner := Join(ts) + ([CLOSE_ARRAY] + rest);
    var t := [OPEN_ARRAY] + inner;
    assert [OPEN_ARRAY] + Join(ts) + [CLOSE_ARRAY] + rest == t && t[1..] == inner;
    if items == [] {
      assert inner[1..] == rest;
    } else {
      ItemsReadBack(ts, items, rest);
      JoinSplits(ts, [CLOSE_ARRAY] + rest);
      assert inner[0] == ts[0][0];
    }
  }

  lemma {:induction false} ObjectReadsBack(es: seq<Entry<Text>>, members: seq<Entry<Value>>, rest: Text)
    requires |es| == |members|
    requires forall i :: 0 <= i < |es| ==> es[i].key == members[i].key && Reads(es[i].value, members[i].value)
    ensures ParseValue([OPEN_OBJECT] + Join(MemberTexts(es)) + [CLOSE_OBJECT] + rest) == Some((Obj(members), rest))
  {
    var ts := MemberTexts(es);
    var inner := Join(ts) + ([CLOSE_OBJECT] + rest);
    var t := [OPEN_OBJECT] + inner;
    assert [OPEN_OBJECT] + Join(ts) + [CLOSE_OBJECT] + rest == t && t[1..] == inner;
    if members == [] {
      assert inner[1..] == rest;
    } else {
      MembersReadBack(es, members, rest);
      JoinSplits(ts, [CLOSE_OBJECT] + rest);
      assert inner[0] == MemberText(es[0])[0] == QUOTE;
    }
  }

  lemma {:induction false} WordReadsBack(b: bool, rest: Text)
    ensures ParseValue((if b then TRUE_TEXT else FALSE_TEXT) + rest) == Some((Bool(b), rest))
    ensures ParseValue(NULL_TEXT + rest) == Some((Null, rest))
  {
    var t := (if b then TRUE_TEXT else FALSE_TEXT) + rest;
    assert t[0] != NULL_TEXT[0];
    if b {
      assert TRUE_TEXT <= t && t[4..] == rest;
    } else {
      assert t[0] != TRUE_TEXT[0];
      assert FALSE_TEXT <= t && t[5..] == rest;
    }
    assert NULL_TEXT <= NULL_TEXT + rest && (NULL_TEXT + rest)[4..] == rest;
  }

  /** The parser inverts the encoder on values in normal form. */
  lemma {:induction false} ReadsBack(v: Value)
    requires Supported(v) && Normal(v)
    ensures Reads(Encode(v), v)
    decreases v
  {
    match v
    case Null => forall rest ensures ParseValue(Encode(v) + rest) == Some((v, rest)) { WordReadsBack(true, rest); }
    case Bool(b) => forall rest ensures ParseValue(Encode(v) + rest) == Some((v, rest)) { WordReadsBack(b, rest); }
    case Num(n) =>
      forall rest | Stops(rest) ensures ParseValue(Encode(v) + rest) == Some((v, rest)) { NumberReadsBack(n, rest); }
    case Str(s) => forall rest ensures ParseValue(Encode(v) + rest) == Some((v, rest)) { QuoteReadsBack(s, rest); }
    case Arr(items) => ItemsRead(items);
    case Obj(members) => MembersRead(members);
  }

  lemma {:induction false} ItemsRead(items: seq<Value>)
    requires Supported(Arr(items)) && Normal(Arr(items))
    ensures Reads(Encode(Arr(items)), Arr(items))
    decreases items
  {
    var ts := EncodeItems(items);
    forall i | 0 <= i < |items| ensures Reads(ts[i], items[i]) && ts[i] != [] && ts[i][0] != CLOSE_ARRAY {
      ReadsBack(items[i]);
      TextIsNotEmpty(items[i]);
    }
    forall rest ensures ParseValue(Encode(Arr(items)) + rest) == Some((Arr(items), rest)) {
      ArrayReadsBack(ts, items, rest);
    }
  }

  lemma {:induction false} MembersRead(members: seq<Entry<Value>>)
    requires Supported(Obj(members)) && Normal(Obj(members))
    ensures Reads(Encode(Obj(members)), Obj(members))
    decreases members
  {
    EncodeCommutesWithSort(members);
    SortedIsFixed(members);
    var es := EncodeMembers(members);
    forall i | 0 <= i < |members| ensures es[i].key == members[i].key && Reads(es[i].value, members[i].value) {
      ReadsBack(members[i].value);
    }
    forall rest ensures ParseValue(Encode(Obj(members)) + rest) == Some((Obj(members), rest)) {
      ObjectReadsBack(es, members, rest);
    }
  }

  // ---------------------------------------------------------------------------------
  // Normal forms: they exist, they have the same text, and they mean the same.

  lemma {:induction false} SortOnlyReorders<T>(s: seq<Entry<T>>)
    ensures forall i :: 0 <= i < |Sort(s)| ==> Sort(s)[i] in s
  {
    if s != [] {
      SortOnlyReorders(s[1..]);
      InsertOnlyAdds(s[0], Sort(s[1..]));
    }
  }

  lemma {:induction false} InsertOnlyAdds<T>(e: Entry<T>, s: seq<Entry<T>>)
    ensures forall i :: 0 <= i < |Insert(e, s)| ==> Insert(e, s)[i] == e || Insert(e, s)[i] in s
  {
    if s != [] && !Leq(e.key, s[0].key) {
      InsertOnlyAdds(e, s[1..]);
    }
  }

  lemma {:induction false} NormalizeIsNormal(v: Value)
    requires Supported(v)
    ensures Supported(Normalize(v)) && Normal(Normalize(v))
    decreases v
  {
    match v
    case Arr(items) =>
      forall i | 0 <= i < |items| ensures Supported(Normalize(items[i])) && Normal(Normalize(items[i])) {
        NormalizeIsNormal(items[i]);
      }
    case Obj(members) =>
      var ns := NormalizeMembers(members);
      forall i | 0 <= i < |ns| ensures Supported(ns[i].value) && Normal(ns[i].value) {
        NormalizeIsNormal(members[i].value);
      }
      SortKeeps(ns);
      SortOnlyReorders(ns);
    case _ =>
  }

  lemma {:induction false} ItemsKeepText(items: seq<Value>)
    requires forall i :: 0 <= i < |items| ==> Supported(items[i])
    ensures forall i :: 0 <= i < |items| ==> Supported(NormalizeItems(items)[i])
    ensures EncodeItems(NormalizeItems(items)) == EncodeItems(items)
    decreases items, 1
  {
    forall i | 0 <= i < |items| ensures Supported(Normalize(items[i])) && Encode(Normalize(items[i])) == Encode(items[i]) {
      NormalizeKeepsText(items[i]);
    }
  }

  lemma {:induction false} MembersKeepText(members: seq<Entry<Value>>)
    requires forall i :: 0 <= i < |members| ==> Supported(members[i].value)
    ensures forall i :: 0 <= i < |members| ==> Supported(NormalizeMembers(members)[i].value)
    ensures EncodeMembers(NormalizeMembers(members)) == EncodeMembers(members)
    decreases members, 1
  {
    forall i | 0 <= i < |members|
      ensures Supported(Normalize(members[i].value)) && Encode(Normalize(members[i].value)) == Encode(members[i].value)
    {
      NormalizeKeepsText(members[i].value);
    }
  }

  lemma {:induction false} NormalizeKeepsText(v: Value)
    requires Supported(v)
    ensures Supported(Normalize(v)) && Encode(Normalize(v)) == Encode(v)
    decreases v, 2
  {
    NormalizeIsNormal(v);
    match v
    case Arr(items) => ItemsKeepText(items);
    case Obj(members) =>
      MembersKeepText(members);
      var ns := NormalizeMembers(members);
      EncodeCommutesWithSort(ns);
      SortKeeps(EncodeMembers(ns));
      SortedIsFixed(Sort(EncodeMembers(ns)));
    case _ =>
  }

  lemma {:induction false} LookupAt<T>(s: seq<Entry<T>>, k: Text) returns (i: nat)
    requires k in Keys(s)
    ensures i < |s| && s[i] == Entry(k, Lookup(s)[k])
  {
    if s[0].key == k {
      i := 0;
    } else {
      i := LookupAt(s[1..], k);
      i := i + 1;
    }
  }

  /** The meaning of an object is the meaning of what each key looks up. */
  lemma {:induction false} MeanLooksUp(members: seq<Entry<Value>>, k: Text)
    requires forall i :: 0 <= i < |members| ==> Supported(members[i].value)
    requires k in Keys(members)
    ensures Supported(Lookup(members)[k]) && MeanMembers(members)[k] == Mean(Lookup(members)[k])
  {
    if members[0].key != k {
      MeanLooksUp(members[1..], k);
    }
  }

  lemma {:induction false} NormalizeLooksUp(members: seq<Entry<Value>>, k: Text)
    requires forall i :: 0 <= i < |members| ==> Supported(members[i].value)
    requires k in Keys(members)
    ensures Supported(Lookup(members)[k]) && Lookup(NormalizeMembers(members))[k] == Normalize(Lookup(members)[k])
  {
    assert NormalizeMembers(members)[1..] == NormalizeMembers(members[1..]);
    if members[0].key != k {
      NormalizeLooksUp(members[1..], k);
    }
  }

  lemma {:induction false} NormalizeKeepsDistinct(members: seq<Entry<Value>>)
    requires forall i :: 0 <= i < |members| ==> Supported(members[i].value)
    requires Distinct(members)
    ensures Distinct(NormalizeMembers(members))
  {
    if members != [] {
      NormalizeKeepsDistinct(members[1..]);
      assert NormalizeMembers(members)[1..] == NormalizeMembers(members[1..]);
    }
  }

  lemma {:induction false} MembersKeepMeaning(members: seq<Entry<Value>>)
    requires InDomain(Obj(members)) && Supported(Obj(members))
    ensures Supported(Normalize(Obj(members))) && Mean(Normalize(Obj(members))) == Mean(Obj(members))
    decreases members, 1
  {
    NormalizeIsNormal(Obj(members));
    NormalizeKeepsDistinct(members);
    var ns := NormalizeMembers(members);
    SortKeeps(ns);
    var ss := Sort(ns);
    forall k | k in Keys(members) ensures MeanMembers(ss)[k] == MeanMembers(members)[k] {
      var i := LookupAt(members, k);
      NormalizeKeepsMeaning(members[i].value);
      NormalizeLooksUp(members, k);
      MeanLooksUp(members, k);
      MeanLooksUp(ss, k);
    }
    assert MeanMembers(ss) == MeanMembers(members);
  }

  lemma {:induction false} NormalizeKeepsMeaning(v: Value)
    requires InDomain(v)
    ensures Supported(v) && Supported(Normalize(v)) && Mean(Normalize(v)) == Mean(v)
    decreases v, 2
  {
    DomainIsSupported(v);
    NormalizeIsNormal(v);
    match v
    case Arr(items) =>
      forall i | 0 <= i < |items| ensures Mean(Normalize(items[i])) == Mean(items[i]) {
        NormalizeKeepsMeaning(items[i]);
      }
      assert MeanItems(NormalizeItems(items)) == MeanItems(items);
    case Obj(members) => MembersKeepMeaning(members);
    case _ =>
  }

  lemma {:induction false} KeyNormalizesAlike(ms: seq<Entry<Value>>, ms': seq<Entry<Value>>, k: Text)
    requires InDomain(Obj(ms)) && InDomain(Obj(ms')) && Supported(Obj(ms)) && Supported(Obj(ms'))
    requires MeanMembers(ms) == MeanMembers(ms') && k in Keys(ms) && k in Keys(ms')
    ensures Lookup(NormalizeMembers(ms))[k] == Lookup(NormalizeMembers(ms'))[k]
    decreases ms, 0
  {
    var i := LookupAt(ms, k);
    var j := LookupAt(ms', k);
    MeanLooksUp(ms, k);
    MeanLooksUp(ms', k);
    NormalizeLooksUp(ms, k);
    NormalizeLooksUp(ms', k);
    SameMeaningNormalizesAlike(ms[i].value, ms'[j].value);
  }

  lemma {:induction false} ObjectsNormalizeAlike(ms: seq<Entry<Value>>, ms': seq<Entry<Value>>)
    requires InDomain(Obj(ms)) && InDomain(Obj(ms')) && Supported(Obj(ms)) && Supported(Obj(ms'))
    requires MeanMembers(ms) == MeanMembers(ms')
    ensures Normalize(Obj(ms)) == Normalize(Obj(ms'))
    decreases ms, 1
  {
    assert Keys(ms) == MeanMembers(ms).Keys == MeanMembers(ms').Keys == Keys(ms');
    var ns, ns' := NormalizeMembers(ms), NormalizeMembers(ms');
    forall k | k in Keys(ms) ensures Lookup(ns)[k] == Lookup(ns')[k] {
      KeyNormalizesAlike(ms, ms', k);
    }
    assert Lookup(ns) == Lookup(ns');
    NormalizeKeepsDistinct(ms);
    NormalizeKeepsDistinct(ms');
    SortKeeps(ns);
    SortKeeps(ns');
    SortedIsUnique(Sort(ns), Sort(ns'));
  }

  lemma {:induction false} SameMeaningNormalizesAlike(a: Value, b: Value)
    requires InDomain(a) && InDomain(b)
    requires Supported(a) && Supported(b) && Mean(a) == Mean(b)
    ensures Normalize(a) == Normalize(b)
    decreases a, 2
  {
    match a
    case Arr(items) =>
      assert b.Arr? && MeanItems(items) == MeanItems(b.items);
      forall i | 0 <= i < |items| ensures Normalize(items[i]) == Normalize(b.items[i]) {
        assert MeanItems(items)[i] == MeanItems(b.items)[i];
        SameMeaningNormalizesAlike(items[i], b.items[i]);
      }
      assert NormalizeItems(items) == NormalizeItems(b.items);
    case Obj(members) => ObjectsNormalizeAlike(members, b.members);
    case _ =>
  }

  // ---------------------------------------------------------------------------------
  // Main results.

  /** Parsing a canonical text recovers the value, members in key order and null spelled null. */
  lemma {:induction false} RoundTrip(v: Value)
    requires InDomain(v)
    ensures Canonicalize(v).Ok? && ParseValue(Canonicalize(v).value) == Some((Normalize(v), []))
    ensures Supported(Normalize(v)) && Mean(Normalize(v)) == Mean(v)
  {
    DomainIsSupported(v);
    NormalizeIsNormal(v);
    NormalizeKeepsText(v);
    NormalizeKeepsMeaning(v);
    ReadsBack(Normalize(v));
    assert Encode(Normalize(v)) + [] == Encode(v);
  }

  /** Two values of the domain have the same canonical text exactly when they mean the same. */
  lemma {:induction false} SameTextIffSameMeaning(a: Value, b: Value)
    requires InDomain(a) && InDomain(b)
    ensures Supported(a) && Supported(b)
    ensures Canonicalize(a) == Canonicalize(b) <==> Mean(a) == Mean(b)
  {
    RoundTrip(a);
    RoundTrip(b);
    if Mean(a) == Mean(b) {
      SameMeaningNormalizesAlike(a, b);
      NormalizeKeepsText(a);
      NormalizeKeepsText(b);
    }
  }

  lemma {:induction false} DistinctLooksUp<T>(s: seq<Entry<T>>, e: Entry<T>)
    requires Distinct(s) && e in s
    ensures e.key in Keys(s) && Lookup(s)[e.key] == e.value
  {
    if s[0] != e {
      DistinctLooksUp(s[1..], e);
    }
  }

  /** The text does not depend on the order in which members were inserted. */
  lemma {:induction false} InsertionOrderIsIrrelevant(ms: seq<Entry<Value>>, ms': seq<Entry<Value>>)
    requires InDomain(Obj(ms)) && InDomain(Obj(ms'))
    requires forall e :: e in ms <==> e in ms'
    ensures Canonicalize(Obj(ms)) == Canonicalize(Obj(ms'))
  {
    DomainIsSupported(Obj(ms));
    DomainIsSupported(Obj(ms'));
    MembersMeanAlike(ms, ms');
    MembersMeanAlike(ms', ms);
    assert MeanMembers(ms) == MeanMembers(ms');
    SameTextIffSameMeaning(Obj(ms), Obj(ms'));
  }

  lemma {:induction false} MembersMeanAlike(ms: seq<Entry<Value>>, ms': seq<Entry<Value>>)
    requires Supported(Obj(ms)) && Supported(Obj(ms')) && Distinct(ms')
    requires forall e :: e in ms ==> e in ms'
    ensures forall k :: k in MeanMembers(ms) ==> k in MeanMembers(ms') && MeanMembers(ms)[k] == MeanMembers(ms')[k]
  {
    forall k | k in MeanMembers(ms)
      ensures k in MeanMembers(ms') && MeanMembers(ms)[k] == MeanMembers(ms')[k]
    {
      var i := LookupAt(ms, k);
      DistinctLooksUp(ms', ms[i]);
      MeanLooksUp(ms, k);
      MeanLooksUp(ms', k);
    }
  }

  // ---------------------------------------------------------------------------------
  // Canonical texts are well-formed UTF-16, so turning them into UTF-8 loses nothing.

  predicate WellFormed(t: Text) {
    t == [] ||
    (if High(t[0]) then |t| > 1 && Low(t[1]) && WellFormed(t[2..]) else !Low(t[0]) && WellFormed(t[1..]))
  }

  lemma {:induction false} ConcatIsWellFormed(a: Text, b: Text)
    requires WellFormed(a) && WellFormed(b)
    ensures WellFormed(a + b)
    decreases |a|
  {
    if a == [] {
      assert a + b == b;
    } else if High(a[0]) {
      ConcatIsWellFormed(a[2..], b);
      assert (a + b)[2..] == a[2..] + b;
    } else {
      ConcatIsWellFormed(a[1..], b);
      assert (a + b)[1..] == a[1..] + b;
    }
  }

  predicate Plain(t: Text) {
    forall i :: 0 <= i < |t| ==> !High(t[i]) && !Low(t[i])
  }

  lemma {:induction false} PlainIsWellFormed(t: Text)
    requires Plain(t)
    ensures WellFormed(t)
  {
    if t != [] {
      PlainIsWellFormed(t[1..]);
    }
  }

  lemma {:induction false} QuoteIsWellFormed(s: Text)
    ensures WellFormed(QuoteBody(s))
    decreases |s|
  {
    if s != [] {
      if High(s[0]) && |s| > 1 && Low(s[1]) {
        QuoteIsWellFormed(s[2..]);
        assert WellFormed([s[0], s[1]]);
        ConcatIsWellFormed([s[0], s[1]], QuoteBody(s[2..]));
      } else {
        QuoteIsWellFormed(s[1..]);
        assert Plain(QuoteUnit(s[0]));
        PlainIsWellFormed(QuoteUnit(s[0]));
        ConcatIsWellFormed(QuoteUnit(s[0]), QuoteBody(s[1..]));
      }
    }
  }

  lemma {:induction false} WrappedIsWellFormed(before: Text, t: Text, after: Text)
    requires Plain(before) && WellFormed(t) && Plain(after)
    ensures WellFormed(before + t + after)
  {
    PlainIsWellFormed(before);
    PlainIsWellFormed(after);
    ConcatIsWellFormed(before, t);
    ConcatIsWellFormed(before + t, after);
  }

  lemma {:induction false} DecimalIsPlain(n: nat)
    ensures Plain(Decimal(n))
  {
    if n >= 10 {
      DecimalIsPlain(n / 10);
    }
  }

  lemma {:induction false} JoinIsWellFormed(ts: seq<Text>)
    requires forall i :: 0 <= i < |ts| ==> WellFormed(ts[i])
    ensures WellFormed(Join(ts))
    decreases |ts|
  {
    if |ts| > 1 {
      JoinIsWellFormed(ts[1..]);
      PlainIsWellFormed([COMMA]);
      ConcatIsWellFormed(ts[0], [COMMA]);
      ConcatIsWellFormed(ts[0] + [COMMA], Join(ts[1..]));
    }
  }

  lemma {:induction false} MemberIsWellFormed(e: Entry<Text>)
    requires WellFormed(e.value)
    ensures WellFormed(MemberText(e))
  {
    QuoteIsWellFormed(e.key);
    WrappedIsWellFormed([QUOTE], QuoteBody(e.key), [QUOTE]);
    PlainIsWellFormed([COLON]);
    ConcatIsWellFormed(Quote(e.key), [COLON]);
    ConcatIsWellFormed(Quote(e.key) + [COLON], e.value);
  }

  lemma {:induction false} ObjectIsWellFormed(members: seq<Entry<Value>>)
    requires Supported(Obj(members))
    ensures WellFormed(Encode(Obj(members)))
    decreases members, 1
  {
    var es := EncodeMembers(members);
    forall i | 0 <= i < |es| ensures WellFormed(es[i].value) {
      EncodeIsWellFormed(members[i].value);
    }
    SortOnlyReorders(es);
    var ss := Sort(es);
    forall i | 0 <= i < |ss| ensures WellFormed(MemberText(ss[i])) {
      MemberIsWellFormed(ss[i]);
    }
    JoinIsWellFormed(MemberTexts(ss));
    WrappedIsWellFormed([OPEN_OBJECT], Join(MemberTexts(ss)), [CLOSE_OBJECT]);
  }

  /** A canonical text never contains half a surrogate pair, whatever strings went in. */
  lemma {:induction false} EncodeIsWellFormed(v: Value)
    requires Supported(v)
    ensures WellFormed(Encode(v))
    decreases v, 2
  {
    match v
    case Num(n) =>
      DecimalIsPlain(if n < 0 then -n else n);
      PlainIsWellFormed(Number(n));
    case Str(s) =>
      QuoteIsWellFormed(s);
      WrappedIsWellFormed([QUOTE], QuoteBody(s), [QUOTE]);
    case Arr(items) =>
      forall i | 0 <= i < |items| ensures WellFormed(Encode(items[i])) {
        EncodeIsWellFormed(items[i]);
      }
      JoinIsWellFormed(EncodeItems(items));
      WrappedIsWellFormed([OPEN_ARRAY], Join(EncodeItems(items)), [CLOSE_ARRAY]);
    case Obj(members) => ObjectIsWellFormed(members);
    case Undefined => PlainIsWellFormed(NULL_TEXT);
    case Null => PlainIsWellFormed(NULL_TEXT);
    case Bool(b) => PlainIsWellFormed(if b then TRUE_TEXT else FALSE_TEXT);
  }
}
