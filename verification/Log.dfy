/**
 * The hash-chained JSON-lines log shared by several processes (bridge_core/log.ts), over
 * the canonical encoder.  The digest is a parameter: nothing about it is assumed where a
 * log verifies, and only collision-freedom on well-formed texts where logs are compared.
 */
module Log {
  import opened Common
  import opened Canonical
  import opened CanonicalTheory
  import opened Stringify

  datatype LogEntry = LogEntry(
    seqNo: nat, at: Text, kind: Text, detail: Value, prev: Option<Text>, digest: Text)

  /** One line of the file: what parsing it yields, and its length in bytes. */
  datatype Line = Line(entry: LogEntry, bytes: nat)

  type Digest = Text -> Text

  const SEQ: Text := [0x73, 0x65, 0x71]
  const AT: Text := [0x61, 0x74]
  const KIND: Text := [0x6B, 0x69, 0x6E, 0x64]
  const DETAIL: Text := [0x64, 0x65, 0x74, 0x61, 0x69, 0x6C]
  const PREV: Text := [0x70, 0x72, 0x65, 0x76, 0x5F, 0x64, 0x69, 0x67, 0x65, 0x73, 0x74]

  function PrevValue(prev: Option<Text>): Value {
    if prev.None? then Null else Str(prev.value)
  }

  /** The record whose digest an entry carries: everything but the digest itself. */
  function Body(e: LogEntry): Value {
    Obj([Entry(SEQ, Num(e.seqNo)), Entry(AT, Str(e.at)), Entry(KIND, Str(e.kind)),
         Entry(DETAIL, e.detail), Entry(PREV, PrevValue(e.prev))])
  }

  // ---------------------------------------------------------------------------------
  // The file and its checks.

  function Size(lines: seq<Line>): nat {
    if lines == [] then 0 else Size(lines[..|lines| - 1]) + lines[|lines| - 1].bytes
  }

  function LastDigest(lines: seq<Line>): Option<Text> {
    if lines == [] then None else Some(lines[|lines| - 1].entry.digest)
  }

  /** `digestOf` an entry without its digest. */
  function BodyDigest(h: Digest, e: LogEntry): Text
    requires Supported(e.detail)
  {
    assert Supported(Body(e));
    h(Encode(Body(e)))
  }

  predicate Sealed(h: Digest, e: LogEntry) {
    Supported(e.detail) && e.digest == BodyDigest(h, e)
  }

  function PrevDigest(lines: seq<Line>, k: nat): Option<Text>
    requires k <= |lines|
  {
    if k == 0 then None else Some(lines[k - 1].entry.digest)
  }

  predicate LineOk(h: Digest, lines: seq<Line>, k: nat)
    requires k < |lines|
  {
    && lines[k].entry.seqNo == k
    && lines[k].entry.prev == PrevDigest(lines, k)
    && Sealed(h, lines[k].entry)
  }

  /** What `verify` accepts. */
  predicate Verified(h: Digest, lines: seq<Line>) {
    forall k :: 0 <= k < |lines| ==> LineOk(h, lines, k)
  }

  datatype Cache = Cache(lastDigest: Option<Text>, nextSeq: nat, knownSize: nat)

  /** The entry `append` builds from the cache. */
  function MakeEntry(h: Digest, c: Cache, at: Text, kind: Text, detail: Value): LogEntry
    requires Supported(detail)
  {
    var e := LogEntry(c.nextSeq, at, kind, detail, c.lastDigest, []);
    e.(digest := BodyDigest(h, e))
  }

  datatype LogError = SequenceBroken | ChainBroken | Tampered | Unsupported

  /** The entry at `k` is the first that is not in order, and `error` names what is wrong with it. */
  ghost predicate FirstBroken(h: Digest, lines: seq<Line>, k: nat, error: LogError) {
    && k < |lines|
    && (forall j :: 0 <= j < k ==> LineOk(h, lines, j))
    && var e := lines[k].entry;
      var follows := if k == 0 then e.prev == None else e.prev == Some(lines[k - 1].entry.digest);
      && (error == SequenceBroken <==> e.seqNo != k)
      && (error == ChainBroken <==> e.seqNo == k && !follows)
      && (error == Tampered <==> e.seqNo == k && follows && !Sealed(h, e))
      && error != Unsupported
  }

  class LogFile {
    var lines: seq<Line>

    constructor ()
      ensures lines == []
    {
      lines := [];
    }
  }

  /** The cache a rescan of the file leaves behind. */
  function Rescanned(lines: seq<Line>): Cache {
    if lines == [] then Cache(None, 0, 0)
    else Cache(LastDigest(lines), lines[|lines| - 1].entry.seqNo + 1, Size(lines))
  }

  function Synced(c: Cache, lines: seq<Line>): Cache {
    if Size(lines) != c.knownSize then Rescanned(lines) else c
  }

  class AppendOnlyLog {
    const file: LogFile
    const hash: Digest
    var lastDigest: Option<Text>
    var nextSeq: nat
    var knownSize: nat

    function View(): Cache
      reads this
    {
      Cache(lastDigest, nextSeq, knownSize)
    }

    constructor (file: LogFile, hash: Digest)
      ensures this.file == file && this.hash == hash
      ensures View() == Rescanned(file.lines)
    {
      this.file, this.hash := file, hash;
      lastDigest, nextSeq, knownSize := None, 0, 0;
      new;
      RefreshFromDisk();
    }

    method RefreshFromDisk()
      modifies this
      ensures View() == Rescanned(file.lines)
    {
      if file.lines == [] {
        lastDigest, nextSeq, knownSize := None, 0, 0;
        return;
      }
      for k := 0 to |file.lines|
        invariant k > 0 ==> lastDigest == LastDigest(file.lines[..k]) && nextSeq == file.lines[k - 1].entry.seqNo + 1
      {
        lastDigest := Some(file.lines[k].entry.digest);
        nextSeq := file.lines[k].entry.seqNo + 1;
      }
      assert file.lines[..|file.lines|] == file.lines;
      knownSize := Size(file.lines);
    }

    /** Catches up with other writers when the file is not the size this instance last saw. */
    method Sync(currentSize: nat)
      requires currentSize == Size(file.lines)
      modifies this
      ensures View() == Synced(old(View()), file.lines)
    {
      if currentSize != knownSize {
        RefreshFromDisk();
      }
    }

    /** Runs under the file lock; `bytes` is the length of the line it writes. */
    method Append(at: Text, kind: Text, detail: Value, bytes: nat) returns (r: Result<LogEntry, LogError>)
      modifies this, file
      ensures r.Ok? <==> Supported(detail)
      ensures View() == AppendStep(hash, old(View()), old(file.lines), at, kind, detail, bytes).0
      ensures file.lines == AppendStep(hash, old(View()), old(file.lines), at, kind, detail, bytes).1
      // The line that is written, and the entry that is returned.
      ensures r.Err? ==> file.lines == old(file.lines)
      ensures r.Ok? ==>
        var e := r.value;
        && e.at == at && e.kind == kind && e.detail == detail
        && e.digest == BodyDigest(hash, LogEntry(e.seqNo, at, kind, detail, e.prev, []))
        && file.lines == old(file.lines) + [Line(LogEntry(e.seqNo, at, kind, Stored(detail), e.prev, e.digest), bytes)]
    {
      var currentSize := Size(file.lines);
      Sync(currentSize);
      if !Supported(detail) {
        return Err(Unsupported);
      }
      var entry := MakeEntry(hash, Cache(lastDigest, nextSeq, knownSize), at, kind, detail);
      file.lines := file.lines + [Line(entry.(detail := Stored(detail)), bytes)];
      lastDigest := Some(entry.digest);
      nextSeq := nextSeq + 1;
      knownSize := currentSize + bytes;
      return Ok(entry);
    }

    method Verify() returns (r: Result<(), LogError>)
      ensures r.Ok? <==> Verified(hash, file.lines)
      // The error names what is wrong with the first entry that is.
      ensures r.Err? ==> exists k: nat :: FirstBroken(hash, file.lines, k, r.error)
    {
      var expectedSeq := 0;
      var expectedPrev: Option<Text> := None;
      var lines := file.lines;
      for k := 0 to |lines|
        invariant expectedSeq == k && expectedPrev == PrevDigest(lines, k)
        invariant forall j :: 0 <= j < k ==> LineOk(hash, lines, j)
      {
        var entry := lines[k].entry;
        assert LineOk(hash, lines, k) <==> entry.seqNo == k && entry.prev == expectedPrev && Sealed(hash, entry);
        if entry.seqNo != expectedSeq {
          assert FirstBroken(hash, lines, k, SequenceBroken);
          return Err(SequenceBroken);
        }
        if entry.prev != expectedPrev {
          assert FirstBroken(hash, lines, k, ChainBroken);
          return Err(ChainBroken);
        }
        if !Sealed(hash, entry) {
          assert FirstBroken(hash, lines, k, Tampered);
          return Err(Tampered);
        }
        expectedSeq := expectedSeq + 1;
        expectedPrev := Some(entry.digest);
      }
      return Ok(());
    }
  }

  // ---------------------------------------------------------------------------------
  // Several instances over one file.

  /** One locked append: the cache and file before, and after. */
  function AppendStep(h: Digest, c: Cache, lines: seq<Line>, at: Text, kind: Text, detail: Value, bytes: nat)
    : (Cache, seq<Line>)
  {
    var synced := Synced(c, lines);
    if !Supported(detail) then (synced, lines) else
    var e := MakeEntry(h, synced, at, kind, detail);
    (Cache(Some(e.digest), synced.nextSeq + 1, Size(lines) + bytes),
     lines + [Line(e.(detail := Stored(detail)), bytes)])
  }

  datatype Shared = Shared(lines: seq<Line>, caches: seq<Cache>)

  /** `bytes` is one less than the length of the line, which is never empty. */
  datatype Step =
    | Open
    | Append(i: nat, at: Text, kind: Text, detail: Value, bytes: nat)

  function Next(h: Digest, s: Shared, e: Step): Shared {
    match e
    case Open => s.(caches := s.caches + [Rescanned(s.lines)])
    case Append(i, at, kind, detail, bytes) =>
      if i >= |s.caches| then s else
      var (c, lines) := AppendStep(h, s.caches[i], s.lines, at, kind, detail, bytes + 1);
      Shared(lines, s.caches[i := c])
  }

  function Run(h: Digest, s: Shared, es: seq<Step>): Shared
    decreases |es|
  {
    if es == [] then s else Run(h, Next(h, s, es[0]), es[1..])
  }

  /** The cache is what the first `p` lines of the file left behind. */
  predicate AgreesAt(c: Cache, lines: seq<Line>, p: nat) {
    p <= |lines| && c == Cache(LastDigest(lines[..p]), p, Size(lines[..p]))
  }

  ghost predicate Agrees(c: Cache, lines: seq<Line>) {
    exists p: nat :: AgreesAt(c, lines, p)
  }

  ghost predicate CachesAgree(s: Shared) {
    forall i :: 0 <= i < |s.caches| ==> Agrees(s.caches[i], s.lines)
  }

  predicate Numbered(lines: seq<Line>) {
    forall k :: 0 <= k < |lines| ==> lines[k].bytes > 0 && lines[k].entry.seqNo == k
  }

  ghost predicate SharedInv(s: Shared) {
    Numbered(s.lines) && CachesAgree(s)
  }

  lemma {:induction false} SizeGrows(lines: seq<Line>, p: nat)
    requires Numbered(lines) && p < |lines|
    ensures Size(lines[..p]) < Size(lines)
  {
    var n := |lines| - 1;
    assert lines[..n][..p] == lines[..p];
    if p < n {
      SizeGrows(lines[..n], p);
    }
  }

  /** The size test is exact: a cache whose size matches the file matches it in full. */
  lemma {:induction false} MatchingSizeMeansMatchingCache(c: Cache, lines: seq<Line>, p: nat)
    requires Numbered(lines) && AgreesAt(c, lines, p) && c.knownSize == Size(lines)
    ensures c == Rescanned(lines)
    ensures c.nextSeq == |lines| && c.lastDigest == LastDigest(lines)
  {
    if p < |lines| {
      SizeGrows(lines, p);
    }
    assert lines[..|lines|] == lines;
  }

  lemma {:induction false} RescanAgrees(lines: seq<Line>)
    requires Numbered(lines)
    ensures AgreesAt(Rescanned(lines), lines, |lines|)
  {
    assert lines[..|lines|] == lines;
  }

  lemma {:induction false} StillAgrees(c: Cache, lines: seq<Line>, more: seq<Line>)
    requires Agrees(c, lines)
    ensures Agrees(c, lines + more)
  {
    var p: nat :| AgreesAt(c, lines, p);
    assert (lines + more)[..p] == lines[..p];
    assert AgreesAt(c, lines + more, p);
  }

  /** A locked append writes the entry a full rescan would have led to, and caches its outcome. */
  lemma {:induction false} AppendActsSynced(
    h: Digest, c: Cache, lines: seq<Line>, at: Text, kind: Text, detail: Value, bytes: nat)
    requires Numbered(lines) && Agrees(c, lines) && bytes > 0
    ensures var (c', lines') := AppendStep(h, c, lines, at, kind, detail, bytes);
      && c' == Rescanned(lines') && Numbered(lines')
      && lines' == if !Supported(detail) then lines else
           lines + [Line(MakeEntry(h, Rescanned(lines), at, kind, detail).(detail := Stored(detail)), bytes)]
  {
    var p: nat :| AgreesAt(c, lines, p);
    if c.knownSize == Size(lines) {
      MatchingSizeMeansMatchingCache(c, lines, p);
    }
    RescanAgrees(lines);
    var lines' := AppendStep(h, c, lines, at, kind, detail, bytes).1;
    if Supported(detail) {
      assert lines'[..|lines|] == lines;
    }
  }

  lemma {:induction false} NextKeepsShared(h: Digest, s: Shared, e: Step)
    requires SharedInv(s)
    ensures SharedInv(Next(h, s, e))
    ensures e.Append? && e.i < |s.caches| && Supported(e.detail) ==>
      var entry := MakeEntry(h, Rescanned(s.lines), e.at, e.kind, e.detail);
      Next(h, s, e).lines == s.lines + [Line(entry.(detail := Stored(e.detail)), e.bytes + 1)]
  {
    var s' := Next(h, s, e);
    if e.Append? && e.i < |s.caches| {
      AppendActsSynced(h, s.caches[e.i], s.lines, e.at, e.kind, e.detail, e.bytes + 1);
    }
    var more := s'.lines[|s.lines|..];
    assert s'.lines == s.lines + more;
    RescanAgrees(s'.lines);
    assert Agrees(Rescanned(s'.lines), s'.lines);
    forall i | 0 <= i < |s'.caches| ensures Agrees(s'.caches[i], s'.lines) {
      if i < |s.caches| && !(e.Append? && e.i == i) {
        StillAgrees(s.caches[i], s.lines, more);
      }
    }
  }

  lemma {:induction false} SharedFrom(h: Digest, s: Shared, es: seq<Step>)
    requires SharedInv(s)
    ensures SharedInv(Run(h, s, es))
    decreases |es|
  {
    if es != [] {
      NextKeepsShared(h, s, es[0]);
      SharedFrom(h, Next(h, s, es[0]), es[1..]);
    }
  }

  /**
   * However many instances append in whatever order, an instance whose cached size equals
   * the file's size caches exactly the file's next sequence number and last digest.
   */
  lemma {:induction false} CacheIsExact(h: Digest, es: seq<Step>, i: nat)
    requires i < |Run(h, Shared([], []), es).caches|
    ensures var s := Run(h, Shared([], []), es);
      s.caches[i].knownSize == Size(s.lines) ==>
        s.caches[i].nextSeq == |s.lines| && s.caches[i].lastDigest == LastDigest(s.lines)
  {
    SharedFrom(h, Shared([], []), es);
    var s := Run(h, Shared([], []), es);
    assert Agrees(s.caches[i], s.lines);
    var p: nat :| AgreesAt(s.caches[i], s.lines, p);
    if s.caches[i].knownSize == Size(s.lines) {
      MatchingSizeMeansMatchingCache(s.caches[i], s.lines, p);
    }
  }

  // ---------------------------------------------------------------------------------
  // Appended logs verify.

  lemma {:induction false} ConsIsDistinct(e: Entry<Value>, rest: seq<Entry<Value>>)
    requires Distinct(rest) && e.key !in Keys(rest)
    ensures Distinct([e] + rest) && Keys([e] + rest) == {e.key} + Keys(rest)
  {
    assert ([e] + rest)[1..] == rest;
  }

  lemma {:induction false} BodyInDomain(e: LogEntry)
    requires InDomain(e.detail) && e.seqNo <= MAX_SAFE_INTEGER
    ensures InDomain(Body(e)) && Supported(Body(e)) && Distinct(Body(e).members)
  {
    var ms := Body(e).members;
    assert |SEQ| == 3 && |AT| == 2 && |KIND| == 4 && |DETAIL| == 6 && |PREV| == 11;
    ConsIsDistinct(ms[4], []);
    ConsIsDistinct(ms[3], [ms[4]] + []);
    ConsIsDistinct(ms[2], [ms[3]] + ([ms[4]] + []));
    ConsIsDistinct(ms[1], [ms[2]] + ([ms[3]] + ([ms[4]] + [])));
    ConsIsDistinct(ms[0], [ms[1]] + ([ms[2]] + ([ms[3]] + ([ms[4]] + []))));
    assert ms == [ms[0]] + ([ms[1]] + ([ms[2]] + ([ms[3]] + ([ms[4]] + []))));
    DomainIsSupported(Body(e));
  }

  /** The meaning of an entry's body determines every field but the digest. */
  lemma {:induction false} BodyFields(e: LogEntry)
    requires InDomain(e.detail) && e.seqNo <= MAX_SAFE_INTEGER
    ensures Supported(Body(e)) && Supported(e.detail)
    ensures MeanMembers(Body(e).members)
            == map[SEQ := MNum(e.seqNo), AT := MStr(e.at), KIND := MStr(e.kind),
                   DETAIL := Mean(e.detail), PREV := Mean(PrevValue(e.prev))]
  {
    BodyInDomain(e);
    var ms := Body(e).members;
    assert ms[4..][1..] == [] && ms[3..][1..] == ms[4..] && ms[2..][1..] == ms[3..] && ms[1..][1..] == ms[2..];
    assert Supported(e.detail) by { assert ms[3].value == e.detail; }
    assert MeanMembers(ms[4..]) == map[PREV := Mean(PrevValue(e.prev))];
    assert MeanMembers(ms[3..]) == MeanMembers(ms[4..])[DETAIL := Mean(e.detail)];
    assert MeanMembers(ms[2..]) == MeanMembers(ms[3..])[KIND := MStr(e.kind)];
    assert MeanMembers(ms[1..]) == MeanMembers(ms[2..])[AT := MStr(e.at)];
    assert |SEQ| == 3 && |AT| == 2 && |KIND| == 4 && |DETAIL| == 6 && |PREV| == 11;
  }

  lemma {:induction false} FiveFieldsAgree(
    a: Meaning, b: Meaning, c: Meaning, d: Meaning, e: Meaning,
    a': Meaning, b': Meaning, c': Meaning, d': Meaning, e': Meaning)
    ensures map[SEQ := a, AT := b, KIND := c, DETAIL := d, PREV := e]
            == map[SEQ := a', AT := b', KIND := c', DETAIL := d', PREV := e']
            <==> a == a' && b == b' && c == c' && d == d' && e == e'
  {
    assert |SEQ| == 3 && |AT| == 2 && |KIND| == 4 && |DETAIL| == 6 && |PREV| == 11;
    var m := map[SEQ := a, AT := b, KIND := c, DETAIL := d, PREV := e];
    var m' := map[SEQ := a', AT := b', KIND := c', DETAIL := d', PREV := e'];
    if m == m' {
      assert m[SEQ] == m'[SEQ] && m[AT] == m'[AT] && m[KIND] == m'[KIND];
      assert m[DETAIL] == m'[DETAIL] && m[PREV] == m'[PREV];
    }
  }

  /** Two bodies have the same text exactly when the entries agree in every field but the digest. */
  lemma {:induction false} SameBodyText(a: LogEntry, b: LogEntry)
    requires InDomain(a.detail) && a.seqNo <= MAX_SAFE_INTEGER
    requires InDomain(b.detail) && b.seqNo <= MAX_SAFE_INTEGER
    ensures Supported(Body(a)) && Supported(Body(b)) && Supported(a.detail) && Supported(b.detail)
    ensures Encode(Body(a)) == Encode(Body(b)) <==>
      a.seqNo == b.seqNo && a.at == b.at && a.kind == b.kind && a.prev == b.prev && Mean(a.detail) == Mean(b.detail)
  {
    BodyInDomain(a);
    BodyInDomain(b);
    SameTextIffSameMeaning(Body(a), Body(b));
    BodyFields(a);
    BodyFields(b);
    FiveFieldsAgree(
      MNum(a.seqNo), MStr(a.at), MStr(a.kind), Mean(a.detail), Mean(PrevValue(a.prev)),
      MNum(b.seqNo), MStr(b.at), MStr(b.kind), Mean(b.detail), Mean(PrevValue(b.prev)));
  }

  ghost predicate CollisionFree(h: Digest) {
    forall a, b :: WellFormed(a) && WellFormed(b) && h(a) == h(b) ==> a == b
  }

  /** Under a collision-free digest, equal digests mean equal entries. */
  lemma {:induction false} SameBodyDigest(h: Digest, a: LogEntry, b: LogEntry)
    requires CollisionFree(h)
    requires InDomain(a.detail) && a.seqNo <= MAX_SAFE_INTEGER
    requires InDomain(b.detail) && b.seqNo <= MAX_SAFE_INTEGER
    ensures Supported(a.detail) && Supported(b.detail)
    ensures BodyDigest(h, a) == BodyDigest(h, b) <==>
      a.seqNo == b.seqNo && a.at == b.at && a.kind == b.kind && a.prev == b.prev && Mean(a.detail) == Mean(b.detail)
  {
    SameBodyText(a, b);
    EncodeIsWellFormed(Body(a));
    EncodeIsWellFormed(Body(b));
    DigestSeparates(h, Encode(Body(a)), Encode(Body(b)));
  }

  lemma {:induction false} DigestSeparates(h: Digest, x: Text, y: Text)
    requires CollisionFree(h) && WellFormed(x) && WellFormed(y)
    ensures h(x) == h(y) <==> x == y
  {
  }

  /** A member is encoded by its value's text. */
  lemma {:induction false} SameMemberTexts(members: seq<Entry<Value>>, k: nat, v: Value)
    requires k < |members| && Supported(v) && Supported(Obj(members)) && Encode(v) == Encode(members[k].value)
    ensures Supported(Obj(members[k := Entry(members[k].key, v)]))
    ensures Encode(Obj(members[k := Entry(members[k].key, v)])) == Encode(Obj(members))
  {
    var changed := members[k := Entry(members[k].key, v)];
    forall i | 0 <= i < |members| ensures EncodeMembers(changed)[i] == EncodeMembers(members)[i] {
      assert EncodeMembers(changed)[i] == Entry(changed[i].key, Encode(changed[i].value));
    }
    assert EncodeMembers(changed) == EncodeMembers(members);
  }

  lemma {:induction false} BodyTextOfDetail(e: LogEntry, detail: Value)
    requires Supported(e.detail) && Supported(detail) && Encode(detail) == Encode(e.detail)
    ensures Supported(Body(e)) && Supported(Body(e.(detail := detail)))
    ensures Encode(Body(e.(detail := detail))) == Encode(Body(e))
  {
    var members := Body(e).members;
    assert Body(e) == Obj(members) && members[3] == Entry(DETAIL, e.detail);
    assert Body(e.(detail := detail)) == Obj(members[3 := Entry(DETAIL, detail)]);
    SameMemberTexts(members, 3, detail);
  }

  /** An appended entry with a clean detail passes its own digest check, whatever the digest. */
  lemma {:induction false} AppendedIsSealed(h: Digest, c: Cache, at: Text, kind: Text, detail: Value)
    requires Supported(detail) && Clean(detail)
    ensures Sealed(h, MakeEntry(h, c, at, kind, detail).(detail := Stored(detail)))
  {
    var e := MakeEntry(h, c, at, kind, detail);
    StoredKeepsText(detail);
    BodyTextOfDetail(e, Stored(detail));
    assert Body(e) == Body(e.(digest := []));
  }

  /** Under a collision-free digest it passes exactly when the detail is clean. */
  lemma {:induction false} AppendedIsSealedExactly(h: Digest, c: Cache, at: Text, kind: Text, detail: Value)
    requires CollisionFree(h) && InDomain(detail) && c.nextSeq <= MAX_SAFE_INTEGER
    ensures Supported(detail)
    ensures Sealed(h, MakeEntry(h, c, at, kind, detail).(detail := Stored(detail))) <==> Clean(detail)
  {
    DomainIsSupported(detail);
    var e := MakeEntry(h, c, at, kind, detail);
    var e' := e.(detail := Stored(detail));
    StoredInDomain(detail);
    StoredKeepsMeaningExactly(detail);
    SameBodyDigest(h, e, e');
    assert Body(e) == Body(e.(digest := []));
  }

  /** Details the encoder accepts have no `undefined` members; those it refuses are not written at all. */
  ghost predicate GoodAppends(es: seq<Step>) {
    forall k :: 0 <= k < |es| && es[k].Append? && Supported(es[k].detail) ==> Clean(es[k].detail)
  }

  lemma {:induction false} AppendKeepsVerified(h: Digest, lines: seq<Line>, line: Line)
    requires Verified(h, lines)
    ensures Verified(h, lines + [line]) <==> LineOk(h, lines + [line], |lines|)
  {
    var lines' := lines + [line];
    forall k | 0 <= k < |lines| ensures LineOk(h, lines', k) {
      assert LineOk(h, lines, k);
      assert PrevDigest(lines', k) == PrevDigest(lines, k);
    }
  }

  lemma {:induction false} RescannedIsPrevDigest(lines: seq<Line>)
    requires Numbered(lines)
    ensures Rescanned(lines).lastDigest == PrevDigest(lines, |lines|) && Rescanned(lines).nextSeq == |lines|
  {
  }

  /** An entry made from a cache continues the file exactly when the cache is the file's and the entry is sealed. */
  lemma {:induction false} AppendedContinues(
    h: Digest, c: Cache, lines: seq<Line>, at: Text, kind: Text, detail: Value, bytes: nat)
    requires Verified(h, lines) && Supported(detail) && Clean(detail)
    ensures var line := Line(MakeEntry(h, c, at, kind, detail).(detail := Stored(detail)), bytes);
      Verified(h, lines + [line]) <==> c.nextSeq == |lines| && c.lastDigest == PrevDigest(lines, |lines|)
  {
    AppendedIsSealed(h, c, at, kind, detail);
    var line := Line(MakeEntry(h, c, at, kind, detail).(detail := Stored(detail)), bytes);
    AppendKeepsVerified(h, lines, line);
    assert PrevDigest(lines + [line], |lines|) == PrevDigest(lines, |lines|);
  }

  lemma {:induction false} NextKeepsVerified(h: Digest, s: Shared, e: Step)
    requires SharedInv(s) && Verified(h, s.lines)
    requires e.Append? && Supported(e.detail) ==> Clean(e.detail)
    ensures Verified(h, Next(h, s, e).lines)
  {
    NextKeepsShared(h, s, e);
    if e.Append? && e.i < |s.caches| && Supported(e.detail) {
      RescannedIsPrevDigest(s.lines);
      AppendedContinues(h, Rescanned(s.lines), s.lines, e.at, e.kind, e.detail, e.bytes + 1);
    }
  }

  lemma {:induction false} VerifiedFrom(h: Digest, s: Shared, es: seq<Step>)
    requires SharedInv(s) && Verified(h, s.lines) && GoodAppends(es)
    ensures Verified(h, Run(h, s, es).lines)
    decreases |es|
  {
    if es != [] {
      NextKeepsShared(h, s, es[0]);
      NextKeepsVerified(h, s, es[0]);
      VerifiedFrom(h, Next(h, s, es[0]), es[1..]);
    }
  }

  /**
   * Any interleaving of openings and locked appends by any number of instances leaves a
   * file that verifies, for every digest, as long as no detail has an `undefined` member.
   */
  lemma {:induction false} AppendsVerify(h: Digest, es: seq<Step>)
    requires GoodAppends(es)
    ensures Verified(h, Run(h, Shared([], []), es).lines)
  {
    VerifiedFrom(h, Shared([], []), es);
  }

  /**
   * One append to a verifying file leaves a verifying file exactly when its detail is
   * clean: an `undefined` member is digested as null but not written.
   */
  lemma {:induction false} AppendVerifiesExactly(h: Digest, es: seq<Step>, e: Step)
    requires CollisionFree(h) && GoodAppends(es)
    requires e.Append? && InDomain(e.detail) && e.i < |Run(h, Shared([], []), es).caches|
    requires |Run(h, Shared([], []), es).lines| <= MAX_SAFE_INTEGER
    ensures Verified(h, Next(h, Run(h, Shared([], []), es), e).lines) <==> Clean(e.detail)
  {
    var s := Run(h, Shared([], []), es);
    AppendsVerify(h, es);
    SharedFrom(h, Shared([], []), es);
    if Clean(e.detail) {
      NextKeepsVerified(h, s, e);
    } else {
      NextKeepsShared(h, s, e);
      DomainIsSupported(e.detail);
      AppendedIsSealedExactly(h, Rescanned(s.lines), e.at, e.kind, e.detail);
      assert !LineOk(h, Next(h, s, e).lines, |s.lines|);
    }
  }

  // ---------------------------------------------------------------------------------
  // Tamper evidence.

  ghost predicate InLogDomain(lines: seq<Line>) {
    |lines| <= MAX_SAFE_INTEGER && forall k :: 0 <= k < |lines| ==> InDomain(lines[k].entry.detail)
  }

  /** The entries agree in every field, details up to member order. */
  ghost predicate SameEntry(a: LogEntry, b: LogEntry) {
    && a.seqNo == b.seqNo && a.at == b.at && a.kind == b.kind && a.prev == b.prev && a.digest == b.digest
    && Supported(a.detail) && Supported(b.detail) && Mean(a.detail) == Mean(b.detail)
  }

  ghost predicate SameEntries(a: seq<Line>, b: seq<Line>) {
    |a| == |b| && forall k :: 0 <= k < |a| ==> SameEntry(a[k].entry, b[k].entry)
  }

  lemma {:induction false} SameDigestSameEntry(h: Digest, a: LogEntry, b: LogEntry)
    requires CollisionFree(h) && Sealed(h, a) && Sealed(h, b) && a.digest == b.digest
    requires InDomain(a.detail) && a.seqNo <= MAX_SAFE_INTEGER
    requires InDomain(b.detail) && b.seqNo <= MAX_SAFE_INTEGER
    ensures SameEntry(a, b)
  {
    SameBodyDigest(h, a, b);
  }

  /** Two verifying logs that end in the same digest are the same log. */
  lemma {:induction false} FinalDigestDeterminesLog(h: Digest, a: seq<Line>, b: seq<Line>)
    requires CollisionFree(h) && Verified(h, a) && Verified(h, b) && InLogDomain(a) && InLogDomain(b)
    requires LastDigest(a) == LastDigest(b)
    ensures SameEntries(a, b)
    decreases |a|
  {
    if a != [] {
      var m, n := |a| - 1, |b| - 1;
      assert LineOk(h, a, m) && LineOk(h, b, n);
      SameDigestSameEntry(h, a[m].entry, b[n].entry);
      VerifiedPrefix(h, a, m);
      VerifiedPrefix(h, b, n);
      FinalDigestDeterminesLog(h, a[..m], b[..n]);
      ExtendSameEntries(a, b);
    }
  }

  lemma {:induction false} ExtendSameEntries(a: seq<Line>, b: seq<Line>)
    requires a != [] && b != [] && SameEntries(a[..|a| - 1], b[..|b| - 1])
    requires SameEntry(a[|a| - 1].entry, b[|b| - 1].entry)
    ensures SameEntries(a, b)
  {
    forall k | 0 <= k < |a| - 1 ensures SameEntry(a[k].entry, b[k].entry) {
      assert a[k] == a[..|a| - 1][k] && b[k] == b[..|b| - 1][k];
    }
  }

  lemma {:induction false} VerifiedPrefix(h: Digest, lines: seq<Line>, n: nat)
    requires n <= |lines| && Verified(h, lines)
    ensures Verified(h, lines[..n]) && LastDigest(lines[..n]) == PrevDigest(lines, n)
  {
    forall k | 0 <= k < n ensures LineOk(h, lines[..n], k) {
      assert LineOk(h, lines, k);
      assert PrevDigest(lines[..n], k) == PrevDigest(lines, k);
    }
  }

  // ---------------------------------------------------------------------------------
  // The constructor's refresh is not locked: it reads the contents and then the size.

  /** What a refresh leaves behind when the file grew from `seen` to `sized` in between. */
  function TornRescan(seen: seq<Line>, sized: seq<Line>): Cache {
    Rescanned(seen).(knownSize := Size(sized))
  }

  /**
   * After a torn refresh, with the file at `lines` by the time of the instance's next append:
   * the log goes on verifying exactly when nothing was appended between the two reads, or
   * something was appended after them, so that the sizes differ and the instance rescans.
   */
  lemma {:induction false} TornRescanIsSafeExactly(
    h: Digest, seen: seq<Line>, sized: seq<Line>, lines: seq<Line>, at: Text, kind: Text, detail: Value, bytes: nat)
    requires seen <= sized <= lines && Verified(h, lines) && Numbered(lines)
    requires Supported(detail) && Clean(detail)
    ensures Verified(h, AppendStep(h, TornRescan(seen, sized), lines, at, kind, detail, bytes).1) <==>
      seen == sized || sized != lines
  {
    var c := TornRescan(seen, sized);
    assert seen == lines[..|seen|] && sized == lines[..|sized|];
    assert Numbered(seen) && Numbered(sized);
    RescannedIsPrevDigest(seen);
    RescannedIsPrevDigest(lines);
    if sized == lines {
      AppendedContinues(h, c, lines, at, kind, detail, bytes);
      assert |seen| == |sized| ==> seen == sized;
    } else {
      SizeGrows(lines, |sized|);
      AppendedContinues(h, Rescanned(lines), lines, at, kind, detail, bytes);
    }
  }
}
