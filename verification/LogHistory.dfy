/**
 * The log is its history (bridge_core/log.ts:127-147): whatever the interleaving of instances,
 * the file holds exactly the accepted appends, in order, each with the fields it was given.
 */
module LogHistory {
  import opened Common
  import opened Canonical
  import opened CanonicalForm
  import opened Stringify
  import opened Log

  /** The object whose canonical text is digested. */
  function Record(seqNo: nat, at: Text, kind: Text, detail: Value, prev: Option<Text>): Value {
    Obj([Entry(Ascii("seq"), Num(seqNo)), Entry(Ascii("at"), Str(at)), Entry(Ascii("kind"), Str(kind)),
         Entry(Ascii("detail"), detail), Entry(Ascii("prev_digest"), if prev.Some? then Str(prev.value) else Null)])
  }

  lemma {:induction false} BodyIsRecord(e: LogEntry)
    ensures Body(e) == Record(e.seqNo, e.at, e.kind, e.detail, e.prev)
  {
    assert Ascii("seq") == SEQ && Ascii("at") == AT && Ascii("kind") == KIND;
    assert Ascii("detail") == DETAIL && Ascii("prev_digest") == PREV;
  }

  /** The appends that write: those of an instance that is open, with a detail the encoder accepts. */
  function Written(instances: nat, es: seq<Step>): seq<Step>
    decreases |es|
  {
    if es == [] then [] else
    match es[0]
    case Open => Written(instances + 1, es[1..])
    case Append(i, _, _, detail, _) =>
      (if i < instances && Supported(detail) then [es[0]] else []) + Written(instances, es[1..])
  }

  /** Line `k` is what this append writes there. */
  ghost predicate LineIs(h: Digest, lines: seq<Line>, k: nat, e: Step)
    requires k < |lines|
  {
    var prev := if k == 0 then None else Some(lines[k - 1].entry.digest);
    var entry := lines[k].entry;
    && e.Append? && Supported(e.detail) && Supported(Record(k, e.at, e.kind, e.detail, prev))
    && entry.seqNo == k && entry.at == e.at && entry.kind == e.kind && entry.prev == prev
    && entry.detail == Stored(e.detail) && lines[k].bytes == e.bytes + 1
    && entry.digest == h(Encode(Record(k, e.at, e.kind, e.detail, prev)))
  }

  /** Whether line `k` is what an append writes there. */
  ghost function Reading(h: Digest, lines: seq<Line>): (nat, Step) -> bool {
    (k: nat, e: Step) => k < |lines| && LineIs(h, lines, k, e)
  }

  /** From line `n` on the lines are those that these appends write. */
  ghost predicate LinesAre(written: (nat, Step) -> bool, n: nat, ws: seq<Step>) {
    forall k :: 0 <= k < |ws| ==> written(n + k, ws[k])
  }

  lemma {:induction false} AppendIs(h: Digest, s: Shared, e: Step)
    requires SharedInv(s) && e.Append? && e.i < |s.caches| && Supported(e.detail)
    ensures var lines := Next(h, s, e).lines;
      |lines| == |s.lines| + 1 && lines[..|s.lines|] == s.lines && LineIs(h, lines, |s.lines|, e)
  {
    NextKeepsShared(h, s, e);
    RescannedIsPrevDigest(s.lines);
    var entry := LogEntry(|s.lines|, e.at, e.kind, e.detail, PrevDigest(s.lines, |s.lines|), []);
    BodyIsRecord(entry);
    assert Supported(Body(entry));
  }

  /** One step writes at most one line, which is the append's. */
  lemma {:induction false} StepIs(h: Digest, s: Shared, e: Step)
    requires SharedInv(s)
    ensures var next := Next(h, s, e);
      && SharedInv(next) && |next.caches| == |s.caches| + (if e.Open? then 1 else 0)
      && (Written(|s.caches|, [e]) == [] ==> next.lines == s.lines)
    ensures var next := Next(h, s, e);
      Written(|s.caches|, [e]) != [] ==>
        && Written(|s.caches|, [e]) == [e]
        && |next.lines| == |s.lines| + 1 && s.lines <= next.lines && Reading(h, next.lines)(|s.lines|, e)
  {
    NextKeepsShared(h, s, e);
    assert [e][1..] == [];
    if e.Append? && e.i < |s.caches| && Supported(e.detail) {
      AppendIs(h, s, e);
    }
  }

  lemma {:induction false} RunKeepsLines(h: Digest, s: Shared, es: seq<Step>)
    requires SharedInv(s)
    ensures s.lines <= Run(h, s, es).lines
    decreases |es|
  {
    if es != [] {
      StepIs(h, s, es[0]);
      RunKeepsLines(h, Next(h, s, es[0]), es[1..]);
    }
  }

  lemma {:induction false} LineStays(h: Digest, lines: seq<Line>, more: seq<Line>, k: nat, e: Step)
    requires lines <= more && Reading(h, lines)(k, e)
    ensures Reading(h, more)(k, e)
  {
  }

  lemma {:induction false} WrittenSplits(instances: nat, e: Step, es: seq<Step>)
    ensures Written(instances, [e] + es)
      == Written(instances, [e]) + Written(instances + (if e.Open? then 1 else 0), es)
  {
    assert ([e] + es)[1..] == es && [e][1..] == [];
  }

  lemma {:induction false} HistoryFrom(h: Digest, s: Shared, es: seq<Step>)
    requires SharedInv(s)
    ensures var lines, ws := Run(h, s, es).lines, Written(|s.caches|, es);
      |lines| == |s.lines| + |ws| && LinesAre(Reading(h, lines), |s.lines|, ws)
    decreases |es|
  {
    if es != [] {
      var next, rest, lines := Next(h, s, es[0]), es[1..], Run(h, s, es).lines;
      StepIs(h, s, es[0]);
      HistoryFrom(h, next, rest);
      assert es == [es[0]] + rest;
      WrittenSplits(|s.caches|, es[0], rest);
      var first, later := Written(|s.caches|, [es[0]]), Written(|next.caches|, rest);
      if first == [] {
        assert first + later == later;
      } else {
        RunKeepsLines(h, next, rest);
        LineStays(h, next.lines, lines, |s.lines|, es[0]);
        FirstThenRest(Reading(h, lines), |s.lines|, es[0], later);
      }
    }
  }

  lemma {:induction false} FirstThenRest(written: (nat, Step) -> bool, n: nat, e: Step, ws: seq<Step>)
    requires written(n, e) && LinesAre(written, n + 1, ws)
    ensures LinesAre(written, n, [e] + ws)
  {
    forall k | 0 <= k < |ws| + 1 ensures written(n + k, ([e] + ws)[k]) {
      if k > 0 {
        assert written(n + 1 + (k - 1), ws[k - 1]);
      }
    }
  }

  /**
   * The log is its history: after any interleaving of openings and locked appends, line `k`
   * holds the time, kind and (as JSON writes it) detail of the `k`-th accepted append under
   * number `k`, chained to the line before by its digest, which is taken over exactly these
   * fields; there are no other lines.
   */
  lemma {:induction false} LogIsHistory(h: Digest, es: seq<Step>)
    ensures var lines, ws := Run(h, Shared([], []), es).lines, Written(0, es);
      |lines| == |ws| && forall k :: 0 <= k < |ws| ==> LineIs(h, lines, k, ws[k])
  {
    HistoryFrom(h, Shared([], []), es);
    var lines, ws := Run(h, Shared([], []), es).lines, Written(0, es);
    forall k | 0 <= k < |ws| ensures LineIs(h, lines, k, ws[k]) {
      assert Reading(h, lines)(0 + k, ws[k]);
    }
  }
}
