/**
 * The bounded replay window for lossy observations (fasp_harness/protocol/volatile.py).
 * The expiry heap is represented by its entries in expiry order.
 */
module Volatile {
  import opened Common

  type Id = string

  type Content = string

  datatype Entry = Entry(content: Content, response: string)

  datatype Due = Due(at: real, id: Id)

  datatype Window = Window(entries: map<Id, Entry>, expiry: seq<Due>)

  /** One call; `outcome` is what the handler would return, `None` when it raises. */
  datatype Call = Call(id: Id, content: Content, expiresAt: real, now: real, outcome: Option<string>)

  datatype Answer = Handled(response: string) | Duplicate(response: string) | Expired | Conflict | Exhausted | Raised

  function Empty(): Window { Window(map[], []) }

  function Pop(w: Window): Window
    requires w.expiry != []
  {
    Window(w.entries - {w.expiry[0].id}, w.expiry[1..])
  }

  function Purged(w: Window, now: real): Window
    decreases |w.expiry|
  {
    if w.expiry != [] && w.expiry[0].at <= now then Purged(Pop(w), now) else w
  }

  function Inserted(q: seq<Due>, d: Due): seq<Due> {
    if q == [] then [d] else if d.at < q[0].at then [d] + q else [q[0]] + Inserted(q[1..], d)
  }

  /** What a call is told, given the purged window. */
  function AnswerOf(capacity: nat, w: Window, c: Call): Answer {
    if c.expiresAt <= c.now then Expired
    else if c.id in w.entries then
      (if w.entries[c.id].content != c.content then Conflict else Duplicate(w.entries[c.id].response))
    else if |w.entries| >= capacity then Exhausted
    else if c.outcome.None? then Raised
    else Handled(c.outcome.value)
  }

  function Remember(w: Window, c: Call, response: string): Window {
    Window(w.entries[c.id := Entry(c.content, response)], Inserted(w.expiry, Due(c.expiresAt, c.id)))
  }

  function AcceptStep(capacity: nat, w: Window, c: Call): (Window, Answer) {
    var p := Purged(w, c.now);
    var a := AnswerOf(capacity, p, c);
    (if a.Handled? then Remember(p, c, a.response) else p, a)
  }

  class VolatileInbox {
    const capacity: nat
    var entries: map<Id, Entry>
    var expiry: seq<Due>

    ghost function View(): Window
      reads this
    {
      Window(entries, expiry)
    }

    constructor (capacity: nat)
      requires capacity >= 1
      ensures this.capacity == capacity && View() == Empty()
    {
      this.capacity, entries, expiry := capacity, map[], [];
    }

    method Accept(c: Call) returns (a: Answer)
      modifies this
      ensures (View(), a) == AcceptStep(capacity, old(View()), c)
    {
      while expiry != [] && expiry[0].at <= c.now
        invariant Purged(View(), c.now) == Purged(old(View()), c.now)
        decreases |expiry|
      {
        var id := expiry[0].id;
        expiry := expiry[1..];
        entries := entries - {id};
      }
      if c.expiresAt <= c.now { return Expired; }
      if c.id in entries {
        if entries[c.id].content != c.content { return Conflict; }
        return Duplicate(entries[c.id].response);
      }
      if |entries| >= capacity { return Exhausted; }
      if c.outcome.None? { return Raised; }
      entries := entries[c.id := Entry(c.content, c.outcome.value)];
      expiry := Inserted(expiry, Due(c.expiresAt, c.id));
      return Handled(c.outcome.value);
    }
  }

  // ---------------------------------------------------------------------------------
  // The dictionary and the heap agree.

  ghost predicate Sorted(q: seq<Due>) { forall i, j :: 0 <= i < j < |q| ==> q[i].at <= q[j].at }

  ghost predicate OnceEach(q: seq<Due>) { forall i, j :: 0 <= i < j < |q| ==> q[i].id != q[j].id }

  ghost predicate Scheduled(q: seq<Due>, id: Id) { exists i :: 0 <= i < |q| && q[i].id == id }

  ghost predicate Agree(w: Window) {
    && Sorted(w.expiry) && OnceEach(w.expiry)
    && (forall id :: id in w.entries <==> Scheduled(w.expiry, id))
  }

  /** Also: as many entries as dates, and no more than the capacity. */
  ghost predicate Valid(capacity: nat, w: Window) { Agree(w) && |w.entries| == |w.expiry| && |w.entries| <= capacity }

  lemma {:induction false} PopAgrees(w: Window)
    requires Agree(w) && w.expiry != []
    ensures Agree(Pop(w)) && |Pop(w).entries| == |w.entries| - 1
    ensures forall d :: d in Pop(w).expiry <==> d in w.expiry && d != w.expiry[0]
  {
    var p, first := Pop(w), w.expiry[0];
    assert Scheduled(w.expiry, first.id);
    assert p.entries.Keys == w.entries.Keys - {first.id};
    forall id ensures id in p.entries <==> Scheduled(p.expiry, id) {
      if Scheduled(p.expiry, id) {
        var i :| 0 <= i < |p.expiry| && p.expiry[i].id == id;
        assert w.expiry[i + 1].id == id;
      }
      if id in p.entries {
        var i :| 0 <= i < |w.expiry| && w.expiry[i].id == id;
        assert p.expiry[i - 1].id == id;
      }
    }
  }

  /** The purge drops exactly what is due and keeps every other entry as it was. */
  lemma {:induction false} PurgeIsExact(w: Window, now: real)
    requires Agree(w) && |w.entries| == |w.expiry|
    ensures var p := Purged(w, now);
      && Agree(p) && |p.entries| == |p.expiry| <= |w.entries|
      && (forall d :: d in p.expiry <==> d in w.expiry && d.at > now)
      && (forall id :: id in p.entries ==> id in w.entries && p.entries[id] == w.entries[id])
    decreases |w.expiry|
  {
    if w.expiry != [] && w.expiry[0].at <= now {
      PopAgrees(w);
      PurgeIsExact(Pop(w), now);
    }
  }

  lemma {:induction false} InsertedIs(q: seq<Due>, d: Due)
    ensures |Inserted(q, d)| == |q| + 1
    ensures forall x :: x in Inserted(q, d) <==> x in q || x == d
  {
    if q != [] && q[0].at <= d.at {
      InsertedIs(q[1..], d);
      assert forall x :: x in q <==> x == q[0] || x in q[1..];
    }
  }

  lemma {:induction false} InsertedSorted(q: seq<Due>, d: Due)
    requires Sorted(q)
    ensures Sorted(Inserted(q, d))
  {
    if q != [] && q[0].at <= d.at {
      InsertedSorted(q[1..], d);
      InsertedIs(q[1..], d);
      var r := Inserted(q[1..], d);
      forall j | 0 <= j < |r| ensures q[0].at <= r[j].at {
        assert r[j] in r;
        assert r[j] in q[1..] || r[j] == d;
      }
    }
  }

  lemma {:induction false} InsertedOnceEach(q: seq<Due>, d: Due)
    requires OnceEach(q) && !Scheduled(q, d.id)
    ensures OnceEach(Inserted(q, d))
  {
    if q != [] {
      assert q[0].id != d.id;
      if q[0].at <= d.at {
        var rest := q[1..];
        assert forall i :: 0 <= i < |rest| ==> rest[i] == q[i + 1];
        InsertedOnceEach(rest, d);
        InsertedIs(rest, d);
        var r := Inserted(rest, d);
        forall j | 0 <= j < |r| ensures q[0].id != r[j].id {
          assert r[j] in r;
        }
      }
    }
  }

  lemma {:induction false} RememberAgrees(w: Window, c: Call, response: string)
    requires Agree(w) && |w.entries| == |w.expiry| && c.id !in w.entries
    ensures var r := Remember(w, c, response); Agree(r) && |r.entries| == |r.expiry| == |w.entries| + 1
  {
    var d, r := Due(c.expiresAt, c.id), Remember(w, c, response);
    InsertedIs(w.expiry, d);
    InsertedSorted(w.expiry, d);
    InsertedOnceEach(w.expiry, d);
    assert r.entries.Keys == w.entries.Keys + {c.id};
    forall id ensures id in r.entries <==> Scheduled(r.expiry, id) {
      if Scheduled(r.expiry, id) {
        var i :| 0 <= i < |r.expiry| && r.expiry[i].id == id;
        assert r.expiry[i] in r.expiry;
        if r.expiry[i] != d {
          var j :| 0 <= j < |w.expiry| && w.expiry[j] == r.expiry[i];
        }
      }
      if id in r.entries {
        InsertedKeepsSchedule(w.expiry, d, id);
      }
    }
  }

  lemma {:induction false} InsertedKeepsSchedule(q: seq<Due>, d: Due, id: Id)
    requires Scheduled(q, id) || d.id == id
    ensures Scheduled(Inserted(q, d), id)
  {
    InsertedIs(q, d);
    var x := d;
    if d.id != id {
      var i :| 0 <= i < |q| && q[i].id == id;
      x := q[i];
    }
    assert x in Inserted(q, d);
  }

  lemma {:induction false} AcceptKeepsValid(capacity: nat, w: Window, c: Call)
    requires Valid(capacity, w)
    ensures Valid(capacity, AcceptStep(capacity, w, c).0)
  {
    PurgeIsExact(w, c.now);
    if AnswerOf(capacity, Purged(w, c.now), c).Handled? {
      AnsweredIsValid(capacity, Purged(w, c.now), c);
    }
  }

  lemma {:induction false} AnsweredIsValid(capacity: nat, p: Window, c: Call)
    requires Valid(capacity, p) && AnswerOf(capacity, p, c).Handled?
    ensures Valid(capacity, Remember(p, c, AnswerOf(capacity, p, c).response))
  {
    RememberAgrees(p, c, AnswerOf(capacity, p, c).response);
  }

  // ---------------------------------------------------------------------------------
  // Runs.

  function Run(capacity: nat, calls: seq<Call>): Window {
    if calls == [] then Empty()
    else AcceptStep(capacity, Run(capacity, calls[..|calls| - 1]), calls[|calls| - 1]).0
  }

  function AnswerAt(capacity: nat, calls: seq<Call>, k: nat): Answer
    requires k < |calls|
  {
    AcceptStep(capacity, Run(capacity, calls[..k]), calls[k]).1
  }

  lemma {:induction false} RunIsValid(capacity: nat, calls: seq<Call>)
    ensures Valid(capacity, Run(capacity, calls))
  {
    if calls != [] {
      RunIsValid(capacity, calls[..|calls| - 1]);
      AcceptKeepsValid(capacity, Run(capacity, calls[..|calls| - 1]), calls[|calls| - 1]);
    }
  }

  lemma {:induction false} RunStep(capacity: nat, calls: seq<Call>, k: nat)
    requires k < |calls|
    ensures Run(capacity, calls[..k + 1]) == AcceptStep(capacity, Run(capacity, calls[..k]), calls[k]).0
  {
    assert calls[..k + 1][..k] == calls[..k];
  }

  /** The window remembers this message and when it may be forgotten. */
  ghost predicate Holds(w: Window, d: Due, e: Entry) {
    d in w.expiry && d.id in w.entries && w.entries[d.id] == e
  }

  /** An entry that has not expired is never evicted or changed, however full the window is. */
  lemma {:induction false} UnexpiredStays(capacity: nat, w: Window, c: Call, d: Due, e: Entry)
    requires Valid(capacity, w) && Holds(w, d, e) && c.now < d.at
    ensures Holds(AcceptStep(capacity, w, c).0, d, e)
  {
    PurgeHolds(w, c.now, d, e);
    var p := Purged(w, c.now);
    if AnswerOf(capacity, p, c).Handled? {
      RememberHolds(p, c, AnswerOf(capacity, p, c).response, d, e);
    }
  }

  lemma {:induction false} PurgeHolds(w: Window, now: real, d: Due, e: Entry)
    requires Agree(w) && |w.entries| == |w.expiry| && Holds(w, d, e) && now < d.at
    ensures Holds(Purged(w, now), d, e)
  {
    PurgeIsExact(w, now);
    var p := Purged(w, now);
    assert d in p.expiry;
    var i :| 0 <= i < |p.expiry| && p.expiry[i] == d;
    assert Scheduled(p.expiry, d.id);
  }

  lemma {:induction false} RememberHolds(w: Window, c: Call, response: string, d: Due, e: Entry)
    requires Holds(w, d, e) && c.id !in w.entries
    ensures Holds(Remember(w, c, response), d, e)
  {
    InsertedIs(w.expiry, Due(c.expiresAt, c.id));
  }

  lemma {:induction false} HandledIsHeld(capacity: nat, w: Window, c: Call)
    requires Valid(capacity, w) && AcceptStep(capacity, w, c).1.Handled?
    ensures c.expiresAt > c.now
    ensures Holds(AcceptStep(capacity, w, c).0, Due(c.expiresAt, c.id), Entry(c.content, AcceptStep(capacity, w, c).1.response))
  {
    InsertedIs(Purged(w, c.now).expiry, Due(c.expiresAt, c.id));
  }

  /** What is held stays held while every clock reading is before its expiry. */
  lemma {:induction false} HeldOn(capacity: nat, calls: seq<Call>, i: nat, j: nat, d: Due, e: Entry)
    requires i <= j <= |calls| && Holds(Run(capacity, calls[..i]), d, e)
    requires forall k :: i <= k < j ==> calls[k].now < d.at
    ensures Holds(Run(capacity, calls[..j]), d, e)
    decreases j
  {
    if i < j {
      HeldOn(capacity, calls, i, j - 1, d, e);
      HeldStep(capacity, calls, j - 1, d, e);
    }
  }

  lemma {:induction false} HeldStep(capacity: nat, calls: seq<Call>, k: nat, d: Due, e: Entry)
    requires k < |calls| && Holds(Run(capacity, calls[..k]), d, e) && calls[k].now < d.at
    ensures Holds(Run(capacity, calls[..k + 1]), d, e)
  {
    RunIsValid(capacity, calls[..k]);
    RunStep(capacity, calls, k);
    UnexpiredStays(capacity, Run(capacity, calls[..k]), calls[k], d, e);
  }

  function DueOf(c: Call): Due { Due(c.expiresAt, c.id) }

  function EntryAt(capacity: nat, calls: seq<Call>, i: nat): Entry
    requires i < |calls| && AnswerAt(capacity, calls, i).Handled?
  {
    Entry(calls[i].content, AnswerAt(capacity, calls, i).response)
  }

  lemma {:induction false} HeldAtOnce(capacity: nat, calls: seq<Call>, i: nat)
    requires i < |calls| && AnswerAt(capacity, calls, i).Handled?
    ensures Holds(Run(capacity, calls[..i + 1]), DueOf(calls[i]), EntryAt(capacity, calls, i))
  {
    RunIsValid(capacity, calls[..i]);
    RunStep(capacity, calls, i);
    HandledIsHeld(capacity, Run(capacity, calls[..i]), calls[i]);
  }

  /** From the call that handled it, a message is held while every clock reading is before its expiry. */
  lemma {:induction false} HeldUntilExpiry(capacity: nat, calls: seq<Call>, i: nat, j: nat)
    requires i < j <= |calls| && AnswerAt(capacity, calls, i).Handled?
    requires forall k :: i < k < j ==> calls[k].now < calls[i].expiresAt
    ensures Holds(Run(capacity, calls[..j]), DueOf(calls[i]), EntryAt(capacity, calls, i))
  {
    HeldAtOnce(capacity, calls, i);
    HeldOn(capacity, calls, i + 1, j, DueOf(calls[i]), EntryAt(capacity, calls, i));
  }

  lemma {:induction false} HeldAnswers(capacity: nat, w: Window, d: Due, e: Entry, c: Call)
    requires Valid(capacity, w) && Holds(w, d, e) && c.id == d.id && c.now < d.at
    ensures AcceptStep(capacity, w, c).1 ==
      (if c.expiresAt <= c.now then Expired else if c.content != e.content then Conflict else Duplicate(e.response))
  {
    PurgeHolds(w, c.now, d, e);
  }

  ghost predicate ClockAdvances(calls: seq<Call>) {
    forall i, j :: 0 <= i < j < |calls| ==> calls[i].now <= calls[j].now
  }

  /**
   * With a clock that does not go back, whatever arrives under an id that was handled gets,
   * until that message's expiry, the recorded response if the content is the same and a
   * refusal if it is not; so a second success under the same id comes only after the expiry.
   */
  lemma {:induction false} ReplayWindow(capacity: nat, calls: seq<Call>, i: nat, j: nat)
    requires ClockAdvances(calls) && i < j < |calls| && calls[i].id == calls[j].id
    requires AnswerAt(capacity, calls, i).Handled?
    ensures calls[j].now < calls[i].expiresAt ==>
      AnswerAt(capacity, calls, j) ==
        (if calls[j].expiresAt <= calls[j].now then Expired
         else if calls[j].content != calls[i].content then Conflict
         else Duplicate(AnswerAt(capacity, calls, i).response))
    ensures AnswerAt(capacity, calls, j).Handled? ==> calls[i].expiresAt <= calls[j].now < calls[j].expiresAt
  {
    if calls[j].now < calls[i].expiresAt {
      HeldUntilExpiry(capacity, calls, i, j);
      RunIsValid(capacity, calls[..j]);
      HeldAnswers(capacity, Run(capacity, calls[..j]), DueOf(calls[i]), EntryAt(capacity, calls, i), calls[j]);
    }
  }

  // ---------------------------------------------------------------------------------
  // Any clock: when exactly an id is handled again.

  lemma {:induction false} PurgeDropsDue(w: Window, now: real, d: Due, e: Entry)
    requires Agree(w) && |w.entries| == |w.expiry| && Holds(w, d, e) && d.at <= now
    ensures d.id !in Purged(w, now).entries
  {
    PurgeIsExact(w, now);
    var p := Purged(w, now);
    if Scheduled(p.expiry, d.id) {
      var i :| 0 <= i < |p.expiry| && p.expiry[i].id == d.id;
      assert p.expiry[i] in p.expiry;
      SameIdSameDue(w.expiry, d, p.expiry[i]);
    }
  }

  lemma {:induction false} SameIdSameDue(q: seq<Due>, a: Due, b: Due)
    requires OnceEach(q) && a in q && b in q && a.id == b.id
    ensures a == b
  {
    var i :| 0 <= i < |q| && q[i] == a;
    var j :| 0 <= j < |q| && q[j] == b;
    assert !(i < j) && !(j < i);
  }

  /** What a call under another outcome does to an id: forgotten once due, and not remembered again. */
  lemma {:induction false} CallForgets(capacity: nat, w: Window, c: Call, d: Due, e: Entry)
    requires Valid(capacity, w) && (Holds(w, d, e) || d.id !in w.entries)
    requires !(c.id == d.id && AcceptStep(capacity, w, c).1.Handled?)
    ensures var after := AcceptStep(capacity, w, c).0;
      if Holds(w, d, e) && c.now < d.at then Holds(after, d, e) else d.id !in after.entries
  {
    PurgeIsExact(w, c.now);
    if Holds(w, d, e) {
      if c.now < d.at {
        UnexpiredStays(capacity, w, c, d, e);
      } else {
        PurgeDropsDue(w, c.now, d, e);
      }
    }
  }

  ghost predicate NoneHandled(capacity: nat, calls: seq<Call>, i: nat, j: nat, id: Id)
    requires i <= j <= |calls|
  {
    forall k :: i <= k < j ==> NotHandled(capacity, calls, k, id)
  }

  ghost predicate NotHandled(capacity: nat, calls: seq<Call>, k: int, id: Id)
    requires 0 <= k < |calls|
  {
    !(calls[k].id == id && AnswerAt(capacity, calls, k).Handled?)
  }

  ghost predicate AllBefore(calls: seq<Call>, i: nat, j: nat, at: real)
    requires i <= j <= |calls|
  {
    forall k :: i <= k < j ==> calls[k].now < at
  }

  lemma {:induction false} ForgottenStep(capacity: nat, calls: seq<Call>, k: nat, d: Due, e: Entry)
    requires k < |calls| && NotHandled(capacity, calls, k, d.id)
    requires Holds(Run(capacity, calls[..k]), d, e) || d.id !in Run(capacity, calls[..k]).entries
    ensures var w, after := Run(capacity, calls[..k]), Run(capacity, calls[..k + 1]);
      if Holds(w, d, e) && calls[k].now < d.at then Holds(after, d, e) else d.id !in after.entries
  {
    RunIsValid(capacity, calls[..k]);
    RunStep(capacity, calls, k);
    CallForgets(capacity, Run(capacity, calls[..k]), calls[k], d, e);
  }

  lemma {:induction false} FreeStep(capacity: nat, calls: seq<Call>, k: nat, id: Id)
    requires k < |calls| && NotHandled(capacity, calls, k, id) && id !in Run(capacity, calls[..k]).entries
    ensures id !in Run(capacity, calls[..k + 1]).entries
  {
    RunIsValid(capacity, calls[..k]);
    RunStep(capacity, calls, k);
    PurgeIsExact(Run(capacity, calls[..k]), calls[k].now);
  }

  /** Once forgotten, an id stays forgotten until something is handled under it. */
  lemma {:induction false} FreeOn(capacity: nat, calls: seq<Call>, i: nat, j: nat, id: Id)
    requires i <= j <= |calls| && id !in Run(capacity, calls[..i]).entries && NoneHandled(capacity, calls, i, j, id)
    ensures id !in Run(capacity, calls[..j]).entries
    decreases j - i
  {
    if i < j {
      FreeStep(capacity, calls, i, id);
      FreeOn(capacity, calls, i + 1, j, id);
    }
  }

  /** A held message is forgotten at the first reading at or past its expiry. */
  lemma {:induction false} ForgottenOn(capacity: nat, calls: seq<Call>, i: nat, k: nat, j: nat, d: Due, e: Entry)
    requires i <= k < j <= |calls| && Holds(Run(capacity, calls[..i]), d, e) && NoneHandled(capacity, calls, i, j, d.id)
    requires AllBefore(calls, i, k, d.at) && calls[k].now >= d.at
    ensures d.id !in Run(capacity, calls[..j]).entries
  {
    HeldOn(capacity, calls, i, k, d, e);
    ForgottenStep(capacity, calls, k, d, e);
    FreeOn(capacity, calls, k + 1, j, d.id);
  }

  lemma {:induction false} FirstReading(calls: seq<Call>, i: nat, j: nat, at: real) returns (k: nat)
    requires i <= j <= |calls| && !AllBefore(calls, i, j, at)
    ensures i <= k < j && AllBefore(calls, i, k, at) && calls[k].now >= at
    decreases j
  {
    if AllBefore(calls, i, j - 1, at) {
      k := j - 1;
    } else {
      k := FirstReading(calls, i, j - 1, at);
    }
  }

  /** Whether a call finds its id free, and the window with room. */
  ghost predicate FindsRoom(capacity: nat, calls: seq<Call>, j: nat)
    requires j < |calls|
  {
    |Purged(Run(capacity, calls[..j]), calls[j].now).entries| < capacity
  }

  lemma {:induction false} FreeAgainExactly(capacity: nat, w: Window, c: Call)
    requires c.id !in Purged(w, c.now).entries
    ensures AcceptStep(capacity, w, c).1.Handled? <==>
      c.now < c.expiresAt && |Purged(w, c.now).entries| < capacity && c.outcome.Some?
  {
  }

  lemma {:induction false} StaysFree(capacity: nat, w: Window, id: Id, now: real)
    requires Valid(capacity, w) && id !in w.entries
    ensures id !in Purged(w, now).entries
  {
    PurgeIsExact(w, now);
  }

  /** A call that comes after a reading at or past the expiry finds the id free. */
  lemma {:induction false} FreeAtCall(capacity: nat, calls: seq<Call>, i: nat, j: nat, d: Due, e: Entry)
    requires i <= j < |calls| && Holds(Run(capacity, calls[..i]), d, e) && NoneHandled(capacity, calls, i, j, d.id)
    requires !AllBefore(calls, i, j + 1, d.at)
    ensures d.id !in Purged(Run(capacity, calls[..j]), calls[j].now).entries
  {
    var w := Run(capacity, calls[..j]);
    RunIsValid(capacity, calls[..j]);
    if AllBefore(calls, i, j, d.at) {
      HeldOn(capacity, calls, i, j, d, e);
      PurgeDropsDue(w, calls[j].now, d, e);
    } else {
      var k := FirstReading(calls, i, j, d.at);
      ForgottenOn(capacity, calls, i, k, j, d, e);
      StaysFree(capacity, w, d.id, calls[j].now);
    }
  }

  lemma {:induction false} NotAgainWhileHeld(capacity: nat, calls: seq<Call>, i: nat, j: nat, d: Due, e: Entry)
    requires i <= j < |calls| && Holds(Run(capacity, calls[..i]), d, e) && calls[j].id == d.id
    requires AllBefore(calls, i, j + 1, d.at)
    ensures !AnswerAt(capacity, calls, j).Handled?
  {
    RunIsValid(capacity, calls[..j]);
    HeldOn(capacity, calls, i, j, d, e);
    HeldAnswers(capacity, Run(capacity, calls[..j]), d, e, calls[j]);
  }

  /**
   * Exactly when an id is handled again, on any clock: with nothing else handled under it in
   * between, the later call succeeds if and only if it has not expired, some reading from
   * after the first call up to its own was at or past the first message's expiry, there is
   * room, and its handler succeeds.
   */
  lemma {:induction false} HandledAgainExactly(capacity: nat, calls: seq<Call>, i: nat, j: nat)
    requires i < j < |calls| && calls[i].id == calls[j].id && AnswerAt(capacity, calls, i).Handled?
    requires NoneHandled(capacity, calls, i + 1, j, calls[i].id)
    ensures AnswerAt(capacity, calls, j).Handled? <==>
      && calls[j].now < calls[j].expiresAt && !AllBefore(calls, i + 1, j + 1, calls[i].expiresAt)
      && FindsRoom(capacity, calls, j) && calls[j].outcome.Some?
  {
    var d, e := DueOf(calls[i]), EntryAt(capacity, calls, i);
    HeldAtOnce(capacity, calls, i);
    if AllBefore(calls, i + 1, j + 1, d.at) {
      NotAgainWhileHeld(capacity, calls, i + 1, j, d, e);
    } else {
      FreeAtCall(capacity, calls, i + 1, j, d, e);
      FreeAgainExactly(capacity, Run(capacity, calls[..j]), calls[j]);
    }
  }

  /**
   * A message is handled twice only if the clock was read at or past its expiry in between
   * and then before it again.
   */
  lemma {:induction false} RepeatNeedsRewind(capacity: nat, calls: seq<Call>, i: nat, j: nat)
    requires i < j < |calls| && calls[i].id == calls[j].id && calls[i].expiresAt == calls[j].expiresAt
    requires AnswerAt(capacity, calls, i).Handled? && AnswerAt(capacity, calls, j).Handled?
    ensures exists k :: i < k < j && calls[k].now >= calls[i].expiresAt > calls[j].now
  {
    RunIsValid(capacity, calls[..j]);
    HandledIsHeld(capacity, Run(capacity, calls[..j]), calls[j]);
    if AllBefore(calls, i + 1, j, calls[i].expiresAt) {
      HeldUntilExpiry(capacity, calls, i, j);
      HeldAnswers(capacity, Run(capacity, calls[..j]), DueOf(calls[i]), EntryAt(capacity, calls, i), calls[j]);
    }
  }

  /** The expiry is part of the signed content. */
  ghost predicate ExpiryFixed(calls: seq<Call>) {
    forall i, j :: 0 <= i < |calls| && 0 <= j < |calls| && calls[i].content == calls[j].content ==>
      calls[i].expiresAt == calls[j].expiresAt
  }

  /** Each message's handler completes successfully at most once over the whole run. */
  lemma {:induction false} AtMostOnce(capacity: nat, calls: seq<Call>, i: nat, j: nat)
    requires ClockAdvances(calls) && ExpiryFixed(calls) && i < |calls| && j < |calls|
    requires calls[i].id == calls[j].id && calls[i].content == calls[j].content
    requires AnswerAt(capacity, calls, i).Handled? && AnswerAt(capacity, calls, j).Handled?
    ensures i == j
  {
    if i < j {
      RepeatNeedsRewind(capacity, calls, i, j);
    } else if j < i {
      RepeatNeedsRewind(capacity, calls, j, i);
    }
  }

  /** A message, its first delivery, some other call after its expiry, and a delivery on a clock gone back. */
  function Rewound(): seq<Call> {
    [Call("m", "x", 2.0, 0.0, Some("ok")), Call("other", "y", 9.0, 3.0, None), Call("m", "x", 2.0, 1.0, Some("ok"))]
  }

  lemma {:induction false} RewoundWindows()
    ensures Run(1, Rewound()[..0]) == Empty()
    ensures Run(1, Rewound()[..1]) == Window(map["m" := Entry("x", "ok")], [Due(2.0, "m")])
  {
    RunStep(1, Rewound(), 0);
    assert Rewound()[..0] == [];
    assert Purged(Empty(), 0.0) == Empty();
  }

  lemma {:induction false} RewoundForgets()
    ensures Run(1, Rewound()[..2]) == Empty()
  {
    RewoundWindows();
    RunStep(1, Rewound(), 1);
    var w := Run(1, Rewound()[..1]);
    assert Pop(w) == Empty();
    assert Purged(w, 3.0) == Purged(Pop(w), 3.0) == Empty();
  }

  /** A clock that goes back lets a message through twice. */
  lemma {:induction false} BackwardClockReplays()
    ensures ExpiryFixed(Rewound()) && !ClockAdvances(Rewound())
    ensures AnswerAt(1, Rewound(), 0).Handled? && AnswerAt(1, Rewound(), 2).Handled?
  {
    RewoundWindows();
    RewoundForgets();
    assert Rewound()[1].now > Rewound()[2].now;
    assert Purged(Empty(), 0.0) == Empty() && Purged(Empty(), 1.0) == Empty();
  }
}
