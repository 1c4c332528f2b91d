/**
 * What plain data become when they are written with `JSON.stringify` and read back
 * (bridge_core/log.ts:141, bridge_core/fsjson.ts:38-44): members whose value is `undefined`
 * are left out and `undefined` items become null.
 */
module Stringify {
  import opened Common
  import opened Canonical
  import opened CanonicalTheory

  function Stored(v: Value): Value
    decreases v, 0
  {
    match v
    case Undefined => Null
    case Arr(items) => Arr(StoredItems(items))
    case Obj(members) => Obj(StoredMembers(members))
    case _ => v
  }

  function StoredItems(items: seq<Value>): (r: seq<Value>)
    ensures |r| == |items| && forall i :: 0 <= i < |items| ==> r[i] == Stored(items[i])
    decreases items, 1
  {
    if items == [] then [] else [Stored(items[0])] + StoredItems(items[1..])
  }

  function StoredMembers(members: seq<Entry<Value>>): seq<Entry<Value>>
    decreases members, 1
  {
    if members == [] then []
    else if members[0].value.Undefined? then StoredMembers(members[1..])
    else [Entry(members[0].key, Stored(members[0].value))] + StoredMembers(members[1..])
  }

  /** No object anywhere in the value has a member that is `undefined`. */
  predicate Clean(v: Value) {
    match v
    case Arr(items) => forall i :: 0 <= i < |items| ==> Clean(items[i])
    case Obj(members) =>
      forall i :: 0 <= i < |members| ==> !members[i].value.Undefined? && Clean(members[i].value)
    case _ => true
  }

  predicate CleanMembers(members: seq<Entry<Value>>) {
    forall i :: 0 <= i < |members| ==> !members[i].value.Undefined? && Clean(members[i].value)
  }

  // ---------------------------------------------------------------------------------
  // When nothing is lost.

  lemma {:induction false} CleanMembersStay(members: seq<Entry<Value>>)
    requires forall i :: 0 <= i < |members| ==> !members[i].value.Undefined?
    ensures |StoredMembers(members)| == |members|
    ensures forall i :: 0 <= i < |members| ==>
      StoredMembers(members)[i] == Entry(members[i].key, Stored(members[i].value))
  {
    if members != [] {
      CleanMembersStay(members[1..]);
    }
  }

  /**
   * Member by member, in order: an `undefined` one is left out, any other keeps its key and
   * has its value written; lists keep their length; whatever has no parts stays as it is.
   */
  lemma {:induction false} WrittenMemberByMember(v: Value, a: seq<Entry<Value>>, b: seq<Entry<Value>>, m: Entry<Value>)
    ensures Stored(Obj(a + b)) == Obj(Stored(Obj(a)).members + Stored(Obj(b)).members)
    ensures Stored(Obj([m])) == Obj(if m.value.Undefined? then [] else [Entry(m.key, Stored(m.value))])
    ensures v.Arr? ==> Stored(v).Arr? && |Stored(v).items| == |v.items|
                       && forall i :: 0 <= i < |v.items| ==> Stored(v).items[i] == Stored(v.items[i])
    ensures !v.Undefined? && !v.Arr? && !v.Obj? ==> Stored(v) == v
    ensures Stored(Undefined) == Null
  {
    StoredAppend(a, b);
    assert [m][1..] == [] && StoredMembers([m][1..]) == [];
    assert StoredMembers([m]) == if m.value.Undefined? then [] else [Entry(m.key, Stored(m.value))];
  }

  lemma {:induction false} StoredAppend(a: seq<Entry<Value>>, b: seq<Entry<Value>>)
    ensures StoredMembers(a + b) == StoredMembers(a) + StoredMembers(b)
    decreases |a|
  {
    if a == [] {
      assert a + b == b;
    } else {
      StoredAppend(a[1..], b);
      assert (a + b)[1..] == a[1..] + b && (a + b)[0] == a[0];
    }
  }

  lemma {:induction false} StoredIsSupported(v: Value)
    requires Supported(v)
    ensures Supported(Stored(v))
    decreases v, 2
  {
    match v
    case Arr(items) =>
      forall i | 0 <= i < |items| ensures Supported(Stored(items[i])) { StoredIsSupported(items[i]); }
    case Obj(members) => StoredMembersAreSupported(members);
    case _ =>
  }

  lemma {:induction false} StoredMembersAreSupported(members: seq<Entry<Value>>)
    requires forall i :: 0 <= i < |members| ==> Supported(members[i].value)
    ensures forall i :: 0 <= i < |StoredMembers(members)| ==> Supported(StoredMembers(members)[i].value)
    ensures Keys(StoredMembers(members)) <= Keys(members)
    decreases members, 1
  {
    if members != [] {
      StoredIsSupported(members[0].value);
      StoredMembersAreSupported(members[1..]);
      if !members[0].value.Undefined? {
        assert StoredMembers(members)[1..] == StoredMembers(members[1..]);
      }
    }
  }

  lemma {:induction false} ExtendedMapsAgree<K, V>(a: map<K, V>, b: map<K, V>, k: K, x: V, y: V)
    requires k !in a && k !in b
    ensures a[k := x] == b[k := y] <==> a == b && x == y
  {
    if a[k := x] == b[k := y] {
      assert a == a[k := x] - {k} && b == b[k := y] - {k};
      assert x == a[k := x][k] == b[k := y][k] == y;
    }
  }

  lemma {:induction false} CleanHeadAndRest(members: seq<Entry<Value>>)
    requires members != []
    ensures CleanMembers(members) <==>
            !members[0].value.Undefined? && Clean(members[0].value) && CleanMembers(members[1..])
  {
    assert forall i :: 0 < i < |members| ==> members[i] == members[1..][i - 1];
    assert forall i :: 0 <= i < |members[1..]| ==> members[1..][i] == members[i + 1];
  }

  lemma {:induction false} StoredMembersMean(members: seq<Entry<Value>>)
    requires InDomain(Obj(members))
    ensures Supported(Obj(members)) && Supported(Obj(StoredMembers(members)))
    ensures MeanMembers(StoredMembers(members)) == MeanMembers(members) <==> CleanMembers(members)
    decreases members, 1
  {
    DomainIsSupported(Obj(members));
    StoredMembersAreSupported(members);
    if members != [] {
      var rest, m := members[1..], members[0];
      assert InDomain(m.value);
      StoredMembersMean(rest);
      StoredMembersAreSupported(rest);
      StoredKeepsMeaningExactly(m.value);
      CleanHeadAndRest(members);
      var a, b := MeanMembers(StoredMembers(rest)), MeanMembers(rest);
      if m.value.Undefined? {
        assert m.key !in MeanMembers(StoredMembers(members)) && m.key in MeanMembers(members);
      } else {
        assert StoredMembers(members)[1..] == StoredMembers(rest);
        ExtendedMapsAgree(a, b, m.key, Mean(Stored(m.value)), Mean(m.value));
      }
    }
  }

  /** Writing a value and reading it back keeps its meaning exactly when it is clean. */
  lemma {:induction false} StoredKeepsMeaningExactly(v: Value)
    requires InDomain(v)
    ensures Supported(v) && Supported(Stored(v))
    ensures Mean(Stored(v)) == Mean(v) <==> Clean(v)
    decreases v, 2
  {
    DomainIsSupported(v);
    StoredIsSupported(v);
    match v
    case Arr(items) =>
      forall i | 0 <= i < |items| ensures Mean(Stored(items[i])) == Mean(items[i]) <==> Clean(items[i]) {
        StoredKeepsMeaningExactly(items[i]);
      }
      var a, b := MeanItems(StoredItems(items)), MeanItems(items);
      if a == b {
        forall i | 0 <= i < |items| ensures Clean(items[i]) {
          assert a[i] == b[i];
        }
      }
      if Clean(v) {
        assert forall i :: 0 <= i < |items| ==> a[i] == b[i];
        assert a == b;
      }
    case Obj(members) => StoredMembersMean(members);
    case _ =>
  }

  lemma {:induction false} StoredInDomain(v: Value)
    requires InDomain(v)
    ensures InDomain(Stored(v))
    decreases v, 2
  {
    match v
    case Arr(items) =>
      forall i | 0 <= i < |items| ensures InDomain(Stored(items[i])) { StoredInDomain(items[i]); }
    case Obj(members) => StoredMembersInDomain(members);
    case _ =>
  }

  lemma {:induction false} StoredMembersInDomain(members: seq<Entry<Value>>)
    requires InDomain(Obj(members))
    ensures InDomain(Obj(StoredMembers(members))) && Keys(StoredMembers(members)) <= Keys(members)
    decreases members, 1
  {
    if members != [] {
      assert InDomain(members[0].value);
      StoredInDomain(members[0].value);
      StoredMembersInDomain(members[1..]);
      if !members[0].value.Undefined? {
        assert StoredMembers(members)[1..] == StoredMembers(members[1..]);
      }
    }
  }

  // ---------------------------------------------------------------------------------
  // The canonical text of what is read back.

  lemma {:induction false} StoredItemsText(items: seq<Value>)
    requires Supported(Arr(items)) && Clean(Arr(items))
    ensures forall i :: 0 <= i < |items| ==> Supported(StoredItems(items)[i])
    ensures EncodeItems(StoredItems(items)) == EncodeItems(items)
    decreases items, 1
  {
    forall i | 0 <= i < |items| ensures Supported(Stored(items[i])) && Encode(Stored(items[i])) == Encode(items[i]) {
      StoredKeepsText(items[i]);
    }
  }

  lemma {:induction false} StoredMembersText(members: seq<Entry<Value>>)
    requires Supported(Obj(members)) && Clean(Obj(members))
    ensures forall i :: 0 <= i < |StoredMembers(members)| ==> Supported(StoredMembers(members)[i].value)
    ensures EncodeMembers(StoredMembers(members)) == EncodeMembers(members)
    decreases members, 1
  {
    CleanMembersStay(members);
    forall i | 0 <= i < |members|
      ensures Supported(Stored(members[i].value)) && Encode(Stored(members[i].value)) == Encode(members[i].value)
    {
      StoredKeepsText(members[i].value);
    }
  }

  /** A clean value has the same canonical text before and after, whatever the digest of that text may be. */
  lemma {:induction false} StoredKeepsText(v: Value)
    requires Supported(v) && Clean(v)
    ensures Supported(Stored(v)) && Encode(Stored(v)) == Encode(v)
    decreases v, 2
  {
    match v
    case Arr(items) => StoredItemsText(items);
    case Obj(members) => StoredMembersText(members);
    case _ =>
  }

  /** In the encoder's domain, the canonical text survives exactly when the value is clean. */
  lemma {:induction false} StoredKeepsTextExactly(v: Value)
    requires InDomain(v)
    ensures Supported(v) && Supported(Stored(v))
    ensures Encode(Stored(v)) == Encode(v) <==> Clean(v)
  {
    StoredInDomain(v);
    StoredKeepsMeaningExactly(v);
    SameTextIffSameMeaning(Stored(v), v);
  }

  /** What was read back is clean, so writing it again loses nothing more. */
  lemma {:induction false} StoredIsClean(v: Value)
    ensures Clean(Stored(v)) && !Stored(v).Undefined?
    decreases v, 2
  {
    match v
    case Arr(items) => forall i | 0 <= i < |items| ensures Clean(Stored(items[i])) { StoredIsClean(items[i]); }
    case Obj(members) => StoredMembersAreClean(members);
    case _ =>
  }

  lemma {:induction false} StoredMembersAreClean(members: seq<Entry<Value>>)
    ensures CleanMembers(StoredMembers(members))
    decreases members, 1
  {
    if members != [] {
      StoredMembersAreClean(members[1..]);
      StoredIsClean(members[0].value);
      if !members[0].value.Undefined? {
        CleanHeadAndRest(StoredMembers(members));
      }
    }
  }
}
