/**
 * The worklist validator for JSON values off the wire
 * (`validate_json`, fasp_harness/protocol/contracts.py:39-71).
 */
module Validator {
  import opened Common

  const MaxDepth: nat := 32
  const MaxNodes: nat := 8192
  const MaxSafe: int := 9007199254740991

  /** Any Python value: dictionary keys are not necessarily strings, and `Other` is no JSON value at all. */
  datatype Value =
    | Dict(entries: seq<Entry>)
    | List(items: seq<Value>)
    | Str(codes: seq<nat>)
    | Null
    | Bool(b: bool)
    | Int(n: int)
    | Float(number: Option<real>)
    | Other

  datatype Entry = Entry(key: Value, child: Value)

  datatype Error = TooLarge | Invalid

  // ---------------------------------------------------------------------------------
  // What the validator is for, by recursion over the value.

  /** A string that UTF-8 can encode: no surrogate code points. */
  predicate Encodable(codes: seq<nat>) { forall i :: 0 <= i < |codes| ==> !(0xD800 <= codes[i] <= 0xDFFF) }

  predicate SafeInteger(n: int) { -MaxSafe <= n <= MaxSafe }

  /** Values without parts. */
  predicate LeafOk(v: Value) {
    match v
    case Str(codes) => Encodable(codes)
    case Null => true
    case Bool(_) => true
    case Int(n) => SafeInteger(n)
    case Float(f) => f.Some? && (f.value == f.value.Floor as real ==> SafeInteger(f.value.Floor))
    case Other => false
    case Dict(_) => false
    case List(_) => false
  }

  ghost predicate Admissible(v: Value) {
    match v
    case Dict(es) => AdmissibleEntries(es)
    case List(vs) => AdmissibleItems(vs)
    case Str(_) => LeafOk(v)
    case Null => LeafOk(v)
    case Bool(_) => LeafOk(v)
    case Int(_) => LeafOk(v)
    case Float(_) => LeafOk(v)
    case Other => LeafOk(v)
  }

  ghost predicate AdmissibleEntries(es: seq<Entry>) {
    es == [] || (AdmissibleEntry(es[0]) && AdmissibleEntries(es[1..]))
  }

  ghost predicate AdmissibleEntry(e: Entry) { e.key.Str? && Admissible(e.key) && Admissible(e.child) }

  ghost predicate AdmissibleItems(vs: seq<Value>) {
    vs == [] || (Admissible(vs[0]) && AdmissibleItems(vs[1..]))
  }

  /**
   * Which parts are admissible: text without surrogates, integers and whole numbers that a
   * double holds exactly, any finite number otherwise, null, booleans, and lists and
   * string-keyed dictionaries of admissible parts; nothing else.
   */
  lemma {:induction false} AdmissibleExactly(v: Value)
    ensures v.Null? || v.Bool? ==> Admissible(v)
    ensures v.Other? ==> !Admissible(v)
    ensures v.Str? ==> (Admissible(v) <==> forall c :: c in v.codes ==> c < 0xD800 || c > 0xDFFF)
    ensures v.Int? ==> (Admissible(v) <==> -9007199254740991 <= v.n <= 9007199254740991)
    ensures v.Float? ==> (Admissible(v) <==>
      v.number.Some? && (Whole(v.number.value) ==> -9007199254740991.0 <= v.number.value <= 9007199254740991.0))
    ensures v.List? ==> (Admissible(v) <==> forall i :: 0 <= i < |v.items| ==> Admissible(v.items[i]))
    ensures v.Dict? ==> (Admissible(v) <==> forall i :: 0 <= i < |v.entries| ==>
      v.entries[i].key.Str? && Admissible(v.entries[i].key) && Admissible(v.entries[i].child))
  {
    match v
    case Str(codes) => CodesAre(codes);
    case List(vs) => ItemsExactly(vs);
    case Dict(es) => EntriesExactly(es);
    case _ =>
  }

  predicate Whole(x: real) { x == x.Floor as real }

  lemma {:induction false} CodesAre(codes: seq<nat>)
    ensures Encodable(codes) <==> forall c :: c in codes ==> c < 0xD800 || c > 0xDFFF
  {
    if forall c :: c in codes ==> c < 0xD800 || c > 0xDFFF {
      assert forall i :: 0 <= i < |codes| ==> codes[i] in codes;
    }
  }

  lemma {:induction false} ItemsExactly(vs: seq<Value>)
    ensures AdmissibleItems(vs) <==> forall i :: 0 <= i < |vs| ==> Admissible(vs[i])
  {
    if vs != [] {
      ItemsExactly(vs[1..]);
      assert forall i :: 0 < i < |vs| ==> vs[i] == vs[1..][i - 1];
      assert forall i :: 0 <= i < |vs[1..]| ==> vs[1..][i] == vs[i + 1];
    }
  }

  lemma {:induction false} EntriesExactly(es: seq<Entry>)
    ensures AdmissibleEntries(es) <==> forall i :: 0 <= i < |es| ==> AdmissibleEntry(es[i])
  {
    if es != [] {
      EntriesExactly(es[1..]);
      assert forall i :: 0 < i < |es| ==> es[i] == es[1..][i - 1];
      assert forall i :: 0 <= i < |es[1..]| ==> es[1..][i] == es[i + 1];
    }
  }

  /** Values, and keys, that make up a value. */
  ghost function Nodes(v: Value): (n: nat)
    ensures n >= 1
  {
    match v
    case Dict(es) => 1 + EntryNodes(es)
    case List(vs) => 1 + ItemNodes(vs)
    case Str(_) => 1
    case Null => 1
    case Bool(_) => 1
    case Int(_) => 1
    case Float(_) => 1
    case Other => 1
  }

  ghost function EntryNodes(es: seq<Entry>): nat {
    if es == [] then 0 else PairNodes(es[0]) + EntryNodes(es[1..])
  }

  ghost function PairNodes(e: Entry): nat { Nodes(e.key) + Nodes(e.child) }

  ghost function ItemNodes(vs: seq<Value>): nat { if vs == [] then 0 else Nodes(vs[0]) + ItemNodes(vs[1..]) }

  /** The longest way down from a value to a part of it; a member's key is one step down like its value. */
  ghost function Depth(v: Value): nat {
    match v
    case Dict(es) => if es == [] then 0 else 1 + EntryDepth(es)
    case List(vs) => if vs == [] then 0 else 1 + ItemDepth(vs)
    case Str(_) => 0
    case Null => 0
    case Bool(_) => 0
    case Int(_) => 0
    case Float(_) => 0
    case Other => 0
  }

  ghost function EntryDepth(es: seq<Entry>): nat {
    if es == [] then 0 else Max(PairDepth(es[0]), EntryDepth(es[1..]))
  }

  ghost function PairDepth(e: Entry): nat { Max(Depth(e.key), Depth(e.child)) }

  ghost function ItemDepth(vs: seq<Value>): nat { if vs == [] then 0 else Max(Depth(vs[0]), ItemDepth(vs[1..])) }

  // ---------------------------------------------------------------------------------
  // The worklist.

  datatype Pending = Pending(item: Value, depth: nat)

  ghost predicate Sound(p: Pending) { Admissible(p.item) && p.depth + Depth(p.item) <= MaxDepth }

  ghost predicate AllSound(ps: seq<Pending>) { forall i :: 0 <= i < |ps| ==> Sound(ps[i]) }

  ghost function AllNodes(ps: seq<Pending>): nat {
    if ps == [] then 0 else AllNodes(ps[..|ps| - 1]) + Nodes(ps[|ps| - 1].item)
  }

  lemma {:induction false} NodesOfMore(ps: seq<Pending>, qs: seq<Pending>)
    ensures AllNodes(ps + qs) == AllNodes(ps) + AllNodes(qs)
    decreases |qs|
  {
    if qs == [] {
      assert ps + qs == ps;
    } else {
      NodesOfMore(ps, qs[..|qs| - 1]);
      assert (ps + qs)[..|ps + qs| - 1] == ps + qs[..|qs| - 1];
    }
  }

  lemma {:induction false} SoundOfMore(ps: seq<Pending>, qs: seq<Pending>)
    ensures AllSound(ps + qs) <==> AllSound(ps) && AllSound(qs)
  {
    if AllSound(ps + qs) {
      forall i | 0 <= i < |ps| ensures Sound(ps[i]) { assert (ps + qs)[i] == ps[i]; }
      forall i | 0 <= i < |qs| ensures Sound(qs[i]) { assert (ps + qs)[|ps| + i] == qs[i]; }
    }
  }

  /** The keys and values of a dictionary, one level down. */
  function OfEntries(es: seq<Entry>, depth: nat): seq<Pending> {
    if es == [] then [] else [Pending(es[0].key, depth), Pending(es[0].child, depth)] + OfEntries(es[1..], depth)
  }

  function OfItems(vs: seq<Value>, depth: nat): seq<Pending> {
    if vs == [] then [] else [Pending(vs[0], depth)] + OfItems(vs[1..], depth)
  }

  ghost predicate StringKeys(es: seq<Entry>) { forall i :: 0 <= i < |es| ==> es[i].key.Str? }

  lemma {:induction false} PairIs(k: Pending, c: Pending)
    ensures AllNodes([k, c]) == Nodes(k.item) + Nodes(c.item)
    ensures AllSound([k, c]) <==> Sound(k) && Sound(c)
  {
    var ps := [k, c];
    assert ps[..1] == [k] && ps[..1][..0] == [];
    assert AllNodes(ps[..1]) == Nodes(k.item);
    assert ps[0] == k && ps[1] == c;
  }

  lemma {:induction false} EntriesAre(es: seq<Entry>, depth: nat)
    ensures AllNodes(OfEntries(es, depth)) == EntryNodes(es)
    ensures StringKeys(es) ==>
      (AllSound(OfEntries(es, depth)) <==> AdmissibleEntries(es) && (es == [] || depth + EntryDepth(es) <= MaxDepth))
  {
    if es != [] {
      var rest := es[1..];
      var k, c := Pending(es[0].key, depth), Pending(es[0].child, depth);
      EntriesAre(rest, depth);
      PairIs(k, c);
      NodesOfMore([k, c], OfEntries(rest, depth));
      SoundOfMore([k, c], OfEntries(rest, depth));
      if StringKeys(es) {
        assert es[0].key.Str?;
        assert StringKeys(rest) by { assert forall i :: 0 <= i < |rest| ==> rest[i] == es[i + 1]; }
        assert rest == [] ==> EntryDepth(rest) == 0;
      }
    }
  }

  lemma {:induction false} ItemsAre(vs: seq<Value>, depth: nat)
    ensures AllNodes(OfItems(vs, depth)) == ItemNodes(vs)
    ensures AllSound(OfItems(vs, depth)) <==> AdmissibleItems(vs) && (vs == [] || depth + ItemDepth(vs) <= MaxDepth)
  {
    if vs != [] {
      var rest, p := vs[1..], Pending(vs[0], depth);
      ItemsAre(rest, depth);
      NodesOfMore([p], OfItems(rest, depth));
      SoundOfMore([p], OfItems(rest, depth));
      assert [p][..0] == [] && AllNodes([p]) == Nodes(p.item);
      assert [p][0] == p && (AllSound([p]) <==> Sound(p));
    }
  }

  lemma {:induction false} NonStringKeyIsInadmissible(es: seq<Entry>, i: nat)
    requires i < |es| && !es[i].key.Str?
    ensures !AdmissibleEntries(es)
  {
    if i > 0 {
      NonStringKeyIsInadmissible(es[1..], i - 1);
    }
  }

  lemma {:induction false} LastOut(ps: seq<Pending>)
    requires ps != []
    ensures var rest, p := ps[..|ps| - 1], ps[|ps| - 1];
      AllNodes(ps) == AllNodes(rest) + Nodes(p.item) && (AllSound(ps) <==> AllSound(rest) && Sound(p))
  {
    var rest, p := ps[..|ps| - 1], ps[|ps| - 1];
    SoundOfMore(rest, [p]);
    assert ps == rest + [p];
    assert [p][0] == p && (AllSound([p]) <==> Sound(p));
  }

  method PushEntries(rest: seq<Pending>, es: seq<Entry>, depth: nat) returns (r: Option<seq<Pending>>)
    ensures r.Some? <==> StringKeys(es)
    ensures r.Some? ==> r.value == rest + OfEntries(es, depth)
  {
    var pending := rest;
    for i := 0 to |es|
      invariant forall j :: 0 <= j < i ==> es[j].key.Str?
      invariant pending + OfEntries(es[i..], depth) == rest + OfEntries(es, depth)
    {
      if !es[i].key.Str? { return None; }
      assert es[i..][1..] == es[i + 1..];
      pending := pending + [Pending(es[i].key, depth), Pending(es[i].child, depth)];
    }
    r := Some(pending);
  }

  /**
   * Terminates on every value, and accepts exactly the values with few enough nodes, of small
   * enough depth, whose every part is admissible.
   */
  method ValidateJson(value: Value) returns (r: Result<(), Error>)
    ensures r.Ok? <==> Nodes(value) <= MaxNodes && Depth(value) <= MaxDepth && Admissible(value)
  {
    var pending, nodes := [Pending(value, 0)], 0;
    assert pending[..0] == [];
    assert pending[0] == Pending(value, 0);
    while pending != []
      invariant nodes <= MaxNodes && nodes + AllNodes(pending) == Nodes(value)
      invariant AllSound(pending) <==> Sound(Pending(value, 0))
      decreases AllNodes(pending)
    {
      LastOut(pending);
      var item, depth := pending[|pending| - 1].item, pending[|pending| - 1].depth;
      var rest := pending[..|pending| - 1];
      nodes := nodes + 1;
      if nodes > MaxNodes || depth > MaxDepth { return Err(TooLarge); }
      match item {
        case Dict(es) =>
          var more := PushEntries(rest, es, depth + 1);
          if more.None? {
            DictIsUnsound(es);
            return Err(Invalid);
          }
          DictIs(rest, es, depth);
          pending := more.value;
        case List(vs) =>
          ListIs(rest, vs, depth);
          pending := rest + OfItems(vs, depth + 1);
        case Str(_) => if !LeafOk(item) { return Err(Invalid); } pending := rest;
        case Null => pending := rest;
        case Bool(_) => pending := rest;
        case Int(_) => if !LeafOk(item) { return Err(Invalid); } pending := rest;
        case Float(_) => if !LeafOk(item) { return Err(Invalid); } pending := rest;
        case Other => return Err(Invalid);
      }
    }
    r := Ok(());
  }

  lemma {:induction false} DictIsUnsound(es: seq<Entry>)
    requires !StringKeys(es)
    ensures !Admissible(Dict(es))
  {
    var i :| 0 <= i < |es| && !es[i].key.Str?;
    NonStringKeyIsInadmissible(es, i);
  }

  lemma {:induction false} DictIs(rest: seq<Pending>, es: seq<Entry>, depth: nat)
    requires StringKeys(es) && depth <= MaxDepth
    ensures var more := rest + OfEntries(es, depth + 1);
      && AllNodes(more) + 1 == AllNodes(rest) + Nodes(Dict(es))
      && (AllSound(more) <==> AllSound(rest) && Sound(Pending(Dict(es), depth)))
  {
    EntriesAre(es, depth + 1);
    NodesOfMore(rest, OfEntries(es, depth + 1));
    SoundOfMore(rest, OfEntries(es, depth + 1));
  }

  lemma {:induction false} ListIs(rest: seq<Pending>, vs: seq<Value>, depth: nat)
    requires depth <= MaxDepth
    ensures var more := rest + OfItems(vs, depth + 1);
      && AllNodes(more) + 1 == AllNodes(rest) + Nodes(List(vs))
      && (AllSound(more) <==> AllSound(rest) && Sound(Pending(List(vs), depth)))
  {
    ItemsAre(vs, depth + 1);
    NodesOfMore(rest, OfItems(vs, depth + 1));
    SoundOfMore(rest, OfItems(vs, depth + 1));
  }
}
