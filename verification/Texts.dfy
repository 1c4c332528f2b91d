/**
 * Sorted texts without duplicates: what JavaScript's `[...new Set(xs)].sort()` yields.  A
 * JavaScript `Set` is a duplicate-free sequence in insertion order.
 */
module Texts {
  import opened Canonical

  function Add(s: seq<Text>, v: Text): seq<Text> { if v in s then s else s + [v] }

  function Remove(s: seq<Text>, v: Text): (r: seq<Text>)
    ensures forall x :: x in r <==> x in s && x != v
  {
    if s == [] then [] else (if s[0] == v then [] else [s[0]]) + Remove(s[1..], v)
  }

  /** `new Set(xs)`. */
  function Unique(xs: seq<Text>): (r: seq<Text>)
    ensures forall x :: x in r <==> x in xs
  {
    if xs == [] then [] else
    var r := Add(Unique(xs[..|xs| - 1]), xs[|xs| - 1]);
    assert forall x :: x in xs <==> x in xs[..|xs| - 1] || x == xs[|xs| - 1];
    r
  }

  function InsertText(v: Text, s: seq<Text>): seq<Text> {
    if s == [] then [v] else if Leq(v, s[0]) then [v] + s else [s[0]] + InsertText(v, s[1..])
  }

  function SortTexts(s: seq<Text>): seq<Text> {
    if s == [] then [] else InsertText(s[0], SortTexts(s[1..]))
  }

  predicate Increasing(s: seq<Text>) {
    |s| <= 1 || (Leq(s[0], s[1]) && Increasing(s[1..]))
  }

  lemma {:induction false} InsertTextKeeps(v: Text, s: seq<Text>)
    ensures multiset(InsertText(v, s)) == multiset{v} + multiset(s)
  {
    if s != [] && !Leq(v, s[0]) {
      InsertTextKeeps(v, s[1..]);
      assert s == [s[0]] + s[1..];
    }
  }

  lemma {:induction false} InsertTextOrders(v: Text, s: seq<Text>)
    requires Increasing(s)
    ensures Increasing(InsertText(v, s))
    ensures InsertText(v, s) != [] && InsertText(v, s)[0] == (if s == [] || Leq(v, s[0]) then v else s[0])
  {
    if s != [] && !Leq(v, s[0]) {
      LeqTotal(v, s[0]);
      InsertTextOrders(v, s[1..]);
      assert InsertText(v, s)[1..] == InsertText(v, s[1..]);
    } else {
      assert ([v] + s)[1..] == s;
    }
  }

  lemma {:induction false} SortTextsKeeps(s: seq<Text>)
    ensures Increasing(SortTexts(s)) && multiset(SortTexts(s)) == multiset(s)
  {
    if s != [] {
      SortTextsKeeps(s[1..]);
      InsertTextKeeps(s[0], SortTexts(s[1..]));
      InsertTextOrders(s[0], SortTexts(s[1..]));
      assert s == [s[0]] + s[1..];
    }
  }

  lemma {:induction false} IncreasingApart(s: seq<Text>, i: nat, j: nat)
    requires Increasing(s) && i < j < |s|
    ensures Leq(s[i], s[j])
    decreases j
  {
    if i > 0 {
      IncreasingApart(s[1..], i - 1, j - 1);
    } else if j > 1 {
      IncreasingApart(s[1..], 0, j - 1);
      LeqTransitive(s[0], s[1], s[j]);
    }
  }

  /** Sorting keeps the texts and orders them by their code units. */
  lemma {:induction false} SortTextsByUnits(s: seq<Text>)
    ensures multiset(SortTexts(s)) == multiset(s)
    ensures forall i, j :: 0 <= i < j < |SortTexts(s)| ==> Before(SortTexts(s)[i], SortTexts(s)[j])
  {
    SortTextsKeeps(s);
    forall i, j | 0 <= i < j < |SortTexts(s)| ensures Before(SortTexts(s)[i], SortTexts(s)[j]) {
      IncreasingApart(SortTexts(s), i, j);
      var k := PartWhere(SortTexts(s)[i], SortTexts(s)[j]);
    }
  }

  lemma {:induction false} SortedMembers(s: seq<Text>)
    ensures forall x :: x in SortTexts(s) <==> x in s
  {
    SortTextsKeeps(s);
    forall x ensures x in SortTexts(s) <==> x in s {
      assert x in SortTexts(s) <==> x in multiset(SortTexts(s));
      assert x in s <==> x in multiset(s);
    }
  }

  lemma {:induction false} SortTextsIsFixed(s: seq<Text>)
    requires Increasing(s)
    ensures SortTexts(s) == s
  {
    if s != [] {
      SortTextsIsFixed(s[1..]);
      assert s == [s[0]] + s[1..];
    }
  }

  /** Sorting what is already sorted changes nothing. */
  lemma {:induction false} SortTextsTwice(s: seq<Text>)
    ensures SortTexts(SortTexts(s)) == SortTexts(s)
  {
    SortTextsKeeps(s);
    SortTextsIsFixed(SortTexts(s));
  }

  // ---------------------------------------------------------------------------------
  // Sorted sets of texts are determined by their members.

  predicate NoRepeats(s: seq<Text>) { forall i, j :: 0 <= i < j < |s| ==> s[i] != s[j] }

  lemma {:induction false} NoRepeatsCounts(s: seq<Text>)
    ensures NoRepeats(s) <==> forall x :: multiset(s)[x] <= 1
  {
    if s != [] {
      var rest := s[1..];
      NoRepeatsCounts(rest);
      assert s == [s[0]] + rest;
      assert multiset(s) == multiset{s[0]} + multiset(rest);
      assert NoRepeats(s) <==> NoRepeats(rest) && s[0] !in rest by {
        assert forall j :: 0 <= j < |rest| ==> rest[j] == s[j + 1];
        assert forall j :: 0 < j < |s| ==> s[j] == rest[j - 1];
      }
      assert s[0] in rest <==> multiset(rest)[s[0]] > 0;
      if forall x :: multiset(s)[x] <= 1 {
        forall x ensures multiset(rest)[x] <= 1 { assert multiset(s)[x] <= 1; }
        assert multiset(s)[s[0]] <= 1;
      }
    }
  }

  lemma {:induction false} UniqueHasNoRepeats(xs: seq<Text>)
    ensures NoRepeats(Unique(xs))
  {
    if xs != [] {
      UniqueHasNoRepeats(xs[..|xs| - 1]);
    }
  }

  lemma {:induction false} RemoveKeepsNoRepeats(s: seq<Text>, v: Text)
    requires NoRepeats(s)
    ensures NoRepeats(Remove(s, v))
  {
    if s != [] {
      RemoveKeepsNoRepeats(s[1..], v);
      assert s[0] !in s[1..];
      assert s[0] !in Remove(s[1..], v);
    }
  }

  lemma {:induction false} SortKeepsNoRepeats(s: seq<Text>)
    requires NoRepeats(s)
    ensures NoRepeats(SortTexts(s))
  {
    SortTextsKeeps(s);
    NoRepeatsCounts(s);
    NoRepeatsCounts(SortTexts(s));
  }

  lemma {:induction false} FirstIsLeast(s: seq<Text>, x: Text)
    requires Increasing(s) && x in s
    ensures Leq(s[0], x)
  {
    LeqTotal(x, x);
    if x != s[0] {
      assert x in s[1..];
      FirstIsLeast(s[1..], x);
      LeqTransitive(s[0], s[1], x);
    }
  }

  lemma {:induction false} HasMember(s: seq<Text>)
    ensures s != [] ==> exists x :: x in s
  {
    if s != [] {
      var first := s[0];
      assert first in s;
    }
  }

  lemma {:induction false} SortedSetIsUnique(s: seq<Text>, t: seq<Text>)
    requires Increasing(s) && Increasing(t) && NoRepeats(s) && NoRepeats(t)
    requires forall x :: x in s <==> x in t
    ensures s == t
    decreases |s|
  {
    if s == [] {
      HasMember(t);
    } else {
      assert s[0] in t;
      assert t[0] in s;
      FirstIsLeast(s, t[0]);
      FirstIsLeast(t, s[0]);
      LeqAntisymmetric(s[0], t[0]);
      forall x ensures x in s[1..] <==> x in t[1..] {
        assert x in s[1..] <==> x in s && x != s[0];
        assert x in t[1..] <==> x in t && x != t[0];
      }
      SortedSetIsUnique(s[1..], t[1..]);
      assert s == [s[0]] + s[1..] && t == [t[0]] + t[1..];
    }
  }
}
