/**
 What acceptance by the validator means: exactly the flags' conditions on every element, so it
 refines the parser and the grammar of RFC 7049, and unique keys differ in every map.
 */
module CborValidationLaws {
  import opened Options
  import opened CborHeads
  import opened CborSyntax
  import opened CborValues
  import opened CborSearch
  import opened CborGrammar
  import opened CborValidator
  import opened CborValidation
  import opened CborAdmission

  // ----- Exactly what is accepted

  // A value with its tags is proper and costs less than the validator's budget.
  predicate WithinBudget(es: seq<Item>) {
    var k := LeadingTags(es);
    k < |es| && Proper(es[k]) && k + Cost(es[k]) < 1024
  }

  // With any flags, wherever the iterator is: a value of the grammar within the budget stands
  // there, every element in it meets the flags, and what follows it is reachable.
  lemma ValidationIs(s: seq<byte>, p: nat, ck: Checks, c: Count)
    requires p <= |s| && c != Exactly(0)
    ensures var v := ParseRun(s, p, Exactly(1));
            && (v.Ok? ==> AllWellFormed(v.val) && LeadingTags(v.val) == |v.val| - 1)
            && (Good(s, p, ck, c, MAX_RECURSIONS) <==>
                  v.Ok? && WithinBudget(v.val) && RunMeets(ck, v.val, p) && Reachable(s, v.next, AfterValue(c)))
  {
    hide HeadAt, ParseRun, AdmitsFirst, Proper, Cost, Reachable, RunMeets;
    var v := ParseRun(s, p, Exactly(1));
    if v.Ok? {
      RunSound(s, p, Exactly(1));
      ValueShape(s, p);
      assert FirstValue(v.val) == v.val;
      AdmittedValue(ck, v.val, p, MAX_RECURSIONS);
    }
  }

  // ----- The validator refines the parser

  // Validation from a fresh iterator, as the library's entry point does it.
  method Validate(it: CborValue, ck: Checks) returns (err: CborError, end: nat)
    requires it.Positioned() && Usable(ck)
    ensures var v, c := ParseRun(it.data, it.ptr, Exactly(1)), CountOf(it.remaining);
            && (v.Ok? ==> AllWellFormed(v.val))
            && (err == NoError <==>
                  && v.Ok? && WithinBudget(v.val) && RunMeets(ck, v.val, it.ptr)
                  && Reachable(it.data, v.next, AfterValue(c)))
            && (err == NoError <==> Good(it.data, it.ptr, ck, c, MAX_RECURSIONS))
            && (err == NoError ==> end == Landing(it.data, v.next, AfterValue(c)))
  {
    hide HeadAt, ParseRun, Reachable, WithinBudget, RunMeets;
    ValidationIs(it.data, it.ptr, ck, CountOf(it.remaining));
    var value := new CborValue.Copy(it);
    err := ValidateValue(value, ck, MAX_RECURSIONS);
    end := value.ptr;
  }

  // An accepted untagged item is accepted by the parser as well, wherever the iterator is: it
  // ends at the same byte and what follows it is reachable. It is an item of the grammar, nested
  // at most 1023 deep.
  lemma ValidatorRefinesParser(s: seq<byte>, p: nat, ck: Checks, c: Count)
    requires HeadAt(s, p).Some? && !IsTagHead(HeadAt(s, p).value) && c != Exactly(0)
    requires Good(s, p, ck, c, MAX_RECURSIONS)
    ensures var i := ParseItem(s, p);
            && Accepted(s, p, i.next) && i.next == ParseRun(s, p, Exactly(1)).next
            && After(c, i.val) == AfterValue(c) && Reachable(s, i.next, After(c, i.val))
            && i.next > p && InGrammar(s, p, i.next - p)
            && Proper(i.val) && Depth(i.val) < MAX_RECURSIONS
  {
    hide HeadAt, AdmitsFirst, InGrammar, RunMeets, Proper, Cost, Depth;
    var i, v := ParseItem(s, p), ParseRun(s, p, Exactly(1));
    ValueStep(s, p);
    HeadOfItem(s, p);
    ValidationIs(s, p, ck, c);
    CostBoundsDepth(i.val);
    ExactLanguage(s, p, v.next - p);
  }

  // The two, one after the other: after an accepted value the parser's success is certain.
  method ValidateThenAdvance(it: CborValue, ck: Checks) returns (valid: bool, passed: bool, end: nat, after: nat)
    requires it.Positioned() && it.typ != TAG_TYPE && Usable(ck)
    modifies it
    ensures valid ==> passed && after == end
  {
    hide HeadAt, ParseItem, ParseRun, AdmitsFirst, InGrammar, Reachable;
    ghost var s, p, c := it.data, it.ptr, CountOf(it.remaining);
    var err;
    err, end := Validate(it, ck);
    valid := err == NoError;
    if valid {
      ValidatorRefinesParser(s, p, ck, c);
    }
    err := it.Advance();
    passed, after := err == NoError, it.ptr;
  }

  // ----- Keys are unique

  // No two keys have the same bytes.
  ghost predicate DistinctKeys(ks: seq<seq<Item>>)
    requires AreValueRuns(ks)
  {
    forall i, j | 0 <= i < j < |ks| :: Concat(ks[i]) != Concat(ks[j])
  }

  // In every map inside an item, at any depth, all keys differ.
  ghost predicate KeysDistinct(i: Item)
    requires WellFormed(i)
    decreases i, 0
  {
    i.Container? ==> (i.isMap ==> DistinctKeys(KeyRuns(i.elems))) && AllKeysDistinct(i.elems)
  }

  ghost predicate AllKeysDistinct(es: seq<Item>)
    requires AllWellFormed(es)
    decreases es, 1
  {
    es == [] || (KeysDistinct(es[0]) && AllKeysDistinct(es[1..]))
  }

  // Bytes determine the run of elements, and so the key with its head argument.
  lemma BytesDetermineKey(vs: seq<Item>, ws: seq<Item>)
    requires IsValueRun(vs) && IsValueRun(ws) && Concat(vs) == Concat(ws)
    ensures vs == ws
  {
    hide ParseRun;
    var s := Concat(vs);
    assert s[0..|s|] == s;
    ShapeFills(vs);
    ShapeFills(ws);
    RunComplete(s, 0, Exactly(1), vs);
    RunComplete(s, 0, Exactly(1), ws);
  }

  lemma ShapeFills(vs: seq<Item>)
    requires vs != [] && LeadingTags(vs) == |vs| - 1
    ensures Fills(vs, Exactly(1))
  {
    FirstValueSummary(vs);
    assert FirstValue(vs) == vs;
  }

  lemma AscendingIsDistinct(ks: seq<seq<Item>>)
    requires AreValueRuns(ks) && Ascending(KeysOf(ks), None)
    ensures DistinctKeys(ks)
  {
    hide KeyLess, Concat;
    var keys := KeysOf(ks);
    forall i, j | 0 <= i < j < |ks|
      ensures Concat(ks[i]) != Concat(ks[j])
    {
      assert KeyLess(keys[i], keys[j]);
      if Concat(ks[i]) == Concat(ks[j]) {
        BytesDetermineKey(ks[i], ks[j]);
        KeyLessIsStrictOrder(keys[i], keys[j], keys[i]);
      }
    }
  }

  lemma {:induction false} MeetsDistinct(ck: Checks, i: Item, p: nat)
    requires ck.noIndeterminate && ck.sorted && ck.unique && WellFormed(i) && Meets(ck, i, p)
    ensures KeysDistinct(i)
    decreases i, 0
  {
    hide RunMeets, AtomMeets, ChunksMeet, Ascending, NeverDescending, DistinctKeys, AllKeysDistinct;
    if i.Container? {
      ContainerElems(i);
      RunMeetsDistinct(ck, i.elems, Inside(i.width, p));
      if i.isMap {
        AscendingIsDistinct(KeyRuns(i.elems));
      }
    }
  }

  lemma {:induction false} RunMeetsDistinct(ck: Checks, es: seq<Item>, p: nat)
    requires ck.noIndeterminate && ck.sorted && ck.unique && AllWellFormed(es) && RunMeets(ck, es, p)
    ensures AllKeysDistinct(es)
    decreases es, 1
  {
    hide Meets, KeysDistinct, TagFits;
    if es != [] {
      MeetsDistinct(ck, es[0], p);
      RunMeetsDistinct(ck, es[1..], p + ItemSize(es[0]));
    }
  }

  // With the three flags for unique keys, whatever the others are, acceptance means that all
  // keys of every map at every depth differ in their bytes.
  lemma AdmittedKeysDistinct(ck: Checks, i: Item, p: nat, budget: nat)
    requires ck.noIndeterminate && ck.sorted && ck.unique
    requires WellFormed(i) && AdmitsItem(ck, i, p, budget)
    ensures KeysDistinct(i)
  {
    hide Meets, AdmitsElements;
    if i.Container? {
      AdmittedItem(ck, i, p, budget);
      MeetsDistinct(ck, i, p);
    }
  }

  // The same for what the entry point accepts, tags in front of it included.
  lemma AcceptedKeysDistinct(s: seq<byte>, p: nat, ck: Checks, c: Count)
    requires p <= |s| && c != Exactly(0) && ck.noIndeterminate && ck.sorted && ck.unique
    requires Good(s, p, ck, c, MAX_RECURSIONS)
    ensures var es := ParseRun(s, p, Exactly(1)).val;
            AllWellFormed(es) && AllKeysDistinct(es)
  {
    hide HeadAt, ParseRun, AdmitsFirst, RunMeets, KeysDistinct, WellFormed;
    ValidationIs(s, p, ck, c);
    RunMeetsDistinct(ck, ParseRun(s, p, Exactly(1)).val, p);
  }

  // A map with one key twice is rejected whenever these three flags are set.
  lemma DuplicateRejected(ck: Checks, c: Count)
    requires ck.noIndeterminate && ck.sorted && ck.unique && c != Exactly(0)
    ensures !Good([0xa2, 0x01, 0x00, 0x01, 0x00], 0, ck, c, MAX_RECURSIONS)
  {
    var s: seq<byte> := [0xa2, 0x01, 0x00, 0x01, 0x00];
    var one, zero := Atom(MAJOR_UNSIGNED, 0, 1), Atom(MAJOR_UNSIGNED, 0, 0);
    var map_ := Container(true, Some(0), [one, zero, one, zero]);
    TwoPairs(one, zero);
    assert s[0..5] == s;
    hide ParseItem, ParseRun, ItemBytes, WellFormed, AdmitsFirst, KeysDistinct, Reachable;
    ItemComplete(s, 0, map_);
    ValueStep(s, 0);
    assert [map_][0] == map_;
    if Good(s, 0, ck, c, MAX_RECURSIONS) {
      AcceptedKeysDistinct(s, 0, ck, c);
    }
  }

  lemma TwoPairs(key: Item, value: Item)
    requires key == Atom(MAJOR_UNSIGNED, 0, 1) && value == Atom(MAJOR_UNSIGNED, 0, 0)
    ensures var map_ := Container(true, Some(0), [key, value, key, value]);
            && WellFormed(map_) && ItemBytes(map_) == [0xa2, 0x01, 0x00, 0x01, 0x00] && !KeysDistinct(map_)
  {
    var es, gs := [key, value, key, value], [key, value];
    assert es == gs + gs && gs == gs + [];
    assert WellFormed(key) && WellFormed(value) && AllWellFormed([]);
    PairBytes(key, value, [], gs);
    PairBytes(key, value, gs, es);
    assert Concat(es) == [0x01, 0x00, 0x01, 0x00] && Untagged(es) == 4;
    assert AllWellFormed(es) && HeadBytes(MAJOR_MAP, 0, 2) == [0xa2] + [];
    hide WellFormed, KeyRuns, Concat, Untagged, HeadBytes;
    OnePair(key, value, gs, []);
    OnePair(key, value, es, gs);
    SizedMap(es);
    var ks := KeyRuns(es);
    assert ks[0] == ks[1];
  }

  lemma SizedMap(es: seq<Item>)
    requires AllWellFormed(es) && Untagged(es) == 4 && es != [] && !IsTag(es[|es| - 1])
    ensures var map_ := Container(true, Some(0), es);
            WellFormed(map_) && ItemBytes(map_) == HeadBytes(MAJOR_MAP, 0, 2) + Concat(es)
  {
    hide HeadBytes, Concat;
  }

  lemma ByteItem(n: nat)
    requires n < 24
    ensures WellFormed(Atom(MAJOR_UNSIGNED, 0, n)) && ItemBytes(Atom(MAJOR_UNSIGNED, 0, n)) == [n]
  {
    assert HeadBytes(MAJOR_UNSIGNED, 0, n) == [n] + [];
  }

  lemma PairBytes(key: Item, value: Item, rest: seq<Item>, es: seq<Item>)
    requires key == Atom(MAJOR_UNSIGNED, 0, 1) && value == Atom(MAJOR_UNSIGNED, 0, 0)
    requires AllWellFormed(rest) && es == [key, value] + rest
    ensures AllWellFormed(es) && Concat(es) == [0x01, 0x00] + Concat(rest) && Untagged(es) == 2 + Untagged(rest)
  {
    var fs := [value] + rest;
    assert es[1..] == fs && fs[1..] == rest;
    ByteItem(1);
    ByteItem(0);
    hide ItemBytes, WellFormed;
    assert AllWellFormed(fs) && Concat(fs) == [0x00] + Concat(rest);
    assert [0x01] + ([0x00] + Concat(rest)) == [0x01, 0x00] + Concat(rest);
  }

  lemma OnePair(key: Item, value: Item, es: seq<Item>, rest: seq<Item>)
    requires AllWellFormed(es) && es == [key, value] + rest && !IsTag(key) && !IsTag(value)
    ensures AllWellFormed(rest) && KeyRuns(es) == [[key]] + KeyRuns(rest)
  {
    hide WellFormed;
    assert es[1..] == [value] + rest && es[1..][1..] == rest;
    assert FirstValue(es) == [key] && AfterFirstValue(es) == es[1..] && AfterFirstValue(es[1..]) == rest;
  }
}
