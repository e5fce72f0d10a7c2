/**
 What the validator's flags ask for, each written out for single elements, and the proof that
 a value is admitted exactly when it is proper, within the budget, and every element in it, at
 any depth, meets them.
 */
module CborAdmission {
  import opened Options
  import opened CborHeads
  import opened CborSyntax
  import opened CborValues
  import opened CborSearch
  import opened CborGrammar
  import opened CborValidator
  import opened CborValidation

  // ----- Splitting runs into values

  lemma {:induction false} FirstValueSummary(es: seq<Item>)
    requires LeadingTags(es) < |es|
    ensures var vs, i := FirstValue(es), es[LeadingTags(es)];
            && (AllProper(vs) <==> Proper(i)) && DepthAll(vs) == Depth(i) && Untagged(vs) == 1
            && (AllWellFormed(es) ==> AllWellFormed(vs) && AllWellFormed(AfterFirstValue(es)))
            && es == vs + AfterFirstValue(es)
  {
    hide WellFormed, Proper, Depth;
    var vs := FirstValue(es);
    if IsTag(es[0]) {
      FirstValueSummary(es[1..]);
      assert vs[1..] == FirstValue(es[1..]);
      assert AfterFirstValue(es) == AfterFirstValue(es[1..]);
      assert Proper(es[0]) && Depth(es[0]) == 0 by {
        TagIsFlat(es[0]);
      }
    } else {
      assert vs == [es[0]] && vs[1..] == [];
    }
  }

  lemma TagIsFlat(i: Item)
    requires IsTag(i)
    ensures Proper(i) && Depth(i) == 0
  {
  }

  // A run that ends with what its last tag tags.
  predicate RunIsProper(es: seq<Item>) {
    AllProper(es) && (es != [] ==> !IsTag(es[|es| - 1]))
  }

  lemma ProperStep(es: seq<Item>)
    requires LeadingTags(es) < |es|
    ensures RunIsProper(es) <==> Proper(es[LeadingTags(es)]) && RunIsProper(AfterFirstValue(es))
    ensures DepthAll(es) == Max(Depth(es[LeadingTags(es)]), DepthAll(AfterFirstValue(es)))
    ensures Untagged(es) == 1 + Untagged(AfterFirstValue(es))
  {
    hide Proper, Depth;
    var vs, rest := FirstValue(es), AfterFirstValue(es);
    FirstValueSummary(es);
    ProperConcat(vs, rest);
    DepthConcat(vs, rest);
    UntaggedConcat(vs, rest);
    assert es[|es| - 1] == if rest == [] then es[LeadingTags(es)] else rest[|rest| - 1];
  }

  lemma EmptyIsProper()
    ensures RunIsProper([]) && Untagged([]) == 0 && DepthAll([]) == 0
  {
  }

  lemma OnlyTags(es: seq<Item>)
    requires es != [] && LeadingTags(es) == |es|
    ensures !RunIsProper(es)
  {
    assert IsTag(es[|es| - 1]);
  }

  lemma BeginsHasValue(ck: Checks, es: seq<Item>, p: nat, budget: nat)
    requires Begins(ck, es, p, budget)
    ensures LeadingTags(es) < |es|
  {
  }

  // ----- What an item takes from the budget: every container and every tag on the way costs one

  function Cost(i: Item): nat
    decreases i, 0
  {
    if i.Container? then 1 + CostAll(i.elems) else 0
  }

  function CostAll(es: seq<Item>): nat
    decreases es, 1
  {
    var k := LeadingTags(es);
    if k >= |es| then 0 else Max(k + Cost(es[k]), CostAll(AfterFirstValue(es)))
  }

  lemma {:induction false} CostStep(es: seq<Item>)
    requires LeadingTags(es) < |es|
    ensures CostAll(es) == Max(LeadingTags(es) + Cost(es[LeadingTags(es)]), CostAll(AfterFirstValue(es)))
  {
    hide LeadingTags, AfterFirstValue, Cost;
  }

  lemma NothingCosts()
    ensures CostAll([]) == 0
  {
  }

  lemma {:induction false} CostBoundsDepth(i: Item)
    ensures Proper(i) ==> Depth(i) <= Cost(i)
    decreases i, 0
  {
    if i.Container? {
      CostBoundsDepths(i.elems);
    }
  }

  lemma {:induction false} CostBoundsDepths(es: seq<Item>)
    ensures RunIsProper(es) ==> DepthAll(es) <= CostAll(es)
    decreases es, 1
  {
    hide Proper, Depth, Cost, RunIsProper, CostAll, DepthAll;
    if es == [] {
      EmptyIsProper();
    } else if LeadingTags(es) == |es| {
      OnlyTags(es);
    } else {
      ProperStep(es);
      CostStep(es);
      CostBoundsDepth(es[LeadingTags(es)]);
      CostBoundsDepths(AfterFirstValue(es));
    }
  }

  // ----- Keys

  // Tags and the element they lead to.
  predicate IsValueRun(vs: seq<Item>) {
    vs != [] && LeadingTags(vs) == |vs| - 1 && AllWellFormed(vs)
  }

  predicate AreValueRuns(ks: seq<seq<Item>>) {
    forall i | 0 <= i < |ks| :: IsValueRun(ks[i])
  }

  // The keys of a map, tags included.
  function KeyRuns(es: seq<Item>): (ks: seq<seq<Item>>)
    requires AllWellFormed(es)
    ensures AreValueRuns(ks)
  {
    if LeadingTags(es) >= |es| then []
    else
      FirstValueSummary(es);
      FirstValueRun(es);
      var rest := AfterFirstValue(es);
      if LeadingTags(rest) >= |rest| then [FirstValue(es)]
      else
        FirstValueSummary(rest);
        [FirstValue(es)] + KeyRuns(AfterFirstValue(rest))
  }

  lemma {:induction false} FirstValueRun(es: seq<Item>)
    requires LeadingTags(es) < |es|
    ensures LeadingTags(FirstValue(es)) == LeadingTags(es)
  {
    if IsTag(es[0]) {
      FirstValueRun(es[1..]);
      assert FirstValue(es)[1..] == FirstValue(es[1..]);
    }
  }

  function KeysOf(ks: seq<seq<Item>>): (keys: seq<Key>)
    requires AreValueRuns(ks)
    ensures |keys| == |ks| && forall i | 0 <= i < |ks| :: keys[i] == KeyOf(ks[i])
  {
    if ks == [] then [] else [KeyOf(ks[0])] + KeysOf(ks[1..])
  }

  // Each key is above the ones before it.
  ghost predicate Ascending(keys: seq<Key>, previous: Option<Key>) {
    && (forall i, j | 0 <= i < j < |keys| :: KeyLess(keys[i], keys[j]))
    && (previous.Some? ==> forall i | 0 <= i < |keys| :: KeyLess(previous.value, keys[i]))
  }

  // No key is below one before it.
  ghost predicate NeverDescending(keys: seq<Key>, previous: Option<Key>) {
    && (forall i, j | 0 <= i < j < |keys| :: !KeyLess(keys[j], keys[i]))
    && (previous.Some? ==> forall i | 0 <= i < |keys| :: !KeyLess(keys[i], previous.value))
  }

  // What a value run leads to.
  function LastOf(vs: seq<Item>): Item
    requires IsValueRun(vs)
  {
    vs[|vs| - 1]
  }

  // What the flags ask of the keys of a map. Either of the flags for known lengths and for sorted
  // keys has the order checked; all three flags together rule out equal keys.
  ghost predicate KeysMeet(ck: Checks, ks: seq<seq<Item>>, previous: Option<Key>)
    requires AreValueRuns(ks)
  {
    && (ck.keysAreStrings ==> forall i | 0 <= i < |ks| :: IsTextItem(LastOf(ks[i])))
    && (ck.noIndeterminate || ck.sorted ==> NeverDescending(KeysOf(ks), previous))
    && (ck.noIndeterminate && ck.sorted && ck.unique ==> Ascending(KeysOf(ks), previous))
  }

  // Neighbours in order put all keys in order.
  lemma KeyStep(ck: Checks, first: seq<Item>, ks: seq<seq<Item>>, previous: Option<Key>)
    requires IsValueRun(first) && AreValueRuns(ks)
    ensures AreValueRuns([first] + ks)
    ensures KeysMeet(ck, [first] + ks, previous) <==>
              && (ck.keysAreStrings ==> IsTextItem(LastOf(first)))
              && InOrder(ck, previous, KeyOf(first)) && KeysMeet(ck, ks, Some(KeyOf(first)))
  {
    hide KeyLess, CompareKeys, Ascending, NeverDescending, IsTextItem, KeyOf, LastOf, AllWellFormed;
    var all := [first] + ks;
    assert all[0] == first && all[1..] == ks && forall i | 0 <= i < |ks| :: all[i + 1] == ks[i];
    AscendingStep(KeyOf(first), KeysOf(ks), previous);
    NeverDescendingStep(KeyOf(first), KeysOf(ks), previous);
    if previous.Some? {
      KeyLessIsTotal(previous.value, KeyOf(first));
    }
  }

  lemma KeyLessIsTotal(k: Key, l: Key)
    ensures CompareKeys(k, l) < 0 <==> KeyLess(k, l)
    ensures CompareKeys(k, l) <= 0 <==> !KeyLess(l, k)
  {
    CompareKeysIsOrder(k, l);
    CompareKeysIsOrder(l, k);
    hide KeyLess;
    CompareFlips(k, l);
  }

  lemma CompareFlips(k: Key, l: Key)
    ensures CompareKeys(k, l) > 0 <==> CompareKeys(l, k) < 0
  {
    var n := if |k.bytes| <= |l.bytes| then |k.bytes| else |l.bytes|;
    BlocksFlip(k.bytes[..n], l.bytes[..n]);
  }

  lemma {:induction false} BlocksFlip(a: seq<byte>, b: seq<byte>)
    requires |a| == |b|
    ensures CompareBlocks(a, b) == -CompareBlocks(b, a)
  {
    if a != [] {
      BlocksFlip(a[1..], b[1..]);
    }
  }

  lemma AscendingStep(first: Key, keys: seq<Key>, previous: Option<Key>)
    ensures Ascending([first] + keys, previous) <==>
              (previous.Some? ==> KeyLess(previous.value, first)) && Ascending(keys, Some(first))
  {
    hide KeyLess;
    var all := [first] + keys;
    assert all[0] == first && forall i | 0 <= i < |keys| :: keys[i] == all[i + 1];
    assert forall i | 0 < i < |all| :: all[i] == keys[i - 1];
    if previous.Some? && KeyLess(previous.value, first) && Ascending(keys, Some(first)) {
      forall i | 0 <= i < |keys|
        ensures KeyLess(previous.value, keys[i])
      {
        KeyLessIsStrictOrder(previous.value, first, keys[i]);
      }
    }
  }

  lemma NeverDescendingStep(first: Key, keys: seq<Key>, previous: Option<Key>)
    ensures NeverDescending([first] + keys, previous) <==>
              (previous.Some? ==> !KeyLess(first, previous.value)) && NeverDescending(keys, Some(first))
  {
    hide KeyLess;
    var all := [first] + keys;
    assert all[0] == first && forall i | 0 <= i < |keys| :: keys[i] == all[i + 1];
    assert forall i | 0 < i < |all| :: all[i] == keys[i - 1];
    if previous.Some? && !KeyLess(first, previous.value) && NeverDescending(keys, Some(first)) {
      forall i | 0 <= i < |keys|
        ensures !KeyLess(keys[i], previous.value)
      {
        NotBelowTrans(previous.value, first, keys[i]);
      }
    }
  }

  lemma NotBelowTrans(k: Key, l: Key, m: Key)
    requires !KeyLess(l, k) && !KeyLess(m, l)
    ensures !KeyLess(m, k)
  {
    KeyLessIsTotal(k, l);
    KeyLessIsTotal(l, m);
    CompareKeysIsOrder(k, l);
    CompareKeysIsOrder(l, m);
    hide CompareKeys, KeyLess;
    KeyLessIsStrictOrder(k, l, m);
    KeyLessIsStrictOrder(k, m, k);
    if KeyLess(m, k) && KeyLess(k, l) {
      KeyLessIsStrictOrder(m, k, l);
    }
  }

  // ----- What the flags ask of single elements

  // The tag may stand before this element.
  predicate TagFits(ck: Checks, tag: nat, next: Item) {
    && !ck.noTags
    && (ck.tagUse ==>
          && (tag == 0 || 32 <= tag <= 36 ==> IsTextItem(next))
          && (tag == 1 ==> next.Atom? && next.major <= 1)
          && (tag in {2, 3, 24} ==> IsString(next) && next.major == 2)
          && (tag in {4, 5, 16, 17, 18, 96, 97, 98} ==> next.Container? && !next.isMap)
          && (21 <= tag <= 23 ==> next.Container? || (IsString(next) && next.major == 2)))
    && (tag !in {0, 1, 2, 3, 4, 5, 16, 17, 18, 21, 22, 23, 24, 32, 33, 34, 35, 36, 96, 97, 98, 55799} ==>
          && !(ck.noUnknownTagsSA && tag < 24)
          && !(ck.noUnknownTagsSA && ck.noUnknownTagsSR && tag < 256)
          && !(ck.noUnknownTagsSA && ck.noUnknownTagsSR && ck.noUnknownTags))
  }

  lemma TagFitsIsAdmitted(ck: Checks, tag: nat, next: Item)
    requires WellFormed(next)
    ensures TagFits(ck, tag, next) <==> AdmitsTag(ck, tag, TypeOfItem(next))
  {
    hide AdmitsTag, AllWellFormed, AllFit, Fits;
    TagIsAdmitted(ck, tag, TypeOfItem(next));
  }

  // Simple values other than the booleans, null and undefined have no meaning of their own; those
  // below 32 are one group and the others another.
  predicate AtomMeets(ck: Checks, w: nat, arg: nat) {
    if w >= 2 then ck.floatOk(w, arg)
    else if arg == 23 then !ck.noUndefined
    else if arg < 20 then !ck.noUnknownSimpleSA
    else if arg >= 32 then !(ck.noUnknownSimpleSA && ck.noUnknownSimple)
    else true
  }

  // The element at p meets the flags, and so does all that is in it.
  ghost predicate Meets(ck: Checks, i: Item, p: nat)
    requires WellFormed(i)
    decreases i, 0
  {
    match i
    case Atom(major, w, arg) => major == 7 ==> AtomMeets(ck, w, arg)
    case Str(major, w, data) => major == 3 ==> ck.chunkOk(p + 1 + w, |data|)
    case Chunked(major, chunks) => !ck.noIndeterminate && (major == 3 ==> ChunksMeet(ck, chunks, p + 1))
    case Container(isMap, width, elems) =>
      && (width.None? ==> !ck.noIndeterminate)
      && RunMeets(ck, elems, Inside(width, p))
      && (isMap ==> KeysMeet(ck, KeyRuns(elems), None))
  }

  // Where the payload of a chunk stands, when the head of the first is at p.
  function Payload(chunks: seq<Chunk>, k: nat, p: nat): nat
    requires k < |chunks|
  {
    p + ChunksSize(chunks[..k]) + chunks[k].w
  }

  // Every chunk passes the test at its own place.
  ghost predicate ChunksMeet(ck: Checks, chunks: seq<Chunk>, p: nat) {
    forall k | 0 <= k < |chunks| :: ck.chunkOk(Payload(chunks, k, p), |chunks[k].data|)
  }

  // The elements of a run meet the flags, and its tags fit what comes after them.
  ghost predicate RunMeets(ck: Checks, es: seq<Item>, p: nat)
    requires AllWellFormed(es)
    decreases es, 1
  {
    es == [] ||
    (&& Meets(ck, es[0], p)
     && (IsTag(es[0]) && |es| > 1 ==> TagFits(ck, es[0].arg, es[1]))
     && RunMeets(ck, es[1..], p + ItemSize(es[0])))
  }

  // ----- Admission is properness, cost and these

  lemma AdmittedAtom(ck: Checks, i: Item)
    requires i.Atom? && WellFormed(i)
    ensures AdmitsAtom(ck, i) <==> (i.major == 7 ==> AtomMeets(ck, i.w, i.arg))
  {
  }

  lemma {:induction false} AdmittedChunks(ck: Checks, chunks: seq<Chunk>, p: nat)
    ensures AdmitsChunks(ck, chunks, p) <==> ChunksMeet(ck, chunks, p)
  {
    hide ChunksMeet, Payload;
    if chunks != [] {
      var q := p + 1 + chunks[0].w + |chunks[0].data|;
      AdmittedChunks(ck, chunks[1..], q);
      ChunksMeetStep(ck, chunks, p, q);
    } else {
      NoChunksMeet(ck, p);
    }
  }

  lemma NoChunksMeet(ck: Checks, p: nat)
    ensures ChunksMeet(ck, [], p)
  {
  }

  lemma ChunksMeetStep(ck: Checks, chunks: seq<Chunk>, p: nat, q: nat)
    requires chunks != [] && q == p + 1 + chunks[0].w + |chunks[0].data|
    ensures ChunksMeet(ck, chunks, p) <==>
              ck.chunkOk(p + 1 + chunks[0].w, |chunks[0].data|) && ChunksMeet(ck, chunks[1..], q)
  {
    hide Payload;
    var rest := chunks[1..];
    forall k | 0 <= k < |rest|
      ensures Payload(chunks, k + 1, p) == Payload(rest, k, q) && rest[k] == chunks[k + 1]
    {
      LaterPayload(chunks, k, p);
    }
    FirstPayload(chunks, p);
    assert forall k | 0 < k < |chunks| :: Payload(chunks, k, p) == Payload(rest, k - 1, q) && chunks[k] == rest[k - 1];
  }

  lemma FirstPayload(chunks: seq<Chunk>, p: nat)
    requires chunks != []
    ensures Payload(chunks, 0, p) == p + 1 + chunks[0].w
  {
  }

  lemma LaterPayload(chunks: seq<Chunk>, k: nat, p: nat)
    requires k + 1 < |chunks|
    ensures Payload(chunks, k + 1, p) == Payload(chunks[1..], k, p + 1 + chunks[0].w + |chunks[0].data|)
  {
    assert chunks[..k + 1][1..] == chunks[1..][..k];
  }

  // An untagged item is admitted exactly when it is proper, costs less than the budget and meets the flags.
  lemma {:induction false} AdmittedItem(ck: Checks, i: Item, p: nat, budget: nat)
    requires WellFormed(i) && !IsTag(i) && budget > 0
    ensures AdmitsItem(ck, i, p, budget) <==> Proper(i) && Cost(i) < budget && Meets(ck, i, p)
    decreases i, 0
  {
    hide AdmitsAtom, AdmitsChunks, ChunksMeet, AtomMeets, KeysMeet;
    match i
    case Atom(_, _, _) => AdmittedAtom(ck, i);
    case Str(_, _, _) =>
    case Chunked(_, chunks) => AdmittedChunks(ck, chunks, p + 1);
    case Container(isMap, width, elems) =>
      ContainerElems(i);
      if budget > 1 {
        AdmittedElements(ck, isMap, elems, Inside(width, p), budget - 1);
      }
  }

  lemma {:induction false} AdmittedElements(ck: Checks, isMap: bool, es: seq<Item>, p: nat, budget: nat)
    requires AllWellFormed(es) && budget > 0
    ensures AdmitsElements(ck, isMap, es, p, budget) <==>
              && RunIsProper(es) && CostAll(es) < budget && RunMeets(ck, es, p)
              && (isMap ==> Untagged(es) % 2 == 0 && KeysMeet(ck, KeyRuns(es), None))
    decreases es, 5
  {
    hide RunIsProper, CostAll, RunMeets, KeysMeet, AdmitsArray, AdmitsPairs;
    if isMap {
      AdmittedPairs(ck, es, p, budget, None);
    } else {
      AdmittedArray(ck, es, p, budget);
    }
  }

  // A value with its tags.
  lemma {:induction false} AdmittedValue(ck: Checks, es: seq<Item>, p: nat, budget: nat)
    requires AllWellFormed(es) && LeadingTags(es) < |es| && budget > 0
    ensures AllWellFormed(FirstValue(es))
    ensures AdmitsFirst(ck, es, p, budget) <==>
              var k := LeadingTags(es);
              Proper(es[k]) && k + Cost(es[k]) < budget && RunMeets(ck, FirstValue(es), p)
    decreases es, 2
  {
    hide AdmitsItem, Proper, Cost, Meets, TagFits, AdmitsTag, WellFormed;
    FirstValueSummary(es);
    var vs := FirstValue(es);
    if IsTag(es[0]) {
      TagMeets(ck, es[0], p);
      assert vs[1..] == FirstValue(es[1..]);
      TagFitsIsAdmitted(ck, es[0].arg, es[1]);
      if budget > 1 {
        AdmittedValue(ck, es[1..], p + 1 + es[0].w, budget - 1);
      }
    } else {
      assert vs == [es[0]] && vs[1..] == [];
      AdmittedItem(ck, es[0], p, budget);
    }
  }

  lemma TagMeets(ck: Checks, i: Item, p: nat)
    requires IsTag(i) && WellFormed(i)
    ensures Meets(ck, i, p) && ItemSize(i) == 1 + i.w
  {
  }

  // A run meets the flags if its first value does and the rest does.
  lemma {:induction false} RunMeetsStep(ck: Checks, es: seq<Item>, p: nat)
    requires AllWellFormed(es) && LeadingTags(es) < |es|
    ensures AllWellFormed(FirstValue(es)) && AllWellFormed(AfterFirstValue(es))
    ensures RunMeets(ck, es, p) <==>
              RunMeets(ck, FirstValue(es), p) && RunMeets(ck, AfterFirstValue(es), AfterFirstAt(es, p))
  {
    hide Meets, TagFits, WellFormed, ItemSize;
    FirstValueSummary(es);
    var vs := FirstValue(es);
    if IsTag(es[0]) {
      RunMeetsStep(ck, es[1..], p + ItemSize(es[0]));
      assert vs[1..] == FirstValue(es[1..]);
      assert AfterFirstValue(es) == AfterFirstValue(es[1..]);
    } else {
      assert vs == [es[0]] && vs[1..] == [] && AfterFirstValue(es) == es[1..];
      assert RunSize(vs) == ItemSize(es[0]) + RunSize([]);
      assert RunMeets(ck, [], p + ItemSize(es[0]));
    }
  }

  lemma NothingMeets(ck: Checks, p: nat, previous: Option<Key>)
    ensures RunMeets(ck, [], p) && KeyRuns([]) == [] && KeysMeet(ck, [], previous)
  {
  }

  lemma {:induction false} AdmittedArray(ck: Checks, es: seq<Item>, p: nat, budget: nat)
    requires AllWellFormed(es) && budget > 0
    ensures AdmitsArray(ck, es, p, budget) <==> RunIsProper(es) && CostAll(es) < budget && RunMeets(ck, es, p)
    decreases es, 4
  {
    hide AdmitsFirst, Proper, Cost, RunIsProper, RunMeets, CostAll, AllWellFormed;
    if es == [] {
      EmptyIsProper();
      NothingCosts();
      NothingMeets(ck, p, None);
    } else if LeadingTags(es) == |es| {
      OnlyTags(es);
    } else {
      FirstAndRest(ck, es, p, budget);
      AdmittedArray(ck, AfterFirstValue(es), AfterFirstAt(es, p), budget);
    }
  }

  // The first value of a run, with its tags, against the rest.
  lemma {:induction false} FirstAndRest(ck: Checks, es: seq<Item>, p: nat, budget: nat)
    requires AllWellFormed(es) && budget > 0 && LeadingTags(es) < |es|
    ensures AllWellFormed(FirstValue(es)) && AllWellFormed(AfterFirstValue(es))
    ensures Untagged(es) == 1 + Untagged(AfterFirstValue(es))
    ensures var rest := AfterFirstValue(es);
            RunIsProper(es) && CostAll(es) < budget && RunMeets(ck, es, p) <==>
            Begins(ck, es, p, budget) && RunIsProper(rest) && CostAll(rest) < budget
            && RunMeets(ck, rest, AfterFirstAt(es, p))
    decreases es, 3
  {
    hide AdmitsFirst, Proper, Cost, RunIsProper, CostAll, AllWellFormed, Untagged, RunMeets;
    AdmittedValue(ck, es, p, budget);
    FirstValueSummary(es);
    ProperStep(es);
    CostStep(es);
    RunMeetsStep(ck, es, p);
  }

  lemma {:induction false} AdmittedPairs(ck: Checks, es: seq<Item>, p: nat, budget: nat, previous: Option<Key>)
    requires AllWellFormed(es) && budget > 0
    ensures AdmitsPairs(ck, es, p, budget, previous) <==>
              && RunIsProper(es) && CostAll(es) < budget && RunMeets(ck, es, p)
              && Untagged(es) % 2 == 0 && KeysMeet(ck, KeyRuns(es), previous)
    decreases es, 4
  {
    hide Begins, Proper, Cost, RunIsProper, AdmitsPairs, KeyOf, CostAll, AllWellFormed, Untagged, RunMeets, KeysMeet,
         KeyRuns, InOrder, IsTextItem, LeadingTags, FirstValue, AfterFirstAt;
    PairUnfold(ck, es, p, budget, previous);
    if es == [] {
      EmptyIsProper();
      NothingCosts();
      NothingMeets(ck, p, previous);
    } else if LeadingTags(es) == |es| {
      OnlyTags(es);
    } else {
      FirstAndRest(ck, es, p, budget);
      var rest := AfterFirstValue(es);
      if rest == [] {
        EmptyIsProper();
      } else if LeadingTags(rest) == |rest| {
        OnlyTags(rest);
      } else {
        FirstAndRest(ck, rest, AfterFirstAt(es, p), budget);
        var last := AfterFirstValue(rest);
        var first := KeysUnfold(es);
        AdmittedPairs(ck, last, AfterFirstAt(rest, AfterFirstAt(es, p)), budget, Some(KeyOf(first)));
        KeyStep(ck, first, KeyRuns(last), previous);
        assert Untagged(es) == 2 + Untagged(last);
      }
    }
  }

  lemma KeysUnfold(es: seq<Item>) returns (first: seq<Item>)
    requires AllWellFormed(es) && LeadingTags(es) < |es| && LeadingTags(AfterFirstValue(es)) < |AfterFirstValue(es)|
    ensures first == FirstValue(es) && IsValueRun(first) && LastOf(first) == es[LeadingTags(es)]
    ensures var last := AfterFirstValue(AfterFirstValue(es));
            AllWellFormed(last) && KeyRuns(es) == [first] + KeyRuns(last)
  {
    first := FirstValue(es);
    FirstValueSummary(es);
    FirstValueRun(es);
    FirstValueSummary(AfterFirstValue(es));
  }

  lemma PairUnfold(ck: Checks, es: seq<Item>, p: nat, budget: nat, previous: Option<Key>)
    requires AllWellFormed(es)
    ensures es == [] ==> AdmitsPairs(ck, es, p, budget, previous)
    ensures AdmitsPairs(ck, es, p, budget, previous) && es != [] ==>
              LeadingTags(es) < |es| && LeadingTags(AfterFirstValue(es)) < |AfterFirstValue(es)|
    ensures es != [] && LeadingTags(es) < |es| && LeadingTags(AfterFirstValue(es)) < |AfterFirstValue(es)| ==>
              AllWellFormed(FirstValue(es)) &&
              var rest, key := AfterFirstValue(es), KeyOf(FirstValue(es));
              (AdmitsPairs(ck, es, p, budget, previous) <==>
                 && Begins(ck, es, p, budget) && Begins(ck, rest, AfterFirstAt(es, p), budget)
                 && (ck.keysAreStrings ==> IsTextItem(es[LeadingTags(es)])) && InOrder(ck, previous, key)
                 && AdmitsPairs(ck, AfterFirstValue(rest), AfterFirstAt(rest, AfterFirstAt(es, p)), budget, Some(key)))
  {
    hide AdmitsFirst, KeyOf, InOrder, IsTextItem;
    if es != [] && AdmitsPairs(ck, es, p, budget, previous) {
      BeginsHasValue(ck, es, p, budget);
      assert AdmitsMapped(ck, AfterFirstValue(es), AfterFirstAt(es, p), budget, KeyOf(FirstValue(es)));
      BeginsHasValue(ck, AfterFirstValue(es), AfterFirstAt(es, p), budget);
    }
    if LeadingTags(es) < |es| {
      FirstValueSummary(es);
      FirstUntaggedIs(es);
    }
  }

  lemma {:induction false} FirstUntaggedIs(es: seq<Item>)
    requires LeadingTags(es) < |es|
    ensures FirstUntagged(es) == Some(es[LeadingTags(es)])
  {
    if IsTag(es[0]) {
      FirstUntaggedIs(es[1..]);
    }
  }
}
