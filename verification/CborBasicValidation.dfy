/**
 Validation without any flag: exactly what it accepts, and exactly where its verdict is that of
 the basic validation, which only advances the iterator.
 */
module CborBasicValidation {
  import opened Options
  import opened CborHeads
  import opened CborSyntax
  import opened CborValues
  import opened CborGrammar
  import opened CborValidator
  import opened CborValidation
  import opened CborAdmission
  import opened CborValidationLaws

  // ----- Validation without any flag

  ghost predicate Plain(ck: Checks) {
    && !ck.noIndeterminate && !ck.sorted && !ck.unique && !ck.tagUse && !ck.keysAreStrings
    && !ck.noUndefined && !ck.noTags && !ck.noUnknownSimpleSA && !ck.noUnknownSimple
    && !ck.noUnknownTagsSA && !ck.noUnknownTagsSR && !ck.noUnknownTags
    && (forall w, bits :: ck.floatOk(w, bits)) && (forall from, len :: ck.chunkOk(from, len))
  }

  lemma {:induction false} PlainMeets(ck: Checks, i: Item, p: nat)
    requires Plain(ck) && WellFormed(i)
    ensures Meets(ck, i, p)
    decreases i, 0
  {
    if i.Container? {
      ContainerElems(i);
      PlainRunMeets(ck, i.elems, Inside(i.width, p));
    }
  }

  lemma {:induction false} PlainRunMeets(ck: Checks, es: seq<Item>, p: nat)
    requires Plain(ck) && AllWellFormed(es)
    ensures RunMeets(ck, es, p)
    decreases es, 1
  {
    hide Meets;
    if es != [] {
      PlainMeets(ck, es[0], p);
      PlainRunMeets(ck, es[1..], p + ItemSize(es[0]));
    }
  }

  // ----- The two verdicts

  // Without flags the validator takes, wherever the iterator is, exactly the values of the
  // grammar within its budget, when what follows them is reachable.
  lemma BasicValidation(s: seq<byte>, p: nat, ck: Checks, c: Count)
    requires Plain(ck) && p <= |s| && c != Exactly(0)
    ensures var v := ParseRun(s, p, Exactly(1));
            Good(s, p, ck, c, MAX_RECURSIONS) <==>
            v.Ok? && WithinBudget(v.val) && Reachable(s, v.next, AfterValue(c))
  {
    hide HeadAt, ParseRun, AdmitsFirst, WithinBudget, RunMeets, Reachable;
    ValidationIs(s, p, ck, c);
    var v := ParseRun(s, p, Exactly(1));
    if v.Ok? {
      PlainRunMeets(ck, v.val, p);
    }
  }

  // What the basic validation accepts: one element of any kind, so of a tagged value the first tag.
  predicate BasicallyValid(s: seq<byte>, p: nat, c: Count)
    requires c != Exactly(0)
  {
    var i := ParseItem(s, p);
    i.Ok? && Depth(i.val) <= MAX_RECURSIONS && Reachable(s, i.next, After(c, i.val))
  }

  // The validator never takes more, and the two differ exactly where the parser gets past the
  // first element and the whole value, tags and all, is missing, improper, over the budget or
  // without a successor.
  lemma VerdictsAgree(s: seq<byte>, p: nat, ck: Checks, c: Count)
    requires Plain(ck) && HeadAt(s, p).Some? && c != Exactly(0)
    ensures Good(s, p, ck, c, MAX_RECURSIONS) ==> BasicallyValid(s, p, c)
    ensures var h, i, v := HeadAt(s, p).value, ParseItem(s, p), ParseRun(s, p, Exactly(1));
            (Good(s, p, ck, c, MAX_RECURSIONS) <==> BasicallyValid(s, p, c)) <==>
            if IsTagHead(h) then
              Reachable(s, p + Size(h), c) ==> v.Ok? && WithinBudget(v.val) && Reachable(s, v.next, AfterValue(c))
            else
              i.Ok? && Depth(i.val) <= MAX_RECURSIONS && Reachable(s, i.next, AfterValue(c)) ==>
                Proper(i.val) && Cost(i.val) < MAX_RECURSIONS
  {
    hide HeadAt, Proper, Cost, Depth, AdmitsFirst, AdmitsItem, Reachable;
    BasicValidation(s, p, ck, c);
    ValueStep(s, p);
    var h, i := HeadAt(s, p).value, ParseItem(s, p);
    if i.Ok? {
      HeadOfItem(s, p);
      if IsTagHead(h) {
        TagParses(s, p, c);
      } else {
        SingleWithinBudget(i.val);
        RunSound(s, p, Exactly(1));
        CostBoundsDepth(i.val);
      }
    } else if IsTagHead(h) {
      TagParses(s, p, c);
    }
  }

  lemma TagParses(s: seq<byte>, p: nat, c: Count)
    requires HeadAt(s, p).Some? && IsTagHead(HeadAt(s, p).value) && c != Exactly(0)
    ensures var i := ParseItem(s, p);
            && i.Ok? && IsTag(i.val) && Depth(i.val) == 0 && i.next == p + Size(HeadAt(s, p).value)
            && After(c, i.val) == c
            && (ParseRun(s, p, Exactly(1)).Ok? ==> Reachable(s, i.next, c))
  {
    hide HeadAt;
    AtomHere(s, p);
    ValueStep(s, p);
    if HeadAt(s, ParseItem(s, p).next).None? {
      NoValue(s, ParseItem(s, p).next);
    }
  }

  lemma SingleWithinBudget(i: Item)
    ensures !IsTag(i) ==> (WithinBudget([i]) <==> Proper(i) && Cost(i) < MAX_RECURSIONS)
  {
    hide Proper, Cost;
  }

  // Both validations of one iterator.
  method BothVerdicts(it: CborValue, ck: Checks) returns (full: CborError, basic: CborError)
    requires it.Positioned() && Plain(ck)
    ensures full == NoError <==> Good(it.data, it.ptr, ck, CountOf(it.remaining), MAX_RECURSIONS)
    ensures basic == NoError <==> BasicallyValid(it.data, it.ptr, CountOf(it.remaining))
    ensures full == NoError ==> basic == NoError
  {
    hide HeadAt, ParseItem, ParseRun, Reachable, AdmitsFirst;
    VerdictsAgree(it.data, it.ptr, ck, CountOf(it.remaining));
    var end;
    full, end := Validate(it, ck);
    basic := it.ValidateBasic();
  }

  // ----- Inputs on which the verdicts differ

  // A tag before an array that is not all there: the tag alone can be passed.
  lemma TagAloneDiffers(ck: Checks)
    requires Plain(ck)
    ensures var s := [0xc1, 0x82];
            BasicallyValid(s, 0, Exactly(1)) && !Good(s, 0, ck, Exactly(1), MAX_RECURSIONS)
  {
    var s: seq<byte> := [0xc1, 0x82];
    assert HeadAt(s, 0) == Some(Sized(MAJOR_TAG, 0, 1));
    assert HeadAt(s, 1) == Some(Sized(MAJOR_ARRAY, 0, 2));
    assert HeadAt(s, 2).None?;
    AtomHere(s, 0);
    BasicValidation(s, 0, ck, Exactly(1));
    ValueStep(s, 0);
    ValueStep(s, 1);
    hide HeadAt;
    assert ParseItem(s, 2).Fail?;
    assert ParseRun(s, 2, Exactly(2)).Fail?;
    assert ParseItem(s, 1).Fail?;
  }

  function Tags(n: nat): seq<Item> {
    if n == 0 then [] else [Atom(MAJOR_TAG, 0, 1)] + Tags(n - 1)
  }

  const ZERO := Atom(MAJOR_UNSIGNED, 0, 0)

  lemma {:induction false} TaggedZero(n: nat)
    ensures var es := Tags(n) + [ZERO];
            && AllWellFormed(es) && RunIsProper(es) && Untagged(es) == 1 && LeadingTags(es) == n == |es| - 1
            && DepthAll(es) == 0
  {
    var es := Tags(n) + [ZERO];
    if n > 0 {
      TaggedZero(n - 1);
      assert es[1..] == Tags(n - 1) + [ZERO];
    } else {
      assert es == [ZERO] && es[1..] == [];
    }
  }

  // An array of one number behind 1023 tags: the parser nests once, the validator's budget is spent.
  lemma ChargedTagsDiffer(ck: Checks)
    requires Plain(ck)
    ensures var i := Container(false, Some(0), Tags(1023) + [ZERO]);
            && WellFormed(i) && Proper(i)
            && BasicallyValid(ItemBytes(i), 0, Exactly(1)) && !Good(ItemBytes(i), 0, ck, Exactly(1), MAX_RECURSIONS)
  {
    hide Tags;
    var es := Tags(1023) + [ZERO];
    TaggedZero(1023);
    var i := Container(false, Some(0), es);
    assert WellFormed(i) && Proper(i) && Depth(i) == 1;
    CostStep(es);
    assert Cost(i) >= 1024;
    Differs(i, ck);
  }

  // A proper item the parser can pass and whose cost is beyond the budget.
  lemma Differs(i: Item, ck: Checks)
    requires Plain(ck) && WellFormed(i) && !IsTag(i) && Depth(i) <= MAX_RECURSIONS <= Cost(i)
    ensures BasicallyValid(ItemBytes(i), 0, Exactly(1)) && !Good(ItemBytes(i), 0, ck, Exactly(1), MAX_RECURSIONS)
  {
    hide HeadAt, Proper, Cost, Depth, WellFormed, ItemBytes, ParseItem;
    var s := ItemBytes(i);
    assert s[0..|s|] == s;
    StandsSlice(s, 0, s);
    ItemComplete(s, 0, i);
    StartsWithHead(s);
    BasicValidation(s, 0, ck, Exactly(1));
    ValueStep(s, 0);
    SingleWithinBudget(i);
  }

  lemma StartsWithHead(s: seq<byte>)
    requires ParseItem(s, 0).Ok?
    ensures HeadAt(s, 0).Some?
  {
  }

  function Nest(n: nat): Item {
    if n == 0 then ZERO else Container(false, Some(0), [Nest(n - 1)])
  }

  lemma {:induction false} NestDepth(n: nat)
    ensures var i := Nest(n); WellFormed(i) && !IsTag(i) && Proper(i) && Depth(i) == n && Cost(i) == n
  {
    if n > 0 {
      NestDepth(n - 1);
      var es := [Nest(n - 1)];
      assert es[1..] == [] && Untagged(es) == 1;
      assert AllWellFormed(es) && AllProper(es);
      CostStep(es);
    }
  }

  // Arrays 1024 deep: the parser's limit is met, the validator's is passed.
  lemma DeepestNestDiffers(ck: Checks)
    requires Plain(ck)
    ensures var i := Nest(1024);
            && WellFormed(i) && Proper(i)
            && BasicallyValid(ItemBytes(i), 0, Exactly(1)) && !Good(ItemBytes(i), 0, ck, Exactly(1), MAX_RECURSIONS)
  {
    hide Nest;
    NestDepth(1024);
    Differs(Nest(1024), ck);
  }
}
