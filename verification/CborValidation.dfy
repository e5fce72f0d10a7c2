/**
 The validator's methods over the shared iterator, proved to accept exactly the runs of
 elements that the checks admit.
 */
module CborValidation {
  import opened Options
  import opened CborHeads
  import opened CborSyntax
  import opened CborValues
  import opened CborSearch
  import opened CborValidator

  // ----- Values: tags and what they tag

  lemma {:induction false} ValueShape(s: seq<byte>, p: nat)
    requires p <= |s| && ParseRun(s, p, Exactly(1)).Ok?
    ensures var es := ParseRun(s, p, Exactly(1)).val;
            es != [] && LeadingTags(es) == |es| - 1
    decreases |s| - p
  {
    hide HeadAt, ParseItem;
    var i := ParseItem(s, p);
    if IsTag(i.val) {
      ValueShape(s, i.next);
      assert ([i.val] + ParseRun(s, i.next, Exactly(1)).val)[1..] == ParseRun(s, i.next, Exactly(1)).val;
    }
  }

  lemma Regrouped(i: Item, es: seq<Item>, fs: seq<Item>)
    ensures [i] + (es + fs) == [i] + es + fs
  {
  }

  // The value at p is the beginning of the run at p.
  lemma {:induction false} ValueInRun(s: seq<byte>, p: nat, c: Count)
    requires p <= |s| && c != Exactly(0) && !BreaksAt(s, p, c)
    ensures var v, r := ParseRun(s, p, Exactly(1)), ParseRun(s, p, c);
            && (v.Ok? ==> RunContinues(r, v.val, ParseRun(s, v.next, AfterValue(c))))
            && (v.Fail? && r.Ok? ==> LeadingTags(r.val) == |r.val|)
    decreases |s| - p
  {
    hide HeadAt, ParseItem;
    var i := ParseItem(s, p);
    if i.Ok? && IsTag(i.val) {
      var v, r := ParseRun(s, i.next, Exactly(1)), ParseRun(s, i.next, c);
      if BreaksAt(s, i.next, c) {
        BreakIsNoValue(s, i.next);
        assert r.val == [];
      } else {
        ValueInRun(s, i.next, c);
        if v.Ok? && r.Ok? {
          Regrouped(i.val, v.val, ParseRun(s, v.next, AfterValue(c)).val);
        }
      }
      if r.Ok? {
        assert ([i.val] + r.val)[1..] == r.val;
      }
    }
  }

  lemma {:induction false} AdmitsFirstPrefix(ck: Checks, es: seq<Item>, rest: seq<Item>, p: nat, budget: nat)
    requires es != [] && LeadingTags(es) == |es| - 1
    ensures AdmitsFirst(ck, es + rest, p, budget) == AdmitsFirst(ck, es, p, budget)
    ensures LeadingTags(es + rest) == |es| - 1
  {
    if IsTag(es[0]) {
      assert (es + rest)[1..] == es[1..] + rest;
      if budget > 1 {
        AdmitsFirstPrefix(ck, es[1..], rest, p + 1 + es[0].w, budget - 1);
      } else {
        AdmitsFirstPrefix(ck, es[1..], rest, p, 2);
      }
    }
  }

  // What the iterator knows of an element before reading it.
  lemma HeadOfItem(s: seq<byte>, p: nat)
    requires ParseItem(s, p).Ok?
    ensures var i := ParseItem(s, p).val;
            var h := HeadAt(s, p).value;
            && HeadAt(s, p).Some? && TypeOfItem(i) == TypeOf(h)
            && (h.Indefinite? <==> i.Chunked? || (i.Container? && i.width.None?))
            && (h.Sized? ==> HeadArg(i) == h.arg)
            && IsTag(i) == (TypeOf(h) == TAG_TYPE) && IsTextItem(i) == (TypeOf(h) == TEXT_STRING_TYPE)
            && i.Atom? == IsFixedType(TypeOf(h))
            && i.Container? == (TypeOf(h) == ARRAY_TYPE || TypeOf(h) == MAP_TYPE)
  {
    hide HeadAt, ParseRun, AllWellFormed, Stands;
    var h := HeadAt(s, p).value;
    if h.Sized? && !IsAtomMajor(h.major) && !IsStringMajor(h.major) {
      var c := Counted(h.major == MAJOR_MAP, h.arg).value;
      RunSound(s, p + 1 + h.w, c);
    }
  }

  // ----- The methods

  // A value stands at p, the checks admit it, and what follows it is reachable.
  ghost predicate Good(s: seq<byte>, p: nat, ck: Checks, c: Count, budget: nat)
    requires p <= |s| && c != Exactly(0)
  {
    var v := ParseRun(s, p, Exactly(1));
    v.Ok? && AdmitsFirst(ck, v.val, p, budget) && Reachable(s, v.next, AfterValue(c))
  }

  method ValidateAtom(it: CborValue, ck: Checks) returns (err: CborError)
    requires it.Positioned() && IsFixedType(it.typ) && it.typ != TAG_TYPE
    modifies it
    ensures it.Valid()
    ensures var i, c := old(it.Here()), CountOf(old(it.remaining));
            && (err == NoError <==> AdmitsAtom(ck, i.val) && Reachable(it.data, i.next, AfterValue(c)))
            && (err == NoError ==> it.Arrived(i.next, AfterValue(c)))
  {
    hide HeadAt, Reachable, FromBigEndian;
    AtomHere(it.data, it.ptr);
    HeadOfItem(it.data, it.ptr);
    if it.typ == SIMPLE_TYPE {
      var n := it.GetSimpleType();
      if !AdmitsSimple(ck, n) {
        return IllegalType;
      }
    } else if it.typ == UNDEFINED_TYPE {
      if ck.noUndefined {
        return IllegalType;
      }
    } else if it.typ == HALF_FLOAT_TYPE {
      var bits := it.GetHalfFloat();
      if !ck.floatOk(2, bits) {
        return IllegalType;
      }
    } else if it.typ == FLOAT_TYPE || it.typ == DOUBLE_TYPE {
      var bits := it.ExtractInt64();
      if !ck.floatOk(if it.typ == FLOAT_TYPE then 4 else 8, bits) {
        return IllegalType;
      }
    }
    err := it.AdvanceFixed();
  }

  method ValidateString(it: CborValue, ck: Checks) returns (err: CborError)
    requires it.Positioned() && it.AtString() && (it.unknownLength ==> !ck.noIndeterminate)
    modifies it
    ensures it.Valid()
    ensures var i, c := old(it.Here()), CountOf(old(it.remaining));
            && (err == NoError <==>
                i.Ok? && AdmitsString(ck, i.val, old(it.ptr)) && Reachable(it.data, i.next, AfterValue(c)))
            && (err == NoError ==> it.Arrived(i.next, AfterValue(c)))
  {
    hide HeadAt, Reachable, StringRest, ParseItem, Content, FirstChunk, AdmitsChunks, AdmitsString;
    StringRestIsItem(it.data, it.ptr);
    ghost var p, i, whole, after := it.ptr, it.Here(), it.RestOfString(), it.AfterString();
    var isText := it.typ == TEXT_STRING_TYPE;
    if i.Ok? {
      HeadOfItem(it.data, it.ptr);
      StringAdmits(ck, i.val, p);
    }
    err := it.PrepareStringIteration();
    if err != NoError {
      return;
    }
    while true
      invariant it.AtString() && (it.negative || it.Positioned()) && it.AfterString() == after
      invariant var rest := it.RestOfString();
                && (whole.Ok? <==> rest.Ok?)
                && (whole.Ok? ==> whole.next == rest.next)
                && (whole.Ok? && isText ==> AdmitsString(ck, i.val, p) == AdmitsChunks(ck, rest.val, it.NextHead()))
      decreases |it.data| - it.ptr
    {
      ghost var at, rest := it.NextHead(), it.RestOfString();
      var chunk;
      err, chunk := it.GetStringChunk();
      if err != NoError {
        return;
      }
      if chunk.None? {
        NoChunks(ck, at);
        break;
      }
      var (from, len) := chunk.value;
      ChunkAdmits(ck, it.data, at, rest, from, len, it.RestOfString());
      if isText && !ck.chunkOk(from, len) {
        return IllegalType;
      }
    }
  }

  // A string's checks are those of its chunks.
  lemma StringAdmits(ck: Checks, i: Item, p: nat)
    requires IsString(i) && (i.Chunked? ==> !ck.noIndeterminate)
    ensures i.major != MAJOR_TEXT ==> AdmitsString(ck, i, p)
    ensures i.major == MAJOR_TEXT && i.Str? ==> AdmitsString(ck, i, p) == AdmitsChunks(ck, [Chunk(i.w, i.data)], p)
    ensures i.major == MAJOR_TEXT && i.Chunked? ==> AdmitsString(ck, i, p) == AdmitsChunks(ck, i.chunks, p + 1)
  {
  }

  lemma NoChunks(ck: Checks, p: nat)
    ensures AdmitsChunks(ck, [], p)
  {
  }

  lemma ChunkAdmits(ck: Checks, s: seq<byte>, p: nat, whole: Parsed<seq<Chunk>>, from: nat, len: nat,
                    rest: Parsed<seq<Chunk>>)
    requires FirstChunk(s, p, whole, from, len, rest)
    ensures whole.Ok? <==> rest.Ok?
    ensures whole.Ok? ==>
              && whole.next == rest.next
              && (AdmitsChunks(ck, whole.val, p) <==> ck.chunkOk(from, len) && AdmitsChunks(ck, rest.val, from + len))
  {
  }

  // Tags, and the element they lead to. At the end of a container there is no value.
  method ValidateValue(it: CborValue, ck: Checks, recursionLeft: nat) returns (err: CborError)
    requires it.Resting() && Usable(ck) && recursionLeft > 0
    modifies it
    ensures it.Valid()
    ensures old(it.remaining) == 0 ==> err != NoError
    ensures old(it.remaining) > 0 ==>
              var v, c := ParseRun(it.data, old(it.ptr), Exactly(1)), CountOf(old(it.remaining));
              && (err == NoError <==> Good(it.data, old(it.ptr), ck, c, recursionLeft))
              && (err == NoError ==> it.Arrived(v.next, AfterValue(c)))
    decreases recursionLeft, 3
  {
    hide HeadAt, Reachable, ParseItem, ParseRun, AdmitsAtom, AdmitsString, AdmitsTag, AdmitsElements, Content;
    if it.unknownLength && ck.noIndeterminate {
      if it.remaining > 0 {
        RejectsIndefinite(it, ck, recursionLeft);
      }
      return UnknownLength;
    }
    if it.typ == INVALID_TYPE {
      return UnknownType;
    }
    ghost var i := it.Here();
    ValueStep(it.data, it.ptr);
    if i.Ok? {
      HeadOfItem(it.data, it.ptr);
      AdmitsSingle(ck, i.val, it.ptr, recursionLeft);
    }
    if it.typ == ARRAY_TYPE || it.typ == MAP_TYPE {
      err := ValidateNested(it, ck, recursionLeft);
    } else if it.typ == BYTE_STRING_TYPE || it.typ == TEXT_STRING_TYPE {
      err := ValidateString(it, ck);
    } else if it.typ == TAG_TYPE {
      err := ValidateTagged(it, ck, recursionLeft);
    } else {
      AtomHere(it.data, it.ptr);
      err := ValidateAtom(it, ck);
    }
  }

  lemma AdmitsSingle(ck: Checks, i: Item, p: nat, budget: nat)
    ensures !IsTag(i) ==> AdmitsFirst(ck, [i], p, budget) == AdmitsItem(ck, i, p, budget)
    ensures i.Atom? ==> AdmitsItem(ck, i, p, budget) == AdmitsAtom(ck, i)
    ensures IsString(i) ==> AdmitsItem(ck, i, p, budget) == AdmitsString(ck, i, p)
  {
  }

  lemma RejectsIndefinite(it: CborValue, ck: Checks, budget: nat)
    requires it.Resting() && it.unknownLength && ck.noIndeterminate && it.remaining > 0
    ensures var v := ParseRun(it.data, it.ptr, Exactly(1));
            v.Ok? ==> !AdmitsFirst(ck, v.val, it.ptr, budget)
  {
    hide HeadAt;
    ValueStep(it.data, it.ptr);
    if it.Here().Ok? {
      HeadOfItem(it.data, it.ptr);
    }
  }

  method ValidateNested(it: CborValue, ck: Checks, recursionLeft: nat) returns (err: CborError)
    requires it.Positioned() && (it.typ == ARRAY_TYPE || it.typ == MAP_TYPE) && Usable(ck) && recursionLeft > 0
    requires it.unknownLength ==> !ck.noIndeterminate
    modifies it
    ensures it.Valid()
    ensures var i, c := old(it.Here()), CountOf(old(it.remaining));
            && (err == NoError <==>
                  i.Ok? && AdmitsItem(ck, i.val, old(it.ptr), recursionLeft)
                    && Reachable(it.data, i.next, AfterValue(c)))
            && (err == NoError ==> it.Arrived(i.next, AfterValue(c)))
    decreases recursionLeft, 1
  {
    hide HeadAt, Reachable, ParseItem, ParseRun, AdmitsElements, WellFormed;
    ghost var i, start := it.Here(), Opening(it.data, it.ptr);
    ContainerHere(it.data, it.ptr);
    var isMap := it.typ == MAP_TYPE;
    var recursed;
    err, recursed := it.EnterContainer();
    if err != NoError {
      if start.Some? {
        UnreachableRun(it.data, start.value.0, start.value.1);
      }
      it.ptr := recursed.ptr;
      return;
    }
    recursed.ArrivedRun(start.value.0, start.value.1);
    EnteredAt(recursed, start.value.0, start.value.1, ck, isMap, recursionLeft - 1);
    err := ValidateContainer(recursed, isMap, ck, recursionLeft - 1);
    if err != NoError {
      it.ptr := recursed.ptr;
      return;
    }
    err := it.LeaveContainer(recursed);
  }

  // The elements of an entered container stand where the iterator is, if there are any.
  lemma EnteredAt(it: CborValue, q: nat, c: Count, ck: Checks, isMap: bool, budget: nat)
    requires q <= |it.data| && it.Arrived(q, c) && c != Exactly(UINT32_MAX)
    ensures var r := ParseRun(it.data, q, c);
            r.Ok? ==> AdmitsElements(ck, isMap, r.val, it.ptr, budget) == AdmitsElements(ck, isMap, r.val, q, budget)
  {
    hide HeadAt, ParseItem, AdmitsArray, AdmitsPairs;
    EmptyRun(ck, q, budget, None);
    EmptyRun(ck, it.ptr, budget, None);
    it.ArrivedRun(q, c);
    FirstOfRun(it);
  }

  method ValidateTagged(it: CborValue, ck: Checks, recursionLeft: nat) returns (err: CborError)
    requires it.Positioned() && it.typ == TAG_TYPE && Usable(ck) && recursionLeft > 0
    modifies it
    ensures it.Valid()
    ensures var v, c := ParseRun(it.data, old(it.ptr), Exactly(1)), CountOf(old(it.remaining));
            && (err == NoError <==> Good(it.data, old(it.ptr), ck, c, recursionLeft))
            && (err == NoError ==> it.Arrived(v.next, AfterValue(c)))
    decreases recursionLeft, 1
  {
    hide HeadAt, Reachable, ParseItem, ParseRun, AdmitsElements, AdmitsItem, AdmitsTag;
    ghost var p, i, c := it.ptr, it.Here(), CountOf(it.remaining);
    AtomHere(it.data, it.ptr);
    ValueStep(it.data, it.ptr);
    var tag := it.ExtractInt64();
    err := it.AdvanceFixed();
    if err != NoError {
      UnreachableValue(it.data, i.next, c);
      return;
    }
    ghost var v := ParseRun(it.data, i.next, Exactly(1));
    it.ArrivedRun(i.next, c);
    TagThenValue(it, ck, i.val, p, i.next, c, recursionLeft);
    if recursionLeft - 1 == 0 {
      return NestingTooDeep;
    }
    var ok := CheckTag(ck, tag, it.typ);
    if !ok {
      return IllegalType;
    }
    err := ValidateValue(it, ck, recursionLeft - 1);
  }

  lemma UnreachableValue(s: seq<byte>, p: nat, c: Count)
    requires p <= |s| && c != Exactly(0) && !Reachable(s, p, c)
    ensures ParseRun(s, p, Exactly(1)).Fail?
  {
    NoValue(s, p);
  }

  // A tag and the value it tags, which is none when the tag stands before a break.
  lemma TagThenValue(it: CborValue, ck: Checks, tag: Item, at: nat, p: nat, c: Count, budget: nat)
    requires IsTag(tag) && p == at + 1 + tag.w <= |it.data| && it.Arrived(p, c) && c != Exactly(0)
    ensures it.remaining == 0 ==> ParseRun(it.data, p, Exactly(1)).Fail?
    ensures var v := ParseRun(it.data, p, Exactly(1));
            v.Ok? ==>
              && it.ptr == p
              && (AdmitsFirst(ck, [tag] + v.val, at, budget) <==>
                    budget > 1 && AdmitsTag(ck, tag.arg, it.typ) && AdmitsFirst(ck, v.val, p, budget - 1))
  {
    hide HeadAt, AdmitsTag, AdmitsItem;
    var v := ParseRun(it.data, p, Exactly(1));
    if BreaksAt(it.data, p, c) {
      BreakIsNoValue(it.data, p);
    } else {
      ValueStep(it.data, p);
      if v.Ok? {
        ValueShape(it.data, p);
        HeadOfItem(it.data, p);
        assert ([tag] + v.val)[1..] == v.val;
      }
    }
  }

  // The loop over an entered container. A budget used up is an error at once.
  method ValidateContainer(it: CborValue, isMap: bool, ck: Checks, recursionLeft: nat) returns (err: CborError)
    requires it.Resting() && Usable(ck)
    modifies it
    ensures it.Valid()
    ensures err == NoError <==>
              && recursionLeft > 0 && old(it.Run()).Ok?
              && AdmitsElements(ck, isMap, old(it.Run()).val, old(it.ptr), recursionLeft)
    ensures err == NoError ==> it.Finished() && it.ptr == old(it.Run()).next
    decreases recursionLeft, 8
  {
    hide HeadAt, Reachable, ParseItem, ParseRun, AdmitsArray, AdmitsPairs, RunContinues, IsShaped;
    if recursionLeft == 0 {
      return NestingTooDeep;
    }
    if isMap {
      err := ValidatePairs(it, ck, recursionLeft);
      return;
    }
    ghost var whole, done := it.Run(), [];
    ghost var admitted := whole.Ok? && AdmitsArray(ck, whole.val, it.ptr, recursionLeft);
    RunStarts(whole);
    while it.remaining != 0
      invariant it.Resting() && RunContinues(whole, done, it.Run())
      invariant admitted <==> it.Run().Ok? && AdmitsArray(ck, it.Run().val, it.ptr, recursionLeft)
      decreases |it.data| - it.ptr, it.remaining
    {
      ghost var p, run := it.ptr, it.Run();
      FirstOfRun(it);
      ghost var vs;
      err, vs := ValidateInRun(it, ck, recursionLeft);
      if err != NoError {
        NothingBegins(ck, run, p, recursionLeft, None);
        return;
      }
      RunContinuesTrans(whole, done, run, vs, it.Run());
      FirstOfRun(it);
      ArrayElement(ck, run, vs, it.Run(), p, it.ptr, recursionLeft);
      done := done + vs;
    }
    FirstOfRun(it);
    EmptyRun(ck, it.ptr, recursionLeft, None);
    WholeIsDone(whole, done, it.Run());
    RunEnds(whole, done, it.Run());
    err := NoError;
  }

  lemma RunStarts(whole: Parsed<seq<Item>>)
    ensures RunContinues(whole, [], whole)
  {
  }

  lemma WholeIsDone(whole: Parsed<seq<Item>>, done: seq<Item>, rest: Parsed<seq<Item>>)
    requires RunContinues(whole, done, rest)
    ensures whole.Ok? && rest.Ok? && rest.val == [] ==> whole.val == done
  {
  }

  lemma RunEnds(whole: Parsed<seq<Item>>, done: seq<Item>, rest: Parsed<seq<Item>>)
    requires RunContinues(whole, done, rest)
    ensures rest.Ok? ==> whole.Ok? && whole.next == rest.next
  {
  }

  lemma EmptyRun(ck: Checks, p: nat, budget: nat, previous: Option<Key>)
    ensures AdmitsArray(ck, [], p, budget) && AdmitsPairs(ck, [], p, budget, previous) && !Begins(ck, [], p, budget)
  {
  }

  // The elements of one value: tags, then what they tag.
  ghost predicate IsShaped(ck: Checks, vs: seq<Item>, p: nat, budget: nat) {
    vs != [] && LeadingTags(vs) == |vs| - 1 && AdmitsFirst(ck, vs, p, budget) && AllWellFormed(vs)
  }

  lemma NothingBegins(ck: Checks, run: Parsed<seq<Item>>, p: nat, budget: nat, previous: Option<Key>)
    requires run.Ok? ==> run.val != [] && !Begins(ck, run.val, p, budget)
    ensures run.Ok? ==> !AdmitsArray(ck, run.val, p, budget) && !AdmitsPairs(ck, run.val, p, budget, previous)
  {
  }

  // The first value of a run and what follows it.
  lemma ValueAndRest(ck: Checks, run: Parsed<seq<Item>>, vs: seq<Item>, rest: Parsed<seq<Item>>, p: nat, budget: nat)
    requires RunContinues(run, vs, rest) && IsShaped(ck, vs, p, budget)
    ensures run.Ok? <==> rest.Ok?
    ensures run.Ok? ==>
              && run.val != [] && Begins(ck, run.val, p, budget)
              && FirstValue(run.val) == vs && AfterFirstValue(run.val) == rest.val
              && AfterFirstAt(run.val, p) == p + |Concat(vs)|
  {
    hide AdmitsFirst;
    if run.Ok? {
      AdmitsFirstPrefix(ck, vs, rest.val, p, budget);
      SizeOfRun(vs);
    }
  }

  // The rest stands at q, unless there is none.
  lemma ArrayElement(ck: Checks, run: Parsed<seq<Item>>, vs: seq<Item>, rest: Parsed<seq<Item>>, p: nat, q: nat,
                     budget: nat)
    requires RunContinues(run, vs, rest) && IsShaped(ck, vs, p, budget)
    requires rest.Ok? && rest.val != [] ==> q == p + |Concat(vs)|
    ensures run.Ok? <==> rest.Ok?
    ensures run.Ok? ==> (AdmitsArray(ck, run.val, p, budget) <==> AdmitsArray(ck, rest.val, q, budget))
  {
    hide Begins, FirstValue, AfterFirstValue, RunContinues, IsShaped, AfterFirstAt;
    ValueAndRest(ck, run, vs, rest, p, budget);
  }

  // One value, with account of the run it begins.
  method ValidateInRun(it: CborValue, ck: Checks, recursionLeft: nat) returns (err: CborError, ghost vs: seq<Item>)
    requires it.Resting() && Usable(ck) && recursionLeft > 0
    modifies it
    ensures it.Valid()
    ensures err == NoError ==>
              && it.Resting() && it.ptr > old(it.ptr) && old(it.remaining) > 0
              && IsShaped(ck, vs, old(it.ptr), recursionLeft) && RunContinues(old(it.Run()), vs, it.Run())
              && ParseItem(it.data, old(it.ptr)).Ok? && vs[0] == ParseItem(it.data, old(it.ptr)).val
              && Stands(it.data, old(it.ptr), Concat(vs))
              && (it.remaining > 0 ==> it.ptr == old(it.ptr) + |Concat(vs)|)
    ensures err != NoError && old(it.Run()).Ok? ==> !Begins(ck, old(it.Run()).val, old(it.ptr), recursionLeft)
    decreases recursionLeft, 4
  {
    hide HeadAt, Reachable, ParseItem, ParseRun, AdmitsFirst, Stands;
    ghost var p, run := it.ptr, it.Run();
    vs := [];
    if it.remaining > 0 {
      ghost var c, v := CountOf(it.remaining), ParseRun(it.data, p, Exactly(1));
      ValueInRun(it.data, p, c);
      if v.Ok? {
        ValueShape(it.data, p);
        RunSound(it.data, p, Exactly(1));
        if run.Ok? {
          AdmitsFirstPrefix(ck, v.val, run.val[|v.val|..], p, recursionLeft);
        }
        if !Reachable(it.data, v.next, AfterValue(c)) {
          UnreachableRun(it.data, v.next, AfterValue(c));
        }
      }
      ValueStep(it.data, p);
      err := ValidateValue(it, ck, recursionLeft);
      if err == NoError {
        vs := v.val;
        it.ArrivedRun(v.next, AfterValue(c));
      }
    } else {
      FirstOfRun(it);
      err := ValidateValue(it, ck, recursionLeft);
    }
  }

  // The loop over a map's pairs.
  method ValidatePairs(it: CborValue, ck: Checks, recursionLeft: nat) returns (err: CborError)
    requires it.Resting() && Usable(ck) && recursionLeft > 0
    modifies it
    ensures it.Valid()
    ensures err == NoError <==>
            old(it.Run()).Ok? && AdmitsPairs(ck, old(it.Run()).val, old(it.ptr), recursionLeft, None)
    ensures err == NoError ==> it.Finished() && it.ptr == old(it.Run()).next
    decreases recursionLeft, 7
  {
    hide HeadAt, Reachable, ParseItem, ParseRun, AdmitsPairs, RunContinues;
    ghost var whole, done := it.Run(), [];
    ghost var admitted := whole.Ok? && AdmitsPairs(ck, whole.val, it.ptr, recursionLeft, None);
    ghost var last: Option<Key> := None;
    var previous: Option<(nat, nat)> := None;
    RunStarts(whole);
    while it.remaining != 0
      invariant it.Resting() && RunContinues(whole, done, it.Run())
      invariant admitted <==> it.Run().Ok? && AdmitsPairs(ck, it.Run().val, it.ptr, recursionLeft, last)
      invariant ChecksOrder(ck) ==> IsLast(it.data, previous, last)
      decreases |it.data| - it.ptr, it.remaining
    {
      ghost var run, pair := it.Run(), [];
      err, previous, last, pair := ValidatePair(it, ck, recursionLeft, previous, last);
      if err != NoError {
        return;
      }
      RunContinuesTrans(whole, done, run, pair, it.Run());
      done := done + pair;
    }
    FirstOfRun(it);
    EmptyRun(ck, it.ptr, recursionLeft, last);
    RunEnds(whole, done, it.Run());
    err := NoError;
  }

  method ValidatePair(it: CborValue, ck: Checks, recursionLeft: nat, previous: Option<(nat, nat)>,
                      ghost last: Option<Key>)
    returns (err: CborError, current: Option<(nat, nat)>, ghost key: Option<Key>, ghost pair: seq<Item>)
    requires it.Positioned() && Usable(ck) && recursionLeft > 0
    requires ChecksOrder(ck) ==> IsLast(it.data, previous, last)
    modifies it
    ensures it.Valid()
    ensures err == NoError ==>
              && it.Resting() && it.ptr > old(it.ptr) && RunContinues(old(it.Run()), pair, it.Run())
              && (old(it.Run()).Ok? <==> it.Run().Ok?)
              && (it.Run().Ok? ==>
                    (AdmitsPairs(ck, old(it.Run()).val, old(it.ptr), recursionLeft, last) <==>
                     AdmitsPairs(ck, it.Run().val, it.ptr, recursionLeft, key)))
              && (ChecksOrder(ck) ==> IsLast(it.data, current, key))
    ensures err != NoError && old(it.Run()).Ok? ==>
              !AdmitsPairs(ck, old(it.Run()).val, old(it.ptr), recursionLeft, last)
    decreases recursionLeft, 5
  {
    hide HeadAt, Reachable, ParseItem, ParseRun, AdmitsPairs, RunContinues, Begins, Stands, KeyOf, AdmitsFirst,
         CompareKeys;
    current, key, pair := previous, last, [];
    ghost var run, vs, ws := it.Run(), [], [];
    var start := it.ptr;
    FirstOfRun(it);
    if ck.keysAreStrings {
      err := RequireTextKey(it);
      if err != NoError {
        NoTextKey(ck, run, start, recursionLeft, last);
        return;
      }
    }
    err, vs := ValidateInRun(it, ck, recursionLeft);
    if err != NoError {
      NothingBegins(ck, run, start, recursionLeft, last);
      return;
    }
    ghost var rest := it.Run();
    FirstOfRun(it);
    PairKey(ck, run, vs, rest, start, it.ptr, recursionLeft, last);
    if ChecksOrder(ck) {
      var ok;
      ok, current := TestOrder(it, ck, previous, start, last, vs, recursionLeft);
      if !ok {
        EmptyRun(ck, it.ptr, recursionLeft, last);
        return IllegalType, previous, last, pair;
      }
    }
    key := Some(KeyOf(vs));
    ghost var middle := it.ptr;
    err, ws := ValidateInRun(it, ck, recursionLeft);
    if err != NoError {
      NotMapped(ck, rest, middle, recursionLeft, KeyOf(vs));
      return;
    }
    FirstOfRun(it);
    MappedStep(ck, rest, ws, it.Run(), middle, it.ptr, recursionLeft, KeyOf(vs));
    RunContinuesTrans(run, vs, rest, ws, it.Run());
    pair := vs + ws;
  }

  // A key that has been read against the one before it; it then takes that one's place.
  method TestOrder(it: CborValue, ck: Checks, previous: Option<(nat, nat)>, start: nat,
                   ghost last: Option<Key>, ghost vs: seq<Item>, ghost budget: nat)
    returns (ok: bool, current: Option<(nat, nat)>)
    requires it.Valid() && Usable(ck) && ChecksOrder(ck) && IsLast(it.data, previous, last)
    requires start < it.ptr && IsShaped(ck, vs, start, budget) && Stands(it.data, start, Concat(vs))
    requires ParseItem(it.data, start).Ok? && vs[0] == ParseItem(it.data, start).val
    requires it.remaining > 0 ==> it.ptr == start + |Concat(vs)|
    ensures it.remaining > 0 ==> (ok <==> InOrder(ck, last, KeyOf(vs)))
    ensures it.remaining > 0 ==> IsLast(it.data, current, Some(KeyOf(vs)))
  {
    hide HeadAt, ParseItem, KeyOf, CompareKeys, Stands, AdmitsFirst, Concat;
    KeyIsSlice(it.data, start, ck, vs, budget);
    current := Some((start, it.ptr));
    ok := true;
    if previous.Some? {
      ok := CheckOrder(it.data, ck, previous.value, (start, it.ptr));
    }
  }

  // The key must be text, possibly tagged.
  method RequireTextKey(it: CborValue) returns (err: CborError)
    requires it.Positioned()
    ensures it.Run().Ok? ==> (err == NoError <==> StartsWithText(it.Run().val))
  {
    hide HeadAt, Reachable, ParseItem, ParseRun;
    FirstOfRun(it);
    var typ := it.typ;
    if typ == TAG_TYPE {
      var copy := new CborValue.Copy(it);
      ghost var tags;
      err, tags := copy.SkipTag();
      if err != NoError {
        return;
      }
      typ := copy.typ;
      FirstOfRun(copy);
      if copy.Run().Ok? {
        FirstUntaggedAfterTags(tags, copy.Run().val);
      }
    }
    err := if typ == TEXT_STRING_TYPE then NoError else IllegalType;
  }

  lemma NoTextKey(ck: Checks, run: Parsed<seq<Item>>, p: nat, budget: nat, previous: Option<Key>)
    requires ck.keysAreStrings
    requires run.Ok? ==> run.val != [] && !StartsWithText(run.val)
    ensures run.Ok? ==> !AdmitsPairs(ck, run.val, p, budget, previous)
  {
  }

  // What the pair at the front of a run asks for, once its key has been read.
  lemma PairKey(ck: Checks, run: Parsed<seq<Item>>, vs: seq<Item>, rest: Parsed<seq<Item>>, p: nat, q: nat, budget: nat,
                previous: Option<Key>)
    requires RunContinues(run, vs, rest) && IsShaped(ck, vs, p, budget)
    requires rest.Ok? && rest.val != [] ==> q == p + |Concat(vs)|
    requires ck.keysAreStrings && run.Ok? ==> StartsWithText(run.val)
    ensures run.Ok? <==> rest.Ok?
    ensures run.Ok? ==>
              (AdmitsPairs(ck, run.val, p, budget, previous) <==>
                 InOrder(ck, previous, KeyOf(vs)) && AdmitsMapped(ck, rest.val, q, budget, KeyOf(vs)))
  {
    hide AdmitsFirst, InOrder, KeyOf, RunContinues, FirstValue, AfterFirstValue, AfterFirstAt, LeadingTags,
         StartsWithText;
    ValueAndRest(ck, run, vs, rest, p, budget);
    NothingMapped(ck, p + |Concat(vs)|, budget, KeyOf(vs));
    NothingMapped(ck, q, budget, KeyOf(vs));
  }

  lemma NothingMapped(ck: Checks, p: nat, budget: nat, key: Key)
    ensures !AdmitsMapped(ck, [], p, budget, key)
  {
  }

  lemma NotMapped(ck: Checks, run: Parsed<seq<Item>>, p: nat, budget: nat, key: Key)
    requires run.Ok? ==> !Begins(ck, run.val, p, budget)
    ensures run.Ok? ==> !AdmitsMapped(ck, run.val, p, budget, key)
  {
  }

  // And once its value has been read.
  lemma MappedStep(ck: Checks, run: Parsed<seq<Item>>, ws: seq<Item>, rest: Parsed<seq<Item>>, p: nat, q: nat,
                   budget: nat, key: Key)
    requires RunContinues(run, ws, rest) && IsShaped(ck, ws, p, budget)
    requires rest.Ok? && rest.val != [] ==> q == p + |Concat(ws)|
    ensures run.Ok? <==> rest.Ok?
    ensures run.Ok? ==> (AdmitsMapped(ck, run.val, p, budget, key) <==> AdmitsPairs(ck, rest.val, q, budget, Some(key)))
  {
    hide AdmitsFirst, InOrder, KeyOf, RunContinues, FirstValue, AfterFirstValue, AfterFirstAt, LeadingTags, Begins,
         StartsWithText;
    ValueAndRest(ck, run, ws, rest, p, budget);
  }

  lemma AdmitsIsSized(ck: Checks, vs: seq<Item>, p: nat, budget: nat)
    requires AdmitsFirst(ck, vs, p, budget) && ck.noIndeterminate
    ensures !vs[0].Chunked? && (vs[0].Container? ==> vs[0].width.Some?)
  {
  }

  // Where order is checked, the bytes of a key and the argument of its head are in the buffer.
  lemma KeyIsSlice(s: seq<byte>, p: nat, ck: Checks, vs: seq<Item>, budget: nat)
    requires IsShaped(ck, vs, p, budget) && ck.noIndeterminate
    requires ParseItem(s, p).Ok? && vs[0] == ParseItem(s, p).val && Stands(s, p, Concat(vs))
    ensures HeadAt(s, p).Some? && HeadAt(s, p).value.Sized?
    ensures p + |Concat(vs)| <= |s| && KeyAt(s, p, p + |Concat(vs)|) == KeyOf(vs)
  {
    hide HeadAt, ParseItem, AdmitsTag, AdmitsElements, Concat;
    HeadOfItem(s, p);
    AdmitsIsSized(ck, vs, p, budget);
    StandsSlice(s, p, Concat(vs));
  }

  // The remembered slice is the key last passed.
  ghost predicate IsLast(s: seq<byte>, previous: Option<(nat, nat)>, last: Option<Key>) {
    && previous.Some? == last.Some?
    && (previous.Some? ==>
          var (from, to) := previous.value;
          && from < to <= |s| && HeadAt(s, from).Some? && HeadAt(s, from).value.Sized?
          && last.value == KeyAt(s, from, to))
  }

  function KeyAt(s: seq<byte>, from: nat, to: nat): Key
    requires from <= to <= |s| && HeadAt(s, from).Some? && HeadAt(s, from).value.Sized?
  {
    Key(HeadAt(s, from).value.arg, s[from..to])
  }

  // The neighbour test, on two slices of the buffer.
  method CheckOrder(s: seq<byte>, ck: Checks, previous: (nat, nat), current: (nat, nat)) returns (ok: bool)
    requires previous.0 < previous.1 <= |s| && HeadAt(s, previous.0).Some? && HeadAt(s, previous.0).value.Sized?
    requires current.0 < current.1 <= |s| && HeadAt(s, current.0).Some? && HeadAt(s, current.0).value.Sized?
    ensures var r := CompareKeys(KeyAt(s, previous.0, previous.1), KeyAt(s, current.0, current.1));
            ok <==> r < 0 || (r == 0 && !ChecksUnique(ck))
  {
    hide HeadAt;
    var err, ptr, len1 := ExtractNumber(s, previous.0);
    var len2;
    err, ptr, len2 := ExtractNumber(s, current.0);
    if len1 > len2 {
      return false;
    }
    if len1 == len2 {
      var bytelen1, bytelen2 := previous.1 - previous.0, current.1 - current.0;
      var n := if bytelen1 <= bytelen2 then bytelen1 else bytelen2;
      assert s[previous.0..previous.1][..n] == s[previous.0..previous.0 + n];
      assert s[current.0..current.1][..n] == s[current.0..current.0 + n];
      var r := CompareBlocks(s[previous.0..previous.0 + n], s[current.0..current.0 + n]);
      if r == 0 && bytelen1 != bytelen2 {
        r := if bytelen1 < bytelen2 then -1 else 1;
      }
      if r > 0 || (r == 0 && ChecksUnique(ck)) {
        return false;
      }
    }
    ok := true;
  }
}
