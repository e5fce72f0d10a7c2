/**
 Runs of movements that come to the same. Entering a container, advancing over its elements and
 leaving it is advancing; so is taking all chunks of a string, copying it, or passing an atom.
 */
module CborTours {
  import opened Options
  import opened CborHeads
  import opened CborSyntax
  import opened CborValues
  import opened CborGrammar
  import opened CborProtocol

  function Times(op: Op, n: nat): (ops: seq<Op>)
    ensures |ops| == n
  {
    if n == 0 then [] else [op] + Times(op, n - 1)
  }

  // The stack base with an iterator at the element at p on top.
  function With(base: seq<Place>, p: nat, c: Count): (places: seq<Place>)
    ensures places != [] && places[|places| - 1] == AtElement(p, c)
  {
    base + [AtElement(p, c)]
  }

  lemma {:induction false} OnwardBoth(s: seq<byte>, places: seq<Place>, a: seq<Op>, b: seq<Op>)
    requires places != [] && IsPlace(s, places[|places| - 1])
    ensures match Onward(s, places, a)
            case None => Onward(s, places, a + b) == None
            case Some(next) => Onward(s, places, a + b) == Onward(s, next, b)
    decreases |a|
  {
    hide Onward, IsPlace, Stepped;
    if a == [] {
      OnwardEnds(s, places);
      assert a + b == b;
    } else {
      assert (a + b)[1..] == a[1..] + b;
      OnwardStep(s, places, a);
      OnwardStep(s, places, a + b);
      var next := Stepped(s, places, a[0]);
      if next.Some? {
        OnwardBoth(s, next.value, a[1..], b);
      }
    }
  }

  lemma OnwardOne(s: seq<byte>, places: seq<Place>, op: Op)
    requires places != [] && IsPlace(s, places[|places| - 1])
    ensures Onward(s, places, [op]) == Stepped(s, places, op)
  {
    hide Onward, IsPlace, Stepped;
    OnwardStep(s, places, [op]);
    assert [op][1..] == [];
    var next := Stepped(s, places, op);
    if next.Some? {
      OnwardEnds(s, next.value);
    }
  }

  // ----- Single movements

  lemma AdvanceFrom(s: seq<byte>, base: seq<Place>, p: nat, c: Count)
    requires c != Exactly(0) && HeadAt(s, p).Some?
    ensures var i := ParseItem(s, p);
            Stepped(s, With(base, p, c), Advance) ==
            if i.Ok? && Depth(i.val) <= 1024 then Push(base, Land(s, i.next, After(c, i.val))) else None
  {
    hide ParseItem, Land;
    var places := With(base, p, c);
    assert places[..|base|] == base;
  }

  // Advancing once over a document decides the language of the parser.
  lemma AdvanceOnce(s: seq<byte>, n: nat)
    requires HeadAt(s, 0).Some? && !IsTagHead(HeadAt(s, 0).value)
    ensures Arrival(s, [Advance]) == Some([AtEnd(n)]) <==> Accepted(s, 0, n)
  {
    hide HeadAt, ParseItem, Onward, Stepped;
    var start := [AtElement(0, Exactly(1))];
    AdvanceFrom(s, [], 0, Exactly(1));
    OnwardOne(s, start, Advance);
    assert With([], 0, Exactly(1)) == start;
    var i := ParseItem(s, 0);
    if i.Ok? {
      TagHere(s, 0);
      assert [] + [AtEnd(i.next)] == [AtEnd(i.next)];
      assert [AtEnd(n)][0] == AtEnd(n);
    }
  }

  lemma TagHere(s: seq<byte>, p: nat)
    requires ParseItem(s, p).Ok?
    ensures HeadAt(s, p).Some? && IsTag(ParseItem(s, p).val) == IsTagHead(HeadAt(s, p).value)
  {
    hide HeadAt;
  }

  // Passing an atom is advancing over it.
  lemma FixedIsAdvance(s: seq<byte>, base: seq<Place>, p: nat, c: Count)
    requires c != Exactly(0) && HeadAt(s, p).Some? && IsFixedType(TypeOf(HeadAt(s, p).value))
    ensures Stepped(s, With(base, p, c), AdvanceFixed) == Stepped(s, With(base, p, c), Advance)
  {
    AtomHere(s, p);
    AdvanceFrom(s, base, p, c);
    hide ParseItem, HeadAt, Land;
    var places := With(base, p, c);
    assert places[..|base|] == base;
    TypeIsOne(s, p);
  }

  lemma TypeIsOne(s: seq<byte>, p: nat)
    requires HeadAt(s, p).Some?
    ensures TypeOf(HeadAt(s, p).value) != INVALID_TYPE
  {
  }

  // Copying a string into a buffer that holds it is advancing over it.
  lemma CopyIsAdvance(s: seq<byte>, base: seq<Place>, p: nat, c: Count, size: nat)
    requires c != Exactly(0) && HeadAt(s, p).Some? && IsStringMajor(HeadAt(s, p).value.major)
    requires ParseItem(s, p).Ok? ==> IsString(ParseItem(s, p).val) && |Content(ParseItem(s, p).val)| <= size
    ensures Stepped(s, With(base, p, c), CopyString(size)) == Stepped(s, With(base, p, c), Advance)
  {
    AdvanceFrom(s, base, p, c);
    hide ParseItem, HeadAt, Land;
    var places := With(base, p, c);
    assert places[..|base|] == base;
  }

  // Skipping tags is advancing over each of them.
  lemma SkipIsAdvance(s: seq<byte>, base: seq<Place>, p: nat, c: Count)
    requires c != Exactly(0) && HeadAt(s, p).Some?
    ensures Onward(s, With(base, p, c), [SkipTag]) ==
            if IsTagHead(HeadAt(s, p).value) then Onward(s, With(base, p, c), [Advance, SkipTag])
            else Some(With(base, p, c))
  {
    hide HeadAt, ParseItem, Onward, Stepped, Land, PastTags, IsPlace;
    ElementIsPlace(s, p, c);
    var places := With(base, p, c);
    SkipFrom(s, base, p, c);
    OnwardOne(s, places, SkipTag);
    if IsTagHead(HeadAt(s, p).value) {
      AtomHere(s, p);
      AdvanceFrom(s, base, p, c);
      PastTagsStep(s, p);
      var q := ParseItem(s, p).next;
      OnwardStep(s, places, [Advance, SkipTag]);
      assert [Advance, SkipTag][1..] == [SkipTag];
      LandSkips(s, q, c);
      LandIsPlace(s, q, c);
      var at := Land(s, q, c);
      if at.Some? {
        OnwardOne(s, base + [at.value], SkipTag);
        SkipFromLanding(s, base, q, c);
      }
    }
  }

  lemma ElementIsPlace(s: seq<byte>, p: nat, c: Count)
    requires c != Exactly(0) && HeadAt(s, p).Some?
    ensures IsPlace(s, AtElement(p, c))
  {
  }

  lemma SkipFrom(s: seq<byte>, base: seq<Place>, p: nat, c: Count)
    requires c != Exactly(0) && HeadAt(s, p).Some?
    ensures Stepped(s, With(base, p, c), SkipTag) == Push(base, Land(s, PastTags(s, p), c))
    ensures !IsTagHead(HeadAt(s, p).value) ==> Push(base, Land(s, PastTags(s, p), c)) == Some(With(base, p, c))
  {
    var places := With(base, p, c);
    assert places[..|base|] == base;
    if !IsTagHead(HeadAt(s, p).value) {
      assert PastTags(s, p) == p;
      NotABreak(s, p);
    }
    hide HeadAt;
  }

  lemma NotABreak(s: seq<byte>, p: nat)
    requires HeadAt(s, p).Some?
    ensures p < |s| && s[p] != BREAK_BYTE
  {
  }

  lemma SkipFromLanding(s: seq<byte>, base: seq<Place>, p: nat, c: Count)
    requires p <= |s| && c != Exactly(0) && Land(s, p, c).Some?
    ensures IsPlace(s, Land(s, p, c).value)
    ensures Stepped(s, base + [Land(s, p, c).value], SkipTag) == Push(base, Land(s, PastTags(s, p), c))
  {
    LandSkips(s, p, c);
    var at := Land(s, p, c).value;
    if at.AtElement? {
      hide HeadAt, PastTags;
      SkipFrom(s, base, p, c);
    } else {
      hide HeadAt, PastTags;
      assert (base + [at])[..|base|] == base;
    }
  }

  // Skipping tags from where one has landed.
  lemma LandSkips(s: seq<byte>, p: nat, c: Count)
    requires p <= |s| && c != Exactly(0)
    ensures match Land(s, p, c)
            case None => Land(s, PastTags(s, p), c) == None
            case Some(AtElement(_, _)) => true
            case Some(at) => Land(s, PastTags(s, p), c) == Some(at)
  {
    if BreaksAt(s, p, c) {
      BreakIsNoValue(s, p);
    }
  }

  // ----- Containers

  // Advancing over all elements of a run leads to its end.
  lemma {:induction false} AdvanceAll(s: seq<byte>, base: seq<Place>, p: nat, c: Count)
    requires p <= |s| && ParseRun(s, p, c).Ok? && DepthAll(ParseRun(s, p, c).val) <= 1024
    ensures var r := ParseRun(s, p, c);
            && Land(s, p, c).Some? && IsPlace(s, Land(s, p, c).value)
            && Onward(s, base + [Land(s, p, c).value], Times(Advance, |r.val|)) == Some(base + [AtEnd(r.next)])
    decreases |ParseRun(s, p, c).val|
  {
    hide HeadAt, ParseItem, Onward, Stepped;
    var r := ParseRun(s, p, c);
    LandIsPlace(s, p, c);
    if r.val == [] {
      OnwardEnds(s, base + [AtEnd(r.next)]);
    } else {
      NoBreak(s, p);
      var i := ParseItem(s, p);
      AdvanceFrom(s, base, p, c);
      AdvanceAll(s, base, i.next, After(c, i.val));
      OnwardStep(s, With(base, p, c), Times(Advance, |r.val|));
    }
  }

  // Entering a container, advancing over each of its elements and leaving it is advancing over it.
  lemma TourOfContainer(s: seq<byte>, base: seq<Place>, p: nat, c: Count)
    requires c != Exactly(0) && HeadAt(s, p).Some? && IsContainerType(TypeOf(HeadAt(s, p).value))
    requires ParseItem(s, p).Ok? && Depth(ParseItem(s, p).val) <= 1024
    ensures ParseItem(s, p).val.Container?
    ensures var n := |ParseItem(s, p).val.elems|;
            Onward(s, With(base, p, c), [Enter] + Times(Advance, n) + [Leave]) ==
            Onward(s, With(base, p, c), [Advance])
  {
    ContainerHere(s, p);
    OnwardOne(s, With(base, p, c), Advance);
    AdvanceFrom(s, base, p, c);
    hide HeadAt, ParseItem, ParseRun, Onward;
    var places, i := With(base, p, c), ParseItem(s, p);
    var (q, d) := Opening(s, p).value;
    var tour := Times(Advance, |i.val.elems|);
    AdvanceAll(s, places, q, d);
    EnterFrom(s, base, p, c);
    OnwardOne(s, places, Enter);
    OnwardBoth(s, places, [Enter], tour);
    OnwardBoth(s, places, [Enter] + tour, [Leave]);
    LeaveTo(s, base, p, c, i.next);
    OnwardOne(s, places + [AtEnd(i.next)], Leave);
  }

  lemma EnterFrom(s: seq<byte>, base: seq<Place>, p: nat, c: Count)
    requires c != Exactly(0) && HeadAt(s, p).Some? && IsContainerType(TypeOf(HeadAt(s, p).value))
    ensures Opening(s, p).Some? ==>
              Stepped(s, With(base, p, c), Enter) ==
              Push(With(base, p, c), Land(s, Opening(s, p).value.0, Opening(s, p).value.1))
  {
    hide HeadAt, Land, Opening;
  }

  lemma LeaveTo(s: seq<byte>, base: seq<Place>, p: nat, c: Count, q: nat)
    requires c != Exactly(0) && q <= |s|
    ensures Stepped(s, With(base, p, c) + [AtEnd(q)], Leave) == Push(base, Land(s, q, AfterValue(c)))
  {
    hide HeadAt, Land;
    var places := With(base, p, c) + [AtEnd(q)];
    assert places[..|base|] == base && places[|base|] == AtElement(p, c);
  }

  // ----- Strings

  // The stack base with an iterator between the chunks of a string on top.
  function Between(base: seq<Place>, p: nat, major: nat, chunked: bool, c: Count): (places: seq<Place>)
    ensures places != [] && places[|places| - 1] == AtChunk(p, major, chunked, c)
  {
    base + [AtChunk(p, major, chunked, c)]
  }

  lemma ChunkFrom(s: seq<byte>, base: seq<Place>, p: nat, major: nat, chunked: bool, c: Count)
    requires c != Exactly(0) && p <= |s| && IsStringMajor(major)
    ensures Stepped(s, Between(base, p, major, chunked, c), NextChunk) ==
            Push(base, if chunked then PastChunk(s, p, major, true, c) else Land(s, p, AfterValue(c)))
  {
    hide HeadAt, Land, PastChunk;
    var places := Between(base, p, major, chunked, c);
    assert places[..|base|] == base;
  }

  lemma FirstChunkFrom(s: seq<byte>, base: seq<Place>, p: nat, c: Count)
    requires c != Exactly(0) && HeadAt(s, p).Some? && IsStringMajor(HeadAt(s, p).value.major)
    ensures var h := HeadAt(s, p).value;
            Stepped(s, With(base, p, c), NextChunk) ==
            Push(base, PastChunk(s, if h.Indefinite? then p + 1 else p, h.major, h.Indefinite?, c))
  {
    hide HeadAt, Land, PastChunk;
    var places := With(base, p, c);
    assert places[..|base|] == base;
  }

  // Taking all chunks and then the end leads behind the string.
  lemma {:induction false} AllChunks(s: seq<byte>, base: seq<Place>, p: nat, major: nat, c: Count)
    requires c != Exactly(0) && p <= |s| && IsStringMajor(major) && ParseChunks(s, p, major).Ok?
    ensures var r := ParseChunks(s, p, major);
            Onward(s, Between(base, p, major, true, c), Times(NextChunk, |r.val| + 1)) ==
            Push(base, Land(s, r.next, AfterValue(c)))
    decreases |s| - p
  {
    hide HeadAt, Onward, Stepped, Land;
    var places, r := Between(base, p, major, true, c), ParseChunks(s, p, major);
    ChunkFrom(s, base, p, major, true, c);
    OnwardStep(s, places, Times(NextChunk, |r.val| + 1));
    if r.val == [] {
      LandIsPlace(s, r.next, AfterValue(c));
      if Land(s, r.next, AfterValue(c)).Some? {
        OnwardEnds(s, base + [Land(s, r.next, AfterValue(c)).value]);
      }
    } else {
      var (from, len) := ChunkAt(s, p, major).value;
      AllChunks(s, base, from + len, major, c);
    }
  }

  // Taking the chunks of a string one by one, and then its end, is advancing over it.
  lemma TourOfChunks(s: seq<byte>, base: seq<Place>, p: nat, c: Count)
    requires c != Exactly(0) && HeadAt(s, p).Some? && IsStringMajor(HeadAt(s, p).value.major)
    requires ParseItem(s, p).Ok?
    ensures IsString(ParseItem(s, p).val)
    ensures var i := ParseItem(s, p).val;
            Onward(s, With(base, p, c), Times(NextChunk, if i.Str? then 2 else |i.chunks| + 1)) ==
            Onward(s, With(base, p, c), [Advance])
  {
    StringHere(s, p);
    OnwardOne(s, With(base, p, c), Advance);
    AdvanceFrom(s, base, p, c);
    hide HeadAt, ParseItem, Onward, Stepped, Land;
    if HeadAt(s, p).value.Indefinite? {
      ManyChunks(s, base, p, c);
    } else {
      OneChunk(s, base, p, c);
    }
  }

  lemma ManyChunks(s: seq<byte>, base: seq<Place>, p: nat, c: Count)
    requires c != Exactly(0) && HeadAt(s, p).Some? && IsStringMajor(HeadAt(s, p).value.major)
    requires ParseItem(s, p).Ok? && HeadAt(s, p).value.Indefinite?
    ensures var i := ParseItem(s, p);
            && i.val.Chunked?
            && Onward(s, With(base, p, c), Times(NextChunk, |i.val.chunks| + 1)) ==
               Push(base, Land(s, i.next, AfterValue(c)))
  {
    StringHere(s, p);
    FirstChunkFrom(s, base, p, c);
    hide HeadAt, ParseItem, Onward, Stepped, Land;
    var i, major := ParseItem(s, p), HeadAt(s, p).value.major;
    ChunkFrom(s, base, p + 1, major, true, c);
    AllChunks(s, base, p + 1, major, c);
    var ops := Times(NextChunk, |i.val.chunks| + 1);
    OnwardStep(s, With(base, p, c), ops);
    OnwardStep(s, Between(base, p + 1, major, true, c), ops);
  }

  lemma OneChunk(s: seq<byte>, base: seq<Place>, p: nat, c: Count)
    requires c != Exactly(0) && HeadAt(s, p).Some? && IsStringMajor(HeadAt(s, p).value.major)
    requires ParseItem(s, p).Ok? && HeadAt(s, p).value.Sized?
    ensures var i := ParseItem(s, p);
            i.val.Str? && Onward(s, With(base, p, c), Times(NextChunk, 2)) == Push(base, Land(s, i.next, AfterValue(c)))
  {
    StringHere(s, p);
    FirstChunkFrom(s, base, p, c);
    hide HeadAt, ParseItem, Onward, Stepped, Land;
    var major := HeadAt(s, p).value.major;
    var (from, len) := ChunkAt(s, p, major).value;
    assert PastChunk(s, p, major, false, c) == Some(AtChunk(from + len, major, false, c));
    hide PastChunk, ChunkAt, IsPlace;
    var ops := Times(NextChunk, 2);
    OnwardStep(s, With(base, p, c), ops);
    ChunkFrom(s, base, from + len, major, false, c);
    assert ops[1..] == [NextChunk];
    OnwardOne(s, Between(base, from + len, major, false, c), NextChunk);
  }

  lemma StringHere(s: seq<byte>, p: nat)
    requires HeadAt(s, p).Some? && IsStringMajor(HeadAt(s, p).value.major) && ParseItem(s, p).Ok?
    ensures var i, h := ParseItem(s, p), HeadAt(s, p).value;
            && IsString(i.val) && Depth(i.val) == 0
            && (h.Indefinite? ==>
                  i.val.Chunked? && ParseChunks(s, p + 1, h.major) == Ok(i.val.chunks, i.next) && p + 1 <= |s|)
            && (h.Sized? ==> i.val.Str? && ChunkAt(s, p, h.major).Some?
                             && ChunkAt(s, p, h.major).value.0 + ChunkAt(s, p, h.major).value.1 == i.next)
  {
    hide HeadAt;
  }
}
