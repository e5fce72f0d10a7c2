/**
 The grammar of section 2 of RFC 7049, with tags wrapped around what they tag, and how the
 language the library's iterator accepts relates to it.
 */
module CborGrammar {
  import opened Options
  import opened CborHeads
  import opened CborSyntax
  import opened CborValues

  // Entries of a map alternate between keys and values.
  datatype DataItem =
    | Number(negative: bool, w: nat, arg: nat)
    | Primitive(w: nat, arg: nat)
    | Text(major: nat, w: nat, data: seq<byte>)
    | Chunks(major: nat, chunks: seq<Chunk>)
    | Array(width: Option<nat>, items: seq<DataItem>)
    | Map(width: Option<nat>, entries: seq<DataItem>)
    | Tagged(w: nat, tag: nat, inner: DataItem)

  predicate Legal(d: DataItem)
    decreases d, 0
  {
    match d
    case Number(negative, w, arg) => Fits(w, arg)
    case Primitive(w, arg) => LegalHead(MAJOR_SIMPLE, w, arg)
    case Text(major, w, data) => IsStringMajor(major) && Fits(w, |data|)
    case Chunks(major, chunks) => IsStringMajor(major) && AllFit(chunks)
    case Array(width, items) =>
      && AllLegal(items)
      && (width.Some? ==> Fits(width.value, |items|) && Counted(false, |items|).Some?)
    case Map(width, entries) =>
      && AllLegal(entries) && |entries| % 2 == 0
      && (width.Some? ==> Fits(width.value, |entries| / 2) && Counted(true, |entries| / 2).Some?)
    case Tagged(w, tag, inner) => Fits(w, tag) && Legal(inner)
  }

  predicate AllLegal(ds: seq<DataItem>)
    decreases ds, 1
  {
    ds == [] || (Legal(ds[0]) && AllLegal(ds[1..]))
  }

  function DataBytes(d: DataItem): seq<byte>
    requires Legal(d)
    decreases d, 0
  {
    match d
    case Number(negative, w, arg) => HeadBytes(if negative then MAJOR_NEGATIVE else MAJOR_UNSIGNED, w, arg)
    case Primitive(w, arg) => HeadBytes(MAJOR_SIMPLE, w, arg)
    case Text(major, w, data) => HeadBytes(major, w, |data|) + data
    case Chunks(major, chunks) => [IndefiniteByte(major)] + ChunkBytes(major, chunks)
    case Array(width, items) => Framed(MAJOR_ARRAY, width, |items|, AllDataBytes(items))
    case Map(width, entries) => Framed(MAJOR_MAP, width, |entries| / 2, AllDataBytes(entries))
    case Tagged(w, tag, inner) => HeadBytes(MAJOR_TAG, w, tag) + DataBytes(inner)
  }

  // Contents between a head with a length, or between an open head and a break.
  function Framed(major: nat, width: Option<nat>, length: nat, contents: seq<byte>): seq<byte>
    requires MAJOR_BYTES <= major <= MAJOR_MAP && (width.Some? ==> Fits(width.value, length))
  {
    match width
    case Some(w) => HeadBytes(major, w, length) + contents
    case None => [IndefiniteByte(major)] + contents + [BREAK_BYTE]
  }

  function AllDataBytes(ds: seq<DataItem>): seq<byte>
    requires AllLegal(ds)
    decreases ds, 1
  {
    if ds == [] then [] else DataBytes(ds[0]) + AllDataBytes(ds[1..])
  }

  function Nesting(d: DataItem): nat
    decreases d, 0
  {
    match d
    case Array(_, items) => 1 + NestingAll(items)
    case Map(_, entries) => 1 + NestingAll(entries)
    case Tagged(_, _, inner) => Nesting(inner)
    case _ => 0
  }

  function NestingAll(ds: seq<DataItem>): nat
    decreases ds, 1
  {
    if ds == [] then 0 else Max(Nesting(ds[0]), NestingAll(ds[1..]))
  }

  // ----- The two forms the iterator lets through beyond the grammar

  // Inside containers no tag stands last, and maps hold whole pairs. Both can fail only
  // where a break ends the container.
  predicate Proper(i: Item)
    decreases i, 0
  {
    i.Container? ==>
      && AllProper(i.elems)
      && (i.elems != [] ==> !IsTag(i.elems[|i.elems| - 1]))
      && (i.isMap ==> Untagged(i.elems) % 2 == 0)
  }

  predicate AllProper(es: seq<Item>)
    decreases es, 1
  {
    es == [] || (Proper(es[0]) && AllProper(es[1..]))
  }

  // Counted containers are always proper at their own level.
  lemma CountedIsProper(i: Item)
    requires WellFormed(i) && i.Container? && i.width.Some?
    ensures (i.elems != [] ==> !IsTag(i.elems[|i.elems| - 1])) && (i.isMap ==> Untagged(i.elems) % 2 == 0)
  {
  }

  // No container ends with a break, at any depth.
  predicate IsCounted(i: Item)
    decreases i, 0
  {
    i.Container? ==> i.width.Some? && AreCounted(i.elems)
  }

  predicate AreCounted(es: seq<Item>)
    decreases es, 1
  {
    es == [] || (IsCounted(es[0]) && AreCounted(es[1..]))
  }

  lemma {:induction false} CountedAllProper(i: Item)
    requires WellFormed(i) && IsCounted(i)
    ensures Proper(i)
    decreases i, 0
  {
    if i.Container? {
      ContainerElems(i);
      CountedIsProper(i);
      CountedRunProper(i.elems);
    }
  }

  lemma {:induction false} CountedRunProper(es: seq<Item>)
    requires AllWellFormed(es) && AreCounted(es)
    ensures AllProper(es)
    decreases es, 1
  {
    if es != [] {
      CountedAllProper(es[0]);
      CountedRunProper(es[1..]);
    }
  }

  // ----- From the grammar to elements

  function Flatten(d: DataItem): (es: seq<Item>)
    ensures |es| > 0
    decreases d, 0
  {
    match d
    case Number(negative, w, arg) => [Atom(if negative then MAJOR_NEGATIVE else MAJOR_UNSIGNED, w, arg)]
    case Primitive(w, arg) => [Atom(MAJOR_SIMPLE, w, arg)]
    case Text(major, w, data) => [Str(major, w, data)]
    case Chunks(major, chunks) => [Chunked(major, chunks)]
    case Array(width, items) => [Container(false, width, FlattenAll(items))]
    case Map(width, entries) => [Container(true, width, FlattenAll(entries))]
    case Tagged(w, tag, inner) => [Atom(MAJOR_TAG, w, tag)] + Flatten(inner)
  }

  function FlattenAll(ds: seq<DataItem>): (es: seq<Item>)
    ensures |es| >= |ds|
    decreases ds, 1
  {
    if ds == [] then [] else Flatten(ds[0]) + FlattenAll(ds[1..])
  }

  // A run of elements that reads as whole data items.
  predicate ReadsAs(es: seq<Item>, count: nat, bytes: seq<byte>, depth: nat) {
    && AllWellFormed(es) && AllProper(es) && Untagged(es) == count
    && (es != [] ==> !IsTag(es[|es| - 1]))
    && Concat(es) == bytes && DepthAll(es) == depth
  }

  lemma {:induction false} RunsConcat(a: seq<Item>, b: seq<Item>)
    requires AllWellFormed(a) && AllWellFormed(b)
    ensures AllWellFormed(a + b) && Concat(a + b) == Concat(a) + Concat(b)
  {
    hide WellFormed, ItemBytes;
    if a == [] {
      assert a + b == b;
    } else {
      assert (a + b)[1..] == a[1..] + b;
      RunsConcat(a[1..], b);
      assert ItemBytes(a[0]) + Concat(a[1..]) + Concat(b) == ItemBytes(a[0]) + (Concat(a[1..]) + Concat(b));
    }
  }

  lemma {:induction false} ProperConcat(a: seq<Item>, b: seq<Item>)
    ensures AllProper(a + b) <==> AllProper(a) && AllProper(b)
  {
    hide Proper;
    if a == [] {
      assert a + b == b;
    } else {
      assert (a + b)[1..] == a[1..] + b;
      ProperConcat(a[1..], b);
    }
  }

  lemma ReadsAsConcat(a: seq<Item>, m: nat, x: seq<byte>, d: nat, b: seq<Item>, n: nat, y: seq<byte>, e: nat)
    requires ReadsAs(a, m, x, d) && ReadsAs(b, n, y, e)
    ensures ReadsAs(a + b, m + n, x + y, Max(d, e))
  {
    RunsConcat(a, b);
    ProperConcat(a, b);
    UntaggedConcat(a, b);
    DepthConcat(a, b);
    if b == [] {
      assert a + b == a;
    }
  }

  lemma TagReadsAs(w: nat, tag: nat, es: seq<Item>, n: nat, bytes: seq<byte>, d: nat)
    requires Fits(w, tag) && ReadsAs(es, n, bytes, d) && es != []
    ensures ReadsAs([Atom(MAJOR_TAG, w, tag)] + es, n, HeadBytes(MAJOR_TAG, w, tag) + bytes, d)
  {
    hide HeadBytes;
    var all := [Atom(MAJOR_TAG, w, tag)] + es;
    assert all[1..] == es;
    assert WellFormed(all[0]) && Proper(all[0]) && Depth(all[0]) == 0;
    assert ItemBytes(all[0]) == HeadBytes(MAJOR_TAG, w, tag);
  }

  lemma SingleReadsAs(i: Item)
    requires WellFormed(i) && Proper(i) && !IsTag(i)
    ensures ReadsAs([i], 1, ItemBytes(i), Depth(i))
  {
    hide Proper, ItemBytes;
    var es := [i];
    assert es[1..] == [];
    assert AllWellFormed(es);
    assert AllProper(es);
    assert Untagged(es) == 1;
    assert Concat(es) == ItemBytes(i) + [];
    assert DepthAll(es) == Depth(i);
  }

  lemma ContainerReadsAs(isMap: bool, width: Option<nat>, es: seq<Item>, n: nat, bytes: seq<byte>, d: nat)
    requires ReadsAs(es, n, bytes, d) && (isMap ==> n % 2 == 0)
    requires width.Some? ==>
               Fits(width.value, if isMap then n / 2 else n) && Counted(isMap, if isMap then n / 2 else n).Some?
    ensures ReadsAs([Container(isMap, width, es)], 1,
                    Framed(MajorOf(isMap), width, if isMap then n / 2 else n, bytes), 1 + d)
  {
    hide HeadBytes, Fits;
    var i := Container(isMap, width, es);
    assert WellFormed(i) && Proper(i);
    if width.None? {
      assert [IndefiniteByte(MajorOf(isMap))] + (bytes + [BREAK_BYTE])
          == [IndefiniteByte(MajorOf(isMap))] + bytes + [BREAK_BYTE];
    }
    SingleReadsAs(i);
  }

  // Every item of the grammar is a run of elements with the same bytes.
  lemma {:induction false} FlattenReadsAs(d: DataItem)
    requires Legal(d)
    ensures ReadsAs(Flatten(d), 1, DataBytes(d), Nesting(d))
    decreases d, 0
  {
    hide ReadsAs, HeadBytes;
    match d
    case Array(width, items) =>
      FlattenAllReadsAs(items);
      ContainerReadsAs(false, width, FlattenAll(items), |items|, AllDataBytes(items), NestingAll(items));
    case Map(width, entries) =>
      FlattenAllReadsAs(entries);
      ContainerReadsAs(true, width, FlattenAll(entries), |entries|, AllDataBytes(entries), NestingAll(entries));
    case Tagged(w, tag, inner) =>
      FlattenReadsAs(inner);
      TagReadsAs(w, tag, Flatten(inner), 1, DataBytes(inner), Nesting(inner));
    case _ => SingleReadsAs(Flatten(d)[0]);
  }

  lemma {:induction false} FlattenAllReadsAs(ds: seq<DataItem>)
    requires AllLegal(ds)
    ensures ReadsAs(FlattenAll(ds), |ds|, AllDataBytes(ds), NestingAll(ds))
    decreases ds, 1
  {
    if ds == [] {
    } else {
      FlattenReadsAs(ds[0]);
      FlattenAllReadsAs(ds[1..]);
      ReadsAsConcat(Flatten(ds[0]), 1, DataBytes(ds[0]), Nesting(ds[0]),
                    FlattenAll(ds[1..]), |ds| - 1, AllDataBytes(ds[1..]), NestingAll(ds[1..]));
    }
  }

  // ----- From elements back to the grammar

  function Unflatten(es: seq<Item>): (ds: seq<DataItem>)
    decreases es, 1
  {
    if es == [] then []
    else
      var rest := Unflatten(es[1..]);
      if !IsTag(es[0]) then [Single(es[0])] + rest
      else if rest == [] then []
      else [Tagged(es[0].w, es[0].arg, rest[0])] + rest[1..]
  }

  function Single(i: Item): DataItem
    decreases i, 0
  {
    match i
    case Atom(major, w, arg) =>
      if major == MAJOR_SIMPLE then Primitive(w, arg) else Number(major == MAJOR_NEGATIVE, w, arg)
    case Str(major, w, data) => Text(major, w, data)
    case Chunked(major, chunks) => Chunks(major, chunks)
    case Container(isMap, width, elems) =>
      if isMap then Map(width, Unflatten(elems)) else Array(width, Unflatten(elems))
  }

  // Every proper run of elements is a list of items of the grammar.
  lemma {:induction false} UnflattenLegal(es: seq<Item>)
    requires AllWellFormed(es) && AllProper(es) && (es != [] ==> !IsTag(es[|es| - 1]))
    ensures var ds := Unflatten(es);
            AllLegal(ds) && |ds| == Untagged(es) && FlattenAll(ds) == es
    decreases es, 1
  {
    if es != [] {
      var ds, rest := Unflatten(es), Unflatten(es[1..]);
      UnflattenLegal(es[1..]);
      if !IsTag(es[0]) {
        SingleLegal(es[0]);
        assert ds[1..] == rest;
        assert FlattenAll(ds) == [es[0]] + es[1..] == es;
      } else {
        CountedRunIsNotEmpty(es[1..]);
        assert ds[1..] == rest[1..];
        assert FlattenAll(ds) == ([es[0]] + Flatten(rest[0])) + FlattenAll(rest[1..]);
        assert FlattenAll(ds) == [es[0]] + (Flatten(rest[0]) + FlattenAll(rest[1..])) == [es[0]] + es[1..] == es;
      }
    }
  }

  lemma {:induction false} SingleLegal(i: Item)
    requires WellFormed(i) && Proper(i) && !IsTag(i)
    ensures Legal(Single(i)) && Flatten(Single(i)) == [i] && !Single(i).Tagged?
    decreases i, 0
  {
    hide Fits;
    if i.Container? {
      ContainerElems(i);
      UnflattenLegal(i.elems);
    }
  }

  lemma ContainerElems(i: Item)
    requires WellFormed(i) && i.Container?
    ensures AllWellFormed(i.elems)
  {
  }

  // Wrapping tags around what they tag loses nothing.
  lemma {:induction false} FlattenInjective(d: DataItem, es: seq<Item>)
    requires Legal(d)
    ensures Unflatten(Flatten(d) + es) == [d] + Unflatten(es)
    decreases d, 0
  {
    var all := Flatten(d) + es;
    match d
    case Array(width, items) =>
      FlattenAllInjective(items);
      assert all[1..] == es;
    case Map(width, entries) =>
      FlattenAllInjective(entries);
      assert all[1..] == es;
    case Tagged(w, tag, inner) =>
      FlattenInjective(inner, es);
      assert all[1..] == Flatten(inner) + es;
    case _ => assert all[1..] == es;
  }

  lemma {:induction false} FlattenAllInjective(ds: seq<DataItem>)
    requires AllLegal(ds)
    ensures Unflatten(FlattenAll(ds)) == ds
    decreases ds, 1
  {
    if ds != [] {
      FlattenInjective(ds[0], FlattenAll(ds[1..]));
      FlattenAllInjective(ds[1..]);
      assert ds == [ds[0]] + ds[1..];
    }
  }

  // ----- The theorems

  // The grammar is prefix free: no item's bytes begin another's.
  lemma Unambiguous(c: DataItem, d: DataItem)
    requires Legal(c) && Legal(d) && DataBytes(c) <= DataBytes(d)
    ensures c == d
  {
    hide ParseRun, Stands;
    var s := DataBytes(d);
    DocumentParses(s, c);
    DocumentParses(s, d);
    FlattenInjective(c, []);
    FlattenInjective(d, []);
    assert Flatten(c) + [] == Flatten(c) == Flatten(d) == Flatten(d) + [];
    assert Unflatten(Flatten(c))[0] == c && Unflatten(Flatten(d))[0] == d;
  }

  // A tagged or untagged item at the start of the bytes is read as its run of elements.
  lemma DocumentParses(s: seq<byte>, d: DataItem)
    requires Legal(d) && DataBytes(d) <= s
    ensures ParseRun(s, 0, Exactly(1)) == Ok(Flatten(d), |DataBytes(d)|)
  {
    FlattenReadsAs(d);
    assert s[0..0 + |DataBytes(d)|] == DataBytes(d);
    RunComplete(s, 0, Exactly(1), Flatten(d));
  }

  // An untagged item of the grammar, nested no deeper than the iterator goes, stands at p and
  // takes n bytes.
  ghost predicate InGrammar(s: seq<byte>, p: nat, n: nat) {
    exists d: DataItem :: Legal(d) && !d.Tagged? && Nesting(d) <= MAX_RECURSIONS
                          && Stands(s, p, DataBytes(d)) && |DataBytes(d)| == n
  }

  // The iterator's verdict on an untagged item: it can be passed, and ends at position q.
  predicate Accepted(s: seq<byte>, p: nat, q: nat) {
    var r := ParseItem(s, p);
    r.Ok? && !IsTag(r.val) && Depth(r.val) <= MAX_RECURSIONS && r.next == q
  }

  // The accepted language is the grammar, but for improper containers of unknown length.
  lemma ExactLanguage(s: seq<byte>, p: nat, n: nat)
    ensures InGrammar(s, p, n) <==> Accepted(s, p, p + n) && Proper(ParseItem(s, p).val)
  {
    if InGrammar(s, p, n) {
      var d: DataItem :| Legal(d) && !d.Tagged? && Nesting(d) <= MAX_RECURSIONS
                         && Stands(s, p, DataBytes(d)) && |DataBytes(d)| == n;
      GrammarIsAccepted(s, p, d);
    }
    if Accepted(s, p, p + n) && Proper(ParseItem(s, p).val) {
      AcceptedIsGrammar(s, p);
    }
  }

  // Where every container carries its length, the accepted language is the grammar itself.
  lemma CountedLanguage(s: seq<byte>, p: nat, n: nat)
    requires ParseItem(s, p).Ok? ==> IsCounted(ParseItem(s, p).val)
    ensures InGrammar(s, p, n) <==> Accepted(s, p, p + n)
  {
    hide ParseItem, InGrammar, IsCounted, Proper;
    ExactLanguage(s, p, n);
    if ParseItem(s, p).Ok? {
      ItemSound(s, p);
      CountedAllProper(ParseItem(s, p).val);
    }
  }

  lemma GrammarIsAccepted(s: seq<byte>, p: nat, d: DataItem)
    requires Legal(d) && !d.Tagged? && Stands(s, p, DataBytes(d))
    ensures var r := ParseItem(s, p);
            r.Ok? && !IsTag(r.val) && Depth(r.val) == Nesting(d) && Proper(r.val) && r.next == p + |DataBytes(d)|
  {
    hide HeadAt, HeadBytes, ParseItem;
    FlattenReadsAs(d);
    var i := Flatten(d)[0];
    assert Flatten(d) == [i];
    assert Concat([i]) == ItemBytes(i) + [] == ItemBytes(i);
    assert DepthAll([i]) == Depth(i);
    ItemComplete(s, p, i);
  }

  lemma AcceptedIsGrammar(s: seq<byte>, p: nat)
    requires ParseItem(s, p).Ok? && !IsTag(ParseItem(s, p).val) && Proper(ParseItem(s, p).val)
    ensures var r := ParseItem(s, p);
            var d := Single(r.val);
            && Legal(d) && !d.Tagged? && Nesting(d) == Depth(r.val)
            && Stands(s, p, DataBytes(d)) && |DataBytes(d)| == r.next - p
  {
    hide HeadAt, HeadBytes, ParseItem, Stands;
    var r := ParseItem(s, p);
    ItemSound(s, p);
    SingleLegal(r.val);
    var d := Single(r.val);
    FlattenReadsAs(d);
    assert Concat([r.val]) == ItemBytes(r.val) + [] == ItemBytes(r.val);
    assert DepthAll([r.val]) == Depth(r.val);
  }

  // One of the extra forms, an open map with a key and no value ...
  lemma HalfPairAccepted()
    ensures var s := [0xbf, 0x01, 0xff];
            Accepted(s, 0, 3) && forall n :: !InGrammar(s, 0, n)
  {
    OnlyElement([0xbf, 0x01, 0xff], true, Atom(MAJOR_UNSIGNED, 0, 1));
  }

  // ... and the other, a tag right before the break of an open array.
  lemma LooseTagAccepted()
    ensures var s := [0x9f, 0xc1, 0xff];
            Accepted(s, 0, 3) && forall n :: !InGrammar(s, 0, n)
  {
    OnlyElement([0x9f, 0xc1, 0xff], false, Atom(MAJOR_TAG, 0, 1));
  }

  // An open container of one small atom that is not proper.
  lemma OnlyElement(s: seq<byte>, isMap: bool, a: Item)
    requires a.Atom? && a.w == 0 && WellFormed(a) && !Proper(Container(isMap, None, [a]))
    requires s == [IndefiniteByte(MajorOf(isMap)), 32 * a.major + a.arg, BREAK_BYTE]
    ensures Accepted(s, 0, 3) && forall n :: !InGrammar(s, 0, n)
  {
    var i := Container(isMap, None, [a]);
    OnlyElementBytes(s, isMap, a);
    hide Proper, InGrammar, ParseItem, ItemBytes, WellFormed;
    StandsSlice(s, 0, s);
    assert s[0..3] == s;
    ItemComplete(s, 0, i);
    forall n ensures !InGrammar(s, 0, n) {
      ExactLanguage(s, 0, n);
    }
  }

  lemma OnlyElementBytes(s: seq<byte>, isMap: bool, a: Item)
    requires a.Atom? && a.w == 0 && WellFormed(a)
    requires s == [IndefiniteByte(MajorOf(isMap)), 32 * a.major + a.arg, BREAK_BYTE]
    ensures var i := Container(isMap, None, [a]);
            WellFormed(i) && !IsTag(i) && Depth(i) == 1 && ItemBytes(i) == s
  {
    assert [a][1..] == [] && AllWellFormed([a]);
    assert ItemBytes(a) == [32 * a.major + a.arg] + [];
    assert Concat([a]) == ItemBytes(a) + [] == [32 * a.major + a.arg];
    assert DepthAll([a]) == 0;
  }

  lemma GrammarDecided(s: seq<byte>)
    ensures var r := ParseItem(s, 0);
            (exists n :: InGrammar(s, 0, n)) <==>
            r.Ok? && !IsTag(r.val) && Depth(r.val) <= MAX_RECURSIONS && Proper(r.val)
  {
    hide InGrammar;
    var r := ParseItem(s, 0);
    if r.Ok? {
      ExactLanguage(s, 0, r.next);
    }
    forall n | InGrammar(s, 0, n)
      ensures Accepted(s, 0, n) && Proper(r.val)
    {
      ExactLanguage(s, 0, n);
    }
  }

  // Sets up an iterator and advances it once. On an untagged item this decides the language.
  method AdvanceDocument(data: seq<byte>, sizeMax: nat) returns (err: CborError, end: nat)
    requires IsSizeMax(sizeMax) && |data| <= sizeMax
    ensures end <= |data|
    ensures HeadAt(data, 0).Some? && !IsTagHead(HeadAt(data, 0).value) ==> (err == NoError <==> Accepted(data, 0, end))
    ensures HeadAt(data, 0).None? ==>
              && err == HeadError(data, 0) && (forall n :: !InGrammar(data, 0, n))
              && (err == UnexpectedEOF <==> exists tail :: HeadAt(data + tail, 0).Some?)
    ensures HeadAt(data, 0).Some? && !IsTagHead(HeadAt(data, 0).value) ==>
              ((exists n :: InGrammar(data, 0, n)) <==> err == NoError && Proper(ParseItem(data, 0).val))
  {
    hide HeadAt, InGrammar;
    var it;
    err, it := ParserInit(data, sizeMax);
    GrammarDecided(data);
    if err == NoError {
      ghost var r := it.Here();
      err := it.Advance();
      if r.Ok? && !IsTag(r.val) {
        assert err == NoError <==> Depth(r.val) <= MAX_RECURSIONS;
        assert err == NoError ==> Accepted(data, 0, it.ptr);
      }
    }
    end := it.ptr;
  }
}
