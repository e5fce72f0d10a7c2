/**
 The byte language of CBOR: concrete data items, the bytes of each, and a reference
 recogniser that has no iterator state. The two are proved to describe one language.

 As in the library, a tag is an element of its own that precedes the element it tags and
 is not counted by the container it stands in.
 */
module CborSyntax {
  import opened Options
  import opened CborHeads

  const UINT32_MAX := 0xffff_ffff

  datatype Chunk = Chunk(w: nat, data: seq<byte>)

  datatype Item =
    | Atom(major: nat, w: nat, arg: nat)
    | Str(major: nat, w: nat, data: seq<byte>)
    | Chunked(major: nat, chunks: seq<Chunk>)
    | Container(isMap: bool, width: Option<nat>, elems: seq<Item>)

  predicate IsTag(i: Item) {
    i.Atom? && i.major == MAJOR_TAG
  }

  // How many elements count towards a container's length.
  function Untagged(es: seq<Item>): (n: nat)
    ensures n <= |es|
  {
    if es == [] then 0 else (if IsTag(es[0]) then 0 else 1) + Untagged(es[1..])
  }

  lemma {:induction false} UntaggedConcat(a: seq<Item>, b: seq<Item>)
    ensures Untagged(a + b) == Untagged(a) + Untagged(b)
  {
    if a == [] {
      assert a + b == b;
    } else {
      assert (a + b)[1..] == a[1..] + b;
      UntaggedConcat(a[1..], b);
    }
  }

  // How far the elements of a container go.
  datatype Count = Exactly(n: nat) | UntilBreak

  function After(c: Count, i: Item): Count
    requires c != Exactly(0)
  {
    if c.Exactly? && !IsTag(i) then Exactly(c.n - 1) else c
  }

  // A counted run ends with its last counted element.
  predicate Fills(es: seq<Item>, c: Count) {
    c.Exactly? ==> Untagged(es) == c.n && (es != [] ==> !IsTag(es[|es| - 1]))
  }

  // The count announced by a container head, or None when it is beyond the limits of
  // a 32-bit item counter whose largest value is reserved.
  function Counted(isMap: bool, len: nat): Option<Count> {
    if len >= UINT32_MAX then None
    else if !isMap then Some(Exactly(len))
    else if len > UINT32_MAX / 2 then None
    else Some(Exactly(2 * len))
  }

  // The length a container head carries for its elements.
  function Length(isMap: bool, es: seq<Item>): nat {
    if isMap then Untagged(es) / 2 else Untagged(es)
  }

  function MajorOf(isMap: bool): nat {
    if isMap then MAJOR_MAP else MAJOR_ARRAY
  }

  // ----- Well-formed concrete items

  predicate IsAtomMajor(major: nat) {
    major == MAJOR_UNSIGNED || major == MAJOR_NEGATIVE || major == MAJOR_TAG || major == MAJOR_SIMPLE
  }

  predicate IsStringMajor(major: nat) {
    major == MAJOR_BYTES || major == MAJOR_TEXT
  }

  predicate AllFit(chunks: seq<Chunk>) {
    chunks == [] || (Fits(chunks[0].w, |chunks[0].data|) && AllFit(chunks[1..]))
  }

  predicate WellFormed(i: Item)
    decreases i, 0
  {
    match i
    case Atom(major, w, arg) => IsAtomMajor(major) && LegalHead(major, w, arg)
    case Str(major, w, data) => IsStringMajor(major) && Fits(w, |data|)
    case Chunked(major, chunks) => IsStringMajor(major) && AllFit(chunks)
    case Container(isMap, None, elems) => AllWellFormed(elems)
    case Container(isMap, Some(w), elems) =>
      && AllWellFormed(elems)
      && Fits(w, Length(isMap, elems))
      && Counted(isMap, Length(isMap, elems)).Some?
      && Fills(elems, Counted(isMap, Length(isMap, elems)).value)
  }

  predicate AllWellFormed(es: seq<Item>)
    decreases es, 1
  {
    es == [] || (WellFormed(es[0]) && AllWellFormed(es[1..]))
  }

  // ----- The bytes of an item

  function ChunkBytes(major: nat, chunks: seq<Chunk>): seq<byte>
    requires IsStringMajor(major) && AllFit(chunks)
  {
    if chunks == [] then [BREAK_BYTE]
    else HeadBytes(major, chunks[0].w, |chunks[0].data|) + chunks[0].data + ChunkBytes(major, chunks[1..])
  }

  function ItemBytes(i: Item): (b: seq<byte>)
    requires WellFormed(i)
    ensures |b| > 0
    decreases i, 0
  {
    match i
    case Atom(major, w, arg) => HeadBytes(major, w, arg)
    case Str(major, w, data) => HeadBytes(major, w, |data|) + data
    case Chunked(major, chunks) => [IndefiniteByte(major)] + ChunkBytes(major, chunks)
    case Container(isMap, None, elems) => [IndefiniteByte(MajorOf(isMap))] + (Concat(elems) + [BREAK_BYTE])
    case Container(isMap, Some(w), elems) => HeadBytes(MajorOf(isMap), w, Length(isMap, elems)) + Concat(elems)
  }

  function Concat(es: seq<Item>): (b: seq<byte>)
    requires AllWellFormed(es)
    ensures |b| >= |es|
    decreases es, 1
  {
    if es == [] then [] else ItemBytes(es[0]) + Concat(es[1..])
  }

  // The bytes of a run of elements, with the break that ends an uncounted one.
  function RunBytes(es: seq<Item>, c: Count): (b: seq<byte>)
    requires AllWellFormed(es)
    ensures c.Exactly? ==> b == Concat(es)
    ensures c.UntilBreak? && es == [] ==> b == [BREAK_BYTE]
  {
    Concat(es) + (if c.UntilBreak? then [BREAK_BYTE] else [])
  }

  // How many bytes an item takes.
  function ItemSize(i: Item): (n: nat)
    ensures n > 0
    decreases i, 0
  {
    match i
    case Atom(_, w, _) => 1 + w
    case Str(_, w, data) => 1 + w + |data|
    case Chunked(_, chunks) => 1 + ChunksSize(chunks)
    case Container(_, None, elems) => 1 + RunSize(elems) + 1
    case Container(_, Some(w), elems) => 1 + w + RunSize(elems)
  }

  function RunSize(es: seq<Item>): nat
    decreases es, 1
  {
    if es == [] then 0 else ItemSize(es[0]) + RunSize(es[1..])
  }

  function ChunksSize(chunks: seq<Chunk>): nat {
    if chunks == [] then 1 else 1 + chunks[0].w + |chunks[0].data| + ChunksSize(chunks[1..])
  }

  lemma {:induction false} SizeOfChunks(major: nat, chunks: seq<Chunk>)
    requires IsStringMajor(major) && AllFit(chunks)
    ensures |ChunkBytes(major, chunks)| == ChunksSize(chunks)
  {
    hide HeadBytes;
    if chunks != [] {
      SizeOfChunks(major, chunks[1..]);
    }
  }

  lemma {:induction false} SizeOfItem(i: Item)
    requires WellFormed(i)
    ensures |ItemBytes(i)| == ItemSize(i)
    decreases i, 0
  {
    hide HeadBytes, ChunkBytes, Concat;
    match i
    case Chunked(major, chunks) => SizeOfChunks(major, chunks);
    case Container(_, _, elems) => SizeOfRun(elems);
    case _ =>
  }

  lemma {:induction false} SizeOfRun(es: seq<Item>)
    requires AllWellFormed(es)
    ensures |Concat(es)| == RunSize(es)
    decreases es, 1
  {
    hide WellFormed;
    if es != [] {
      SizeOfItem(es[0]);
      SizeOfRun(es[1..]);
    }
  }

  // ----- The text or bytes of a string item

  function Joined(chunks: seq<Chunk>): seq<byte> {
    if chunks == [] then [] else chunks[0].data + Joined(chunks[1..])
  }

  lemma {:induction false} JoinedAppend(a: seq<Chunk>, b: seq<Chunk>)
    ensures Joined(a + b) == Joined(a) + Joined(b)
  {
    if a == [] {
      assert a + b == b;
    } else {
      assert (a + b)[1..] == a[1..] + b;
      JoinedAppend(a[1..], b);
    }
  }

  predicate IsString(i: Item) {
    i.Str? || i.Chunked?
  }

  function Content(i: Item): seq<byte>
    requires IsString(i)
  {
    if i.Str? then i.data else Joined(i.chunks)
  }

  // ----- Nesting

  // Depth of nested containers; strings and atoms have none.
  function Depth(i: Item): (d: nat)
    decreases i, 0
  {
    if i.Container? then 1 + DepthAll(i.elems) else 0
  }

  function DepthAll(es: seq<Item>): (d: nat)
    decreases es, 1
  {
    if es == [] then 0 else Max(Depth(es[0]), DepthAll(es[1..]))
  }

  function Max(a: nat, b: nat): nat {
    if a > b then a else b
  }

  lemma {:induction false} DepthConcat(a: seq<Item>, b: seq<Item>)
    ensures DepthAll(a + b) == Max(DepthAll(a), DepthAll(b))
  {
    if a == [] {
      assert a + b == b;
    } else {
      assert (a + b)[1..] == a[1..] + b;
      DepthConcat(a[1..], b);
    }
  }

  // ----- The reference recogniser

  datatype Parsed<+T> = Fail | Ok(val: T, next: nat)

  function ParseChunks(s: seq<byte>, p: nat, major: nat): (r: Parsed<seq<Chunk>>)
    ensures r.Ok? ==> p < r.next <= |s|
    decreases |s| - p
  {
    if p >= |s| then Fail
    else if s[p] == BREAK_BYTE then Ok([], p + 1)
    else
      match HeadAt(s, p)
      case Some(Sized(m, w, len)) =>
        if m != major || p + 1 + w + len > |s| then Fail
        else (match ParseChunks(s, p + 1 + w + len, major)
              case Fail => Fail
              case Ok(cs, q) => Ok([Chunk(w, s[p + 1 + w..p + 1 + w + len])] + cs, q))
      case _ => Fail
  }

  function ParseItem(s: seq<byte>, p: nat): (r: Parsed<Item>)
    ensures r.Ok? ==> p < r.next <= |s|
    decreases |s| - p, 0
  {
    match HeadAt(s, p)
    case None => Fail
    case Some(Sized(major, w, arg)) =>
      var q := p + 1 + w;
      if IsAtomMajor(major) then Ok(Atom(major, w, arg), q)
      else if IsStringMajor(major) then
        if q + arg > |s| then Fail else Ok(Str(major, w, s[q..q + arg]), q + arg)
      else
        (match Counted(major == MAJOR_MAP, arg)
         case None => Fail
         case Some(c) => Wrap(major == MAJOR_MAP, Some(w), ParseRun(s, q, c)))
    case Some(Indefinite(major)) =>
      if IsStringMajor(major) then
        (match ParseChunks(s, p + 1, major)
         case Fail => Fail
         case Ok(cs, q) => Ok(Chunked(major, cs), q))
      else Wrap(major == MAJOR_MAP, None, ParseRun(s, p + 1, UntilBreak))
  }

  function Wrap(isMap: bool, width: Option<nat>, r: Parsed<seq<Item>>): Parsed<Item> {
    if r.Fail? then Fail else Ok(Container(isMap, width, r.val), r.next)
  }

  function Prepend<T>(pre: seq<T>, r: Parsed<seq<T>>): Parsed<seq<T>> {
    if r.Fail? then Fail else Ok(pre + r.val, r.next)
  }

  function ParseRun(s: seq<byte>, p: nat, c: Count): (r: Parsed<seq<Item>>)
    requires p <= |s|
    ensures r.Ok? ==> p <= r.next <= |s|
    decreases |s| - p, 1
  {
    if c == Exactly(0) then Ok([], p)
    else if c == UntilBreak && p < |s| && s[p] == BREAK_BYTE then Ok([], p + 1)
    else
      match ParseItem(s, p)
      case Fail => Fail
      case Ok(i, q) => Prepend([i], ParseRun(s, q, After(c, i)))
  }

  // ----- Soundness: whatever is recognised is an item, and those are its bytes

  lemma {:induction false} ChunksSound(s: seq<byte>, p: nat, major: nat)
    requires IsStringMajor(major) && ParseChunks(s, p, major).Ok?
    ensures var r := ParseChunks(s, p, major);
            && AllFit(r.val)
            && Stands(s, p, ChunkBytes(major, r.val)) && r.next == p + |ChunkBytes(major, r.val)|
    decreases |s| - p
  {
    hide HeadAt, HeadBytes, Stands;
    var r := ParseChunks(s, p, major);
    if s[p] == BREAK_BYTE {
      StandsByte(s, p, BREAK_BYTE);
    } else {
      HeadSound(s, p);
      var h := HeadAt(s, p).value;
      var q := p + 1 + h.w + h.arg;
      StandsSlice(s, p + 1 + h.w, s[p + 1 + h.w..q]);
      ChunksSound(s, q, major);
      ChunkPrepended(s, p, major, Chunk(h.w, s[p + 1 + h.w..q]), ParseChunks(s, q, major).val);
    }
  }

  lemma ChunkPrepended(s: seq<byte>, p: nat, major: nat, c: Chunk, cs: seq<Chunk>)
    requires IsStringMajor(major) && Fits(c.w, |c.data|) && AllFit(cs)
    ensures ChunkBytes(major, [c] + cs) == HeadBytes(major, c.w, |c.data|) + c.data + ChunkBytes(major, cs)
    ensures Stands(s, p, ChunkBytes(major, [c] + cs)) <==>
            && Stands(s, p, HeadBytes(major, c.w, |c.data|))
            && Stands(s, p + 1 + c.w, c.data)
            && Stands(s, p + 1 + c.w + |c.data|, ChunkBytes(major, cs))
  {
    hide Stands;
    var head := HeadBytes(major, c.w, |c.data|);
    assert ([c] + cs)[1..] == cs;
    StandsConcat(s, p, head + c.data, ChunkBytes(major, cs));
    StandsConcat(s, p, head, c.data);
  }

  // ----- The bytes of each kind of item stand where its parts stand

  lemma StringStands(s: seq<byte>, p: nat, major: nat, w: nat, data: seq<byte>)
    requires IsStringMajor(major) && Fits(w, |data|)
    ensures WellFormed(Str(major, w, data)) && |ItemBytes(Str(major, w, data))| == 1 + w + |data|
    ensures Stands(s, p, ItemBytes(Str(major, w, data))) <==>
            Stands(s, p, HeadBytes(major, w, |data|)) && Stands(s, p + 1 + w, data)
  {
    hide HeadBytes, Stands;
    StandsConcat(s, p, HeadBytes(major, w, |data|), data);
  }

  lemma ChunkedStands(s: seq<byte>, p: nat, major: nat, chunks: seq<Chunk>)
    requires IsStringMajor(major) && AllFit(chunks)
    ensures WellFormed(Chunked(major, chunks)) && |ItemBytes(Chunked(major, chunks))| == 1 + |ChunkBytes(major, chunks)|
    ensures Stands(s, p, ItemBytes(Chunked(major, chunks))) <==>
            Stands(s, p, [IndefiniteByte(major)]) && Stands(s, p + 1, ChunkBytes(major, chunks))
  {
    hide ChunkBytes, Stands;
    StandsConcat(s, p, [IndefiniteByte(major)], ChunkBytes(major, chunks));
  }

  lemma OpenStands(s: seq<byte>, p: nat, isMap: bool, es: seq<Item>)
    requires AllWellFormed(es)
    ensures var i := Container(isMap, None, es);
            && WellFormed(i) && Fills(es, UntilBreak) && |ItemBytes(i)| == 1 + |RunBytes(es, UntilBreak)|
            && (Stands(s, p, ItemBytes(i)) <==>
                Stands(s, p, [IndefiniteByte(MajorOf(isMap))]) && Stands(s, p + 1, RunBytes(es, UntilBreak)))
  {
    hide Concat, Stands;
    StandsConcat(s, p, [IndefiniteByte(MajorOf(isMap))], RunBytes(es, UntilBreak));
  }

  lemma CountedStands(s: seq<byte>, p: nat, isMap: bool, w: nat, len: nat, es: seq<Item>)
    requires AllWellFormed(es) && Fits(w, len)
    requires Counted(isMap, len).Some? && Fills(es, Counted(isMap, len).value)
    ensures var i, c := Container(isMap, Some(w), es), Counted(isMap, len).value;
            && WellFormed(i) && Length(isMap, es) == len && |ItemBytes(i)| == 1 + w + |RunBytes(es, c)|
            && (Stands(s, p, ItemBytes(i)) <==>
                Stands(s, p, HeadBytes(MajorOf(isMap), w, len)) && Stands(s, p + 1 + w, RunBytes(es, c)))
  {
    hide Concat, Stands, HeadBytes;
    StandsConcat(s, p, HeadBytes(MajorOf(isMap), w, len), Concat(es));
  }

  lemma {:induction false} ItemSound(s: seq<byte>, p: nat)
    requires ParseItem(s, p).Ok?
    ensures var r := ParseItem(s, p);
            WellFormed(r.val) && Stands(s, p, ItemBytes(r.val)) && r.next == p + |ItemBytes(r.val)|
    decreases |s| - p, 0
  {
    hide HeadAt, HeadBytes, Stands, ChunkBytes, RunBytes, ParseRun, ParseChunks, Fills, Fits, AllFit, AllWellFormed;
    match HeadAt(s, p)
    case Some(Sized(major, w, arg)) =>
      HeadSound(s, p);
      if IsAtomMajor(major) {
      } else if IsStringMajor(major) {
        StandsSlice(s, p + 1 + w, s[p + 1 + w..p + 1 + w + arg]);
        StringStands(s, p, major, w, s[p + 1 + w..p + 1 + w + arg]);
      } else {
        var c := Counted(major == MAJOR_MAP, arg).value;
        RunSound(s, p + 1 + w, c);
        CountedStands(s, p, major == MAJOR_MAP, w, arg, ParseRun(s, p + 1 + w, c).val);
      }
    case Some(Indefinite(major)) =>
      IndefiniteHead(s, p, major);
      if IsStringMajor(major) {
        ChunksSound(s, p + 1, major);
        ChunkedStands(s, p, major, ParseChunks(s, p + 1, major).val);
      } else {
        RunSound(s, p + 1, UntilBreak);
        OpenStands(s, p, major == MAJOR_MAP, ParseRun(s, p + 1, UntilBreak).val);
      }
  }

  lemma RunPrepended(s: seq<byte>, p: nat, c: Count, i: Item, es: seq<Item>)
    requires WellFormed(i) && AllWellFormed(es)
    ensures AllWellFormed([i] + es)
    ensures RunBytes([i] + es, c) == ItemBytes(i) + RunBytes(es, c)
    ensures Stands(s, p, RunBytes([i] + es, c)) <==>
            Stands(s, p, ItemBytes(i)) && Stands(s, p + |ItemBytes(i)|, RunBytes(es, c))
  {
    hide Stands;
    assert ([i] + es)[1..] == es;
    StandsConcat(s, p, ItemBytes(i), RunBytes(es, c));
  }

  lemma FillsPrepended(c: Count, i: Item, es: seq<Item>)
    requires c != Exactly(0)
    ensures Fills([i] + es, c) <==> Fills(es, After(c, i)) && (c.Exactly? && es == [] ==> !IsTag(i))
  {
    assert ([i] + es)[1..] == es;
    if es != [] && c == Exactly(1) && !IsTag(i) && !IsTag(es[|es| - 1]) {
      CountedRunIsNotEmpty(es);
    }
  }

  lemma {:induction false} RunSound(s: seq<byte>, p: nat, c: Count)
    requires p <= |s| && ParseRun(s, p, c).Ok?
    ensures var r := ParseRun(s, p, c);
            && AllWellFormed(r.val) && Fills(r.val, c)
            && Stands(s, p, RunBytes(r.val, c)) && r.next == p + |RunBytes(r.val, c)|
    decreases |s| - p, 1
  {
    hide HeadAt, Stands;
    if c == Exactly(0) {
      StandsSlice(s, p, []);
    } else if c == UntilBreak && p < |s| && s[p] == BREAK_BYTE {
      StandsByte(s, p, BREAK_BYTE);
    } else {
      ItemSound(s, p);
      var first := ParseItem(s, p);
      RunSound(s, first.next, After(c, first.val));
      var rest := ParseRun(s, first.next, After(c, first.val));
      FillsPrepended(c, first.val, rest.val);
      RunPrepended(s, p, c, first.val, rest.val);
    }
  }

  // ----- Completeness: the bytes of every item are recognised as that item

  lemma {:induction false} ChunksComplete(s: seq<byte>, p: nat, major: nat, cs: seq<Chunk>)
    requires IsStringMajor(major) && AllFit(cs)
    requires Stands(s, p, ChunkBytes(major, cs))
    ensures ParseChunks(s, p, major) == Ok(cs, p + |ChunkBytes(major, cs)|)
    decreases |cs|
  {
    hide HeadAt, HeadBytes, Stands;
    if cs == [] {
      StandsByte(s, p, BREAK_BYTE);
    } else {
      var c := cs[0];
      assert cs == [c] + cs[1..];
      ChunkPrepended(s, p, major, c, cs[1..]);
      HeadComplete(s, p, major, c.w, |c.data|);
      StandsSlice(s, p + 1 + c.w, c.data);
      ChunksComplete(s, p + 1 + c.w + |c.data|, major, cs[1..]);
    }
  }

  lemma {:induction false} ItemComplete(s: seq<byte>, p: nat, i: Item)
    requires WellFormed(i) && Stands(s, p, ItemBytes(i))
    ensures ParseItem(s, p) == Ok(i, p + |ItemBytes(i)|)
    decreases i, 0
  {
    hide HeadAt, HeadBytes, Stands, ChunkBytes, RunBytes, ParseRun, ParseChunks, Fills, Fits, AllFit;
    match i
    case Atom(major, w, arg) => HeadComplete(s, p, major, w, arg);
    case Str(major, w, data) =>
      StringStands(s, p, major, w, data);
      StandsSlice(s, p + 1 + w, data);
      HeadComplete(s, p, major, w, |data|);
    case Chunked(major, chunks) =>
      ChunkedStands(s, p, major, chunks);
      IndefiniteHead(s, p, major);
      ChunksComplete(s, p + 1, major, chunks);
    case Container(isMap, None, elems) =>
      OpenStands(s, p, isMap, elems);
      IndefiniteHead(s, p, MajorOf(isMap));
      RunComplete(s, p + 1, UntilBreak, elems);
    case Container(isMap, Some(w), elems) =>
      var len := Length(isMap, elems);
      CountedStands(s, p, isMap, w, len, elems);
      HeadComplete(s, p, MajorOf(isMap), w, len);
      RunComplete(s, p + 1 + w, Counted(isMap, len).value, elems);
  }

  lemma {:induction false} RunComplete(s: seq<byte>, p: nat, c: Count, es: seq<Item>)
    requires p <= |s| && AllWellFormed(es) && Fills(es, c) && Stands(s, p, RunBytes(es, c))
    ensures ParseRun(s, p, c) == Ok(es, p + |RunBytes(es, c)|)
    decreases es, 1
  {
    hide HeadAt, Stands;
    if es == [] {
      StandsByte(s, p, BREAK_BYTE);
    } else {
      var i, rest := es[0], es[1..];
      assert es == [i] + rest;
      if c == Exactly(0) {
        CountedRunIsNotEmpty(es);
      }
      RunPrepended(s, p, c, i, rest);
      FillsPrepended(c, i, rest);
      ItemComplete(s, p, i);
      RunComplete(s, p + |ItemBytes(i)|, After(c, i), rest);
    }
  }

  lemma {:induction false} CountedRunIsNotEmpty(es: seq<Item>)
    requires es != [] && !IsTag(es[|es| - 1])
    ensures Untagged(es) > 0
  {
    if |es| > 1 {
      CountedRunIsNotEmpty(es[1..]);
    }
  }
}
