/**
 The pull parser's iterator. Its fields are those of the C structure; the bits of the flag
 byte are separate fields, and one of them is shared by two meanings as in the library.
 */
module CborValues {
  import opened Options
  import opened CborHeads
  import opened CborSyntax

  const MAX_RECURSIONS := 1024

  // Type codes: the initial byte of the item, with the argument bits cleared for majors 0 to 6.
  const INTEGER_TYPE := 0x00
  const BYTE_STRING_TYPE := 0x40
  const TEXT_STRING_TYPE := 0x60
  const ARRAY_TYPE := 0x80
  const MAP_TYPE := 0xa0
  const TAG_TYPE := 0xc0
  const SIMPLE_TYPE := 0xe0
  const BOOLEAN_TYPE := 0xf5
  const NULL_TYPE := 0xf6
  const UNDEFINED_TYPE := 0xf7
  const HALF_FLOAT_TYPE := 0xf9
  const FLOAT_TYPE := 0xfa
  const DOUBLE_TYPE := 0xfb
  const INVALID_TYPE := 0xff

  predicate IsFixedType(typ: nat) {
    typ != TEXT_STRING_TYPE && typ != BYTE_STRING_TYPE && typ != ARRAY_TYPE && typ != MAP_TYPE
  }

  // ----- What the fields of an iterator say about a head

  function TypeOf(h: Head): (t: nat)
    ensures h.major < 8 ==> t != INVALID_TYPE
  {
    match h
    case Indefinite(major) => 32 * major
    case Sized(major, w, arg) =>
      if major == MAJOR_NEGATIVE then INTEGER_TYPE
      else if major != MAJOR_SIMPLE then 32 * major
      else if w == 2 then HALF_FLOAT_TYPE
      else if w == 4 then FLOAT_TYPE
      else if w == 8 then DOUBLE_TYPE
      else if arg == 20 || arg == 21 then BOOLEAN_TYPE
      else if arg == 22 then NULL_TYPE
      else if arg == 23 then UNDEFINED_TYPE
      else SIMPLE_TYPE
  }

  predicate IsTagHead(h: Head) {
    h.Sized? && h.major == MAJOR_TAG
  }

  // The error preparsing reports where no head starts.
  function HeadError(s: seq<byte>, p: nat): (e: CborError)
    ensures e != OutOfMemory
  {
    if p >= |s| then UnexpectedEOF
    else
      var major, info := s[p] / 32, s[p] % 32;
      if info >= 28 then
        if info != 31 then (if major == MAJOR_SIMPLE then UnknownType else IllegalNumber)
        else if major == MAJOR_SIMPLE then UnexpectedBreak
        else IllegalNumber
      else if p + 1 + WidthOf(info) > |s| then UnexpectedEOF
      else IllegalSimpleType
  }

  // What each error says: more bytes are needed exactly if some would complete a head.
  lemma HeadErrorIs(s: seq<byte>, p: nat)
    requires p <= |s| && HeadAt(s, p).None?
    ensures var e := HeadError(s, p);
            && (e == UnexpectedEOF <==> exists tail :: HeadAt(s + tail, p).Some?)
            && (e == UnexpectedBreak <==> p < |s| && s[p] == 0xff)
            && (e == IllegalSimpleType <==> p + 1 < |s| && s[p] == 0xf8 && s[p + 1] < 32)
            && (e == UnknownType <==> p < |s| && s[p] / 32 == 7 && 28 <= s[p] % 32 <= 30)
            && e in {UnexpectedEOF, UnexpectedBreak, IllegalSimpleType, UnknownType, IllegalNumber}
            && TypeLeft(s, p) == if p == |s| || e == IllegalSimpleType then 0xff else s[p] - s[p] % 32
  {
    if HeadError(s, p) == UnexpectedEOF {
      var tail := Completion(s, p);
    } else {
      forall tail | true
        ensures HeadAt(s + tail, p).None?
      {
        NeverHead(s, p, tail);
      }
    }
  }

  // Bytes that complete a head which the end of the buffer cuts off.
  lemma Completion(s: seq<byte>, p: nat) returns (tail: seq<byte>)
    requires p <= |s| && HeadAt(s, p).None? && HeadError(s, p) == UnexpectedEOF
    ensures HeadAt(s + tail, p).Some?
  {
    tail := if p == |s| then [0] else seq(8, i => 32);
    var t := s + tail;
    assert t[p] == if p == |s| then 0 else s[p];
    if p < |s| && s[p] == 0xf8 {
      assert t[p + 1] == 32;
      ByteAt(t, p + 1);
    }
  }

  lemma NeverHead(s: seq<byte>, p: nat, tail: seq<byte>)
    requires p <= |s| && HeadAt(s, p).None? && HeadError(s, p) != UnexpectedEOF
    ensures HeadAt(s + tail, p).None?
  {
    var t := s + tail;
    assert t[p] == s[p];
    if s[p] % 32 < 28 {
      assert t[p + 1..p + 1 + WidthOf(s[p] % 32)] == s[p + 1..p + 1 + WidthOf(s[p] % 32)];
    }
  }

  // The type that preparsing leaves behind where no head starts.
  function TypeLeft(s: seq<byte>, p: nat): nat {
    if p >= |s| || (s[p] == 0xf8 && p + 1 < |s|) then INVALID_TYPE else s[p] / 32 * 32
  }

  // The iterator counts items in 32 bits; the largest value stands for "until the break".
  function CountOf(remaining: nat): Count {
    if remaining == UINT32_MAX then UntilBreak else Exactly(remaining)
  }

  function Counter(c: Count): nat {
    if c.UntilBreak? then UINT32_MAX else c.n
  }

  // The count after an element whose head is h.
  function Left(c: Count, h: Head): Count
    requires c != Exactly(0)
  {
    if c.Exactly? && !IsTagHead(h) then Exactly(c.n - 1) else c
  }

  predicate BreaksAt(s: seq<byte>, p: nat, c: Count) {
    c == UntilBreak && p < |s| && s[p] == BREAK_BYTE
  }

  // Moving to position p with c elements to go finds an end or a head there.
  predicate Reachable(s: seq<byte>, p: nat, c: Count) {
    c == Exactly(0) || BreaksAt(s, p, c) || HeadAt(s, p).Some?
  }

  // Where an iterator is that has moved to position p with c elements to go.
  function Landing(s: seq<byte>, p: nat, c: Count): nat {
    if BreaksAt(s, p, c) then p + 1 else p
  }

  // Where the elements of the container at p start, and how far they go.
  function Opening(s: seq<byte>, p: nat): (r: Option<(nat, Count)>)
    ensures r.Some? ==> p < r.value.0 <= |s| && r.value.1 != Exactly(UINT32_MAX)
    ensures r.Some? && r.value.1.Exactly? ==> r.value.1.n < UINT32_MAX
  {
    match HeadAt(s, p)
    case None => None
    case Some(Indefinite(_)) => Some((p + 1, UntilBreak))
    case Some(Sized(major, w, arg)) =>
      match Counted(major == MAJOR_MAP, arg)
      case None => None
      case Some(c) => Some((p + 1 + w, c))
  }

  // A container of known length can be entered up to these lengths, and has two elements a pair.
  lemma OpeningIs(s: seq<byte>, p: nat)
    requires HeadAt(s, p).Some? && (HeadAt(s, p).value.major == 4 || HeadAt(s, p).value.major == 5)
    ensures match HeadAt(s, p).value
            case Indefinite(_) => Opening(s, p) == Some((p + 1, UntilBreak))
            case Sized(4, w, n) => Opening(s, p) == if n < 0xffff_ffff then Some((p + 1 + w, Exactly(n))) else None
            case Sized(_, w, n) => Opening(s, p) == if n < 0x8000_0000 then Some((p + 1 + w, Exactly(2 * n))) else None
  {
    hide HeadAt;
  }

  // ----- Reading the number in a head

  // Reads the number of the head at ptr; the new position is also returned on errors.
  method ExtractNumber(s: seq<byte>, ptr: nat) returns (err: CborError, next: nat, number: nat)
    requires ptr < |s|
    ensures err == NoError <==> s[ptr] % 32 < 28 && ptr + 1 + WidthOf(s[ptr] % 32) <= |s|
    ensures err == NoError ==> next == ptr + 1 + WidthOf(s[ptr] % 32) && number < TWO_TO_THE_64
    ensures err == NoError ==> HeadAt(s, ptr).Some? || s[ptr] == 0xf8
    ensures err == NoError && s[ptr] % 32 == 24 ==> number == s[ptr + 1]
    ensures err == NoError && HeadAt(s, ptr).Some? ==>
            HeadAt(s, ptr) == Some(Sized(s[ptr] / 32, next - ptr - 1, number))
    ensures err != NoError ==> !(HeadAt(s, ptr).Some? && HeadAt(s, ptr).value.Sized?)
    ensures err != NoError ==> next == ptr + 1 && err == if s[ptr] % 32 >= 28 then IllegalNumber else UnexpectedEOF
  {
    var info := s[ptr] % 32;
    next, number := ptr + 1, 0;
    if info < 24 {
      return NoError, next, info;
    }
    if info > 27 {
      return IllegalNumber, next, number;
    }
    var bytesNeeded := if info == 24 then 1 else if info == 25 then 2 else if info == 26 then 4 else 8;
    if bytesNeeded > |s| - next {
      return UnexpectedEOF, next, number;
    }
    number := FromBigEndian(s[next..next + bytesNeeded]);
    if bytesNeeded == 1 {
      ByteAt(s, next);
    }
    next := next + bytesNeeded;
    PowersOf256();
    return NoError, next, number;
  }

  // The chunks a string still yields and the position after it: a string of known length
  // is one chunk, started says that iteration has begun.
  ghost function StringRest(s: seq<byte>, p: nat, major: nat, started: bool, chunked: bool): (r: Parsed<seq<Chunk>>) {
    if chunked then ParseChunks(s, if started then p else p + 1, major)
    else if started then Ok([], p)
    else
      match ChunkAt(s, p, major)
      case None => Fail
      case Some((from, len)) => Ok([Chunk(from - p - 1, s[from..from + len])], from + len)
  }

  // The payload of the string of known length that starts at p.
  function ChunkAt(s: seq<byte>, p: nat, major: nat): (r: Option<(nat, nat)>)
    ensures r.Some? ==> p < r.value.0 && r.value.0 + r.value.1 <= |s|
  {
    match HeadAt(s, p)
    case Some(Sized(m, w, len)) => if m == major && p + 1 + w + len <= |s| then Some((p + 1 + w, len)) else None
    case _ => None
  }

  lemma StringStep(s: seq<byte>, p: nat, major: nat, started: bool, chunked: bool)
    requires p <= |s|
    ensures var q := if chunked && !started then p + 1 else p;
            var r := StringRest(s, p, major, started, chunked);
            if started && !chunked then r == Ok([], p)
            else if chunked && q < |s| && s[q] == BREAK_BYTE then r == Ok([], q + 1)
            else match ChunkAt(s, q, major)
                 case None => r.Fail?
                 case Some((from, len)) =>
                   FirstChunk(s, q, r, from, len, StringRest(s, from + len, major, true, chunked))
  {
    hide HeadAt;
  }

  // The first chunk of whole, whose head is at p, is the slice given, and rest follows it.
  ghost predicate FirstChunk(s: seq<byte>, p: nat, whole: Parsed<seq<Chunk>>, from: nat, len: nat,
                             rest: Parsed<seq<Chunk>>) {
    && (whole.Ok? <==> rest.Ok?)
    && from + len <= |s|
    && (whole.Ok? ==> whole.next == rest.next && whole.val != [] && whole.val[1..] == rest.val
                      && whole.val[0].data == s[from..from + len] && from == p + 1 + whole.val[0].w)
  }

  // The chunks of a string are those of the item that starts there.
  lemma StringRestIsItem(s: seq<byte>, p: nat)
    requires HeadAt(s, p).Some? && IsStringMajor(HeadAt(s, p).value.major)
    ensures var h := HeadAt(s, p).value;
            var i, r := ParseItem(s, p), StringRest(s, p, h.major, false, h.Indefinite?);
            && (i.Ok? <==> r.Ok?)
            && (i.Ok? ==> i.next == r.next && IsString(i.val) && Content(i.val) == Joined(r.val))
            && (i.Ok? ==> IsTextItem(i.val) == (h.major == MAJOR_TEXT))
            && (i.Ok? ==> r.val == if i.val.Str? then [Chunk(i.val.w, i.val.data)] else i.val.chunks)
  {
    hide HeadAt;
    var h := HeadAt(s, p).value;
    var r := StringRest(s, p, h.major, false, h.Indefinite?);
    if h.Sized? && r.Ok? {
      assert Joined(r.val) == r.val[0].data + Joined([]);
    }
  }

  predicate IsTextItem(i: Item) {
    IsString(i) && i.major == MAJOR_TEXT
  }

  // ----- Runs of elements

  // What is still to come continues the elements done into the whole run.
  ghost predicate RunContinues(whole: Parsed<seq<Item>>, done: seq<Item>, rest: Parsed<seq<Item>>) {
    && (whole.Ok? <==> rest.Ok?)
    && (whole.Ok? ==> whole.next == rest.next && whole.val == done + rest.val)
  }

  lemma RunStep(s: seq<byte>, p: nat, c: Count, whole: Parsed<seq<Item>>, done: seq<Item>)
    requires c != Exactly(0) && HeadAt(s, p).Some?
    requires RunContinues(whole, done, ParseRun(s, p, c))
    ensures var i := ParseItem(s, p);
            && (i.Fail? ==> whole.Fail?)
            && (i.Ok? ==> RunContinues(whole, done + [i.val], ParseRun(s, i.next, After(c, i.val))))
  {
    hide HeadAt;
    var i := ParseItem(s, p);
    if i.Ok? && whole.Ok? {
      var rest := ParseRun(s, i.next, After(c, i.val));
      assert done + ([i.val] + rest.val) == done + [i.val] + rest.val;
    }
  }

  // A run is at least as deep as each element it continues with.
  lemma ElementTooDeep(whole: Parsed<seq<Item>>, done: seq<Item>, i: Item, rest: Parsed<seq<Item>>)
    requires RunContinues(whole, done + [i], rest)
    ensures whole.Ok? ==> rest.Ok? && DepthAll(whole.val) >= Depth(i)
  {
    if whole.Ok? {
      DepthConcat(done + [i], rest.val);
      DepthConcat(done, [i]);
      assert DepthAll([i]) >= Depth(i);
    }
  }

  lemma UnreachableRun(s: seq<byte>, p: nat, c: Count)
    requires p <= |s| && !Reachable(s, p, c)
    ensures ParseRun(s, p, c).Fail?
  {
    hide HeadAt;
  }

  // ----- Values: tags and the element they lead to

  // The count after a value.
  function AfterValue(c: Count): Count
    requires c != Exactly(0)
  {
    if c.Exactly? then Exactly(c.n - 1) else c
  }

  // A value starts with its first element.
  lemma ValueStep(s: seq<byte>, p: nat)
    requires HeadAt(s, p).Some?
    ensures var i, v := ParseItem(s, p), ParseRun(s, p, Exactly(1));
            && (i.Fail? ==> v.Fail?)
            && (i.Ok? && !IsTag(i.val) ==> v == Ok([i.val], i.next))
            && (i.Ok? && IsTag(i.val) ==> v == Prepend([i.val], ParseRun(s, i.next, Exactly(1))))
  {
    hide HeadAt;
    var i := ParseItem(s, p);
    if i.Ok? && !IsTag(i.val) {
      assert [i.val] + [] == [i.val];
    }
  }

  // Without a head there is no value, and behind a break there is none either.
  lemma NoValue(s: seq<byte>, p: nat)
    requires p <= |s| && HeadAt(s, p).None?
    ensures ParseRun(s, p, Exactly(1)).Fail?
  {
    hide HeadAt;
  }

  lemma BreakIsNoValue(s: seq<byte>, p: nat)
    requires p < |s| && s[p] == BREAK_BYTE
    ensures HeadAt(s, p).None? && ParseRun(s, p, Exactly(1)).Fail?
  {
    var info := s[p] % 32;
    assert HeadAt(s, p).None?;
    NoValue(s, p);
  }

  // ----- Walks: what can be read from a position on, whether or not the rest is well formed

  // Reading the elements es one after another leads from p, with c to go, to q, with d to go.
  ghost predicate Walks(s: seq<byte>, p: nat, c: Count, es: seq<Item>, q: nat, d: Count)
    decreases |es|
  {
    if es == [] then q == p && d == c
    else
      && c != Exactly(0) && ParseItem(s, p).Ok? && ParseItem(s, p).val == es[0]
      && Walks(s, ParseItem(s, p).next, After(c, es[0]), es[1..], q, d)
  }

  lemma {:induction false} WalksOn(s: seq<byte>, p: nat, c: Count, es: seq<Item>, q: nat, d: Count)
    requires Walks(s, p, c, es, q, d) && d != Exactly(0) && ParseItem(s, q).Ok?
    ensures var i := ParseItem(s, q); Walks(s, p, c, es + [i.val], i.next, After(d, i.val))
    decreases |es|
  {
    hide ParseItem;
    var i := ParseItem(s, q);
    if es == [] {
      assert ([] + [i.val])[1..] == [];
    } else {
      assert (es + [i.val])[1..] == es[1..] + [i.val];
      WalksOn(s, ParseItem(s, p).next, After(c, es[0]), es[1..], q, d);
    }
  }

  lemma {:induction false} WalksFurther(s: seq<byte>, p: nat, c: Count, es: seq<Item>, q: nat, d: Count,
                                        fs: seq<Item>, r: nat, e: Count)
    requires Walks(s, p, c, es, q, d) && Walks(s, q, d, fs, r, e)
    ensures Walks(s, p, c, es + fs, r, e)
    decreases |es|
  {
    hide ParseItem;
    if es == [] {
      assert es + fs == fs;
    } else {
      assert (es + fs)[1..] == es[1..] + fs;
      WalksFurther(s, ParseItem(s, p).next, After(c, es[0]), es[1..], q, d, fs, r, e);
    }
  }

  // A walk reads a beginning of the run, and stays in a counted or in an open one.
  lemma {:induction false} WalkContinues(s: seq<byte>, p: nat, c: Count, es: seq<Item>, q: nat, d: Count)
    requires p <= |s| && Walks(s, p, c, es, q, d)
    ensures q <= |s| && RunContinues(ParseRun(s, p, c), es, ParseRun(s, q, d))
    ensures d.UntilBreak? <==> c.UntilBreak?
    ensures c.Exactly? ==> d.n <= c.n
    decreases |es|
  {
    hide ParseItem;
    if es == [] {
      assert ParseRun(s, p, c).Ok? ==> [] + ParseRun(s, p, c).val == ParseRun(s, p, c).val;
    } else {
      var i := ParseItem(s, p);
      NoBreak(s, p);
      var rest := ParseRun(s, i.next, After(c, i.val));
      WalkContinues(s, i.next, After(c, i.val), es[1..], q, d);
      if rest.Ok? {
        assert [es[0]] + (es[1..] + ParseRun(s, q, d).val) == es + ParseRun(s, q, d).val;
      }
    }
  }

  // No item starts with the break byte.
  lemma NoBreak(s: seq<byte>, p: nat)
    requires ParseItem(s, p).Ok?
    ensures p < |s| && s[p] != BREAK_BYTE && HeadAt(s, p).Some?
  {
  }

  // Tags use up no count, so they walk with any.
  lemma {:induction false} TagsWalk(s: seq<byte>, p: nat, c: Count, tags: seq<Item>, q: nat, d: Count)
    requires Walks(s, p, c, tags, q, d) && forall t | t in tags :: IsTag(t)
    ensures d == c && Walks(s, p, Exactly(1), tags, q, Exactly(1))
    decreases |tags|
  {
    hide ParseItem;
    if tags != [] {
      assert tags[0] in tags && IsTag(tags[0]);
      TagsWalk(s, ParseItem(s, p).next, c, tags[1..], q, d);
    }
  }

  // An atom is its head.
  lemma AtomHere(s: seq<byte>, p: nat)
    requires HeadAt(s, p).Some? && IsFixedType(TypeOf(HeadAt(s, p).value))
    ensures var h := HeadAt(s, p).value;
            h.Sized? && ParseItem(s, p) == Ok(Atom(h.major, h.w, h.arg), p + Size(h))
  {
    hide HeadAt;
  }

  lemma ContainerHere(s: seq<byte>, p: nat)
    requires HeadAt(s, p).Some?
    requires TypeOf(HeadAt(s, p).value) == ARRAY_TYPE || TypeOf(HeadAt(s, p).value) == MAP_TYPE
    ensures var i, h := ParseItem(s, p), HeadAt(s, p).value;
            match Opening(s, p)
            case None => i.Fail?
            case Some((q, c)) =>
              i == Wrap(h.major == MAJOR_MAP, if h.Sized? then Some(h.w) else None, ParseRun(s, q, c))
  {
    hide HeadAt;
  }

  // What is done with each chunk: nothing, copying, or comparison with a C string.
  datatype IterateFunction = Noop | Memcpy(buffer: array<byte>) | Memcmp(text: seq<byte>)

  method Apply(f: IterateFunction, at: nat, src: seq<byte>) returns (ok: bool)
    requires f.Memcpy? ==> at + |src| <= f.buffer.Length
    requires f.Memcmp? ==> at + |src| <= |f.text| + 1
    modifies if f.Memcpy? then {f.buffer} else {}
    ensures !f.Memcmp? ==> ok
    ensures f.Memcpy? ==> f.buffer[..] == old(f.buffer[..at]) + src + old(f.buffer[at + |src|..])
    ensures f.Memcmp? ==> ok == ((f.text + [0])[at..at + |src|] == src)
  {
    match f
    case Noop => ok := true;
    case Memcpy(buffer) =>
      forall i | 0 <= i < |src| {
        buffer[at + i] := src[i];
      }
      ok := true;
    case Memcmp(text) => ok := (text + [0])[at..at + |src|] == src;
  }

  // The result flag and the buffer after the bytes done, of which before was the old content.
  ghost predicate Progress(f: IterateFunction, buflen: nat, result: bool, done: seq<byte>, before: seq<byte>)
    reads if f.Memcpy? then {f.buffer} else {}
  {
    match f
    case Noop => result == (|done| <= buflen)
    case Memcpy(buffer) =>
      && buflen <= |before| == buffer.Length
      && result == (|done| <= buflen)
      && (result ==> buffer[..] == done + before[|done|..])
      && buffer[buflen..] == before[buflen..]
    case Memcmp(text) => result == (done <= text)
  }

  // One chunk more: the flag turns false for good when the buffer does not hold it.
  method Consume(f: IterateFunction, buflen: nat, result: bool, ghost done: seq<byte>, total: nat, src: seq<byte>,
                 ghost before: seq<byte>)
    returns (ok: bool)
    requires Progress(f, buflen, result, done, before) && total == |done|
    requires f.Memcmp? ==> buflen == |f.text|
    modifies if f.Memcpy? then {f.buffer} else {}
    ensures Progress(f, buflen, ok, done + src, before)
    ensures f.Memcpy? ==> buflen <= |before| == f.buffer.Length && f.buffer[buflen..] == before[buflen..]
  {
    if result && buflen >= total + |src| {
      ok := Apply(f, total, src);
      if f.Memcmp? {
        var t := f.text;
        assert (t + [0])[total..total + |src|] == t[total..total + |src|];
        if ok {
          assert t == t[..total] + t[total..total + |src|] + t[total + |src|..];
        }
      }
    } else {
      ok := false;
    }
  }

  // The terminating zero is offered when the buffer has room for it.
  method Terminate(f: IterateFunction, buflen: nat, result: bool, ghost done: seq<byte>, total: nat,
                   ghost before: seq<byte>)
    returns (ok: bool)
    requires Progress(f, buflen, result, done, before) && total == |done|
    requires f.Memcmp? ==> buflen == |f.text| && 0 !in f.text
    modifies if f.Memcpy? then {f.buffer} else {}
    ensures Outcome(f, buflen, ok, done, before)
    ensures f.Memcpy? ==> f.buffer[buflen..] == before[buflen..]
  {
    ok := result;
    if result && buflen > total {
      if f.Memcmp? {
        assert (f.text + [0])[total..total + 1] == [f.text[total]] && f.text[total] in f.text;
      }
      ok := Apply(f, total, [0]);
    }
  }

  // What is still to come continues what was done into the whole string.
  ghost predicate Continues(whole: Parsed<seq<Chunk>>, done: seq<byte>, rest: Parsed<seq<Chunk>>) {
    && (whole.Ok? <==> rest.Ok?)
    && (whole.Ok? ==> whole.next == rest.next && Joined(whole.val) == done + Joined(rest.val))
  }

  lemma ContinuesStep(s: seq<byte>, p: nat, whole: Parsed<seq<Chunk>>, done: seq<byte>, rest: Parsed<seq<Chunk>>,
                      from: nat, len: nat, rest': Parsed<seq<Chunk>>)
    requires Continues(whole, done, rest) && FirstChunk(s, p, rest, from, len, rest')
    ensures Continues(whole, done + s[from..from + len], rest')
  {
  }

  lemma ContinuesStarts(whole: Parsed<seq<Chunk>>)
    ensures Continues(whole, [], whole)
  {
  }

  lemma ContinuesEnds(whole: Parsed<seq<Chunk>>, done: seq<byte>, rest: Parsed<seq<Chunk>>)
    requires Continues(whole, done, rest)
    ensures whole.Ok? <==> rest.Ok?
    ensures whole.Ok? ==> whole.next == rest.next && |Joined(whole.val)| >= |done|
    ensures whole.Ok? && rest.val == [] ==> Joined(whole.val) == done
  {
  }

  class CborValue {
    const data: seq<byte>   // the bytes up to the parser's end
    const sizeMax: nat
    var ptr: nat
    var remaining: nat
    var extra: nat
    var typ: nat
    var tooLarge: bool        // flag 0x01
    var negative: bool        // flag 0x02: a negative integer, or inside the chunks of a string
    var unknownLength: bool   // flag 0x04

    ghost predicate Valid()
      reads this
    {
      ptr <= |data| <= sizeMax && IsSizeMax(sizeMax) && remaining <= UINT32_MAX
    }

    // The fields hold what preparsing reads from the head h.
    ghost predicate Describes(h: Head)
      reads this
    {
      && typ == TypeOf(h)
      && unknownLength == h.Indefinite?
      && negative == (h.Sized? && h.major == MAJOR_NEGATIVE)
      && tooLarge == (h.Sized? && h.w >= 4)
      && (h.Sized? && h.w < 2 ==> extra == if h.major == MAJOR_SIMPLE && h.arg == 20 then 0 else h.arg)
      && (h.Sized? && h.w == 2 && h.major != MAJOR_SIMPLE ==> extra == h.arg)
    }

    // At an element whose head has been read ahead.
    ghost predicate Positioned()
      reads this
    {
      Valid() && remaining > 0 && HeadAt(data, ptr).Some? && Describes(HeadAt(data, ptr).value)
    }

    // At the end of the elements of a container.
    ghost predicate Finished()
      reads this
    {
      Valid() && remaining == 0 && typ == INVALID_TYPE
    }

    // The outcome of moving to position p with c elements to go.
    ghost predicate Arrived(p: nat, c: Count)
      reads this
    {
      if c == Exactly(0) then Finished() && ptr == p
      else if BreaksAt(data, p, c) then Finished() && ptr == p + 1
      else Positioned() && ptr == p && remaining == Counter(c)
    }

    constructor (data: seq<byte>, sizeMax: nat)
      requires IsSizeMax(sizeMax) && |data| <= sizeMax
      ensures this.data == data && this.sizeMax == sizeMax
      ensures Valid() && ptr == 0 && remaining == 1
    {
      this.data, this.sizeMax := data, sizeMax;
      ptr, remaining, extra, typ := 0, 1, 0, INVALID_TYPE;
      tooLarge, negative, unknownLength := false, false, false;
    }

    // A copy of an iterator, as C structure assignment makes it.
    constructor Copy(it: CborValue)
      ensures data == it.data && sizeMax == it.sizeMax
      ensures ptr == it.ptr && remaining == it.remaining && extra == it.extra && typ == it.typ
      ensures tooLarge == it.tooLarge && negative == it.negative && unknownLength == it.unknownLength
    {
      data, sizeMax := it.data, it.sizeMax;
      ptr, remaining, extra, typ := it.ptr, it.remaining, it.extra, it.typ;
      tooLarge, negative, unknownLength := it.tooLarge, it.negative, it.unknownLength;
    }

    // ----- Look-ahead

    method PreparseValue() returns (err: CborError)
      requires Valid()
      modifies this
      ensures ptr == old(ptr) && remaining == old(remaining)
      ensures HeadAt(data, ptr).Some? ==> err == NoError && Describes(HeadAt(data, ptr).value)
      ensures HeadAt(data, ptr).None? ==> err == HeadError(data, ptr) != NoError && typ == TypeLeft(data, ptr)
      ensures HeadAt(data, ptr).None? ==>
                && (err == UnexpectedEOF <==> exists tail :: HeadAt(data + tail, ptr).Some?)
                && (err == UnexpectedBreak <==> ptr < |data| && data[ptr] == 0xff)
                && (err == IllegalSimpleType <==> ptr + 1 < |data| && data[ptr] == 0xf8 && data[ptr + 1] < 32)
                && (err == UnknownType <==> ptr < |data| && data[ptr] / 32 == 7 && 28 <= data[ptr] % 32 <= 30)
                && err in {UnexpectedEOF, UnexpectedBreak, IllegalSimpleType, UnknownType, IllegalNumber}
                && typ == if ptr == |data| || err == IllegalSimpleType then 0xff else data[ptr] - data[ptr] % 32
    {
      if HeadAt(data, ptr).None? {
        HeadErrorIs(data, ptr);
      }
      hide FromBigEndian, Pow256;
      typ := INVALID_TYPE;
      if ptr == |data| {
        return UnexpectedEOF;
      }
      var descriptor, major := data[ptr] % 32, data[ptr] / 32;
      assert data[ptr] == 32 * major + descriptor;
      typ := data[ptr] - descriptor;
      tooLarge, negative, unknownLength := false, false, false;
      extra := descriptor;
      if descriptor > 27 {
        if descriptor != 31 {
          return if typ == SIMPLE_TYPE then UnknownType else IllegalNumber;
        }
        if !IsFixedType(typ) {
          unknownLength := true;
          return NoError;
        }
        return if typ == SIMPLE_TYPE then UnexpectedBreak else IllegalNumber;
      }
      var bytesNeeded := if descriptor < 24 then 0 else if descriptor == 24 then 1
                         else if descriptor == 25 then 2 else if descriptor == 26 then 4 else 8;
      if bytesNeeded + 1 > |data| - ptr {
        return UnexpectedEOF;
      }
      err := PreparseNumber(descriptor, major);
    }

    // The rest of a head whose number is in the buffer.
    method PreparseNumber(descriptor: nat, major: nat) returns (err: CborError)
      requires Valid() && ptr < |data| && data[ptr] == 32 * major + descriptor
      requires descriptor < 28 && ptr + 1 + WidthOf(descriptor) <= |data|
      requires typ == 32 * major && extra == descriptor && !tooLarge && !negative && !unknownLength
      modifies this
      ensures ptr == old(ptr) && remaining == old(remaining)
      ensures HeadAt(data, ptr).Some? ==> err == NoError && Describes(HeadAt(data, ptr).value)
      ensures HeadAt(data, ptr).None? ==>
                err == IllegalSimpleType && typ == INVALID_TYPE && data[ptr] == 0xf8 && data[ptr + 1] < 32
    {
      hide FromBigEndian, Pow256;
      if major == MAJOR_NEGATIVE {
        negative := true;
        typ := INTEGER_TYPE;
      } else if major == MAJOR_SIMPLE {
        if descriptor == 20 {
          extra := 0;
          typ := BOOLEAN_TYPE;
        } else if descriptor == 26 || descriptor == 27 {
          tooLarge := true;
          typ := data[ptr];
        } else if descriptor == 21 || descriptor == 22 || descriptor == 23 || descriptor == 25 {
          typ := data[ptr];
        } else if descriptor == 24 {
          extra := data[ptr + 1];
          ByteAt(data, ptr + 1);
          if extra < 32 {
            typ := INVALID_TYPE;
            return IllegalSimpleType;
          }
        }
        return NoError;
      }
      if descriptor < 24 {
        return NoError;
      }
      if descriptor == 24 {
        extra := data[ptr + 1];
        ByteAt(data, ptr + 1);
      } else if descriptor == 25 {
        extra := FromBigEndian(data[ptr + 1..ptr + 3]);
      } else {
        tooLarge := true;
      }
      return NoError;
    }

    method PreparseNextNoDecrement() returns (err: CborError)
      requires Valid() && remaining > 0
      modifies this
      ensures err == NoError <==> Reachable(data, old(ptr), CountOf(old(remaining)))
      ensures err == NoError ==> Arrived(old(ptr), CountOf(old(remaining)))
      ensures Valid() && err != OutOfMemory
    {
      if remaining == UINT32_MAX && ptr != |data| && data[ptr] == BREAK_BYTE {
        ptr := ptr + 1;
        typ := INVALID_TYPE;
        remaining := 0;
        return NoError;
      }
      err := PreparseValue();
    }

    method PreparseNext() returns (err: CborError)
      requires Valid() && remaining > 0
      modifies this
      ensures var c := if old(typ) == TAG_TYPE || old(remaining) == UINT32_MAX then CountOf(old(remaining))
                       else Exactly(old(remaining) - 1);
              && (err == NoError <==> Reachable(data, old(ptr), c))
              && (err == NoError ==> Arrived(old(ptr), c))
      ensures Valid() && err != OutOfMemory
    {
      if remaining != UINT32_MAX && typ != TAG_TYPE {
        remaining := remaining - 1;
        if remaining == 0 {
          typ := INVALID_TYPE;
          return NoError;
        }
      }
      err := PreparseNextNoDecrement();
    }

    // ----- Moving past elements and into containers

    // Past an atom, or past a string of known length whose payload is in the buffer.
    method AdvanceInternal() returns (err: CborError)
      requires Positioned()
      requires IsFixedType(typ) || Plain()
      modifies this
      ensures var h := HeadAt(data, old(ptr)).value;
              var q := old(ptr) + Size(h) + if IsFixedType(old(typ)) then 0 else h.arg;
              var c := Left(CountOf(old(remaining)), h);
              && (err == NoError <==> Reachable(data, q, c))
              && (err == NoError ==> Arrived(q, c))
      ensures Valid()
    {
      hide HeadAt, FromBigEndian, WidthOf, Reachable;
      var number;
      err, ptr, number := ExtractNumber(data, ptr);
      assert err == NoError;
      if typ == BYTE_STRING_TYPE || typ == TEXT_STRING_TYPE {
        assert number <= sizeMax && !unknownLength;
        ptr := ptr + number;
      }
      err := PreparseNext();
    }

    // At a string of known length whose payload is in the buffer.
    ghost predicate Plain()
      requires Positioned()
      reads this
    {
      var h := HeadAt(data, ptr).value;
      IsStringMajor(h.major) && h.Sized? && ptr + Size(h) + h.arg <= |data|
    }

    // The library asserts that the type is one, and a fixed one.
    method AdvanceFixed() returns (err: CborError)
      requires typ != INVALID_TYPE && IsFixedType(typ)
      requires Valid() && (remaining > 0 ==> Positioned())
      modifies this
      ensures old(remaining) == 0 ==> err == AdvancePastEOF
      ensures old(remaining) > 0 ==>
              var h := HeadAt(data, old(ptr)).value;
              var q, c := old(ptr) + Size(h), Left(CountOf(old(remaining)), h);
              && (err == NoError <==> Reachable(data, q, c))
              && (err == NoError ==> Arrived(q, c))
      ensures Valid()
    {
      if remaining == 0 {
        return AdvancePastEOF;
      }
      err := AdvanceInternal();
    }

    method EnterContainer() returns (err: CborError, recursed: CborValue)
      requires Positioned() && (typ == ARRAY_TYPE || typ == MAP_TYPE)
      ensures fresh(recursed) && recursed.data == data && recursed.sizeMax == sizeMax && recursed.Valid()
      ensures var o := Opening(data, ptr);
              && (err == NoError <==> o.Some? && Reachable(data, o.value.0, o.value.1))
              && (err == NoError ==> recursed.Arrived(o.value.0, o.value.1))
              && (o.None? ==> err == DataTooLarge && recursed.ptr == ptr)
    {
      hide HeadAt, FromBigEndian, WidthOf;
      recursed := new CborValue.Copy(this);
      if unknownLength {
        recursed.remaining := UINT32_MAX;
        recursed.ptr := recursed.ptr + 1;
      } else {
        var len;
        err, recursed.ptr, len := ExtractNumber(data, ptr);
        assert err == NoError;
        recursed.remaining := len % 0x1_0000_0000;
        if recursed.remaining != len || len == UINT32_MAX {
          recursed.ptr := ptr;
          return DataTooLarge, recursed;
        }
        if recursed.typ == MAP_TYPE {
          if recursed.remaining > UINT32_MAX / 2 {
            recursed.ptr := ptr;
            return DataTooLarge, recursed;
          }
          recursed.remaining := recursed.remaining * 2;
        }
        if len == 0 {
          recursed.typ := INVALID_TYPE;
          return NoError, recursed;
        }
      }
      err := recursed.PreparseNextNoDecrement();
    }

    method LeaveContainer(recursed: CborValue) returns (err: CborError)
      requires Valid() && remaining > 0 && (typ == ARRAY_TYPE || typ == MAP_TYPE)
      requires recursed.typ == INVALID_TYPE && recursed.ptr <= |data|
      modifies this
      ensures var c := if old(remaining) == UINT32_MAX then UntilBreak else Exactly(old(remaining) - 1);
              && (err == NoError <==> Reachable(data, old(recursed.ptr), c))
              && (err == NoError ==> Arrived(old(recursed.ptr), c))
      ensures Valid()
    {
      ptr := recursed.ptr;
      err := PreparseNext();
    }

    // ----- Strings

    ghost predicate AtString()
      reads this
    {
      Valid() && remaining > 0 && (typ == BYTE_STRING_TYPE || typ == TEXT_STRING_TYPE)
    }

    // The chunks still to come and the position after the string.
    ghost function RestOfString(): Parsed<seq<Chunk>>
      reads this
    {
      StringRest(data, ptr, typ / 32, negative, unknownLength)
    }

    // Where the head of the next chunk stands.
    ghost function NextHead(): nat
      reads this
    {
      if unknownLength && !negative then ptr + 1 else ptr
    }

    // The count after the string.
    ghost function AfterString(): (c: Count)
      requires remaining > 0
      reads this
    {
      if remaining == UINT32_MAX then UntilBreak else Exactly(remaining - 1)
    }

    // Where the string is left, if no chunk is to come.
    ghost function ChunksEnd(): Option<nat>
      reads this
    {
      if negative && !unknownLength then Some(ptr)
      else if unknownLength && NextHead() < |data| && data[NextHead()] == BREAK_BYTE then Some(NextHead() + 1)
      else None
    }

    // The next chunk as a start and a length; none when the string is over.
    method GetStringChunk() returns (err: CborError, chunk: Option<(nat, nat)>)
      requires AtString() && (negative || Positioned())
      modifies this
      ensures Valid() && err != OutOfMemory
      ensures err == NoError && chunk.Some? ==>
              && AtString() && negative && typ == old(typ) && remaining == old(remaining)
              && unknownLength == old(unknownLength)
              && old(ptr) < chunk.value.0 && ptr == chunk.value.0 + chunk.value.1
              && FirstChunk(data, old(NextHead()), old(RestOfString()), chunk.value.0, chunk.value.1, RestOfString())
      ensures err == NoError && chunk.None? ==>
              && old(RestOfString()).Ok? && old(RestOfString()).val == []
              && Reachable(data, old(RestOfString()).next, old(AfterString()))
              && Arrived(old(RestOfString()).next, old(AfterString()))
      ensures err != NoError ==>
              || old(RestOfString()).Fail?
              || (old(RestOfString()).val == [] && !Reachable(data, old(RestOfString()).next, old(AfterString())))
      // What the next bytes alone decide: the string ends here, or a chunk stands here.
      ensures match old(ChunksEnd())
              case Some(q) =>
                && chunk.None? && (err == NoError <==> Reachable(data, q, old(AfterString())))
                && (err == NoError ==> Arrived(q, old(AfterString())))
              case None =>
                && (err == NoError <==> ChunkAt(data, old(NextHead()), old(typ) / 32).Some?)
                && (err == NoError ==> chunk == ChunkAt(data, old(NextHead()), old(typ) / 32))
    {
      hide HeadAt, StringRest, Reachable, CborValue.Describes, CborValue.Arrived, TypeOf, Left;
      StringStep(data, ptr, typ / 32, negative, unknownLength);
      if negative {
        if !unknownLength {
          err := PreparseNext();
          return err, None;
        }
      } else if unknownLength {
        ptr := ptr + 1;
        negative := true;
      }
      if ptr == |data| {
        return UnexpectedEOF, None;
      }
      if data[ptr] == BREAK_BYTE {
        ptr := ptr + 1;
        err := PreparseNext();
        return err, None;
      }
      if data[ptr] / 32 * 32 != typ {
        return IllegalType, None;
      }
      var len;
      err, ptr, len := ExtractNumber(data, ptr);
      if err != NoError {
        return err, None;
      }
      if len > sizeMax {
        return DataTooLarge, None;
      }
      if len > |data| - ptr {
        return UnexpectedEOF, None;
      }
      chunk := Some((ptr, len));
      ptr := ptr + len;
      negative := true;
    }

    // Moves a chunked string to its first chunk.
    method PrepareStringIteration() returns (err: CborError)
      requires Positioned() && AtString()
      modifies this
      ensures AtString() && typ == old(typ) && remaining == old(remaining) && unknownLength == old(unknownLength)
      ensures (negative || Positioned()) && RestOfString() == old(RestOfString()) && NextHead() == old(NextHead())
      ensures err != NoError ==> RestOfString().Fail?
    {
      hide HeadAt;
      if unknownLength {
        ptr := ptr + 1;
        negative := true;
      }
      if ptr == |data| {
        return UnexpectedEOF;
      }
      return NoError;
    }

    // Walks the chunks of a string, then offers the terminating zero if there is room.
    method IterateStringChunks(buflen: nat, f: IterateFunction)
      returns (err: CborError, result: bool, total: nat)
      requires Positioned() && AtString()
      requires f.Memcpy? ==> buflen <= f.buffer.Length
      requires f.Memcmp? ==> buflen == |f.text| && 0 !in f.text
      modifies this, if f.Memcpy? then {f.buffer} else {}
      ensures Valid() && err != OutOfMemory
      ensures var r := old(RestOfString());
              && (err == NoError <==> r.Ok? && Reachable(data, r.next, old(AfterString())))
              && (err == NoError ==>
                    && Arrived(r.next, old(AfterString()))
                    && total == |Joined(r.val)| <= |data|
                    && Outcome(f, buflen, result, Joined(r.val), if f.Memcpy? then old(f.buffer[..]) else []))
      ensures f.Memcpy? ==> f.buffer[buflen..] == old(f.buffer[buflen..])
    {
      hide StringRest, Reachable, HeadAt, Progress, FirstChunk, Outcome, Continues, Joined;
      hide CborValue.RestOfString, CborValue.NextHead, CborValue.Positioned, CborValue.Arrived;
      ghost var before := if f.Memcpy? then f.buffer[..] else [];
      ghost var whole, done, after := RestOfString(), [], AfterString();
      total, result := 0, true;
      StartProgress(f, buflen, before);
      assert Continues(whole, done, RestOfString()) by { ContinuesStarts(whole); }
      while true
        invariant AtString() && (negative || Positioned()) && AfterString() == after
        invariant Continues(whole, done, RestOfString())
        invariant total == |done| <= ptr
        invariant Progress(f, buflen, result, done, before)
        invariant f.Memcpy? ==> buflen <= |before| == f.buffer.Length && f.buffer[buflen..] == before[buflen..]
        decreases |data| - ptr
      {
        ghost var at, rest := NextHead(), RestOfString();
        var chunk;
        err, chunk := GetStringChunk();
        ContinuesEnds(whole, done, rest);
        if err != NoError {
          return;
        }
        if chunk.None? {
          break;
        }
        var (from, len) := chunk.value;
        ContinuesStep(data, at, whole, done, rest, from, len, RestOfString());
        if total + len > sizeMax {
          return DataTooLarge, result, total;
        }
        result := Consume(f, buflen, result, done, total, data[from..from + len], before);
        done := done + data[from..from + len];
        total := total + len;
      }
      result := Terminate(f, buflen, result, done, total, before);
    }

    // The whole item at this iterator, as the reference recogniser sees it.
    ghost function Here(): Parsed<Item>
      reads this
    {
      ParseItem(data, ptr)
    }

    // Success is: an item starts here, and what follows it is reachable.
    ghost predicate Passable(r: Parsed<Item>, c: Count)
      requires c != Exactly(0)
    {
      r.Ok? && Reachable(data, r.next, After(c, r.val))
    }

    ghost predicate Passed(r: Parsed<Item>, c: Count)
      requires c != Exactly(0)
      reads this
    {
      r.Ok? && Arrived(r.next, After(c, r.val))
    }

    // Copies a string into the buffer, or with none only measures it, and moves past it.
    method CopyString(buffer: Option<array<byte>>, buflen: nat) returns (err: CborError, total: nat)
      requires Positioned() && AtString()
      requires buffer.Some? ==> buflen <= buffer.value.Length
      modifies this, if buffer.Some? then {buffer.value} else {}
      ensures Valid()
      ensures var r, c := old(Here()), CountOf(old(remaining));
              if Passable(r, c) then
                && (err == NoError <==> |Content(r.val)| <= buflen)
                && (err != NoError ==> err == OutOfMemory)
                && Passed(r, c) && total == |Content(r.val)| <= |data|
              else err != NoError && err != OutOfMemory
      ensures buffer.Some? && err == NoError ==>
                var text := Content(old(Here()).val);
                var zero := if |text| < buflen then [0] else [];
                buffer.value[..] == text + zero + old(buffer.value[..])[|text| + |zero|..]
      ensures buffer.Some? ==> buffer.value[buflen..] == old(buffer.value[buflen..])
    {
      hide HeadAt, StringRest, Reachable, ParseItem, Content, Joined;
      StringRestIsItem(data, ptr);
      var f := if buffer.Some? then Memcpy(buffer.value) else Noop;
      var copiedAll;
      err, copiedAll, total := IterateStringChunks(buflen, f);
      if err == NoError && !copiedAll {
        err := OutOfMemory;
      }
    }

    // At an element or at the end of a container.
    ghost predicate Resting()
      reads this
    {
      Finished() || Positioned()
    }

    // The elements from here to the end of the container.
    ghost function Run(): Parsed<seq<Item>>
      requires Valid()
      reads this
    {
      ParseRun(data, ptr, CountOf(remaining))
    }

    // The iterator has passed the elements es since position p, where c were to go.
    ghost predicate HasPassed(p: nat, c: Count, es: seq<Item>)
      reads this
    {
      if remaining > 0 then Positioned() && Walks(data, p, c, es, ptr, CountOf(remaining))
      else if c.UntilBreak? then
        Finished() && ptr > 0 && BreaksAt(data, ptr - 1, c) && Walks(data, p, c, es, ptr - 1, c)
      else Finished() && Walks(data, p, c, es, ptr, Exactly(0))
    }

    // One element more, read at q and left behind.
    lemma PassesOne(p: nat, c: Count, es: seq<Item>, q: nat, d: Count)
      requires p <= |data| && Walks(data, p, c, es, q, d) && d != Exactly(0) && (d.Exactly? ==> d.n < UINT32_MAX)
      requires ParseItem(data, q).Ok?
      requires var i := ParseItem(data, q); Arrived(i.next, After(d, i.val))
      ensures HasPassed(p, c, es + [ParseItem(data, q).val])
    {
      hide HeadAt, ParseItem, Walks;
      var i := ParseItem(data, q);
      WalksOn(data, p, c, es, q, d);
      WalkContinues(data, p, c, es + [i.val], i.next, After(d, i.val));
    }

    // What has been passed continues into what is to come; at the end it is all there was.
    lemma PassedRun(p: nat, c: Count, es: seq<Item>)
      requires p <= |data| && HasPassed(p, c, es)
      ensures Resting() && RunContinues(ParseRun(data, p, c), es, Run())
      ensures remaining == 0 ==> ParseRun(data, p, c) == Ok(es, ptr)
    {
      hide HeadAt, ParseItem, Walks;
      if remaining > 0 {
        WalkContinues(data, p, c, es, ptr, CountOf(remaining));
      } else if c.UntilBreak? {
        WalkContinues(data, p, c, es, ptr - 1, c);
        assert es + [] == es;
      } else {
        WalkContinues(data, p, c, es, ptr, Exactly(0));
        assert es + [] == es;
      }
    }

    // Having arrived, the elements to come are those of the run that starts there.
    lemma ArrivedRun(p: nat, c: Count)
      requires p <= |data| && Arrived(p, c) && c != Exactly(UINT32_MAX)
      ensures Resting() && ptr >= p && ParseRun(data, p, c) == Run()
    {
      hide HeadAt;
    }

    method AdvanceRecursive(nestingLevel: nat) returns (err: CborError)
      requires Positioned()
      modifies this
      ensures Valid()
      ensures var r, c := old(Here()), CountOf(old(remaining));
              && (err == NoError <==> Passable(r, c) && Depth(r.val) <= nestingLevel)
              && (err == NoError ==> Passed(r, c))
      decreases nestingLevel, 1
    {
      hide HeadAt, Reachable, ParseRun, Content;
      if IsFixedType(typ) {
        AtomHere(data, ptr);
        err := AdvanceInternal();
        return;
      }
      if typ != ARRAY_TYPE && typ != MAP_TYPE {
        StringRestIsItem(data, ptr);
        hide ParseItem;
        var total;
        err, total := CopyString(None, sizeMax);
        return;
      }
      err := AdvanceContainer(nestingLevel);
    }

    // Enters a container, passes its elements and leaves it.
    method AdvanceContainer(nestingLevel: nat) returns (err: CborError)
      requires Positioned() && (typ == ARRAY_TYPE || typ == MAP_TYPE)
      modifies this
      ensures Valid()
      ensures var r, c := old(Here()), CountOf(old(remaining));
              && (err == NoError <==> Passable(r, c) && Depth(r.val) <= nestingLevel)
              && (err == NoError ==> Passed(r, c))
      decreases nestingLevel, 0
    {
      hide HeadAt, Reachable, ParseRun, Content, ParseItem;
      ContainerHere(data, ptr);
      if nestingLevel == 0 {
        return NestingTooDeep;
      }
      ghost var start := Opening(data, ptr);
      var recursed;
      err, recursed := EnterContainer();
      if err != NoError {
        if start.Some? {
          UnreachableRun(data, start.value.0, start.value.1);
        }
        return;
      }
      recursed.ArrivedRun(start.value.0, start.value.1);
      err := recursed.AdvanceElements(nestingLevel - 1);
      if err != NoError {
        return;
      }
      err := LeaveContainer(recursed);
    }

    // The loop over the elements of an entered container.
    method AdvanceElements(nestingLevel: nat) returns (err: CborError)
      requires Resting()
      modifies this
      ensures err == NoError <==> old(Run()).Ok? && DepthAll(old(Run()).val) <= nestingLevel
      ensures err == NoError ==> Finished() && ptr == old(Run()).next
      decreases nestingLevel, 2
    {
      hide HeadAt, Reachable;
      ghost var whole, done := Run(), [];
      while remaining != 0
        invariant Resting()
        invariant RunContinues(whole, done, Run())
        invariant DepthAll(done) <= nestingLevel
        decreases |data| - ptr, remaining
      {
        ghost var p, c, i := ptr, CountOf(remaining), Here();
        RunStep(data, p, c, whole, done);
        err := AdvanceRecursive(nestingLevel);
        if i.Ok? {
          DepthConcat(done, [i.val]);
        }
        if err != NoError {
          if i.Ok? {
            ElementTooDeep(whole, done, i.val, ParseRun(data, i.next, After(c, i.val)));
            if !Reachable(data, i.next, After(c, i.val)) {
              UnreachableRun(data, i.next, After(c, i.val));
            }
          }
          return;
        }
        ArrivedRun(i.next, After(c, i.val));
        done := done + [i.val];
      }
      assert whole.Ok? ==> whole.val == done;
      return NoError;
    }

    // ----- Public movement

    // The library asserts that the type is one: an iterator at the end may not be advanced.
    method Advance() returns (err: CborError)
      requires typ != INVALID_TYPE
      requires Valid() && (remaining > 0 ==> Positioned())
      modifies this
      ensures Valid()
      ensures old(remaining) == 0 ==> err == AdvancePastEOF
      ensures old(remaining) > 0 ==>
                var r, c := old(Here()), CountOf(old(remaining));
                && (err == NoError <==> Passable(r, c) && Depth(r.val) <= MAX_RECURSIONS)
                && (err == NoError ==> Passed(r, c))
    {
      if remaining == 0 {
        return AdvancePastEOF;
      }
      err := AdvanceRecursive(MAX_RECURSIONS);
    }

    method ValidateBasic() returns (err: CborError)
      requires typ != INVALID_TYPE
      requires Valid() && (remaining > 0 ==> Positioned())
      ensures remaining > 0 ==>
                (err == NoError <==> Passable(Here(), CountOf(remaining)) && Depth(Here().val) <= MAX_RECURSIONS)
    {
      var value := new CborValue.Copy(this);
      err := value.Advance();
    }

    // ----- Getters

    // The number of a head, from the read-ahead bits or from the buffer.
    method ExtractInt64() returns (number: nat)
      requires Positioned() && HeadAt(data, ptr).value.Sized?
      requires var h := HeadAt(data, ptr).value; h.major != MAJOR_SIMPLE || h.w >= 4
      ensures number == HeadAt(data, ptr).value.arg
    {
      if !tooLarge {
        return extra;
      }
      assert data[ptr] % 32 == 26 || data[ptr] % 32 == 27;
      if data[ptr] % 2 == 26 % 2 {
        return FromBigEndian(data[ptr + 1..ptr + 5]);
      }
      return FromBigEndian(data[ptr + 1..ptr + 9]);
    }

    // The integer at this iterator; negative integers are stored as -1 - n.
    ghost function Integer(): int
      requires Positioned() && typ == INTEGER_TYPE
      reads this
    {
      var h := HeadAt(data, ptr).value;
      if h.major == MAJOR_NEGATIVE then -1 - h.arg else h.arg
    }

    method GetInt64Checked() returns (err: CborError, result: int)
      requires Positioned() && typ == INTEGER_TYPE
      ensures err == NoError <==> -0x8000_0000_0000_0000 <= Integer() <= 0x7fff_ffff_ffff_ffff
      ensures err == NoError ==> result == Integer()
      ensures err != NoError ==> err == DataTooLarge
    {
      var v := ExtractInt64();
      if v > 0x7fff_ffff_ffff_ffff {
        return DataTooLarge, 0;
      }
      result := v;
      if negative {
        result := -result - 1;
      }
      err := NoError;
    }

    method GetIntChecked() returns (err: CborError, result: int)
      requires Positioned() && typ == INTEGER_TYPE
      ensures err == NoError <==> -0x8000_0000 <= Integer() <= 0x7fff_ffff
      ensures err == NoError ==> result == Integer()
      ensures err != NoError ==> err == DataTooLarge
    {
      var v := ExtractInt64();
      if negative {
        if v > 0x7fff_ffff {
          return DataTooLarge, 0;
        }
        result := v;
        return NoError, -result - 1;
      }
      if v > 0x7fff_ffff {
        return DataTooLarge, 0;
      }
      return NoError, v;
    }

    method GetBoolean() returns (result: bool)
      requires Positioned() && typ == BOOLEAN_TYPE
      ensures result <==> HeadAt(data, ptr).value.arg == 21
    {
      result := extra != 0;
    }

    method GetSimpleType() returns (result: nat)
      requires Positioned() && typ == SIMPLE_TYPE
      ensures result == HeadAt(data, ptr).value.arg < 256
    {
      result := extra;
    }

    method GetHalfFloat() returns (bits: nat)
      requires Positioned() && typ == HALF_FLOAT_TYPE
      ensures bits == HeadAt(data, ptr).value.arg
    {
      bits := FromBigEndian(data[ptr + 1..ptr + 3]);
    }

    method CalculateStringLength() returns (err: CborError, len: nat)
      requires Positioned() && AtString()
      ensures err == NoError <==> Passable(Here(), CountOf(remaining))
      ensures err == NoError ==> len == |Content(Here().val)|
    {
      var copy := new CborValue.Copy(this);
      err, len := copy.CopyString(None, sizeMax);
    }

    // Having arrived at anything but a tag, there are no tags to pass.
    lemma ArrivedStops(p: nat, c: Count)
      requires p <= |data| && Arrived(p, c) && typ != TAG_TYPE && c != Exactly(0)
      ensures PastTags(data, p) == p && Reachable(data, p, c)
    {
      if BreaksAt(data, p, c) {
        BreakIsNoValue(data, p);
      }
    }

    // Passes over tags; stops at the first element that is none, or at the end.
    method SkipTag() returns (err: CborError, ghost tags: seq<Item>)
      requires Resting()
      modifies this
      ensures Valid()
      ensures forall t | t in tags :: IsTag(t)
      ensures err == NoError ==> Resting() && typ != TAG_TYPE && ptr >= old(ptr)
      ensures err == NoError ==> RunContinues(old(Run()), tags, Run())
      ensures err == NoError ==> remaining == old(remaining) || (old(remaining) == UINT32_MAX && Finished())
      ensures err == NoError && old(remaining) > 0 ==> HasPassed(old(ptr), CountOf(old(remaining)), tags)
      ensures old(remaining) == 0 ==> err == NoError && tags == [] && unchanged(this)
      ensures err != NoError ==> old(remaining) > 0 && old(Run()).Fail? && ParseRun(data, old(ptr), Exactly(1)).Fail?
      ensures old(remaining) > 0 ==>
                var q, c := PastTags(data, old(ptr)), CountOf(old(remaining));
                && (err == NoError <==> Reachable(data, q, c))
                && (err == NoError ==> Arrived(q, c))
    {
      hide HeadAt, Reachable, ParseItem, ParseRun, Walks, RunContinues;
      ghost var p, c := ptr, CountOf(remaining);
      ghost var x: nat := ptr;
      tags := [];
      if remaining > 0 {
        NothingWalked(data, p, c);
      } else {
        NothingContinues(Run());
      }
      while typ == TAG_TYPE
        invariant Resting() && (forall t | t in tags :: IsTag(t)) && ptr >= p
        invariant if old(remaining) > 0 then HasPassed(p, c, tags) else tags == [] && unchanged(this)
        invariant remaining == old(remaining) || (old(remaining) == UINT32_MAX && Finished())
        invariant old(remaining) > 0 ==> x <= |data| && Arrived(x, c) && PastTags(data, x) == PastTags(data, p)
        decreases |data| - ptr
      {
        ghost var q, i := ptr, Here();
        AtomHere(data, ptr);
        x := i.next;
        PastTagsStep(data, q);
        err := AdvanceFixed();
        if err != NoError {
          TagsFail(data, p, c, tags, q);
          PastTagsStop(data, x, c);
          return;
        }
        PassesOne(p, c, tags, q, c);
        tags := tags + [i.val];
      }
      if old(remaining) > 0 {
        PassedRun(p, c, tags);
        ArrivedStops(x, c);
      } else {
        NothingContinues(Run());
      }
      err := NoError;
    }
  }

  // The position behind the tags at p.
  function PastTags(s: seq<byte>, p: nat): (q: nat)
    requires p <= |s|
    ensures p <= q <= |s|
    decreases |s| - p
  {
    match HeadAt(s, p)
    case None => p
    case Some(h) => if IsTagHead(h) then PastTags(s, p + Size(h)) else p
  }

  lemma PastTagsStep(s: seq<byte>, p: nat)
    requires HeadAt(s, p).Some? && IsTagHead(HeadAt(s, p).value)
    ensures PastTags(s, p) == PastTags(s, p + Size(HeadAt(s, p).value))
  {
  }

  lemma PastTagsStop(s: seq<byte>, p: nat, c: Count)
    requires p <= |s| && !Reachable(s, p, c)
    ensures PastTags(s, p) == p
  {
  }

  lemma NothingWalked(s: seq<byte>, p: nat, c: Count)
    ensures Walks(s, p, c, [], p, c)
  {
  }

  lemma NothingContinues(r: Parsed<seq<Item>>)
    ensures RunContinues(r, [], r)
  {
  }

  // Behind the last of these tags is neither an element nor an end.
  lemma TagsFail(s: seq<byte>, p: nat, c: Count, tags: seq<Item>, q: nat)
    requires p <= |s| && Walks(s, p, c, tags, q, c) && (forall t | t in tags :: IsTag(t)) && c != Exactly(0)
    requires ParseItem(s, q).Ok? && IsTag(ParseItem(s, q).val) && !Reachable(s, ParseItem(s, q).next, c)
    ensures ParseRun(s, p, c).Fail? && ParseRun(s, p, Exactly(1)).Fail?
  {
    hide ParseItem, Walks, ParseRun, HeadAt;
    var i := ParseItem(s, q);
    WalksOn(s, p, c, tags, q, c);
    TagsWalk(s, p, c, tags + [i.val], i.next, c);
    WalkContinues(s, p, c, tags + [i.val], i.next, c);
    WalkContinues(s, p, Exactly(1), tags + [i.val], i.next, Exactly(1));
    UnreachableRun(s, i.next, c);
    NoValue(s, i.next);
  }

  // An iterator at the first element of a buffer; one element is expected there.
  method ParserInit(data: seq<byte>, sizeMax: nat) returns (err: CborError, it: CborValue)
    requires IsSizeMax(sizeMax) && |data| <= sizeMax
    ensures fresh(it) && it.data == data && it.sizeMax == sizeMax && it.ptr == 0 && it.remaining == 1
    ensures err == NoError <==> HeadAt(data, 0).Some?
    ensures err == NoError ==> it.Positioned()
    ensures err != NoError ==>
              && err == HeadError(data, 0)
              && (err == UnexpectedEOF <==> exists tail :: HeadAt(data + tail, 0).Some?)
              && (err == UnexpectedBreak <==> data != [] && data[0] == 0xff)
              && (err == IllegalSimpleType <==> |data| > 1 && data[0] == 0xf8 && data[1] < 32)
              && (err == UnknownType <==> data != [] && data[0] / 32 == 7 && 28 <= data[0] % 32 <= 30)
              && err in {UnexpectedEOF, UnexpectedBreak, IllegalSimpleType, UnknownType, IllegalNumber}
  {
    hide HeadAt;
    it := new CborValue(data, sizeMax);
    err := it.PreparseValue();
  }

  lemma StartProgress(f: IterateFunction, buflen: nat, before: seq<byte>)
    requires f.Memcpy? ==> buflen <= f.buffer.Length && before == f.buffer[..]
    ensures Progress(f, buflen, true, [], before)
  {
  }

  // How iteration ends for a string with this content.
  ghost predicate Outcome(f: IterateFunction, buflen: nat, result: bool, content: seq<byte>, before: seq<byte>)
    reads if f.Memcpy? then {f.buffer} else {}
  {
    match f
    case Noop => result == (|content| <= buflen)
    case Memcpy(buffer) =>
      var written := content + if |content| < buflen then [0] else [];
      && result == (|content| <= buflen)
      && (result ==> |written| <= |before| && buffer[..] == written + before[|written|..])
    case Memcmp(text) => result == (content == text)
  }

  lemma ByteAt(s: seq<byte>, p: nat)
    requires p < |s|
    ensures FromBigEndian(s[p..p + 1]) == s[p]
  {
    assert s[p..p + 1][..0] == [];
  }
}
