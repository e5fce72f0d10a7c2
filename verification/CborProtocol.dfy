/**
 Every use of the parser that follows its protocol: any sequence of movements, each made where
 the library allows it, on any bytes. The iterators of the open containers form a stack, and
 where each of them is follows from the bytes alone.
 */
module CborProtocol {
  import opened Options
  import opened CborHeads
  import opened CborSyntax
  import opened CborValues

  datatype Op =
    | Advance
    | AdvanceFixed
    | SkipTag
    | Enter
    | Leave
    | CopyString(size: nat)
    | NextChunk

  predicate IsContainerType(typ: nat) {
    typ == ARRAY_TYPE || typ == MAP_TYPE
  }

  predicate IsStringType(typ: nat) {
    typ == BYTE_STRING_TYPE || typ == TEXT_STRING_TYPE
  }

  // Where the library's own assertions and documentation allow a movement, by the type of the
  // iterator, whether it is between chunks, and how many iterators there are.
  predicate Allowed(op: Op, typ: nat, chunked: bool, depth: nat) {
    match op
    case Advance => !chunked && typ != INVALID_TYPE
    case AdvanceFixed => typ != INVALID_TYPE && IsFixedType(typ)
    case SkipTag => !chunked
    case Enter => IsContainerType(typ)
    case Leave => depth > 1 && typ == INVALID_TYPE
    case CopyString(_) => !chunked && IsStringType(typ)
    case NextChunk => IsStringType(typ)
  }

  // ----- Where a run arrives, by the recogniser

  // An iterator is at the element whose head is at p, with c to go; at the end; or between the
  // chunks of a string, with the next head or the end of the string at p.
  datatype Place =
    | AtElement(p: nat, c: Count)
    | AtEnd(p: nat)
    | AtChunk(p: nat, major: nat, chunked: bool, c: Count)

  // Moving to p with c elements to go.
  function Land(s: seq<byte>, p: nat, c: Count): Option<Place> {
    if c == Exactly(0) then Some(AtEnd(p))
    else if BreaksAt(s, p, c) then Some(AtEnd(p + 1))
    else if HeadAt(s, p).Some? then Some(AtElement(p, c))
    else None
  }

  function TypeAt(s: seq<byte>, at: Place): nat {
    match at
    case AtElement(p, _) => if HeadAt(s, p).Some? then TypeOf(HeadAt(s, p).value) else INVALID_TYPE
    case AtEnd(_) => INVALID_TYPE
    case AtChunk(_, major, _, _) => 32 * major
  }

  // Past the item that stands at p.
  function PastItem(s: seq<byte>, p: nat, c: Count, fits: Item -> bool): Option<Place>
    requires c != Exactly(0)
  {
    match ParseItem(s, p)
    case Fail => None
    case Ok(i, q) => if fits(i) then Land(s, q, After(c, i)) else None
  }

  // Past the chunk whose head is at p, or past the break.
  function PastChunk(s: seq<byte>, p: nat, major: nat, chunked: bool, c: Count): Option<Place>
    requires c != Exactly(0)
  {
    if chunked && p < |s| && s[p] == BREAK_BYTE then Land(s, p + 1, AfterValue(c))
    else
      match ChunkAt(s, p, major)
      case None => None
      case Some((from, len)) => Some(AtChunk(from + len, major, chunked, c))
  }

  // A place the bytes allow.
  predicate IsPlace(s: seq<byte>, at: Place) {
    match at
    case AtElement(p, c) => c != Exactly(0) && HeadAt(s, p).Some?
    case AtEnd(p) => p <= |s|
    case AtChunk(p, major, _, c) => c != Exactly(0) && IsStringMajor(major) && p <= |s|
  }

  // One movement of an iterator, or none where it fails.
  function Moved(s: seq<byte>, at: Place, op: Op): Option<Place>
    requires IsPlace(s, at)
  {
    match at
    case AtElement(p, c) =>
      (match op
       case Advance => PastItem(s, p, c, i => Depth(i) <= 1024)
       case AdvanceFixed => PastItem(s, p, c, i => true)
       case SkipTag => Land(s, PastTags(s, p), c)
       case CopyString(size) => PastItem(s, p, c, i => IsString(i) && |Content(i)| <= size)
       case NextChunk =>
         var h := HeadAt(s, p).value;
         if IsStringMajor(h.major) then
           PastChunk(s, if h.Indefinite? then p + 1 else p, h.major, h.Indefinite?, c)
         else None
       case _ => None)
    case AtEnd(_) => if op.SkipTag? then Some(at) else None
    case AtChunk(p, major, chunked, c) =>
      if !op.NextChunk? then None
      else if chunked then PastChunk(s, p, major, true, c)
      else Land(s, p, AfterValue(c))
  }

  // One movement of the stack. One that is not allowed is passed over.
  function Stepped(s: seq<byte>, places: seq<Place>, op: Op): Option<seq<Place>>
    requires places != [] && IsPlace(s, places[|places| - 1])
  {
    var n := |places| - 1;
    var top := places[n];
    if !Allowed(op, TypeAt(s, top), top.AtChunk?, |places|) then Some(places)
    else
      match op
      case Enter =>
        (match if top.AtElement? then Opening(s, top.p) else None
         case None => None
         case Some((q, c)) => Push(places, Land(s, q, c)))
      case Leave => if places[n - 1].AtElement? && places[n - 1].c != Exactly(0) then
                      Push(places[..n - 1], Land(s, top.p, AfterValue(places[n - 1].c)))
                    else None
      case _ => Push(places[..n], Moved(s, top, op))
  }

  function Push(places: seq<Place>, at: Option<Place>): Option<seq<Place>> {
    if at.Some? then Some(places + [at.value]) else None
  }

  // Where the iterators are after going on with these movements, or none if one fails.
  function Onward(s: seq<byte>, places: seq<Place>, ops: seq<Op>): (r: Option<seq<Place>>)
    requires places != [] && IsPlace(s, places[|places| - 1])
    ensures r.Some? ==> r.value != [] && IsPlace(s, r.value[|r.value| - 1])
    decreases |ops|
  {
    hide HeadAt, Stepped, IsPlace;
    if ops == [] then Some(places)
    else
      SteppedIsPlace(s, places, ops[0]);
      match Stepped(s, places, ops[0])
      case None => None
      case Some(next) => Onward(s, next, ops[1..])
  }

  // Where they are after a run from the start of the buffer.
  function Arrival(s: seq<byte>, ops: seq<Op>): (r: Option<seq<Place>>) {
    LandIsPlace(s, 0, Exactly(1));
    match Land(s, 0, Exactly(1))
    case None => None
    case Some(start) => Onward(s, [start], ops)
  }

  lemma LandIsPlace(s: seq<byte>, p: nat, c: Count)
    requires p <= |s|
    ensures Land(s, p, c).Some? ==> IsPlace(s, Land(s, p, c).value)
  {
  }

  lemma PastItemIsPlace(s: seq<byte>, p: nat, c: Count, fits: Item -> bool)
    requires c != Exactly(0)
    ensures PastItem(s, p, c, fits).Some? ==> IsPlace(s, PastItem(s, p, c, fits).value)
  {
    hide HeadAt, ParseItem;
  }

  lemma PastChunkIsPlace(s: seq<byte>, p: nat, major: nat, chunked: bool, c: Count)
    requires c != Exactly(0) && IsStringMajor(major)
    ensures PastChunk(s, p, major, chunked, c).Some? ==> IsPlace(s, PastChunk(s, p, major, chunked, c).value)
  {
    hide HeadAt;
  }

  lemma MovedIsPlace(s: seq<byte>, at: Place, op: Op)
    requires IsPlace(s, at)
    ensures Moved(s, at, op).Some? ==> IsPlace(s, Moved(s, at, op).value)
  {
    hide HeadAt, PastItem, PastChunk, Land;
    match at
    case AtElement(p, c) =>
      LandIsPlace(s, PastTags(s, p), c);
      PastItemIsPlace(s, p, c, i => Depth(i) <= 1024);
      PastItemIsPlace(s, p, c, i => true);
      if op.CopyString? {
        PastItemIsPlace(s, p, c, i => IsString(i) && |Content(i)| <= op.size);
      }
      var h := HeadAt(s, p).value;
      if IsStringMajor(h.major) {
        PastChunkIsPlace(s, if h.Indefinite? then p + 1 else p, h.major, h.Indefinite?, c);
      }
    case AtEnd(_) =>
    case AtChunk(p, major, _, c) =>
      LandIsPlace(s, p, AfterValue(c));
      PastChunkIsPlace(s, p, major, true, c);
  }

  lemma SteppedIsPlace(s: seq<byte>, places: seq<Place>, op: Op)
    requires places != [] && IsPlace(s, places[|places| - 1])
    ensures Stepped(s, places, op).Some? ==>
              var r := Stepped(s, places, op).value; r != [] && IsPlace(s, r[|r| - 1])
  {
    hide HeadAt, Moved, Land;
    var n := |places| - 1;
    var top := places[n];
    MovedIsPlace(s, top, op);
    if op.Enter? && top.AtElement? && Opening(s, top.p).Some? {
      LandIsPlace(s, Opening(s, top.p).value.0, Opening(s, top.p).value.1);
    }
    if op.Leave? && top.AtEnd? && n > 0 && places[n - 1].AtElement? && places[n - 1].c != Exactly(0) {
      LandIsPlace(s, top.p, AfterValue(places[n - 1].c));
    }
  }

  // ----- The iterators

  predicate Chunked(top: CborValue)
    reads top
  {
    IsStringType(top.typ) && top.negative
  }

  // The iterator is at the place.
  ghost predicate StandsAt(it: CborValue, at: Place)
    reads it
  {
    match at
    case AtElement(p, c) => it.Positioned() && it.ptr == p && CountOf(it.remaining) == c
    case AtEnd(p) => it.Finished() && it.ptr == p
    case AtChunk(p, major, chunked, c) =>
      && it.AtString() && it.negative && it.unknownLength == chunked && it.typ == 32 * major && IsStringMajor(major)
      && it.ptr == p && CountOf(it.remaining) == c
  }

  // The counter has the reserved value exactly inside containers of unknown length.
  predicate Counts(it: CborValue, open: bool)
    reads it
  {
    it.remaining > 0 ==> (it.remaining == UINT32_MAX <==> open)
  }

  // What holds between any two movements. All iterators but the last are at the containers that
  // have been entered.
  ghost predicate Sound(stack: seq<CborValue>, places: seq<Place>, data: seq<byte>)
    reads set it | it in stack
  {
    && stack != [] && |places| == |stack|
    && (forall i, j :: 0 <= i < j < |stack| ==> stack[i] != stack[j])
    && (forall i :: 0 <= i < |stack| ==> stack[i].data == data && StandsAt(stack[i], places[i]))
    && (forall i :: 0 <= i < |stack| - 1 ==> places[i].AtElement? && IsContainerType(stack[i].typ))
    && Counts(stack[0], false)
    && (forall i :: 0 < i < |stack| ==> Counts(stack[i], stack[i - 1].unknownLength))
  }

  // Arriving at a position with c to go is standing where it lands.
  lemma ArrivedLands(it: CborValue, p: nat, c: Count)
    requires c != Exactly(UINT32_MAX)
    ensures Reachable(it.data, p, c) <==> Land(it.data, p, c).Some?
    ensures it.Arrived(p, c) ==>
              && Land(it.data, p, c).Some? && StandsAt(it, Land(it.data, p, c).value) && Counts(it, c == UntilBreak)
  {
    hide HeadAt;
  }

  // What an iterator at a place shows of it.
  lemma Shows(it: CborValue, at: Place)
    requires StandsAt(it, at)
    ensures IsPlace(it.data, at) && it.typ == TypeAt(it.data, at) && Chunked(it) == at.AtChunk?
    ensures at.AtElement? ==> it.Positioned() && CountOf(it.remaining) == at.c != Exactly(UINT32_MAX)
    ensures at.AtElement? && IsStringType(it.typ) ==>
              var h := HeadAt(it.data, it.ptr).value;
              it.AtString() && !it.negative && it.unknownLength == h.Indefinite? && it.typ / 32 == h.major
              && IsStringMajor(h.major)
    ensures at.AtEnd? <==> it.typ == INVALID_TYPE
    ensures at.AtEnd? ==> it.Finished() && it.remaining == 0
    ensures !at.AtChunk? ==> it.Resting()
    ensures IsContainerType(it.typ) ==> at.AtElement?
  {
    hide HeadAt;
  }

  // One movement of the iterator on top.
  method Move(top: CborValue, op: Op, ghost at: Place, ghost open: bool) returns (err: CborError)
    requires !op.Enter? && !op.Leave? && Allowed(op, top.typ, Chunked(top), 1)
    requires StandsAt(top, at) && IsPlace(top.data, at) && Counts(top, open)
    modifies top
    ensures err == NoError <==> Moved(top.data, at, op).Some?
    ensures err == NoError ==> StandsAt(top, Moved(top.data, at, op).value) && Counts(top, open)
  {
    Shows(top, at);
    MovedTo(top.data, at, op);
    hide HeadAt, Reachable, ParseItem, Land, StandsAt, CborValue.Positioned, CborValue.Arrived, Moved;
    match op {
      case Advance =>
        ghost var i := top.Here();
        err := top.Advance();
        if i.Ok? {
          ArrivedLands(top, i.next, After(at.c, i.val));
        }
      case AdvanceFixed =>
        ghost var i := top.Here();
        AtomHere(top.data, top.ptr);
        err := top.AdvanceFixed();
        ArrivedLands(top, i.next, After(at.c, i.val));
      case SkipTag =>
        err := MoveSkipping(top, at, open);
      case CopyString(size) =>
        err := MoveCopying(top, size, at, open);
      case NextChunk =>
        err := MoveChunk(top, at, open);
    }
  }

  method MoveSkipping(top: CborValue, ghost at: Place, ghost open: bool) returns (err: CborError)
    requires !at.AtChunk? && StandsAt(top, at) && IsPlace(top.data, at) && Counts(top, open)
    modifies top
    ensures err == NoError <==> Moved(top.data, at, SkipTag).Some?
    ensures err == NoError ==> StandsAt(top, Moved(top.data, at, SkipTag).value) && Counts(top, open)
  {
    Shows(top, at);
    MovedTo(top.data, at, SkipTag);
    hide HeadAt, Reachable, ParseItem, Land, Moved, CborValue.Positioned, CborValue.Arrived;
    ghost var p := top.ptr;
    ghost var tags;
    err, tags := top.SkipTag();
    if at.AtElement? {
      ArrivedLands(top, PastTags(top.data, p), at.c);
    }
  }

  method MoveCopying(top: CborValue, size: nat, ghost at: Place, ghost open: bool) returns (err: CborError)
    requires IsStringType(top.typ) && at.AtElement? && StandsAt(top, at) && IsPlace(top.data, at) && Counts(top, open)
    modifies top
    ensures err == NoError <==> Moved(top.data, at, CopyString(size)).Some?
    ensures err == NoError ==> StandsAt(top, Moved(top.data, at, CopyString(size)).value) && Counts(top, open)
  {
    Shows(top, at);
    MovedTo(top.data, at, CopyString(size));
    hide HeadAt, Reachable, ParseItem, Land, StandsAt, CborValue.Arrived, Moved, StringRest, Content;
    var buffer := new byte[size](k => 0);
    ghost var i := top.Here();
    StringRestIsItem(top.data, top.ptr);
    var total;
    err, total := top.CopyString(Some(buffer), size);
    if i.Ok? {
      ArrivedLands(top, i.next, After(at.c, i.val));
    }
  }

  lemma MovedTo(s: seq<byte>, at: Place, op: Op)
    requires IsPlace(s, at)
    ensures at.AtElement? ==>
              var i := ParseItem(s, at.p);
              match op
              case Advance => Moved(s, at, op) == if i.Ok? && Depth(i.val) <= 1024 then Behind(s, i, at.c) else None
              case AdvanceFixed => Moved(s, at, op) == if i.Ok? then Behind(s, i, at.c) else None
              case SkipTag => Moved(s, at, op) == Land(s, PastTags(s, at.p), at.c)
              case CopyString(size) =>
                Moved(s, at, op) ==
                if i.Ok? && IsString(i.val) && |Content(i.val)| <= size then Behind(s, i, at.c) else None
              case _ => true
    ensures at.AtEnd? && op.SkipTag? ==> Moved(s, at, op) == Some(at)
  {
    hide HeadAt, ParseItem, Land;
  }

  function Behind(s: seq<byte>, i: Parsed<Item>, c: Count): Option<Place>
    requires i.Ok? && c != Exactly(0)
  {
    Land(s, i.next, After(c, i.val))
  }

  method MoveChunk(top: CborValue, ghost at: Place, ghost open: bool) returns (err: CborError)
    requires IsStringType(top.typ) && StandsAt(top, at) && IsPlace(top.data, at) && Counts(top, open)
    modifies top
    ensures err == NoError <==> Moved(top.data, at, NextChunk).Some?
    ensures err == NoError ==> StandsAt(top, Moved(top.data, at, NextChunk).value) && Counts(top, open)
  {
    Shows(top, at);
    NextChunkIs(top, at);
    hide HeadAt, Reachable, Land, Moved, StringRest, FirstChunk, StandsAt, CborValue.Positioned, CborValue.Arrived,
         CborValue.ChunksEnd, CborValue.NextHead;
    ghost var end, after, major, chunked := top.ChunksEnd(), top.AfterString(), top.typ / 32, top.unknownLength;
    var chunk;
    err, chunk := top.GetStringChunk();
    if end.Some? {
      ArrivedLands(top, end.value, after);
    } else if err == NoError {
      InChunk(top, major, chunked, at.c);
    }
  }

  // What the iterator shows of the next chunk is what the place says.
  lemma NextChunkIs(it: CborValue, at: Place)
    requires IsStringType(it.typ) && StandsAt(it, at) && IsPlace(it.data, at)
    ensures !at.AtEnd? && it.AtString() && (it.negative || it.Positioned()) && it.AfterString() == AfterValue(at.c)
    ensures CountOf(it.remaining) == at.c != Exactly(UINT32_MAX)
    ensures match it.ChunksEnd()
            case Some(q) => Moved(it.data, at, NextChunk) == Land(it.data, q, AfterValue(at.c))
            case None =>
              match ChunkAt(it.data, it.NextHead(), it.typ / 32)
              case None => Moved(it.data, at, NextChunk) == None
              case Some((from, len)) =>
                Moved(it.data, at, NextChunk) == Some(AtChunk(from + len, it.typ / 32, it.unknownLength, at.c))
  {
    Shows(it, at);
    hide HeadAt, Land, ChunkAt, TypeOf;
  }

  lemma InChunk(it: CborValue, major: nat, chunked: bool, c: Count)
    requires it.AtString() && it.negative && it.typ / 32 == major && it.unknownLength == chunked
    requires CountOf(it.remaining) == c
    ensures StandsAt(it, AtChunk(it.ptr, major, chunked, c))
  {
  }

  // The iterator at the start, the only one.
  lemma Starts(it: CborValue, data: seq<byte>, ops: seq<Op>)
    requires it.Positioned() && it.data == data && it.ptr == 0 && it.remaining == 1
    ensures var start := AtElement(0, Exactly(1));
            IsPlace(data, start) && Sound([it], [start], data) && Arrival(data, ops) == Onward(data, [start], ops)
  {
    hide HeadAt, Onward;
  }

  /**
   A run of movements, made as long as none reports an error. Movements that are not allowed
   are the caller's mistake and are passed over. Whatever the bytes, no assertion of the library
   fails on the way. The run succeeds exactly if every movement can be made where the one before
   has led, and the iterators are then where the bytes say.
   */
  method Follow(data: seq<byte>, sizeMax: nat, ops: seq<Op>) returns (err: CborError, stack: seq<CborValue>)
    requires IsSizeMax(sizeMax) && |data| <= sizeMax
    ensures err == NoError <==> Arrival(data, ops).Some?
    ensures err == NoError ==>
              var places := Arrival(data, ops).value;
              && Sound(stack, places, data) && |stack| == |places|
              && (forall i :: 0 <= i < |stack| ==> stack[i].ptr == places[i].p <= |data|)
              && (forall i :: 0 <= i < |stack| ==>
                    stack[i].remaining == if places[i].AtEnd? then 0 else Counter(places[i].c))
  {
    hide HeadAt, Sound, Onward;
    var it;
    err, it := ParserInit(data, sizeMax);
    stack := [it];
    ghost var places := [AtElement(0, Exactly(1))];
    if err != NoError {
      return;
    }
    Starts(it, data, ops);
    hide Arrival;
    var rest := ops;
    while rest != []
      invariant forall i :: 0 <= i < |stack| ==> fresh(stack[i])
      invariant Sound(stack, places, data) && places != [] && IsPlace(data, places[|places| - 1])
      invariant Onward(data, places, rest) == Arrival(data, ops)
      decreases |rest|
    {
      OnwardStep(data, places, rest);
      err, stack := Step(stack, places, data, rest[0]);
      if err != NoError {
        return;
      }
      places := Stepped(data, places, rest[0]).value;
      rest := rest[1..];
    }
    OnwardEnds(data, places);
    StandsWhere(stack, places, data);
    err := NoError;
  }

  lemma OnwardStep(s: seq<byte>, places: seq<Place>, ops: seq<Op>)
    requires places != [] && IsPlace(s, places[|places| - 1]) && ops != []
    ensures match Stepped(s, places, ops[0])
            case None => Onward(s, places, ops) == None
            case Some(next) =>
              next != [] && IsPlace(s, next[|next| - 1]) && Onward(s, places, ops) == Onward(s, next, ops[1..])
  {
    hide HeadAt, Stepped;
    SteppedIsPlace(s, places, ops[0]);
  }

  lemma OnwardEnds(s: seq<byte>, places: seq<Place>)
    requires places != [] && IsPlace(s, places[|places| - 1])
    ensures Onward(s, places, []) == Some(places)
  {
  }

  lemma StandsWhere(stack: seq<CborValue>, places: seq<Place>, data: seq<byte>)
    requires Sound(stack, places, data)
    ensures |stack| == |places|
    ensures forall i :: 0 <= i < |stack| ==> stack[i].ptr == places[i].p <= |data|
    ensures forall i :: 0 <= i < |stack| ==>
              stack[i].remaining == if places[i].AtEnd? then 0 else Counter(places[i].c)
  {
    hide HeadAt;
  }

  method Step(before: seq<CborValue>, ghost was: seq<Place>, data: seq<byte>, op: Op)
    returns (err: CborError, stack: seq<CborValue>)
    requires Sound(before, was, data)
    modifies set it | it in before
    ensures was != [] && IsPlace(data, was[|was| - 1])
    ensures err == NoError <==> Stepped(data, was, op).Some?
    ensures err == NoError ==> Sound(stack, Stepped(data, was, op).value, data)
    ensures forall i :: 0 <= i < |stack| ==> stack[i] in before || fresh(stack[i])
  {
    var top := before[|before| - 1];
    Shows(top, was[|was| - 1]);
    hide HeadAt, StandsAt, Moved, Land, Opening, Allowed, TypeOf;
    err, stack := NoError, before;
    if Allowed(op, top.typ, Chunked(top), |before|) {
      match op {
        case Enter =>
          err, stack := EnterTop(before, was, data);
        case Leave =>
          err, stack := LeaveTop(before, was, data);
        case _ =>
          err := MoveTop(before, was, data, op);
      }
    }
  }

  method MoveTop(stack: seq<CborValue>, ghost was: seq<Place>, data: seq<byte>, op: Op) returns (err: CborError)
    requires Sound(stack, was, data) && IsPlace(data, was[|was| - 1])
    requires var top := stack[|stack| - 1]; !op.Enter? && !op.Leave? && Allowed(op, top.typ, Chunked(top), 1)
    modifies stack[|stack| - 1]
    ensures var at := Moved(data, was[|was| - 1], op);
            && (err == NoError <==> at.Some?)
            && (err == NoError ==> Sound(stack, was[..|was| - 1] + [at.value], data))
  {
    hide HeadAt, StandsAt, Moved, CborValue.Positioned, CborValue.AtString;
    var n := |stack| - 1;
    err := Move(stack[n], op, was[n], n > 0 && stack[n - 1].unknownLength);
  }

  // Enters the container at the iterator.
  method EnterTop(before: seq<CborValue>, ghost was: seq<Place>, data: seq<byte>)
    returns (err: CborError, stack: seq<CborValue>)
    requires Sound(before, was, data) && IsContainerType(before[|before| - 1].typ) && was[|was| - 1].AtElement?
    ensures var o := Opening(data, was[|was| - 1].p);
            var at := if o.Some? then Land(data, o.value.0, o.value.1) else None;
            && (err == NoError <==> at.Some?)
            && (err == NoError ==> Sound(stack, was + [at.value], data))
    ensures forall i :: 0 <= i < |stack| ==> stack[i] in before || fresh(stack[i])
  {
    var top := before[|before| - 1];
    Shows(top, was[|was| - 1]);
    OpeningCounts(top);
    hide Sound, HeadAt, CborValue.Arrived, CborValue.AtString, Counts, Land, Opening, Reachable;
    ghost var o := Opening(data, top.ptr);
    TopIs(before, was, data);
    var recursed;
    err, recursed := top.EnterContainer();
    stack := before + [recursed];
    if o.Some? {
      ArrivedLands(recursed, o.value.0, o.value.1);
    }
    if err == NoError {
      Pushed(before, was, data, recursed, Land(data, o.value.0, o.value.1).value);
    }
  }

  lemma TopIs(stack: seq<CborValue>, places: seq<Place>, data: seq<byte>)
    requires Sound(stack, places, data)
    ensures var top, at := stack[|stack| - 1], places[|places| - 1];
            top.data == data && StandsAt(top, at) && (at.AtElement? ==> top.ptr == at.p)
  {
    hide HeadAt;
  }

  lemma OpeningCounts(it: CborValue)
    requires it.Positioned() && IsContainerType(it.typ)
    ensures var o := Opening(it.data, it.ptr);
            o.Some? ==> o.value.1 != Exactly(UINT32_MAX) && (o.value.1 == UntilBreak <==> it.unknownLength)
  {
    hide HeadAt;
  }

  lemma Pushed(before: seq<CborValue>, was: seq<Place>, data: seq<byte>, recursed: CborValue, at: Place)
    requires Sound(before, was, data) && IsContainerType(before[|before| - 1].typ) && was[|was| - 1].AtElement?
    requires recursed !in before && recursed.data == data && StandsAt(recursed, at)
    requires Counts(recursed, before[|before| - 1].unknownLength)
    ensures Sound(before + [recursed], was + [at], data)
  {
    hide HeadAt, StandsAt, Counts;
  }

  // Leaves the container of the finished iterator on top.
  method LeaveTop(before: seq<CborValue>, ghost was: seq<Place>, data: seq<byte>)
    returns (err: CborError, stack: seq<CborValue>)
    requires Sound(before, was, data) && |before| > 1 && was[|was| - 1].AtEnd?
    modifies before[|before| - 2]
    ensures var n := |was| - 1;
            && was[n - 1].AtElement? && was[n - 1].c != Exactly(0)
            && var at := Land(data, was[n].p, AfterValue(was[n - 1].c));
               && (err == NoError <==> at.Some?)
               && (err == NoError ==> Sound(stack, was[..n - 1] + [at.value], data))
    ensures forall i :: 0 <= i < |stack| ==> stack[i] in before
  {
    var n := |before| - 1;
    Shows(before[n], was[n]);
    Shows(before[n - 1], was[n - 1]);
    hide HeadAt, Reachable, StandsAt, Counts, Land, CborValue.Positioned, CborValue.AtString, CborValue.Arrived;
    err := Pop(before[n - 1], before[n], was[n - 1], n > 1 && before[n - 2].unknownLength);
    stack := before[..n];
    if err == NoError {
      Popped(before, was, data, Land(data, was[n].p, AfterValue(was[n - 1].c)).value);
    }
  }

  method Pop(parent: CborValue, top: CborValue, ghost at: Place, ghost open: bool) returns (err: CborError)
    requires parent != top && parent.data == top.data && at.AtElement? && StandsAt(parent, at)
    requires IsContainerType(parent.typ) && Counts(parent, open) && top.Finished() && at.c != Exactly(0)
    modifies parent
    ensures var next := Land(parent.data, top.ptr, AfterValue(at.c));
            && (err == NoError <==> next.Some?)
            && (err == NoError ==> StandsAt(parent, next.value) && Counts(parent, open))
  {
    hide HeadAt, Reachable, Land;
    ArrivedLands(parent, top.ptr, AfterValue(at.c));
    ghost var p := top.ptr;
    err := parent.LeaveContainer(top);
    ArrivedLands(parent, p, AfterValue(at.c));
  }

  // The stack without its top, whose parent has moved on.
  lemma Popped(before: seq<CborValue>, was: seq<Place>, data: seq<byte>, at: Place)
    requires |was| == |before| > 1
    requires forall i, j :: 0 <= i < j < |before| ==> before[i] != before[j]
    requires forall i :: 0 <= i < |before| - 1 ==> before[i].data == data
    requires forall i :: 0 <= i < |before| - 2 ==>
               StandsAt(before[i], was[i]) && was[i].AtElement? && IsContainerType(before[i].typ)
    requires StandsAt(before[|before| - 2], at) && Counts(before[0], false)
    requires forall i :: 0 < i < |before| - 1 ==> Counts(before[i], before[i - 1].unknownLength)
    ensures Sound(before[..|before| - 1], was[..|was| - 2] + [at], data)
  {
    hide HeadAt, StandsAt, Counts;
  }
}
