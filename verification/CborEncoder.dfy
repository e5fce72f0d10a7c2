/**
 The encoder: it writes into a caller's buffer, and once an append does not fit it writes
 nothing more and counts the bytes that are missing instead.
 */
module CborEncoders {
  import opened Options
  import opened CborHeads
  import opened CborSyntax

  // How many elements a definite container still takes, plus one; zero once there are too many.
  function Room(promised: Option<nat>, added: nat): nat {
    match promised
    case None => 0
    case Some(n) => if added > n then 0 else n + 1 - added
  }

  class CborEncoder {
    const buffer: array<byte>
    const size: nat
    const sizeMax: nat
    var pos: nat            // the write position, or the bytes needed once end is gone
    var hasEnd: bool        // the end pointer is set
    var remaining: nat
    var isMap: bool
    var unknownLength: bool

    ghost var out: seq<byte>         // every byte emitted so far, whether it fitted or not
    ghost var cut: nat               // how many of them were written
    ghost var initial: seq<byte>     // the buffer before the encoding
    ghost var promised: Option<nat>  // the announced number of elements
    ghost var added: nat             // the elements added

    // The buffer holds what was written, and the position accounts for the rest.
    ghost predicate Buffered()
      reads this, buffer
    {
      && size <= buffer.Length == |initial|
      && cut <= size && cut <= |out|
      && buffer[..] == out[..cut] + initial[cut..]
      && (if hasEnd then pos == cut == |out| else size <= |out| && pos == |out| - size)
      && (!hasEnd && pos == 0 ==> size == 0)
    }

    // The item counter accounts for the elements added.
    ghost predicate Counting()
      reads this
    {
      && IsSizeMax(sizeMax)
      && remaining == Room(promised, added) <= sizeMax
      && unknownLength == promised.None?
    }

    ghost predicate Valid()
      reads this, buffer
    {
      Buffered() && Counting()
    }

    // The bytes src were emitted for the given number of counted elements.
    twostate predicate Emitted(src: seq<byte>, counted: nat)
      reads this, buffer
    {
      && Valid() && out == old(out) + src && added == old(added) + counted
      && promised == old(promised) && initial == old(initial)
      && isMap == old(isMap) && unknownLength == old(unknownLength)
      && (hasEnd ==> old(hasEnd)) && (!old(hasEnd) ==> cut == old(cut))
    }

    // What the calls return about room: no error while all bytes have fitted.
    ghost function RoomError(): CborError
      reads this
    {
      if hasEnd || pos == 0 then NoError else OutOfMemory
    }

    // Room is left exactly while everything emitted fits.
    lemma RoomIs()
      requires Buffered()
      ensures RoomError() == if |out| <= size then NoError else OutOfMemory
    {
    }

    // The union of the two meanings of the data field is resolved by whether end is set.
    constructor (buffer: array<byte>, size: nat, sizeMax: nat, isNull: bool)
      requires size <= buffer.Length && IsSizeMax(sizeMax)
      requires isNull ==> size == 0
      ensures Valid() && this.buffer == buffer && this.size == size && this.sizeMax == sizeMax
      ensures out == [] && cut == 0 && initial == buffer[..] && promised == Some(1) && added == 0
      ensures hasEnd == !isNull
    {
      this.buffer, this.size, this.sizeMax := buffer, size, sizeMax;
      pos, hasEnd, remaining := 0, !isNull, 2;
      isMap, unknownLength := false, false;
      out, cut, initial, promised, added := [], 0, buffer[..], Some(1), 0;
    }

    // A child encoder that starts where its parent is, with its own item counter: one more
    // than the promise, which the additions of size_t do not wrap around.
    constructor Child(parent: CborEncoder, length: nat, map_: bool)
      requires parent.Valid() && length <= parent.sizeMax
      requires map_ && length != parent.sizeMax ==> length <= parent.sizeMax / 2
      ensures Valid() && ChildOf(parent) && out == parent.out && hasEnd == parent.hasEnd && pos == parent.pos
      ensures isMap == map_ && added == 0 && promised == Promise(length, map_, sizeMax)
    {
      buffer, size, sizeMax := parent.buffer, parent.size, parent.sizeMax;
      pos, hasEnd := parent.pos, parent.hasEnd;
      isMap, unknownLength := map_, length == parent.sizeMax;
      var room := (length + 1) % (parent.sizeMax + 1);
      remaining := if map_ && length != parent.sizeMax then (room + length) % (parent.sizeMax + 1) else room;
      out, cut, initial := parent.out, parent.cut, parent.initial;
      promised, added := Promise(length, map_, parent.sizeMax), 0;
    }

    // ----- Appending

    method WouldOverflow(len: nat) returns (b: bool)
      requires Buffered()
      ensures b == if hasEnd then pos + len > size else pos + len > 0
    {
      var left: int := if hasEnd then size - pos else 0 - pos;
      b := left - len < 0;
    }

    // Writing src behind out fills that much more of what was there initially.
    static lemma Filled(before: seq<byte>, now: seq<byte>, out: seq<byte>, src: seq<byte>, initial: seq<byte>)
      requires |now| == |before| == |initial| >= |out| + |src| && before == out[..|out|] + initial[|out|..]
      requires forall k | 0 <= k < |now| ::
                 now[k] == if |out| <= k < |out| + |src| then src[k - |out|] else before[k]
      ensures now == (out + src)[..|out + src|] + initial[|out + src|..]
    {
    }

    method AppendToBuffer(src: seq<byte>) returns (err: CborError)
      requires Valid()
      modifies this`pos, this`hasEnd, this`out, this`cut, buffer
      ensures Emitted(src, 0) && err == RoomError()
    {
      var overflow := WouldOverflow(|src|);
      var len := |src|;
      if overflow {
        if hasEnd {
          len := len - (size - pos);
          hasEnd := false;
          pos := 0;
        }
        pos := pos + len;
        out := out + src;
        assert out[..cut] == old(out)[..cut];
        return OutOfMemory;
      }
      if hasEnd {
        ghost var before := buffer[..];
        forall i | 0 <= i < |src| {
          buffer[pos + i] := src[i];
        }
        Filled(before, buffer[..], out, src, initial);
        pos := pos + |src|;
        out := out + src;
        cut := |out|;
      } else {
        out := out + src;
      }
      return NoError;
    }

    // Writes the number from the end of a scratch buffer, then appends the bytes in use.
    method EncodeNumberNoUpdate(ui: nat, major: nat) returns (err: CborError)
      requires Valid() && ui < TWO_TO_THE_64 && major < 8
      modifies this`pos, this`hasEnd, this`out, this`cut, buffer
      ensures Emitted(Shortest(major, ui), 0)
      ensures err == RoomError()
    {
      ShortestFits(ui);
      var head := ShortestHead(ui, major);
      err := AppendToBuffer(head);
    }

    method SaturatedDecrement()
      requires Valid()
      modifies this`remaining, this`added
      ensures Valid() && added == old(added) + 1
    {
      if remaining > 0 {
        remaining := remaining - 1;
      }
      added := added + 1;
    }

    method EncodeNumber(ui: nat, major: nat) returns (err: CborError)
      requires Valid() && ui < TWO_TO_THE_64 && major < 8
      modifies this, buffer
      ensures Emitted(Shortest(major, ui), 1)
      ensures err == RoomError()
    {
      SaturatedDecrement();
      err := EncodeNumberNoUpdate(ui, major);
    }

    // ----- Elements

    method EncodeUInt(value: nat) returns (err: CborError)
      requires Valid() && value < TWO_TO_THE_64
      modifies this, buffer
      ensures Emitted(Shortest(MAJOR_UNSIGNED, value), 1) && err == RoomError()
    {
      err := EncodeNumber(value, MAJOR_UNSIGNED);
    }

    // The absolute value 0 stands for 2^64.
    method EncodeNegativeInt(absolute: nat) returns (err: CborError)
      requires Valid() && absolute < TWO_TO_THE_64
      modifies this, buffer
      ensures Emitted(Shortest(MAJOR_NEGATIVE, if absolute == 0 then TWO_TO_THE_64 - 1 else absolute - 1), 1)
      ensures err == RoomError()
    {
      err := EncodeNumber((absolute - 1) % TWO_TO_THE_64, MAJOR_NEGATIVE);
    }

    method EncodeInt(value: int) returns (err: CborError)
      requires Valid() && -0x8000_0000_0000_0000 <= value <= 0x7fff_ffff_ffff_ffff
      modifies this, buffer
      ensures Emitted(if value < 0 then Shortest(MAJOR_NEGATIVE, -1 - value) else Shortest(MAJOR_UNSIGNED, value), 1)
      ensures err == RoomError()
    {
      // the sign, extended to the whole word, complements negative numbers
      var sign := if value < 0 then 1 else 0;
      var ui := if sign == 1 then -1 - value else value;
      err := EncodeNumber(ui, sign * MAJOR_NEGATIVE);
    }

    method EncodeSimpleValue(value: nat) returns (err: CborError)
      requires Valid() && value < 256
      modifies this, buffer
      ensures 25 <= value <= 31 ==> err == IllegalSimpleType && Emitted([], 0)
      ensures !(25 <= value <= 31) ==> Emitted(Shortest(MAJOR_SIMPLE, value), 1) && err == RoomError()
    {
      if value >= 25 && value <= 31 {
        return IllegalSimpleType;
      }
      err := EncodeNumber(value, MAJOR_SIMPLE);
    }

    // The type codes of half, single and double floats are consecutive; each doubles the size.
    method EncodeFloatingPoint(w: nat, bits: nat) returns (err: CborError)
      requires Valid() && (w == 2 || w == 4 || w == 8) && bits < Pow256(w)
      modifies this, buffer
      ensures Emitted(HeadBytes(MAJOR_SIMPLE, w, bits), 1) && err == RoomError()
    {
      var fpType := if w == 2 then 0xf9 else if w == 4 then 0xfa else 0xfb;
      SaturatedDecrement();
      assert [fpType] + BigEndian(w, bits) == HeadBytes(MAJOR_SIMPLE, w, bits);
      err := AppendToBuffer([fpType] + BigEndian(w, bits));
    }

    method EncodeTag(tag: nat) returns (err: CborError)
      requires Valid() && tag < TWO_TO_THE_64
      modifies this, buffer
      ensures Emitted(Shortest(MAJOR_TAG, tag), 0) && err == RoomError()
    {
      err := EncodeNumberNoUpdate(tag, MAJOR_TAG);
    }

    method EncodeString(text: seq<byte>, major: nat) returns (err: CborError)
      requires Valid() && |text| <= sizeMax && IsStringMajor(major)
      modifies this, buffer
      ensures Emitted(Shortest(major, |text|) + text, 1) && err == RoomError()
    {
      err := EncodeNumber(|text|, major);
      // running out of room is the only error there is, so the payload is always offered
      err := AppendToBuffer(text);
      assert old(out) + Shortest(major, |text|) + text == old(out) + (Shortest(major, |text|) + text);
    }

    // ----- Containers

    // The largest length stands for an unknown one. A child starts where its parent is.
    method CreateContainer(length: nat, map_: bool) returns (err: CborError, container: CborEncoder)
      requires Valid() && length <= sizeMax
      requires map_ && length != sizeMax ==> length <= sizeMax / 2
      modifies this`remaining, this`added, buffer
      ensures Counting() && added == old(added) + 1 && remaining == Room(promised, added)
      ensures fresh(container) && container.Valid() && err == container.RoomError()
      ensures container.ChildOf(this) && container.added == 0
      ensures container.out == old(out) + Opener(length, map_, sizeMax)
      ensures container.promised == Promise(length, map_, sizeMax)
    {
      hide Shortest;
      container := new CborEncoder.Child(this, length, map_);
      SaturatedDecrement();
      if container.unknownLength {
        err := container.AppendToBuffer([IndefiniteByte(MajorOf(map_))]);
      } else {
        err := container.EncodeNumberNoUpdate(length, MajorOf(map_));
      }
    }

    // This encoder was made from its parent and has only gone on from there.
    ghost predicate ChildOf(parent: CborEncoder)
      reads this, parent
    {
      && buffer == parent.buffer && size == parent.size && sizeMax == parent.sizeMax
      && initial == parent.initial
      && (hasEnd ==> parent.hasEnd) && (!parent.hasEnd ==> cut == parent.cut)
    }

    method CreateArray(length: nat) returns (err: CborError, container: CborEncoder)
      requires Valid() && length <= sizeMax
      modifies this`remaining, this`added, buffer
      ensures Counting() && added == old(added) + 1
      ensures fresh(container) && container.Valid() && err == container.RoomError()
      ensures container.ChildOf(this) && container.added == 0
      ensures container.out == old(out) + Opener(length, false, sizeMax)
      ensures container.promised == Promise(length, false, sizeMax)
    {
      err, container := CreateContainer(length, false);
    }

    // A map of more than half the largest length is refused and nothing happens.
    method CreateMap(length: nat) returns (err: CborError, container: CborEncoder?)
      requires Valid() && length <= sizeMax
      modifies this`remaining, this`added, buffer
      ensures (container == null) == (length != sizeMax && length > sizeMax / 2)
      ensures container == null ==> err == DataTooLarge && Emitted([], 0)
      ensures container != null ==>
                && Counting() && added == old(added) + 1
                && fresh(container) && container.Valid() && err == container.RoomError()
                && container.ChildOf(this) && container.added == 0
                && container.out == old(out) + Opener(length, true, sizeMax)
                && container.promised == Promise(length, true, sizeMax)
    {
      if length != sizeMax && length > sizeMax / 2 {
        return DataTooLarge, null;
      }
      err, container := CreateContainer(length, true);
    }

    // Takes over the child's position; a container of unknown length ends with a break.
    method CloseContainer(container: CborEncoder) returns (err: CborError)
      requires Counting() && container.Valid() && container.ChildOf(this)
      modifies this`pos, this`hasEnd, this`out, this`cut, buffer
      ensures Valid() && ChildOf(container)
      ensures out == old(container.out) + Closer(container.promised)
      ensures match container.promised
              case None => err == RoomError()
              case Some(n) =>
                if container.added > n then err == TooManyItems
                else if container.added < n then err == TooFewItems
                else err == if hasEnd then NoError else OutOfMemory
    {
      pos := container.pos;
      hasEnd := container.hasEnd;
      out, cut := container.out, container.cut;
      if container.unknownLength {
        err := AppendToBuffer([BREAK_BYTE]);
        return;
      }
      if container.remaining != 1 {
        return if container.remaining == 0 then TooManyItems else TooFewItems;
      }
      if !hasEnd {
        return OutOfMemory;
      }
      return NoError;
    }

    // ----- Results

    // Meant for an encoding that fitted.
    method GetBufferSize() returns (n: nat)
      requires Valid() && hasEnd
      ensures n == |out| && buffer[..n] == out
    {
      n := pos;
    }

    method GetExtraBytesNeeded() returns (n: nat)
      requires Valid()
      ensures n == if |out| > size then |out| - size else 0
    {
      n := if hasEnd then 0 else pos;
    }
  }

  // The bytes that open a container, and those that close it.
  function Opener(length: nat, map_: bool, sizeMax: nat): (b: seq<byte>)
    requires length <= sizeMax && IsSizeMax(sizeMax)
    ensures |b| > 0
  {
    if length == sizeMax then [IndefiniteByte(MajorOf(map_))] else Shortest(MajorOf(map_), length)
  }

  function Closer(promised: Option<nat>): seq<byte> {
    if promised.None? then [BREAK_BYTE] else []
  }

  // How many elements a length promises: two for each pair of a map.
  function Promise(length: nat, map_: bool, sizeMax: nat): Option<nat> {
    if length == sizeMax then None else Some(if map_ then 2 * length else length)
  }

  // The shortest head for a number.
  function Shortest(major: nat, ui: nat): seq<byte>
    requires ui < TWO_TO_THE_64 && major < 8
  {
    ShortestFits(ui);
    HeadBytes(major, ShortestWidth(ui), ui)
  }

  // The last bytes of the eight-byte rendering are the argument in its shortest width.
  lemma ShortestTail(ui: nat)
    requires ui < TWO_TO_THE_64
    ensures BigEndian(8, ui)[8 - ShortestWidth(ui)..] == BigEndian(ShortestWidth(ui), ui)
    ensures ui < 24 ==> BigEndian(8, ui)[7] == ui
  {
    BigEndianSuffix(8, ShortestWidth(ui), ui);
    BigEndianSuffix(8, 1, ui);
    assert BigEndian(1, ui)[0] == ui % 256;
  }

  // Writes the argument at the end of the scratch buffer and the initial byte before it.
  method ShortestHead(ui: nat, major: nat) returns (head: seq<byte>)
    requires ui < TWO_TO_THE_64 && major < 8
    ensures head == Shortest(major, ui)
  {
    hide BigEndian, Pow256, Fits;
    var buf := new byte[16](i => 0);
    var bytes := BigEndian(8, ui);
    forall i | 0 <= i < 8 {
      buf[8 + i] := bytes[i];
    }
    assert buf[8..] == bytes;
    ShortestFits(ui);
    ShortestTail(ui);
    var bufstart := 15;
    if ui < 24 {
      buf[bufstart] := buf[bufstart] + 32 * major;
    } else {
      var more := 0;
      if ui > 0xff {
        more := more + 1;
      }
      if ui > 0xffff {
        more := more + 1;
      }
      if ui > 0xffff_ffff {
        more := more + 1;
      }
      bufstart := bufstart - (if more == 0 then 1 else if more == 1 then 2 else if more == 2 then 4 else 8);
      assert buf[bufstart + 1..] == bytes[8 - ShortestWidth(ui)..];
      buf[bufstart] := 32 * major + 24 + more;
    }
    head := buf[bufstart..];
  }
}
