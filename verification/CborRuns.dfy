/**
 Whole encodings: properly nested runs of encoder calls, whatever the size of the buffer.
 */
module CborRuns {
  import opened Options
  import opened CborHeads
  import opened CborSyntax
  import opened CborEncoders

  // A container call carries the announced length, or none, and the calls made inside it.
  datatype Call =
    | PutUInt(n: nat)
    | PutNegative(absolute: nat)
    | PutInt(v: int)
    | PutSimple(simple: nat)
    | PutFloat(w: nat, bits: nat)
    | PutTag(tag: nat)
    | PutString(major: nat, text: seq<byte>)
    | Nest(isMap: bool, length: nat, body: seq<Call>)

  // The arguments are values of their C types.
  predicate Typed(c: Call, sizeMax: nat)
    decreases c, 0
  {
    match c
    case PutUInt(n) => n < TWO_TO_THE_64
    case PutNegative(absolute) => absolute < TWO_TO_THE_64
    case PutInt(v) => -0x8000_0000_0000_0000 <= v <= 0x7fff_ffff_ffff_ffff
    case PutSimple(simple) => simple < 256
    case PutFloat(w, bits) => (w == 2 || w == 4 || w == 8) && bits < Pow256(w)
    case PutTag(tag) => tag < TWO_TO_THE_64
    case PutString(major, text) => IsStringMajor(major) && |text| <= sizeMax
    case Nest(_, length, body) => length <= sizeMax && AllTyped(body, sizeMax)
  }

  predicate AllTyped(cs: seq<Call>, sizeMax: nat)
    decreases cs, 1
  {
    cs == [] || (Typed(cs[0], sizeMax) && AllTyped(cs[1..], sizeMax))
  }

  // Calls the encoder refuses: they emit nothing and count for nothing.
  predicate Refused(c: Call, sizeMax: nat) {
    || (c.PutSimple? && 25 <= c.simple <= 31)
    || (c.Nest? && c.isMap && c.length != sizeMax && c.length > sizeMax / 2)
  }

  // The elements a call adds to the container it is made in.
  function Weight(c: Call, sizeMax: nat): nat {
    if c.PutTag? || Refused(c, sizeMax) then 0 else 1
  }

  function TotalWeight(cs: seq<Call>, sizeMax: nat): nat {
    if cs == [] then 0 else Weight(cs[0], sizeMax) + TotalWeight(cs[1..], sizeMax)
  }

  // The full encoding, as if there were always room.
  function CallBytes(c: Call, sizeMax: nat): seq<byte>
    requires Typed(c, sizeMax) && IsSizeMax(sizeMax)
    decreases c, 0
  {
    if Refused(c, sizeMax) then []
    else
      match c
      case PutUInt(n) => Shortest(MAJOR_UNSIGNED, n)
      case PutNegative(absolute) => Shortest(MAJOR_NEGATIVE, if absolute == 0 then TWO_TO_THE_64 - 1 else absolute - 1)
      case PutInt(v) => if v < 0 then Shortest(MAJOR_NEGATIVE, -1 - v) else Shortest(MAJOR_UNSIGNED, v)
      case PutSimple(simple) => Shortest(MAJOR_SIMPLE, simple)
      case PutFloat(w, bits) => HeadBytes(MAJOR_SIMPLE, w, bits)
      case PutTag(tag) => Shortest(MAJOR_TAG, tag)
      case PutString(major, text) => Shortest(major, |text|) + text
      case Nest(isMap, length, body) =>
        Opener(length, isMap, sizeMax) + RunBytesOf(body, sizeMax) + Closer(Promise(length, isMap, sizeMax))
  }

  function RunBytesOf(cs: seq<Call>, sizeMax: nat): seq<byte>
    requires AllTyped(cs, sizeMax) && IsSizeMax(sizeMax)
    decreases cs, 1
  {
    if cs == [] then [] else CallBytes(cs[0], sizeMax) + RunBytesOf(cs[1..], sizeMax)
  }

  // No call is refused and every container gets the elements it promised.
  predicate Flawless(c: Call, sizeMax: nat)
    decreases c, 0
  {
    && !Refused(c, sizeMax)
    && (c.Nest? ==>
          && AllFlawless(c.body, sizeMax)
          && (c.length != sizeMax ==> Promise(c.length, c.isMap, sizeMax) == Some(TotalWeight(c.body, sizeMax))))
  }

  predicate AllFlawless(cs: seq<Call>, sizeMax: nat)
    decreases cs, 1
  {
    cs == [] || (Flawless(cs[0], sizeMax) && AllFlawless(cs[1..], sizeMax))
  }

  // Makes the calls; ok says that none of them returned an error.
  method PerformAll(e: CborEncoder, cs: seq<Call>) returns (ok: bool)
    requires e.Valid() && AllTyped(cs, e.sizeMax)
    modifies e, e.buffer
    ensures e.Emitted(RunBytesOf(cs, e.sizeMax), TotalWeight(cs, e.sizeMax))
    ensures ok ==> AllFlawless(cs, e.sizeMax)
    ensures old(e.RoomError()) == NoError ==> (ok <==> AllFlawless(cs, e.sizeMax) && e.RoomError() == NoError)
    decreases cs, 1
  {
    if cs == [] {
      assert e.out + [] == e.out;
      return true;
    }
    ghost var out0 := e.out;
    ok := Perform(e, cs[0]);
    ghost var b1 := CallBytes(cs[0], e.sizeMax);
    var ok2 := PerformAll(e, cs[1..]);
    assert e.out == out0 + RunBytesOf(cs, e.sizeMax) by {
      assert (out0 + b1) + RunBytesOf(cs[1..], e.sizeMax) == out0 + (b1 + RunBytesOf(cs[1..], e.sizeMax));
    }
    ok := ok && ok2;
  }

  method Perform(e: CborEncoder, c: Call) returns (ok: bool)
    requires e.Valid() && Typed(c, e.sizeMax)
    modifies e, e.buffer
    ensures e.Emitted(CallBytes(c, e.sizeMax), Weight(c, e.sizeMax))
    ensures ok ==> Flawless(c, e.sizeMax)
    ensures old(e.RoomError()) == NoError ==> (ok <==> Flawless(c, e.sizeMax) && e.RoomError() == NoError)
    decreases c, 0
  {
    hide Shortest, Pow256, HeadBytes;
    var err := NoError;
    match c {
      case PutUInt(n) => err := e.EncodeUInt(n);
      case PutNegative(absolute) => err := e.EncodeNegativeInt(absolute);
      case PutInt(v) => err := e.EncodeInt(v);
      case PutSimple(simple) => err := e.EncodeSimpleValue(simple);
      case PutFloat(w, bits) => err := e.EncodeFloatingPoint(w, bits);
      case PutTag(tag) => err := e.EncodeTag(tag);
      case PutString(major, text) => err := e.EncodeString(text, major);
      case Nest(isMap, length, body) =>
        ok := PerformNest(e, isMap, length, body);
        return;
    }
    ok := err == NoError;
  }

  method Open(e: CborEncoder, isMap: bool, length: nat) returns (err: CborError, container: CborEncoder?)
    requires e.Valid() && length <= e.sizeMax
    modifies e`remaining, e`added, e.buffer
    ensures (container == null) == (isMap && length != e.sizeMax && length > e.sizeMax / 2)
    ensures container == null ==> err != NoError && e.Emitted([], 0)
    ensures container != null ==>
              && e.Counting() && e.added == old(e.added) + 1
              && fresh(container) && container.Valid() && err == container.RoomError()
              && container.ChildOf(e) && container.added == 0
              && container.out == old(e.out) + Opener(length, isMap, e.sizeMax)
              && container.promised == Promise(length, isMap, e.sizeMax)
  {
    if isMap {
      err, container := e.CreateMap(length);
    } else {
      err, container := e.CreateArray(length);
    }
  }

  method PerformNest(e: CborEncoder, isMap: bool, length: nat, body: seq<Call>) returns (ok: bool)
    requires e.Valid() && Typed(Nest(isMap, length, body), e.sizeMax)
    modifies e, e.buffer
    ensures e.Emitted(CallBytes(Nest(isMap, length, body), e.sizeMax), Weight(Nest(isMap, length, body), e.sizeMax))
    ensures ok ==> Flawless(Nest(isMap, length, body), e.sizeMax)
    ensures old(e.RoomError()) == NoError ==>
              (ok <==> Flawless(Nest(isMap, length, body), e.sizeMax) && e.RoomError() == NoError)
    decreases body, 3
  {
    NestTyped(isMap, length, body, e.sizeMax);
    hide CborEncoder.Buffered, CborEncoder.RoomError;
    hide Opener, Closer, Promise, CallBytes, RunBytesOf, Flawless, AllFlawless, TotalWeight, Weight, Refused, Typed,
         AllTyped, IsFilled;
    ghost var out0 := e.out;
    var err, container := Open(e, isMap, length);
    if container == null {
      NestRefused(isMap, length, body, e.sizeMax);
      AppendNothing(out0);
      return false;
    }
    NestAccepted(isMap, length, body, e.sizeMax);
    ok := Fill(e, container, body);
    ok := err == NoError && ok;
    ghost var a, b := Opener(length, isMap, e.sizeMax), RunBytesOf(body, e.sizeMax);
    ghost var z := Closer(Promise(length, isMap, e.sizeMax));
    Regroup(out0, a, b, z);
  }

  lemma Regroup(x: seq<byte>, a: seq<byte>, b: seq<byte>, z: seq<byte>)
    ensures x + a + b + z == x + (a + b + z)
  {
  }

  // The calls inside a container that is open, and its closing.
  method Fill(e: CborEncoder, container: CborEncoder, body: seq<Call>) returns (ok: bool)
    requires e.Counting() && container.Valid() && container.ChildOf(e) && e != container
    requires container.added == 0 && container.out != [] && AllTyped(body, e.sizeMax)
    modifies e`pos, e`hasEnd, e`out, e`cut, e.buffer, container
    ensures e.Valid() && (e.hasEnd ==> old(container.hasEnd))
            && (!old(container.hasEnd) ==> e.cut == old(container.cut))
    ensures e.out == old(container.out) + RunBytesOf(body, e.sizeMax) + Closer(old(container.promised))
    ensures ok ==> IsFilled(body, old(container.promised), e.sizeMax)
    ensures old(container.RoomError()) == NoError ==>
              (ok <==> IsFilled(body, old(container.promised), e.sizeMax) && e.RoomError() == NoError)
    decreases body, 2
  {
    hide Closer, RunBytesOf, AllFlawless, TotalWeight, AllTyped;
    var ok1 := PerformAll(container, body);
    container.RoomIs();
    var err := e.CloseContainer(container);
    e.RoomIs();
    hide CborEncoder.Buffered;
    ok := ok1 && err == NoError;
  }

  predicate IsFilled(body: seq<Call>, promised: Option<nat>, sizeMax: nat) {
    AllFlawless(body, sizeMax) && (promised.Some? ==> promised == Some(TotalWeight(body, sizeMax)))
  }

  lemma AppendNothing(x: seq<byte>)
    ensures x + [] == x
  {
  }

  lemma NestTyped(isMap: bool, length: nat, body: seq<Call>, sizeMax: nat)
    requires Typed(Nest(isMap, length, body), sizeMax)
    ensures length <= sizeMax && AllTyped(body, sizeMax)
  {
  }

  lemma NestRefused(isMap: bool, length: nat, body: seq<Call>, sizeMax: nat)
    requires IsSizeMax(sizeMax) && Typed(Nest(isMap, length, body), sizeMax)
    requires isMap && length != sizeMax && length > sizeMax / 2
    ensures var c := Nest(isMap, length, body);
            CallBytes(c, sizeMax) == [] && Weight(c, sizeMax) == 0 && !Flawless(c, sizeMax)
  {
    hide Opener, Closer, RunBytesOf, AllFlawless;
  }

  lemma NestAccepted(isMap: bool, length: nat, body: seq<Call>, sizeMax: nat)
    requires IsSizeMax(sizeMax) && Typed(Nest(isMap, length, body), sizeMax) && AllTyped(body, sizeMax)
    requires !(isMap && length != sizeMax && length > sizeMax / 2)
    ensures var c, promise := Nest(isMap, length, body), Promise(length, isMap, sizeMax);
            && CallBytes(c, sizeMax) == Opener(length, isMap, sizeMax) + RunBytesOf(body, sizeMax) + Closer(promise)
            && Weight(c, sizeMax) == 1
            && (Flawless(c, sizeMax) <==> IsFilled(body, promise, sizeMax))
  {
    hide Opener, Closer, RunBytesOf, AllFlawless, TotalWeight;
  }

  // An application's use of the encoder: set up, make the calls, ask how it went. Nothing is
  // ever written but a prefix of the full encoding.
  method Encode(buffer: array<byte>, size: nat, sizeMax: nat, isNull: bool, calls: seq<Call>)
    returns (ok: bool, used: nat, extra: nat, ghost cut: nat)
    requires size <= buffer.Length && IsSizeMax(sizeMax) && AllTyped(calls, sizeMax)
    requires isNull ==> size == 0
    modifies buffer
    ensures var full := RunBytesOf(calls, sizeMax);
            && ok == (AllFlawless(calls, sizeMax) && |full| <= size && (isNull ==> full == []))
            && extra == (if |full| > size then |full| - size else 0)
            && (|full| <= size && !isNull ==> cut == used == |full|)
            && cut <= size && cut <= |full|
            && buffer[..] == full[..cut] + old(buffer[..])[cut..]
  {
    var encoder := new CborEncoder(buffer, size, sizeMax, isNull);
    ok := true;
    ghost var full := RunBytesOf(calls, sizeMax);
    ok := PerformAll(encoder, calls);
    assert encoder.out == full by {
      assert [] + full == full;
    }
    used := 0;
    if encoder.hasEnd {
      used := encoder.GetBufferSize();
    }
    extra := encoder.GetExtraBytesNeeded();
    cut := encoder.cut;
  }
}
