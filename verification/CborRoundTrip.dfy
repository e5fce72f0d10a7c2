/**
 Reading back what was encoded: a client of the parser that rebuilds the data through the
 iterator's own operations, and the proof that it recovers what the encoder was told.
 */
module CborRoundTrip {
  import opened Options
  import opened CborHeads
  import opened CborSyntax
  import opened CborValues
  import opened CborEncoders
  import opened CborRuns

  // What a reader sees: the data model, free of head widths and chunk boundaries.
  datatype Value =
    | Integer(v: int)
    | Tagged(tag: nat)
    | Simple(simple: nat)
    | Boolean(b: bool)
    | Null
    | Undefined
    | Float(w: nat, bits: nat)
    | String(isText: bool, text: seq<byte>)
    | List(isMap: bool, counted: bool, elems: seq<Value>)

  function SimpleMeaning(n: nat): Value {
    if n == 20 || n == 21 then Boolean(n == 21)
    else if n == 22 then Null
    else if n == 23 then Undefined
    else Simple(n)
  }

  // The meaning of a concrete item ...
  function ValueOf(i: Item): Value
    decreases i, 0
  {
    match i
    case Atom(major, w, arg) =>
      if major == MAJOR_UNSIGNED then Integer(arg)
      else if major == MAJOR_NEGATIVE then Integer(-1 - arg)
      else if major == MAJOR_TAG then Tagged(arg)
      else if w >= 2 then Float(w, arg)
      else SimpleMeaning(arg)
    case Str(major, _, data) => String(major == MAJOR_TEXT, data)
    case Chunked(major, chunks) => String(major == MAJOR_TEXT, Joined(chunks))
    case Container(isMap, width, elems) => List(isMap, width.Some?, ValuesOf(elems))
  }

  function ValuesOf(es: seq<Item>): (vs: seq<Value>)
    ensures |vs| == |es|
    decreases es, 1
  {
    if es == [] then [] else [ValueOf(es[0])] + ValuesOf(es[1..])
  }

  // ... and of an encoder call.
  function Meaning(c: Call, sizeMax: nat): Value
    decreases c, 0
  {
    match c
    case PutUInt(n) => Integer(n)
    case PutNegative(absolute) => Integer(if absolute == 0 then -TWO_TO_THE_64 else 0 - absolute)
    case PutInt(v) => Integer(v)
    case PutSimple(n) => SimpleMeaning(n)
    case PutFloat(w, bits) => Float(w, bits)
    case PutTag(tag) => Tagged(tag)
    case PutString(major, text) => String(major == MAJOR_TEXT, text)
    case Nest(isMap, length, body) => List(isMap, length != sizeMax, Meanings(body, sizeMax))
  }

  function Meanings(cs: seq<Call>, sizeMax: nat): seq<Value>
    decreases cs, 1
  {
    if cs == [] then [] else [Meaning(cs[0], sizeMax)] + Meanings(cs[1..], sizeMax)
  }

  // ----- What the parser can read of what the encoder accepts

  // Flawless calls whose lengths the parser can count, without the simple value 24 and
  // without a tag that is left over at the end of a counted container.
  predicate Readable(c: Call, sizeMax: nat)
    decreases c, 0
  {
    match c
    case PutSimple(n) => n < 24 || 32 <= n < 256
    case Nest(isMap, length, body) =>
      && AllReadable(body, sizeMax)
      && (length != sizeMax ==>
            && Promise(length, isMap, sizeMax) == Some(TotalWeight(body, sizeMax))
            && Counted(isMap, length).Some?
            && (body != [] ==> !body[|body| - 1].PutTag?))
    case _ => true
  }

  predicate AllReadable(cs: seq<Call>, sizeMax: nat)
    decreases cs, 1
  {
    cs == [] || (Readable(cs[0], sizeMax) && AllReadable(cs[1..], sizeMax))
  }

  function ShortestAtom(major: nat, n: nat): Item
    requires n < TWO_TO_THE_64
  {
    Atom(major, ShortestWidth(n), n)
  }

  // The concrete item a call emits.
  function ItemOf(c: Call, sizeMax: nat): Item
    requires Typed(c, sizeMax) && IsSizeMax(sizeMax)
    decreases c, 0
  {
    match c
    case PutUInt(n) => ShortestAtom(MAJOR_UNSIGNED, n)
    case PutNegative(absolute) =>
      ShortestAtom(MAJOR_NEGATIVE, if absolute == 0 then TWO_TO_THE_64 - 1 else absolute - 1)
    case PutInt(v) => if v < 0 then ShortestAtom(MAJOR_NEGATIVE, -1 - v) else ShortestAtom(MAJOR_UNSIGNED, v)
    case PutSimple(n) => ShortestAtom(MAJOR_SIMPLE, n)
    case PutFloat(w, bits) => Atom(MAJOR_SIMPLE, w, bits)
    case PutTag(tag) => ShortestAtom(MAJOR_TAG, tag)
    case PutString(major, text) => Str(major, ShortestWidth(|text|), text)
    case Nest(isMap, length, body) =>
      Container(isMap, if length == sizeMax then None else Some(ShortestWidth(length)), ItemsOf(body, sizeMax))
  }

  function ItemsOf(cs: seq<Call>, sizeMax: nat): (es: seq<Item>)
    requires AllTyped(cs, sizeMax) && IsSizeMax(sizeMax)
    ensures |es| == |cs|
    decreases cs, 1
  {
    if cs == [] then [] else [ItemOf(cs[0], sizeMax)] + ItemsOf(cs[1..], sizeMax)
  }

  // ----- The encoder's bytes are those of its items

  lemma {:induction false} EncodesItem(c: Call, sizeMax: nat)
    requires Typed(c, sizeMax) && IsSizeMax(sizeMax) && Readable(c, sizeMax)
    ensures !Refused(c, sizeMax)
    ensures WellFormed(ItemOf(c, sizeMax)) && ItemBytes(ItemOf(c, sizeMax)) == CallBytes(c, sizeMax)
    ensures IsTag(ItemOf(c, sizeMax)) == c.PutTag?
    decreases c, 0
  {
    hide HeadBytes, Pow256;
    match c
    case PutUInt(n) => ShortestFits(n);
    case PutNegative(absolute) => ShortestFits(if absolute == 0 then TWO_TO_THE_64 - 1 else absolute - 1);
    case PutInt(v) => ShortestFits(if v < 0 then -1 - v else v);
    case PutSimple(n) => ShortestFits(n);
    case PutFloat(w, bits) =>
    case PutTag(tag) => ShortestFits(tag);
    case PutString(major, text) => ShortestFits(|text|);
    case Nest(isMap, length, body) => EncodesNest(isMap, length, body, sizeMax);
  }

  lemma {:induction false} EncodesNest(isMap: bool, length: nat, body: seq<Call>, sizeMax: nat)
    requires Typed(Nest(isMap, length, body), sizeMax) && IsSizeMax(sizeMax)
    requires Readable(Nest(isMap, length, body), sizeMax)
    ensures var c := Nest(isMap, length, body);
            && !Refused(c, sizeMax) && WellFormed(ItemOf(c, sizeMax))
            && ItemBytes(ItemOf(c, sizeMax)) == CallBytes(c, sizeMax)
    decreases body, 2
  {
    hide HeadBytes, Pow256;
    EncodesRun(body, sizeMax);
    var es := ItemsOf(body, sizeMax);
    if length == sizeMax {
      assert [IndefiniteByte(MajorOf(isMap))] + (Concat(es) + [BREAK_BYTE])
          == [IndefiniteByte(MajorOf(isMap))] + Concat(es) + [BREAK_BYTE];
    } else {
      ShortestFits(length);
      assert Length(isMap, es) == length;
      var head := Shortest(MajorOf(isMap), length);
      assert head + Concat(es) + [] == head + Concat(es);
    }
  }

  lemma {:induction false} EncodesRun(cs: seq<Call>, sizeMax: nat)
    requires AllTyped(cs, sizeMax) && IsSizeMax(sizeMax) && AllReadable(cs, sizeMax)
    ensures var es := ItemsOf(cs, sizeMax);
            && AllWellFormed(es) && Concat(es) == RunBytesOf(cs, sizeMax)
            && Untagged(es) == TotalWeight(cs, sizeMax)
            && (cs != [] ==> IsTag(es[|es| - 1]) == cs[|cs| - 1].PutTag?)
    decreases cs, 1
  {
    if cs != [] {
      EncodesItem(cs[0], sizeMax);
      EncodesRun(cs[1..], sizeMax);
      assert ItemsOf(cs, sizeMax)[1..] == ItemsOf(cs[1..], sizeMax);
    }
  }

  // The items mean what the calls said.
  lemma {:induction false} MeaningOfItem(c: Call, sizeMax: nat)
    requires Typed(c, sizeMax) && IsSizeMax(sizeMax) && Readable(c, sizeMax)
    ensures ValueOf(ItemOf(c, sizeMax)) == Meaning(c, sizeMax)
    decreases c, 0
  {
    if c.Nest? {
      MeaningOfRun(c.body, sizeMax);
    }
  }

  lemma {:induction false} MeaningOfRun(cs: seq<Call>, sizeMax: nat)
    requires AllTyped(cs, sizeMax) && IsSizeMax(sizeMax) && AllReadable(cs, sizeMax)
    ensures ValuesOf(ItemsOf(cs, sizeMax)) == Meanings(cs, sizeMax)
    decreases cs, 1
  {
    if cs != [] {
      MeaningOfItem(cs[0], sizeMax);
      MeaningOfRun(cs[1..], sizeMax);
      assert ItemsOf(cs, sizeMax)[1..] == ItemsOf(cs[1..], sizeMax);
    }
  }

  // ----- The reader

  // The value of an atom, by the getter its type calls for.
  method ReadAtom(it: CborValue) returns (v: Value)
    requires it.Positioned() && IsFixedType(it.typ)
    ensures it.Here().Ok? && v == ValueOf(it.Here().val)
  {
    hide FromBigEndian, WidthOf;
    AtomHere(it.data, it.ptr);
    if it.typ == INTEGER_TYPE {
      var n := it.ExtractInt64();
      var unsigned: int := n;
      v := Integer(if it.negative then -1 - unsigned else unsigned);
    } else if it.typ == TAG_TYPE {
      var n := it.ExtractInt64();
      v := Tagged(n);
    } else if it.typ == BOOLEAN_TYPE {
      var b := it.GetBoolean();
      v := Boolean(b);
    } else if it.typ == NULL_TYPE {
      v := Null;
    } else if it.typ == UNDEFINED_TYPE {
      v := Undefined;
    } else if it.typ == SIMPLE_TYPE {
      var n := it.GetSimpleType();
      v := Simple(n);
    } else if it.typ == HALF_FLOAT_TYPE {
      var bits := it.GetHalfFloat();
      v := Float(2, bits);
    } else {
      var bits := it.ExtractInt64();
      v := Float(if it.typ == FLOAT_TYPE then 4 else 8, bits);
    }
  }

  // Measures a string, then copies it.
  method ReadString(it: CborValue) returns (err: CborError, v: Value)
    requires it.Positioned() && it.AtString()
    modifies it
    ensures it.Valid()
    ensures var r, c := old(it.Here()), CountOf(old(it.remaining));
            && (err == NoError <==> it.Passable(r, c))
            && (err == NoError ==> it.Passed(r, c) && v == ValueOf(r.val))
  {
    hide HeadAt, Reachable, StringRest;
    StringRestIsItem(it.data, it.ptr);
    var len;
    v := Null;
    err, len := it.CalculateStringLength();
    if err != NoError {
      return;
    }
    var isText := it.typ == TEXT_STRING_TYPE;
    var buffer := new byte[len](i => 0);
    ghost var text := Content(it.Here().val);
    var total;
    err, total := it.CopyString(Some(buffer), len);
    assert err == NoError ==> buffer[..] == text;
    v := String(isText, buffer[..]);
  }

  // Reads one element of any kind and moves past it.
  method ReadElement(it: CborValue) returns (err: CborError, v: Value)
    requires it.Positioned()
    modifies it
    ensures it.Valid()
    ensures var r, c := old(it.Here()), CountOf(old(it.remaining));
            && (err == NoError <==> it.Passable(r, c))
            && (err == NoError ==> it.Passed(r, c) && v == ValueOf(r.val))
    decreases |it.data| - it.ptr, 0
  {
    hide HeadAt, Reachable, ParseRun, Content;
    v := Null;
    if IsFixedType(it.typ) {
      AtomHere(it.data, it.ptr);
      v := ReadAtom(it);
      err := it.AdvanceFixed();
      return;
    }
    if it.typ != ARRAY_TYPE && it.typ != MAP_TYPE {
      err, v := ReadString(it);
      return;
    }
    ContainerHere(it.data, it.ptr);
    ghost var start := Opening(it.data, it.ptr);
    var isMap, counted := it.typ == MAP_TYPE, !it.unknownLength;
    var vs: seq<Value>;
    var recursed;
    err, recursed := it.EnterContainer();
    if err != NoError {
      if start.Some? {
        UnreachableRun(it.data, start.value.0, start.value.1);
      }
      return;
    }
    recursed.ArrivedRun(start.value.0, start.value.1);
    err, vs := ReadElements(recursed);
    if err != NoError {
      return;
    }
    err := it.LeaveContainer(recursed);
    v := List(isMap, counted, vs);
  }

  method ReadElements(it: CborValue) returns (err: CborError, vs: seq<Value>)
    requires it.Resting()
    modifies it
    ensures it.Valid()
    ensures err == NoError <==> old(it.Run()).Ok?
    ensures err == NoError ==> it.Finished() && it.ptr == old(it.Run()).next && vs == ValuesOf(old(it.Run()).val)
    decreases |it.data| - it.ptr, 1
  {
    hide HeadAt, Reachable, ParseItem, ValueOf;
    ghost var whole, done := it.Run(), [];
    vs := [];
    while it.remaining != 0
      invariant it.Resting() && RunContinues(whole, done, it.Run()) && vs == ValuesOf(done)
      decreases |it.data| - it.ptr, it.remaining
    {
      ghost var c, i := CountOf(it.remaining), it.Here();
      RunStep(it.data, it.ptr, c, whole, done);
      var v;
      err, v := ReadElement(it);
      if err != NoError {
        if i.Ok? {
          UnreachableRun(it.data, i.next, After(c, i.val));
        }
        return;
      }
      it.ArrivedRun(i.next, After(c, i.val));
      ValuesOfConcat(done, [i.val]);
      done, vs := done + [i.val], vs + [v];
    }
    assert whole.Ok? ==> whole.val == done;
    err := NoError;
  }

  lemma {:induction false} ValuesOfConcat(a: seq<Item>, b: seq<Item>)
    ensures ValuesOf(a + b) == ValuesOf(a) + ValuesOf(b)
  {
    if a == [] {
      assert a + b == b;
    } else {
      assert (a + b)[1..] == a[1..] + b;
      ValuesOfConcat(a[1..], b);
    }
  }

  // ----- The round trip

  lemma {:induction false} ReadableIsFlawless(c: Call, sizeMax: nat)
    requires Typed(c, sizeMax) && IsSizeMax(sizeMax) && Readable(c, sizeMax)
    ensures Flawless(c, sizeMax)
    decreases c, 0
  {
    if c.Nest? {
      ReadableRunIsFlawless(c.body, sizeMax);
    }
  }

  lemma {:induction false} ReadableRunIsFlawless(cs: seq<Call>, sizeMax: nat)
    requires AllTyped(cs, sizeMax) && IsSizeMax(sizeMax) && AllReadable(cs, sizeMax)
    ensures AllFlawless(cs, sizeMax)
    decreases cs, 1
  {
    if cs != [] {
      ReadableIsFlawless(cs[0], sizeMax);
      ReadableRunIsFlawless(cs[1..], sizeMax);
    }
  }

  // One element, possibly tagged.
  predicate IsDocument(cs: seq<Call>, sizeMax: nat) {
    cs != [] && TotalWeight(cs, sizeMax) == 1 && !cs[|cs| - 1].PutTag?
  }

  lemma DocumentParses(cs: seq<Call>, sizeMax: nat)
    requires AllTyped(cs, sizeMax) && IsSizeMax(sizeMax) && AllReadable(cs, sizeMax) && IsDocument(cs, sizeMax)
    ensures var s := RunBytesOf(cs, sizeMax);
            ParseRun(s, 0, Exactly(1)) == Ok(ItemsOf(cs, sizeMax), |s|)
  {
    var s, es := RunBytesOf(cs, sizeMax), ItemsOf(cs, sizeMax);
    EncodesRun(cs, sizeMax);
    StandsSlice(s, 0, s);
    assert s[0..|s|] == s;
    RunComplete(s, 0, Exactly(1), es);
  }

  // Whatever document the encoder is given, a buffer that is large enough receives bytes from
  // which the parser's operations rebuild exactly what was said.
  method EncodeThenRead(buffer: array<byte>, sizeMax: nat, calls: seq<Call>)
    returns (encoded: bool, err: CborError, values: seq<Value>)
    requires IsSizeMax(sizeMax) && buffer.Length <= sizeMax && AllTyped(calls, sizeMax)
    requires AllReadable(calls, sizeMax) && IsDocument(calls, sizeMax)
    modifies buffer
    ensures encoded == (|RunBytesOf(calls, sizeMax)| <= buffer.Length)
    ensures encoded ==> err == NoError && values == Meanings(calls, sizeMax)
  {
    hide HeadAt, ParseItem, ParseRun, CallBytes;
    ReadableRunIsFlawless(calls, sizeMax);
    err, values := OutOfMemory, [];
    var used, extra;
    ghost var cut;
    encoded, used, extra, cut := Encode(buffer, buffer.Length, sizeMax, false, calls);
    if !encoded {
      return;
    }
    var data := buffer[..used];
    assert data == RunBytesOf(calls, sizeMax);
    DocumentParses(calls, sizeMax);
    MeaningOfRun(calls, sizeMax);
    ReachableRun(data, 0, Exactly(1));
    var it;
    err, it := ParserInit(data, sizeMax);
    err, values := ReadElements(it);
  }

  lemma ReachableRun(s: seq<byte>, p: nat, c: Count)
    requires p <= |s| && ParseRun(s, p, c).Ok? && c.Exactly? && c.n > 0
    ensures HeadAt(s, p).Some?
  {
    hide HeadAt;
  }

  // The one simple value that is written and not read: the code of the two-byte form itself.
  lemma SimpleValueIsRead(n: nat)
    requires n < 256 && !(25 <= n <= 31)
    ensures ParseItem(Shortest(MAJOR_SIMPLE, n), 0).Ok? <==> n != 24
  {
    var s := Shortest(MAJOR_SIMPLE, n);
    ShortestFits(n);
    StandsSlice(s, 0, s);
    assert s[0..|s|] == s;
    if n != 24 {
      HeadComplete(s, 0, MAJOR_SIMPLE, ShortestWidth(n), n);
    } else {
      assert s[1..2] == BigEndian(1, 24);
      DecodeBigEndian(1, 24);
    }
  }

  // ----- Nothing is lost: calls mean the same exactly if they emit the same

  lemma {:induction false} MeaningDecidesItem(c: Call, d: Call, sizeMax: nat)
    requires IsSizeMax(sizeMax) && Typed(c, sizeMax) && Typed(d, sizeMax)
    requires Readable(c, sizeMax) && Readable(d, sizeMax) && Meaning(c, sizeMax) == Meaning(d, sizeMax)
    ensures ItemOf(c, sizeMax) == ItemOf(d, sizeMax)
    decreases c, 0
  {
    hide Typed, AllTyped;
    AtomIsTyped(c, sizeMax);
    AtomIsTyped(d, sizeMax);
    if c.Nest? {
      MeaningsDecideItems(c.body, d.body, sizeMax);
      EncodesRun(c.body, sizeMax);
      EncodesRun(d.body, sizeMax);
    }
  }

  // What the types of its arguments say about a call.
  lemma AtomIsTyped(c: Call, sizeMax: nat)
    requires Typed(c, sizeMax)
    ensures match c
            case PutUInt(n) => n < TWO_TO_THE_64
            case PutNegative(absolute) => absolute < TWO_TO_THE_64
            case PutInt(v) => -TWO_TO_THE_64 <= v < TWO_TO_THE_64
            case PutSimple(n) => n < 256
            case PutFloat(w, _) => w >= 2
            case PutTag(n) => n < TWO_TO_THE_64
            case PutString(major, _) => IsStringMajor(major)
            case Nest(_, length, body) => AllTyped(body, sizeMax) && length <= sizeMax
  {
  }

  lemma {:induction false} MeaningsDecideItems(cs: seq<Call>, ds: seq<Call>, sizeMax: nat)
    requires IsSizeMax(sizeMax) && AllTyped(cs, sizeMax) && AllTyped(ds, sizeMax)
    requires AllReadable(cs, sizeMax) && AllReadable(ds, sizeMax) && Meanings(cs, sizeMax) == Meanings(ds, sizeMax)
    ensures ItemsOf(cs, sizeMax) == ItemsOf(ds, sizeMax)
    decreases cs, 1
  {
    hide Meaning, Typed, Readable, ItemOf;
    if cs != [] && ds != [] {
      var ms, ns := Meanings(cs, sizeMax), Meanings(ds, sizeMax);
      assert ms[0] == Meaning(cs[0], sizeMax) && ms[1..] == Meanings(cs[1..], sizeMax);
      assert ns[0] == Meaning(ds[0], sizeMax) && ns[1..] == Meanings(ds[1..], sizeMax);
      MeaningDecidesItem(cs[0], ds[0], sizeMax);
      MeaningsDecideItems(cs[1..], ds[1..], sizeMax);
    }
  }

  // So the meaning distinguishes all calls that the bytes distinguish, and no others.
  lemma SameMeaningSameBytes(c: Call, d: Call, sizeMax: nat)
    requires IsSizeMax(sizeMax) && Typed(c, sizeMax) && Typed(d, sizeMax)
    requires Readable(c, sizeMax) && Readable(d, sizeMax)
    ensures Meaning(c, sizeMax) == Meaning(d, sizeMax) <==> CallBytes(c, sizeMax) == CallBytes(d, sizeMax)
  {
    EncodesItem(c, sizeMax);
    EncodesItem(d, sizeMax);
    hide Meaning, ItemOf, CallBytes, Typed, Readable, ParseItem, ItemBytes, WellFormed;
    if Meaning(c, sizeMax) == Meaning(d, sizeMax) {
      MeaningDecidesItem(c, d, sizeMax);
    }
    var s := CallBytes(c, sizeMax);
    if s == CallBytes(d, sizeMax) {
      StandsSlice(s, 0, s);
      assert s[0..|s|] == s;
      ItemComplete(s, 0, ItemOf(c, sizeMax));
      ItemComplete(s, 0, ItemOf(d, sizeMax));
      MeaningOfItem(c, sizeMax);
      MeaningOfItem(d, sizeMax);
    }
  }

  // ----- Nothing more could be read back

  // Of the flawless calls exactly the readable ones say something that some item of the parser's
  // syntax means.
  lemma ReadableIffMeant(c: Call, sizeMax: nat)
    requires IsSizeMax(sizeMax) && Typed(c, sizeMax) && Flawless(c, sizeMax)
    ensures Readable(c, sizeMax) <==> exists i :: WellFormed(i) && ValueOf(i) == Meaning(c, sizeMax)
  {
    hide Typed, Flawless, Readable, WellFormed, ValueOf, Meaning;
    if Readable(c, sizeMax) {
      EncodesItem(c, sizeMax);
      MeaningOfItem(c, sizeMax);
    }
    if i :| WellFormed(i) && ValueOf(i) == Meaning(c, sizeMax) {
      MeantIsReadable(i, c, sizeMax);
    }
  }

  lemma {:induction false} MeantIsReadable(i: Item, c: Call, sizeMax: nat)
    requires IsSizeMax(sizeMax) && Typed(c, sizeMax) && Flawless(c, sizeMax)
    requires WellFormed(i) && ValueOf(i) == Meaning(c, sizeMax)
    ensures Readable(c, sizeMax) && IsTag(i) == c.PutTag?
    decreases c, 0
  {
    hide HeadBytes, Pow256;
    if c.Nest? {
      assert AllWellFormed(i.elems);
      MeantRunIsReadable(i.elems, c.body, sizeMax);
    }
  }

  lemma {:induction false} MeantRunIsReadable(es: seq<Item>, cs: seq<Call>, sizeMax: nat)
    requires IsSizeMax(sizeMax) && AllTyped(cs, sizeMax) && AllFlawless(cs, sizeMax)
    requires AllWellFormed(es) && ValuesOf(es) == Meanings(cs, sizeMax)
    ensures |es| == |cs| && AllReadable(cs, sizeMax) && Untagged(es) == TotalWeight(cs, sizeMax)
    ensures es != [] ==> IsTag(es[|es| - 1]) == cs[|cs| - 1].PutTag?
    decreases cs, 1
  {
    hide WellFormed, ValueOf, Meaning, Typed, Readable;
    MeaningsLength(cs, sizeMax);
    if cs != [] {
      var vs, ms := ValuesOf(es), Meanings(cs, sizeMax);
      assert vs[0] == ValueOf(es[0]) && vs[1..] == ValuesOf(es[1..]);
      assert ms[0] == Meaning(cs[0], sizeMax) && ms[1..] == Meanings(cs[1..], sizeMax);
      MeantIsReadable(es[0], cs[0], sizeMax);
      MeantRunIsReadable(es[1..], cs[1..], sizeMax);
    }
  }

  lemma {:induction false} MeaningsLength(cs: seq<Call>, sizeMax: nat)
    ensures |Meanings(cs, sizeMax)| == |cs|
    decreases cs, 2
  {
    if cs != [] {
      MeaningsLength(cs[1..], sizeMax);
    }
  }
}
