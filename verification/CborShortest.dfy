/**
 The two places that judge whether a head is longer than it need be, each with a size
 computation of its own, measured against the width the encoder chooses.
 */
module CborShortest {
  import opened Options
  import opened CborHeads
  import opened CborValues

  predicate IsFloatType(typ: nat) {
    HALF_FLOAT_TYPE <= typ <= DOUBLE_TYPE
  }

  // The number of the element at it, checked to be in its shortest form if that is asked for.
  // Floating-point values pass whatever their width.
  method ValidateNumber(it: CborValue, typ: nat, shortestIntegrals: bool) returns (err: CborError)
    requires it.ptr < |it.data|
    ensures !shortestIntegrals || IsFloatType(typ) ==> err == NoError
    ensures shortestIntegrals && !IsFloatType(typ) ==>
              match HeadAt(it.data, it.ptr)
              case Some(Sized(_, w, arg)) =>
                arg < TWO_TO_THE_64 && err == if w <= ShortestWidth(arg) then NoError else OverlongEncoding
              case Some(Indefinite(_)) => err == IllegalNumber
              case None => err == NumberError(it.data, it.ptr)
  {
    if !shortestIntegrals {
      return NoError;
    }
    if typ >= HALF_FLOAT_TYPE && typ <= DOUBLE_TYPE {
      return NoError;
    }
    err := CheckShortest(it.data, it.ptr);
  }

  // Where no head starts: no number, not all of it there, or a simple value in the two-byte form
  // that its one byte would have sufficed for.
  function NumberError(s: seq<byte>, p: nat): CborError
    requires p < |s|
  {
    var info := s[p] % 32;
    if info >= 28 then IllegalNumber
    else if p + 1 + WidthOf(info) > |s| then UnexpectedEOF
    else if WidthOf(info) == 1 && s[p + 1] < 24 then OverlongEncoding
    else NoError
  }

  // On an element that has been read ahead, with its own type: overlong exactly when the head is
  // wider than need be and the value is no floating-point number.
  method ValidateOwnNumber(it: CborValue, shortestIntegrals: bool) returns (err: CborError)
    requires it.Positioned() && !it.unknownLength
    ensures var h := HeadAt(it.data, it.ptr).value;
            && h.Sized? && h.arg < TWO_TO_THE_64
            && (err == NoError || err == OverlongEncoding)
            && (err == OverlongEncoding <==>
                  shortestIntegrals && h.w > ShortestWidth(h.arg) && !(h.major == MAJOR_SIMPLE && h.w >= 2))
  {
    hide HeadAt, FromBigEndian;
    HeadSound(it.data, it.ptr);
    PowersOf256();
    err := ValidateNumber(it, it.typ, shortestIntegrals);
  }

  // The double zero passes, though its value would fit one byte.
  method DoubleZeroPasses() returns (err: CborError)
    ensures err == NoError
  {
    var data: seq<byte> := [0xfb, 0, 0, 0, 0, 0, 0, 0, 0];
    var it;
    err, it := ParserInit(data, 0xffff_ffff);
    assert HeadAt(data, 0).Some? && TypeOf(HeadAt(data, 0).value) == DOUBLE_TYPE;
    err := ValidateOwnNumber(it, true);
  }

  // The width test itself.
  method CheckShortest(s: seq<byte>, ptr: nat) returns (err: CborError)
    requires ptr < |s|
    ensures match HeadAt(s, ptr)
            case Some(Sized(_, w, arg)) =>
              arg < TWO_TO_THE_64 && err == if w <= ShortestWidth(arg) then NoError else OverlongEncoding
            case Some(Indefinite(_)) => err == IllegalNumber
            case None => err == NumberError(s, ptr)
  {
    hide FromBigEndian;
    var next, value;
    err, next, value := ExtractNumber(s, ptr);
    if err != NoError {
      return;
    }
    var bytesUsed := next - ptr - 1;
    var bytesNeeded := 0;
    if value >= 24 {
      bytesNeeded := bytesNeeded + 1;
    }
    if value > 0xff {
      bytesNeeded := bytesNeeded + 1;
    }
    if value > 0xffff {
      bytesNeeded := bytesNeeded + 2;
    }
    if value > 0xffff_ffff {
      bytesNeeded := bytesNeeded + 4;
    }
    if bytesNeeded < bytesUsed {
      return OverlongEncoding;
    }
    return NoError;
  }

  // What the pretty printer puts after a number: nothing, the code of its width, or the sign of
  // an open length. Absent when the number cannot be read.
  datatype Indicator = Nothing | WidthCode(n: nat) | OpenLength | Absent

  method ResolveIndicator(s: seq<byte>, ptr: nat, showIndefinite: bool, showOverlong: bool) returns (r: Indicator)
    requires ptr <= |s|
    ensures ptr == |s| ==> r == Absent
    ensures match HeadAt(s, ptr)
            case Some(Indefinite(_)) =>
              r == if showIndefinite then OpenLength else if showOverlong then Absent else Nothing
            case Some(Sized(_, w, arg)) =>
              && arg < TWO_TO_THE_64
              && (r != Nothing <==> showOverlong && ShortestWidth(arg) < w)
              && (r != Nothing ==> r == WidthCode(Info(w, arg) - 24))
            case None => true
  {
    hide FromBigEndian;
    if ptr == |s| {
      return Absent;
    }
    var additional := s[ptr] % 32;
    if additional < 24 {
      return Nothing;
    }
    if showIndefinite && additional == 31 {
      return OpenLength;
    }
    if !showOverlong {
      if HeadAt(s, ptr).Some? && HeadAt(s, ptr).value.Sized? {
        HeadSound(s, ptr);
        PowersOf256();
      }
      return Nothing;
    }
    var err, next, value := ExtractNumber(s, ptr);
    if err != NoError {
      return Absent;
    }
    var expected := 23;
    if value >= 24 {
      expected := expected + 1;
    }
    if value > 0xff {
      expected := expected + 1;
    }
    if value > 0xffff {
      expected := expected + 1;
    }
    if value > 0xffff_ffff {
      expected := expected + 1;
    }
    if HeadAt(s, ptr).Some? {
      HeadSound(s, ptr);
      ShortestIsLeast(HeadAt(s, ptr).value.w, value);
    }
    return if expected == additional then Nothing else WidthCode(additional - 24);
  }

  // The encoder's head is the only one of least length that reads back as the number.
  lemma ShortestIsUnique(major: nat, arg: nat, w: nat, s: seq<byte>)
    requires arg < TWO_TO_THE_64 && LegalHead(major, w, arg) && HeadBytes(major, w, arg) <= s
    ensures HeadAt(s, 0) == Some(Sized(major, w, arg))
    ensures ShortestWidth(arg) <= w
    ensures Fits(ShortestWidth(arg), arg)
    ensures w == ShortestWidth(arg) <==> |HeadBytes(major, w, arg)| == |HeadBytes(major, ShortestWidth(arg), arg)|
  {
    ShortestFits(arg);
    ShortestIsLeast(w, arg);
    assert s[0..0 + (1 + w)] == HeadBytes(major, w, arg);
    HeadComplete(s, 0, major, w, arg);
  }
}
