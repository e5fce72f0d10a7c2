/**
 Heads of CBOR data items (section 2.1 of RFC 7049): a major type, the width of the
 argument that follows the initial byte, and the argument itself.
 */
module CborHeads {
  import opened Options

  type byte = x: int | 0 <= x < 256

  datatype CborError =
    | NoError
    | UnknownLength
    | AdvancePastEOF
    | UnexpectedEOF
    | UnexpectedBreak
    | UnknownType
    | IllegalType
    | IllegalNumber
    | IllegalSimpleType
    | TooManyItems
    | TooFewItems
    | DataTooLarge
    | NestingTooDeep
    | OverlongEncoding
    | OutOfMemory

  // size_t is 32 or 64 bits wide.
  predicate IsSizeMax(n: nat) {
    n == 0xffff_ffff || n == 0xffff_ffff_ffff_ffff
  }

  const MAJOR_UNSIGNED := 0
  const MAJOR_NEGATIVE := 1
  const MAJOR_BYTES := 2
  const MAJOR_TEXT := 3
  const MAJOR_ARRAY := 4
  const MAJOR_MAP := 5
  const MAJOR_TAG := 6
  const MAJOR_SIMPLE := 7

  const BREAK_BYTE: byte := 255
  const TWO_TO_THE_64 := 0x1_0000_0000_0000_0000

  // ----- Big-endian numbers

  function Pow256(n: nat): (r: nat)
    ensures r >= 1
  {
    if n == 0 then 1 else 256 * Pow256(n - 1)
  }

  function BigEndian(w: nat, v: nat): (s: seq<byte>)
    ensures |s| == w
  {
    if w == 0 then [] else BigEndian(w - 1, v / 256) + [v % 256]
  }

  function FromBigEndian(s: seq<byte>): (v: nat)
    ensures v < Pow256(|s|)
  {
    if s == [] then 0 else 256 * FromBigEndian(s[..|s| - 1]) + s[|s| - 1]
  }

  lemma {:induction false} DecodeBigEndian(w: nat, v: nat)
    requires v < Pow256(w)
    ensures FromBigEndian(BigEndian(w, v)) == v
  {
    if w > 0 {
      DecodeBigEndian(w - 1, v / 256);
      assert BigEndian(w, v)[..w - 1] == BigEndian(w - 1, v / 256);
    }
  }

  lemma {:induction false} EncodeBigEndian(s: seq<byte>)
    ensures BigEndian(|s|, FromBigEndian(s)) == s
  {
    if s != [] {
      EncodeBigEndian(s[..|s| - 1]);
    }
  }

  // The last w bytes of a wider rendering are the rendering of width w.
  lemma {:induction false} BigEndianSuffix(wide: nat, w: nat, v: nat)
    requires w <= wide
    ensures BigEndian(wide, v)[wide - w..] == BigEndian(w, v)
  {
    if w > 0 {
      BigEndianSuffix(wide - 1, w - 1, v / 256);
    }
  }

  lemma PowersOf256()
    ensures Pow256(1) == 0x100 && Pow256(2) == 0x1_0000 && Pow256(4) == 0x1_0000_0000
    ensures Pow256(8) == TWO_TO_THE_64
  {
    assert Pow256(0) == 1;
    assert Pow256(1) == 256;
    assert Pow256(2) == 0x1_0000;
    assert Pow256(3) == 0x100_0000;
    assert Pow256(4) == 0x1_0000_0000;
    assert Pow256(5) == 0x100_0000_0000;
    assert Pow256(6) == 0x1_0000_0000_0000;
    assert Pow256(7) == 0x100_0000_0000_0000;
  }

  // ----- Heads

  // The number of argument bytes after the initial byte.
  predicate IsWidth(w: nat) {
    w == 0 || w == 1 || w == 2 || w == 4 || w == 8
  }

  // The argument fits the width; without argument bytes it must be below 24.
  predicate Fits(w: nat, arg: nat) {
    if w == 0 then arg < 24 else IsWidth(w) && arg < Pow256(w)
  }

  // The low five bits of the initial byte.
  function Info(w: nat, arg: nat): (info: nat)
    requires IsWidth(w) && Fits(w, arg)
    ensures info < 28
    ensures w == 0 <==> info < 24
  {
    match w
    case 0 => arg
    case 1 => 24
    case 2 => 25
    case 4 => 26
    case _ => 27
  }

  function WidthOf(info: nat): (w: nat)
    requires info < 28
    ensures IsWidth(w)
    ensures w == 0 <==> info < 24
  {
    if info < 24 then 0
    else if info == 24 then 1
    else if info == 25 then 2
    else if info == 26 then 4
    else 8
  }

  function HeadBytes(major: nat, w: nat, arg: nat): (s: seq<byte>)
    requires major < 8 && Fits(w, arg)
    ensures |s| == 1 + w
  {
    [32 * major + Info(w, arg)] + BigEndian(w, arg)
  }

  // The width a shortest-form encoder chooses.
  function ShortestWidth(arg: nat): (w: nat)
    requires arg < TWO_TO_THE_64
    ensures IsWidth(w)
  {
    if arg < 24 then 0
    else if arg <= 0xff then 1
    else if arg <= 0xffff then 2
    else if arg <= 0xffff_ffff then 4
    else 8
  }

  lemma ShortestFits(arg: nat)
    requires arg < TWO_TO_THE_64
    ensures Fits(ShortestWidth(arg), arg)
  {
    PowersOf256();
  }

  // Every head that carries an argument is at least as wide as the shortest one.
  lemma ShortestIsLeast(w: nat, arg: nat)
    requires arg < TWO_TO_THE_64 && IsWidth(w) && Fits(w, arg)
    ensures ShortestWidth(arg) <= w
  {
    PowersOf256();
  }

  // ----- Reading a head

  datatype Head = Sized(major: nat, w: nat, arg: nat) | Indefinite(major: nat)

  function Size(h: Head): nat {
    if h.Sized? then 1 + h.w else 1
  }

  // The head of the data item at position p, if the bytes there start one.
  // A two-byte simple value below 32 is not a head (section 2.3 of RFC 7049).
  function HeadAt(s: seq<byte>, p: nat): (r: Option<Head>)
    ensures r.Some? ==> p + Size(r.value) <= |s| && r.value.major == s[p] / 32 && s[p] != BREAK_BYTE
    ensures r.Some? && r.value.Indefinite? ==> MAJOR_BYTES <= r.value.major <= MAJOR_MAP
  {
    if p >= |s| then None
    else
      var major, info := s[p] / 32, s[p] % 32;
      if info < 28 then
        var w := WidthOf(info);
        if p + 1 + w > |s| then None
        else
          var arg := if w == 0 then info else FromBigEndian(s[p + 1..p + 1 + w]);
          if major == MAJOR_SIMPLE && w == 1 && arg < 32 then None
          else Some(Sized(major, w, arg))
      else if info == 31 && MAJOR_BYTES <= major <= MAJOR_MAP then Some(Indefinite(major))
      else None
  }

  // Where a head stands and what number it has, byte by byte.
  lemma HeadInBytes(s: seq<byte>, p: nat)
    requires p < |s|
    ensures var info := s[p] % 32;
            HeadAt(s, p).Some? <==>
              || info < 24
              || (info == 24 && p + 1 < |s| && (s[p] == 0xf8 ==> s[p + 1] >= 32))
              || (info == 25 && p + 2 < |s|)
              || (info == 26 && p + 4 < |s|)
              || (info == 27 && p + 8 < |s|)
              || (info == 31 && 2 <= s[p] / 32 <= 5)
    ensures HeadAt(s, p).Some? ==>
              match s[p] % 32
              case 24 => HeadAt(s, p) == Some(Sized(s[p] / 32, 1, s[p + 1]))
              case 25 => HeadAt(s, p) == Some(Sized(s[p] / 32, 2, Bytes2(s, p + 1)))
              case 26 => HeadAt(s, p) == Some(Sized(s[p] / 32, 4, Bytes4(s, p + 1)))
              case 27 =>
                HeadAt(s, p) == Some(Sized(s[p] / 32, 8, Bytes4(s, p + 1) * 0x1_0000_0000 + Bytes4(s, p + 5)))
              case 31 => HeadAt(s, p) == Some(Indefinite(s[p] / 32))
              case info => HeadAt(s, p) == Some(Sized(s[p] / 32, 0, info))
  {
    if p + 1 < |s| {
      LastByte(s, p + 1, p + 2);
      assert s[p + 1..p + 1] == [];
    }
    if p + 2 < |s| {
      NumberOfTwo(s, p + 1);
    }
    if p + 4 < |s| {
      NumberOfFour(s, p + 1, p + 1);
      assert s[p + 1..p + 1] == [];
    }
    if p + 8 < |s| {
      NumberOfFour(s, p + 1, p + 5);
    }
  }

  function Bytes2(s: seq<byte>, p: nat): nat
    requires p + 1 < |s|
  {
    var a: nat, b: nat := s[p], s[p + 1];
    a * 0x100 + b
  }

  function Bytes4(s: seq<byte>, p: nat): nat
    requires p + 3 < |s|
  {
    var a: nat, b: nat, c: nat, d: nat := s[p], s[p + 1], s[p + 2], s[p + 3];
    a * 0x100_0000 + b * 0x1_0000 + c * 0x100 + d
  }

  lemma LastByte(s: seq<byte>, from: nat, to: nat)
    requires from < to <= |s|
    ensures FromBigEndian(s[from..to]) == 256 * FromBigEndian(s[from..to - 1]) + s[to - 1]
  {
    assert s[from..to][..to - from - 1] == s[from..to - 1];
  }

  lemma NumberOfTwo(s: seq<byte>, p: nat)
    requires p + 1 < |s|
    ensures FromBigEndian(s[p..p + 2]) == Bytes2(s, p)
  {
    LastByte(s, p, p + 2);
    LastByte(s, p, p + 1);
    assert s[p..p] == [];
  }

  // Four more bytes.
  lemma NumberOfFour(s: seq<byte>, from: nat, p: nat)
    requires from <= p && p + 3 < |s|
    ensures FromBigEndian(s[from..p + 4]) == FromBigEndian(s[from..p]) * 0x1_0000_0000 + Bytes4(s, p)
  {
    LastByte(s, from, p + 4);
    LastByte(s, from, p + 3);
    LastByte(s, from, p + 2);
    LastByte(s, from, p + 1);
  }

  predicate LegalHead(major: nat, w: nat, arg: nat) {
    major < 8 && Fits(w, arg) && (major == MAJOR_SIMPLE && w == 1 ==> arg >= 32)
  }

  // The bytes b stand at position p.
  predicate Stands(s: seq<byte>, p: nat, b: seq<byte>) {
    p + |b| <= |s| && s[p..p + |b|] == b
  }

  lemma StandsConcat(s: seq<byte>, p: nat, a: seq<byte>, b: seq<byte>)
    ensures Stands(s, p, a + b) <==> Stands(s, p, a) && Stands(s, p + |a|, b)
  {
    if Stands(s, p, a + b) {
      assert a == s[p..p + |a + b|][..|a|] == s[p..p + |a|];
      assert b == s[p..p + |a + b|][|a|..] == s[p + |a|..p + |a| + |b|];
    }
    if Stands(s, p, a) && Stands(s, p + |a|, b) {
      assert s[p..p + |a + b|] == s[p..p + |a|] + s[p + |a|..p + |a| + |b|];
    }
  }

  // The same fact in terms of slices.
  lemma StandsSlice(s: seq<byte>, p: nat, b: seq<byte>)
    ensures Stands(s, p, b) <==> p + |b| <= |s| && s[p..p + |b|] == b
    ensures p <= |s| ==> Stands(s, p, [])
  {
  }

  lemma StandsByte(s: seq<byte>, p: nat, b: byte)
    ensures Stands(s, p, [b]) <==> p < |s| && s[p] == b
  {
    if p < |s| {
      assert s[p..p + 1] == [s[p]];
    }
  }

  // Major type and additional information share the initial byte.
  lemma InitialByte(major: nat, info: nat)
    requires major < 8 && info < 32
    ensures (32 * major + info) / 32 == major && (32 * major + info) % 32 == info
  {
  }

  lemma WidthOfInfo(w: nat, arg: nat)
    requires IsWidth(w) && Fits(w, arg)
    ensures WidthOf(Info(w, arg)) == w
    ensures w == 0 ==> Info(w, arg) == arg
  {
    hide Pow256;
  }

  lemma InfoOfWidth(info: nat, arg: nat)
    requires info < 28 && Fits(WidthOf(info), arg) && (info < 24 ==> arg == info)
    ensures Info(WidthOf(info), arg) == info
  {
    hide Pow256;
  }

  // What is read is what is written ...
  lemma HeadComplete(s: seq<byte>, p: nat, major: nat, w: nat, arg: nat)
    requires LegalHead(major, w, arg) && Stands(s, p, HeadBytes(major, w, arg))
    ensures HeadAt(s, p) == Some(Sized(major, w, arg))
  {
    hide Pow256, BigEndian, FromBigEndian, Info, WidthOf, Stands;
    assert IsWidth(w);
    var info := Info(w, arg);
    var first: byte := 32 * major + info;
    InitialByte(major, info);
    WidthOfInfo(w, arg);
    StandsConcat(s, p, [first], BigEndian(w, arg));
    StandsByte(s, p, first);
    StandsSlice(s, p + 1, BigEndian(w, arg));
    if w > 0 {
      DecodeBigEndian(w, arg);
    }
  }

  // ... and what is written is what was read.
  lemma HeadSound(s: seq<byte>, p: nat)
    requires HeadAt(s, p).Some? && HeadAt(s, p).value.Sized?
    ensures var h := HeadAt(s, p).value;
            LegalHead(h.major, h.w, h.arg) && Stands(s, p, HeadBytes(h.major, h.w, h.arg))
  {
    hide Pow256, BigEndian, FromBigEndian, Info, WidthOf, Stands;
    var h := HeadAt(s, p).value;
    var info := s[p] % 32;
    var rest := s[p + 1..p + 1 + h.w];
    assert h.w == WidthOf(info) && s[p] == 32 * h.major + info;
    if h.w > 0 {
      EncodeBigEndian(rest);
    } else {
      NoArgument(h.arg);
    }
    InfoOfWidth(info, h.arg);
    StandsByte(s, p, s[p]);
    StandsSlice(s, p + 1, rest);
    StandsConcat(s, p, [s[p]], BigEndian(h.w, h.arg));
  }

  lemma NoArgument(arg: nat)
    ensures BigEndian(0, arg) == []
  {
  }

  function IndefiniteByte(major: nat): byte
    requires MAJOR_BYTES <= major <= MAJOR_MAP
  {
    32 * major + 31
  }

  lemma IndefiniteHead(s: seq<byte>, p: nat, major: nat)
    requires MAJOR_BYTES <= major <= MAJOR_MAP
    ensures HeadAt(s, p) == Some(Indefinite(major)) <==> Stands(s, p, [IndefiniteByte(major)])
  {
    StandsByte(s, p, IndefiniteByte(major));
  }
}
