/**
 The pretty printer's dump of a text string: every character decoded from UTF-8 and written as
 ASCII, with JSON escapes and surrogate pairs where needed. Unescaping gives the text back.
 */
module Utf8Dump {
  import opened Options
  import opened CborHeads
  import opened Utf8

  // ----- Decoding whole texts

  // The character that bytes in its form spell.
  function CodeOf(b: seq<byte>): nat {
    if |b| == 1 then b[0]
    else if |b| == 2 then Value2(b[0], b[1])
    else if |b| == 3 then Value3(b[0], b[1], b[2])
    else if |b| == 4 then Value4(b[0], b[1], b[2], b[3])
    else 0
  }

  lemma CodeOfCharacter(b: seq<byte>)
    requires IsCharacter(b)
    ensures IsScalar(CodeOf(b)) && Encode(CodeOf(b)) == b && |b| == Announced(b[0])
  {
    if |b| == 1 {
      assert b == [b[0]];
    } else if |b| == 2 {
      assert b == [b[0], b[1]];
      Spells2(b[0], b[1]);
    } else if |b| == 3 {
      assert b == [b[0], b[1], b[2]];
      Spells3(b[0], b[1], b[2]);
    } else {
      assert b == [b[0], b[1], b[2], b[3]];
      Spells4(b[0], b[1], b[2], b[3]);
    }
  }

  lemma CodeOfEncode(c: nat)
    requires IsScalar(c)
    ensures IsCharacter(Encode(c)) && CodeOf(Encode(c)) == c && |Encode(c)| == Announced(Encode(c)[0])
  {
    hide IsCharacter, CodeOf, Encode, Announced;
    if c < 0x800 {
      CodeOfShort(c);
    } else if c < 0x1_0000 {
      CodeOfThree(c);
    } else {
      CodeOfFour(c);
    }
  }

  lemma CodeOfShort(c: nat)
    requires c < 0x800
    ensures IsCharacter(Encode(c)) && CodeOf(Encode(c)) == c && |Encode(c)| == Announced(Encode(c)[0])
  {
  }

  lemma CodeOfThree(c: nat)
    requires IsScalar(c) && 0x800 <= c < 0x1_0000
    ensures IsCharacter(Encode(c)) && CodeOf(Encode(c)) == c && |Encode(c)| == Announced(Encode(c)[0])
  {
    var x, y, z := c / 64 / 64, c / 64 % 64, c % 64;
    Divide4096(c);
    assert c / 64 == x * 64 + y && c == c / 64 * 64 + z;
    assert Encode(c) == [0xe0 + x, 0x80 + y, 0x80 + z];
    hide Encode;
    ThreeBytes(x, y, z);
  }

  // The three bytes of a character and the value they spell.
  lemma ThreeBytes(x: nat, y: nat, z: nat)
    requires x < 16 && y < 64 && z < 64
    requires var v := (x * 64 + y) * 64 + z; IsScalar(v) && 0x800 <= v
    ensures var b: seq<byte> := [0xe0 + x, 0x80 + y, 0x80 + z];
            IsCharacter(b) && CodeOf(b) == (x * 64 + y) * 64 + z && Announced(b[0]) == 3
  {
    assert (0xe0 + x) % 16 == x && (0x80 + y) % 64 == y && (0x80 + z) % 64 == z;
  }

  lemma CodeOfFour(c: nat)
    requires 0x1_0000 <= c <= 0x10ffff
    ensures IsCharacter(Encode(c)) && CodeOf(Encode(c)) == c && |Encode(c)| == Announced(Encode(c)[0])
  {
    var x, y, z, t := c / 64 / 64 / 64, c / 64 / 64 % 64, c / 64 % 64, c % 64;
    Divide4096(c);
    FourDigits(c);
    assert Encode(c) == [0xf0 + x, 0x80 + y, 0x80 + z, 0x80 + t];
    hide Encode;
    FourBytes(x, y, z, t);
  }

  lemma FourDigits(c: nat)
    requires 0x1_0000 <= c <= 0x10ffff
    ensures var x, y, z, t := c / 64 / 64 / 64, c / 64 / 64 % 64, c / 64 % 64, c % 64;
            c == ((x * 64 + y) * 64 + z) * 64 + t && x <= 4
  {
  }

  // The four bytes of a character and the value they spell.
  lemma FourBytes(x: nat, y: nat, z: nat, t: nat)
    requires x <= 4 && y < 64 && z < 64 && t < 64
    requires 0x1_0000 <= ((x * 64 + y) * 64 + z) * 64 + t <= 0x10ffff
    ensures var b: seq<byte> := [0xf0 + x, 0x80 + y, 0x80 + z, 0x80 + t];
            IsCharacter(b) && CodeOf(b) == ((x * 64 + y) * 64 + z) * 64 + t && Announced(b[0]) == 4
  {
    assert (0xf0 + x) % 8 == x && (0x80 + y) % 64 == y && (0x80 + z) % 64 == z && (0x80 + t) % 64 == t;
  }

  // The character a text starts with, if it does.
  function FirstCharacter(s: seq<byte>): (r: Option<nat>)
    ensures r.Some? <==> IsCharacter(Sequence(s, 0))
    ensures r.Some? ==> IsScalar(r.value) && Encode(r.value) == Sequence(s, 0) && Encode(r.value) <= s
  {
    if !IsCharacter(Sequence(s, 0)) then None
    else
      CodeOfCharacter(Sequence(s, 0));
      Some(CodeOf(Sequence(s, 0)))
  }

  // Reads a text as characters, or fails where none starts.
  function DecodeAll(s: seq<byte>): (r: Option<seq<nat>>)
    ensures r.Some? ==> (forall c | c in r.value :: IsScalar(c)) && EncodeAll(r.value) == s
  {
    hide IsCharacter, Encode, FirstCharacter, Sequence;
    if s == [] then Some([])
    else
      match FirstCharacter(s)
      case None => None
      case Some(c) =>
        match DecodeAll(s[|Encode(c)|..])
        case None => None
        case Some(cs) => Some([c] + cs)
  }

  lemma {:induction false} DecodeEncoded(cs: seq<nat>)
    requires forall c | c in cs :: IsScalar(c)
    ensures DecodeAll(EncodeAll(cs)) == Some(cs)
  {
    hide IsCharacter, Encode, CodeOf;
    if cs != [] {
      CodeOfEncode(cs[0]);
      var s := EncodeAll(cs);
      assert Sequence(s, 0) == Encode(cs[0]);
      assert s[|Encode(cs[0])|..] == EncodeAll(cs[1..]);
      DecodeEncoded(cs[1..]);
      assert [cs[0]] + cs[1..] == cs;
    }
  }

  // Every code point but the surrogates is a text of one character, in the bytes that section 3 of
  // RFC 3629 gives: a first byte for the length, and six bits in each byte after it.
  lemma EveryCodePointIsText(c: nat)
    requires c <= 0x10ffff && !(0xd800 <= c <= 0xdfff)
    ensures IsScalar(c) && DecodeAll(Encode(c)) == Some([c])
    ensures var b := Encode(c);
            && |b| == (if c < 0x80 then 1 else if c < 0x800 then 2 else if c < 0x1_0000 then 3 else 4)
            && (|b| == 1 ==> b[0] == c)
            && (|b| == 2 ==> b[0] / 32 == 6 && c == Value2(b[0], b[1]))
            && (|b| == 3 ==> b[0] / 16 == 14 && c == Value3(b[0], b[1], b[2]))
            && (|b| == 4 ==> b[0] / 8 == 30 && c == Value4(b[0], b[1], b[2], b[3]))
            && forall k | 1 <= k < |b| :: b[k] / 64 == 2
  {
    hide DecodeAll, EncodeAll;
    ScalarIsText(c);
    if c >= 0x1_0000 {
      FourAre(c);
    } else if c >= 0x800 {
      ThreeAre(c);
    }
  }

  lemma ScalarIsText(c: nat)
    requires IsScalar(c)
    ensures DecodeAll(Encode(c)) == Some([c])
  {
    hide Encode, DecodeAll;
    assert [c][1..] == [] && [c][0] == c;
    assert EncodeAll([c]) == Encode(c) + [] == Encode(c);
    DecodeEncoded([c]);
  }

  lemma ThreeAre(c: nat)
    requires 0x800 <= c < 0x1_0000 && IsScalar(c)
    ensures var b := Encode(c);
            |b| == 3 && b[0] / 16 == 14 && b[1] / 64 == 2 && b[2] / 64 == 2 && c == Value3(b[0], b[1], b[2])
  {
    Divide4096(c);
  }

  lemma FourAre(c: nat)
    requires 0x1_0000 <= c <= 0x10ffff
    ensures var b := Encode(c);
            && |b| == 4 && b[0] / 8 == 30 && b[1] / 64 == 2 && b[2] / 64 == 2 && b[3] / 64 == 2
            && c == Value4(b[0], b[1], b[2], b[3])
  {
    Divide4096(c);
    FourDigits(c);
  }

  // ----- Escapes

  function HexDigit(n: nat): byte
    requires n < 16
  {
    if n < 10 then 0x30 + n else 0x41 + n - 10
  }

  // \u and four digits.
  function HexEscape(n: nat): seq<byte>
    requires n < 0x1_0000
  {
    [0x5c, 0x75, HexDigit(n / 4096), HexDigit(n / 256 % 16), HexDigit(n / 16 % 16), HexDigit(n % 16)]
  }

  function HighSurrogate(c: nat): nat
    requires 0x1_0000 <= c <= 0x10ffff
  {
    c / 1024 + 0xd7c0
  }

  function LowSurrogate(c: nat): nat {
    c % 1024 + 0xdc00
  }

  // The letter of a two-character escape, if the character has one.
  function ShortEscape(c: nat): Option<byte> {
    if c == 0x22 || c == 0x5c then Some(c)
    else if c == 8 then Some(0x62)
    else if c == 12 then Some(0x66)
    else if c == 10 then Some(0x6e)
    else if c == 13 then Some(0x72)
    else if c == 9 then Some(0x74)
    else None
  }

  function Escape(c: nat): seq<byte>
    requires IsScalar(c)
  {
    if ShortEscape(c).Some? then [0x5c, ShortEscape(c).value]
    else if 0x20 <= c < 0x7f then [c]
    else if c < 0x1_0000 then HexEscape(c)
    else HexEscape(HighSurrogate(c)) + HexEscape(LowSurrogate(c))
  }

  function EscapeAll(cs: seq<nat>): seq<byte>
    requires forall c | c in cs :: IsScalar(c)
  {
    if cs == [] then [] else EscapeAll(cs[..|cs| - 1]) + Escape(cs[|cs| - 1])
  }

  // Printable ASCII stays as it is, but for the quote and the backslash; seven characters have a letter; all
  // others become four upper-case hexadecimal digits, or two times four above the basic plane.
  lemma EscapeIs(c: nat)
    requires IsScalar(c)
    ensures 0x20 <= c <= 0x7e && c != 0x22 && c != 0x5c ==> Escape(c) == [c]
    ensures c == 0x22 || c == 0x5c ==> Escape(c) == [0x5c, c]
    ensures c == 8 ==> Escape(c) == [0x5c, 0x62]
    ensures c == 9 ==> Escape(c) == [0x5c, 0x74]
    ensures c == 10 ==> Escape(c) == [0x5c, 0x6e]
    ensures c == 12 ==> Escape(c) == [0x5c, 0x66]
    ensures c == 13 ==> Escape(c) == [0x5c, 0x72]
    ensures (c < 0x20 && c !in {8, 9, 10, 12, 13}) || 0x7f <= c < 0x1_0000 ==>
              IsHexEscape(Escape(c), c)
    ensures c >= 0x1_0000 ==>
              && |Escape(c)| == 12 && IsHexEscape(Escape(c)[..6], 0xd800 + (c - 0x1_0000) / 0x400)
              && IsHexEscape(Escape(c)[6..], 0xdc00 + (c - 0x1_0000) % 0x400)
  {
    hide HexEscape, HexDigit;
    if c >= 0x1_0000 {
      DigitsOf(HighSurrogate(c));
      DigitsOf(LowSurrogate(c));
      assert Escape(c)[..6] == HexEscape(HighSurrogate(c)) && Escape(c)[6..] == HexEscape(LowSurrogate(c));
    } else {
      DigitsOf(c);
    }
  }

  // A backslash, the letter u and the four digits of n, the letters in upper case.
  predicate IsHexEscape(s: seq<byte>, n: nat) {
    && |s| == 6 && s[0] == 0x5c && s[1] == 0x75
    && (forall k | 2 <= k < 6 :: 0x30 <= s[k] <= 0x39 || 0x41 <= s[k] <= 0x46)
    && n == ((DigitValue(s[2]) * 16 + DigitValue(s[3])) * 16 + DigitValue(s[4])) * 16 + DigitValue(s[5])
  }

  function DigitValue(b: byte): int {
    if b <= 0x39 then b - 0x30 else b - 0x37
  }

  lemma DigitsOf(n: nat)
    requires n < 0x1_0000
    ensures |HexEscape(n)| == 6 && IsHexEscape(HexEscape(n), n)
  {
    assert n / 16 == n / 256 * 16 + n / 16 % 16;
    assert n / 256 == n / 4096 * 16 + n / 256 % 16;
  }

  // ----- The dump

  method DumpCharacter(uc: nat) returns (out: seq<byte>)
    requires IsScalar(uc)
    ensures out == Escape(uc)
  {
    if uc < 0x80 {
      if uc < 0x7f && uc >= 0x20 && uc != 0x5c && uc != 0x22 {
        return [uc];
      }
      var escaped := uc;
      var utf16 := false;
      if uc == 0x22 || uc == 0x5c {
      } else if uc == 8 {
        escaped := 0x62;
      } else if uc == 12 {
        escaped := 0x66;
      } else if uc == 10 {
        escaped := 0x6e;
      } else if uc == 13 {
        escaped := 0x72;
      } else if uc == 9 {
        escaped := 0x74;
      } else {
        utf16 := true;
      }
      if !utf16 {
        return [0x5c, escaped];
      }
    }
    if uc > 0xffff {
      return HexEscape(uc / 1024 + 0xd7c0) + HexEscape(uc % 1024 + 0xdc00);
    }
    return HexEscape(uc);
  }

  // What is still to be decoded continues what was decoded.
  ghost predicate Continues(whole: Option<seq<nat>>, done: seq<nat>, rest: Option<seq<nat>>) {
    if rest.None? then whole.None? else whole == Some(done + rest.value)
  }

  lemma DecodeStep(s: seq<byte>, p: nat, whole: Option<seq<nat>>, done: seq<nat>, c: nat)
    requires p < |s| && IsScalar(c) && Encode(c) == Sequence(s, p) && Continues(whole, done, DecodeAll(s[p..]))
    ensures p + |Encode(c)| <= |s| && Continues(whole, done + [c], DecodeAll(s[p + |Encode(c)|..]))
  {
    hide IsCharacter, Encode, CodeOf;
    CodeOfEncode(c);
    var k := |Encode(c)|;
    assert Sequence(s[p..], 0) == Sequence(s, p);
    assert s[p..][k..] == s[p + k..];
    var rest := DecodeAll(s[p + k..]);
    if rest.Some? {
      assert done + ([c] + rest.value) == done + [c] + rest.value;
    }
  }

  lemma DecodeStops(s: seq<byte>, p: nat)
    requires p < |s| && !IsCharacter(Sequence(s, p))
    ensures DecodeAll(s[p..]).None?
  {
    assert Sequence(s[p..], 0) == Sequence(s, p);
  }

  // The text decodes, alone or with the byte behind it, which the decoder may look at.
  predicate Utf8Accepts(text: seq<byte>, after: byte) {
    DecodeAll(text).Some? || DecodeAll(text + [after]).Some?
  }

  // A sequence of the text alone is that of the text with the byte behind it, if it is all there.
  lemma SequenceOfPart(text: seq<byte>, after: byte, p: nat)
    requires p < |text|
    ensures var s := text + [after];
            Sequence(text, p) == if p + Announced(s[p]) <= |text| then Sequence(s, p) else []
  {
  }

  // Dumps a text; after is the byte that follows it in memory.
  method EscapedDump(text: seq<byte>, after: byte) returns (ok: bool, out: seq<byte>)
    ensures ok <==> Utf8Accepts(text, after)
    ensures DecodeAll(text).Some? ==> out == EscapeAll(DecodeAll(text).value)
    ensures ok && DecodeAll(text).None? ==> out == EscapeAll(DecodeAll(text + [after]).value)
  {
    hide IsCharacter, Encode, CodeOf, Escape, DecodeAll;
    var s := text + [after];
    var p, end := 0, |text|;
    ghost var done: seq<nat> := [];
    out := [];
    StartsAll(text);
    StartsAll(s);
    while p < end
      invariant p <= |s| && forall c | c in done :: IsScalar(c)
      invariant out == EscapeAll(done)
      invariant if p <= end then Continues(DecodeAll(text), done, DecodeAll(text[p..])) else DecodeAll(text).None?
      invariant Continues(DecodeAll(s), done, DecodeAll(s[p..]))
      decreases end - p
    {
      var uc, next := GetUtf8(s, p, end);
      var whole := p + Announced(s[p]) <= end;
      SequenceOfPart(text, after, p);
      Spells1(0);
      if uc.None? || !whole {
        DecodeStops(text, p);
      } else {
        DecodeStep(text, p, DecodeAll(text), done, uc.value);
      }
      if uc.None? {
        DecodeStops(s, p);
        return false, out;
      }
      DecodeStep(s, p, DecodeAll(s), done, uc.value);
      var piece := DumpCharacter(uc.value);
      out := out + piece;
      done := done + [uc.value];
      p := next;
    }
    EmptyText(text[|text|..]);
    assert done + [] == done;
    EmptyText(s[|s|..]);
    ok := true;
  }

  // The validator's test of a text chunk, which stops at the first sequence that is no character.
  method ValidateUtf8(text: seq<byte>, after: byte) returns (ok: bool)
    ensures ok <==> Utf8Accepts(text, after)
  {
    hide IsCharacter, Encode, CodeOf, DecodeAll;
    var s := text + [after];
    var p, end := 0, |text|;
    ghost var done: seq<nat> := [];
    StartsAll(text);
    StartsAll(s);
    while p < end
      invariant p <= |s|
      invariant if p <= end then Continues(DecodeAll(text), done, DecodeAll(text[p..])) else DecodeAll(text).None?
      invariant Continues(DecodeAll(s), done, DecodeAll(s[p..]))
      decreases end - p
    {
      var uc, next := GetUtf8(s, p, end);
      var whole := p + Announced(s[p]) <= end;
      SequenceOfPart(text, after, p);
      Spells1(0);
      if uc.None? || !whole {
        DecodeStops(text, p);
      } else {
        DecodeStep(text, p, DecodeAll(text), done, uc.value);
      }
      if uc.None? {
        DecodeStops(s, p);
        return false;
      }
      DecodeStep(s, p, DecodeAll(s), done, uc.value);
      done := done + [uc.value];
      p := next;
    }
    EmptyText(text[|text|..]);
    assert done + [] == done;
    EmptyText(s[|s|..]);
    ok := true;
  }

  lemma StartsAll(s: seq<byte>)
    ensures Continues(DecodeAll(s), [], DecodeAll(s[0..]))
  {
    assert s[0..] == s;
    if DecodeAll(s).Some? {
      assert [] + DecodeAll(s).value == DecodeAll(s).value;
    }
  }

  lemma EmptyText(s: seq<byte>)
    requires s == []
    ensures DecodeAll(s) == Some([])
  {
  }

  // Half of a character is accepted where the byte behind it happens to complete it.
  lemma OverReadAccepts()
    ensures DecodeAll([0xc3]).None? && Utf8Accepts([0xc3], 0x80) && !Utf8Accepts([0xc3], 0x01)
  {
    var half, whole, broken: seq<byte> := [0xc3], [0xc3, 0x80], [0xc3, 0x01];
    NoCharacter(half);
    NoCharacter(broken);
    WholeCharacter(whole);
    hide DecodeAll;
    assert half + [0x80] == whole && half + [0x01] == broken;
  }

  lemma NoCharacter(s: seq<byte>)
    requires s == [0xc3] || s == [0xc3, 0x01]
    ensures DecodeAll(s).None?
  {
    assert !IsCharacter(Sequence(s, 0));
    hide Sequence, IsCharacter, Encode;
  }

  lemma WholeCharacter(s: seq<byte>)
    requires s == [0xc3, 0x80]
    ensures DecodeAll(s).Some?
  {
    assert Sequence(s, 0) == s && IsCharacter(s);
    hide Sequence, IsCharacter;
    assert FirstCharacter(s).Some? && Encode(FirstCharacter(s).value) == s;
    hide Encode, FirstCharacter;
    assert s[2..] == [] && DecodeAll([]) == Some([]);
  }

  method OverRead() returns (ok: bool)
    ensures ok && DecodeAll([0xc3]).None?
  {
    OverReadAccepts();
    ok := ValidateUtf8([0xc3], 0x80);
  }

  // ----- Unescaping, as section 7 of RFC 8259 has it

  function HexValue(b: byte): Option<nat> {
    if 0x30 <= b <= 0x39 then Some(b - 0x30)
    else if 0x41 <= b <= 0x46 then Some(b - 0x41 + 10)
    else if 0x61 <= b <= 0x66 then Some(b - 0x61 + 10)
    else None
  }

  // The UTF-16 code unit of an escape of four hexadecimal digits.
  function HexUnit(a: byte, b: byte, c: byte, d: byte): Option<nat> {
    match (HexValue(a), HexValue(b), HexValue(c), HexValue(d))
    case (Some(x), Some(y), Some(z), Some(t)) => Some(((x * 16 + y) * 16 + z) * 16 + t)
    case _ => None
  }

  function Unescaped(b: byte): Option<nat> {
    if b == 0x22 || b == 0x5c || b == 0x2f then Some(b)
    else if b == 0x62 then Some(8)
    else if b == 0x66 then Some(12)
    else if b == 0x6e then Some(10)
    else if b == 0x72 then Some(13)
    else if b == 0x74 then Some(9)
    else None
  }

  // The code units of the characters between the quotes of an ASCII string.
  function Units(s: seq<byte>): Option<seq<nat>> {
    if s == [] then Some([])
    else if s[0] != 0x5c then
      if 0x20 <= s[0] < 0x80 && s[0] != 0x22 then Cons(Some(s[0]), Units(s[1..])) else None
    else if |s| >= 6 && s[1] == 0x75 then Cons(HexUnit(s[2], s[3], s[4], s[5]), Units(s[6..]))
    else if |s| >= 2 then Cons(Unescaped(s[1]), Units(s[2..]))
    else None
  }

  function Cons(u: Option<nat>, rest: Option<seq<nat>>): Option<seq<nat>> {
    if u.Some? && rest.Some? then Some([u.value] + rest.value) else None
  }

  // Surrogate pairs are joined.
  function Join(us: seq<nat>): seq<nat> {
    if us == [] then []
    else if |us| >= 2 && 0xd800 <= us[0] <= 0xdbff && 0xdc00 <= us[1] <= 0xdfff then
      [0x1_0000 + (us[0] - 0xd800) * 1024 + (us[1] - 0xdc00)] + Join(us[2..])
    else [us[0]] + Join(us[1..])
  }

  function UnitsOf(c: nat): seq<nat>
    requires IsScalar(c)
  {
    if c < 0x1_0000 then [c] else [HighSurrogate(c), LowSurrogate(c)]
  }

  lemma HexRoundTrip(n: nat, rest: seq<byte>)
    requires n < 0x1_0000
    ensures Units(HexEscape(n) + rest) == Cons(Some(n), Units(rest))
  {
    var s := HexEscape(n) + rest;
    assert s[6..] == rest;
    assert n / 16 == n / 256 * 16 + n / 16 % 16;
    assert n / 256 == n / 4096 * 16 + n / 256 % 16;
    HexDigitValue(n / 4096);
    HexDigitValue(n / 256 % 16);
    HexDigitValue(n / 16 % 16);
    HexDigitValue(n % 16);
  }

  lemma HexDigitValue(n: nat)
    requires n < 16
    ensures HexValue(HexDigit(n)) == Some(n)
  {
  }

  lemma UnescapeShort(c: nat, rest: seq<byte>)
    requires ShortEscape(c).Some?
    ensures Units([0x5c, ShortEscape(c).value] + rest) == Cons(Some(c), Units(rest))
  {
    hide HexUnit;
    var s := [0x5c, ShortEscape(c).value] + rest;
    assert s[2..] == rest;
  }

  lemma UnescapePair(c: nat, rest: seq<byte>)
    requires 0x1_0000 <= c <= 0x10ffff && Units(rest).Some?
    ensures Units(HexEscape(HighSurrogate(c)) + HexEscape(LowSurrogate(c)) + rest) ==
            Some(UnitsOf(c) + Units(rest).value)
  {
    hide HexEscape, Units;
    var high, low := HighSurrogate(c), LowSurrogate(c);
    HexRoundTrip(low, rest);
    HexRoundTrip(high, HexEscape(low) + rest);
    assert HexEscape(high) + HexEscape(low) + rest == HexEscape(high) + (HexEscape(low) + rest);
    assert [high] + ([low] + Units(rest).value) == UnitsOf(c) + Units(rest).value;
  }

  lemma UnescapeOne(c: nat, rest: seq<byte>)
    requires IsScalar(c) && Units(rest).Some?
    ensures Units(Escape(c) + rest) == Some(UnitsOf(c) + Units(rest).value)
  {
    hide HexEscape, Units;
    if ShortEscape(c).Some? {
      UnescapeShort(c, rest);
    } else if 0x20 <= c < 0x7f {
      UnescapePlain(c, rest);
    } else if c < 0x1_0000 {
      HexRoundTrip(c, rest);
    } else {
      UnescapePair(c, rest);
    }
  }

  lemma UnescapePlain(c: nat, rest: seq<byte>)
    requires 0x20 <= c < 0x7f && c != 0x5c && c != 0x22
    ensures Units([c] + rest) == Cons(Some(c), Units(rest))
  {
    assert ([c] + rest)[1..] == rest;
  }

  lemma JoinOne(c: nat, us: seq<nat>)
    requires IsScalar(c)
    ensures Join(UnitsOf(c) + us) == [c] + Join(us)
  {
    var all := UnitsOf(c) + us;
    if c < 0x1_0000 {
      assert all[1..] == us;
    } else {
      assert all[2..] == us;
      assert c == c / 1024 * 1024 + c % 1024;
    }
  }

  lemma {:induction false} UnescapeAll(cs: seq<nat>, rest: seq<byte>)
    requires (forall c | c in cs :: IsScalar(c)) && Units(rest).Some?
    ensures Units(EscapeAll(cs) + rest).Some?
    ensures Join(Units(EscapeAll(cs) + rest).value) == cs + Join(Units(rest).value)
  {
    hide Escape, Units, IsScalar, Join;
    if cs == [] {
      assert EscapeAll(cs) + rest == rest;
    } else {
      var init, c := cs[..|cs| - 1], cs[|cs| - 1];
      UnescapeOne(c, rest);
      UnescapeAll(init, Escape(c) + rest);
      JoinOne(c, Units(rest).value);
      assert EscapeAll(cs) + rest == EscapeAll(init) + (Escape(c) + rest);
      assert cs + Join(Units(rest).value) == init + ([c] + Join(Units(rest).value));
    }
  }

  // Whatever is dumped, unescaping recovers the characters of the text.
  lemma DumpIsFaithful(text: seq<byte>)
    requires DecodeAll(text).Some?
    ensures var cs := DecodeAll(text).value;
            Units(EscapeAll(cs)).Some? && Join(Units(EscapeAll(cs)).value) == cs && EncodeAll(cs) == text
  {
    var cs := DecodeAll(text).value;
    UnescapeAll(cs, []);
    assert EscapeAll(cs) + [] == EscapeAll(cs);
  }
}
