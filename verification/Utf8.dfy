/**
 UTF-8 decoding and the escaped dump of text. The reference definitions are section 4 of
 RFC 3629 for the byte sequences and section 7 of RFC 8259 for the escapes.
 */
module Utf8 {
  import opened Options
  import opened CborHeads

  predicate IsScalar(c: nat) {
    c < 0xd800 || 0xe000 <= c <= 0x10ffff
  }

  // ----- RFC 3629

  predicate Tail(b: byte) {
    0x80 <= b <= 0xbf
  }

  // The grammar of one character, by the number of its bytes.
  predicate IsCharacter(b: seq<byte>) {
    || (|b| == 1 && b[0] <= 0x7f)
    || (|b| == 2 && 0xc2 <= b[0] <= 0xdf && Tail(b[1]))
    || (|b| == 3 && Tail(b[2]) &&
        (|| (b[0] == 0xe0 && 0xa0 <= b[1] <= 0xbf)
         || (0xe1 <= b[0] <= 0xec && Tail(b[1]))
         || (b[0] == 0xed && 0x80 <= b[1] <= 0x9f)
         || (0xee <= b[0] <= 0xef && Tail(b[1]))))
    || (|b| == 4 && Tail(b[2]) && Tail(b[3]) &&
        (|| (b[0] == 0xf0 && 0x90 <= b[1] <= 0xbf)
         || (0xf1 <= b[0] <= 0xf3 && Tail(b[1]))
         || (b[0] == 0xf4 && 0x80 <= b[1] <= 0x8f)))
  }

  function Encode(c: nat): (b: seq<byte>)
    requires IsScalar(c)
    ensures 1 <= |b| <= 4
  {
    if c < 0x80 then [c]
    else if c < 0x800 then [0xc0 + c / 64, 0x80 + c % 64]
    else if c < 0x1_0000 then [0xe0 + c / 4096, 0x80 + c / 64 % 64, 0x80 + c % 64]
    else [0xf0 + c / 262144, 0x80 + c / 4096 % 64, 0x80 + c / 64 % 64, 0x80 + c % 64]
  }

  function EncodeAll(cs: seq<nat>): seq<byte>
    requires forall c | c in cs :: IsScalar(c)
  {
    if cs == [] then [] else Encode(cs[0]) + EncodeAll(cs[1..])
  }

  // The number of bytes a first byte announces; none where no character starts.
  function Announced(b: byte): nat {
    if b < 0x80 then 1 else if b <= 0xc1 then 0 else if b < 0xe0 then 2 else if b < 0xf0 then 3
      else if b < 0xf5 then 4 else 0
  }

  // The values that two, three and four bytes spell.
  function Value2(a: nat, b: nat): nat {
    a % 32 * 64 + b % 64
  }

  function Value3(a: nat, b: nat, c: nat): nat {
    (a % 16 * 64 + b % 64) * 64 + c % 64
  }

  function Value4(a: nat, b: nat, c: nat, d: nat): nat {
    ((a % 8 * 64 + b % 64) * 64 + c % 64) * 64 + d % 64
  }

  lemma Spells1(a: byte)
    ensures !IsCharacter([])
    ensures a < 0x80 ==> IsCharacter([a]) && Encode(a) == [a]
  {
  }

  lemma Spells2(a: byte, b: byte)
    requires Announced(a) == 2
    ensures IsCharacter([a, b]) <==> b / 64 == 2
    ensures IsCharacter([a, b]) ==> 0x80 <= Value2(a, b) < 0x800 && Encode(Value2(a, b)) == [a, b]
  {
  }

  // A digit to the base 64 can be taken off again.
  lemma LastDigit(q: nat, r: nat)
    requires r < 64
    ensures (q * 64 + r) / 64 == q && (q * 64 + r) % 64 == r
  {
  }

  lemma IsTail(b: byte)
    ensures Tail(b) <==> b / 64 == 2
    ensures Tail(b) ==> b == 0x80 + b % 64
  {
  }

  lemma Divide4096(v: nat)
    ensures v / 4096 == v / 64 / 64 && v / 262144 == v / 64 / 64 / 64
  {
  }

  lemma Spells3(a: byte, b: byte, c: byte)
    requires Announced(a) == 3
    ensures var v := Value3(a, b, c);
            && (IsCharacter([a, b, c]) <==> b / 64 == 2 && c / 64 == 2 && v >= 0x800 && IsScalar(v))
            && (IsCharacter([a, b, c]) ==> v < 0x1_0000 && Encode(v) == [a, b, c])
  {
    var v, x, y, z := Value3(a, b, c), a % 16, b % 64, c % 64;
    IsTail(b);
    IsTail(c);
    LastDigit(x * 64 + y, z);
    LastDigit(x, y);
    Divide4096(v);
    assert a == 0xe0 + x;
  }

  lemma Spells4(a: byte, b: byte, c: byte, d: byte)
    requires Announced(a) == 4
    ensures var v := Value4(a, b, c, d);
            && (IsCharacter([a, b, c, d]) <==>
                b / 64 == 2 && c / 64 == 2 && d / 64 == 2 && v >= 0x1_0000 && IsScalar(v))
            && (IsCharacter([a, b, c, d]) ==> Encode(v) == [a, b, c, d])
  {
    var v, x, y, z, t := Value4(a, b, c, d), a % 8, b % 64, c % 64, d % 64;
    IsTail(b);
    IsTail(c);
    IsTail(d);
    assert a == 0xf0 + x;
    if IsCharacter([a, b, c, d]) {
      EncodeDigits4(x, y, z, t);
    }
  }

  lemma EncodeDigits4(x: nat, y: nat, z: nat, t: nat)
    requires y < 64 && z < 64 && t < 64
    requires var v := ((x * 64 + y) * 64 + z) * 64 + t; v >= 0x1_0000 && IsScalar(v)
    ensures var v := ((x * 64 + y) * 64 + z) * 64 + t;
            Encode(v) == [0xf0 + x, 0x80 + y, 0x80 + z, 0x80 + t]
  {
    LastDigit((x * 64 + y) * 64 + z, t);
    LastDigit(x * 64 + y, z);
    LastDigit(x, y);
    Divide4096(((x * 64 + y) * 64 + z) * 64 + t);
  }

  // ----- The decoder

  // Decodes the character at p of a text that ends at position end; s is the memory it is in.
  // The test for room asks for one byte less than is read.
  method GetUtf8(s: seq<byte>, p: nat, end: nat) returns (uc: Option<nat>, next: nat)
    requires p <= end <= |s|
    requires p < end && end - p >= Announced(s[p]) - 1 ==> p + Announced(s[p]) <= |s|
    ensures p <= next && (p < end ==> p < next <= |s|)
    ensures uc.Some? <==> p < end && p + Announced(s[p]) <= end + 1 && IsCharacter(Sequence(s, p))
    ensures uc.Some? ==> IsScalar(uc.value) && Encode(uc.value) == Sequence(s, p) && next == p + Announced(s[p])
  {
    hide IsCharacter, Encode, Sequence;
    next := p;
    var n := end - p;
    if n == 0 {
      return None, next;
    }
    var c: nat := s[next];
    Spells1(s[next]);
    SequenceBytes(s, p);
    next := next + 1;
    if c < 0x80 {
      return Some(c), next;
    }
    if c <= 0xc1 {
      return None, next;
    }
    var charsNeeded, minUc;
    if c < 0xe0 {
      charsNeeded, minUc, c := 2, 0x80, c % 32;
    } else if c < 0xf0 {
      charsNeeded, minUc, c := 3, 0x800, c % 16;
    } else if c < 0xf5 {
      charsNeeded, minUc, c := 4, 0x1_0000, c % 8;
    } else {
      return None, next;
    }
    if n < charsNeeded - 1 {
      return None, next;
    }
    if charsNeeded == 2 {
      Spells2(s[p], s[p + 1]);
    } else if charsNeeded == 3 {
      Spells3(s[p], s[p + 1], s[p + 2]);
    } else {
      Spells4(s[p], s[p + 1], s[p + 2], s[p + 3]);
    }
    var b := s[next];
    next := next + 1;
    if b / 64 != 2 {
      return None, next;
    }
    c := c * 64 + b % 64;
    if charsNeeded > 2 {
      b := s[next];
      next := next + 1;
      if b / 64 != 2 {
        return None, next;
      }
      c := c * 64 + b % 64;
      if charsNeeded > 3 {
        b := s[next];
        next := next + 1;
        if b / 64 != 2 {
          return None, next;
        }
        c := c * 64 + b % 64;
      }
    }
    if c < minUc || 0xd800 <= c < 0xd800 + 2048 || c > 0x10ffff {
      return None, next;
    }
    return Some(c), next;
  }

  // The bytes a character at p would take.
  function Sequence(s: seq<byte>, p: nat): seq<byte> {
    if p < |s| && p + Announced(s[p]) <= |s| then s[p..p + Announced(s[p])] else []
  }

  lemma SequenceBytes(s: seq<byte>, p: nat)
    requires p < |s|
    ensures var n := Announced(s[p]);
            if p + n > |s| || n == 0 then Sequence(s, p) == []
            else if n == 1 then Sequence(s, p) == [s[p]]
            else if n == 2 then Sequence(s, p) == [s[p], s[p + 1]]
            else if n == 3 then Sequence(s, p) == [s[p], s[p + 1], s[p + 2]]
            else Sequence(s, p) == [s[p], s[p + 1], s[p + 2], s[p + 3]]
  {
  }
}
