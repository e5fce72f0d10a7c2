/**
 The validator's order of keys against the canonical one of section 3.9 of RFC 7049, which puts
 shorter keys first and orders keys of one length by their bytes.
 */
module CborKeyOrder {
  import opened Options
  import opened CborHeads
  import opened CborSyntax
  import opened CborValidator

  predicate CanonicalLess(a: seq<byte>, b: seq<byte>) {
    |a| < |b| || (|a| == |b| && LexLess(a, b))
  }

  // Atoms that are no tags, and strings of known length, each with the shortest head.
  predicate IsFlat(i: Item) {
    match i
    case Atom(major, w, arg) =>
      IsAtomMajor(major) && major != MAJOR_TAG && arg < TWO_TO_THE_64 && LegalHead(major, w, arg)
        && w == ShortestWidth(arg)
    case Str(major, w, data) =>
      IsStringMajor(major) && |data| < TWO_TO_THE_64 && Fits(w, |data|) && w == ShortestWidth(|data|)
    case _ => false
  }

  function KeyAs(i: Item): Key
    requires WellFormed(i)
  {
    Key(HeadArg(i), ItemBytes(i))
  }

  function Payload(i: Item): seq<byte> {
    if i.Str? then i.data else []
  }

  // The two orders say the same of this pair, in both directions.
  predicate OrdersAgree(i: Item, j: Item)
    requires WellFormed(i) && WellFormed(j)
  {
    && (KeyLess(KeyAs(i), KeyAs(j)) <==> CanonicalLess(ItemBytes(i), ItemBytes(j)))
    && (KeyLess(KeyAs(j), KeyAs(i)) <==> CanonicalLess(ItemBytes(j), ItemBytes(i)))
  }

  // The key with the smaller argument is the shorter one, or as long and not of the larger major type.
  predicate Precedes(i: Item, j: Item)
    requires IsFlat(i) && IsFlat(j)
  {
    ItemSize(i) < ItemSize(j) || (ItemSize(i) == ItemSize(j) && i.major <= j.major)
  }

  predicate Consistent(i: Item, j: Item)
    requires IsFlat(i) && IsFlat(j)
  {
    if HeadArg(i) < HeadArg(j) then Precedes(i, j)
    else if HeadArg(j) < HeadArg(i) then Precedes(j, i)
    else ItemSize(i) == ItemSize(j) || (ItemSize(i) < ItemSize(j) <==> i.major < j.major)
  }

  // ----- The byte order of heads

  lemma {:induction false} LexAppend(x: seq<byte>, y: seq<byte>, u: byte, v: byte)
    requires |x| == |y|
    ensures LexLess(x + [u], y + [v]) <==> LexLess(x, y) || (x == y && u < v)
  {
    if x == [] {
      assert x + [u] == [u] && y + [v] == [v];
      assert [u][1..] == [] && [v][1..] == [];
    } else {
      assert (x + [u])[1..] == x[1..] + [u] && (y + [v])[1..] == y[1..] + [v];
      LexAppend(x[1..], y[1..], u, v);
      assert x == y <==> x[0] == y[0] && x[1..] == y[1..] by {
        assert x == [x[0]] + x[1..] && y == [y[0]] + y[1..];
      }
    }
  }

  // Big-endian numbers of one width are ordered as their bytes.
  lemma {:induction false} BigEndianOrder(w: nat, a: nat, b: nat)
    requires a < Pow256(w) && b < Pow256(w)
    ensures LexLess(BigEndian(w, a), BigEndian(w, b)) <==> a < b
    ensures BigEndian(w, a) == BigEndian(w, b) <==> a == b
  {
    if w > 0 {
      BigEndianOrder(w - 1, a / 256, b / 256);
      LexAppend(BigEndian(w - 1, a / 256), BigEndian(w - 1, b / 256), a % 256, b % 256);
      DecodeBigEndian(w, a);
      DecodeBigEndian(w, b);
    }
  }

  lemma FlatBytes(i: Item)
    requires IsFlat(i)
    ensures WellFormed(i) && i.major < 8 && !IsTag(i) && HeadArg(i) < TWO_TO_THE_64
    ensures var w := ShortestWidth(HeadArg(i));
            && Fits(w, HeadArg(i))
            && ItemBytes(i) == [32 * i.major + Info(w, HeadArg(i))] + (BigEndian(w, HeadArg(i)) + Payload(i))
            && |ItemBytes(i)| == ItemSize(i) == 1 + w + |Payload(i)|
  {
    hide BigEndian, Info, Pow256;
    SizeOfItem(i);
    if i.Str? {
      var head, rest := [32 * i.major + Info(i.w, |i.data|)], BigEndian(i.w, |i.data|);
      assert head + rest + i.data == head + (rest + i.data);
    } else {
      assert BigEndian(i.w, i.arg) + [] == BigEndian(i.w, i.arg);
    }
  }

  lemma WidthGrows(a: nat, b: nat)
    requires a <= b < TWO_TO_THE_64
    ensures ShortestWidth(a) <= ShortestWidth(b)
  {
  }

  // Of two flat keys with different arguments and one length, the major type decides first.
  lemma SameLengthOrder(i: Item, j: Item)
    requires IsFlat(i) && IsFlat(j) && ItemSize(i) == ItemSize(j) && HeadArg(i) != HeadArg(j)
    ensures WellFormed(i) && WellFormed(j)
    ensures LexLess(ItemBytes(i), ItemBytes(j)) <==>
            i.major < j.major || (i.major == j.major && HeadArg(i) < HeadArg(j))
  {
    FlatBytes(i);
    FlatBytes(j);
    if i.major != j.major {
      FirstByteOrder(i, j);
    } else {
      SameTypeOrder(i, j);
    }
  }

  lemma FirstByteOrder(i: Item, j: Item)
    requires IsFlat(i) && IsFlat(j) && i.major != j.major
    ensures WellFormed(i) && WellFormed(j)
    ensures LexLess(ItemBytes(i), ItemBytes(j)) <==> i.major < j.major
  {
    hide IsFlat, BigEndian, Info, ItemBytes;
    FlatBytes(i);
    FlatBytes(j);
  }

  // Strings of one type and different lengths never have one size, so these are atoms.
  lemma SameTypeOrder(i: Item, j: Item)
    requires IsFlat(i) && IsFlat(j) && ItemSize(i) == ItemSize(j) && HeadArg(i) != HeadArg(j) && i.major == j.major
    ensures WellFormed(i) && WellFormed(j)
    ensures LexLess(ItemBytes(i), ItemBytes(j)) <==> HeadArg(i) < HeadArg(j)
  {
    FlatBytes(i);
    FlatBytes(j);
    var a, b := HeadArg(i), HeadArg(j);
    if a < b {
      WidthGrows(a, b);
    } else {
      WidthGrows(b, a);
    }
    assert i.Atom? && j.Atom?;
    var w := ShortestWidth(a);
    assert w == ShortestWidth(b);
    assert BigEndian(w, a) + [] == BigEndian(w, a) && BigEndian(w, b) + [] == BigEndian(w, b);
    AtomOrder(i.major, w, a, b);
  }

  lemma AtomOrder(major: nat, w: nat, a: nat, b: nat)
    requires major < 8 && Fits(w, a) && Fits(w, b) && a != b
    ensures var x, y := [32 * major + Info(w, a)] + BigEndian(w, a), [32 * major + Info(w, b)] + BigEndian(w, b);
            LexLess(x, y) <==> a < b
  {
    var x, y := [32 * major + Info(w, a)] + BigEndian(w, a), [32 * major + Info(w, b)] + BigEndian(w, b);
    assert x[1..] == BigEndian(w, a) && y[1..] == BigEndian(w, b);
    if w > 0 {
      assert IsWidth(w);
      BigEndianOrder(w, a, b);
    }
  }

  // ----- Exactly where the orders agree

  lemma AgreeIffConsistent(i: Item, j: Item)
    requires IsFlat(i) && IsFlat(j)
    ensures WellFormed(i) && WellFormed(j)
    ensures OrdersAgree(i, j) <==> Consistent(i, j)
  {
    FlatBytes(i);
    FlatBytes(j);
    hide IsFlat, ItemBytes, LexLess, Info, BigEndian, WellFormed, ItemSize, HeadArg, OrdersAgree, Consistent;
    if HeadArg(i) != HeadArg(j) {
      DifferentArguments(i, j);
    } else {
      EqualArguments(i, j);
    }
  }

  lemma DifferentArguments(i: Item, j: Item)
    requires IsFlat(i) && IsFlat(j) && HeadArg(i) != HeadArg(j)
    ensures WellFormed(i) && WellFormed(j)
    ensures OrdersAgree(i, j) <==> Consistent(i, j)
  {
    FlatBytes(i);
    FlatBytes(j);
    hide IsFlat, ItemBytes, LexLess, Info, BigEndian, WellFormed, ItemSize, HeadArg;
    if ItemSize(i) == ItemSize(j) {
      SameLengthOrder(i, j);
      SameLengthOrder(j, i);
    }
  }

  lemma EqualArguments(i: Item, j: Item)
    requires IsFlat(i) && IsFlat(j) && HeadArg(i) == HeadArg(j)
    ensures WellFormed(i) && WellFormed(j)
    ensures OrdersAgree(i, j) <==> Consistent(i, j)
  {
    FlatBytes(i);
    FlatBytes(j);
    if ItemSize(i) != ItemSize(j) {
      StringAndAtom(i, j);
      hide IsFlat, ItemBytes, LexLess, Info, BigEndian, WellFormed, ItemSize, HeadArg;
      FirstByteOrder(i, j);
      FirstByteOrder(j, i);
    } else {
      hide IsFlat, ItemBytes, LexLess, Info, BigEndian, WellFormed, ItemSize, HeadArg;
    }
  }

  // Keys of one argument and different lengths are a string and an atom.
  lemma StringAndAtom(i: Item, j: Item)
    requires IsFlat(i) && IsFlat(j) && HeadArg(i) == HeadArg(j) && ItemSize(i) != ItemSize(j)
    ensures i.major != j.major
  {
  }

  // So the orders agree on all integers of one sign, on all simple values, and on all strings of one type.
  lemma SameTypeAgrees(i: Item, j: Item)
    requires IsFlat(i) && IsFlat(j) && i.major == j.major
    ensures WellFormed(i) && WellFormed(j) && OrdersAgree(i, j)
  {
    FlatBytes(i);
    FlatBytes(j);
    if HeadArg(i) <= HeadArg(j) {
      WidthGrows(HeadArg(i), HeadArg(j));
    } else {
      WidthGrows(HeadArg(j), HeadArg(i));
    }
    AgreeIffConsistent(i, j);
  }

  // ----- Keys on which they do not

  // Two types: the integer 10 is canonically below the text "a!"; the validator wants it above.
  lemma TypesDisagree()
    ensures var ten, text := Atom(MAJOR_UNSIGNED, 0, 10), Str(MAJOR_TEXT, 0, [0x61, 0x21]);
            && IsFlat(ten) && IsFlat(text)
            && WellFormed(ten) && WellFormed(text) && !OrdersAgree(ten, text)
            && CanonicalLess(ItemBytes(ten), ItemBytes(text)) && KeyLess(KeyAs(text), KeyAs(ten))
  {
    var ten, text := Atom(MAJOR_UNSIGNED, 0, 10), Str(MAJOR_TEXT, 0, [0x61, 0x21]);
    FlatBytes(ten);
    FlatBytes(text);
    AgreeIffConsistent(ten, text);
  }

  // One type: an array of two numbers is canonically below an array of one text.
  lemma ArraysDisagree()
    ensures var pair := Container(false, Some(0), [Atom(MAJOR_UNSIGNED, 0, 1), Atom(MAJOR_UNSIGNED, 0, 2)]);
            var word := Container(false, Some(0), [Str(MAJOR_TEXT, 0, [0x61, 0x62, 0x63])]);
            && WellFormed(pair) && ItemBytes(pair) == [0x82, 0x01, 0x02]
            && WellFormed(word) && ItemBytes(word) == [0x81, 0x63, 0x61, 0x62, 0x63]
            && CanonicalLess(ItemBytes(pair), ItemBytes(word)) && KeyLess(KeyAs(word), KeyAs(pair))
  {
    var one, two, text :=
      Atom(MAJOR_UNSIGNED, 0, 1), Atom(MAJOR_UNSIGNED, 0, 2), Str(MAJOR_TEXT, 0, [0x61, 0x62, 0x63]);
    assert [one, two][1..] == [two] && [two][1..] == [] && [text][1..] == [];
    assert WellFormed(one) && WellFormed(two) && WellFormed(text);
    assert AllWellFormed([two]) && AllWellFormed([one, two]) && AllWellFormed([text]);
    assert Untagged([two]) == 1 && Untagged([one, two]) == 2 && Untagged([text]) == 1;
    assert Concat([two]) == [0x02] + [] && Concat([one, two]) == [0x01] + Concat([two]);
    assert ItemBytes(text) == [0x63] + [0x61, 0x62, 0x63];
    assert Concat([text]) == ItemBytes(text) + [];
  }
}
