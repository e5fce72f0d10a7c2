/**
 Validation with the test of text: each chunk of a text string goes through the UTF-8 decoder,
 whose verdict can depend on the byte behind the chunk.
 */
module CborTextValidation {
  import opened Options
  import opened CborHeads
  import opened CborSyntax
  import opened CborValues
  import opened CborValidator
  import opened CborValidation
  import opened CborBasicValidation
  import opened Utf8
  import opened Utf8Dump

  // The byte at p, of the buffer or of the memory beyond it.
  function ByteAfter(s: seq<byte>, p: nat, beyond: byte): byte {
    if p < |s| then s[p] else beyond
  }

  // The verdict on a chunk of the buffer s.
  predicate ChunkAccepted(s: seq<byte>, from: nat, len: nat, beyond: byte) {
    from + len <= |s| && Utf8Accepts(s[from..from + len], ByteAfter(s, from + len, beyond))
  }

  // The checks with the flag for UTF-8, for the buffer s.
  function WithUtf8(ck: Checks, s: seq<byte>, beyond: byte): Checks {
    ck.(chunkOk := (from: nat, len: nat) => ChunkAccepted(s, from, len, beyond))
  }

  // The test as the validator makes it on a chunk.
  method TestChunk(s: seq<byte>, from: nat, len: nat, beyond: byte, ck: Checks) returns (ok: bool)
    requires from + len <= |s|
    ensures ok == WithUtf8(ck, s, beyond).chunkOk(from, len)
  {
    ok := ValidateUtf8(s[from..from + len], ByteAfter(s, from + len, beyond));
  }

  // Every text in an item that passes decodes, each chunk by itself or with the byte behind it.
  lemma AdmittedText(ck: Checks, s: seq<byte>, beyond: byte, i: Item, p: nat)
    requires i.Str? && i.major == MAJOR_TEXT && AdmitsString(WithUtf8(ck, s, beyond), i, p)
    requires WellFormed(i) && Stands(s, p, ItemBytes(i))
    ensures Utf8Accepts(i.data, ByteAfter(s, p + |ItemBytes(i)|, beyond))
  {
    hide Utf8Accepts, Stands, HeadBytes;
    StringStands(s, p, i.major, i.w, i.data);
    StandsSlice(s, p + 1 + i.w, i.data);
  }

  // An array of a text with half a character and of something that completes it, or does not.
  function TextThen(second: Item): Item {
    Container(false, Some(0), [Str(MAJOR_TEXT, 0, [0xc3]), second])
  }

  lemma HalfText()
    ensures var text := Str(MAJOR_TEXT, 0, [0xc3]);
            WellFormed(text) && ItemBytes(text) == [0x61, 0xc3] && HeadBytes(MAJOR_ARRAY, 0, 2) == [0x82]
  {
    assert ItemBytes(Str(MAJOR_TEXT, 0, [0xc3])) == [0x61] + [0xc3];
    assert HeadBytes(MAJOR_ARRAY, 0, 2) == [0x82] + [];
  }

  lemma TextThenParses(s: seq<byte>, second: Item)
    requires WellFormed(second) && !IsTag(second) && s == [0x82, 0x61, 0xc3] + ItemBytes(second)
    ensures ParseItem(s, 0) == Ok(TextThen(second), |s|)
    ensures HeadAt(s, 0).Some? && !IsTagHead(HeadAt(s, 0).value)
  {
    var text := Str(MAJOR_TEXT, 0, [0xc3]);
    HalfText();
    hide HeadBytes, HeadAt, ItemBytes, WellFormed, ParseItem, Stands;
    ArrayBytes(text, second);
    ThreeBytes(ItemBytes(second));
    StandsSlice(s, 0, s);
    assert s[0..|s|] == s;
    ItemComplete(s, 0, TextThen(second));
    ArrayHead(s);
  }

  lemma ThreeBytes(rest: seq<byte>)
    ensures [0x82] + ([0x61, 0xc3] + rest) == [0x82, 0x61, 0xc3] + rest
  {
  }

  lemma ArrayHead(s: seq<byte>)
    requires s != [] && s[0] == 0x82
    ensures HeadAt(s, 0) == Some(Sized(MAJOR_ARRAY, 0, 2))
  {
  }

  lemma ArrayBytes(first: Item, second: Item)
    requires WellFormed(first) && WellFormed(second) && !IsTag(first) && !IsTag(second)
    ensures var i := Container(false, Some(0), [first, second]);
            && WellFormed(i) && ItemBytes(i) == HeadBytes(MAJOR_ARRAY, 0, 2) + (ItemBytes(first) + ItemBytes(second))
  {
    var es := [first, second];
    assert es[1..] == [second] && [second][1..] == [];
    assert Untagged([second]) == 1 && Untagged(es) == 2;
    assert AllWellFormed([second]) && AllWellFormed(es);
    hide HeadBytes, WellFormed, ItemBytes;
    assert Concat([second]) == ItemBytes(second) + [] == ItemBytes(second);
    assert Concat(es) == ItemBytes(first) + ItemBytes(second);
    CountedBytes(es);
  }

  lemma CountedBytes(es: seq<Item>)
    requires AllWellFormed(es) && Untagged(es) == 2 && |es| == 2 && !IsTag(es[1])
    ensures var i := Container(false, Some(0), es);
            WellFormed(i) && ItemBytes(i) == HeadBytes(MAJOR_ARRAY, 0, 2) + Concat(es)
  {
    hide HeadBytes, Concat;
  }

  // The checks on such an array come down to the one on its text.
  lemma TextIsTested(second: Item, utf8: Checks)
    requires Plain(utf8.(chunkOk := (from: nat, len: nat) => true))
    requires second == Container(false, Some(0), []) || second == Atom(MAJOR_UNSIGNED, 0, 1)
    ensures AdmitsItem(utf8, TextThen(second), 0, 1024) <==> utf8.chunkOk(2, 1)
  {
    var text := Str(MAJOR_TEXT, 0, [0xc3]);
    var es := [text, second];
    AdmitsSingle(utf8, text, 1, 1023);
    AdmitsSingle(utf8, second, 3, 1023);
    assert AdmitsItem(utf8, text, 1, 1023) <==> utf8.chunkOk(2, 1);
    assert AdmitsItem(utf8, second, 3, 1023);
    assert es[..1] == [text] && es[1..] == [second] && [second][..1] == [second] && [second][1..] == [];
    assert LeadingTags(es) == 0 && LeadingTags([second]) == 0;
    assert AdmitsFirst(utf8, [second], 3, 1023) && Begins(utf8, [second], 3, 1023);
    assert AdmitsArray(utf8, [second], 3, 1023);
    assert [text][1..] == [] && RunSize([text]) == 2;
    assert AfterFirstAt(es, 1) == 3 && AfterFirstValue(es) == [second];
    assert AdmitsFirst(utf8, es, 1, 1023) <==> AdmitsItem(utf8, text, 1, 1023);
    assert AdmitsArray(utf8, es, 1, 1023) <==> Begins(utf8, es, 1, 1023);
    assert AdmitsElements(utf8, false, es, 1, 1023) <==> AdmitsArray(utf8, es, 1, 1023);
  }

  lemma TextDecides(s: seq<byte>, second: Item, ck: Checks, beyond: byte)
    requires Plain(ck) && WellFormed(second) && s == [0x82, 0x61, 0xc3] + ItemBytes(second)
    requires second == Container(false, Some(0), []) || second == Atom(MAJOR_UNSIGNED, 0, 1)
    ensures Good(s, 0, WithUtf8(ck, s, beyond), Exactly(1), MAX_RECURSIONS) <==> Utf8Accepts([0xc3], s[3])
  {
    hide HeadAt, Utf8Accepts, ParseItem, ParseRun, AdmitsItem, WellFormed, ItemBytes;
    TextThenParses(s, second);
    ValueStep(s, 0);
    var utf8 := WithUtf8(ck, s, beyond);
    TextIsTested(second, utf8);
    AdmitsSingle(utf8, TextThen(second), 0, 1024);
    assert s[2..3] == [0xc3];
  }

  // 82 61 c3 80 is accepted and 82 61 c3 01 is not, though the text is the same half character.
  lemma NextItemCompletesText(ck: Checks, beyond: byte)
    requires Plain(ck)
    ensures var s, t := [0x82, 0x61, 0xc3, 0x80], [0x82, 0x61, 0xc3, 0x01];
            && Good(s, 0, WithUtf8(ck, s, beyond), Exactly(1), MAX_RECURSIONS)
            && !Good(t, 0, WithUtf8(ck, t, beyond), Exactly(1), MAX_RECURSIONS)
  {
    hide Utf8Accepts, DecodeAll;
    var s, t: seq<byte> := [0x82, 0x61, 0xc3, 0x80], [0x82, 0x61, 0xc3, 0x01];
    var empty, one := Container(false, Some(0), []), Atom(MAJOR_UNSIGNED, 0, 1);
    assert WellFormed(empty) && ItemBytes(empty) == [0x80] + [] && WellFormed(one) && ItemBytes(one) == [0x01];
    assert s == [0x82, 0x61, 0xc3] + ItemBytes(empty) && t == [0x82, 0x61, 0xc3] + ItemBytes(one);
    OverReadAccepts();
    TextDecides(s, empty, ck, beyond);
    TextDecides(t, one, ck, beyond);
  }
}
