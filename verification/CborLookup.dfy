/**
 Looking up what was encoded: a map written by the encoder, searched for a text key, gives the
 value that was put under the key first, or nothing if there is no such key.
 */
module CborLookup {
  import opened Options
  import opened CborHeads
  import opened CborSyntax
  import opened CborValues
  import opened CborSearch
  import opened CborEncoders
  import opened CborRuns
  import opened CborRoundTrip

  // The calls that put each value after its key.
  function Entries(keys: seq<seq<byte>>, values: seq<Call>): (cs: seq<Call>)
    requires |keys| == |values|
    ensures |cs| == 2 * |keys|
  {
    if keys == [] then []
    else [PutString(MAJOR_TEXT, keys[0]), values[0]] + Entries(keys[1..], values[1..])
  }

  lemma {:induction false} EntryAt(keys: seq<seq<byte>>, values: seq<Call>, k: nat)
    requires |keys| == |values| && k < |keys|
    ensures var cs := Entries(keys, values);
            cs[2 * k] == PutString(MAJOR_TEXT, keys[k]) && cs[2 * k + 1] == values[k]
  {
    if k > 0 {
      EntryAt(keys[1..], values[1..], k - 1);
    }
  }

  lemma {:induction false} ItemAt(cs: seq<Call>, sizeMax: nat, k: nat)
    requires AllTyped(cs, sizeMax) && IsSizeMax(sizeMax) && k < |cs|
    ensures Typed(cs[k], sizeMax) && ItemsOf(cs, sizeMax)[k] == ItemOf(cs[k], sizeMax)
    ensures AllReadable(cs, sizeMax) ==> Readable(cs[k], sizeMax)
  {
    hide Typed, Readable, ItemOf;
    if k > 0 {
      ItemAt(cs[1..], sizeMax, k - 1);
    }
  }

  // In the items of the entries, no tags are among them, keys are at even places.
  ghost predicate AreEntries(es: seq<Item>, keys: seq<seq<byte>>) {
    && |es| == 2 * |keys|
    && (forall k | 0 <= k < |es| :: !IsTag(es[k]))
    && (forall k | 0 <= k < |keys| :: IsTextItem(es[2 * k]) && Content(es[2 * k]) == keys[k])
  }

  lemma EntriesAre(keys: seq<seq<byte>>, values: seq<Call>, sizeMax: nat)
    requires |keys| == |values| && IsSizeMax(sizeMax)
    requires AllTyped(Entries(keys, values), sizeMax) && AllReadable(Entries(keys, values), sizeMax)
    requires forall v | v in values :: !v.PutTag?
    ensures AreEntries(ItemsOf(Entries(keys, values), sizeMax), keys)
  {
    hide Typed, AllTyped, Readable, AllReadable, ItemsOf, Entries;
    var cs := Entries(keys, values);
    var es := ItemsOf(cs, sizeMax);
    forall j | 0 <= j < |cs|
      ensures !IsTag(es[j]) && (j % 2 == 0 ==> IsTextItem(es[j]) && Content(es[j]) == keys[j / 2])
    {
      EntryAt(keys, values, j / 2);
      assert cs[j] == if j % 2 == 0 then PutString(MAJOR_TEXT, keys[j / 2]) else values[j / 2];
      ItemAt(cs, sizeMax, j);
      EncodesItem(cs[j], sizeMax);
      if j % 2 == 0 {
        TextOf(cs[j], sizeMax);
      }
    }
    forall k | 0 <= k < |keys|
      ensures IsTextItem(es[2 * k]) && Content(es[2 * k]) == keys[k]
    {
      assert 2 * k % 2 == 0 && 2 * k / 2 == k;
    }
  }

  lemma TextOf(c: Call, sizeMax: nat)
    requires c.PutString? && c.major == MAJOR_TEXT && Typed(c, sizeMax) && IsSizeMax(sizeMax)
    ensures IsTextItem(ItemOf(c, sizeMax)) && Content(ItemOf(c, sizeMax)) == c.text
  {
  }

  lemma {:induction false} NoTags(es: seq<Item>)
    requires forall k | 0 <= k < |es| :: !IsTag(es[k])
    ensures Untagged(es) == |es|
  {
    if es != [] {
      NoTags(es[1..]);
    }
  }

  // Among entries the keys are the even elements, so the search is one for the text among the keys.
  lemma EntryKeys(es: seq<Item>, keys: seq<seq<byte>>, text: seq<byte>)
    requires AreEntries(es, keys)
    ensures IsPaired(es)
    ensures NoKeyMatches(es, text) <==> text !in keys
  {
    hide IsTextItem, Content;
    NoTags(es);
    forall j | 0 <= j < |es|
      ensures IsKey(es, j) <==> j % 2 == 0
    {
      NoTags(es[..j]);
    }
    forall j | 0 <= j < |es| && j % 2 == 0
      ensures Matches(es[j], text) <==> keys[j / 2] == text
    {
      assert es[2 * (j / 2)] == es[j];
    }
    if text in keys {
      var k :| 0 <= k < |keys| && keys[k] == text;
      assert IsKey(es, 2 * k) && 2 * k / 2 == k && Matches(es[2 * k], text);
    }
  }

  // What was passed to find the key ends at the first place of it.
  lemma FoundEntry(es: seq<Item>, keys: seq<seq<byte>>, passed: seq<Item>, text: seq<byte>) returns (k: nat)
    requires AreEntries(es, keys) && passed <= es && FoundKey(passed, text)
    ensures k < |keys| && |passed| == 2 * k + 1 && keys[k] == text && text !in keys[..k]
  {
    hide IsTextItem, Content;
    var j := |passed| - 1;
    NoTags(passed[..j]);
    k := j / 2;
    assert passed[j] == es[2 * k];
    var front := passed[..j];
    assert AreEntries(front, keys[..k]);
    EntryKeys(front, keys[..k], text);
  }

  // The call for a map of these entries, of known or unknown length.
  function MapOf(counted: bool, keys: seq<seq<byte>>, values: seq<Call>, sizeMax: nat): Call
    requires |keys| == |values|
  {
    Nest(true, if counted then |keys| else sizeMax, Entries(keys, values))
  }

  // The found value is that of the first entry with the key.
  predicate IsFirstValue(found: Option<Value>, keys: seq<seq<byte>>, values: seq<Call>, text: seq<byte>, sizeMax: nat)
    requires |keys| == |values|
  {
    if text in keys then
      exists k | 0 <= k < |keys| ::
        keys[k] == text && text !in keys[..k] && found == Some(Meaning(values[k], sizeMax))
    else found == None
  }

  /**
   Encodes a map of text keys, counted or open, looks a key up in the bytes and reads the value
   there. The values may be of any kind, nested within the parser's limit.
   */
  method EncodeThenFind(buffer: array<byte>, sizeMax: nat, counted: bool, keys: seq<seq<byte>>, values: seq<Call>,
                        text: seq<byte>)
    returns (encoded: bool, err: CborError, found: Option<Value>)
    requires IsSizeMax(sizeMax) && buffer.Length <= sizeMax && |keys| == |values| && 0 !in text
    requires forall v | v in values :: !v.PutTag?
    requires var c := MapOf(counted, keys, values, sizeMax);
             && Typed(c, sizeMax) && Readable(c, sizeMax)
             && AllTyped(c.body, sizeMax) && DepthAll(ItemsOf(c.body, sizeMax)) <= 1024
    modifies buffer
    ensures AllTyped([MapOf(counted, keys, values, sizeMax)], sizeMax)
    ensures encoded == (|RunBytesOf([MapOf(counted, keys, values, sizeMax)], sizeMax)| <= buffer.Length)
    ensures encoded ==> err == NoError && IsFirstValue(found, keys, values, text, sizeMax)
  {
    var c := MapOf(counted, keys, values, sizeMax);
    MapIsDocument(c, sizeMax);
    hide CallBytes, RunBytesOf, ItemsOf, Typed, AllTyped, Readable, AllReadable, DepthAll;
    err, found := OutOfMemory, None;
    var used, extra;
    ghost var cut;
    encoded, used, extra, cut := Encode(buffer, buffer.Length, sizeMax, false, [c]);
    if encoded {
      assert buffer[..used] == RunBytesOf([c], sizeMax);
      err, found := FindValue(buffer[..used], sizeMax, c, keys, values, text);
    }
  }

  // The search in the bytes of a map, and the reading of what it finds.
  method FindValue(data: seq<byte>, sizeMax: nat, ghost c: Call, ghost keys: seq<seq<byte>>, ghost values: seq<Call>,
                   text: seq<byte>)
    returns (err: CborError, found: Option<Value>)
    requires IsSizeMax(sizeMax) && |data| <= sizeMax && |keys| == |values| && 0 !in text
    requires forall v | v in values :: !v.PutTag?
    requires c.Nest? && c.isMap && c.body == Entries(keys, values) && Typed(c, sizeMax) && Readable(c, sizeMax)
    requires AllTyped(c.body, sizeMax) && AllReadable(c.body, sizeMax)
    requires DepthAll(ItemsOf(c.body, sizeMax)) <= 1024
    requires AllTyped([c], sizeMax) && data == RunBytesOf([c], sizeMax)
    ensures err == NoError && IsFirstValue(found, keys, values, text, sizeMax)
  {
    hide HeadAt, ParseItem, ParseRun, CallBytes, RunBytesOf, ItemsOf, Meaning, Typed, AllTyped, Readable, AllReadable,
         DepthAll, AreEntries, Walks, LeadsToKey, NoKeyMatches, FoundKey, IsPaired, Entries, CborValue.Describes;
    ghost var es := ItemsOf(c.body, sizeMax);
    MapParses(c, sizeMax, data);
    EntriesAre(keys, values, sizeMax);
    EntryKeys(es, keys, text);
    var it;
    err, it := ParserInit(data, sizeMax);
    AtMap(it);
    var aborted, element;
    ghost var passed;
    aborted, err, element, passed := MapFindValue(it, text);
    if element.typ == INVALID_TYPE {
      return NoError, None;
    }
    ghost var k := FoundEntry(es, keys, passed, text);
    StandsAtEntry(element, es, |passed|, |data|);
    EntryAt(keys, values, k);
    ItemAt(c.body, sizeMax, |passed|);
    MeaningOfItem(values[k], sizeMax);
    var v;
    err, v := ReadElement(element);
    found := Some(v);
  }

  lemma AtMap(it: CborValue)
    requires it.Positioned() && it.ptr == 0 && HeadAt(it.data, 0).Some?
    ensures it.typ == TypeOf(HeadAt(it.data, 0).value)
  {
    hide HeadAt;
  }

  // An iterator inside a well-formed run is at the next of its elements, and can pass it.
  lemma StandsAtEntry(it: CborValue, es: seq<Item>, j: nat, end: nat)
    requires it.Positioned() && j < |es| && it.Run() == Ok(es[j..], end)
    ensures it.Here().Ok? && it.Here().val == es[j] && it.Passable(it.Here(), CountOf(it.remaining))
  {
    hide HeadAt, ParseItem, ParseRun, Reachable;
    FirstOfRun(it);
    AfterFirst(it);
    assert es[j..][0] == es[j];
  }

  lemma MapIsDocument(c: Call, sizeMax: nat)
    requires c.Nest? && c.isMap && Typed(c, sizeMax) && Readable(c, sizeMax) && IsSizeMax(sizeMax)
    ensures AllTyped([c], sizeMax) && AllReadable([c], sizeMax) && AllFlawless([c], sizeMax)
    ensures AllTyped(c.body, sizeMax) && AllReadable(c.body, sizeMax)
  {
    ReadableIsFlawless(c, sizeMax);
    assert [c][1..] == [];
  }

  // The bytes of the map are one item with the items of the entries.
  lemma MapParses(c: Call, sizeMax: nat, s: seq<byte>)
    requires c.Nest? && c.isMap && IsSizeMax(sizeMax) && Typed(c, sizeMax) && Readable(c, sizeMax)
    requires AllTyped([c], sizeMax) && AllTyped(c.body, sizeMax) && s == RunBytesOf([c], sizeMax)
    ensures HeadAt(s, 0).Some? && TypeOf(HeadAt(s, 0).value) == MAP_TYPE
    ensures var i := ParseItem(s, 0);
            i.Ok? && i.val.Container? && i.val.elems == ItemsOf(c.body, sizeMax) && i.next == |s|
  {
    EncodesItem(c, sizeMax);
    assert [c][1..] == [];
    assert s == CallBytes(c, sizeMax) + [];
    var i := ItemOf(c, sizeMax);
    StandsSlice(s, 0, s);
    assert s[0..|s|] == s;
    ItemComplete(s, 0, i);
    hide HeadAt, ItemBytes, WellFormed;
    MapHead(s);
  }

  lemma MapHead(s: seq<byte>)
    requires ParseItem(s, 0).Ok? && ParseItem(s, 0).val.Container? && ParseItem(s, 0).val.isMap
    ensures HeadAt(s, 0).Some? && TypeOf(HeadAt(s, 0).value) == MAP_TYPE
  {
    hide HeadAt;
  }
}
