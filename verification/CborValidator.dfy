/**
 The recursive validator. Its flags are separate fields. The tests of floating-point values and
 of text chunks, which depend on number formats and on UTF-8, are arbitrary predicates here: of
 the width and bits of a number, and of the position and length of a chunk in the buffer that is
 being validated. A test of a chunk may so depend on the bytes around it.
 */
module CborValidator {
  import opened Options
  import opened CborHeads
  import opened CborSyntax
  import opened CborValues
  import opened CborSearch

  datatype Checks = Checks(
    noIndeterminate: bool,        // 0x100
    sorted: bool,                 // 0x200, which callers set only together with 0x100
    unique: bool,                 // 0x1000
    tagUse: bool,
    keysAreStrings: bool,
    noUndefined: bool,
    noTags: bool,
    noUnknownSimpleSA: bool,
    noUnknownSimple: bool,
    noUnknownTagsSA: bool,
    noUnknownTagsSR: bool,
    noUnknownTags: bool,
    floatOk: (nat, nat) -> bool,
    chunkOk: (nat, nat) -> bool)

  // The named flags for sorted and unique keys include the one for known lengths.
  predicate Usable(ck: Checks) {
    ck.sorted ==> ck.noIndeterminate
  }

  // The test for sorting looks at two bits, and either of them is enough.
  predicate ChecksOrder(ck: Checks) {
    ck.noIndeterminate || ck.sorted
  }

  predicate ChecksUnique(ck: Checks) {
    ck.noIndeterminate && ck.sorted && ck.unique
  }

  // ----- Known tags and the types they are allowed on, one byte for each type

  datatype KnownTag = KnownTag(tag: nat, types: nat)

  const KNOWN_TAGS: seq<KnownTag> := [
    KnownTag(0, 0x60), KnownTag(1, 0x01), KnownTag(2, 0x40), KnownTag(3, 0x40),
    KnownTag(4, 0x80), KnownTag(5, 0x80), KnownTag(16, 0x80), KnownTag(17, 0x80),
    KnownTag(18, 0x80), KnownTag(21, 0xa08040), KnownTag(22, 0xa08040), KnownTag(23, 0xa08040),
    KnownTag(24, 0x40), KnownTag(32, 0x60), KnownTag(33, 0x60), KnownTag(34, 0x60),
    KnownTag(35, 0x60), KnownTag(36, 0x60), KnownTag(96, 0x80), KnownTag(97, 0x80),
    KnownTag(98, 0x80), KnownTag(55799, 0)]

  predicate IsKnown(k: KnownTag) {
    k in KNOWN_TAGS
  }

  // The search gives up at the first larger tag; the table is sorted.
  method FindTag(tag: nat) returns (r: Option<KnownTag>)
    ensures r.Some? ==> IsKnown(r.value) && r.value.tag == tag
    ensures r.None? ==> forall k | IsKnown(k) :: k.tag != tag
  {
    var i := 0;
    while i < |KNOWN_TAGS|
      invariant 0 <= i <= |KNOWN_TAGS|
      invariant forall j | 0 <= j < i :: KNOWN_TAGS[j].tag < tag
    {
      if KNOWN_TAGS[i].tag >= tag {
        if KNOWN_TAGS[i].tag > tag {
          TableIsSorted();
          return None;
        }
        return Some(KNOWN_TAGS[i]);
      }
      i := i + 1;
    }
    r := None;
  }

  lemma TableIsSorted()
    ensures forall i, j | 0 <= i < j < |KNOWN_TAGS| :: KNOWN_TAGS[i].tag < KNOWN_TAGS[j].tag
  {
  }

  // A type is among the bytes of the packed word.
  predicate Allows(types: nat, typ: nat) {
    types != 0 && (types % 256 == typ || Allows(types / 256, typ))
  }

  // An integer is coded as 1 so that it is not mistaken for an empty byte.
  function TagTypeCode(typ: nat): nat {
    if typ == INTEGER_TYPE then INTEGER_TYPE + 1 else typ
  }

  // A tag is admitted before an element of the given type.
  ghost predicate AdmitsTag(ck: Checks, tag: nat, typ: nat) {
    && !ck.noTags
    && (forall k | IsKnown(k) && k.tag == tag ::
          ck.tagUse && k.types != 0 ==> Allows(k.types, TagTypeCode(typ)))
    && ((forall k | IsKnown(k) :: k.tag != tag) ==> AdmitsUnknownTag(ck, tag))
  }

  predicate AdmitsUnknownTag(ck: Checks, tag: nat) {
    && !(ck.noUnknownTagsSA && tag < 24)
    && !(ck.noUnknownTagsSA && ck.noUnknownTagsSR && tag < 256)
    && !(ck.noUnknownTagsSA && ck.noUnknownTagsSR && ck.noUnknownTags)
  }

  predicate IsListed(tag: nat) {
    tag in {0, 1, 2, 3, 4, 5, 16, 17, 18, 21, 22, 23, 24, 32, 33, 34, 35, 36, 96, 97, 98, 55799}
  }

  // The tags of the table, and what it has for each.
  lemma TableHas(k: KnownTag)
    requires IsKnown(k)
    ensures k.types ==
              if k.tag == 0 || 32 <= k.tag <= 36 then 0x60
              else if k.tag == 1 then 0x01
              else if k.tag in {2, 3, 24} then 0x40
              else if k.tag in {4, 5, 16, 17, 18, 96, 97, 98} then 0x80
              else if 21 <= k.tag <= 23 then 0xa08040
              else 0
  {
    var i :| 0 <= i < |KNOWN_TAGS| && KNOWN_TAGS[i] == k;
  }

  lemma TableTags(tag: nat)
    ensures (exists k :: IsKnown(k) && k.tag == tag) <==>
            IsListed(tag)
  {
    if IsListed(tag) {
      var i := if tag <= 5 then tag else if tag <= 18 then tag - 10 else if tag <= 24 then tag - 12
               else if tag <= 36 then tag - 19 else if tag <= 98 then tag - 78 else 21;
      assert KNOWN_TAGS[i].tag == tag;
      assert IsKnown(KNOWN_TAGS[i]);
    }
  }

  lemma AllowsOne(t: nat, typ: nat)
    requires 0 < t < 256
    ensures Allows(t, typ) <==> typ == t
  {
    assert !Allows(t / 256, typ);
  }

  lemma AllowsThree(typ: nat)
    ensures Allows(0xa08040, typ) <==> typ == 0x40 || typ == 0x80 || typ == 0xa0
  {
    AllowsOne(0xa0, typ);
    assert Allows(0xa080, typ) <==> typ == 0x80 || Allows(0xa0, typ);
  }

  // Which tags are admitted before which types; no element has the type 1.
  lemma TagIsAdmitted(ck: Checks, tag: nat, typ: nat)
    requires typ != 1
    ensures AdmitsTag(ck, tag, typ) <==>
              && !ck.noTags
              && (ck.tagUse ==>
                    && (tag == 0 || 32 <= tag <= 36 ==> typ == TEXT_STRING_TYPE)
                    && (tag == 1 ==> typ == INTEGER_TYPE)
                    && (tag in {2, 3, 24} ==> typ == BYTE_STRING_TYPE)
                    && (tag in {4, 5, 16, 17, 18, 96, 97, 98} ==> typ == ARRAY_TYPE)
                    && (21 <= tag <= 23 ==> typ == BYTE_STRING_TYPE || typ == ARRAY_TYPE || typ == MAP_TYPE))
              && (!IsListed(tag) ==>
                    && !(ck.noUnknownTagsSA && tag < 24)
                    && !(ck.noUnknownTagsSA && ck.noUnknownTagsSR && tag < 256)
                    && !(ck.noUnknownTagsSA && ck.noUnknownTagsSR && ck.noUnknownTags))
  {
    hide IsKnown, Allows;
    TableTags(tag);
    AllowsOne(0x60, TagTypeCode(typ));
    AllowsOne(0x40, TagTypeCode(typ));
    AllowsOne(0x80, TagTypeCode(typ));
    AllowsOne(1, TagTypeCode(typ));
    AllowsThree(TagTypeCode(typ));
    if k :| IsKnown(k) && k.tag == tag {
      TableHas(k);
      TagIsUnique(k);
      assert AdmitsTag(ck, tag, typ) <==>
             !ck.noTags && (ck.tagUse && k.types != 0 ==> Allows(k.types, TagTypeCode(typ)));
    }
  }

  method CheckTag(ck: Checks, tag: nat, typ: nat) returns (ok: bool)
    ensures ok <==> AdmitsTag(ck, tag, typ)
    ensures typ != 1 ==>
              (ok <==>
                && !ck.noTags
                && (ck.tagUse ==>
                      && (tag == 0 || 32 <= tag <= 36 ==> typ == TEXT_STRING_TYPE)
                      && (tag == 1 ==> typ == INTEGER_TYPE)
                      && (tag in {2, 3, 24} ==> typ == BYTE_STRING_TYPE)
                      && (tag in {4, 5, 16, 17, 18, 96, 97, 98} ==> typ == ARRAY_TYPE)
                      && (21 <= tag <= 23 ==> typ == BYTE_STRING_TYPE || typ == ARRAY_TYPE || typ == MAP_TYPE))
                && (!IsListed(tag) ==>
                      && !(ck.noUnknownTagsSA && tag < 24)
                      && !(ck.noUnknownTagsSA && ck.noUnknownTagsSR && tag < 256)
                      && !(ck.noUnknownTagsSA && ck.noUnknownTagsSR && ck.noUnknownTags)))
  {
    if typ != 1 {
      TagIsAdmitted(ck, tag, typ);
    }
    if ck.noTags {
      return false;
    }
    var known := FindTag(tag);
    if (ck.noUnknownTagsSA || ck.noUnknownTagsSR || ck.noUnknownTags) && known.None? {
      if ck.noUnknownTagsSA && tag < 24 {
        return false;
      }
      if ck.noUnknownTagsSA && ck.noUnknownTagsSR && tag < 256 {
        return false;
      }
      if ck.noUnknownTagsSA && ck.noUnknownTagsSR && ck.noUnknownTags {
        return false;
      }
    }
    if known.Some? {
      TagIsUnique(known.value);
    }
    if ck.tagUse && known.Some? && known.value.types != 0 {
      var code := TagTypeCode(typ);
      var allowedTypes := known.value.types;
      while allowedTypes != 0
        invariant Allows(known.value.types, code) == Allows(allowedTypes, code)
      {
        if allowedTypes % 256 == code {
          break;
        }
        allowedTypes := allowedTypes / 256;
      }
      return allowedTypes != 0;
    }
    ok := true;
  }

  lemma TagIsUnique(k: KnownTag)
    requires IsKnown(k)
    ensures forall l | IsKnown(l) && l.tag == k.tag :: l == k
  {
    TableIsSorted();
    SortedTagsDiffer(KNOWN_TAGS, k);
  }

  lemma SortedTagsDiffer(table: seq<KnownTag>, k: KnownTag)
    requires forall i, j | 0 <= i < j < |table| :: table[i].tag < table[j].tag
    requires k in table
    ensures forall l | l in table && l.tag == k.tag :: l == k
  {
  }

  // ----- Order of keys

  predicate LexLess(a: seq<byte>, b: seq<byte>) {
    b != [] && (a == [] || a[0] < b[0] || (a[0] == b[0] && LexLess(a[1..], b[1..])))
  }

  // The first difference decides, and a beginning is below the whole.
  lemma {:induction false} LexLessIs(a: seq<byte>, b: seq<byte>)
    ensures LexLess(a, b) <==> exists n: nat :: EqualBefore(a, b, n) && n < |b| && (n == |a| || a[n] < b[n])
  {
    if a == [] || b == [] || a[0] != b[0] {
      assert EqualBefore(a, b, 0);
      forall n: nat | n > 0
        ensures !EqualBefore(a, b, n)
      {
        if EqualBefore(a, b, n) {
          EqualFirst(a, b, n);
        }
      }
    } else {
      LexLessIs(a[1..], b[1..]);
      forall n: nat
        ensures EqualBefore(a, b, n + 1) <==> EqualBefore(a[1..], b[1..], n)
      {
        EqualLater(a, b, n);
      }
      assert !(a[0] < b[0]);
      if n: nat :| EqualBefore(a[1..], b[1..], n) && n < |b| - 1 && (n == |a| - 1 || a[1..][n] < b[1..][n]) {
        assert EqualBefore(a, b, n + 1);
      }
      if n: nat :| EqualBefore(a, b, n) && n < |b| && (n == |a| || a[n] < b[n]) {
        assert n > 0 && EqualBefore(a[1..], b[1..], n - 1);
      }
    }
  }

  // The two are equal before n.
  predicate EqualBefore(a: seq<byte>, b: seq<byte>, n: nat) {
    n <= |a| && n <= |b| && a[..n] == b[..n]
  }

  lemma EqualFirst(a: seq<byte>, b: seq<byte>, n: nat)
    requires EqualBefore(a, b, n) && n > 0
    ensures a != [] && b != [] && a[0] == b[0]
  {
    assert a[..n][0] == a[0] && b[..n][0] == b[0];
  }

  lemma EqualLater(a: seq<byte>, b: seq<byte>, n: nat)
    requires a != [] && b != [] && a[0] == b[0]
    ensures EqualBefore(a, b, n + 1) <==> EqualBefore(a[1..], b[1..], n)
  {
    if n + 1 <= |a| && n + 1 <= |b| {
      assert a[..n + 1] == [a[0]] + a[1..][..n] && b[..n + 1] == [b[0]] + b[1..][..n];
      assert a[..n + 1][1..] == a[1..][..n] && b[..n + 1][1..] == b[1..][..n];
    }
  }

  // memcmp on blocks of one length: the sign of the first difference.
  function CompareBlocks(a: seq<byte>, b: seq<byte>): int
    requires |a| == |b|
  {
    if a == [] then 0
    else if a[0] < b[0] then -1
    else if a[0] > b[0] then 1
    else CompareBlocks(a[1..], b[1..])
  }

  datatype Key = Key(arg: nat, bytes: seq<byte>)

  // Keys are ordered by the argument of their first head and then by their bytes.
  predicate KeyLess(k: Key, l: Key) {
    k.arg < l.arg || (k.arg == l.arg && LexLess(k.bytes, l.bytes))
  }

  function CompareKeys(k: Key, l: Key): int {
    if k.arg > l.arg then 1
    else if k.arg < l.arg then -1
    else
      var n := if |k.bytes| <= |l.bytes| then |k.bytes| else |l.bytes|;
      var r := CompareBlocks(k.bytes[..n], l.bytes[..n]);
      if r == 0 && |k.bytes| != |l.bytes| then (if |k.bytes| < |l.bytes| then -1 else 1) else r
  }

  lemma {:induction false} CompareIsLex(a: seq<byte>, b: seq<byte>)
    ensures var n := if |a| <= |b| then |a| else |b|;
            var r := CompareBlocks(a[..n], b[..n]);
            && (LexLess(a, b) <==> r < 0 || (r == 0 && |a| < |b|))
            && (a == b <==> r == 0 && |a| == |b|)
  {
    var n := if |a| <= |b| then |a| else |b|;
    if n > 0 {
      CompareIsLex(a[1..], b[1..]);
      assert a[..n][1..] == a[1..][..n - 1] && b[..n][1..] == b[1..][..n - 1];
      assert a == b <==> a[0] == b[0] && a[1..] == b[1..] by {
        assert a == [a[0]] + a[1..] && b == [b[0]] + b[1..];
      }
    }
  }

  // The neighbour test is exactly the strict order and equality.
  lemma CompareKeysIsOrder(k: Key, l: Key)
    ensures CompareKeys(k, l) < 0 <==> KeyLess(k, l)
    ensures CompareKeys(k, l) == 0 <==> k == l
  {
    CompareIsLex(k.bytes, l.bytes);
  }

  lemma {:induction false} LexTransitive(a: seq<byte>, b: seq<byte>, c: seq<byte>)
    requires LexLess(a, b) && LexLess(b, c)
    ensures LexLess(a, c)
  {
    if a != [] && a[0] == b[0] == c[0] {
      LexTransitive(a[1..], b[1..], c[1..]);
    }
  }

  lemma {:induction false} LexIrreflexive(a: seq<byte>)
    ensures !LexLess(a, a)
  {
    if a != [] {
      LexIrreflexive(a[1..]);
    }
  }

  lemma KeyLessIsStrictOrder(k: Key, l: Key, m: Key)
    ensures !KeyLess(k, k)
    ensures KeyLess(k, l) && KeyLess(l, m) ==> KeyLess(k, m)
  {
    LexIrreflexive(k.bytes);
    if KeyLess(k, l) && KeyLess(l, m) && k.arg == l.arg == m.arg {
      LexTransitive(k.bytes, l.bytes, m.bytes);
    }
  }

  // Neighbours in order are not rejected; equal ones only where keys may repeat.
  predicate InOrder(ck: Checks, previous: Option<Key>, k: Key) {
    ChecksOrder(ck) && previous.Some? ==>
      CompareKeys(previous.value, k) < 0 || (CompareKeys(previous.value, k) == 0 && !ChecksUnique(ck))
  }

  // ----- What is admitted

  function TypeOfItem(i: Item): nat {
    match i
    case Atom(major, w, arg) => TypeOf(Sized(major, w, arg))
    case Str(major, _, _) => 32 * major
    case Chunked(major, _) => 32 * major
    case Container(isMap, _, _) => if isMap then MAP_TYPE else ARRAY_TYPE
  }

  // The argument of an item's head.
  function HeadArg(i: Item): nat {
    match i
    case Atom(_, _, arg) => arg
    case Str(_, _, data) => |data|
    case Chunked(_, _) => 0
    case Container(isMap, _, elems) => Length(isMap, elems)
  }

  function LeadingTags(es: seq<Item>): (n: nat)
    ensures n <= |es|
    ensures forall j | 0 <= j < n :: IsTag(es[j])
    ensures n < |es| ==> !IsTag(es[n])
  {
    if es == [] || !IsTag(es[0]) then 0 else 1 + LeadingTags(es[1..])
  }

  function KeyOf(es: seq<Item>): Key
    requires es != [] && AllWellFormed(es)
  {
    Key(HeadArg(es[0]), Concat(es))
  }

  predicate AdmitsAtom(ck: Checks, i: Item)
    requires i.Atom?
  {
    var typ := TypeOfItem(i);
    && (typ == SIMPLE_TYPE ==> AdmitsSimple(ck, i.arg))
    && (typ == UNDEFINED_TYPE ==> !ck.noUndefined)
    && (typ == HALF_FLOAT_TYPE || typ == FLOAT_TYPE || typ == DOUBLE_TYPE ==> ck.floatOk(i.w, i.arg))
  }

  predicate AdmitsSimple(ck: Checks, n: nat) {
    if n < 32 then !ck.noUnknownSimpleSA else !(ck.noUnknownSimpleSA && ck.noUnknownSimple)
  }

  // The chunks whose heads start at p.
  predicate AdmitsChunks(ck: Checks, chunks: seq<Chunk>, p: nat) {
    chunks == [] ||
    (&& ck.chunkOk(p + 1 + chunks[0].w, |chunks[0].data|)
     && AdmitsChunks(ck, chunks[1..], p + 1 + chunks[0].w + |chunks[0].data|))
  }

  // A string's chunks; only text is tested.
  predicate AdmitsString(ck: Checks, i: Item, p: nat)
    requires IsString(i)
  {
    && (i.Chunked? ==> !ck.noIndeterminate)
    && (i.major == MAJOR_TEXT ==>
        if i.Str? then ck.chunkOk(p + 1 + i.w, |i.data|) else AdmitsChunks(ck, i.chunks, p + 1))
  }

  // The leading tags of es and the element they lead to, which stand at p, within a budget that
  // every tag and every container costs one of, and that must not be used up.
  ghost predicate AdmitsFirst(ck: Checks, es: seq<Item>, p: nat, budget: nat)
    decreases es, 2
  {
    && es != []
    && (if IsTag(es[0]) then
          && budget > 1 && |es| > 1 && AdmitsTag(ck, es[0].arg, TypeOfItem(es[1]))
          && AdmitsFirst(ck, es[1..], p + 1 + es[0].w, budget - 1)
        else AdmitsItem(ck, es[0], p, budget))
  }

  ghost predicate AdmitsItem(ck: Checks, i: Item, p: nat, budget: nat)
    decreases i, 0
  {
    match i
    case Atom(_, _, _) => AdmitsAtom(ck, i)
    case Container(isMap, width, elems) =>
      && (width.None? ==> !ck.noIndeterminate) && budget > 1
      && AdmitsElements(ck, isMap, elems, Inside(width, p), budget - 1)
    case _ => AdmitsString(ck, i, p)
  }

  // Where the elements of a container at p start.
  function Inside(width: Option<nat>, p: nat): nat {
    p + 1 + if width.Some? then width.value else 0
  }

  // A value to be admitted begins this run.
  ghost predicate Begins(ck: Checks, es: seq<Item>, p: nat, budget: nat)
    decreases es, 3
  {
    AdmitsFirst(ck, es, p, budget) && LeadingTags(es) < |es|
  }

  // The elements after the first value, and where they stand.
  function AfterFirstValue(es: seq<Item>): seq<Item>
    requires LeadingTags(es) < |es|
  {
    es[LeadingTags(es) + 1..]
  }

  function AfterFirstAt(es: seq<Item>, p: nat): nat
    requires LeadingTags(es) < |es|
  {
    p + RunSize(FirstValue(es))
  }

  function FirstValue(es: seq<Item>): seq<Item>
    requires LeadingTags(es) < |es|
  {
    es[..LeadingTags(es) + 1]
  }

  predicate StartsWithText(es: seq<Item>) {
    FirstUntagged(es).Some? && IsTextItem(FirstUntagged(es).value)
  }

  ghost predicate AdmitsElements(ck: Checks, isMap: bool, es: seq<Item>, p: nat, budget: nat)
    decreases es, 5
  {
    if isMap then AdmitsPairs(ck, es, p, budget, None) else AdmitsArray(ck, es, p, budget)
  }

  ghost predicate AdmitsArray(ck: Checks, es: seq<Item>, p: nat, budget: nat)
    decreases es, 4
  {
    es == [] || (Begins(ck, es, p, budget) && AdmitsArray(ck, AfterFirstValue(es), AfterFirstAt(es, p), budget))
  }

  // The pairs of a map, after a pair with the given key.
  ghost predicate AdmitsPairs(ck: Checks, es: seq<Item>, p: nat, budget: nat, previous: Option<Key>)
    decreases es, 4
  {
    es == [] ||
    (&& Begins(ck, es, p, budget)
     && (ck.keysAreStrings ==> StartsWithText(es))
     && AllWellFormed(FirstValue(es)) && InOrder(ck, previous, KeyOf(FirstValue(es)))
     && AdmitsMapped(ck, AfterFirstValue(es), AfterFirstAt(es, p), budget, KeyOf(FirstValue(es))))
  }

  // The value of a key, and the pairs after it.
  ghost predicate AdmitsMapped(ck: Checks, es: seq<Item>, p: nat, budget: nat, key: Key)
    decreases es, 4
  {
    && Begins(ck, es, p, budget)
    && AdmitsPairs(ck, AfterFirstValue(es), AfterFirstAt(es, p), budget, Some(key))
  }
}
