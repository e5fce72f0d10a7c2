/**
 Text comparison and the key search in maps, over any encoding of keys and values: tagged,
 chunked or containers, in counted maps and in maps that end with a break.
 */
module CborSearch {
  import opened Options
  import opened CborHeads
  import opened CborSyntax
  import opened CborValues

  // Keys are the elements that are no tags and have an even number of such elements before them.
  predicate IsKey(es: seq<Item>, j: nat) {
    j < |es| && !IsTag(es[j]) && Untagged(es[..j]) % 2 == 0
  }

  predicate Matches(i: Item, text: seq<byte>) {
    IsTextItem(i) && Content(i) == text
  }

  ghost predicate NoKeyMatches(es: seq<Item>, text: seq<byte>) {
    forall j | 0 <= j < |es| && IsKey(es, j) :: !Matches(es[j], text)
  }

  // Every key has a value, and no tag is left without the element it tags.
  predicate IsPaired(es: seq<Item>) {
    Untagged(es) % 2 == 0 && (es != [] ==> !IsTag(es[|es| - 1]))
  }

  lemma NoKeyMatchesSnoc(es: seq<Item>, i: Item, text: seq<byte>)
    requires NoKeyMatches(es, text)
    requires IsTag(i) || Untagged(es) % 2 == 1 || !Matches(i, text)
    ensures NoKeyMatches(es + [i], text)
  {
    hide Matches;
    forall j | 0 <= j < |es + [i]| && IsKey(es + [i], j)
      ensures !Matches((es + [i])[j], text)
    {
      assert (es + [i])[..j] == es[..j];
      if j < |es| {
        assert IsKey(es, j);
      } else {
        assert es[..j] == es;
      }
    }
  }

  lemma {:induction false} NoKeyMatchesTags(es: seq<Item>, tags: seq<Item>, text: seq<byte>)
    requires NoKeyMatches(es, text) && forall t | t in tags :: IsTag(t)
    ensures NoKeyMatches(es + tags, text) && Untagged(es + tags) == Untagged(es)
  {
    if tags == [] {
      assert es + tags == es;
    } else {
      var init, last := tags[..|tags| - 1], tags[|tags| - 1];
      NoKeyMatchesTags(es, init, text);
      NoKeyMatchesSnoc(es + init, last, text);
      UntaggedConcat(es + init, [last]);
      assert es + tags == es + init + [last];
    }
  }

  // The element that the leading tags of a run belong to.
  function FirstUntagged(es: seq<Item>): Option<Item> {
    if es == [] then None else if IsTag(es[0]) then FirstUntagged(es[1..]) else Some(es[0])
  }

  lemma {:induction false} FirstUntaggedAfterTags(tags: seq<Item>, es: seq<Item>)
    requires forall t | t in tags :: IsTag(t)
    ensures FirstUntagged(tags + es) == FirstUntagged(es)
  {
    if tags == [] {
      assert tags + es == es;
    } else {
      assert (tags + es)[1..] == tags[1..] + es;
      FirstUntaggedAfterTags(tags[1..], es);
    }
  }

  // The element behind the tags at p, and the position after it.
  function ValueAt(s: seq<byte>, p: nat): Option<(Item, nat)>
    requires p <= |s|
  {
    match ParseRun(s, p, Exactly(1))
    case Fail => None
    case Ok(es, q) => if es == [] then None else Some((es[|es| - 1], q))
  }

  // With the tags skipped, the value is the element the iterator has come to, if it has.
  lemma ValueBehindTags(it: CborValue, p: nat, c: Count, tags: seq<Item>)
    requires p <= |it.data| && it.HasPassed(p, c, tags) && it.typ != TAG_TYPE
    requires c != Exactly(0) && (forall t | t in tags :: IsTag(t)) && (it.remaining == 0 ==> c.UntilBreak?)
    ensures it.remaining == 0 ==> ValueAt(it.data, p).None?
    ensures it.remaining > 0 ==>
              var i := it.Here();
              && CountOf(it.remaining) == c
              && ValueAt(it.data, p) == if i.Ok? then Some((i.val, i.next)) else None
  {
    hide HeadAt, ParseItem, Walks, ParseRun;
    if it.remaining > 0 {
      TagsWalk(it.data, p, c, tags, it.ptr, CountOf(it.remaining));
      WalkContinues(it.data, p, Exactly(1), tags, it.ptr, Exactly(1));
      ValueStep(it.data, it.ptr);
      FirstOfRun(it);
    } else {
      TagsWalk(it.data, p, c, tags, it.ptr - 1, c);
      WalkContinues(it.data, p, Exactly(1), tags, it.ptr - 1, Exactly(1));
      BreakIsNoValue(it.data, it.ptr - 1);
    }
  }

  // Compares the tagged or untagged string at value; anything else is unequal. Only the value
  // and what follows it count, not the rest of the container.
  method TextStringEquals(value: CborValue, text: seq<byte>) returns (err: CborError, result: bool)
    requires value.Resting() && 0 !in text
    ensures value.remaining == 0 ==> err == NoError && !result
    ensures value.remaining > 0 ==>
              var v, c := ValueAt(value.data, value.ptr), CountOf(value.remaining);
              && (err == NoError && result <==>
                    && v.Some? && IsTextItem(v.value.0) && Content(v.value.0) == text
                    && Reachable(value.data, v.value.1, AfterValue(c)))
              && (v.Some? && !IsTextItem(v.value.0) ==> err == NoError)
              && (v.Some? && IsTextItem(v.value.0) ==>
                    (err == NoError <==> Reachable(value.data, v.value.1, AfterValue(c))))
    ensures value.Run().Ok? ==>
              var first := FirstUntagged(value.Run().val);
              err == NoError && result == (first.Some? && Matches(first.value, text))
  {
    hide HeadAt, StringRest, Reachable, Content, ParseItem, ParseRun, Walks, RunContinues, ValueAt;
    var copy := new CborValue.Copy(value);
    ghost var tags;
    err, tags := copy.SkipTag();
    if err != NoError {
      NoValueAt(value.data, value.ptr);
      return err, false;
    }
    FirstOfRun(copy);
    TagsThenRun(value.Run(), tags, copy.Run());
    if value.remaining > 0 {
      ValueBehindTags(copy, value.ptr, CountOf(value.remaining), tags);
    }
    if copy.typ != TEXT_STRING_TYPE {
      return NoError, false;
    }
    StringRestIsItem(copy.data, copy.ptr);
    if copy.Run().Ok? {
      AfterFirst(copy);
    }
    var total;
    err, result, total := copy.IterateStringChunks(|text|, Memcmp(text));
  }

  lemma NoValueAt(s: seq<byte>, p: nat)
    requires p <= |s| && ParseRun(s, p, Exactly(1)).Fail?
    ensures ValueAt(s, p).None?
  {
  }

  lemma TagsThenRun(whole: Parsed<seq<Item>>, tags: seq<Item>, rest: Parsed<seq<Item>>)
    requires RunContinues(whole, tags, rest) && forall t | t in tags :: IsTag(t)
    ensures whole.Ok? <==> rest.Ok?
    ensures whole.Ok? ==> FirstUntagged(whole.val) == FirstUntagged(rest.val)
  {
    if whole.Ok? {
      FirstUntaggedAfterTags(tags, rest.val);
    }
  }

  // When a run is well formed, what follows its first element is reachable.
  lemma AfterFirst(it: CborValue)
    requires it.Positioned() && it.Run().Ok?
    ensures it.Passable(it.Here(), CountOf(it.remaining))
  {
    hide HeadAt, ParseItem, ParseRun, Reachable;
    FirstOfRun(it);
    var i := it.Here();
    if i.Ok? {
      RunIsReachable(it.data, i.next, After(CountOf(it.remaining), i.val));
    }
  }

  lemma RunIsReachable(s: seq<byte>, p: nat, c: Count)
    requires p <= |s|
    ensures ParseRun(s, p, c).Ok? ==> Reachable(s, p, c)
  {
    hide ParseRun, Reachable;
    if !Reachable(s, p, c) {
      UnreachableRun(s, p, c);
    }
  }

  // The element an iterator stands at is the first of its run.
  lemma FirstOfRun(it: CborValue)
    requires it.Resting()
    ensures it.remaining == 0 ==> it.Run() == Ok([], it.ptr)
    ensures it.remaining > 0 ==>
              var i := it.Here();
              && (i.Fail? ==> it.Run().Fail?)
              && (i.Ok? ==>
                    it.Run() == Prepend([i.val], ParseRun(it.data, i.next, After(CountOf(it.remaining), i.val))))
              && (i.Ok? ==> IsTag(i.val) == (it.typ == TAG_TYPE) && IsTextItem(i.val) == (it.typ == TEXT_STRING_TYPE))
  {
    hide HeadAt;
  }

  lemma RunContinuesTrans(whole: Parsed<seq<Item>>, a: seq<Item>, mid: Parsed<seq<Item>>, b: seq<Item>,
                          rest: Parsed<seq<Item>>)
    requires RunContinues(whole, a, mid) && RunContinues(mid, b, rest)
    ensures RunContinues(whole, a + b, rest)
  {
    if whole.Ok? {
      assert a + (b + rest.val) == a + b + rest.val;
    }
  }

  // The search has passed whole pairs, and none of their keys matches.
  ghost predicate Searched(done: seq<Item>, text: seq<byte>) {
    IsPaired(done) && NoKeyMatches(done, text) && DepthAll(done) <= MAX_RECURSIONS
  }

  // The elements of a map are malformed or nested too deeply.
  predicate Unpassable(whole: Parsed<seq<Item>>) {
    whole.Fail? || DepthAll(whole.val) > MAX_RECURSIONS
  }

  // The element at q cannot be passed.
  ghost predicate Blocked(s: seq<byte>, q: nat, d: Count) {
    var i := ParseItem(s, q);
    && d != Exactly(0)
    && (i.Fail? || Depth(i.val) > MAX_RECURSIONS || !Reachable(s, i.next, After(d, i.val)))
  }

  // Past one element, keeping account of what has been passed in the map whose elements start at p.
  method AdvanceIn(element: CborValue, ghost p: nat, ghost c: Count, ghost done: seq<Item>)
    returns (err: CborError, ghost i: Item)
    requires p <= |element.data| && element.HasPassed(p, c, done)
    requires element.Positioned() && element.typ != TAG_TYPE
    modifies element
    ensures err == NoError ==>
              && element.HasPassed(p, c, done + [i]) && element.ptr > old(element.ptr)
              && !IsTag(i) && Depth(i) <= MAX_RECURSIONS
              && IsTextItem(i) == (old(element.typ) == TEXT_STRING_TYPE)
    ensures err != NoError ==>
              && Unpassable(ParseRun(element.data, p, c))
              && Blocked(element.data, old(element.ptr), CountOf(old(element.remaining)))
  {
    hide HeadAt, Reachable, ParseItem, ParseRun, RunContinues, Walks, DepthAll, Depth;
    i := Atom(0, 0, 0);
    FirstOfRun(element);
    ghost var here, q, d := element.Here(), element.ptr, CountOf(element.remaining);
    element.PassedRun(p, c, done);
    RunStep(element.data, q, d, ParseRun(element.data, p, c), done);
    if here.Ok? {
      ElementTooDeep(ParseRun(element.data, p, c), done, here.val,
                     ParseRun(element.data, here.next, After(d, here.val)));
      RunIsReachable(element.data, here.next, After(d, here.val));
      RunFails(ParseRun(element.data, p, c), done + [here.val], ParseRun(element.data, here.next, After(d, here.val)));
    }
    err := element.Advance();
    if err == NoError {
      i := here.val;
      element.PassesOne(p, c, done, q, d);
    }
  }

  lemma RunFails(whole: Parsed<seq<Item>>, done: seq<Item>, rest: Parsed<seq<Item>>)
    requires RunContinues(whole, done, rest)
    ensures whole.Fail? <==> rest.Fail?
  {
  }

  // Compares the text key at the element and moves past it.
  method CompareIn(element: CborValue, text: seq<byte>, ghost p: nat, ghost c: Count, ghost done: seq<Item>)
    returns (err: CborError, equals: bool, ghost i: Item)
    requires p <= |element.data| && element.HasPassed(p, c, done)
    requires element.Positioned() && element.typ == TEXT_STRING_TYPE && 0 !in text
    modifies element
    ensures err == NoError ==>
              && element.HasPassed(p, c, done + [i]) && element.ptr > old(element.ptr)
              && !IsTag(i) && Depth(i) == 0 && equals == Matches(i, text)
    ensures err != NoError ==>
              && Unpassable(ParseRun(element.data, p, c))
              && Blocked(element.data, old(element.ptr), CountOf(old(element.remaining)))
  {
    hide HeadAt, Reachable, ParseItem, ParseRun, RunContinues, StringRest, Content, Walks, DepthAll;
    i := Atom(0, 0, 0);
    FirstOfRun(element);
    ghost var here, q, d := element.Here(), element.ptr, CountOf(element.remaining);
    element.PassedRun(p, c, done);
    RunStep(element.data, q, d, ParseRun(element.data, p, c), done);
    if here.Ok? {
      RunIsReachable(element.data, here.next, After(d, here.val));
      RunFails(ParseRun(element.data, p, c), done + [here.val], ParseRun(element.data, here.next, After(d, here.val)));
    }
    StringRestIsItem(element.data, element.ptr);
    var total;
    err, equals, total := element.IterateStringChunks(|text|, Memcmp(text));
    if err == NoError {
      i := here.val;
      element.PassesOne(p, c, done, q, d);
    }
  }

  // A key and the position after it.
  ghost predicate FoundKey(done: seq<Item>, text: seq<byte>) {
    && done != [] && IsKey(done, |done| - 1) && Matches(done[|done| - 1], text)
    && NoKeyMatches(done[..|done| - 1], text)
  }

  lemma KeyPassed(done: seq<Item>, tags: seq<Item>, key: Item, text: seq<byte>)
    requires Searched(done, text) && (forall t | t in tags :: IsTag(t)) && !IsTag(key) && Depth(key) <= MAX_RECURSIONS
    ensures var all := done + tags + [key];
            && Untagged(all) % 2 == 1 && DepthAll(all) <= MAX_RECURSIONS
            && (if Matches(key, text) then FoundKey(all, text) else NoKeyMatches(all, text))
  {
    hide Matches, Depth;
    NoKeyMatchesTags(done, tags, text);
    var all := done + tags + [key];
    DepthOfTagged(done, tags, key);
    UntaggedConcat(done + tags, [key]);
    assert Untagged([key]) == 1;
    assert all[..|all| - 1] == done + tags;
    if !Matches(key, text) {
      NoKeyMatchesSnoc(done + tags, key, text);
    }
  }

  lemma {:induction false} DepthOfTags(tags: seq<Item>)
    requires forall t | t in tags :: IsTag(t)
    ensures DepthAll(tags) == 0
  {
    if tags != [] {
      assert IsTag(tags[0]);
      DepthOfTags(tags[1..]);
    }
  }

  lemma DepthOfTagged(done: seq<Item>, tags: seq<Item>, i: Item)
    requires forall t | t in tags :: IsTag(t)
    ensures DepthAll(done + tags) == DepthAll(done)
    ensures DepthAll(done + tags + [i]) == Max(DepthAll(done), Depth(i))
  {
    hide Depth;
    DepthOfTags(tags);
    DepthConcat(done, tags);
    DepthConcat(done + tags, [i]);
    assert [i][1..] == [];
  }

  lemma ValuePassed(done: seq<Item>, tags: seq<Item>, value: Item, text: seq<byte>)
    requires Untagged(done) % 2 == 1 && NoKeyMatches(done, text) && DepthAll(done) <= MAX_RECURSIONS
    requires (forall t | t in tags :: IsTag(t)) && !IsTag(value) && Depth(value) <= MAX_RECURSIONS
    ensures Searched(done + tags + [value], text)
  {
    hide Depth, DepthAll, Matches, NoKeyMatches;
    NoKeyMatchesTags(done, tags, text);
    DepthOfTagged(done, tags, value);
    UntaggedConcat(done + tags, [value]);
    assert Untagged([value]) == 1;
    hide Untagged;
    NoKeyMatchesSnoc(done + tags, value, text);
    var all := done + tags + [value];
    assert all[|all| - 1] == value;
  }

  // Elements that can be passed lead to a key that matches, the first one, and to something behind it.
  ghost predicate LeadsToKey(s: seq<byte>, p: nat, c: Count, es: seq<Item>, q: nat, d: Count, text: seq<byte>) {
    && Walks(s, p, c, es, q, d) && FoundKey(es, text) && DepthAll(es) <= MAX_RECURSIONS
    && d != Exactly(0) && HeadAt(s, q).Some?
  }

  // The key can be found in the map whose elements start at p, whatever comes after it.
  ghost predicate Findable(s: seq<byte>, p: nat, c: Count, text: seq<byte>) {
    exists es, q, d :: LeadsToKey(s, p, c, es, q, d, text)
  }

  // Two walks from one place go the same way.
  lemma {:induction false} WalksAgree(s: seq<byte>, p: nat, c: Count, es: seq<Item>, q: nat, d: Count,
                                      fs: seq<Item>, r: nat, e: Count)
    requires Walks(s, p, c, es, q, d) && Walks(s, p, c, fs, r, e) && |es| <= |fs|
    ensures es <= fs && Walks(s, q, d, fs[|es|..], r, e)
    decreases |es|
  {
    hide ParseItem;
    if es == [] {
      assert fs[0..] == fs;
    } else {
      WalksAgree(s, ParseItem(s, p).next, After(c, es[0]), es[1..], q, d, fs[1..], r, e);
      assert es == [es[0]] + es[1..] && fs == [fs[0]] + fs[1..];
      assert fs[1..][|es| - 1..] == fs[|es|..];
    }
  }

  // A walk to a key goes beyond what has been passed without a match.
  lemma LeadsBeyond(s: seq<byte>, p: nat, c: Count, done: seq<Item>, q: nat, d: Count, es: seq<Item>, r: nat, e: Count,
                    text: seq<byte>)
    requires Walks(s, p, c, done, q, d) && NoKeyMatches(done, text) && LeadsToKey(s, p, c, es, r, e, text)
    ensures |es| > |done| && done <= es && Walks(s, q, d, es[|done|..], r, e)
  {
    hide ParseItem, HeadAt, FoundKey, NoKeyMatches;
    if |es| <= |done| {
      WalksAgree(s, p, c, es, r, e, done, q, d);
      FoundIsFirst(es, done, text);
    }
    WalksAgree(s, p, c, done, q, d, es, r, e);
  }

  // Where the next element cannot be passed, no key can be found any more ...
  lemma Stuck(s: seq<byte>, p: nat, c: Count, done: seq<Item>, q: nat, d: Count, text: seq<byte>)
    requires Walks(s, p, c, done, q, d) && NoKeyMatches(done, text) && Blocked(s, q, d)
    ensures !Findable(s, p, c, text)
  {
    hide ParseItem, HeadAt, FoundKey, NoKeyMatches, Depth, DepthAll;
    forall es, r, e | LeadsToKey(s, p, c, es, r, e, text)
      ensures false
    {
      LeadsBeyond(s, p, c, done, q, d, es, r, e, text);
      var more := es[|done|..];
      DepthInside(done, more);
      assert es == done + more;
      if more[1..] != [] {
        NoBreak(s, ParseItem(s, q).next);
      }
    }
  }

  lemma DepthInside(done: seq<Item>, more: seq<Item>)
    requires more != []
    ensures Depth(more[0]) <= DepthAll(done + more)
  {
    hide Depth;
    DepthConcat(done, more);
  }

  // ... nor where the next value cannot be read.
  lemma StuckBeforeValue(s: seq<byte>, p: nat, c: Count, done: seq<Item>, q: nat, d: Count, text: seq<byte>)
    requires q <= |s| && Walks(s, p, c, done, q, d) && NoKeyMatches(done, text) && ParseRun(s, q, Exactly(1)).Fail?
    ensures !Findable(s, p, c, text)
  {
    hide ParseItem, HeadAt, ParseRun, NoKeyMatches, DepthAll, Matches;
    forall es, r, e | LeadsToKey(s, p, c, es, r, e, text)
      ensures false
    {
      LeadsBeyond(s, p, c, done, q, d, es, r, e, text);
      WalksOverValue(s, q, d, es[|done|..], r, e);
    }
  }

  lemma {:induction false} WalksOverValue(s: seq<byte>, p: nat, c: Count, es: seq<Item>, q: nat, d: Count)
    requires p <= |s| && Walks(s, p, c, es, q, d) && es != [] && !IsTag(es[|es| - 1])
    ensures ParseRun(s, p, Exactly(1)).Ok?
    decreases |es|
  {
    hide ParseItem, HeadAt;
    NoBreak(s, p);
    ValueStep(s, p);
    if IsTag(es[0]) {
      WalksOverValue(s, ParseItem(s, p).next, After(c, es[0]), es[1..], q, d);
    }
  }

  // In a well-formed map the first match is found unless it is the last element.
  lemma FindableIn(s: seq<byte>, p: nat, c: Count, text: seq<byte>)
    requires p <= |s| && ParseRun(s, p, c).Ok?
    requires NoKeyMatches(ParseRun(s, p, c).val, text) || FoundKey(ParseRun(s, p, c).val, text)
    ensures !Findable(s, p, c, text)
  {
    hide ParseItem, HeadAt, FoundKey, NoKeyMatches, DepthAll, Walks;
    var all := ParseRun(s, p, c).val;
    forall es, r, e | LeadsToKey(s, p, c, es, r, e, text)
      ensures false
    {
      WalkContinues(s, p, c, es, r, e);
      FoundIsFirst(es, all, text);
      NothingLeft(s, r, e);
    }
  }

  lemma NothingLeft(s: seq<byte>, p: nat, c: Count)
    requires p <= |s| && c != Exactly(0) && HeadAt(s, p).Some?
    ensures ParseRun(s, p, c).Ok? ==> ParseRun(s, p, c).val != []
  {
    hide ParseItem;
  }

  // All elements are passed and the map has ended where a key or a value was due.
  ghost predicate EndsInside(whole: Parsed<seq<Item>>, text: seq<byte>) {
    && whole.Ok? && !IsPaired(whole.val)
    && NoKeyMatches(whole.val, text) && DepthAll(whole.val) <= MAX_RECURSIONS
  }

  // Behind these tags the map has ended.
  lemma TagsEndInside(whole: Parsed<seq<Item>>, done: seq<Item>, tags: seq<Item>, q: nat, text: seq<byte>)
    requires whole == Ok(done + tags, q)
    requires NoKeyMatches(done, text) && DepthAll(done) <= MAX_RECURSIONS && forall t | t in tags :: IsTag(t)
    requires tags != [] || Untagged(done) % 2 == 1
    ensures EndsInside(whole, text)
  {
    hide Matches, NoKeyMatches, DepthAll, Untagged;
    NoKeyMatchesTags(done, tags, text);
    DepthOfTagged(done, tags, Atom(0, 0, 0));
    if tags != [] {
      assert whole.val[|whole.val| - 1] == tags[|tags| - 1];
    } else {
      assert done + tags == done;
    }
  }

  // Tags passed behind what was passed.
  lemma PassedTags(it: CborValue, p: nat, c: Count, done: seq<Item>, q: nat, d: Count, tags: seq<Item>)
    requires p <= |it.data| && Walks(it.data, p, c, done, q, d) && d != Exactly(0)
    requires it.HasPassed(q, d, tags)
    ensures it.HasPassed(p, c, done + tags)
  {
    hide HeadAt, ParseItem;
    WalkContinues(it.data, p, c, done, q, d);
    if it.remaining > 0 {
      WalksFurther(it.data, p, c, done, q, d, tags, it.ptr, CountOf(it.remaining));
    } else if c.UntilBreak? {
      WalksFurther(it.data, p, c, done, q, d, tags, it.ptr - 1, c);
    } else {
      WalksFurther(it.data, p, c, done, q, d, tags, it.ptr, Exactly(0));
    }
  }

  // One turn of the search loop. The ghost result is what has been passed after it. The turn is
  // aborted where the library asserts that an iterator at the end is not advanced.
  method TryPair(element: CborValue, text: seq<byte>, ghost p: nat, ghost c: Count, ghost done: seq<Item>)
    returns (aborted: bool, err: CborError, found: bool, ghost after: seq<Item>)
    requires p <= |element.data| && element.HasPassed(p, c, done) && element.Positioned()
    requires 0 !in text && Searched(done, text)
    modifies element
    ensures !aborted && err == NoError ==>
              && element.HasPassed(p, c, after) && element.ptr > old(element.ptr)
              && DepthAll(after) <= MAX_RECURSIONS
              && (if found then FoundKey(after, text) && Untagged(after) % 2 == 1 else Searched(after, text))
    ensures !aborted && err != NoError ==>
              Unpassable(ParseRun(element.data, p, c)) && !Findable(element.data, p, c, text)
    ensures aborted ==> EndsInside(ParseRun(element.data, p, c), text)
  {
    hide HeadAt, Reachable, ParseItem, ParseRun, Content, Untagged, FoundKey, NoKeyMatches, Matches, Walks, DepthAll,
         RunContinues;
    aborted, found, after := false, false, done;
    ghost var tags, i;
    ghost var q, d := element.ptr, CountOf(element.remaining);
    err, tags := SkipTagsIn(element, p, c, done);
    if err != NoError {
      StuckBeforeValue(element.data, p, c, done, q, d, text);
      return;
    }
    NoKeyMatchesTags(done, tags, text);
    q, d := element.ptr, CountOf(element.remaining);
    if element.typ == TEXT_STRING_TYPE {
      err, found, i := CompareIn(element, text, p, c, done + tags);
    } else {
      if element.typ == INVALID_TYPE {
        element.PassedRun(p, c, done + tags);
        TagsEndInside(ParseRun(element.data, p, c), done, tags, element.ptr, text);
        aborted := true;
        return;
      }
      err, i := AdvanceIn(element, p, c, done + tags);
      if err == NoError {
        NotText(i, text);
      }
    }
    if err != NoError {
      Stuck(element.data, p, c, done + tags, q, d, text);
      return;
    }
    KeyPassed(done, tags, i, text);
    after := done + tags + [i];
    if found {
      return;
    }
    q, d := element.ptr, CountOf(element.remaining);
    err, tags := SkipTagsIn(element, p, c, after);
    if err != NoError {
      StuckBeforeValue(element.data, p, c, after, q, d, text);
      return;
    }
    NoKeyMatchesTags(after, tags, text);
    q, d := element.ptr, CountOf(element.remaining);
    if element.typ == INVALID_TYPE {
      element.PassedRun(p, c, after + tags);
      TagsEndInside(ParseRun(element.data, p, c), after, tags, element.ptr, text);
      aborted := true;
      return;
    }
    err, i := AdvanceIn(element, p, c, after + tags);
    if err != NoError {
      Stuck(element.data, p, c, after + tags, q, d, text);
      return;
    }
    ValuePassed(after, tags, i, text);
    after := after + tags + [i];
  }

  // Skips tags, keeping account of them.
  method SkipTagsIn(element: CborValue, ghost p: nat, ghost c: Count, ghost done: seq<Item>)
    returns (err: CborError, ghost tags: seq<Item>)
    requires p <= |element.data| && element.HasPassed(p, c, done)
    modifies element
    ensures forall t | t in tags :: IsTag(t)
    ensures err == NoError ==>
              && element.HasPassed(p, c, done + tags) && element.ptr >= old(element.ptr) && element.typ != TAG_TYPE
              && (element.remaining == 0 <==> element.typ == INVALID_TYPE)
              && (element.remaining == 0 && old(element.remaining) > 0 ==> tags != [])
              && (element.remaining > 0 ==> element.Positioned())
    ensures err != NoError ==>
              && Unpassable(ParseRun(element.data, p, c))
              && old(element.remaining) > 0 && ParseRun(element.data, old(element.ptr), Exactly(1)).Fail?
  {
    hide HeadAt, Reachable, ParseItem, ParseRun, Walks, RunContinues;
    ghost var q, d := element.ptr, CountOf(element.remaining);
    element.PassedRun(p, c, done);
    ghost var run := element.Run();
    if element.remaining == 0 {
      err, tags := element.SkipTag();
      assert done + [] == done;
      return;
    }
    err, tags := element.SkipTag();
    if err != NoError {
      RunFails(ParseRun(element.data, p, c), done, run);
      return;
    }
    PassedTags(element, p, c, done, q, d, tags);
    if element.remaining == 0 {
      EndBehindTags(element, q, d, tags);
    }
  }

  lemma EndBehindTags(it: CborValue, q: nat, d: Count, tags: seq<Item>)
    requires it.HasPassed(q, d, tags) && it.remaining == 0 && d != Exactly(0) && HeadAt(it.data, q).Some?
    ensures tags != []
  {
  }

  lemma NotText(i: Item, text: seq<byte>)
    requires !IsTextItem(i)
    ensures !Matches(i, text)
  {
  }

  // The matching key is the last element before the break, so that the value is due behind the map.
  ghost predicate Overruns(r: Parsed<Item>, text: seq<byte>) {
    && r.Ok? && r.val.Container?
    && FoundKey(r.val.elems, text) && DepthAll(r.val.elems) <= MAX_RECURSIONS
  }

  // No key matches, and the map ends where a key behind tags or a value is due.
  ghost predicate Trips(r: Parsed<Item>, text: seq<byte>) {
    && r.Ok? && r.val.Container?
    && !IsPaired(r.val.elems) && NoKeyMatches(r.val.elems, text) && DepthAll(r.val.elems) <= MAX_RECURSIONS
  }

  // The first matching key, if it has been passed, is the only one that can be found.
  lemma FoundIsFirst(done: seq<Item>, es: seq<Item>, text: seq<byte>)
    requires FoundKey(done, text) && done <= es
    ensures !NoKeyMatches(es, text)
    ensures FoundKey(es, text) ==> done == es
  {
    hide Matches;
    var j := |done| - 1;
    assert done[..j] == es[..j] && done[j] == es[j];
    assert IsKey(es, j);
    if |done| < |es| {
      var front := es[..|es| - 1];
      assert front[..j] == es[..j] && IsKey(front, j) && Matches(front[j], text);
    }
  }

  // An odd number of elements leaves a key without a value.
  lemma FoundIsUnpaired(done: seq<Item>, text: seq<byte>)
    requires FoundKey(done, text)
    ensures !IsPaired(done) && !NoKeyMatches(done, text)
  {
    hide Matches;
    var j := |done| - 1;
    UntaggedConcat(done[..j], [done[j]]);
    assert done == done[..j] + [done[j]] && Untagged([done[j]]) == 1;
    FoundIsFirst(done, done, text);
  }

  /**
   cbor_value_map_find_value. The result aborted stands for the library's assertion that an
   iterator at the end is not advanced: it fails exactly when no key matches and the map ends
   inside a pair or behind a tag. The ghost result is what has been passed of the map.

   After a match the source reads ahead once more without looking whether the map has ended, so
   a key that matches right before the break finds whatever stands behind the map.
   */
  method MapFindValue(container: CborValue, text: seq<byte>)
    returns (aborted: bool, err: CborError, element: CborValue, ghost passed: seq<Item>)
    requires container.Positioned() && container.typ == MAP_TYPE && 0 !in text
    ensures fresh(element) && element.data == container.data
    ensures aborted <==> Trips(container.Here(), text)
    ensures Overruns(container.Here(), text) ==>
              && element.ptr == container.Here().next && element.remaining == 0
              && ReadAhead(element, err)
    ensures !aborted && !Overruns(container.Here(), text) ==>
              match err
              case NoError =>
                if element.typ == INVALID_TYPE then
                  var r := container.Here();
                  r.Ok? && IsPaired(r.val.elems) && NoKeyMatches(r.val.elems, text)
                else
                  && element.Positioned() && Opening(container.data, container.ptr).Some?
                  && var (p, c) := Opening(container.data, container.ptr).value;
                     LeadsToKey(container.data, p, c, passed, element.ptr, CountOf(element.remaining), text)
              case _ =>
                && element.typ == INVALID_TYPE
                && (container.Here().Ok? ==> DepthAll(container.Here().val.elems) > MAX_RECURSIONS)
    ensures var r := container.Here();
            r.Ok? && IsPaired(r.val.elems) && DepthAll(r.val.elems) <= MAX_RECURSIONS ==>
              var es := r.val.elems;
              && !aborted && err == NoError
              && (element.typ == INVALID_TYPE <==> NoKeyMatches(es, text))
              && (element.typ != INVALID_TYPE ==>
                    && passed <= es && FoundKey(passed, text)
                    && element.Positioned() && element.Run() == Ok(es[|passed|..], r.next))
    // The key is found exactly where all before it can be passed, also in a map that is ill-formed further on.
    ensures var r, start := container.Here(), Opening(container.data, container.ptr);
            !aborted && !Overruns(r, text) && err == NoError && element.typ != INVALID_TYPE <==>
            start.Some? && Findable(container.data, start.value.0, start.value.1, text)
    // An error leaves a type behind exactly where the search overran the map.
    ensures var r := container.Here();
            !aborted && err != NoError && element.typ != INVALID_TYPE <==>
            Overruns(r, text) && HeadAt(element.data, r.next).None? && TypeLeft(element.data, r.next) != INVALID_TYPE
  {
    hide HeadAt, Reachable, Content, ParseItem, ParseRun, RunContinues, FoundKey, Matches, NoKeyMatches, IsPaired,
         DepthAll, Walks;
    ghost var r := container.Here();
    ghost var start := Opening(container.data, container.ptr);
    ContainerHere(container.data, container.ptr);
    if r.Ok? && r.val.Container? && IsPaired(r.val.elems) {
      PairedIsNeither(r, text);
    }
    aborted, passed := false, [];
    err, element := container.EnterContainer();
    if err != NoError {
      if start.Some? {
        UnreachableRun(container.data, start.value.0, start.value.1);
        NothingToFind(container.data, start.value.0, start.value.1, text);
      }
      element.typ := INVALID_TYPE;
      return;
    }
    ghost var p, c := start.value.0, start.value.1;
    ghost var whole := ParseRun(element.data, p, c);
    assert r.Ok? <==> whole.Ok?;
    assert r.Ok? ==> r.val.Container? && r.val.elems == whole.val && r.next == whole.next;
    SearchStarts(element, p, c, text);
    while element.remaining != 0
      invariant element.data == container.data && fresh(element)
      invariant element.HasPassed(p, c, passed) && Searched(passed, text)
      decreases |element.data| - element.ptr
    {
      var found;
      aborted, err, found, passed := TryPair(element, text, p, c, passed);
      if aborted {
        TripsOnly(r, text);
        FindableIn(container.data, p, c, text);
        return;
      }
      if err != NoError {
        element.typ := INVALID_TYPE;
        return;
      }
      if found {
        FoundIn(element, p, c, passed, r, text);
        if element.remaining == 0 {
          FindableIn(container.data, p, c, text);
        }
        err := element.PreparseValue();
        return;
      }
    }
    element.PassedRun(p, c, passed);
    NotFound(r, passed, text);
    FindableIn(container.data, p, c, text);
    element.typ := INVALID_TYPE;
    err := NoError;
  }

  lemma NothingToFind(s: seq<byte>, p: nat, c: Count, text: seq<byte>)
    requires !Reachable(s, p, c)
    ensures !Findable(s, p, c, text)
  {
    hide ParseItem, HeadAt;
    forall es, q, d | LeadsToKey(s, p, c, es, q, d, text)
      ensures false
    {
      NoBreak(s, p);
    }
  }

  // The outcome of reading ahead at a position that is not known to be in the container.
  ghost predicate ReadAhead(it: CborValue, err: CborError)
    requires it.ptr <= |it.data|
    reads it
  {
    match HeadAt(it.data, it.ptr)
    case Some(h) => err == NoError && it.Describes(h)
    case None => err == HeadError(it.data, it.ptr) != NoError && it.typ == TypeLeft(it.data, it.ptr)
  }

  lemma SearchStarts(it: CborValue, p: nat, c: Count, text: seq<byte>)
    requires p <= |it.data| && it.Arrived(p, c) && c != Exactly(UINT32_MAX) && (c.Exactly? ==> c.n < UINT32_MAX)
    ensures it.HasPassed(p, c, []) && Searched([], text)
  {
    hide HeadAt, ParseItem;
    assert Walks(it.data, p, c, [], p, c);
  }

  lemma TripsOnly(r: Parsed<Item>, text: seq<byte>)
    requires Trips(r, text)
    ensures !Overruns(r, text)
  {
    hide Matches;
    if Overruns(r, text) {
      FoundIsUnpaired(r.val.elems, text);
    }
  }

  // With all passed and no match there is nothing to find.
  lemma NotFound(r: Parsed<Item>, passed: seq<Item>, text: seq<byte>)
    requires Searched(passed, text)
    requires r.Ok? && r.val.Container? && r.val.elems == passed
    ensures !Trips(r, text) && !Overruns(r, text)
  {
    hide Matches;
    if Overruns(r, text) {
      FoundIsUnpaired(passed, text);
    }
  }

  lemma PairedIsNeither(r: Parsed<Item>, text: seq<byte>)
    requires r.Ok? && r.val.Container? && IsPaired(r.val.elems)
    ensures !Trips(r, text) && !Overruns(r, text)
  {
    hide Matches;
    if Overruns(r, text) {
      FoundIsUnpaired(r.val.elems, text);
    }
  }

  // A match is the end of the map exactly when the search overruns it.
  lemma FoundIn(it: CborValue, p: nat, c: Count, passed: seq<Item>, r: Parsed<Item>, text: seq<byte>)
    requires p <= |it.data| && it.HasPassed(p, c, passed) && FoundKey(passed, text)
             && DepthAll(passed) <= MAX_RECURSIONS
    requires var whole := ParseRun(it.data, p, c);
             && (r.Ok? <==> whole.Ok?)
             && (r.Ok? ==> r.val.Container? && r.val.elems == whole.val && r.next == whole.next)
    ensures !Trips(r, text)
    ensures Overruns(r, text) <==> it.remaining == 0
    ensures it.remaining == 0 ==> it.ptr == r.next
    ensures it.remaining > 0 ==> it.Positioned()
    ensures r.Ok? ==> passed <= r.val.elems && !NoKeyMatches(r.val.elems, text)
    ensures r.Ok? ==> it.Run() == Ok(r.val.elems[|passed|..], r.next)
  {
    hide HeadAt, ParseItem, ParseRun, Walks, FoundKey, NoKeyMatches, Matches, DepthAll, IsPaired;
    it.PassedRun(p, c, passed);
    FirstOfRun(it);
    if r.Ok? {
      FoundIsFirst(passed, r.val.elems, text);
    }
  }

  // ----- Inputs

  // An open map of one text key and no value, and whatever stands behind it.
  lemma LoneKey(tail: seq<byte>)
    ensures var s, key := [0xbf, 0x61, 0x61, 0xff] + tail, Str(MAJOR_TEXT, 0, [0x61]);
            && ParseItem(s, 0) == Ok(Container(true, None, [key]), 4)
            && HeadAt(s, 0) == Some(Indefinite(MAJOR_MAP))
            && Overruns(ParseItem(s, 0), [0x61])
  {
    var s, key := [0xbf, 0x61, 0x61, 0xff] + tail, Str(MAJOR_TEXT, 0, [0x61]);
    var i := Container(true, None, [key]);
    assert [key][1..] == [] && [key][..0] == [];
    assert WellFormed(key) && AllWellFormed([key]);
    assert Concat([key]) == ItemBytes(key) + [] == [0x61, 0x61];
    assert ItemBytes(i) == [0xbf, 0x61, 0x61, 0xff] == s[0..4];
    ItemComplete(s, 0, i);
    assert IsKey([key], 0) && DepthAll([key]) == 0;
  }

  // The break behind the map is reported, and the element looks like a simple value.
  method OverrunFails() returns (err: CborError, element: CborValue)
    ensures err == UnexpectedBreak && element.typ == SIMPLE_TYPE
  {
    LoneKey([0xff]);
    var data := [0xbf, 0x61, 0x61, 0xff] + [0xff];
    var it, aborted;
    ghost var passed;
    err, it := ParserInit(data, UINT32_MAX);
    aborted, err, element, passed := MapFindValue(it, [0x61]);
    assert data[4] == 0xff && |data| == 5;
  }

  // The integer behind the map is returned as the value of the key.
  method OverrunFinds() returns (err: CborError, element: CborValue)
    ensures err == NoError && element.typ == INTEGER_TYPE && element.ptr == 4 && element.extra == 5
    ensures element.remaining == 0
  {
    LoneKey([0x05]);
    var data := [0xbf, 0x61, 0x61, 0xff] + [0x05];
    var it, aborted;
    ghost var passed;
    err, it := ParserInit(data, UINT32_MAX);
    aborted, err, element, passed := MapFindValue(it, [0x61]);
    assert data[4] == 5 && |data| == 5;
  }

  // A key of another type without a value is enough to trip the assertion.
  method HalfPairTrips() returns (aborted: bool)
    ensures aborted
  {
    var data := [0xbf, 0x01, 0xff];
    HalfPair(data);
    var err, it := ParserInit(data, UINT32_MAX);
    var element;
    ghost var passed;
    aborted, err, element, passed := MapFindValue(it, [0x61]);
  }

  lemma HalfPair(s: seq<byte>)
    requires s == [0xbf, 0x01, 0xff]
    ensures HeadAt(s, 0) == Some(Indefinite(MAJOR_MAP)) && Trips(ParseItem(s, 0), [0x61])
  {
    var key := Atom(MAJOR_UNSIGNED, 0, 1);
    var i := Container(true, None, [key]);
    assert [key][1..] == [] && WellFormed(key) && AllWellFormed([key]);
    assert Concat([key]) == [0x01] + [];
    assert ItemBytes(i) == s == s[0..3];
    ItemComplete(s, 0, i);
    assert Untagged([key]) == 1 && DepthAll([key]) == 0;
  }
}
