/**
 The table of subscriptions (source/subscription-manager/subscription_manager.c) and its use
 when a session is resumed (source/mqtt-agent-task.c). The slots of an array behave as a
 bounded set of subscriptions.
 */
module Subscriptions {

  const MAX_SUBSCRIPTIONS := 10

  // A callback and its context are pointers; zero is the null pointer.
  datatype Subscription = Subscription(filter: string, callback: nat, context: nat)

  // A slot is free when its filter is empty.
  const FREE := Subscription("", 0, 0)

  predicate IsFree(s: Subscription) {
    s.filter == ""
  }

  // ----- Slots as a set

  function Contents(slots: seq<Subscription>): set<Subscription> {
    set s | s in slots && !IsFree(s)
  }

  predicate NoneTwice(slots: seq<Subscription>) {
    forall i, j :: 0 <= i < j < |slots| && !IsFree(slots[i]) ==> slots[i] != slots[j]
  }

  predicate IsTable(slots: seq<Subscription>) {
    && |slots| == MAX_SUBSCRIPTIONS
    && NoneTwice(slots)
    && forall i :: 0 <= i < |slots| && !IsFree(slots[i]) ==> slots[i].callback != 0
  }

  function Used(slots: seq<Subscription>): (n: nat)
    ensures n <= |slots|
  {
    if slots == [] then 0 else Used(slots[1..]) + if IsFree(slots[0]) then 0 else 1
  }

  lemma {:induction false} SizeOfContents(slots: seq<Subscription>)
    requires NoneTwice(slots)
    ensures |Contents(slots)| == Used(slots)
  {
    if slots != [] {
      var rest := slots[1..];
      assert forall i :: 0 <= i < |rest| ==> rest[i] == slots[i + 1];
      SizeOfContents(rest);
      assert slots == [slots[0]] + rest;
      if IsFree(slots[0]) {
        assert Contents(slots) == Contents(rest);
      } else {
        assert Contents(slots) == Contents(rest) + {slots[0]};
        assert slots[0] !in rest;
      }
    }
  }

  lemma {:induction false} FullWhenNoneFree(slots: seq<Subscription>)
    ensures Used(slots) == |slots| <==> forall i :: 0 <= i < |slots| ==> !IsFree(slots[i])
  {
    if slots != [] {
      var rest := slots[1..];
      FullWhenNoneFree(rest);
      assert forall i :: 0 <= i < |rest| ==> rest[i] == slots[i + 1];
      assert forall i :: 1 <= i < |slots| ==> slots[i] == rest[i - 1];
    }
  }

  // There is a free slot exactly when the set is below its capacity.
  lemma RoomIffFree(slots: seq<Subscription>)
    requires IsTable(slots)
    ensures |Contents(slots)| <= MAX_SUBSCRIPTIONS
    ensures |Contents(slots)| < MAX_SUBSCRIPTIONS <==> exists i :: 0 <= i < |slots| && IsFree(slots[i])
  {
    SizeOfContents(slots);
    FullWhenNoneFree(slots);
  }

  lemma FillingAddsOne(slots: seq<Subscription>, i: nat, s: Subscription)
    requires i < |slots| && IsFree(slots[i]) && NoneTwice(slots)
    requires !IsFree(s) && s !in slots
    ensures Contents(slots[i := s]) == Contents(slots) + {s}
    ensures NoneTwice(slots[i := s])
  {
    var after := slots[i := s];
    assert after[i] == s;
    forall x | x in Contents(slots) ensures x in after {
      var k :| 0 <= k < |slots| && slots[k] == x;
      assert after[k] == x;
    }
  }

  // What clearing every slot of a filter leaves.
  function Without(c: set<Subscription>, filter: string): set<Subscription> {
    set s | s in c && s.filter != filter
  }

  lemma ClearingRemoves(before: seq<Subscription>, after: seq<Subscription>, filter: string)
    requires IsTable(before) && |after| == |before|
    requires forall i :: 0 <= i < |before| ==> after[i] == if before[i].filter == filter then FREE else before[i]
    ensures Contents(after) == Without(Contents(before), filter)
    ensures IsTable(after)
  {
    forall s | s in Without(Contents(before), filter) ensures s in after {
      var i :| 0 <= i < |before| && before[i] == s;
      assert after[i] == s;
    }
    forall s | s in Contents(after) ensures s in Without(Contents(before), filter) {
      var i :| 0 <= i < |after| && after[i] == s;
      assert before[i] == s;
    }
  }

  // ----- Lists in slot order

  function Filters(slots: seq<Subscription>): (fs: seq<string>)
    ensures |fs| <= |slots|
  {
    if slots == [] then []
    else
      var front := Filters(slots[..|slots| - 1]);
      if IsFree(slots[|slots| - 1]) then front else front + [slots[|slots| - 1].filter]
  }

  // A used slot whose filter the topic matches.
  predicate IsMatched(s: Subscription, topic: string, matches: (string, string) -> bool) {
    s.filter != "" && matches(topic, s.filter)
  }

  // The slots at, in their order, are exactly those.
  predicate AreSlots(at: seq<nat>, slots: seq<Subscription>, topic: string, matches: (string, string) -> bool) {
    && (forall k :: 0 <= k < |at| ==> at[k] < |slots| && IsMatched(slots[at[k]], topic, matches))
    && (forall j, k :: 0 <= j < k < |at| ==> at[j] < at[k])
    && (forall i :: 0 <= i < |slots| && IsMatched(slots[i], topic, matches) ==> i in at)
  }

  // The subscriptions that a topic matches.
  function Matching(slots: seq<Subscription>, topic: string, matches: (string, string) -> bool): seq<Subscription> {
    if slots == [] then []
    else
      var last := slots[|slots| - 1];
      var front := Matching(slots[..|slots| - 1], topic, matches);
      if !IsFree(last) && matches(topic, last.filter) then front + [last] else front
  }

  // The matching subscriptions of a set.
  function MatchingSet(c: set<Subscription>, topic: string, matches: (string, string) -> bool): set<Subscription> {
    set s | s in c && matches(topic, s.filter)
  }

  lemma ContentsOfSum(front: seq<Subscription>, last: Subscription)
    ensures Contents(front + [last]) == Contents(front) + if IsFree(last) then {} else {last}
  {
  }

  lemma MatchingSum(c: set<Subscription>, last: Subscription, topic: string, matches: (string, string) -> bool)
    ensures MatchingSet(c + {last}, topic, matches) ==
            MatchingSet(c, topic, matches) + if matches(topic, last.filter) then {last} else {}
  {
  }

  // Every matching subscription is called exactly once and no other is called.
  lemma {:induction false} MatchedOnce(slots: seq<Subscription>, topic: string, matches: (string, string) -> bool)
    requires NoneTwice(slots)
    ensures multiset(Matching(slots, topic, matches)) == multiset(MatchingSet(Contents(slots), topic, matches))
  {
    hide Contents, MatchingSet;
    if slots != [] {
      var front, last := slots[..|slots| - 1], slots[|slots| - 1];
      assert slots == front + [last];
      MatchedOnce(front, topic, matches);
      ContentsOfSum(front, last);
      MatchingSum(Contents(front), last, topic, matches);
      if !IsFree(last) && matches(topic, last.filter) {
        NotMatchedBefore(front, last, topic, matches);
        assert Matching(slots, topic, matches) == Matching(front, topic, matches) + [last];
      } else if IsFree(last) {
        assert Contents(front) + {} == Contents(front);
      }
    } else {
      NothingMatches(topic, matches);
    }
  }

  lemma NotMatchedBefore(front: seq<Subscription>, last: Subscription, topic: string, matches: (string, string) -> bool)
    requires NoneTwice(front + [last]) && !IsFree(last)
    ensures last !in MatchingSet(Contents(front), topic, matches)
  {
    var all := front + [last];
    assert all[|front|] == last;
    assert forall i :: 0 <= i < |front| ==> all[i] == front[i];
  }

  lemma NothingMatches(topic: string, matches: (string, string) -> bool)
    ensures MatchingSet(Contents([]), topic, matches) == {}
  {
  }

  // The calls are made in the order of the slots, and leave none out.
  lemma {:induction false} MatchingInOrder(slots: seq<Subscription>, topic: string, matches: (string, string) -> bool)
    returns (at: seq<nat>)
    ensures AreSlots(at, slots, topic, matches) && Lists(Matching(slots, topic, matches), at, slots)
  {
    hide AreSlots, Lists, IsMatched;
    at := [];
    if slots != [] {
      var front, last := slots[..|slots| - 1], slots[|slots| - 1];
      at := MatchingInOrder(front, topic, matches);
      assert slots == front + [last];
      OneSlotMore(at, front, last, topic, matches);
      ListsMore(Matching(front, topic, matches), at, front, last);
      MatchingMore(slots, topic, matches);
      if IsMatched(last, topic, matches) {
        at := at + [|front|];
      }
    } else {
      NoSlots(topic, matches);
    }
  }

  // The subscriptions in these slots.
  predicate Lists(subscriptions: seq<Subscription>, at: seq<nat>, slots: seq<Subscription>) {
    && |subscriptions| == |at|
    && forall k :: 0 <= k < |at| ==> at[k] < |slots| && subscriptions[k] == slots[at[k]]
  }

  lemma ListsMore(subscriptions: seq<Subscription>, at: seq<nat>, slots: seq<Subscription>, last: Subscription)
    requires Lists(subscriptions, at, slots)
    ensures Lists(subscriptions, at, slots + [last])
    ensures Lists(subscriptions + [last], at + [|slots|], slots + [last])
  {
  }

  lemma MatchingMore(slots: seq<Subscription>, topic: string, matches: (string, string) -> bool)
    requires slots != []
    ensures var front, last := slots[..|slots| - 1], slots[|slots| - 1];
            Matching(slots, topic, matches) ==
            Matching(front, topic, matches) + if IsMatched(last, topic, matches) then [last] else []
  {
  }

  lemma NoSlots(topic: string, matches: (string, string) -> bool)
    ensures AreSlots([], [], topic, matches) && Lists([], [], []) && Matching([], topic, matches) == []
  {
  }

  // The subscribe list has the filters of the used slots in their order, and leaves none out.
  lemma FiltersInOrder(slots: seq<Subscription>) returns (at: seq<nat>)
    ensures AreSlots(at, slots, "", (topic: string, filter: string) => true)
    ensures |Filters(slots)| == |at|
    ensures forall k :: 0 <= k < |at| ==> at[k] < |slots| && Filters(slots)[k] == slots[at[k]].filter
  {
    var all := (topic: string, filter: string) => true;
    at := MatchingInOrder(slots, "", all);
    FiltersMatchAll(slots, all);
    hide Filters, Matching;
    assert AreSlots(at, slots, "", (topic: string, filter: string) => true);
  }

  lemma {:induction false} FiltersMatchAll(slots: seq<Subscription>, all: (string, string) -> bool)
    requires forall topic, filter :: all(topic, filter)
    ensures var ms := Matching(slots, "", all);
            |Filters(slots)| == |ms| && forall k :: 0 <= k < |ms| ==> Filters(slots)[k] == ms[k].filter
  {
    if slots != [] {
      FiltersMatchAll(slots[..|slots| - 1], all);
    }
  }

  lemma OneSlotMore(at: seq<nat>, slots: seq<Subscription>, last: Subscription, topic: string,
                    matches: (string, string) -> bool)
    requires AreSlots(at, slots, topic, matches)
    ensures AreSlots(if IsMatched(last, topic, matches) then at + [|slots|] else at, slots + [last], topic, matches)
  {
    hide IsMatched;
    if IsMatched(last, topic, matches) {
      var more := at + [|slots|];
      assert forall i :: i in at ==> i in more;
      assert |slots| in more;
    }
  }

  lemma {:induction false} FiltersAreContents(slots: seq<Subscription>)
    ensures forall f :: f in Filters(slots) <==> exists s :: s in Contents(slots) && s.filter == f
    ensures |Filters(slots)| == Used(slots)
  {
    if slots != [] {
      var front, last := slots[..|slots| - 1], slots[|slots| - 1];
      assert slots == front + [last];
      FiltersAreContents(front);
      UsedOfSum(front, last);
      forall f ensures f in Filters(slots) <==> exists s :: s in Contents(slots) && s.filter == f {
        if f in Filters(front) {
          var s :| s in Contents(front) && s.filter == f;
          assert s in Contents(slots);
        } else if !IsFree(last) && last.filter == f {
          assert last in Contents(slots);
        }
      }
    }
  }

  lemma {:induction false} UsedOfSum(slots: seq<Subscription>, last: Subscription)
    ensures Used(slots + [last]) == Used(slots) + if IsFree(last) then 0 else 1
  {
    if slots == [] {
      assert [] + [last] == [last] && [last][1..] == [];
    } else {
      assert (slots + [last])[1..] == slots[1..] + [last];
      UsedOfSum(slots[1..], last);
    }
  }

  // ----- The bounded set

  // The broker's answer for one filter of a subscribe command.
  datatype SubAck = SubAck(filter: string, refused: bool)

  // Resubscribed stands for the completion of a subscribe command that did not succeed.
  datatype Op =
    | Add(subscription: Subscription)
    | Remove(filter: string)
    | Resubscribed(acks: seq<SubAck>)

  // The set without every filter that was refused.
  function WithoutAll(c: set<Subscription>, acks: seq<SubAck>): set<Subscription> {
    if acks == [] then c
    else
      var last := acks[|acks| - 1];
      var front := WithoutAll(c, acks[..|acks| - 1]);
      if last.refused then Without(front, last.filter) else front
  }

  // Exactly the subscriptions of refused filters are gone.
  lemma {:induction false} WithoutAllIs(c: set<Subscription>, acks: seq<SubAck>, s: Subscription)
    ensures s in WithoutAll(c, acks) <==> s in c && !Removes(Resubscribed(acks), s.filter)
  {
    if acks != [] {
      var n := |acks| - 1;
      WithoutAllIs(c, acks[..n], s);
      assert forall i :: 0 <= i < n ==> acks[..n][i] == acks[i];
      assert acks[n] == SubAck(acks[n].filter, acks[n].refused);
    }
  }

  function Insert(c: set<Subscription>, s: Subscription): set<Subscription> {
    if s.filter != "" && s.callback != 0 && |c| < MAX_SUBSCRIPTIONS then c + {s} else c
  }

  function Apply(c: set<Subscription>, op: Op): set<Subscription> {
    match op
    case Add(s) => Insert(c, s)
    case Remove(filter) => Without(c, filter)
    case Resubscribed(acks) => WithoutAll(c, acks)
  }

  predicate Removes(op: Op, filter: string) {
    || op == Remove(filter)
    || (op.Resubscribed? && exists i :: 0 <= i < |op.acks| && op.acks[i] == SubAck(filter, true))
  }

  function ApplyAll(c: set<Subscription>, ops: seq<Op>): set<Subscription> {
    if ops == [] then c else Apply(ApplyAll(c, ops[..|ops| - 1]), ops[|ops| - 1])
  }

  // Nothing between from and the end takes the subscription away.
  predicate Undisturbed(ops: seq<Op>, from: nat, s: Subscription) {
    forall i :: from <= i < |ops| ==> !Removes(ops[i], s.filter)
  }

  // The operation i added the subscription while there was room.
  predicate AddedAt(ops: seq<Op>, i: nat, s: Subscription)
    requires i < |ops|
  {
    ops[i] == Add(s) && |ApplyAll({}, ops[..i])| < MAX_SUBSCRIPTIONS
  }

  predicate StillIn(ops: seq<Op>, i: nat, s: Subscription) {
    i < |ops| && AddedAt(ops, i, s) && Undisturbed(ops, i + 1, s)
  }

  // After any run a subscription is in the set exactly when it has a filter and a callback, whatever its
  // context, was added while there was room, and its filter has not been removed or refused since.
  lemma {:induction false} PresentIffAccepted(ops: seq<Op>, s: Subscription)
    ensures s in ApplyAll({}, ops) <==> s.filter != "" && s.callback != 0 && exists i: nat :: StillIn(ops, i, s)
  {
    if ops != [] {
      var n := |ops| - 1;
      var front := ops[..n];
      PresentIffAccepted(front, s);
      if ops[n].Resubscribed? {
        WithoutAllIs(ApplyAll({}, front), ops[n].acks, s);
      }
      forall i: nat
        ensures StillIn(ops, i, s) <==>
                if i == n then AddedAt(ops, n, s) else StillIn(front, i, s) && !Removes(ops[n], s.filter)
      {
        LaterStep(ops, i, s);
      }
      hide StillIn;
      if s in ApplyAll({}, front) && !Removes(ops[n], s.filter) {
        var i: nat :| StillIn(front, i, s);
        assert i != n by { StillInRange(front, i, s); }
        assert StillIn(ops, i, s);
      } else if AddedAt(ops, n, s) {
        assert StillIn(ops, n, s);
      }
    }
  }

  lemma StillInRange(ops: seq<Op>, i: nat, s: Subscription)
    requires StillIn(ops, i, s)
    ensures i < |ops|
  {
  }

  lemma LaterStep(ops: seq<Op>, i: nat, s: Subscription)
    requires ops != []
    ensures var n := |ops| - 1;
            StillIn(ops, i, s) <==>
            if i == n then AddedAt(ops, n, s) else StillIn(ops[..n], i, s) && !Removes(ops[n], s.filter)
  {
    hide ApplyAll;
    var n := |ops| - 1;
    if i < n {
      assert ops[..n][..i] == ops[..i];
    }
  }

  function SubAcks(filters: seq<string>, refused: seq<bool>): seq<SubAck>
    requires |filters| == |refused|
  {
    seq(|filters|, i requires 0 <= i < |filters| => SubAck(filters[i], refused[i]))
  }

  // ----- The table

  class SubscriptionTable {
    const slots: array<Subscription>

    ghost predicate Valid()
      reads this, slots
    {
      IsTable(slots[..])
    }

    constructor ()
      ensures Valid() && fresh(slots) && Contents(slots[..]) == {}
    {
      slots := new Subscription[MAX_SUBSCRIPTIONS](i => FREE);
    }

    /**
     addSubscription: the result says whether the subscription is in the table afterwards. It
     takes the first free slot, and a table without one only accepts what it has already.
     */
    method Add(filter: string, callback: nat, context: nat) returns (added: bool)
      requires Valid()
      modifies slots
      ensures Valid()
      ensures added <==>
              && filter != "" && callback != 0
              && (|| Subscription(filter, callback, context) in old(slots[..])
                  || |old(Contents(slots[..]))| < MAX_SUBSCRIPTIONS)
      ensures var s := Subscription(filter, callback, context);
              && Contents(slots[..]) == (if added then old(Contents(slots[..])) + {s} else old(Contents(slots[..])))
              && Contents(slots[..]) == Insert(old(Contents(slots[..])), s)
              && (added <==> s in Contents(slots[..]))
      ensures var s := Subscription(filter, callback, context);
              if added && s !in old(slots[..]) then
                exists i :: 0 <= i < slots.Length && IsFree(old(slots[i])) &&
                            (forall j :: 0 <= j < i ==> !IsFree(old(slots[j]))) && slots[..] == old(slots[..])[i := s]
              else slots[..] == old(slots[..])
    {
      TableLength(slots[..]);
      hide IsTable, Contents, Insert;
      ghost var s, before := Subscription(filter, callback, context), slots[..];
      var available := MAX_SUBSCRIPTIONS;
      added := false;
      if filter == "" || callback == 0 {
        StaysOut(before, s);
        return;
      }
      var index := MAX_SUBSCRIPTIONS - 1;
      while index >= 0
        invariant -1 <= index < MAX_SUBSCRIPTIONS && 0 <= available <= MAX_SUBSCRIPTIONS
        invariant slots[..] == before
        invariant !added
        invariant available < MAX_SUBSCRIPTIONS ==> index < available && IsFree(slots[available])
        invariant forall j :: index < j < available && j < MAX_SUBSCRIPTIONS ==> !IsFree(slots[j])
        invariant forall j :: index < j < MAX_SUBSCRIPTIONS ==> slots[j] != s
        decreases index
      {
        if slots[index].filter == "" {
          available := index;
        } else if slots[index].filter == filter {
          if slots[index].callback == callback && slots[index].context == context {
            available := MAX_SUBSCRIPTIONS;
            added := true;
            break;
          }
        }
        index := index - 1;
      }
      if available < MAX_SUBSCRIPTIONS {
        TakesSlot(before, available, s);
        slots[available] := Subscription(filter, callback, context);
        assert slots[..] == before[available := s];
        added := true;
      } else if added {
        assert before[index] == s;
        IsIn(before, s);
      } else {
        StaysOut(before, s);
      }
    }

    // removeSubscription: every subscription of the filter goes, and no other.
    method Remove(filter: string)
      requires Valid()
      modifies slots
      ensures Valid()
      ensures Contents(slots[..]) == Without(old(Contents(slots[..])), filter)
      ensures forall i :: 0 <= i < slots.Length ==>
                slots[i] == if filter != "" && old(slots[i]).filter == filter then FREE else old(slots[i])
    {
      if filter == "" {
        assert slots[..] == old(slots[..]);
        return;
      }
      for index := 0 to MAX_SUBSCRIPTIONS
        invariant forall i :: 0 <= i < MAX_SUBSCRIPTIONS ==>
                    slots[i] == if i < index && old(slots[i]).filter == filter then FREE else old(slots[i])
      {
        if slots[index].filter == filter {
          slots[index] := FREE;
        }
      }
      ClearingRemoves(old(slots[..]), slots[..], filter);
    }

    /**
     handleIncomingPublishes: calls lists the callbacks in the order they are made. Topic
     matching (section 4.7 of MQTT 3.1.1) is a parameter, and callbacks leave the table alone.
     */
    method HandleIncomingPublishes(topic: string, matches: (string, string) -> bool)
      returns (handled: bool, calls: seq<Subscription>)
      requires Valid()
      ensures calls == Matching(slots[..], topic, matches)
      ensures multiset(calls) == multiset(MatchingSet(Contents(slots[..]), topic, matches))
      ensures handled <==> exists s :: s in Contents(slots[..]) && matches(topic, s.filter)
    {
      handled, calls := false, [];
      for index := 0 to MAX_SUBSCRIPTIONS
        invariant calls == Matching(slots[..index], topic, matches)
        invariant handled <==> calls != []
      {
        assert slots[..index + 1][..index] == slots[..index];
        if |slots[index].filter| > 0 {
          var isMatched := matches(topic, slots[index].filter);
          if isMatched {
            calls := calls + [slots[index]];
            handled := true;
          }
        }
      }
      assert slots[..MAX_SUBSCRIPTIONS] == slots[..];
      MatchedOnce(slots[..], topic, matches);
      if calls != [] {
        assert calls[0] in multiset(calls);
      }
      if s :| s in Contents(slots[..]) && matches(topic, s.filter) {
        assert s in MatchingSet(Contents(slots[..]), topic, matches);
        assert s in multiset(calls);
      }
    }

    /**
     prvHandleResubscribe: collects the filters of all subscriptions in slot order for one
     subscribe command. The entries behind the count keep what an earlier call left.
     */
    method CollectFilters(info: array<string>) returns (count: nat)
      requires Valid() && info.Length == MAX_SUBSCRIPTIONS
      modifies info
      ensures count <= info.Length && info[..count] == Filters(slots[..])
      ensures info[count..] == old(info[count..])
      ensures count == |Contents(slots[..])|
    {
      count := 0;
      ghost var entries := slots[..];
      for index := 0 to MAX_SUBSCRIPTIONS
        invariant slots[..] == entries
        invariant count <= index && info[..count] == Filters(entries[..index])
        invariant forall k :: count <= k < info.Length ==> info[k] == old(info[k])
      {
        assert entries[..index + 1][..index] == entries[..index];
        if slots[index].filter != "" {
          info[count] := slots[index].filter;
          count := count + 1;
        }
      }
      assert entries[..MAX_SUBSCRIPTIONS] == entries;
      FiltersAreContents(entries);
      SizeOfContents(entries);
    }

    /**
     prvSubscriptionCommandCallback: when the command did not succeed, each filter that the
     broker refused loses all its subscriptions.
     */
    method HandleResubscribed(info: array<string>, count: nat, success: bool, refused: seq<bool>)
      requires Valid() && count <= info.Length && count <= |refused|
      modifies slots
      ensures Valid()
      ensures Contents(slots[..]) ==
              if success then old(Contents(slots[..]))
              else WithoutAll(old(Contents(slots[..])), SubAcks(old(info[..count]), refused[..count]))
      ensures forall i :: 0 <= i < slots.Length ==>
                slots[i] == if !success && old(slots[i]).filter != ""
                               && (exists k :: 0 <= k < count && refused[k] && old(info[k]) == old(slots[i]).filter)
                            then FREE else old(slots[i])
    {
      if !success {
        ghost var acks, before := SubAcks(info[..count], refused[..count]), Contents(slots[..]);
        for index := 0 to count
          invariant Valid() && info[..] == old(info[..])
          invariant Contents(slots[..]) == WithoutAll(before, acks[..index])
          invariant forall i :: 0 <= i < slots.Length ==>
                      slots[i] == if old(slots[i]).filter != ""
                                     && (exists k :: 0 <= k < index && refused[k] && info[k] == old(slots[i]).filter)
                                  then FREE else old(slots[i])
        {
          assert acks[..index + 1][..index] == acks[..index];
          if refused[index] {
            Remove(info[index]);
          }
        }
        assert acks[..count] == acks;
      }
    }

    // Any run of operations acts on the table as on the bounded set.
    method PerformAll(ops: seq<Op>)
      requires Valid()
      modifies slots
      ensures Valid()
      ensures Contents(slots[..]) == ApplyAll(old(Contents(slots[..])), ops)
    {
      for i := 0 to |ops|
        invariant Valid()
        invariant Contents(slots[..]) == ApplyAll(old(Contents(slots[..])), ops[..i])
      {
        assert ops[..i + 1][..i] == ops[..i];
        match ops[i]
        case Add(s) =>
          var _ := Add(s.filter, s.callback, s.context);
        case Remove(filter) =>
          Remove(filter);
        case Resubscribed(acks) =>
          var info := new string[|acks|](k requires 0 <= k < |acks| => acks[k].filter);
          var refused := seq(|acks|, k requires 0 <= k < |acks| => acks[k].refused);
          assert SubAcks(info[..|acks|], refused[..|acks|]) == acks;
          HandleResubscribed(info, |acks|, false, refused);
      }
      assert ops[..|ops|] == ops;
    }
  }

  lemma TableLength(slots: seq<Subscription>)
    requires IsTable(slots)
    ensures |slots| == MAX_SUBSCRIPTIONS
  {
  }

  // The first free slot takes a new subscription.
  lemma TakesSlot(slots: seq<Subscription>, i: nat, s: Subscription)
    requires IsTable(slots) && i < |slots| && IsFree(slots[i]) && s !in slots && s.filter != "" && s.callback != 0
    ensures var after := slots[i := s];
            && IsTable(after) && Contents(after) == Contents(slots) + {s} == Insert(Contents(slots), s)
            && |Contents(slots)| < MAX_SUBSCRIPTIONS
  {
    FillingAddsOne(slots, i, s);
    RoomIffFree(slots);
  }

  lemma IsIn(slots: seq<Subscription>, s: Subscription)
    requires s in slots && s.filter != "" && s.callback != 0
    ensures Contents(slots) == Contents(slots) + {s} == Insert(Contents(slots), s)
  {
  }

  lemma StaysOut(slots: seq<Subscription>, s: Subscription)
    requires IsTable(slots)
    requires s.filter == "" || s.callback == 0 || (s !in slots && forall i :: 0 <= i < |slots| ==> !IsFree(slots[i]))
    ensures s !in Contents(slots) && Contents(slots) == Insert(Contents(slots), s)
    ensures s.filter != "" && s.callback != 0 ==> s !in slots && |Contents(slots)| >= MAX_SUBSCRIPTIONS
  {
    RoomIffFree(slots);
  }

  // A resume whose filters are all refused empties the table: the list leaves none out.
  lemma AllRefusedEmpties(slots: seq<Subscription>, acks: seq<SubAck>)
    requires |acks| == |Filters(slots)|
    requires forall i :: 0 <= i < |acks| ==> acks[i] == SubAck(Filters(slots)[i], true)
    ensures WithoutAll(Contents(slots), acks) == {}
  {
    FiltersAreContents(slots);
    forall s ensures s !in WithoutAll(Contents(slots), acks) {
      WithoutAllIs(Contents(slots), acks, s);
      if s in Contents(slots) {
        assert s.filter in Filters(slots);
        var i :| 0 <= i < |acks| && Filters(slots)[i] == s.filter;
        assert acks[i] == SubAck(s.filter, true);
      }
    }
  }
}
