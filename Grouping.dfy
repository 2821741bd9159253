/**
 * The first loop of summarize_events: the events grouped by currency in an
 * insertion-ordered dictionary, and what that grouping guarantees.
 */
module Grouping {
  import opened Calendar

  /** Some event has this currency. */
  predicate HasCurrency(events: seq<Event>, c: string)
  {
    exists i :: 0 <= i < |events| && events[i].currency == c
  }

  predicate NoDuplicates(keys: seq<string>)
  {
    forall i, j :: 0 <= i < j < |keys| ==> keys[i] != keys[j]
  }

  /** The keys of the grouped dictionary, in insertion order: each currency
      where the loop first meets it. */
  function GroupKeys(events: seq<Event>): seq<string>
    decreases |events|
  {
    if events == [] then []
    else
      var keys := GroupKeys(events[..|events| - 1]);
      var c := events[|events| - 1].currency;
      if c in keys then keys else keys + [c]
  }

  /** The list grouped[c]: the events of currency c, in input order. */
  function OfCurrency(events: seq<Event>, c: string): seq<Event>
    decreases |events|
  {
    if events == [] then []
    else
      var init := OfCurrency(events[..|events| - 1], c);
      var e := events[|events| - 1];
      if e.currency == c then init + [e] else init
  }

  lemma HasCurrencyStep(events: seq<Event>, e: Event, x: string)
    ensures HasCurrency(events + [e], x) <==> HasCurrency(events, x) || x == e.currency
  {
    var all := events + [e];
    if HasCurrency(events, x) {
      var i :| 0 <= i < |events| && events[i].currency == x;
      assert all[i].currency == x;
    }
    if HasCurrency(all, x) {
      var i :| 0 <= i < |all| && all[i].currency == x;
      if i < |events| { assert events[i].currency == x; }
    }
    assert all[|events|] == e;
  }

  /** The dictionary has a key for a currency exactly when it occurs. */
  lemma {:induction false} KeyIffOccurs(events: seq<Event>, c: string)
    ensures c in GroupKeys(events) <==> HasCurrency(events, c)
    decreases |events|
  {
    if events != [] {
      var init := events[..|events| - 1];
      var e := events[|events| - 1];
      assert events == init + [e];
      KeyIffOccurs(init, c);
      GroupKeysStep(init, e);
      HasCurrencyStep(init, e, c);
    }
  }

  /** No currency is a key twice, and there are no more keys than events. */
  lemma {:induction false} GroupKeysDistinct(events: seq<Event>)
    ensures NoDuplicates(GroupKeys(events))
    ensures |GroupKeys(events)| <= |events|
    decreases |events|
  {
    if events != [] {
      var init := events[..|events| - 1];
      GroupKeysDistinct(init);
    }
  }

  /** A group holds only events of its own currency. */
  lemma {:induction false} OfCurrencyOnlyCurrency(events: seq<Event>, c: string)
    ensures forall k :: 0 <= k < |OfCurrency(events, c)| ==> OfCurrency(events, c)[k].currency == c
    ensures |OfCurrency(events, c)| <= |events|
    decreases |events|
  {
    if events != [] {
      OfCurrencyOnlyCurrency(events[..|events| - 1], c);
    }
  }

  /** The position where the currency first occurs. */
  function FirstIndex(events: seq<Event>, c: string): (r: int)
    requires HasCurrency(events, c)
    ensures 0 <= r < |events| && events[r].currency == c
    ensures forall j :: 0 <= j < r ==> events[j].currency != c
    decreases |events|
  {
    if events[0].currency == c then 0
    else
      assert HasCurrency(events[1..], c) by {
        var i :| 0 <= i < |events| && events[i].currency == c;
        assert events[1..][i - 1].currency == c;
      }
      1 + FirstIndex(events[1..], c)
  }

  /** A currency no event has gets an empty group. */
  lemma {:induction false} OfCurrencyAbsent(events: seq<Event>, c: string)
    requires !HasCurrency(events, c)
    ensures OfCurrency(events, c) == []
    decreases |events|
  {
    if events != [] {
      var init := events[..|events| - 1];
      assert events == init + [events[|events| - 1]];
      HasCurrencyStep(init, events[|events| - 1], c);
      OfCurrencyAbsent(init, c);
    }
  }

  /** Appending an event extends its own currency's group and no other. */
  lemma OfCurrencyStep(events: seq<Event>, e: Event)
    ensures forall c :: (OfCurrency(events + [e], c) ==
      if e.currency == c then OfCurrency(events, c) + [e] else OfCurrency(events, c))
  {
    assert (events + [e])[..|events|] == events;
  }

  /** Appending an event adds its currency to the keys if it is new. */
  lemma GroupKeysStep(events: seq<Event>, e: Event)
    ensures GroupKeys(events + [e]) ==
      (if e.currency in GroupKeys(events) then GroupKeys(events) else GroupKeys(events) + [e.currency])
  {
    assert (events + [e])[..|events|] == events;
  }

  /** One pass of the grouping loop keeps the dictionary equal to the
      groups of the events seen so far. */
  lemma GroupStep(seen: seq<Event>, e: Event, grouped: map<string, seq<Event>>)
    requires forall c :: c in grouped <==> c in GroupKeys(seen)
    requires forall c :: c in grouped ==> grouped[c] == OfCurrency(seen, c)
    ensures var created := grouped[e.currency := if e.currency in grouped then grouped[e.currency] else []];
      var after := created[e.currency := created[e.currency] + [e]];
      GroupKeys(seen + [e]) ==
        (if e.currency in grouped then GroupKeys(seen) else GroupKeys(seen) + [e.currency]) &&
      (forall c :: c in after <==> c in GroupKeys(seen + [e])) &&
      (forall c :: c in after ==> after[c] == OfCurrency(seen + [e], c))
  {
    OfCurrencyStep(seen, e);
    GroupKeysStep(seen, e);
    if e.currency !in grouped {
      KeyIffOccurs(seen, e.currency);
      OfCurrencyAbsent(seen, e.currency);
    }
  }

  /** The first loop of summarize_events, over the ordered dictionary as its
      key order plus its contents. */
  method GroupByCurrency(events: seq<Event>) returns (keys: seq<string>, grouped: map<string, seq<Event>>)
    ensures keys == GroupKeys(events)
    ensures forall c :: c in grouped <==> c in keys
    ensures forall c :: c in grouped ==> grouped[c] == OfCurrency(events, c)
  {
    keys, grouped := [], map[];
    for i := 0 to |events|
      invariant keys == GroupKeys(events[..i])
      invariant forall c :: c in grouped <==> c in keys
      invariant forall c :: c in grouped ==> grouped[c] == OfCurrency(events[..i], c)
    {
      var event := events[i];
      var currency := event.currency;
      ghost var before := grouped;
      if currency !in grouped {
        // defaultdict(list) creates the empty list on first access
        grouped := grouped[currency := []];
        keys := keys + [currency];
      }
      grouped := grouped[currency := grouped[currency] + [event]];
      GroupStep(events[..i], event, before);
      assert events[..i + 1] == events[..i] + [event];
    }
    assert events[..|events|] == events;
  }

  /** The first key is the first event's currency. */
  lemma FirstKey(events: seq<Event>)
    requires events != []
    ensures GroupKeys(events) != [] && GroupKeys(events)[0] == events[0].currency
    decreases |events|
  {
    if |events| > 1 {
      var init := events[..|events| - 1];
      FirstKey(init);
      assert init[0] == events[0];
    }
  }

  /** The number of events over the groups of `keys`. */
  function Total(keys: seq<string>, events: seq<Event>): nat
    decreases |keys|
  {
    if keys == [] then 0
    else Total(keys[..|keys| - 1], events) + |OfCurrency(events, keys[|keys| - 1])|
  }

  /** Adding an event of a currency outside `keys` changes none of their groups. */
  lemma {:induction false} TotalOtherCurrency(keys: seq<string>, events: seq<Event>, e: Event)
    requires e.currency !in keys
    ensures Total(keys, events + [e]) == Total(keys, events)
    decreases |keys|
  {
    if keys != [] {
      OfCurrencyStep(events, e);
      TotalOtherCurrency(keys[..|keys| - 1], events, e);
    }
  }

  /** Adding an event of a currency that is one of `keys` adds one event. */
  lemma {:induction false} TotalOwnCurrency(keys: seq<string>, events: seq<Event>, e: Event)
    requires e.currency in keys && NoDuplicates(keys)
    ensures Total(keys, events + [e]) == Total(keys, events) + 1
    decreases |keys|
  {
    var init := keys[..|keys| - 1];
    OfCurrencyStep(events, e);
    if keys[|keys| - 1] == e.currency {
      TotalOtherCurrency(init, events, e);
    } else {
      assert e.currency in init;
      TotalOwnCurrency(init, events, e);
    }
  }

  /** The groups together hold every event once. */
  lemma {:induction false} GroupsPartitionEvents(events: seq<Event>)
    ensures Total(GroupKeys(events), events) == |events|
    decreases |events|
  {
    if events != [] {
      var init := events[..|events| - 1];
      var e := events[|events| - 1];
      assert events == init + [e];
      GroupsPartitionEvents(init);
      GroupKeysStep(init, e);
      var keys := GroupKeys(init);
      if e.currency in keys {
        GroupKeysDistinct(init);
        TotalOwnCurrency(keys, init, e);
      } else {
        KeyIffOccurs(init, e.currency);
        OfCurrencyAbsent(init, e.currency);
        TotalOtherCurrency(keys, init, e);
        assert (keys + [e.currency])[..|keys|] == keys;
      }
    }
  }

  /** Both currencies occur, and a first occurs before b first occurs. */
  predicate FirstOccursBefore(events: seq<Event>, a: string, b: string)
  {
    HasCurrency(events, a) && HasCurrency(events, b) && FirstIndex(events, a) < FirstIndex(events, b)
  }

  /** Group keys follow the first occurrence of each currency. */
  lemma {:induction false} KeysInFirstOccurrenceOrder(events: seq<Event>)
    ensures forall i, j :: 0 <= i < j < |GroupKeys(events)| ==>
      FirstOccursBefore(events, GroupKeys(events)[i], GroupKeys(events)[j])
    decreases |events|
  {
    if events != [] {
      var init := events[..|events| - 1];
      var e := events[|events| - 1];
      assert events == init + [e];
      GroupKeysStep(init, e);
      KeysInFirstOccurrenceOrder(init);
      var keys := GroupKeys(init);
      var ks := GroupKeys(events);
      forall i, j | 0 <= i < j < |ks|
        ensures FirstOccursBefore(events, ks[i], ks[j])
      {
        if j < |keys| {
          OrderKeptOnAppend(init, e, keys[i], keys[j]);
        } else {
          KeyIffOccurs(init, e.currency);
          KeyIffOccurs(init, keys[i]);
          NewCurrencyComesLast(init, e, keys[i]);
        }
      }
    }
  }

  lemma OrderKeptOnAppend(events: seq<Event>, e: Event, a: string, b: string)
    requires FirstOccursBefore(events, a, b)
    ensures FirstOccursBefore(events + [e], a, b)
  {
    FirstIndexExtend(events, e, a);
    FirstIndexExtend(events, e, b);
  }

  lemma NewCurrencyComesLast(events: seq<Event>, e: Event, a: string)
    requires HasCurrency(events, a) && !HasCurrency(events, e.currency)
    ensures FirstOccursBefore(events + [e], a, e.currency)
  {
    FirstIndexExtend(events, e, a);
    HasCurrencyStep(events, e, e.currency);
    var r := FirstIndex(events + [e], e.currency);
    assert r == |events|;
  }

  lemma FirstIndexExtend(events: seq<Event>, e: Event, c: string)
    requires HasCurrency(events, c)
    ensures HasCurrency(events + [e], c)
    ensures FirstIndex(events + [e], c) == FirstIndex(events, c)
  {
    var r := FirstIndex(events, c);
    assert (events + [e])[r] == events[r];
  }

  /** Events of one currency keep their relative input order in its group. */
  lemma {:induction false} OfCurrencyAppend(a: seq<Event>, b: seq<Event>, c: string)
    ensures OfCurrency(a + b, c) == OfCurrency(a, c) + OfCurrency(b, c)
    decreases |b|
  {
    if b == [] {
      assert a + b == a;
    } else {
      var b0 := b[..|b| - 1];
      assert (a + b)[..|a + b| - 1] == a + b0;
      OfCurrencyAppend(a, b0, c);
    }
  }

  /** Every event is in the group of its own currency, that currency is a
      key, and no group of another currency holds it. */
  lemma EventInExactlyOneGroup(events: seq<Event>, i: int)
    requires 0 <= i < |events|
    ensures events[i] in OfCurrency(events, events[i].currency)
    ensures events[i].currency in GroupKeys(events)
    ensures forall c :: events[i] in OfCurrency(events, c) ==> c == events[i].currency
  {
    var e := events[i];
    InOwnGroup(events, i);
    KeyIffOccurs(events, e.currency);
    assert HasCurrency(events, e.currency);
    forall c | e in OfCurrency(events, c)
      ensures c == e.currency
    {
      OfCurrencyOnlyCurrency(events, c);
    }
  }

  lemma {:induction false} InOwnGroup(events: seq<Event>, i: int)
    requires 0 <= i < |events|
    ensures events[i] in OfCurrency(events, events[i].currency)
    decreases |events|
  {
    if i < |events| - 1 {
      var init := events[..|events| - 1];
      InOwnGroup(init, i);
      assert init[i] == events[i];
    }
  }
}
