/**
 * The admission loop of fetch_events: every feed item is either turned into
 * an event or skipped, and skipping one never stops the loop.
 */
module Fetch {
  import opened Wrappers
  import opened PyText
  import opened Calendar

  /** Every element read after the impact check is present. */
  predicate FieldsPresent(item: FeedItem)
  {
    item.title.Some? && item.country.Some? && item.currency.Some? &&
    item.actual.Some? && item.forecast.Some? && item.previous.Some?
  }

  /** The conditions under which the loop appends an event for `item`. */
  predicate Admissible(item: FeedItem, today: Date)
  {
    item.pubDate.Some? && item.pubDate.value.date == today &&
    item.impact.Some? && item.impact.value in ImpactLevels &&
    FieldsPresent(item)
  }

  /** One pass of the loop body: the event built from `item`, or None for
      `continue` (wrong day, unknown impact) and for an exception (missing
      element, unparsable date). */
  function Admit(item: FeedItem, today: Date): (r: Option<Event>)
    ensures r.Some? <==> Admissible(item, today)
    ensures r.Some? ==> r.value.impact in ImpactLevels
    ensures r.Some? ==>
      r.value.impact == item.impact.value &&
      r.value.title == item.title.value &&
      r.value.country == item.country.value &&
      r.value.currency == item.currency.value &&
      r.value.actual == item.actual.value &&
      r.value.forecast == item.forecast.value &&
      r.value.previous == item.previous.value &&
      r.value.time == FormatHM(item.pubDate.value.hour, item.pubDate.value.minute)
  {
    match item.pubDate
    case None => None
    case Some(pub) =>
      if pub.date != today then None
      else match item.impact
        case None => None
        case Some(impact) =>
          if impact !in ImpactLevels then None
          else if !FieldsPresent(item) then None
          else Some(Event(
            impact,
            item.title.value,
            item.currency.value,
            item.country.value,
            item.actual.value,
            item.forecast.value,
            item.previous.value,
            FormatHM(pub.hour, pub.minute)))
  }

  /** The list the loop returns: the admitted items' events, in input order. */
  function Admitted(items: seq<FeedItem>, today: Date): (r: seq<Event>)
    ensures |r| <= |items|
    ensures forall e :: e in r ==> e.impact in ImpactLevels && |e.time| == 5
    decreases |items|
  {
    if items == [] then []
    else
      var init := Admitted(items[..|items| - 1], today);
      match Admit(items[|items| - 1], today)
      case None => init
      case Some(e) => init + [e]
  }

  /** fetch_events after the download: the loop over the parsed items. */
  method FetchEvents(items: seq<FeedItem>, today: Date) returns (events: seq<Event>)
    ensures events == Admitted(items, today)
    ensures forall e :: e in events ==> e.impact in ImpactLevels
  {
    events := [];
    for i := 0 to |items|
      invariant events == Admitted(items[..i], today)
    {
      assert items[..i + 1][..i] == items[..i];
      var item := items[i];
      if item.pubDate.None? {
        continue;  // strptime raised, or there is no <pubDate>
      }
      var pubDate := item.pubDate.value;
      if pubDate.date != today {
        continue;
      }
      if item.impact.None? {
        continue;  // no impact <field>
      }
      var impact := item.impact.value;
      if impact !in ImpactLevels {
        continue;
      }
      if item.title.None? || item.country.None? || item.currency.None? ||
         item.actual.None? || item.forecast.None? || item.previous.None? {
        continue;  // a missing element raised inside the try
      }
      var title := item.title.value;
      var country := item.country.value;
      var currency := item.currency.value;
      var actual := item.actual.value;
      var forecast := item.forecast.value;
      var previous := item.previous.value;
      var time := FormatHM(pubDate.hour, pubDate.minute);
      events := events + [Event(impact, title, currency, country, actual, forecast, previous, time)];
    }
    assert items[..|items|] == items;
  }

  /** The loop distributes over concatenation of its input. */
  lemma {:induction false} AdmittedAppend(a: seq<FeedItem>, b: seq<FeedItem>, today: Date)
    ensures Admitted(a + b, today) == Admitted(a, today) + Admitted(b, today)
    decreases |b|
  {
    if b == [] {
      assert a + b == a;
    } else {
      var b0 := b[..|b| - 1];
      assert (a + b)[..|a + b| - 1] == a + b0;
      assert (a + b)[|a + b| - 1] == b[|b| - 1];
      AdmittedAppend(a, b0, today);
    }
  }

  /** A skipped item (failed parse, wrong day, unknown impact, missing
      element) leaves no trace, and every item after it is still handled. */
  lemma SkippedItemLeavesRestIntact(a: seq<FeedItem>, x: FeedItem, b: seq<FeedItem>, today: Date)
    requires !Admissible(x, today)
    ensures Admitted(a + [x] + b, today) == Admitted(a, today) + Admitted(b, today)
  {
    AdmittedAppend(a + [x], b, today);
    AdmittedAppend(a, [x], today);
    assert [x][..0] == [];
  }

  /** The result is exactly the subsequence of admissible items, in input
      order: `idx` lists, increasing, the positions of the items the events
      come from, and every admissible position is listed. */
  lemma {:induction false} AdmittedIsSubsequence(items: seq<FeedItem>, today: Date)
    returns (idx: seq<int>)
    ensures |idx| == |Admitted(items, today)|
    ensures forall k :: 0 <= k < |idx| ==>
      0 <= idx[k] < |items| && Admit(items[idx[k]], today) == Some(Admitted(items, today)[k])
    ensures Increasing(idx)
    ensures forall i :: 0 <= i < |items| && Admissible(items[i], today) ==> i in idx
    decreases |items|
  {
    if items == [] {
      idx := [];
    } else {
      var n := |items| - 1;
      var init := items[..n];
      var prev := AdmittedIsSubsequence(init, today);
      var before := Admitted(init, today);
      assert forall i :: 0 <= i < n ==> init[i] == items[i];
      if Admit(items[n], today).Some? {
        idx := prev + [n];
        assert Admitted(items, today) == before + [Admit(items[n], today).value];
        forall k | 0 <= k < |idx|
          ensures 0 <= idx[k] < |items| && Admit(items[idx[k]], today) == Some(Admitted(items, today)[k])
        {
          if k < |prev| {
            assert idx[k] == prev[k];
          }
        }
        forall i | 0 <= i < |items| && Admissible(items[i], today)
          ensures i in idx
        {
          if i < n {
            assert i in prev;
          } else {
            assert idx[|prev|] == i;
          }
        }
        IncreasingAppend(prev, n);
      } else {
        idx := prev;
        assert Admitted(items, today) == before;
        assert !Admissible(items[n], today);
        forall i | 0 <= i < |items| && Admissible(items[i], today)
          ensures i in idx
        {
          assert i != n;
          assert i in prev;
        }
      }
    }
  }

  predicate Increasing(idx: seq<int>)
  {
    forall k, l :: 0 <= k < l < |idx| ==> idx[k] < idx[l]
  }

  lemma IncreasingAppend(idx: seq<int>, n: int)
    requires Increasing(idx)
    requires forall k :: 0 <= k < |idx| ==> idx[k] < n
    ensures Increasing(idx + [n])
  {
  }

  /** No event of the result comes from an item of another day or with an
      impact outside IMPACT_LEVELS. */
  lemma OnlyTodaysAdmittedImpacts(items: seq<FeedItem>, today: Date, k: int)
    requires 0 <= k < |Admitted(items, today)|
    ensures exists i :: (0 <= i < |items| &&
      items[i].pubDate.Some? && items[i].pubDate.value.date == today &&
      items[i].impact.Some? && items[i].impact.value in ImpactLevels &&
      Admit(items[i], today) == Some(Admitted(items, today)[k]))
  {
    var idx := AdmittedIsSubsequence(items, today);
    var i := idx[k];
    assert Admit(items[i], today).Some?;
  }
}
