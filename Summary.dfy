/**
 * The rendering half of summarize_events: one header per currency group,
 * one text block per event, joined under a bold title.
 */
module Summary {
  import opened PyText
  import opened Lists
  import opened Calendar
  import opened Grouping

  const ResultPrefix := "Résultat : "
  // The longer texts are written as two literals each; the lemmas below
  // read single characters of them.
  const NoDataLine := "(pas de données chiffrées " + "disponibles)\n"
  const HighInsight := "→ Impact potentiellement " + "important sur les marchés."
  const MediumInsight := "→ Peut influencer modérément " + "la devise concernée."
  const Banner := "**📊 Résumé économique " + "du jour**\n\n"
  const Fallback := "Aucun événement économique " + "significatif à résumer aujourd’hui."

  /** A group's header: flag, country, currency in parentheses. */
  function HeaderLine(currency: string, country: string): string
  {
    Flag(currency) + " " + country + " (" + currency + ")"
  }

  /** Python truthiness of the three figures: at least one is non-empty. */
  predicate HasFigures(e: Event)
  {
    e.actual != "" || e.forecast != "" || e.previous != ""
  }

  function ResultLine(e: Event): string
  {
    ResultPrefix + e.actual + " (prévu : " + e.forecast + ", précédent : " + e.previous + ")\n"
  }

  /** The one-line comment, chosen by the impact label alone. */
  function Insight(impact: string): string
  {
    if impact == "High" then HighInsight
    else if impact == "Medium" then MediumInsight
    else ""
  }

  /** The line after the title: the figures, or the fixed no-data line. */
  function FiguresLine(e: Event): string
  {
    if HasFigures(e) then ResultLine(e) else NoDataLine
  }

  /** The text block of one event. */
  function Block(e: Event): string
  {
    e.title + "\n" + FiguresLine(e) + Insight(e.impact) + "\n"
  }

  /** The blocks of a group's events, in order. */
  function Blocks(es: seq<Event>): (r: seq<string>)
    ensures |r| == |es|
    decreases |es|
  {
    if es == [] then [] else Blocks(es[..|es| - 1]) + [Block(es[|es| - 1])]
  }

  /** The lines of one currency's section: its header, then the blocks of
      its events. */
  function Section(currency: string, events: seq<Event>, country: string): seq<string>
  {
    [HeaderLine(currency, country)] + Blocks(OfCurrency(events, currency))
  }

  /** The sections of `keys`, in key order, every header showing `country`. */
  function SectionList(keys: seq<string>, events: seq<Event>, country: string): (r: seq<seq<string>>)
    ensures |r| == |keys|
    decreases |keys|
  {
    if keys == [] then []
    else SectionList(keys[..|keys| - 1], events, country) + [Section(keys[|keys| - 1], events, country)]
  }

  /** The country every header shows: the variable the first loop left
      behind, that is the country of the last event of the whole input. */
  function LastCountry(events: seq<Event>): string
  {
    if events == [] then "" else events[|events| - 1].country
  }

  /** summary_lines: the sections of the dictionary's keys, one after
      another. */
  function SummaryLines(events: seq<Event>): seq<string>
  {
    Flatten(SectionList(GroupKeys(events), events, LastCountry(events)))
  }

  /** The returned digest. */
  function SummaryText(events: seq<Event>): string
  {
    var lines := SummaryLines(events);
    if lines == [] then Fallback else Banner + Join(lines, "\n")
  }

  // ---------------------------------------------------------------------
  // What the rendering promises
  // ---------------------------------------------------------------------

  lemma {:induction false} SectionListAt(keys: seq<string>, events: seq<Event>, country: string, j: nat)
    requires j < |keys|
    ensures SectionList(keys, events, country)[j] == Section(keys[j], events, country)
    decreases |keys|
  {
    if j < |keys| - 1 {
      SectionListAt(keys[..|keys| - 1], events, country, j);
    }
  }

  lemma {:induction false} SectionListPrefix(keys: seq<string>, events: seq<Event>, country: string, m: nat)
    requires m <= |keys|
    ensures SectionList(keys[..m], events, country) == SectionList(keys, events, country)[..m]
    decreases |keys|
  {
    if m < |keys| {
      var init := keys[..|keys| - 1];
      assert init[..m] == keys[..m];
      SectionListPrefix(init, events, country, m);
    } else {
      assert keys[..m] == keys;
    }
  }

  /** The sections of `keys` hold one header per key and one block per event
      of those keys' groups. */
  lemma {:induction false} SectionsLength(keys: seq<string>, events: seq<Event>, country: string)
    ensures |Flatten(SectionList(keys, events, country))| == |keys| + Total(keys, events)
    decreases |keys|
  {
    if keys != [] {
      var init := keys[..|keys| - 1];
      SectionsLength(init, events, country);
      FlattenSnoc(SectionList(init, events, country), Section(keys[|keys| - 1], events, country));
    }
  }

  /** summary_lines holds one header per distinct currency and one block per
      event. */
  lemma SummaryLinesCount(events: seq<Event>)
    ensures |SummaryLines(events)| == |GroupKeys(events)| + |events|
  {
    SectionsLength(GroupKeys(events), events, LastCountry(events));
    GroupsPartitionEvents(events);
  }

  /** The j-th section: the header of the j-th key, then at once the blocks
      of every event of that currency, in input order. Every header shows
      the flag of its own currency but the country of the last event of the
      whole input. */
  lemma SectionLayout(events: seq<Event>, j: nat)
    requires j < |GroupKeys(events)|
    ensures events != []
    ensures SectionList(GroupKeys(events), events, LastCountry(events))[j] ==
      [HeaderLine(GroupKeys(events)[j], events[|events| - 1].country)] + Blocks(OfCurrency(events, GroupKeys(events)[j]))
  {
    assert events != [];
    SectionListAt(GroupKeys(events), events, LastCountry(events), j);
  }

  /** The j-th section starts after the j earlier headers and the blocks of
      their groups. */
  lemma SectionStart(events: seq<Event>, j: nat)
    requires j <= |GroupKeys(events)|
    ensures |Flatten(SectionList(GroupKeys(events), events, LastCountry(events))[..j])| ==
      j + Total(GroupKeys(events)[..j], events)
  {
    var keys := GroupKeys(events);
    SectionListPrefix(keys, events, LastCountry(events), j);
    SectionsLength(keys[..j], events, LastCountry(events));
  }

  /** In `summary_lines`, the header of the j-th key sits after the j earlier
      headers and the blocks of their events, and the blocks of the j-th
      key's events follow it at once, in input order. */
  lemma HeaderThenBlocks(events: seq<Event>, j: nat)
    requires j < |GroupKeys(events)|
    ensures events != []
    ensures HeadThenTail(SummaryLines(events), j + Total(GroupKeys(events)[..j], events),
      HeaderLine(GroupKeys(events)[j], events[|events| - 1].country),
      Blocks(OfCurrency(events, GroupKeys(events)[j])))
  {
    var keys := GroupKeys(events);
    SectionLayout(events, j);
    SectionStart(events, j);
    PartAt(SummaryLines(events), SectionList(keys, events, LastCountry(events)), j,
      j + Total(keys[..j], events), HeaderLine(keys[j], events[|events| - 1].country),
      Blocks(OfCurrency(events, keys[j])));
  }

  /** The digest is never empty: it is the fixed sentence exactly when there
      is no event, and the bold title followed by the lines otherwise. */
  lemma DigestNeverEmpty(events: seq<Event>)
    ensures SummaryText(events) != ""
    ensures events == [] <==> SummaryText(events) == Fallback
    ensures events != [] ==> Banner <= SummaryText(events)
  {
    var lines := SummaryLines(events);
    SummaryLinesCount(events);
    if events != [] {
      assert lines != [];
      assert Banner[0] == '*' && Fallback[0] == 'A';
      assert (Banner + Join(lines, "\n"))[0] == '*';
    }
  }

  /** The first line of a non-empty input's lines is the header of the
      first event's currency. */
  lemma FirstLine(events: seq<Event>)
    requires events != []
    ensures SummaryLines(events) != []
    ensures SummaryLines(events)[0] == HeaderLine(events[0].currency, events[|events| - 1].country)
  {
    FirstKey(events);
    SectionLayout(events, 0);
    FlattenHead(SectionList(GroupKeys(events), events, LastCountry(events)));
  }

  /** A non-empty digest opens with the title and then the header of the
      first event's currency. */
  lemma DigestOpensWithFirstHeader(events: seq<Event>)
    requires events != []
    ensures Banner + HeaderLine(events[0].currency, events[|events| - 1].country) <= SummaryText(events)
  {
    FirstLine(events);
    var lines := SummaryLines(events);
    JoinStartsWithFirst(lines, "\n");
    PrefixUnderHead(Banner, lines[0], Join(lines, "\n"));
  }

  /** With a euro event followed by a dollar event, the euro header carries
      the euro flag but the dollar event's country. */
  lemma EuroHeaderShowsLastCountry(eur: Event, usd: Event)
    requires eur.currency == "EUR" && usd.currency == "USD"
    ensures SummaryLines([eur, usd])[0] == "🇪🇺" + " " + usd.country + " (EUR)"
  {
    FirstLine([eur, usd]);
    EuroFlag();
  }

  lemma EuroFlag()
    ensures Flag("EUR") == "🇪🇺"
  {
    assert "EUR" in CurrencyFlags;
  }

  /** An event's block opens with its title on a line of its own and ends
      with a newline. */
  lemma BlockFraming(e: Event)
    ensures e.title + "\n" <= Block(e)
    ensures Block(e)[|Block(e)| - 1] == '\n'
  {
    var head := e.title + "\n";
    var b := Block(e);
    PrefixGrows(head, head, FiguresLine(e));
    PrefixGrows(head, head + FiguresLine(e), Insight(e.impact));
    PrefixGrows(head, head + FiguresLine(e) + Insight(e.impact), "\n");
  }

  /** The "Résultat" line follows the title exactly when one of the three
      figures is non-empty; otherwise the fixed no-data line does. */
  lemma FiguresLineIffData(e: Event)
    ensures HasFigures(e) <==> e.title + "\n" + ResultPrefix <= Block(e)
    ensures !HasFigures(e) ==> e.title + "\n" + NoDataLine <= Block(e)
  {
    var head := e.title + "\n";
    var line := FiguresLine(e);
    var b := Block(e);
    PrefixGrows(head + line, head + line, Insight(e.impact));
    PrefixGrows(head + line, head + line + Insight(e.impact), "\n");
    if HasFigures(e) {
      var tail := e.actual + " (prévu : " + e.forecast + ", précédent : " + e.previous + ")\n";
      ResultLineSplits(e);
      PrefixSharedHead(head, ResultPrefix, tail);
      PrefixTransitive(head + ResultPrefix, head + line, b);
    } else {
      assert b[|head|] == (head + line)[|head|] == NoDataLine[0] == '(';
      assert (head + ResultPrefix)[|head|] == ResultPrefix[0] == 'R';
    }
  }

  lemma ResultLineSplits(e: Event)
    ensures ResultLine(e) ==
      ResultPrefix + (e.actual + " (prévu : " + e.forecast + ", précédent : " + e.previous + ")\n")
  {
  }

  /** A block ends with the comment for its impact, then a newline. */
  lemma BlockEndsWithInsight(e: Event)
    ensures EndsWith(Block(e), Insight(e.impact) + "\n")
  {
    var head := e.title + "\n" + FiguresLine(e);
    SuffixOfAppend(head, Insight(e.impact), "\n");
  }

  /** An event gets a comment exactly when its impact is one of the levels the
      fetch admits, and the two levels get different comments. */
  lemma InsightExactlyForAdmittedImpacts(impact: string)
    ensures Insight(impact) != "" <==> impact in ImpactLevels
    ensures HighInsight != MediumInsight
  {
    assert HighInsight[2] == 'I' && MediumInsight[2] == 'P';
  }

  /** summarize_events. */
  method SummarizeEvents(events: seq<Event>) returns (text: string)
    ensures text == SummaryText(events)
  {
    var keys, grouped := GroupByCurrency(events);
    ghost var country := LastCountry(events);
    var summaryLines: seq<string> := [];
    for i := 0 to |keys|
      invariant summaryLines == Flatten(SectionList(keys[..i], events, country))
    {
      var currency := keys[i];
      var evts := grouped[currency];
      // `event` is still bound to the last element of the first loop
      var header := HeaderLine(currency, events[|events| - 1].country);
      summaryLines := AppendSection(summaryLines, header, evts);
      SectionsSnoc(keys, i, events, country);
    }
    assert keys[..|keys|] == keys;
    if |summaryLines| == 0 {
      text := Fallback;
      return;
    }
    text := Banner + Join(summaryLines, "\n");
  }

  /** One group's header, then the inner loop over the group's events. */
  method AppendSection(lines: seq<string>, header: string, evts: seq<Event>) returns (out: seq<string>)
    ensures out == lines + [header] + Blocks(evts)
  {
    out := lines + [header];
    ghost var done := out;
    for j := 0 to |evts|
      invariant out == done + Blocks(evts[..j])
    {
      var block := RenderBlock(evts[j]);
      BlocksSnoc(evts, j);
      AppendAssoc(done, Blocks(evts[..j]), [block]);
      out := out + [block];
    }
    assert evts[..|evts|] == evts;
  }

  /** The body of the inner loop: one event's title, figures and insight. */
  method RenderBlock(e: Event) returns (block: string)
    ensures block == Block(e)
  {
    var info := e.title + "\n";
    if e.actual != "" || e.forecast != "" || e.previous != "" {
      info := info + ResultLine(e);
    } else {
      info := info + NoDataLine;
    }
    var insight: string;
    if e.impact == "High" {
      insight := HighInsight;
    } else if e.impact == "Medium" {
      insight := MediumInsight;
    } else {
      insight := "";
    }
    block := info + insight + "\n";
  }

  lemma BlocksSnoc(es: seq<Event>, j: nat)
    requires j < |es|
    ensures Blocks(es[..j + 1]) == Blocks(es[..j]) + [Block(es[j])]
  {
    assert es[..j + 1][..j] == es[..j];
  }

  lemma SectionsSnoc(keys: seq<string>, i: nat, events: seq<Event>, country: string)
    requires i < |keys|
    ensures Flatten(SectionList(keys[..i + 1], events, country)) ==
      Flatten(SectionList(keys[..i], events, country)) + [HeaderLine(keys[i], country)] +
      Blocks(OfCurrency(events, keys[i]))
  {
    assert keys[..i + 1][..i] == keys[..i];
    var section := Section(keys[i], events, country);
    FlattenSnoc(SectionList(keys[..i], events, country), section);
    AppendAssoc(Flatten(SectionList(keys[..i], events, country)), [HeaderLine(keys[i], country)],
      Blocks(OfCurrency(events, keys[i])));
  }
}
