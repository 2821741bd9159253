# Economic-calendar digest for Discord — Dafny model

`discord_econ.py` downloads the week's economic calendar as an XML feed, keeps
today's High- and Medium-impact announcements, and posts a French summary of
them to a Discord webhook. This project models the two parts of the script that
carry logic, over already-parsed records:

- **the admission loop of `fetch_events`** (`Fetch.dfy`): each feed item is
  either turned into an event dictionary or skipped. It is skipped when its
  `pubDate` is missing or does not parse, when its date is not `today`, when
  its impact is not a key of `IMPACT_LEVELS`, or when any element it reads is
  missing (an exception caught by the `try`). A skip never stops the loop. The
  kept events are appended in input order, with `time` rendered as `HH:MM`.
- **`summarize_events`** (`Grouping.dfy` for its first loop, `Summary.dfy`
  for the rest): the events are grouped by currency in
  an insertion-ordered dictionary. Then one header line per group is emitted,
  followed by one text block per event of that group. A block is the title,
  then either a `Résultat : …` line (when one of actual, forecast or previous
  is a non-empty string) or the fixed no-data line, then a comment chosen by
  the impact. No event gives a fixed sentence. Otherwise the lines are joined
  with newlines under a bold title.

Two behaviours of the code are modelled as written:

- Every group header shows the country of the **last event of the whole
  input**. The header is built from the variable left behind by the first
  loop (`discord_econ.py:81`), not from the group's own events.
  `Summary.SectionLayout` states this for every header, and
  `Summary.EuroHeaderShowsLastCountry` gives a two-event instance.
- Data that is "missing" is the empty string, tested by truthiness. A missing
  `<field>` element drops the whole item instead of being replaced by a
  placeholder.

The script has no "—" placeholder for missing values. It does not convert
the timestamp to UTC: the date compared with `today` is the timestamp's
calendar date in its own declared offset. The grouping key is always the
currency. The script also has no numeric actual-versus-forecast analysis, no
trailing total line and no "announcements" rendering.

Files: `Wrappers.dfy` (the `Option` type), `PyText.dfy` (Python's
`str.join` and the `%H:%M` rendering), `Calendar.dfy` (records and the two
lookup tables), `Fetch.dfy`, `Grouping.dfy` (the first loop of
`summarize_events` and the dictionary it builds), `Lists.dfy` (facts about
concatenating lists and strings, stated for any contents), `Summary.dfy`.

The Python dictionary `grouped` is modelled as its key order (a `seq`) plus
its contents (a `map`), both built by the grouping loop. The functions `GroupKeys` and
`OfCurrency` define the dictionary's keys and a key's list. The lines of `summary_lines` are the sections of the keys, one after the other:
a section is a header followed by the blocks of that key's events.
`SummarizeEvents` keeps the two nested loops of the script. The inner loop
is the helper method `AppendSection`, and the body of the inner loop is the
helper method `RenderBlock`.

## Model

| member | source | states |
|---|---|---|
| `PyText.Join` | discord_econ.py:104 | defines `"\n".join`: the lines in order with the separator between consecutive ones |
| `PyText.JoinStartsWithFirst` | discord_econ.py:104 | a newline join of a non-empty list of lines starts with the first line |
| `PyText.TwoDigits` | discord_econ.py:53 | two decimal digits whose value is the given number below 100 |
| `PyText.FormatHM` | discord_econ.py:53 | `%H:%M` is five characters: two digits reading back as the hour, a colon, two digits reading back as the minute |
| `Calendar.Flag` | discord_econ.py:80 | the flag is empty exactly for a currency missing from `CURRENCY_FLAGS`, and is that table's entry otherwise |
| `Fetch.FieldsPresent` | discord_econ.py:47-52 | defines the condition under which reading the title, country, currency and figures raises no exception: each element is present |
| `Fetch.Admissible` | discord_econ.py:38-52 | defines when the loop body reaches `events.append`: the date parsed and is today, the impact is present and a key of `IMPACT_LEVELS`, and every other element read is present |
| `Fetch.Admit` | discord_econ.py:37-64 | an item yields an event iff its date parsed and equals today, its impact is `High` or `Medium`, and every element it reads is present; the event holds those texts and the `HH:MM` time |
| `Fetch.Admitted` | discord_econ.py:36-68 | the returned list is no longer than the input and holds only events whose impact is in `IMPACT_LEVELS` and whose time has five characters |
| `Fetch.FetchEvents` | discord_econ.py:36-68 | the loop with its `continue` and exception skips returns exactly the admitted events, and each has an admitted impact |
| `Fetch.AdmittedAppend` | discord_econ.py:36-68 | the loop handles each item on its own: the events of two consecutive runs of items are the events of each run, concatenated |
| `Fetch.SkippedItemLeavesRestIntact` | discord_econ.py:37-45 | an item that fails (bad date, other day, unknown impact, missing element) contributes nothing, and the items after it are processed as if it were absent |
| `Fetch.AdmittedIsSubsequence` | discord_econ.py:36-68 | the result is the subsequence of admissible items in input order: strictly increasing source positions, each event equal to its item's admission, and every admissible position used |
| `Fetch.OnlyTodaysAdmittedImpacts` | discord_econ.py:40-45 | every returned event comes from an item dated today whose impact is in `IMPACT_LEVELS` |
| `Grouping.GroupKeys` | discord_econ.py:71-75 | defines the keys of `grouped` in insertion order: each event adds its currency unless already there |
| `Grouping.OfCurrency` | discord_econ.py:71-75 | defines `grouped[c]`: the events of currency `c`, in input order |
| `Grouping.KeyIffOccurs` | discord_econ.py:71-75 | a currency is a key of the dictionary exactly when some event has that currency |
| `Grouping.GroupKeysDistinct` | discord_econ.py:71-75 | each key occurs once, and there are no more keys than events |
| `Grouping.OfCurrencyOnlyCurrency` | discord_econ.py:73-75 | a key's list holds only events of that currency and no more events than the input |
| `Grouping.OfCurrencyAbsent` | discord_econ.py:73-75 | a currency that no event has gets an empty list |
| `Grouping.GroupByCurrency` | discord_econ.py:71-75 | the grouping loop ends with the keys in insertion order and, for each key, exactly that currency's events in input order; no other key is present |
| `Grouping.FirstKey` | discord_econ.py:73-75 | the first key of a non-empty input is the first event's currency |
| `Grouping.KeysInFirstOccurrenceOrder` | discord_econ.py:71-75 | keys appear in the order in which their currencies first occur in the input |
| `Grouping.OfCurrencyAppend` | discord_econ.py:73-75 | within a key's list, events keep their relative input order: the list for two runs of events is the list for each run, concatenated |
| `Grouping.EventInExactlyOneGroup` | discord_econ.py:73-75 | every event is in the list of its own currency, that currency is a key, and no list of another currency holds it |
| `Grouping.GroupsPartitionEvents` | discord_econ.py:73-75 | the sizes of the lists of all keys add up to the number of events |
| `Summary.HeaderLine` | discord_econ.py:80-81 | defines a header: the flag, a space, the country, a space and the currency in parentheses |
| `Summary.LastCountry` | discord_econ.py:73-81 | defines the country every header shows: that of `event`, the variable the first loop leaves bound to the last event |
| `Summary.HasFigures` | discord_econ.py:86 | defines the truthiness test: one of actual, forecast or previous is non-empty |
| `Summary.ResultLine` | discord_econ.py:87 | defines the `Résultat : … (prévu : …, précédent : …)` line |
| `Summary.FiguresLine` | discord_econ.py:86-89 | defines the second line of a block: the result line when there are figures, the no-data line otherwise |
| `Summary.Insight` | discord_econ.py:92-97 | defines the comment: the High phrase, the Medium phrase, or empty for any other impact |
| `Summary.Block` | discord_econ.py:85-99 | defines one appended block: title line, figures line, comment, newline |
| `Summary.Blocks` | discord_econ.py:84-99 | the blocks of a list of events, one per event, in order |
| `Summary.Section` | discord_econ.py:80-99 | defines the lines one pass of the outer loop appends: the key's header, then the blocks of its events |
| `Summary.SectionList` | discord_econ.py:79-99 | the sections of a list of keys, one per key, in order |
| `Summary.SummaryLines` | discord_econ.py:77-99 | defines `summary_lines`: the sections of the dictionary's keys in key order, every header showing the last event's country |
| `Summary.SummaryText` | discord_econ.py:101-105 | defines the returned text: the fallback sentence when `summary_lines` is empty, else the bold title and the newline join of the lines |
| `Summary.SectionListAt` | discord_econ.py:79-99 | the j-th section of a list of keys is the section of the j-th key |
| `Summary.SectionsLength` | discord_econ.py:79-99 | the sections of a list of keys hold one header per key plus one block per event of those keys |
| `Summary.SummaryLinesCount` | discord_econ.py:79-99 | `summary_lines` has one header per distinct currency plus one block per event |
| `Summary.SectionLayout` | discord_econ.py:79-99 | the j-th section is the header of the j-th key followed at once by the blocks of that currency's events in input order; the header shows the currency's flag (or nothing), the last input event's country, and the currency |
| `Summary.SectionStart` | discord_econ.py:79-99 | the j-th section starts after the j earlier headers and the blocks of their events |
| `Summary.HeaderThenBlocks` | discord_econ.py:79-99 | in `summary_lines`, the j-th key's header (own flag, last input event's country) sits after the j earlier headers and their events' blocks, and its own events' blocks follow it at once, in input order |
| `Summary.FirstLine` | discord_econ.py:79-82 | for a non-empty input, the first line is the header of the first event's currency, with the last event's country |
| `Summary.EuroHeaderShowsLastCountry` | discord_econ.py:81 | with a euro event then a dollar event, the first header reads the euro flag, the dollar event's country and `(EUR)` |
| `Summary.BlockFraming` | discord_econ.py:85-99 | a block starts with the title on a line of its own and ends with a newline |
| `Summary.FiguresLineIffData` | discord_econ.py:86-89 | the `Résultat : ` line follows the title exactly when one of actual, forecast or previous is non-empty; otherwise the fixed no-data line does |
| `Summary.BlockEndsWithInsight` | discord_econ.py:92-99 | a block ends with the comment chosen by its impact, then a newline |
| `Summary.InsightExactlyForAdmittedImpacts` | discord_econ.py:92-97 | an event gets a comment exactly when its impact is `High` or `Medium`, the two levels the fetch admits, and the two comments differ |
| `Summary.DigestNeverEmpty` | discord_econ.py:101-105 | the digest is never empty; it is the fixed fallback sentence exactly when there is no event; otherwise it starts with the bold title |
| `Summary.DigestOpensWithFirstHeader` | discord_econ.py:79-82 | a non-empty digest is the bold title followed by the header of the first event's currency |
| `Summary.SummarizeEvents` | discord_econ.py:70-105 | the two loops and the final join return exactly the digest of the sections of the keys |
| `Summary.AppendSection` | discord_econ.py:81-99 | one pass of the outer loop appends the header and then one block per event of the key, in order |
| `Summary.RenderBlock` | discord_econ.py:85-99 | the inner loop's body builds exactly the event's block: title, figures or no-data line, comment, newline |

## Left out

- The HTTP download of the feed and its XML parsing (`discord_econ.py:29-31`, and the element lookups at 38 and 43-52): these are library calls. Their result is the `FeedItem` record, with `None` for a missing element.
- The `strptime` format semantics (`discord_econ.py:39`): a library call. Its result is an optional timestamp, with `None` for a failed parse. Only the date, hour and minute of the timestamp are kept, because the script uses nothing else.
- `datetime.utcnow()` (`discord_econ.py:33`): the clock. `today` is a parameter.
- `send_to_discord` and `main` (`discord_econ.py:7`, `107-124`): environment variable, network request and console output.
- Which step of an item's processing made it skip: the script logs nothing, so the model records only whether an item is kept.
- `.strip()` on each element's text (`discord_econ.py:38`, `43-52`): it is treated as part of the extraction, so a `FeedItem` holds already-stripped text.
- Unicode beyond code points: emoji and accented text are plain character sequences.
