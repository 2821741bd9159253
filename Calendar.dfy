/**
 * The records of the economic-calendar digest: the feed item as the XML
 * parser hands it over, the event dictionary the script builds from it, and
 * the script's two lookup tables.
 */
module Calendar {
  import opened Wrappers

  type Hour = h: int | 0 <= h < 24
  type Minute = m: int | 0 <= m < 60

  /** A calendar date, compared field by field. */
  datatype Date = Date(year: int, month: int, day: int)

  /** The part of a parsed "%a, %d %b %Y %H:%M:%S %z" timestamp the script
      uses: its calendar date and its hour and minute, all in the offset the
      timestamp itself declares. */
  datatype DateTime = DateTime(date: Date, hour: Hour, minute: Minute)

  /** One <item> of the feed. `pubDate` is None when the element is missing
      or its text does not parse; every other field is None when its element
      is missing, and otherwise holds the element's text with surrounding
      white space already stripped. */
  datatype FeedItem = FeedItem(
    pubDate: Option<DateTime>,
    title: Option<string>,
    impact: Option<string>,
    country: Option<string>,
    currency: Option<string>,
    actual: Option<string>,
    forecast: Option<string>,
    previous: Option<string>)

  /** The event dictionary; `time` is the "HH:MM" rendering of the timestamp.
      A field left empty by the feed is the empty string. */
  datatype Event = Event(
    impact: string,
    title: string,
    currency: string,
    country: string,
    actual: string,
    forecast: string,
    previous: string,
    time: string)

  /** IMPACT_LEVELS: the admitted impact labels and their markers. */
  const ImpactLevels: map<string, string> := map["High" := "🔴", "Medium" := "🟡"]

  /** CURRENCY_FLAGS: the currencies that have a flag. */
  const CurrencyFlags: map<string, string> := map[
    "USD" := "🇺🇸",
    "EUR" := "🇪🇺",
    "GBP" := "🇬🇧",
    "JPY" := "🇯🇵",
    "AUD" := "🇦🇺",
    "NZD" := "🇳🇿",
    "CAD" := "🇨🇦",
    "CHF" := "🇨🇭",
    "CNY" := "🇨🇳"]

  /** CURRENCY_FLAGS.get(currency, ""): a known currency has a non-empty flag,
      an unknown one the empty string. */
  function Flag(currency: string): (r: string)
    ensures r == "" <==> currency !in CurrencyFlags
    ensures currency in CurrencyFlags ==> r == CurrencyFlags[currency]
  {
    if currency in CurrencyFlags then CurrencyFlags[currency] else ""
  }
}
