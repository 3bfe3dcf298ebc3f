/** What the fetchers consume from outside: the HTTP client, the syndication
    parser and chrono's strftime-style parser, each as a function the model
    does not look inside. */
module Web {
  import opened Wrappers
  import opened Time

  /** A parsed feed, reduced to the publication date string of each entry in
      document order: Atom entries' `published`, RSS items' `pubDate`. */
  datatype Feed = Atom(published: seq<Option<string>>) | Rss(pubDates: seq<Option<string>>)

  /** The outside world a fetch runs against. */
  datatype Env = Env(
    get: string -> Result<string, Error>,              // reqwest::blocking::get(url) and resp.text()
    parseFeed: string -> Option<Feed>,                  // text.parse::<Feed>()
    parseLocal: (string, string) -> Option<NaiveDateTime>) // NaiveDateTime::parse_from_str(text, format)

  /** The date strings of a feed's entries, in document order. */
  function Dates(f: Feed): seq<Option<string>>
  {
    match f
    case Atom(ps) => ps
    case Rss(ps) => ps
  }

  /** The date string of a feed's first entry, if it has an entry with one:
      the first entry alone decides, whatever follows it. */
  function FirstDate(f: Feed): (r: Option<string>)
    ensures Dates(f) == [] ==> r == None
    ensures Dates(f) != [] ==> r == Dates(f)[0]
  {
    match f
    case Atom(ps) => if ps == [] then None else ps[0]
    case Rss(ps) => if ps == [] then None else ps[0]
  }

  /** Whether every `unwrap` between a successful GET and the date string
      succeeds: the body parses as a feed whose first entry has a date. */
  predicate FeedReadable(env: Env, url: string): (r: bool)
    ensures env.get(url).Err? ==> r
    ensures r && env.get(url).Ok? ==> env.parseFeed(env.get(url).value).Some?
    ensures env.get(url).Ok? && env.parseFeed(env.get(url).value).Some? ==>
              (r <==> Dates(env.parseFeed(env.get(url).value).value) != []
                      && Dates(env.parseFeed(env.get(url).value).value)[0].Some?)
  {
    env.get(url).Ok? ==>
      var feed := env.parseFeed(env.get(url).value);
      feed.Some? && FirstDate(feed.value).Some?
  }

  /** The first entry's date string of the feed behind `url`. */
  function PublishedAt(env: Env, url: string): string
    requires env.get(url).Ok? && FeedReadable(env, url)
  {
    FirstDate(env.parseFeed(env.get(url).value).value).value
  }
}
