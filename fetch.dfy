/** `src/source/mod.rs`: pick the fetcher for a source by its type tag. */
module Fetch {
  import opened Wrappers
  import opened Time
  import opened SourceTypes
  import opened Sources
  import opened Web
  import Rss

  /** The sources a fetch is defined for: RSS sources whose offset is a
      valid `FixedOffset` and whose feed yields a date string. HTML sources
      reach `unimplemented!()`. */
  predicate Fetchable(env: Env, s: Source)
  {
    && s.typ == RSS
    && -SECONDS_PER_DAY < s.offset < SECONDS_PER_DAY
    && FeedReadable(env, s.checkUrl)
  }

  /** `get_last_update_date`: an RSS source is handed to the RSS fetcher with
      its check URL, its own date pattern and its offset as seconds east, and
      that fetcher's result or error is returned unchanged. */
  function GetLastUpdateDate(env: Env, s: Source): (r: Result<DateTime, Error>)
    requires Fetchable(env, s)
    ensures r == Rss.GetLastUpdateDate(env, s.checkUrl, s.datetimeFormat, East(s.offset))
  {
    match s.typ
    case RSS => Rss.GetLastUpdateDate(env, s.checkUrl, s.datetimeFormat, East(s.offset))
  }

  /** The fetch reads the check URL, pattern, offset and type only: the name,
      the target URL and the last-seen instant do not affect it. */
  lemma FetchIgnoresTargetUrl(env: Env, s: Source, name: string, targetUrl: string, lastAt: Option<DateTime>)
    requires Fetchable(env, s)
    ensures Fetchable(env, s.(name := name, targetUrl := targetUrl, lastAt := lastAt))
    ensures GetLastUpdateDate(env, s.(name := name, targetUrl := targetUrl, lastAt := lastAt))
            == GetLastUpdateDate(env, s)
  {
  }

  /** An HTML source is outside the fetch's domain. */
  lemma HtmlNotFetchable(env: Env, s: Source)
    requires s.typ == HTML
    ensures !Fetchable(env, s)
  {
  }
}
