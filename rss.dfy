/** `src/source/rss.rs`: the RSS/Atom fetcher. GET the feed, take the first
    entry's publication date, parse it with the source's pattern as a local
    reading, and shift it by the source's fixed offset to UTC. */
module Rss {
  import opened Wrappers
  import opened Time
  import opened Web

  /** `get_last_update_date`. A transport failure and a date that does not
      match the pattern are errors; on success the result is the UTC instant
      whose reading at `offset` is the first entry's date. */
  function GetLastUpdateDate(env: Env, url: string, datetimeFormat: string, offset: FixedOffset): (r: Result<DateTime, Error>)
    requires FeedReadable(env, url)
    ensures env.get(url).Err? ==> r == Err(env.get(url).error)
    ensures env.get(url).Ok? ==>
      var local := env.parseLocal(PublishedAt(env, url), datetimeFormat);
      && (r.Ok? <==> local.Some?)
      && (r.Ok? ==> r.value + offset == local.value)
      && (r.Err? ==> r.error == DateMismatch(PublishedAt(env, url), datetimeFormat))
  {
    match env.get(url)
    case Err(e) => Err(e)
    case Ok(body) =>
      var publishedAt := FirstDate(env.parseFeed(body).value).value;
      match env.parseLocal(publishedAt, datetimeFormat)
      case None => Err(DateMismatch(publishedAt, datetimeFormat))
      case Some(date) => Ok(ToUtc(date, offset))
  }

  /** Only the first entry is consulted: two feeds whose first entries carry
      the same date give the same result, whatever follows. */
  lemma OnlyFirstEntryConsulted(env: Env, env': Env, url: string, datetimeFormat: string, offset: FixedOffset)
    requires FeedReadable(env, url) && FeedReadable(env', url)
    requires env.get(url) == env'.get(url) && env.parseLocal == env'.parseLocal
    requires env.get(url).Ok? ==> PublishedAt(env, url) == PublishedAt(env', url)
    ensures GetLastUpdateDate(env, url, datetimeFormat, offset) == GetLastUpdateDate(env', url, datetimeFormat, offset)
  {
  }

  /** The same feed under two offsets: both succeed or both fail, and the
      instants differ by exactly the difference of the offsets. */
  lemma OffsetShift(env: Env, url: string, datetimeFormat: string, o1: FixedOffset, o2: FixedOffset)
    requires FeedReadable(env, url)
    ensures GetLastUpdateDate(env, url, datetimeFormat, o1).Ok?
        <==> GetLastUpdateDate(env, url, datetimeFormat, o2).Ok?
    ensures GetLastUpdateDate(env, url, datetimeFormat, o1).Ok? ==>
      GetLastUpdateDate(env, url, datetimeFormat, o1).value
        - GetLastUpdateDate(env, url, datetimeFormat, o2).value == o2 - o1
  {
  }

  /** For one offset, a feed whose first date reads later gives a later
      instant. */
  lemma LaterReadingLaterInstant(env: Env, env': Env, url: string, datetimeFormat: string, offset: FixedOffset)
    requires FeedReadable(env, url) && FeedReadable(env', url)
    requires GetLastUpdateDate(env, url, datetimeFormat, offset).Ok?
    requires GetLastUpdateDate(env', url, datetimeFormat, offset).Ok?
    ensures env.parseLocal(PublishedAt(env, url), datetimeFormat).value
              < env'.parseLocal(PublishedAt(env', url), datetimeFormat).value
        <==> GetLastUpdateDate(env, url, datetimeFormat, offset).value
              < GetLastUpdateDate(env', url, datetimeFormat, offset).value
  {
  }
}
