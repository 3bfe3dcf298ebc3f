/** The monitored-source record of `src/domain/source/model.rs`: an immutable
    value whose only update is deriving a copy with a new last-seen instant. */
module Sources {
  import opened Wrappers
  import opened Time
  import opened SourceTypes

  /** One monitored feed or page. `targetUrl` is shown to the user and
      `checkUrl` is polled; `offset` is the source clock's fixed offset in
      seconds east of UTC; `lastAt` is absent until the first check. */
  datatype Source = Source(
    name: string,
    targetUrl: string,
    checkUrl: string,
    typ: SourceType,
    offset: i32,
    datetimeFormat: string,
    lastAt: Option<DateTime>)
  {
    /** `with_last_checked_at`: a copy that differs from this record in the
        last-seen instant only. */
    function WithLastCheckedAt(date: DateTime): (r: Source)
      ensures r.lastAt == Some(date)
      ensures r.(lastAt := lastAt) == this
    {
      this.(lastAt := Some(date))
    }
  }

  /** `Source::new`: a record with every given field and no last-seen instant. */
  function New(name: string, targetUrl: string, checkUrl: string, typ: SourceType,
               datetimeFormat: string, offset: i32): (r: Source)
    ensures r.lastAt == None
    ensures r.name == name && r.targetUrl == targetUrl && r.checkUrl == checkUrl
    ensures r.typ == typ && r.datetimeFormat == datetimeFormat && r.offset == offset
  {
    Source(name, targetUrl, checkUrl, typ, offset, datetimeFormat, None)
  }

  /** Stamping twice keeps only the second instant. */
  lemma LastStampWins(s: Source, d1: DateTime, d2: DateTime)
    ensures s.WithLastCheckedAt(d1).WithLastCheckedAt(d2) == s.WithLastCheckedAt(d2)
  {
  }

  /** Every record is recoverable from `new` and one stamp or none: the
      constructor and the update together reach exactly the records there are. */
  lemma NewThenStamp(s: Source)
    ensures s.lastAt.None? ==>
      s == New(s.name, s.targetUrl, s.checkUrl, s.typ, s.datetimeFormat, s.offset)
    ensures s.lastAt.Some? ==>
      s == New(s.name, s.targetUrl, s.checkUrl, s.typ, s.datetimeFormat, s.offset)
             .WithLastCheckedAt(s.lastAt.value)
  {
  }

  /** Stamping never changes the identity a repository files a record under. */
  lemma StampKeepsIdentity(s: Source, d: DateTime)
    ensures s.WithLastCheckedAt(d).name == s.name
    ensures s.WithLastCheckedAt(d) != s <==> s.lastAt != Some(d)
  {
  }
}
