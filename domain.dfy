/** The older domain layer of `src/domain.rs`: a case-sensitive parse of the
    source type tag, a record without a date format, and the iterator adapter
    that turns stored entries into records. The enum itself is the same
    two-variant `SourceType`, and its `to_string` is `SourceTypes.ToString`. */
module Domain {
  import opened Wrappers
  import opened Time
  import opened SourceTypes

  /** `<SourceType as FromStr>::from_str`: exact matches only. It accepts
      exactly the two printed forms, and what it accepts prints back as the
      input. */
  function FromStr(s: string): (r: Result<SourceType, string>)
    ensures r.Ok? <==> s == "rss" || s == "html"
    ensures r.Ok? ==> ToString(r.value) == s
    ensures r.Err? ==> r.error == "no match"
  {
    match s
    case "rss" => Ok(RSS)
    case "html" => Ok(HTML)
    case _ => Err("no match")
  }

  /** `<SourceType as From<&str>>::from`: the same exact match, with every
      other string reaching `unreachable!()`. It agrees with `FromStr`. */
  function From(s: string): (t: SourceType)
    requires s == "rss" || s == "html"
    ensures FromStr(s) == Ok(t)
  {
    match s
    case "rss" => RSS
    case "html" => HTML
  }

  /** Printing and then parsing gives the variant back. */
  lemma FromStrToStringRoundTrip(t: SourceType)
    ensures FromStr(ToString(t)) == Ok(t)
  {
  }

  /** The older parse is case-sensitive where the newer one is not: "RSS" is
      rejected here and accepted by `SourceTypes.From`. Both parses agree on
      every input the older one accepts. */
  lemma OlderParseIsCaseSensitive(s: string)
    ensures FromStr("RSS").Err? && FromStr("Html").Err?
    ensures SourceTypes.IsTypeName("RSS") && SourceTypes.From("RSS") == RSS
    ensures FromStr(s).Ok? ==> SourceTypes.IsTypeName(s) && SourceTypes.From(s) == FromStr(s).value
  {
    SourceTypes.MixedCaseExamples();
  }

  /** The record of `src/domain.rs`: one URL and no date format. */
  datatype Source = Source(
    name: string,
    url: string,
    typ: SourceType,
    offset: i32,
    lastCheckedAt: Option<DateTime>)
  {
    /** `with_last_checked_at`: a copy that differs in the last-checked
        instant only. */
    function WithLastCheckedAt(date: DateTime): (r: Source)
      ensures r.lastCheckedAt == Some(date)
      ensures r.(lastCheckedAt := lastCheckedAt) == this
    {
      this.(lastCheckedAt := Some(date))
    }
  }

  /** `Source::new`: the given fields and no last-checked instant. */
  function New(name: string, url: string, typ: SourceType, offset: i32): (r: Source)
    ensures r.lastCheckedAt == None
    ensures r.name == name && r.url == url && r.typ == typ && r.offset == offset
  {
    Source(name, url, typ, offset, None)
  }

  /** Stamping a new record sets the instant and changes nothing else;
      stamping twice keeps only the second instant. */
  lemma NewThenStamp(name: string, url: string, typ: SourceType, offset: i32, d1: DateTime, d2: DateTime)
    ensures New(name, url, typ, offset).WithLastCheckedAt(d1) == Source(name, url, typ, offset, Some(d1))
    ensures New(name, url, typ, offset).WithLastCheckedAt(d1).WithLastCheckedAt(d2)
            == New(name, url, typ, offset).WithLastCheckedAt(d2)
  {
  }

  /** `SourceIterator`: an underlying iterator, modelled by the items it has
      still to yield, and the mapper applied to each of them. */
  class SourceIterator<I> {
    var iter: seq<I>
    const mapper: I -> Source

    constructor (iter: seq<I>, mapper: I -> Source)
      ensures this.iter == iter && this.mapper == mapper
    {
      this.iter := iter;
      this.mapper := mapper;
    }

    /** `next`: the mapped next item, or `None` exactly when the underlying
        iterator is exhausted (which then stays exhausted). */
    method Next() returns (r: Option<Source>)
      modifies this`iter
      ensures old(iter) == [] ==> r == None && iter == []
      ensures old(iter) != [] ==> r == Some(mapper(old(iter)[0])) && iter == old(iter)[1..]
    {
      if iter == [] {
        r := None;
      } else {
        r := Some(mapper(iter[0]));
        iter := iter[1..];
      }
    }
  }
}
