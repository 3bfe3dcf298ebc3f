/** `src/infrastructure.rs`: a YAML registry that re-reads its file before
    every operation, the factory that opens a connection for a source, and the
    RSS connection with its fixed "%F %T" date pattern. */
module Infrastructure {
  import opened Wrappers
  import opened Time
  import opened SourceTypes
  import opened Files
  import opened Web
  import Domain
  import Maps
  import Rss

  /** chrono's "%F %T": "YYYY-MM-DD hh:mm:ss". */
  const FEED_DATE_FORMAT := "%F %T"

  class YamlSourceRepository {
    const path: string
    const fs: FileSystem<Domain.Source>
    var sources: map<string, Domain.Source>

    /** `YamlSourceRepository::new`: an empty map; the file is not read yet. */
    constructor (path: string, fs: FileSystem<Domain.Source>)
      ensures this.path == path && this.fs == fs && sources == map[]
    {
      this.path := path;
      this.fs := fs;
      this.sources := map[];
    }

    /** `load`: replace the map with the file's contents. A missing,
        forbidden or unparsable file is an error and leaves the map alone. */
    method Load() returns (r: Result<(), Error>)
      modifies this`sources
      ensures var read := ReadYaml(path, fs.At(path), path !in fs.unreadable);
        && (r.Ok? <==> read.Ok?)
        && (r.Err? ==> r.error == read.error && sources == old(sources))
        && (r.Ok? ==> sources == read.value)
    {
      var read := fs.Open(path);
      if read.Err? {
        return Err(read.error);
      }
      sources := read.value;
      r := Ok(());
    }

    /** `dump`: opens the file with `File::open`, which gives a read-only
        handle, so the write never succeeds and the file never changes. */
    method Dump() returns (r: Result<(), Error>)
      ensures r.Err?
      ensures path in fs.files && path !in fs.unreadable ==> r.error == ReadOnlyHandle(path)
    {
      r := fs.WriteThroughReadHandle(path, sources);
    }

    /** `dump` as evidently intended, opening the file with `File::create`:
        the whole map is written, and reading the file back gives it again. */
    method DumpCreate() returns (r: Result<(), Error>)
      modifies fs`files
      ensures r.Ok? <==> path !in fs.unwritable
      ensures r.Ok? ==> fs.At(path) == Some(Parsed(sources))
      ensures r.Ok? && path !in fs.unreadable ==> ReadYaml(path, fs.At(path), true) == Ok(sources)
      ensures forall p :: p != path ==> fs.At(p) == old(fs.At(p))
      ensures r.Err? ==> fs.files == old(fs.files)
    {
      r := fs.Create(path, sources);
    }

    /** `save`: reload, then insert under the record's name. `dump` is not
        called, so the file is never written. */
    method Save(s: Domain.Source) returns (r: Result<(), Error>)
      modifies this`sources
      ensures var read := ReadYaml(path, fs.At(path), path !in fs.unreadable);
        && (r.Ok? <==> read.Ok?)
        && (r.Err? ==> r.error == read.error && sources == old(sources))
        && (r.Ok? ==> sources == read.value[s.name := s])
    {
      r := Load();
      if r.Err? {
        return;
      }
      sources := sources[s.name := s];
      r := Ok(());
    }

    /** `list`: reload, then iterate over the map's entries, cloning each
        value. */
    method List() returns (r: Result<Domain.SourceIterator<(string, Domain.Source)>, Error>, ghost keys: seq<string>, ghost values: seq<Domain.Source>)
      modifies this`sources
      ensures var read := ReadYaml(path, fs.At(path), path !in fs.unreadable);
        && (r.Ok? <==> read.Ok?)
        && (r.Err? ==> r.error == read.error && sources == old(sources))
        && (r.Ok? ==> && sources == read.value
                      && fresh(r.value)
                      && Maps.Lists(keys, values, sources)
                      && r.value.iter == seq(|keys|, i requires 0 <= i < |keys| => (keys[i], values[i]))
                      && (forall e :: r.value.mapper(e) == e.1))
    {
      var loaded := Load();
      if loaded.Err? {
        return Err(loaded.error), [], [];
      }
      var ks, vs := Maps.Entries(sources);
      keys, values := ks, vs;
      var entries := seq(|ks|, i requires 0 <= i < |ks| => (ks[i], vs[i]));
      var it := new Domain.SourceIterator(entries, (e: (string, Domain.Source)) => e.1);
      r := Ok(it);
    }
  }

  /** A connection to an RSS source: its URL and its fixed offset. */
  datatype RssConnection = RssConnection(url: string, datetimeOffset: FixedOffset)
  {
    /** Whether every `unwrap` in `get_new` succeeds: the feed yields a date
        string and that string matches "%F %T". */
    predicate Readable(env: Env)
    {
      && FeedReadable(env, url)
      && (env.get(url).Ok? ==> env.parseLocal(PublishedAt(env, url), FEED_DATE_FORMAT).Some?)
    }

    /** `get_new`: the RSS fetch with the pattern fixed to "%F %T". Only a
        transport failure is an error; on success the result is the UTC
        instant whose reading at the offset is the first entry's date. */
    function GetNew(env: Env): (r: Result<DateTime, Error>)
      requires Readable(env)
      ensures r.Ok? <==> env.get(url).Ok?
      ensures r.Err? ==> r.error == env.get(url).error
      ensures r.Ok? ==> r.value + datetimeOffset == env.parseLocal(PublishedAt(env, url), FEED_DATE_FORMAT).value
    {
      match env.get(url)
      case Err(e) => Err(e)
      case Ok(body) =>
        var publishedAt := FirstDate(env.parseFeed(body).value).value;
        var date := env.parseLocal(publishedAt, FEED_DATE_FORMAT).value;
        Ok(ToUtc(date, datetimeOffset))
    }
  }

  /** The two fetch paths agree: `get_new` is `rss::get_last_update_date`
      with the pattern "%F %T", wherever the date parses. */
  lemma GetNewAgreesWithRssFetcher(conn: RssConnection, env: Env)
    requires conn.Readable(env)
    ensures conn.GetNew(env) == Rss.GetLastUpdateDate(env, conn.url, FEED_DATE_FORMAT, conn.datetimeOffset)
  {
  }

  /** The sources `create` returns for: RSS sources with a valid offset. An
      HTML source reaches `unimplemented!()`. */
  predicate Connectable(s: Domain.Source)
  {
    s.typ == RSS && -SECONDS_PER_DAY < s.offset < SECONDS_PER_DAY
  }

  /** `ConnectionFactory::create`: an RSS source gets a connection to its URL
      at its offset as seconds east. */
  function Create(s: Domain.Source): (r: Result<RssConnection, Error>)
    requires Connectable(s)
    ensures r.Ok? && r.value.url == s.url && r.value.datetimeOffset == s.offset as int
  {
    match s.typ
    case RSS => Ok(RssConnection(s.url, East(s.offset)))
  }

  /** Opening a connection and fetching through it is the RSS fetch of the
      source's URL at the source's offset. */
  lemma CreateThenGetNew(s: Domain.Source, env: Env)
    requires Connectable(s) && Create(s).value.Readable(env)
    ensures Create(s).value.GetNew(env) == Rss.GetLastUpdateDate(env, s.url, FEED_DATE_FORMAT, s.offset)
  {
    GetNewAgreesWithRssFetcher(Create(s).value, env);
  }
}
