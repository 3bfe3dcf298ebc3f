/** `src/cli.rs`: the `check` command (lines 42-57) and `source add`
    (lines 64-71). `check` walks the registry once: for each source it fetches
    the current instant, announces the source when a stored instant exists
    and is strictly older, and saves a stamped copy whether or not it
    announced. */
module Cli {
  import opened Wrappers
  import opened Time
  import opened SourceTypes
  import opened Sources
  import opened Files
  import opened Web
  import opened Fetch
  import opened Repository
  import Maps

  /** The file `Source::repo()` opens. */
  const REPO_PATH := "./list.yml"

  /** "Source {name} has updates! Check it here {target url}". */
  datatype Notice = Notice(name: string, targetUrl: string)

  /** "Cannot save {name}: {error}". */
  datatype SaveFailure = SaveFailure(name: string, error: Error)

  /** The outcome of checking a run of sources: the command's result, what
      was printed to standard output and to standard error, and the state of
      the registry file afterwards. */
  datatype Run = Run(result: Result<(), Error>, notices: seq<Notice>, unsaved: seq<SaveFailure>,
                     file: Option<FileState<Source>>)

  /** A source is announced when it has a stored instant strictly older than
      the fetched one. */
  predicate Newer(prev: Option<DateTime>, curr: DateTime)
  {
    prev.Some? && prev.value < curr
  }

  /** Every source of `ss` is in the fetch's domain. */
  predicate AllFetchable(env: Env, ss: seq<Source>)
  {
    forall i :: 0 <= i < |ss| ==> Fetchable(env, ss[i])
  }

  /** Every fetch of `ss` succeeds. */
  predicate AllFetched(env: Env, ss: seq<Source>)
    requires AllFetchable(env, ss)
  {
    forall i :: 0 <= i < |ss| ==> GetLastUpdateDate(env, ss[i]).Ok?
  }

  /** `Source::repo()` succeeds on the file: it is missing, or readable and
      parsed. */
  predicate Opens(file: Option<FileState<Source>>, readable: bool)
  {
    Initial(REPO_PATH, file, readable).Ok?
  }

  /** What handling one source does: `stop` is the error that ends the
      command, if any; `notice` and `failed` are what was printed; `file` is
      the registry file afterwards. */
  datatype Step = Step(stop: Option<Error>, notice: seq<Notice>, failed: seq<SaveFailure>,
                       file: Option<FileState<Source>>)

  /** One turn of the `check` loop, from registry file `file` (`readable` and
      `writable` say whether the path may be opened and created): fetch,
      announce if newer, reopen the registry, save the stamped copy. A fetch
      error or a failure to reopen ends the command; a failed write is
      reported and does not. */
  function CheckOne(env: Env, s: Source, file: Option<FileState<Source>>, readable: bool, writable: bool): (r: Step)
    requires Fetchable(env, s)
    ensures |r.notice| <= 1 && |r.failed| <= 1
    ensures r.stop.None? ==> GetLastUpdateDate(env, s).Ok? && Initial(REPO_PATH, file, readable).Ok?
    ensures r.notice != [] <==> GetLastUpdateDate(env, s).Ok? && Newer(s.lastAt, GetLastUpdateDate(env, s).value)
    ensures r.notice != [] ==> r.notice == [Notice(s.name, s.targetUrl)]
    ensures r.failed != [] <==> r.stop.None? && !writable
    ensures r.file != file ==> r.stop.None? && writable
  {
    match GetLastUpdateDate(env, s)
    case Err(e) => Step(Some(e), [], [], file)
    case Ok(curr) =>
      var notice := if Newer(s.lastAt, curr) then [Notice(s.name, s.targetUrl)] else [];
      match Initial(REPO_PATH, file, readable)
      case Err(e) => Step(Some(e), notice, [], file)
      case Ok(m) =>
        if writable then Step(None, notice, [], Some(Parsed(Upsert(m, s.WithLastCheckedAt(curr)))))
        else Step(None, notice, [SaveFailure(s.name, PermissionDenied(REPO_PATH))], file)
  }

  /** Earlier output in front of a run. */
  function After(notices: seq<Notice>, unsaved: seq<SaveFailure>, run: Run): Run
  {
    Run(run.result, notices + run.notices, unsaved + run.unsaved, run.file)
  }

  /** The `check` loop over `ss`: one `CheckOne` per source, in order, until
      one of them ends the command. */
  function CheckFrom(env: Env, ss: seq<Source>, file: Option<FileState<Source>>, readable: bool, writable: bool): (r: Run)
    requires AllFetchable(env, ss)
    ensures |r.notices| <= |ss| && |r.unsaved| <= |ss|
    ensures !writable ==> r.file == file
    ensures writable ==> r.unsaved == []
    decreases |ss|
  {
    if ss == [] then Run(Ok(()), [], [], file)
    else
      var step := CheckOne(env, ss[0], file, readable, writable);
      if step.stop.Some? then Run(Err(step.stop.value), step.notice, step.failed, step.file)
      else After(step.notice, step.failed, CheckFrom(env, ss[1..], step.file, readable, writable))
  }

  lemma AfterAfter(n1: seq<Notice>, u1: seq<SaveFailure>, n2: seq<Notice>, u2: seq<SaveFailure>, run: Run)
    ensures After(n1, u1, After(n2, u2, run)) == After(n1 + n2, u1 + u2, run)
    ensures After([], [], run) == run
  {
    assert n1 + (n2 + run.notices) == (n1 + n2) + run.notices;
    assert u1 + (u2 + run.unsaved) == (u1 + u2) + run.unsaved;
  }

  /** The stored records are all in the fetch's domain. */
  ghost predicate StoredFetchable(env: Env, file: Option<FileState<Source>>)
  {
    file.Some? && file.value.Parsed? ==>
      forall k :: k in file.value.entries ==> Fetchable(env, file.value.entries[k])
  }

  /** `notifier check`: list the registry once, in its map's iteration order
      (`listed`), then handle the listed sources in turn. Only the registry
      file changes. */
  method Check(fs: FileSystem<Source>, env: Env)
    returns (r: Result<(), Error>, notices: seq<Notice>, unsaved: seq<SaveFailure>,
             ghost keys: seq<string>, ghost listed: seq<Source>)
    requires Initial(REPO_PATH, fs.At(REPO_PATH), REPO_PATH !in fs.unreadable).Ok? ==> StoredFetchable(env, fs.At(REPO_PATH))
    modifies fs`files
    ensures var init := Initial(REPO_PATH, old(fs.At(REPO_PATH)), REPO_PATH !in fs.unreadable);
      && (init.Err? ==> r == Err(init.error) && notices == [] && unsaved == [] && fs.files == old(fs.files))
      && (init.Ok? ==>
            && Maps.Lists(keys, listed, init.value)
            && AllFetchable(env, listed)
            && var run := CheckFrom(env, listed, old(fs.At(REPO_PATH)), REPO_PATH !in fs.unreadable, REPO_PATH !in fs.unwritable);
               r == run.result && notices == run.notices && unsaved == run.unsaved
               && fs.At(REPO_PATH) == run.file)
    ensures forall p :: p != REPO_PATH ==> fs.At(p) == old(fs.At(p))
  {
    notices, unsaved, keys, listed := [], [], [], [];
    var registry := SourceRepository.New(REPO_PATH, fs);
    if registry.Err? {
      return Err(registry.error), notices, unsaved, keys, listed;
    }
    var listing, ks := registry.value.List();
    var sources := listing.value;
    keys, listed := ks, sources;
    assert AllFetchable(env, sources) by {
      forall i | 0 <= i < |sources| ensures Fetchable(env, sources[i]) {
        assert sources[i] == registry.value.data[ks[i]];
      }
    }
    r, notices, unsaved := CheckEach(fs, env, sources);
  }

  /** The `for` loop of `check` over the listed sources. */
  method CheckEach(fs: FileSystem<Source>, env: Env, sources: seq<Source>)
    returns (r: Result<(), Error>, notices: seq<Notice>, unsaved: seq<SaveFailure>)
    requires AllFetchable(env, sources)
    modifies fs`files
    ensures var run := CheckFrom(env, sources, old(fs.At(REPO_PATH)), REPO_PATH !in fs.unreadable, REPO_PATH !in fs.unwritable);
      r == run.result && notices == run.notices && unsaved == run.unsaved && fs.At(REPO_PATH) == run.file
    ensures forall p :: p != REPO_PATH ==> fs.At(p) == old(fs.At(p))
  {
    notices, unsaved := [], [];
    ghost var file0 := fs.At(REPO_PATH);
    ghost var readable, writable := REPO_PATH !in fs.unreadable, REPO_PATH !in fs.unwritable;
    assert sources[0..] == sources;
    AfterAfter([], [], [], [], CheckFrom(env, sources, file0, readable, writable));
    var i := 0;
    while i < |sources|
      invariant 0 <= i <= |sources|
      invariant forall p :: p != REPO_PATH ==> fs.At(p) == old(fs.At(p))
      invariant CheckFrom(env, sources, file0, readable, writable)
                  == After(notices, unsaved, CheckFrom(env, sources[i..], fs.At(REPO_PATH), readable, writable))
    {
      ghost var file := fs.At(REPO_PATH);
      assert sources[i..][0] == sources[i] && sources[i..][1..] == sources[i + 1..];
      var stop, notice, failed := CheckSource(fs, env, sources[i]);
      AfterAfter(notices, unsaved, notice, failed, CheckFrom(env, sources[i + 1..], fs.At(REPO_PATH), readable, writable));
      notices, unsaved := notices + notice, unsaved + failed;
      if stop.Some? {
        return Err(stop.value), notices, unsaved;
      }
      i := i + 1;
    }
    r := Ok(());
  }

  /** The body of the `for` loop of `check` for one source `s`. */
  method CheckSource(fs: FileSystem<Source>, env: Env, s: Source)
    returns (stop: Option<Error>, notice: seq<Notice>, failed: seq<SaveFailure>)
    requires Fetchable(env, s)
    modifies fs`files
    ensures CheckOne(env, s, old(fs.At(REPO_PATH)), REPO_PATH !in fs.unreadable, REPO_PATH !in fs.unwritable)
            == Step(stop, notice, failed, fs.At(REPO_PATH))
    ensures forall p :: p != REPO_PATH ==> fs.At(p) == old(fs.At(p))
  {
    notice, failed := [], [];
    var curr := GetLastUpdateDate(env, s);
    if curr.Err? {
      return Some(curr.error), notice, failed;
    }
    if Newer(s.lastAt, curr.value) {
      notice := [Notice(s.name, s.targetUrl)];
    }
    var repo := SourceRepository.New(REPO_PATH, fs);
    if repo.Err? {
      return Some(repo.error), notice, failed;
    }
    var saved := repo.value.Save(s.WithLastCheckedAt(curr.value));
    if saved.Err? {
      failed := [SaveFailure(s.name, saved.error)];
    }
    stop := None;
  }

  /** `notifier source add`: open the registry and save a new record with no
      last-seen instant. The type argument is one of "rss" and "html" (the
      argument parser admits no other), parsed by `SourceTypes.From`. */
  method Add(fs: FileSystem<Source>, name: string, targetUrl: string, checkUrl: string,
             typ: string, datetimeFormat: string, offset: i32)
    returns (r: Result<(), Error>)
    requires typ == "rss" || typ == "html"
    modifies fs`files
    ensures var init := Initial(REPO_PATH, old(fs.At(REPO_PATH)), REPO_PATH !in fs.unreadable);
      && (init.Err? ==> r == Err(init.error))
      && (init.Ok? ==> (r.Ok? <==> REPO_PATH !in fs.unwritable))
      && (r.Ok? ==> fs.files == old(fs.files)[REPO_PATH := Parsed(Upsert(init.value,
                       New(name, targetUrl, checkUrl, From(typ), datetimeFormat, offset)))])
      && (r.Err? ==> fs.files == old(fs.files))
  {
    assert Lower(typ) == typ;
    var registry := SourceRepository.New(REPO_PATH, fs);
    if registry.Err? {
      return Err(registry.error);
    }
    r := registry.value.Save(New(name, targetUrl, checkUrl, From(typ), datetimeFormat, offset));
  }
}
