/** What one `check` run promises, proved about `Cli.CheckFrom`: which
    sources are announced, that every checked source is saved with its new
    instant whatever the comparison said, and which failures end the run. */
module CheckProperties {
  import opened Wrappers
  import opened Time
  import opened Sources
  import opened Files
  import opened Web
  import opened Fetch
  import opened Repository
  import opened Cli
  import Maps

  /** The instant fetched for source `i` of `ss`. */
  function Fetched(env: Env, ss: seq<Source>, i: nat): DateTime
    requires AllFetchable(env, ss) && AllFetched(env, ss) && i < |ss|
  {
    GetLastUpdateDate(env, ss[i]).value
  }

  /** Reference definition of the announcements: the sources, in order, whose
      stored instant exists and is strictly older than the fetched one. */
  function NewerNotices(env: Env, ss: seq<Source>): seq<Notice>
    requires AllFetchable(env, ss) && AllFetched(env, ss)
    decreases |ss|
  {
    if ss == [] then []
    else
      (if Newer(ss[0].lastAt, Fetched(env, ss, 0)) then [Notice(ss[0].name, ss[0].targetUrl)] else [])
      + NewerNotices(env, ss[1..])
  }

  /** The records a successful run saves: each source stamped with its
      fetched instant. */
  function Stamped(env: Env, ss: seq<Source>): (ts: seq<Source>)
    requires AllFetchable(env, ss) && AllFetched(env, ss)
    ensures |ts| == |ss|
    ensures forall i :: 0 <= i < |ss| ==> ts[i] == ss[i].WithLastCheckedAt(Fetched(env, ss, i))
  {
    seq(|ss|, i requires 0 <= i < |ss| => ss[i].WithLastCheckedAt(Fetched(env, ss, i)))
  }

  /** Upserting records one after another. */
  function UpsertAll(m: map<string, Source>, ts: seq<Source>): map<string, Source>
    decreases |ts|
  {
    if ts == [] then m else UpsertAll(Upsert(m, ts[0]), ts[1..])
  }

  predicate DistinctNames(ss: seq<Source>)
  {
    forall i, j :: 0 <= i < j < |ss| ==> ss[i].name != ss[j].name
  }

  /** Running over `a + b` is running over `a` and, if that did not end the
      command, over `b` from where `a` left the file. */
  lemma {:induction false} CheckAppend(env: Env, a: seq<Source>, b: seq<Source>,
                                       file: Option<FileState<Source>>, readable: bool, writable: bool)
    requires AllFetchable(env, a + b)
    ensures AllFetchable(env, a) && AllFetchable(env, b)
    ensures var ra := CheckFrom(env, a, file, readable, writable);
      CheckFrom(env, a + b, file, readable, writable)
        == if ra.result.Ok? then After(ra.notices, ra.unsaved, CheckFrom(env, b, ra.file, readable, writable)) else ra
  {
    assert forall i :: 0 <= i < |a| ==> (a + b)[i] == a[i];
    assert forall i :: 0 <= i < |b| ==> (a + b)[|a| + i] == b[i];
    if a == [] {
      assert a + b == b;
      AfterAfter([], [], [], [], CheckFrom(env, b, file, readable, writable));
    } else {
      assert (a + b)[0] == a[0] && (a + b)[1..] == a[1..] + b;
      var step := CheckOne(env, a[0], file, readable, writable);
      if step.stop.None? {
        CheckAppend(env, a[1..], b, step.file, readable, writable);
        var ra' := CheckFrom(env, a[1..], step.file, readable, writable);
        if ra'.result.Ok? {
          AfterAfter(step.notice, step.failed, ra'.notices, ra'.unsaved,
                     CheckFrom(env, b, ra'.file, readable, writable));
        }
      }
    }
  }

  /** A fetch error ends the whole command: the sources after it are neither
      compared nor saved, so the output and the file are those of the sources
      before it. */
  lemma FetchErrorEndsRun(env: Env, a: seq<Source>, b: seq<Source>,
                          file: Option<FileState<Source>>, readable: bool, writable: bool)
    requires AllFetchable(env, a + b) && b != []
    requires AllFetchable(env, b) ==> GetLastUpdateDate(env, b[0]).Err?
    ensures AllFetchable(env, a)
    ensures var ra := CheckFrom(env, a, file, readable, writable);
      var run := CheckFrom(env, a + b, file, readable, writable);
      run.result.Err? && run.notices == ra.notices && run.unsaved == ra.unsaved && run.file == ra.file
  {
    CheckAppend(env, a, b, file, readable, writable);
    var ra := CheckFrom(env, a, file, readable, writable);
    if ra.result.Ok? {
      AfterAfter(ra.notices, ra.unsaved, [], [], Run(Err(GetLastUpdateDate(env, b[0]).error), [], [], ra.file));
    }
  }

  /** A run that succeeds fetched every source. */
  lemma {:induction false} SuccessFetchedAll(env: Env, ss: seq<Source>,
                                             file: Option<FileState<Source>>, readable: bool, writable: bool)
    requires AllFetchable(env, ss)
    requires CheckFrom(env, ss, file, readable, writable).result.Ok?
    ensures AllFetched(env, ss)
    decreases |ss|
  {
    if ss != [] {
      var step := CheckOne(env, ss[0], file, readable, writable);
      SuccessFetchedAll(env, ss[1..], step.file, readable, writable);
      assert forall i :: 1 <= i < |ss| ==> ss[i] == ss[1..][i - 1];
    }
  }

  /** While the registry can be read, the run succeeds exactly when every
      fetch succeeds. */
  lemma {:induction false} SuccessIffAllFetched(env: Env, ss: seq<Source>,
                                                file: Option<FileState<Source>>, writable: bool)
    requires AllFetchable(env, ss) && Opens(file, true)
    ensures CheckFrom(env, ss, file, true, writable).result.Ok? <==> AllFetched(env, ss)
    decreases |ss|
  {
    if CheckFrom(env, ss, file, true, writable).result.Ok? {
      SuccessFetchedAll(env, ss, file, true, writable);
    } else if ss != [] && AllFetched(env, ss) {
      var step := CheckOne(env, ss[0], file, true, writable);
      assert forall i :: 0 <= i < |ss[1..]| ==> ss[1..][i] == ss[i + 1];
      SuccessIffAllFetched(env, ss[1..], step.file, writable);
    }
  }

  /** A successful run announces exactly the sources whose stored instant is
      strictly older than the fetched one, in order. */
  lemma {:induction false} NoticesAreTheNewer(env: Env, ss: seq<Source>,
                                              file: Option<FileState<Source>>, readable: bool, writable: bool)
    requires AllFetchable(env, ss)
    requires CheckFrom(env, ss, file, readable, writable).result.Ok?
    ensures AllFetched(env, ss)
    ensures CheckFrom(env, ss, file, readable, writable).notices == NewerNotices(env, ss)
    decreases |ss|
  {
    SuccessFetchedAll(env, ss, file, readable, writable);
    if ss != [] {
      var step := CheckOne(env, ss[0], file, readable, writable);
      assert forall i :: 0 <= i < |ss[1..]| ==> ss[1..][i] == ss[i + 1];
      NoticesAreTheNewer(env, ss[1..], step.file, readable, writable);
    }
  }

  /** Membership in the reference announcements, both ways. */
  lemma {:induction false} NewerNoticesMembers(env: Env, ss: seq<Source>, n: Notice)
    requires AllFetchable(env, ss) && AllFetched(env, ss)
    ensures n in NewerNotices(env, ss) <==>
      exists i :: 0 <= i < |ss| && Newer(ss[i].lastAt, Fetched(env, ss, i)) && n == Notice(ss[i].name, ss[i].targetUrl)
    decreases |ss|
  {
    if ss != [] {
      assert forall i :: 0 <= i < |ss[1..]| ==> ss[1..][i] == ss[i + 1];
      NewerNoticesMembers(env, ss[1..], n);
      if n in NewerNotices(env, ss[1..]) {
        var i :| 0 <= i < |ss[1..]| && Newer(ss[1..][i].lastAt, Fetched(env, ss[1..], i))
                 && n == Notice(ss[1..][i].name, ss[1..][i].targetUrl);
        assert Fetched(env, ss, i + 1) == Fetched(env, ss[1..], i);
      }
      if exists i :: 0 <= i < |ss| && Newer(ss[i].lastAt, Fetched(env, ss, i)) && n == Notice(ss[i].name, ss[i].targetUrl) {
        var i :| 0 <= i < |ss| && Newer(ss[i].lastAt, Fetched(env, ss, i)) && n == Notice(ss[i].name, ss[i].targetUrl);
        if i > 0 {
          assert Fetched(env, ss, i) == Fetched(env, ss[1..], i - 1);
        }
      }
    }
  }

  /** Sources never checked before are never announced, whatever the run's
      outcome. */
  lemma {:induction false} FirstCheckIsSilent(env: Env, ss: seq<Source>,
                                              file: Option<FileState<Source>>, readable: bool, writable: bool)
    requires AllFetchable(env, ss)
    requires forall i :: 0 <= i < |ss| ==> ss[i].lastAt.None?
    ensures CheckFrom(env, ss, file, readable, writable).notices == []
    decreases |ss|
  {
    if ss != [] {
      var step := CheckOne(env, ss[0], file, readable, writable);
      assert forall i :: 0 <= i < |ss[1..]| ==> ss[1..][i] == ss[i + 1];
      FirstCheckIsSilent(env, ss[1..], step.file, readable, writable);
    }
  }

  /** When the registry can be read and written, a successful run leaves the
      file holding the stored registry with every checked source upserted
      with its fetched instant, whether or not it was announced. */
  lemma {:induction false} RunSavesEveryStamp(env: Env, ss: seq<Source>, file: Option<FileState<Source>>)
    requires AllFetchable(env, ss) && Opens(file, true) && ss != []
    requires CheckFrom(env, ss, file, true, true).result.Ok?
    ensures AllFetched(env, ss)
    ensures CheckFrom(env, ss, file, true, true).file
            == Some(Parsed(UpsertAll(Initial(REPO_PATH, file, true).value, Stamped(env, ss))))
    decreases |ss|
  {
    SuccessFetchedAll(env, ss, file, true, true);
    var step := CheckOne(env, ss[0], file, true, true);
    var m := Initial(REPO_PATH, file, true).value;
    assert step.file == Some(Parsed(Upsert(m, Stamped(env, ss)[0])));
    assert forall i :: 0 <= i < |ss[1..]| ==> ss[1..][i] == ss[i + 1];
    assert Stamped(env, ss)[1..] == Stamped(env, ss[1..]);
    if ss[1..] != [] {
      RunSavesEveryStamp(env, ss[1..], step.file);
    } else {
      assert Stamped(env, ss[1..]) == [];
    }
  }

  /** After upserting records with distinct names, each is stored under its
      name, and every other key keeps its entry. */
  lemma {:induction false} UpsertAllSemantics(m: map<string, Source>, ts: seq<Source>)
    requires DistinctNames(ts)
    ensures forall i :: 0 <= i < |ts| ==> ts[i].name in UpsertAll(m, ts) && UpsertAll(m, ts)[ts[i].name] == ts[i]
    ensures forall k :: (forall i :: 0 <= i < |ts| ==> ts[i].name != k) ==>
              (k in UpsertAll(m, ts) <==> k in m) && (k in m ==> UpsertAll(m, ts)[k] == m[k])
    decreases |ts|
  {
    if ts != [] {
      UpsertSemantics(m, ts[0]);
      assert forall i :: 0 <= i < |ts[1..]| ==> ts[1..][i] == ts[i + 1];
      UpsertAllSemantics(Upsert(m, ts[0]), ts[1..]);
    }
  }

  /** The persistence promise per source: with distinct names and a readable,
      writable registry, a successful run stores every checked source with
      its fetched instant, including when that instant is not newer than the
      stored one, and leaves records of other names alone. */
  lemma EveryCheckedSourceStamped(env: Env, ss: seq<Source>, file: Option<FileState<Source>>)
    requires AllFetchable(env, ss) && Opens(file, true) && ss != [] && DistinctNames(ss)
    requires CheckFrom(env, ss, file, true, true).result.Ok?
    ensures AllFetched(env, ss)
    ensures var after := CheckFrom(env, ss, file, true, true).file;
      && after.Some? && after.value.Parsed?
      && (forall i :: 0 <= i < |ss| ==>
            ss[i].name in after.value.entries
            && after.value.entries[ss[i].name] == ss[i].WithLastCheckedAt(Fetched(env, ss, i)))
      && (forall k :: k in Initial(REPO_PATH, file, true).value && (forall i :: 0 <= i < |ss| ==> ss[i].name != k) ==>
            k in after.value.entries && after.value.entries[k] == Initial(REPO_PATH, file, true).value[k])
  {
    RunSavesEveryStamp(env, ss, file);
    var ts := Stamped(env, ss);
    assert forall i :: 0 <= i < |ts| ==> ts[i].name == ss[i].name;
    UpsertAllSemantics(Initial(REPO_PATH, file, true).value, ts);
  }

  /** A failed write does not stop the run: when the registry opens but
      cannot be written (a read-only file, or a missing one that cannot be
      created), every fetched source is reported as not saved, the
      announcements still happen, the file is left as it was, and the run
      succeeds. Within one `Cli.Check` a missing registry lists no sources,
      so the missing-file case arises only when the file changes outside
      the run. */
  lemma {:induction false} WriteFailuresAreReported(env: Env, ss: seq<Source>,
                                                    file: Option<FileState<Source>>, readable: bool)
    requires AllFetchable(env, ss) && AllFetched(env, ss) && Opens(file, readable)
    ensures var run := CheckFrom(env, ss, file, readable, false);
      && run.result.Ok?
      && run.notices == NewerNotices(env, ss)
      && run.unsaved == seq(|ss|, i requires 0 <= i < |ss| => SaveFailure(ss[i].name, PermissionDenied(REPO_PATH)))
      && run.file == file
    decreases |ss|
  {
    if ss != [] {
      assert forall i :: 0 <= i < |ss[1..]| ==> ss[1..][i] == ss[i + 1];
      WriteFailuresAreReported(env, ss[1..], file, readable);
    }
  }

  /** A registry that cannot be reopened ends the run at the first source
      whose fetch succeeds, and nothing is written or reported unsaved.
      `Cli.Check` starts the loop only on a registry that opens, and saves
      store parsed maps only, so within one run this needs the file to
      change outside the run. */
  lemma UnopenableRegistryEndsRun(env: Env, ss: seq<Source>, file: Option<FileState<Source>>,
                                  readable: bool, writable: bool)
    requires AllFetchable(env, ss) && !Opens(file, readable) && ss != []
    ensures var run := CheckFrom(env, ss, file, readable, writable);
      run.result.Err? && run.file == file && run.unsaved == [] && |run.notices| <= 1
  {
  }

  /** A stored instant that is not older than the fetched one is still
      overwritten: the model keeps no monotonicity, as the code does not. */
  lemma StaleInstantStillRecorded(env: Env, s: Source, file: Option<FileState<Source>>)
    requires Fetchable(env, s) && Opens(file, true)
    requires GetLastUpdateDate(env, s).Ok? && s.lastAt.Some?
    requires GetLastUpdateDate(env, s).value <= s.lastAt.value
    ensures var run := CheckFrom(env, [s], file, true, true);
      && run.result.Ok? && run.notices == []
      && run.file.Some? && run.file.value.Parsed? && s.name in run.file.value.entries
      && run.file.value.entries[s.name].lastAt == Some(GetLastUpdateDate(env, s).value)
  {
    var curr := GetLastUpdateDate(env, s).value;
    var m := Initial(REPO_PATH, file, true).value;
    var step := CheckOne(env, s, file, true, true);
    assert step == Step(None, [], [], Some(Parsed(Upsert(m, s.WithLastCheckedAt(curr)))));
    assert [s][0] == s && [s][1..] == [];
    assert CheckFrom(env, [s], file, true, true) == After([], [], CheckFrom(env, [], step.file, true, true));
    UpsertSemantics(m, s.WithLastCheckedAt(curr));
  }

  /** A registry where every record sits under its own name lists records
      with distinct names, so the persistence promise applies to a whole
      `check` run over it. */
  lemma ListingOfKeyedRegistryHasDistinctNames(ks: seq<string>, vs: seq<Source>, m: map<string, Source>)
    requires Maps.Lists(ks, vs, m) && KeyedByName(m)
    ensures DistinctNames(vs)
  {
    forall i, j | 0 <= i < j < |vs| ensures vs[i].name != vs[j].name {
      assert vs[i] == m[ks[i]] && vs[j] == m[ks[j]];
    }
  }
}
