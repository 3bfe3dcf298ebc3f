/** The name-keyed registry of `src/domain/source/repository.rs`: a map held
    in memory, read from its file when the repository is opened and written
    back in full after every upsert. */
module Repository {
  import opened Wrappers
  import opened Sources
  import opened Files
  import Maps

  /** The map `SourceRepository::new` starts from: the parsed file when the
      path exists, an empty registry when it does not. */
  function Initial(path: string, f: Option<FileState<Source>>, readable: bool): (r: Result<map<string, Source>, Error>)
    ensures r.Ok? ==> (f.None? && r.value == map[]) || (readable && f == Some(Parsed(r.value)))
    ensures r.Err? ==> f.Some?
  {
    if f.None? then Ok(map[]) else ReadYaml(path, f, readable)
  }

  /** The map after `data.insert(s.name, s)`. */
  function Upsert(m: map<string, Source>, s: Source): (r: map<string, Source>)
    ensures s.name in r && r[s.name] == s
    ensures r.Keys == m.Keys + {s.name}
  {
    m[s.name := s]
  }

  /** Every record is filed under its own name. */
  ghost predicate KeyedByName(m: map<string, Source>)
  {
    forall k :: k in m ==> m[k].name == k
  }

  /** Opening a repository on a path fails only when a file is there but
      cannot be read or parsed; a missing file is a first run. */
  lemma InitialOutcome(path: string, f: Option<FileState<Source>>, readable: bool)
    ensures f.None? ==> Initial(path, f, readable) == Ok(map[])
    ensures Initial(path, f, readable).Ok? <==> f.None? || (f.value.Parsed? && readable)
    ensures f.Some? && f.value.Parsed? && readable ==> Initial(path, f, readable) == Ok(f.value.entries)
  {
  }

  /** Upsert semantics: the record is stored under its name, every other key
      keeps its entry, and the key count grows only for a new name. */
  lemma UpsertSemantics(m: map<string, Source>, s: Source)
    ensures s.name in Upsert(m, s) && Upsert(m, s)[s.name] == s
    ensures forall k :: k != s.name ==> (k in Upsert(m, s) <==> k in m)
    ensures forall k :: k != s.name && k in m ==> Upsert(m, s)[k] == m[k]
    ensures |Upsert(m, s)| == if s.name in m then |m| else |m| + 1
  {
    var u := Upsert(m, s);
    if s.name in m {
      assert u.Keys == m.Keys;
    } else {
      assert u.Keys == m.Keys + {s.name};
    }
    assert |u| == |u.Keys| && |m| == |m.Keys|;
  }

  /** Saving the same record twice is saving it once. */
  lemma UpsertIdempotent(m: map<string, Source>, s: Source)
    ensures Upsert(Upsert(m, s), s) == Upsert(m, s)
  {
  }

  /** Upserting keeps every record filed under its own name. */
  lemma UpsertKeepsKeyedByName(m: map<string, Source>, s: Source)
    requires KeyedByName(m)
    ensures KeyedByName(Upsert(m, s))
  {
  }

  /** A record that was just saved is among the records a listing yields. */
  lemma ListAfterUpsert(m: map<string, Source>, s: Source, ks: seq<string>, vs: seq<Source>)
    requires Maps.Lists(ks, vs, Upsert(m, s))
    ensures s in vs
  {
    Maps.ListsEveryValue(ks, vs, Upsert(m, s), s.name);
  }

  class SourceRepository {
    const path: string
    const fs: FileSystem<Source>
    var data: map<string, Source>

    constructor (path: string, fs: FileSystem<Source>, data: map<string, Source>)
      ensures this.path == path && this.fs == fs && this.data == data
    {
      this.path := path;
      this.fs := fs;
      this.data := data;
    }

    /** `SourceRepository::new`: an empty registry when nothing is stored at
        `path`, the stored registry when it parses, an error otherwise. */
    static method New(path: string, fs: FileSystem<Source>) returns (r: Result<SourceRepository, Error>)
      ensures var init := Initial(path, fs.At(path), path !in fs.unreadable);
        && (r.Ok? <==> init.Ok?)
        && (r.Err? ==> r.error == init.error)
        && (r.Ok? ==> fresh(r.value) && r.value.path == path && r.value.fs == fs && r.value.data == init.value)
    {
      var data: map<string, Source>;
      if fs.Exists(path) {
        var read := fs.Open(path);
        if read.Err? {
          return Err(read.error);
        }
        data := read.value;
      } else {
        data := map[];
      }
      var repo := new SourceRepository(path, fs, data);
      r := Ok(repo);
    }

    /** `dump`: overwrite the file at `path` with the whole registry. */
    method Dump() returns (r: Result<(), Error>)
      modifies fs`files
      ensures r.Ok? <==> path !in fs.unwritable
      ensures r.Err? ==> r.error == PermissionDenied(path)
      ensures fs.files == if r.Ok? then old(fs.files)[path := Parsed(data)] else old(fs.files)
    {
      r := fs.Create(path, data);
    }

    /** `save`: upsert by name in memory, then write the file. The in-memory
        upsert stands even when the write fails. */
    method Save(s: Source) returns (r: Result<(), Error>)
      modifies this`data, fs`files
      ensures data == Upsert(old(data), s)
      ensures r.Ok? <==> path !in fs.unwritable
      ensures r.Err? ==> r.error == PermissionDenied(path)
      ensures fs.files == if r.Ok? then old(fs.files)[path := Parsed(data)] else old(fs.files)
    {
      data := Upsert(data, s);
      r := Dump();
    }

    /** `list`: always succeeds and yields each stored record once, in the
        map's iteration order. */
    method List() returns (r: Result<seq<Source>, Error>, ghost keys: seq<string>)
      ensures r.Ok? && Maps.Lists(keys, r.value, data)
    {
      var ks, vs := Maps.Entries(data);
      keys := ks;
      r := Ok(vs);
    }
  }
}
