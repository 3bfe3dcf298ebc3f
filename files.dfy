/** The file system as the repositories see it: each path holds either a
    YAML document that deserialises to a name-keyed map, or bytes that do not.
    Paths in `unreadable` cannot be opened, paths in `unwritable` cannot be
    created or truncated. YAML encoding itself is not
    modelled: writing a map and reading it back gives the same map. */
module Files {
  import opened Wrappers

  datatype FileState<V> = Parsed(entries: map<string, V>) | Garbled

  /** `serde_yaml::from_reader(File::open(path)?)` on a file in state `f`. */
  function ReadYaml<V>(path: string, f: Option<FileState<V>>, readable: bool): Result<map<string, V>, Error>
  {
    if f.None? then Err(NotFound(path))
    else if !readable then Err(PermissionDenied(path))
    else match f.value
      case Garbled => Err(InvalidYaml(path))
      case Parsed(m) => Ok(m)
  }

  class FileSystem<V> {
    var files: map<string, FileState<V>>
    const unreadable: set<string>
    const unwritable: set<string>

    constructor (files: map<string, FileState<V>>, unreadable: set<string>, unwritable: set<string>)
      ensures this.files == files && this.unreadable == unreadable && this.unwritable == unwritable
    {
      this.files := files;
      this.unreadable := unreadable;
      this.unwritable := unwritable;
    }

    /** The state of the file at `path`, if there is one. */
    function At(path: string): Option<FileState<V>>
      reads this
    {
      if path in files then Some(files[path]) else None
    }

    /** `PathBuf::exists`. */
    predicate Exists(path: string)
      reads this
      ensures Exists(path) <==> At(path).Some?
    {
      path in files
    }

    /** Open `path` for reading and deserialise it. */
    method Open(path: string) returns (r: Result<map<string, V>, Error>)
      ensures r == ReadYaml(path, At(path), path !in unreadable)
    {
      if path !in files {
        r := Err(NotFound(path));
      } else if path in unreadable {
        r := Err(PermissionDenied(path));
      } else if files[path].Garbled? {
        r := Err(InvalidYaml(path));
      } else {
        r := Ok(files[path].entries);
      }
    }

    /** `File::create(path)` (create or truncate) and serialise `m` into it. */
    method Create(path: string, m: map<string, V>) returns (r: Result<(), Error>)
      modifies this`files
      ensures r.Ok? <==> path !in unwritable
      ensures r.Err? ==> r.error == PermissionDenied(path)
      ensures files == if r.Ok? then old(files)[path := Parsed(m)] else old(files)
    {
      if path in unwritable {
        r := Err(PermissionDenied(path));
      } else {
        files := files[path := Parsed(m)];
        r := Ok(());
      }
    }

    /** `File::open(path)` (a read-only handle) and serialise `m` into it: the
        open fails on a missing or forbidden path, and otherwise the write
        fails on the read-only handle. Nothing is ever written. */
    method WriteThroughReadHandle(path: string, m: map<string, V>) returns (r: Result<(), Error>)
      ensures r.Err?
      ensures r.error == (if path !in files then NotFound(path)
                          else if path in unreadable then PermissionDenied(path)
                          else ReadOnlyHandle(path))
    {
      if path !in files {
        r := Err(NotFound(path));
      } else if path in unreadable {
        r := Err(PermissionDenied(path));
      } else {
        r := Err(ReadOnlyHandle(path));
      }
    }
  }
}
