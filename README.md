# notifier: source registry and freshness check, in Dafny

`notifier` is a command-line tool. It keeps a registry of monitored sources
(RSS/Atom feeds) in a YAML file. `notifier check` fetches each source's
latest publication instant and prints a notice when a source has published
since its last check. It then stores the new instant in the registry.

This project models the tool's core:

- the `SourceType` tag: its two parsers and its printed form;
- the `Source` record: its constructor and its stamp-a-copy update;
- the two name-keyed repositories: the map-backed `SourceRepository` and the
  reload-before-acting `YamlSourceRepository`;
- the RSS fetcher: first entry, date pattern, and fixed-offset-to-UTC shift;
- the dispatch on the tag;
- the `check` loop and `source add` of the command line.

Instants are whole seconds. A UTC instant is the local reading minus the
offset in seconds east. The outside world is passed in as functions the
model does not look inside: the HTTP client, the feed parser and the
strftime-style parser (`Web.Env`). The file system is an object holding one
state per path (`Files.FileSystem`). A state is either a parsed name-keyed map
or bytes that do not parse. Each path may also be unreadable or unwritable.

Modules, one per file of the program:

- `SourceTypes` (src/domain/source/source_type.rs)
- `Sources` (src/domain/source/model.rs)
- `Repository` (src/domain/source/repository.rs)
- `Domain` (src/domain.rs)
- `Infrastructure` (src/infrastructure.rs)
- `Rss` (src/source/rss.rs)
- `Fetch` (src/source/mod.rs)
- `Cli` (src/cli.rs)

`CheckProperties` holds the lemmas about a whole `check` run. `Wrappers`,
`Time`, `Web`, `Files` and `Maps` are the supporting definitions.

The snapshot of the program is between two designs, and the model follows
the code:

- `src/cli.rs` calls `check_url()`, `target_url()`, `last_at()` and a
  six-argument `Source::new`, and `src/source/mod.rs` calls `check_url()`
  and `datetime_format()`. Both files import `crate::domain::Source`, the
  older record, which has none of these. The record in
  `src/domain/source/model.rs` has `datetime_format` but a single `url` and
  a five-argument `new`. No record in the snapshot has every method the
  callers use. The model's `Sources.Source` extends the `model.rs` record with
  both URLs, taking the six arguments in the order `src/cli.rs` passes them.
  The fetch uses the check URL and the notice prints the target URL.
- `src/domain.rs` keeps its own older record (`Domain.Source`: one URL, no
  date pattern), which `src/infrastructure.rs` stores. Its `SourceType` has
  the same two variants and the same printed form as the newer one, so both
  files share one `SourceType` datatype. The two enums differ in how they
  parse a tag: the older parse is case-sensitive. They also differ in how
  serde stores the tag: only the newer enum is renamed to lower case.
- The code aborts `check` on the first fetch error, and it overwrites the
  registry file in place without a backup. The model does the same.

A panic in the code is a precondition in the model. These cover `unwrap` on
a feed without a dated first entry, `unreachable!()` on an unknown type
name, `unimplemented!()` for HTML sources, and `FixedOffset::east` outside
one day.

## Model

| member | source | states |
|---|---|---|
| SourceTypes.Lower | src/domain/source/source_type.rs:13 | lower-casing keeps the length and lower-cases each character independently |
| SourceTypes.LowerIdempotent | src/domain/source/source_type.rs:13 | lower-casing a lower-cased string changes nothing |
| SourceTypes.ToString | src/domain/source/source_type.rs:21-27 | the printed form is "rss" or "html" and is already lower-case |
| SourceTypes.From | src/domain/source/source_type.rs:11-19 | defined exactly on strings whose lower-case form names a variant; the result prints as the lower-cased input |
| SourceTypes.FromToStringRoundTrip | src/domain/source/source_type.rs:11-27 | parsing the printed form of a variant gives the variant back |
| SourceTypes.ToStringInjective | src/domain/source/source_type.rs:21-27 | two variants print the same exactly when they are equal |
| SourceTypes.FromIgnoresCase | src/domain/source/source_type.rs:13 | spellings that agree after lower-casing parse to the same variant |
| SourceTypes.MixedCaseExamples | src/domain/source/source_type.rs:13-15 | "RSS", "Rss" and "rss" parse to RSS; "HTML", "Html" and "html" parse to HTML |
| SourceTypes.UnknownNameRejected | src/domain/source/source_type.rs:16 | "xml" and the empty string are outside the parse's domain |
| SourceTypes.SerdeTagIsToString | src/domain/source/source_type.rs:4-6 | the serialised tag (lower-cased variant name) equals the printed form |
| Sources.Source.WithLastCheckedAt | src/domain/source/model.rs:58-67 | the copy has the given instant and agrees with the receiver in every other field |
| Sources.New | src/domain/source/model.rs:22-37 | every field is stored as given and the last-seen instant is absent |
| Sources.LastStampWins | src/domain/source/model.rs:58-67 | stamping twice equals stamping with the second instant alone |
| Sources.NewThenStamp | src/domain/source/model.rs:22-67 | every record is `new` with its own fields, stamped once if it has an instant |
| Sources.StampKeepsIdentity | src/domain/source/model.rs:58-67 | stamping keeps the name, and changes the record exactly when the instant differs |
| Repository.Initial | src/domain/source/repository.rs:18-22 | a successful open gives the empty map for a missing file, or exactly the parsed contents of a readable file; an error needs a file to be there |
| Repository.Upsert | src/domain/source/repository.rs:32 | the record is stored under its name, and the keys are the old keys plus that name |
| Repository.InitialOutcome | src/domain/source/repository.rs:15-24 | a missing file gives an empty registry; opening fails exactly when an existing file cannot be read or parsed |
| Repository.UpsertSemantics | src/domain/source/repository.rs:31-34 | after an upsert the record sits under its name, other keys keep their entries, and the key count grows only for a new name |
| Repository.UpsertIdempotent | src/domain/source/repository.rs:31-34 | saving the same record twice equals saving it once |
| Repository.UpsertKeepsKeyedByName | src/domain/source/repository.rs:32 | upserting preserves the invariant that every record is filed under its own name |
| Repository.ListAfterUpsert | src/domain/source/repository.rs:31-38 | a record just saved is among the listed records |
| Repository.SourceRepository.New | src/domain/source/repository.rs:15-24 | the repository holds the registry stored at the path (empty when absent), or the read or parse error |
| Repository.SourceRepository.Dump | src/domain/source/repository.rs:26-29 | the whole map is written to the path exactly when the path is writable; no other file changes |
| Repository.SourceRepository.Save | src/domain/source/repository.rs:31-34 | the map is upserted even when the write then fails; the file holds the new map exactly when the write succeeds |
| Repository.SourceRepository.List | src/domain/source/repository.rs:36-38 | always succeeds and yields each stored record once |
| Maps.Entries | src/domain/source/repository.rs:37 | iterating a map yields every key once, each next to its value |
| Maps.ListsEveryValue | src/domain/source/repository.rs:37 | every stored value appears in a listing |
| Domain.FromStr | src/domain.rs:12-22 | accepts exactly "rss" and "html", and what it accepts prints back as the input; anything else is Err("no match") |
| Domain.From | src/domain.rs:24-32 | defined on "rss" and "html" only, and agrees with `from_str` there |
| Domain.FromStrToStringRoundTrip | src/domain.rs:15-40 | parsing the printed form of a variant gives Ok of the variant |
| Domain.OlderParseIsCaseSensitive | src/domain.rs:16-19 | "RSS" and "Html" are rejected here but accepted by the newer parse; the two parses agree wherever this one accepts |
| Domain.Source.WithLastCheckedAt | src/domain.rs:82-90 | the copy has the given instant and agrees with the receiver in the other four fields |
| Domain.New | src/domain.rs:56-64 | the four fields are stored as given and the last-checked instant is absent |
| Domain.NewThenStamp | src/domain.rs:56-90 | stamping a new record sets only the instant; a second stamp replaces the first |
| Domain.SourceIterator.constructor | src/domain.rs:99-101 | `SourceIterator::new` holds the given items and mapper |
| Domain.SourceIterator.Next | src/domain.rs:111-113 | yields the mapped next item and advances, or None exactly when the items are exhausted |
| Files.FileSystem.Exists | src/domain/source/repository.rs:18 | `PathBuf::exists` holds exactly when the path has a file |
| Files.FileSystem.Open | src/domain/source/repository.rs:19 | reading a path is NotFound, PermissionDenied, InvalidYaml or the stored map, in that order of checks |
| Files.FileSystem.Create | src/domain/source/repository.rs:27 | `File::create` plus the write replaces the path's content exactly when the path is writable |
| Files.FileSystem.WriteThroughReadHandle | src/infrastructure.rs:31 | writing through a `File::open` handle always fails and changes nothing |
| Infrastructure.YamlSourceRepository.constructor | src/infrastructure.rs:18-23 | a new repository holds an empty map and has not read its file |
| Infrastructure.YamlSourceRepository.Load | src/infrastructure.rs:25-28 | the map becomes the file's contents, or the error is returned and the map is unchanged |
| Infrastructure.YamlSourceRepository.Dump | src/infrastructure.rs:30-33 | always fails; on an existing readable path the failure is the read-only handle |
| Infrastructure.YamlSourceRepository.DumpCreate | src/infrastructure.rs:30-33 | the corrected dump: the file holds the whole map exactly when the path is writable, reading it back gives the map, other files are untouched |
| Infrastructure.YamlSourceRepository.Save | src/infrastructure.rs:40-44 | reload, then insert under the name; a failed reload inserts nothing; the file is never written |
| Infrastructure.YamlSourceRepository.List | src/infrastructure.rs:46-49 | reload, then an iterator over every stored entry whose mapper clones the value |
| Infrastructure.RssConnection.GetNew | src/infrastructure.rs:72-88 | succeeds exactly when the transport does, and then the result plus the offset is the first entry's "%F %T" reading |
| Infrastructure.GetNewAgreesWithRssFetcher | src/infrastructure.rs:72-88 | `get_new` equals the RSS fetcher run with the pattern "%F %T" |
| Infrastructure.Create | src/infrastructure.rs:55-63 | an RSS source gets a connection to its URL at its offset; HTML is outside the domain |
| Infrastructure.CreateThenGetNew | src/infrastructure.rs:55-88 | creating a connection and fetching through it is the RSS fetch of the source's URL and offset |
| Time.East | src/source/mod.rs:12 | the offset is the given number of seconds east, inside one day |
| Time.ToUtc | src/source/rss.rs:18-21 | the UTC instant is the one whose reading at the offset is the local reading |
| Time.EpochIsZero | src/source/rss.rs:18-21 | the clock origin is 1970-01-01 00:00:00 |
| Time.FiveHoursWestExample | src/source/rss.rs:18-21 | 2024-01-01 10:00:00 at offset -18000 is 2024-01-01 15:00:00 UTC |
| Time.ToUtcStrictlyMonotone | src/source/rss.rs:18-21 | under one offset a later local reading is a later instant, and the conversion is injective |
| Time.ToUtcOffsetShift | src/source/rss.rs:18-21 | one reading under offsets o1 and o2 gives instants that differ by o2 - o1 |
| Web.FirstDate | src/source/rss.rs:12-14 | the date of the first Atom entry or RSS item decides, None for an empty feed; later entries are ignored |
| Web.FeedReadable | src/source/rss.rs:12-14 | the `unwrap`s after a successful GET hold: the body parses and the first entry has a date; a transport error needs neither |
| Rss.GetLastUpdateDate | src/source/rss.rs:5-25 | a transport error is returned unchanged; otherwise the result is Ok exactly when the first entry's date matches the pattern, and then it plus the offset is that reading |
| Rss.OnlyFirstEntryConsulted | src/source/rss.rs:12-15 | feeds whose first entries carry the same date give the same result |
| Rss.OffsetShift | src/source/rss.rs:18-21 | one feed under two offsets: both succeed or both fail, and the instants differ by the offsets' difference |
| Rss.LaterReadingLaterInstant | src/source/rss.rs:17-21 | for one offset, a later first-entry reading gives a later instant, and conversely |
| Fetch.GetLastUpdateDate | src/source/mod.rs:7-16 | an RSS source is the RSS fetch of its check URL, its own pattern and its offset as seconds east, result or error unchanged |
| Fetch.FetchIgnoresTargetUrl | src/source/mod.rs:10 | the name, target URL and last instant do not affect the fetch |
| Fetch.HtmlNotFetchable | src/source/mod.rs:14 | an HTML source is outside the fetch's domain |
| Cli.CheckOne | src/cli.rs:44-54 | one turn of the loop: at most one notice and one save failure; it goes on only after a successful fetch and reopen; it announces exactly when the stored instant is strictly older; it reports a save failure exactly when it goes on and the path is unwritable; it changes the file only when it goes on and can write |
| Cli.CheckFrom | src/cli.rs:43-55 | the loop over the listed sources: no more notices or save failures than sources; an unwritable registry is never changed; a writable one reports no save failures |
| Cli.AfterAfter | src/cli.rs:43-55 | prepending output twice is prepending the concatenation |
| Cli.Check | src/cli.rs:42-57 | an unopenable registry ends the command unchanged; otherwise the outputs and the file are those of the loop over the listed records |
| Cli.CheckEach | src/cli.rs:43-56 | the loop's outputs and final file are those of `CheckFrom` over the sources |
| Cli.CheckSource | src/cli.rs:44-54 | one turn of the loop: fetch, announce if newer, reopen, save the stamped copy |
| Cli.Add | src/cli.rs:64-71 | `source add` upserts a new record with no instant into the opened registry, and the file changes exactly when the save succeeds |
| CheckProperties.CheckAppend | src/cli.rs:43-55 | checking a + b is checking a, then b from where a left the file, unless a ended the command |
| CheckProperties.FetchErrorEndsRun | src/cli.rs:44 | a fetch error aborts the command; later sources are neither announced nor saved |
| CheckProperties.SuccessFetchedAll | src/cli.rs:44 | a successful run fetched every source |
| CheckProperties.SuccessIffAllFetched | src/cli.rs:43-56 | with a readable registry, the run succeeds exactly when every fetch succeeds |
| CheckProperties.NoticesAreTheNewer | src/cli.rs:46-50 | a successful run announces exactly the sources whose stored instant exists and is strictly older, in order |
| CheckProperties.NewerNoticesMembers | src/cli.rs:46-50 | a notice is printed for a source if and only if it has a stored instant strictly older than the fetched one |
| CheckProperties.FirstCheckIsSilent | src/cli.rs:46 | sources without a stored instant are never announced |
| CheckProperties.RunSavesEveryStamp | src/cli.rs:52 | a successful run leaves the registry with every source upserted with its fetched instant |
| CheckProperties.UpsertAllSemantics | src/cli.rs:52 | after upserting records of distinct names, each is under its name and other keys are unchanged |
| CheckProperties.EveryCheckedSourceStamped | src/cli.rs:52 | every checked source is stored with its fetched instant, announced or not; other records are untouched |
| CheckProperties.WriteFailuresAreReported | src/cli.rs:52-54 | a registry that opens but cannot be written (read-only, or missing and not creatable; within one `check` the missing case needs the file to change outside the run) makes every source "Cannot save"; the file is unchanged, and the run still succeeds with all notices |
| CheckProperties.UnopenableRegistryEndsRun | src/cli.rs:43-52 | a registry that cannot be reopened ends the command with nothing written and nothing reported unsaved (within one `check` this needs the file to change outside the run) |
| CheckProperties.StaleInstantStillRecorded | src/cli.rs:46-52 | an instant not newer than the stored one is not announced but still overwrites it |
| CheckProperties.ListingOfKeyedRegistryHasDistinctNames | src/cli.rs:43 | listing a registry that files each record under its name gives records with distinct names |

## Left out

- HTTP, feed parsing and strftime-style parsing are functions the model takes as given (`Web.Env`). So are their error messages and text decoding (`resp.text()`).
- YAML encoding is not modelled. A file holds a parsed map or unparsable bytes, and writing then reading a map gives the map back. File handles, partial writes and concurrent writers are left out too.
- `str::to_lowercase` is modelled for ASCII letters only. Every other character is kept as it is.
- `SourceTypes.From`, `Domain.From`, `Fetch.GetLastUpdateDate`, `Rss.GetLastUpdateDate`, `Infrastructure.Create` and `Infrastructure.RssConnection.GetNew` require what the code would otherwise panic on, rather than modelling the panic.
- Cli.Check: requires every stored record to be fetchable (RSS, an offset inside one day, a feed with a dated first entry) whenever the registry opens. When the registry opens, such a record would make the code panic, and a panicking run is not modelled. When the registry does not open, nothing is required.
- Cli.Add: takes the offset as an `i32`. Parsing the command-line string (`parse().unwrap()`) and clap's argument handling are not modelled.
- chrono's range limits on dates are not modelled. Instants are unbounded integers.
- The state an `FnMut` mapper may carry is not modelled. `SourceIterator` takes a pure function, which is all that `src/infrastructure.rs` passes.
- The stored form of the older `SourceType` (`src/domain.rs:6-10`) is not modelled. It has no `rename_all`, so serde writes "RSS"/"HTML" rather than the newer enum's "rss"/"html". `SourceTypes.SerdeTag` describes the newer enum only. YAML is abstract here, so no modelled behaviour depends on it.
- The accessors of both `Source` records are the datatypes' own fields.
- Table rendering in `source list`, the `show`/`update`/`delete` stubs, and clap's definitions are left out (src/cli.rs:7-38, 72-102). `src/main.rs` is not part of this model, and neither is the path inside `Source::repo()`, which the model fixes as `Cli.REPO_PATH`.
- Backup files and per-source isolation of fetch failures do not exist in the code, so the model has neither.

## Findings

| source | as written | input that shows it | evidently intended | confidence | as-written member | corrected member |
|---|---|---|---|---|---|---|
| src/infrastructure.rs:31 | `dump` opens the file with `File::open`, a read-only handle, so serialising into it always fails and the file is never written | any registry whose file exists and is readable: `Dump` returns the read-only-handle error | open with `File::create`, as `src/domain/source/repository.rs:27` does, so the map is written and reads back | not executed | Infrastructure.YamlSourceRepository.Dump | Infrastructure.YamlSourceRepository.DumpCreate |
