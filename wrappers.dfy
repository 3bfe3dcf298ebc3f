/** Return types shared by the whole model.
    `Result` plays the part of `eyre::Result`; `Error` names the failures the
    core can report (the Rust code boxes them all in an `eyre::Report`). */
module Wrappers {

  datatype Option<+T> = None | Some(value: T)

  datatype Result<+T, +E> = Ok(value: T) | Err(error: E)

  /** The failures the core reports. */
  datatype Error =
    | NotFound(path: string)           // File::open on a missing path
    | PermissionDenied(path: string)   // File::open / File::create refused
    | InvalidYaml(path: string)        // serde_yaml could not read the file
    | ReadOnlyHandle(path: string)     // writing through a handle opened for reading
    | Transport(url: string)           // reqwest::blocking::get failed (what Web.Env.get reports)
    | DateMismatch(text: string, format: string)  // NaiveDateTime::parse_from_str failed
}
