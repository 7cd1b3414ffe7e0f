/** Basic types shared by the whole model: bytes, Go strings, results and errors. */
module Base {

  newtype byte = x: int | 0 <= x < 256

  type Bytes = seq<byte>

  /** Go strings are byte strings, so paths, remote keys and environment names are bytes too. */
  type Path = Bytes
  type Key = Bytes
  type Name = Bytes

  const Slash: byte := 47
  const Dot: byte := 46

  datatype Option<+T> = None | Some(value: T)

  datatype Result<+T, +E> = Ok(value: T) | Err(error: E)

  /** An operation that returns only an error, or nothing. */
  datatype Outcome<+E> = Pass | Fail(error: E)

  /** The three errors of the os package the core tells apart. */
  datatype OsError =
    | NotExist(path: Path)    // os.IsNotExist
    | Exist(path: Path)       // os.IsExist, from an exclusive create
    | Permission(path: Path)  // every other failure of the operating system

  /** The three sync operations a batch runs. */
  datatype Op = PullOp | PushOp | DiffOp

  /** Every error the core returns, one constructor per error site. */
  datatype Error =
    // Remote backends
    | IoError(cause: OsError)
    | ParentDirFailed(cause: OsError)
    // pull, push and diff
    | RefUnreadable(ref: Path, cause: OsError)
    | RefEmpty(ref: Path)
    | DownloadFailed(key: Key, inner: Error)
    | BadArchive
    | MissingFiles(names: seq<Path>)
    | ExtraneousFiles(names: seq<Path>)
    | MkdirFailed(dir: Path, cause: OsError)
    | ChangeCheckFailed(name: Path, cause: OsError)
    | CreateFailed(name: Path, cause: OsError)
    | FileDoesNotExist(name: Path)
    | ReadFailed(name: Path, cause: OsError)
    | UploadFailed(inner: Error)
    | RefUpdateFailed(cause: OsError)
    | OpenInArchiveFailed(name: Path)
    | LocalReadFailed(name: Path, cause: OsError)
    // the registry and the batch drivers
    | DeclaredTwice(env: Name)
    | EnvironNotFound(env: Name)
    | OpFailed(op: Op, env: Name, inner: Error)
}
