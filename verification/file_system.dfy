/**
  The part of `System.IO.File` and `Directory` the optimiser uses, on a file
  system held as a value: file contents by path, the directories, and the
  paths that refuse writes (read-only files, missing permissions, a missing
  parent directory). A failing call yields the exception it throws.
*/
module FileSystem {

  datatype FileSystem = FileSystem(files: map<string, string>, dirs: set<string>, readOnly: set<string>)

  /** The `IOException`s and `UnauthorizedAccessException`s of the calls below. */
  datatype IoError =
    | FileNotFound(path: string)
    | AlreadyExists(path: string)
    | AccessDenied(path: string)

  /** The exception's `Message`. */
  function Message(e: IoError): string {
    match e
    case FileNotFound(p) => "Could not find file '" + p + "'."
    case AlreadyExists(p) => "The file '" + p + "' already exists."
    case AccessDenied(p) => "Access to the path '" + p + "' is denied."
  }

  /** A call either returns the new file system or throws. */
  datatype IoResult = Done(fs: FileSystem) | Thrown(error: IoError)

  /** `File.Copy(src, dst)` without overwriting: it fails when the source is
      not a file, or the destination already exists, is a directory or
      refuses writes. */
  function Copy(fs: FileSystem, src: string, dst: string): (r: IoResult)
    ensures r.Done? <==> src in fs.files && dst !in fs.files && dst !in fs.dirs && dst !in fs.readOnly
    ensures r.Done? ==> r.fs == fs.(files := fs.files[dst := fs.files[src]])
    ensures r.Thrown? ==> r.error.path == src || r.error.path == dst
  {
    if src !in fs.files then Thrown(FileNotFound(src))
    else if dst in fs.files || dst in fs.dirs then Thrown(AlreadyExists(dst))
    else if dst in fs.readOnly then Thrown(AccessDenied(dst))
    else Done(fs.(files := fs.files[dst := fs.files[src]]))
  }

  /** `File.WriteAllText(path, text)`: creates or replaces the file, unless
      the path is a directory or refuses writes. */
  function WriteAllText(fs: FileSystem, path: string, text: string): (r: IoResult)
    ensures r.Done? <==> path !in fs.dirs && path !in fs.readOnly
    ensures r.Done? ==> r.fs == fs.(files := fs.files[path := text])
    ensures r.Thrown? ==> r.error == AccessDenied(path)
  {
    if path in fs.dirs || path in fs.readOnly then Thrown(AccessDenied(path))
    else Done(fs.(files := fs.files[path := text]))
  }

  /** `Directory.CreateDirectory(path)`: the directory exists afterwards;
      files are untouched. */
  function CreateDirectory(fs: FileSystem, path: string): (r: FileSystem)
    ensures r.files == fs.files && r.readOnly == fs.readOnly
    ensures r.dirs == fs.dirs + {path}
  {
    fs.(dirs := fs.dirs + {path})
  }
}
