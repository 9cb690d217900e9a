/** The disk: every file the server touches, by path, with its bytes. The
    failures of the operating system are explicit parameters of the
    operations that can meet them. */
module Files {
  import opened Common

  class FileSystem {
    var files: map<string, Bytes>

    constructor (initial: map<string, Bytes>)
      ensures files == initial
    {
      files := initial;
    }

    /** `os.Create(path)`, then an encoder or a `Write` of `encoded`. When the
        encoding itself failed (`encoded` is `None`) the file has already been
        created and is left empty. Succeeds only when every byte is written. */
    method Save(path: string, encoded: Option<Bytes>, fault: WriteFault) returns (ok: bool)
      modifies this
      ensures ok == SaveSucceeds(encoded, fault)
      ensures files == SavedFiles(old(files), path, encoded, fault)
    {
      if fault.CreateFails? {
        return false;
      }
      match encoded {
        case None =>
          files := files[path := []];
          ok := false;
        case Some(data) =>
          files := files[path := WrittenPrefix(data, fault)];
          ok := fault.Written?;
      }
    }

    /** `os.Remove(path)`: fails when there is no such file or the operating
        system refuses; otherwise the file is gone. */
    method Remove(path: string, refused: bool) returns (ok: bool)
      modifies this
      ensures ok <==> path in old(files) && !refused
      ensures files == if ok then old(files) - {path} else old(files)
      ensures path !in old(files) ==> path !in files
    {
      ok := path in files && !refused;
      if ok {
        files := files - {path};
      }
    }
  }

  predicate SaveSucceeds(encoded: Option<Bytes>, fault: WriteFault) {
    encoded.Some? && fault.Written?
  }

  /** The files after `Save`: untouched when the create fails, otherwise the
      path holds what was written. */
  function SavedFiles(files: map<string, Bytes>, path: string, encoded: Option<Bytes>, fault: WriteFault)
    : (r: map<string, Bytes>)
    ensures fault.CreateFails? ==> r == files
    ensures !fault.CreateFails? ==> r.Keys == files.Keys + {path}
    ensures forall p :: p in files && p != path ==> p in r && r[p] == files[p]
    ensures SaveSucceeds(encoded, fault) ==> path in r && r[path] == encoded.value
  {
    if fault.CreateFails? then files
    else files[path := match encoded case None => [] case Some(data) => WrittenPrefix(data, fault)]
  }

  /** Go's `path.Join(dir, name)` for a file name `name` without slashes:
      the empty directory is dropped, otherwise trailing slashes of `dir` are
      dropped and one slash separates the two. */
  function Join(dir: string, name: string): (p: string)
    ensures dir == "" ==> p == name
    ensures dir != "" ==> |p| > |name| && p[|p| - |name| - 1..] == "/" + name
    ensures dir != "" ==> p[..|p| - |name| - 1] == TrimTrailingSlashes(dir)
  {
    if dir == "" then name
    else var d := TrimTrailingSlashes(dir); d + "/" + name
  }

  function TrimTrailingSlashes(dir: string): (d: string)
    ensures d <= dir
    ensures d == "" || d[|d| - 1] != '/'
    ensures forall i :: |d| <= i < |dir| ==> dir[i] == '/'
  {
    if dir != "" && dir[|dir| - 1] == '/' then TrimTrailingSlashes(dir[..|dir| - 1]) else dir
  }
}
