/**
 * The local file system as the client uses it: files and directories by
 * path, directory creation, file creation (which truncates), writing a
 * downloaded object, and the directory walk of uploads.
 */
module LocalFs {
  import opened Wrappers
  import opened Errors
  import opened Storage
  import opened GoStrings
  import FilePath

  /** What a path names: a regular file with its bytes, or a directory. */
  datatype Node = File(data: seq<byte>) | Directory

  /**
   * One step of filepath.Walk: a visited path with the relative path
   * filepath.Rel computed for it (`None` when it failed) and whether it is a
   * directory, or a path the walk could not read.
   */
  datatype WalkEntry = Visit(path: string, rel: Option<string>, isDir: bool) | Unreadable(path: string)

  /**
   * What the model leaves to the operating system and the Go runtime: the
   * paths where nothing may be created, the order and content of directory
   * walks, and the extension-to-MIME table (`""` for an unknown extension).
   */
  datatype Host = Host(unwritable: set<string>, walk: string -> seq<WalkEntry>, mimeTypes: string -> string)

  /**
   * The entry a path names. The disk is keyed by cleaned paths, so "d",
   * "d/", "./d" and "x/../d" all name the same entry; a path ending in '/'
   * names only a directory, as the kernel resolves it.
   */
  function Lookup(files: map<string, Node>, path: string): (r: Option<Node>)
    ensures r.Some? <==> FilePath.Clean(path) in files && !(HasSuffix(path, "/") && files[FilePath.Clean(path)].File?)
    ensures r.Some? ==> r.value == files[FilePath.Clean(path)]
  {
    var key := FilePath.Clean(path);
    if key in files && !(HasSuffix(path, "/") && files[key].File?) then Some(files[key]) else None
  }

  /**
   * os.MkdirAll of one directory: nothing to do where the directory exists;
   * refused where a file is or where nothing may be created.
   */
  function MakeDirs(host: Host, files: map<string, Node>, dir: string): (r: Result<map<string, Node>, Error>)
    ensures r.Ok? ==> Lookup(r.value, dir) == Some(Directory)
    ensures r.Err? ==> r.error == Fs(dir)
    ensures r.Err? <==>
      if FilePath.Clean(dir) in files then files[FilePath.Clean(dir)].File? else FilePath.Clean(dir) in host.unwritable
  {
    var key := FilePath.Clean(dir);
    if (key in files && files[key].File?) || (key !in files && key in host.unwritable) then Err(Fs(dir))
    else Ok(files[key := Directory])
  }

  /** MkdirAll of a directory that exists succeeds and changes nothing. */
  lemma MakeDirsExisting(host: Host, files: map<string, Node>, dir: string)
    requires Lookup(files, dir) == Some(Directory)
    ensures MakeDirs(host, files, dir) == Ok(files)
  {
    var key := FilePath.Clean(dir);
    assert files[key := Directory] == files;
  }

  /** MkdirAll changes no entry but the directory's own. */
  lemma MakeDirsLocal(host: Host, files: map<string, Node>, dir: string, p: string)
    requires MakeDirs(host, files, dir).Ok?
    requires FilePath.Clean(p) != FilePath.Clean(dir)
    ensures Lookup(MakeDirs(host, files, dir).value, p) == Lookup(files, p)
  {
  }

  /**
   * os.Create: an empty file at `path`, truncating what was there; refused on
   * a directory, on a path ending in '/', and where nothing may be created.
   */
  function CreateFile(host: Host, files: map<string, Node>, path: string): (r: Result<map<string, Node>, Error>)
    ensures r.Ok? ==> r.value == files[FilePath.Clean(path) := File([])]
    ensures r.Ok? ==> Lookup(r.value, path) == Some(File([]))
    ensures r.Err? ==> r.error == Fs(path)
    ensures r.Err? <==>
      FilePath.Clean(path) in host.unwritable || HasSuffix(path, "/") ||
      (FilePath.Clean(path) in files && files[FilePath.Clean(path)].Directory?)
  {
    var key := FilePath.Clean(path);
    if key in host.unwritable || HasSuffix(path, "/") || (key in files && files[key].Directory?) then Err(Fs(path))
    else Ok(files[key := File([])])
  }

  /** os.Create on a path that names a directory, however it is spelled, fails and changes nothing. */
  lemma CreateOnDirectoryFails(host: Host, files: map<string, Node>, path: string)
    requires Lookup(files, path) == Some(Directory)
    ensures CreateFile(host, files, path) == Err(Fs(path))
  {
  }

  /** The local disk, changed in place by downloads. */
  class Disk {
    const host: Host
    var files: map<string, Node>

    constructor (host: Host, files: map<string, Node>)
      ensures this.host == host && this.files == files
    {
      this.host := host;
      this.files := files;
    }

    /** os.Stat. */
    method Stat(path: string) returns (r: Option<Node>)
      ensures r == Lookup(files, path)
    {
      var key := FilePath.Clean(path);
      if key !in files || (HasSuffix(path, "/") && files[key].File?) {
        return None;
      }
      return Some(files[key]);
    }

    method MkdirAll(dir: string) returns (outcome: Outcome<Error>)
      modifies this
      ensures var r := MakeDirs(host, old(files), dir);
        (r.Ok? ==> files == r.value && outcome == Pass) &&
        (r.Err? ==> files == old(files) && outcome == Fail(r.error))
    {
      var r := MakeDirs(host, files, dir);
      if r.Err? {
        return Fail(r.error);
      }
      files := r.value;
      return Pass;
    }

    method Create(path: string) returns (outcome: Outcome<Error>)
      modifies this
      ensures var r := CreateFile(host, old(files), path);
        (r.Ok? ==> files == r.value && outcome == Pass) &&
        (r.Err? ==> files == old(files) && outcome == Fail(r.error))
    {
      var r := CreateFile(host, files, path);
      if r.Err? {
        return Fail(r.error);
      }
      files := r.value;
      return Pass;
    }

    /** io.Copy into a file opened by Create: the file ends up holding `data`. */
    method WriteAll(path: string, data: seq<byte>)
      modifies this
      ensures files == old(files)[FilePath.Clean(path) := File(data)]
      ensures Lookup(files, path) == Some(File(data)) || HasSuffix(path, "/")
    {
      files := files[FilePath.Clean(path) := File(data)];
    }
  }
}
