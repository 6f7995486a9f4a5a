/**
 * The commands of the command line: how each turns its arguments into a
 * client call, and the listing output of `ls`.
 */
module Commands {
  import opened Wrappers
  import opened Errors
  import opened GoStrings
  import opened FilePath
  import opened Address
  import opened Listing
  import opened Storage
  import opened LocalFs
  import opened Humanize
  import opened Operations
  import opened S3Client

  // ---------------------------------------------------------------------
  // put

  /** The client call `put` makes. */
  datatype PutAction =
    | UploadDirectoryFrom(bucket: string, root: string, prefix: string)
    | UploadFileFrom(bucket: string, path: string, objectName: string)

  /**
   * put: parse the destination, then stat the source (`stat` is what
   * os.Stat finds at `local`): a directory is uploaded under the object
   * path as prefix, a file under the object path as its name.
   */
  function PutPlan(local: string, dest: string, stat: Option<Node>): (r: Result<PutAction, Error>)
    ensures !HasPrefix(dest, Scheme) ==> r == Err(Invalid(BadS3Path))
    ensures HasPrefix(dest, Scheme) && stat.None? ==> r == Err(Wrapped(StatPathFailed, Fs(local)))
    ensures r.Ok? <==> HasPrefix(dest, Scheme) && stat.Some?
    ensures r.Ok? ==> (r.value.UploadDirectoryFrom? <==> stat == Some(Directory))
    ensures r.Ok? && r.value.UploadDirectoryFrom? ==>
      r.value.root == local && ParseS3(dest) == Some(Location(r.value.bucket, r.value.prefix))
    ensures r.Ok? && r.value.UploadFileFrom? ==>
      r.value.path == local && ParseS3(dest) == Some(Location(r.value.bucket, r.value.objectName))
  {
    match ParseS3(dest)
    case None => Err(Invalid(BadS3Path))
    case Some(loc) =>
      if stat.None? then Err(Wrapped(StatPathFailed, Fs(local)))
      else if stat.value.Directory? then Ok(UploadDirectoryFrom(loc.bucket, local, loc.key))
      else Ok(UploadFileFrom(loc.bucket, local, loc.key))
  }

  /**
   * A file put to "s3://bucket/key" is stored under `key` verbatim (even
   * one ending in '/'), and under the file's base name when the key is empty.
   */
  lemma PutFileKey(local: string, loc: Location, data: seq<byte>)
    requires '/' !in loc.bucket
    ensures PutPlan(local, Format(loc), Some(File(data))) == Ok(UploadFileFrom(loc.bucket, local, loc.key))
    ensures ObjectName(local, loc.key) == if loc.key == "" then Base(local) else loc.key
  {
    ParseFormat(loc);
  }

  // ---------------------------------------------------------------------
  // del

  /** The client call `del` makes. */
  datatype DelAction = DeleteDirectoryAt(bucket: string, prefix: string) | DeleteObjectAt(bucket: string, key: string)

  /** del: parse the address; a directory delete exactly when the whole argument ends in '/'. */
  function DelPlan(s3Path: string): (r: Result<DelAction, Error>)
    ensures r.Err? <==> !HasPrefix(s3Path, Scheme)
    ensures r.Err? ==> r.error == Invalid(BadS3Path)
    ensures r.Ok? ==> (r.value.DeleteDirectoryAt? <==> HasSuffix(s3Path, "/"))
    ensures r.Ok? && r.value.DeleteDirectoryAt? ==> ParseS3(s3Path) == Some(Location(r.value.bucket, r.value.prefix))
    ensures r.Ok? && r.value.DeleteObjectAt? ==> ParseS3(s3Path) == Some(Location(r.value.bucket, r.value.key))
  {
    match ParseS3(s3Path)
    case None => Err(Invalid(BadS3Path))
    case Some(loc) =>
      if IsDirectory(s3Path) then Ok(DeleteDirectoryAt(loc.bucket, loc.key))
      else Ok(DeleteObjectAt(loc.bucket, loc.key))
  }

  /** "s3://bucket/" deletes everything in the bucket: the prefix is empty. */
  lemma DelBucketRoot(bucket: string)
    requires '/' !in bucket
    ensures DelPlan(Scheme + bucket + "/") == Ok(DeleteDirectoryAt(bucket, ""))
  {
    ParseFormat(Location(bucket, ""));
    assert Format(Location(bucket, "")) == Scheme + bucket + "/";
    assert (Scheme + bucket + "/")[|Scheme + bucket + "/"| - 1..] == "/";
  }

  /** "s3://bucket" asks to delete the empty key, which DeleteObject refuses without a request. */
  lemma DelBucketOnly(svc: Service, st: Store, bucket: string)
    requires bucket != "" && '/' !in bucket
    ensures DelPlan(Scheme + bucket) == Ok(DeleteObjectAt(bucket, ""))
    ensures DeleteObjectEffect(svc, st, bucket, "") == Effect(st, [], Fail(Invalid(EmptyObjectPath)))
  {
    ParseBucketOnly(bucket);
    assert !HasSuffix(Scheme + bucket, "/") by {
      assert (Scheme + bucket)[|Scheme + bucket| - 1] == bucket[|bucket| - 1];
    }
  }

  // ---------------------------------------------------------------------
  // url

  /** The default of the --expiry flag: 24 hours, in nanoseconds. */
  const DefaultExpiry: int := 24 * Hour

  /** The client call `url` makes. */
  datatype UrlAction = SignUrl(bucket: string, key: string, expiry: int)

  /** url: parse the address; the expiry is the flag's value, 24 hours when it is not given. */
  function UrlPlan(input: string, expiry: Option<int>): (r: Result<UrlAction, Error>)
    ensures r.Err? <==> !HasPrefix(input, Scheme)
    ensures r.Err? ==> r.error == Invalid(BadS3Path)
    ensures r.Ok? ==> ParseS3(input) == Some(Location(r.value.bucket, r.value.key))
    ensures r.Ok? && expiry.Some? ==> r.value.expiry == expiry.value
    ensures r.Ok? && expiry.None? ==> r.value.expiry == 86_400_000_000_000
  {
    match ParseS3(input)
    case None => Err(Invalid(BadS3Path))
    case Some(loc) => Ok(SignUrl(loc.bucket, loc.key, expiry.GetOr(DefaultExpiry)))
  }

  // ---------------------------------------------------------------------
  // download

  /** The client call `download` makes. */
  datatype DownloadAction =
    | DownloadDirectoryTo(bucket: string, prefix: string, dir: string)
    | DownloadFileTo(bucket: string, key: string, path: string)

  /** The local files after the command's own MkdirAll, and the call it then makes. */
  datatype Prepared = Prepared(files: map<string, Node>, action: DownloadAction)

  /**
   * download: parse the address; the local path defaults to "."; create its
   * parent directory; a key ending in '/' is a directory download, and a
   * file download into an existing directory goes to the key's base name
   * inside it.
   */
  function DownloadPlan(host: Host, files: map<string, Node>, input: string, local: Option<string>): (r: Result<Prepared, Error>)
    ensures !HasPrefix(input, Scheme) ==> r == Err(Invalid(BadS3Path))
    ensures HasPrefix(input, Scheme) ==>
      (r.Err? <==> MakeDirs(host, files, Dir(local.GetOr("."))).Err?)
    ensures r.Ok? ==>
      r.value.files == MakeDirs(host, files, Dir(local.GetOr("."))).value &&
      (r.value.action.DownloadDirectoryTo? <==> HasSuffix(ParseS3(input).value.key, "/"))
    ensures r.Ok? && r.value.action.DownloadDirectoryTo? ==>
      r.value.action == DownloadDirectoryTo(ParseS3(input).value.bucket, ParseS3(input).value.key, local.GetOr("."))
    ensures r.Ok? && r.value.action.DownloadFileTo? ==>
      r.value.action.bucket == ParseS3(input).value.bucket && r.value.action.key == ParseS3(input).value.key &&
      (Lookup(r.value.files, local.GetOr(".")) == Some(Directory) ==>
        r.value.action.path == JoinPath(local.GetOr("."), Base(r.value.action.key))) &&
      (Lookup(r.value.files, local.GetOr(".")) != Some(Directory) ==> r.value.action.path == local.GetOr("."))
  {
    match ParseS3(input)
    case None => Err(Invalid(BadS3Path))
    case Some(loc) =>
      var localPath := local.GetOr(".");
      var made := MakeDirs(host, files, Dir(localPath));
      if made.Err? then Err(Wrapped(CreateDirFailed, made.error))
      else if HasSuffix(loc.key, "/") then Ok(Prepared(made.value, DownloadDirectoryTo(loc.bucket, loc.key, localPath)))
      else if Lookup(made.value, localPath) == Some(Directory) then
        Ok(Prepared(made.value, DownloadFileTo(loc.bucket, loc.key, JoinPath(localPath, Base(loc.key)))))
      else Ok(Prepared(made.value, DownloadFileTo(loc.bucket, loc.key, localPath)))
  }

  /** A file downloaded into an existing plain directory lands at `dir/<base name of the key>`. */
  lemma DownloadIntoDirectory(host: Host, files: map<string, Node>, loc: Location, dir: string)
    requires '/' !in loc.bucket && !HasSuffix(loc.key, "/")
    requires Plain(dir) && Plain(Base(loc.key))
    requires MakeDirs(host, files, Dir(dir)).Ok?
    requires Lookup(MakeDirs(host, files, Dir(dir)).value, dir) == Some(Directory)
    ensures DownloadPlan(host, files, Format(loc), Some(dir)).Ok?
    ensures DownloadPlan(host, files, Format(loc), Some(dir)).value.action
      == DownloadFileTo(loc.bucket, loc.key, dir + "/" + Base(loc.key))
  {
    ParseFormat(loc);
    JoinPlain(dir, Base(loc.key));
  }

  /**
   * A file downloaded into a directory written with a trailing '/', as in
   * `download s3://b/path/to/file.txt ./local/dir/`, lands at the key's base
   * name inside that directory, whether the directory existed or the
   * command's own MkdirAll created it; an existing one is left as it was.
   */
  lemma DownloadIntoSlashedDirectory(host: Host, files: map<string, Node>, loc: Location, dir: string)
    requires '/' !in loc.bucket && !HasSuffix(loc.key, "/")
    requires dir != "" && MakeDirs(host, files, dir).Ok?
    ensures DownloadPlan(host, files, Format(loc), Some(dir + "/"))
      == Ok(Prepared(MakeDirs(host, files, dir).value, DownloadFileTo(loc.bucket, loc.key, JoinPath(dir, Base(loc.key)))))
    ensures Lookup(files, dir) == Some(Directory) ==> MakeDirs(host, files, dir).value == files
  {
    ParseFormat(loc);
    DirUnderSlash(dir);
    CleanIdempotent(dir);
    assert MakeDirs(host, files, Dir(dir + "/")).value == MakeDirs(host, files, dir).value;
    CleanTrailingSlash(dir);
    assert Lookup(MakeDirs(host, files, dir).value, dir + "/") == Some(Directory);
    JoinUnderSlash(dir, Base(loc.key));
    if Lookup(files, dir) == Some(Directory) {
      MakeDirsExisting(host, files, dir);
    }
  }

  // ---------------------------------------------------------------------
  // mb

  /** mb: the name after "s3://" with at most one trailing '/' removed; it may hold no '/' and not be empty. */
  function MbName(s3Path: string): (r: Result<string, Error>)
    ensures !HasPrefix(s3Path, Scheme) ==> r == Err(Invalid(BadS3Path))
    ensures r.Ok? ==> r.value != "" && '/' !in r.value
    ensures r.Ok? ==> s3Path == Scheme + r.value || s3Path == Scheme + r.value + "/"
    ensures r.Err? ==>
      r.error == Invalid(BadS3Path) || r.error == Invalid(SlashInBucketName) || r.error == Invalid(EmptyBucketName)
    ensures r == Err(Invalid(EmptyBucketName)) <==> s3Path == Scheme || s3Path == Scheme + "/"
    ensures r == Err(Invalid(SlashInBucketName)) <==>
      HasPrefix(s3Path, Scheme) && |s3Path| > |Scheme| && '/' in s3Path[|Scheme|..|s3Path| - 1]
  {
    if !HasPrefix(s3Path, Scheme) then Err(Invalid(BadS3Path))
    else
      var rest := TrimPrefix(s3Path, Scheme);
      assert rest == s3Path[|Scheme|..];
      var name := TrimSuffix(rest, "/");
      assert |rest| > 0 ==> name == rest[..|rest| - 1] || (name == rest && rest[|rest| - 1] != '/');
      assert |rest| > 0 ==> rest[..|rest| - 1] == s3Path[|Scheme|..|s3Path| - 1];
      if '/' in name then Err(Invalid(SlashInBucketName))
      else if name == "" then Err(Invalid(EmptyBucketName))
      else Ok(name)
  }

  /** Every valid name is accepted, with or without one trailing '/'. */
  lemma MbAccepts(name: string)
    requires name != "" && '/' !in name
    ensures MbName(Scheme + name) == Ok(name)
    ensures MbName(Scheme + name + "/") == Ok(name)
  {
    assert TrimPrefix(Scheme + name, Scheme) == name;
    assert !HasSuffix(name, "/") by {
      assert name[|name| - 1] != '/';
    }
    assert TrimPrefix(Scheme + name + "/", Scheme) == name + "/";
    assert TrimSuffix(name + "/", "/") == name;
  }

  /** A '/' inside the address after the bucket is always refused: "s3://a/b" and "s3://a//" alike. */
  lemma MbRejectsInnerSlash(a: string, b: string)
    requires b != ""
    ensures MbName(Scheme + a + "/" + b).Err?
  {
    var s := Scheme + a + "/" + b;
    if MbName(s).Ok? {
      SlashKept(a, b, MbName(s).value);
    }
  }

  /** Removing the scheme and one trailing '/' from "s3://a/b" leaves the '/' after `a`. */
  lemma SlashKept(a: string, b: string, n: string)
    requires b != ""
    requires Scheme + a + "/" + b == Scheme + n || Scheme + a + "/" + b == Scheme + n + "/"
    ensures '/' in n
  {
    var s := Scheme + a + "/" + b;
    assert s[|Scheme| + |a|] == '/';
    assert |a| < |n|;
    assert n[|a|] == s[|Scheme| + |a|];
  }

  // ---------------------------------------------------------------------
  // ls

  /** What `ls` lists. */
  datatype LsAction = ListAllBuckets(filter: string) | ListBucketObjects(bucket: string, prefix: string)

  /**
   * ls: no argument lists every bucket; an argument must have the scheme;
   * with no '/' after the scheme the argument filters the bucket list;
   * otherwise it names a bucket and a prefix.
   */
  function LsPlan(arg: Option<string>): (r: Result<LsAction, Error>)
    ensures arg.None? ==> r == Ok(ListAllBuckets(""))
    ensures arg.Some? && !HasPrefix(arg.value, Scheme) ==> r == Err(Invalid(BadS3Path))
    ensures r.Err? ==> r.error == Invalid(BadS3Path)
    ensures r.Ok? && r.value.ListAllBuckets? && arg.Some? ==>
      r.value.filter == arg.value && HasPrefix(arg.value, Scheme) && '/' !in arg.value[|Scheme|..]
    ensures r.Ok? && r.value.ListBucketObjects? ==>
      arg.Some? && arg.value == Format(Location(r.value.bucket, r.value.prefix)) && '/' !in r.value.bucket
  {
    match arg
    case None => Ok(ListAllBuckets(""))
    case Some(input) =>
      if !HasPrefix(input, Scheme) then Err(Invalid(BadS3Path))
      else if NamesBucketsOnly(input) then
        NamesBucketsOnlyIffNoSlash(input);
        Ok(ListAllBuckets(input))
      else
        NamesBucketsOnlyIffNoSlash(input);
        var loc := ParseS3(input).value;
        Ok(ListBucketObjects(loc.bucket, loc.key))
  }

  /** Every location address lists that bucket under that prefix. */
  lemma LsLocation(loc: Location)
    requires '/' !in loc.bucket
    ensures LsPlan(Some(Format(loc))) == Ok(ListBucketObjects(loc.bucket, loc.key))
  {
    ParseFormat(loc);
    assert Format(loc)[|Scheme|..] == loc.bucket + "/" + loc.key;
    assert '/' in Format(loc)[|Scheme|..] by {
      assert Format(loc)[|Scheme|..][|loc.bucket|] == '/';
    }
  }

  /** An address with no '/' after the scheme filters the bucket list by itself. */
  lemma LsBucketFilter(q: string)
    requires '/' !in q
    ensures LsPlan(Some(Scheme + q)) == Ok(ListAllBuckets(Scheme + q))
  {
    assert (Scheme + q)[|Scheme|..] == q;
  }

  /** How a bucket is shown: "s3://<name>/". */
  function BucketAddress(name: string): string {
    Scheme + name + "/"
  }

  /** The bucket lines listAllBuckets prints: the addresses that start with the filter, in order. */
  function ShownBuckets(names: seq<string>, filter: string): (shown: seq<string>)
    ensures |shown| <= |names|
    ensures forall x :: x in shown <==> exists n :: n in names && x == BucketAddress(n) && HasPrefix(x, filter)
  {
    if names == [] then []
    else
      var last := names[|names| - 1];
      var init := names[..|names| - 1];
      assert names == init + [last];
      ShownBuckets(init, filter) + (if HasPrefix(BucketAddress(last), filter) then [BucketAddress(last)] else [])
  }

  /**
   * The filter is a prefix match on the address, not an exact one:
   * "s3://ab" shows every bucket whose name starts with "ab".
   */
  lemma FilterMatchesNamePrefixes(names: seq<string>, q: string, n: string)
    requires n in names && HasPrefix(n, q)
    ensures BucketAddress(n) in ShownBuckets(names, Scheme + q)
  {
    assert BucketAddress(n)[..|Scheme + q|] == Scheme + q by {
      assert BucketAddress(n) == Scheme + n + "/";
      assert n[..|q|] == q;
    }
  }

  /** The result of listAllBuckets: a "no buckets" message, or the bucket lines. */
  datatype BucketListing = NoBuckets | BucketLines(lines: seq<string>)

  /** listAllBuckets. */
  method ListAllBucketsOf(client: Client, filter: string) returns (r: Result<BucketListing, Error>)
    ensures BucketNames(client.svc).Err? ==> r == Err(BucketNames(client.svc).error)
    ensures BucketNames(client.svc).Ok? ==> r.Ok? && (r.value.NoBuckets? <==> client.svc.bucketNames == [])
    ensures r.Ok? && r.value.BucketLines? ==> r.value.lines == ShownBuckets(client.svc.bucketNames, filter)
  {
    var buckets := client.ListBuckets();
    if buckets.Err? {
      return Err(buckets.error);
    }
    var names := buckets.value;
    if |names| == 0 {
      return Ok(NoBuckets);
    }
    var lines := [];
    var i := 0;
    while i < |names|
      invariant 0 <= i <= |names|
      invariant lines == ShownBuckets(names[..i], filter)
    {
      assert names[..i + 1][..i] == names[..i];
      var bucketName := BucketAddress(names[i]);
      if HasPrefix(bucketName, filter) {
        lines := lines + [bucketName];
      }
      i := i + 1;
    }
    assert names[..i] == names;
    return Ok(BucketLines(lines));
  }

  /** How an object is shown in full: "s3://<bucket>/<key>". */
  function ObjectAddress(bucket: string, key: string): string {
    Scheme + bucket + "/" + key
  }

  /** The part of "s3://bucket/prefix" up to and including its last '/'. */
  function FullPrefix(bucket: string, prefix: string): (r: string)
    ensures HasSuffix(r, "/")
    ensures HasPrefix(ObjectAddress(bucket, prefix), r)
    ensures '/' !in ObjectAddress(bucket, prefix)[|r|..]
  {
    var full := ObjectAddress(bucket, prefix);
    assert full[|Scheme| + |bucket|] == '/';
    if HasSuffix(full, "/") then full
    else
      var cut := LastIndexByte(full, '/') + 1;
      assert full[..cut][cut - 1] == '/';
      full[..cut]
  }

  /** The entries listBucketObjects prints: all but a folder entry equal to the prefix itself. */
  predicate ShouldShow(key: Key, prefix: string) {
    key[|key| - 1] != '/' || key != prefix
  }

  /** The only entry hidden is the folder that is the prefix. */
  lemma OnlyPrefixFolderHidden(key: Key, prefix: string)
    ensures !ShouldShow(key, prefix) <==> key == prefix && IsDirectory(key)
  {
  }

  /** The path column: the full address, or with the first occurrence of the full prefix removed. */
  function DisplayPath(bucket: string, key: string, fullPrefix: string, showFullPath: bool): string {
    if showFullPath then ObjectAddress(bucket, key) else ReplaceFirst(ObjectAddress(bucket, key), fullPrefix, "")
  }

  /** A key under the listed prefix is shown relative to the prefix's last '/'. */
  lemma DisplayRelative(bucket: string, prefix: string, key: string)
    requires HasPrefix(key, prefix)
    ensures var fp := FullPrefix(bucket, prefix);
      HasPrefix(ObjectAddress(bucket, key), fp) &&
      DisplayPath(bucket, key, fp, false) == ObjectAddress(bucket, key)[|fp|..]
  {
    var fp := FullPrefix(bucket, prefix);
    var full := ObjectAddress(bucket, key);
    var listed := ObjectAddress(bucket, prefix);
    assert full == listed + key[|prefix|..] by {
      assert key == prefix + key[|prefix|..];
    }
    assert full[..|fp|] == listed[..|fp|];
    ReplaceFirstAtStart(full, fp, "");
    assert "" + full[|fp|..] == full[|fp|..];
  }

  /** One printed line: date (none for folders), size ("DIR" for folders) and path. */
  datatype Row = Row(date: Option<int>, size: Option<Humanized>, path: string)

  /** The row for an object. */
  predicate RowFor(bucket: string, fullPrefix: string, showFullPath: bool, o: ObjectInfo, row: Row) {
    row.path == DisplayPath(bucket, o.key, fullPrefix, showFullPath) &&
    (IsDirectory(o.key) ==> row.size.None? && row.date.None?) &&
    (!IsDirectory(o.key) ==> row.size.Some? && Describes(o.size, row.size.value, 2, "B") && row.date == Some(o.lastModified))
  }

  /** The rows printed for a run of shown objects: one each, in order. */
  predicate RowsFor(bucket: string, fullPrefix: string, showFullPath: bool, shown: seq<ObjectInfo>, rows: seq<Row>) {
    |rows| == |shown| &&
    forall i :: 0 <= i < |shown| ==> RowFor(bucket, fullPrefix, showFullPath, shown[i], rows[i])
  }

  /** An object has one row: what `ls` prints for it is determined by the object. */
  lemma RowDetermined(bucket: string, fullPrefix: string, showFullPath: bool, o: ObjectInfo, r: Row, t: Row)
    requires RowFor(bucket, fullPrefix, showFullPath, o, r) && RowFor(bucket, fullPrefix, showFullPath, o, t)
    ensures r == t
  {
    if !IsDirectory(o.key) {
      var x, y := r.size.value, t.size.value;
      if o.size >= Unit {
        DescribesUnique(o.size, x, y, 2, "B");
      } else {
        ExactText(o.size, x, 2, "B");
        ExactText(o.size, y, 2, "B");
      }
    }
  }

  /** The objects of a listing that are printed, in order. */
  function ShownEntries(items: seq<Item>, prefix: string): seq<ObjectInfo> {
    if items == [] then []
    else
      var last := items[|items| - 1];
      ShownEntries(items[..|items| - 1], prefix) + (if last.Entry? && ShouldShow(last.info.key, prefix) then [last.info] else [])
  }

  /** The shown entries are exactly the listed objects that pass `ShouldShow`, and no more than the items. */
  lemma {:induction false} ShownEntriesMembers(items: seq<Item>, prefix: string)
    ensures |ShownEntries(items, prefix)| <= |items|
    ensures forall o :: o in ShownEntries(items, prefix) <==> Entry(o) in items && ShouldShow(o.key, prefix)
    decreases |items|
  {
    if items != [] {
      var front := items[..|items| - 1];
      var last := items[|items| - 1];
      assert items == front + [last];
      ShownEntriesMembers(front, prefix);
    }
  }

  /** The shown entries of a listing read in two parts are those of the first, then those of the second. */
  lemma {:induction false} ShownEntriesAppend(a: seq<Item>, b: seq<Item>, prefix: string)
    ensures ShownEntries(a + b, prefix) == ShownEntries(a, prefix) + ShownEntries(b, prefix)
    decreases |b|
  {
    if b == [] {
      assert a + b == a;
    } else {
      var front := b[..|b| - 1];
      var last := b[|b| - 1];
      assert (a + b)[..|a + b| - 1] == a + front;
      assert (a + b)[|a + b| - 1] == last;
      ShownEntriesAppend(a, front, prefix);
    }
  }

  /**
   * listBucketObjects: a row for each shown entry before the first listing
   * error, printed as they come; that error, if any, is returned after them.
   */
  method ListBucketObjectsOf(client: Client, bucket: string, prefix: string, recursive: bool, onlyFolders: bool,
                             showFullPath: bool) returns (rows: seq<Row>, outcome: Outcome<Error>)
    ensures var items := Listed(client.svc, bucket, prefix, recursive, onlyFolders, []);
      (outcome.Fail? <==> FirstError(items) < |items|) &&
      (outcome.Fail? ==> outcome.error == items[FirstError(items)].err)
    ensures var items := Listed(client.svc, bucket, prefix, recursive, onlyFolders, []);
      RowsFor(bucket, FullPrefix(bucket, prefix), showFullPath, ShownEntries(items[..FirstError(items)], prefix), rows)
  {
    var fullPrefix := FullPrefix(bucket, prefix);
    var objects := client.ListObjects(bucket, prefix, recursive, onlyFolders, []);
    rows := [];
    var i := 0;
    while i < |objects|
      invariant 0 <= i <= |objects|
      invariant forall j :: 0 <= j < i ==> objects[j].Entry?
      invariant RowsFor(bucket, fullPrefix, showFullPath, ShownEntries(objects[..i], prefix), rows)
    {
      var item := objects[i];
      if item.Failed? {
        FirstErrorAt(objects, i);
        return rows, Fail(item.err);
      }
      var o := item.info;
      ShownStep(objects, i, prefix);
      if ShouldShow(o.key, prefix) {
        var row := PrintRow(bucket, fullPrefix, showFullPath, o);
        RowsGrow(bucket, fullPrefix, showFullPath, ShownEntries(objects[..i], prefix), rows, o, row);
        rows := rows + [row];
      }
      i := i + 1;
    }
    FirstErrorAt(objects, i);
    assert objects[..i] == objects;
    return rows, Pass;
  }

  /** One printed line of listBucketObjects. */
  method PrintRow(bucket: string, fullPrefix: string, showFullPath: bool, o: ObjectInfo) returns (row: Row)
    ensures RowFor(bucket, fullPrefix, showFullPath, o, row)
  {
    var fullPath := DisplayPath(bucket, o.key, fullPrefix, showFullPath);
    var date: Option<int> := None;
    var size: Option<Humanized> := None;
    if !IsDirectory(o.key) {
      var text := FormatSize(o.size);
      size := Some(text);
      date := Some(o.lastModified);
    }
    row := Row(date, size, fullPath);
  }

  /** Reading one more object extends the shown entries by it when it is shown. */
  lemma ShownStep(items: seq<Item>, i: nat, prefix: string)
    requires i < |items| && items[i].Entry?
    ensures ShownEntries(items[..i + 1], prefix) ==
      ShownEntries(items[..i], prefix) + (if ShouldShow(items[i].info.key, prefix) then [items[i].info] else [])
  {
    assert items[..i + 1][..i] == items[..i];
  }

  lemma RowsGrow(bucket: string, fullPrefix: string, showFullPath: bool, shown: seq<ObjectInfo>, rows: seq<Row>,
                 o: ObjectInfo, row: Row)
    requires RowsFor(bucket, fullPrefix, showFullPath, shown, rows)
    requires RowFor(bucket, fullPrefix, showFullPath, o, row)
    ensures RowsFor(bucket, fullPrefix, showFullPath, shown + [o], rows + [row])
  {
  }

  /** The first error is where every earlier item is an object and this one is not, or the end. */
  lemma FirstErrorAt(items: seq<Item>, i: nat)
    requires i <= |items| && forall j :: 0 <= j < i ==> items[j].Entry?
    requires i < |items| ==> items[i].Failed?
    ensures FirstError(items) == i
  {
  }

  /** What `ls` ends with, after the object rows it printed. */
  datatype LsOutput = Buckets(listing: BucketListing) | ObjectsListed | MissingBucket(bucket: string)

  /**
   * ls: dispatch, and the downgrade of a NoSuchBucket error to a message.
   * `rows` are the object lines printed, which stay printed whatever follows.
   */
  method Ls(client: Client, arg: Option<string>, recursive: bool, onlyFolders: bool, showFullPath: bool)
    returns (rows: seq<Row>, r: Result<LsOutput, Error>)
    ensures LsPlan(arg).Err? ==> r == Err(LsPlan(arg).error) && rows == []
    ensures LsPlan(arg).Ok? && LsPlan(arg).value.ListAllBuckets? ==>
      (r.Err? <==> BucketNames(client.svc).Err?) && (r.Err? ==> r.error == BucketNames(client.svc).error) &&
      (r.Ok? ==> r.value.Buckets?) &&
      (r.Ok? ==> (r.value.listing.NoBuckets? <==> client.svc.bucketNames == [])) &&
      (r.Ok? && r.value.listing.BucketLines? ==>
        r.value.listing.lines == ShownBuckets(client.svc.bucketNames, LsPlan(arg).value.filter)) &&
      rows == []
    ensures LsPlan(arg).Ok? && LsPlan(arg).value.ListBucketObjects? ==>
      var plan := LsPlan(arg).value;
      var items := Listed(client.svc, plan.bucket, plan.prefix, recursive, onlyFolders, []);
      (r == Ok(MissingBucket(plan.bucket)) <==> FirstError(items) < |items| && items[FirstError(items)].err == Sdk(NoSuchBucket)) &&
      (r.Err? <==> FirstError(items) < |items| && items[FirstError(items)].err != Sdk(NoSuchBucket)) &&
      (r.Err? ==> r.error == items[FirstError(items)].err) &&
      (r.Ok? ==> r.value.ObjectsListed? || r.value.MissingBucket?) &&
      RowsFor(plan.bucket, FullPrefix(plan.bucket, plan.prefix), showFullPath,
              ShownEntries(items[..FirstError(items)], plan.prefix), rows)
  {
    rows := [];
    var plan := LsPlan(arg);
    if plan.Err? {
      return rows, Err(plan.error);
    }
    match plan.value
    case ListAllBuckets(filter) =>
      var listing := ListAllBucketsOf(client, filter);
      if listing.Err? {
        return rows, Err(listing.error);
      }
      return rows, Ok(Buckets(listing.value));
    case ListBucketObjects(bucket, prefix) =>
      var outcome;
      rows, outcome := ListBucketObjectsOf(client, bucket, prefix, recursive, onlyFolders, showFullPath);
      if outcome.Fail? {
        if outcome.error == Sdk(NoSuchBucket) {
          return rows, Ok(MissingBucket(bucket));
        }
        return rows, Err(outcome.error);
      }
      return rows, Ok(ObjectsListed);
  }
}
