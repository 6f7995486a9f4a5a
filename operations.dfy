/**
 * The reference definitions of the client's operations: for each, the
 * requests it issues, the state it leaves and the error it returns, as a
 * function of the service, the local files and the arguments. The class
 * `S3Client.Client` is proved to follow them; the lemmas here state what
 * the operations promise.
 */
module Operations {
  import opened Wrappers
  import opened Errors
  import opened GoStrings
  import opened FilePath
  import opened Listing
  import opened Storage
  import opened LocalFs

  const DefaultContentType: string := "application/octet-stream"
  const AclHeader: string := "x-amz-acl"
  const PublicRead: string := "public-read"

  /** What an operation did to the service: the state after it, the requests in order, the result. */
  datatype Effect = Effect(store: Store, calls: seq<Call>, outcome: Outcome<Error>)

  /** What a download did: the local files after it, the requests in order, the result. */
  datatype Fetch = Fetch(files: map<string, Node>, calls: seq<Call>, outcome: Outcome<Error>)

  /** ListObjects: the service's listing for these options, forwarded. */
  function Listed(svc: Service, bucket: string, prefix: string, recursive: bool, onlyFolders: bool,
                  maxKeys: seq<int>): seq<Item> {
    Forwarded(svc.listing(bucket, Options(prefix, recursive, maxKeys)), onlyFolders)
  }

  /** ListBuckets: the service's bucket names, or its refusal wrapped. */
  function BucketNames(svc: Service): (r: Result<seq<string>, Error>)
    ensures r.Ok? <==> svc.refuse(ListBucketsCall).None?
    ensures r.Ok? ==> r.value == svc.bucketNames
    ensures r.Err? ==> r.error == Wrapped(ListBucketsFailed, Sdk(svc.refuse(ListBucketsCall).value))
  {
    if svc.refuse(ListBucketsCall).Some? then Err(Wrapped(ListBucketsFailed, Sdk(svc.refuse(ListBucketsCall).value)))
    else Ok(svc.bucketNames)
  }

  // ---------------------------------------------------------------------
  // Buckets

  /** MakeBucket: create; on failure ask whether the bucket exists and, if so, report success. */
  function MakeBucketEffect(svc: Service, st: Store, bucket: string): Effect {
    var made := Next(svc, st, MakeBucketCall(bucket));
    if made.answer.Ok? then Effect(made.store, [MakeBucketCall(bucket)], Pass)
    else
      var known := Next(svc, made.store, BucketExistsCall(bucket));
      var calls := [MakeBucketCall(bucket), BucketExistsCall(bucket)];
      if known.answer == Ok(Exists(true)) then Effect(known.store, calls, Pass)
      else Effect(known.store, calls, Fail(Wrapped(MakeBucketFailed, Sdk(made.answer.error))))
  }

  /**
   * A failed creation is downgraded to success exactly when the existence
   * check says the bucket is there; any other failure is the creation's
   * error, wrapped. Success always leaves the bucket in place.
   */
  lemma MakeBucketDowngrade(svc: Service, st: Store, bucket: string)
    ensures var e := MakeBucketEffect(svc, st, bucket);
      var made := Next(svc, st, MakeBucketCall(bucket));
      (e.outcome.Pass? <==> made.answer.Ok? || Next(svc, made.store, BucketExistsCall(bucket)).answer == Ok(Exists(true))) &&
      (e.outcome.Fail? ==> e.outcome.error == Wrapped(MakeBucketFailed, Sdk(made.answer.error))) &&
      (e.calls == if made.answer.Ok? then [MakeBucketCall(bucket)] else [MakeBucketCall(bucket), BucketExistsCall(bucket)]) &&
      (e.outcome.Pass? ==> bucket in e.store.buckets) &&
      e.store.objects == st.objects
  {
  }

  /**
   * RemoveBucket: ask whether the bucket is empty; a bucket that is not is
   * left alone, with success; an empty one is removed.
   */
  function RemoveBucketEffect(svc: Service, st: Store, bucket: string): Effect {
    var empty := EmptinessOf(Listed(svc, bucket, "", false, false, [1]));
    if empty.Err? then Effect(st, [], Fail(Wrapped(CheckBucketFailed, empty.error)))
    else if !empty.value then Effect(st, [], Pass)
    else
      var removed := Next(svc, st, RemoveBucketCall(bucket));
      Effect(removed.store, [RemoveBucketCall(bucket)],
             if removed.answer.Err? then Fail(Wrapped(RemoveBucketFailed, Sdk(removed.answer.error))) else Pass)
  }

  /**
   * Removal is requested only for a bucket the emptiness test found empty;
   * a non-empty bucket is the one downgrade to success, issuing nothing.
   */
  lemma RemoveBucketGuarded(svc: Service, st: Store, bucket: string)
    ensures var e := RemoveBucketEffect(svc, st, bucket);
      var empty := EmptinessOf(Listed(svc, bucket, "", false, false, [1]));
      (RemoveBucketCall(bucket) in e.calls <==> empty == Ok(true)) &&
      (empty == Ok(false) ==> e == Effect(st, [], Pass)) &&
      (empty.Err? ==> e == Effect(st, [], Fail(Wrapped(CheckBucketFailed, empty.error)))) &&
      (e.outcome.Pass? && e.calls != [] ==> bucket !in e.store.buckets) &&
      e.store.objects == st.objects
  {
  }

  // ---------------------------------------------------------------------
  // Deletion

  /** DeleteObject: refuses an empty key, then an empty bucket, and otherwise issues one removal. */
  function DeleteObjectEffect(svc: Service, st: Store, bucket: string, key: string): (e: Effect)
    ensures key == "" ==> e == Effect(st, [], Fail(Invalid(EmptyObjectPath)))
    ensures key != "" && bucket == "" ==> e == Effect(st, [], Fail(Invalid(EmptyBucket)))
    ensures key != "" && bucket != "" ==>
      e.calls == [RemoveObjectCall(bucket, key)] &&
      e.store == Next(svc, st, RemoveObjectCall(bucket, key)).store &&
      (e.outcome.Pass? <==> Next(svc, st, RemoveObjectCall(bucket, key)).answer.Ok?)
    ensures e.outcome.Fail? && key != "" && bucket != "" ==>
      e.outcome.error == Wrapped(RemoveObjectFailed, Sdk(Next(svc, st, RemoveObjectCall(bucket, key)).answer.error))
  {
    if key == "" then Effect(st, [], Fail(Invalid(EmptyObjectPath)))
    else if bucket == "" then Effect(st, [], Fail(Invalid(EmptyBucket)))
    else
      var reply := Next(svc, st, RemoveObjectCall(bucket, key));
      if reply.answer.Err? then Effect(reply.store, [RemoveObjectCall(bucket, key)],
                                       Fail(Wrapped(RemoveObjectFailed, Sdk(reply.answer.error))))
      else Effect(reply.store, [RemoveObjectCall(bucket, key)], Pass)
  }

  /** DeleteDirectory's loop: each listed key removed in turn, stopping at the first error of either kind. */
  function DeleteAllEffect(svc: Service, st: Store, bucket: string, items: seq<Item>): Effect
    decreases |items|
  {
    if items == [] then Effect(st, [], Pass)
    else match items[0]
      case Failed(err) => Effect(st, [], Fail(err))
      case Entry(o) =>
        var first := DeleteObjectEffect(svc, st, bucket, o.key);
        if first.outcome.Fail? then first
        else
          var rest := DeleteAllEffect(svc, first.store, bucket, items[1..]);
          Effect(rest.store, first.calls + rest.calls, rest.outcome)
  }

  /** DeleteDirectory: a recursive listing of the prefix, then the loop. */
  function DeleteDirectoryEffect(svc: Service, st: Store, bucket: string, prefix: string): Effect {
    DeleteAllEffect(svc, st, bucket, Listed(svc, bucket, prefix, true, false, []))
  }

  /** The removals for the entries of a listing, in order. */
  function Removals(bucket: string, items: seq<Item>): seq<Call> {
    if items == [] then []
    else if items[0].Entry? then [RemoveObjectCall(bucket, items[0].info.key)] + Removals(bucket, items[1..])
    else Removals(bucket, items[1..])
  }

  lemma {:induction false} RemovalsAppend(bucket: string, a: seq<Item>, b: seq<Item>)
    ensures Removals(bucket, a + b) == Removals(bucket, a) + Removals(bucket, b)
    decreases |a|
  {
    if a == [] {
      assert a + b == b;
    } else {
      assert (a + b)[1..] == a[1..] + b;
      RemovalsAppend(bucket, a[1..], b);
    }
  }

  /** The error a removal can fail with inside DeleteDirectory. */
  predicate RemovalError(err: Error) {
    err == Invalid(EmptyBucket) || (err.Wrapped? && err.context == RemoveObjectFailed)
  }

  /**
   * DeleteDirectory is fail-fast and in listing order: it stops at position
   * `j`, having requested the removal of exactly the keys before `j` (and
   * of the key at `j`, when that removal is what failed); with no failure
   * it requested every listed key once. The error is the listing's own
   * error, unwrapped, or the failed removal's.
   */
  lemma {:induction false} DeleteAllStops(svc: Service, st: Store, bucket: string, items: seq<Item>) returns (j: nat)
    ensures j <= |items|
    ensures forall i :: 0 <= i < j ==> items[i].Entry?
    ensures var e := DeleteAllEffect(svc, st, bucket, items);
      e.outcome.Pass? ==> j == |items| && e.calls == Removals(bucket, items)
    ensures var e := DeleteAllEffect(svc, st, bucket, items);
      e.outcome.Fail? ==>
        j < |items| &&
        ((items[j].Failed? && e.outcome.error == items[j].err && e.calls == Removals(bucket, items[..j])) ||
         (items[j].Entry? && RemovalError(e.outcome.error) &&
          (e.calls == Removals(bucket, items[..j]) || e.calls == Removals(bucket, items[..j + 1]))))
    decreases |items|
  {
    var e := DeleteAllEffect(svc, st, bucket, items);
    if items == [] {
      return 0;
    }
    match items[0]
    case Failed(err) =>
      assert items[..0] == [];
      return 0;
    case Entry(o) =>
      var first := DeleteObjectEffect(svc, st, bucket, o.key);
      assert Removals(bucket, items[..1]) == [RemoveObjectCall(bucket, o.key)];
      if first.outcome.Fail? {
        assert items[..0] == [];
        return 0;
      }
      var k := DeleteAllStops(svc, first.store, bucket, items[1..]);
      DeleteStep(bucket, items, first.calls, k);
      j := k + 1;
  }

  /** The bookkeeping of DeleteAllStops' inductive step: the first removal before those of the rest. */
  lemma DeleteStep(bucket: string, items: seq<Item>, first: seq<Call>, k: nat)
    requires 0 < |items| && items[0].Entry? && k < |items|
    requires first == Removals(bucket, items[..1])
    ensures first + Removals(bucket, items[1..]) == Removals(bucket, items)
    ensures first + Removals(bucket, items[1..][..k]) == Removals(bucket, items[..k + 1])
    ensures k + 1 < |items| ==> first + Removals(bucket, items[1..][..k + 1]) == Removals(bucket, items[..k + 2])
    ensures forall i :: 1 <= i < |items| ==> items[i] == items[1..][i - 1]
  {
    RemovalsAppend(bucket, items[..1], items[1..][..k]);
    assert items[..1] + items[1..][..k] == items[..k + 1];
    if k + 1 < |items| {
      RemovalsAppend(bucket, items[..1], items[1..][..k + 1]);
      assert items[..1] + items[1..][..k + 1] == items[..k + 2];
    }
    RemovalsAppend(bucket, items[..1], items[1..]);
    assert items[..1] + items[1..] == items;
  }

  /** DeleteDirectory touches only the keys the listing named in the bucket. */
  lemma {:induction false} DeleteAllLocal(svc: Service, st: Store, bucket: string, items: seq<Item>, id: ObjectId)
    requires id.bucket != bucket || forall i :: 0 <= i < |items| && items[i].Entry? ==> items[i].info.key != id.key
    ensures var after := DeleteAllEffect(svc, st, bucket, items).store;
      (id in after.objects <==> id in st.objects) &&
      (id in st.objects ==> after.objects[id] == st.objects[id])
    decreases |items|
  {
    if items != [] && items[0].Entry? {
      var first := DeleteObjectEffect(svc, st, bucket, items[0].info.key);
      if items[0].info.key != "" && bucket != "" {
        NextLocal(svc, st, RemoveObjectCall(bucket, items[0].info.key), id);
      }
      if first.outcome.Pass? {
        DeleteAllLocal(svc, first.store, bucket, items[1..], id);
      }
    }
  }

  /** With no failure, no key the listing named is left in the bucket. */
  lemma {:induction false} DeleteAllRemoves(svc: Service, st: Store, bucket: string, items: seq<Item>)
    requires DeleteAllEffect(svc, st, bucket, items).outcome.Pass?
    ensures forall i :: 0 <= i < |items| && items[i].Entry? ==>
      ObjectId(bucket, items[i].info.key) !in DeleteAllEffect(svc, st, bucket, items).store.objects
    decreases |items|
  {
    if items != [] {
      var first := DeleteObjectEffect(svc, st, bucket, items[0].info.key);
      DeleteAllRemoves(svc, first.store, bucket, items[1..]);
      RemovalsNeverAdd(svc, first.store, bucket, items[1..], ObjectId(bucket, items[0].info.key));
      forall i | 1 <= i < |items| && items[i].Entry?
        ensures ObjectId(bucket, items[i].info.key) !in DeleteAllEffect(svc, st, bucket, items).store.objects
      {
        assert items[i] == items[1..][i - 1];
      }
    }
  }

  /** Removing objects never brings one back. */
  lemma {:induction false} RemovalsNeverAdd(svc: Service, st: Store, bucket: string, items: seq<Item>, id: ObjectId)
    requires id !in st.objects
    ensures id !in DeleteAllEffect(svc, st, bucket, items).store.objects
    decreases |items|
  {
    if items != [] && items[0].Entry? {
      var first := DeleteObjectEffect(svc, st, bucket, items[0].info.key);
      if first.outcome.Pass? {
        RemovalsNeverAdd(svc, first.store, bucket, items[1..], id);
      }
    }
  }

  // ---------------------------------------------------------------------
  // Uploads

  /** getContentType: the MIME type of the lower-cased extension, or application/octet-stream. */
  function ContentType(host: Host, name: string): (r: string)
    ensures r != ""
    ensures r == DefaultContentType || r == host.mimeTypes(ToLower(Ext(name)))
    ensures host.mimeTypes(ToLower(Ext(name))) != "" ==> r == host.mimeTypes(ToLower(Ext(name)))
    ensures host.mimeTypes(ToLower(Ext(name))) == "" ==> r == DefaultContentType
  {
    var mimeType := host.mimeTypes(ToLower(Ext(name)));
    if mimeType != "" then mimeType else DefaultContentType
  }

  /** The content type depends only on the extension, ignoring ASCII case. */
  lemma ContentTypeByExtension(host: Host, a: string, b: string)
    requires ToLower(Ext(a)) == ToLower(Ext(b))
    ensures ContentType(host, a) == ContentType(host, b)
  {
  }

  /** The user metadata of an upload: the public-read ACL header exactly for public uploads. */
  function Metadata(isPublic: bool): (m: map<string, string>)
    ensures isPublic ==> m == map[AclHeader := PublicRead]
    ensures !isPublic ==> m == map[]
  {
    if isPublic then map[AclHeader := PublicRead] else map[]
  }

  /** The key an upload uses: the given object name, or the file's base name when none is given. */
  function ObjectName(path: string, objectName: string): (k: string)
    ensures k != ""
    ensures objectName != "" ==> k == objectName
    ensures objectName == "" ==> k == Base(path)
  {
    if objectName == "" then Base(path) else objectName
  }

  /** The request UploadFile sends for file content `data`. */
  function PutFor(host: Host, bucket: string, path: string, data: seq<byte>, objectName: string, isPublic: bool): Call {
    PutObjectCall(bucket, ObjectName(path, objectName), Stored(data, ContentType(host, path), Metadata(isPublic)))
  }

  /** UploadFile: open the file, then one put request with the built options. */
  function UploadFileEffect(svc: Service, host: Host, st: Store, files: map<string, Node>, bucket: string,
                            path: string, objectName: string, isPublic: bool): (e: Effect)
    ensures Lookup(files, path).None? ==> e == Effect(st, [], Fail(Wrapped(OpenFileFailed, Fs(path))))
    ensures Lookup(files, path).Some? && Lookup(files, path).value.File? ==>
      e.calls == [PutFor(host, bucket, path, Lookup(files, path).value.data, objectName, isPublic)] &&
      e.store == Next(svc, st, e.calls[0]).store &&
      (e.outcome.Pass? <==> Next(svc, st, e.calls[0]).answer.Ok?)
    ensures e.outcome.Fail? && Lookup(files, path).Some? && Lookup(files, path).value.File? ==>
      e.outcome.error == Wrapped(PutObjectFailed, Sdk(Next(svc, st, e.calls[0]).answer.error))
    ensures |e.calls| <= 1
  {
    match Lookup(files, path)
    case None => Effect(st, [], Fail(Wrapped(OpenFileFailed, Fs(path))))
    case Some(Directory) => Effect(st, [], Fail(Wrapped(PutObjectFailed, Fs(path))))
    case Some(File(data)) =>
        var call := PutFor(host, bucket, path, data, objectName, isPublic);
        var reply := Next(svc, st, call);
        Effect(reply.store, [call],
               if reply.answer.Err? then Fail(Wrapped(PutObjectFailed, Sdk(reply.answer.error))) else Pass)
  }

  /** A successful upload stores the file's bytes under its key, with its content type and ACL metadata. */
  lemma UploadFileStores(svc: Service, host: Host, st: Store, files: map<string, Node>, bucket: string,
                         path: string, objectName: string, isPublic: bool)
    requires UploadFileEffect(svc, host, st, files, bucket, path, objectName, isPublic).outcome.Pass?
    ensures Lookup(files, path).Some? && Lookup(files, path).value.File?
    ensures UploadFileEffect(svc, host, st, files, bucket, path, objectName, isPublic).store.objects[ObjectId(bucket, ObjectName(path, objectName))]
      == Stored(Lookup(files, path).value.data, ContentType(host, path), Metadata(isPublic))
  {
    var call := PutFor(host, bucket, path, Lookup(files, path).value.data, objectName, isPublic);
    WriteLands(svc, st, call);
  }

  /**
   * The key of a walked file: its relative path with '\' turned into '/',
   * joined under the prefix when there is one.
   */
  function ObjectKey(prefix: string, rel: string): (k: string)
    ensures '\\' !in k
  {
    var relPath := ReplaceAllByte(rel, '\\', '/');
    if prefix != "" then ReplaceAllByte(JoinPath(prefix, relPath), '\\', '/') else relPath
  }

  /** For plain paths the key is the relative path under the prefix, separated by one '/'. */
  lemma ObjectKeyPlain(prefix: string, rel: string)
    requires Plain(prefix) && Plain(rel) && '\\' !in prefix && '\\' !in rel
    ensures ObjectKey(prefix, rel) == prefix + "/" + rel
  {
    PlainNonEmpty(prefix);
    ReplaceAllAbsent(rel, '\\', '/');
    JoinPlain(prefix, rel);
    assert '\\' !in prefix + "/" + rel;
    ReplaceAllAbsent(prefix + "/" + rel, '\\', '/');
  }

  /** A prefix given with a trailing '/' yields the same keys. */
  lemma ObjectKeyUnderSlash(prefix: string, rel: string)
    requires Plain(prefix) && Plain(rel) && '\\' !in prefix && '\\' !in rel
    ensures ObjectKey(prefix + "/", rel) == prefix + "/" + rel
  {
    PlainNonEmpty(prefix);
    ReplaceAllAbsent(rel, '\\', '/');
    JoinPlainUnderSlash(prefix, rel);
    assert '\\' !in prefix + "/" + rel;
    ReplaceAllAbsent(prefix + "/" + rel, '\\', '/');
  }

  /** Without a prefix the key is the relative path, with '\' turned into '/'. */
  lemma ObjectKeyNoPrefix(rel: string)
    ensures ObjectKey("", rel) == ReplaceAllByte(rel, '\\', '/')
  {
  }

  lemma ReplaceAllAbsent(s: string, from: char, to: char)
    requires from !in s
    ensures ReplaceAllByte(s, from, to) == s
  {
  }

  /** A walk entry that UploadFile is called for: a file, with a relative path, whose content the disk holds. */
  predicate Uploadable(files: map<string, Node>, e: WalkEntry) {
    e.Visit? && !e.isDir && e.rel.Some? && Lookup(files, e.path).Some? && Lookup(files, e.path).value.File?
  }

  /** The put requests for the uploadable entries of a walk, in walk order. */
  function Puts(host: Host, files: map<string, Node>, bucket: string, prefix: string, isPublic: bool,
                entries: seq<WalkEntry>): seq<Call> {
    if entries == [] then []
    else if Uploadable(files, entries[0]) then
      [PutFor(host, bucket, entries[0].path, Lookup(files, entries[0].path).value.data, ObjectKey(prefix, entries[0].rel.value), isPublic)]
        + Puts(host, files, bucket, prefix, isPublic, entries[1..])
    else Puts(host, files, bucket, prefix, isPublic, entries[1..])
  }

  lemma {:induction false} PutsAppend(host: Host, files: map<string, Node>, bucket: string, prefix: string, isPublic: bool,
                                      a: seq<WalkEntry>, b: seq<WalkEntry>)
    ensures Puts(host, files, bucket, prefix, isPublic, a + b)
      == Puts(host, files, bucket, prefix, isPublic, a) + Puts(host, files, bucket, prefix, isPublic, b)
    decreases |a|
  {
    if a == [] {
      assert a + b == b;
    } else {
      assert (a + b)[1..] == a[1..] + b;
      PutsAppend(host, files, bucket, prefix, isPublic, a[1..], b);
    }
  }

  /**
   * The walk callback for one entry: a walk error is returned as it is,
   * directories are skipped, a file is uploaded under its key.
   */
  function UploadEntryEffect(svc: Service, host: Host, st: Store, files: map<string, Node>, bucket: string,
                             prefix: string, isPublic: bool, entry: WalkEntry): (e: Effect)
    ensures e.calls == Puts(host, files, bucket, prefix, isPublic, [entry])
    ensures e.outcome.Pass? ==> entry.Visit? && (entry.isDir || Uploadable(files, entry))
  {
    assert [entry][1..] == [];
    match entry
    case Unreadable(path) => Effect(st, [], Fail(Fs(path)))
    case Visit(path, rel, isDir) =>
      if isDir then Effect(st, [], Pass)
      else if rel.None? then Effect(st, [], Fail(Wrapped(RelPathFailed, Fs(path))))
      else UploadFileEffect(svc, host, st, files, bucket, path, ObjectKey(prefix, rel.value), isPublic)
  }

  /** The whole walk: entry by entry, the first error ends it. */
  function UploadAllEffect(svc: Service, host: Host, st: Store, files: map<string, Node>, bucket: string,
                           prefix: string, isPublic: bool, entries: seq<WalkEntry>): Effect
    decreases |entries|
  {
    if entries == [] then Effect(st, [], Pass)
    else
      var first := UploadEntryEffect(svc, host, st, files, bucket, prefix, isPublic, entries[0]);
      if first.outcome.Fail? then first
      else
        var rest := UploadAllEffect(svc, host, first.store, files, bucket, prefix, isPublic, entries[1..]);
        Effect(rest.store, first.calls + rest.calls, rest.outcome)
  }

  /** UploadDirectory: the root must be an existing directory; then its walk is uploaded. */
  function UploadDirectoryEffect(svc: Service, host: Host, st: Store, files: map<string, Node>, bucket: string,
                                 root: string, prefix: string, isPublic: bool): (e: Effect)
    ensures Lookup(files, root).None? ==> e == Effect(st, [], Fail(Wrapped(StatDirFailed, Fs(root))))
    ensures Lookup(files, root).Some? && Lookup(files, root).value.File? ==> e == Effect(st, [], Fail(Invalid(NotADirectory(root))))
  {
    if Lookup(files, root).None? then Effect(st, [], Fail(Wrapped(StatDirFailed, Fs(root))))
    else if Lookup(files, root).value.File? then Effect(st, [], Fail(Invalid(NotADirectory(root))))
    else UploadAllEffect(svc, host, st, files, bucket, prefix, isPublic, host.walk(root))
  }

  /**
   * UploadDirectory is fail-fast and in walk order. With no failure every
   * file of the walk was uploaded and only directories were skipped
   * (UploadAllPasses); a failure stops it at some entry `j`, having uploaded
   * exactly the files before `j`, plus the one at `j` when that upload is
   * what failed, and nothing after `j` (UploadAllFails).
   */
  lemma {:induction false} UploadAllPasses(svc: Service, host: Host, st: Store, files: map<string, Node>, bucket: string,
                                           prefix: string, isPublic: bool, entries: seq<WalkEntry>)
    requires UploadAllEffect(svc, host, st, files, bucket, prefix, isPublic, entries).outcome.Pass?
    ensures forall i :: 0 <= i < |entries| ==> entries[i].Visit? && (entries[i].isDir || Uploadable(files, entries[i]))
    ensures UploadAllEffect(svc, host, st, files, bucket, prefix, isPublic, entries).calls
      == Puts(host, files, bucket, prefix, isPublic, entries)
    decreases |entries|
  {
    if entries != [] {
      var first := UploadEntryEffect(svc, host, st, files, bucket, prefix, isPublic, entries[0]);
      assert first.outcome.Pass?;
      UploadAllPasses(svc, host, first.store, files, bucket, prefix, isPublic, entries[1..]);
      UploadTail(host, files, bucket, prefix, isPublic, entries, |entries| - 1);
      assert entries[..|entries|] == entries;
    }
  }

  lemma {:induction false} UploadAllFails(svc: Service, host: Host, st: Store, files: map<string, Node>, bucket: string,
                                          prefix: string, isPublic: bool, entries: seq<WalkEntry>) returns (j: nat)
    requires UploadAllEffect(svc, host, st, files, bucket, prefix, isPublic, entries).outcome.Fail?
    ensures var e := UploadAllEffect(svc, host, st, files, bucket, prefix, isPublic, entries);
      j < |entries| &&
      (e.calls == Puts(host, files, bucket, prefix, isPublic, entries[..j]) ||
       e.calls == Puts(host, files, bucket, prefix, isPublic, entries[..j + 1]))
    decreases |entries|
  {
    assert entries[..1] == [entries[0]];
    assert entries[..0] == [];
    var first := UploadEntryEffect(svc, host, st, files, bucket, prefix, isPublic, entries[0]);
    if first.outcome.Fail? {
      return 0;
    }
    var k := UploadAllFails(svc, host, first.store, files, bucket, prefix, isPublic, entries[1..]);
    j := k + 1;
    UploadTail(host, files, bucket, prefix, isPublic, entries, k);
  }

  /** The bookkeeping of the upload lemmas' inductive step. */
  lemma UploadTail(host: Host, files: map<string, Node>, bucket: string, prefix: string, isPublic: bool,
                   entries: seq<WalkEntry>, k: nat)
    requires 0 < |entries| && k < |entries|
    ensures Puts(host, files, bucket, prefix, isPublic, entries[..k + 1])
      == Puts(host, files, bucket, prefix, isPublic, [entries[0]]) + Puts(host, files, bucket, prefix, isPublic, entries[1..][..k])
    ensures k + 1 < |entries| ==>
      Puts(host, files, bucket, prefix, isPublic, entries[..k + 2])
        == Puts(host, files, bucket, prefix, isPublic, [entries[0]]) + Puts(host, files, bucket, prefix, isPublic, entries[1..][..k + 1])
    ensures forall i :: 1 <= i < |entries| ==> entries[i] == entries[1..][i - 1]
  {
    PutsAppend(host, files, bucket, prefix, isPublic, [entries[0]], entries[1..][..k]);
    assert [entries[0]] + entries[1..][..k] == entries[..k + 1];
    if k + 1 < |entries| {
      PutsAppend(host, files, bucket, prefix, isPublic, [entries[0]], entries[1..][..k + 1]);
      assert [entries[0]] + entries[1..][..k + 1] == entries[..k + 2];
    }
  }

  // ---------------------------------------------------------------------
  // Downloads

  function Bytes(a: Answer): seq<byte> {
    if a.Content? then a.data else []
  }

  /**
   * DownloadFile: create the parent directory, create (truncate) the local
   * file, look the object up, fetch it and write its bytes.
   */
  function DownloadFileFetch(svc: Service, host: Host, st: Store, files: map<string, Node>,
                             bucket: string, key: string, path: string): (f: Fetch)
    ensures f.calls <= [StatObjectCall(bucket, key), GetObjectCall(bucket, key)]
    ensures f.outcome.Pass? ==> f.calls == [StatObjectCall(bucket, key), GetObjectCall(bucket, key)]
  {
    var dirs := MakeDirs(host, files, Dir(path));
    if dirs.Err? then Fetch(files, [], Fail(Wrapped(CreateDirFailed, dirs.error)))
    else
      var created := CreateFile(host, dirs.value, path);
      if created.Err? then Fetch(dirs.value, [], Fail(Wrapped(CreateFileFailed, created.error)))
      else ReadInto(svc, st, created.value, bucket, key, path)
  }

  /** DownloadFile after the local file is created: look the object up, fetch it and write its bytes. */
  function ReadInto(svc: Service, st: Store, files: map<string, Node>, bucket: string, key: string, path: string): (f: Fetch)
    ensures f.calls <= [StatObjectCall(bucket, key), GetObjectCall(bucket, key)]
    ensures f.outcome.Pass? ==> f.calls == [StatObjectCall(bucket, key), GetObjectCall(bucket, key)]
  {
    var stat := Next(svc, st, StatObjectCall(bucket, key));
    if stat.answer.Err? then
      Fetch(files, [StatObjectCall(bucket, key)], Fail(Wrapped(StatObjectFailed, Sdk(stat.answer.error))))
    else
      var got := Next(svc, st, GetObjectCall(bucket, key));
      var calls := [StatObjectCall(bucket, key), GetObjectCall(bucket, key)];
      if got.answer.Err? then Fetch(files, calls, Fail(Wrapped(GetObjectFailed, Sdk(got.answer.error))))
      else Fetch(files[Clean(path) := File(Bytes(got.answer.value))], calls, Pass)
  }

  /** What a successful download went through: both local steps succeeded and the fetched bytes were written. */
  lemma DownloadFileSteps(svc: Service, host: Host, st: Store, files: map<string, Node>,
                          bucket: string, key: string, path: string)
    requires DownloadFileFetch(svc, host, st, files, bucket, key, path).outcome.Pass?
    ensures MakeDirs(host, files, Dir(path)).Ok?
    ensures CreateFile(host, MakeDirs(host, files, Dir(path)).value, path).Ok?
    ensures ObjectId(bucket, key) in st.objects
    ensures DownloadFileFetch(svc, host, st, files, bucket, key, path).files
      == CreateFile(host, MakeDirs(host, files, Dir(path)).value, path).value[Clean(path) := File(st.objects[ObjectId(bucket, key)].data)]
  {
    var dirs := MakeDirs(host, files, Dir(path));
    var created := CreateFile(host, dirs.value, path);
    var stat := Next(svc, st, StatObjectCall(bucket, key));
    var got := Next(svc, st, GetObjectCall(bucket, key));
    assert dirs.Ok? && created.Ok? && stat.answer.Ok? && got.answer.Ok?;
    GetReturns(svc, st, bucket, key);
  }

  /** A successful download leaves exactly the object's bytes in the file the path names. */
  lemma DownloadFileWrites(svc: Service, host: Host, st: Store, files: map<string, Node>,
                           bucket: string, key: string, path: string)
    requires DownloadFileFetch(svc, host, st, files, bucket, key, path).outcome.Pass?
    ensures ObjectId(bucket, key) in st.objects
    ensures Lookup(DownloadFileFetch(svc, host, st, files, bucket, key, path).files, path)
      == Some(File(st.objects[ObjectId(bucket, key)].data))
  {
    DownloadFileSteps(svc, host, st, files, bucket, key, path);
  }

  /** A successful download changes no entry but the file's and its directory's. */
  lemma DownloadFileKeepsOthers(svc: Service, host: Host, st: Store, files: map<string, Node>,
                                bucket: string, key: string, path: string, p: string)
    requires DownloadFileFetch(svc, host, st, files, bucket, key, path).outcome.Pass?
    requires Clean(p) != Clean(path) && Clean(p) != Dir(path)
    ensures Lookup(DownloadFileFetch(svc, host, st, files, bucket, key, path).files, p) == Lookup(files, p)
  {
    DownloadFileSteps(svc, host, st, files, bucket, key, path);
    DirClean(path);
    MakeDirsLocal(host, files, Dir(path), p);
  }

  /** The local file is created, empty, before the object is looked up: a missing object leaves an empty file behind. */
  lemma DownloadFileTruncatesFirst(svc: Service, host: Host, st: Store, files: map<string, Node>,
                                   bucket: string, key: string, path: string)
    requires MakeDirs(host, files, Dir(path)).Ok?
    requires CreateFile(host, MakeDirs(host, files, Dir(path)).value, path).Ok?
    requires Next(svc, st, StatObjectCall(bucket, key)).answer.Err?
    ensures Lookup(DownloadFileFetch(svc, host, st, files, bucket, key, path).files, path) == Some(File([]))
    ensures DownloadFileFetch(svc, host, st, files, bucket, key, path).outcome.Fail?
  {
  }

  /** Where DownloadDirectory writes a key: the key minus the prefix, joined under the local directory. */
  function LocalTarget(dir: string, prefix: string, key: string): string {
    JoinPath(dir, TrimPrefix(key, prefix))
  }

  /** The requests for the non-folder entries of a listing, in order. */
  function Fetches(bucket: string, items: seq<Item>): seq<Call> {
    if items == [] then []
    else if items[0].Entry? && !IsFolder(items[0].info) then
      [StatObjectCall(bucket, items[0].info.key), GetObjectCall(bucket, items[0].info.key)] + Fetches(bucket, items[1..])
    else Fetches(bucket, items[1..])
  }

  lemma {:induction false} FetchesAppend(bucket: string, a: seq<Item>, b: seq<Item>)
    ensures Fetches(bucket, a + b) == Fetches(bucket, a) + Fetches(bucket, b)
    decreases |a|
  {
    if a == [] {
      assert a + b == b;
    } else {
      assert (a + b)[1..] == a[1..] + b;
      FetchesAppend(bucket, a[1..], b);
    }
  }

  /** DownloadDirectory's step for one item: a listing error ends it, folders are skipped, a key is downloaded. */
  function DownloadItemFetch(svc: Service, host: Host, st: Store, files: map<string, Node>, bucket: string,
                             prefix: string, dir: string, item: Item): (f: Fetch)
    ensures f.calls <= Fetches(bucket, [item])
    ensures f.outcome.Pass? ==> item.Entry? && f.calls == Fetches(bucket, [item])
    ensures f.outcome.Fail? ==> DownloadStopError(item, f.outcome.error)
  {
    assert [item][1..] == [];
    match item
    case Failed(err) => Fetch(files, [], Fail(Wrapped(ListFailed, err)))
    case Entry(o) =>
      if IsFolder(o) then Fetch(files, [], Pass)
      else
        var f := DownloadFileFetch(svc, host, st, files, bucket, o.key, LocalTarget(dir, prefix, o.key));
        if f.outcome.Fail? then Fetch(f.files, f.calls, Fail(Wrapped(DownloadKeyFailed(o.key), f.outcome.error)))
        else f
  }

  /** The whole listing: item by item, the first error ends it. */
  function DownloadAllFetch(svc: Service, host: Host, st: Store, files: map<string, Node>, bucket: string,
                            prefix: string, dir: string, items: seq<Item>): Fetch
    decreases |items|
  {
    if items == [] then Fetch(files, [], Pass)
    else
      var first := DownloadItemFetch(svc, host, st, files, bucket, prefix, dir, items[0]);
      if first.outcome.Fail? then first
      else
        var rest := DownloadAllFetch(svc, host, st, first.files, bucket, prefix, dir, items[1..]);
        Fetch(rest.files, first.calls + rest.calls, rest.outcome)
  }

  /** DownloadDirectory: a recursive listing of the prefix, then the loop. */
  function DownloadDirectoryFetch(svc: Service, host: Host, st: Store, files: map<string, Node>, bucket: string,
                                  prefix: string, dir: string): Fetch {
    DownloadAllFetch(svc, host, st, files, bucket, prefix, dir, Listed(svc, bucket, prefix, true, false, []))
  }

  /** The error DownloadDirectory returns when it stops at an item. */
  predicate DownloadStopError(item: Item, err: Error) {
    match item
    case Failed(cause) => err == Wrapped(ListFailed, cause)
    case Entry(o) => err.Wrapped? && err.context == DownloadKeyFailed(o.key)
  }

  /**
   * DownloadDirectory is fail-fast and in listing order. With no failure it
   * requested every non-folder key and no folder (DownloadAllPasses); a
   * failure stops it at some item `j`, having requested exactly the
   * non-folder keys before `j` and part of the one at `j` at most, with an
   * error that names the listing failure or the key (DownloadAllFails).
   */
  lemma {:induction false} DownloadAllPasses(svc: Service, host: Host, st: Store, files: map<string, Node>, bucket: string,
                                             prefix: string, dir: string, items: seq<Item>)
    requires DownloadAllFetch(svc, host, st, files, bucket, prefix, dir, items).outcome.Pass?
    ensures forall i :: 0 <= i < |items| ==> items[i].Entry?
    ensures DownloadAllFetch(svc, host, st, files, bucket, prefix, dir, items).calls == Fetches(bucket, items)
    decreases |items|
  {
    if items != [] {
      var first := DownloadItemFetch(svc, host, st, files, bucket, prefix, dir, items[0]);
      var rest := DownloadAllFetch(svc, host, st, first.files, bucket, prefix, dir, items[1..]);
      assert first.outcome.Pass?;
      DownloadAllPasses(svc, host, st, first.files, bucket, prefix, dir, items[1..]);
      DownloadStep(bucket, items, first, rest, |items| - 1);
    }
  }

  /** A DownloadDirectory loop that fails stops at some item `j`, with the fetches up to it. */
  lemma {:induction false} DownloadAllFails(svc: Service, host: Host, st: Store, files: map<string, Node>, bucket: string,
                                            prefix: string, dir: string, items: seq<Item>) returns (j: nat)
    requires DownloadAllFetch(svc, host, st, files, bucket, prefix, dir, items).outcome.Fail?
    ensures var f := DownloadAllFetch(svc, host, st, files, bucket, prefix, dir, items);
      j < |items| && DownloadStopError(items[j], f.outcome.error) &&
      Fetches(bucket, items[..j]) <= f.calls <= Fetches(bucket, items[..j + 1])
    decreases |items|
  {
    var first := DownloadItemFetch(svc, host, st, files, bucket, prefix, dir, items[0]);
    if first.outcome.Fail? {
      DownloadFirstStops(bucket, items, first);
      return 0;
    }
    var rest := DownloadAllFetch(svc, host, st, first.files, bucket, prefix, dir, items[1..]);
    var k := DownloadAllFails(svc, host, st, first.files, bucket, prefix, dir, items[1..]);
    DownloadStep(bucket, items, first, rest, k);
    j := k + 1;
  }

  /** DownloadAllFails when the first item's download fails. */
  lemma DownloadFirstStops(bucket: string, items: seq<Item>, f: Fetch)
    requires 0 < |items| && f.outcome.Fail? && DownloadStopError(items[0], f.outcome.error)
    requires f.calls <= Fetches(bucket, [items[0]])
    ensures DownloadStopError(items[0], f.outcome.error) &&
      Fetches(bucket, items[..0]) <= f.calls <= Fetches(bucket, items[..1])
  {
    assert items[..1] == [items[0]];
    assert items[..0] == [];
  }

  /** The inductive step of DownloadAllPasses and DownloadAllFails, on the fetches of the first item and of the rest. */
  lemma DownloadStep(bucket: string, items: seq<Item>, first: Fetch, rest: Fetch, k: nat)
    requires 0 < |items| && k < |items|
    requires first.outcome.Pass? && items[0].Entry? && first.calls == Fetches(bucket, [items[0]])
    requires rest.outcome.Pass? ==>
      k == |items| - 1 && (forall i :: 0 <= i < |items| - 1 ==> items[1..][i].Entry?) &&
      rest.calls == Fetches(bucket, items[1..])
    requires rest.outcome.Fail? ==>
      k < |items| - 1 && DownloadStopError(items[1..][k], rest.outcome.error) &&
      Fetches(bucket, items[1..][..k]) <= rest.calls <= Fetches(bucket, items[1..][..k + 1])
    ensures rest.outcome.Pass? ==>
      k + 1 == |items| && (forall i :: 0 <= i < |items| ==> items[i].Entry?) &&
      first.calls + rest.calls == Fetches(bucket, items)
    ensures rest.outcome.Fail? ==>
      k + 1 < |items| && DownloadStopError(items[k + 1], rest.outcome.error) &&
      Fetches(bucket, items[..k + 1]) <= first.calls + rest.calls <= Fetches(bucket, items[..k + 2])
  {
    DownloadTail(bucket, items, k);
    if rest.outcome.Fail? {
      PrefixConcat(first.calls, Fetches(bucket, items[1..][..k]), rest.calls);
      PrefixConcat(first.calls, rest.calls, Fetches(bucket, items[1..][..k + 1]));
    } else {
      FetchesAppend(bucket, [items[0]], items[1..]);
      assert [items[0]] + items[1..] == items;
    }
  }

  lemma PrefixConcat<T>(a: seq<T>, b: seq<T>, c: seq<T>)
    requires b <= c
    ensures a + b <= a + c
  {
    assert (a + c)[..|a + b|] == a + b;
  }

  /** The bookkeeping of the download lemmas' inductive step. */
  lemma DownloadTail(bucket: string, items: seq<Item>, k: nat)
    requires 0 < |items| && k < |items|
    ensures Fetches(bucket, items[..k + 1]) == Fetches(bucket, [items[0]]) + Fetches(bucket, items[1..][..k])
    ensures k + 1 < |items| ==>
      Fetches(bucket, items[..k + 2]) == Fetches(bucket, [items[0]]) + Fetches(bucket, items[1..][..k + 1]) &&
      items[k + 1] == items[1..][k]
    ensures forall i :: 1 <= i < |items| ==> items[i] == items[1..][i - 1]
  {
    FetchesAppend(bucket, [items[0]], items[1..][..k]);
    assert [items[0]] + items[1..][..k] == items[..k + 1];
    if k + 1 < |items| {
      FetchesAppend(bucket, [items[0]], items[1..][..k + 1]);
      assert [items[0]] + items[1..][..k + 1] == items[..k + 2];
    }
  }

  /**
   * Keys uploaded from a directory come back to the same relative place:
   * a file uploaded under `prefix` at relative path `rel`, downloaded with
   * the directory prefix `prefix + "/"` into `dir`, lands at `dir/rel`.
   */
  lemma UploadDownloadRoundTrip(prefix: string, rel: string, dir: string)
    requires Plain(prefix) && Plain(rel) && '\\' !in prefix && '\\' !in rel
    requires Plain(dir)
    ensures LocalTarget(dir, prefix + "/", ObjectKey(prefix, rel)) == dir + "/" + rel
  {
    ObjectKeyPlain(prefix, rel);
    assert TrimPrefix(prefix + "/" + rel, prefix + "/") == rel by {
      assert HasPrefix(prefix + "/" + rel, prefix + "/");
    }
    JoinPlain(dir, rel);
  }

  // ---------------------------------------------------------------------
  // URLs

  /** The result of GenerateURL: the requests issued and the URL or error. */
  datatype Signed = Signed(calls: seq<Call>, url: Result<string, Error>)

  /** GenerateURL: the object must exist; then the URL is signed for the expiry. */
  function GenerateUrlResult(svc: Service, st: Store, bucket: string, key: string, expiry: int): (s: Signed)
    ensures s.url.Ok? ==> ObjectId(bucket, key) in st.objects && s.url.value == svc.sign(bucket, key, expiry)
    ensures s.url.Ok? ==> s.calls == [StatObjectCall(bucket, key), PresignCall(bucket, key, expiry)]
    ensures ObjectId(bucket, key) !in st.objects && svc.refuse(StatObjectCall(bucket, key)).None? ==> s == Signed([StatObjectCall(bucket, key)], Err(Wrapped(ObjectMissing, Sdk(NoSuchKey))))
    ensures s.url.Ok? <==> svc.refuse(StatObjectCall(bucket, key)).None? && ObjectId(bucket, key) in st.objects &&
                           svc.refuse(PresignCall(bucket, key, expiry)).None?
  {
    var stat := Next(svc, st, StatObjectCall(bucket, key));
    if stat.answer.Err? then Signed([StatObjectCall(bucket, key)], Err(Wrapped(ObjectMissing, Sdk(stat.answer.error))))
    else
      var signed := Next(svc, st, PresignCall(bucket, key, expiry));
      var calls := [StatObjectCall(bucket, key), PresignCall(bucket, key, expiry)];
      if signed.answer.Err? then Signed(calls, Err(Wrapped(PresignFailed, Sdk(signed.answer.error))))
      else Signed(calls, Ok(if signed.answer.value.Link? then signed.answer.value.url else ""))
  }
}
