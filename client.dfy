/**
 * The client object: a connection to one storage service, whose methods
 * issue requests in the order the client does and are proved to follow the
 * reference definitions of module Operations.
 */
module S3Client {
  import opened Wrappers
  import opened Errors
  import opened Listing
  import opened Storage
  import opened LocalFs
  import opened Operations
  import FilePath

  lemma Regroup<T>(a: seq<T>, b: seq<T>, c: seq<T>)
    ensures (a + b) + c == a + (b + c)
  {
  }

  class Client {
    /** The service the client talks to. */
    const svc: Service
    /** The service's state, as changed by the client's requests. */
    var store: Store
    /** The requests issued so far on buckets and objects, in order (listings are not recorded). */
    ghost var log: seq<Call>

    constructor (svc: Service, store: Store)
      ensures this.svc == svc && this.store == store && log == []
    {
      this.svc := svc;
      this.store := store;
      log := [];
    }

    /** One request to the service. */
    method Issue(call: Call) returns (answer: Result<Answer, string>)
      modifies this
      ensures var r := Next(svc, old(store), call);
        store == r.store && answer == r.answer && log == old(log) + [call]
    {
      var r := Next(svc, store, call);
      store := r.store;
      answer := r.answer;
      log := log + [call];
    }

    /**
     * ListObjects: the service's listing for the prefix, passed on item by
     * item; the first error is passed on and ends the stream, and with
     * `onlyFolders` only folder entries are passed on.
     */
    method ListObjects(bucket: string, prefix: string, recursive: bool, onlyFolders: bool, maxKeys: seq<int>)
      returns (items: seq<Item>)
      ensures items == Listed(svc, bucket, prefix, recursive, onlyFolders, maxKeys)
    {
      var raw := svc.listing(bucket, Options(prefix, recursive, maxKeys));
      items := [];
      var i := 0;
      while i < |raw|
        invariant 0 <= i <= |raw|
        invariant items + Forwarded(raw[i..], onlyFolders) == Forwarded(raw, onlyFolders)
      {
        var item := raw[i];
        ForwardedStep(raw, i, onlyFolders);
        if item.Failed? {
          items := items + [item];
          return;
        }
        if !onlyFolders || IsFolder(item.info) {
          Regroup(items, [item], Forwarded(raw[i + 1..], onlyFolders));
          items := items + [item];
        }
        i := i + 1;
      }
    }

    /** ListBuckets. */
    method ListBuckets() returns (r: Result<seq<string>, Error>)
      ensures r == BucketNames(svc)
    {
      var refusal := svc.refuse(ListBucketsCall);
      if refusal.Some? {
        return Err(Wrapped(ListBucketsFailed, Sdk(refusal.value)));
      }
      return Ok(svc.bucketNames);
    }

    /** IsBucketEmpty: list with a page of one and look at the first two items. */
    method IsBucketEmpty(bucket: string) returns (r: Result<bool, Error>)
      ensures r == EmptinessOf(Listed(svc, bucket, "", false, false, [1]))
    {
      var objects := ListObjects(bucket, "", false, false, [1]);
      if |objects| == 0 {
        return Ok(true);
      }
      if |objects| >= 2 && objects[1].Failed? {
        return Err(Wrapped(ListForEmptinessFailed, objects[1].err));
      }
      return Ok(false);
    }

    method MakeBucket(bucket: string) returns (outcome: Outcome<Error>)
      modifies this
      ensures var e := MakeBucketEffect(svc, old(store), bucket);
        store == e.store && log == old(log) + e.calls && outcome == e.outcome
    {
      var made := Issue(MakeBucketCall(bucket));
      if made.Err? {
        var known := Issue(BucketExistsCall(bucket));
        if known == Ok(Exists(true)) {
          return Pass;
        }
        return Fail(Wrapped(MakeBucketFailed, Sdk(made.error)));
      }
      return Pass;
    }

    method RemoveBucket(bucket: string) returns (outcome: Outcome<Error>)
      modifies this
      ensures var e := RemoveBucketEffect(svc, old(store), bucket);
        store == e.store && log == old(log) + e.calls && outcome == e.outcome
    {
      var isEmpty := IsBucketEmpty(bucket);
      if isEmpty.Err? {
        return Fail(Wrapped(CheckBucketFailed, isEmpty.error));
      }
      if !isEmpty.value {
        return Pass;
      }
      var removed := Issue(RemoveBucketCall(bucket));
      if removed.Err? {
        return Fail(Wrapped(RemoveBucketFailed, Sdk(removed.error)));
      }
      return Pass;
    }

    method DeleteObject(bucket: string, key: string) returns (outcome: Outcome<Error>)
      modifies this
      ensures var e := DeleteObjectEffect(svc, old(store), bucket, key);
        store == e.store && log == old(log) + e.calls && outcome == e.outcome
    {
      if key == "" {
        return Fail(Invalid(EmptyObjectPath));
      }
      if bucket == "" {
        return Fail(Invalid(EmptyBucket));
      }
      var removed := Issue(RemoveObjectCall(bucket, key));
      if removed.Err? {
        return Fail(Wrapped(RemoveObjectFailed, Sdk(removed.error)));
      }
      return Pass;
    }

    /** DeleteDirectory: remove every key of a recursive listing, stopping at the first error. */
    method DeleteDirectory(bucket: string, prefix: string) returns (outcome: Outcome<Error>)
      modifies this
      ensures var e := DeleteDirectoryEffect(svc, old(store), bucket, prefix);
        store == e.store && log == old(log) + e.calls && outcome == e.outcome
    {
      var objects := ListObjects(bucket, prefix, true, false, []);
      ghost var total := DeleteAllEffect(svc, store, bucket, objects);
      var i := 0;
      while i < |objects|
        invariant 0 <= i <= |objects|
        invariant var rest := DeleteAllEffect(svc, store, bucket, objects[i..]);
          rest.store == total.store && rest.outcome == total.outcome && log + rest.calls == old(log) + total.calls
      {
        assert objects[i..][1..] == objects[i + 1..];
        if objects[i].Failed? {
          return Fail(objects[i].err);
        }
        ghost var before := log;
        ghost var first := DeleteObjectEffect(svc, store, bucket, objects[i].info.key);
        var removed := DeleteObject(bucket, objects[i].info.key);
        if removed.Fail? {
          return removed;
        }
        ghost var next := DeleteAllEffect(svc, store, bucket, objects[i + 1..]);
        Regroup(before, first.calls, next.calls);
        i := i + 1;
      }
      return Pass;
    }

    /** UploadFile: the file's bytes under the given key (its base name by default). */
    method UploadFile(disk: Disk, bucket: string, path: string, objectName: string, isPublic: bool)
      returns (outcome: Outcome<Error>)
      modifies this
      ensures var e := UploadFileEffect(svc, disk.host, old(store), disk.files, bucket, path, objectName, isPublic);
        store == e.store && log == old(log) + e.calls && outcome == e.outcome
    {
      var file := disk.Stat(path);
      if file.None? {
        return Fail(Wrapped(OpenFileFailed, Fs(path)));
      }
      if file.value.Directory? {
        return Fail(Wrapped(PutObjectFailed, Fs(path)));
      }
      var name := objectName;
      if name == "" {
        name := FilePath.Base(path);
      }
      var opts := Stored(file.value.data, ContentType(disk.host, path), Metadata(isPublic));
      var put := Issue(PutObjectCall(bucket, name, opts));
      if put.Err? {
        return Fail(Wrapped(PutObjectFailed, Sdk(put.error)));
      }
      return Pass;
    }

    /** UploadDirectory: walk the directory and upload each file under its key, stopping at the first error. */
    method UploadDirectory(disk: Disk, bucket: string, root: string, prefix: string, isPublic: bool)
      returns (outcome: Outcome<Error>)
      modifies this
      ensures var e := UploadDirectoryEffect(svc, disk.host, old(store), disk.files, bucket, root, prefix, isPublic);
        store == e.store && log == old(log) + e.calls && outcome == e.outcome
    {
      var info := disk.Stat(root);
      if info.None? {
        return Fail(Wrapped(StatDirFailed, Fs(root)));
      }
      if info.value.File? {
        return Fail(Invalid(NotADirectory(root)));
      }
      outcome := Walk(disk, bucket, prefix, isPublic, disk.host.walk(root));
    }

    /** filepath.Walk with UploadDirectory's callback: each entry in walk order until the callback fails. */
    method Walk(disk: Disk, bucket: string, prefix: string, isPublic: bool, entries: seq<WalkEntry>)
      returns (outcome: Outcome<Error>)
      modifies this
      ensures var e := UploadAllEffect(svc, disk.host, old(store), disk.files, bucket, prefix, isPublic, entries);
        store == e.store && log == old(log) + e.calls && outcome == e.outcome
    {
      ghost var total := UploadAllEffect(svc, disk.host, store, disk.files, bucket, prefix, isPublic, entries);
      var i := 0;
      while i < |entries|
        invariant 0 <= i <= |entries|
        invariant var rest := UploadAllEffect(svc, disk.host, store, disk.files, bucket, prefix, isPublic, entries[i..]);
          rest.store == total.store && rest.outcome == total.outcome && log + rest.calls == old(log) + total.calls
      {
        assert entries[i..][1..] == entries[i + 1..];
        ghost var before := log;
        ghost var first := UploadEntryEffect(svc, disk.host, store, disk.files, bucket, prefix, isPublic, entries[i]);
        var visited := VisitEntry(disk, bucket, prefix, isPublic, entries[i]);
        if visited.Fail? {
          return visited;
        }
        ghost var next := UploadAllEffect(svc, disk.host, store, disk.files, bucket, prefix, isPublic, entries[i + 1..]);
        Regroup(before, first.calls, next.calls);
        i := i + 1;
      }
      return Pass;
    }

    /** The walk callback of UploadDirectory for one entry. */
    method VisitEntry(disk: Disk, bucket: string, prefix: string, isPublic: bool, entry: WalkEntry)
      returns (outcome: Outcome<Error>)
      modifies this
      ensures var e := UploadEntryEffect(svc, disk.host, old(store), disk.files, bucket, prefix, isPublic, entry);
        store == e.store && log == old(log) + e.calls && outcome == e.outcome
    {
      match entry
      case Unreadable(path) =>
        return Fail(Fs(path));
      case Visit(path, rel, isDir) =>
        if isDir {
          return Pass;
        }
        if rel.None? {
          return Fail(Wrapped(RelPathFailed, Fs(path)));
        }
        outcome := UploadFile(disk, bucket, path, ObjectKey(prefix, rel.value), isPublic);
    }

    /** DownloadFile: parent directory, empty local file, object lookup, object content. */
    method DownloadFile(disk: Disk, bucket: string, key: string, path: string) returns (outcome: Outcome<Error>)
      modifies this, disk
      ensures var f := DownloadFileFetch(svc, disk.host, old(store), old(disk.files), bucket, key, path);
        disk.files == f.files && log == old(log) + f.calls && outcome == f.outcome && store == old(store)
    {
      ghost var dirs := MakeDirs(disk.host, disk.files, FilePath.Dir(path));
      var made := disk.MkdirAll(FilePath.Dir(path));
      if made.Fail? {
        return Fail(Wrapped(CreateDirFailed, made.error));
      }
      ghost var file := CreateFile(disk.host, dirs.value, path);
      var created := disk.Create(path);
      if created.Fail? {
        return Fail(Wrapped(CreateFileFailed, created.error));
      }
      assert disk.files == file.value;
      outcome := ReadObject(disk, bucket, key, path);
    }

    /** The rest of DownloadFile: object lookup, object content, written to the created file. */
    method ReadObject(disk: Disk, bucket: string, key: string, path: string) returns (outcome: Outcome<Error>)
      modifies this, disk
      ensures var f := ReadInto(svc, old(store), old(disk.files), bucket, key, path);
        disk.files == f.files && log == old(log) + f.calls && outcome == f.outcome && store == old(store)
    {
      var info := Issue(StatObjectCall(bucket, key));
      if info.Err? {
        return Fail(Wrapped(StatObjectFailed, Sdk(info.error)));
      }
      var content := Issue(GetObjectCall(bucket, key));
      if content.Err? {
        return Fail(Wrapped(GetObjectFailed, Sdk(content.error)));
      }
      disk.WriteAll(path, Bytes(content.value));
      return Pass;
    }

    /** DownloadDirectory's loop body for one listed item. */
    method DownloadItem(disk: Disk, bucket: string, prefix: string, dir: string, item: Item)
      returns (outcome: Outcome<Error>)
      modifies this, disk
      ensures var f := DownloadItemFetch(svc, disk.host, old(store), old(disk.files), bucket, prefix, dir, item);
        disk.files == f.files && log == old(log) + f.calls && outcome == f.outcome && store == old(store)
    {
      if item.Failed? {
        return Fail(Wrapped(ListFailed, item.err));
      }
      if IsFolder(item.info) {
        return Pass;
      }
      var localPath := LocalTarget(dir, prefix, item.info.key);
      var fetched := DownloadFile(disk, bucket, item.info.key, localPath);
      if fetched.Fail? {
        return Fail(Wrapped(DownloadKeyFailed(item.info.key), fetched.error));
      }
      return Pass;
    }

    /** DownloadDirectory: download each non-folder key of a recursive listing, stopping at the first error. */
    method DownloadDirectory(disk: Disk, bucket: string, prefix: string, dir: string) returns (outcome: Outcome<Error>)
      modifies this, disk
      ensures var f := DownloadDirectoryFetch(svc, disk.host, old(store), old(disk.files), bucket, prefix, dir);
        disk.files == f.files && log == old(log) + f.calls && outcome == f.outcome && store == old(store)
    {
      var objects := ListObjects(bucket, prefix, true, false, []);
      ghost var total := DownloadAllFetch(svc, disk.host, store, disk.files, bucket, prefix, dir, objects);
      var i := 0;
      while i < |objects|
        invariant 0 <= i <= |objects|
        invariant store == old(store)
        invariant var rest := DownloadAllFetch(svc, disk.host, store, disk.files, bucket, prefix, dir, objects[i..]);
          rest.files == total.files && rest.outcome == total.outcome && log + rest.calls == old(log) + total.calls
      {
        assert objects[i..][1..] == objects[i + 1..];
        ghost var before := log;
        ghost var first := DownloadItemFetch(svc, disk.host, store, disk.files, bucket, prefix, dir, objects[i]);
        var fetched := DownloadItem(disk, bucket, prefix, dir, objects[i]);
        if fetched.Fail? {
          return fetched;
        }
        ghost var next := DownloadAllFetch(svc, disk.host, store, disk.files, bucket, prefix, dir, objects[i + 1..]);
        Regroup(before, first.calls, next.calls);
        i := i + 1;
      }
      return Pass;
    }

    /** GenerateURL: check that the object exists, then sign a GET for `expiry` nanoseconds. */
    method GenerateURL(bucket: string, key: string, expiry: int) returns (url: Result<string, Error>)
      modifies this
      ensures var s := GenerateUrlResult(svc, old(store), bucket, key, expiry);
        url == s.url && log == old(log) + s.calls && store == old(store)
    {
      var info := Issue(StatObjectCall(bucket, key));
      if info.Err? {
        return Err(Wrapped(ObjectMissing, Sdk(info.error)));
      }
      var signed := Issue(PresignCall(bucket, key, expiry));
      if signed.Err? {
        return Err(Wrapped(PresignFailed, Sdk(signed.error)));
      }
      return Ok(if signed.value.Link? then signed.value.url else "");
    }
  }
}
