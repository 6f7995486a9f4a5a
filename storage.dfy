/**
 * The storage service as the client sees it through the SDK: buckets and
 * objects, the requests the client sends, and what each request does.
 */
module Storage {
  import opened Wrappers
  import opened Listing

  newtype byte = x: int | 0 <= x < 256

  /** An object's address: its bucket and its key. */
  datatype ObjectId = ObjectId(bucket: string, key: string)

  /** A stored object: its bytes, its content type and its user metadata. */
  datatype Stored = Stored(data: seq<byte>, contentType: string, metadata: map<string, string>)

  /** The service's state: which buckets exist and what is stored in them. */
  datatype Store = Store(buckets: set<string>, objects: map<ObjectId, Stored>)

  /** The requests the client issues. */
  datatype Call =
    | MakeBucketCall(bucket: string)
    | BucketExistsCall(bucket: string)
    | RemoveBucketCall(bucket: string)
    | ListBucketsCall
    | PutObjectCall(bucket: string, key: string, obj: Stored)
    | StatObjectCall(bucket: string, key: string)
    | GetObjectCall(bucket: string, key: string)
    | RemoveObjectCall(bucket: string, key: string)
    | PresignCall(bucket: string, key: string, expiry: int)

  /** What a successful request returns. */
  datatype Answer = Done | Exists(flag: bool) | Size(bytes: int) | Content(data: seq<byte>) | Link(url: string)

  /**
   * What the model leaves to the service: which requests it refuses (with
   * an error code: credentials, network, quota and the like), the items it
   * lists for a bucket and options, the bucket names it reports, and how it
   * signs URLs.
   */
  datatype Service = Service(
    refuse: Call -> Option<string>,
    listing: (string, ListOptions) -> seq<Item>,
    bucketNames: seq<string>,
    sign: (string, string, int) -> string)

  const NoSuchBucket: string := "NoSuchBucket"
  const NoSuchKey: string := "NoSuchKey"
  const BucketAlreadyOwnedByYou: string := "BucketAlreadyOwnedByYou"
  const BucketNotEmpty: string := "BucketNotEmpty"

  /** The state after a request and its answer or error code. */
  datatype Reply = Reply(store: Store, answer: Result<Answer, string>)

  predicate HoldsObjects(st: Store, bucket: string) {
    exists id :: id in st.objects && id.bucket == bucket
  }

  /** One request against the service. */
  function Next(svc: Service, st: Store, call: Call): Reply {
    if svc.refuse(call).Some? then Reply(st, Err(svc.refuse(call).value))
    else
      match call
      case MakeBucketCall(b) =>
        if b in st.buckets then Reply(st, Err(BucketAlreadyOwnedByYou))
        else Reply(st.(buckets := st.buckets + {b}), Ok(Done))
      case BucketExistsCall(b) => Reply(st, Ok(Exists(b in st.buckets)))
      case RemoveBucketCall(b) =>
        if b !in st.buckets then Reply(st, Err(NoSuchBucket))
        else if HoldsObjects(st, b) then Reply(st, Err(BucketNotEmpty))
        else Reply(st.(buckets := st.buckets - {b}), Ok(Done))
      case ListBucketsCall => Reply(st, Ok(Done))
      case PutObjectCall(b, k, o) =>
        if b !in st.buckets then Reply(st, Err(NoSuchBucket))
        else Reply(st.(objects := st.objects[ObjectId(b, k) := o]), Ok(Done))
      case StatObjectCall(b, k) =>
        if ObjectId(b, k) in st.objects then Reply(st, Ok(Size(|st.objects[ObjectId(b, k)].data|)))
        else Reply(st, Err(NoSuchKey))
      case GetObjectCall(b, k) =>
        if ObjectId(b, k) in st.objects then Reply(st, Ok(Content(st.objects[ObjectId(b, k)].data)))
        else Reply(st, Err(NoSuchKey))
      case RemoveObjectCall(b, k) =>
        if b !in st.buckets then Reply(st, Err(NoSuchBucket))
        else Reply(st.(objects := st.objects - {ObjectId(b, k)}), Ok(Done))
      case PresignCall(b, k, expiry) => Reply(st, Ok(Link(svc.sign(b, k, expiry))))
  }

  /** The object a request writes or removes, if any. */
  function Target(call: Call): Option<ObjectId> {
    match call
    case PutObjectCall(b, k, _) => Some(ObjectId(b, k))
    case RemoveObjectCall(b, k) => Some(ObjectId(b, k))
    case _ => None
  }

  /**
   * Requests are local: every object other than the request's target keeps
   * its content, and a refused request changes nothing.
   */
  lemma NextLocal(svc: Service, st: Store, call: Call, id: ObjectId)
    requires Target(call) != Some(id)
    ensures var after := Next(svc, st, call).store;
      (id in after.objects <==> id in st.objects) &&
      (id in st.objects ==> after.objects[id] == st.objects[id])
  {
  }

  /** A refused request leaves the service as it was. */
  lemma RefusedChangesNothing(svc: Service, st: Store, call: Call)
    ensures Next(svc, st, call).answer.Err? ==> Next(svc, st, call).store == st
  {
  }

  /**
   * Bucket requests the service does not refuse: creation succeeds exactly
   * for a new name, removal exactly for an existing empty bucket, and
   * neither touches any object.
   */
  lemma BucketRequests(svc: Service, st: Store, b: string)
    ensures svc.refuse(MakeBucketCall(b)).None? ==>
      var r := Next(svc, st, MakeBucketCall(b));
      (r.answer.Ok? <==> b !in st.buckets) &&
      (r.answer.Err? ==> r.answer.error == BucketAlreadyOwnedByYou && r.store == st) &&
      r.store.objects == st.objects && r.store.buckets == st.buckets + {b}
    ensures svc.refuse(RemoveBucketCall(b)).None? ==>
      var r := Next(svc, st, RemoveBucketCall(b));
      (r.answer.Ok? <==> b in st.buckets && !HoldsObjects(st, b)) &&
      (r.answer.Err? ==>
        r.store == st && r.answer.error == (if b !in st.buckets then NoSuchBucket else BucketNotEmpty)) &&
      (r.answer.Ok? ==> r.store == st.(buckets := st.buckets - {b}))
  {
  }

  /** What a successful write leaves behind: the object is there, or gone after a removal. */
  lemma WriteLands(svc: Service, st: Store, call: Call)
    requires Next(svc, st, call).answer.Ok?
    ensures call.PutObjectCall? ==> Next(svc, st, call).store.objects[ObjectId(call.bucket, call.key)] == call.obj
    ensures call.RemoveObjectCall? ==> ObjectId(call.bucket, call.key) !in Next(svc, st, call).store.objects
  {
  }

  /** A successful fetch returns the stored object's bytes and changes nothing. */
  lemma GetReturns(svc: Service, st: Store, bucket: string, key: string)
    requires Next(svc, st, GetObjectCall(bucket, key)).answer.Ok?
    ensures ObjectId(bucket, key) in st.objects
    ensures Next(svc, st, GetObjectCall(bucket, key)) == Reply(st, Ok(Content(st.objects[ObjectId(bucket, key)].data)))
  {
  }
}
