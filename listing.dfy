/**
 * The object listing stream: what the storage service yields for a
 * bucket and prefix, and how the client forwards it to its callers.
 */
module Listing {
  import opened Wrappers
  import opened Errors
  import opened GoStrings
  import opened GoInt

  /** Object keys handed out by a listing are never empty. */
  type Key = k: string | k != "" witness "k"

  /** What a listing says about one object (or, for a key ending in '/', one common prefix). */
  datatype ObjectInfo = ObjectInfo(key: Key, size: int64, lastModified: int)

  /** One element of a listing: an object, or the error that ends the listing. */
  datatype Item = Entry(info: ObjectInfo) | Failed(err: Error)

  /** The options the client sends with a listing request. */
  datatype ListOptions = ListOptions(prefix: string, recursive: bool, maxKeys: int, useV1: bool)

  /** The page size used when the caller does not give a positive one. */
  const DefaultMaxKeys: int := 1000

  /** The variadic `maxKeys ...int`: its first value when positive, otherwise 1000. */
  function MaxKeys(given: seq<int>): (n: int)
    ensures n > 0
    ensures |given| > 0 && given[0] > 0 ==> n == given[0]
    ensures (|given| == 0 || given[0] <= 0) ==> n == DefaultMaxKeys
  {
    if |given| > 0 && given[0] > 0 then given[0] else DefaultMaxKeys
  }

  /** ListObjects' request: the given prefix and recursion, version 1 of the listing API. */
  function Options(prefix: string, recursive: bool, maxKeys: seq<int>): (o: ListOptions)
    ensures o.prefix == prefix && o.recursive == recursive && o.useV1
    ensures o.maxKeys == MaxKeys(maxKeys)
  {
    ListOptions(prefix, recursive, MaxKeys(maxKeys), true)
  }

  /** A folder entry: a key ending in '/'. */
  predicate IsFolder(o: ObjectInfo) {
    HasSuffix(o.key, "/")
  }

  /**
   * What ListObjects hands on: the service's items in their order, stopping
   * after the first error, which is passed on; with `onlyFolders`, entries
   * that are not folders are dropped.
   */
  function Forwarded(raw: seq<Item>, onlyFolders: bool): (out: seq<Item>)
    ensures |out| <= |raw|
    ensures forall i :: 0 <= i < |out| - 1 ==> out[i].Entry?
    ensures onlyFolders ==> forall i :: 0 <= i < |out| && out[i].Entry? ==> IsFolder(out[i].info)
    ensures forall x :: x in out ==> x in raw
  {
    if raw == [] then []
    else if raw[0].Failed? then [raw[0]]
    else if onlyFolders && !IsFolder(raw[0].info) then Forwarded(raw[1..], onlyFolders)
    else [raw[0]] + Forwarded(raw[1..], onlyFolders)
  }

  /** Forwarding from position `i` on: the item there, then the rest. */
  lemma ForwardedStep(raw: seq<Item>, i: nat, onlyFolders: bool)
    requires i < |raw|
    ensures Forwarded(raw[i..], onlyFolders) ==
      if raw[i].Failed? then [raw[i]]
      else if onlyFolders && !IsFolder(raw[i].info) then Forwarded(raw[i + 1..], onlyFolders)
      else [raw[i]] + Forwarded(raw[i + 1..], onlyFolders)
  {
    assert raw[i..][1..] == raw[i + 1..];
  }

  /** The position of the first error, or the length when there is none. */
  function FirstError(raw: seq<Item>): (n: nat)
    ensures n <= |raw|
    ensures n < |raw| ==> raw[n].Failed?
    ensures forall i :: 0 <= i < n ==> raw[i].Entry?
  {
    if raw == [] then 0
    else if raw[0].Failed? then 0
    else 1 + FirstError(raw[1..])
  }

  /** The items up to and including the first error. */
  function UpToError(raw: seq<Item>): seq<Item> {
    if FirstError(raw) < |raw| then raw[..FirstError(raw) + 1] else raw
  }

  /** The item survives the folder filter. */
  predicate Kept(x: Item, onlyFolders: bool) {
    x.Failed? || !onlyFolders || IsFolder(x.info)
  }

  /** The items that survive the folder filter, in their order. */
  function Select(items: seq<Item>, onlyFolders: bool): (out: seq<Item>)
    ensures forall x :: x in out <==> x in items && Kept(x, onlyFolders)
  {
    if items == [] then []
    else if Kept(items[0], onlyFolders) then [items[0]] + Select(items[1..], onlyFolders)
    else Select(items[1..], onlyFolders)
  }

  /** Forwarding is cutting after the first error and then filtering, order kept. */
  lemma {:induction false} ForwardedIsSelectedPrefix(raw: seq<Item>, onlyFolders: bool)
    ensures Forwarded(raw, onlyFolders) == Select(UpToError(raw), onlyFolders)
    decreases |raw|
  {
    if raw != [] {
      if raw[0].Failed? {
        assert UpToError(raw) == [raw[0]];
      } else {
        ForwardedIsSelectedPrefix(raw[1..], onlyFolders);
        if FirstError(raw) < |raw| {
          assert UpToError(raw) == [raw[0]] + UpToError(raw[1..]);
        } else {
          assert UpToError(raw) == [raw[0]] + UpToError(raw[1..]);
        }
        assert UpToError(raw)[0] == raw[0];
        assert UpToError(raw)[1..] == UpToError(raw[1..]);
      }
    }
  }

  /** Without the folder filter, the stream is the service's items up to and including the first error. */
  lemma UnfilteredIsPrefix(raw: seq<Item>)
    ensures Forwarded(raw, false) == UpToError(raw)
  {
    ForwardedIsSelectedPrefix(raw, false);
    SelectAll(UpToError(raw));
  }

  lemma {:induction false} SelectAll(items: seq<Item>)
    ensures Select(items, false) == items
    decreases |items|
  {
    if items != [] {
      SelectAll(items[1..]);
    }
  }

  /** An error of the service always reaches the caller, as the last item. */
  lemma {:induction false} ErrorForwarded(raw: seq<Item>, onlyFolders: bool)
    requires FirstError(raw) < |raw|
    ensures Forwarded(raw, onlyFolders) != []
    ensures Forwarded(raw, onlyFolders)[|Forwarded(raw, onlyFolders)| - 1] == raw[FirstError(raw)]
    decreases |raw|
  {
    if !raw[0].Failed? {
      ErrorForwarded(raw[1..], onlyFolders);
    }
  }

  /**
   * IsBucketEmpty's reading of the stream (the first item is received and
   * discarded): empty exactly when nothing comes;
   * an error only when the second item is one; anything else is "not empty",
   * including an error arriving as the first item.
   */
  function EmptinessOf(items: seq<Item>): (r: Result<bool, Error>)
    ensures r == Ok(true) <==> items == []
    ensures r.Err? <==> |items| >= 2 && items[1].Failed?
    ensures r.Err? ==> r.error == Wrapped(ListForEmptinessFailed, items[1].err)
  {
    if |items| == 0 then Ok(true)
    else if |items| >= 2 && items[1].Failed? then Err(Wrapped(ListForEmptinessFailed, items[1].err))
    else Ok(false)
  }

  /** A listing that fails at once reads as a bucket that is not empty, with no error. */
  lemma FirstErrorSwallowed(e: Error, rest: seq<Item>)
    ensures EmptinessOf(Forwarded([Failed(e)] + rest, false)) == Ok(false)
  {
    assert Forwarded([Failed(e)] + rest, false) == [Failed(e)];
  }

  /** The emptiness test sees an error exactly when the service yields one object and then fails. */
  lemma EmptinessErrorIff(raw: seq<Item>)
    ensures EmptinessOf(Forwarded(raw, false)).Err? <==> |raw| >= 2 && raw[0].Entry? && raw[1].Failed?
  {
    UnfilteredIsPrefix(raw);
    if |raw| >= 2 && raw[0].Entry? && raw[1].Failed? {
      assert FirstError(raw[1..]) == 0;
      assert FirstError(raw) == 1;
    }
  }
}
