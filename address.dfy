/**
 * Object addresses of the form "s3://bucket/key", as every command splits
 * them: strip the scheme, then split once at the first '/'.
 */
module Address {
  import opened Wrappers
  import opened GoStrings

  const Scheme: string := "s3://"

  /** A bucket and the object path inside it ("" when the address names only the bucket). */
  datatype Location = Location(bucket: string, key: string)

  /** The address that names `loc`, with the key after the bucket's '/'. */
  function Format(loc: Location): string {
    Scheme + loc.bucket + "/" + loc.key
  }

  /**
   * TrimPrefix(input, "s3://") followed by SplitN(.., "/", 2): the bucket runs to
   * the first '/', the key is everything after it. None when the scheme is missing.
   */
  function ParseS3(input: string): (r: Option<Location>)
    ensures r.None? <==> !HasPrefix(input, Scheme)
    ensures r.Some? ==> '/' !in r.value.bucket
    ensures r.Some? ==>
      input == Format(r.value) || (input == Scheme + r.value.bucket && r.value.key == "")
  {
    if !HasPrefix(input, Scheme) then None
    else
      var rest := input[|Scheme|..];
      assert input == Scheme + rest;
      var i := IndexByte(rest, '/');
      if i < 0 then Some(Location(rest, ""))
      else
        var loc := Location(rest[..i], rest[i + 1..]);
        assert rest == loc.bucket + "/" + loc.key;
        FormatRegrouped(loc);
        Some(loc)
  }

  lemma FormatRegrouped(loc: Location)
    ensures Format(loc) == Scheme + (loc.bucket + "/" + loc.key)
  {
  }

  /** Parsing the address of a location gives the location back. */
  lemma ParseFormat(loc: Location)
    requires '/' !in loc.bucket
    ensures ParseS3(Format(loc)) == Some(loc)
  {
    var s := Format(loc);
    var rest := s[|Scheme|..];
    assert rest == loc.bucket + "/" + loc.key;
    assert rest[..|loc.bucket|] == loc.bucket;
    IndexByteIs(rest, '/', |loc.bucket|);
    assert rest[|loc.bucket| + 1..] == loc.key;
  }

  /** An address without a '/' after the bucket has the empty key. */
  lemma ParseBucketOnly(bucket: string)
    requires '/' !in bucket
    ensures ParseS3(Scheme + bucket) == Some(Location(bucket, ""))
  {
    assert (Scheme + bucket)[|Scheme|..] == bucket;
  }

  /** (*Client).IsDirectory: a path names a directory exactly when it ends in '/'. */
  function IsDirectory(p: string): (r: bool)
    ensures r <==> HasSuffix(p, "/")
  {
    if p == "" then false else p[|p| - 1] == '/'
  }

  /**
   * The test of `ls`: the address minus its first "s3://" holds no '/', so the
   * argument names a bucket (or a bucket name prefix) and not a location in one.
   */
  predicate NamesBucketsOnly(input: string) {
    '/' !in ReplaceFirst(input, Scheme, "")
  }

  /** For an address with the scheme, that is the case where the split finds no '/'. */
  lemma NamesBucketsOnlyIffNoSlash(input: string)
    requires HasPrefix(input, Scheme)
    ensures NamesBucketsOnly(input) <==> '/' !in input[|Scheme|..]
  {
    ReplaceFirstAtStart(input, Scheme, "");
    assert "" + input[|Scheme|..] == input[|Scheme|..];
  }
}
