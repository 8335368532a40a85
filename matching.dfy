/**
 * The pure lookups of `apply`: which bucket a module's resource matches
 * first, and whether that bucket's `except`/`only` lists rule a chunk out.
 */
module Matching {
  import opened Wrappers
  import opened BucketConfig

  /** Bucket `i` is the first one, in list order, whose test accepts `resource`. */
  ghost predicate IsFirstMatch(buckets: seq<Bucket>, resource: string, i: nat) {
    && i < |buckets|
    && buckets[i].test(resource)
    && forall j | 0 <= j < i :: !buckets[j].test(resource)
  }

  /** `buckets.find`: the index of the first bucket whose test accepts the resource. */
  function FindMatchingBucket(buckets: seq<Bucket>, resource: string): (r: Option<nat>)
    ensures r.Some? ==> IsFirstMatch(buckets, resource, r.value)
    ensures r.None? ==> forall j | 0 <= j < |buckets| :: !buckets[j].test(resource)
  {
    if |buckets| == 0 then None
    else if buckets[0].test(resource) then Some(0)
    else
      match FindMatchingBucket(buckets[1..], resource)
      case None => None
      case Some(i) => Some(i + 1)
  }

  /** `Array.prototype.indexOf`: the first position of `x` in `s`, or -1 when it is absent. */
  function IndexOf(s: seq<string>, x: string): (r: int)
    ensures r == -1 <==> x !in s
    ensures r != -1 ==> 0 <= r < |s| && s[r] == x && forall j | 0 <= j < r :: s[j] != x
  {
    if s == [] then -1
    else if s[0] == x then 0
    else
      var rest := IndexOf(s[1..], x);
      if rest == -1 then -1 else rest + 1
  }

  /** The chunk is on the bucket's deny list: its name is found in `except`. */
  predicate IsChunkIgnored(chunkName: string, bucket: Bucket): (r: bool)
    ensures r <==> chunkName in bucket.except
  {
    IndexOf(bucket.except, chunkName) != -1
  }

  /** The bucket has an allow list and the chunk's name is not found in it. */
  predicate IsChunkExcluded(chunkName: string, bucket: Bucket): (r: bool)
    ensures r <==> bucket.only.Some? && chunkName !in bucket.only.value
  {
    bucket.only.Some? && IndexOf(bucket.only.value, chunkName) == -1
  }

  /**
   * The bucket a module of the named chunk is routed to: the first matching
   * bucket, unless its lists rule the chunk out, in which case the module
   * stays and no later bucket is tried.
   */
  function Route(buckets: seq<Bucket>, chunkName: string, resource: string): (r: Option<nat>)
    ensures r.Some? ==>
      && IsFirstMatch(buckets, resource, r.value)
      && chunkName !in buckets[r.value].except
      && (buckets[r.value].only.Some? ==> chunkName in buckets[r.value].only.value)
    ensures r.None? ==>
      forall i | 0 <= i < |buckets| && IsFirstMatch(buckets, resource, i) ::
        chunkName in buckets[i].except || (buckets[i].only.Some? && chunkName !in buckets[i].only.value)
  {
    match FindMatchingBucket(buckets, resource)
    case None => None
    case Some(i) =>
      if IsChunkIgnored(chunkName, buckets[i]) || IsChunkExcluded(chunkName, buckets[i]) then None
      else Some(i)
  }
}
