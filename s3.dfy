/**
 The S3 bucket the preview store talks to, as a value: whether the bucket has
 been created, and a map from object key to stored object. Each request either
 fails with an S3 error code or succeeds; `fault` is an error the service may
 answer with for reasons outside this model (permissions, outages, throttling).
 */
module S3 {
  import opened Results
  import opened Codec
  import opened Domain

  /** The `Code` of an S3 error response, e.g. "NoSuchBucket". */
  type ErrorCode = string

  /** A stored object. `etag` is the entity-tag S3 reports for it. */
  datatype Object = Object(body: seq<byte>, etag: string, lastModified: Timestamp)

  datatype Bucket = Bucket(created: bool, objects: map<string, Object>)

  /** The entity-tag S3 gives an object uploaded in one piece: the lowercase
      hexadecimal MD5 digest of its body, between double quotes (a quoted
      entity-tag, section 2.3 of RFC 7232). */
  function ETag(md5: seq<byte> -> Digest, body: seq<byte>): (e: string)
    ensures |e| == 34 && e[0] == '"' && e[33] == '"'
    ensures forall i :: 1 <= i < 33 ==> IsLowerHexDigit(e[i])
  {
    "\"" + Hex(md5(body)) + "\""
  }

  /** Every stored object carries the entity-tag of its body. */
  ghost predicate WellFormed(md5: seq<byte> -> Digest, b: Bucket) {
    forall k | k in b.objects :: b.objects[k].etag == ETag(md5, b.objects[k].body)
  }

  /** HEAD of an object. A HEAD response has no body, so its error code is the
      bare HTTP status "404" for a missing key and for a missing bucket. */
  function HeadObject(b: Bucket, key: string, fault: Option<ErrorCode>): Result<Object, ErrorCode> {
    if fault.Some? then Err(fault.value)
    else if !b.created || key !in b.objects then Err("404")
    else Ok(b.objects[key])
  }

  /** GET of an object. */
  function GetObject(b: Bucket, key: string, fault: Option<ErrorCode>): Result<Object, ErrorCode> {
    if fault.Some? then Err(fault.value)
    else if !b.created then Err("NoSuchBucket")
    else if key !in b.objects then Err("NoSuchKey")
    else Ok(b.objects[key])
  }

  /** PUT of an object: replaces whatever the key held. */
  function PutObject(md5: seq<byte> -> Digest, b: Bucket, key: string, body: seq<byte>,
                     now: Timestamp, fault: Option<ErrorCode>): Result<Bucket, ErrorCode>
  {
    if fault.Some? then Err(fault.value)
    else if !b.created then Err("NoSuchBucket")
    else Ok(b.(objects := b.objects[key := Object(body, ETag(md5, body), now)]))
  }

  /** DELETE of an object; deleting an absent key succeeds. */
  function DeleteObject(b: Bucket, key: string, fault: Option<ErrorCode>): Result<Bucket, ErrorCode> {
    if fault.Some? then Err(fault.value)
    else if !b.created then Err("NoSuchBucket")
    else Ok(b.(objects := b.objects - {key}))
  }

  /** Creation of the bucket. */
  function CreateBucket(b: Bucket, fault: Option<ErrorCode>): Result<Bucket, ErrorCode> {
    if fault.Some? then Err(fault.value) else Ok(b.(created := true))
  }

  lemma PutKeepsWellFormed(md5: seq<byte> -> Digest, b: Bucket, key: string, body: seq<byte>,
                           now: Timestamp, fault: Option<ErrorCode>)
    requires WellFormed(md5, b) && PutObject(md5, b, key, body, now, fault).Ok?
    ensures WellFormed(md5, PutObject(md5, b, key, body, now, fault).value)
  {
  }
}
