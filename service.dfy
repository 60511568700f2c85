/**
 `PreviewStore` as an object whose state is the bucket it writes to. Its
 `Deposit` streams the content through a `StreamMonitor` in chunks, as the
 upload does, and is proved to do exactly what `Store.DepositOutcome` says;
 `IsAvailable` and `Initialize` probe the bucket and create it when it is
 missing.
 */
module Service {
  import opened Results
  import opened Codec
  import opened Domain
  import opened S3
  import opened Store
  import opened Monitor

  /** The chunk size `deposit` configures for the upload. */
  const IoChunkSize: int := 4096

  /** The key and body of the probe object written by the availability check. */
  const ProbeKey: string := "stat"
  const ProbeBody: seq<byte> := [0x74, 0x65, 0x73, 0x74]

  /** The S3 error code a probe PUT fails with, if any. */
  function ProbeError(b: Bucket, fault: Option<ErrorCode>): (code: Option<ErrorCode>)
    ensures code.None? <==> fault.None? && b.created
    ensures fault.None? && !b.created ==> code == Some("NoSuchBucket")
  {
    if fault.Some? then fault else if !b.created then Some("NoSuchBucket") else None
  }

  class PreviewStore {
    /** The MD5 function S3 computes entity-tags with. */
    const md5: seq<byte> -> Digest

    /** The configured bucket, as S3 holds it. */
    var bucket: Bucket

    /** Every object carries the entity-tag S3 computes for its body. */
    ghost predicate Valid()
      reads this
    {
      WellFormed(md5, bucket)
    }

    constructor (md5: seq<byte> -> Digest, bucket: Bucket)
      requires WellFormed(md5, bucket)
      ensures Valid() && this.md5 == md5 && this.bucket == bucket
    {
      this.md5 := md5;
      this.bucket := bucket;
    }

    /** `upload_fileobj`: reads the monitored stream to its end with reads of
        `chunkSize` bytes, then PUTs what it read under `key`. Returns the S3
        error code when the PUT fails, in which case the bucket is unchanged.
        The contract does not mention `chunkSize`: any read size other than 0
        hashes and uploads the same bytes. */
    method UploadFileobj(monitor: StreamMonitor, key: string, chunkSize: int, fault: Option<ErrorCode>,
                         lastModified: Timestamp)
      returns (failure: Option<ErrorCode>)
      requires Valid() && monitor.Valid() && chunkSize != 0
      modifies this, monitor
      ensures Valid() && monitor.Valid()
      ensures monitor.stream == old(monitor.stream) && monitor.position == |monitor.stream|
      ensures monitor.hashed == old(monitor.hashed + monitor.stream[monitor.position..])
      ensures var put := PutObject(md5, old(bucket), key, old(monitor.stream[monitor.position..]), lastModified, fault);
              && (put.Ok? ==> failure.None? && bucket == put.value)
              && (put.Err? ==> failure == Some(put.error) && bucket == old(bucket))
    {
      ghost var start := monitor.position;
      var body: seq<byte> := [];
      while true
        invariant monitor.Valid() && monitor.stream == old(monitor.stream)
        invariant start <= monitor.position
        invariant body == monitor.stream[start..monitor.position]
        invariant monitor.hashed == old(monitor.hashed) + body
        invariant bucket == old(bucket)
        decreases |monitor.stream| - monitor.position
      {
        var chunk := monitor.Read(Some(chunkSize));
        if |chunk| == 0 {
          break;
        }
        body := body + chunk;
      }
      var put := PutObject(md5, bucket, key, body, lastModified, fault);
      if put.Ok? {
        PutKeepsWellFormed(md5, bucket, key, body, lastModified, fault);
        bucket := put.value;
        failure := None;
      } else {
        failure := Some(put.error);
      }
    }

    /** `deposit`: refuses a preview without content, and unless `overwrite` one
        that is already stored; uploads the content through a stream monitor;
        when an expected `checksum` is given and the monitor's differs, deletes
        the uploaded object and fails. Otherwise returns the preview with the
        monitor's checksum and size and the time `now`. */
    method Deposit(p: Preview, overwrite: bool, checksum: Option<string>, backend: Backend, now: Timestamp)
      returns (r: Result<Preview, StoreError>)
      requires Valid()
      modifies this
      ensures Valid()
      ensures (r, bucket) == DepositOutcome(md5, old(bucket), p, overwrite, checksum, backend, now)
    {
      if p.content.None? {
        return Err(DepositFailed);
      }
      if !overwrite {
        var existing := GetMetadata(bucket, p.sourceId, p.checksum, backend.headFault);
        if existing.Ok? {
          return Err(PreviewAlreadyExists);
        }
        if existing.error != DoesNotExist {
          return Err(existing.error);
        }
      }
      var key := Key(p.sourceId, p.checksum);
      var monitor := new StreamMonitor(md5, p.content.value);
      var failure := UploadFileobj(monitor, key, IoChunkSize, backend.uploadFault, backend.lastModified);
      assert monitor.hashed == p.content.value && monitor.sizeBytes == |p.content.value|;
      var computed := monitor.Checksum();
      assert computed == Base64Url(md5(p.content.value));
      if failure.Some? {
        return Err(UploadError(failure.value));
      }
      if checksum.Some? && computed != checksum.value {
        var deleted := DeleteObject(bucket, key, backend.deleteFault);
        if deleted.Err? {
          return Err(ClientError(deleted.error));
        }
        bucket := deleted.value;
        return Err(DepositFailed);
      }
      r := Ok(Preview(p.sourceId, p.checksum, p.content, Some(Metadata(computed, now, monitor.sizeBytes))));
    }

    /** `is_available`: PUTs the probe object. True when that succeeds, false
        when the S3 error is one `_handle_client_error` turns into a
        `RuntimeError`; its other exceptions are raised. */
    method IsAvailable(fault: Option<ErrorCode>, lastModified: Timestamp) returns (r: Result<bool, StoreError>)
      requires Valid()
      modifies this
      ensures Valid()
      ensures var code := ProbeError(old(bucket), fault);
              && (r == Ok(true) <==> code.None?)
              && (r == Ok(false) <==> code.Some? && HandleClientError(code.value) == RuntimeError)
              && (r.Err? <==> code.Some? && HandleClientError(code.value) != RuntimeError)
              && (r.Err? ==> r.error == HandleClientError(code.value))
      ensures r == Ok(true) ==> bucket == old(bucket).(objects := old(bucket).objects[ProbeKey := Object(ProbeBody, ETag(md5, ProbeBody), lastModified)])
      ensures r != Ok(true) ==> bucket == old(bucket)
    {
      var put := PutObject(md5, bucket, ProbeKey, ProbeBody, lastModified, fault);
      if put.Ok? {
        bucket := put.value;
        return Ok(true);
      }
      var e := HandleClientError(put.error);
      if e == RuntimeError {
        return Ok(false);
      }
      return Err(e);
    }

    /** `initialize`: done when the bucket is available; when the probe reports
        that the bucket does not exist, creates it (an S3 error from the creation
        escapes as it is); when the bucket is unavailable, a `RuntimeError`; any
        other exception of the probe is raised. Only the probe object and the
        bucket's existence may change. */
    method Initialize(probeFault: Option<ErrorCode>, createFault: Option<ErrorCode>, lastModified: Timestamp)
      returns (r: Result<(), StoreError>)
      requires Valid()
      modifies this
      ensures Valid()
      ensures r.Ok? ==> bucket.created
      ensures var code := ProbeError(old(bucket), probeFault);
              && (r.Ok? <==> code.None? || (code == Some("NoSuchBucket") && createFault.None?))
              && (r == Err(RuntimeError) <==> code.Some? && HandleClientError(code.value) == RuntimeError)
              && (r == Err(DoesNotExist) <==> code.Some? && HandleClientError(code.value) == DoesNotExist)
              && (code == Some("NoSuchBucket") && createFault.Some? ==> r == Err(ClientError(createFault.value)))
      ensures forall k | k != ProbeKey :: (k in bucket.objects <==> k in old(bucket).objects)
      ensures forall k | k != ProbeKey && k in bucket.objects :: bucket.objects[k] == old(bucket).objects[k]
      ensures r.Err? ==> bucket == old(bucket)
      ensures ProbeError(old(bucket), probeFault).None? ==>
                bucket == old(bucket).(objects := old(bucket).objects[ProbeKey := Object(ProbeBody, ETag(md5, ProbeBody), lastModified)])
      ensures ProbeError(old(bucket), probeFault) == Some("NoSuchBucket") && createFault.None? ==>
                bucket == old(bucket).(created := true)
    {
      var available := IsAvailable(probeFault, lastModified);
      if available == Ok(true) {
        return Ok(());
      }
      if available == Ok(false) {
        return Err(RuntimeError);
      }
      if available.error != NoSuchBucket {
        return Err(available.error);
      }
      var created := CreateBucket(bucket, createFault);
      if created.Err? {
        return Err(ClientError(created.error));
      }
      bucket := created.value;
      r := Ok(());
    }
  }
}
