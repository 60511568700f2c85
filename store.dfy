/**
 The preview store's logic over the bucket value: where a preview lives, how S3
 error codes become the store's exceptions, how the checksum is read back from
 an entity-tag, the three lookups, and what a deposit does to the bucket. The
 step-by-step deposit is the `Deposit` method of `Service.PreviewStore`, proved
 against `DepositOutcome` below.
 */
module Store {
  import opened Results
  import opened Codec
  import opened Domain
  import opened S3

  /** The exceptions the store raises. `ClientError` is an S3 error that escapes
      unconverted; `BadETag` is the `binascii.Error` of an entity-tag that is not
      hexadecimal. */
  datatype StoreError =
    | NoSuchBucket
    | DoesNotExist
    | DepositFailed
    | PreviewAlreadyExists
    | RuntimeError
    | ClientError(code: ErrorCode)
    | BadETag

  // ---------------------------------------------------------------------------
  // Keys
  // ---------------------------------------------------------------------------

  /** The object key of a preview: `preview/{source_id}/{checksum}/{source_id}.pdf`. */
  function Key(sourceId: string, checksum: string): (k: string)
    ensures |k| == 2 * |sourceId| + |checksum| + 14
    ensures k[..8] == "preview/" && k[|k| - 4..] == ".pdf"
  {
    "preview/" + sourceId + "/" + checksum + "/" + sourceId + ".pdf"
  }

  /** In `a + "/" + x` with `a` free of '/', the first '/' sits at index `|a|`. */
  lemma FirstSlash(a: string, x: string)
    requires '/' !in a
    ensures (a + "/" + x)[|a|] == '/'
    ensures forall i :: 0 <= i < |a| ==> (a + "/" + x)[i] != '/'
  {
  }

  /** Two strings free of '/' are recovered from `a + "/" + x`. */
  lemma SplitAtSlash(a: string, x: string, b: string, y: string)
    requires '/' !in a && '/' !in b
    requires a + "/" + x == b + "/" + y
    ensures a == b && x == y
  {
    var u := a + "/" + x;
    FirstSlash(a, x);
    FirstSlash(b, y);
    assert |a| == |b|;
    assert a == u[..|a|] && b == u[..|b|];
    assert x == u[|a| + 1..] && y == u[|b| + 1..];
  }

  /** Distinct previews have distinct keys, as long as neither identifier nor
      checksum contains '/' (a base64url checksum never does). */
  lemma KeyInjective(s1: string, c1: string, s2: string, c2: string)
    requires '/' !in s1 && '/' !in c1 && '/' !in s2 && '/' !in c2
    requires Key(s1, c1) == Key(s2, c2)
    ensures s1 == s2 && c1 == c2
  {
    var k1, k2 := Key(s1, c1), Key(s2, c2);
    assert k1[8..] == s1 + "/" + (c1 + "/" + (s1 + ".pdf"));
    assert k2[8..] == s2 + "/" + (c2 + "/" + (s2 + ".pdf"));
    SplitAtSlash(s1, c1 + "/" + (s1 + ".pdf"), s2, c2 + "/" + (s2 + ".pdf"));
    SplitAtSlash(c1, s1 + ".pdf", c2, s2 + ".pdf");
  }

  /** Without that condition two previews can share a key. */
  lemma KeyCollision()
    ensures Key("a", "a/c/a") == Key("a/a", "c")
  {
  }

  /** The object written by the availability probe never holds a preview. */
  lemma KeyIsNotProbe(sourceId: string, checksum: string)
    ensures Key(sourceId, checksum) != "stat"
  {
    assert Key(sourceId, checksum)[..8] != "stat"[..];
  }

  // ---------------------------------------------------------------------------
  // Errors
  // ---------------------------------------------------------------------------

  /** `_handle_client_error`, which always raises: the error it raises for an S3
      error code. */
  function HandleClientError(code: ErrorCode): (e: StoreError)
    ensures e == NoSuchBucket <==> code == "NoSuchBucket"
    ensures e == DoesNotExist <==> code == "NoSuchKey" || code == "404"
    ensures e == RuntimeError <==> code != "NoSuchBucket" && code != "NoSuchKey" && code != "404"
  {
    if code == "NoSuchBucket" then NoSuchBucket
    else if code == "NoSuchKey" || code == "404" then DoesNotExist
    else RuntimeError
  }

  /** Inside `deposit`, an upload error is raised as `_handle_client_error` raises
      it, except that a `RuntimeError` becomes `DepositFailed`. */
  function UploadError(code: ErrorCode): (e: StoreError)
    ensures e != RuntimeError
    ensures code == "NoSuchBucket" ==> e == NoSuchBucket
    ensures code == "NoSuchKey" || code == "404" ==> e == DoesNotExist
    ensures HandleClientError(code) == RuntimeError ==> e == DepositFailed
  {
    var e := HandleClientError(code);
    if e == RuntimeError then DepositFailed else e
  }

  // ---------------------------------------------------------------------------
  // Checksums read back from entity-tags
  // ---------------------------------------------------------------------------

  /** Python's `etag[1:-1]`: drops the first and last characters, and yields the
      empty string for a string shorter than two. */
  function StripQuotes(etag: string): (r: string)
    ensures |etag| >= 2 ==> |r| == |etag| - 2 && forall i :: 0 <= i < |r| ==> r[i] == etag[i + 1]
    ensures |etag| < 2 ==> r == ""
  {
    if |etag| < 2 then "" else etag[1..|etag| - 1]
  }

  lemma StripQuotesOfQuoted(x: string)
    ensures StripQuotes("\"" + x + "\"") == x
  {
  }

  /** `_hex_to_b64`: the URL-safe base64 form of the bytes a hexadecimal digest
      names. */
  function HexToB64(etag: string): (r: Result<string, StoreError>)
    ensures r.Ok? <==> Unhexlify(etag).Some?
    ensures r.Err? ==> r.error == BadETag
    ensures r.Ok? ==> |r.value| == 4 * ((|etag| / 2 + 2) / 3)
  {
    match Unhexlify(etag)
    case None => Err(BadETag)
    case Some(digest) => Ok(Base64Url(digest))
  }

  /** The checksum read back from the hexadecimal form of a digest is the
      base64url form of that same digest. */
  lemma HexToB64OfHex(d: seq<byte>)
    ensures HexToB64(Hex(d)) == Ok(Base64Url(d))
  {
    UnhexlifyHex(d);
  }

  /** On lowercase hexadecimal text HexToB64 loses nothing: equal checksums come
      from equal entity-tags. */
  lemma HexToB64Injective(e1: string, e2: string)
    requires forall i :: 0 <= i < |e1| ==> IsLowerHexDigit(e1[i])
    requires forall i :: 0 <= i < |e2| ==> IsLowerHexDigit(e2[i])
    requires HexToB64(e1).Ok? && HexToB64(e1) == HexToB64(e2)
    ensures e1 == e2
  {
    Base64UrlInjective(Unhexlify(e1).value, Unhexlify(e2).value);
    HexUnhexlify(e1);
    HexUnhexlify(e2);
  }

  /** The MD5 digest of the ten bytes "foocontent". */
  const FooContentDigest: seq<byte> :=
    [0x7b, 0x0a, 0xe0, 0x80, 0x01, 0xdd, 0x09, 0x3e, 0x79, 0x33, 0x5b, 0x94, 0x7f, 0x02, 0x8b, 0x10]

  /** The last seven bytes of that digest encode as "M1uUfwKLEA==". */
  lemma FooContentChecksumTail(d: seq<byte>)
    requires d == FooContentDigest
    ensures Base64Url(d[9..]) == "M1uUfwKLEA=="
  {
    assert Base64Url(d[15..]) == "EA==" by {
      assert d[15..] == [0x10];
    }
    assert Base64Url(d[12..]) == "fwKL" + "EA==" by {
      assert Quantum(0x7f, 0x02, 0x8b) == "fwKL";
      assert d[12..][3..] == d[15..];
    }
    assert Quantum(0x33, 0x5b, 0x94) == "M1uU";
    assert d[9..][3..] == d[12..];
  }

  /** The last thirteen bytes of that digest encode as "gAHdCT55M1uUfwKLEA==". */
  lemma FooContentChecksumMiddle(d: seq<byte>)
    requires d == FooContentDigest
    ensures Base64Url(d[3..]) == "gAHdCT55M1uUfwKLEA=="
  {
    FooContentChecksumTail(d);
    assert Base64Url(d[6..]) == "CT55" + "M1uUfwKLEA==" by {
      assert Quantum(0x09, 0x3e, 0x79) == "CT55";
      assert d[6..][3..] == d[9..];
    }
    assert Quantum(0x80, 0x01, 0xdd) == "gAHd";
    assert d[3..][3..] == d[6..];
  }

  /** The literal concatenation, kept apart from the unfolding above, which makes
      it costly to prove in place. */
  lemma FooContentChecksumText()
    ensures "ewrg" + "gAHdCT55M1uUfwKLEA==" == "ewrggAHdCT55M1uUfwKLEA=="
  {
  }

  /** The checksum of that digest is "ewrggAHdCT55M1uUfwKLEA==". */
  lemma FooContentChecksum(d: seq<byte>)
    requires d == FooContentDigest
    ensures Base64Url(d) == "ewrggAHdCT55M1uUfwKLEA=="
  {
    assert Base64Url(d) == "ewrg" + "gAHdCT55M1uUfwKLEA==" by {
      FooContentChecksumMiddle(d);
      assert d[0] == 0x7b && d[1] == 0x0a && d[2] == 0xe0;
      assert Quantum(0x7b, 0x0a, 0xe0) == "ewrg";
    }
    FooContentChecksumText();
  }

  // ---------------------------------------------------------------------------
  // Lookups
  // ---------------------------------------------------------------------------

  /** `get_metadata`: a HEAD request for the preview's key. The checksum is read
      back from the entity-tag, the time and size from the response. */
  function GetMetadata(b: Bucket, sourceId: string, checksum: string, fault: Option<ErrorCode>)
    : (r: Result<Metadata, StoreError>)
    ensures fault.Some? ==> r == Err(HandleClientError(fault.value))
    ensures fault.None? && (!b.created || Key(sourceId, checksum) !in b.objects) ==> r == Err(DoesNotExist)
    ensures r.Ok? ==> b.created && Key(sourceId, checksum) in b.objects
    ensures r.Ok? ==> r.value.sizeBytes == |b.objects[Key(sourceId, checksum)].body|
    ensures r.Ok? ==> r.value.added == b.objects[Key(sourceId, checksum)].lastModified
  {
    match HeadObject(b, Key(sourceId, checksum), fault)
    case Err(code) => Err(HandleClientError(code))
    case Ok(obj) =>
      match HexToB64(StripQuotes(obj.etag))
      case Err(e) => Err(e)
      case Ok(c) => Ok(Metadata(c, obj.lastModified, |obj.body|))
  }

  /** `get_preview_checksum`: the checksum alone, from a HEAD request. */
  function GetPreviewChecksum(b: Bucket, sourceId: string, checksum: string, fault: Option<ErrorCode>)
    : (r: Result<string, StoreError>)
    ensures fault.Some? ==> r == Err(HandleClientError(fault.value))
    ensures fault.None? && (!b.created || Key(sourceId, checksum) !in b.objects) ==> r == Err(DoesNotExist)
    ensures r.Ok? ==> b.created && Key(sourceId, checksum) in b.objects
  {
    match HeadObject(b, Key(sourceId, checksum), fault)
    case Err(code) => Err(HandleClientError(code))
    case Ok(obj) => HexToB64(StripQuotes(obj.etag))
  }

  /** `get_preview`: a GET request; the preview carries the stored bytes as its
      content and the metadata read from the response. */
  function GetPreview(b: Bucket, sourceId: string, checksum: string, fault: Option<ErrorCode>)
    : (r: Result<Preview, StoreError>)
    ensures fault.Some? ==> r == Err(HandleClientError(fault.value))
    ensures fault.None? && !b.created ==> r == Err(NoSuchBucket)
    ensures fault.None? && b.created && Key(sourceId, checksum) !in b.objects ==> r == Err(DoesNotExist)
    ensures r.Ok? ==> b.created && Key(sourceId, checksum) in b.objects
    ensures r.Ok? ==> r.value.sourceId == sourceId && r.value.checksum == checksum
    ensures r.Ok? ==> r.value.content == Some(b.objects[Key(sourceId, checksum)].body)
    ensures r.Ok? ==> r.value.metadata.Some?
  {
    match GetObject(b, Key(sourceId, checksum), fault)
    case Err(code) => Err(HandleClientError(code))
    case Ok(obj) =>
      match HexToB64(StripQuotes(obj.etag))
      case Err(e) => Err(e)
      case Ok(c) => Ok(Preview(sourceId, checksum, Some(obj.body), Some(Metadata(c, obj.lastModified, |obj.body|))))
  }

  /** In a bucket whose entity-tags are those S3 computes, every lookup of a stored
      preview succeeds, and all three report the base64url MD5 digest of the
      stored bytes as its checksum. */
  lemma LookupsOfStoredPreview(md5: seq<byte> -> Digest, b: Bucket, sourceId: string, checksum: string)
    requires WellFormed(md5, b) && b.created && Key(sourceId, checksum) in b.objects
    ensures var obj := b.objects[Key(sourceId, checksum)];
            var m := Metadata(Base64Url(md5(obj.body)), obj.lastModified, |obj.body|);
            && GetMetadata(b, sourceId, checksum, None) == Ok(m)
            && GetPreviewChecksum(b, sourceId, checksum, None) == Ok(m.checksum)
            && GetPreview(b, sourceId, checksum, None) == Ok(Preview(sourceId, checksum, Some(obj.body), Some(m)))
  {
    var obj := b.objects[Key(sourceId, checksum)];
    StripQuotesOfQuoted(Hex(md5(obj.body)));
    HexToB64OfHex(md5(obj.body));
  }

  /** Whenever they succeed, the three lookups agree with one another. */
  lemma LookupsAgree(b: Bucket, sourceId: string, checksum: string)
    requires GetMetadata(b, sourceId, checksum, None).Ok?
    ensures GetPreviewChecksum(b, sourceId, checksum, None) == Ok(GetMetadata(b, sourceId, checksum, None).value.checksum)
    ensures GetPreview(b, sourceId, checksum, None).Ok?
    ensures GetPreview(b, sourceId, checksum, None).value.metadata == Some(GetMetadata(b, sourceId, checksum, None).value)
  {
  }

  // ---------------------------------------------------------------------------
  // Deposit
  // ---------------------------------------------------------------------------

  /** How S3 answers the three requests a deposit may make (the existence check,
      the upload and the clean-up delete), and the time it stamps on the upload. */
  datatype Backend = Backend(
    headFault: Option<ErrorCode>,
    uploadFault: Option<ErrorCode>,
    deleteFault: Option<ErrorCode>,
    lastModified: Timestamp)

  /** What `deposit` returns and leaves in the bucket. `now` is the local clock
      reading that stamps the returned metadata. The stream monitor's checksum and
      size are those of the whole content, which the upload reads to its end. */
  function DepositOutcome(md5: seq<byte> -> Digest, b: Bucket, p: Preview, overwrite: bool,
                          checksum: Option<string>, backend: Backend, now: Timestamp)
    : (o: (Result<Preview, StoreError>, Bucket))
    ensures o.1.created == b.created
    ensures o.0.Ok? ==> p.content.Some? && o.0.value.sourceId == p.sourceId
                        && o.0.value.checksum == p.checksum && o.0.value.content == p.content
    ensures o.0.Ok? ==> o.0.value.metadata.Some? && o.0.value.metadata.value.added == now
                        && o.0.value.metadata.value.sizeBytes == |p.content.value|
    ensures o.0 == Err(PreviewAlreadyExists) ==> !overwrite && o.1 == b
  {
    if p.content.None? then (Err(DepositFailed), b)
    else
      var existing := GetMetadata(b, p.sourceId, p.checksum, backend.headFault);
      if !overwrite && existing.Ok? then (Err(PreviewAlreadyExists), b)
      else if !overwrite && existing.error != DoesNotExist then (Err(existing.error), b)
      else
        var key := Key(p.sourceId, p.checksum);
        var body := p.content.value;
        var computed := Base64Url(md5(body));
        match PutObject(md5, b, key, body, backend.lastModified, backend.uploadFault)
        case Err(code) => (Err(UploadError(code)), b)
        case Ok(uploaded) =>
          if checksum.Some? && computed != checksum.value then
            match DeleteObject(uploaded, key, backend.deleteFault)
            case Err(code) => (Err(ClientError(code)), uploaded)
            case Ok(cleaned) => (Err(DepositFailed), cleaned)
          else
            (Ok(Preview(p.sourceId, p.checksum, p.content, Some(Metadata(computed, now, |body|)))), uploaded)
  }

  /** A deposit without content fails and leaves the bucket as it was. */
  lemma DepositWithoutContent(md5: seq<byte> -> Digest, b: Bucket, p: Preview, overwrite: bool,
                              checksum: Option<string>, backend: Backend, now: Timestamp)
    requires p.content.None?
    ensures DepositOutcome(md5, b, p, overwrite, checksum, backend, now) == (Err(DepositFailed), b)
  {
  }

  /** Without `overwrite`, a deposit onto a stored preview fails with
      `PreviewAlreadyExists` and leaves the bucket as it was. */
  lemma DepositRefusesExisting(md5: seq<byte> -> Digest, b: Bucket, p: Preview,
                               checksum: Option<string>, backend: Backend, now: Timestamp)
    requires WellFormed(md5, b) && b.created && Key(p.sourceId, p.checksum) in b.objects
    requires p.content.Some? && backend.headFault.None?
    ensures DepositOutcome(md5, b, p, false, checksum, backend, now) == (Err(PreviewAlreadyExists), b)
  {
    LookupsOfStoredPreview(md5, b, p.sourceId, p.checksum);
  }

  /** A deposit succeeds exactly when it has content, the bucket exists, the upload
      goes through, a supplied checksum matches the content's, and either
      `overwrite` is set or the existence check raises `DoesNotExist`. It then stores
      the content under the preview's key and reports the content's checksum and
      length. */
  lemma DepositSucceeds(md5: seq<byte> -> Digest, b: Bucket, p: Preview, overwrite: bool,
                        checksum: Option<string>, backend: Backend, now: Timestamp)
    ensures var (r, b') := DepositOutcome(md5, b, p, overwrite, checksum, backend, now);
            r.Ok? <==>
              && p.content.Some? && b.created && backend.uploadFault.None?
              && (checksum.None? || checksum.value == Base64Url(md5(p.content.value)))
              && (overwrite || GetMetadata(b, p.sourceId, p.checksum, backend.headFault) == Err(DoesNotExist))
    ensures var (r, b') := DepositOutcome(md5, b, p, overwrite, checksum, backend, now);
            r.Ok? ==>
              var body := p.content.value;
              && r.value == Preview(p.sourceId, p.checksum, p.content,
                                    Some(Metadata(Base64Url(md5(body)), now, |body|)))
              && b' == b.(objects := b.objects[Key(p.sourceId, p.checksum) := Object(body, ETag(md5, body), backend.lastModified)])
  {
  }

  /** A successful deposit is read back unchanged: every lookup of the preview
      yields the deposited bytes and the checksum and size the deposit returned. */
  lemma {:induction false} DepositThenLookup(md5: seq<byte> -> Digest, b: Bucket, p: Preview, overwrite: bool,
                                             checksum: Option<string>, backend: Backend, now: Timestamp)
    requires DepositOutcome(md5, b, p, overwrite, checksum, backend, now).0.Ok?
    ensures var (r, b') := DepositOutcome(md5, b, p, overwrite, checksum, backend, now);
            var m := r.value.metadata.value;
            && m.sizeBytes == |p.content.value|
            && GetPreview(b', p.sourceId, p.checksum, None)
               == Ok(Preview(p.sourceId, p.checksum, p.content, Some(Metadata(m.checksum, backend.lastModified, m.sizeBytes))))
            && GetMetadata(b', p.sourceId, p.checksum, None) == Ok(Metadata(m.checksum, backend.lastModified, m.sizeBytes))
            && GetPreviewChecksum(b', p.sourceId, p.checksum, None) == Ok(m.checksum)
  {
    var (r, b') := DepositOutcome(md5, b, p, overwrite, checksum, backend, now);
    var key, body := Key(p.sourceId, p.checksum), p.content.value;
    DepositSucceeds(md5, b, p, overwrite, checksum, backend, now);
    assert b'.objects[key] == Object(body, ETag(md5, body), backend.lastModified);
    StripQuotesOfQuoted(Hex(md5(body)));
    HexToB64OfHex(md5(body));
  }

  /** A supplied checksum that differs from the content's makes a deposit whose
      upload and clean-up go through fail, and leaves no object under the key,
      even when an earlier preview was stored there and `overwrite` was set. */
  lemma DepositChecksumMismatch(md5: seq<byte> -> Digest, b: Bucket, p: Preview, overwrite: bool,
                                checksum: Option<string>, backend: Backend, now: Timestamp)
    requires p.content.Some? && b.created
    requires checksum.Some? && checksum.value != Base64Url(md5(p.content.value))
    requires overwrite || (backend.headFault.None? && Key(p.sourceId, p.checksum) !in b.objects)
    requires backend.uploadFault.None? && backend.deleteFault.None?
    ensures DepositOutcome(md5, b, p, overwrite, checksum, backend, now)
            == (Err(DepositFailed), b.(objects := b.objects - {Key(p.sourceId, p.checksum)}))
  {
    var key := Key(p.sourceId, p.checksum);
    var body := p.content.value;
    assert b.objects[key := Object(body, ETag(md5, body), backend.lastModified)] - {key} == b.objects - {key};
  }

  /** A deposit touches no key but its own and never removes the bucket. */
  lemma DepositFrame(md5: seq<byte> -> Digest, b: Bucket, p: Preview, overwrite: bool,
                     checksum: Option<string>, backend: Backend, now: Timestamp)
    ensures var (r, b') := DepositOutcome(md5, b, p, overwrite, checksum, backend, now);
            && b'.created == b.created
            && b'.objects - {Key(p.sourceId, p.checksum)} == b.objects - {Key(p.sourceId, p.checksum)}
  {
    var key := Key(p.sourceId, p.checksum);
    if p.content.Some? {
      var body := p.content.value;
      assert b.objects[key := Object(body, ETag(md5, body), backend.lastModified)] - {key} == b.objects - {key};
      assert b.objects[key := Object(body, ETag(md5, body), backend.lastModified)] - {key} - {key} == b.objects - {key};
    }
  }

  /** The only failed deposits that change the bucket are those whose supplied
      checksum differs from the content's: they upload, then delete (or, if the
      delete fails, leave the upload in place). */
  lemma DepositFailureChangesBucketOnlyOnMismatch(md5: seq<byte> -> Digest, b: Bucket, p: Preview, overwrite: bool,
                                                  checksum: Option<string>, backend: Backend, now: Timestamp)
    ensures var (r, b') := DepositOutcome(md5, b, p, overwrite, checksum, backend, now);
            r.Err? && b' != b ==>
              p.content.Some? && checksum.Some? && checksum.value != Base64Url(md5(p.content.value))
  {
  }

  /** Inside a deposit, only the existence check (made when `overwrite` is not
      set) lets a `RuntimeError` escape: an upload error is rewrapped as
      `DepositFailed`. */
  lemma DepositRuntimeError(md5: seq<byte> -> Digest, b: Bucket, p: Preview, overwrite: bool,
                            checksum: Option<string>, backend: Backend, now: Timestamp)
    ensures var (r, b') := DepositOutcome(md5, b, p, overwrite, checksum, backend, now);
            r == Err(RuntimeError) <==>
              && p.content.Some? && !overwrite && backend.headFault.Some?
              && HandleClientError(backend.headFault.value) == RuntimeError
  {
  }

  /** A deposit keeps every entity-tag equal to the one S3 computes. */
  lemma DepositKeepsWellFormed(md5: seq<byte> -> Digest, b: Bucket, p: Preview, overwrite: bool,
                               checksum: Option<string>, backend: Backend, now: Timestamp)
    requires WellFormed(md5, b)
    ensures WellFormed(md5, DepositOutcome(md5, b, p, overwrite, checksum, backend, now).1)
  {
  }

  /** The ten bytes "foocontent". */
  const FooContent: seq<byte> := [0x66, 0x6f, 0x6f, 0x63, 0x6f, 0x6e, 0x74, 0x65, 0x6e, 0x74]

  /** A first deposit of "foocontent" (whose MD5 digest is `FooContentDigest`)
      reports a size of 10 and the checksum "ewrggAHdCT55M1uUfwKLEA==". */
  lemma DepositFooContent(md5: seq<byte> -> Digest, b: Bucket, p: Preview, backend: Backend, now: Timestamp)
    requires p.content == Some(FooContent) && md5(FooContent) == FooContentDigest
    requires b.created && Key(p.sourceId, p.checksum) !in b.objects
    requires backend.headFault.None? && backend.uploadFault.None?
    ensures var (r, b') := DepositOutcome(md5, b, p, false, None, backend, now);
            && r.Ok?
            && r.value.metadata.value.sizeBytes == 10
            && r.value.metadata.value.checksum == "ewrggAHdCT55M1uUfwKLEA=="
  {
    DepositSucceeds(md5, b, p, false, None, backend, now);
    FooContentChecksum(md5(FooContent));
  }
}
