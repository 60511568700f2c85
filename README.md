# Preview store, modelled in Dafny

This project models the storage core of the submission preview service. The
core is `PreviewStore`, which keeps one PDF preview per source package and
checksum in an S3 bucket. It also models the JSON encoder that serialises
previews and their metadata.

- **Codec** (`codec.dfy`): the three text encodings the store relies on.
  - lowercase hexadecimal, which is how S3 spells an MD5 entity-tag;
  - `binascii.unhexlify`;
  - URL-safe base64 (`urlsafe_b64encode`, section 5 of RFC 4648).
  - Each has a partner: unhexlify undoes hex, and a strict base64url decoder undoes the encoder.
- **Domain** (`domain.dfy`): `Metadata(checksum, added, size_bytes)` and `Preview(source_id, checksum, content, metadata)`.
  - These shapes follow `store.py` and `encode.py`.
  - `added` is an opaque time.
  - Content is given by the bytes its stream yields.
- **S3** (`s3.dfy`): the bucket as a value.
  - The value records whether the bucket exists and maps each key to an object: body, entity-tag and last-modified time.
  - HEAD, GET, PUT, DELETE and bucket creation are functions over that value.
  - An injected fault stands for any S3 error response, given by its error code.
  - A HEAD request for a missing object or bucket answers with the bare status "404".
  - A GET request answers with "NoSuchKey" or "NoSuchBucket".
- **Store** (`store.dfy`):
  - the object key of a preview;
  - the mapping of S3 error codes to the store's exceptions;
  - `_hex_to_b64`;
  - the three lookups;
  - `DepositOutcome`, which states what `deposit` returns and leaves in the bucket, with its properties proved as lemmas.
- **Monitor** (`monitor.dfy`): the `StreamMonitor` class.
  - It is a pass-through reader whose MD5 context and byte count are fields.
  - `Read` updates them in place.
- **Service** (`service.dfy`): the `PreviewStore` class, whose state is the bucket.
  - `Deposit` streams the content through a `StreamMonitor`, then uploads it. The upload reads the stream to its end, and the bytes hashed and uploaded are the same whatever the (non-zero) read size.
  - `Deposit` is proved equal to `DepositOutcome`.
  - `IsAvailable` and `Initialize` probe the bucket and create it when it is missing.
- **Encode** (`encode.dfy`): `PreviewEncoder.default` over a JSON datatype.
  - A reading-back function shows that the encoding loses exactly the content of a preview and nothing else.

MD5 (RFC 1321) is not computed. It is a function `md5: seq<byte> -> Digest`, with 16-byte digests. The store and S3 share it, because S3's entity-tag of a single-part upload is the hexadecimal MD5 of the body. The concrete digest of "foocontent" enters as a hypothesis (`md5(FooContent) == FooContentDigest`).

`deposit` uploads first. It then compares the monitor's checksum with the expected one and deletes the key on a mismatch (`store.py:323-340`). Under `overwrite`, that deletion also removes the preview stored there before (`Store.DepositChecksumMismatch`).

## Model

| member | source | states |
|---|---|---|
| Codec.Hex | preview/services/store.py:378 | the hexadecimal form of a byte string has two lowercase hexadecimal digits per byte |
| Codec.Unhexlify | preview/services/store.py:415 | unhexlify fails on odd-length text; on success the text is twice as long as the bytes |
| Codec.UnhexlifyHex | preview/services/store.py:415 | unhexlify recovers every byte string from its hexadecimal form |
| Codec.HexUnhexlify | preview/services/store.py:415 | on lowercase hexadecimal text, hex undoes unhexlify |
| Codec.Base64Url | preview/services/store.py:104 | the base64url output has length 4·⌈n/3⌉; the characters are URL-safe except the trailing '=' padding |
| Codec.Base64UrlRoundTrip | preview/services/store.py:104 | the strict decoder recovers every byte string from its base64url form |
| Codec.Base64UrlInjective | preview/services/store.py:104 | distinct byte strings have distinct base64url forms |
| Codec.DigestChecksumShape | preview/services/store.py:101-104 | the checksum of an MD5 digest has 24 characters, ends in "==", and contains no '+' or '/' |
| S3.ETag | preview/services/store.py:378 | an entity-tag has 34 characters: a quote, 32 lowercase hexadecimal digits and a quote |
| S3.PutKeepsWellFormed | preview/services/store.py:326-327 | an upload keeps every stored entity-tag equal to the MD5 of its body |
| Store.Key | preview/services/store.py:275-276 | the key starts with "preview/", ends with ".pdf", and has length 2·\|source_id\| + \|checksum\| + 14 |
| Store.KeyInjective | preview/services/store.py:275-276 | when no identifier or checksum contains '/', distinct previews get distinct keys |
| Store.KeyCollision | preview/services/store.py:275-276 | when one does, two different previews share a key |
| Store.KeyIsNotProbe | preview/services/store.py:197 | no preview key is the probe key "stat" |
| Store.HandleClientError | preview/services/store.py:157-166 | "NoSuchBucket" maps to NoSuchBucket; "NoSuchKey" or "404" maps to DoesNotExist; every other code maps to RuntimeError (all three directions) |
| Store.UploadError | preview/services/store.py:325-333 | an upload error is raised as _handle_client_error raises it, except that RuntimeError becomes DepositFailed |
| Store.StripQuotes | preview/services/store.py:378 | Python's `etag[1:-1]`: drops the first and last character; text shorter than two becomes "" |
| Store.StripQuotesOfQuoted | preview/services/store.py:378 | stripping a quoted entity-tag gives back what was quoted |
| Store.HexToB64 | preview/services/store.py:413-415 | succeeds iff unhexlify accepts the tag, otherwise fails with BadETag; the result has the base64url length of the decoded bytes |
| Store.HexToB64OfHex | preview/services/store.py:413-415 | converting the hex form of a digest gives the base64url form of that same digest |
| Store.HexToB64Injective | preview/services/store.py:413-415 | on lowercase hexadecimal entity-tags, equal checksums come from equal tags |
| Store.FooContentChecksum | preview/services/tests.py:40-42 | the digest 7b0ae080…8b10 has the checksum "ewrggAHdCT55M1uUfwKLEA==" |
| Store.GetMetadata | preview/services/store.py:350-380 | S3 errors are converted by _handle_client_error; a missing bucket or key gives DoesNotExist; success reports the stored size and time |
| Store.GetPreviewChecksum | preview/services/store.py:382-391 | the same error behaviour as GetMetadata; success only when the key is stored |
| Store.GetPreview | preview/services/store.py:393-409 | a missing bucket gives NoSuchBucket; a missing key gives DoesNotExist; success carries the stored bytes and metadata |
| Store.LookupsOfStoredPreview | preview/services/store.py:370-409 | for a stored preview, all three lookups succeed and report the base64url MD5 of the stored bytes |
| Store.LookupsAgree | preview/services/store.py:370-409 | whenever get_metadata succeeds, the other two lookups agree with it |
| Store.DepositOutcome | preview/services/store.py:311-348 | never changes whether the bucket exists; success requires content, keeps the preview's identifier, checksum and content, and adds metadata stamped `now` with the content's length; PreviewAlreadyExists arises only without overwrite and leaves the bucket unchanged |
| Store.DepositWithoutContent | preview/services/store.py:311-313 | a preview without content fails with DepositFailed and leaves the bucket unchanged |
| Store.DepositRefusesExisting | preview/services/store.py:315-322 | without overwrite, depositing onto a stored preview raises PreviewAlreadyExists and leaves the bucket unchanged |
| Store.DepositSucceeds | preview/services/store.py:311-348 | a deposit succeeds iff content is present, the bucket exists, the upload succeeds, the checksum matches, and overwrite is set or the existence check raised DoesNotExist; on success it reports the exact result and bucket |
| Store.DepositThenLookup | preview/services/store.py:323-348 | after a successful deposit, every lookup returns the deposited bytes, checksum and size |
| Store.DepositChecksumMismatch | preview/services/store.py:335-340 | on a checksum mismatch, the deposit fails and the key is left empty, even under overwrite |
| Store.DepositFrame | preview/services/store.py:323-340 | a deposit changes no key other than its own and never changes whether the bucket exists |
| Store.DepositFailureChangesBucketOnlyOnMismatch | preview/services/store.py:311-340 | a failed deposit changes the bucket only after a checksum mismatch |
| Store.DepositRuntimeError | preview/services/store.py:315-333 | RuntimeError escapes a deposit iff the existence check raised it |
| Store.DepositKeepsWellFormed | preview/services/store.py:323-340 | a deposit keeps every entity-tag equal to the MD5 of its body |
| Store.DepositFooContent | preview/services/tests.py:29-42 | a first deposit of "foocontent" reports size 10 and checksum "ewrggAHdCT55M1uUfwKLEA==" |
| Monitor.ReadLength | preview/services/store.py:91-95 | read(size) takes everything when size is absent or negative, at most size otherwise, and nothing only at end of stream or when size is 0 |
| Monitor.StreamMonitor.constructor | preview/services/store.py:76-81 | a new monitor has an empty MD5 context and a size of 0 |
| Monitor.StreamMonitor.Read | preview/services/store.py:91-99 | returns the stream's next chunk unchanged; only a non-empty chunk is hashed and counted |
| Monitor.StreamMonitor.Checksum | preview/services/store.py:101-104 | the checksum is the base64url MD5 of the bytes read so far: 24 URL-safe characters ending in "==" |
| Service.ProbeError | preview/services/store.py:186-200 | the probe PUT fails exactly when a fault occurs or the bucket is missing |
| Service.PreviewStore.UploadFileobj | preview/services/store.py:324-327 | reads the whole stream with reads of any non-zero size, with every byte hashed, then PUTs exactly those bytes; a failed PUT leaves the bucket unchanged |
| Service.PreviewStore.Deposit | preview/services/store.py:311-348 | the result and the new bucket are exactly DepositOutcome's |
| Service.PreviewStore.IsAvailable | preview/services/store.py:174-200 | true iff the probe PUT succeeds; false iff its error becomes a RuntimeError; any other error is raised as converted |
| Service.PreviewStore.Initialize | preview/services/store.py:216-241 | succeeds iff the bucket is available, or is missing and is created; fails with RuntimeError iff it is unavailable; a failure leaves the bucket unchanged; an available bucket gains the probe object; a created bucket is otherwise unchanged |
| Encode.Default | preview/encode.py:12-26 | Metadata encodes to exactly added, checksum and size_bytes; Preview encodes to exactly source_id, checksum and metadata (null when absent, otherwise the metadata's own encoding); everything else goes to the base encoder |
| Encode.EncodingIgnoresContent | preview/encode.py:19-25 | the content of a preview never reaches its encoding |
| Encode.MetadataRoundTrip | preview/encode.py:13-18 | when ISO-8601 parsing undoes isoformat, metadata can be read back from its encoding |
| Encode.PreviewRoundTrip | preview/encode.py:19-25 | a preview can be read back from its encoding, except for its content |
| Encode.EncodingInjective | preview/encode.py:12-25 | two previews with the same encoding differ at most in their content |

## Left out

- MD5 is an uninterpreted function; only the digest of "foocontent" is supplied, as a hypothesis.
- Multipart uploads are not modelled. For objects uploaded in several parts, S3's entity-tag is not the body's MD5, so `_hex_to_b64` would not recover the deposit checksum.
- `datetime.now` and S3's `LastModified` are not modelled as clocks. They are two separate, opaque time parameters.
- ISO-8601 formatting is not modelled. `isoformat` is a function parameter.
- The boto3 client and its configuration are not modelled: `_new_client`, `__init__`, `init_app`, `get_session`, `current_session` and `__hash__`. This also covers retries, timeouts, connection errors that are not S3 error responses, and credentials.
- `_wait_for_bucket` is not modelled. The model treats the bucket as existing as soon as its creation succeeds.
- Service.PreviewStore.UploadFileobj: a failed upload is modelled as failing after the stream is read to its end, not part-way through.
- The read sizes the transfer library actually uses for `TransferConfig(io_chunksize=4096)` are not modelled, because that library is not part of this model. `Deposit` passes 4096 as the read size, and the upload's contract holds for every non-zero read size.
- The stream of the content handed to `deposit` is assumed unread. The content returned by `deposit` is modelled as the same bytes, not as the drained stream object.
- `get_preview` does not return a stream. Its content is modelled as the stored bytes.
- Log messages and exception messages are not modelled; only the kind of exception is.
- `content_type` is not modelled.
- `seekable`, `readable` and the `io.BytesIO` base class are not modelled.
- The Flask glue is not modelled: routes, controllers and the application factory.
- Concurrent requests against one bucket are not modelled.
- The base encoder's own behaviour is not modelled. It is the `base` parameter of `Encode.Default`.
- The base encoder's TypeError is modelled as an error string.
- `Encode.DecodeMetadata` and `Encode.DecodePreview` have no counterpart in the service. They exist to state what the encoding keeps.
