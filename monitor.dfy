/**
 `StreamMonitor`: a pass-through reader over the preview content that counts the
 bytes read and feeds them to an MD5 context, so that the size and checksum of
 an upload are known once it has read the stream to its end.
 */
module Monitor {
  import opened Results
  import opened Codec

  /** How many bytes `read(size)` takes from a stream with `available` bytes left:
      all of them when `size` is absent or negative, otherwise at most `size`. */
  function ReadLength(size: Option<int>, available: nat): (n: nat)
    ensures n <= available
    ensures n == 0 <==> available == 0 || size == Some(0)
  {
    if size.None? || size.value < 0 || size.value > available then available else size.value
  }

  class StreamMonitor {
    /** The MD5 function (RFC 1321); the model treats it as given. */
    const md5: seq<byte> -> Digest

    /** The wrapped stream: the bytes it had left when it was wrapped, and how many of them have been read. */
    var stream: seq<byte>
    var position: nat

    /** The MD5 context, given by the message it has absorbed so far. */
    var hashed: seq<byte>

    var sizeBytes: nat

    /** The context has absorbed exactly the bytes read so far, in order, and
        `sizeBytes` counts them. */
    ghost predicate Valid()
      reads this
    {
      position <= |stream| && hashed == stream[..position] && sizeBytes == |hashed|
    }

    constructor (md5: seq<byte> -> Digest, stream: seq<byte>)
      ensures Valid()
      ensures this.md5 == md5 && this.stream == stream && position == 0
      ensures hashed == [] && sizeBytes == 0
    {
      this.md5 := md5;
      this.stream := stream;
      position := 0;
      hashed := [];
      sizeBytes := 0;
    }

    /** `read`: returns the next chunk of the wrapped stream unchanged. A
        non-empty chunk is fed to the context and counted; an empty one changes
        nothing. */
    method Read(size: Option<int>) returns (chunk: seq<byte>)
      requires Valid()
      modifies this
      ensures Valid() && stream == old(stream)
      ensures chunk == old(stream[position..position + ReadLength(size, |stream| - position)])
      ensures position == old(position) + |chunk|
      ensures hashed == old(hashed) + chunk
      ensures sizeBytes == old(sizeBytes) + |chunk|
      ensures |chunk| == 0 ==> unchanged(this)
    {
      var n := if size.None? then -1 else size.value;
      var end := if n < 0 || n > |stream| - position then |stream| else position + n;
      chunk := stream[position..end];
      position := end;
      if |chunk| != 0 {
        hashed := hashed + chunk;
        sizeBytes := sizeBytes + |chunk|;
      }
    }

    /** `checksum`: the URL-safe base64 form of the MD5 digest of everything
        read so far: 24 characters ending in "==". */
    function Checksum(): (c: string)
      reads this
      ensures |c| == 24 && c[22..] == "=="
      ensures forall i :: 0 <= i < 22 ==> IsUrlSafeChar(c[i])
    {
      DigestChecksumShape(md5(hashed));
      Base64Url(md5(hashed))
    }
  }
}
