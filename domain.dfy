/** The values the preview service passes around: a preview of a source package
    and the metadata of its stored content. */
module Domain {
  import opened Results
  import opened Codec

  /** A point in time (a `datetime`); the model never looks inside one. */
  type Timestamp(==)

  /** Metadata of stored preview content: the URL-safe base64 MD5 digest of the
      content, when it was added, and its length in bytes. */
  datatype Metadata = Metadata(checksum: string, added: Timestamp, sizeBytes: nat)

  /** A preview of the source package `sourceId` whose own checksum is `checksum`.
      `content` stands for the content stream, given here by the bytes it yields. */
  datatype Preview = Preview(
    sourceId: string,
    checksum: string,
    content: Option<seq<byte>>,
    metadata: Option<Metadata>)
}
