/**
 `PreviewEncoder.default`: how previews and their metadata become JSON. A JSON
 value is a datatype; the encoder's dispatch on the type of its argument is a
 dispatch on the constructor of `Encodable`.
 */
module Encode {
  import opened Results
  import opened Codec
  import opened Domain

  /** The JSON values the encoder produces. An object maps member names to values. */
  datatype Json =
    | JNull
    | JString(s: string)
    | JInt(i: int)
    | JObject(fields: map<string, Json>)

  /** What the encoder may be handed: the two domain types it knows, or any
      other value, of type `T`, which it leaves to the base encoder. */
  datatype Encodable<T> =
    | OfMetadata(m: Metadata)
    | OfPreview(p: Preview)
    | Other(x: T)

  /** `default`. `isoformat` renders a time as an ISO-8601 string; `base` is the
      base encoder, which either encodes a value or rejects it with a message.
      A `Preview` is encoded without its content; its metadata is encoded by a
      recursive call, or as null when absent. */
  function Default<T>(obj: Encodable<T>, isoformat: Timestamp -> string, base: T -> Result<Json, string>)
    : (r: Result<Json, string>)
    decreases if obj.OfPreview? then 1 else 0
    ensures obj.OfMetadata? ==>
              && r.Ok? && r.value.JObject?
              && r.value.fields.Keys == {"added", "checksum", "size_bytes"}
              && r.value.fields["added"] == JString(isoformat(obj.m.added))
              && r.value.fields["checksum"] == JString(obj.m.checksum)
              && r.value.fields["size_bytes"] == JInt(obj.m.sizeBytes)
    ensures obj.OfPreview? ==>
              && r.Ok? && r.value.JObject?
              && r.value.fields.Keys == {"source_id", "checksum", "metadata"}
              && r.value.fields["source_id"] == JString(obj.p.sourceId)
              && r.value.fields["checksum"] == JString(obj.p.checksum)
              && (obj.p.metadata.None? ==> r.value.fields["metadata"] == JNull)
              && (obj.p.metadata.Some? ==>
                    r.value.fields["metadata"] == Default(OfMetadata(obj.p.metadata.value), isoformat, base).value)
    ensures obj.Other? ==> r == base(obj.x)
  {
    match obj
    case OfMetadata(m) =>
      Ok(JObject(map["added" := JString(isoformat(m.added)),
                     "checksum" := JString(m.checksum),
                     "size_bytes" := JInt(m.sizeBytes)]))
    case OfPreview(p) =>
      var metadata := if p.metadata.Some? then Default(OfMetadata(p.metadata.value), isoformat, base).value else JNull;
      Ok(JObject(map["source_id" := JString(p.sourceId),
                     "checksum" := JString(p.checksum),
                     "metadata" := metadata]))
    case Other(x) => base(x)
  }

  /** The content of a preview never reaches its JSON form. */
  lemma EncodingIgnoresContent<T>(p: Preview, content: Option<seq<byte>>,
                                  isoformat: Timestamp -> string, base: T -> Result<Json, string>)
    ensures Default(OfPreview(p), isoformat, base) == Default(OfPreview(p.(content := content)), isoformat, base)
  {
  }

  // ---------------------------------------------------------------------------
  // Reading the encoding back
  // ---------------------------------------------------------------------------

  /** Reads metadata back from its JSON form, given a parser for ISO-8601 times. */
  function DecodeMetadata(j: Json, parse: string -> Option<Timestamp>): (r: Option<Metadata>)
    ensures r.Some? ==> j.JObject? && "checksum" in j.fields && j.fields["checksum"] == JString(r.value.checksum)
    ensures r.Some? ==> "size_bytes" in j.fields && j.fields["size_bytes"] == JInt(r.value.sizeBytes)
  {
    if j.JObject? && "added" in j.fields && "checksum" in j.fields && "size_bytes" in j.fields
       && j.fields["added"].JString? && j.fields["checksum"].JString?
       && j.fields["size_bytes"].JInt? && j.fields["size_bytes"].i >= 0
       && parse(j.fields["added"].s).Some?
    then Some(Metadata(j.fields["checksum"].s, parse(j.fields["added"].s).value, j.fields["size_bytes"].i))
    else None
  }

  /** Reads a content-less preview back from its JSON form. */
  function DecodePreview(j: Json, parse: string -> Option<Timestamp>): (r: Option<Preview>)
    ensures r.Some? ==> r.value.content.None?
    ensures r.Some? ==> j.JObject? && "source_id" in j.fields && j.fields["source_id"] == JString(r.value.sourceId)
    ensures r.Some? ==> "metadata" in j.fields && (r.value.metadata.None? <==> j.fields["metadata"] == JNull)
  {
    if j.JObject? && "source_id" in j.fields && "checksum" in j.fields && "metadata" in j.fields
       && j.fields["source_id"].JString? && j.fields["checksum"].JString?
    then
      var sourceId := j.fields["source_id"].s;
      var checksum := j.fields["checksum"].s;
      if j.fields["metadata"] == JNull then Some(Preview(sourceId, checksum, None, None))
      else
        var m := DecodeMetadata(j.fields["metadata"], parse);
        if m.Some? then Some(Preview(sourceId, checksum, None, m)) else None
    else None
  }

  /** When `parse` reads back what `isoformat` writes, the encoding of metadata
      loses nothing. */
  lemma MetadataRoundTrip<T>(m: Metadata, isoformat: Timestamp -> string, parse: string -> Option<Timestamp>,
                             base: T -> Result<Json, string>)
    requires forall t :: parse(isoformat(t)) == Some(t)
    ensures DecodeMetadata(Default(OfMetadata(m), isoformat, base).value, parse) == Some(m)
  {
    assert parse(isoformat(m.added)) == Some(m.added);
  }

  /** The encoding of a preview loses exactly its content. */
  lemma PreviewRoundTrip<T>(p: Preview, isoformat: Timestamp -> string, parse: string -> Option<Timestamp>,
                            base: T -> Result<Json, string>)
    requires forall t :: parse(isoformat(t)) == Some(t)
    ensures DecodePreview(Default(OfPreview(p), isoformat, base).value, parse) == Some(p.(content := None))
  {
    if p.metadata.Some? {
      MetadataRoundTrip(p.metadata.value, isoformat, parse, base);
    }
  }

  /** Hence two previews with the same encoding differ at most in their content. */
  lemma EncodingInjective<T>(p1: Preview, p2: Preview, isoformat: Timestamp -> string,
                             parse: string -> Option<Timestamp>, base: T -> Result<Json, string>)
    requires forall t :: parse(isoformat(t)) == Some(t)
    requires Default(OfPreview(p1), isoformat, base) == Default(OfPreview(p2), isoformat, base)
    ensures p1.(content := None) == p2.(content := None)
  {
    PreviewRoundTrip(p1, isoformat, parse, base);
    PreviewRoundTrip(p2, isoformat, parse, base);
  }
}
