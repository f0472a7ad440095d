/**
 * MIME messages as the `email` package hands them to the core: a tree of entities
 * (section 5.1 of RFC 2046) walked depth first, the body-part choice of
 * `_extract_email_body`, the Subject decoding of `_decode_header`, and the parts a
 * composed draft is built from.
 */
module Mime {
  import opened Wrappers
  import opened Text

  type Byte = b: int | 0 <= b < 256
  type Bytes = seq<Byte>

  /**
   * One MIME entity. `contentType` is what `get_content_type()` reports (lower case,
   * `text/plain` by default); `disposition` is the raw Content-Disposition header.
   * A leaf carries its transfer-decoded payload (`get_payload(decode=True)`); a
   * container (a multipart or message/rfc822 entity) carries its sub-entities and no payload.
   */
  datatype Entity =
    | Leaf(contentType: string, disposition: Option<string>, payload: Bytes)
    | Container(contentType: string, disposition: Option<string>, parts: seq<Entity>)

  /** A parsed message: the two headers the core reads, and its top-level entity. */
  datatype Message = Message(subject: Option<string>, date: Option<string>, content: Entity)

  /** A piece of a decoded header, as `email.header.decode_header` returns it. */
  datatype Segment = Plain(text: string) | Encoded(octets: Bytes, charset: Option<string>)

  /**
   * The library routines the core delegates to: `bytes.decode('utf-8', errors='ignore')`
   * and the encoded-word splitting of `decode_header`, None when it raises.
   */
  datatype Codecs = Codecs(utf8: Bytes -> string, rfc2047: string -> Option<seq<Segment>>)

  /** `Message.walk()`: the entity itself, then each sub-entity's walk in order. */
  function Walk(e: Entity): (w: seq<Entity>)
    ensures |w| >= 1 && w[0] == e
    decreases e, 1
  {
    match e
    case Leaf(_, _, _) => [e]
    case Container(_, _, ps) => [e] + WalkAll(ps)
  }

  function WalkAll(es: seq<Entity>): seq<Entity>
    decreases es, 0
  {
    if es == [] then [] else Walk(es[0]) + WalkAll(es[1..])
  }

  /** `str(part.get("Content-Disposition") or "")`. */
  function DispositionText(e: Entity): string {
    e.disposition.GetOr("")
  }

  /** The test of the walk loop: plain text, not an attachment, non-empty payload. */
  predicate IsBodyPart(e: Entity) {
    && !Contains(DispositionText(e), "attachment")
    && e.contentType == "text/plain"
    && e.Leaf? && |e.payload| > 0
  }

  /** The payload of the first entity in `parts` that passes IsBodyPart. */
  function FirstBodyPayload(parts: seq<Entity>): Option<Bytes>
    decreases |parts|
  {
    if parts == [] then None
    else if IsBodyPart(parts[0]) then Some(parts[0].payload)
    else FirstBodyPayload(parts[1..])
  }

  /** Index form of FirstBodyPayload: the earliest body part, in both directions. */
  lemma {:induction false} FirstBodyPayloadIsFirst(parts: seq<Entity>)
    ensures FirstBodyPayload(parts).Some? <==> exists i :: 0 <= i < |parts| && IsBodyPart(parts[i])
    ensures FirstBodyPayload(parts).Some? ==>
      exists i :: 0 <= i < |parts| && IsBodyPart(parts[i]) &&
        FirstBodyPayload(parts) == Some(parts[i].payload) &&
        forall j :: 0 <= j < i ==> !IsBodyPart(parts[j])
    decreases |parts|
  {
    if parts != [] && !IsBodyPart(parts[0]) {
      FirstBodyPayloadIsFirst(parts[1..]);
      if FirstBodyPayload(parts[1..]).Some? {
        var i :| 0 <= i < |parts[1..]| && IsBodyPart(parts[1..][i]) &&
          FirstBodyPayload(parts[1..]) == Some(parts[1..][i].payload) &&
          forall j :: 0 <= j < i ==> !IsBodyPart(parts[1..][j]);
        assert IsBodyPart(parts[i + 1]);
      } else {
        forall i | 0 < i < |parts| ensures !IsBodyPart(parts[i]) {
          assert parts[i] == parts[1..][i - 1];
        }
      }
    }
  }

  /** What `_extract_email_body` returns for message content `m`. */
  function EmailBody(m: Entity, codecs: Codecs): string {
    if m.Container? then
      match FirstBodyPayload(Walk(m))
      case Some(p) => codecs.utf8(p)
      case None => ""
    else if |m.payload| > 0 then codecs.utf8(m.payload)
    else ""
  }

  /** `_extract_email_body`: the loop over `msg.walk()` with its early return. */
  method ExtractEmailBody(m: Entity, codecs: Codecs) returns (body: string)
    ensures body == EmailBody(m, codecs)
  {
    if m.Container? {
      var parts := Walk(m);
      var i := 0;
      while i < |parts|
        invariant 0 <= i <= |parts|
        invariant FirstBodyPayload(parts) == FirstBodyPayload(parts[i..])
      {
        var part := parts[i];
        assert parts[i..][1..] == parts[i + 1..];
        if !Contains(DispositionText(part), "attachment") && part.contentType == "text/plain" {
          if part.Leaf? && |part.payload| > 0 {
            return codecs.utf8(part.payload);
          }
        }
        i := i + 1;
      }
    } else if |m.payload| > 0 {
      return codecs.utf8(m.payload);
    }
    return "";
  }

  /** The body of a multipart message comes from its first body part, or is "". */
  lemma MultipartBodySource(m: Entity, codecs: Codecs)
    requires m.Container?
    ensures (exists i :: 0 <= i < |Walk(m)| && IsBodyPart(Walk(m)[i])) ==>
      exists i :: 0 <= i < |Walk(m)| && IsBodyPart(Walk(m)[i]) &&
        (forall j :: 0 <= j < i ==> !IsBodyPart(Walk(m)[j])) &&
        EmailBody(m, codecs) == codecs.utf8(Walk(m)[i].payload)
    ensures (forall i :: 0 <= i < |Walk(m)| ==> !IsBodyPart(Walk(m)[i])) ==> EmailBody(m, codecs) == ""
  {
    FirstBodyPayloadIsFirst(Walk(m));
  }

  /** `_decode_header`: "" for an absent or empty header, else the first segment only. */
  function DecodeHeader(header: Option<string>, codecs: Codecs): string {
    if !Truthy(header) then ""
    else
      match codecs.rfc2047(header.value)
      case None => ""
      case Some(segments) =>
        if segments == [] then ""
        else
          match segments[0]
          case Plain(t) => t
          case Encoded(b, _) => codecs.utf8(b)
  }

  /** Segments after the first never influence the decoded subject. */
  lemma DecodeHeaderFirstSegmentOnly(h: string, c1: Codecs, c2: Codecs)
    requires c1.utf8 == c2.utf8
    requires c1.rfc2047(h).Some? && c2.rfc2047(h).Some?
    requires |c1.rfc2047(h).value| > 0 && |c2.rfc2047(h).value| > 0
    requires c1.rfc2047(h).value[0] == c2.rfc2047(h).value[0]
    ensures DecodeHeader(Some(h), c1) == DecodeHeader(Some(h), c2)
  {
  }

  /** An encoded word is read as UTF-8 whatever charset it declares. */
  lemma DecodeHeaderIgnoresCharset(h: string, codecs: Codecs, b: Bytes, cs: Option<string>, rest: seq<Segment>)
    requires h != "" && codecs.rfc2047(h) == Some([Encoded(b, cs)] + rest)
    ensures DecodeHeader(Some(h), codecs) == codecs.utf8(b)
  {
  }

  // ---- parts of a composed message ----

  datatype Header = Header(name: string, value: string)

  /**
   * A part attached to a composed message: `MIMEText(text, subtype[, charset])` or
   * `MIMEImage(data)` with the headers added to it.
   */
  datatype Part =
    | TextPart(text: string, subtype: string, charset: Option<string>)
    | ImagePart(data: Bytes, subtype: string, extraHeaders: seq<Header>)

  /** A finished multipart message: the headers set on it and its parts, in order. */
  datatype Draft = Draft(headers: seq<Header>, parts: seq<Part>)
}
