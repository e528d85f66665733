/**
 * `_get_multipart_request_body`: the checks the storage Lambda makes around
 * the multipart library, and the loop that collects the named parts into a
 * dictionary. The library calls themselves (base64 decoding, UTF-8 encoding,
 * header option parsing, the multipart parser) are parameters. Base64
 * decoding, header option parsing and the multipart parser return `None`
 * where the real call raises; UTF-8 encoding is total, since encoding a
 * Python `str` raises only on a lone surrogate, which `seq<char>` cannot hold.
 */
module MultipartRequest {
  import opened Strings
  import opened OrderedParts

  /** One part as the multipart parser yields it: its field name ("" when it has none) and raw bytes. */
  datatype Part = Part(name: string, raw: Bytes)

  /**
   * The fields of the API Gateway event the parser reads. A missing body is
   * the empty string; a missing `content-type` header is the empty string.
   */
  datatype Event = Event(body: string, contentType: string, isBase64Encoded: bool)

  /** The library calls the parser relies on. */
  datatype Codecs = Codecs(
    base64Decode: string -> Option<Bytes>,
    utf8Encode: string -> Bytes,
    headerOptions: string -> Option<map<string, string>>,
    parseParts: (Bytes, Bytes) -> Option<seq<Part>>)

  /** The `MultipartParsingError`s the parser raises, in the order it checks for them. */
  datatype ParseError = NotMultipart | BadBase64 | BadContentType | BadMultipart | MissingDocument

  datatype Result<+T, +E> = Success(value: T) | Failure(error: E)

  /** The status code every `MultipartParsingError` carries. */
  const BadRequest: int := 400

  /** The message of each error, as returned in the `error` field of the 400 response. */
  function Message(e: ParseError): string {
    match e
    case NotMultipart => "Request must be multipart/form-data"
    case BadBase64 => "Failed to decode base64 request body"
    case BadContentType => "Invalid Content-Type header"
    case BadMultipart => "Failed to parse multipart form-data"
    case MissingDocument => "Missing required 'document' part"
  }

  /** The client can tell every error from every other by its message. */
  lemma MessagesDistinct(e1: ParseError, e2: ParseError)
    requires e1 != e2
    ensures Message(e1) != Message(e2)
  {
    match e1
    case NotMultipart => assert Message(e1)[0] == 'R';
    case BadBase64 => assert Message(e1)[10] == 'd';
    case BadContentType => assert Message(e1)[0] == 'I';
    case BadMultipart => assert Message(e1)[10] == 'p';
    case MissingDocument => assert Message(e1)[0] == 'M';
  }

  /** The first check: a non-empty body and a header naming `multipart/form-data`. */
  predicate LooksMultipart(event: Event) {
    event.body != [] && Contains(event.contentType, "multipart/form-data")
  }

  /** The body as bytes: base64-decoded when the event says so, UTF-8 encoded otherwise. */
  function BodyBytes(event: Event, codecs: Codecs): Option<Bytes> {
    if event.isBase64Encoded then codecs.base64Decode(event.body)
    else Some(codecs.utf8Encode(event.body))
  }

  /**
   * The `boundary` option of the header; `None` when the header does not
   * parse or has no non-empty boundary. (Both raise inside the same `try`,
   * so both surface as "Invalid Content-Type header".)
   */
  function Boundary(contentType: string, codecs: Codecs): Option<string> {
    match codecs.headerOptions(contentType)
    case None => None
    case Some(options) =>
      if "boundary" in options && options["boundary"] != "" then Some(options["boundary"]) else None
  }

  /** The non-empty names among `ps`. */
  function Names(ps: seq<Part>): set<string> {
    set i | 0 <= i < |ps| && ps[i].name != "" :: ps[i].name
  }

  /** The bytes of the last part of `ps` called `n`. */
  function LastRaw(ps: seq<Part>, n: string): Bytes
    requires n in Names(ps)
  {
    var last := ps[|ps| - 1];
    if last.name == n then last.raw
    else
      assert n in Names(ps[..|ps| - 1]) by {
        var i :| 0 <= i < |ps| && ps[i].name != "" && ps[i].name == n;
        assert ps[..|ps| - 1][i] == ps[i];
      }
      LastRaw(ps[..|ps| - 1], n)
  }

  /**
   * What the collecting loop builds from the parts `ps`: exactly their
   * non-empty names, each once, listed in order of first appearance, each
   * holding the bytes of the last part of that name.
   */
  ghost predicate Collected(ps: seq<Part>, d: Parts) {
    && d.Valid()
    && (forall n :: n in d.content <==> n in Names(ps))
    && (forall n :: n in d.content ==> d.content[n] == LastRaw(ps, n))
    && (forall a, b, j :: 0 <= a < b < |d.names| && 0 <= j <= |ps| && d.names[b] in Names(ps[..j]) ==>
          d.names[a] in Names(ps[..j]))
  }

  /** The loop over the parser's parts: each named part is stored under its name, unnamed ones are skipped. */
  method CollectParts(ps: seq<Part>) returns (parsed: Parts, documentFound: bool)
    ensures Collected(ps, parsed)
    ensures "" !in parsed.content
    ensures documentFound <==> "document" in Names(ps)
  {
    parsed := Empty();
    documentFound := false;
    for i := 0 to |ps|
      invariant Collected(ps[..i], parsed)
      invariant documentFound <==> "document" in Names(ps[..i])
    {
      NamesStep(ps, i);
      if ps[i].name != "" {
        ghost var before := parsed;
        parsed := Set(parsed, ps[i].name, ps[i].raw);
        CollectStep(ps, i, before, parsed);
        if ps[i].name == "document" {
          documentFound := true;
        }
      } else {
        CollectSkip(ps, i, parsed);
      }
    }
    assert ps[..|ps|] == ps;
  }

  lemma NamesStep(ps: seq<Part>, i: nat)
    requires i < |ps|
    ensures Names(ps[..i + 1]) == Names(ps[..i]) + (if ps[i].name != "" then {ps[i].name} else {})
  {
    var pre, next := ps[..i], ps[..i + 1];
    assert forall j :: 0 <= j < i ==> next[j] == pre[j];
    assert next[i] == ps[i];
    forall n | n in Names(next) ensures n in Names(pre) || (ps[i].name != "" && n == ps[i].name) {
      var j :| 0 <= j < |next| && next[j].name != "" && next[j].name == n;
      if j < i { assert pre[j].name == n; }
    }
  }

  lemma LastRawStep(ps: seq<Part>, i: nat, n: string)
    requires i < |ps| && n in Names(ps[..i + 1])
    ensures LastRaw(ps[..i + 1], n) == if ps[i].name == n then ps[i].raw else LastRaw(ps[..i], n)
  {
    assert ps[..i + 1][..i] == ps[..i];
  }

  /** A named part: its name goes to the end if new, and its bytes replace the old ones. */
  lemma CollectStep(ps: seq<Part>, i: nat, before: Parts, after: Parts)
    requires i < |ps| && ps[i].name != ""
    requires Collected(ps[..i], before)
    requires after == Set(before, ps[i].name, ps[i].raw)
    requires Names(ps[..i + 1]) == Names(ps[..i]) + {ps[i].name}
    ensures Collected(ps[..i + 1], after)
  {
    var next := ps[..i + 1];
    forall m | m in after.content ensures after.content[m] == LastRaw(next, m) {
      LastRawStep(ps, i, m);
    }
    CollectStepOrder(ps, i, before, after, next);
  }

  lemma CollectStepOrder(ps: seq<Part>, i: nat, before: Parts, after: Parts, next: seq<Part>)
    requires i < |ps| && ps[i].name != "" && next == ps[..i + 1]
    requires Collected(ps[..i], before)
    requires after == Set(before, ps[i].name, ps[i].raw)
    requires Names(ps[..i + 1]) == Names(ps[..i]) + {ps[i].name}
    ensures forall a, b, j :: 0 <= a < b < |after.names| && 0 <= j <= |next| && after.names[b] in Names(next[..j]) ==>
          after.names[a] in Names(next[..j])
  {
    var pre := ps[..i];
    forall a, b, j | 0 <= a < b < |after.names| && 0 <= j <= i + 1 && after.names[b] in Names(next[..j])
      ensures after.names[a] in Names(next[..j])
    {
      assert next[..j] == ps[..j];
      if j == i + 1 {
        assert after.names[a] in after.content;
      } else {
        // a name first seen at position i is in no shorter prefix
        assert pre[..j] == ps[..j];
      }
    }
  }

  /** An unnamed part changes nothing. */
  lemma CollectSkip(ps: seq<Part>, i: nat, d: Parts)
    requires i < |ps| && ps[i].name == ""
    requires Collected(ps[..i], d)
    requires Names(ps[..i + 1]) == Names(ps[..i])
    ensures Collected(ps[..i + 1], d)
  {
    var next := ps[..i + 1];
    forall m | m in d.content ensures d.content[m] == LastRaw(next, m) {
      LastRawStep(ps, i, m);
    }
    forall a, b, j | 0 <= a < b < |d.names| && 0 <= j <= i + 1 && d.names[b] in Names(next[..j])
      ensures d.names[a] in Names(next[..j])
    {
      assert next[..j] == ps[..j];
      if j == i + 1 {
        assert d.names[a] in d.content;
      } else {
        assert ps[..i][..j] == ps[..j];
      }
    }
  }

  /** The parser's parts, when every check before the collecting loop passes. */
  function PartsOf(event: Event, codecs: Codecs): Option<seq<Part>> {
    if !LooksMultipart(event) then None
    else
      match BodyBytes(event, codecs)
      case None => None
      case Some(body) =>
        match Boundary(event.contentType, codecs)
        case None => None
        case Some(boundary) => codecs.parseParts(codecs.utf8Encode(boundary), body)
  }

  /** The request passes every check, the presence of a `document` field included. */
  predicate Accepted(event: Event, codecs: Codecs)
    ensures Accepted(event, codecs) ==>
      LooksMultipart(event) && BodyBytes(event, codecs).Some? && Boundary(event.contentType, codecs).Some?
  {
    PartsOf(event, codecs).Some? && "document" in Names(PartsOf(event, codecs).value)
  }

  /** The error of a rejected request: the first check that fails, in the order the handler makes them. */
  function Rejection(event: Event, codecs: Codecs): (e: ParseError)
    requires !Accepted(event, codecs)
    ensures e == NotMultipart <==> !LooksMultipart(event)
    ensures e == BadBase64 <==> LooksMultipart(event) && BodyBytes(event, codecs).None?
    ensures e == BadContentType <==>
      LooksMultipart(event) && BodyBytes(event, codecs).Some? && Boundary(event.contentType, codecs).None?
    ensures e == BadMultipart <==>
      && LooksMultipart(event) && BodyBytes(event, codecs).Some? && Boundary(event.contentType, codecs).Some?
      && PartsOf(event, codecs).None?
    ensures e == MissingDocument <==> PartsOf(event, codecs).Some?
    // every check before the failing one passed
    ensures e != NotMultipart ==> LooksMultipart(event)
    ensures e != NotMultipart && e != BadBase64 ==> BodyBytes(event, codecs).Some?
    ensures e == BadMultipart || e == MissingDocument ==> Boundary(event.contentType, codecs).Some?
  {
    if !LooksMultipart(event) then NotMultipart
    else if BodyBytes(event, codecs).None? then BadBase64
    else if Boundary(event.contentType, codecs).None? then BadContentType
    else if PartsOf(event, codecs).None? then BadMultipart
    else MissingDocument
  }

  /**
   * `_get_multipart_request_body`: the checks in the order the handler makes
   * them, each failing with its own error, then the collected parts.
   */
  method ParseRequest(event: Event, codecs: Codecs) returns (r: Result<Parts, ParseError>)
    ensures r.Success? <==> Accepted(event, codecs)
    ensures r.Failure? ==> r.error == Rejection(event, codecs)
    ensures r.Success? ==> Collected(PartsOf(event, codecs).value, r.value)
    ensures r.Success? ==> "document" in r.value.content && "" !in r.value.content
  {
    if event.body == [] || !Contains(event.contentType, "multipart/form-data") {
      return Failure(NotMultipart);
    }
    var body: Bytes;
    if event.isBase64Encoded {
      var decoded := codecs.base64Decode(event.body);
      if decoded.None? {
        return Failure(BadBase64);
      }
      body := decoded.value;
    } else {
      body := codecs.utf8Encode(event.body);
    }
    var options := codecs.headerOptions(event.contentType);
    if options.None? || "boundary" !in options.value || options.value["boundary"] == "" {
      return Failure(BadContentType);
    }
    var boundary := options.value["boundary"];
    var parts := codecs.parseParts(codecs.utf8Encode(boundary), body);
    if parts.None? {
      return Failure(BadMultipart);
    }
    var parsed, documentFound := CollectParts(parts.value);
    if !documentFound {
      return Failure(MissingDocument);
    }
    return Success(parsed);
  }
}
