/** The CloudFront origin-request handler `lambda_handler`
    (aws/cloudfront-image-resize/lambda_handler.py:31-41, 91-157). The network
    call, the image library, `parse_qs` and MD5 are parameters; every decision
    the handler takes around them is modelled. */
module Handler {
  import opened Wrappers
  import opened Text
  import opened Encoding
  import opened Headers
  import opened Origin
  import opened Query
  import opened Response

  /** `record['cf']['request']`: only `headers` is ever changed in place. */
  class OriginRequest {
    const httpMethod: string
    const uri: string
    const querystring: string
    const origin: OriginDict
    var headers: HeaderMultimap

    constructor (httpMethod: string, uri: string, querystring: string, headers: HeaderMultimap, origin: OriginDict)
      ensures this.httpMethod == httpMethod && this.uri == uri && this.querystring == querystring
      ensures this.headers == headers && this.origin == origin
    {
      this.httpMethod := httpMethod;
      this.uri := uri;
      this.querystring := querystring;
      this.headers := headers;
      this.origin := origin;
    }
  }

  /** One entry of `event['Records']`. `request` is null when the record has no
      'cf' key, no 'request' key, or a None request: the handler treats the three alike. */
  datatype CfRecord = CfRecord(request: OriginRequest?)

  /** The event. `records` is None when the 'Records' key is absent; a None or
      empty list is `Some([])`, since both are falsy. */
  datatype Event = Event(records: Option<seq<CfRecord>>)

  /** What `requests.get(url, headers=headers, timeout=30)` does. */
  datatype FetchOutcome =
    | TimedOut                        // requests.exceptions.Timeout
    | Failed                          // any other requests exception
    | Received(response: FetchedResponse)

  type Fetcher = (string, FlatHeaders) -> FetchOutcome

  /** The library calls the handler makes, left uninterpreted. */
  datatype Library = Library(
    parseQs: string -> ParsedQuery,                            // urllib.parse.parse_qs
    imageSize: seq<Byte> -> Result<(int, int)>,                // Image.open(...).size
    thumbnailPng: (seq<Byte>, int, int) -> Result<seq<Byte>>,  // thumbnail(box), then save as PNG
    md5: seq<Byte> -> seq<Byte>)                               // hashlib.md5(...).digest()

  /** What `lambda_handler` returns, or the exception that escapes it. */
  datatype Outcome =
    | ReturnsNone
    | ReturnsRequest(request: OriginRequest)
    | ReturnsResponse(envelope: Envelope)
    | Raises(exc: Exception)

  /** The handler's decision for a usable request, over values: respond with an
      envelope, hand the request back with these headers, or raise. */
  datatype Verdict =
    | Respond(envelope: Envelope)
    | PassThrough(headers: HeaderMultimap)
    | Fail(exc: Exception)

  const Get := "GET"

  /** The gate of line 102. The extension test is case-sensitive. */
  predicate Eligible(httpMethod: string, uri: string, size: Option<Size>) {
    && Upper(httpMethod) == Get
    && size.Some?
    && (EndsWith(uri, ".png") || EndsWith(uri, ".jpg") || EndsWith(uri, ".jpeg"))
  }

  /** Lines 152-153: when a `host` header exists, its first record's value
      becomes the first origin domain found (None if there is none). */
  function RewriteHost(headers: HeaderMultimap, domain: Option<string>): (r: Result<HeaderMultimap>)
    ensures Host !in headers ==> r == Ok(headers)
    ensures Host in headers && headers[Host] == [] ==> r == Raise(IndexError)
    ensures Host in headers && headers[Host] != [] ==>
      && r.Ok? && r.value.Keys == headers.Keys
      && (forall k :: k in headers && k != Host ==> r.value[k] == headers[k])
      && |r.value[Host]| == |headers[Host]|
      && r.value[Host][0] == HeaderRecord(headers[Host][0].key, domain)
      && r.value[Host][1..] == headers[Host][1..]
  {
    if Host !in headers then Ok(headers)
    else if headers[Host] == [] then Raise(IndexError)
    else
      var records := headers[Host];
      Ok(headers[Host := [records[0].(value := domain)] + records[1..]])
  }

  /** `resize_image`: the source size, the target box, then the thumbnail. */
  function ResizeImage(lib: Library, image: seq<Byte>, size: Size): Result<seq<Byte>> {
    match lib.imageSize(image)
    case Raise(e) => Raise(e)
    case Ok(wh) =>
      var box := ThumbBox(size, wh.0, wh.1);
      lib.thumbnailPng(image, box.0, box.1)
  }

  /** Lines 136-150: what the handler makes of the fetch. Only a timeout is
      caught; the content type is read only after the status test succeeded. */
  function Reply(fetched: FetchOutcome, size: Size, lib: Library): Result<Envelope> {
    match fetched
    case TimedOut => Ok(TimeoutEnvelope)
    case Failed => Raise(RequestError)
    case Received(resp) =>
      if resp.status != 200 then Ok(Envelop(resp, resp.content, false, lib.md5))
      else
        match HeaderValue(resp.headers, ContentTypeKey)
        case Raise(e) => Raise(e)
        case Ok(ct) =>
          if ct == PngType || ct == JpegType then
            match ResizeImage(lib, resp.content, size)
            case Raise(e) => Raise(e)
            case Ok(thumb) => Ok(Envelop(resp, thumb, true, lib.md5))
          else Ok(Envelop(resp, resp.content, false, lib.md5))
  }

  /** Lines 97-155 for a usable request whose headers are `headers`. */
  function Handle(req: OriginRequest, headers: HeaderMultimap, lib: Library, fetch: Fetcher): Verdict {
    var size := SizeOrNone(lib.parseQs(req.querystring));
    if Eligible(req.httpMethod, req.uri, size) then
      match FirstValues(headers)
      case Raise(e) => Fail(e)
      case Ok(flat) =>
        match Resolve(req.origin, flat, req.uri, req.querystring)
        case Raise(e) => Fail(e)
        case Ok(None) => PassThrough(headers)
        case Ok(Some(up)) =>
          match Reply(fetch(up.url, up.headers), size.value, lib)
          case Raise(e) => Fail(e)
          case Ok(env) => Respond(env)
    else
      match RewriteHost(headers, GetOriginDomain(req.origin))
      case Raise(e) => Fail(e)
      case Ok(h) => PassThrough(h)
  }

  /** Lines 92-94: only `Records[0]` is looked at. */
  function FirstRequest(event: Event): OriginRequest? {
    if event.records.Some? && |event.records.value| > 0 then event.records.value[0].request else null
  }

  function Touched(event: Event): set<OriginRequest> {
    if FirstRequest(event) != null then {FirstRequest(event)} else {}
  }

  /** `lambda_handler`. It changes nothing but the `host` header of the first
      record's request, and only on the pass-through branch; the request it
      returns is that same object. */
  method LambdaHandler(event: Event, lib: Library, fetch: Fetcher) returns (out: Outcome)
    modifies Touched(event)
    ensures event.records.None? ==> out == Raises(KeyError)
    ensures event.records.Some? && FirstRequest(event) == null ==> out == ReturnsNone
    ensures FirstRequest(event) != null ==>
      var req := FirstRequest(event);
      match Handle(req, old(req.headers), lib, fetch)
      case Respond(env) => out == ReturnsResponse(env) && req.headers == old(req.headers)
      case PassThrough(h) => out == ReturnsRequest(req) && req.headers == h
      case Fail(e) => out == Raises(e) && req.headers == old(req.headers)
  {
    if event.records.None? {
      return Raises(KeyError);
    }
    var records := event.records.value;
    if |records| == 0 || records[0].request == null {
      return ReturnsNone;
    }
    var req := records[0].request;
    var size := SizeOrNone(lib.parseQs(req.querystring));
    if Eligible(req.httpMethod, req.uri, size) {
      var flat := ParseHeaders(req.headers);
      if flat.Raise? {
        return Raises(flat.exc);
      }
      var resolved := Resolve(req.origin, flat.value, req.uri, req.querystring);
      if resolved.Raise? {
        return Raises(resolved.exc);
      }
      if resolved.value.None? {
        return ReturnsRequest(req);
      }
      var up := resolved.value.value;
      var fetched := fetch(up.url, up.headers);
      match fetched {
        case TimedOut =>
          out := ReturnsResponse(TimeoutEnvelope);
        case Failed =>
          out := Raises(RequestError);
        case Received(resp) =>
          if resp.status == 200 {
            var ct := HeaderValue(resp.headers, ContentTypeKey);
            if ct.Raise? {
              return Raises(ct.exc);
            }
            if ct.value == PngType || ct.value == JpegType {
              var thumb := ResizeImage(lib, resp.content, size.value);
              if thumb.Raise? {
                return Raises(thumb.exc);
              }
              var env := BuildResponse(resp, thumb.value, true, lib.md5);
              return ReturnsResponse(env);
            }
          }
          var env := BuildResponse(resp, resp.content, false, lib.md5);
          out := ReturnsResponse(env);
      }
    } else {
      if Host in req.headers {
        if req.headers[Host] == [] {
          return Raises(IndexError);
        }
        var records := req.headers[Host];
        req.headers := req.headers[Host := [records[0].(value := GetOriginDomain(req.origin))] + records[1..]];
      }
      out := ReturnsRequest(req);
    }
  }
  // ---------------------------------------------------------------- properties

  /** The upstream request the handler would send, if it gets that far. */
  function UpstreamOf(req: OriginRequest, headers: HeaderMultimap, lib: Library): Option<Upstream> {
    var size := SizeOrNone(lib.parseQs(req.querystring));
    if !Eligible(req.httpMethod, req.uri, size) || FirstValues(headers).Raise? then None
    else
      match Resolve(req.origin, FirstValues(headers).value, req.uri, req.querystring)
      case Ok(Some(up)) => Some(up)
      case _ => None
  }

  /** The network is consulted at most once, with the upstream URL and headers
      and nothing else: two fetchers that agree on that one call give the same
      verdict, and without an upstream request any two fetchers do. */
  lemma FetchOnlyUpstream(req: OriginRequest, headers: HeaderMultimap, lib: Library, f1: Fetcher, f2: Fetcher)
    requires UpstreamOf(req, headers, lib).Some? ==>
      var up := UpstreamOf(req, headers, lib).value; f1(up.url, up.headers) == f2(up.url, up.headers)
    ensures Handle(req, headers, lib, f1) == Handle(req, headers, lib, f2)
  {
  }

  /** A request that fails the gate is never fetched; it is handed back with
      only its `host` header's first value rewritten, if it has one. */
  lemma IneligiblePassesThrough(req: OriginRequest, headers: HeaderMultimap, lib: Library, fetch: Fetcher)
    requires !Eligible(req.httpMethod, req.uri, SizeOrNone(lib.parseQs(req.querystring)))
    ensures UpstreamOf(req, headers, lib).None?
    ensures Host !in headers ==> Handle(req, headers, lib, fetch) == PassThrough(headers)
    ensures Host in headers && headers[Host] == [] ==> Handle(req, headers, lib, fetch) == Fail(IndexError)
    ensures Host in headers && headers[Host] != [] ==>
      var v := Handle(req, headers, lib, fetch);
      && v.PassThrough? && v.headers.Keys == headers.Keys
      && (forall k :: k in headers && k != Host ==> v.headers[k] == headers[k])
      && v.headers[Host] == [headers[Host][0].(value := GetOriginDomain(req.origin))] + headers[Host][1..]
  {
  }

  /** An eligible request whose origin has neither a `custom` nor an `s3`
      variant is returned untouched, without the host rewrite. */
  lemma NoVariantUntouched(req: OriginRequest, headers: HeaderMultimap, lib: Library, fetch: Fetcher)
    requires Eligible(req.httpMethod, req.uri, SizeOrNone(lib.parseQs(req.querystring)))
    requires AllNonEmpty(headers)
    requires Find(req.origin, CustomKey).None? && Find(req.origin, S3Key).None?
    ensures Handle(req, headers, lib, fetch) == PassThrough(headers)
  {
  }

  /** The error paths of an eligible request: an empty record list among its
      own headers raises IndexError, an exception while resolving the origin
      propagates, and a fetch that fails other than by timing out is not
      caught. */
  lemma HandleErrors(req: OriginRequest, headers: HeaderMultimap, lib: Library, fetch: Fetcher)
    requires Eligible(req.httpMethod, req.uri, SizeOrNone(lib.parseQs(req.querystring)))
    ensures !AllNonEmpty(headers) ==> Handle(req, headers, lib, fetch) == Fail(IndexError)
    ensures AllNonEmpty(headers) && Resolve(req.origin, FirstValues(headers).value, req.uri, req.querystring).Raise? ==>
      Handle(req, headers, lib, fetch) == Fail(Resolve(req.origin, FirstValues(headers).value, req.uri, req.querystring).exc)
    ensures (UpstreamOf(req, headers, lib).Some? &&
             fetch(UpstreamOf(req, headers, lib).value.url, UpstreamOf(req, headers, lib).value.headers) == Failed) ==>
      Handle(req, headers, lib, fetch) == Fail(RequestError)
  {
  }

  /** A timeout gives the fixed 504 text envelope with no headers. */
  lemma TimeoutIsGatewayTimeout(req: OriginRequest, headers: HeaderMultimap, lib: Library, fetch: Fetcher)
    requires UpstreamOf(req, headers, lib).Some?
    requires var up := UpstreamOf(req, headers, lib).value; fetch(up.url, up.headers) == TimedOut
    ensures Handle(req, headers, lib, fetch) == Respond(TimeoutEnvelope)
    ensures TimeoutEnvelope.status == 504 && TimeoutEnvelope.bodyEncoding == "text" && TimeoutEnvelope.headers == map[]
  {
  }

  /** The response branch: only a 200 whose content type is exactly image/png or
      image/jpeg is resized, into the box where a missing side is the source
      side; anything else is relayed with its own bytes and no overrides; a 200
      without a content type raises KeyError. */
  lemma ResponseBranches(req: OriginRequest, headers: HeaderMultimap, lib: Library, fetch: Fetcher)
    requires UpstreamOf(req, headers, lib).Some?
    requires var up := UpstreamOf(req, headers, lib).value; fetch(up.url, up.headers).Received?
    ensures var up := UpstreamOf(req, headers, lib).value;
      var resp := fetch(up.url, up.headers).response;
      var size := SizeOrNone(lib.parseQs(req.querystring)).value;
      var ct := HeaderValue(resp.headers, ContentTypeKey);
      var v := Handle(req, headers, lib, fetch);
      && (resp.status != 200 ==> v == Respond(Envelop(resp, resp.content, false, lib.md5)))
      && (resp.status == 200 && ct.Raise? ==> v == Fail(KeyError))
      && (resp.status == 200 && ct.Ok? && ct.value != PngType && ct.value != JpegType ==>
            v == Respond(Envelop(resp, resp.content, false, lib.md5)))
      && (resp.status == 200 && ct.Ok? && (ct.value == PngType || ct.value == JpegType) ==>
            match lib.imageSize(resp.content)
            case Raise(e) => v == Fail(e)
            case Ok(wh) =>
              var box := ThumbBox(size, wh.0, wh.1);
              match lib.thumbnailPng(resp.content, box.0, box.1)
              case Raise(e) => v == Fail(e)
              case Ok(thumb) => v == Respond(Envelop(resp, thumb, true, lib.md5)))
  {
  }

  /** A resized answer carries the thumbnail bytes, an ETag that is the quoted
      hex MD5 of exactly those bytes, and the type image/png whatever the source was. */
  lemma ResizedEnvelope(resp: FetchedResponse, thumb: seq<Byte>, lib: Library)
    ensures var env := Envelop(resp, thumb, true, lib.md5);
      && Unbase64(env.body) == Some(thumb)
      && env.headers[ETagKey][0].value == Some(ETag(lib.md5(thumb)))
      && env.headers[ContentTypeKey][0].value == Some(PngType)
      && env.status == resp.status
  {
    EnvelopMeaning(resp, thumb, true, lib.md5);
  }

  /** A relayed answer carries the upstream bytes unchanged and no header that
      the upstream response did not have. */
  lemma RelayedEnvelope(resp: FetchedResponse, lib: Library)
    ensures var env := Envelop(resp, resp.content, false, lib.md5);
      && Unbase64(env.body) == Some(resp.content)
      && forall k :: k in env.headers ==>
           k in Whitelist && exists i :: 0 <= i < |resp.headers| && Lower(resp.headers[i].0) == k
  {
    EnvelopMeaning(resp, resp.content, false, lib.md5);
  }
}
