/** Origin selection and the upstream request of lambda_handler
    (aws/cloudfront-image-resize/lambda_handler.py:52-57, 103-134). */
module Origin {
  import opened Wrappers
  import opened Text
  import opened Headers

  /** One origin variant (`custom` or `s3`). An `s3` entry carries no protocol
      or port on the wire; for it those two fields are never read. */
  datatype OriginConfig = OriginConfig(
    domainName: Option<string>,    // None: the item has no 'domainName' key
    protocol: string,
    port: int,
    path: string,
    customHeaders: HeaderMultimap)

  datatype OriginEntry = OriginEntry(name: string, config: OriginConfig)

  /** `origin_request['origin']`: a dict, kept as its entries in iteration order. */
  type OriginDict = seq<OriginEntry>

  /** The request the handler sends upstream. */
  datatype Upstream = Upstream(url: string, headers: FlatHeaders)

  const CustomKey := "custom"
  const S3Key := "s3"
  const S3Protocol := "https"
  const S3Port := 443
  const AcceptEncoding := "accept-encoding"
  const Host := "host"

  /** `name in origin` and `origin[name]`: the first entry under that name. */
  function Find(origin: OriginDict, name: string): (r: Option<OriginConfig>)
    ensures r.None? <==> forall i :: 0 <= i < |origin| ==> origin[i].name != name
    ensures r.Some? ==> exists i :: 0 <= i < |origin| && origin[i] == OriginEntry(name, r.value)
  {
    if origin == [] then None
    else if origin[0].name == name then Some(origin[0].config)
    else
      var r := Find(origin[1..], name);
      assert r.Some? ==> origin[1..][0] == origin[1];
      r
  }

  /** `get_origin_domain`: the domainName of the first item, in iteration
      order, that has one; None when no item has one. */
  function GetOriginDomain(origin: OriginDict): (r: Option<string>)
    ensures r.None? <==> forall i :: 0 <= i < |origin| ==> origin[i].config.domainName.None?
    ensures r.Some? ==> exists i :: (0 <= i < |origin| && origin[i].config.domainName == r
                                     && forall j :: 0 <= j < i ==> origin[j].config.domainName.None?)
  {
    if origin == [] then None
    else if origin[0].config.domainName.Some? then origin[0].config.domainName
    else
      var r := GetOriginDomain(origin[1..]);
      assert r.Some? ==> exists i :: (1 <= i < |origin| && origin[i].config.domainName == r
                                      && forall j :: 0 <= j < i ==> origin[j].config.domainName.None?)
      by {
        if r.Some? {
          var i :| 0 <= i < |origin[1..]| && origin[1..][i].config.domainName == r
            && forall j :: 0 <= j < i ==> origin[1..][j].config.domainName.None?;
          assert forall j :: 0 <= j < i + 1 ==> origin[j].config.domainName.None? by {
            forall j | 0 <= j < i + 1 ensures origin[j].config.domainName.None? {
              if j > 0 { assert origin[j] == origin[1..][j - 1]; }
            }
          }
        }
      }
      r
  }

  /** `'?' + querystring` when there is a query string, otherwise nothing. */
  function QuerySuffix(qs: string): (r: string)
    ensures qs == [] <==> r == []
    ensures qs != [] ==> r[0] == '?' && r[1..] == qs
  {
    if |qs| > 0 then "?" + qs else ""
  }

  /** `'{0}://{1}:{2}{3}{4}{5}'.format(...)`: path and URI are joined with no separator. */
  function Url(protocol: string, domain: string, port: int, path: string, uri: string, qs: string): string {
    protocol + "://" + domain + ":" + IntToString(port) + path + uri + QuerySuffix(qs)
  }

  /** The caller's headers without `accept-encoding`, `host` set to the origin's
      domain, then the origin's custom headers laid over them. */
  function Forwarded(caller: FlatHeaders, domain: string, injected: FlatHeaders): (h: FlatHeaders)
    ensures h.Keys == (caller.Keys - {AcceptEncoding}) + {Host} + injected.Keys
    ensures forall k :: k in injected ==> h[k] == injected[k]
    ensures Host !in injected ==> h[Host] == Some(domain)
    ensures forall k :: k in caller && k != AcceptEncoding && k != Host && k !in injected ==> h[k] == caller[k]
    ensures AcceptEncoding in h ==> AcceptEncoding in injected
  {
    (caller - {AcceptEncoding})[Host := Some(domain)] + injected
  }

  /** The `custom` or `s3` branch once its variant is chosen: reading
      `domainName` raises KeyError when it is absent, and projecting the custom
      headers raises IndexError when one of them has no record. */
  function Variant(c: OriginConfig, protocol: string, port: int, caller: FlatHeaders,
                   uri: string, qs: string): Result<Upstream>
  {
    match c.domainName
    case None => Raise(KeyError)
    case Some(d) =>
      match FirstValues(c.customHeaders)
      case Raise(e) => Raise(e)
      case Ok(injected) => Ok(Upstream(Url(protocol, d, port, c.path, uri, qs), Forwarded(caller, d, injected)))
  }

  /** Lines 104-134: `custom` is looked up first, then `s3`; with neither the
      result is Ok(None), on which the handler returns the request untouched. */
  function Resolve(origin: OriginDict, caller: FlatHeaders, uri: string, qs: string): (r: Result<Option<Upstream>>)
    ensures r == Ok(None) <==> Find(origin, CustomKey).None? && Find(origin, S3Key).None?
    ensures r.Raise? ==> r.exc == KeyError || r.exc == IndexError
    ensures Find(origin, CustomKey).Some? ==>
      var c := Find(origin, CustomKey).value;
      && (r == Raise(KeyError) <==> c.domainName.None?)
      && (r == Raise(IndexError) <==> c.domainName.Some? && FirstValues(c.customHeaders).Raise?)
      && (r.Ok? ==> c.domainName.Some? && FirstValues(c.customHeaders).Ok?
                    && r.value == Some(Upstream(
                         Url(c.protocol, c.domainName.value, c.port, c.path, uri, qs),
                         Forwarded(caller, c.domainName.value, FirstValues(c.customHeaders).value))))
    ensures Find(origin, CustomKey).None? && Find(origin, S3Key).Some? ==>
      var c := Find(origin, S3Key).value;
      && (r == Raise(KeyError) <==> c.domainName.None?)
      && (r == Raise(IndexError) <==> c.domainName.Some? && FirstValues(c.customHeaders).Raise?)
      && (r.Ok? ==> c.domainName.Some? && FirstValues(c.customHeaders).Ok?
                    && r.value == Some(Upstream(
                         Url(S3Protocol, c.domainName.value, S3Port, c.path, uri, qs),
                         Forwarded(caller, c.domainName.value, FirstValues(c.customHeaders).value))))
  {
    match Find(origin, CustomKey)
    case Some(c) =>
      (match Variant(c, c.protocol, c.port, caller, uri, qs)
       case Raise(e) => Raise(e)
       case Ok(u) => Ok(Some(u)))
    case None =>
      match Find(origin, S3Key)
      case Some(c) =>
        (match Variant(c, S3Protocol, S3Port, caller, uri, qs)
         case Raise(e) => Raise(e)
         case Ok(u) => Ok(Some(u)))
      case None => Ok(None)
  }
}
