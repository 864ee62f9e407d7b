/** The response envelope of `build_response` and the fixed timeout envelope
    (aws/cloudfront-image-resize/lambda_handler.py:12-17, 60-88, 143-150). */
module Response {
  import opened Wrappers
  import opened Text
  import opened Encoding
  import opened Headers

  /** What `requests.get` returns: status, reason phrase, the headers in
      iteration order (matched without regard to case) and the body bytes. */
  datatype FetchedResponse = FetchedResponse(
    status: int, reason: string, headers: seq<(string, string)>, content: seq<Byte>)

  /** The dictionary handed back to CloudFront in place of the request. */
  datatype Envelope = Envelope(
    bodyEncoding: string, body: string, status: int, statusDescription: string, headers: HeaderMultimap)

  const Whitelist: seq<string> := ["last-modified", "cache-control", "content-type", "etag"]
  const ETagKey := "etag"
  const ContentTypeKey := "content-type"
  const PngType := "image/png"
  const JpegType := "image/jpeg"

  /** The envelope of lines 144-150. */
  const TimeoutEnvelope := Envelope("text", "Gateway Timed Out", 504, "Gateway Timeout", map[])

  /** `'"{0}"'.format(hexdigest)`: the quoted hex form of a digest. */
  function ETag(digest: seq<Byte>): (e: string)
    ensures |e| == 2 * |digest| + 2
    ensures e[0] == '"' && e[|e| - 1] == '"' && IsHexText(e[1..|e| - 1])
  {
    var e := "\"" + Hex(digest) + "\"";
    assert e[1..|e| - 1] == Hex(digest);
    e
  }

  /** Different digests never share an ETag. */
  lemma ETagInjective(d1: seq<Byte>, d2: seq<Byte>)
    ensures ETag(d1) == ETag(d2) ==> d1 == d2
  {
    if ETag(d1) == ETag(d2) {
      var e1, e2 := ETag(d1), ETag(d2);
      assert e1[1..|e1| - 1] == Hex(d1);
      assert e2[1..|e2| - 1] == Hex(d2);
      HexRoundTrip(d1);
      HexRoundTrip(d2);
    }
  }

  /** The headers whose lower-cased names are in `allowed` (the whitelist)
      after the loop of lines 66-70 has seen `hs`: each kept under its
      lower-cased name, a later header replacing an earlier one. */
  function Kept(hs: seq<(string, string)>, allowed: seq<string>): HeaderMultimap {
    if hs == [] then map[]
    else
      var last := hs[|hs| - 1];
      var name := Lower(last.0);
      if name in allowed then Kept(hs[..|hs| - 1], allowed)[name := [HeaderRecord(None, Some(last.1))]]
      else Kept(hs[..|hs| - 1], allowed)
  }

  /** `hs[i]` is the last header whose lower-cased name is `name`. */
  predicate LastNamed(hs: seq<(string, string)>, name: string, i: int) {
    0 <= i < |hs| && Lower(hs[i].0) == name && forall j :: i < j < |hs| ==> Lower(hs[j].0) != name
  }

  /** A name survives iff it is allowed and some header carries it. */
  lemma {:induction false} KeptNames(hs: seq<(string, string)>, allowed: seq<string>, name: string)
    ensures name in Kept(hs, allowed) <==> name in allowed && exists i :: 0 <= i < |hs| && Lower(hs[i].0) == name
    decreases |hs|
  {
    if hs != [] {
      var init := hs[..|hs| - 1];
      KeptNames(init, allowed, name);
      if Lower(hs[|hs| - 1].0) != name {
        assert (exists i :: 0 <= i < |hs| && Lower(hs[i].0) == name)
          ==> exists i :: 0 <= i < |init| && Lower(init[i].0) == name;
      }
    }
  }

  /** A name that survives holds the value of the last header carrying it. */
  lemma {:induction false} KeptAt(hs: seq<(string, string)>, allowed: seq<string>, name: string)
    ensures name in Kept(hs, allowed) ==> exists i :: LastNamed(hs, name, i) && Kept(hs, allowed)[name] == [HeaderRecord(None, Some(hs[i].1))]
    decreases |hs|
  {
    if hs != [] && name in Kept(hs, allowed) {
      var init := hs[..|hs| - 1];
      var last := |hs| - 1;
      if Lower(hs[last].0) == name {
        KeptNames(hs, allowed, name);
        assert LastNamed(hs, name, last);
      } else {
        KeptInit(hs, allowed, name);
        KeptAt(init, allowed, name);
        var i :| LastNamed(init, name, i) && Kept(init, allowed)[name] == [HeaderRecord(None, Some(init[i].1))];
        LastNamedExtend(hs, name, i);
      }
    }
  }

  /** A last header of another name leaves the entry for `name` as it was. */
  lemma KeptInit(hs: seq<(string, string)>, allowed: seq<string>, name: string)
    requires hs != [] && Lower(hs[|hs| - 1].0) != name
    ensures name in Kept(hs, allowed) <==> name in Kept(hs[..|hs| - 1], allowed)
    ensures name in Kept(hs, allowed) ==> Kept(hs, allowed)[name] == Kept(hs[..|hs| - 1], allowed)[name]
  {
    var key := Lower(hs[|hs| - 1].0);
    if key in allowed {
      var init, v := Kept(hs[..|hs| - 1], allowed), [HeaderRecord(None, Some(hs[|hs| - 1].1))];
      assert Kept(hs, allowed) == init[key := v];
      assert name in init[key := v] <==> name in init;
    }
  }

  /** The last header named `name` stays the last one when a header of
      another name follows. */
  lemma LastNamedExtend(hs: seq<(string, string)>, name: string, i: int)
    requires hs != [] && Lower(hs[|hs| - 1].0) != name && LastNamed(hs[..|hs| - 1], name, i)
    ensures LastNamed(hs, name, i) && hs[i] == hs[..|hs| - 1][i]
  {
  }

  /** `build_response`, as a function of the response, the body to send and the
      success flag. `digest` stands for `hashlib.md5(...).digest()`. */
  function Envelop(resp: FetchedResponse, content: seq<Byte>, success: bool,
                   digest: seq<Byte> -> seq<Byte>): Envelope
  {
    var kept := Kept(resp.headers, Whitelist);
    var headers :=
      if success then
        kept[ETagKey := [HeaderRecord(Some("ETag"), Some(ETag(digest(content))))]]
            [ContentTypeKey := [HeaderRecord(Some("Content-Type"), Some(PngType))]]
      else kept;
    Envelope("base64", Base64(content), resp.status, resp.reason, headers)
  }

  /** What the envelope holds: the body base64-encoded, status and reason
      copied, only whitelisted headers under lower-cased names with the value of
      the last header of that name, and on success the ETag and Content-Type
      overrides. */
  lemma EnvelopMeaning(resp: FetchedResponse, content: seq<Byte>, success: bool, digest: seq<Byte> -> seq<Byte>)
    ensures var env := Envelop(resp, content, success, digest);
      && env.bodyEncoding == "base64" && Unbase64(env.body) == Some(content)
      && env.status == resp.status && env.statusDescription == resp.reason
      && (forall k :: k in env.headers ==> k in Whitelist)
      && (success ==> ETagKey in env.headers
                      && env.headers[ETagKey] == [HeaderRecord(Some("ETag"), Some(ETag(digest(content))))])
      && (success ==> ContentTypeKey in env.headers
                      && env.headers[ContentTypeKey] == [HeaderRecord(Some("Content-Type"), Some(PngType))])
      && (forall k :: k in Whitelist && (!success || (k != ETagKey && k != ContentTypeKey)) ==>
            (k in env.headers <==> exists i :: 0 <= i < |resp.headers| && Lower(resp.headers[i].0) == k))
      && (forall k :: k in env.headers && (!success || (k != ETagKey && k != ContentTypeKey)) ==>
            exists i :: LastNamed(resp.headers, k, i)
                        && env.headers[k] == [HeaderRecord(None, Some(resp.headers[i].1))])
  {
    var env := Envelop(resp, content, success, digest);
    var kept := Kept(resp.headers, Whitelist);
    assert forall k :: k in env.headers && (!success || (k != ETagKey && k != ContentTypeKey)) ==>
      k in kept && env.headers[k] == kept[k];
    assert forall k :: k in Whitelist && (!success || (k != ETagKey && k != ContentTypeKey)) ==>
      (k in env.headers <==> k in kept);
    forall k | k in Whitelist || k in kept
      ensures k in kept <==> k in Whitelist && exists i :: 0 <= i < |resp.headers| && Lower(resp.headers[i].0) == k
      ensures k in kept ==> exists i :: LastNamed(resp.headers, k, i) && kept[k] == [HeaderRecord(None, Some(resp.headers[i].1))]
    {
      KeptNames(resp.headers, Whitelist, k);
      KeptAt(resp.headers, Whitelist, k);
    }
    Base64RoundTrip(content);
  }

  /** The loop of `build_response`, which fills a fresh dictionary header by
      header, then the success overrides and the envelope. */
  method BuildResponse(resp: FetchedResponse, content: seq<Byte>, success: bool,
                       digest: seq<Byte> -> seq<Byte>) returns (env: Envelope)
    ensures env == Envelop(resp, content, success, digest)
  {
    var body := Base64(content);
    var headers: HeaderMultimap := map[];
    for i := 0 to |resp.headers|
      invariant headers == Kept(resp.headers[..i], Whitelist)
    {
      var (k, v) := resp.headers[i];
      assert resp.headers[..i + 1][..i] == resp.headers[..i];
      if Lower(k) in Whitelist {
        headers := headers[Lower(k) := [HeaderRecord(None, Some(v))]];
      }
    }
    assert resp.headers[..|resp.headers|] == resp.headers;
    if success {
      headers := headers[ETagKey := [HeaderRecord(Some("ETag"), Some(ETag(digest(content))))]];
      headers := headers[ContentTypeKey := [HeaderRecord(Some("Content-Type"), Some(PngType))]];
    }
    env := Envelope("base64", body, resp.status, resp.reason, headers);
  }

  /** `response.headers[name]` on requests' case-insensitive dictionary: the
      last header whose lower-cased name matches, or KeyError. */
  function HeaderValue(hs: seq<(string, string)>, name: string): (r: Result<string>)
    ensures r.Raise? <==> forall i :: 0 <= i < |hs| ==> Lower(hs[i].0) != name
    ensures r.Raise? ==> r.exc == KeyError
    ensures r.Ok? ==> exists i :: LastNamed(hs, name, i) && r.value == hs[i].1
  {
    if hs == [] then Raise(KeyError)
    else if Lower(hs[|hs| - 1].0) == name then
      assert LastNamed(hs, name, |hs| - 1);
      Ok(hs[|hs| - 1].1)
    else
      var r := HeaderValue(hs[..|hs| - 1], name);
      assert r.Ok? ==> exists i :: LastNamed(hs, name, i) && r.value == hs[i].1 by {
        if r.Ok? {
          var i :| LastNamed(hs[..|hs| - 1], name, i) && r.value == hs[..|hs| - 1][i].1;
          LastNamedExtend(hs, name, i);
        }
      }
      assert r.Raise? ==> forall i :: 0 <= i < |hs| ==> Lower(hs[i].0) != name by {
        if r.Raise? {
          forall i | 0 <= i < |hs| ensures Lower(hs[i].0) != name {
            if i < |hs| - 1 { assert hs[i] == hs[..|hs| - 1][i]; }
          }
        }
      }
      r
  }
}
