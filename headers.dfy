/** CloudFront's header shape and `parse_headers`, which flattens it
    (aws/cloudfront-image-resize/lambda_handler.py:44-49). */
module Headers {
  import opened Wrappers

  /** One `{'key': ..., 'value': ...}` record. `key` is optional on the wire;
      `value` is None only where the handler stored Python's None into it. */
  datatype HeaderRecord = HeaderRecord(key: Option<string>, value: Option<string>)

  /** Lower-cased header name to its ordered list of records. */
  type HeaderMultimap = map<string, seq<HeaderRecord>>

  /** A flat `dict` of header name to value, as `parse_headers` builds it. */
  type FlatHeaders = map<string, Option<string>>

  predicate AllNonEmpty(m: HeaderMultimap) {
    forall k :: k in m ==> m[k] != []
  }

  /** What `parse_headers` computes: the first record's value under each key,
      or the IndexError that `[0]` raises on an empty record list. */
  function FirstValues(m: HeaderMultimap): Result<FlatHeaders> {
    if AllNonEmpty(m) then Ok(map k | k in m :: m[k][0].value) else Raise(IndexError)
  }

  /** The loop of `parse_headers`: it visits the keys one at a time and fills a
      fresh dictionary. The order in which Python visits keys does not change the
      outcome, which the contract states without reference to any order. */
  method ParseHeaders(m: HeaderMultimap) returns (r: Result<FlatHeaders>)
    ensures r.Ok? <==> AllNonEmpty(m)
    ensures r.Raise? ==> r.exc == IndexError
    ensures r.Ok? ==> r.value.Keys == m.Keys
    ensures r.Ok? ==> forall k :: k in m ==> r.value[k] == m[k][0].value
    ensures r == FirstValues(m)
  {
    var headers: FlatHeaders := map[];
    var todo := m.Keys;
    while todo != {}
      invariant todo <= m.Keys
      invariant headers.Keys == m.Keys - todo
      invariant forall k :: k in headers ==> m[k] != [] && headers[k] == m[k][0].value
      decreases todo
    {
      var k :| k in todo;
      if m[k] == [] {
        return Raise(IndexError);
      }
      headers := headers[k := m[k][0].value];
      todo := todo - {k};
    }
    assert headers == map k | k in m :: m[k][0].value;
    r := Ok(headers);
  }
}
