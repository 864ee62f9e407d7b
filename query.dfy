/** `get_size` and the exception-swallowing wrapper around it
    (aws/cloudfront-image-resize/lambda_handler.py:20-28, 97-100). */
module Query {
  import opened Wrappers
  import opened Text

  /** What `parse_qs` returns: each key with its list of values. */
  type ParsedQuery = map<string, seq<string>>

  /** The `(width, height)` pair; either side may be None. */
  datatype Size = Size(width: Option<int>, height: Option<int>)

  const WidthKey := "width"
  const HeightKey := "height"

  /** `key in query and len(query[key]) > 0`. */
  predicate Present(q: ParsedQuery, key: string) {
    key in q && |q[key]| > 0
  }

  /** `int(query[key][0])` when the key is present, None when it is not;
      ValueError when the first value is not an integer. */
  function FirstInt(q: ParsedQuery, key: string): Result<Option<int>> {
    if Present(q, key) then
      match ParseInt(q[key][0])
      case Some(v) => Ok(Some(v))
      case None => Raise(ValueError)
    else Ok(None)
  }

  predicate Malformed(q: ParsedQuery, key: string) {
    Present(q, key) && ParseInt(q[key][0]).None?
  }

  /** `get_size`: None when neither key is present; otherwise each side is the
      integer of that key's first value. */
  function GetSize(q: ParsedQuery): (r: Result<Option<Size>>)
    ensures r.Raise? <==> Malformed(q, WidthKey) || Malformed(q, HeightKey)
    ensures r.Raise? ==> r.exc == ValueError
    ensures r == Ok(None) <==> !Present(q, WidthKey) && !Present(q, HeightKey)
    ensures r.Ok? && r.value.Some? ==>
      var s := r.value.value;
      && (s.width.Some? || s.height.Some?)
      && (s.width.Some? <==> Present(q, WidthKey))
      && (s.height.Some? <==> Present(q, HeightKey))
      && (s.width.Some? ==> ParseInt(q[WidthKey][0]) == s.width)
      && (s.height.Some? ==> ParseInt(q[HeightKey][0]) == s.height)
  {
    match FirstInt(q, WidthKey)
    case Raise(e) => Raise(e)
    case Ok(width) =>
      match FirstInt(q, HeightKey)
      case Raise(e) => Raise(e)
      case Ok(height) =>
        Ok(if width.Some? || height.Some? then Some(Size(width, height)) else None)
  }

  /** Lines 97-100: the bare `except` turns any failure into "no size", so one
      malformed side discards the other side as well. */
  function SizeOrNone(q: ParsedQuery): (r: Option<Size>)
    ensures r.None? <==> (!Present(q, WidthKey) && !Present(q, HeightKey))
                         || Malformed(q, WidthKey) || Malformed(q, HeightKey)
    ensures r.Some? ==> r.value.width.Some? || r.value.height.Some?
    ensures r.Some? ==> ((r.value.width.Some? <==> Present(q, WidthKey))
                         && (r.value.height.Some? <==> Present(q, HeightKey)))
    ensures r.Some? && r.value.width.Some? ==> ParseInt(q[WidthKey][0]) == r.value.width
    ensures r.Some? && r.value.height.Some? ==> ParseInt(q[HeightKey][0]) == r.value.height
  {
    match GetSize(q)
    case Ok(s) => s
    case Raise(_) => None
  }

  /** Lines 35-36: the box passed to `thumbnail`; a side that was not asked
      for is the source image's own side. */
  function ThumbBox(size: Size, imageW: int, imageH: int): (box: (int, int))
    ensures size.width.None? ==> box.0 == imageW
    ensures size.height.None? ==> box.1 == imageH
    ensures size.width.Some? ==> box.0 == size.width.value
    ensures size.height.Some? ==> box.1 == size.height.value
  {
    (if size.width.Some? then size.width.value else imageW,
     if size.height.Some? then size.height.value else imageH)
  }
}
