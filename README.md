# Image edge handler and drone tile scripts, modelled in Dafny

This project models three small programs from one repository and proves
properties of the models.

- **`aws/cloudfront-image-resize/lambda_handler.py`** is a CloudFront
  origin-request handler. It takes the first record of the event. It reads
  the requested size from the query string and checks the method and the
  file extension. Then:
  - an eligible request is sent to the configured origin (`custom` or `s3`).
    A 200 PNG or JPEG answer is resized to a PNG thumbnail and returned as a
    base64 envelope. Any other answer is relayed as a base64 envelope, and a
    timeout gives a fixed 504 envelope. When the origin has neither variant,
    the request is returned unchanged;
  - a request that fails the method, size or extension gate is handed back.
    The first value of its `host` header, if it has one, is set to the first
    origin `domainName`, or to None when no origin item has one.
- **`drone/tms2xyz.py`** renames every tile `z/x/y.png` to
  `z/x/(2^z - y - 1).png`. This turns bottom-origin (TMS) rows into
  top-origin (XYZ) rows.
- **`drone/clean-tiles/program.py`** collects every `.png` file three levels
  below a directory. It ORs every pixel of each tile into a four-slot
  accumulator and removes the tile when the alpha slot stays zero.

Modules, one file each:
- `Wrappers`: `Option`, `Result`, the Python exceptions the code can raise, bytes.
- `Text`: ASCII case mapping, `endswith`, decimal formatting and `int()` parsing.
- `Encoding`: hex digest text, and base64 as in section 4 of RFC 4648.
- `Headers`, `Query`, `Origin`, `Response`, `Handler`: the handler.
- `Fs`: a directory tree and POSIX `os.rename`.
- `TmsToXyz`: the rename script.
- `CleanTiles`: the tile cleaner.

How each part is modelled:
- **Request object.** The handler changes the request dictionary in place
  and returns that same object, so it is a class. Only its `headers` field
  can change.
- **Loops that fill dictionaries.** `parse_headers`, the header loop of
  `build_response`, the rename loops and the collection loops are methods
  with loop invariants. Each is proved equal to a function that specifies it.
- **Accumulator.** The four-slot accumulator of `process_file` is an array
  that the pixel loop updates in place.
- **Calls the model does not look inside.** `requests.get`, PIL, `parse_qs`,
  MD5, `mp.cpu_count()` and path lookup are parameters of the model.

## Model

| member | source | states |
|---|---|---|
| Query.GetSize | aws/cloudfront-image-resize/lambda_handler.py:20-28 | ValueError exactly when a present `width` or `height` has a first value that is not an integer. None exactly when neither key has a value. Otherwise each side is present iff its key is, equals the integer of that key's first value, and at least one side is present. |
| Query.SizeOrNone | aws/cloudfront-image-resize/lambda_handler.py:97-100 | The size is None iff neither key is present or either one is malformed, so one bad side discards the other. Otherwise it is the same pair as `get_size`. |
| Query.ThumbBox | aws/cloudfront-image-resize/lambda_handler.py:34-36 | A side that was not requested is the source image's side. A requested side is the requested value. |
| Headers.ParseHeaders | aws/cloudfront-image-resize/lambda_handler.py:44-49 | Succeeds iff no key has an empty record list, otherwise IndexError. The result has exactly the input's keys, each bound to the `value` of its first record. The visiting order does not matter. |
| Origin.Find | aws/cloudfront-image-resize/lambda_handler.py:109-121 | `name in origin` is false iff no entry has that name. Otherwise the result is the config of an entry with that name. |
| Origin.GetOriginDomain | aws/cloudfront-image-resize/lambda_handler.py:52-57 | None iff no item has a domainName. Otherwise the result is the domainName of the first item, in iteration order, that has one. |
| Origin.QuerySuffix | aws/cloudfront-image-resize/lambda_handler.py:104 | Empty iff the query string is empty. Otherwise it is `?` followed by the query string. |
| Origin.Forwarded | aws/cloudfront-image-resize/lambda_handler.py:106-112 | The keys are the caller's keys minus `accept-encoding`, plus `host`, plus the origin's custom headers. Custom headers win. `host` is the domain unless a custom header overrides it. Other caller headers are unchanged. `accept-encoding` survives only as a custom header. |
| Origin.Resolve | aws/cloudfront-image-resize/lambda_handler.py:109-134 | Returns "no upstream" iff neither `custom` nor `s3` exists, and `custom` is preferred. KeyError iff the chosen variant has no domainName. IndexError iff it has one but one of its custom headers has an empty record list. Otherwise the URL is `protocol://domain:port` + path + uri + query suffix, with `https` and 443 forced for `s3`, and the headers are as Forwarded builds them. |
| Response.ETag | aws/cloudfront-image-resize/lambda_handler.py:62 | The ETag is the digest's lower-case hex text between double quotes, two characters per byte. |
| Response.ETagInjective | aws/cloudfront-image-resize/lambda_handler.py:62 | Two digests with the same ETag are equal. |
| Response.KeptNames | aws/cloudfront-image-resize/lambda_handler.py:65-70 | A name is kept iff it is whitelisted and some response header has it when lower-cased. |
| Response.KeptAt | aws/cloudfront-image-resize/lambda_handler.py:65-70 | A kept name holds the value of the last response header that has it. |
| Response.EnvelopMeaning | aws/cloudfront-image-resize/lambda_handler.py:60-88 | bodyEncoding is `base64`, and the body decodes back to the content. Status and reason are copied. Only whitelisted headers appear, each with the last upstream value of that name. On success `etag` is the quoted MD5 hex of the content and `content-type` is image/png, replacing upstream values. |
| Response.Envelop | aws/cloudfront-image-resize/lambda_handler.py:60-88 | The envelope `build_response` returns. What it holds is stated by EnvelopMeaning: the base64 body that decodes back, the copied status and reason, the whitelisted last-value headers and the success overrides. |
| Response.BuildResponse | aws/cloudfront-image-resize/lambda_handler.py:60-88 | The loop that fills the header dictionary yields exactly the envelope EnvelopMeaning describes. |
| Response.HeaderValue | aws/cloudfront-image-resize/lambda_handler.py:138 | A case-insensitive lookup of a response header. It gives KeyError iff no header has the name, otherwise the value of the last header that has it. |
| Handler.RewriteHost | aws/cloudfront-image-resize/lambda_handler.py:151-153 | Without a `host` header nothing changes. With an empty `host` list the result is IndexError. Otherwise only the first `host` record's value changes, to the origin domain; every other key and record is unchanged. |
| Handler.LambdaHandler | aws/cloudfront-image-resize/lambda_handler.py:91-157 | A missing `Records` key raises KeyError. An empty list or a record without a request returns None. Otherwise the result and the request's new headers are those of the decision over `Records[0]`. The request object is changed only on pass-through and is returned itself. |
| Handler.Eligible | aws/cloudfront-image-resize/lambda_handler.py:102 | The gate: the upper-cased method is GET, a size was parsed, and the uri ends in `.png`, `.jpg` or `.jpeg`. IneligiblePassesThrough states that a request failing it is never fetched and gets only the host rewrite. |
| Handler.ResizeImage | aws/cloudfront-image-resize/lambda_handler.py:31-41 | The image's size is read and the thumbnail is made in ThumbBox's box; an error of either library call is passed on. ResizedEnvelope states that the reply carries exactly these bytes. |
| Handler.Reply | aws/cloudfront-image-resize/lambda_handler.py:136-150 | What the handler makes of the fetch. TimeoutIsGatewayTimeout states the 504 envelope on a timeout. ResponseBranches states which answers are resized, which are relayed, and the KeyError for a 200 without a content type. ResizedEnvelope and RelayedEnvelope state the bodies and headers. |
| Handler.Handle | aws/cloudfront-image-resize/lambda_handler.py:97-155 | The decision over one record. The partner lemmas state its branches: IneligiblePassesThrough for a request that fails the gate, NoVariantUntouched for an origin with neither variant, and FetchOnlyUpstream for the single fetch of the resolved URL and headers. HandleErrors states the error paths of an eligible request: IndexError for an empty record list among its headers, the exception of Resolve passed on, and RequestError for a fetch failure other than a timeout. LambdaHandler ties the request object's new state to it. |
| Handler.HandleErrors | aws/cloudfront-image-resize/lambda_handler.py:102-143 | For an eligible request: an empty record list among its own headers raises IndexError, an exception from resolving the origin propagates, and a fetch failure other than a timeout raises RequestError, since only the timeout is caught. |
| Handler.FetchOnlyUpstream | aws/cloudfront-image-resize/lambda_handler.py:136-137 | The network is used at most once, and only with the upstream URL and headers. Without an upstream request it is not used at all. |
| Handler.IneligiblePassesThrough | aws/cloudfront-image-resize/lambda_handler.py:151-155 | A request that fails the method, size or extension gate is never fetched. It is returned with only the first `host` value rewritten. |
| Handler.NoVariantUntouched | aws/cloudfront-image-resize/lambda_handler.py:133-134 | An eligible request whose origin has neither variant is returned with its headers untouched. |
| Handler.TimeoutIsGatewayTimeout | aws/cloudfront-image-resize/lambda_handler.py:143-150 | A timeout gives the fixed 504 text envelope with no headers. |
| Handler.ResponseBranches | aws/cloudfront-image-resize/lambda_handler.py:138-142 | Only a 200 answer whose content type is exactly image/png or image/jpeg is resized, into the box where a missing side is the source side. Any other answer is relayed unchanged. A 200 without a content type raises KeyError. |
| Handler.ResizedEnvelope | aws/cloudfront-image-resize/lambda_handler.py:139-140 | A resized answer carries the thumbnail bytes. Its ETag is the quoted MD5 hex of exactly those bytes, and its type is image/png. |
| Handler.RelayedEnvelope | aws/cloudfront-image-resize/lambda_handler.py:141-142 | A relayed answer carries the upstream bytes, and no header that the upstream response did not send. |
| Text.ParseInt | aws/cloudfront-image-resize/lambda_handler.py:25-27 | Parses iff the text is one or more ASCII digits, or a `-` or `+` followed by one or more. The value is the decimal value of the digits, negated after `-`. |
| Text.IntToStringRoundTrip | aws/cloudfront-image-resize/lambda_handler.py:114-117 | The decimal text of the port parses back to the port. |
| Encoding.Base64RoundTrip | aws/cloudfront-image-resize/lambda_handler.py:63 | Base64 as in section 4 of RFC 4648 decodes back to the original bytes. |
| Encoding.Base64Length | aws/cloudfront-image-resize/lambda_handler.py:63 | The encoding has 4 * ceil(n / 3) characters. |
| Encoding.HexRoundTrip | aws/cloudfront-image-resize/lambda_handler.py:62 | The hex digest text decodes back to the digest. |
| TmsToXyz.Flip | drone/tms2xyz.py:20 | The row `2 ** z - y - 1`. FlipInvolution, FlipInRange and FlipReversesOrder state that it is its own inverse, keeps [0, 2^z) and reverses the order of rows. |
| TmsToXyz.FlipInvolution | drone/tms2xyz.py:20 | Flipping a row twice gives the row back. |
| TmsToXyz.FlipInRange | drone/tms2xyz.py:20 | For 0 <= y < 2^z the flipped row is again in [0, 2^z). |
| TmsToXyz.FlipReversesOrder | drone/tms2xyz.py:20 | The flip strictly reverses the order of rows. |
| TmsToXyz.MatchRow | drone/tms2xyz.py:5 | A name that matches ends in `png`, or in `png` and a newline. |
| TmsToXyz.MatchRowMeaning | drone/tms2xyz.py:19 | A name `b` + `png` or `b` + `png` + newline matches iff `b` has at least two characters, its last one (the unescaped dot) is not a newline, and all before it are ASCII digits. The row read is the decimal value of those digits. |
| TmsToXyz.SameRowNames | drone/tms2xyz.py:19-21 | `01.png` and `1.png` read as the same row, so at zoom 2 both are renamed to `2.png`. |
| TmsToXyz.LooseDot | drone/tms2xyz.py:5 | The unescaped dot lets `7Xpng` through as row 7. At zoom 3 it is renamed to `0.png`. |
| TmsToXyz.Target | drone/tms2xyz.py:19-21 | The name an entry is renamed to: AttributeError when the name does not match, otherwise the name of the flipped row. TargetTwice states that on the tile names of a zoom it is its own inverse, and LooseDot and SameRowNames show the names the pattern lets through. |
| TmsToXyz.MatchRowName | drone/tms2xyz.py:19-21 | The name written for a row is matched and read back as that row. |
| TmsToXyz.DistinctRowsDistinctNames | drone/tms2xyz.py:20-21 | Different rows at one zoom get different target names. |
| TmsToXyz.TargetTwice | drone/tms2xyz.py:19-21 | On the tile names of a zoom level, the target of the target is the original name. |
| Fs.Rename | drone/tms2xyz.py:21 | A missing source gives FileNotFoundError. Otherwise the source's entry moves to the target name and replaces any file there. Renaming a name onto itself changes nothing. A file always renames onto a file or a free name. |
| TmsToXyz.FlipColumn | drone/tms2xyz.py:17-21 | The renames of one x directory, in listing order, each in the directory the earlier ones left. The result is again a directory. |
| Fs.RenameMoves | drone/tms2xyz.py:21 | A rename only moves an entry: every entry after it was an entry before. |
| TmsToXyz.FlipColumnOnlyMoves | drone/tms2xyz.py:17-21 | Every entry a column ends with was one of its entries before. The renames move and replace tiles but never create one. |
| TmsToXyz.WalkX | drone/tms2xyz.py:13-21 | Only the listed columns of the z directory change, and a column directory stays one. The rest of the tree and the z directory's listing are untouched. The walk ends cleanly only if every listed x name is an integer naming a column directory. |
| TmsToXyz.WalkZ | drone/tms2xyz.py:6-21 | The top-level listing and keys are unchanged. Entries not listed are untouched, and directories stay directories. The walk ends cleanly only if every listed directory has an integer name. |
| TmsToXyz.WalkXOutcome | drone/tms2xyz.py:13-21 | On a z directory that lists each name once, when every listed name is an integer naming a column that flips cleanly, the walk raises nothing. Each listed column ends as FlipColumn leaves it, and every other entry of the z directory is unchanged. |
| TmsToXyz.WalkXValueError | drone/tms2xyz.py:13-15 | The first x name that is not an integer raises ValueError, once every column before it has flipped cleanly. |
| TmsToXyz.WalkZOutcome | drone/tms2xyz.py:6-21 | On a listing without repeats, when every listed zoom directory converts cleanly, the script raises nothing. Each listed zoom directory ends with all its columns flipped, and every other entry is unchanged. |
| TmsToXyz.WalkZValueError | drone/tms2xyz.py:6-11 | A zoom directory whose name is not an integer raises ValueError once the script reaches it, every zoom directory before it having converted cleanly. |
| TmsToXyz.RenameColumn | drone/tms2xyz.py:17-21 | The innermost loop leaves the column and the exception that FlipColumn describes. |
| TmsToXyz.ConvertZoom | drone/tms2xyz.py:13-21 | The middle loop leaves the tree and the exception that WalkX describes. |
| TmsToXyz.Convert | drone/tms2xyz.py:4-21 | The outer loop leaves the tree and the exception that WalkZ describes, with earlier renames kept. |
| TmsToXyz.InPlaceFlipLosesTile | drone/tms2xyz.py:17-21 | At zoom 1, the column {0.png: A, 1.png: B} listed in that order ends as {0.png: A}, with no error. |
| TmsToXyz.FlippedNameTwice | drone/tms2xyz.py:19-21 | A flipped tile name is a tile name, and flipping it again gives the original name. |
| TmsToXyz.FlipColumnAtOnce | drone/tms2xyz.py:17-21 | The column with every tile moved to its flipped name at once. It lists each name once, and at each position the flipped name of the tile listed there. |
| TmsToXyz.FlipColumnAtOnceMoves | drone/tms2xyz.py:17-21 | Every tile is kept, under its flipped name. |
| TmsToXyz.FlipColumnAtOnceTileNames | drone/tms2xyz.py:17-21 | Every new name is a tile name that is the flip of an old one. |
| TmsToXyz.FlipColumnClear | drone/tms2xyz.py:17-21 | When each listed tile's target is itself or a free name, and no two targets coincide, the renames in turn raise nothing. Each listed tile ends under its target and every other entry is unchanged. |
| TmsToXyz.InPlaceFlipWithoutClash | drone/tms2xyz.py:17-21 | On a column of tile names where no tile's flipped name is another tile, the renames in listing order raise nothing. They end with exactly the entries that FlipColumnAtOnce gives. |
| CleanTiles.Accumulate | drone/clean-tiles/program.py:11-14 | The accumulator starts as four zeros. ValueError iff some pixel does not broadcast to four slots. Otherwise slot c is the OR of channel c over every pixel. |
| CleanTiles.RowOrZero | drone/clean-tiles/program.py:13-14 | The OR over a row is zero iff every pixel contributes zero. |
| CleanTiles.GridOrZero | drone/clean-tiles/program.py:12-16 | A slot is zero after the loops iff every pixel of the image contributes zero to it. |
| CleanTiles.RowOrCovers | drone/clean-tiles/program.py:13-14 | Every bit a pixel contributes is set in the row's total. |
| CleanTiles.GridOrCovers | drone/clean-tiles/program.py:12-14 | Every bit any pixel contributes is set in the slot after the loops. |
| CleanTiles.GridOrMonotone | drone/clean-tiles/program.py:14 | The OR only sets bits: the total over the first k rows is contained in the total over all rows. |
| CleanTiles.ProcessFile | drone/clean-tiles/program.py:8-17 | ValueError iff a pixel does not broadcast. Otherwise the tile is removed iff every pixel's alpha contribution is zero, so any pixel with alpha set keeps it. |
| CleanTiles.GreyTransparentIffBlack | drone/clean-tiles/program.py:14-16 | A grey-level tile has no alpha channel, so it is removed iff it is black everywhere. |
| CleanTiles.RgbRaises | drone/clean-tiles/program.py:14 | A three-channel pixel cannot broadcast, so an RGB tile raises. |
| CleanTiles.JoinShape | drone/clean-tiles/program.py:31 | The joined path ends with the last part. An absolute part replaces what comes before it. Otherwise one separator is added when needed. |
| CleanTiles.JoinPngSuffix | drone/clean-tiles/program.py:41-45 | The joined path ends in `.png` iff the file name does. |
| CleanTiles.XEntryMembers | drone/clean-tiles/program.py:41-47 | One name contributes exactly the path of a listed regular file whose name ends in `.png`. |
| CleanTiles.XFilesMembers | drone/clean-tiles/program.py:40-47 | A path is collected from a y directory iff it names one of its listed regular `.png` files. |
| CleanTiles.YFilesMembers | drone/clean-tiles/program.py:35-39 | A path is collected from a z directory iff one of its listed entries is a directory that yields it. |
| CleanTiles.ZFilesMembers | drone/clean-tiles/program.py:30-34 | A path is collected from the input iff one of its listed entries is a directory that yields it. |
| CleanTiles.CollectedIffTile | drone/clean-tiles/program.py:29-47 | Exactly the regular files ending in `.png` that sit three levels below the input are collected. Non-directories at the z and y levels are skipped. |
| CleanTiles.CollectColumns | drone/clean-tiles/program.py:40-47 | The innermost loop appends exactly the y directory's collected paths, in listing order. |
| CleanTiles.CollectRows | drone/clean-tiles/program.py:35-47 | The middle loop appends exactly the z directory's collected paths, in listing order. |
| CleanTiles.CollectTiles | drone/clean-tiles/program.py:29-47 | The outer loop yields exactly the collected paths of the input directory, in listing order. |
| CleanTiles.WorkerCount | drone/clean-tiles/program.py:49-51 | The worker count is cpu_count - 1 when cpu_count > 1, otherwise cpu_count. It is between 1 and cpu_count whenever cpu_count >= 1. |
| CleanTiles.Clean | drone/clean-tiles/program.py:19-53 | A wrong argument count or a path that is not a directory exits with status 1 before anything is listed. Otherwise the pool gets exactly the collected paths and WorkerCount workers. |

## Left out

- The 30-second timeout passed to `requests.get` is not modelled. Whether the fetch times out is part of the fetch parameter's answer.
- `Handler.LambdaHandler`: a missing `Records` key raises KeyError, as `event['Records']` does in the code. It is not a no-op.
- `Handler.LambdaHandler`: missing keys inside the request dictionary (`method`, `uri`, `querystring`, `headers`, `origin`) are not modelled. The request is a record that has them all.
- `Handler.LambdaHandler`: the code keeps aliases between the request's nested dictionaries. The model has only `headers` as a mutable field.
- The network (`requests.get`), PIL (`Image.open`, `thumbnail`, `save`), `parse_qs` and MD5 are parameters of the model. Their internals are not modelled, and neither is the `Failed` path's exception type beyond "not a timeout".
- `Origin.Resolve`: of the origin config's keys only a missing `domainName` is modelled, as KeyError. A missing `customHeaders`, `path`, `protocol` or `port` also raises KeyError in the code (lines 111-131); the model's config always has them.
- `Headers.ParseHeaders`: a header record without a `value` key, which raises KeyError at line 48, is not modelled. Every record has a value, which may be None.
- `requests` drops headers whose value is None. The model passes the flat header map to the fetcher as built.
- `Text.ParseInt`: Python's `int()` also accepts surrounding whitespace, underscores and non-ASCII digits. The model accepts an optional `-` or `+` followed by ASCII digits only.
- `Text.Lower`: only ASCII letters are mapped, as in `str.lower` on ASCII text. Unicode case mapping is not modelled. `Text.Upper` likewise.
- `TmsToXyz.Target`: a negative zoom makes `2 ** z` a float in the code, which then produces a negative file name such as `-0.5.png` (zoom -1, row 0). The model stops with a distinct `FloatZoom` error instead.
- `TmsToXyz.Convert`: `os.listdir` order is taken as the order of each directory's `names`. Symbolic links are not modelled.
- `CleanTiles.ProcessFile`: `imageio.imread` is not modelled. The image is given as rows of pixels with 16-bit samples, and removing the file is the returned boolean. The `int` accumulator never holds more than 16 bits.
- `CleanTiles.CollectTiles`: `os.path.isdir` and `os.path.isfile` follow symbolic links. The model's tree has no links, so a link to a directory or a file is not modelled.
- `CleanTiles.Clean`: the `multiprocessing` pool, `os.remove` and the printed messages are not modelled. Nor is which files the pool still reaches after a worker raises. The model ends with the list of paths and the worker count handed to the pool.
- The unused imports `json` and `re` in `lambda_handler.py` have no counterpart.

## Findings

| source | as written | input that shows it | evidently intended | confidence | as-written member | corrected member |
|---|---|---|---|---|---|---|
| drone/tms2xyz.py:17-21 | Each tile of an x directory is renamed in listing order, inside the directory the earlier renames left. With POSIX `os.rename`, a target that exists is replaced before its own tile has moved. | Zoom 1, x directory `{0.png: A, 1.png: B}` listed as `[0.png, 1.png]`. `0.png` replaces `1.png`, which loses B. Then `1.png` (now A) moves back to `0.png`. The run ends without error as `{0.png: A}`. | Every tile moves to its flipped row at once, and none is lost. | medium, not executed: needs two listed names whose targets clash, either rows y and 2^z-y-1 both present in one column (tiles on both sides of the equator), or two names that read as the same row (`01.png` and `1.png` both go to `2.png` at zoom 2, see TmsToXyz.SameRowNames). Without such a clash the in-place renames give the intended result (TmsToXyz.InPlaceFlipWithoutClash) | TmsToXyz.InPlaceFlipLosesTile | TmsToXyz.FlipColumnAtOnceMoves |
