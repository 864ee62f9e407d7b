/** `drone/clean-tiles/program.py`: collects every `.png` tile three levels
    below a directory and removes the tiles whose alpha is zero everywhere.
    Reading the image and removing the file are outside the model: a tile is
    its grid of pixels, and the decision to remove it is a returned boolean. */
module CleanTiles {
  import opened Wrappers
  import opened Text
  import opened Fs

  /** A sample as a PNG decoder hands it over: at most 16 bits, never
      negative, so OR-ing samples into the `int` accumulator stays within 16
      bits. */
  type Sample = bv16

  /** One element of an image row: a bare sample for a two-dimensional
      (grey-level) image, or the channel vector of a three-dimensional one. */
  datatype Pixel = Scalar(v: Sample) | Channels(cs: seq<Sample>)

  /** The accumulator has four slots (line 11); slot 3 is alpha (line 16). */
  const Slots: nat := 4
  const AlphaSlot: nat := 3

  /** numpy broadcasting of a pixel against the four-slot accumulator: a
      scalar or a one-channel vector is repeated, a four-channel vector is
      taken slot by slot, and any other channel count is a ValueError. */
  predicate Broadcasts(p: Pixel) {
    p.Scalar? || |p.cs| == 1 || |p.cs| == Slots
  }

  /** What pixel `p` ORs into slot `c`. */
  function Contribution(p: Pixel, c: nat): Sample
    requires Broadcasts(p) && c < Slots
  {
    match p
    case Scalar(v) => v
    case Channels(cs) => if |cs| == 1 then cs[0] else cs[c]
  }

  predicate RowBroadcasts(row: seq<Pixel>) {
    forall j :: 0 <= j < |row| ==> Broadcasts(row[j])
  }

  predicate AllBroadcast(im: seq<seq<Pixel>>) {
    forall i :: 0 <= i < |im| ==> RowBroadcasts(im[i])
  }

  /** The OR of slot `c` over a row, in the order the loop visits it. */
  function RowOr(row: seq<Pixel>, c: nat): Sample
    requires RowBroadcasts(row) && c < Slots
  {
    if row == [] then 0 else RowOr(row[..|row| - 1], c) | Contribution(row[|row| - 1], c)
  }

  /** The OR of slot `c` over every pixel of the image, row after row. */
  function GridOr(im: seq<seq<Pixel>>, c: nat): Sample
    requires AllBroadcast(im) && c < Slots
  {
    if im == [] then 0 else GridOr(im[..|im| - 1], c) | RowOr(im[|im| - 1], c)
  }

  /** A slot is zero exactly when every pixel puts zero into it. */
  lemma {:induction false} RowOrZero(row: seq<Pixel>, c: nat)
    requires RowBroadcasts(row) && c < Slots
    ensures RowOr(row, c) == 0 <==> forall j :: 0 <= j < |row| ==> Contribution(row[j], c) == 0
  {
    if row != [] {
      var init := row[..|row| - 1];
      RowOrZero(init, c);
      assert forall j :: 0 <= j < |init| ==> init[j] == row[j];
    }
  }

  lemma {:induction false} GridOrZero(im: seq<seq<Pixel>>, c: nat)
    requires AllBroadcast(im) && c < Slots
    ensures GridOr(im, c) == 0 <==>
      forall i, j :: 0 <= i < |im| && 0 <= j < |im[i]| ==> Contribution(im[i][j], c) == 0
  {
    if im != [] {
      var init := im[..|im| - 1];
      GridOrZero(init, c);
      RowOrZero(im[|im| - 1], c);
      assert forall i :: 0 <= i < |init| ==> init[i] == im[i];
    }
  }

  /** Every bit any pixel puts into a slot is set in the slot's total. */
  lemma {:induction false} RowOrCovers(row: seq<Pixel>, c: nat, j: nat)
    requires RowBroadcasts(row) && c < Slots && j < |row|
    ensures Contribution(row[j], c) | RowOr(row, c) == RowOr(row, c)
  {
    if j < |row| - 1 {
      var init := row[..|row| - 1];
      RowOrCovers(init, c, j);
      assert init[j] == row[j];
    }
  }

  lemma {:induction false} GridOrCovers(im: seq<seq<Pixel>>, c: nat, i: nat, j: nat)
    requires AllBroadcast(im) && c < Slots && i < |im| && j < |im[i]|
    ensures Contribution(im[i][j], c) | GridOr(im, c) == GridOr(im, c)
  {
    if i < |im| - 1 {
      var init := im[..|im| - 1];
      GridOrCovers(init, c, i, j);
      assert init[i] == im[i];
    } else {
      RowOrCovers(im[i], c, j);
    }
  }

  /** Line 14 only ever sets bits: the total over the first `k` rows is
      contained in the total over the whole image. */
  lemma {:induction false} GridOrMonotone(im: seq<seq<Pixel>>, c: nat, k: nat)
    requires AllBroadcast(im) && c < Slots && k <= |im|
    ensures GridOr(im[..k], c) | GridOr(im, c) == GridOr(im, c)
  {
    if k < |im| {
      var init := im[..|im| - 1];
      GridOrMonotone(init, c, k);
      assert init[..k] == im[..k];
    } else {
      assert im[..k] == im;
    }
  }

  /** Lines 11-14: the accumulator starts as four zeros and every pixel is
      OR-ed into it in place; a pixel that does not broadcast raises. */
  method Accumulate(im: seq<seq<Pixel>>) returns (r: Result<seq<Sample>>)
    ensures r.Raise? <==> !AllBroadcast(im)
    ensures r.Raise? ==> r.exc == ValueError
    ensures r.Ok? ==> |r.value| == Slots && forall c :: 0 <= c < Slots ==> r.value[c] == GridOr(im, c)
  {
    var acc := new Sample[Slots](_ => 0);
    var i := 0;
    while i < |im|
      invariant 0 <= i <= |im|
      invariant AllBroadcast(im[..i])
      invariant forall c :: 0 <= c < Slots ==> acc[c] == GridOr(im[..i], c)
    {
      var row := im[i];
      var j := 0;
      while j < |row|
        invariant 0 <= j <= |row|
        invariant RowBroadcasts(row[..j])
        invariant forall c :: 0 <= c < Slots ==> acc[c] == GridOr(im[..i], c) | RowOr(row[..j], c)
      {
        var p := row[j];
        if !Broadcasts(p) {
          assert !RowBroadcasts(im[i]);
          return Raise(ValueError);
        }
        forall c | 0 <= c < Slots {
          acc[c] := acc[c] | Contribution(p, c);
        }
        assert row[..j + 1][..j] == row[..j];
        j := j + 1;
      }
      assert row[..j] == row;
      assert im[..i + 1][..i] == im[..i];
      i := i + 1;
    }
    assert im[..i] == im;
    return Ok(acc[..]);
  }

  /** The image has no pixel whose alpha slot is set. */
  predicate Transparent(im: seq<seq<Pixel>>)
    requires AllBroadcast(im)
  {
    forall i, j :: 0 <= i < |im| && 0 <= j < |im[i]| ==> Contribution(im[i][j], AlphaSlot) == 0
  }

  /** `process_file` (lines 8-17): the tile is removed exactly when every
      pixel's alpha contribution is zero; any pixel with alpha set keeps it. */
  method ProcessFile(im: seq<seq<Pixel>>) returns (remove: Result<bool>)
    ensures remove.Raise? <==> !AllBroadcast(im)
    ensures remove.Raise? ==> remove.exc == ValueError
    ensures remove.Ok? ==> (remove.value <==> Transparent(im))
  {
    var acc := Accumulate(im);
    if acc.Raise? {
      return Raise(acc.exc);
    }
    GridOrZero(im, AlphaSlot);
    return Ok(acc.value[AlphaSlot] == 0);
  }

  /** A grey-level image has no alpha channel, so its sample stands in every
      slot: it counts as transparent exactly when it is black everywhere. */
  lemma GreyTransparentIffBlack(im: seq<seq<Pixel>>)
    requires forall i, j :: 0 <= i < |im| && 0 <= j < |im[i]| ==> im[i][j].Scalar?
    ensures AllBroadcast(im)
    ensures Transparent(im) <==> forall i, j :: 0 <= i < |im| && 0 <= j < |im[i]| ==> im[i][j].v == 0
  {
  }

  /** An RGB tile (three channels) cannot be OR-ed into four slots. */
  lemma RgbRaises(im: seq<seq<Pixel>>, i: nat, j: nat)
    requires i < |im| && j < |im[i]| && im[i][j].Channels? && |im[i][j].cs| == 3
    ensures !AllBroadcast(im)
  {
  }

  // ---------------------------------------------------------------- paths

  /** `os.path.join(a, b)` on POSIX: an absolute `b` replaces `a`, and a
      separator is added only when `a` is non-empty and does not end in one. */
  function Join(a: string, b: string): string {
    if |b| > 0 && b[0] == '/' then b
    else if a == [] || a[|a| - 1] == '/' then a + b
    else a + "/" + b
  }

  /** The joined path ends with its last part, and what stands before that
      part is `a` itself or `a` with one separator added. */
  lemma JoinShape(a: string, b: string)
    ensures EndsWith(Join(a, b), b)
    ensures |b| > 0 && b[0] == '/' ==> Join(a, b) == b
    ensures var r := Join(a, b);
      !(|b| > 0 && b[0] == '/') ==> r[..|r| - |b|] == (if a == [] || a[|a| - 1] == '/' then a else a + "/")
  {
  }

  /** Line 44 tests the joined path, but only the last name can supply the
      suffix: the separator in front of a shorter name spoils it. */
  lemma JoinPngSuffix(a: string, b: string)
    ensures EndsWith(Join(a, b), ".png") <==> EndsWith(b, ".png")
  {
    var r := Join(a, b);
    JoinShape(a, b);
    if |b| >= 4 {
      assert r[|r| - 4..] == b[|b| - 4..];
    } else if !(|b| > 0 && b[0] == '/') && a != [] && |r| >= 4 {
      var k := |r| - |b| - 1;
      assert r[k] == r[..|r| - |b|][k] == '/';
      assert r[|r| - 4..][k - (|r| - 4)] == '/';
    }
  }

  /** `x`, listed in the y directory `yd` at path `p`, is a regular file whose
      name ends in `.png`, and `f` is its path. */
  predicate PngFileAt(p: string, yd: Node, x: string, f: string)
    requires yd.Dir?
  {
    x in yd.children && yd.children[x].File? && EndsWith(x, ".png") && f == Join(p, x)
  }

  /** Lines 41-47 for one name `x`. */
  function XEntry(p: string, yd: Node, x: string): seq<string>
    requires yd.Dir?
  {
    var f := Join(p, x);
    if x in yd.children && yd.children[x].File? && EndsWith(f, ".png") then [f] else []
  }

  /** One name contributes exactly the path of a listed regular `.png` file. */
  lemma XEntryMembers(p: string, yd: Node, x: string, f: string)
    requires yd.Dir?
    ensures f in XEntry(p, yd, x) <==> PngFileAt(p, yd, x, f)
  {
    JoinPngSuffix(p, x);
  }

  /** Lines 40-47 for one y directory at path `p`: the regular files among the
      names `xs` whose path ends in `.png`, in listing order. */
  function XFiles(p: string, yd: Node, xs: seq<string>): seq<string>
    requires yd.Dir?
  {
    if xs == [] then [] else XFiles(p, yd, xs[..|xs| - 1]) + XEntry(p, yd, xs[|xs| - 1])
  }

  /** Lines 36-47 for one name `y`: the files of `y` when it is a directory. */
  function YEntry(p: string, zd: Node, y: string): seq<string>
    requires zd.Dir?
  {
    if y in zd.children && zd.children[y].Dir? then XFiles(Join(p, y), zd.children[y], zd.children[y].names) else []
  }

  /** Lines 35-47 for one z directory at path `p`. */
  function YFiles(p: string, zd: Node, ys: seq<string>): seq<string>
    requires zd.Dir?
  {
    if ys == [] then [] else YFiles(p, zd, ys[..|ys| - 1]) + YEntry(p, zd, ys[|ys| - 1])
  }

  /** Lines 31-47 for one name `z`. */
  function ZEntry(p: string, d: Node, z: string): seq<string>
    requires d.Dir?
  {
    if z in d.children && d.children[z].Dir? then YFiles(Join(p, z), d.children[z], d.children[z].names) else []
  }

  /** Lines 30-47 for the input directory at path `p`. */
  function ZFiles(p: string, d: Node, zs: seq<string>): seq<string>
    requires d.Dir?
  {
    if zs == [] then [] else ZFiles(p, d, zs[..|zs| - 1]) + ZEntry(p, d, zs[|zs| - 1])
  }

  /** A path is collected from a y directory exactly when it names a listed
      regular file there whose own name ends in `.png`. */
  lemma {:induction false} XFilesMembers(p: string, yd: Node, xs: seq<string>, f: string)
    requires yd.Dir?
    ensures f in XFiles(p, yd, xs) <==> exists x :: x in xs && PngFileAt(p, yd, x, f)
  {
    if xs != [] {
      var init, x := xs[..|xs| - 1], xs[|xs| - 1];
      XFilesMembers(p, yd, init, f);
      XEntryMembers(p, yd, x, f);
      assert XFiles(p, yd, xs) == XFiles(p, yd, init) + XEntry(p, yd, x);
      if f in XFiles(p, yd, init) {
        var x' :| x' in init && PngFileAt(p, yd, x', f);
        assert x' in xs;
      } else if f in XEntry(p, yd, x) {
        assert x in xs;
      } else {
        forall x' | x' in xs ensures !PngFileAt(p, yd, x', f) {
          XEntryMembers(p, yd, x', f);
          if x' != x {
            assert x' in init by { assert xs == init + [x]; }
          }
        }
      }
    }
  }

  /** A path is collected from a z directory exactly when one of its listed
      entries is a directory from which the path is collected. */
  lemma {:induction false} YFilesMembers(p: string, zd: Node, ys: seq<string>, f: string)
    requires zd.Dir?
    ensures f in YFiles(p, zd, ys) <==> exists y :: y in ys && f in YEntry(p, zd, y)
  {
    if ys != [] {
      var init, y := ys[..|ys| - 1], ys[|ys| - 1];
      YFilesMembers(p, zd, init, f);
      assert YFiles(p, zd, ys) == YFiles(p, zd, init) + YEntry(p, zd, y);
      if f in YFiles(p, zd, init) {
        var y' :| y' in init && f in YEntry(p, zd, y');
        assert y' in ys;
      } else if f in YEntry(p, zd, y) {
        assert y in ys;
      } else {
        forall y' | y' in ys ensures f !in YEntry(p, zd, y') {
          if y' != y {
            assert y' in init by { assert ys == init + [y]; }
          }
        }
      }
    }
  }

  /** A path is collected from the input directory exactly when one of its
      listed entries is a directory from which the path is collected. */
  lemma {:induction false} ZFilesMembers(p: string, d: Node, zs: seq<string>, f: string)
    requires d.Dir?
    ensures f in ZFiles(p, d, zs) <==> exists z :: z in zs && f in ZEntry(p, d, z)
  {
    if zs != [] {
      var init, z := zs[..|zs| - 1], zs[|zs| - 1];
      ZFilesMembers(p, d, init, f);
      assert ZFiles(p, d, zs) == ZFiles(p, d, init) + ZEntry(p, d, z);
      if f in ZFiles(p, d, init) {
        var z' :| z' in init && f in ZEntry(p, d, z');
        assert z' in zs;
      } else if f in ZEntry(p, d, z) {
        assert z in zs;
      } else {
        forall z' | z' in zs ensures f !in ZEntry(p, d, z') {
          if z' != z {
            assert z' in init by { assert zs == init + [z]; }
          }
        }
      }
    }
  }

  /** `f` is the path of a `.png` regular file `x` in the directory `y` of
      the directory `z` of `d`, each listed by its parent. */
  predicate TileAt(p: string, d: Node, z: string, y: string, x: string, f: string)
    requires d.Dir?
  {
    && z in d.names && z in d.children && d.children[z].Dir?
    && y in d.children[z].names && y in d.children[z].children && d.children[z].children[y].Dir?
    && x in d.children[z].children[y].names
    && PngFileAt(Join(Join(p, z), y), d.children[z].children[y], x, f)
  }

  /** Only regular files ending in `.png` exactly three levels below the input
      directory are collected, and all of them are. */
  lemma CollectedIffTile(p: string, d: Node, f: string)
    requires d.Dir?
    ensures f in ZFiles(p, d, d.names) <==> exists z, y, x :: TileAt(p, d, z, y, x, f)
  {
    ZFilesMembers(p, d, d.names, f);
    if f in ZFiles(p, d, d.names) {
      var z :| z in d.names && f in ZEntry(p, d, z);
      var zd := d.children[z];
      YFilesMembers(Join(p, z), zd, zd.names, f);
      var y :| y in zd.names && f in YEntry(Join(p, z), zd, y);
      var yd := zd.children[y];
      XFilesMembers(Join(Join(p, z), y), yd, yd.names, f);
      var x :| x in yd.names && PngFileAt(Join(Join(p, z), y), yd, x, f);
      assert TileAt(p, d, z, y, x, f);
    }
    if exists z, y, x :: TileAt(p, d, z, y, x, f) {
      var z, y, x :| TileAt(p, d, z, y, x, f);
      var zd := d.children[z];
      var yd := zd.children[y];
      XFilesMembers(Join(Join(p, z), y), yd, yd.names, f);
      assert f in YEntry(Join(p, z), zd, y);
      YFilesMembers(Join(p, z), zd, zd.names, f);
      assert f in ZEntry(p, d, z);
    }
  }

  /** Lines 40-47: the innermost loop, over the x names of one y directory. */
  method CollectColumns(yDir: string, yd: Node) returns (files: seq<string>)
    requires yd.Dir?
    ensures files == XFiles(yDir, yd, yd.names)
  {
    files := [];
    var xs := yd.names;
    var k := 0;
    while k < |xs|
      invariant 0 <= k <= |xs|
      invariant files == XFiles(yDir, yd, xs[..k])
    {
      var x := xs[k];
      XFilesStep(yDir, yd, xs, k);
      var xFile := Join(yDir, x);
      if x in yd.children && yd.children[x].File? && EndsWith(xFile, ".png") {
        files := files + [xFile];
      }
      k := k + 1;
    }
    assert xs[..k] == xs;
  }

  /** One more x name adds the files of that name. */
  lemma XFilesStep(p: string, yd: Node, xs: seq<string>, k: int)
    requires yd.Dir? && 0 <= k < |xs|
    ensures XFiles(p, yd, xs[..k + 1]) == XFiles(p, yd, xs[..k]) + XEntry(p, yd, xs[k])
  {
    assert xs[..k + 1][..k] == xs[..k];
  }

  /** One more y name adds the files of that name. */
  lemma YFilesStep(p: string, zd: Node, ys: seq<string>, j: int)
    requires zd.Dir? && 0 <= j < |ys|
    ensures YFiles(p, zd, ys[..j + 1]) == YFiles(p, zd, ys[..j]) + YEntry(p, zd, ys[j])
  {
    assert ys[..j + 1][..j] == ys[..j];
  }

  /** One more z name adds the files of that name. */
  lemma ZFilesStep(p: string, d: Node, zs: seq<string>, i: int)
    requires d.Dir? && 0 <= i < |zs|
    ensures ZFiles(p, d, zs[..i + 1]) == ZFiles(p, d, zs[..i]) + ZEntry(p, d, zs[i])
  {
    assert zs[..i + 1][..i] == zs[..i];
  }

  /** Lines 35-47: the middle loop, over the y names of one z directory. */
  method CollectRows(zDir: string, zd: Node) returns (files: seq<string>)
    requires zd.Dir?
    ensures files == YFiles(zDir, zd, zd.names)
  {
    files := [];
    var ys := zd.names;
    var j := 0;
    while j < |ys|
      invariant 0 <= j <= |ys|
      invariant files == YFiles(zDir, zd, ys[..j])
    {
      var y := ys[j];
      YFilesStep(zDir, zd, ys, j);
      var yDir := Join(zDir, y);
      if y in zd.children && zd.children[y].Dir? {
        var found := CollectColumns(yDir, zd.children[y]);
        files := files + found;
      }
      j := j + 1;
    }
    assert ys[..j] == ys;
  }

  /** Lines 29-47: the outer loop, over the z names of the input directory. */
  method CollectTiles(p: string, d: Node) returns (files: seq<string>)
    requires d.Dir?
    ensures files == ZFiles(p, d, d.names)
  {
    files := [];
    var zs := d.names;
    var i := 0;
    while i < |zs|
      invariant 0 <= i <= |zs|
      invariant files == ZFiles(p, d, zs[..i])
    {
      var z := zs[i];
      ZFilesStep(p, d, zs, i);
      var zDir := Join(p, z);
      if z in d.children && d.children[z].Dir? {
        var found := CollectRows(zDir, d.children[z]);
        files := files + found;
      }
      i := i + 1;
    }
    assert zs[..i] == zs;
  }

  /** Lines 49-51: one core is left free when there is more than one. */
  function WorkerCount(cpuCount: int): (r: int)
    ensures cpuCount >= 1 ==> 1 <= r <= cpuCount
    ensures cpuCount > 1 ==> r == cpuCount - 1
    ensures cpuCount <= 1 ==> r == cpuCount
  {
    if cpuCount > 1 then cpuCount - 1 else cpuCount
  }

  /** How `main` ends: an exit status before anything is listed, or the
      collected paths handed to a pool of workers. */
  datatype Launch = Exit(status: int) | Pool(files: seq<string>, workers: int)

  /** `main` (lines 19-53). `lookup` says what a path names, if anything;
      `cpuCount` is what `mp.cpu_count()` reports. */
  method Clean(argv: seq<string>, lookup: string -> Option<Node>, cpuCount: int) returns (r: Launch)
    ensures r.Exit? <==> |argv| != 2 || !(lookup(argv[1]).Some? && lookup(argv[1]).value.Dir?)
    ensures r.Exit? ==> r.status == 1
    ensures r.Pool? ==>
      && |argv| == 2 && lookup(argv[1]).Some? && lookup(argv[1]).value.Dir?
      && r.files == ZFiles(argv[1], lookup(argv[1]).value, lookup(argv[1]).value.names)
      && r.workers == WorkerCount(cpuCount)
  {
    if |argv| != 2 {
      return Exit(1);
    }
    var inputDir := argv[1];
    var found := lookup(inputDir);
    if !(found.Some? && found.value.Dir?) {
      return Exit(1);
    }
    var files := CollectTiles(inputDir, found.value);
    return Pool(files, WorkerCount(cpuCount));
  }
}
