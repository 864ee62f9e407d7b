/** `drone/tms2xyz.py`: renames every tile `z/x/y.png` below the working
    directory to `z/x/(2^z - y - 1).png`, turning bottom-origin (TMS) rows into
    top-origin (XYZ) rows. */
module TmsToXyz {
  import opened Wrappers
  import opened Text
  import opened Fs

  function Pow2(n: nat): (r: nat)
    ensures r >= 1
  {
    if n == 0 then 1 else 2 * Pow2(n - 1)
  }

  /** Line 20: the row seen from the other edge of a `2^z`-row grid. */
  function Flip(z: nat, y: int): int {
    Pow2(z) - y - 1
  }

  lemma FlipInvolution(z: nat, y: int)
    ensures Flip(z, Flip(z, y)) == y
  {
  }

  lemma FlipInRange(z: nat, y: int)
    requires 0 <= y < Pow2(z)
    ensures 0 <= Flip(z, y) < Pow2(z)
  {
  }

  lemma FlipReversesOrder(z: nat, y1: int, y2: int)
    requires y1 < y2
    ensures Flip(z, y1) > Flip(z, y2)
  {
  }

  /** `re.compile('^(?P<y>[0-9]+).png$').match(name)` and then
      `int(m.group('y'))`, or None where the match fails. The dot is
      unescaped, so any character but a newline may stand before `png`, and
      `$` also matches before a final newline. */
  function MatchRow(name: string): (r: Option<nat>)
    ensures r.Some? ==> EndsWith(name, "png") || EndsWith(name, "png\n")
  {
    var body :=
      if EndsWith(name, "png") then Some(name[..|name| - 3])
      else if EndsWith(name, "png\n") then Some(name[..|name| - 4])
      else None;
    match body
    case None => None
    case Some(b) =>
      if |b| >= 2 && b[|b| - 1] != '\n' then ParseDigits(b[..|b| - 1]) else None
  }

  /** Which names match, and the row read from them. Every matching name is
      some `b` followed by `png`, or by `png` and a newline (the ensures of
      `MatchRow`); it matches exactly when `b` is one or more ASCII digits
      followed by one character that is not a newline, and the row is the
      value of those digits. */
  lemma MatchRowMeaning(b: string, suffix: string)
    requires suffix == "png" || suffix == "png\n"
    ensures MatchRow(b + suffix).Some? <==> |b| >= 2 && b[|b| - 1] != '\n' && AllDigits(b[..|b| - 1])
    ensures MatchRow(b + suffix).Some? ==> MatchRow(b + suffix).value == DigitsValue(b[..|b| - 1])
  {
    var name := b + suffix;
    if suffix == "png" {
      assert EndsWith(name, "png");
      assert name[..|name| - 3] == b;
    } else {
      assert !EndsWith(name, "png") by {
        assert name[|name| - 1] == '\n';
        if |name| >= 3 {
          assert name[|name| - 3..][2] == name[|name| - 1];
        }
      }
      assert EndsWith(name, "png\n");
      assert name[..|name| - 4] == b;
    }
  }

  /** `'{0}.png'.format(row)`. */
  function RowName(row: int): string {
    IntToString(row) + ".png"
  }

  /** Lines 19-21 for one entry: the name it is renamed to. AttributeError
      when the name does not match; a negative zoom makes `2 ** z` a float,
      which this model does not follow. */
  function Target(name: string, z: int): Result<string> {
    match MatchRow(name)
    case None => Raise(AttributeError)
    case Some(y) => if z < 0 then Raise(FloatZoom) else Ok(RowName(Flip(z, y)))
  }

  /** Canonical tile names read back as the row they were written from. */
  lemma {:induction false} MatchRowName(y: nat)
    ensures MatchRow(RowName(y)) == Some(y)
  {
    var name := RowName(y);
    var digits := NatToString(y);
    assert name == digits + ".png";
    assert EndsWith(name, "png");
    var b := name[..|name| - 3];
    assert b == digits + ".";
    assert b[..|b| - 1] == digits;
    NatToStringRoundTrip(y);
  }

  /** Different rows at one zoom get different names. */
  lemma DistinctRowsDistinctNames(z: nat, y1: int, y2: int)
    requires y1 != y2
    ensures RowName(Flip(z, y1)) != RowName(Flip(z, y2))
  {
    if RowName(Flip(z, y1)) == RowName(Flip(z, y2)) {
      var a, b := IntToString(Flip(z, y1)), IntToString(Flip(z, y2));
      assert a == (a + ".png")[..|a|];
      assert b == (b + ".png")[..|b|];
      IntToStringInjective(Flip(z, y1), Flip(z, y2));
    }
  }

  /** The rename is its own inverse on the tile names of a zoom level: running
      the script twice puts every name back. */
  lemma TargetTwice(y: nat, z: nat)
    requires y < Pow2(z)
    ensures Target(RowName(y), z).Ok?
    ensures Target(Target(RowName(y), z).value, z) == Ok(RowName(y))
  {
    MatchRowName(y);
    FlipInRange(z, y);
    MatchRowName(Flip(z, y));
  }

  /** A name like `7Xpng` passes the pattern, because of the unescaped dot. */
  lemma LooseDot()
    ensures MatchRow("7Xpng") == Some(7)
    ensures Target("7Xpng", 3) == Ok("0.png")
  {
    assert "7Xpng"[2..] == "png";
    assert EndsWith("7Xpng", "png");
    assert "7Xpng"[..2] == "7X";
    assert "7X"[..1] == "7";
    assert "7"[..0] == "";
    assert DigitsValue("7") == 7;
    assert Pow2(3) == 8;
    assert Flip(3, 7) == 0;
    assert NatToString(0) == "0";
    assert IntToString(0) == "0";
    assert RowName(0) == "0.png";
  }

  /** The outcome of a run: the tree as it stands, and the exception that
      stopped the script, if any. Renames done before it remain done. */
  datatype Run = Run(root: Node, error: Option<Exception>)

  /** Lines 17-21 for one x directory: each listed name is renamed in turn,
      in the directory as the earlier renames have left it. */
  function FlipColumn(d: Node, ys: seq<string>, z: int): (r: Run)
    requires d.Dir?
    ensures r.root.Dir?
    decreases |ys|
  {
    if ys == [] then Run(d, None)
    else
      match Target(ys[0], z)
      case Raise(e) => Run(d, Some(e))
      case Ok(t) =>
        match Rename(d, ys[0], t)
        case Raise(e) => Run(d, Some(e))
        case Ok(d') => FlipColumn(d', ys[1..], z)
  }

  /** The renames of a column only move entries: every entry the column ends
      with was one of its entries before. */
  lemma {:induction false} FlipColumnOnlyMoves(d: Node, ys: seq<string>, z: int)
    requires d.Dir?
    ensures FlipColumn(d, ys, z).root.children.Values <= d.children.Values
    decreases |ys|
  {
    if ys != [] {
      FlipColumnStep(d, ys, z);
      var t := Target(ys[0], z);
      if t.Ok? && Rename(d, ys[0], t.value).Ok? {
        var d' := Rename(d, ys[0], t.value).value;
        RenameMoves(d, ys[0], t.value);
        FlipColumnOnlyMoves(d', ys[1..], z);
      }
    }
  }

  /** One step of `FlipColumn`: the first name is renamed, or its exception
      ends the column. */
  lemma FlipColumnStep(d: Node, ys: seq<string>, z: int)
    requires d.Dir? && ys != []
    ensures Target(ys[0], z).Raise? ==> FlipColumn(d, ys, z) == Run(d, Some(Target(ys[0], z).exc))
    ensures Target(ys[0], z).Ok? && Rename(d, ys[0], Target(ys[0], z).value).Raise? ==>
      FlipColumn(d, ys, z) == Run(d, Some(Rename(d, ys[0], Target(ys[0], z).value).exc))
    ensures Target(ys[0], z).Ok? && Rename(d, ys[0], Target(ys[0], z).value).Ok? ==>
      FlipColumn(d, ys, z) == FlipColumn(Rename(d, ys[0], Target(ys[0], z).value).value, ys[1..], z)
  {
  }

  /** The tree with the column `x` of the z directory `z` replaced by `col`. */
  function SetColumn(root: Node, z: string, x: string, col: Node): (r: Node)
    requires root.Dir? && z in root.children && root.children[z].Dir?
    ensures r.Dir? && r.names == root.names && r.children.Keys == root.children.Keys
    ensures forall k :: k in root.children && k != z ==> r.children[k] == root.children[k]
    ensures z in r.children && r.children[z].Dir? && r.children[z].names == root.children[z].names
    ensures r.children[z].children == root.children[z].children[x := col]
  {
    var zdir := root.children[z];
    Dir(root.names, root.children[z := Dir(zdir.names, zdir.children[x := col])])
  }

  /** What a walk over the columns `xs` of the z directory `z` may change in
      `root` to give `r`: the listed columns of that directory and nothing
      else, and a column that was a directory stays one. */
  predicate ColumnsOnly(root: Node, r: Node, z: string, xs: seq<string>)
    requires root.Dir? && z in root.children && root.children[z].Dir?
  {
    && r.Dir? && r.names == root.names && r.children.Keys == root.children.Keys
    && (forall k :: k in root.children && k != z ==> r.children[k] == root.children[k])
    && z in r.children && r.children[z].Dir?
    && r.children[z].names == root.children[z].names
    && r.children[z].children.Keys == root.children[z].children.Keys
    && (forall x :: x in root.children[z].children && x !in xs ==>
      r.children[z].children[x] == root.children[z].children[x])
    && (forall x :: x in root.children[z].children && root.children[z].children[x].Dir? ==>
      r.children[z].children[x].Dir?)
  }

  /** Every name of `xs` is an integer naming a column directory of the z
      directory `z`. */
  predicate ColumnsReady(root: Node, z: string, xs: seq<string>)
    requires root.Dir? && z in root.children && root.children[z].Dir?
  {
    forall x :: x in xs ==> ParseInt(x).Some? && x in root.children[z].children && root.children[z].children[x].Dir?
  }

  /** Lines 13-21 for one z directory, whose x names are `xs`: only the listed
      columns change, and the walk ends cleanly only if every listed name is
      an integer naming a column directory (line 15 raises ValueError, line
      17 an OSError). */
  function WalkX(root: Node, z: string, zv: int, xs: seq<string>): (r: Run)
    requires root.Dir? && z in root.children && root.children[z].Dir?
    ensures ColumnsOnly(root, r.root, z, xs)
    ensures r.error.None? ==> ColumnsReady(root, z, xs)
    decreases |xs|
  {
    if xs == [] then Run(root, None)
    else
      var zdir := root.children[z];
      var x := xs[0];
      if ParseInt(x).None? then Run(root, Some(ValueError))
      else if x !in zdir.children then Run(root, Some(FileNotFoundError))
      else if zdir.children[x].File? then Run(root, Some(NotADirectoryError))
      else
        var col := FlipColumn(zdir.children[x], zdir.children[x].names, zv);
        var root' := SetColumn(root, z, x, col.root);
        if col.error.Some? then
          ColumnsOnlyStep(root, z, xs, col.root, root');
          Run(root', col.error)
        else
          var r := WalkX(root', z, zv, xs[1..]);
          ColumnsOnlyStep(root, z, xs, col.root, r.root);
          if r.error.None? then ColumnsReadyStep(root, z, xs, col.root); r else r
  }

  /** Replacing the first listed column and then walking the rest changes
      only the listed columns. */
  lemma ColumnsOnlyStep(root: Node, z: string, xs: seq<string>, col: Node, r: Node)
    requires root.Dir? && z in root.children && root.children[z].Dir? && xs != []
    requires xs[0] in root.children[z].children && root.children[z].children[xs[0]].Dir? && col.Dir?
    requires ColumnsOnly(SetColumn(root, z, xs[0], col), r, z, xs[1..])
    ensures ColumnsOnly(root, r, z, xs)
  {
    var x := xs[0];
    forall y | y in root.children[z].children && y !in xs
      ensures r.children[z].children[y] == root.children[z].children[y]
    {
      assert y != x && y !in xs[1..];
    }
  }

  /** The first listed name is ready, and so are the rest after it. */
  lemma ColumnsReadyStep(root: Node, z: string, xs: seq<string>, col: Node)
    requires root.Dir? && z in root.children && root.children[z].Dir? && xs != []
    requires ParseInt(xs[0]).Some? && xs[0] in root.children[z].children && root.children[z].children[xs[0]].Dir?
    requires ColumnsReady(SetColumn(root, z, xs[0], col), z, xs[1..])
    ensures ColumnsReady(root, z, xs)
  {
    forall y | y in xs
      ensures ParseInt(y).Some? && y in root.children[z].children && root.children[z].children[y].Dir?
    {
      if y != xs[0] {
        assert y in xs[1..];
      }
    }
  }

  /** Lines 6-21: the z names of the working directory, skipping entries that
      are not directories. */
  function WalkZ(root: Node, zs: seq<string>): (r: Run)
    requires root.Dir?
    ensures r.root.Dir? && r.root.names == root.names && r.root.children.Keys == root.children.Keys
    ensures forall k :: k in root.children && k !in zs ==> r.root.children[k] == root.children[k]
    ensures forall k :: k in root.children && root.children[k].Dir? ==> r.root.children[k].Dir?
    ensures r.error.None? ==> forall z :: z in zs && z in root.children && root.children[z].Dir? ==> ParseInt(z).Some?
    decreases |zs|
  {
    if zs == [] then Run(root, None)
    else
      var z := zs[0];
      if z !in root.children || root.children[z].File? then WalkZ(root, zs[1..])
      else
        match ParseInt(z)
        case None => Run(root, Some(ValueError))
        case Some(zv) =>
          var r := WalkX(root, z, zv, root.children[z].names);
          if r.error.Some? then r else WalkZ(r.root, zs[1..])
  }

  /** `x` names a directory of the z directory `zd` whose column is flipped
      without an exception. */
  predicate ColumnFlips(zd: Node, x: string, zv: int)
    requires zd.Dir?
  {
    && ParseInt(x).Some? && x in zd.children && zd.children[x].Dir?
    && FlipColumn(zd.children[x], zd.children[x].names, zv).error.None?
  }

  /** The z directory `zd` once every column named in `xs` has been flipped. */
  function FlippedColumns(zd: Node, xs: seq<string>, zv: int): Node
    requires zd.Dir?
  {
    Dir(zd.names, map x | x in zd.children ::
      if x in xs && zd.children[x].Dir? then FlipColumn(zd.children[x], zd.children[x].names, zv).root
      else zd.children[x])
  }

  /** Flipping the column `x` first leaves the other columns as they were. */
  lemma FlipFirstColumn(zd: Node, x: string, zv: int, rest: seq<string>)
    requires zd.Dir? && ColumnFlips(zd, x, zv) && x !in rest
    ensures var zd' := Dir(zd.names, zd.children[x := FlipColumn(zd.children[x], zd.children[x].names, zv).root]);
      && (forall y :: y in rest ==> (ColumnFlips(zd', y, zv) <==> ColumnFlips(zd, y, zv)))
      && FlippedColumns(zd', rest, zv) == FlippedColumns(zd, [x] + rest, zv)
  {
    var zd' := Dir(zd.names, zd.children[x := FlipColumn(zd.children[x], zd.children[x].names, zv).root]);
    var a, b := FlippedColumns(zd', rest, zv), FlippedColumns(zd, [x] + rest, zv);
    assert a.children.Keys == b.children.Keys;
    forall y | y in a.children ensures a.children[y] == b.children[y] {
      if y == x {
        assert y in [x] + rest;
      } else {
        assert y in rest <==> y in [x] + rest;
      }
    }
  }

  /** Lines 13-21 on a z directory listed without repeats: when every column
      flips cleanly the walk raises nothing and the z directory ends with each
      listed column flipped. */
  lemma {:induction false} WalkXOutcome(root: Node, z: string, zv: int, xs: seq<string>)
    requires root.Dir? && z in root.children && root.children[z].Dir? && Distinct(xs)
    requires forall j :: 0 <= j < |xs| ==> ColumnFlips(root.children[z], xs[j], zv)
    ensures WalkX(root, z, zv, xs).error.None?
    ensures WalkX(root, z, zv, xs).root.children[z] == FlippedColumns(root.children[z], xs, zv)
    decreases |xs|
  {
    var zd := root.children[z];
    if xs == [] {
      assert FlippedColumns(zd, xs, zv) == zd;
    } else {
      var x, rest, root', zd' := FirstColumnFlipped(root, z, zv, xs);
      FirstColumnWalked(root, z, zv, xs);
      forall j | 0 <= j < |rest| ensures ColumnFlips(zd', rest[j], zv) {
        assert rest[j] == xs[j + 1] && rest[j] in rest;
      }
      WalkXOutcome(root', z, zv, rest);
    }
  }

  /** The first step of the walk, when its column flips cleanly, goes on
      with the rest of the walk on the tree with that column flipped. */
  lemma FirstColumnWalked(root: Node, z: string, zv: int, xs: seq<string>)
    requires root.Dir? && z in root.children && root.children[z].Dir?
    requires xs != [] && ColumnFlips(root.children[z], xs[0], zv)
    ensures var zd := root.children[z];
      WalkX(root, z, zv, xs) ==
      WalkX(SetColumn(root, z, xs[0], FlipColumn(zd.children[xs[0]], zd.children[xs[0]].names, zv).root), z, zv, xs[1..])
  {
  }

  /** The first step of the walk, when its column flips cleanly: what it
      leaves for the rest of the walk. */
  lemma FirstColumnFlipped(root: Node, z: string, zv: int, xs: seq<string>)
    returns (x: string, rest: seq<string>, root': Node, zd': Node)
    requires root.Dir? && z in root.children && root.children[z].Dir? && Distinct(xs)
    requires xs != [] && ColumnFlips(root.children[z], xs[0], zv)
    ensures x == xs[0] && rest == xs[1..] && Distinct(rest) && x !in rest
    ensures var zd := root.children[z];
      root' == SetColumn(root, z, x, FlipColumn(zd.children[x], zd.children[x].names, zv).root)
    ensures root'.Dir? && z in root'.children && root'.children[z] == zd' && zd'.Dir?
    ensures forall y :: y in rest ==> (ColumnFlips(zd', y, zv) <==> ColumnFlips(root.children[z], y, zv))
    ensures FlippedColumns(zd', rest, zv) == FlippedColumns(root.children[z], xs, zv)
  {
    var zd := root.children[z];
    x, rest := xs[0], xs[1..];
    var col := FlipColumn(zd.children[x], zd.children[x].names, zv);
    root' := SetColumn(root, z, x, col.root);
    zd' := root'.children[z];
    assert zd' == Dir(zd.names, zd.children[x := col.root]);
    assert x !in rest by { assert forall j :: 1 <= j < |xs| ==> xs[0] != xs[j]; }
    assert Distinct(rest) by { assert forall i :: 0 <= i < |rest| ==> rest[i] == xs[i + 1]; }
    FlipFirstColumn(zd, x, zv, rest);
    assert xs == [x] + rest;
  }

  /** `xs[j]` is the first name of `xs` that is not an integer, and every
      column listed before it flips cleanly. */
  predicate FirstBadColumn(zd: Node, zv: int, xs: seq<string>, j: nat)
    requires zd.Dir?
  {
    && j < |xs| && ParseInt(xs[j]).None?
    && forall i :: 0 <= i < j ==> ColumnFlips(zd, xs[i], zv)
  }

  /** Lines 13-15: the first x name that is not an integer, all columns
      before it having flipped cleanly, raises ValueError. */
  lemma {:induction false} WalkXValueError(root: Node, z: string, zv: int, xs: seq<string>, j: nat)
    requires root.Dir? && z in root.children && root.children[z].Dir? && Distinct(xs)
    requires FirstBadColumn(root.children[z], zv, xs, j)
    ensures WalkX(root, z, zv, xs).error == Some(ValueError)
    decreases |xs|
  {
    if j == 0 {
      BadFirstColumn(root, z, zv, xs);
    } else {
      var rest, root' := BadColumnLater(root, z, zv, xs, j);
      WalkXValueError(root', z, zv, rest, j - 1);
    }
  }

  /** Line 15 on the first listed name. */
  lemma BadFirstColumn(root: Node, z: string, zv: int, xs: seq<string>)
    requires root.Dir? && z in root.children && root.children[z].Dir?
    requires xs != [] && ParseInt(xs[0]).None?
    ensures WalkX(root, z, zv, xs) == Run(root, Some(ValueError))
  {
  }

  /** When the bad column is not the first, the first flips cleanly and the
      bad column is the first bad one of the rest. */
  lemma BadColumnLater(root: Node, z: string, zv: int, xs: seq<string>, j: nat) returns (rest: seq<string>, root': Node)
    requires root.Dir? && z in root.children && root.children[z].Dir? && Distinct(xs)
    requires FirstBadColumn(root.children[z], zv, xs, j) && j > 0
    ensures root'.Dir? && z in root'.children && root'.children[z].Dir? && rest == xs[1..] && Distinct(rest)
    ensures FirstBadColumn(root'.children[z], zv, rest, j - 1)
    ensures WalkX(root, z, zv, xs) == WalkX(root', z, zv, rest)
  {
    var x, zd';
    x, rest, root', zd' := FirstColumnFlipped(root, z, zv, xs);
    FirstColumnWalked(root, z, zv, xs);
    forall i | 0 <= i < j - 1 ensures ColumnFlips(zd', rest[i], zv) {
      assert rest[i] == xs[i + 1] && rest[i] in rest;
    }
    assert rest[j - 1] == xs[j];
  }

  /** The z directory `zd`, named `z`, converts cleanly: its name is an
      integer, it lists each column once and every listed column flips without
      an exception. */
  predicate ZoomDirConverts(zd: Node, z: string)
    requires zd.Dir?
  {
    && ParseInt(z).Some? && Distinct(zd.names)
    && forall j :: 0 <= j < |zd.names| ==> ColumnFlips(zd, zd.names[j], ParseInt(z).value)
  }

  /** The entry `z` of `root` converts cleanly when it is a directory. */
  predicate ZoomConverts(root: Node, z: string)
    requires root.Dir?
  {
    z in root.children && root.children[z].Dir? ==> ZoomDirConverts(root.children[z], z)
  }

  /** The z directory `zd`, named `z`, with all its listed columns flipped. */
  function ConvertedZoom(zd: Node, z: string): Node
    requires zd.Dir?
  {
    match ParseInt(z)
    case None => zd
    case Some(zv) => FlippedColumns(zd, zd.names, zv)
  }

  /** The working directory once every directory named in `zs` is converted. */
  function ConvertedZooms(root: Node, zs: seq<string>): map<string, Node>
    requires root.Dir?
  {
    map k | k in root.children ::
      if k in zs && root.children[k].Dir? then ConvertedZoom(root.children[k], k) else root.children[k]
  }

  /** Lines 6-21 on a working directory listed without repeats: when every
      zoom directory converts cleanly the script raises nothing and each of
      them ends with all its columns flipped, everything else untouched. */
  lemma {:induction false} WalkZOutcome(root: Node, zs: seq<string>)
    requires root.Dir? && Distinct(zs)
    requires forall j :: 0 <= j < |zs| ==> ZoomConverts(root, zs[j])
    ensures WalkZ(root, zs).error.None?
    ensures WalkZ(root, zs).root.children == ConvertedZooms(root, zs)
    decreases |zs|
  {
    if zs != [] {
      var rest, root' := FirstZoomConverted(root, zs);
      forall j | 0 <= j < |rest| ensures ZoomConverts(root', rest[j]) {
        assert rest[j] == zs[j + 1] != zs[0];
      }
      WalkZOutcome(root', rest);
    }
  }

  /** The first step of the script's outer loop, when the first name converts
      cleanly: what it leaves for the rest of the loop. */
  lemma FirstZoomConverted(root: Node, zs: seq<string>) returns (rest: seq<string>, root': Node)
    requires root.Dir? && Distinct(zs) && zs != [] && ZoomConverts(root, zs[0])
    ensures rest == zs[1..] && Distinct(rest) && zs[0] !in rest
    ensures root'.Dir? && root'.children.Keys == root.children.Keys
    ensures forall k :: k in root.children && k != zs[0] ==> root'.children[k] == root.children[k]
    ensures WalkZ(root, zs) == WalkZ(root', rest)
    ensures ConvertedZooms(root', rest) == ConvertedZooms(root, zs)
  {
    var z := zs[0];
    rest := zs[1..];
    assert z !in rest by { assert forall j :: 1 <= j < |zs| ==> zs[0] != zs[j]; }
    assert Distinct(rest) by { assert forall i :: 0 <= i < |rest| ==> rest[i] == zs[i + 1]; }
    assert zs == [z] + rest;
    if z !in root.children || root.children[z].File? {
      root' := root;
      assert ConvertedZooms(root, rest) == ConvertedZooms(root, zs);
    } else {
      var zd := root.children[z];
      var zv := ParseInt(z).value;
      WalkXOutcome(root, z, zv, zd.names);
      root' := WalkX(root, z, zv, zd.names).root;
      ConvertedZoomsAfter(root, root', z, rest);
    }
  }

  /** `zs[j]` is the first directory of `zs` whose name is not an integer,
      and every zoom directory listed before it converts cleanly. */
  predicate FirstBadZoom(root: Node, zs: seq<string>, j: nat)
    requires root.Dir?
  {
    && j < |zs| && zs[j] in root.children && root.children[zs[j]].Dir? && ParseInt(zs[j]).None?
    && forall i :: 0 <= i < j ==> ZoomConverts(root, zs[i])
  }

  /** Lines 6-11: a zoom directory whose name is not an integer raises
      ValueError once the script reaches it. */
  lemma {:induction false} WalkZValueError(root: Node, zs: seq<string>, j: nat)
    requires root.Dir? && Distinct(zs) && FirstBadZoom(root, zs, j)
    ensures WalkZ(root, zs).error == Some(ValueError)
    decreases |zs|
  {
    if j == 0 {
      BadFirstZoom(root, zs);
    } else {
      var rest, root' := BadZoomLater(root, zs, j);
      WalkZValueError(root', rest, j - 1);
    }
  }

  /** When the bad zoom is not the first, the first converts cleanly and the
      bad zoom is the first bad one of the rest. */
  lemma BadZoomLater(root: Node, zs: seq<string>, j: nat) returns (rest: seq<string>, root': Node)
    requires root.Dir? && Distinct(zs) && FirstBadZoom(root, zs, j) && j > 0
    ensures root'.Dir? && rest == zs[1..] && Distinct(rest) && FirstBadZoom(root', rest, j - 1)
    ensures WalkZ(root, zs) == WalkZ(root', rest)
  {
    rest, root' := FirstZoomConverted(root, zs);
    forall i | 0 <= i < j - 1 ensures ZoomConverts(root', rest[i]) {
      assert rest[i] == zs[i + 1] != zs[0];
      ZoomConvertsFrame(root, root', rest[i]);
    }
    assert rest[j - 1] == zs[j] != zs[0];
  }

  /** Line 11 on the first listed name. */
  lemma BadFirstZoom(root: Node, zs: seq<string>)
    requires root.Dir? && zs != [] && zs[0] in root.children && root.children[zs[0]].Dir? && ParseInt(zs[0]).None?
    ensures WalkZ(root, zs) == Run(root, Some(ValueError))
  {
  }

  /** Whether an entry converts depends on that entry alone. */
  lemma ZoomConvertsFrame(root: Node, root': Node, y: string)
    requires root.Dir? && root'.Dir? && root'.children.Keys == root.children.Keys
    requires y in root.children ==> root'.children[y] == root.children[y]
    ensures ZoomConverts(root', y) == ZoomConverts(root, y)
  {
  }

  /** Converting the zoom `z` first and then the rest ends where converting
      them all does. */
  lemma ConvertedZoomsAfter(root: Node, root': Node, z: string, rest: seq<string>)
    requires root.Dir? && root'.Dir? && z in root.children && root.children[z].Dir? && z !in rest
    requires root'.children.Keys == root.children.Keys
    requires forall k :: k in root.children && k != z ==> root'.children[k] == root.children[k]
    requires root'.children[z] == ConvertedZoom(root.children[z], z) && root'.children[z].Dir?
    ensures ConvertedZooms(root', rest) == ConvertedZooms(root, [z] + rest)
  {
    var a, b := ConvertedZooms(root', rest), ConvertedZooms(root, [z] + rest);
    forall k | k in a ensures a[k] == b[k] {
      assert k in [z] + rest <==> k == z || k in rest;
    }
  }

  /** Two names that read as the same row share one target, so the second
      rename replaces the tile the first one moved there. */
  lemma SameRowNames()
    ensures Target("01.png", 2) == Target("1.png", 2) == Ok("2.png")
  {
    assert "01.png"[3..] == "png" && "1.png"[2..] == "png";
    assert EndsWith("01.png", "png") && EndsWith("1.png", "png");
    assert "01.png"[..3] == "01." && "01."[..2] == "01";
    assert "1.png"[..2] == "1." && "1."[..1] == "1";
    assert "01"[..1] == "0" && "0"[..0] == "" && "1"[..0] == "";
    assert DigitsValue("01") == 1 && DigitsValue("1") == 1;
    assert Pow2(2) == 4;
    assert Flip(2, 1) == 2;
    assert NatToString(2) == "2";
    assert IntToString(2) == "2";
    assert RowName(2) == "2.png";
  }

  /** Lines 17-21: the innermost loop, renaming the y entries of one x
      directory one at a time; it stops at the first exception. */
  method RenameColumn(atX: Node, z: int) returns (col: Node, failed: Option<Exception>)
    requires atX.Dir?
    ensures Run(col, failed) == FlipColumn(atX, atX.names, z)
  {
    col := atX;
    var ys := atX.names;
    var k := 0;
    while k < |ys|
      invariant 0 <= k <= |ys|
      invariant col.Dir?
      invariant FlipColumn(col, ys[k..], z) == FlipColumn(atX, ys, z)
    {
      FlipColumnStep(col, ys[k..], z);
      assert ys[k..][1..] == ys[k + 1..];
      var t := Target(ys[k], z);
      if t.Raise? {
        return col, Some(t.exc);
      }
      var renamed := Rename(col, ys[k], t.value);
      if renamed.Raise? {
        return col, Some(renamed.exc);
      }
      col := renamed.value;
      k := k + 1;
    }
    assert ys[k..] == [];
    failed := None;
  }

  /** Lines 13-21: the middle loop, over the x names of the z directory `z`. */
  method ConvertZoom(atZ: Node, z: string, zv: int) returns (root: Node, error: Option<Exception>)
    requires atZ.Dir? && z in atZ.children && atZ.children[z].Dir?
    ensures Run(root, error) == WalkX(atZ, z, zv, atZ.children[z].names)
  {
    root := atZ;
    var xs := atZ.children[z].names;
    var j := 0;
    while j < |xs|
      invariant 0 <= j <= |xs|
      invariant root.Dir? && z in root.children && root.children[z].Dir?
      invariant WalkX(root, z, zv, xs[j..]) == WalkX(atZ, z, zv, xs)
    {
      var x := xs[j];
      assert xs[j..][1..] == xs[j + 1..];
      var zdir := root.children[z];
      if ParseInt(x).None? {
        return root, Some(ValueError);
      }
      if x !in zdir.children {
        return root, Some(FileNotFoundError);
      }
      if zdir.children[x].File? {
        return root, Some(NotADirectoryError);
      }
      var col, failed := RenameColumn(zdir.children[x], zv);
      root := SetColumn(root, z, x, col);
      if failed.Some? {
        return root, failed;
      }
      j := j + 1;
    }
    error := None;
  }

  /** `main` (lines 4-21): the outer loop, over the z names of the working
      directory, skipping entries that are not directories. */
  method Convert(cwd: Node) returns (root: Node, error: Option<Exception>)
    requires cwd.Dir?
    ensures Run(root, error) == WalkZ(cwd, cwd.names)
  {
    root := cwd;
    var zs := cwd.names;
    var i := 0;
    while i < |zs|
      invariant 0 <= i <= |zs|
      invariant root.Dir? && root.names == cwd.names
      invariant WalkZ(root, zs[i..]) == WalkZ(cwd, zs)
    {
      var z := zs[i];
      assert zs[i..][1..] == zs[i + 1..];
      if z in root.children && root.children[z].Dir? {
        var zv := ParseInt(z);
        if zv.None? {
          return root, Some(ValueError);
        }
        var failed;
        root, failed := ConvertZoom(root, z, zv.value);
        if failed.Some? {
          return root, failed;
        }
      }
      i := i + 1;
    }
    error := None;
  }
  // ---------------------------------------------------------------- finding

  /** The two rows of zoom 1 trade names. */
  lemma ZoomOneTargets()
    ensures Target("0.png", 1) == Ok("1.png")
    ensures Target("1.png", 1) == Ok("0.png")
  {
    MatchRowName(0);
    MatchRowName(1);
    assert NatToString(0) == "0" && NatToString(1) == "1";
    assert RowName(0) == "0.png" && RowName(1) == "1.png";
    assert Pow2(1) == 2;
  }

  /** The first rename of zoom 1 overwrites the tile of row 1. */
  lemma FirstRenameOverwrites()
    ensures Rename(Dir(["0.png", "1.png"], map["0.png" := File([0]), "1.png" := File([1])]), "0.png", "1.png")
      == Ok(Dir(["1.png"], map["1.png" := File([0])]))
  {
    var d := Dir(["0.png", "1.png"], map["0.png" := File([0]), "1.png" := File([1])]);
    assert Without(["0.png", "1.png"], "0.png") == ["1.png"] by {
      assert ["0.png", "1.png"][1..] == ["1.png"];
      assert ["1.png"][1..] == [];
    }
    assert (d.children - {"0.png"})["1.png" := File([0])] == map["1.png" := File([0])];
  }

  /** The second rename of zoom 1 moves that tile back. */
  lemma SecondRenameRestores()
    ensures Rename(Dir(["1.png"], map["1.png" := File([0])]), "1.png", "0.png")
      == Ok(Dir(["0.png"], map["0.png" := File([0])]))
  {
    var d := Dir(["1.png"], map["1.png" := File([0])]);
    assert Without(["1.png"], "1.png") == [] by {
      assert ["1.png"][1..] == [];
    }
    assert "0.png" != "1.png" by { assert "0.png"[0] != "1.png"[0]; }
    assert "0.png" !in d.children;
    assert [] + ["0.png"] == ["0.png"];
    assert (d.children - {"1.png"})["0.png" := File([0])] == map["0.png" := File([0])];
  }

  /** Renaming in place, in listing order, loses tiles: at zoom 1 the rename
      of `0.png` to `1.png` replaces the tile of row 1 before it was moved, and
      the later rename of `1.png` brings row 0's tile back to `0.png`. */
  lemma InPlaceFlipLosesTile()
    ensures var d := Dir(["0.png", "1.png"], map["0.png" := File([0]), "1.png" := File([1])]);
      var r := FlipColumn(d, d.names, 1);
      r.error == None && r.root.children == map["0.png" := File([0])]
  {
    ZoomOneTargets();
    FirstRenameOverwrites();
    SecondRenameRestores();
    var names := ["0.png", "1.png"];
    var d := Dir(names, map["0.png" := File([0]), "1.png" := File([1])]);
    var d1 := Dir(["1.png"], map["1.png" := File([0])]);
    var d2 := Dir(["0.png"], map["0.png" := File([0])]);
    assert names[1..] == ["1.png"] && ["1.png"][1..] == [];
    assert FlipColumn(d2, [], 1) == Run(d2, None);
    assert FlipColumn(d1, ["1.png"], 1) == Run(d2, None);
    assert FlipColumn(d, names, 1) == Run(d2, None);
  }

  /** `name` is the canonical name of a row of a `2^z`-row grid. */
  predicate IsTileName(name: string, z: nat) {
    MatchRow(name).Some? && MatchRow(name).value < Pow2(z) && name == RowName(MatchRow(name).value)
  }

  function FlippedName(name: string, z: nat): string
    requires MatchRow(name).Some?
  {
    RowName(Flip(z, MatchRow(name).value))
  }

  /** Flipping a tile name gives a tile name, and flipping it back gives the
      name it came from. */
  lemma FlippedNameTwice(n: string, z: nat)
    requires IsTileName(n, z)
    ensures IsTileName(FlippedName(n, z), z)
    ensures FlippedName(FlippedName(n, z), z) == n
  {
    var y := MatchRow(n).value;
    FlipInRange(z, y);
    MatchRowName(Flip(z, y));
    FlipInvolution(z, y);
  }

  /** The names the tiles of `d` move to. */
  function FlippedNames(d: Node, z: nat): set<string>
    requires d.Dir?
  {
    set n | n in d.children && IsTileName(n, z) :: FlippedName(n, z)
  }

  /** A listed directory whose entries are tile names lists tile names. */
  lemma ListedTileNames(d: Node, z: nat)
    requires Listed(d) && forall n :: n in d.children ==> IsTileName(n, z)
    ensures forall i :: 0 <= i < |d.names| ==> IsTileName(d.names[i], z)
  {
    forall i | 0 <= i < |d.names| ensures IsTileName(d.names[i], z) {
      assert d.names[i] in set n | n in d.names;
    }
  }

  /** The listing after the move: each listed name flipped, in place. */
  function FlippedListing(names: seq<string>, z: nat): (r: seq<string>)
    requires forall i :: 0 <= i < |names| ==> IsTileName(names[i], z)
    ensures |r| == |names|
  {
    seq(|names|, i requires 0 <= i < |names| => assert IsTileName(names[i], z); FlippedName(names[i], z))
  }

  /** The flipped listing of a listed column names each moved tile once. */
  lemma FlippedListingListed(d: Node, z: nat)
    requires Listed(d) && forall n :: n in d.children ==> IsTileName(n, z)
    ensures forall i :: 0 <= i < |d.names| ==> IsTileName(d.names[i], z)
    ensures Distinct(FlippedListing(d.names, z))
    ensures FlippedNames(d, z) == set m | m in FlippedListing(d.names, z)
  {
    ListedTileNames(d, z);
    var names := FlippedListing(d.names, z);
    forall i, j | 0 <= i < j < |names| ensures names[i] != names[j] {
      FlippedNameTwice(d.names[i], z);
      FlippedNameTwice(d.names[j], z);
    }
    forall m | m in FlippedNames(d, z) ensures m in names {
      var n :| n in d.children && IsTileName(n, z) && m == FlippedName(n, z);
      assert n in set n | n in d.names;
      var i :| 0 <= i < |d.names| && d.names[i] == n;
      assert names[i] == m;
    }
    forall m | m in names ensures m in FlippedNames(d, z) {
      var i :| 0 <= i < |names| && names[i] == m;
      assert d.names[i] in set n | n in d.names;
    }
  }

  /** Each name `FlipColumnAtOnce` fills is a tile name whose flip is a tile
      of `d`. */
  lemma AtOnceSources(d: Node, z: nat)
    requires d.Dir? && forall n :: n in d.children ==> IsTileName(n, z)
    ensures forall m :: m in FlippedNames(d, z) ==> IsTileName(m, z) && FlippedName(m, z) in d.children
  {
    forall m | m in FlippedNames(d, z) ensures IsTileName(m, z) && FlippedName(m, z) in d.children {
      var n :| n in d.children && IsTileName(n, z) && m == FlippedName(n, z);
      FlippedNameTwice(n, z);
    }
  }

  /** What the script is for: every tile moves to its flipped row, all at once,
      so that no rename can land on a tile that has not moved yet. The tile
      now named `m` is the one that was named `FlippedName(m, z)`, and the
      listing names the moved tiles in the order of the old one. */
  function FlipColumnAtOnce(d: Node, z: nat): (r: Node)
    requires Listed(d) && forall n :: n in d.children ==> IsTileName(n, z)
    ensures Listed(r)
    ensures |r.names| == |d.names|
    ensures forall i :: 0 <= i < |d.names| ==> IsTileName(d.names[i], z) && r.names[i] == FlippedName(d.names[i], z)
  {
    AtOnceSources(d, z);
    FlippedListingListed(d, z);
    Dir(FlippedListing(d.names, z), map m | m in FlippedNames(d, z) :: d.children[FlippedName(m, z)])
  }

  /** Every tile is kept, under its flipped name. */
  lemma FlipColumnAtOnceMoves(d: Node, z: nat)
    requires Listed(d) && forall n :: n in d.children ==> IsTileName(n, z)
    ensures var r := FlipColumnAtOnce(d, z);
      forall n :: n in d.children ==> FlippedName(n, z) in r.children && r.children[FlippedName(n, z)] == d.children[n]
  {
    var r := FlipColumnAtOnce(d, z);
    forall n | n in d.children
      ensures FlippedName(n, z) in r.children && r.children[FlippedName(n, z)] == d.children[n]
    {
      FlippedNameTwice(n, z);
      assert FlippedName(n, z) in FlippedNames(d, z);
    }
  }

  /** Nothing else appears: the new names are again the tile names of the
      zoom level, each the flip of an old one. */
  lemma FlipColumnAtOnceTileNames(d: Node, z: nat)
    requires Listed(d) && forall n :: n in d.children ==> IsTileName(n, z)
    ensures forall m :: m in FlipColumnAtOnce(d, z).children ==>
      IsTileName(m, z) && FlippedName(m, z) in d.children
  {
    var r := FlipColumnAtOnce(d, z);
    forall m | m in r.children ensures IsTileName(m, z) && FlippedName(m, z) in d.children {
      var n :| n in d.children && IsTileName(n, z) && m == FlippedName(n, z);
      FlippedNameTwice(n, z);
    }
  }

  /** A tile name is renamed to its flipped name. */
  lemma TargetOfTileName(n: string, z: nat)
    requires IsTileName(n, z)
    ensures Target(n, z) == Ok(FlippedName(n, z))
  {
  }

  /** The flip as a renaming of every name: a name that does not match the
      pattern keeps its name. */
  function Flipper(z: nat): string -> string {
    n => if MatchRow(n).Some? then FlippedName(n, z) else n
  }

  /** The entries of a directory after `os.rename(n, t)`, when it succeeds. */
  function Moved(m: map<string, Node>, n: string, t: string): map<string, Node>
    requires n in m
  {
    (m - {n})[t := m[n]]
  }

  /** Each name of `rest` is listed once and present in `m`; `f` sends it to
      itself or to a name free in `m`, and no two of them to the same name. */
  predicate ClearMoves(m: map<string, Node>, rest: seq<string>, f: string -> string) {
    && Distinct(rest)
    && (forall i :: 0 <= i < |rest| ==> rest[i] in m && (f(rest[i]) == rest[i] || f(rest[i]) !in m))
    && (forall i, j :: 0 <= i < j < |rest| ==> f(rest[i]) != f(rest[j]))
  }

  /** One move keeps the rest clear: none of them is the name just taken or
      is sent to it. */
  lemma ClearAfterMove(m: map<string, Node>, rest: seq<string>, f: string -> string)
    requires ClearMoves(m, rest, f) && rest != []
    ensures ClearMoves(Moved(m, rest[0], f(rest[0])), rest[1..], f)
  {
    assert forall i :: 0 <= i < |rest[1..]| ==> rest[1..][i] == rest[i + 1] && rest[0] != rest[i + 1];
  }

  /** `c` holds each entry named in `rest` under the name `f` gives it, every
      other entry of `m` under its own name, and nothing else. */
  predicate MovedTo(m: map<string, Node>, rest: seq<string>, f: string -> string, c: map<string, Node>)
    requires ClearMoves(m, rest, f)
  {
    && (forall i :: 0 <= i < |rest| ==> f(rest[i]) in c && c[f(rest[i])] == m[rest[i]])
    && (forall k :: k in m && k !in rest ==> k in c && c[k] == m[k])
    && (forall k :: k in c ==> (k in m && k !in rest) || exists i :: 0 <= i < |rest| && k == f(rest[i]))
  }

  /** Moving the first name and then the rest is moving them all. */
  lemma MovedToStep(m: map<string, Node>, rest: seq<string>, f: string -> string, c: map<string, Node>)
    requires ClearMoves(m, rest, f) && rest != []
    requires ClearMoves(Moved(m, rest[0], f(rest[0])), rest[1..], f)
    requires MovedTo(Moved(m, rest[0], f(rest[0])), rest[1..], f, c)
    ensures MovedTo(m, rest, f, c)
  {
    MovedToStepMoved(m, rest, f, c);
    MovedToStepKept(m, rest, f, c);
    MovedToStepOnly(m, rest, f, c);
  }

  /** The first clause of `MovedToStep`: every name of `rest` has moved. */
  lemma MovedToStepMoved(m: map<string, Node>, rest: seq<string>, f: string -> string, c: map<string, Node>)
    requires ClearMoves(m, rest, f) && rest != []
    requires ClearMoves(Moved(m, rest[0], f(rest[0])), rest[1..], f)
    requires MovedTo(Moved(m, rest[0], f(rest[0])), rest[1..], f, c)
    ensures forall i :: 0 <= i < |rest| ==> f(rest[i]) in c && c[f(rest[i])] == m[rest[i]]
  {
    var n, t, rest' := rest[0], f(rest[0]), rest[1..];
    assert t !in rest';
    forall i | 0 <= i < |rest| ensures f(rest[i]) in c && c[f(rest[i])] == m[rest[i]] {
      if i > 0 {
        assert rest[i] == rest'[i - 1] != n;
      }
    }
  }

  /** The second clause of `MovedToStep`: every other entry stays. */
  lemma MovedToStepKept(m: map<string, Node>, rest: seq<string>, f: string -> string, c: map<string, Node>)
    requires ClearMoves(m, rest, f) && rest != []
    requires ClearMoves(Moved(m, rest[0], f(rest[0])), rest[1..], f)
    requires MovedTo(Moved(m, rest[0], f(rest[0])), rest[1..], f, c)
    ensures forall k :: k in m && k !in rest ==> k in c && c[k] == m[k]
  {
    forall k | k in m && k !in rest ensures k in c && c[k] == m[k] {
      assert k != rest[0] && k !in rest[1..];
    }
  }

  /** The last clause of `MovedToStep`: nothing but the moved names and the
      untouched ones is in `c`. */
  lemma MovedToStepOnly(m: map<string, Node>, rest: seq<string>, f: string -> string, c: map<string, Node>)
    requires ClearMoves(m, rest, f) && rest != []
    requires ClearMoves(Moved(m, rest[0], f(rest[0])), rest[1..], f)
    requires MovedTo(Moved(m, rest[0], f(rest[0])), rest[1..], f, c)
    ensures forall k :: k in c ==> (k in m && k !in rest) || exists i :: 0 <= i < |rest| && k == f(rest[i])
  {
    var n, t, rest' := rest[0], f(rest[0]), rest[1..];
    var m' := Moved(m, n, t);
    forall k | k in c ensures (k in m && k !in rest) || exists i :: 0 <= i < |rest| && k == f(rest[i]) {
      if k !in m' || k in rest' {
        var i :| 0 <= i < |rest'| && k == f(rest'[i]);
        assert k == f(rest[i + 1]);
      } else if k == t {
        assert k == f(rest[0]);
      } else {
        assert k !in rest by { assert k != n; }
      }
    }
  }

  /** Every name of `rest` is a tile name of zoom `z`. */
  predicate TileNames(rest: seq<string>, z: nat) {
    forall i :: 0 <= i < |rest| ==> IsTileName(rest[i], z)
  }

  /** Renaming clear tile names in turn raises nothing, moves each of them to
      its flipped name, leaves every other entry alone and adds nothing. */
  lemma {:induction false} FlipColumnClear(d: Node, rest: seq<string>, z: nat)
    requires d.Dir? && TileNames(rest, z) && ClearMoves(d.children, rest, Flipper(z))
    ensures FlipColumn(d, rest, z).error.None?
    ensures MovedTo(d.children, rest, Flipper(z), FlipColumn(d, rest, z).root.children)
    decreases |rest|
  {
    if rest != [] {
      var n, rest' := rest[0], rest[1..];
      var t := FlippedName(n, z);
      assert Flipper(z)(n) == t;
      TargetOfTileName(n, z);
      var d' := Rename(d, n, t).value;
      if t == n {
        assert Moved(d.children, n, t) == d.children;
      }
      assert d'.children == Moved(d.children, n, t);
      ClearAfterMove(d.children, rest, Flipper(z));
      assert TileNames(rest', z) by {
        assert forall i :: 0 <= i < |rest'| ==> rest'[i] == rest[i + 1];
      }
      assert FlipColumn(d, rest, z) == FlipColumn(d', rest', z);
      FlipColumnClear(d', rest', z);
      MovedToStep(d.children, rest, Flipper(z), FlipColumn(d', rest', z).root.children);
    }
  }

  /** Where no tile is flipped onto another listed tile, renaming in place
      does what the script is for: no exception, and every tile under the name
      that moving them all at once gives it. Tile names of one zoom have
      distinct flips, so a tile is lost only when its flipped name is already
      taken. */
  lemma InPlaceFlipWithoutClash(d: Node, z: nat)
    requires Listed(d)
    requires forall n :: n in d.children ==>
      IsTileName(n, z) && (FlippedName(n, z) == n || FlippedName(n, z) !in d.children)
    ensures FlipColumn(d, d.names, z).error.None?
    ensures FlipColumn(d, d.names, z).root.children == FlipColumnAtOnce(d, z).children
  {
    ListedClear(d, z);
    FlipColumnClear(d, d.names, z);
    var c := FlipColumn(d, d.names, z).root.children;
    MovedListed(d, z, c);
    MovedListedOnly(d, z, c);
    SameMoves(d, z, c);
  }

  /** The listed names of such a column are clear to flip. */
  lemma ListedClear(d: Node, z: nat)
    requires Listed(d)
    requires forall n :: n in d.children ==>
      IsTileName(n, z) && (FlippedName(n, z) == n || FlippedName(n, z) !in d.children)
    ensures forall n :: n in d.names <==> n in d.children
    ensures forall i :: 0 <= i < |d.names| ==> IsTileName(d.names[i], z) && Flipper(z)(d.names[i]) == FlippedName(d.names[i], z)
    ensures TileNames(d.names, z) && ClearMoves(d.children, d.names, Flipper(z))
  {
    forall n ensures n in d.names <==> n in d.children {
      assert n in d.names <==> n in set m | m in d.names;
    }
    var f := Flipper(z);
    forall i | 0 <= i < |d.names| ensures IsTileName(d.names[i], z) && f(d.names[i]) == FlippedName(d.names[i], z) {
      assert d.names[i] in d.children;
    }
    forall i, j | 0 <= i < j < |d.names| ensures f(d.names[i]) != f(d.names[j]) {
      assert d.names[i] in d.children && d.names[j] in d.children;
      FlippedNameTwice(d.names[i], z);
      FlippedNameTwice(d.names[j], z);
    }
  }

  /** Moving every listed tile of a listed column moves every tile. */
  lemma MovedListed(d: Node, z: nat, c: map<string, Node>)
    requires d.Dir? && forall n :: n in d.names <==> n in d.children
    requires forall i :: 0 <= i < |d.names| ==> IsTileName(d.names[i], z) && Flipper(z)(d.names[i]) == FlippedName(d.names[i], z)
    requires ClearMoves(d.children, d.names, Flipper(z)) && MovedTo(d.children, d.names, Flipper(z), c)
    ensures forall n :: n in d.children ==> IsTileName(n, z) && FlippedName(n, z) in c && c[FlippedName(n, z)] == d.children[n]
  {
    forall n | n in d.children ensures IsTileName(n, z) && FlippedName(n, z) in c && c[FlippedName(n, z)] == d.children[n] {
      var i :| 0 <= i < |d.names| && d.names[i] == n;
    }
  }

  /** A listed column moved this way holds nothing but flipped tiles. */
  lemma MovedListedOnly(d: Node, z: nat, c: map<string, Node>)
    requires d.Dir? && forall n :: n in d.names <==> n in d.children
    requires forall i :: 0 <= i < |d.names| ==> IsTileName(d.names[i], z) && Flipper(z)(d.names[i]) == FlippedName(d.names[i], z)
    requires ClearMoves(d.children, d.names, Flipper(z)) && MovedTo(d.children, d.names, Flipper(z), c)
    ensures forall k :: k in c ==> exists n :: n in d.children && IsTileName(n, z) && k == FlippedName(n, z)
  {
    forall k | k in c ensures exists n :: n in d.children && IsTileName(n, z) && k == FlippedName(n, z) {
      var i :| 0 <= i < |d.names| && k == Flipper(z)(d.names[i]);
      assert d.names[i] in d.children;
    }
  }

  /** A map that holds each tile of `d` under its flipped name, and nothing
      else, is the column `FlipColumnAtOnce` builds. */
  lemma SameMoves(d: Node, z: nat, c: map<string, Node>)
    requires Listed(d) && forall n :: n in d.children ==> IsTileName(n, z)
    requires forall n :: n in d.children ==> IsTileName(n, z) && FlippedName(n, z) in c && c[FlippedName(n, z)] == d.children[n]
    requires forall k :: k in c ==> exists n :: n in d.children && IsTileName(n, z) && k == FlippedName(n, z)
    ensures c == FlipColumnAtOnce(d, z).children
  {
    var a := FlipColumnAtOnce(d, z).children;
    FlipColumnAtOnceMoves(d, z);
    forall k | k in c ensures k in a && a[k] == c[k] {
      var n :| n in d.children && IsTileName(n, z) && k == FlippedName(n, z);
    }
    AtOnceKeysMoved(d, z, c);
    SameEntries(c, a);
  }

  lemma SameEntries(c: map<string, Node>, a: map<string, Node>)
    requires forall k :: k in c ==> k in a && a[k] == c[k]
    requires forall k :: k in a ==> k in c
    ensures c == a
  {
  }

  /** Every name `FlipColumnAtOnce` fills is the flip of a tile of `d`, so a
      map holding each tile under its flipped name has it too. */
  lemma AtOnceKeysMoved(d: Node, z: nat, c: map<string, Node>)
    requires Listed(d) && forall n :: n in d.children ==> IsTileName(n, z)
    requires forall n :: n in d.children ==> IsTileName(n, z) && FlippedName(n, z) in c
    ensures forall k :: k in FlipColumnAtOnce(d, z).children ==> k in c
  {
    FlipColumnAtOnceTileNames(d, z);
    forall k | k in FlipColumnAtOnce(d, z).children ensures k in c {
      FlippedNameTwice(k, z);
    }
  }
}
