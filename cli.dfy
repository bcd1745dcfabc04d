/** How src/cli.rs interprets the parsed command line: the output base, the
    blend factor, the threshold, the output path, the two image paths and the
    block-out rectangles. */
module Cli {
  import opened Wrappers
  import opened Pixels
  import opened Getopts
  import opened Text

  const HelpOption := "h"
  const VersionOption := "v"
  const DontCheckDimensionsOption := "i"
  const CopyImageAsBaseOption := "c"
  const OutputImagePathOption := "o"
  const ThresholdOption := "t"
  const DetectAntiAliasedOption := "d"
  const BlendFactorOption := "a"
  const BlockOutAreaOption := "b"
  const DefaultPathOfDiffImage := "diff.png"

  datatype OutputImageBase = LeftImage | RightImage

  /** The errors the accessors report; each carries the text it complains about. */
  datatype CliError =
    | UnsupportedCopyImage(value: string)
    | InvalidAlpha(text: string)
    | AlphaOutOfRange(text: string)
    | InvalidThreshold(text: string)
    | MissingArgument(name: string)

  /** `str::parse::<f32>` is a parameter of the accessors that need it. */
  type FloatParser = string -> Option<real>

  /** `show_help`: `-h` occurred at least once; any value it carried is ignored. */
  predicate ShowHelp(m: Matches) {
    m.OptPresent(HelpOption)
  }

  /** `show_version`: `-v` occurred at least once; any value it carried is ignored. */
  predicate ShowVersion(m: Matches) {
    m.OptPresent(VersionOption)
  }

  /** `do_not_check_dimensions`: `-i` occurred at least once; any value it carried is ignored. */
  predicate DoNotCheckDimensions(m: Matches) {
    m.OptPresent(DontCheckDimensionsOption)
  }

  /** `detect_anti_aliased_pixels`: `-d` occurred at least once; any value it carried is ignored. */
  predicate DetectAntiAliasedPixels(m: Matches) {
    m.OptPresent(DetectAntiAliasedOption)
  }

  /** `copy_specific_image_to_output_as_base`: absent means no base image, a
      bare flag means left, and `left`/`right` are accepted in any letter case. */
  function CopyImageAsBase(m: Matches): (r: Result<Option<OutputImageBase>, CliError>)
    ensures r == Ok(None) <==> !m.OptPresent(CopyImageAsBaseOption)
    ensures r == Ok(Some(LeftImage)) <==>
              m.OptPresent(CopyImageAsBaseOption)
              && (m.OptStr(CopyImageAsBaseOption).None? || SameLetters(m.OptStr(CopyImageAsBaseOption).value, "left"))
    ensures r == Ok(Some(RightImage)) <==>
              m.OptStr(CopyImageAsBaseOption).Some? && SameLetters(m.OptStr(CopyImageAsBaseOption).value, "right")
    ensures r.Err? <==>
              && m.OptStr(CopyImageAsBaseOption).Some?
              && !SameLetters(m.OptStr(CopyImageAsBaseOption).value, "left")
              && !SameLetters(m.OptStr(CopyImageAsBaseOption).value, "right")
  {
    if !m.OptPresent(CopyImageAsBaseOption) then Ok(None)
    else match m.OptStr(CopyImageAsBaseOption)
      case Some(value) =>
        ToLowerMatches(value, "left");
        ToLowerMatches(value, "right");
        var lower := ToLower(value);
        if lower == "left" then Ok(Some(LeftImage))
        else if lower == "right" then Ok(Some(RightImage))
        else Err(UnsupportedCopyImage(lower))
      case None => Ok(Some(LeftImage))
  }

  /** `blend_factor_of_unchanged_pixels`: absent means none, a bare flag means
      0.1, and a given value must parse and lie in [0, 1]. */
  function BlendFactor(m: Matches, parse: FloatParser): (r: Result<Option<real>, CliError>)
    ensures r == Ok(None) <==> !m.OptPresent(BlendFactorOption)
    ensures m.OptPresent(BlendFactorOption) && m.OptStr(BlendFactorOption).None? ==> r == Ok(Some(0.1))
    ensures r.Ok? && r.value.Some? ==> 0.0 <= r.value.value <= 1.0
    ensures r.Err? <==>
              && m.OptStr(BlendFactorOption).Some?
              && var n := parse(m.OptStr(BlendFactorOption).value);
                 n.None? || !(0.0 <= n.value <= 1.0)
    ensures m.OptStr(BlendFactorOption).Some? && r.Ok? ==> r.value == parse(m.OptStr(BlendFactorOption).value)
  {
    if !m.OptPresent(BlendFactorOption) then Ok(None)
    else match m.OptStr(BlendFactorOption)
      case Some(s) =>
        (match parse(s)
         case None => Err(InvalidAlpha(s))
         case Some(n) => if 0.0 <= n <= 1.0 then Ok(Some(n)) else Err(AlphaOutOfRange(s)))
      case None => Ok(Some(0.1))
  }

  /** `get_output_image_path`: the -o value, or diff.png. */
  function OutputImagePath(m: Matches): (path: string)
    ensures m.OptStr(OutputImagePathOption).None? ==> path == DefaultPathOfDiffImage
    ensures m.OptStr(OutputImagePathOption).Some? ==> path == m.OptStr(OutputImagePathOption).value
  {
    m.OptStr(OutputImagePathOption).GetOr(DefaultPathOfDiffImage)
  }

  /** `get_threshold`: the parsed -t value, or 0.1. The value is not checked
      against [0, 1]. */
  function Threshold(m: Matches, parse: FloatParser): (r: Result<real, CliError>)
    ensures m.OptStr(ThresholdOption).None? ==> r == Ok(0.1)
    ensures r.Err? <==> m.OptStr(ThresholdOption).Some? && parse(m.OptStr(ThresholdOption).value).None?
    ensures m.OptStr(ThresholdOption).Some? && r.Ok? ==> Some(r.value) == parse(m.OptStr(ThresholdOption).value)
  {
    match m.OptStr(ThresholdOption)
    case None => Ok(0.1)
    case Some(s) =>
      match parse(s)
      case Some(t) => Ok(t)
      case None => Err(InvalidThreshold(s))
  }

  /** `get_image_paths_of_left_right_diff`: the first two free arguments;
      LEFT is reported missing before RIGHT is looked at. */
  function ImagePaths(m: Matches): (r: Result<(string, string), CliError>)
    ensures r == Err(MissingArgument("LEFT")) <==> |m.free| == 0
    ensures r == Err(MissingArgument("RIGHT")) <==> |m.free| == 1
    ensures r.Ok? <==> |m.free| >= 2
    ensures r.Ok? ==> r.value == (m.free[0], m.free[1])
  {
    if |m.free| == 0 then Err(MissingArgument("LEFT"))
    else if |m.free| == 1 then Err(MissingArgument("RIGHT"))
    else Ok((m.free[0], m.free[1]))
  }

  /** A block-out rectangle: origin and extent. */
  datatype Rect = Rect(x: U32, y: U32, width: U32, height: U32)

  /** The k-th comma segment as a number; missing or unparseable is 0. */
  function Segment(parts: seq<string>, k: nat): (v: U32)
    ensures k < |parts| && ParseU32(parts[k]).Some? ==> v == ParseU32(parts[k]).value
    ensures v > 0 ==> k < |parts| && ParseU32(parts[k]) == Some(v)
  {
    if k < |parts| then ParseU32(parts[k]).GetOr(0) else 0
  }

  /** The rectangle four segments describe; any zero field drops it. */
  function RectOf(parts: seq<string>): (r: Option<Rect>)
    ensures r.None? <==>
              Segment(parts, 0) == 0 || Segment(parts, 1) == 0 || Segment(parts, 2) == 0 || Segment(parts, 3) == 0
    ensures r.Some? ==> r.value == Rect(Segment(parts, 0), Segment(parts, 1), Segment(parts, 2), Segment(parts, 3))
    ensures r.Some? ==> r.value.x > 0 && r.value.y > 0 && r.value.width > 0 && r.value.height > 0
  {
    var x, y, width, height := Segment(parts, 0), Segment(parts, 1), Segment(parts, 2), Segment(parts, 3);
    if x == 0 || y == 0 || width == 0 || height == 0 then None
    else Some(Rect(x, y, width, height))
  }

  /** One -b value: split into at most four comma segments. A value with
      fewer than three commas misses a field, which reads as 0, so it is
      dropped. */
  function ParseArea(area: string): (r: Option<Rect>)
    ensures r.Some? ==> |SplitN(area, 4, ',')| == 4
    ensures r.Some? ==> r.value.x > 0 && r.value.y > 0 && r.value.width > 0 && r.value.height > 0
  {
    RectOf(SplitN(area, 4, ','))
  }

  /** The end coordinates `x + width` and `y + height` fit in a u32. */
  predicate FitsU32(r: Rect) {
    r.x + r.width < 0x1_0000_0000 && r.y + r.height < 0x1_0000_0000
  }

  /** The points a rectangle blocks out, both ends included. */
  function Points(r: Rect): (pts: set<(U32, U32)>)
    ensures forall p :: p in pts ==> r.x <= p.0 <= r.x + r.width && r.y <= p.1 <= r.y + r.height
    ensures r.x + r.width < 0x1_0000_0000 && r.y + r.height < 0x1_0000_0000 ==>
              (r.x, r.y) in pts && (r.x + r.width, r.y + r.height) in pts
  {
    set i: U32, j: U32 | r.x <= i <= r.x + r.width && r.y <= j <= r.y + r.height :: (i, j)
  }

  /** The fold step for one parsed -b value. */
  function AddArea(acc: Option<set<(U32, U32)>>, area: Option<Rect>): (r: Option<set<(U32, U32)>>)
    ensures r.None? <==> acc.None? && area.None?
    ensures area.None? ==> r == acc
    ensures r.Some? && area.Some? ==> Points(area.value) <= r.value && acc.GetOr({}) <= r.value
  {
    match area
    case None => acc
    case Some(rect) => Some(acc.GetOr({}) + Points(rect))
  }

  /** The fold over parsed -b values, left to right, starting from None. */
  function Union(parsed: seq<Option<Rect>>): (u: Option<set<(U32, U32)>>)
    ensures parsed != [] && parsed[|parsed| - 1].Some? ==> u.Some? && Points(parsed[|parsed| - 1].value) <= u.value
  {
    if parsed == [] then None else AddArea(Union(parsed[..|parsed| - 1]), parsed[|parsed| - 1])
  }

  /** Every -b value parsed by `parse`, in order. */
  function ParseEach(parse: string -> Option<Rect>, areas: seq<string>): (parsed: seq<Option<Rect>>)
    ensures |parsed| == |areas|
    ensures forall k :: 0 <= k < |areas| ==> parsed[k] == parse(areas[k])
  {
    seq(|areas|, k requires 0 <= k < |areas| => parse(areas[k]))
  }

  lemma ParseEachSnoc(parse: string -> Option<Rect>, areas: seq<string>, k: nat)
    requires k < |areas|
    ensures ParseEach(parse, areas[..k + 1]) == ParseEach(parse, areas[..k]) + [parse(areas[k])]
  {
  }

  /** What `get_block_out_area` computes from the -b values. */
  function BlockOut(areas: seq<string>): Option<set<(U32, U32)>> {
    Union(ParseEach(ParseArea, areas))
  }

  /** The points with first coordinate in [x0, x1) and second in [y0, y1). */
  function Block(x0: nat, x1: nat, y0: nat, y1: nat): set<(U32, U32)> {
    set i: U32, j: U32 | x0 <= i < x1 && y0 <= j < y1 :: (i, j)
  }

  lemma BlockColumnStep(i: U32, y0: nat, j: U32)
    requires y0 <= j
    ensures Block(i, i + 1, y0, j) + {(i, j)} == Block(i, i + 1, y0, j + 1)
  {
    var column := Block(i, i + 1, y0, j + 1);
    forall p | p in column ensures p in Block(i, i + 1, y0, j) + {(i, j)} {
      var (a, b) := p;
      if b < j { assert p in Block(i, i + 1, y0, j); }
    }
  }

  lemma BlockRowStep(x0: nat, i: U32, y0: nat, y1: nat)
    requires x0 <= i
    ensures Block(x0, i, y0, y1) + Block(i, i + 1, y0, y1) == Block(x0, i + 1, y0, y1)
  {
    var rows := Block(x0, i + 1, y0, y1);
    forall p | p in rows ensures p in Block(x0, i, y0, y1) + Block(i, i + 1, y0, y1) {
      var (a, b) := p;
      if a < i { assert p in Block(x0, i, y0, y1); } else { assert p in Block(i, i + 1, y0, y1); }
    }
  }

  lemma BlockIsPoints(r: Rect)
    ensures Block(r.x, r.x + r.width + 1, r.y, r.y + r.height + 1) == Points(r)
  {
  }

  predicate AreasFit(areas: seq<string>) {
    forall k :: 0 <= k < |areas| && ParseArea(areas[k]).Some? ==> FitsU32(ParseArea(areas[k]).value)
  }

  /** `get_block_out_area`: the union of all kept rectangles, or None when no
      rectangle was kept. */
  method BlockOutArea(m: Matches) returns (r: Option<set<(U32, U32)>>)
    requires AreasFit(m.OptStrs(BlockOutAreaOption))
    ensures r == BlockOut(m.OptStrs(BlockOutAreaOption))
  {
    var areas := m.OptStrs(BlockOutAreaOption);
    var acc: Option<set<(U32, U32)>> := None;
    for k := 0 to |areas|
      invariant acc == Union(ParseEach(ParseArea, areas[..k]))
    {
      var area := ParseArea(areas[k]);
      ParseEachSnoc(ParseArea, areas, k);
      match area {
        case None =>
        case Some(rect) =>
          var points := acc.GetOr({});
          points := InsertRect(points, rect);
          acc := Some(points);
      }
    }
    assert areas[..|areas|] == areas;
    r := acc;
  }

  /** The two nested loops that insert every point of one kept rectangle. */
  method InsertRect(points: set<(U32, U32)>, rect: Rect) returns (result: set<(U32, U32)>)
    requires FitsU32(rect)
    ensures result == points + Points(rect)
  {
    result := points;
    var xEnd, yEnd := rect.x + rect.width, rect.y + rect.height;
    for i := rect.x to xEnd + 1
      invariant result == points + Block(rect.x, i, rect.y, yEnd + 1)
    {
      for j := rect.y to yEnd + 1
        invariant result == points + Block(rect.x, i, rect.y, yEnd + 1) + Block(i, i + 1, rect.y, j)
      {
        result := result + {(i, j)};
        BlockColumnStep(i, rect.y, j);
      }
      BlockRowStep(rect.x, i, rect.y, yEnd + 1);
    }
    BlockIsPoints(rect);
  }
}

/** Properties of the block-out parser. */
module CliProperties {
  import opened Wrappers
  import opened Pixels
  import opened Text
  import opened Cli

  lemma {:induction false} ColumnSize(i: nat, y0: nat, y1: nat)
    requires i < 0x1_0000_0000 && y0 <= y1 <= 0x1_0000_0000
    ensures |Block(i, i + 1, y0, y1)| == y1 - y0
    decreases y1 - y0
  {
    if y1 == y0 {
      assert Block(i, i + 1, y0, y1) == {};
    } else {
      ColumnSize(i, y0, y1 - 1);
      BlockColumnStep(i, y0, y1 - 1);
      assert (i, y1 - 1) !in Block(i, i + 1, y0, y1 - 1);
    }
  }

  lemma {:induction false} BlockSize(x0: nat, x1: nat, y0: nat, y1: nat)
    requires x0 <= x1 <= 0x1_0000_0000 && y0 <= y1 <= 0x1_0000_0000
    ensures |Block(x0, x1, y0, y1)| == (x1 - x0) * (y1 - y0)
    decreases x1 - x0
  {
    if x1 == x0 {
      assert Block(x0, x1, y0, y1) == {};
    } else {
      BlockSize(x0, x1 - 1, y0, y1);
      BlockGrows(x0, x1 - 1, y0, y1);
      assert (x1 - x0) * (y1 - y0) == (x1 - 1 - x0) * (y1 - y0) + (y1 - y0);
    }
  }

  /** Adding column i adds y1 - y0 points. */
  lemma BlockGrows(x0: nat, i: nat, y0: nat, y1: nat)
    requires x0 <= i < 0x1_0000_0000 && y0 <= y1 <= 0x1_0000_0000
    ensures |Block(x0, i + 1, y0, y1)| == |Block(x0, i, y0, y1)| + (y1 - y0)
  {
    BlockRowStep(x0, i, y0, y1);
    DisjointColumns(x0, i, y0, y1);
    ColumnSize(i, y0, y1);
  }

  lemma DisjointColumns(x0: nat, i: nat, y0: nat, y1: nat)
    ensures Block(x0, i, y0, y1) !! Block(i, i + 1, y0, y1)
  {
  }

  /** A kept rectangle blocks out (width + 1) * (height + 1) points. */
  lemma PointsCount(r: Rect)
    requires FitsU32(r)
    ensures |Points(r)| == (r.width + 1) * (r.height + 1)
  {
    BlockIsPoints(r);
    BlockSize(r.x, r.x + r.width + 1, r.y, r.y + r.height + 1);
  }

  lemma {:induction false} UnionNone(parsed: seq<Option<Rect>>)
    ensures Union(parsed).None? <==> forall o :: o in parsed ==> o.None?
  {
    if parsed != [] {
      var init := parsed[..|parsed| - 1];
      UnionNone(init);
      assert parsed == init + [parsed[|parsed| - 1]];
    }
  }

  lemma {:induction false} UnionMembership(parsed: seq<Option<Rect>>, p: (U32, U32))
    requires Union(parsed).Some?
    ensures p in Union(parsed).value <==> exists o :: o in parsed && o.Some? && p in Points(o.value)
  {
    var init, last := parsed[..|parsed| - 1], parsed[|parsed| - 1];
    assert parsed == init + [last];
    if Union(init).Some? {
      UnionMembership(init, p);
    } else {
      UnionNone(init);
    }
  }

  /** The union depends only on which parse results occur, not on their order
      or repetition. */
  lemma UnionSameElements(pa: seq<Option<Rect>>, pb: seq<Option<Rect>>)
    requires forall o :: o in pa <==> o in pb
    ensures Union(pa) == Union(pb)
  {
    UnionNone(pa);
    UnionNone(pb);
    if Union(pa).Some? && Union(pb).Some? {
      forall p ensures p in Union(pa).value <==> p in Union(pb).value {
        UnionMembership(pa, p);
        UnionMembership(pb, p);
      }
      assert Union(pa).value == Union(pb).value;
    }
  }

  lemma ParseEachElements(parse: string -> Option<Rect>, a: seq<string>, b: seq<string>)
    requires forall s :: s in a ==> s in b
    ensures forall o :: o in ParseEach(parse, a) ==> o in ParseEach(parse, b)
  {
    var pa, pb := ParseEach(parse, a), ParseEach(parse, b);
    forall o | o in pa ensures o in pb {
      var k :| 0 <= k < |pa| && pa[k] == o;
      assert a[k] in b;
      var l :| 0 <= l < |b| && b[l] == a[k];
      assert pb[l] == o;
    }
  }

  /** Reordering the -b values does not change the union. */
  lemma UnionOrderFree(parse: string -> Option<Rect>, a: seq<string>, b: seq<string>)
    requires multiset(a) == multiset(b)
    ensures Union(ParseEach(parse, a)) == Union(ParseEach(parse, b))
  {
    forall s | s in a ensures s in b {
      assert s in multiset(a);
    }
    forall s | s in b ensures s in a {
      assert s in multiset(b);
    }
    ParseEachElements(parse, a, b);
    ParseEachElements(parse, b, a);
    UnionSameElements(ParseEach(parse, a), ParseEach(parse, b));
  }

  /** No rectangle kept, no block-out set. */
  lemma BlockOutNone(areas: seq<string>)
    ensures BlockOut(areas).None? <==> forall k :: 0 <= k < |areas| ==> ParseArea(areas[k]).None?
  {
    var parsed := ParseEach(ParseArea, areas);
    UnionNone(parsed);
    if forall k :: 0 <= k < |areas| ==> ParseArea(areas[k]).None? {
      forall o | o in parsed ensures o.None? {
        var k :| 0 <= k < |parsed| && parsed[k] == o;
      }
    }
  }

  /** A point is blocked out exactly when some kept rectangle contains it. */
  lemma BlockOutMembership(areas: seq<string>, p: (U32, U32))
    requires BlockOut(areas).Some?
    ensures p in BlockOut(areas).value <==>
              exists k :: 0 <= k < |areas| && ParseArea(areas[k]).Some? && p in Points(ParseArea(areas[k]).value)
  {
    var parsed := ParseEach(ParseArea, areas);
    UnionMembership(parsed, p);
    if p in BlockOut(areas).value {
      var o :| o in parsed && o.Some? && p in Points(o.value);
      var k :| 0 <= k < |parsed| && parsed[k] == o;
    }
  }

  /** The order of the -b options does not matter. */
  lemma BlockOutOrderFree(a: seq<string>, b: seq<string>)
    requires multiset(a) == multiset(b)
    ensures BlockOut(a) == BlockOut(b)
  {
    UnionOrderFree(ParseArea, a, b);
  }

  lemma IndexOfAfter(a: string, rest: string, c: char)
    requires c !in a
    ensures IndexOf(a + [c] + rest, c) == Some(|a|)
  {
    var s := a + [c] + rest;
    assert s[|a|] == c && s[..|a|] == a;
    match IndexOf(s, c)
    case None =>
    case Some(k) =>
      if k < |a| {
        assert s[k] == a[k];
      }
  }

  lemma SplitAfter(a: string, rest: string, n: nat)
    requires n >= 2 && ',' !in a
    ensures SplitN(a + [','] + rest, n, ',') == [a] + SplitN(rest, n - 1, ',')
  {
    var s := a + [','] + rest;
    IndexOfAfter(a, rest, ',');
    assert s[..|a|] == a && s[|a| + 1..] == rest;
  }

  lemma DecimalHasNoComma(n: nat)
    ensures ',' !in Decimal(n)
  {
  }

  lemma SplitRendered(dx: string, dy: string, dw: string, dh: string)
    requires ',' !in dx && ',' !in dy && ',' !in dw
    ensures SplitN(dx + "," + dy + "," + dw + "," + dh, 4, ',') == [dx, dy, dw, dh]
  {
    var t3 := dw + [','] + dh;
    var t2 := dy + [','] + t3;
    var t1 := dx + [','] + t2;
    assert dx + "," + dy + "," + dw + "," + dh == t1;
    calc {
      SplitN(t1, 4, ',');
      { SplitAfter(dx, t2, 4); }
      [dx] + SplitN(t2, 3, ',');
      { SplitAfter(dy, t3, 3); }
      [dx] + ([dy] + SplitN(t3, 2, ','));
      { SplitAfter(dw, dh, 2); }
      [dx] + ([dy] + ([dw] + SplitN(dh, 1, ',')));
      [dx, dy, dw, dh];
    }
  }

  lemma SegmentDecimal(parts: seq<string>, k: nat, n: nat)
    requires k < |parts| && parts[k] == Decimal(n) && n < 0x1_0000_0000
    ensures Segment(parts, k) == n
  {
    ParseU32Decimal(n);
  }

  lemma RectOfDecimals(r: Rect)
    requires r.x > 0 && r.y > 0 && r.width > 0 && r.height > 0
    ensures RectOf([Decimal(r.x), Decimal(r.y), Decimal(r.width), Decimal(r.height)]) == Some(r)
  {
    var parts := [Decimal(r.x), Decimal(r.y), Decimal(r.width), Decimal(r.height)];
    SegmentDecimal(parts, 0, r.x);
    SegmentDecimal(parts, 1, r.y);
    SegmentDecimal(parts, 2, r.width);
    SegmentDecimal(parts, 3, r.height);
  }

  /** Rendering a rectangle as "x,y,w,h" and parsing it gives it back. */
  lemma ParseAreaRoundTrip(r: Rect)
    requires r.x > 0 && r.y > 0 && r.width > 0 && r.height > 0
    ensures ParseArea(Decimal(r.x) + "," + Decimal(r.y) + "," + Decimal(r.width) + "," + Decimal(r.height)) == Some(r)
  {
    DecimalHasNoComma(r.x);
    DecimalHasNoComma(r.y);
    DecimalHasNoComma(r.width);
    SplitRendered(Decimal(r.x), Decimal(r.y), Decimal(r.width), Decimal(r.height));
    RectOfDecimals(r);
  }

  lemma CommaIsNoNumber(t: string)
    requires ',' in t
    ensures ParseU32(t) == None
  {
    var k :| 0 <= k < |t| && t[k] == ',';
    if |t| > 0 && t[0] == '+' {
      assert t[1..][k - 1] == ',';
    }
  }

  /** Splitting stops after four parts: a fifth segment stays glued to the
      fourth, which then is no number, so the area is dropped ("1,2,3,4,5"
      blocks out nothing). */
  lemma FifthSegmentDropsArea(dx: string, dy: string, dw: string, dh: string, rest: string)
    requires ',' !in dx && ',' !in dy && ',' !in dw
    ensures SplitN(dx + "," + dy + "," + dw + "," + dh + "," + rest, 4, ',') == [dx, dy, dw, dh + "," + rest]
    ensures ParseArea(dx + "," + dy + "," + dw + "," + dh + "," + rest) == None
  {
    var last := dh + "," + rest;
    assert dx + "," + dy + "," + dw + "," + dh + "," + rest == dx + "," + dy + "," + dw + "," + last;
    SplitRendered(dx, dy, dw, last);
    assert last[|dh|] == ',';
    CommaIsNoNumber(last);
  }
}
