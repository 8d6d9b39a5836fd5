/**
 * packages/nouns-sdk/src/image/svg-builder.ts: decode the hex of a part and walk a cursor over its
 * bounding box, splitting runs at the right bound.
 */
module SvgBuilder {
  import opened Wrappers
  import opened RunLength
  import opened Svg
  import Hex

  datatype Bounds = Bounds(top: int, right: int, bottom: int, left: int)

  datatype DecodedImage = DecodedImage(paletteIndex: int, bounds: Bounds, rects: seq<Run>)

  datatype Cursor = Cursor(x: int, y: int)

  // ---------- decoding ----------

  /** Stands for NaN: two characters never parse to it. */
  const NAN: int := -16

  function Num(s: string): int {
    match Hex.ParseInt16(s)
    case None => NAN
    case Some(n) => n
  }

  function DecodeRects(chunks: seq<string>): seq<Run> {
    if chunks == [] then []
    else [Run(Num(Hex.Substring(chunks[0], 0, 2)), Num(Hex.Substring(chunks[0], 2, 4)))] + DecodeRects(chunks[1..])
  }

  function Field(data: string, i: nat): int {
    Num(Hex.Substring(data, 2 * i, 2 * i + 2))
  }

  function DecodeImage(image: string): DecodedImage {
    var data := if |image| >= 2 && image[..2] == "0x" then image[2..] else image;
    DecodedImage(Field(data, 0), Bounds(Field(data, 1), Field(data, 2), Field(data, 3), Field(data, 4)),
                 DecodeRects(Hex.Chunks(Hex.Tail(data, 10), 4)))
  }

  // ---------- drawing ----------

  function GetRectLength(currentX: int, drawLength: int, rightBound: int): int {
    var remainingPixelsInLine := rightBound - currentX;
    if drawLength <= remainingPixelsInLine then drawLength else remainingPixelsInLine
  }

  function FillOf(palette: seq<string>, color: int): Fill {
    if 0 <= color < |palette| then Colour(palette[color]) else Missing
  }

  function Segment(c: Cursor, length: int, fill: Fill): Rect {
    Rect(c.x * 10, c.y * 10, length * 10, 10, fill)
  }

  function Advance(b: Bounds, c: Cursor, length: int): Cursor {
    if c.x + length == b.right then Cursor(b.left, c.y + 1) else Cursor(c.x + length, c.y)
  }

  /** The rectangles of one run and where the cursor ends. */
  function DrawRun(b: Bounds, c: Cursor, run: Run, palette: seq<string>): (seq<Rect>, Cursor)
    decreases run.count
  {
    var length := GetRectLength(c.x, run.count, b.right);
    if length <= 0 then ([], c)
    else
      var (rest, end) := DrawRun(b, Advance(b, c, length), Run(run.count - length, run.color), palette);
      ((if run.color != 0 then [Segment(c, length, FillOf(palette, run.color))] else []) + rest, end)
  }

  function DrawRuns(b: Bounds, c: Cursor, runs: seq<Run>, palette: seq<string>): seq<Rect>
    decreases |runs|
  {
    if runs == [] then []
    else
      var (first, next) := DrawRun(b, c, runs[0], palette);
      first + DrawRuns(b, next, runs[1..], palette)
  }

  function DrawPart(image: DecodedImage, palette: seq<string>): seq<Rect> {
    DrawRuns(image.bounds, Cursor(image.bounds.left, image.bounds.top), image.rects, palette)
  }

  /** The body of the reducer: draws one part. */
  method Draw(image: DecodedImage, palette: seq<string>) returns (svgRects: seq<Rect>)
    ensures svgRects == DrawPart(image, palette)
  {
    svgRects := [];
    var bounds, rects := image.bounds, image.rects;
    var currentX, currentY := bounds.left, bounds.top;
    for i := 0 to |rects|
      invariant svgRects + DrawRuns(bounds, Cursor(currentX, currentY), rects[i..], palette) == DrawPart(image, palette)
    {
      var drawLength, colorIndex := rects[i].count, rects[i].color;
      ghost var (drawn, end) := DrawRun(bounds, Cursor(currentX, currentY), rects[i], palette);
      ghost var whole := svgRects + drawn;
      FirstRunOff(bounds, Cursor(currentX, currentY), rects, i, palette, svgRects);
      var hexColor := FillOf(palette, colorIndex);
      var length := GetRectLength(currentX, drawLength, bounds.right);
      while length > 0
        invariant length == GetRectLength(currentX, drawLength, bounds.right)
        invariant svgRects + DrawRun(bounds, Cursor(currentX, currentY), Run(drawLength, colorIndex), palette).0 ==
                  whole
        invariant DrawRun(bounds, Cursor(currentX, currentY), Run(drawLength, colorIndex), palette).1 == end
        decreases drawLength
      {
        FirstSegmentOff(bounds, Cursor(currentX, currentY), Run(drawLength, colorIndex), palette, svgRects);
        if colorIndex != 0 {
          svgRects := svgRects + [Rect(currentX * 10, currentY * 10, length * 10, 10, hexColor)];
        }
        currentX := currentX + length;
        if currentX == bounds.right {
          currentX := bounds.left;
          currentY := currentY + 1;
        }
        drawLength := drawLength - length;
        length := GetRectLength(currentX, drawLength, bounds.right);
      }
      assert svgRects == whole;
    }
  }

  /** The drawing of the remaining runs starts with the drawing of the next one. */
  lemma FirstRunOff(b: Bounds, c: Cursor, runs: seq<Run>, i: nat, palette: seq<string>, before: seq<Rect>)
    requires i < |runs|
    ensures var (drawn, end) := DrawRun(b, c, runs[i], palette);
            before + DrawRuns(b, c, runs[i..], palette) == (before + drawn) + DrawRuns(b, end, runs[i + 1..], palette)
  {
    var (drawn, end) := DrawRun(b, c, runs[i], palette);
    assert runs[i..][0] == runs[i] && runs[i..][1..] == runs[i + 1..];
    ConcatAssoc(before, drawn, DrawRuns(b, end, runs[i + 1..], palette));
  }

  /** The drawing of a run starts with its first segment. */
  lemma FirstSegmentOff(b: Bounds, c: Cursor, run: Run, palette: seq<string>, before: seq<Rect>)
    requires GetRectLength(c.x, run.count, b.right) > 0
    ensures var length := GetRectLength(c.x, run.count, b.right);
            var (rest, end) := DrawRun(b, Advance(b, c, length), Run(run.count - length, run.color), palette);
            var seg := if run.color != 0 then [Segment(c, length, FillOf(palette, run.color))] else [];
            && before + DrawRun(b, c, run, palette).0 == (before + seg) + rest
            && DrawRun(b, c, run, palette).1 == end
  {
    var length := GetRectLength(c.x, run.count, b.right);
    var rest := DrawRun(b, Advance(b, c, length), Run(run.count - length, run.color), palette).0;
    ConcatAssoc(before, if run.color != 0 then [Segment(c, length, FillOf(palette, run.color))] else [], rest);
  }

  predicate HasNaNCount(runs: seq<Run>) {
    exists i :: 0 <= i < |runs| && runs[i].count == NAN
  }

  function Unplace(r: Rect): Rect {
    Unplaced(r.x, r.width, r.height, r.fill)
  }

  function UnplaceAll(rects: seq<Rect>): seq<Rect> {
    if rects == [] then [] else UnplaceAll(rects[..|rects| - 1]) + [Unplace(rects[|rects| - 1])]
  }

  /**
   * What a decoded part draws. A left or right bound that is NaN stops every comparison, so nothing
   * is drawn; a top bound that is NaN stays NaN in every row. None: the loop never ends, because a
   * run length that is NaN is never used up.
   */
  function DrawDecoded(image: DecodedImage, palette: seq<string>): Option<seq<Rect>> {
    var b := image.bounds;
    if b.left == NAN || b.right == NAN then Some([])
    else if b.left < b.right && HasNaNCount(image.rects) then None
    else Some(if b.top == NAN then UnplaceAll(DrawPart(image, palette)) else DrawPart(image, palette))
  }

  method DrawText(part: string, palette: seq<string>) returns (svgRects: Option<seq<Rect>>)
    ensures svgRects == DrawDecoded(DecodeImage(part), palette)
  {
    var image := DecodeImage(part);
    var bounds := image.bounds;
    if bounds.left == NAN || bounds.right == NAN { return Some([]); }
    if bounds.left < bounds.right && HasNaNCount(image.rects) { return None; }
    var rects := Draw(image, palette);
    svgRects := Some(if bounds.top == NAN then UnplaceAll(rects) else rects);
  }

  lemma {:induction false} UnplacedPaintNothing(rects: seq<Rect>, x: int, y: int)
    ensures PaintAt(UnplaceAll(rects), x, y) == None && |UnplaceAll(rects)| == |rects|
  {
    if rects != [] {
      UnplacedPaintNothing(rects[..|rects| - 1], x, y);
      var all := UnplaceAll(rects);
      assert all[..|all| - 1] == UnplaceAll(rects[..|rects| - 1]);
    }
  }

  lemma PlainImageDraws(image: DecodedImage, palette: seq<string>)
    requires image.bounds.top > NAN && image.bounds.right > NAN && image.bounds.left > NAN
    requires forall i :: 0 <= i < |image.rects| ==> image.rects[i].count > NAN
    ensures DrawDecoded(image, palette) == Some(DrawPart(image, palette))
  {
  }

  /** The rectangles of all parts, in order; None as soon as one part never ends. */
  function PartRects(parts: seq<string>, palette: seq<string>): Option<seq<Rect>> {
    if parts == [] then Some([])
    else
      var below := PartRects(parts[..|parts| - 1], palette);
      var top := DrawDecoded(DecodeImage(parts[|parts| - 1]), palette);
      if below.None? || top.None? then None else Some(below.value + top.value)
  }

  /** Parts whose front cannot be drawn cannot be drawn. */
  lemma {:induction false} UndrawnPart(parts: seq<string>, i: nat, palette: seq<string>)
    requires i <= |parts|
    ensures PartRects(parts[..i], palette).None? ==> PartRects(parts, palette).None?
  {
    if i == |parts| {
      assert parts[..i] == parts;
    } else {
      UndrawnPart(parts[..|parts| - 1], i, palette);
      assert parts[..|parts| - 1][..i] == parts[..i];
    }
  }

  lemma PartStep(parts: seq<string>, i: nat, palette: seq<string>)
    requires i < |parts|
    ensures var (below, top) := (PartRects(parts[..i], palette), DrawDecoded(DecodeImage(parts[i]), palette));
            PartRects(parts[..i + 1], palette) == if below.None? || top.None? then None
                else Some(below.value + top.value)
  {
    assert parts[..i + 1][..i] == parts[..i];
  }

  method BuildSVG(parts: seq<string>, paletteColors: seq<string>, bgColor: string) returns (svg: Option<Document>)
    ensures svg.Some? == PartRects(parts, paletteColors).Some?
    ensures svg.Some? ==> svg.value == Document(bgColor, PartRects(parts, paletteColors).value)
  {
    var result := [];
    for i := 0 to |parts|
      invariant PartRects(parts[..i], paletteColors) == Some(result)
    {
      var svgRects := DrawText(parts[i], paletteColors);
      if svgRects.None? {
        PartStep(parts, i, paletteColors);
        UndrawnPart(parts, i + 1, paletteColors);
        return None;
      }
      PartStep(parts, i, paletteColors);
      result := result + svgRects.value;
    }
    assert parts[..|parts|] == parts;
    svg := Some(Document(bgColor, result));
  }

  // ---------- the cursor tiles the box ----------

  function Width(b: Bounds): int {
    b.right - b.left
  }

  /** Pixel (px, py) is one of the pixels lo, ..., hi - 1 of the box, counted line by line. */
  predicate InStretch(b: Bounds, lo: int, hi: int, px: int, py: int) {
    b.left <= px < b.right && b.top <= py && lo <= PixelIndex(b, px, py) < hi
  }

  function PixelIndex(b: Bounds, px: int, py: int): int {
    (py - b.top) * Width(b) + (px - b.left)
  }

  /** The cursor stands in front of pixel number pos. */
  predicate Stands(b: Bounds, c: Cursor, pos: int) {
    b.left <= c.x < b.right && b.top <= c.y && pos == PixelIndex(b, c.x, c.y)
  }

  /** A box read line by line: the index is injective and inverse to mod/div. */
  lemma PixelIndexDivMod(b: Bounds, px: int, py: int)
    requires b.left <= px < b.right && b.top <= py
    ensures PixelIndex(b, px, py) >= 0
    ensures px == b.left + PixelIndex(b, px, py) % Width(b)
    ensures py == b.top + PixelIndex(b, px, py) / Width(b)
  {
    DivModUnique(py - b.top, px - b.left, Width(b));
  }

  lemma DivModUnique(q: int, r: int, w: int)
    requires 0 <= r < w && q >= 0
    ensures q * w + r >= 0 && (q * w + r) / w == q && (q * w + r) % w == r
  {
    var n := q * w + r;
    assert q * w >= 0;
    SameQuotient(q, r, n / w, n % w, w);
  }

  lemma SameQuotient(q: int, r: int, q': int, r': int, w: int)
    requires 0 <= r < w && 0 <= r' < w && q * w + r == q' * w + r'
    ensures q == q' && r == r'
  {
    if q > q' {
      MulAtLeast(q - q', q', w);
    } else if q' > q {
      MulAtLeast(q' - q, q, w);
    }
  }

  lemma MulAtLeast(d: int, base: int, w: int)
    requires d >= 1 && w >= 0
    ensures (base + d) * w >= base * w + w
  {
    assert (base + d) * w == base * w + d * w;
    assert d * w == w + (d - 1) * w;
    assert (d - 1) * w >= 0;
  }

  /** A segment that stays on the line covers exactly the next `length` pixels. */
  lemma SegmentCovers(b: Bounds, c: Cursor, pos: int, length: int, fill: Fill, x: int, y: int)
    requires Stands(b, c, pos) && 0 < length <= b.right - c.x
    ensures Covers(Segment(c, length, fill), x, y) <==> InStretch(b, pos, pos + length, x / 10, y / 10)
  {
    var px, py, w := x / 10, y / 10, Width(b);
    assert Covers(Segment(c, length, fill), x, y) <==> c.x <= px < c.x + length && py == c.y;
    if b.left <= px < b.right && b.top <= py {
      var gap := py - c.y;
      assert PixelIndex(b, px, py) - pos == gap * w + (px - c.x);
      if gap > 0 { assert gap * w >= w; }
      if gap < 0 { assert gap * w <= -w; }
    }
  }

  lemma AdvanceStands(b: Bounds, c: Cursor, pos: int, length: int)
    requires Stands(b, c, pos) && 0 < length <= b.right - c.x
    ensures Stands(b, Advance(b, c, length), pos + length)
  {
    var w := Width(b);
    assert (c.y + 1 - b.top) * w == (c.y - b.top) * w + w;
  }

  function Positive(n: int): int {
    if n < 0 then 0 else n
  }

  /**
   * One run: the cursor moves on by exactly the run's length, and the run paints exactly its own
   * stretch of pixels, in its own colour unless that is index 0.
   */
  lemma {:induction false} RunPaintsItsStretch(b: Bounds, c: Cursor, pos: int, run: Run, palette: seq<string>, x: int,
                                               y: int)
    requires Stands(b, c, pos)
    ensures Stands(b, DrawRun(b, c, run, palette).1, pos + Positive(run.count))
    ensures PaintAt(DrawRun(b, c, run, palette).0, x, y) ==
            if run.color != 0 && InStretch(b, pos, pos + run.count, x / 10, y / 10)
            then Some(FillOf(palette, run.color)) else None
    decreases run.count
  {
    var length := GetRectLength(c.x, run.count, b.right);
    if length > 0 {
      var fill := FillOf(palette, run.color);
      var next, left := Advance(b, c, length), Run(run.count - length, run.color);
      AdvanceStands(b, c, pos, length);
      RunPaintsItsStretch(b, next, pos + length, left, palette, x, y);
      SegmentCovers(b, c, pos, length, fill, x, y);
      var rest := DrawRun(b, next, left, palette).0;
      var seg := [Segment(c, length, fill)];
      PaintConcat(seg, rest, x, y);
      assert PaintAt(seg, x, y) == if Covers(seg[0], x, y) then Some(fill) else None by { assert seg[..0] == []; }
      assert [] + rest == rest;
    }
  }

  /** What a box full of colour indexes should look like, pixel by pixel. */
  function PixelFill(b: Bounds, start: int, data: seq<int>, palette: seq<string>, px: int, py: int): Option<Fill> {
    var k := PixelIndex(b, px, py) - start;
    if b.left <= px < b.right && b.top <= py && 0 <= k < |data| && data[k] != 0
    then Some(FillOf(palette, data[k])) else None
  }

  lemma {:induction false} RunsPaintTheirPixels(b: Bounds, c: Cursor, pos: int, runs: seq<Run>, palette: seq<string>,
                                                x: int, y: int)
    requires Stands(b, c, pos)
    ensures PaintAt(DrawRuns(b, c, runs, palette), x, y) == PixelFill(b, pos, Expand(runs), palette, x / 10, y / 10)
    decreases |runs|
  {
    if runs != [] {
      var (first, next) := DrawRun(b, c, runs[0], palette);
      var n := Positive(runs[0].count);
      RunPaintsItsStretch(b, c, pos, runs[0], palette, x, y);
      RunsPaintTheirPixels(b, next, pos + n, runs[1..], palette, x, y);
      PaintConcat(first, DrawRuns(b, next, runs[1..], palette), x, y);
      assert Expand(runs) == Copies(runs[0].color, runs[0].count) + Expand(runs[1..]);
    }
  }

  lemma {:induction false} EmptyBoxDrawsNothing(b: Bounds, c: Cursor, runs: seq<Run>, palette: seq<string>)
    requires b.left >= b.right && c.x == b.left
    ensures DrawRuns(b, c, runs, palette) == []
  {
    if runs != [] {
      assert DrawRun(b, c, runs[0], palette) == ([], c);
      EmptyBoxDrawsNothing(b, c, runs[1..], palette);
    }
  }

  /**
   * Tiling, for every run list and every bounds: pixel k of the expanded runs lands at
   * (left + k mod w, top + k div w), index 0 stays undrawn, and nothing else is painted.
   */
  lemma PartPaintsItsPixels(image: DecodedImage, palette: seq<string>, x: int, y: int)
    ensures PaintAt(DrawPart(image, palette), x, y) ==
            PixelFill(image.bounds, 0, Expand(image.rects), palette, x / 10, y / 10)
  {
    var b := image.bounds;
    var start := Cursor(b.left, b.top);
    if b.left < b.right {
      assert PixelIndex(b, b.left, b.top) == 0;
      RunsPaintTheirPixels(b, start, 0, image.rects, palette, x, y);
    } else {
      EmptyBoxDrawsNothing(b, start, image.rects, palette);
    }
  }

  /** Every rectangle stays on one line, inside [left, right), and belongs to pixels lo.. of the box. */
  ghost predicate OnOneLine(b: Bounds, lo: int, hi: int, r: Rect) {
    && r.height == 10 && r.width > 0 && b.left * 10 <= r.x && r.x + r.width <= b.right * 10
    && forall x, y :: Covers(r, x, y) ==> InStretch(b, lo, hi, x / 10, y / 10)
  }

  ghost predicate Disjoint(rects: seq<Rect>) {
    forall i, j, x, y :: 0 <= i < j < |rects| && Covers(rects[i], x, y) ==> !Covers(rects[j], x, y)
  }

  ghost predicate Tiles(b: Bounds, lo: int, hi: int, rects: seq<Rect>) {
    Disjoint(rects) && forall i :: 0 <= i < |rects| ==> OnOneLine(b, lo, hi, rects[i])
  }

  lemma TilesConcat(b: Bounds, lo: int, mid: int, hi: int, first: seq<Rect>, rest: seq<Rect>)
    requires lo <= mid <= hi && Tiles(b, lo, mid, first) && Tiles(b, mid, hi, rest)
    ensures Tiles(b, lo, hi, first + rest)
  {
    var all := first + rest;
    forall i | 0 <= i < |all| ensures OnOneLine(b, lo, hi, all[i]) {
      var r := all[i];
      assert if i < |first| then OnOneLine(b, lo, mid, r) else OnOneLine(b, mid, hi, r);
    }
    forall i, j, x, y | 0 <= i < j < |all| && Covers(all[i], x, y) ensures !Covers(all[j], x, y) {
      if i < |first| <= j {
        assert OnOneLine(b, lo, mid, first[i]) && OnOneLine(b, mid, hi, rest[j - |first|]);
        assert InStretch(b, lo, mid, x / 10, y / 10);
      } else if i < |first| {
        assert all[i] == first[i] && all[j] == first[j];
      } else {
        assert all[i] == rest[i - |first|] && all[j] == rest[j - |first|];
      }
    }
  }

  lemma {:induction false} RunTiles(b: Bounds, c: Cursor, pos: int, run: Run, palette: seq<string>)
    requires Stands(b, c, pos)
    ensures Tiles(b, pos, pos + Positive(run.count), DrawRun(b, c, run, palette).0)
    ensures Stands(b, DrawRun(b, c, run, palette).1, pos + Positive(run.count))
    decreases run.count
  {
    var length := GetRectLength(c.x, run.count, b.right);
    if length > 0 {
      var seg := Segment(c, length, FillOf(palette, run.color));
      var drawn := if run.color != 0 then [seg] else [];
      var next, left := Advance(b, c, length), Run(run.count - length, run.color);
      AdvanceStands(b, c, pos, length);
      RunTiles(b, next, pos + length, left, palette);
      forall x, y | Covers(seg, x, y) ensures InStretch(b, pos, pos + length, x / 10, y / 10) {
        SegmentCovers(b, c, pos, length, seg.fill, x, y);
      }
      assert Tiles(b, pos, pos + length, drawn);
      TilesConcat(b, pos, pos + length, pos + run.count, drawn, DrawRun(b, next, left, palette).0);
    }
  }

  lemma {:induction false} RunsTile(b: Bounds, c: Cursor, pos: int, runs: seq<Run>, palette: seq<string>)
    requires Stands(b, c, pos)
    ensures Tiles(b, pos, pos + |Expand(runs)|, DrawRuns(b, c, runs, palette))
    decreases |runs|
  {
    if runs != [] {
      var (first, next) := DrawRun(b, c, runs[0], palette);
      var mid := pos + Positive(runs[0].count);
      RunTiles(b, c, pos, runs[0], palette);
      RunsTile(b, next, mid, runs[1..], palette);
      TilesConcat(b, pos, mid, pos + |Expand(runs)|, first, DrawRuns(b, next, runs[1..], palette));
    }
  }

  /** The rectangles of one part are pairwise disjoint, each on one line between the two bounds. */
  lemma PartTiles(image: DecodedImage, palette: seq<string>)
    ensures Tiles(image.bounds, 0, |Expand(image.rects)|, DrawPart(image, palette))
  {
    var b := image.bounds;
    if b.left < b.right {
      assert PixelIndex(b, b.left, b.top) == 0;
      RunsTile(b, Cursor(b.left, b.top), 0, image.rects, palette);
    } else {
      EmptyBoxDrawsNothing(b, Cursor(b.left, b.top), image.rects, palette);
    }
  }
}
