/** The whole codec: painting what the builder draws from what the encoder wrote shows the image. */
module Rendering {
  import opened Wrappers
  import opened RunLength
  import opened Svg
  import opened SvgBuilder
  import opened Images
  import opened Encoder
  import Hex

  /** What one image should leave on a pixel: its colour where it is not fully transparent. */
  function PixelPaint(png: Png, px: int, py: int): Option<Fill> {
    if Opaque(png, px, py) then Some(Colour(Color(png.rgbaAt(px, py)))) else None
  }

  /** A colour whose three pairs of digits are these channels. */
  predicate IsRgb(fill: Fill, r: nat, g: nat, b: nat) {
    && fill.Colour? && |fill.hex| == 6 && Hex.ParseInt16(fill.hex[..2]) == Some(r)
    && Hex.ParseInt16(fill.hex[2..4]) == Some(g) && Hex.ParseInt16(fill.hex[4..]) == Some(b)
  }

  /** What a viewer of the image would check: the pixel's own channels, or nothing where alpha is 0. */
  predicate Shows(paint: Option<Fill>, png: Png, px: int, py: int) {
    if 0 <= px < png.width && 0 <= py < png.height && png.rgbaAt(px, py).a != 0
    then paint.Some? && var c := png.rgbaAt(px, py); IsRgb(paint.value, c.r, c.g, c.b)
    else paint.None?
  }

  predicate EightBitChannels(png: Png) {
    forall x, y :: 0 <= x < png.width && 0 <= y < png.height ==>
      var c := png.rgbaAt(x, y); c.r < 256 && c.g < 256 && c.b < 256
  }

  lemma PixelPaintShows(png: Png, px: int, py: int)
    requires EightBitChannels(png)
    ensures Shows(PixelPaint(png, px, py), png, px, py)
  {
    if 0 <= px < png.width && 0 <= py < png.height {
      var c := png.rgbaAt(px, py);
      Hex.RgbToHexChannels(c.r, c.g, c.b);
    }
  }

  /** The box can be written with one byte per bound, as the format has it. */
  predicate BoxFits(png: Png) {
    CropBox(png).right < 256 && CropBox(png).bottom < 256
  }

  lemma {:induction false} RunColorOccurs(runs: seq<Run>, i: nat)
    requires IsGreedy(runs) && i < |runs|
    ensures runs[i].color in Expand(runs)
  {
    assert Expand(runs) == Copies(runs[0].color, runs[0].count) + Expand(runs[1..]);
    if i == 0 {
      assert Copies(runs[0].color, runs[0].count)[0] == runs[0].color;
    } else {
      RunColorOccurs(runs[1..], i - 1);
    }
  }

  lemma {:induction false} ExpandedColorsOccur(runs: seq<Run>, k: nat)
    requires k < |Expand(runs)|
    ensures exists i :: 0 <= i < |runs| && runs[i].color == Expand(runs)[k]
  {
    var first, rest := Copies(runs[0].color, runs[0].count), runs[1..];
    if k < |first| {
      assert Expand(runs)[k] == first[k] == runs[0].color;
    } else {
      ExpandedColorsOccur(rest, k - |first|);
      var i :| 0 <= i < |rest| && rest[i].color == Expand(rest)[k - |first|];
      assert runs[i + 1].color == Expand(runs)[k];
    }
  }

  predicate AllBytes(data: seq<int>) {
    forall k :: 0 <= k < |data| ==> data[k] < 256
  }

  lemma RunsFitBytesIff(data: seq<int>)
    ensures SmallRuns(Runs(data)) <==> AllBytes(data)
  {
    Lossless(data);
    var runs := Runs(data);
    if AllBytes(data) {
      forall i | 0 <= i < |runs| ensures runs[i].color < 256 { RunColorOccurs(runs, i); }
    }
    if SmallRuns(runs) {
      forall k | 0 <= k < |data| ensures data[k] < 256 { ExpandedColorsOccur(runs, k); }
    }
  }

  lemma NonNegativeRuns(data: seq<int>)
    requires forall k :: 0 <= k < |data| ==> 0 <= data[k]
    ensures forall i :: 0 <= i < |Runs(data)| ==> 1 <= Runs(data)[i].count && 0 <= Runs(data)[i].color
  {
    Lossless(data);
    forall i | 0 <= i < |Runs(data)| ensures 0 <= Runs(data)[i].color { RunColorOccurs(Runs(data), i); }
  }

  // ---------- decoding what was encoded ----------

  /** The pixels an image is encoded from. */
  function Pixels(png: Png): seq<RGBA> {
    Crop(png, CropBox(png))
  }

  /** The numbers of the encoded image fit one byte each. */
  predicate FitsBytes(png: Png, p: Palette) {
    BoxFits(png) && AllBytes(Indexes(p, Pixels(png)))
  }

  /** What the decoder makes of an encoded image. */
  function Decoded(png: Png, p: Palette): DecodedImage {
    DecodedImage(0, CropBox(png), Runs(Indexes(p, Pixels(png))))
  }

  lemma DecodedIsPrintable(png: Png, p: Palette)
    ensures Printable(CropBox(png), Decoded(png, p).rects)
  {
    CropBoxEncloses(png);
    IndexesLength(p, Pixels(png));
    NonNegativeRuns(Indexes(p, Pixels(png)));
  }

  /** For every image and every colour map: what was encoded is read back exactly when all numbers fit bytes. */
  lemma DecodeAfterEncodeIff(png: Png, p: Palette)
    ensures DecodeImage(Rle(png, p)) == Decoded(png, p) <==> FitsBytes(png, p)
  {
    var data := Indexes(p, Pixels(png));
    DecodedIsPrintable(png, p);
    CropBoxEncloses(png);
    RunsFitBytesIff(data);
    DecodesIff(CropBox(png), Runs(data));
  }

  /** An encoded image lays its box and runs out as the format has it. */
  lemma EncodedIsLaidOut(png: Png, p: Palette)
    requires FitsBytes(png, p)
    ensures LaidOut(Rle(png, p), CropBox(png), Runs(Indexes(p, Pixels(png))))
  {
    CropBoxEncloses(png);
    Lossless(Indexes(p, Pixels(png)));
    DecodedIsPrintable(png, p);
    RunsFitBytesIff(Indexes(p, Pixels(png)));
    RleTextLaidOut(CropBox(png), Runs(Indexes(p, Pixels(png))));
  }

  // ---------- painting what was decoded ----------

  /** A pixel whose colour the map accepts, if it shows a colour at all. */
  predicate Accepted(png: Png, p: Palette, px: int, py: int) {
    Opaque(png, px, py) ==> Accepts(p, Pixels(png), Color(png.rgbaAt(px, py)))
  }

  /** A palette that a later state of the same encoder prints. */
  predicate LaterKeys(png: Png, p: Palette, later: seq<string>) {
    PaletteAfter(p, Pixels(png)).order <= later && Distinct(later)
  }

  lemma SlotShowsIff(q: Palette, later: seq<string>, c: string)
    requires IsMap(q) && c in q.slots && q.order <= later && Distinct(later)
    ensures (q.slots[c] != 0 && FillOf(later, q.slots[c]) == Colour(c)) <==> Resolves(q, c)
  {
    var i := q.slots[c];
    var j :| 0 <= j < |q.order| && q.order[j] == c;
    assert later[j] == c;
    if i < |q.order| { assert later[i] == q.order[i]; }
  }

  /** One pixel of the box is painted with its colour exactly when the map accepted that colour. */
  lemma BoxPixelIff(png: Png, p: Palette, later: seq<string>, px: int, py: int)
    requires IsMap(p) && LaterKeys(png, p, later) && InBox(CropBox(png), px, py)
    ensures PixelFill(CropBox(png), 0, Indexes(p, Pixels(png)), later, px, py) == PixelPaint(png, px, py)
            <==> Accepted(png, p, px, py)
  {
    var b, pixels := CropBox(png), Pixels(png);
    var q, k := PaletteAfter(p, pixels), PixelIndex(b, px, py);
    CropBoxEncloses(png);
    BoxPixel(png, b, px, py);
    IndexIsSlot(p, pixels, k);
    MetIsKnown(p, pixels, k);
    assert Opaque(png, px, py) <==> pixels[k].a != 0;
    PaletteGrows(p, pixels);
    ResolvesIff(p, pixels, k);
    SlotShowsIff(q, later, Color(pixels[k]));
  }

  /** The index stream laid out in the box is the image, at each pixel whose colour was accepted and only there. */
  lemma BoxShowsImageIff(png: Png, p: Palette, later: seq<string>, px: int, py: int)
    requires IsMap(p) && LaterKeys(png, p, later)
    ensures PixelFill(CropBox(png), 0, Indexes(p, Pixels(png)), later, px, py) == PixelPaint(png, px, py)
            <==> Accepted(png, p, px, py)
  {
    var b := CropBox(png);
    CropBoxEncloses(png);
    if InBox(b, px, py) {
      BoxPixelIff(png, p, later, px, py);
    } else {
      assert !Opaque(png, px, py);
      IndexesLength(p, Pixels(png));
      if b.left <= px < b.right && b.top <= b.bottom < py { BelowBox(png, b, px, py); }
    }
  }

  lemma BelowBox(png: Png, b: Bounds, px: int, py: int)
    requires b.left <= px < b.right && b.top <= b.bottom < py
    ensures PixelIndex(b, px, py) >= |Crop(png, b)|
  {
    var gap, rows := py - b.bottom - 1, b.bottom - b.top + 1;
    assert (gap + rows) * Width(b) == gap * Width(b) + rows * Width(b);
    assert gap * Width(b) >= 0;
  }

  /** What the decoded image leaves on a point, under any palette. */
  lemma DecodedPaints(png: Png, p: Palette, palette: seq<string>, x: int, y: int)
    ensures PaintAt(DrawPart(Decoded(png, p), palette), x, y) ==
            PixelFill(CropBox(png), 0, Indexes(p, Pixels(png)), palette, x / 10, y / 10)
    ensures DrawDecoded(Decoded(png, p), palette) == Some(DrawPart(Decoded(png, p), palette))
  {
    Lossless(Indexes(p, Pixels(png)));
    PartPaintsItsPixels(Decoded(png, p), palette, x, y);
    DecodedIsPrintable(png, p);
    PlainImageDraws(Decoded(png, p), palette);
  }

  /**
   * Render round trip. Decoding an encoded image and painting it with the palette of that moment,
   * or with any later one, gives a point the colour of its pixel where the pixel is not fully
   * transparent and leaves it undrawn otherwise, inside and outside the box, exactly when the
   * colour map accepted the pixel's colour.
   */
  lemma RenderRoundTripIff(png: Png, p: Palette, later: seq<string>, x: int, y: int)
    requires IsMap(p) && FitsBytes(png, p) && LaterKeys(png, p, later)
    ensures DecodeImage(Rle(png, p)) == Decoded(png, p)
    ensures DrawDecoded(Decoded(png, p), later) == Some(DrawPart(Decoded(png, p), later))
    ensures PaintAt(DrawPart(Decoded(png, p), later), x, y) == PixelPaint(png, x / 10, y / 10)
            <==> Accepted(png, p, x / 10, y / 10)
    ensures EightBitChannels(png) ==> Shows(PixelPaint(png, x / 10, y / 10), png, x / 10, y / 10)
  {
    DecodeAfterEncodeIff(png, p);
    DecodedPaints(png, p, later, x, y);
    BoxShowsImageIff(png, p, later, x / 10, y / 10);
    if EightBitChannels(png) { PixelPaintShows(png, x / 10, y / 10); }
  }

  // ---------- encoders that were seeded well ----------

  /** Slot numbers follow the key order, and the empty key has slot 0. */
  ghost predicate WellSeeded(p: Palette) {
    IsMap(p) && p.order != [] && p.order[0] == "" && SlotsAgree(p.order, p.slots)
  }

  lemma GoodSeedIsWell(seed: seq<string>)
    ensures WellSeeded(Seeded(seed)) <==> GoodSeed(seed)
  {
    SeededIsMap(seed);
    SeedFacts(seed);
    SeedWorksIff(seed);
  }

  lemma WellSeededAccepts(png: Png, p: Palette, px: int, py: int)
    requires WellSeeded(p)
    ensures Accepted(png, p, px, py)
  {
    var c := Color(png.rgbaAt(px, py));
    ColorNotEmpty(png.rgbaAt(px, py));
    if c in p.slots {
      assert c in p.order;
      var i :| 0 <= i < |p.order| && p.order[i] == c;
      assert i != 0;
    }
  }

  lemma {:induction false} WellSeededAfter(p: Palette, pixels: seq<RGBA>)
    requires WellSeeded(p)
    ensures WellSeeded(PaletteAfter(p, pixels))
  {
    PaletteGrows(p, pixels);
    if pixels != [] {
      var init := pixels[..|pixels| - 1];
      WellSeededAfter(p, init);
      LearnAgrees(PaletteAfter(p, init), Color(pixels[|pixels| - 1]));
    }
  }

  lemma LearnAgrees(p: Palette, c: string)
    requires IsMap(p) && SlotsAgree(p.order, p.slots)
    ensures SlotsAgree(Learn(p, c).order, Learn(p, c).slots)
  {
    var q := Learn(p, c);
    if c !in p.slots {
      forall i | 0 <= i < |q.order| ensures q.order[i] in q.slots && q.slots[q.order[i]] == i {
        if i < |p.order| { assert q.order[i] == p.order[i] && p.order[i] in p.order; }
      }
    }
  }

  lemma {:induction false} WellSeededAfterAll(p: Palette, pngs: seq<Png>)
    requires WellSeeded(p)
    ensures WellSeeded(PaletteAfterAll(p, pngs))
  {
    if pngs != [] {
      var init := pngs[..|pngs| - 1];
      WellSeededAfterAll(p, init);
      WellSeededAfter(PaletteAfterAll(p, init), Pixels(pngs[|pngs| - 1]));
    }
  }

  /** A well-seeded encoder: every point of every image whose numbers fit bytes. */
  lemma RenderRoundTrip(png: Png, p: Palette, later: seq<string>, x: int, y: int)
    requires WellSeeded(p) && FitsBytes(png, p) && LaterKeys(png, p, later)
    ensures DecodeImage(Rle(png, p)) == Decoded(png, p)
    ensures DrawDecoded(Decoded(png, p), later) == Some(DrawPart(Decoded(png, p), later))
    ensures PaintAt(DrawPart(Decoded(png, p), later), x, y) == PixelPaint(png, x / 10, y / 10)
    ensures EightBitChannels(png) ==>
              Shows(PaintAt(DrawPart(DecodeImage(Rle(png, p)), later), x, y), png, x / 10, y / 10)
  {
    RenderRoundTripIff(png, p, later, x, y);
    WellSeededAccepts(png, p, x / 10, y / 10);
  }

  lemma RunPrefix(pngs: seq<Png>, i: nat, p: Palette)
    requires i < |pngs|
    ensures PaletteAfterAll(p, pngs[..i + 1]) == PaletteAfter(PaletteAfterAll(p, pngs[..i]), Pixels(pngs[i]))
  {
    assert pngs[..i + 1][..i] == pngs[..i];
  }

  /** Every image of a collection keeps rendering as itself under the palette at the end of the run. */
  lemma RunRendersEveryImage(p: Palette, pngs: seq<Png>, i: nat, x: int, y: int)
    requires WellSeeded(p) && i < |pngs|
    ensures FitsBytes(pngs[i], PaletteAfterAll(p, pngs[..i])) ==>
              PaintAt(DrawPart(DecodeImage(RleOf(p, pngs, i)), PaletteAfterAll(p, pngs).order), x, y) ==
              PixelPaint(pngs[i], x / 10, y / 10)
    ensures FitsBytes(pngs[i], PaletteAfterAll(p, pngs[..i])) && EightBitChannels(pngs[i]) ==>
              Shows(PaintAt(DrawPart(DecodeImage(RleOf(p, pngs, i)), PaletteAfterAll(p, pngs).order), x, y),
                    pngs[i], x / 10, y / 10)
  {
    if FitsBytes(pngs[i], PaletteAfterAll(p, pngs[..i])) {
      PaletteStable(p, pngs, i + 1);
      RunPrefix(pngs, i, p);
      WellSeededAfterAll(p, pngs[..i]);
      RenderRoundTrip(pngs[i], PaletteAfterAll(p, pngs[..i]), PaletteAfterAll(p, pngs).order, x, y);
    }
  }

  // ---------- which images keep their rectangles ----------

  /** An encoded image draws the same under every palette its encoder may print from now on. */
  ghost predicate KeepsDrawing(png: Png, p: Palette) {
    forall later :: LaterKeys(png, p, later) ==>
      DrawPart(Decoded(png, p), later) == DrawPart(Decoded(png, p), PaletteAfter(p, Pixels(png)).order)
  }

  /** Every index that is printed names a key that is there already. */
  predicate Settled(png: Png, p: Palette) {
    var indexes := Indexes(p, Pixels(png));
    forall k :: 0 <= k < |indexes| ==> indexes[k] < |PaletteAfter(p, Pixels(png)).order|
  }

  predicate SameFill(a: seq<string>, b: seq<string>, color: int) {
    color == 0 || FillOf(a, color) == FillOf(b, color)
  }

  lemma {:induction false} RunSameFill(b: Bounds, c: Cursor, run: Run, one: seq<string>, other: seq<string>)
    requires SameFill(one, other, run.color)
    ensures DrawRun(b, c, run, one) == DrawRun(b, c, run, other)
    decreases run.count
  {
    var length := GetRectLength(c.x, run.count, b.right);
    if length > 0 {
      RunSameFill(b, Advance(b, c, length), Run(run.count - length, run.color), one, other);
    }
  }

  lemma {:induction false} RunsSameFill(b: Bounds, c: Cursor, runs: seq<Run>, one: seq<string>, other: seq<string>)
    requires forall i :: 0 <= i < |runs| ==> SameFill(one, other, runs[i].color)
    ensures DrawRuns(b, c, runs, one) == DrawRuns(b, c, runs, other)
    decreases |runs|
  {
    if runs != [] {
      RunSameFill(b, c, runs[0], one, other);
      RunsSameFill(b, DrawRun(b, c, runs[0], one).1, runs[1..], one, other);
    }
  }

  lemma SettledKeeps(png: Png, p: Palette)
    requires Settled(png, p)
    ensures KeepsDrawing(png, p)
  {
    var b, data, order := CropBox(png), Indexes(p, Pixels(png)), PaletteAfter(p, Pixels(png)).order;
    var runs := Runs(data);
    Lossless(data);
    IndexesLength(p, Pixels(png));
    forall later | LaterKeys(png, p, later)
      ensures DrawPart(Decoded(png, p), later) == DrawPart(Decoded(png, p), order)
    {
      forall i | 0 <= i < |runs| ensures SameFill(later, order, runs[i].color) {
        RunColorOccurs(runs, i);
      }
      RunsSameFill(b, Cursor(b.left, b.top), runs, later, order);
    }
  }

  // ---------- a palette that is long enough ----------

  function Longest(keys: seq<string>): (n: nat)
    ensures forall i :: 0 <= i < |keys| ==> |keys[i]| <= n
  {
    if keys == [] then 0
    else
      var n, last := Longest(keys[..|keys| - 1]), keys[|keys| - 1];
      assert forall i :: 0 <= i < |keys| - 1 ==> keys[i] == keys[..|keys| - 1][i];
      if |last| > n then |last| else n
  }

  /** Some distinct keys can always be appended. */
  lemma {:induction false} LongPalette(keys: seq<string>, more: nat) returns (later: seq<string>)
    requires Distinct(keys)
    ensures keys <= later && Distinct(later) && |later| == |keys| + more
    decreases more
  {
    if more == 0 {
      later := keys;
    } else {
      var longer := keys + [Hex.Zeros(Longest(keys) + 1)];
      later := LongPalette(longer, more - 1);
    }
  }

  lemma IndexOfPixel(b: Bounds, k: nat)
    requires Width(b) > 0
    ensures k / Width(b) >= 0 && 0 <= k % Width(b) < Width(b)
    ensures PixelIndex(b, b.left + k % Width(b), b.top + k / Width(b)) == k
  {
    var w := Width(b);
    assert k == (k / w) * w + k % w;
    if k / w < 0 { MulAtLeast(-(k / w), k / w, w); }
  }

  /** Where pixel number k of a box lies. */
  lemma PlaceOfPixel(b: Bounds, k: nat) returns (px: int, py: int)
    requires Width(b) > 0
    ensures b.left <= px < b.right && b.top <= py && PixelIndex(b, px, py) == k
  {
    px, py := b.left + k % Width(b), b.top + k / Width(b);
    IndexOfPixel(b, k);
  }

  lemma PixelsAreWide(png: Png)
    requires Pixels(png) != []
    ensures Width(CropBox(png)) > 0
  {
  }

  predicate InPixel(b: Bounds, k: nat, x: int, y: int) {
    b.left <= x / 10 < b.right && b.top <= y / 10 && PixelIndex(b, x / 10, y / 10) == k
  }

  /** A point in pixel number k shows what that pixel's index says. */
  lemma PointShows(png: Png, p: Palette, palette: seq<string>, k: nat, x: int, y: int)
    ensures k < |Indexes(p, Pixels(png))| && InPixel(CropBox(png), k, x, y) ==>
              PaintAt(DrawPart(Decoded(png, p), palette), x, y) ==
              var index := Indexes(p, Pixels(png))[k];
              if index != 0 then Some(FillOf(palette, index)) else None
  {
    DecodedPaints(png, p, palette, x, y);
  }

  /** Some point of the document lies in pixel number k of a box. */
  lemma PixelNumber(b: Bounds, k: nat) returns (x: int, y: int)
    requires Width(b) > 0
    ensures InPixel(b, k, x, y)
  {
    var px, py := PlaceOfPixel(b, k);
    x, y := 10 * px, 10 * py;
    assert x / 10 == px && y / 10 == py;
  }

  /** Index number k names no key of that moment. */
  predicate UnsettledAt(png: Png, p: Palette, k: nat) {
    var indexes := Indexes(p, Pixels(png));
    k < |indexes| && indexes[k] >= |PaletteAfter(p, Pixels(png)).order|
  }

  lemma UnsettledMoves(png: Png, p: Palette, k: nat)
    requires IsMap(p)
    ensures UnsettledAt(png, p, k) ==> !KeepsDrawing(png, p)
  {
    if UnsettledAt(png, p, k) {
      var pixels := Pixels(png);
      var order, index := PaletteAfter(p, pixels).order, Indexes(p, pixels)[k];
      IndexesLength(p, pixels);
      PaletteGrows(p, pixels);
      var later := LongPalette(order, index + 1);
      MetIsKnown(p, pixels, k);
      assert Color(pixels[k]) in order;
      PixelsAreWide(png);
      var x, y := PixelNumber(CropBox(png), k);
      PointShows(png, p, later, k, x, y);
      PointShows(png, p, order, k, x, y);
      assert PaintAt(DrawPart(Decoded(png, p), later), x, y) == Some(FillOf(later, index));
      assert PaintAt(DrawPart(Decoded(png, p), order), x, y) == Some(FillOf(order, index));
      assert LaterKeys(png, p, later);
    }
  }

  /**
   * An encoded image draws the same rectangles under every later palette exactly when every index
   * it prints is below the number of keys of that moment.
   */
  lemma KeepsDrawingIff(png: Png, p: Palette)
    requires IsMap(p)
    ensures KeepsDrawing(png, p) <==> Settled(png, p)
  {
    if Settled(png, p) { SettledKeeps(png, p); }
    if KeepsDrawing(png, p) {
      var indexes := Indexes(p, Pixels(png));
      forall k | 0 <= k < |indexes| ensures indexes[k] < |PaletteAfter(p, Pixels(png)).order| {
        UnsettledMoves(png, p, k);
      }
    }
  }

  /** A seed that repeats a colour: its slot lies beyond the keys, so it prints as undefined. */
  lemma RepeatedSeedIsUnsettled(c: string)
    requires c != ""
    ensures var p := Seeded([c, c, c, c]);
            && p.order == ["", c] && c in p.slots && p.slots[c] == 3
            && FillOf(p.order, 3) == Missing && !Resolves(p, c)
  {
    var one, two, three, four := [c], [c, c], [c, c, c], [c, c, c, c];
    assert one[..0] == [] && two[..1] == one && three[..2] == two && four[..3] == three;
    assert Seeded(one).order == ["", c] by { assert [""] + [c] == ["", c]; }
    assert Seeded(two).order == ["", c] && Seeded(three).order == ["", c];
  }

  lemma OnePixel(png: Png, pixel: RGBA)
    requires pixel.a != 0 && png.width == png.height == 1 && png.rgbaAt(0, 0) == pixel
    ensures CropBox(png) == Bounds(0, 1, 0, 0) && Pixels(png) == [pixel]
  {
    assert Opaque(png, 0, 0);
    assert CropBox(png) == Bounds(0, 1, 0, 0);
  }

  lemma OneIndex(p: Palette, pixel: RGBA)
    requires IsMap(p) && pixel.a != 0 && Color(pixel) in p.slots
    ensures PaletteAfter(p, [pixel]) == p && Indexes(p, [pixel]) == [p.slots[Color(pixel)] as int]
  {
    assert [pixel][..0] == [];
  }

  /** The image of one pixel in that colour prints slot 3, so a longer palette draws it differently. */
  lemma RepeatedSeedMoves(png: Png, c: string)
    requires c != "" && png.width == png.height == 1 && Opaque(png, 0, 0) && Color(png.rgbaAt(0, 0)) == c
    ensures !KeepsDrawing(png, Seeded([c, c, c, c]))
  {
    var p := Seeded([c, c, c, c]);
    RepeatedSeedIsUnsettled(c);
    SeededIsMap([c, c, c, c]);
    OnePixel(png, png.rgbaAt(0, 0));
    OneIndex(p, png.rgbaAt(0, 0));
    assert Indexes(p, Pixels(png))[0] == 3;
    KeepsDrawingIff(png, p);
  }
}
