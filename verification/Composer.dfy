/**
 * packages/nouns-webapp/src/utils/composables/nounsSDK.ts: the composer's builder, where a part may
 * bring its own palette, and the text form in which a collection's palette is stored
 * (packages/nouns-webapp/src/pages/Collection/index.tsx and composablesWrapper.ts).
 */
module Composer {
  import opened Wrappers
  import opened RunLength
  import opened Svg
  import opened SvgBuilder
  import opened Images
  import opened Encoder
  import opened Rendering
  import Hex

  datatype Part = Part(data: string, palette: Option<seq<string>>)

  function DrawnPalette(part: Part, paletteColors: seq<string>): seq<string> {
    if part.palette.Some? then part.palette.value else paletteColors
  }

  /** The rectangles of all parts, in order; None as soon as one part never ends. */
  function LayerRects(parts: seq<Part>, paletteColors: seq<string>): Option<seq<Rect>> {
    if parts == [] then Some([])
    else
      var last := parts[|parts| - 1];
      var below := LayerRects(parts[..|parts| - 1], paletteColors);
      var top := DrawDecoded(DecodeImage(last.data), DrawnPalette(last, paletteColors));
      if below.None? || top.None? then None else Some(below.value + top.value)
  }

  /** Parts whose front cannot be drawn cannot be drawn. */
  lemma {:induction false} UndrawnLayer(parts: seq<Part>, i: nat, paletteColors: seq<string>)
    requires i <= |parts|
    ensures LayerRects(parts[..i], paletteColors).None? ==> LayerRects(parts, paletteColors).None?
  {
    if i == |parts| {
      assert parts[..i] == parts;
    } else {
      UndrawnLayer(parts[..|parts| - 1], i, paletteColors);
      assert parts[..|parts| - 1][..i] == parts[..i];
    }
  }

  /** One more part on top. */
  lemma LayerOnTop(parts: seq<Part>, part: Part, paletteColors: seq<string>)
    ensures var (below, top) := (LayerRects(parts, paletteColors),
              DrawDecoded(DecodeImage(part.data), DrawnPalette(part, paletteColors)));
            LayerRects(parts + [part], paletteColors) == if below.None? || top.None? then None
                else Some(below.value + top.value)
  {
    assert (parts + [part])[..|parts|] == parts;
  }

  lemma LayerStep(parts: seq<Part>, i: nat, paletteColors: seq<string>)
    requires i < |parts|
    ensures var (below, top) := (LayerRects(parts[..i], paletteColors),
                                 DrawDecoded(DecodeImage(parts[i].data), DrawnPalette(parts[i], paletteColors)));
            LayerRects(parts[..i + 1], paletteColors) == if below.None? || top.None? then None
                else Some(below.value + top.value)
  {
    assert parts[..i + 1] == parts[..i] + [parts[i]];
    LayerOnTop(parts[..i], parts[i], paletteColors);
  }

  method BuildSVG(parts: seq<Part>, paletteColors: seq<string>, bgColor: string) returns (svg: Option<Document>)
    ensures svg.Some? == LayerRects(parts, paletteColors).Some?
    ensures svg.Some? ==> svg.value == Document(bgColor, LayerRects(parts, paletteColors).value)
  {
    var result := [];
    for i := 0 to |parts|
      invariant LayerRects(parts[..i], paletteColors) == Some(result)
    {
      var localPalette := parts[i].palette;
      var svgRects := DrawText(parts[i].data, if localPalette.Some? then localPalette.value else paletteColors);
      if svgRects.None? {
        LayerStep(parts, i, paletteColors);
        UndrawnLayer(parts, i + 1, paletteColors);
        return None;
      }
      LayerStep(parts, i, paletteColors);
      result := result + svgRects.value;
    }
    assert parts[..|parts|] == parts;
    svg := Some(Document(bgColor, result));
  }

  function DataOf(parts: seq<Part>): seq<string> {
    if parts == [] then [] else DataOf(parts[..|parts| - 1]) + [parts[|parts| - 1].data]
  }

  /** Without part palettes the composer draws what the SDK draws. */
  lemma {:induction false} SameAsSdk(parts: seq<Part>, paletteColors: seq<string>)
    requires forall i :: 0 <= i < |parts| ==> parts[i].palette.None?
    ensures LayerRects(parts, paletteColors) == PartRects(DataOf(parts), paletteColors)
  {
    if parts != [] {
      var init, last := parts[..|parts| - 1], parts[|parts| - 1];
      SameAsSdk(init, paletteColors);
      var data := DataOf(parts);
      assert data[..|data| - 1] == DataOf(init) && data[|data| - 1] == last.data;
    }
  }

  lemma OnePart(data: string, palette: seq<string>)
    ensures PartRects([data], palette) == DrawDecoded(DecodeImage(data), palette)
  {
    assert [data][..0] == [];
    var drawn := DrawDecoded(DecodeImage(data), palette);
    if drawn.Some? { assert [] + drawn.value == drawn.value; }
  }

  /** A part with a palette of its own is drawn as the SDK draws it over that palette. */
  lemma OwnPaletteDraws(data: string, own: seq<string>, paletteColors: seq<string>)
    ensures LayerRects([Part(data, Some(own))], paletteColors) == PartRects([data], own)
  {
    OnePart(data, own);
    LayerOnTop([], Part(data, Some(own)), paletteColors);
    assert [] + [Part(data, Some(own))] == [Part(data, Some(own))];
  }

  /** The same on top of other parts, with the common palette for a part that brings none. */
  lemma PartOnTop(parts: seq<Part>, part: Part, paletteColors: seq<string>)
    ensures var below := LayerRects(parts, paletteColors);
            var top := match part.palette
                       case Some(own) => PartRects([part.data], own)
                       case None => PartRects([part.data], paletteColors);
            LayerRects(parts + [part], paletteColors) ==
              if below.None? || top.None? then None else Some(below.value + top.value)
  {
    LayerOnTop(parts, part, paletteColors);
    match part.palette
    case Some(own) => OnePart(part.data, own);
    case None => OnePart(part.data, paletteColors);
  }

  // ---------- slot 0 ----------

  lemma {:induction false} RunIgnoresSlotZero(b: Bounds, c: Cursor, run: Run, palette: seq<string>, key: string)
    requires palette != []
    ensures DrawRun(b, c, run, palette[0 := key]) == DrawRun(b, c, run, palette)
    decreases run.count
  {
    var length := GetRectLength(c.x, run.count, b.right);
    if length > 0 {
      RunIgnoresSlotZero(b, Advance(b, c, length), Run(run.count - length, run.color), palette, key);
    }
  }

  lemma {:induction false} RunsIgnoreSlotZero(b: Bounds, c: Cursor, runs: seq<Run>, palette: seq<string>, key: string)
    requires palette != []
    ensures DrawRuns(b, c, runs, palette[0 := key]) == DrawRuns(b, c, runs, palette)
    decreases |runs|
  {
    if runs != [] {
      RunIgnoresSlotZero(b, c, runs[0], palette, key);
      RunsIgnoreSlotZero(b, DrawRun(b, c, runs[0], palette).1, runs[1..], palette, key);
    }
  }

  /** No part draws from slot 0. */
  lemma DrawingIgnoresSlotZero(image: DecodedImage, palette: seq<string>, key: string)
    requires palette != []
    ensures DrawDecoded(image, palette[0 := key]) == DrawDecoded(image, palette)
  {
    RunsIgnoreSlotZero(image.bounds, Cursor(image.bounds.left, image.bounds.top), image.rects, palette, key);
  }

  // ---------- layered rendering ----------

  /** A part that came out of an encoder: the image, the colour map before it, a palette of its own or none. */
  datatype Layer = Layer(png: Png, before: Palette, palette: Option<seq<string>>)

  function PartOf(l: Layer): Part {
    Part(Rle(l.png, l.before), l.palette)
  }

  /** A palette the layer's encoder printed, then or later; slot 0 may hold anything. */
  predicate Serves(palette: seq<string>, l: Layer) {
    palette != [] && LaterKeys(l.png, l.before, palette[0 := ""])
  }

  /** The layer's own palette serves it, or the common one where it brings none. */
  ghost predicate Sound(l: Layer, paletteColors: seq<string>) {
    && WellSeeded(l.before) && FitsBytes(l.png, l.before)
    && match l.palette
       case Some(own) => Serves(own, l)
       case None => Serves(paletteColors, l)
  }

  ghost predicate AllSound(layers: seq<Layer>, paletteColors: seq<string>) {
    forall i :: 0 <= i < |layers| ==> Sound(layers[i], paletteColors)
  }

  function PartsOf(layers: seq<Layer>): seq<Part> {
    if layers == [] then [] else PartsOf(layers[..|layers| - 1]) + [PartOf(layers[|layers| - 1])]
  }

  /** The last layer that is opaque at a pixel decides its colour. */
  function TopPaint(layers: seq<Layer>, px: int, py: int): Option<Fill> {
    if layers == [] then None
    else
      var top := PixelPaint(layers[|layers| - 1].png, px, py);
      if top.Some? then top else TopPaint(layers[..|layers| - 1], px, py)
  }

  /** What a document with these layers should show. */
  function Shown(layers: seq<Layer>, bgColor: string, x: int, y: int): Option<Fill> {
    if !(0 <= x < VIEW && 0 <= y < VIEW) then None
    else if TopPaint(layers, x / 10, y / 10).Some? then TopPaint(layers, x / 10, y / 10)
    else Some(Colour(bgColor))
  }

  /**
   * Every point of the view box shows the last part that is opaque there, in the colour its own
   * palette or else the common one gives it, and the background where no part is opaque.
   */
  lemma LayeredRendering(layers: seq<Layer>, paletteColors: seq<string>, bgColor: string, x: int, y: int)
    requires AllSound(layers, paletteColors)
    ensures LayerRects(PartsOf(layers), paletteColors).Some?
    ensures ColorAt(Document(bgColor, LayerRects(PartsOf(layers), paletteColors).value), x, y) ==
              Shown(layers, bgColor, x, y)
  {
    LayersPaint(layers, paletteColors, x, y);
  }

  /** Layer i is the last one that is opaque at a pixel. */
  predicate Topmost(layers: seq<Layer>, i: nat, px: int, py: int) {
    && i < |layers| && Opaque(layers[i].png, px, py)
    && forall j :: i < j < |layers| ==> !Opaque(layers[j].png, px, py)
  }

  lemma {:induction false} TopPaintIsTopmost(layers: seq<Layer>, i: nat, px: int, py: int)
    requires Topmost(layers, i, px, py)
    ensures TopPaint(layers, px, py) == PixelPaint(layers[i].png, px, py)
  {
    if i < |layers| - 1 { TopPaintIsTopmost(layers[..|layers| - 1], i, px, py); }
  }

  lemma {:induction false} NothingOnTop(layers: seq<Layer>, px: int, py: int)
    requires forall j :: 0 <= j < |layers| ==> !Opaque(layers[j].png, px, py)
    ensures TopPaint(layers, px, py) == None
  {
    if layers != [] { NothingOnTop(layers[..|layers| - 1], px, py); }
  }

  /** In channels: a point of the view box has the red, green and blue of the last layer that is opaque there. */
  lemma LayeredChannels(layers: seq<Layer>, paletteColors: seq<string>, bgColor: string, x: int, y: int, i: nat)
    requires AllSound(layers, paletteColors) && 0 <= x < VIEW && 0 <= y < VIEW
    ensures LayerRects(PartsOf(layers), paletteColors).Some?
    ensures var shown := ColorAt(Document(bgColor, LayerRects(PartsOf(layers), paletteColors).value), x, y);
            && (Topmost(layers, i, x / 10, y / 10) && EightBitChannels(layers[i].png) ==>
                  Shows(shown, layers[i].png, x / 10, y / 10))
            && ((forall j :: 0 <= j < |layers| ==> !Opaque(layers[j].png, x / 10, y / 10)) ==>
                  shown == Some(Colour(bgColor)))
  {
    LayeredRendering(layers, paletteColors, bgColor, x, y);
    if Topmost(layers, i, x / 10, y / 10) && EightBitChannels(layers[i].png) {
      TopPaintIsTopmost(layers, i, x / 10, y / 10);
      PixelPaintShows(layers[i].png, x / 10, y / 10);
    }
    if forall j :: 0 <= j < |layers| ==> !Opaque(layers[j].png, x / 10, y / 10) {
      NothingOnTop(layers, x / 10, y / 10);
    }
  }

  lemma SoundLayerDraws(l: Layer, paletteColors: seq<string>, x: int, y: int)
    requires Sound(l, paletteColors)
    ensures var drawn := DrawDecoded(DecodeImage(PartOf(l).data), DrawnPalette(PartOf(l), paletteColors));
            drawn.Some? && PaintAt(drawn.value, x, y) == PixelPaint(l.png, x / 10, y / 10)
  {
    var palette := DrawnPalette(PartOf(l), paletteColors);
    RenderRoundTrip(l.png, l.before, palette[0 := ""], x, y);
    DrawingIgnoresSlotZero(Decoded(l.png, l.before), palette, "");
  }

  lemma {:induction false} LayersPaint(layers: seq<Layer>, paletteColors: seq<string>, x: int, y: int)
    requires AllSound(layers, paletteColors)
    ensures LayerRects(PartsOf(layers), paletteColors).Some?
    ensures PaintAt(LayerRects(PartsOf(layers), paletteColors).value, x, y) == TopPaint(layers, x / 10, y / 10)
  {
    if layers != [] {
      var init, last := layers[..|layers| - 1], PartOf(layers[|layers| - 1]);
      LayersPaint(init, paletteColors, x, y);
      SoundLayerDraws(layers[|layers| - 1], paletteColors, x, y);
      LayerOnTop(PartsOf(init), last, paletteColors);
      PaintConcat(LayerRects(PartsOf(init), paletteColors).value,
                  DrawDecoded(DecodeImage(last.data), DrawnPalette(last, paletteColors)).value, x, y);
    }
  }

  lemma {:induction false} NoPalettes(layers: seq<Layer>)
    requires forall i :: 0 <= i < |layers| ==> layers[i].palette.None?
    ensures forall i :: 0 <= i < |PartsOf(layers)| ==> PartsOf(layers)[i].palette.None?
  {
    if layers != [] { NoPalettes(layers[..|layers| - 1]); }
  }

  /** The same for the SDK's builder: several parts of one collection over the collection's palette. */
  lemma SdkLayeredRendering(layers: seq<Layer>, paletteColors: seq<string>, bgColor: string, x: int, y: int)
    requires AllSound(layers, paletteColors) && forall i :: 0 <= i < |layers| ==> layers[i].palette.None?
    ensures PartRects(DataOf(PartsOf(layers)), paletteColors).Some?
    ensures ColorAt(Document(bgColor, PartRects(DataOf(PartsOf(layers)), paletteColors).value), x, y) ==
              Shown(layers, bgColor, x, y)
  {
    LayeredRendering(layers, paletteColors, bgColor, x, y);
    NoPalettes(layers);
    SameAsSdk(PartsOf(layers), paletteColors);
  }

  // ---------- the stored palette ----------

  /** `palette.join('')`. */
  function Join(palette: seq<string>): string {
    if palette == [] then [] else palette[0] + Join(palette[1..])
  }

  /** The text stored with a collection: the first six zeros stand for the empty slot 0. */
  function PaletteText(palette: seq<string>): string {
    "0x000000" + Join(palette)
  }

  /** `paletteRaw.substring(2).match(/.{1,6}/g)`. */
  function ParsePalette(text: string): seq<string> {
    Hex.Chunks(Hex.Tail(text, 2), 6)
  }

  predicate SixDigits(keys: seq<string>) {
    forall i :: 0 <= i < |keys| ==> |keys[i]| == 6 && Hex.AllDigits(keys[i])
  }

  lemma {:induction false} ChunksOfJoin(keys: seq<string>)
    requires SixDigits(keys)
    ensures Hex.Chunks(Join(keys), 6) == keys
  {
    if keys != [] {
      Hex.DigitsHaveNoBreaks(keys[0]);
      Hex.ChunksSplit(keys[0], Join(keys[1..]), 6);
      ChunksOfJoin(keys[1..]);
    }
  }

  /** The keys of an encoder: the empty key first, no duplicates. */
  predicate EncoderKeys(keys: seq<string>) {
    keys != [] && keys[0] == "" && Distinct(keys)
  }

  /** Storing a palette and reading it back changes slot 0 and nothing else. */
  lemma StoredPaletteRoundTrip(palette: seq<string>)
    requires EncoderKeys(palette) && SixDigits(palette[1..])
    ensures ParsePalette(PaletteText(palette)) == palette[0 := "000000"]
  {
    var zeros, rest := "000000", palette[1..];
    TextBody(palette);
    Hex.ChunksSplit(zeros, Join(rest), 6);
    ChunksOfJoin(rest);
    SlotZero(palette, zeros);
  }

  lemma SlotZero(palette: seq<string>, key: string)
    requires palette != []
    ensures palette[0 := key] == [key] + palette[1..]
  {
  }

  lemma TextBody(palette: seq<string>)
    requires EncoderKeys(palette)
    ensures Hex.Tail(PaletteText(palette), 2) == "000000" + Join(palette[1..])
  {
    var body := Join(palette);
    assert body == [] + Join(palette[1..]);
    assert ("0x000000" + body)[2..] == "000000" + body;
  }

  /** Any part draws the same rectangles from a stored palette as from the encoder's own. */
  lemma StoredPaletteRendersTheSame(image: DecodedImage, palette: seq<string>)
    requires EncoderKeys(palette) && SixDigits(palette[1..])
    ensures DrawDecoded(image, ParsePalette(PaletteText(palette))) == DrawDecoded(image, palette)
  {
    StoredPaletteRoundTrip(palette);
    DrawingIgnoresSlotZero(image, palette, "000000");
  }

  /** Agreeing slots are determined by the order of the keys. */
  lemma AgreeingSlotsAreEqual(p: Palette, q: Palette)
    requires IsMap(p) && IsMap(q) && p.order == q.order
    requires SlotsAgree(p.order, p.slots) && SlotsAgree(q.order, q.slots)
    ensures p == q
  {
    forall c | c in p.slots ensures c in q.slots && q.slots[c] == p.slots[c] {
      assert c in p.order;
      var i :| 0 <= i < |p.order| && p.order[i] == c;
    }
    forall c | c in q.slots ensures c in p.slots {
      assert c in q.order;
    }
    assert p.slots == q.slots;
  }

  /**
   * A collection that is continued later: its stored palette, with slot 0 put back to the empty
   * key, seeds an encoder that stands exactly where the first one stopped.
   */
  lemma StoredPaletteResumes(p: Palette)
    requires WellSeeded(p) && SixDigits(p.order[1..])
    ensures var seed := ParsePalette(PaletteText(p.order));
            seed != [] && seed[0] == "000000" && Seeded(seed[0 := ""]) == p
  {
    var palette := p.order;
    StoredPaletteRoundTrip(palette);
    assert palette[0 := "000000"][0 := ""] == palette == palette[0 := ""];
    SeedWorksIff(palette);
    SeededIsMap(palette);
    AgreeingSlotsAreEqual(Seeded(palette), p);
  }

  predicate EightBit(pixels: seq<RGBA>) {
    forall i :: 0 <= i < |pixels| ==> pixels[i].r < 256 && pixels[i].g < 256 && pixels[i].b < 256
  }

  /** With 8-bit channels every colour an encoder adds has six digits, so its palette can be stored. */
  lemma {:induction false} EncodedPaletteIsStorable(p: Palette, pixels: seq<RGBA>)
    requires IsMap(p) && EncoderKeys(p.order) && SixDigits(p.order[1..]) && EightBit(pixels)
    ensures EncoderKeys(PaletteAfter(p, pixels).order) && SixDigits(PaletteAfter(p, pixels).order[1..])
  {
    PaletteGrows(p, pixels);
    if pixels != [] {
      var init, last := pixels[..|pixels| - 1], pixels[|pixels| - 1];
      EncodedPaletteIsStorable(p, init);
      Hex.RgbToHexInjective(last.r, last.g, last.b, last.r, last.g, last.b);
      LearnStorable(PaletteAfter(p, init), Color(last));
    }
  }

  lemma LearnStorable(p: Palette, c: string)
    requires p.order != [] && SixDigits(p.order[1..]) && |c| == 6 && Hex.AllDigits(c)
    ensures Learn(p, c).order != [] && SixDigits(Learn(p, c).order[1..])
  {
    assert (p.order + [c])[1..] == p.order[1..] + [c];
  }
}
