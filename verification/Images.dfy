/**
 * packages/nouns-sdk/src/image/image.ts: crop an image to its opaque box, give every colour a
 * palette slot, and run-length encode the index stream across line breaks.
 */
module Images {
  import opened Wrappers
  import opened OrderedMaps
  import opened RunLength
  import opened SvgBuilder
  import Hex

  datatype RGBA = RGBA(r: nat, g: nat, b: nat, a: nat)

  datatype Png = Png(width: nat, height: nat, rgbaAt: (int, int) -> RGBA)

  function Color(p: RGBA): string {
    Hex.RgbToHex(p.r, p.g, p.b)
  }

  predicate Opaque(png: Png, x: int, y: int) {
    0 <= x < png.width && 0 <= y < png.height && png.rgbaAt(x, y).a != 0
  }

  // ---------- crop box ----------

  predicate RowClear(png: Png, y: int) {
    forall x :: 0 <= x < png.width ==> png.rgbaAt(x, y).a == 0
  }

  predicate ColumnClear(png: Png, x: int) {
    forall y :: 0 <= y < png.height ==> png.rgbaAt(x, y).a == 0
  }

  function LastRow(png: Png, y: int): int {
    if y > 0 && RowClear(png, y) then LastRow(png, y - 1) else y
  }

  function FirstRow(png: Png, y: int, bottom: int): int
    decreases bottom - y
  {
    if y < bottom && RowClear(png, y) then FirstRow(png, y + 1, bottom) else y
  }

  function LastColumn(png: Png, x: int): int
    decreases x + 1
  {
    if x >= 0 && ColumnClear(png, x) then LastColumn(png, x - 1) else x
  }

  function FirstColumn(png: Png, x: int, right: int): int
    decreases right - x
  {
    if x < right && ColumnClear(png, x) then FirstColumn(png, x + 1, right) else x
  }

  function CropBox(png: Png): Bounds {
    var bottom := LastRow(png, png.height - 1);
    var right := LastColumn(png, png.width - 1);
    Bounds(FirstRow(png, 0, bottom), right + 1, bottom, FirstColumn(png, 0, right))
  }

  predicate InBox(b: Bounds, x: int, y: int) {
    b.left <= x < b.right && b.top <= y <= b.bottom
  }

  /** The box holds every opaque pixel. */
  ghost predicate Encloses(b: Bounds, png: Png) {
    forall x, y :: Opaque(png, x, y) ==> InBox(b, x, y)
  }

  ghost predicate RowTouched(png: Png, y: int) {
    exists x :: Opaque(png, x, y)
  }

  ghost predicate ColumnTouched(png: Png, x: int) {
    exists y :: Opaque(png, x, y)
  }

  ghost predicate Within(inner: Bounds, outer: Bounds) {
    outer.top <= inner.top && inner.bottom <= outer.bottom && outer.left <= inner.left && inner.right <= outer.right
  }

  lemma {:induction false} LastRowScan(png: Png, y: int)
    requires -1 <= y
    ensures -1 <= LastRow(png, y) <= y && (y >= 0 ==> LastRow(png, y) >= 0)
    ensures forall v :: LastRow(png, y) < v <= y ==> RowClear(png, v)
    ensures LastRow(png, y) > 0 ==> !RowClear(png, LastRow(png, y))
  {
    if y > 0 && RowClear(png, y) { LastRowScan(png, y - 1); }
  }

  lemma {:induction false} FirstRowScan(png: Png, y: int, bottom: int)
    requires 0 <= y <= bottom
    ensures y <= FirstRow(png, y, bottom) <= bottom
    ensures forall v :: y <= v < FirstRow(png, y, bottom) ==> RowClear(png, v)
    ensures FirstRow(png, y, bottom) < bottom ==> !RowClear(png, FirstRow(png, y, bottom))
    decreases bottom - y
  {
    if y < bottom && RowClear(png, y) { FirstRowScan(png, y + 1, bottom); }
  }

  lemma {:induction false} LastColumnScan(png: Png, x: int)
    requires -1 <= x
    ensures -1 <= LastColumn(png, x) <= x
    ensures forall v :: LastColumn(png, x) < v <= x ==> ColumnClear(png, v)
    ensures LastColumn(png, x) >= 0 ==> !ColumnClear(png, LastColumn(png, x))
    decreases x + 1
  {
    if x >= 0 && ColumnClear(png, x) { LastColumnScan(png, x - 1); }
  }

  lemma {:induction false} FirstColumnScan(png: Png, x: int, right: int)
    requires 0 <= x <= right
    ensures x <= FirstColumn(png, x, right) <= right
    ensures forall v :: x <= v < FirstColumn(png, x, right) ==> ColumnClear(png, v)
    ensures FirstColumn(png, x, right) < right ==> !ColumnClear(png, FirstColumn(png, x, right))
    decreases right - x
  {
    if x < right && ColumnClear(png, x) { FirstColumnScan(png, x + 1, right); }
  }

  /** The box lies inside the image and leaves out transparent pixels only. */
  lemma CropBoxEncloses(png: Png)
    ensures Encloses(CropBox(png), png)
    ensures var b := CropBox(png); 0 <= b.left <= b.right <= png.width && b.top >= 0
    ensures var b := CropBox(png); if png.height == 0 then b.bottom == -1 else b.top <= b.bottom < png.height
    ensures (forall x, y :: !Opaque(png, x, y)) ==>
              CropBox(png) == Bounds(0, 0, if png.height == 0 then -1 else 0, 0)
  {
    LastRowScan(png, png.height - 1);
    var bottom := LastRow(png, png.height - 1);
    if bottom >= 0 { FirstRowScan(png, 0, bottom); }
    LastColumnScan(png, png.width - 1);
    var right := LastColumn(png, png.width - 1);
    if right >= 0 { FirstColumnScan(png, 0, right); }
    forall x, y | Opaque(png, x, y) ensures InBox(CropBox(png), x, y) {
      assert !RowClear(png, y) && !ColumnClear(png, x);
    }
    if forall x, y :: !Opaque(png, x, y) {
      NothingOpaque(png);
    }
  }

  lemma NothingOpaque(png: Png)
    requires forall x, y :: !Opaque(png, x, y)
    ensures forall y :: 0 <= y < png.height ==> RowClear(png, y)
    ensures forall x :: 0 <= x < png.width ==> ColumnClear(png, x)
  {
    forall y, x | 0 <= y < png.height && 0 <= x < png.width ensures png.rgbaAt(x, y).a == 0 {
      assert !Opaque(png, x, y);
    }
  }

  /** When something is opaque, each of the four sides of the box touches an opaque pixel. */
  lemma CropBoxTouches(png: Png, x: int, y: int)
    requires Opaque(png, x, y)
    ensures RowTouched(png, CropBox(png).top) && RowTouched(png, CropBox(png).bottom)
    ensures ColumnTouched(png, CropBox(png).left) && ColumnTouched(png, CropBox(png).right - 1)
  {
    CropBoxEncloses(png);
    LastRowScan(png, png.height - 1);
    FirstRowScan(png, 0, LastRow(png, png.height - 1));
    LastColumnScan(png, png.width - 1);
    assert !RowClear(png, y) && !ColumnClear(png, x);
    FirstColumnScan(png, 0, LastColumn(png, png.width - 1));
    var b := CropBox(png);
    assert !RowClear(png, b.bottom) && !RowClear(png, b.top);
    assert !ColumnClear(png, b.left) && !ColumnClear(png, b.right - 1);
    RowWitness(png, b.top); RowWitness(png, b.bottom);
    ColumnWitness(png, b.left); ColumnWitness(png, b.right - 1);
  }

  lemma RowWitness(png: Png, y: int)
    requires 0 <= y < png.height && !RowClear(png, y)
    ensures RowTouched(png, y)
  {
    var x :| 0 <= x < png.width && png.rgbaAt(x, y).a != 0;
    assert Opaque(png, x, y);
  }

  lemma ColumnWitness(png: Png, x: int)
    requires 0 <= x < png.width && !ColumnClear(png, x)
    ensures ColumnTouched(png, x)
  {
    var y :| 0 <= y < png.height && png.rgbaAt(x, y).a != 0;
    assert Opaque(png, x, y);
  }

  /** Of all boxes around the opaque pixels, `CropBox` is the least. */
  lemma CropBoxIsLeast(png: Png, other: Bounds)
    requires exists x, y :: Opaque(png, x, y)
    requires Encloses(other, png)
    ensures Within(CropBox(png), other)
  {
    var x, y :| Opaque(png, x, y);
    CropBoxTouches(png, x, y);
  }

  // ---------- index stream and palette ----------

  /** The pixels of a box, line by line. */
  function Crop(png: Png, b: Bounds): seq<RGBA> {
    if b.left < b.right && b.top <= b.bottom then
      seq(Width(b) * (b.bottom - b.top + 1),
          k requires 0 <= k => png.rgbaAt(b.left + k % Width(b), b.top + k / Width(b)))
    else []
  }

  /** The colour map as a value: its keys in the order of insertion, and the slot each is mapped to. */
  datatype Palette = Palette(order: seq<string>, slots: map<string, nat>)

  ghost predicate IsMap(p: Palette) {
    Distinct(p.order) && forall c :: c in p.order <==> c in p.slots
  }

  /** `if (!colors.has(c)) colors.set(c, colors.size)`. */
  function Learn(p: Palette, c: string): Palette {
    if c in p.slots then p else Palette(p.order + [c], p.slots[c := |p.order|])
  }

  /** A fully transparent pixel inserts its colour too. */
  function PaletteAfter(p: Palette, pixels: seq<RGBA>): Palette {
    if pixels == [] then p
    else Learn(PaletteAfter(p, pixels[..|pixels| - 1]), Color(pixels[|pixels| - 1]))
  }

  /** `a === 0 ? 0 : colors.get(c)` for a colour the map has. */
  function Slot(p: Palette, pixel: RGBA): nat {
    if pixel.a == 0 || Color(pixel) !in p.slots then 0 else p.slots[Color(pixel)]
  }

  function Indexes(p: Palette, pixels: seq<RGBA>): seq<int> {
    if pixels == [] then []
    else Indexes(p, pixels[..|pixels| - 1]) + [Slot(PaletteAfter(p, pixels), pixels[|pixels| - 1])]
  }

  /** q has all of p's keys, first and in the same slots. */
  ghost predicate Extends(p: Palette, q: Palette) {
    p.order <= q.order && forall c :: c in p.slots ==> c in q.slots && q.slots[c] == p.slots[c]
  }

  lemma LearnGrows(p: Palette, c: string)
    requires IsMap(p)
    ensures IsMap(Learn(p, c)) && Extends(p, Learn(p, c)) && c in Learn(p, c).slots
  {
    var after := Learn(p, c).order;
    if c !in p.slots {
      forall i, j | 0 <= i < j < |after| ensures after[i] != after[j] {
        if j == |p.order| { assert after[i] in p.order; }
      }
      assert after[|p.order|] == c;
    }
  }

  lemma ExtendsChain(p: Palette, q: Palette, r: Palette)
    requires Extends(p, q) && Extends(q, r)
    ensures Extends(p, r)
  {
  }

  /** The map is only appended to and stays free of duplicates. */
  lemma {:induction false} PaletteGrows(p: Palette, pixels: seq<RGBA>)
    requires IsMap(p)
    ensures IsMap(PaletteAfter(p, pixels)) && Extends(p, PaletteAfter(p, pixels))
  {
    if pixels != [] {
      var init, last := pixels[..|pixels| - 1], pixels[|pixels| - 1];
      var before := PaletteAfter(p, init);
      PaletteGrows(p, init);
      LearnGrows(before, Color(last));
      ExtendsChain(p, before, PaletteAfter(p, pixels));
    }
  }

  /** One more pixel. */
  lemma PaletteStep(p: Palette, init: seq<RGBA>, last: RGBA)
    requires IsMap(p)
    ensures var (before, after) := (PaletteAfter(p, init), PaletteAfter(p, init + [last]));
            IsMap(before) && IsMap(after) && Extends(before, after) && after == Learn(before, Color(last))
                && Color(last) in after.slots
  {
    assert (init + [last])[..|init|] == init;
    PaletteGrows(p, init);
    LearnGrows(PaletteAfter(p, init), Color(last));
  }

  /** Every colour that was met is known. */
  lemma {:induction false} MetIsKnown(p: Palette, pixels: seq<RGBA>, k: nat)
    requires IsMap(p) && k < |pixels|
    ensures Color(pixels[k]) in PaletteAfter(p, pixels).slots
  {
    var init, last := pixels[..|pixels| - 1], pixels[|pixels| - 1];
    assert pixels == init + [last];
    PaletteStep(p, init, last);
    if k < |init| {
      MetIsKnown(p, init, k);
      assert init[k] == pixels[k];
    }
  }

  lemma {:induction false} IndexesLength(p: Palette, pixels: seq<RGBA>)
    ensures |Indexes(p, pixels)| == |pixels|
    ensures forall k :: 0 <= k < |pixels| ==> 0 <= Indexes(p, pixels)[k]
  {
    if pixels != [] { IndexesLength(p, pixels[..|pixels| - 1]); }
  }

  lemma SlotKept(p: Palette, q: Palette, pixel: RGBA)
    requires Extends(p, q) && Color(pixel) in p.slots
    ensures Slot(q, pixel) == Slot(p, pixel)
  {
  }

  lemma IndexesStep(p: Palette, init: seq<RGBA>, last: RGBA)
    ensures Indexes(p, init + [last]) == Indexes(p, init) + [Slot(PaletteAfter(p, init + [last]), last)]
    ensures |Indexes(p, init)| == |init|
  {
    assert (init + [last])[..|init|] == init;
    IndexesLength(p, init);
  }

  /** Each index is the slot of its pixel in the final map: later pixels move nothing. */
  lemma {:induction false} IndexIsSlot(p: Palette, pixels: seq<RGBA>, k: nat)
    requires IsMap(p) && k < |pixels|
    ensures |Indexes(p, pixels)| == |pixels| && Indexes(p, pixels)[k] == Slot(PaletteAfter(p, pixels), pixels[k])
  {
    var init, last := pixels[..|pixels| - 1], pixels[|pixels| - 1];
    assert pixels == init + [last];
    PaletteStep(p, init, last);
    IndexesStep(p, init, last);
    if k < |init| {
      IndexIsSlot(p, init, k);
      MetIsKnown(p, init, k);
      SlotKept(PaletteAfter(p, init), PaletteAfter(p, pixels), init[k]);
    }
  }

  // ---------- which colours keep a slot of their own ----------

  /** The printed palette shows the colour in the colour's slot, and that slot is not the transparent one. */
  predicate Resolves(p: Palette, c: string) {
    c in p.slots && 0 < p.slots[c] < |p.order| && p.order[p.slots[c]] == c
  }

  /** A caller's test: a known colour must resolve; a new one fails only as the very first key. */
  predicate Accepts(p: Palette, pixels: seq<RGBA>, c: string) {
    if c in p.slots then Resolves(p, c) else p.order != [] || (pixels != [] && c != Color(pixels[0]))
  }

  lemma KnownResolvesIff(p: Palette, q: Palette, c: string)
    requires IsMap(p) && IsMap(q) && Extends(p, q) && c in p.slots
    ensures Resolves(q, c) <==> Resolves(p, c)
  {
    var i := p.slots[c];
    var j :| 0 <= j < |p.order| && p.order[j] == c;
    assert q.order[j] == c;
    if i < |p.order| { assert q.order[i] == p.order[i]; }
  }

  /** The colour can be read in its slot, which is the first slot only if `first` says so. */
  ghost predicate InOwnSlot(p: Palette, c: string, first: bool) {
    c in p.slots && p.slots[c] < |p.order| && p.order[p.slots[c]] == c && (p.slots[c] == 0 <==> first)
  }

  lemma OwnSlotKept(p: Palette, q: Palette, c: string, first: bool)
    requires Extends(p, q) && InOwnSlot(p, c, first)
    ensures InOwnSlot(q, c, first)
  {
    assert q.order[p.slots[c]] == p.order[p.slots[c]];
  }

  lemma LearnOwnSlot(p: Palette, c: string)
    requires c !in p.slots
    ensures InOwnSlot(Learn(p, c), c, p.order == [])
  {
  }

  lemma {:induction false} EmptyStaysEmpty(p: Palette, pixels: seq<RGBA>)
    requires IsMap(p)
    ensures PaletteAfter(p, pixels).order == [] <==> p.order == [] && pixels == []
  {
    if pixels != [] {
      var init, last := pixels[..|pixels| - 1], pixels[|pixels| - 1];
      assert pixels == init + [last];
      PaletteStep(p, init, last);
      assert Color(last) in PaletteAfter(p, pixels).order;
    }
  }

  /** A new colour gets the next free slot, where it can be read. */
  lemma {:induction false} NewColour(p: Palette, pixels: seq<RGBA>, c: string)
    requires IsMap(p) && c !in p.slots && c in PaletteAfter(p, pixels).slots
    ensures pixels != [] && InOwnSlot(PaletteAfter(p, pixels), c, p.order == [] && c == Color(pixels[0]))
  {
    var init, last := pixels[..|pixels| - 1], pixels[|pixels| - 1];
    var before := PaletteAfter(p, init);
    assert pixels == init + [last];
    PaletteStep(p, init, last);
    EmptyStaysEmpty(p, init);
    if c in before.slots {
      NewColour(p, init, c);
      OwnSlotKept(before, PaletteAfter(p, pixels), c, p.order == [] && c == Color(init[0]));
    } else {
      LearnOwnSlot(before, c);
      if init != [] { MetIsKnown(p, init, 0); }
    }
  }

  /** The colour of a pixel resolves after encoding exactly when the map accepted it before. */
  lemma ResolvesIff(p: Palette, pixels: seq<RGBA>, k: nat)
    requires IsMap(p) && k < |pixels|
    ensures Resolves(PaletteAfter(p, pixels), Color(pixels[k])) <==> Accepts(p, pixels, Color(pixels[k]))
  {
    PaletteGrows(p, pixels);
    if Color(pixels[k]) in p.slots {
      KnownResolvesIff(p, PaletteAfter(p, pixels), Color(pixels[k]));
    } else {
      MetIsKnown(p, pixels, k);
      NewColour(p, pixels, Color(pixels[k]));
    }
  }

  lemma ColorNotEmpty(p: RGBA)
    ensures Color(p) != ""
  {
    var s := Hex.ToPaddedHex(p.r);
    assert |s| >= 1;
  }

  // ---------- text ----------

  function HexRun(r: Run): string {
    Hex.ToPaddedHex(r.count) + Hex.ToPaddedHex(r.color)
  }

  function HexRuns(runs: seq<Run>): string {
    if runs == [] then [] else HexRun(runs[0]) + HexRuns(runs[1..])
  }

  function Metadata(b: Bounds): string {
    Hex.ToPaddedHex(0) + Hex.ToPaddedHex(b.top) + Hex.ToPaddedHex(b.right) + Hex.ToPaddedHex(b.bottom)
        + Hex.ToPaddedHex(b.left)
  }

  function RleText(b: Bounds, runs: seq<Run>): string {
    "0x" + (Metadata(b) + HexRuns(runs))
  }

  /** The text `toRLE` returns for an image and a palette. */
  function Rle(png: Png, p: Palette): string {
    var b := CropBox(png);
    RleText(b, Runs(Indexes(p, Crop(png, b))))
  }

  lemma {:induction false} HexRunsAppend(runs: seq<Run>, r: Run)
    ensures HexRuns(runs + [r]) == HexRuns(runs) + HexRun(r)
  {
    if runs == [] {
      assert [r][1..] == [];
      assert HexRuns([r]) == HexRun(r) + [];
    } else {
      var first, rest := runs[0], runs[1..];
      HexRunsAppend(rest, r);
      assert (runs + [r])[0] == first && (runs + [r])[1..] == rest + [r];
      ConcatAssoc(HexRun(first), HexRuns(rest), HexRun(r));
    }
  }

  predicate ShortRuns(runs: seq<Run>) {
    forall i :: 0 <= i < |runs| ==> Hex.Short(runs[i].count) && Hex.Short(runs[i].color)
  }

  predicate ShortBounds(b: Bounds) {
    Hex.Short(b.top) && Hex.Short(b.right) && Hex.Short(b.bottom) && Hex.Short(b.left)
  }

  lemma HexRunReads(r: Run)
    requires Hex.Short(r.count) && Hex.Short(r.color)
    ensures |HexRun(r)| == 4 && forall i :: 0 <= i < 4 ==> !Hex.IsLineTerminator(HexRun(r)[i])
    ensures Num(Hex.Substring(HexRun(r), 0, 2)) == r.count
    ensures Num(Hex.Substring(HexRun(r), 2, 4)) == r.color
  {
    Hex.ShortRoundTrip(r.count);
    Hex.ShortRoundTrip(r.color);
    assert HexRun(r)[0..2] == Hex.ToPaddedHex(r.count) && HexRun(r)[2..4] == Hex.ToPaddedHex(r.color);
  }

  lemma {:induction false} DecodeHexRuns(runs: seq<Run>)
    requires ShortRuns(runs)
    ensures DecodeRects(Hex.Chunks(HexRuns(runs), 4)) == runs
  {
    if runs != [] {
      var r, rest := runs[0], runs[1..];
      HexRunReads(r);
      Hex.ChunksSplit(HexRun(r), HexRuns(rest), 4);
      DecodeHexRuns(rest);
      PrependRun(HexRun(r), Hex.Chunks(HexRuns(rest), 4), r, rest);
      assert runs == [r] + rest;
    }
  }

  lemma PrependRun(text: string, chunks: seq<string>, r: Run, rest: seq<Run>)
    requires Num(Hex.Substring(text, 0, 2)) == r.count && Num(Hex.Substring(text, 2, 4)) == r.color
    requires DecodeRects(chunks) == rest
    ensures DecodeRects([text] + chunks) == [r] + rest
  {
    assert ([text] + chunks)[1..] == chunks;
  }

  /** The decoder reads back the bounds and the runs the encoder wrote. */
  lemma DecodeRleText(b: Bounds, runs: seq<Run>)
    requires ShortBounds(b) && ShortRuns(runs)
    ensures DecodeImage(RleText(b, runs)) == DecodedImage(0, b, runs)
  {
    var z, t, r, m, l, body := Hex.ToPaddedHex(0), Hex.ToPaddedHex(b.top), Hex.ToPaddedHex(b.right),
        Hex.ToPaddedHex(b.bottom), Hex.ToPaddedHex(b.left), HexRuns(runs);
    Hex.ShortRoundTrip(0);
    Hex.ShortRoundTrip(b.top); Hex.ShortRoundTrip(b.right); Hex.ShortRoundTrip(b.bottom); Hex.ShortRoundTrip(b.left);
    DecodeHexRuns(runs);
    var data := Metadata(b) + body;
    HeaderFields(z, t, r, m, l, body);
    assert ("0x" + data)[..2] == "0x" && ("0x" + data)[2..] == data;
  }

  lemma HeaderFields(z: string, t: string, r: string, m: string, l: string, body: string)
    requires |z| == |t| == |r| == |m| == |l| == 2
    ensures var data := z + t + r + m + l + body;
            && Field(data, 0) == Num(z) && Field(data, 1) == Num(t) && Field(data, 2) == Num(r)
            && Field(data, 3) == Num(m) && Field(data, 4) == Num(l) && Hex.Tail(data, 10) == body
  {
    var data := z + t + r + m + l + body;
    assert data[0..2] == z && data[2..4] == t;
    assert data[4..6] == r && data[6..8] == m;
    assert data[8..10] == l && data[10..] == body;
  }

  // ---------- where each number stands in the text ----------

  /** The number in place k behind the `0x`. */
  function NumberAt(text: string, k: nat): Option<int>
    requires 4 + 2 * k <= |text|
  {
    Hex.ParseInt16(text[2 + 2 * k..4 + 2 * k])
  }

  /** Palette index, top, right, bottom, left, and then a length and a colour for each run. */
  predicate LaidOut(text: string, b: Bounds, runs: seq<Run>) {
    && |text| == 12 + 4 * |runs| && text[..2] == "0x"
    && NumberAt(text, 0) == Some(0) && NumberAt(text, 1) == Some(b.top) && NumberAt(text, 2) == Some(b.right)
    && NumberAt(text, 3) == Some(b.bottom) && NumberAt(text, 4) == Some(b.left)
    && forall i :: 0 <= i < |runs| ==>
         NumberAt(text, 5 + 2 * i) == Some(runs[i].count) && NumberAt(text, 6 + 2 * i) == Some(runs[i].color)
  }

  lemma SliceBehind(a: string, b: string, i: nat, j: nat)
    requires i <= j <= |b|
    ensures (a + b)[|a| + i..|a| + j] == b[i..j]
  {
  }

  lemma SliceOfTail(text: string, k: nat, i: nat, j: nat)
    requires k <= |text| && i <= j <= |text| - k
    ensures text[k + i..k + j] == text[k..][i..j]
  {
  }

  lemma {:induction false} RunsLength(runs: seq<Run>)
    requires ShortRuns(runs)
    ensures |HexRuns(runs)| == 4 * |runs|
  {
    if runs != [] {
      HexRunReads(runs[0]);
      RunsLength(runs[1..]);
    }
  }

  lemma ShortTail(runs: seq<Run>)
    requires ShortRuns(runs) && runs != []
    ensures ShortRuns(runs[1..]) && |HexRun(runs[0])| == 4
  {
    HexRunReads(runs[0]);
  }

  lemma FirstSlice(first: string, rest: string)
    requires |first| == 4
    ensures (first + rest)[0..4] == first
  {
  }

  lemma CutBehind(first: string, rest: string, i: nat, r: Run)
    requires |first| == 4 && 4 * i + 4 <= |rest| && Holds(rest[4 * i..4 * i + 4], r)
    ensures Holds((first + rest)[4 * (i + 1)..4 * (i + 1) + 4], r)
  {
    SliceBehind(first, rest, 4 * i, 4 * i + 4);
  }

  lemma {:induction false} RunsLaidOut(runs: seq<Run>, i: nat)
    requires ShortRuns(runs) && i < |runs|
    ensures |HexRuns(runs)| == 4 * |runs| && Holds(HexRuns(runs)[4 * i..4 * i + 4], runs[i])
  {
    RunsLength(runs);
    ShortTail(runs);
    RunsLength(runs[1..]);
    if i == 0 {
      FirstSlice(HexRun(runs[0]), HexRuns(runs[1..]));
      TwoNumbers(HexRun(runs[0]), runs[0]);
    } else {
      RunsLaidOut(runs[1..], i - 1);
      CutBehind(HexRun(runs[0]), HexRuns(runs[1..]), i - 1, runs[i]);
    }
  }

  lemma HeaderSlices(z: string, t: string, r: string, m: string, l: string, body: string)
    requires |z| == |t| == |r| == |m| == |l| == 2
    ensures var text := "0x" + (z + t + r + m + l + body);
            && text[..2] == "0x" && text[2..4] == z && text[4..6] == t && text[6..8] == r && text[8..10] == m
            && text[10..12] == l && text[12..] == body
  {
    var data := z + t + r + m + l + body;
    var text := "0x" + data;
    assert text[..2] == "0x" && text[2..] == data;
    SliceOfTail(text, 2, 0, 2); SliceOfTail(text, 2, 2, 4); SliceOfTail(text, 2, 4, 6);
    SliceOfTail(text, 2, 6, 8); SliceOfTail(text, 2, 8, 10);
    assert data[0..2] == z && data[2..4] == t && data[4..6] == r && data[6..8] == m && data[8..10] == l;
    assert data[10..] == body && text[12..] == data[10..];
  }

  lemma HeaderLaidOut(b: Bounds, body: string)
    requires ShortBounds(b)
    ensures var text := "0x" + (Metadata(b) + body);
            && |text| == 12 + |body| && text[..2] == "0x" && text[12..] == body
            && NumberAt(text, 0) == Some(0) && NumberAt(text, 1) == Some(b.top) && NumberAt(text, 2) == Some(b.right)
            && NumberAt(text, 3) == Some(b.bottom) && NumberAt(text, 4) == Some(b.left)
  {
    Hex.ShortRoundTrip(0);
    Hex.ShortRoundTrip(b.top); Hex.ShortRoundTrip(b.right); Hex.ShortRoundTrip(b.bottom); Hex.ShortRoundTrip(b.left);
    HeaderSlices(Hex.ToPaddedHex(0), Hex.ToPaddedHex(b.top), Hex.ToPaddedHex(b.right), Hex.ToPaddedHex(b.bottom),
        Hex.ToPaddedHex(b.left), body);
  }

  /** The text holds the format's fields in the format's order, with a run's length before its colour. */
  lemma RleTextLaidOut(b: Bounds, runs: seq<Run>)
    requires ShortBounds(b) && ShortRuns(runs)
    ensures LaidOut(RleText(b, runs), b, runs)
  {
    var text, body := RleText(b, runs), HexRuns(runs);
    HeaderLaidOut(b, body);
    RunsLength(runs);
    forall i | 0 <= i < |runs|
      ensures NumberAt(text, 5 + 2 * i) == Some(runs[i].count) && NumberAt(text, 6 + 2 * i) == Some(runs[i].color)
    {
      RunsLaidOut(runs, i);
      RunLaidOut(text, body, runs[i], i);
    }
  }

  lemma NumberBehind(text: string, body: string, j: nat)
    requires |text| == 12 + |body| && text[12..] == body && 2 * j + 2 <= |body|
    ensures NumberAt(text, 5 + j) == Hex.ParseInt16(body[2 * j..2 * j + 2])
  {
    SliceOfTail(text, 12, 2 * j, 2 * j + 2);
  }

  lemma HalvesOfFour(body: string, j: nat, cut: string)
    requires j + 4 <= |body| && cut == body[j..j + 4]
    ensures body[j..j + 2] == cut[..2] && body[j + 2..j + 4] == cut[2..]
  {
  }

  lemma PairBehind(text: string, body: string, cut: string, j: nat)
    requires |text| == 12 + |body| && text[12..] == body && 2 * j + 4 <= |body| && cut == body[2 * j..2 * j + 4]
    ensures NumberAt(text, 5 + j) == Hex.ParseInt16(cut[..2]) && NumberAt(text, 6 + j) == Hex.ParseInt16(cut[2..])
  {
    HalvesOfFour(body, 2 * j, cut);
    NumberBehind(text, body, j);
    NumberBehind(text, body, j + 1);
  }

  /** The four characters of run number i. */
  predicate Holds(cut: string, r: Run) {
    |cut| == 4 && Hex.ParseInt16(cut[..2]) == Some(r.count) && Hex.ParseInt16(cut[2..]) == Some(r.color)
  }

  lemma RunLaidOut(text: string, body: string, r: Run, i: nat)
    requires |text| == 12 + |body| && text[12..] == body && 4 * i + 4 <= |body| && Holds(body[4 * i..4 * i + 4], r)
    ensures NumberAt(text, 5 + 2 * i) == Some(r.count) && NumberAt(text, 6 + 2 * i) == Some(r.color)
  {
    PairBehind(text, body, body[4 * i..4 * i + 4], 2 * i);
  }

  lemma TwoNumbers(cut: string, r: Run)
    requires cut == HexRun(r) && Hex.Short(r.count) && Hex.Short(r.color)
    ensures Holds(cut, r)
  {
    Hex.ShortRoundTrip(r.count);
    Hex.ShortRoundTrip(r.color);
    assert cut[..2] == Hex.ToPaddedHex(r.count) && cut[2..] == Hex.ToPaddedHex(r.color);
  }

  // ---------- what two characters can hold ----------

  predicate SmallBounds(b: Bounds) {
    b.top < 256 && b.right < 256 && b.bottom < 256 && b.left < 256
  }

  predicate SmallRuns(runs: seq<Run>) {
    forall i :: 0 <= i < |runs| ==> runs[i].count < 256 && runs[i].color < 256
  }

  lemma FieldIsSmall(data: string, i: nat)
    ensures Field(data, i) < 256
  {
    Hex.TwoCharsRange(Hex.Substring(data, 2 * i, 2 * i + 2));
  }

  lemma {:induction false} DecodedRunsAreSmall(chunks: seq<string>)
    ensures SmallRuns(DecodeRects(chunks))
  {
    if chunks != [] {
      DecodedRunsAreSmall(chunks[1..]);
      Hex.TwoCharsRange(Hex.Substring(chunks[0], 0, 2));
      Hex.TwoCharsRange(Hex.Substring(chunks[0], 2, 4));
    }
  }

  lemma DecodedIsSmall(text: string)
    ensures SmallBounds(DecodeImage(text).bounds) && SmallRuns(DecodeImage(text).rects)
  {
    var data := if |text| >= 2 && text[..2] == "0x" then text[2..] else text;
    FieldIsSmall(data, 1); FieldIsSmall(data, 2); FieldIsSmall(data, 3); FieldIsSmall(data, 4);
    DecodedRunsAreSmall(Hex.Chunks(Hex.Tail(data, 10), 4));
  }

  /** Two-character fields mean what they say: NaN is never a number. */
  lemma NaNIsNoNumber(s: string)
    requires |s| <= 2
    ensures Num(s) == NAN <==> Hex.ParseInt16(s).None?
  {
    Hex.TwoCharsRange(s);
  }

  /** No number an encoder prints is below -1, the bottom row of an image without rows. */
  predicate Printable(b: Bounds, runs: seq<Run>) {
    && NAN < b.top && NAN < b.right && NAN < b.bottom && NAN < b.left
    && forall i :: 0 <= i < |runs| ==> NAN < runs[i].count && NAN < runs[i].color
  }

  /** The decoder reads back bounds and runs exactly when each number is below 256. */
  lemma DecodesIff(b: Bounds, runs: seq<Run>)
    requires Printable(b, runs)
    ensures DecodeImage(RleText(b, runs)) == DecodedImage(0, b, runs) <==> SmallBounds(b) && SmallRuns(runs)
  {
    if SmallBounds(b) && SmallRuns(runs) {
      DecodeRleText(b, runs);
    }
    DecodedIsSmall(RleText(b, runs));
  }

  // ---------- the class ----------

  ghost function PaletteOf(colors: OrderedMap<nat>): Palette
    reads colors
  {
    Palette(colors.order, colors.entries)
  }

  class Image {
    const width: nat
    const height: nat
    const getRgbaAt: (int, int) -> RGBA
    var bounds: Bounds
    var tuples: seq<Run>

    ghost function Picture(): Png {
      Png(width, height, getRgbaAt)
    }

    constructor (width: nat, height: nat, getRgbaAt: (int, int) -> RGBA)
      ensures Picture() == Png(width, height, getRgbaAt)
      ensures bounds == Bounds(0, 0, 0, 0) && tuples == []
    {
      this.width, this.height, this.getRgbaAt := width, height, getRgbaAt;
      bounds, tuples := Bounds(0, 0, 0, 0), [];
    }

    method IsTransparentRow(row: int) returns (b: bool)
      ensures b <==> RowClear(Picture(), row)
    {
      for column := 0 to width
        invariant forall x :: 0 <= x < column ==> getRgbaAt(x, row).a == 0
      {
        if getRgbaAt(column, row).a != 0 { return false; }
      }
      return true;
    }

    method IsTransparentColumn(column: int) returns (b: bool)
      ensures b <==> ColumnClear(Picture(), column)
    {
      for row := 0 to height
        invariant forall y :: 0 <= y < row ==> getRgbaAt(column, y).a == 0
      {
        if getRgbaAt(column, row).a != 0 { return false; }
      }
      return true;
    }

    method CalcBounds() returns (box: Bounds)
      ensures box == CropBox(Picture())
    {
      ghost var png := Picture();
      var bottom: int := height - 1;
      var clear := IsTransparentRow(bottom);
      while bottom > 0 && clear
        invariant clear <==> RowClear(png, bottom)
        invariant LastRow(png, bottom) == LastRow(png, height - 1)
        decreases bottom
      {
        bottom := bottom - 1;
        clear := IsTransparentRow(bottom);
      }
      var top := 0;
      clear := IsTransparentRow(top);
      while top < bottom && clear
        invariant clear <==> RowClear(png, top)
        invariant FirstRow(png, top, bottom) == FirstRow(png, 0, bottom)
        decreases bottom - top
      {
        top := top + 1;
        clear := IsTransparentRow(top);
      }
      var right: int := width - 1;
      clear := IsTransparentColumn(right);
      while right >= 0 && clear
        invariant clear <==> ColumnClear(png, right)
        invariant LastColumn(png, right) == LastColumn(png, width - 1)
        decreases right + 1
      {
        right := right - 1;
        clear := IsTransparentColumn(right);
      }
      var left := 0;
      clear := IsTransparentColumn(left);
      while left < right && clear
        invariant clear <==> ColumnClear(png, left)
        invariant FirstColumn(png, left, right) == FirstColumn(png, 0, right)
        decreases right - left
      {
        left := left + 1;
        clear := IsTransparentColumn(left);
      }
      box := Bounds(top, right + 1, bottom, left);
    }

    /** `tuples` receives every run except the last. */
    method Encode(data: seq<int>) returns (encoding: string)
      modifies this`tuples
      ensures encoding == HexRuns(Runs(data))
      ensures tuples == old(tuples) + if data == [] then [] else Runs(data)[..|Runs(data)| - 1]
    {
      encoding := [];
      if |data| == 0 { return; }
      ghost var closed: seq<Run> := [];
      var previous, count := data[0], 1;
      assert data[..1][..0] == [];
      for i := 1 to |data|
        invariant Runs(data[..i]) == closed + [Run(count, previous)]
        invariant encoding == HexRuns(closed)
        invariant tuples == old(tuples) + closed
      {
        assert data[..i + 1][..i] == data[..i];
        if data[i] != previous || count == CAP {
          encoding := encoding + (Hex.ToPaddedHex(count) + Hex.ToPaddedHex(previous));
          tuples := tuples + [Run(count, previous)];
          HexRunsAppend(closed, Run(count, previous));
          closed := closed + [Run(count, previous)];
          count := 1;
          previous := data[i];
        } else {
          count := count + 1;
        }
      }
      assert data[..|data|] == data;
      encoding := encoding + (Hex.ToPaddedHex(count) + Hex.ToPaddedHex(previous));
      HexRunsAppend(closed, Run(count, previous));
    }

    /** The two nested loops over the box: fills the palette and collects the index stream. */
    method Collect(colors: OrderedMap<nat>) returns (indexes: seq<int>)
      requires colors.Valid()
      modifies colors
      ensures colors.Valid()
      ensures PaletteOf(colors) == PaletteAfter(old(PaletteOf(colors)), Crop(Picture(), bounds))
      ensures indexes == Indexes(old(PaletteOf(colors)), Crop(Picture(), bounds))
    {
      indexes := [];
      ghost var start, done, pos := PaletteOf(colors), [], 0;
      NothingDone(start, Picture(), bounds);
      if bounds.left >= bounds.right || bounds.top > bounds.bottom { return; }
      var y := bounds.top;
      while y <= bounds.bottom
        invariant bounds.top <= y <= bounds.bottom + 1
        invariant pos == PixelIndex(bounds, bounds.left, y)
        invariant colors.Valid() && Done(start, done, indexes, PaletteOf(colors))
                  && Reached(Picture(), bounds, pos, done)
      {
        indexes, done := CollectLine(colors, y, indexes, done, start, pos);
        NextLine(bounds, y);
        y, pos := y + 1, pos + Width(bounds);
      }
      ReachEnd(Picture(), bounds, pos, done);
    }

    /** The inner loop, over line y. */
    method CollectLine(colors: OrderedMap<nat>, y: int, indexes: seq<int>,
                       ghost done: seq<RGBA>, ghost start: Palette, ghost line: int)
      returns (longer: seq<int>, ghost more: seq<RGBA>)
      requires bounds.left < bounds.right && bounds.top <= y <= bounds.bottom
               && line == PixelIndex(bounds, bounds.left, y)
      requires colors.Valid() && Done(start, done, indexes, PaletteOf(colors)) && Reached(Picture(), bounds, line, done)
      modifies colors
      ensures colors.Valid() && Done(start, more, longer, PaletteOf(colors))
      ensures Reached(Picture(), bounds, line + Width(bounds), more)
    {
      longer, more := indexes, done;
      var x := bounds.left;
      while x < bounds.right
        invariant bounds.left <= x <= bounds.right
        invariant colors.Valid() && Done(start, more, longer, PaletteOf(colors))
        invariant Reached(Picture(), bounds, line + (x - bounds.left), more)
      {
        var p := getRgbaAt(x, y);
        ReachNext(Picture(), bounds, x, y, line, more);
        longer := Push(colors, p, longer, more, start);
        x, more := x + 1, more + [p];
      }
    }

    /** The body of the inner loop. */
    static method Push(colors: OrderedMap<nat>, p: RGBA, indexes: seq<int>, ghost done: seq<RGBA>, ghost start: Palette)
      returns (longer: seq<int>)
      requires colors.Valid() && Done(start, done, indexes, PaletteOf(colors))
      modifies colors
      ensures colors.Valid() && Done(start, done + [p], longer, PaletteOf(colors))
    {
      ghost var before := PaletteOf(colors);
      var hexColor := Color(p);
      var known := colors.Has(hexColor);
      if !known {
        var size := colors.Size();
        colors.Set(hexColor, size);
      }
      assert PaletteOf(colors) == Learn(before, hexColor);
      StreamStep(start, done, p, indexes, before);
      longer := indexes + [if p.a == 0 then 0 else colors.entries[hexColor]];
    }

    method ToRLE(colors: OrderedMap<nat>) returns (rle: string)
      requires colors.Valid()
      modifies this, colors
      ensures colors.Valid()
      ensures bounds == CropBox(Picture())
      ensures PaletteOf(colors) == PaletteAfter(old(PaletteOf(colors)), Crop(Picture(), CropBox(Picture())))
      ensures rle == Rle(Picture(), old(PaletteOf(colors)))
    {
      bounds := CalcBounds();
      var indexes := Collect(colors);
      var metadata := Hex.ToPaddedHex(0) + Hex.ToPaddedHex(bounds.top) + Hex.ToPaddedHex(bounds.right)
                      + Hex.ToPaddedHex(bounds.bottom) + Hex.ToPaddedHex(bounds.left);
      var encoding := Encode(indexes);
      rle := "0x" + (metadata + encoding);
    }
  }

  /** What the two nested loops have produced from the pixels read so far. */
  ghost predicate Done(start: Palette, done: seq<RGBA>, indexes: seq<int>, now: Palette) {
    indexes == Indexes(start, done) && now == PaletteAfter(start, done)
  }

  /** The pixels read so far are the first `pos` of the box. */
  ghost predicate Reached(png: Png, b: Bounds, pos: int, done: seq<RGBA>) {
    0 <= pos <= |Crop(png, b)| && done == Crop(png, b)[..pos]
  }

  lemma NothingDone(start: Palette, png: Png, b: Bounds)
    ensures Done(start, [], [], start) && Reached(png, b, 0, []) && PixelIndex(b, b.left, b.top) == 0
    ensures b.left >= b.right || b.top > b.bottom ==> Crop(png, b) == []
  {
  }

  lemma ReachNext(png: Png, b: Bounds, x: int, y: int, line: int, done: seq<RGBA>)
    requires b.left <= x < b.right && b.top <= y <= b.bottom && line == PixelIndex(b, b.left, y)
    requires Reached(png, b, line + (x - b.left), done)
    ensures Reached(png, b, line + (x - b.left) + 1, done + [png.rgbaAt(x, y)])
  {
    BoxPixel(png, b, x, y);
  }

  lemma ReachEnd(png: Png, b: Bounds, pos: int, done: seq<RGBA>)
    requires b.left < b.right && b.top <= b.bottom && pos == PixelIndex(b, b.left, b.bottom + 1)
             && Reached(png, b, pos, done)
    ensures done == Crop(png, b)
  {
  }

  lemma BoxPixel(png: Png, b: Bounds, x: int, y: int)
    requires b.left <= x < b.right && b.top <= y <= b.bottom
    ensures 0 <= PixelIndex(b, x, y) < |Crop(png, b)|
    ensures Crop(png, b)[PixelIndex(b, x, y)] == png.rgbaAt(x, y)
  {
    PixelIndexDivMod(b, x, y);
    var rows := b.bottom - b.top + 1;
    MulAtLeast(rows - (y - b.top), y - b.top, Width(b));
  }

  lemma NextLine(b: Bounds, y: int)
    ensures PixelIndex(b, b.left, y + 1) == PixelIndex(b, b.left, y) + Width(b)
  {
    assert (y + 1 - b.top) * Width(b) == (y - b.top) * Width(b) + Width(b);
  }

  lemma StreamStep(start: Palette, done: seq<RGBA>, p: RGBA, indexes: seq<int>, now: Palette)
    requires Done(start, done, indexes, now)
    ensures var next := Learn(now, Color(p));
            Color(p) in next.slots
            && Done(start, done + [p], indexes + [if p.a == 0 then 0 else next.slots[Color(p)]], next)
  {
    assert (done + [p])[..|done|] == done;
  }
}
