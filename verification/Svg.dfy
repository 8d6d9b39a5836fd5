/**
 * The part of an SVG document the builders emit: a background and a list of filled rectangles,
 * painted in order, a later rectangle on top of an earlier one (sections 3.2 and 3.3 of SVG 1.1).
 */
module Svg {
  import opened Wrappers

  /** `fill="#..."`; Missing is the text `#undefined` of a colour index outside the palette. */
  datatype Fill = Colour(hex: string) | Missing

  /** Unplaced is a rectangle whose y attribute is the text `NaN`; it covers no point. */
  datatype Rect =
    | Rect(x: int, y: int, width: int, height: int, fill: Fill)
    | Unplaced(x: int, width: int, height: int, fill: Fill)

  datatype Document = Document(background: string, rects: seq<Rect>)

  /** Both sides of the view box. */
  const VIEW := 320

  predicate Covers(r: Rect, x: int, y: int) {
    r.Rect? && r.x <= x < r.x + r.width && r.y <= y < r.y + r.height
  }

  /** What a list of rectangles leaves on a point: the last one that covers it, if any. */
  function PaintAt(rects: seq<Rect>, x: int, y: int): Option<Fill> {
    if rects == [] then None
    else if Covers(rects[|rects| - 1], x, y) then Some(rects[|rects| - 1].fill)
    else PaintAt(rects[..|rects| - 1], x, y)
  }

  /** The colour shown at a point; None is outside the view box. */
  function ColorAt(d: Document, x: int, y: int): Option<Fill> {
    if !(0 <= x < VIEW && 0 <= y < VIEW) then None
    else match PaintAt(d.rects, x, y)
      case Some(fill) => Some(fill)
      case None => Some(Colour(d.background))
  }

  /** Painting two lists one after the other: the second wins where it draws. */
  lemma {:induction false} PaintConcat(a: seq<Rect>, b: seq<Rect>, x: int, y: int)
    ensures PaintAt(a + b, x, y) == if PaintAt(b, x, y).Some? then PaintAt(b, x, y) else PaintAt(a, x, y)
  {
    if b == [] {
      assert a + b == a;
    } else {
      var n := |b| - 1;
      assert (a + b)[..|a + b| - 1] == a + b[..n];
      PaintConcat(a, b[..n], x, y);
    }
  }
}
