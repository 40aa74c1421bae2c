/**
 * Drawing a titlecard: the text block is centred vertically, each line is
 * centred horizontally, and lines are spaced by the spaced line height.
 */
module Placement {
  import opened Optional
  import opened TextWords
  import opened WordWrap
  import opened FontFit

  /** The colour every line is drawn in. */
  const TextFill: string := "#f9e801"

  /** One draw.text call: the top-left position, the line and its fill colour. */
  datatype DrawCall = DrawCall(x: int, y: int, text: string, fill: string)

  /**
   * The drawing loop: y starts at (height - total height) // 2 and advances
   * by the spaced line height after each line; each line's x is
   * (width - line width) // 2. Dafny's division by 2 is floor division, as
   * Python's // is, for negative numerators too.
   */
  method PlaceLines(c: Canvas, m: Metrics, layout: Layout) returns (calls: seq<DrawCall>)
    ensures |calls| == |layout.lines|
    ensures forall i :: 0 <= i < |calls| ==>
      calls[i] == DrawCall((c.width - m.width(layout.lines[i], layout.fontSize)) / 2,
                           (c.height - layout.lineHeight * |layout.lines|) / 2 + i * layout.lineHeight,
                           layout.lines[i], TextFill)
    ensures forall i :: 0 <= i < |calls| ==>
      var left := calls[i].x;
      var right := c.width - (calls[i].x + m.width(layout.lines[i], layout.fontSize));
      0 <= right - left <= 1
    ensures |calls| > 0 ==>
      var top := calls[0].y;
      var bottom := c.height - (calls[0].y + layout.lineHeight * |calls|);
      0 <= bottom - top <= 1
    ensures forall i :: 0 <= i < |calls| - 1 ==> calls[i + 1].y == calls[i].y + layout.lineHeight
  {
    var totalHeight := layout.lineHeight * |layout.lines|;
    var y := (c.height - totalHeight) / 2;
    calls := [];
    for i := 0 to |layout.lines|
      invariant |calls| == i
      invariant y == (c.height - totalHeight) / 2 + i * layout.lineHeight
      invariant forall j :: 0 <= j < i ==>
        calls[j] == DrawCall((c.width - m.width(layout.lines[j], layout.fontSize)) / 2,
                             (c.height - totalHeight) / 2 + j * layout.lineHeight,
                             layout.lines[j], TextFill)
    {
      var line := layout.lines[i];
      var lineWidth := m.width(line, layout.fontSize);
      var x := (c.width - lineWidth) / 2;
      calls := calls + [DrawCall(x, y, line, TextFill)];
      y := y + layout.lineHeight;
    }
  }

  /**
   * create_titlecard: None when the background file cannot be found;
   * otherwise the draw calls for the layout, one per line, each line centred
   * horizontally and the block centred vertically, in the fixed colour,
   * holding the text's words in order.
   */
  method CreateTitlecard(text: string, background: Option<Canvas>, m: Metrics) returns (card: Option<seq<DrawCall>>)
    ensures card.None? <==> background.None?
    ensures card.Some? ==>
      var layout := TitleLayout(text, background.value, m);
      && |card.value| == |layout.lines|
      && (forall i :: 0 <= i < |card.value| ==>
            card.value[i] == DrawCall((background.value.width - m.width(layout.lines[i], layout.fontSize)) / 2,
                                      (background.value.height - layout.lineHeight * |layout.lines|) / 2 + i * layout.lineHeight,
                                      layout.lines[i], TextFill))
      && Words(JoinSpace(layout.lines)) == Words(text)
  {
    if background.None? {
      return None;
    }
    var c := background.value;
    var layout := ChooseLayout(text, c, m);
    LayoutKeepsWords(text, c, m);
    var calls := PlaceLines(c, m, layout);
    return Some(calls);
  }
}
