/**
 * TopLegendRenderer of utils/grid.py: items are packed into rows, once to compute the height (layout) and
 * once to draw (draw). How large a text is depends on the font, so that is an arbitrary function.
 */
module Legend {

  datatype Extents = Extents(width: real, height: real)

  /** A text is not of negative size. */
  type TextExtents = e: Extents | 0.0 <= e.width && 0.0 <= e.height witness Extents(0.0, 0.0)

  type Measure = string -> TextExtents

  /** The rectangle an item occupies, padding included. */
  datatype Cell = Cell(x: real, y: real, width: real, height: real)

  /** What is drawn for an item: a filled square, and the text at its baseline. */
  datatype Mark = Mark(x: real, y: real, size: real, textX: real, baseline: real)

  /** The running variables of both loops. */
  datatype Pen = Pen(lineUsed: real, lineHeight: real, totalHeight: real)

  function ItemWidth(padding: real, t: Extents): real {
    padding + padding + t.width + padding
  }

  function ItemHeight(padding: real, t: Extents): real {
    t.height + padding
  }

  function Advance(pen: Pen, padding: real, width: real, t: Extents): Pen {
    var itemWidth, itemHeight := ItemWidth(padding, t), ItemHeight(padding, t);
    var lineHeight := if itemHeight > pen.lineHeight then itemHeight else pen.lineHeight;
    if pen.lineUsed + itemWidth > width
    then Pen(padding + itemWidth, lineHeight, pen.totalHeight + lineHeight)
    else Pen(pen.lineUsed + itemWidth, lineHeight, pen.totalHeight)
  }

  function PenAfter(legends: seq<string>, measure: Measure, padding: real, width: real, n: nat): Pen
    requires n <= |legends|
  {
    if n == 0 then Pen(padding, 0.0, padding)
    else Advance(PenAfter(legends, measure, padding, width, n - 1), padding, width, measure(legends[n - 1]))
  }

  /** The cell of item `i`: it ends where the pen stands once the item is placed, in the pen's row. */
  function CellOf(legends: seq<string>, measure: Measure, padding: real, width: real, i: nat): Cell
    requires i < |legends|
  {
    var pen, t := PenAfter(legends, measure, padding, width, i + 1), measure(legends[i]);
    Cell(pen.lineUsed - ItemWidth(padding, t), pen.totalHeight, ItemWidth(padding, t), ItemHeight(padding, t))
  }

  function MarkIn(cell: Cell, padding: real): Mark {
    Mark(cell.x, cell.y, padding, cell.x + padding * 2.0, cell.y + (cell.height - padding))
  }

  function LayoutHeight(legends: seq<string>, measure: Measure, padding: real, width: real): real {
    var pen := PenAfter(legends, measure, padding, width, |legends|);
    pen.totalHeight + pen.lineHeight
  }

  /** One is wholly to the left of, or wholly above, the other. */
  ghost predicate Disjoint(a: Cell, b: Cell) {
    || a.x + a.width <= b.x || b.x + b.width <= a.x
    || a.y + a.height <= b.y || b.y + b.height <= a.y
  }

  /** The item fits on a line of its own. */
  ghost predicate Fits(measure: Measure, padding: real, width: real, legend: string) {
    padding + ItemWidth(padding, measure(legend)) <= width
  }

  /**
   * Every placed cell is either in the row of the pen and to its left, or ends above that row; and no placed
   * cell is higher than the line height, although that is never reset from row to row.
   */
  lemma {:induction false} Placed(legends: seq<string>, measure: Measure, padding: real, width: real, n: nat)
    requires 0.0 <= padding && n <= |legends|
    ensures var pen := PenAfter(legends, measure, padding, width, n);
            && padding <= pen.lineUsed && padding <= pen.totalHeight && 0.0 <= pen.lineHeight
            && forall i :: 0 <= i < n ==>
                 var cell := CellOf(legends, measure, padding, width, i);
                 && padding <= cell.x && padding <= cell.y && cell.height <= pen.lineHeight
                 && ((cell.y == pen.totalHeight && cell.x + cell.width <= pen.lineUsed) ||
                     cell.y + cell.height <= pen.totalHeight)
  {
    if n > 0 {
      Placed(legends, measure, padding, width, n - 1);
    }
  }

  /** No two items overlap. */
  lemma CellsDisjoint(legends: seq<string>, measure: Measure, padding: real, width: real, i: nat, j: nat)
    requires 0.0 <= padding && i < j < |legends|
    ensures Disjoint(CellOf(legends, measure, padding, width, i), CellOf(legends, measure, padding, width, j))
  {
    Placed(legends, measure, padding, width, j);
    var cell := CellOf(legends, measure, padding, width, i);
  }

  /** The height that layout computes is enough for everything that draw places. */
  lemma {:induction false} RowsGoDown(legends: seq<string>, measure: Measure, padding: real, width: real,
                                      m: nat, n: nat)
    requires 0.0 <= padding && m <= n <= |legends|
    ensures var before, after :=
              PenAfter(legends, measure, padding, width, m), PenAfter(legends, measure, padding, width, n);
            before.totalHeight <= after.totalHeight && before.lineHeight <= after.lineHeight
    decreases n
  {
    if m < n {
      RowsGoDown(legends, measure, padding, width, m, n - 1);
      Placed(legends, measure, padding, width, n - 1);
    }
  }

  lemma CellInsideHeight(legends: seq<string>, measure: Measure, padding: real, width: real, i: nat)
    requires 0.0 <= padding && i < |legends|
    ensures var cell := CellOf(legends, measure, padding, width, i);
            && padding <= cell.x && padding <= cell.y
            && cell.y + cell.height <= LayoutHeight(legends, measure, padding, width)
  {
    Placed(legends, measure, padding, width, i + 1);
    RowsGoDown(legends, measure, padding, width, i + 1, |legends|);
    var cell := CellOf(legends, measure, padding, width, i);
    assert cell.height <= PenAfter(legends, measure, padding, width, i + 1).lineHeight;
  }

  /** An item stays within the width exactly when it fits on a line of its own, wherever it is placed. */
  lemma CellInsideWidthIff(legends: seq<string>, measure: Measure, padding: real, width: real, i: nat)
    requires 0.0 <= padding && i < |legends|
    ensures var cell := CellOf(legends, measure, padding, width, i);
            cell.x + cell.width <= width <==> Fits(measure, padding, width, legends[i])
  {
    Placed(legends, measure, padding, width, i);
  }

  /** A text that is as wide as the legend sticks out. */
  lemma WideItemSticksOut(legend: string, measure: Measure, padding: real, width: real)
    requires 0.0 < padding && measure(legend).width == width
    ensures var cell := CellOf([legend], measure, padding, width, 0);
            !Fits(measure, padding, width, legend) && cell.x == padding && width < cell.x + cell.width
  {
    assert PenAfter([legend], measure, padding, width, 0) == Pen(padding, 0.0, padding);
  }

  // ----- where each item goes -----

  /** The greatest height of the first `n` items, padding included, or zero without any. */
  ghost predicate IsTallest(legends: seq<string>, measure: Measure, padding: real, n: nat, h: real)
    requires n <= |legends|
  {
    && (forall j :: 0 <= j < n ==> measure(legends[j]).height + padding <= h)
    && if n == 0 then h == 0.0 else exists j :: 0 <= j < n && h == measure(legends[j]).height + padding
  }

  lemma {:induction false} LineHeightIsTallest(legends: seq<string>, measure: Measure, padding: real, width: real,
                                               n: nat)
    requires 0.0 <= padding && n <= |legends|
    ensures IsTallest(legends, measure, padding, n, PenAfter(legends, measure, padding, width, n).lineHeight)
  {
    if n > 0 {
      LineHeightIsTallest(legends, measure, padding, width, n - 1);
      var before := PenAfter(legends, measure, padding, width, n - 1).lineHeight;
      if measure(legends[n - 1]).height + padding <= before && n > 1 {
        var j :| 0 <= j < n - 1 && before == measure(legends[j]).height + padding;
      }
    }
  }

  /**
   * The first item starts at the padding. It goes down by its height at once if it does not fit in the width, as
   * every item does that starts a row.
   */
  lemma FirstCell(legends: seq<string>, measure: Measure, padding: real, width: real)
    requires 0.0 <= padding && legends != []
    ensures var cell, t := CellOf(legends, measure, padding, width, 0), measure(legends[0]);
            && cell.width == 3.0 * padding + t.width && cell.height == t.height + padding && cell.x == padding
            && cell.y == if padding + cell.width > width then padding + cell.height else padding
  {
    assert PenAfter(legends, measure, padding, width, 0) == Pen(padding, 0.0, padding);
  }

  /**
   * The next item starts a new row if and only if it would pass the width after the one before it. The new row
   * is below the tallest of all items up to this one; in the same row an item starts where the one before it ends.
   */
  lemma NextCell(legends: seq<string>, measure: Measure, padding: real, width: real, i: nat) returns (h: real)
    requires 0.0 <= padding && i + 1 < |legends|
    ensures IsTallest(legends, measure, padding, i + 2, h)
    ensures var a, b := CellOf(legends, measure, padding, width, i), CellOf(legends, measure, padding, width, i + 1);
            var t := measure(legends[i + 1]);
            && b.width == 3.0 * padding + t.width && b.height == t.height + padding
            && if a.x + a.width + b.width > width then b.x == padding && b.y == a.y + h
               else b.x == a.x + a.width && b.y == a.y
  {
    h := PenAfter(legends, measure, padding, width, i + 2).lineHeight;
    LineHeightIsTallest(legends, measure, padding, width, i + 2);
  }

  /** The height of the legend: the tallest item below where the last one starts. */
  lemma HeightIs(legends: seq<string>, measure: Measure, padding: real, width: real) returns (h: real)
    requires 0.0 <= padding
    ensures IsTallest(legends, measure, padding, |legends|, h)
    ensures LayoutHeight(legends, measure, padding, width) ==
            h + if legends == [] then padding else CellOf(legends, measure, padding, width, |legends| - 1).y
  {
    h := PenAfter(legends, measure, padding, width, |legends|).lineHeight;
    LineHeightIsTallest(legends, measure, padding, width, |legends|);
  }

  // ----- the marks -----

  ghost predicate Inside(inner: Cell, outer: Cell) {
    && outer.x <= inner.x && inner.x + inner.width <= outer.x + outer.width
    && outer.y <= inner.y && inner.y + inner.height <= outer.y + outer.height
  }

  function Square(mark: Mark): Cell {
    Cell(mark.x, mark.y, mark.size, mark.size)
  }

  /** Where a text of this size is, drawn upwards from the baseline. */
  function Text(mark: Mark, t: Extents): Cell {
    Cell(mark.textX, mark.baseline - t.height, t.width, t.height)
  }

  /** The square and the text of an item lie side by side in its cell. */
  lemma MarkInsideCell(legends: seq<string>, measure: Measure, padding: real, width: real, i: nat)
    requires 0.0 <= padding && i < |legends|
    ensures var cell := CellOf(legends, measure, padding, width, i);
            var mark, t := MarkIn(cell, padding), measure(legends[i]);
            Inside(Square(mark), cell) && Inside(Text(mark, t), cell) && Disjoint(Square(mark), Text(mark, t))
  {
  }

  /** The square is at the corner of the cell; the text starts two paddings further and is drawn from its top. */
  lemma MarkNumbers(legends: seq<string>, measure: Measure, padding: real, width: real, i: nat)
    requires i < |legends|
    ensures var cell, t := CellOf(legends, measure, padding, width, i), measure(legends[i]);
            MarkIn(cell, padding) == Mark(cell.x, cell.y, padding, cell.x + 2.0 * padding, cell.y + t.height)
  {
  }

  /** The two marks of one item are apart from both marks of another. */
  ghost predicate Apart(m: Mark, t: Extents, m': Mark, t': Extents) {
    && Disjoint(Square(m), Square(m')) && Disjoint(Square(m), Text(m', t'))
    && Disjoint(Text(m, t), Square(m')) && Disjoint(Text(m, t), Text(m', t'))
  }

  /** The square and the text lie side by side and between top and height; if the item fits, also in the width. */
  ghost predicate OnPage(mark: Mark, t: Extents, width: real, height: real, fits: bool) {
    var page := Cell(0.0, 0.0, if fits then width else mark.textX + t.width, height);
    Inside(Square(mark), page) && Inside(Text(mark, t), page) && Disjoint(Square(mark), Text(mark, t))
  }

  lemma MarkOnPage(legends: seq<string>, measure: Measure, padding: real, width: real, i: nat)
    requires 0.0 <= padding && i < |legends|
    ensures OnPage(MarkIn(CellOf(legends, measure, padding, width, i), padding), measure(legends[i]), width,
                   LayoutHeight(legends, measure, padding, width), Fits(measure, padding, width, legends[i]))
  {
    MarkInsideCell(legends, measure, padding, width, i);
    CellInsideHeight(legends, measure, padding, width, i);
    CellInsideWidthIff(legends, measure, padding, width, i);
  }

  lemma MarksApart(legends: seq<string>, measure: Measure, padding: real, width: real, i: nat, j: nat)
    requires 0.0 <= padding && i < j < |legends|
    ensures Apart(MarkIn(CellOf(legends, measure, padding, width, i), padding), measure(legends[i]),
                  MarkIn(CellOf(legends, measure, padding, width, j), padding), measure(legends[j]))
  {
    MarkInsideCell(legends, measure, padding, width, i);
    MarkInsideCell(legends, measure, padding, width, j);
    CellsDisjoint(legends, measure, padding, width, i, j);
  }

  class TopLegendRenderer {
    const measure: Measure
    var padding: real
    var legends: seq<string>
    var width: real
    var height: real

    constructor (measure: Measure)
      ensures this.measure == measure && padding == 10.0 && legends == []
    {
      this.measure := measure;
      padding, legends, width, height := 10.0, [], 0.0, 0.0;
    }

    method Layout(width: real)
      modifies this`width, this`height
      ensures this.width == width && height == LayoutHeight(legends, measure, padding, width)
    {
      this.width := width;
      var lineHeight := 0.0;
      var totalHeight := padding;
      var lineUsed := padding;
      for i := 0 to |legends|
        invariant Pen(lineUsed, lineHeight, totalHeight) == PenAfter(legends, measure, padding, width, i)
      {
        var t := measure(legends[i]);
        var itemWidth := padding + padding + t.width + padding;
        var itemHeight := t.height + padding;
        if itemHeight > lineHeight {
          lineHeight := itemHeight;
        }
        if lineUsed + itemWidth > width {
          lineUsed := padding + itemWidth;
          totalHeight := totalHeight + lineHeight;
        } else {
          lineUsed := lineUsed + itemWidth;
        }
      }
      totalHeight := totalHeight + lineHeight;
      height := totalHeight;
    }

    method Draw() returns (marks: seq<Mark>)
      ensures |marks| == |legends|
      ensures forall i :: 0 <= i < |legends| ==>
                marks[i] == MarkIn(CellOf(legends, measure, padding, width, i), padding)
    {
      marks := [];
      var lineHeight := 0.0;
      var totalHeight := padding;
      var lineUsed := padding;
      for i := 0 to |legends|
        invariant Pen(lineUsed, lineHeight, totalHeight) == PenAfter(legends, measure, padding, width, i)
        invariant |marks| == i
        invariant forall k :: 0 <= k < i ==>
                    marks[k] == MarkIn(CellOf(legends, measure, padding, width, k), padding)
      {
        var t := measure(legends[i]);
        var itemWidth := padding + padding + t.width + padding;
        var itemHeight := t.height + padding;
        if itemHeight > lineHeight {
          lineHeight := itemHeight;
        }
        if lineUsed + itemWidth > width {
          lineUsed := padding + itemWidth;
          totalHeight := totalHeight + lineHeight;
        } else {
          lineUsed := lineUsed + itemWidth;
        }
        var x := lineUsed - itemWidth;
        assert Pen(lineUsed, lineHeight, totalHeight) == PenAfter(legends, measure, padding, width, i + 1);
        marks := marks + [Mark(x, totalHeight, padding, x + padding * 2.0, totalHeight + t.height)];
      }
    }

    /** One refresh of the legend: everything drawn lies in the height, what fits in the width, and nothing overlaps. */
    method LayoutAndDraw(width: real) returns (marks: seq<Mark>)
      requires 0.0 <= padding
      modifies this`width, this`height
      ensures |marks| == |legends| && this.width == width
      ensures forall i :: 0 <= i < |legends| ==>
                OnPage(marks[i], measure(legends[i]), width, height, Fits(measure, padding, width, legends[i]))
      ensures forall i, j :: 0 <= i < j < |legends| ==>
                Apart(marks[i], measure(legends[i]), marks[j], measure(legends[j]))
    {
      Layout(width);
      marks := Draw();
      forall i | 0 <= i < |legends|
        ensures OnPage(marks[i], measure(legends[i]), width, height, Fits(measure, padding, width, legends[i]))
      {
        MarkOnPage(legends, measure, padding, width, i);
      }
      forall i, j | 0 <= i < j < |legends|
        ensures Apart(marks[i], measure(legends[i]), marks[j], measure(legends[j]))
      {
        MarksApart(legends, measure, padding, width, i, j);
      }
    }
  }
}
