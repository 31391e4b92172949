/** The terminal state of the screen package and what its drawText puts on the screen:
    from row 0 down, one row per entry of the listing, each showing the full path of the
    entry the scroll offset brings there, with the highlight on one row. */
module ScreenUi {
  import opened Listing
  import opened ScreenNavigation

  /** The fields of the screen package's Ui record the browser's logic reads. */
  class Ui {
    var xmax: int
    var ymax: int
    var dirHeight: int

    /** NewUi on a screen `xmax` columns wide and `ymax` rows tall: every row but the
        last is given to the listing. */
    constructor (xmax: int, ymax: int)
      ensures this.xmax == xmax && this.ymax == ymax && dirHeight == ymax - 1
    {
      this.xmax := xmax;
      this.ymax := ymax;
      dirHeight := ymax - 1;
    }
  }

  datatype Style = TextStyle | Highlight

  /** One drawn row: its text and its style. */
  datatype Line = Line(text: string, style: Style)

  /** Whether drawText puts an entry on `row`: the loop visits it and the index it
      shows, row + drawBeginning, is an entry. */
  predicate IsDrawnRow(v: View, row: int)
  {
    0 <= row < |v.files| && row + v.drawBeginning < |v.files|
  }

  /** drawText: rows 0 to |files|-1 are visited whatever the screen height; row `row`
      shows the path of entry row + drawBeginning when that index is an entry,
      highlighted exactly on the highlight row. A negative scroll offset on a non-empty
      listing would index before the first entry, where Go panics, so it is excluded. */
  function DrawText(v: View): (rows: map<int, Line>)
    requires v.drawBeginning >= 0 || v.files == []
    ensures forall row :: row in rows ==> 0 <= row < |v.files|
  {
    map row | 0 <= row < |v.files| && IsDrawnRow(v, row) ::
      Line(v.files[row + v.drawBeginning].path, if row == v.highlightIndex then Highlight else TextStyle)
  }

  /** The visible window: a row is drawn exactly when it and its entry index lie within
      the listing, and it then shows that entry's full path; only the highlight row is
      highlighted. */
  lemma VisibleWindow(v: View)
    requires v.drawBeginning >= 0
    ensures var rows := DrawText(v);
      forall row :: 0 <= row ==>
        (row in rows <==> row + v.drawBeginning < |v.files|) &&
        (row in rows ==> rows[row].text == v.files[row + v.drawBeginning].path &&
                         (rows[row].style == Highlight <==> row == v.highlightIndex))
  {
  }

  /** Under the navigation invariant the highlighted row is drawn and shows the path of
      the entry at the cursor, and no other row is highlighted. */
  lemma HighlightShowsCursor(v: View, ymax: int)
    requires Aligned(v, ymax) && |v.files| > 0
    ensures var rows := DrawText(v);
      v.highlightIndex in rows &&
      rows[v.highlightIndex] == Line(v.files[v.position].path, Highlight) &&
      forall row :: row in rows && row != v.highlightIndex ==> rows[row].style != Highlight
  {
  }
}
