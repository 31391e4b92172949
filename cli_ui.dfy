/** The terminal state of the cli package and what drawText puts on the screen: the
    path on row 0 and, on the listing rows, the entries from the scroll offset on, with
    the highlight on one row. Drawing itself (cells, styles, borders) is not modelled. */
module CliUi {
  import opened Listing
  import Text
  import opened CliNavigation

  /** The fields of the Ui record the browser's logic reads and writes. */
  class Ui {
    var xmax: int
    var ymax: int
    var dirHeight: int
    var searchInput: string
    var confirm: bool

    /** NewUi on a screen `xmax` columns wide and `ymax` rows tall: the listing gets
        every row but the path line and the two search-bar rows, and the browser starts
        out of any command, not waiting for a delete confirmation. */
    constructor (xmax: int, ymax: int)
      ensures this.xmax == xmax && this.ymax == ymax
      ensures dirHeight == ymax - 3 && searchInput == "" && confirm
    {
      this.xmax := xmax;
      this.ymax := ymax;
      dirHeight := ymax - 3;
      searchInput := "";
      confirm := true;
    }
  }

  /** A name is shown with a trailing "/" exactly when it has no '.', the browser's way
      of telling folders from files. */
  function FormatName(name: string): (r: string)
    ensures '.' !in name ==> r == name + "/"
    ensures '.' in name ==> r == name
  {
    Text.SplitSingle(name, '.');
    if |Text.Split(name, '.')| == 1 then name + "/" else name
  }

  datatype Style = PathStyle | TextStyle | Highlight

  /** One drawn row: its text and its style. */
  datatype Line = Line(text: string, style: Style)

  /** Whether `row` is one of the rows drawText's listing loop visits. */
  predicate IsListingRow(row: int, dirHeight: int)
  {
    TopOffset <= row <= dirHeight - TopOffset
  }

  /** The entry index a listing row shows: the scroll offset moves the window. */
  function RowIndex(row: int, drawBeginning: int): int
  {
    row + drawBeginning - TopOffset
  }

  /** drawText: row 0 shows the path, whatever the listing height; a listing row shows the formatted name of its
      entry when that index is below the number of entries, highlighted exactly on the
      highlight row. When there is a listing row, a negative scroll offset would index
      before the first entry, where Go panics, so that case is excluded. */
  function DrawText(v: View, dirHeight: int): (rows: map<int, Line>)
    requires v.drawBeginning >= 0 || dirHeight < 2
    ensures 0 in rows && rows[0] == Line(v.path, PathStyle)
    ensures forall row :: row in rows && row != 0 ==>
              IsListingRow(row, dirHeight) && 0 <= RowIndex(row, v.drawBeginning) < |v.files|
  {
    map row | 0 <= row <= (if dirHeight < 0 then 0 else dirHeight) && (row == 0 || (IsListingRow(row, dirHeight) && RowIndex(row, v.drawBeginning) < |v.files|)) ::
      if row == 0 then Line(v.path, PathStyle)
      else Line(FormatName(v.files[RowIndex(row, v.drawBeginning)].name),
                if row == v.highlightIndex then Highlight else TextStyle)
  }

  /** Under the navigation invariant the highlighted row is drawn, shows the entry at
      the cursor, and is the only highlighted row; row 0 always shows the path. */
  lemma HighlightShowsCursor(v: View, dirHeight: int)
    requires Sticky(v, dirHeight) && |v.files| > 0
    ensures var rows := DrawText(v, dirHeight);
      rows[0] == Line(v.path, PathStyle) &&
      v.highlightIndex in rows &&
      rows[v.highlightIndex] == Line(FormatName(v.files[v.position].name), Highlight) &&
      forall row :: row in rows && row != v.highlightIndex ==> rows[row].style != Highlight
  {
  }

  /** The visible window: a listing row is drawn exactly when its entry index is an
      entry, and then it shows that entry's formatted name. */
  lemma VisibleWindow(v: View, dirHeight: int)
    requires v.drawBeginning >= 0
    ensures var rows := DrawText(v, dirHeight);
      forall row :: IsListingRow(row, dirHeight) ==>
        (row in rows <==> RowIndex(row, v.drawBeginning) < |v.files|) &&
        (row in rows ==> rows[row].text == FormatName(v.files[RowIndex(row, v.drawBeginning)].name))
    ensures forall row :: row in DrawText(v, dirHeight) && row != 0 ==> IsListingRow(row, dirHeight)
  {
  }
}
