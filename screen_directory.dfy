/** The Dir record of the screen package and the operations that update it in place:
    moving the cursor and changing directory. Each method is specified by the
    value-level functions of ScreenNavigation. */
module ScreenDirectory {
  import opened Listing
  import opened ScreenNavigation
  import opened ScreenUi

  class Dir {
    var path: string
    var files: seq<File>
    var position: int
    var drawBeginning: int
    var highlightIndex: int

    /** The record's value. */
    function State(): View
      reads this
    {
      View(path, files, position, drawBeginning, highlightIndex)
    }

    /** A record with the given value. */
    constructor (v: View)
      ensures State() == v
    {
      path, files, position := v.path, v.files, v.position;
      drawBeginning, highlightIndex := v.drawBeginning, v.highlightIndex;
    }

    /** NewDir: read the start directory (the working directory `cwd` when no path is
        given; None stands for a failing os.Getwd) and position on its own path, window
        and highlight at the first row. Fails, building nothing, when there is no start
        directory or it cannot be read. */
    static method NewDir(path: string, cwd: Option<string>, fs: FileSystem, host: Host)
      returns (d: Dir?, err: bool)
      ensures var next := if path == "" then cwd else Some(path);
        && (err <==> next.None? || next.value !in fs)
        && (err <==> d == null)
        && (!err ==> fresh(d) && d.State() == Initial(next.value, fs, host))
    {
      var nextPath: string;
      if path == "" {
        if cwd.None? {
          return null, true;
        }
        nextPath := cwd.value;
      } else {
        nextPath := path;
      }
      var _, entries, positionIndex, readErr := ReadDir(fs, host, nextPath, nextPath);
      if readErr {
        return null, true;
      }
      d := new Dir(View(nextPath, entries, positionIndex, 0, 0));
      err := false;
    }

    /** UpdateDirectoryContents: read the target directory for `direction`; on success
        overwrite the record with the new listing, repositioned on the found index with
        the comparison against ymax the code makes (Landed). A failed read returns the
        error and leaves the record as it was. */
    method UpdateDirectoryContents(direction: Direction, ui: Ui, fs: FileSystem, host: Host)
      returns (err: bool)
      modifies this
      ensures var out := Updated(old(State()), direction, ui.ymax, fs, host);
        && (err <==> out.None?)
        && (out.None? ==> State() == old(State()))
        && (out.Some? ==> State() == out.value)
    {
      ghost var before := State();
      var currentPath, nextDir, positionPath := "", "", "";
      if position >= 0 && position < |files| {
        currentPath := files[position].path;
      } else {
        currentPath := path;
      }
      if direction == Backwards {
        nextDir := host.dir(path);
        positionPath := path;
      } else {
        nextDir := currentPath;
      }
      assert (nextDir, positionPath) == ContentsTarget(before, direction, host);
      var directoryPath, entries, positionIndex, readErr := ReadDir(fs, host, nextDir, positionPath);
      if readErr {
        return true;
      }
      path := directoryPath;
      files := entries;
      position := positionIndex;
      if positionIndex > ui.ymax {
        drawBeginning := positionIndex;
        highlightIndex := 0;
      } else {
        drawBeginning := 0;
        highlightIndex := positionIndex;
      }
      assert State() == Landed(nextDir, entries, positionIndex, ui.ymax);
      err := false;
    }

    /** UpdateDirectoryPosition: move the cursor one entry (the highlight with it, within
        its bound), then let handleScroll slide the window. */
    method UpdateDirectoryPosition(direction: Direction, ui: Ui)
      modifies this
      ensures State() == Moved(old(State()), direction, ui.ymax)
    {
      if direction == Down && position < |files| - 1 {
        position := position + 1;
        if highlightIndex < ui.ymax - 2 {
          highlightIndex := highlightIndex + 1;
        }
      } else if direction == Up && position > 0 {
        position := position - 1;
        if highlightIndex > 0 {
          highlightIndex := highlightIndex - 1;
        }
      }
      HandleScroll(ui.ymax);
    }

    /** handleScroll: at the bottom edge scroll down and pull the highlight back one row;
        above the window scroll up. */
    method HandleScroll(height: int)
      modifies this
      ensures State() == Scrolled(old(State()), height)
    {
      if position > height - 3 && highlightIndex == height - 2 {
        drawBeginning := drawBeginning + 1;
        highlightIndex := highlightIndex - 1;
      } else if position < drawBeginning && highlightIndex == 0 {
        drawBeginning := drawBeginning - 1;
      }
    }
  }
}
