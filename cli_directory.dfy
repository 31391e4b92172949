/** The Dir record of the cli package and the operations that update it in place:
    moving the cursor, changing directory, filtering, jumping, creating and deleting.
    Each method is specified by the value-level functions of CliNavigation. */
module CliDirectory {
  import opened Listing
  import Text
  import opened CliNavigation
  import opened CliUi

  /** What `create` makes for a name: a directory when the name has no '.', otherwise
      an empty file. */
  datatype Kind = Folder | EmptyFile

  function CreateKind(name: string): (k: Kind)
    ensures k == Folder <==> '.' !in name
  {
    Text.SplitSingle(name, '.');
    if |Text.Split(name, '.')| == 1 then Folder else EmptyFile
  }

  /** The editor command line Open would run for `filename`: none when the path has no
      '.', otherwise the file, opened in a new window when asked for. */
  function EditorArgs(filename: string, window: string): (r: Option<seq<string>>)
    ensures r.None? <==> '.' !in filename
    ensures r.Some? && window == "new" ==> r.value == ["--new-window", filename]
    ensures r.Some? && window != "new" ==> r.value == [filename]
  {
    Text.SplitSingle(filename, '.');
    if |Text.Split(filename, '.')| > 1 then
      Some(if window == "new" then ["--new-window", filename] else [filename])
    else None
  }

  class Dir {
    var path: string
    var files: seq<File>
    var position: int
    var drawBeginning: int
    var highlightIndex: int

    /** The record's value. */
    function State(): View
      reads this
    {
      View(path, files, position, drawBeginning, highlightIndex)
    }

    /** NewDir: the placeholder record (placeholder path, no entries, all counters 0). */
    constructor ()
      ensures State() == View("path", [], 0, 0, 0)
    {
      path, files := "path", [];
      position, drawBeginning, highlightIndex := 0, 0, 0;
    }

    /** InitDir: read the start directory (the working directory `cwd` when no path is
        given; None stands for a failing os.Getwd) and position on its own path. Fails,
        building nothing, when there is no start directory or it cannot be read. */
    static method InitDir(path: string, cwd: Option<string>, fs: FileSystem, host: Host)
      returns (d: Dir?, err: bool)
      ensures var next := if path == "" then cwd else Some(path);
        && (err <==> next.None? || next.value !in fs)
        && (err <==> d == null)
        && (!err ==> fresh(d) && d.State() == Initial(next.value, fs, host))
    {
      var nextPath: string;
      if path == "" {
        if cwd.None? {
          return null, true;
        }
        nextPath := cwd.value;
      } else {
        nextPath := path;
      }
      var _, entries, positionIndex, readErr := ReadDir(fs, host, nextPath, nextPath);
      if readErr {
        return null, true;
      }
      d := new Dir();
      d.path, d.files, d.position := nextPath, entries, positionIndex;
      d.drawBeginning, d.highlightIndex := 0, TopOffset;
      err := false;
    }

    /** Traverse, with this Dir as the active one: read the target directory for
        `direction` and, when the read succeeds, overwrite `dir` with the new listing
        and its repositioned window. A failed read leaves `dir` as it was. The search
        input is cleared either way, and nothing else is touched. */
    method Traverse(direction: Direction, ui: Ui, dir: Dir, fs: FileSystem, host: Host)
      returns (err: bool)
      modifies ui`searchInput, dir
      ensures ui.searchInput == ""
      ensures var out := Traversed(old(State()), direction, ui.dirHeight, fs, host);
        && (err <==> out.None?)
        && (out.None? ==> dir.State() == old(dir.State()))
        && (out.Some? ==> dir.State() == out.value)
    {
      ghost var active := State();
      ui.searchInput := "";
      var pathToRead, positionPath := "", "";
      if direction == Refresh {
        pathToRead := path;
      } else if direction == Jump {
        pathToRead := path;
      } else if direction == Backwards {
        pathToRead := host.dir(path);
        positionPath := path;
      } else if direction == Forwards {
        if position >= 0 && position < |files| {
          pathToRead := files[position].path;
        } else {
          pathToRead := "";
        }
      }
      assert (pathToRead, positionPath) == ReadTarget(active, direction, host);
      var directoryPath, entries, positionIndex, readErr := ReadDir(fs, host, pathToRead, positionPath);
      if readErr {
        return true;
      }
      ghost var landed := Landing(pathToRead, entries, positionIndex, ui.dirHeight);
      assert Traversed(active, direction, ui.dirHeight, fs, host) == Some(landed);
      dir.path := directoryPath;
      dir.files := entries;
      dir.position := positionIndex;
      if positionIndex > ui.dirHeight - 3 {
        dir.drawBeginning := positionIndex - GoHalf(ui.dirHeight) + TopOffset;
        dir.highlightIndex := 0 + GoHalf(ui.dirHeight);
      } else {
        dir.drawBeginning := 0;
        dir.highlightIndex := positionIndex + TopOffset;
      }
      assert dir.State() == landed;
      err := false;
    }

    /** UpDown: move the cursor one entry (the highlight with it, within its bound), then
        let handleScroll slide the window. */
    method UpDown(direction: Direction, ui: Ui)
      modifies this
      ensures State() == Moved(old(State()), direction, ui.dirHeight)
    {
      if direction == Down && position < |files| - 1 {
        position := position + 1;
        if highlightIndex <= ui.dirHeight {
          highlightIndex := highlightIndex + 1;
        }
      } else if direction == Up && position > 0 {
        position := position - 1;
        if highlightIndex > 0 {
          highlightIndex := highlightIndex - 1;
        }
      }
      HandleScroll(ui.dirHeight);
    }

    /** handleScroll: at the bottom edge scroll down and pull the highlight back one row;
        at the top edge scroll up and push it forward one row. */
    method HandleScroll(height: int)
      modifies this
      ensures State() == Scrolled(old(State()), height)
    {
      if position > height - TopOffset - 1 - 1 && highlightIndex == height - TopOffset {
        drawBeginning := drawBeginning + 1;
        highlightIndex := highlightIndex - 1;
      } else if position < drawBeginning + TopOffset && highlightIndex == 0 {
        drawBeginning := drawBeginning - 1;
        highlightIndex := highlightIndex + 1;
      }
    }

    /** Filter, on the filtered Dir: keep the entries of `dir` whose lower-cased name
        contains `searchInput`, in order, under the path of `dir`, with the cursor and
        window reset to the top. */
    method Filter(dir: Dir, searchInput: string, host: Host)
      modifies this
      ensures State() == Filtered(old(dir.State()), searchInput, host.lower)
    {
      var source := dir.files;
      var filteredFiles: seq<File> := [];
      for i := 0 to |source|
        invariant filteredFiles == Matching(source[..i], searchInput, host.lower)
      {
        if Text.Contains(host.lower(source[i].name), searchInput) {
          filteredFiles := filteredFiles + [source[i]];
        }
        assert source[..i + 1][..i] == source[..i];
      }
      assert source[..|source|] == source;
      if |filteredFiles| > 0 {
        files := filteredFiles;
      } else {
        files := [];
      }
      path := dir.path;
      position := 0;
      highlightIndex := 0 + TopOffset;
      drawBeginning := 0;
    }

    /** create: decide between a directory and an empty file for `name`, name the new
        path, clear the search input and refresh. `fs` is the filesystem as it reads
        after the entry was (or failed to be) made. */
    method Create(name: string, ui: Ui, fs: FileSystem, host: Host)
      returns (kind: Kind, newPath: string)
      modifies ui`searchInput, this
      ensures kind == CreateKind(name) && newPath == host.slashJoin([old(path), name])
      ensures ui.searchInput == ""
      ensures State() == Refreshed(old(State()), ui.dirHeight, fs, host)
    {
      Text.SplitSingle(name, '.');
      newPath := host.slashJoin([path, name]);
      if |Text.Split(name, '.')| == 1 {
        kind := Folder;
      } else {
        kind := EmptyFile;
      }
      ui.searchInput := "";
      var _ := Traverse(Refresh, ui, this, fs, host);
    }

    /** Delete: ask for confirmation; the browser now waits for y or n. */
    method Delete(ui: Ui)
      modifies ui`confirm, ui`searchInput
      ensures !ui.confirm && ui.searchInput == "Confirm delete y/n"
    {
      ui.confirm := false;
      ui.searchInput := "Confirm delete y/n";
    }

    /** ConfirmDelete: remove the entry under the cursor (its path is returned), leave
        the confirmation state and refresh. `fs` is the filesystem as it reads after
        the removal (or its failure). */
    method ConfirmDelete(ui: Ui, fs: FileSystem, host: Host) returns (removed: string)
      requires 0 <= position < |files|
      modifies ui`confirm, ui`searchInput, this
      ensures removed == old(files[position].path)
      ensures ui.confirm && ui.searchInput == ""
      ensures State() == Refreshed(old(State()), ui.dirHeight, fs, host)
    {
      removed := files[position].path;
      ui.confirm := true;
      ui.searchInput := "";
      var _ := Traverse(Refresh, ui, this, fs, host);
    }

    /** CancelDelete: leave the confirmation state with nothing removed. */
    method CancelDelete(ui: Ui)
      modifies ui`confirm, ui`searchInput
      ensures ui.confirm && ui.searchInput == ""
    {
      ui.confirm := true;
      ui.searchInput := "";
    }

    /** Open: the editor command for the entry under the cursor, if it has one. */
    method Open(window: string) returns (args: Option<seq<string>>)
      requires 0 <= position < |files|
      ensures args.None? <==> '.' !in files[position].path
      ensures args == EditorArgs(files[position].path, window)
    {
      args := EditorArgs(files[position].path, window);
    }
  }

  /** JumpToDirectory: write the path built from the home directory and the text after
      "/ " into `dir` first, then traverse there. On a failed read `dir` keeps its old
      listing under the new path and the search input becomes "/". `home` is what
      os.UserHomeDir gave (the empty string when it failed). */
  method JumpToDirectory(ui: Ui, dir: Dir, home: string, fs: FileSystem, host: Host)
    requires |ui.searchInput| >= 2
    modifies ui`searchInput, dir
    ensures var target := host.toSlash(host.slashJoin([home, "/", old(ui.searchInput)[2..]]));
      var out := Traversed(old(dir.State()).(path := target), Jump, ui.dirHeight, fs, host);
      && (out.None? ==> dir.State() == old(dir.State()).(path := target) && ui.searchInput == "/")
      && (out.Some? ==> dir.State() == out.value && ui.searchInput == "")
  {
    var joined := host.slashJoin([home, "/", ui.searchInput[2..]]);
    var consistent := host.toSlash(joined);
    dir.path := consistent;
    var jumpErr := dir.Traverse(Jump, ui, dir, fs, host);
    if jumpErr {
      ui.searchInput := "/";
    }
  }
}
