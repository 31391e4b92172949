/** The navigation state machine of the screen package, the earlier copy of the browser,
    on values. It has no path line above the listing (no top offset), bounds the
    highlight by the screen height `ymax`, and scrolls up without moving the highlight.
    The Dir class in ScreenDirectory is specified by these functions. */
module ScreenNavigation {
  import opened Listing

  datatype Direction = Up | Down | Forwards | Backwards

  /** The navigation invariant on a screen `ymax` rows tall: the highlighted row shows the
      cursor entry, the highlight stays at most on row ymax-3, the window never starts
      before the first entry, and the cursor indexes an entry (or is 0 on an empty
      listing). The bound on the highlight implies ymax >= 3. */
  predicate Aligned(v: View, ymax: int)
  {
    && 0 <= v.drawBeginning
    && 0 <= v.highlightIndex <= ymax - 3
    && v.drawBeginning + v.highlightIndex == v.position
    && (v.position == 0 || v.position < |v.files|)
  }

  /** Whether a cursor move in direction `d` is possible (no wrap-around at either end). */
  predicate CanMove(v: View, d: Direction)
  {
    (d == Down && v.position < |v.files| - 1) || (d == Up && v.position > 0)
  }

  /** The first half of UpdateDirectoryPosition: move the cursor and, while it is below
      row ymax-2 (or above row 0), the highlight. */
  function Stepped(v: View, d: Direction, ymax: int): View
  {
    if d == Down && v.position < |v.files| - 1 then
      v.(position := v.position + 1,
         highlightIndex := if v.highlightIndex < ymax - 2 then v.highlightIndex + 1 else v.highlightIndex)
    else if d == Up && v.position > 0 then
      v.(position := v.position - 1,
         highlightIndex := if v.highlightIndex > 0 then v.highlightIndex - 1 else v.highlightIndex)
    else v
  }

  /** handleScroll: at the bottom edge scroll down and pull the highlight back one row;
      above the window scroll up, leaving the highlight on row 0. */
  function Scrolled(v: View, height: int): View
  {
    if v.position > height - 3 && v.highlightIndex == height - 2 then
      v.(drawBeginning := v.drawBeginning + 1, highlightIndex := v.highlightIndex - 1)
    else if v.position < v.drawBeginning && v.highlightIndex == 0 then
      v.(drawBeginning := v.drawBeginning - 1)
    else v
  }

  /** UpdateDirectoryPosition followed by handleScroll. The cursor moves by exactly one
      when it can and stays put at either end; the invariant is preserved; and when no
      move is possible a state satisfying the invariant is left exactly as it was. */
  function Moved(v: View, d: Direction, ymax: int): (r: View)
    ensures r.path == v.path && r.files == v.files
    ensures d == Down && CanMove(v, d) ==> r.position == v.position + 1
    ensures d == Up && CanMove(v, d) ==> r.position == v.position - 1
    ensures !CanMove(v, d) ==> r.position == v.position
    ensures Aligned(v, ymax) ==> Aligned(r, ymax)
    ensures Aligned(v, ymax) && !CanMove(v, d) ==> r == v
  {
    Scrolled(Stepped(v, d, ymax), ymax)
  }

  /** The edges of the screen window: Down on row ymax-3 keeps the highlight there and
      scrolls; Up on row 0 keeps the highlight there and scrolls back; elsewhere the
      highlight follows the cursor and the window stays. */
  lemma WindowEdges(v: View, d: Direction, ymax: int)
    requires Aligned(v, ymax) && CanMove(v, d)
    ensures var r := Moved(v, d, ymax);
      if d == Down && v.highlightIndex == ymax - 3 then
        r.highlightIndex == v.highlightIndex && r.drawBeginning == v.drawBeginning + 1
      else if d == Up && v.highlightIndex == 0 then
        r.highlightIndex == 0 && r.drawBeginning == v.drawBeginning - 1
      else
        r.drawBeginning == v.drawBeginning &&
        r.highlightIndex == v.highlightIndex + (if d == Down then 1 else -1)
  {
  }

  /** The directory UpdateDirectoryContents reads and the path it positions on: for
      Backwards the parent of the Dir's path, positioned on that path; for any other
      direction the selected entry, or the Dir's own path when the cursor selects none,
      with no position path. */
  function ContentsTarget(v: View, d: Direction, host: Host): (r: (string, string))
    ensures d == Backwards ==> r == (host.dir(v.path), v.path)
    ensures d != Backwards ==> r.1 == ""
    ensures d != Backwards && 0 <= v.position < |v.files| ==> r.0 == v.files[v.position].path
    ensures d != Backwards && !(0 <= v.position < |v.files|) ==> r.0 == v.path
  {
    var currentPath := if 0 <= v.position < |v.files| then v.files[v.position].path else v.path;
    if d == Backwards then (host.dir(v.path), v.path) else (currentPath, "")
  }

  /** The repositioning after a read, as written: the window starts at the found index
      when that index is beyond the screen height, and at the first entry otherwise.
      Either way the highlighted row is the cursor entry. */
  function Landed(path: string, files: seq<File>, positionIndex: int, ymax: int): (r: View)
    ensures r.path == path && r.files == files && r.position == positionIndex
    ensures r.drawBeginning + r.highlightIndex == r.position
    ensures positionIndex > ymax ==> r.highlightIndex == 0
  {
    if positionIndex > ymax then View(path, files, positionIndex, positionIndex, 0)
    else View(path, files, positionIndex, 0, positionIndex)
  }

  /** As written, an index between ymax-2 and ymax (here ymax = 10, index 8 of 20
      entries) puts the highlight below the bound the scroll logic relies on, and the
      next Down breaks the highlight/cursor equation. */
  lemma LandedBreaksAlignment()
    ensures var files := seq(20, i => File("f", "p"));
      var v := Landed("d", files, 8, 10);
      !Aligned(v, 10) &&
      var r := Moved(v, Down, 10);
      r.position == 9 && r.drawBeginning + r.highlightIndex != r.position
  {
    var files := seq(20, i => File("f", "p"));
    var v := Landed("d", files, 8, 10);
    assert v == View("d", files, 8, 0, 8);
    assert Stepped(v, Down, 10) == View("d", files, 9, 0, 8);
  }

  /** The repositioning with the threshold the scroll logic needs (ymax-3, as the cli
      package has it): the window starts at the found index when that index lies below
      the last highlight row, and at the first entry otherwise. The result satisfies the
      invariant for every valid index. */
  function LandedInView(path: string, files: seq<File>, positionIndex: int, ymax: int): (r: View)
    ensures r.path == path && r.files == files && r.position == positionIndex
    ensures r.drawBeginning + r.highlightIndex == r.position
    ensures ymax >= 3 && 0 <= positionIndex && (positionIndex == 0 || positionIndex < |files|) ==>
              Aligned(r, ymax)
  {
    if positionIndex > ymax - 3 then View(path, files, positionIndex, positionIndex, 0)
    else View(path, files, positionIndex, 0, positionIndex)
  }

  /** The two repositionings agree exactly outside the indices ymax-2..ymax, and on those
      the one as written breaks the invariant. */
  lemma LandedAgreesOutsideGap(path: string, files: seq<File>, positionIndex: int, ymax: int)
    requires ymax >= 3 && positionIndex >= 0
    ensures Landed(path, files, positionIndex, ymax) == LandedInView(path, files, positionIndex, ymax)
            <==> positionIndex <= ymax - 3 || positionIndex > ymax
    ensures ymax - 3 < positionIndex <= ymax ==> !Aligned(Landed(path, files, positionIndex, ymax), ymax)
  {
  }

  /** The Dir value UpdateDirectoryContents writes, as written, or None when the read
      fails (nothing is written). On success the listing is the read of the target
      directory, the highlighted row is the cursor entry, and the invariant holds on any
      screen of at least three rows unless the found index falls in ymax-2..ymax,
      where the repositioning as written breaks it (see LandedAgreesOutsideGap). */
  function Updated(v: View, d: Direction, ymax: int, fs: FileSystem, host: Host): (r: Option<View>)
    ensures r.None? <==> ContentsTarget(v, d, host).0 !in fs
    ensures r.Some? ==> r.value.path == ContentsTarget(v, d, host).0
    ensures r.Some? ==> r.value.files == Entries(r.value.path, fs[r.value.path], host.join)
    ensures r.Some? ==> r.value.drawBeginning + r.value.highlightIndex == r.value.position
    ensures r.Some? && ymax >= 3 && (r.value.position <= ymax - 3 || r.value.position > ymax) ==>
              Aligned(r.value, ymax)
  {
    var (nextDir, positionPath) := ContentsTarget(v, d, host);
    if nextDir !in fs then None
    else
      var files := Entries(nextDir, fs[nextDir], host.join);
      Some(Landed(nextDir, files, IndexOfPath(files, positionPath), ymax))
  }

  /** The same directory change with the corrected repositioning LandedInView: on success
      the invariant holds on any screen of at least three rows, whatever index is found. */
  function UpdatedInView(v: View, d: Direction, ymax: int, fs: FileSystem, host: Host): (r: Option<View>)
    ensures r.None? <==> ContentsTarget(v, d, host).0 !in fs
    ensures r.Some? ==> r.value.path == ContentsTarget(v, d, host).0
    ensures r.Some? ==> r.value.files == Entries(r.value.path, fs[r.value.path], host.join)
    ensures r.Some? && ymax >= 3 ==> Aligned(r.value, ymax)
  {
    var (nextDir, positionPath) := ContentsTarget(v, d, host);
    if nextDir !in fs then None
    else
      var files := Entries(nextDir, fs[nextDir], host.join);
      Some(LandedInView(nextDir, files, IndexOfPath(files, positionPath), ymax))
  }

  /** The program and its correction write the same Dir value except when the found
      index falls in ymax-2..ymax. */
  lemma UpdatedAgreesOutsideGap(v: View, d: Direction, ymax: int, fs: FileSystem, host: Host)
    requires ymax >= 3
    ensures var r := Updated(v, d, ymax, fs, host);
      r.Some? && (r.value.position <= ymax - 3 || r.value.position > ymax) ==>
        r == UpdatedInView(v, d, ymax, fs, host)
    ensures Updated(v, d, ymax, fs, host).None? <==> UpdatedInView(v, d, ymax, fs, host).None?
  {
    var (nextDir, positionPath) := ContentsTarget(v, d, host);
    if nextDir in fs {
      var files := Entries(nextDir, fs[nextDir], host.join);
      LandedAgreesOutsideGap(nextDir, files, IndexOfPath(files, positionPath), ymax);
    }
  }

  /** Going Backwards lands the cursor on the entry for the directory just left,
      whenever the parent lists a child whose joined path names it. */
  lemma BackwardsReturnsToDirectoryLeft(v: View, ymax: int, fs: FileSystem, host: Host, k: int)
    requires host.dir(v.path) in fs
    requires 0 <= k < |fs[host.dir(v.path)]|
    requires host.join(host.dir(v.path), fs[host.dir(v.path)][k]) == v.path
    ensures Updated(v, Backwards, ymax, fs, host).Some?
    ensures var w := Updated(v, Backwards, ymax, fs, host).value;
      w.path == host.dir(v.path) &&
      0 <= w.position < |w.files| && w.files[w.position].path == v.path
  {
    IndexOfJoinedName(host.dir(v.path), fs[host.dir(v.path)], host.join, k, v.path);
  }

  /** The Dir value NewDir builds from a readable start directory: the listing looked
      up at the directory's own path, window and highlight at the first row. */
  function Initial(path: string, fs: FileSystem, host: Host): (r: View)
    requires path in fs
    ensures r.path == path && r.files == Entries(path, fs[path], host.join)
    ensures r.drawBeginning == 0 && r.highlightIndex == 0
  {
    var files := Entries(path, fs[path], host.join);
    View(path, files, IndexOfPath(files, path), 0, 0)
  }

  /** The initial view satisfies the invariant exactly when the self-path lookup falls
      back to 0, which it does when no child joins to the directory's own path. */
  lemma InitialIsAligned(path: string, fs: FileSystem, host: Host, ymax: int)
    requires path in fs && ymax >= 3
    requires forall n :: n in fs[path] ==> host.join(path, n) != path
    ensures Initial(path, fs, host).position == 0
    ensures Aligned(Initial(path, fs, host), ymax)
  {
    var files := Entries(path, fs[path], host.join);
    forall i | 0 <= i < |files|
      ensures files[i].path != path
    {
      assert fs[path][i] in fs[path];
    }
  }
}
