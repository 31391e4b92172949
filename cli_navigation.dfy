/** The navigation state machine of the cli package on values: cursor movement with
    sticky-edge scrolling, the repositioning after a directory change, and filtering.
    The Dir class in CliDirectory is specified by these functions. */
module CliNavigation {
  import opened Listing
  import Text

  /** Screen rows above the listing (the path line). Every Dir of the cli package is
      built with topOffset 1 and no code changes it. */
  const TopOffset: int := 1

  datatype Direction = Up | Down | Forwards | Backwards | Jump | Refresh

  /** Go's `n / 2` on int, which truncates toward zero (Dafny's `/` is Euclidean). */
  function GoHalf(n: int): (r: int)
    ensures n >= 0 ==> 0 <= n - 2 * r <= 1
    ensures n < 0 ==> -1 <= n - 2 * r <= 0
  {
    if n >= 0 then n / 2 else -((-n) / 2)
  }

  /** The navigation invariant for a listing `height` rows tall: the highlighted row
      shows the cursor entry, the highlight stays strictly above the last listing row,
      the window never starts before the first entry, and the cursor indexes an entry
      (or is 0 on an empty listing). */
  predicate Sticky(v: View, height: int)
  {
    && height >= 3
    && 0 <= v.drawBeginning
    && TopOffset <= v.highlightIndex <= height - TopOffset - 1
    && v.position == v.drawBeginning + v.highlightIndex - TopOffset
    && (v.position == 0 || v.position < |v.files|)
  }

  /** Whether a cursor move in direction `d` is possible (no wrap-around at either end). */
  predicate CanMove(v: View, d: Direction)
  {
    (d == Down && v.position < |v.files| - 1) || (d == Up && v.position > 0)
  }

  /** The first half of UpDown: move the cursor and, within the bound, the highlight. */
  function Stepped(v: View, d: Direction, height: int): View
  {
    if d == Down && v.position < |v.files| - 1 then
      v.(position := v.position + 1,
         highlightIndex := if v.highlightIndex <= height then v.highlightIndex + 1 else v.highlightIndex)
    else if d == Up && v.position > 0 then
      v.(position := v.position - 1,
         highlightIndex := if v.highlightIndex > 0 then v.highlightIndex - 1 else v.highlightIndex)
    else v
  }

  /** handleScroll: slide the window one row when the highlight reaches either edge. */
  function Scrolled(v: View, height: int): View
  {
    if v.position > height - TopOffset - 1 - 1 && v.highlightIndex == height - TopOffset then
      v.(drawBeginning := v.drawBeginning + 1, highlightIndex := v.highlightIndex - 1)
    else if v.position < v.drawBeginning + TopOffset && v.highlightIndex == 0 then
      v.(drawBeginning := v.drawBeginning - 1, highlightIndex := v.highlightIndex + 1)
    else v
  }

  /** UpDown followed by handleScroll. The cursor moves by exactly one when it can and
      stays put at either end; the navigation invariant is preserved; and when no move
      is possible (including an empty listing) a state satisfying the invariant is left
      exactly as it was. */
  function Moved(v: View, d: Direction, height: int): (r: View)
    ensures r.path == v.path && r.files == v.files
    ensures d == Down && CanMove(v, d) ==> r.position == v.position + 1
    ensures d == Up && CanMove(v, d) ==> r.position == v.position - 1
    ensures !CanMove(v, d) ==> r.position == v.position
    ensures Sticky(v, height) ==> Sticky(r, height)
    ensures Sticky(v, height) && !CanMove(v, d) ==> r == v
  {
    Scrolled(Stepped(v, d, height), height)
  }

  /** Sticky-edge scrolling: inside the window the highlight follows the cursor; at the
      bottom (or top) edge the highlight stays pinned and the window scrolls instead. */
  lemma StickyEdges(v: View, d: Direction, height: int)
    requires Sticky(v, height) && CanMove(v, d)
    ensures var r := Moved(v, d, height);
      if d == Down && v.highlightIndex == height - TopOffset - 1 then
        r.highlightIndex == v.highlightIndex && r.drawBeginning == v.drawBeginning + 1
      else if d == Up && v.highlightIndex == TopOffset then
        r.highlightIndex == v.highlightIndex && r.drawBeginning == v.drawBeginning - 1
      else
        r.drawBeginning == v.drawBeginning &&
        r.highlightIndex == v.highlightIndex + (if d == Down then 1 else -1)
  {
  }

  /** `k` moves in the same direction. */
  function MovedTimes(v: View, d: Direction, k: nat, height: int): View
    decreases k
  {
    if k == 0 then v else MovedTimes(Moved(v, d, height), d, k - 1, height)
  }

  /** Repeated Down moves stop at the last entry: after `k` of them the cursor is at
      min(position + k, last index), and the invariant still holds. */
  lemma {:induction false} DownRepeatedly(v: View, k: nat, height: int)
    requires Sticky(v, height)
    ensures var r := MovedTimes(v, Down, k, height);
      Sticky(r, height) && r.files == v.files &&
      r.position == if v.position + k < |v.files| then v.position + k
                    else if |v.files| == 0 then 0 else |v.files| - 1
    decreases k
  {
    if k > 0 {
      DownRepeatedly(Moved(v, Down, height), k - 1, height);
    }
  }

  /** Traverse's repositioning from the index ReadDir found: centre the window on it when
      it lies beyond the top rows, otherwise keep the window at the start. Either way the
      cursor is the entry on the highlighted row, and the invariant holds whenever the
      listing is at least three rows tall and the index is valid. */
  function Landing(path: string, files: seq<File>, positionIndex: int, height: int): (r: View)
    ensures r.path == path && r.files == files && r.position == positionIndex
    ensures r.position == r.drawBeginning + r.highlightIndex - TopOffset
    ensures height >= 3 && 0 <= positionIndex && (positionIndex == 0 || positionIndex < |files|) ==>
              Sticky(r, height)
  {
    if positionIndex > height - 3 then
      View(path, files, positionIndex, positionIndex - GoHalf(height) + TopOffset, 0 + GoHalf(height))
    else
      View(path, files, positionIndex, 0, positionIndex + TopOffset)
  }

  /** The directory Traverse reads and the path it positions on, taken from the active
      Dir: its own path for Refresh and Jump, its parent (positioned on itself) for
      Backwards, the selected entry for Forwards (the empty path when there is none),
      and the empty path for the two cursor directions. */
  function ReadTarget(active: View, d: Direction, host: Host): (r: (string, string))
    ensures d == Backwards ==> r == (host.dir(active.path), active.path)
    ensures d != Backwards ==> r.1 == ""
    ensures d == Refresh || d == Jump ==> r.0 == active.path
    ensures d == Forwards && 0 <= active.position < |active.files| ==> r.0 == active.files[active.position].path
    ensures d == Forwards && !(0 <= active.position < |active.files|) ==> r.0 == ""
  {
    match d
    case Refresh => (active.path, "")
    case Jump => (active.path, "")
    case Backwards => (host.dir(active.path), active.path)
    case Forwards =>
      if 0 <= active.position < |active.files| then (active.files[active.position].path, "")
      else ("", "")
    case _ => ("", "")
  }

  /** The Dir value a Traverse writes, or None when the read fails (nothing is written).
      On success the new listing is the read of the target directory and the navigation
      invariant holds for any listing height of at least three rows. */
  function Traversed(active: View, d: Direction, height: int, fs: FileSystem, host: Host): (r: Option<View>)
    ensures r.None? <==> ReadTarget(active, d, host).0 !in fs
    ensures r.Some? ==> r.value.path == ReadTarget(active, d, host).0
    ensures r.Some? ==> r.value.files == Entries(r.value.path, fs[r.value.path], host.join)
    ensures r.Some? ==> r.value.position == IndexOfPath(r.value.files, ReadTarget(active, d, host).1)
    ensures r.Some? && height >= 3 ==> Sticky(r.value, height)
  {
    var (pathToRead, positionPath) := ReadTarget(active, d, host);
    if pathToRead !in fs then None
    else
      var files := Entries(pathToRead, fs[pathToRead], host.join);
      Some(Landing(pathToRead, files, IndexOfPath(files, positionPath), height))
  }

  /** Entering on a listing with no entry under the cursor reads the empty path, which
      names no directory, so nothing is written. */
  lemma ForwardsWithoutSelection(active: View, height: int, fs: FileSystem, host: Host)
    requires !(0 <= active.position < |active.files|) && "" !in fs
    ensures Traversed(active, Forwards, height, fs, host).None?
  {
  }

  /** The Dir value after a Refresh that ignores its error (create, ConfirmDelete): the
      re-read listing, or the old value when the read fails. Either way the navigation
      invariant is kept, and the path is unchanged. */
  function Refreshed(v: View, height: int, fs: FileSystem, host: Host): (r: View)
    ensures r.path == v.path
    ensures Sticky(v, height) ==> Sticky(r, height)
    ensures v.path in fs ==> r.files == Entries(v.path, fs[v.path], host.join)
    ensures v.path !in fs ==> r == v
  {
    match Traversed(v, Refresh, height, fs, host)
    case Some(w) => w
    case None => v
  }

  /** Going Backwards lands the cursor on the entry for the directory just left,
      whenever the parent lists a child whose joined path names it. */
  lemma BackwardsReturnsToDirectoryLeft(active: View, height: int, fs: FileSystem, host: Host, k: int)
    requires host.dir(active.path) in fs
    requires 0 <= k < |fs[host.dir(active.path)]|
    requires host.join(host.dir(active.path), fs[host.dir(active.path)][k]) == active.path
    ensures Traversed(active, Backwards, height, fs, host).Some?
    ensures var v := Traversed(active, Backwards, height, fs, host).value;
      v.path == host.dir(active.path) &&
      0 <= v.position < |v.files| && v.files[v.position].path == active.path
  {
    IndexOfJoinedName(host.dir(active.path), fs[host.dir(active.path)], host.join, k, active.path);
  }

  /** Refresh and Jump pass no position path, so (when no child joins to the empty
      path) they reset the view to the first entry on the first listing row. */
  lemma RefreshResetsView(active: View, d: Direction, height: int, fs: FileSystem, host: Host)
    requires d == Refresh || d == Jump
    requires height >= 3 && active.path in fs
    requires forall n :: n in fs[active.path] ==> host.join(active.path, n) != ""
    ensures Traversed(active, d, height, fs, host).Some?
    ensures var v := Traversed(active, d, height, fs, host).value;
      v.path == active.path && v.position == 0 && v.drawBeginning == 0 && v.highlightIndex == TopOffset
  {
    var files := Entries(active.path, fs[active.path], host.join);
    forall i | 0 <= i < |files|
      ensures files[i].path != ""
    {
      assert fs[active.path][i] in fs[active.path];
    }
  }

  /** A second Refresh with the filesystem unchanged yields the same Dir value. */
  lemma RefreshIdempotent(active: View, height: int, fs: FileSystem, host: Host)
    requires Traversed(active, Refresh, height, fs, host).Some?
    ensures Traversed(Traversed(active, Refresh, height, fs, host).value, Refresh, height, fs, host)
            == Traversed(active, Refresh, height, fs, host)
  {
  }

  /** Entering the selected child and going back restores the listing and the cursor,
      provided the child's parent is the directory it was listed in and no later entry
      of that listing has the same path. */
  lemma EnterThenLeave(active: View, height: int, fs: FileSystem, host: Host)
    requires active.path in fs && active.files == Entries(active.path, fs[active.path], host.join)
    requires 0 <= active.position < |active.files|
    requires active.files[active.position].path in fs
    requires host.dir(active.files[active.position].path) == active.path
    requires forall j :: active.position < j < |active.files| ==>
               active.files[j].path != active.files[active.position].path
    ensures Traversed(active, Forwards, height, fs, host).Some?
    ensures var inner := Traversed(active, Forwards, height, fs, host).value;
      var back := Traversed(inner, Backwards, height, fs, host);
      back.Some? && back.value.path == active.path && back.value.files == active.files &&
      back.value.position == active.position
  {
    var child := active.files[active.position].path;
    var inner := Traversed(active, Forwards, height, fs, host).value;
    assert inner.path == child;
    assert ReadTarget(inner, Backwards, host) == (active.path, child);
    var r := IndexOfPath(active.files, child);
    assert r == active.position;
  }

  /** Whether an entry is kept by a filter query: its lower-cased name contains the
      query, which itself is taken as typed. */
  predicate Matches(f: File, query: string, lower: string -> string)
  {
    Text.Contains(lower(f.name), query)
  }

  /** The entries kept by a query, in their original order: exactly the matching ones. */
  function Matching(files: seq<File>, query: string, lower: string -> string): (r: seq<File>)
    ensures |r| <= |files|
    ensures forall f :: f in r ==> f in files && Matches(f, query, lower)
    ensures forall f :: f in files && Matches(f, query, lower) ==> f in r
  {
    if files == [] then []
    else
      var last := files[|files| - 1];
      var rest := Matching(files[..|files| - 1], query, lower);
      assert forall f :: f in files ==> f in files[..|files| - 1] || f == last;
      if Matches(last, query, lower) then rest + [last] else rest
  }

  /** Filtering is order-preserving: it distributes over concatenation. */
  lemma {:induction false} MatchingAppend(a: seq<File>, b: seq<File>, query: string, lower: string -> string)
    ensures Matching(a + b, query, lower) == Matching(a, query, lower) + Matching(b, query, lower)
    decreases |b|
  {
    if b != [] {
      var b' := b[..|b| - 1];
      assert (a + b)[..|a + b| - 1] == a + b';
      MatchingAppend(a, b', query, lower);
    } else {
      assert a + b == a;
    }
  }

  /** The empty query keeps every entry, in order. */
  lemma {:induction false} MatchingEmptyQuery(files: seq<File>, lower: string -> string)
    ensures Matching(files, "", lower) == files
    decreases |files|
  {
    if files != [] {
      MatchingEmptyQuery(files[..|files| - 1], lower);
      assert files[..|files| - 1] + [files[|files| - 1]] == files;
    }
  }

  /** Filtering twice with the same query gives the same entries as filtering once. */
  lemma {:induction false} MatchingIdempotent(files: seq<File>, query: string, lower: string -> string)
    ensures Matching(Matching(files, query, lower), query, lower) == Matching(files, query, lower)
    decreases |files|
  {
    if files != [] {
      var last := files[|files| - 1];
      var rest := Matching(files[..|files| - 1], query, lower);
      MatchingIdempotent(files[..|files| - 1], query, lower);
      if Matches(last, query, lower) {
        MatchingAppend(rest, [last], query, lower);
        assert [last][..0] == [];
      }
    }
  }

  /** The filtered Dir: the matching entries of `dir` under its path, cursor and window
      reset to the top. It satisfies the navigation invariant for any listing of at
      least three rows. */
  function Filtered(dir: View, query: string, lower: string -> string): (r: View)
    ensures r.path == dir.path && r.files == Matching(dir.files, query, lower)
    ensures r.position == 0 && r.drawBeginning == 0 && r.highlightIndex == TopOffset
    ensures forall height :: height >= 3 ==> Sticky(r, height)
  {
    View(dir.path, Matching(dir.files, query, lower), 0, 0, 0 + TopOffset)
  }

  /** The Dir value InitDir builds from a readable start directory: the listing looked
      up at the directory's own path, window at the start, highlight on the first
      listing row. */
  function Initial(path: string, fs: FileSystem, host: Host): (r: View)
    requires path in fs
    ensures r.path == path && r.files == Entries(path, fs[path], host.join)
    ensures r.drawBeginning == 0 && r.highlightIndex == TopOffset
  {
    var files := Entries(path, fs[path], host.join);
    View(path, files, IndexOfPath(files, path), 0, TopOffset)
  }

  /** The initial view satisfies the invariant exactly when the self-path lookup falls
      back to 0, which it does when no child joins to the directory's own path. */
  lemma InitialIsSticky(path: string, fs: FileSystem, host: Host, height: int)
    requires path in fs && height >= 3
    requires forall n :: n in fs[path] ==> host.join(path, n) != path
    ensures Initial(path, fs, host).position == 0
    ensures Sticky(Initial(path, fs, host), height)
  {
    var files := Entries(path, fs[path], host.join);
    forall i | 0 <= i < |files|
      ensures files[i].path != path
    {
      assert fs[path][i] in fs[path];
    }
  }
}
