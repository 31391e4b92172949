# fileSystemCLI navigation core, in Dafny

fileSystemCLI is a terminal file browser. It shows one directory as a list of entries.
The arrow keys move a highlighted cursor, enter the selected entry or go back to the
parent. A search line at the bottom filters the entries or takes the commands `/ path`
(jump below the home directory), `/n name` (create) and `/d` (delete, answered by y/n).

This project models the browser's navigation and scroll state and proves its properties.
The repository holds that state twice:

- the `cli` package, the live version;
- the `screen` package, an earlier copy with other constants.

Each version keeps a `Dir` record with five fields:

- `path`, the directory shown;
- `files`, its entries in enumeration order;
- `position`, the cursor;
- `drawBeginning`, the scroll offset;
- `highlightIndex`, the screen row of the highlight.

Modules:

- `Text`: `strings.Split` and `strings.Contains`, defined on `seq<char>`. It proves the
  split/join round trip and a characterisation of substring containment.
- `Listing`: what both packages share.
  - The `View` value of a `Dir`.
  - The filesystem, as a map from a directory path to its child names in enumeration
    order. A missing key means the directory cannot be opened or read.
  - The library functions (`filepath.Join`, `filepath.Dir`, `strings.ToLower`,
    `path.Join`, `filepath.ToSlash`), left uninterpreted in a `Host` value.
  - `ReadDir`, a loop proved against the functions `Entries` and `IndexOfPath`.
  - `Status`, which holds `NewError`.
- `CliNavigation`: the cli state machine on values.
  - `Moved` is a cursor step followed by `handleScroll`.
  - `Traversed` is a directory change with its repositioning.
  - `Filtered` is the filter.
  - `Sticky` is the invariant they preserve: `position == drawBeginning + highlightIndex - topOffset`, with the highlight on any listing row but the last and the window
    starting at or before the cursor.
- `CliUi`: the `Ui` record, `formatName`, and the row/index/highlight mapping of `drawText`.
- `CliDirectory`: the `Dir` class. Every method states its new value through a
  `CliNavigation` function.
- `CliControls`: the `controls` transition for one event. Commands, confirmation mode, and
  the choice between the filtered and the real `Dir` are all here.
- `ScreenNavigation`, `ScreenUi`, `ScreenDirectory`: the same layers for the screen
  package. Its invariant `Aligned` is `drawBeginning + highlightIndex == position` with
  the highlight at most on row `ymax - 3`.

Behaviours of the code worth noting:

- Entering on an empty cli listing reads the empty path. `os.Open("")` fails, so the
  `Dir` stays as it was, the search line is cleared and an error is returned. The model
  gets this failure whenever `""` is not a key of the filesystem
  (`CliNavigation.ForwardsWithoutSelection`).
- The filter lower-cases each entry name but not the query.
- "Filter active" requires a non-empty search line that is not a command. It is also off
  while a delete waits for its answer.
- A jump writes the new path before the read. When the read fails, `dir.path` has
  changed while `files` keep the old listing.
- After a resize the cli listing height is `h - 1`, where at start it was `ymax - 3`.
  `Sticky` is therefore promised for every event except a resize.

Go panics are not behaviour. They become preconditions:

- `IsRunningCommand` on an empty line;
- Enter on a bare `/` or a bare `/n`;
- opening or deleting with no entry under the cursor;
- a negative scroll offset reaching `drawText`.

## Model

| member | source | states |
|---|---|---|
| Text.Split | pkg/cli/controls.go:87 | `strings.Split`: at least one piece, no piece contains the separator, the first piece is a prefix of the input |
| Text.JoinSplit | pkg/cli/controls.go:87 | joining the pieces of a split with the separator gives back the input |
| Text.SplitSingle | pkg/cli/ui.go:144-146 | a split has exactly one piece iff the separator does not occur |
| Text.SplitAfterWord | pkg/cli/controls.go:87-94 | splitting `word + " " + tail` gives the word followed by the pieces of the tail |
| Text.Contains | pkg/cli/directoryManagement.go:189 | `strings.Contains`: a prefix is contained, and a contained query is no longer than the text |
| Text.ContainsIffOccurs | pkg/cli/directoryManagement.go:189 | `strings.Contains` holds iff the query occurs at some index of the text |
| Listing.Entries | pkg/cli/directoryManagement.go:87-97 | one entry per child name, same order, name kept and path joined from the directory |
| Listing.IndexOfPath | pkg/cli/directoryManagement.go:88-96 | the last index whose path is the position path, 0 when none matches; always 0 or a valid index |
| Listing.ReadDir | pkg/cli/directoryManagement.go:75-100 | error iff the directory is unreadable, with zero values then; otherwise the input path, the entries and the position index; the screen package's copy (pkg/screen/directoryManagement.go:58-83) is the same code |
| Listing.IndexOfJoinedName | pkg/cli/directoryManagement.go:90-96 | a child whose joined path is the target is found, and the found entry has that path |
| Status.NewError | pkg/cli/ui.go:16-28 | the empty text is not an error; any other text is an error carrying that text; pkg/screen/ui.go:15-27 is the same code |
| CliNavigation.GoHalf | pkg/cli/directoryManagement.go:143-144 | Go's `n / 2`, truncating toward zero for either sign |
| CliNavigation.Moved | pkg/cli/directoryManagement.go:154-182 | the cursor moves by one when it can and stays at either end; `Sticky` is preserved; with no move possible a `Sticky` state is unchanged |
| CliNavigation.StickyEdges | pkg/cli/directoryManagement.go:173-181 | at row dirHeight−2 (one above the last listing row, which shows the entry after the cursor) or the top listing row the highlight stays and the window scrolls; elsewhere the highlight follows the cursor |
| CliNavigation.DownRepeatedly | pkg/cli/directoryManagement.go:155-161 | k Down moves put the cursor at min(position + k, last index) and keep `Sticky` |
| CliNavigation.Landing | pkg/cli/directoryManagement.go:142-148 | the highlighted row is the cursor entry in both branches; `Sticky` holds for a valid index and a listing of at least three rows |
| CliNavigation.Traversed | pkg/cli/directoryManagement.go:105-151 | no new value iff the target is unreadable; otherwise the target's listing with the cursor on the index of the position path, satisfying `Sticky` |
| CliNavigation.ReadTarget | pkg/cli/directoryManagement.go:109-126 | the directory to read per direction: the own path for Refresh and Jump, the parent positioned on the own path for Backwards, the selected entry (or the empty path) for Forwards; only Backwards has a position path |
| CliNavigation.ForwardsWithoutSelection | pkg/cli/directoryManagement.go:118-130 | with no entry under the cursor, Forwards reads the empty path and, when that names no directory, writes nothing |
| CliNavigation.RefreshIdempotent | pkg/cli/directoryManagement.go:111-112 | a second Refresh on an unchanged filesystem gives the same `Dir` value |
| CliNavigation.Refreshed | pkg/cli/directoryManagement.go:251-252 | a refresh that ignores its error keeps the path and `Sticky`, re-reads the listing, and changes nothing when the read fails |
| CliNavigation.BackwardsReturnsToDirectoryLeft | pkg/cli/directoryManagement.go:115-117 | going back puts the cursor on the entry of the directory just left |
| CliNavigation.RefreshResetsView | pkg/cli/directoryManagement.go:111-114 | Refresh and Jump reset to position 0, window 0, highlight on the first listing row |
| CliNavigation.EnterThenLeave | pkg/cli/directoryManagement.go:115-125 | entering the selected child and going back restores the listing and the cursor |
| CliNavigation.Matching | pkg/cli/directoryManagement.go:188-199 | the kept entries are exactly the entries whose lower-cased name contains the query |
| CliNavigation.MatchingAppend | pkg/cli/directoryManagement.go:188-192 | filtering distributes over concatenation, so it preserves order |
| CliNavigation.MatchingEmptyQuery | pkg/cli/directoryManagement.go:189 | the empty query keeps every entry, in order |
| CliNavigation.MatchingIdempotent | pkg/cli/directoryManagement.go:184-211 | filtering the filtered entries again changes nothing |
| CliNavigation.Filtered | pkg/cli/directoryManagement.go:184-213 | the filtered value lists the matching entries under the base path, resets cursor and window to 0 with the highlight on the first listing row, and satisfies `Sticky` for every height of at least three |
| CliNavigation.Initial | pkg/cli/directoryManagement.go:60-72 | the start value is the read of the start directory with window 0 and highlight on the first listing row |
| CliNavigation.InitialIsSticky | pkg/cli/directoryManagement.go:65-72 | the start value has cursor 0 and satisfies `Sticky` when no child joins to the directory's own path |
| CliUi.Ui.constructor | pkg/cli/ui.go:61-75 | the listing height starts at ymax - 3, with an empty search line and no pending confirmation |
| CliUi.FormatName | pkg/cli/ui.go:143-151 | a "/" is appended iff the name has no '.' |
| CliUi.DrawText | pkg/cli/ui.go:113-134 | row 0 always shows the path; every other drawn row is a listing row whose entry index is an entry |
| CliUi.HighlightShowsCursor | pkg/cli/ui.go:113-134 | under `Sticky`, row 0 shows the path, the highlighted row shows the cursor entry, and no other row is highlighted |
| CliUi.VisibleWindow | pkg/cli/ui.go:121-134 | a listing row is drawn iff its entry index is below the number of entries, showing that entry; only listing rows and row 0 are drawn |
| CliDirectory.CreateKind | pkg/cli/directoryManagement.go:234-249 | a directory is made iff the name has no '.' |
| CliDirectory.EditorArgs | pkg/cli/directoryManagement.go:279-287 | the editor runs iff the path has a '.'; its arguments are `--new-window` and the path when a new window is asked for, the path alone otherwise |
| CliDirectory.Dir.constructor | pkg/cli/directoryManagement.go:26-35 | the placeholder `Dir`: path "path", no entries, all counters 0 |
| CliDirectory.Dir.InitDir | pkg/cli/directoryManagement.go:38-73 | fails iff there is no start directory or it is unreadable; otherwise a fresh `Dir` holding `Initial` |
| CliDirectory.Dir.Traverse | pkg/cli/directoryManagement.go:105-151 | clears the search line; writes `Traversed` of the receiver into `dir`, or nothing on a failed read |
| CliDirectory.Dir.UpDown | pkg/cli/directoryManagement.go:154-171 | the new value is `Moved` of the old one |
| CliDirectory.Dir.HandleScroll | pkg/cli/directoryManagement.go:173-182 | the new value is the scroll step of the old one |
| CliDirectory.Dir.Filter | pkg/cli/directoryManagement.go:184-213 | the new value is `Filtered` of the base `Dir` |
| CliDirectory.JumpToDirectory | pkg/cli/directoryManagement.go:215-232 | the jump target is built from home and the text after "/ "; on success `dir` holds its listing; on failure `dir` keeps its listing under the new path and the search line becomes "/" |
| CliDirectory.Dir.Create | pkg/cli/directoryManagement.go:234-253 | the entry kind and joined path, a cleared search line, and the refreshed value |
| CliDirectory.Dir.Delete | pkg/cli/directoryManagement.go:255-258 | enters confirmation mode with the prompt on the search line |
| CliDirectory.Dir.ConfirmDelete | pkg/cli/directoryManagement.go:260-271 | removes the cursor entry's path, leaves confirmation mode and refreshes |
| CliDirectory.Dir.CancelDelete | pkg/cli/directoryManagement.go:273-276 | leaves confirmation mode with an empty search line |
| CliDirectory.Dir.Open | pkg/cli/directoryManagement.go:278-298 | the editor command for the cursor entry, none iff its path has no '.' |
| CliControls.IsRunningCommand | pkg/cli/controls.go:22-31 | on a non-empty line, true iff the line starts with '/' or a delete awaits its answer |
| CliControls.FilterActive | pkg/cli/controls.go:35-38 | the filtered `Dir` is active iff the line is non-empty, does not start with '/', and no delete is pending |
| CliControls.ActiveView | pkg/cli/ui.go:167-173 | the shown `Dir` is the filtered one exactly when the filter is active |
| CliControls.TypingKeepsFilter | pkg/cli/controls.go:68-75 | a first character other than '/' starts filtering; typing on a filter keeps it; a '/' line never filters |
| CliControls.EnterCommand | pkg/cli/controls.go:86-101 | the empty line opens; first word "/" jumps, "/n" creates the second word, "/d" deletes; any other line does nothing; every command starts with '/' |
| CliControls.EnterWhileFiltering | pkg/cli/controls.go:86-101 | Enter on a filter text is safe and does nothing |
| CliControls.CreateCommandNamesEntry | pkg/cli/controls.go:87-94 | Enter on "/n " + a name without spaces creates exactly that name |
| CliControls.Controls | pkg/cli/controls.go:33-139 | one event: Escape and only Escape exits; in confirmation mode only y and n act; each key's effect on both `Dir`s and the `Ui`; only Escape, Home, Enter and y ask anything of the outside; the screen size changes only on a resize; `Sticky` kept for both `Dir`s on every event but a resize |
| CliControls.Normal | pkg/cli/controls.go:43-108 | the normal-mode keys on the active `Dir`; Left and Right write into the real `Dir`; the screen size changes only on a resize |
| CliControls.Enter | pkg/cli/controls.go:86-101 | Enter dispatches by `EnterCommand` to open, jump, create or delete, leaving the sizes alone |
| ScreenNavigation.Moved | pkg/screen/directoryManagement.go:127-153 | the cursor moves by one when it can and stays at either end; `Aligned` is preserved; with no move possible an `Aligned` state is unchanged |
| ScreenNavigation.WindowEdges | pkg/screen/directoryManagement.go:144-151 | at row ymax-3 Down scrolls with the highlight pinned; at row 0 Up scrolls back; elsewhere the highlight follows |
| ScreenNavigation.Landed | pkg/screen/directoryManagement.go:116-122 | as written: both branches keep the highlight on the cursor entry |
| ScreenNavigation.LandedBreaksAlignment | pkg/screen/directoryManagement.go:116-122 | as written, index 8 on a 10-row screen leaves the highlight below the bound, and the next Down breaks the cursor equation |
| ScreenNavigation.LandedInView | pkg/screen/directoryManagement.go:116-122 | with threshold ymax-3 the result is `Aligned` for every valid index |
| ScreenNavigation.LandedAgreesOutsideGap | pkg/screen/directoryManagement.go:116-122 | the two repositionings agree iff the index is outside indices ymax−2..ymax, where the written one breaks `Aligned` |
| ScreenNavigation.ContentsTarget | pkg/screen/directoryManagement.go:88-103 | Backwards reads the parent positioned on the own path; any other direction reads the selected entry, or the own path when none is selected, with no position path |
| ScreenNavigation.Updated | pkg/screen/directoryManagement.go:86-125 | as written: no new value iff the target is unreadable; otherwise the target's listing with the highlighted row on the cursor entry, `Aligned` unless the found index is in indices ymax−2..ymax |
| ScreenNavigation.UpdatedInView | pkg/screen/directoryManagement.go:86-125 | corrected: the same read with threshold ymax-3, `Aligned` for every found index |
| ScreenNavigation.UpdatedAgreesOutsideGap | pkg/screen/directoryManagement.go:116-122 | the program and its correction fail together and write the same value unless the found index is in indices ymax−2..ymax |
| ScreenNavigation.BackwardsReturnsToDirectoryLeft | pkg/screen/directoryManagement.go:98-101 | going back puts the cursor on the entry of the directory just left |
| ScreenNavigation.Initial | pkg/screen/directoryManagement.go:44-55 | the start value is the read of the start directory with window and highlight at row 0 |
| ScreenNavigation.InitialIsAligned | pkg/screen/directoryManagement.go:44-55 | the start value has cursor 0 and is `Aligned` when no child joins to the directory's own path |
| ScreenUi.Ui.constructor | pkg/screen/ui.go:56-67 | the listing height starts at ymax - 1 |
| ScreenUi.DrawText | pkg/screen/ui.go:105-122 | only rows 0 to len(files)-1 are drawn, whatever the screen height |
| ScreenUi.VisibleWindow | pkg/screen/ui.go:107-120 | a row is drawn iff its entry index is an entry, showing that entry's full path, highlighted iff it is the highlight row |
| ScreenUi.HighlightShowsCursor | pkg/screen/ui.go:109-118 | under `Aligned`, the highlighted row shows the cursor entry's path and no other row is highlighted |
| ScreenDirectory.Dir.constructor | pkg/screen/directoryManagement.go:49-55 | a `Dir` record holding the given value |
| ScreenDirectory.Dir.NewDir | pkg/screen/directoryManagement.go:23-56 | fails iff there is no start directory or it is unreadable; otherwise a fresh `Dir` holding `Initial` |
| ScreenDirectory.Dir.UpdateDirectoryContents | pkg/screen/directoryManagement.go:86-125 | writes `Updated` (the comparison with ymax as written), or nothing on a failed read |
| ScreenDirectory.Dir.UpdateDirectoryPosition | pkg/screen/directoryManagement.go:127-142 | the new value is `Moved` of the old one |
| ScreenDirectory.Dir.HandleScroll | pkg/screen/directoryManagement.go:144-153 | the new value is the scroll step of the old one |

## Left out

- Terminal I/O (tcell screens, styles, cell writes, background and border fills, the
  search-bar drawing) and the event loops of `InitUi` and `GetUi` are not modelled. An
  `Event` value stands in for `PollEvent`. What leaves the program is an `Effect` value:
  exit, launch the editor, make an entry, or remove an entry.
- Filesystem and process effects are parameters. `os.Open`/`Readdir` become the
  `FileSystem` map, and `os.Getwd` an optional `cwd`. `os.UserHomeDir` becomes `home`;
  its failure gives the empty string, as in Go. `os.Mkdir`/`Create`/`Remove` are
  returned as effects. For `Create` and `ConfirmDelete`, `fs` is the filesystem as it
  reads afterwards. `exec.Command("code", …)` is the `EditorArgs` value.
- The library functions `filepath.Join`, `filepath.Dir`, `path.Join`, `filepath.ToSlash`
  and `strings.ToLower` are uninterpreted. Lemmas that need a fact about them take it as
  a hypothesis.
- The goroutine and channel inside `Filter` are not modelled. With one producer they
  behave as the sequential loop the model uses.
- Logging through `fmt.Println` and the redirection of stdout and stderr to log files are
  left out, as is `cmd/main.go`.
- `pkg/screen/controls.go` is not part of this model. Its dispatch repeats the cli
  arrow-key handling, and its append/backspace logic is covered by `CliControls.Controls`.
- The `topOffset` field of the cli `Dir` is the constant `TopOffset`. Every `Dir` of the
  package is built with 1 and no code changes it. The two `NewDir` placeholders have
  highlight 0 and so do not satisfy `Sticky`; each is discarded once InitDir returns.
- CliControls.Controls: search characters are `char`s. Backspace drops the last
  character, where Go drops the last byte of the UTF-8 text.
- CliControls.Controls: a resize only promises the new sizes. `Sticky` can fail after one,
  because the height becomes `h - 1`.
- Text.Split: separators are a single character, which is all the browser uses.

## Findings

| source | as written | input that shows it | evidently intended | confidence | as-written member | corrected member |
|---|---|---|---|---|---|---|
| pkg/screen/directoryManagement.go:116 | after a directory change, the window starts at the found index only when `positionIndex > ui.ymax`; otherwise the highlight goes on row `positionIndex`, even past row `ymax - 3`, the last row the scroll logic keeps the highlight on | ymax = 10, 20 entries, going back to the entry at index 8: highlight row 8; the next Down gives position 9, drawBeginning 1, highlight 7, so the highlighted row no longer shows the cursor | threshold `ymax - 3`, as the cli package uses `dirHeight - 3` | not executed | ScreenNavigation.LandedBreaksAlignment | ScreenNavigation.UpdatedInView |
