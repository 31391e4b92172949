/** The input handling of the cli package: the search line doubles as a filter and as a
    command line ("/ path", "/n name", "/d"), a delete waits for a y/n answer, and each
    event drives one transition of the two Dir records and the Ui. Terminal polling is
    replaced by an Event value; what the transition asks of the outside world (exit,
    launch the editor, make or remove an entry) is returned as an Effect. */
module CliControls {
  import opened Listing
  import Text
  import opened CliNavigation
  import opened CliUi
  import opened CliDirectory

  /** IsRunningCommand: the search line holds a command, or a delete is waiting for its
      answer. Go indexes the first byte, so the line must not be empty. */
  function IsRunningCommand(searchInput: string, confirm: bool): (r: bool)
    requires |searchInput| > 0
    ensures r <==> searchInput[0] == '/' || !confirm
  {
    var splitInput := Text.Split(searchInput, ' ');
    assert splitInput[0] <= searchInput;
    assert splitInput[0] == "/n" || splitInput[0] == "/d" ==> searchInput[0] == '/';
    (searchInput[0] == '/' && |splitInput| > 0) || splitInput[0] == "/n" || splitInput[0] == "/d" || !confirm
  }

  /** Whether the filtered Dir is the one keys act on and the screen shows: exactly when
      the search line is a non-empty filter text outside the confirmation state. */
  function FilterActive(searchInput: string, confirm: bool): (r: bool)
    ensures r <==> |searchInput| > 0 && searchInput[0] != '/' && confirm
  {
    |searchInput| > 0 && !IsRunningCommand(searchInput, confirm)
  }

  /** The value of the Dir that keys act on and drawDir shows: the filtered Dir while the
      search line is plain filter text, the real Dir otherwise. */
  function ActiveView(searchInput: string, confirm: bool, dir: View, filtered: View): (r: View)
    ensures r == if |searchInput| > 0 && searchInput[0] != '/' && confirm then filtered else dir
  {
    if FilterActive(searchInput, confirm) then filtered else dir
  }

  /** Typing a character other than '/' on an empty search line starts filtering, and
      typing on a filter text keeps filtering; a line starting with '/' never filters. */
  lemma TypingKeepsFilter(searchInput: string, c: char, confirm: bool)
    requires confirm
    ensures searchInput == "" ==> (FilterActive(searchInput + [c], confirm) <==> c != '/')
    ensures FilterActive(searchInput, confirm) ==> FilterActive(searchInput + [c], confirm)
    ensures |searchInput| > 0 && searchInput[0] == '/' ==> !FilterActive(searchInput + [c], confirm)
  {
  }

  /** What Enter does with the search line. */
  datatype Command = JumpTo | CreateEntry(name: string) | DeleteEntry | OpenEntry | NoCommand

  /** The search lines on which Enter does not panic: a jump needs the text after "/ "
      (a bare "/" slices past its end) and "/n" needs a second word. */
  predicate EnterIsSafe(searchInput: string)
  {
    var split := Text.Split(searchInput, ' ');
    (split[0] == "/" ==> |searchInput| >= 2) && (split[0] == "/n" ==> |split| >= 2)
  }

  /** Enter: an empty line opens the entry under the cursor; a line whose first word is
      "/", "/n" or "/d" jumps, creates the second word or asks to delete; any other line
      does nothing. Every command starts with '/'. */
  function EnterCommand(searchInput: string): (c: Command)
    requires EnterIsSafe(searchInput)
    ensures c == OpenEntry <==> searchInput == ""
    ensures c == NoCommand <==>
      searchInput != "" && Text.Split(searchInput, ' ')[0] !in {"/", "/n", "/d"}
    ensures c != OpenEntry && c != NoCommand ==> searchInput[0] == '/'
    ensures Text.Split(searchInput, ' ')[0] == "/" ==> c == JumpTo
    ensures Text.Split(searchInput, ' ')[0] == "/n" ==> c == CreateEntry(Text.Split(searchInput, ' ')[1])
    ensures Text.Split(searchInput, ' ')[0] == "/d" ==> c == DeleteEntry
  {
    var split := Text.Split(searchInput, ' ');
    assert split[0] <= searchInput;
    if |searchInput| > 0 then
      if split[0] == "/" then JumpTo
      else if split[0] == "/n" then CreateEntry(split[1])
      else if split[0] == "/d" then DeleteEntry
      else NoCommand
    else OpenEntry
  }

  /** While the filter is active Enter is safe and does nothing: no filter text is a
      command. */
  lemma EnterWhileFiltering(searchInput: string, confirm: bool)
    requires FilterActive(searchInput, confirm)
    ensures EnterIsSafe(searchInput) && EnterCommand(searchInput) == NoCommand
  {
    assert Text.Split(searchInput, ' ')[0] <= searchInput;
  }

  /** Typing "/n " and a name without spaces makes Enter create exactly that name. */
  lemma {:induction false} CreateCommandNamesEntry(name: string)
    requires ' ' !in name
    ensures EnterIsSafe("/n " + name) && EnterCommand("/n " + name) == CreateEntry(name)
  {
    assert "/n " + name == "/n" + [' '] + name;
    Text.SplitAfterWord("/n", ' ', name);
    Text.SplitSingle(name, ' ');
    Text.JoinSplit(name, ' ');
    assert Text.Split(name, ' ') == [name];
  }

  datatype Key = KeyUp | KeyDown | KeyEscape | KeyLeft | KeyRight | KeyRune(ch: char)
               | KeyBackspace | KeyEnter | KeyHome | KeyOther

  datatype Event = Resize(width: int, height: int) | KeyPress(key: Key) | OtherEvent

  /** What a transition asks of the outside world. */
  datatype Effect = Continue | Exit | LaunchEditor(args: seq<string>)
                  | MakeEntry(kind: Kind, path: string) | RemoveEntry(path: string)

  function EditorEffect(args: Option<seq<string>>): Effect
  {
    if args.Some? then LaunchEditor(args.value) else Continue
  }

  /** The events on which controls does not panic: Enter on a malformed command, and
      opening or deleting with no entry under the cursor, index out of range in Go. */
  predicate Safe(ev: Event, searchInput: string, confirm: bool, active: View, dir: View)
  {
    match ev
    case KeyPress(k) =>
      if confirm then
        && (k == KeyEnter ==> EnterIsSafe(searchInput))
        && ((k == KeyEnter && searchInput == "") || k == KeyHome ==>
              0 <= active.position < |active.files|)
      else
        k == KeyRune('y') ==> 0 <= dir.position < |dir.files|
    case _ => true
  }

  /** controls, for one event: `dir` is the real Dir, `filteredDir` the filtered one,
      `fs` the filesystem as the reads of this transition see it, `home` the home
      directory. */
  method Controls(ui: Ui, dir: Dir, filteredDir: Dir, ev: Event, fs: FileSystem, host: Host, home: string)
    returns (effect: Effect)
    requires dir != filteredDir
    requires Safe(ev, ui.searchInput, ui.confirm,
                  ActiveView(ui.searchInput, ui.confirm, dir.State(), filteredDir.State()), dir.State())
    modifies ui, dir, filteredDir
    // Escape quits, in either mode, and nothing else does.
    ensures effect == Exit <==> ev == KeyPress(KeyEscape)
    ensures ev == KeyPress(KeyEscape) ==> unchanged(ui) && unchanged(dir) && unchanged(filteredDir)
    // Waiting for a delete answer: only 'n' and 'y' act, never on the cursor.
    ensures !old(ui.confirm) && ev != KeyPress(KeyRune('n')) && ev != KeyPress(KeyRune('y')) ==>
      unchanged(ui) && unchanged(dir) && unchanged(filteredDir)
    ensures !old(ui.confirm) && ev == KeyPress(KeyRune('n')) ==>
      ui.confirm && ui.searchInput == "" && ui.dirHeight == old(ui.dirHeight) &&
      unchanged(dir) && unchanged(filteredDir) && effect == Continue
    ensures !old(ui.confirm) && ev == KeyPress(KeyRune('y')) ==>
      ui.confirm && ui.searchInput == "" && ui.dirHeight == old(ui.dirHeight) && unchanged(filteredDir) &&
      effect == RemoveEntry(old(dir.files[dir.position].path)) &&
      dir.State() == Refreshed(old(dir.State()), ui.dirHeight, fs, host)
    // Normal mode.
    ensures old(ui.confirm) && ev.Resize? ==>
      ui.xmax == ev.width && ui.ymax == ev.height && ui.dirHeight == ev.height - 1 &&
      ui.searchInput == old(ui.searchInput) && ui.confirm &&
      unchanged(dir) && unchanged(filteredDir)
    ensures old(ui.confirm) && ev.KeyPress? && ev.key in {KeyUp, KeyDown} ==>
      unchanged(ui) && effect == Continue &&
      if old(FilterActive(ui.searchInput, ui.confirm)) then
        unchanged(dir) &&
        filteredDir.State() == Moved(old(filteredDir.State()), if ev.key == KeyUp then Up else Down, ui.dirHeight)
      else
        unchanged(filteredDir) &&
        dir.State() == Moved(old(dir.State()), if ev.key == KeyUp then Up else Down, ui.dirHeight)
    ensures old(ui.confirm) && ev.KeyPress? && ev.key in {KeyLeft, KeyRight} ==>
      ui.searchInput == "" && ui.confirm && ui.dirHeight == old(ui.dirHeight) && unchanged(filteredDir) &&
      var out := Traversed(
        old(ActiveView(ui.searchInput, ui.confirm, dir.State(), filteredDir.State())),
        if ev.key == KeyLeft then Backwards else Forwards, ui.dirHeight, fs, host);
      dir.State() == if out.Some? then out.value else old(dir.State())
    ensures old(ui.confirm) && ev.KeyPress? && ev.key.KeyRune? ==>
      ui.searchInput == old(ui.searchInput) + [ev.key.ch] && ui.confirm && ui.dirHeight == old(ui.dirHeight) &&
      unchanged(dir) && filteredDir.State() == Filtered(old(dir.State()), ui.searchInput, host.lower)
    ensures old(ui.confirm) && ev == KeyPress(KeyBackspace) ==>
      ui.searchInput == (if old(ui.searchInput) == "" then "" else old(ui.searchInput)[..|old(ui.searchInput)| - 1]) &&
      ui.confirm && ui.dirHeight == old(ui.dirHeight) &&
      unchanged(dir) && filteredDir.State() == Filtered(old(dir.State()), ui.searchInput, host.lower)
    ensures old(ui.confirm) && ev == KeyPress(KeyHome) ==>
      unchanged(ui) && unchanged(dir) && unchanged(filteredDir) &&
      var active := old(ActiveView(ui.searchInput, ui.confirm, dir.State(), filteredDir.State()));
      effect == EditorEffect(EditorArgs(active.files[active.position].path, "same"))
    ensures old(ui.confirm) && ev == KeyPress(KeyEnter) ==>
      ui.dirHeight == old(ui.dirHeight) && unchanged(filteredDir) &&
      match EnterCommand(old(ui.searchInput))
      case OpenEntry =>
        unchanged(ui) && unchanged(dir) &&
        effect == EditorEffect(EditorArgs(old(dir.files[dir.position].path), "new"))
      case NoCommand => unchanged(ui) && unchanged(dir) && effect == Continue
      case DeleteEntry =>
        !ui.confirm && ui.searchInput == "Confirm delete y/n" && unchanged(dir) && effect == Continue
      case CreateEntry(name) =>
        ui.confirm && ui.searchInput == "" && effect == MakeEntry(CreateKind(name), host.slashJoin([old(dir.path), name])) &&
        dir.State() == Refreshed(old(dir.State()), ui.dirHeight, fs, host)
      case JumpTo =>
        ui.confirm && effect == Continue &&
        var target := host.toSlash(host.slashJoin([home, "/", old(ui.searchInput)[2..]]));
        var out := Traversed(old(dir.State()).(path := target), Jump, ui.dirHeight, fs, host);
        if out.Some? then dir.State() == out.value && ui.searchInput == ""
        else dir.State() == old(dir.State()).(path := target) && ui.searchInput == "/"
    // The navigation invariant of both Dirs survives every event but a resize.
    ensures old(ui.confirm) && (ev.OtherEvent? || ev == KeyPress(KeyOther)) ==>
      unchanged(ui) && unchanged(dir) && unchanged(filteredDir)
    // Only Escape, Home and Enter (and 'y' while confirming) ask anything of the outside.
    ensures old(ui.confirm) && ev != KeyPress(KeyEscape) && ev != KeyPress(KeyHome) && ev != KeyPress(KeyEnter) ==>
      effect == Continue
    ensures !old(ui.confirm) && ev != KeyPress(KeyEscape) && ev != KeyPress(KeyRune('y')) ==>
      effect == Continue
    // The screen size changes only on a resize.
    ensures ev.Resize? || (ui.xmax == old(ui.xmax) && ui.ymax == old(ui.ymax))
    ensures !ev.Resize? && Sticky(old(dir.State()), old(ui.dirHeight)) && Sticky(old(filteredDir.State()), old(ui.dirHeight)) ==>
      Sticky(dir.State(), ui.dirHeight) && Sticky(filteredDir.State(), ui.dirHeight)
  {
    var activeDir := dir;
    if |ui.searchInput| > 0 && !IsRunningCommand(ui.searchInput, ui.confirm) {
      activeDir := filteredDir;
    }
    effect := Continue;
    if ui.confirm {
      effect := Normal(ui, dir, filteredDir, activeDir, ev, fs, host, home);
    } else {
      if ev == KeyPress(KeyRune('n')) {
        dir.CancelDelete(ui);
      } else if ev == KeyPress(KeyRune('y')) {
        var removed := dir.ConfirmDelete(ui, fs, host);
        effect := RemoveEntry(removed);
      } else if ev == KeyPress(KeyEscape) {
        effect := Exit;
      }
    }
  }

  /** The normal-mode half of controls. */
  method Normal(ui: Ui, dir: Dir, filteredDir: Dir, activeDir: Dir, ev: Event, fs: FileSystem, host: Host, home: string)
    returns (effect: Effect)
    requires dir != filteredDir && ui.confirm
    requires activeDir == if FilterActive(ui.searchInput, ui.confirm) then filteredDir else dir
    requires Safe(ev, ui.searchInput, ui.confirm, activeDir.State(), dir.State())
    modifies ui, dir, filteredDir
    ensures effect == Exit <==> ev == KeyPress(KeyEscape)
    ensures ev == KeyPress(KeyEscape) ==> unchanged(ui) && unchanged(dir) && unchanged(filteredDir)
    ensures ev.Resize? ==>
      ui.xmax == ev.width && ui.ymax == ev.height && ui.dirHeight == ev.height - 1 &&
      ui.searchInput == old(ui.searchInput) && ui.confirm &&
      unchanged(dir) && unchanged(filteredDir)
    ensures ev.KeyPress? && ev.key in {KeyUp, KeyDown} ==>
      unchanged(ui) && effect == Continue &&
      (activeDir == filteredDir ==> unchanged(dir)) &&
      (activeDir == dir ==> unchanged(filteredDir)) &&
      activeDir.State() == Moved(old(activeDir.State()), if ev.key == KeyUp then Up else Down, ui.dirHeight)
    ensures ev.KeyPress? && ev.key in {KeyLeft, KeyRight} ==>
      ui.searchInput == "" && ui.confirm && ui.dirHeight == old(ui.dirHeight) && unchanged(filteredDir) &&
      var out := Traversed(old(activeDir.State()), if ev.key == KeyLeft then Backwards else Forwards, ui.dirHeight, fs, host);
      dir.State() == if out.Some? then out.value else old(dir.State())
    ensures ev.KeyPress? && ev.key.KeyRune? ==>
      ui.searchInput == old(ui.searchInput) + [ev.key.ch] && ui.confirm && ui.dirHeight == old(ui.dirHeight) &&
      unchanged(dir) && filteredDir.State() == Filtered(old(dir.State()), ui.searchInput, host.lower)
    ensures ev == KeyPress(KeyBackspace) ==>
      ui.searchInput == (if old(ui.searchInput) == "" then "" else old(ui.searchInput)[..|old(ui.searchInput)| - 1]) &&
      ui.confirm && ui.dirHeight == old(ui.dirHeight) &&
      unchanged(dir) && filteredDir.State() == Filtered(old(dir.State()), ui.searchInput, host.lower)
    ensures ev == KeyPress(KeyHome) ==>
      unchanged(ui) && unchanged(dir) && unchanged(filteredDir) &&
      effect == EditorEffect(EditorArgs(old(activeDir.files[activeDir.position].path), "same"))
    ensures ev == KeyPress(KeyEnter) ==>
      ui.dirHeight == old(ui.dirHeight) && unchanged(filteredDir) &&
      match EnterCommand(old(ui.searchInput))
      case OpenEntry =>
        unchanged(ui) && unchanged(dir) &&
        effect == EditorEffect(EditorArgs(old(dir.files[dir.position].path), "new"))
      case NoCommand => unchanged(ui) && unchanged(dir) && effect == Continue
      case DeleteEntry =>
        !ui.confirm && ui.searchInput == "Confirm delete y/n" && unchanged(dir) && effect == Continue
      case CreateEntry(name) =>
        ui.confirm && ui.searchInput == "" && effect == MakeEntry(CreateKind(name), host.slashJoin([old(dir.path), name])) &&
        dir.State() == Refreshed(old(dir.State()), ui.dirHeight, fs, host)
      case JumpTo =>
        ui.confirm && effect == Continue &&
        var target := host.toSlash(host.slashJoin([home, "/", old(ui.searchInput)[2..]]));
        var out := Traversed(old(dir.State()).(path := target), Jump, ui.dirHeight, fs, host);
        if out.Some? then dir.State() == out.value && ui.searchInput == ""
        else dir.State() == old(dir.State()).(path := target) && ui.searchInput == "/"
    ensures ev != KeyPress(KeyEscape) && ev != KeyPress(KeyHome) && ev != KeyPress(KeyEnter) ==>
      effect == Continue
    ensures ev.Resize? || (ui.xmax == old(ui.xmax) && ui.ymax == old(ui.ymax))
    ensures ev.OtherEvent? || ev == KeyPress(KeyOther) ==>
      unchanged(ui) && unchanged(dir) && unchanged(filteredDir) && effect == Continue
  {
    effect := Continue;
    match ev
    case Resize(w, h) =>
      ui.xmax := w;
      ui.ymax := h;
      ui.dirHeight := h - 1;
    case KeyPress(k) => {
      match k
      case KeyUp => activeDir.UpDown(Up, ui);
      case KeyDown => activeDir.UpDown(Down, ui);
      case KeyEscape => effect := Exit;
      case KeyLeft => var _ := activeDir.Traverse(Backwards, ui, dir, fs, host);
      case KeyRight => var _ := activeDir.Traverse(Forwards, ui, dir, fs, host);
      case KeyRune(c) =>
        ui.searchInput := ui.searchInput + [c];
        filteredDir.Filter(dir, ui.searchInput, host);
      case KeyBackspace =>
        if |ui.searchInput| > 0 {
          ui.searchInput := ui.searchInput[..|ui.searchInput| - 1];
        }
        filteredDir.Filter(dir, ui.searchInput, host);
      case KeyEnter =>
        effect := Enter(ui, dir, fs, host, home);
      case KeyHome =>
        var args := activeDir.Open("same");
        effect := EditorEffect(args);
      case KeyOther =>
    }
    case OtherEvent =>
  }

  /** Enter in normal mode. With an empty search line the filter is off, so the entry
      opened is the one under the real Dir's cursor. */
  method Enter(ui: Ui, dir: Dir, fs: FileSystem, host: Host, home: string) returns (effect: Effect)
    requires ui.confirm && EnterIsSafe(ui.searchInput)
    requires ui.searchInput == "" ==> 0 <= dir.position < |dir.files|
    modifies ui, dir
    ensures ui.dirHeight == old(ui.dirHeight) && ui.xmax == old(ui.xmax) && ui.ymax == old(ui.ymax)
    ensures match EnterCommand(old(ui.searchInput))
      case OpenEntry =>
        unchanged(ui) && unchanged(dir) &&
        effect == EditorEffect(EditorArgs(old(dir.files[dir.position].path), "new"))
      case NoCommand => unchanged(ui) && unchanged(dir) && effect == Continue
      case DeleteEntry =>
        !ui.confirm && ui.searchInput == "Confirm delete y/n" && unchanged(dir) && effect == Continue
      case CreateEntry(name) =>
        ui.confirm && ui.searchInput == "" && effect == MakeEntry(CreateKind(name), host.slashJoin([old(dir.path), name])) &&
        dir.State() == Refreshed(old(dir.State()), ui.dirHeight, fs, host)
      case JumpTo =>
        ui.confirm && effect == Continue &&
        var target := host.toSlash(host.slashJoin([home, "/", old(ui.searchInput)[2..]]));
        var out := Traversed(old(dir.State()).(path := target), Jump, ui.dirHeight, fs, host);
        if out.Some? then dir.State() == out.value && ui.searchInput == ""
        else dir.State() == old(dir.State()).(path := target) && ui.searchInput == "/"
  {
    effect := Continue;
    var split := Text.Split(ui.searchInput, ' ');
    if |ui.searchInput| > 0 {
      if split[0] == "/" {
        JumpToDirectory(ui, dir, home, fs, host);
      } else if split[0] == "/n" {
        var kind, newPath := dir.Create(split[1], ui, fs, host);
        effect := MakeEntry(kind, newPath);
      } else if split[0] == "/d" {
        dir.Delete(ui);
      }
    } else {
      var args := dir.Open("new");
      effect := EditorEffect(args);
    }
  }
}
