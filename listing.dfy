/** What both versions of the browser (packages cli and screen) share: the record of one
    directory entry, the value of a Dir record, the filesystem as the browser sees it,
    and the directory read that turns a path into an ordered listing. */
module Listing {

  datatype Option<T> = None | Some(value: T)

  /** One child of a directory: its bare name and the path joined from the directory. */
  datatype File = File(name: string, path: string)

  /** The value of a Dir record: the directory shown, its entries, the cursor
      (`position`), the scroll offset (`drawBeginning`) and the screen row of the
      highlight (`highlightIndex`). */
  datatype View = View(
    path: string,
    files: seq<File>,
    position: int,
    drawBeginning: int,
    highlightIndex: int)

  /** The filesystem as a directory read sees it: the child names a path enumerates
      to, in enumeration order. A path that is not a key cannot be opened or read. */
  type FileSystem = map<string, seq<string>>

  /** The library functions the browser calls and this model leaves uninterpreted:
      filepath.Join, filepath.Dir, strings.ToLower, path.Join and filepath.ToSlash. */
  datatype Host = Host(
    join: (string, string) -> string,
    dir: string -> string,
    lower: string -> string,
    slashJoin: seq<string> -> string,
    toSlash: string -> string)

  /** The entries built for the child `names` of directory `dir`, one per name and in
      the same order, each keeping its name and carrying the joined path. */
  function Entries(dir: string, names: seq<string>, join: (string, string) -> string): (r: seq<File>)
    ensures |r| == |names|
    ensures forall i :: 0 <= i < |names| ==> r[i] == File(names[i], join(dir, names[i]))
  {
    if names == [] then []
    else
      var last := names[|names| - 1];
      Entries(dir, names[..|names| - 1], join) + [File(last, join(dir, last))]
  }

  /** The index of the entry whose path is `target`, the last one if several match,
      and 0 when none does. */
  function IndexOfPath(files: seq<File>, target: string): (r: int)
    ensures 0 <= r && (r == 0 || r < |files|)
    ensures (exists i :: 0 <= i < |files| && files[i].path == target) ==>
              r < |files| && files[r].path == target &&
              forall j :: r < j < |files| ==> files[j].path != target
    ensures (forall i :: 0 <= i < |files| ==> files[i].path != target) ==> r == 0
  {
    if files == [] then 0
    else if files[|files| - 1].path == target then |files| - 1
    else
      var r := IndexOfPath(files[..|files| - 1], target);
      assert forall i :: 0 <= i < |files| - 1 ==> files[..|files| - 1][i] == files[i];
      r
  }

  /** Reads directory `path`: the listing with the index of `positionPath` in it, or,
      when the directory cannot be opened or enumerated, the zero values and an error. */
  method ReadDir(fs: FileSystem, host: Host, path: string, positionPath: string)
    returns (dirPath: string, files: seq<File>, positionIndex: int, err: bool)
    ensures err <==> path !in fs
    ensures err ==> dirPath == "" && files == [] && positionIndex == 0
    ensures !err ==> dirPath == path
    ensures !err ==> files == Entries(path, fs[path], host.join)
    ensures !err ==> positionIndex == IndexOfPath(files, positionPath)
  {
    if path !in fs {
      return "", [], 0, true;
    }
    var contents := fs[path];
    files, positionIndex := [], 0;
    for i := 0 to |contents|
      invariant files == Entries(path, contents[..i], host.join)
      invariant positionIndex == IndexOfPath(files, positionPath)
    {
      var filePath := host.join(path, contents[i]);
      files := files + [File(contents[i], filePath)];
      assert contents[..i + 1][..i] == contents[..i];
      if filePath == positionPath {
        positionIndex := i;
      }
    }
    assert contents[..|contents|] == contents;
    dirPath, err := path, false;
  }

  /** An entry whose joined path is the target is found by the lookup: the looked-up
      entry then carries exactly that path. */
  lemma {:induction false} IndexOfJoinedName(dir: string, names: seq<string>, join: (string, string) -> string, k: int, target: string)
    requires 0 <= k < |names| && join(dir, names[k]) == target
    ensures var files := Entries(dir, names, join);
      IndexOfPath(files, target) < |files| && files[IndexOfPath(files, target)].path == target
  {
    var files := Entries(dir, names, join);
    assert files[k].path == target;
  }
}

/** The status value both user interfaces build from an error text. */
module Status {

  datatype Error = Error(message: string, isError: bool)

  /** The empty text is "no error"; any other text is an error carrying that text. */
  function NewError(err: string): (r: Error)
    ensures r.isError <==> err != ""
    ensures r.message == err
  {
    if err == "" then Error("", false) else Error(err, true)
  }
}
