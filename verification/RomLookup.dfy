/** Opening a file of a ROM image by its path: the hashed tables and the path parser together
    against a walk over the path's components. */
module RomLookup {
  import RomTable
  import opened RomPath
  import opened Wrappers

  datatype Image<I> = Image(dirs: RomTable.Table<()>, files: RomTable.Table<I>)

  datatype Result<+T> = Ok(value: T) | Failed(error: Error)

  /** The bucket chains of a well-formed image, and its root directory keyed (0xC, ""). */
  datatype Chains = Chains(dirs: seq<seq<nat>>, files: seq<seq<nat>>)

  ghost predicate WellFormed<I>(img: Image<I>, chains: Chains) {
    && RomTable.WellFormed(img.dirs, chains.dirs) && RomTable.WellFormed(img.files, chains.files)
    && RomTable.Scan(img.dirs, 0xC, "").Some?
  }

  // ---------- the directory tree ----------

  /** The sub-directory of a directory, by a scan of all entries. */
  ghost function Child<I>(img: Image<I>, dir: nat, name: string): Result<nat> {
    match RomTable.Scan(img.dirs, dir, name)
    case Some(p) => Ok(p)
    case None => if RomTable.Scan(img.files, dir, name).Some? then Failed(InvalidOperation) else Failed(DirectoryNotFound)
  }

  /** The file of a directory. */
  ghost function File<I>(img: Image<I>, dir: nat, name: string): Result<I> {
    match RomTable.Scan(img.files, dir, name)
    case Some(p) => Ok(img.files.entries[p].value)
    case None => if RomTable.Scan(img.dirs, dir, name).Some? then Failed(InvalidOperation) else Failed(FileNotFound)
  }

  ghost function Root<I>(img: Image<I>): nat
    requires RomTable.Scan(img.dirs, 0xC, "").Some?
  {
    RomTable.Scan(img.dirs, 0xC, "").value
  }

  /** The directory that components k to |names| - 2 lead to; "." stays where it is.  A name that is
      too long is noticed when the parser reaches it, one component ahead of the walk. */
  ghost function Walk<I>(img: Image<I>, dir: nat, names: seq<string>, k: nat, trailing: bool): Result<nat>
    requires k < |names|
    decreases |names| - k
  {
    if k == |names| - 1 then Ok(dir)
    else if TooLong(names, trailing, k + 1) then Failed(DirectoryNameTooLong)
    else if names[k] == "." then Walk(img, dir, names, k + 1, trailing)
    else
      match Child(img, dir, names[k])
      case Ok(next) => Walk(img, next, names, k + 1, trailing)
      case Failed(e) => Failed(e)
  }

  /** What a path means: its directories from the root, then the file named last. */
  ghost function Lookup<I>(img: Image<I>, path: string): Result<I>
    requires RomTable.Scan(img.dirs, 0xC, "").Some?
  {
    if At(path, 0) != '/' then
      Failed(InvalidPathFormat)
    else
      var names, trailing := Components(path, 0), Trailing(path);
      if names == [] then Failed(InvalidOperation)
      else if TooLong(names, trailing, 0) then Failed(DirectoryNameTooLong)
      else
        match Walk(img, Root(img), names, 0, trailing)
        case Failed(e) => Failed(e)
        case Ok(dir) =>
          var last := names[|names| - 1];
          if trailing then Failed(InvalidOperation)
          else if |last| > MAX_PATH_LENGTH then Failed(FileNameTooLong)
          else File(img, dir, last)
  }

  /** ".." is not part of this model. */
  predicate NoParent(path: string) {
    var names := Components(path, 0); forall i :: 0 <= i < |names| - 1 ==> names[i] != ".."
  }

  // ---------- the code ----------

  /** GetDirectoryEntry */
  method GetDirectoryEntry<I>(img: Image<I>, dir: nat, name: string, ghost chains: Chains) returns (r: Result<nat>)
    requires WellFormed(img, chains)
    ensures r == Child(img, dir, name)
  {
    hide RomTable.WellFormed, RomTable.Scan;
    var p := RomTable.FindInternal(img.dirs, dir, name, chains.dirs);
    if p.Some? { return Ok(p.value); }
    var q := RomTable.FindInternal(img.files, dir, name, chains.files);
    r := if q.None? then Failed(DirectoryNotFound) else Failed(InvalidOperation);
  }

  /** GetFileEntry */
  method GetFileEntry<I>(img: Image<I>, dir: nat, name: string, ghost chains: Chains) returns (r: Result<I>)
    requires WellFormed(img, chains)
    ensures r == File(img, dir, name)
  {
    hide RomTable.WellFormed, RomTable.Scan;
    var p := RomTable.FindInternal(img.files, dir, name, chains.files);
    if p.Some? { return Ok(img.files.entries[p.value].value); }
    var q := RomTable.FindInternal(img.dirs, dir, name, chains.dirs);
    r := if q.None? then Failed(FileNotFound) else Failed(InvalidOperation);
  }

  /** The parser has scanned component k: it is in hand, and the rest is still ahead. */
  ghost predicate Scanned(parser: PathParser, names: seq<string>, k: nat)
    reads parser
  {
    && Terminated(parser.path) && k < |names| && parser.prevStart < parser.prevEnd <= parser.next <= |parser.path|
    && parser.path[parser.prevStart..parser.prevEnd] == names[k]
    && Components(parser.path, parser.next) == names[k + 1..]
    && SkipSeparators(parser.path, parser.next) == parser.next && (parser.finished <==> parser.next == |parser.path|)
  }

  lemma ScannedEnd(parser: PathParser, names: seq<string>, k: nat)
    requires Scanned(parser, names, k)
    ensures parser.finished <==> k == |names| - 1
  {}

  /** Scanning the component at s, k of all. */
  lemma ScansNext(path: string, s: nat, names: seq<string>, k: nat)
    requires s < |path| && SkipSeparators(path, s) == s && k < |names| && Components(path, s) == names[k..]
    ensures var e := NameEnd(path, s);
      && s < e && path[s..e] == names[k] && Components(path, e) == names[k + 1..]
      && (e < |path| && e - s >= MAX_PATH_LENGTH <==> TooLong(names, Trailing(path), k))
  {
    NextComponent(path, s);
    var e := NameEnd(path, s);
    assert names[k..][0] == names[k] && names[k..][1..] == names[k + 1..];
  }

  /** Parsing is over and nothing was scanned. */
  predicate Empty(parser: PathParser)
    reads parser
  {
    parser.finished && parser.prevStart <= parser.prevEnd <= parser.next == |parser.path|
  }

  /** The first call of GetNextDirectoryName. */
  method ScanFirst(parser: PathParser, ghost names: seq<string>) returns (name: string, error: Option<Error>)
    requires parser.Ready() && parser.prevStart == parser.prevEnd && names == Components(parser.path, parser.next)
    modifies parser
    ensures name == ""
    ensures error == if names != [] && TooLong(names, Trailing(parser.path), 0) then Some(DirectoryNameTooLong) else None
    ensures error.None? ==> if names == [] then Empty(parser) else Scanned(parser, names, 0)
  {
    FirstScan(parser.next, parser, names);
    name, error := parser.GetNextDirectoryName();
    SkipTwice(parser.path, if error.None? then parser.prevEnd else 0);
  }

  /** Every later call: component k is handed out, component k + 1 scanned. */
  method ScanAnother(parser: PathParser, ghost names: seq<string>, ghost k: nat) returns (name: string, error: Option<Error>)
    requires Scanned(parser, names, k) && !parser.finished
    modifies parser
    ensures k + 1 < |names| && name == names[k]
    ensures error == if TooLong(names, Trailing(parser.path), k + 1) then Some(DirectoryNameTooLong) else None
    ensures error.None? ==> Scanned(parser, names, k + 1)
  {
    ScannedEnd(parser, names, k);
    ScansNext(parser.path, parser.next, names, k + 1);
    name, error := parser.GetNextDirectoryName();
    SkipTwice(parser.path, if error.None? then parser.prevEnd else 0);
  }

  /** FindParentDirRecursive from an initialised parser. */
  method FindParentDir<I>(img: Image<I>, parser: PathParser, ghost names: seq<string>, ghost chains: Chains)
    returns (r: Result<nat>)
    requires WellFormed(img, chains) && parser.Ready() && parser.prevStart == parser.prevEnd
    requires names == Components(parser.path, parser.next) && forall i :: 0 <= i < |names| - 1 ==> names[i] != ".."
    modifies parser
    ensures r == if names == [] then Ok(Root(img))
      else if TooLong(names, Trailing(parser.path), 0) then Failed(DirectoryNameTooLong)
      else Walk(img, Root(img), names, 0, Trailing(parser.path))
    ensures r.Ok? ==> if names == [] then Empty(parser) else Scanned(parser, names, |names| - 1) && parser.finished
  {
    hide WellFormed, Child, Walk, Scanned, Empty, Components, Trailing, TooLong, Root;
    ghost var trailing := Trailing(parser.path);
    RootIs(img, chains);
    var name, error := ScanFirst(parser, names);
    if error.Some? { return Failed(error.value); }
    r := GetDirectoryEntry(img, 0xC, name, chains);
    if r.Failed? { return; }
    var parentPosition := r.value;
    ghost var k := 0;
    EmptyFinished(parser);
    while !parser.finished
      invariant if names == [] then Empty(parser) && parser.finished && parentPosition == Root(img) else
        Scanned(parser, names, k) && k < |names|
        && Walk(img, Root(img), names, 0, trailing) == Walk(img, parentPosition, names, k, trailing)
      decreases |names| - k
    {
      name, error := ScanAnother(parser, names, k);
      WalkStep(img, parentPosition, names, k, trailing);
      if error.Some? { return Failed(error.value); }
      if name != "." {
        r := GetDirectoryEntry(img, parentPosition, name, chains);
        if r.Failed? { return; }
        parentPosition := r.value;
      }
      k := k + 1;
    }
    if names != [] {
      ScannedEnd(parser, names, k);
      WalkEnd(img, parentPosition, names, trailing);
    }
    return Ok(parentPosition);
  }

  lemma EmptyFinished(parser: PathParser)
    ensures Empty(parser) ==> parser.finished
  {}

  /** The first call hands out the empty root name and scans component 0, if there is one. */
  lemma FirstScan(s: nat, parser: PathParser, names: seq<string>)
    requires s <= |parser.path| && SkipSeparators(parser.path, s) == s && names == Components(parser.path, s)
    ensures names == [] <==> s == |parser.path|
    ensures names == [] ==> NameEnd(parser.path, s) == s
    ensures names != [] ==> var e := NameEnd(parser.path, s);
      && s < e && parser.path[s..e] == names[0] && Components(parser.path, e) == names[1..]
      && (e < |parser.path| && e - s >= MAX_PATH_LENGTH <==> TooLong(names, Trailing(parser.path), 0))
  {
    if names != [] {
      assert names[0..] == names;
      ScansNext(parser.path, s, names, 0);
    }
  }

  lemma RootIs<I>(img: Image<I>, chains: Chains)
    requires WellFormed(img, chains)
    ensures RomTable.Scan(img.dirs, 0xC, "").Some? && Child(img, 0xC, "") == Ok(Root(img))
  {}

  lemma WalkStep<I>(img: Image<I>, dir: nat, names: seq<string>, k: nat, trailing: bool)
    requires k + 1 < |names|
    ensures Walk(img, dir, names, k, trailing) ==
      if TooLong(names, trailing, k + 1) then Failed(DirectoryNameTooLong)
      else if names[k] == "." then Walk(img, dir, names, k + 1, trailing)
      else if Child(img, dir, names[k]).Ok? then Walk(img, Child(img, dir, names[k]).value, names, k + 1, trailing)
      else Failed(Child(img, dir, names[k]).error)
  {}

  lemma WalkEnd<I>(img: Image<I>, dir: nat, names: seq<string>, trailing: bool)
    requires names != []
    ensures Walk(img, dir, names, |names| - 1, trailing) == Ok(dir)
  {}

  /** What is left of a path once all of it has been scanned. */
  lemma LastScanned(parser: PathParser, names: seq<string>)
    requires if names == [] then Empty(parser) else Scanned(parser, names, |names| - 1) && parser.finished
    requires names == Components(parser.path, 0) && At(parser.path, 0) == '/'
    ensures 0 < parser.next == |parser.path| && parser.prevStart <= parser.prevEnd <= |parser.path|
    ensures Terminated(parser.path) ==> (parser.IsDirectoryPath() <==> names == [] || Trailing(parser.path))
    ensures names != [] ==> parser.path[parser.prevStart..parser.prevEnd] == names[|names| - 1]
  {
    if names == [] { OnlySeparators(parser.path, 0); }
  }

  /** OpenFile by path finds what walking the directory tree finds, or fails as it does. */
  method OpenFile<I>(img: Image<I>, path: string, ghost chains: Chains) returns (r: Result<I>)
    requires WellFormed(img, chains) && Terminated(path) && NoParent(path)
    ensures r == Lookup(img, path)
  {
    hide WellFormed, Child, File, Walk, Scanned, Empty, Components, TooLong, Trailing, Root;
    RootIs(img, chains);
    ghost var names := Components(path, 0);
    var parser := new PathParser(path);
    var error := parser.Initialize();
    if error.Some? { return Failed(error.value); }
    SkipTwice(path, 0);
    var parent := FindParentDir(img, parser, names, chains);
    if parent.Failed? { return Failed(parent.error); }
    LastScanned(parser, names);
    if parser.IsDirectoryPath() { return Failed(InvalidOperation); }
    var name;
    name, error := parser.GetAsFileName();
    if error.Some? { return Failed(error.value); }
    r := GetFileEntry(img, parent.value, name, chains);
  }

  // ---------- plain paths ----------

  /** Following directory names from a directory. */
  ghost function Descend<I>(img: Image<I>, dir: nat, names: seq<string>): Result<nat>
    decreases |names|
  {
    if names == [] then Ok(dir)
    else
      match Child(img, dir, names[0])
      case Ok(next) => Descend(img, next, names[1..])
      case Failed(e) => Failed(e)
  }

  predicate Plain(names: seq<string>) {
    ValidNames(names) && forall i :: 0 <= i < |names| ==> names[i] != "." && names[i] != ".." && |names[i]| < MAX_PATH_LENGTH
  }

  lemma {:induction false} WalkDescends<I>(img: Image<I>, dir: nat, names: seq<string>, k: nat)
    requires Plain(names) && k < |names|
    ensures Walk(img, dir, names, k, false) == Descend(img, dir, names[k..|names| - 1])
    decreases |names| - k
  {
    hide Child;
    if k < |names| - 1 {
      assert names[k..|names| - 1][0] == names[k] && names[k..|names| - 1][1..] == names[k + 1..|names| - 1];
      match Child(img, dir, names[k])
      case Ok(next) => WalkDescends(img, next, names, k + 1);
      case Failed(_) =>
    }
  }

  lemma JoinNotTrailing(names: seq<string>)
    requires ValidNames(names) && names != []
    ensures !Trailing(Join(names))
  {
    if |names| == 1 {
      assert Join(names) == "/" + names[0] by { assert Join(names[1..]) == ""; }
    } else {
      JoinNotTrailing(names[1..]);
      JoinStarts(names[1..]);
      assert Join(names) == "/" + names[0] + Join(names[1..]);
    }
  }

  /** Reading back a file by the path made of its directories' names and its own: the directories are
      followed one by one and the file is looked up in the last. */
  lemma PlainLookup<I>(img: Image<I>, names: seq<string>)
    requires RomTable.Scan(img.dirs, 0xC, "").Some? && Plain(names) && names != []
    ensures var n := |names| - 1;
      Lookup(img, Join(names)) ==
        match Descend(img, Root(img), names[..n])
        case Failed(e) => Failed(e)
        case Ok(dir) => File(img, dir, names[n])
  {
    hide Child, File, Walk, Descend, Root, Components;
    assert "" + Join(names) == Join(names);
    ComponentsJoin("", names);
    JoinNotTrailing(names);
    JoinStarts(names);
    WalkDescends(img, Root(img), names, 0);
    assert names[0..|names| - 1] == names[..|names| - 1];
  }

  // ---------- what a path of names opens, and how it fails ----------

  /** Following directory names from dir leads to e, by scans of the directory table alone. */
  ghost predicate Leads<I>(img: Image<I>, dir: nat, names: seq<string>, e: nat)
    decreases |names|
  {
    if names == [] then e == dir
    else
      var next := RomTable.Scan(img.dirs, dir, names[0]);
      next.Some? && Leads(img, next.value, names[1..], e)
  }

  /** Names a path can be made of, none of them a step in place or up. */
  predicate Steps(names: seq<string>) {
    ValidNames(names) && forall i :: 0 <= i < |names| ==> names[i] != "." && names[i] != ".."
  }

  predicate AllShort(names: seq<string>) { forall i :: 0 <= i < |names| ==> |names[i]| < 256 }

  lemma ChildFound<I>(img: Image<I>, dir: nat, name: string)
    ensures var p := RomTable.Scan(img.dirs, dir, name);
      Child(img, dir, name) == if p.Some? then Ok(p.value)
        else if RomTable.Scan(img.files, dir, name).Some? then Failed(InvalidOperation) else Failed(DirectoryNotFound)
  {}

  /** The walk over names that lead somewhere continues from there. */
  lemma {:induction false} WalkLeads<I>(img: Image<I>, dir: nat, names: seq<string>, k: nat, j: nat, e: nat)
    requires Steps(names) && k <= j < |names| && Leads(img, dir, names[k..j], e)
    requires forall i :: k < i <= j && i < |names| - 1 ==> |names[i]| < 256
    ensures Walk(img, dir, names, k, false) == Walk(img, e, names, j, false)
    decreases j - k
  {
    hide Child;
    if k < j {
      assert names[k..j][0] == names[k] && names[k..j][1..] == names[k + 1..j];
      ChildFound(img, dir, names[k]);
      WalkStep(img, dir, names, k, false);
      WalkLeads(img, RomTable.Scan(img.dirs, dir, names[k]).value, names, k + 1, j, e);
    } else {
      assert names[k..j] == [];
    }
  }

  /** What opening the path made of these names comes down to. */
  lemma LookupJoin<I>(img: Image<I>, names: seq<string>)
    requires RomTable.Scan(img.dirs, 0xC, "").Some? && Steps(names) && names != []
    ensures var n := |names| - 1;
      Lookup(img, Join(names)) ==
        if n > 0 && |names[0]| >= 256 then Failed(DirectoryNameTooLong)
        else
          match Walk(img, Root(img), names, 0, false)
          case Failed(e) => Failed(e)
          case Ok(dir) => if |names[n]| > 256 then Failed(FileNameTooLong) else File(img, dir, names[n])
  {
    hide Child, File, Walk, Root, Components;
    assert "" + Join(names) == Join(names);
    ComponentsJoin("", names);
    JoinNotTrailing(names);
    JoinStarts(names);
  }

  /** With directories that exist, the file named last is opened; a missing one is not found, a directory
      of that name is an invalid operation, and a name of up to 256 characters is looked for. */
  lemma FileVerdict<I>(img: Image<I>, dirs: seq<string>, last: string, d: nat)
    requires RomTable.Scan(img.dirs, 0xC, "").Some? && Steps(dirs + [last]) && AllShort(dirs)
    requires Leads(img, RomTable.Scan(img.dirs, 0xC, "").value, dirs, d)
    ensures var file := RomTable.Scan(img.files, d, last);
      Lookup(img, Join(dirs + [last])) ==
        if |last| > 256 then Failed(FileNameTooLong)
        else if file.Some? then Ok(img.files.entries[file.value].value)
        else if RomTable.Scan(img.dirs, d, last).Some? then Failed(InvalidOperation)
        else Failed(FileNotFound)
  {
    hide Child, Walk, Leads, RomTable.Scan;
    var names := dirs + [last];
    var n := |dirs|;
    assert names[0..n] == dirs && names[n] == last;
    forall i | 0 <= i < n ensures |names[i]| < 256 { assert names[i] == dirs[i]; }
    LookupJoin(img, names);
    WalkLeads(img, Root(img), names, 0, n, d);
    WalkEnd(img, d, names, false);
  }

  /** A directory on the way that is missing is not found, and one that is a file is an invalid
      operation. */
  lemma DirectoryVerdict<I>(img: Image<I>, names: seq<string>, i: nat, d: nat)
    requires RomTable.Scan(img.dirs, 0xC, "").Some? && Steps(names) && i < |names| - 1 && AllShort(names[..|names| - 1])
    requires Leads(img, RomTable.Scan(img.dirs, 0xC, "").value, names[..i], d)
    requires RomTable.Scan(img.dirs, d, names[i]).None?
    ensures Lookup(img, Join(names)) ==
      Failed(if RomTable.Scan(img.files, d, names[i]).Some? then InvalidOperation else DirectoryNotFound)
  {
    hide Child, Walk, Leads, RomTable.Scan;
    forall j | 0 <= j < |names| - 1 ensures |names[j]| < 256 { assert names[..|names| - 1][j] == names[j]; }
    assert names[0..i] == names[..i];
    LookupJoin(img, names);
    WalkLeads(img, Root(img), names, 0, i, d);
    ChildFound(img, d, names[i]);
    WalkStep(img, d, names, i, false);
  }

  /** A directory name of 256 characters is too long, one of 255 is not; it is refused before the
      directory in front of it is looked up. */
  lemma DirectoryTooLong<I>(img: Image<I>, names: seq<string>, i: nat, d: nat)
    requires RomTable.Scan(img.dirs, 0xC, "").Some? && Steps(names) && i < |names| - 1
    requires |names[i]| >= 256 && AllShort(names[..i])
    requires i > 0 ==> Leads(img, RomTable.Scan(img.dirs, 0xC, "").value, names[..i - 1], d)
    ensures Lookup(img, Join(names)) == Failed(DirectoryNameTooLong)
  {
    hide Child, Walk, Leads, RomTable.Scan;
    LookupJoin(img, names);
    if i > 0 {
      forall j | 0 <= j < i ensures |names[j]| < 256 { assert names[..i][j] == names[j]; }
      assert names[0..i - 1] == names[..i - 1];
      WalkLeads(img, Root(img), names, 0, i - 1, d);
      WalkStep(img, d, names, i - 1, false);
    }
  }
}
