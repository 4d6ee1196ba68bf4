/** The path parser of dbm_RomPathTool.cpp: pointers moving over a path, one component ahead of the
    names they hand out. */
module RomPath {
  import opened Wrappers

  predicate Separator(c: char) { c == '/' }

  /** The character at i of a zero-terminated path. */
  function At(path: string, i: nat): char { if i < |path| then path[i] else '\0' }

  /** A C string holds no terminator. */
  predicate Terminated(path: string) { forall i :: 0 <= i < |path| ==> path[i] != '\0' }

  // ---------- components ----------

  function SkipSeparators(path: string, i: nat): (j: nat)
    requires i <= |path|
    ensures i <= j <= |path| && (j < |path| ==> !Separator(path[j]))
    ensures forall k :: i <= k < j ==> Separator(path[k])
    decreases |path| - i
  {
    if i < |path| && Separator(path[i]) then SkipSeparators(path, i + 1) else i
  }

  function NameEnd(path: string, i: nat): (j: nat)
    requires i <= |path|
    ensures i <= j <= |path| && (j < |path| ==> Separator(path[j]))
    ensures forall k :: i <= k < j ==> !Separator(path[k])
    decreases |path| - i
  {
    if i < |path| && !Separator(path[i]) then NameEnd(path, i + 1) else i
  }

  /** The non-empty components of a path from position i on. */
  function Components(path: string, i: nat): (r: seq<string>)
    requires i <= |path|
    decreases |path| - i
  {
    var s := SkipSeparators(path, i);
    if s == |path| then [] else
      var e := NameEnd(path, s);
      [path[s..e]] + Components(path, e)
  }

  /** Component names joined into a path. */
  function Join(names: seq<string>): string { if names == [] then "" else "/" + names[0] + Join(names[1..]) }

  predicate ValidNames(names: seq<string>) {
    forall i :: 0 <= i < |names| ==> names[i] != "" && forall k :: 0 <= k < |names[i]| ==> !Separator(names[i][k])
  }

  lemma {:induction false} NameEndUnique(path: string, i: nat, j: nat)
    requires i <= j <= |path| && (j < |path| ==> Separator(path[j])) && forall k :: i <= k < j ==> !Separator(path[k])
    ensures NameEnd(path, i) == j
    decreases j - i
  {
    if i < j { NameEndUnique(path, i + 1, j); }
  }

  lemma JoinStarts(names: seq<string>)
    ensures names != [] ==> Join(names) != "" && Separator(Join(names)[0])
  {}

  /** Splitting undoes joining. */
  lemma {:induction false} ComponentsJoin(head: string, names: seq<string>)
    requires ValidNames(names)
    ensures Components(head + Join(names), |head|) == names
    decreases |names|
  {
    var path := head + Join(names);
    if names != [] {
      var next := head + "/" + names[0];
      assert path == next + Join(names[1..]);
      JoinStarts(names[1..]);
      var s := |head| + 1;
      assert path[|head|] == '/' && path[s..|next|] == names[0];
      assert forall k :: s <= k < |next| ==> path[k] == names[0][k - s];
      assert SkipSeparators(path, |head|) == SkipSeparators(path, s) == s;
      NameEndUnique(path, s, |next|);
      ComponentsJoin(next, names[1..]);
    } else {
      assert SkipSeparators(path, |head|) == |path|;
    }
  }

  // ---------- the parser ----------

  datatype Error =
    | InvalidPathFormat | DirectoryNameTooLong | FileNameTooLong | DirectoryNotFound | FileNotFound | InvalidOperation

  const MAX_PATH_LENGTH := 256

  class PathParser {
    const path: string
    var prevStart: nat
    var prevEnd: nat
    var next: nat
    var finished: bool

    constructor (path: string)
      ensures this.path == path && !finished
    {
      this.path := path;
      prevStart, prevEnd, next, finished := 0, 0, 0, false;
    }

    /** The component last scanned, and the start of what is left. */
    predicate Ready()
      reads this
    {
      Terminated(path) && prevStart <= prevEnd <= next <= |path| && SkipSeparators(path, next) == next && !finished
    }

    /** Initialize */
    method Initialize() returns (error: Option<Error>)
      requires Terminated(path) && !finished
      modifies this
      ensures error == if At(path, 0) == '/' then None else Some(InvalidPathFormat)
      ensures error.None? ==> Ready() && prevStart == prevEnd && next == SkipSeparators(path, 0)
    {
      if !Separator(At(path, 0)) { return Some(InvalidPathFormat); }
      var full := 0;
      while Separator(At(path, full + 1))
        invariant full < |path| && Separator(path[full]) && SkipSeparators(path, full) == SkipSeparators(path, 0)
        decreases |path| - full
      {
        full := full + 1;
      }
      prevStart := full;
      prevEnd := prevStart;
      // The source skips separators once more from here; there are none left.
      next := full + 1;
      return None;
    }

    /** GetNextDirectoryName: hands out the component scanned before and scans the next one. */
    method GetNextDirectoryName() returns (name: string, error: Option<Error>)
      requires Ready()
      modifies this
      ensures name == path[old(prevStart)..old(prevEnd)]
      ensures var s := old(next); var e := NameEnd(path, s);
        error == if e < |path| && e - s >= MAX_PATH_LENGTH then Some(DirectoryNameTooLong) else None
      ensures error.None? ==> Terminated(path) && prevStart == old(next) && prevEnd == NameEnd(path, prevStart)
      ensures error.None? ==> next == SkipSeparators(path, prevEnd) == SkipSeparators(path, next) && (finished <==> next == |path|)
    {
      name := path[prevStart..prevEnd];
      prevStart := next;
      var p, dirNameLength := next, 0;
      while true
        invariant p == prevStart == next == old(next) && p + dirNameLength <= |path| && !finished
        invariant forall k :: p <= k < p + dirNameLength ==> !Separator(path[k])
        decreases |path| - dirNameLength
      {
        if Separator(At(path, p + dirNameLength)) {
          NameEndUnique(path, p, p + dirNameLength);
          if dirNameLength >= MAX_PATH_LENGTH { return name, Some(DirectoryNameTooLong); }
          prevEnd := p + dirNameLength;
          next := prevEnd + 1;
          while Separator(At(path, next))
            invariant p == prevStart && prevEnd < next <= |path| && prevEnd == p + dirNameLength && !finished
            invariant SkipSeparators(path, next) == SkipSeparators(path, prevEnd)
            decreases |path| - next
          {
            next := next + 1;
          }
          if At(path, next) == '\0' { finished := true; }
          break;
        }
        if At(path, p + dirNameLength) == '\0' {
          NameEndUnique(path, p, p + dirNameLength);
          finished := true;
          prevEnd := p + dirNameLength;
          next := p + dirNameLength;
          break;
        }
        dirNameLength := dirNameLength + 1;
      }
      return name, None;
    }

    /** GetAsFileName */
    method GetAsFileName() returns (name: string, error: Option<Error>)
      requires prevStart <= prevEnd <= |path|
      ensures name == path[prevStart..prevEnd]
      ensures error == if |name| > MAX_PATH_LENGTH then Some(FileNameTooLong) else None
    {
      name := path[prevStart..prevEnd];
      error := if prevEnd - prevStart > MAX_PATH_LENGTH then Some(FileNameTooLong) else None;
    }

    /** IsDirectoryPath, once parsing has finished: does the path end with a separator? */
    predicate IsDirectoryPath()
      requires 0 < next <= |path|
      reads this
    {
      || (At(path, next) == '\0' && Separator(path[next - 1]))
      || (At(path, next) == '.' && At(path, next + 1) == '\0')
      || (At(path, next) == '.' && At(path, next + 1) == '.' && At(path, next + 2) == '\0')
    }
  }

  // ---------- what a scan means for the list of components ----------

  predicate Trailing(path: string) { |path| > 0 && Separator(path[|path| - 1]) }

  /** A component longer than a directory name may be, where a separator follows it. */
  predicate TooLong(names: seq<string>, trailing: bool, k: nat)
    requires k < |names|
  {
    (k < |names| - 1 || trailing) && |names[k]| >= MAX_PATH_LENGTH
  }

  lemma OnlySeparators(path: string, i: nat)
    requires i < |path| && Separator(path[i]) && Components(path, i) == []
    ensures Trailing(path)
  {
    assert SkipSeparators(path, i) == |path|;
  }

  lemma {:induction false} SkipTwice(path: string, i: nat)
    requires i <= |path|
    ensures SkipSeparators(path, SkipSeparators(path, i)) == SkipSeparators(path, i)
    ensures Components(path, SkipSeparators(path, i)) == Components(path, i)
    decreases |path| - i
  {
    if i < |path| && Separator(path[i]) { SkipTwice(path, i + 1); }
  }

  /** The next component starts where separators end; a separator follows it unless it is the last
      one of a path that does not end with one. */
  lemma NextComponent(path: string, i: nat)
    requires i < |path| && SkipSeparators(path, i) == i
    ensures var e := NameEnd(path, i); var rest := Components(path, e);
      Components(path, i) == [path[i..e]] + rest && i < e
      && (e < |path| <==> rest != [] || Trailing(path))
  {
    var e := NameEnd(path, i);
    if e < |path| && Components(path, e) == [] { OnlySeparators(path, e); }
    if e == |path| { assert Components(path, e) == []; }
  }
}
