/**
 Recursive deletion: the directory is read entry by entry, each entry's name is put behind the
 directory's path in the one buffer all levels share, and the buffer is cut back afterwards.
 System calls are methods of `FileSystem`; unless it is `reliable` each of them may also fail
 for reasons of its own.
 */
module DirectoryDelete {
  import opened Basics
  import opened PathBuffer
  import opened PathWalk
  import opened DeletionSpec
  import L = LexicalPath

  /** What reading a directory tells about the kind of an entry. */
  datatype DType = DtUnknown | DtDir | DtOther

  datatype ReadResult = End | ReadError | Found(name: string, dtype: DType)

  predicate IsDots(name: string) {
    name == L.DOT || name == L.DOTDOT
  }

  function Names(m: Nodes, d: Key): set<string> {
    set k | k in m && k != [] && Parent(k) == d :: k[|k| - 1]
  }

  class FileSystem {
    var nodes: Nodes
    const cwd: Key
    const reliable: bool
    const typed: bool  // reading a directory always tells the kinds

    method Lstat(path: string) returns (r: Option<Node>)
      ensures var k := Lookup(nodes, cwd, path);
              && (r.Some? ==> k.Some? && k.value in nodes && r.value == nodes[k.value])
              && (reliable ==> (r.Some? <==> k.Some?))
    {
      var fault: bool := *;
      var k := Lookup(nodes, cwd, path);
      if k.None? || (fault && !reliable) {
        return None;
      }
      WalkExists(nodes, Start(cwd, path), L.Split(path), MAX_LINKS, false);
      return Some(nodes[k.value]);
    }

    method Unlink(path: string) returns (ok: bool)
      modifies this`nodes
      ensures var e := Entry(old(nodes), cwd, path);
              && var possible := e.Some? && !IsDir(old(nodes), e.value) && !EndsInSlash(path);
              && (ok ==> possible)
              && (reliable && possible ==> ok)
              && nodes == if ok then old(nodes) - {e.value} else old(nodes)
    {
      var fault: bool := *;
      var e := Entry(nodes, cwd, path);
      ok := e.Some? && !IsDir(nodes, e.value) && !EndsInSlash(path) && (reliable || !fault);
      if ok {
        nodes := nodes - {e.value};
      }
    }

    method Rmdir(path: string) returns (ok: bool)
      modifies this`nodes
      ensures var e := Entry(old(nodes), cwd, path);
              && var possible := e.Some? && IsDir(old(nodes), e.value) && HasNoChild(old(nodes), e.value);
              && (ok ==> possible)
              && (reliable && possible ==> ok)
              && nodes == if ok then old(nodes) - {e.value} else old(nodes)
    {
      var fault: bool := *;
      var e := Entry(nodes, cwd, path);
      ok := e.Some? && IsDir(nodes, e.value) && HasNoChild(nodes, e.value) && (reliable || !fault);
      if ok {
        nodes := nodes - {e.value};
      }
    }

    /** Whether a path leads to a directory. */
    method IsDirectoryTarget(path: string) returns (r: bool)
      ensures var k := Target(nodes, cwd, path);
              && (r ==> k.Some? && IsDir(nodes, k.value))
              && (reliable && k.Some? && IsDir(nodes, k.value) ==> r)
    {
      var fault: bool := *;
      var k := Target(nodes, cwd, path);
      return k.Some? && IsDir(nodes, k.value) && (reliable || !fault);
    }

    /** Opens a directory and a stream of its entries. */
    method OpenDir(path: string) returns (r: Option<DirStream>)
      ensures var k := Target(nodes, cwd, path);
              && (r.Some? ==> k.Some? && IsDir(nodes, k.value) && fresh(r.value) && r.value.dir == k.value
                              && r.value.pending == Names(nodes, k.value) + {L.DOT, L.DOTDOT}
                              && (reliable ==> r.value.closes))
              && (reliable && k.Some? && IsDir(nodes, k.value) ==> r.Some?)
    {
      var fault: bool := *;
      var k := Target(nodes, cwd, path);
      if k.None? || !IsDir(nodes, k.value) || (fault && !reliable) {
        return None;
      }
      var closes: bool := *;
      var stream := new DirStream(k.value, Names(nodes, k.value) + {L.DOT, L.DOTDOT}, closes || reliable);
      return Some(stream);
    }
  }

  /**
   A stream of the entries a directory had when it was opened, in any order. An entry that has
   been removed since may still be returned or not.
   */
  class DirStream {
    const dir: Key
    const closes: bool  // closing it will succeed
    var pending: set<string>

    constructor (dir: Key, pending: set<string>, closes: bool)
      ensures this.dir == dir && this.pending == pending && this.closes == closes
    {
      this.dir, this.pending, this.closes := dir, pending, closes;
    }

    method Read(fs: FileSystem) returns (r: ReadResult)
      requires IsTree(fs.nodes)
      modifies this`pending
      ensures pending <= old(pending) && (fs.reliable ==> !r.ReadError?)
      ensures r.Found? ==> r.name in old(pending) && r.name !in pending
      ensures r.Found? && dir + [r.name] in fs.nodes && !r.dtype.DtUnknown? ==>
                (r.dtype.DtDir? <==> IsDir(fs.nodes, dir + [r.name]))
      ensures r.Found? && IsDots(r.name) ==> !r.dtype.DtOther?
      ensures r.Found? && fs.typed ==> !r.dtype.DtUnknown?
      ensures r.End? ==> pending == {}
      ensures forall n :: n in old(pending) && n !in pending && !(r.Found? && n == r.name) ==> dir + [n] !in fs.nodes
    {
      var fault: bool := *;
      if fault && !fs.reliable {
        return ReadError;
      }
      while exists n :: n in pending
        invariant pending <= old(pending)
        invariant forall n :: n in old(pending) && n !in pending ==> dir + [n] !in fs.nodes
        decreases pending
      {
        var name :| name in pending;
        pending := pending - {name};
        var skip: bool, untold: bool := *, *;
        assert Parent(dir + [name]) == dir;
        if !skip || dir + [name] in fs.nodes || IsDots(name) {
          if untold && !fs.typed {
            return Found(name, DtUnknown);
          }
          var isDir := if dir + [name] in fs.nodes then fs.nodes[dir + [name]].Dir? else IsDots(name);
          return Found(name, if isDir then DtDir else DtOther);
        }
      }
      return End;
    }

    method Close() returns (ok: bool)
      ensures ok == closes
    {
      return closes;
    }
  }

  // ----- the buffer -----

  /** The path `text` and a separator, which is cut off if there is no room for it. */
  function Prefix(text: string): string {
    if |text| + 1 < PATH_MAX then text + "/" else text
  }

  ghost predicate AtPrefix(path: PathBuffer, text: string)
    reads path, path.data
  {
    path.Valid() && |text| < PATH_MAX && path.length == |text| + 1 && path.Text() == Prefix(text)
  }

  /** The buffer can be cut back to that prefix. */
  ghost predicate Keeps(path: PathBuffer, text: string)
    reads path, path.data
  {
    && path.data.Length == PATH_MAX + 1 && |text| < PATH_MAX && NUL !in text
    && path.data[..|Prefix(text)|] == Prefix(text)
    && (|text| + 1 == PATH_MAX ==> path.data[PATH_MAX - 1] == NUL)
  }

  /** As much of a name as there is room for behind the prefix. */
  function Cut(text: string, name: string): (r: string)
    requires |text| + 2 <= PATH_MAX
    ensures |text| + 1 + |name| < PATH_MAX ==> r == name
  {
    name[..Min(|name|, PATH_MAX - 2 - |text|)]
  }

  predicate IsEntryName(name: string) {
    name != "" && '/' !in name && NUL !in name
  }

  method AddName(name: string, path: PathBuffer, ghost text: string) returns (ok: bool)
    requires AtPrefix(path, text) && IsEntryName(name) && NUL !in text
    modifies path`length, path.data
    ensures ok <==> |text| + 1 + |name| <= PATH_MAX
    ensures Keeps(path, text)
    ensures ok ==> path.Valid() && path.length == |text| + 1 + |name| && path.Text() == text + "/" + Cut(text, name)
  {
    ok := path.Add(name);
  }

  // ----- deletion -----

  /** What suffices for a deletion to take everything out of a directory. */
  ghost predicate WillEmpty(m: Nodes, cwd: Key, text: string, typed: bool) {
    && StaysReached(m, cwd, text)
    && var top := Lookup(m, cwd, text).value;
       Fits(m, top, |text|) && (!typed ==> FitsDots(m, top, |text|))
  }

  /** What suffices for a deletion to succeed. */
  ghost predicate WillSucceed(m: Nodes, cwd: Key, text: string, typed: bool) {
    WillEmpty(m, cwd, text, typed) && IsRemovable(m, cwd, text)
  }

  /** What is left of a directory that can be emptied: nothing, or itself if its path cannot remove it. */
  ghost predicate IsFinal(before: Nodes, after: Nodes, cwd: Key, text: string, ok: bool) {
    var r := Lookup(before, cwd, text);
    (ok <==> IsRemovable(before, cwd, text)) && (r.Some? && !ok ==> after == Emptied(before, r.value))
  }

  /** The outcome of deleting the entry `name` behind the prefix `text`. */
  ghost predicate IsEntryOutcome(before: Nodes, after: Nodes, cwd: Key, text: string, name: string, ok: bool) {
    var n := |text| + 1 + |name|;
    if n > PATH_MAX || name == "" then !ok && after == before
    else IsOutcome(before, after, cwd, text + "/" + Cut(text, name), n == PATH_MAX, ok)
  }

  method DeleteFile(fs: FileSystem, name: string, path: PathBuffer, ghost text: string) returns (ok: bool)
    requires AtPrefix(path, text) && IsEntryName(name) && NUL !in text && IsTree(fs.nodes)
    modifies fs`nodes, path`length, path.data
    ensures Keeps(path, text)
    ensures IsEntryOutcome(old(fs.nodes), fs.nodes, fs.cwd, text, name, ok)
    ensures var k := Lookup(old(fs.nodes), fs.cwd, text + "/" + name);
            fs.reliable && k.Some? && !IsDir(old(fs.nodes), k.value) && |text| + 1 + |name| < PATH_MAX ==> ok
  {
    ok := AddName(name, path, text);
    if ok {
      var p := path.AsString();
      ghost var isCut, k := path.length == PATH_MAX, Lookup(fs.nodes, fs.cwd, p);
      if k.Some? && !IsDir(fs.nodes, k.value) {
        LeafIsEntry(fs.nodes, fs.cwd, p, k.value);
      }
      ok := fs.Unlink(p);
      if ok {
        UnlinkOutcome(old(fs.nodes), fs.cwd, p, isCut, Entry(old(fs.nodes), fs.cwd, p).value);
      }
    }
  }

  method DeleteDir(fs: FileSystem, name: string, path: PathBuffer, ghost text: string) returns (ok: bool)
    requires AtPrefix(path, text) && IsEntryName(name) && NUL !in text && IsTree(fs.nodes)
    modifies fs`nodes, path`length, path.data
    ensures Keeps(path, text)
    ensures IsDots(name) ==> ok && fs.nodes == old(fs.nodes)
    ensures !IsDots(name) ==> IsEntryOutcome(old(fs.nodes), fs.nodes, fs.cwd, text, name, ok)
    ensures var fits := |text| + 1 + |name| < PATH_MAX;
            fs.reliable && fits && WillSucceed(old(fs.nodes), fs.cwd, text + "/" + name, fs.typed) ==> ok
    decreases PATH_MAX - path.length, 1
  {
    if IsDots(name) {
      return true;
    }
    ok := AddName(name, path, text);
    if ok {
      ok := DeleteRecursively(fs, path);
    }
  }

  method DeleteRecursively(fs: FileSystem, path: PathBuffer) returns (ok: bool)
    requires path.Valid() && IsTree(fs.nodes)
    modifies fs`nodes, path`length, path.data
    ensures path.data[..old(path.length)] == old(path.data[..path.length])
    ensures IsOutcome(old(fs.nodes), fs.nodes, fs.cwd, old(path.Text()), old(path.length) == PATH_MAX, ok)
    ensures var sure := old(path.length) < PATH_MAX && WillEmpty(old(fs.nodes), fs.cwd, old(path.Text()), fs.typed);
            fs.reliable && sure ==> IsFinal(old(fs.nodes), fs.nodes, fs.cwd, old(path.Text()), ok)
    ensures var k := Lookup(old(fs.nodes), fs.cwd, old(path.Text()));
            fs.reliable && k.Some? && !IsDir(old(fs.nodes), k.value) ==> ok
    decreases PATH_MAX - path.length, 0
  {
    var text := path.AsString();
    var st := fs.Lstat(text);
    if st.None? {
      return false;
    }
    ghost var k := Lookup(fs.nodes, fs.cwd, text).value;
    if !st.value.Dir? {
      LeafIsEntry(fs.nodes, fs.cwd, text, k);
      ok := fs.Unlink(text);
      if ok {
        UnlinkOutcome(old(fs.nodes), fs.cwd, text, path.length == PATH_MAX, k);
      }
      return;
    }
    ok := path.Add("/");
    if ok {
      ok := DeleteContents(fs, path, text, k);
    }
  }

  /** Whether everything will be taken out of the directory with the path `text`. */
  ghost predicate IsSure(fs: FileSystem, before: Nodes, text: string) {
    fs.reliable && WillEmpty(before, fs.cwd, text, fs.typed)
  }

  /** The directory `d` with path `text` is partly deleted, and the buffer is at its prefix. */
  ghost predicate IsDeleting(fs: FileSystem, before: Nodes, text: string, d: Key)
    reads fs
  {
    && Lookup(before, fs.cwd, text) == Some(d) && IsDir(before, d) && IsTree(before)
    && IsPartial(before, fs.nodes, d, |text|)
  }

  /** Entries that must still be there can be deleted. */
  lemma EntrySure(fs: FileSystem, before: Nodes, text: string, d: Key, name: string)
    requires IsDeleting(fs, before, text, d) && IsSure(fs, before, text)
    requires IsName(name) && d + [name] in fs.nodes
    ensures |text| + 1 + |name| < PATH_MAX
    ensures Lookup(fs.nodes, fs.cwd, text + "/" + name) == Some(d + [name])
    ensures WillSucceed(fs.nodes, fs.cwd, text + "/" + name, fs.typed)
  {
    ChildFits(before, fs.nodes, d, |text|, name);
    ChildRemovable(before, fs.nodes, fs.cwd, text, d, name);
    RemovableStaysReached(fs.nodes, fs.cwd, text + "/" + name);
  }

  /** The outcome of one entry, seen from its directory. */
  lemma EntryDone(fs: FileSystem, before: Nodes, now: Nodes, text: string, d: Key, name: string, ok: bool)
    requires Lookup(before, fs.cwd, text) == Some(d) && IsDir(before, d) && IsTree(before)
    requires IsPartial(before, now, d, |text|) && IsEntryName(name) && !IsDots(name)
    requires IsEntryOutcome(now, fs.nodes, fs.cwd, text, name, ok)
    ensures IsTree(fs.nodes) && OnlyInside(fs.nodes, before, d)
    ensures ok ==> IsDeleting(fs, before, text, d)
    ensures ok && |text| + 1 + |name| < PATH_MAX ==> fs.nodes == Without(now, d + [name])
  {
    DirTarget(before, fs.cwd, text, d);
    if |text| + 1 + |name| <= PATH_MAX {
      ChildOutcome(before, now, fs.nodes, fs.cwd, text, d, Cut(text, name), |text| + 1 + |name| == PATH_MAX, ok);
    }
  }

  /** What "." and ".." lead to, even if the path is cut, is a directory; it is found while the directory is sure. */
  lemma DotsSeen(fs: FileSystem, before: Nodes, text: string, d: Key, name: string)
    requires IsDeleting(fs, before, text, d) && IsDots(name) && |text| + 1 + |name| <= PATH_MAX
    ensures var k := Lookup(fs.nodes, fs.cwd, text + "/" + Cut(text, name));
            && (k.Some? ==> IsDir(fs.nodes, k.value))
            && (IsSure(fs, before, text) ==> k.Some?)
  {
    DirTarget(before, fs.cwd, text, d);
    ChildSeen(before, fs.nodes, fs.cwd, text, d, Cut(text, name));
    if IsSure(fs, before, text) {
      StillReached(before, fs.nodes, fs.cwd, text, d);
      ChildLookup(fs.nodes, fs.cwd, text, d, Cut(text, name));
    }
  }

  /** Asks for the kind of an entry whose kind reading the directory did not tell. */
  method IsDirectory(
    fs: FileSystem, name: string, path: PathBuffer, ghost before: Nodes, ghost text: string, ghost d: Key)
    returns (r: Option<bool>)
    requires AtPrefix(path, text) && IsEntryName(name) && NUL !in text && IsDeleting(fs, before, text, d)
    modifies path`length, path.data
    ensures Keeps(path, text) && (r.Some? ==> AtPrefix(path, text))
    ensures r.Some? && IsDots(name) ==> r.value
    ensures IsSure(fs, before, text) && IsName(name) && d + [name] in fs.nodes ==>
              r == Some(IsDir(fs.nodes, d + [name]))
    ensures IsSure(fs, before, text) && IsDots(name) && !fs.typed ==> r.Some?
  {
    var pathLength := path.length;
    if IsSure(fs, before, text) && IsName(name) && d + [name] in fs.nodes {
      EntrySure(fs, before, text, d, name);
    }
    var ok := AddName(name, path, text);
    if !ok {
      assert d[|d|..] == [];
      return None;
    }
    if IsDots(name) {
      DotsSeen(fs, before, text, d, name);
    }
    var p := path.AsString();
    var st := fs.Lstat(p);
    if st.None? {
      return None;
    }
    path.Reset(pathLength);
    return Some(st.value.Dir?);
  }

  /** Deletes one entry of which it is known whether it is a directory. */
  method DeleteKnown(
    fs: FileSystem, name: string, isDir: bool, path: PathBuffer, ghost before: Nodes, ghost text: string, ghost d: Key)
    returns (ok: bool)
    requires AtPrefix(path, text) && IsEntryName(name) && NUL !in text && IsDeleting(fs, before, text, d)
    requires IsDots(name) ==> isDir
    modifies fs`nodes, path`length, path.data
    ensures Keeps(path, text) && IsTree(fs.nodes) && OnlyInside(fs.nodes, before, d)
    ensures ok ==> IsDeleting(fs, before, text, d)
    ensures ok && !IsDots(name) && |text| + 1 + |name| < PATH_MAX ==>
              fs.nodes == Without(old(fs.nodes), d + [name])
    ensures IsDots(name) ==> ok && fs.nodes == old(fs.nodes)
    ensures var sure := IsSure(fs, before, text) && IsName(name) && d + [name] in old(fs.nodes);
            sure && isDir == IsDir(old(fs.nodes), d + [name]) ==> ok && fs.nodes == Without(old(fs.nodes), d + [name])
    decreases PATH_MAX - path.length, 2
  {
    ghost var now := fs.nodes;
    if IsSure(fs, before, text) && IsName(name) && d + [name] in fs.nodes {
      EntrySure(fs, before, text, d, name);
    }
    if isDir {
      ok := DeleteDir(fs, name, path, text);
    } else {
      ok := DeleteFile(fs, name, path, text);
    }
    if !IsDots(name) {
      EntryDone(fs, before, now, text, d, name, ok);
    }
  }

  /** Deletes one entry of the directory. */
  method DeleteEntry(
    fs: FileSystem, name: string, dtype: DType, path: PathBuffer, ghost before: Nodes, ghost text: string, ghost d: Key)
    returns (ok: bool)
    requires AtPrefix(path, text) && IsEntryName(name) && NUL !in text && IsDeleting(fs, before, text, d)
    requires (IsDots(name) ==> !dtype.DtOther?) && (fs.typed ==> !dtype.DtUnknown?)
    requires d + [name] in fs.nodes && !dtype.DtUnknown? ==> (dtype.DtDir? <==> IsDir(fs.nodes, d + [name]))
    modifies fs`nodes, path`length, path.data
    ensures Keeps(path, text) && IsTree(fs.nodes) && OnlyInside(fs.nodes, before, d)
    ensures ok ==> IsDeleting(fs, before, text, d)
    ensures ok && !IsDots(name) && |text| + 1 + |name| < PATH_MAX ==>
              fs.nodes == Without(old(fs.nodes), d + [name])
    ensures IsSure(fs, before, text) && IsName(name) && d + [name] in old(fs.nodes) ==>
              ok && fs.nodes == Without(old(fs.nodes), d + [name])
    ensures IsDots(name) ==> fs.nodes == old(fs.nodes) && (IsSure(fs, before, text) ==> ok)
    decreases PATH_MAX - path.length, 3
  {
    var isDir := dtype.DtDir?;
    if dtype.DtUnknown? {
      var asked := IsDirectory(fs, name, path, before, text, d);
      if asked.None? {
        return false;
      }
      isDir := asked.value;
    }
    ok := DeleteKnown(fs, name, isDir, path, before, text, d);
  }

  /** Nothing is left to read: closes the stream and removes the directory. */
  method DeleteEmptied(
    fs: FileSystem, stream: DirStream, path: PathBuffer, ghost before: Nodes, ghost text: string, ghost d: Key)
    returns (ok: bool)
    requires AtPrefix(path, text) && IsDeleting(fs, before, text, d)
    requires fs.reliable ==> stream.closes
    modifies fs`nodes
    ensures IsOutcome(before, fs.nodes, fs.cwd, text, false, ok)
    ensures !stream.closes ==> !ok && fs.nodes == old(fs.nodes)
    ensures IsSure(fs, before, text) && HasNoChild(old(fs.nodes), d) ==> IsFinal(before, fs.nodes, fs.cwd, text, ok)
  {
    var closed := stream.Close();
    if !closed {
      return false;
    }
    var p := path.AsString();
    if |text| + 1 < PATH_MAX {
      SlashEntry(fs.nodes, fs.cwd, text);
    }
    if HasNoChild(fs.nodes, d) {
      AllGone(before, fs.nodes, d, |text|);
    }
    ok := fs.Rmdir(p);
    if ok {
      RmdirOutcome(before, old(fs.nodes), fs.cwd, text, d, Entry(old(fs.nodes), fs.cwd, p).value);
    }
  }

  /** What is pending is what is there, apart from "." and "..". */
  ghost predicate IsComplete(m: Nodes, d: Key, pending: set<string>) {
    && (forall n :: n in pending ==> IsDots(n) || d + [n] in m)
    && (forall n :: d + [n] in m ==> n in pending)
  }

  ghost predicate AreEntryNames(pending: set<string>) {
    forall n :: n in pending ==> IsEntryName(n) && (IsDots(n) || IsName(n))
  }

  lemma NamesAreEntries(m: Nodes, d: Key, n: string)
    requires IsTree(m)
    ensures n in Names(m, d) <==> d + [n] in m
    ensures n in Names(m, d) ==> IsName(n)
  {
    if n in Names(m, d) {
      var k :| k in m && k != [] && Parent(k) == d && k[|k| - 1] == n;
      assert k == d + [n];
    }
    assert Parent(d + [n]) == d && (d + [n])[|d|] == n;
  }

  lemma StartComplete(m: Nodes, d: Key, pending: set<string>)
    requires IsTree(m) && pending == Names(m, d) + {L.DOT, L.DOTDOT}
    ensures IsComplete(m, d, pending) && AreEntryNames(pending)
  {
    hide Names, IsTree;
    forall n
      ensures n in pending <==> IsDots(n) || d + [n] in m
      ensures n in pending ==> IsEntryName(n) && (IsDots(n) || IsName(n))
    {
      NamesAreEntries(m, d, n);
    }
  }

  /** After an entry has been read and deleted, what is pending is again what is there. */
  lemma StaysComplete(now: Nodes, after: Nodes, d: Key, was: set<string>, pending: set<string>, name: string)
    requires IsTree(now) && IsComplete(now, d, was) && pending <= was && name in was && name !in pending
    requires forall n :: n in was && n !in pending && n != name ==> d + [n] !in now
    requires after == if IsDots(name) then now else Without(now, d + [name])
    ensures IsComplete(after, d, pending)
  {
    assert Parent(d + [name]) == d && (d + [name])[|d|] == name;
    forall n | n in pending && !IsDots(n)
      ensures d + [n] in after
    {
      assert (d + [n])[|d|] == n;
    }
  }

  lemma CompleteIsEmpty(m: Nodes, d: Key)
    requires IsComplete(m, d, {})
    ensures HasNoChild(m, d)
  {
    forall k | k in m && k != []
      ensures Parent(k) != d
    {
      assert k == Parent(k) + [k[|k| - 1]];
    }
  }

  /** Reads and deletes the entries of the directory `d`, and then removes the directory. */
  method DeleteEntries(
    fs: FileSystem, stream: DirStream, path: PathBuffer, ghost before: Nodes, ghost text: string, ghost d: Key)
    returns (ok: bool)
    requires AtPrefix(path, text) && NUL !in text && IsDeleting(fs, before, text, d)
    requires stream.dir == d && AreEntryNames(stream.pending) && IsComplete(fs.nodes, d, stream.pending)
    requires fs.reliable ==> stream.closes
    modifies fs`nodes, path`length, path.data, stream
    ensures Keeps(path, text)
    ensures IsOutcome(before, fs.nodes, fs.cwd, text, false, ok)
    ensures !stream.closes ==> !ok
    ensures IsSure(fs, before, text) ==> IsFinal(before, fs.nodes, fs.cwd, text, ok)
    decreases PATH_MAX - path.length, 4
  {
    var pathLength := path.length;
    while true
      invariant AtPrefix(path, text) && IsDeleting(fs, before, text, d)
      invariant AreEntryNames(stream.pending)
      invariant IsSure(fs, before, text) ==> IsComplete(fs.nodes, d, stream.pending)
      decreases stream.pending
    {
      ghost var now, was := fs.nodes, stream.pending;
      var r := stream.Read(fs);
      match r
      case ReadError => return false;
      case End =>
        if IsSure(fs, before, text) {
          assert was == {} || exists n :: n in was;
          CompleteIsEmpty(fs.nodes, d);
        }
        ok := DeleteEmptied(fs, stream, path, before, text, d);
        return;
      case Found(name, dtype) =>
        ok := DeleteEntry(fs, name, dtype, path, before, text, d);
        if !ok {
          return;
        }
        path.Reset(pathLength);
        if IsSure(fs, before, text) {
          StaysComplete(now, fs.nodes, d, was, stream.pending, name);
        }
    }
  }

  /** Opens the directory `d` by its path, and deletes its entries and then itself. */
  method DeleteContents(fs: FileSystem, path: PathBuffer, ghost text: string, ghost d: Key) returns (ok: bool)
    requires AtPrefix(path, text) && NUL !in text && IsTree(fs.nodes)
    requires Lookup(fs.nodes, fs.cwd, text) == Some(d) && IsDir(fs.nodes, d)
    modifies fs`nodes, path`length, path.data
    ensures Keeps(path, text)
    ensures IsOutcome(old(fs.nodes), fs.nodes, fs.cwd, text, false, ok)
    ensures IsSure(fs, old(fs.nodes), text) ==> IsFinal(old(fs.nodes), fs.nodes, fs.cwd, text, ok)
    decreases PATH_MAX - path.length, 5
  {
    var p := path.AsString();
    DirTarget(fs.nodes, fs.cwd, text, d);
    if |text| + 1 < PATH_MAX {
      SlashTarget(fs.nodes, fs.cwd, text, d);
    }
    var dir := fs.OpenDir(p);
    if dir.None? {
      return false;
    }
    StartComplete(fs.nodes, d, dir.value.pending);
    ok := DeleteEntries(fs, dir.value, path, fs.nodes, text, d);
  }

  // ----- the requests -----

  /**
   Deletes the tree behind a path. A name of exactly PATH_MAX characters, which the operating
   system would not accept, is cut by one character and what that names is deleted.
   */
  method DeleteTree(fs: FileSystem, name: string) returns (ok: bool)
    requires NUL !in name && IsTree(fs.nodes)
    modifies fs`nodes
    ensures |name| > PATH_MAX ==> !ok && fs.nodes == old(fs.nodes)
    ensures |name| <= PATH_MAX ==>
              IsOutcome(old(fs.nodes), fs.nodes, fs.cwd, name[..Min(|name|, PATH_MAX - 1)], |name| == PATH_MAX, ok)
    ensures |name| < PATH_MAX ==> name[..|name|] == name
    ensures |name| < PATH_MAX && fs.reliable && WillEmpty(old(fs.nodes), fs.cwd, name, fs.typed) ==>
              IsFinal(old(fs.nodes), fs.nodes, fs.cwd, name, ok)
    ensures |name| == PATH_MAX && fs.reliable ==>
              var k := Lookup(old(fs.nodes), fs.cwd, name[..PATH_MAX - 1]);
              ok == (k.Some? && !IsDir(old(fs.nodes), k.value))
  {
    var path := new PathBuffer();
    ok := path.Add(name);
    if ok {
      assert "" + name == name;
      ok := DeleteRecursively(fs, path);
    }
  }

  /** What can be deleted without recursion: an empty directory, or a link to a directory. */
  ghost predicate IsRemovableAlone(m: Nodes, cwd: Key, name: string) {
    var e, t := Entry(m, cwd, name), Target(m, cwd, name);
    && e.Some?
    && (if IsDir(m, e.value) then HasNoChild(m, e.value)
        else m[e.value].Link? && t.Some? && IsDir(m, t.value) && !EndsInSlash(name))
  }

  method DeleteOne(fs: FileSystem, name: string) returns (ok: bool)
    modifies fs`nodes
    ensures ok ==> IsRemovableAlone(old(fs.nodes), fs.cwd, name)
    ensures fs.reliable && IsRemovableAlone(old(fs.nodes), fs.cwd, name) ==> ok
    ensures fs.nodes == if ok then old(fs.nodes) - {Entry(old(fs.nodes), fs.cwd, name).value} else old(fs.nodes)
  {
    ghost var e := Entry(fs.nodes, fs.cwd, name);
    if e.Some? && (IsDir(fs.nodes, e.value) || !EndsInSlash(name)) {
      EntryIsLookup(fs.nodes, fs.cwd, name, e.value);
    }
    var isLink := false;
    var st := fs.Lstat(name);
    if st.Some? && st.value.Link? {
      isLink := fs.IsDirectoryTarget(name);
    }
    if isLink {
      ok := fs.Unlink(name);
    } else {
      ok := fs.Rmdir(name);
    }
  }

  /** The request to delete a directory. */
  method Delete(fs: FileSystem, name: string, recursive: bool) returns (ok: bool)
    requires NUL !in name && IsTree(fs.nodes)
    modifies fs`nodes
    ensures !recursive ==>
              && (ok ==> IsRemovableAlone(old(fs.nodes), fs.cwd, name))
              && (fs.reliable && IsRemovableAlone(old(fs.nodes), fs.cwd, name) ==> ok)
              && fs.nodes == if ok then old(fs.nodes) - {Entry(old(fs.nodes), fs.cwd, name).value} else old(fs.nodes)
    ensures recursive && |name| > PATH_MAX ==> !ok && fs.nodes == old(fs.nodes)
    ensures recursive && |name| <= PATH_MAX ==>
              IsOutcome(old(fs.nodes), fs.nodes, fs.cwd, name[..Min(|name|, PATH_MAX - 1)], |name| == PATH_MAX, ok)
    ensures recursive && |name| == PATH_MAX && fs.reliable ==>
              var k := Lookup(old(fs.nodes), fs.cwd, name[..PATH_MAX - 1]);
              ok == (k.Some? && !IsDir(old(fs.nodes), k.value))
    ensures recursive && |name| < PATH_MAX && fs.reliable && WillEmpty(old(fs.nodes), fs.cwd, name, fs.typed) ==>
              IsFinal(old(fs.nodes), fs.nodes, fs.cwd, name, ok)
    ensures var k := Lookup(old(fs.nodes), fs.cwd, name);
            recursive && |name| < PATH_MAX && ok ==> k.Some? && fs.nodes == Without(old(fs.nodes), k.value)
    ensures var k := Lookup(old(fs.nodes), fs.cwd, name);
            recursive && |name| < PATH_MAX && fs.reliable && fs.typed ==>
              && (ok <==> IsRemovable(old(fs.nodes), fs.cwd, name) && Fits(old(fs.nodes), k.value, |name|))
              && (!ok && StaysReached(old(fs.nodes), fs.cwd, name) && Fits(old(fs.nodes), k.value, |name|) ==>
                    fs.nodes == Emptied(old(fs.nodes), k.value))
  {
    if recursive {
      if IsRemovable(fs.nodes, fs.cwd, name) {
        RemovableStaysReached(fs.nodes, fs.cwd, name);
      }
      ok := DeleteTree(fs, name);
    } else {
      ok := DeleteOne(fs, name);
    }
  }
}
