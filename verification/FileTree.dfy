/**
 An abstract file system for listing: real directories form a finite forest, symbolic links
 carry an identity (device and inode) and a target that may lie anywhere.
 */
module FileTree {
  import opened Basics
  import opened LexicalPath

  type DirId = int

  /** Device and inode of a symbolic link. */
  type LinkId = (int, int)

  datatype Target = Broken | ToFile | ToDir(id: DirId)

  datatype Kind = File | Dir(id: DirId) | Link(link: LinkId, target: Target)

  /**
   A directory entry. `typeKnown` says whether reading the directory already tells the kind, and
   `statOk` whether asking for the status of the entry succeeds.
   */
  datatype Entry = Entry(name: string, kind: Kind, typeKnown: bool, statOk: bool)

  /**
   `height` bounds the nesting of real directories; `links` holds all symbolic links. An
   `unreadable` directory cannot be opened; reading a `failing` one ends, after the entries given
   for it, in an error.
   */
  datatype FileSystem = FileSystem(
    dirs: map<DirId, seq<Entry>>,
    height: map<DirId, nat>,
    unreadable: set<DirId>,
    failing: set<DirId>,
    links: set<LinkId>)

  predicate IsSelfOrParent(name: string) {
    name == DOT || name == DOTDOT
  }

  /** One entry of directory `d`. */
  predicate IsEntryOk(fs: FileSystem, d: DirId, e: Entry)
    requires d in fs.height
  {
    && e.name != "" && '/' !in e.name && '\0' !in e.name
    && (e.kind.Dir? ==> e.kind.id in fs.dirs && e.kind.id in fs.height)
    && (e.kind.Dir? && !IsSelfOrParent(e.name) ==> fs.height[e.kind.id] < fs.height[d])
    && (e.kind.Link? ==> e.kind.link in fs.links && !IsSelfOrParent(e.name))
    && (e.kind.Link? && e.kind.target.ToDir? ==> e.kind.target.id in fs.dirs && e.kind.target.id in fs.height)
  }

  predicate IsDirOk(fs: FileSystem, d: DirId) {
    && d in fs.dirs && d in fs.height
    && (forall i :: 0 <= i < |fs.dirs[d]| ==> IsEntryOk(fs, d, fs.dirs[d][i]))
    && (forall i, j :: 0 <= i < j < |fs.dirs[d]| ==> fs.dirs[d][i].name != fs.dirs[d][j].name)
  }

  predicate IsWellFormed(fs: FileSystem) {
    forall d :: d in fs.dirs ==> IsDirOk(fs, d)
  }

  // ----- resolving a path -----

  /** The place of the entry called `name`, or the length. */
  function Find(entries: seq<Entry>, name: string): (i: nat)
    ensures i <= |entries|
    ensures i < |entries| ==> entries[i].name == name
    ensures forall j :: 0 <= j < i ==> entries[j].name != name
  {
    if entries == [] || entries[0].name == name then 0 else 1 + Find(entries[1..], name)
  }

  /** The directory that an entry leads to, following a link. */
  function Leads(kind: Kind): Option<DirId> {
    match kind
    case File => None
    case Dir(id) => Some(id)
    case Link(_, target) => if target.ToDir? then Some(target.id) else None
  }

  function Step(fs: FileSystem, d: DirId, name: string): Option<DirId> {
    if name == "" then Some(d)
    else if d !in fs.dirs then None
    else
      var i := Find(fs.dirs[d], name);
      if i == |fs.dirs[d]| then None else Leads(fs.dirs[d][i].kind)
  }

  function Walk(fs: FileSystem, d: DirId, elements: seq<string>): Option<DirId>
    decreases |elements|
  {
    if elements == [] then Some(d)
    else match Step(fs, d, elements[0])
         case None => None
         case Some(next) => Walk(fs, next, elements[1..])
  }

  /**
   The directory that a path names from `cwd`, links followed. A leading `/` is not looked at:
   for an absolute path `cwd` stands for the root.
   */
  function Resolve(fs: FileSystem, cwd: DirId, path: string): Option<DirId> {
    Walk(fs, cwd, Split(path))
  }

  lemma {:induction false} WalkAppend(fs: FileSystem, d: DirId, a: seq<string>, b: seq<string>)
    ensures Walk(fs, d, a + b) ==
            match Walk(fs, d, a) case None => None case Some(next) => Walk(fs, next, b)
    decreases |a|
  {
    if a == [] {
      assert a + b == b;
    } else {
      assert (a + b)[1..] == a[1..] + b;
      match Step(fs, d, a[0])
      case None =>
      case Some(next) => WalkAppend(fs, next, a[1..], b);
    }
  }

  /** A path extended by "/" and a name leads where the entry of that name leads. */
  lemma ResolveChild(fs: FileSystem, cwd: DirId, path: string, name: string)
    requires '/' !in name
    ensures Resolve(fs, cwd, path + "/" + name) ==
            match Resolve(fs, cwd, path) case None => None case Some(d) => Step(fs, d, name)
  {
    SplitAppend(path, name);
    WalkAppend(fs, cwd, Split(path), [name]);
  }

  lemma StepToEntry(fs: FileSystem, d: DirId, i: nat)
    requires IsDirOk(fs, d) && i < |fs.dirs[d]|
    ensures Step(fs, d, fs.dirs[d][i].name) == Leads(fs.dirs[d][i].kind)
  {
    var k := Find(fs.dirs[d], fs.dirs[d][i].name);
    assert IsEntryOk(fs, d, fs.dirs[d][i]);
    assert k == i;
  }
}
