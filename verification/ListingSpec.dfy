/**
 The recursive listing as a plain traversal: pre-order, links followed at most once on the
 way to any directory. This is what the resumable listing must produce.
 */
module ListingSpec {
  import opened Basics
  import opened FileTree

  datatype Item =
    | FileItem(path: string)
    | DirectoryItem(path: string)
    | LinkItem(path: string)
    | ErrorItem(path: string)
    | DoneItem

  datatype Options = Options(recursive: bool, followLinks: bool)

  /** What to do with one entry, given the links already followed. */
  datatype Verdict =
    | Skip
    | ReportFile
    | ReportLink
    | ReportError
    | Enter(dir: DirId, followed: Option<LinkId>)

  function Classify(o: Options, e: Entry, seen: set<LinkId>): Verdict {
    if NeedsStat(o, e) && !e.statOk then ReportError
    else
      match e.kind
      case File => ReportFile
      case Dir(id) => if IsSelfOrParent(e.name) then Skip else Enter(id, None)
      case Link(link, target) =>
        if !o.followLinks || link in seen || target.Broken? then ReportLink
        else if target.ToFile? then ReportFile
        else Enter(target.id, Some(link))
  }

  /** The status of an entry is asked for if its kind is not known, or if it is a link to be followed. */
  predicate NeedsStat(o: Options, e: Entry) {
    !e.typeKnown || (e.kind.Link? && o.followLinks)
  }

  function Seen(seen: set<LinkId>, followed: Option<LinkId>): set<LinkId> {
    if followed.Some? then seen + {followed.value} else seen
  }

  predicate CanList(fs: FileSystem, d: DirId, seen: set<LinkId>) {
    IsWellFormed(fs) && d in fs.dirs && d in fs.height && seen <= fs.links
  }

  lemma EnterDecreases(fs: FileSystem, o: Options, d: DirId, e: Entry, seen: set<LinkId>)
    requires CanList(fs, d, seen) && IsEntryOk(fs, d, e) && Classify(o, e, seen).Enter?
    ensures var v := Classify(o, e, seen);
            && CanList(fs, v.dir, Seen(seen, v.followed))
            && (v.followed.Some? ==>
                  v.followed.value !in seen && |fs.links - Seen(seen, v.followed)| < |fs.links - seen|)
            && (v.followed.None? ==> fs.height[v.dir] < fs.height[d])
  {
    var v := Classify(o, e, seen);
    assert v.dir in fs.dirs ==> IsDirOk(fs, v.dir);
    if v.followed.Some? {
      var less := fs.links - Seen(seen, v.followed);
      assert fs.links - seen == less + {v.followed.value};
    }
  }

  /** What the end of a directory reports: nothing, unless reading it has failed. */
  function AtEnd(fs: FileSystem, d: DirId, prefix: string): seq<Item> {
    if d in fs.failing then [ErrorItem(prefix)] else []
  }

  /** The entries of an open directory from index `i` on; `prefix` ends in a separator. */
  function ListEntries(fs: FileSystem, o: Options, d: DirId, i: nat, prefix: string, seen: set<LinkId>): seq<Item>
    requires CanList(fs, d, seen) && i <= |fs.dirs[d]|
    decreases |fs.links - seen|, fs.height[d], |fs.dirs[d]| - i
  {
    if i == |fs.dirs[d]| then AtEnd(fs, d, prefix)
    else
      var e := fs.dirs[d][i];
      assert IsDirOk(fs, d) && IsEntryOk(fs, d, e);
      var path := prefix + e.name;
      var v := Classify(o, e, seen);
      var here :=
        match v {
          case Skip => []
          case ReportFile => [FileItem(path)]
          case ReportLink => [LinkItem(path)]
          case ReportError => [ErrorItem(path)]
          case Enter(child, followed) =>
            EnterDecreases(fs, o, d, e, seen);
            [DirectoryItem(path)] +
            (if !o.recursive then []
             else if child in fs.unreadable then [ErrorItem(path)]
             else ListEntries(fs, o, child, 0, path + "/", Seen(seen, followed)))
        };
      here + ListEntries(fs, o, d, i + 1, prefix, seen)
  }

  /** Opening a path as a directory; none if it names no directory or an unreadable one. */
  function Open(fs: FileSystem, cwd: DirId, path: string): (r: Option<DirId>)
    ensures IsWellFormed(fs) && r.Some? ==> r.value in fs.dirs && r.value in fs.height
  {
    var d := Resolve(fs, cwd, path);
    assert d.Some? && d.value in fs.dirs && IsWellFormed(fs) ==> IsDirOk(fs, d.value);
    if d.Some? && d.value in fs.dirs && d.value !in fs.unreadable then d else None
  }

  /** The directory named by `path`, not opened yet; a path without a directory is an error. */
  function ListDir(fs: FileSystem, o: Options, cwd: DirId, path: string, prefix: string, seen: set<LinkId>): seq<Item>
    requires IsWellFormed(fs) && seen <= fs.links
  {
    match Open(fs, cwd, path)
    case None => [ErrorItem(path)]
    case Some(d) => ListEntries(fs, o, d, 0, prefix, seen)
  }
}
