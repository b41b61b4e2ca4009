/**
 What the recursive listing contains, said without recursion over its order: exactly the
 entries that a chain of names leads to, each under the path those names make.
 */
module ListingFacts {
  import opened Basics
  import L = LexicalPath
  import opened FileTree
  import opened ListingSpec

  // ----- what the kinds of entries mean for a listing -----

  /** Reading has told all that is needed of the entry, or asking for its status succeeds. */
  predicate IsKnown(o: Options, e: Entry) {
    e.statOk || (e.typeKnown && !(o.followLinks && e.kind.Link?))
  }

  /** A link that is looked through: links are to be followed, this one leads somewhere, and not for the second time. */
  predicate IsFollowed(o: Options, e: Entry, seen: set<LinkId>) {
    e.kind.Link? && o.followLinks && !e.kind.target.Broken? && e.kind.link !in seen
  }

  /** The directory that the listing enters through an entry. */
  function Entered(o: Options, e: Entry, seen: set<LinkId>): Option<DirId> {
    if !IsKnown(o, e) then None
    else if e.kind.Dir? && e.name !in [".", ".."] then Some(e.kind.id)
    else if IsFollowed(o, e, seen) && e.kind.target.ToDir? then Some(e.kind.target.id)
    else None
  }

  /** The links followed on the way into that directory. */
  function SeenInside(o: Options, e: Entry, seen: set<LinkId>): set<LinkId> {
    if IsFollowed(o, e, seen) then seen + {e.kind.link} else seen
  }

  /**
   The items of an entry whose path is `path`. A directory that cannot be opened is reported and
   followed by an error, and one whose reading fails has an error at its end.
   */
  predicate IsItemOf(fs: FileSystem, o: Options, e: Entry, seen: set<LinkId>, path: string, item: Item) {
    match item
    case FileItem(q) =>
      q == path && IsKnown(o, e) && (e.kind.File? || (IsFollowed(o, e, seen) && e.kind.target.ToFile?))
    case LinkItem(q) => q == path && IsKnown(o, e) && e.kind.Link? && !IsFollowed(o, e, seen)
    case DirectoryItem(q) => q == path && Entered(o, e, seen).Some?
    case DoneItem => false
    case ErrorItem(q) =>
      var d := Entered(o, e, seen);
      || (q == path && !IsKnown(o, e))
      || (q == path && o.recursive && d.Some? && d.value in fs.unreadable)
      || (q == path + "/" && o.recursive && d.Some? && d.value !in fs.unreadable && d.value in fs.failing)
  }

  /** Which entries are entered, and how, is what the traversal decides. */
  lemma EnterIff(o: Options, e: Entry, seen: set<LinkId>)
    ensures var v := Classify(o, e, seen);
            && (v.Enter? <==> Entered(o, e, seen).Some?)
            && (v.Enter? ==> v.dir == Entered(o, e, seen).value && Seen(seen, v.followed) == SeenInside(o, e, seen))
  {
  }

  lemma VerdictItems(fs: FileSystem, o: Options, e: Entry, seen: set<LinkId>, path: string, item: Item)
    ensures IsItemOfVerdict(fs, o, Classify(o, e, seen), path, item) <==> IsItemOf(fs, o, e, seen, path, item)
  {
    EnterIff(o, e, seen);
  }

  /** The entry that `names` lead to from `d`, through directories that are entered, and the links followed. */
  ghost function EntryAt(fs: FileSystem, o: Options, d: DirId, names: seq<string>, seen: set<LinkId>)
    : Option<(Entry, set<LinkId>)>
    requires CanList(fs, d, seen)
    decreases |names|
  {
    if names == [] || Find(fs.dirs[d], names[0]) == |fs.dirs[d]| then None
    else
      var e := fs.dirs[d][Find(fs.dirs[d], names[0])];
      if |names| == 1 then Some((e, seen))
      else
        var child := Entered(o, e, seen);
        if child.None? || !o.recursive || child.value in fs.unreadable then None
        else
          assert IsDirOk(fs, d) && IsEntryOk(fs, d, e);
          EnterIff(o, e, seen);
          EnterDecreases(fs, o, d, e, seen);
          EntryAt(fs, o, child.value, names[1..], SeenInside(o, e, seen))
  }

  /** `names` lead to an entry that the item is of. */
  ghost predicate IsFoundBy(
    fs: FileSystem, o: Options, d: DirId, prefix: string, seen: set<LinkId>, item: Item, names: seq<string>)
    requires CanList(fs, d, seen)
  {
    var r := EntryAt(fs, o, d, names, seen);
    r.Some? && IsItemOf(fs, o, r.value.0, r.value.1, PathAt(prefix, names), item)
  }

  // ----- the traversal -----

  /** What is to be done about the entry that `names` lead to from `d`, through directories that are entered. */
  ghost function VerdictAt(fs: FileSystem, o: Options, d: DirId, names: seq<string>, seen: set<LinkId>): Option<Verdict>
    requires CanList(fs, d, seen)
    decreases |names|
  {
    if names == [] || Find(fs.dirs[d], names[0]) == |fs.dirs[d]| then None
    else
      var e := fs.dirs[d][Find(fs.dirs[d], names[0])];
      var v := Classify(o, e, seen);
      assert IsDirOk(fs, d) && IsEntryOk(fs, d, e);
      if v.Skip? then None
      else if |names| == 1 then Some(v)
      else if v.Enter? && o.recursive && v.dir !in fs.unreadable then
        EnterDecreases(fs, o, d, e, seen);
        VerdictAt(fs, o, v.dir, names[1..], Seen(seen, v.followed))
      else None
  }

  function PathAt(prefix: string, names: seq<string>): string
    decreases |names|
  {
    if names == [] then prefix
    else if |names| == 1 then prefix + names[0]
    else PathAt(prefix + names[0] + "/", names[1..])
  }

  /** The items a verdict stands for. */
  predicate IsItemOfVerdict(fs: FileSystem, o: Options, v: Verdict, path: string, item: Item) {
    match v
    case Skip => false
    case ReportFile => item == FileItem(path)
    case ReportLink => item == LinkItem(path)
    case ReportError => item == ErrorItem(path)
    case Enter(dir, _) =>
      || item == DirectoryItem(path)
      || (o.recursive && item in if dir in fs.unreadable then [ErrorItem(path)] else AtEnd(fs, dir, path + "/"))
  }

  ghost predicate HasVerdict(
    fs: FileSystem, o: Options, d: DirId, prefix: string, seen: set<LinkId>, item: Item, names: seq<string>)
    requires CanList(fs, d, seen)
  {
    var v := VerdictAt(fs, o, d, names, seen);
    v.Some? && IsItemOfVerdict(fs, o, v.value, PathAt(prefix, names), item)
  }

  /** What the entry `e` itself contributes to the listing of its directory. */
  function Here(fs: FileSystem, o: Options, d: DirId, i: nat, prefix: string, seen: set<LinkId>): seq<Item>
    requires CanList(fs, d, seen) && i < |fs.dirs[d]|
  {
    var e := fs.dirs[d][i];
    assert IsDirOk(fs, d) && IsEntryOk(fs, d, e);
    var path, v := prefix + e.name, Classify(o, e, seen);
    match v
    case Skip => []
    case ReportFile => [FileItem(path)]
    case ReportLink => [LinkItem(path)]
    case ReportError => [ErrorItem(path)]
    case Enter(child, followed) =>
      EnterDecreases(fs, o, d, e, seen);
      [DirectoryItem(path)] +
      (if !o.recursive then []
       else if child in fs.unreadable then [ErrorItem(path)]
       else ListEntries(fs, o, child, 0, path + "/", Seen(seen, followed)))
  }

  lemma EntriesSplit(fs: FileSystem, o: Options, d: DirId, i: nat, prefix: string, seen: set<LinkId>)
    requires CanList(fs, d, seen) && i < |fs.dirs[d]|
    ensures ListEntries(fs, o, d, i, prefix, seen) ==
            Here(fs, o, d, i, prefix, seen) + ListEntries(fs, o, d, i + 1, prefix, seen)
  {
  }

  lemma FindName(fs: FileSystem, d: DirId, i: nat)
    requires IsDirOk(fs, d) && i < |fs.dirs[d]|
    ensures Find(fs.dirs[d], fs.dirs[d][i].name) == i
  {
  }

  lemma {:induction false} EndListed(
    fs: FileSystem, o: Options, d: DirId, i: nat, prefix: string, seen: set<LinkId>, item: Item)
    requires CanList(fs, d, seen) && i <= |fs.dirs[d]| && item in AtEnd(fs, d, prefix)
    ensures item in ListEntries(fs, o, d, i, prefix, seen)
    decreases |fs.dirs[d]| - i
  {
    if i < |fs.dirs[d]| {
      EndListed(fs, o, d, i + 1, prefix, seen, item);
    }
  }

  /** Every item of the listing is found by some names, except the error that its own end may be. */
  lemma {:induction false} Sound(
    fs: FileSystem, o: Options, d: DirId, i: nat, prefix: string, seen: set<LinkId>, item: Item)
    returns (names: seq<string>)
    requires CanList(fs, d, seen) && i <= |fs.dirs[d]| && item in ListEntries(fs, o, d, i, prefix, seen)
    requires item !in AtEnd(fs, d, prefix)
    ensures HasVerdict(fs, o, d, prefix, seen, item, names)
    decreases |fs.links - seen|, fs.height[d], |fs.dirs[d]| - i
  {
    var e := fs.dirs[d][i];
    assert IsDirOk(fs, d) && IsEntryOk(fs, d, e);
    if item in Here(fs, o, d, i, prefix, seen) {
      FindName(fs, d, i);
      var v := Classify(o, e, seen);
      names := [e.name];
      var inner := v.Enter? && item != DirectoryItem(prefix + e.name) && v.dir !in fs.unreadable;
      if inner && item !in AtEnd(fs, v.dir, prefix + e.name + "/") {
        EnterDecreases(fs, o, d, e, seen);
        var rest := Sound(fs, o, v.dir, 0, prefix + e.name + "/", Seen(seen, v.followed), item);
        names := [e.name] + rest;
        assert names[1..] == rest;
      }
    } else {
      names := Sound(fs, o, d, i + 1, prefix, seen, item);
    }
  }

  /** The items of an entry are in its contribution. */
  lemma EntryListed(fs: FileSystem, o: Options, d: DirId, i: nat, prefix: string, seen: set<LinkId>, item: Item)
    requires CanList(fs, d, seen) && i < |fs.dirs[d]|
    requires IsItemOfVerdict(fs, o, Classify(o, fs.dirs[d][i], seen), prefix + fs.dirs[d][i].name, item)
    ensures item in Here(fs, o, d, i, prefix, seen)
  {
    var e := fs.dirs[d][i];
    assert IsDirOk(fs, d) && IsEntryOk(fs, d, e);
    var path, v := prefix + e.name, Classify(o, e, seen);
    if v.Enter? && o.recursive && v.dir !in fs.unreadable && item != DirectoryItem(path) {
      EnterDecreases(fs, o, d, e, seen);
      EndListed(fs, o, v.dir, 0, path + "/", Seen(seen, v.followed), item);
    }
  }

  /** Whatever names find is in the listing. */
  lemma {:induction false} Complete(
    fs: FileSystem, o: Options, d: DirId, i: nat, prefix: string, seen: set<LinkId>, item: Item, names: seq<string>)
    requires CanList(fs, d, seen) && HasVerdict(fs, o, d, prefix, seen, item, names)
    requires i <= Find(fs.dirs[d], names[0])
    ensures item in ListEntries(fs, o, d, i, prefix, seen)
    decreases |names|, |fs.dirs[d]| - i
  {
    hide ListEntries;
    var k := Find(fs.dirs[d], names[0]);
    EntriesSplit(fs, o, d, i, prefix, seen);
    if i < k {
      Complete(fs, o, d, i + 1, prefix, seen, item, names);
    } else {
      var e := fs.dirs[d][k];
      assert IsDirOk(fs, d) && IsEntryOk(fs, d, e);
      if |names| > 1 {
        EnterDecreases(fs, o, d, e, seen);
        var v := Classify(o, e, seen);
        Complete(fs, o, v.dir, 0, prefix + e.name + "/", Seen(seen, v.followed), item, names[1..]);
      } else {
        EntryListed(fs, o, d, i, prefix, seen, item);
      }
      assert item in Here(fs, o, d, i, prefix, seen);
    }
  }

  /** Names lead to an entry in the one sense exactly if they lead to its verdict in the other. */
  lemma {:induction false} VerdictOfEntry(
    fs: FileSystem, o: Options, d: DirId, names: seq<string>, seen: set<LinkId>)
    requires CanList(fs, d, seen)
    ensures var r, v := EntryAt(fs, o, d, names, seen), VerdictAt(fs, o, d, names, seen);
            if r.None? then v.None?
            else
              var w := Classify(o, r.value.0, r.value.1);
              v == if w.Skip? then None else Some(w)
    decreases |names|
  {
    if names != [] && Find(fs.dirs[d], names[0]) < |fs.dirs[d]| {
      var e := fs.dirs[d][Find(fs.dirs[d], names[0])];
      EnterIff(o, e, seen);
      var child := Entered(o, e, seen);
      if |names| > 1 && child.Some? && o.recursive && child.value !in fs.unreadable {
        assert IsDirOk(fs, d) && IsEntryOk(fs, d, e);
        EnterDecreases(fs, o, d, e, seen);
        VerdictOfEntry(fs, o, child.value, names[1..], SeenInside(o, e, seen));
      }
    }
  }

  lemma FoundIffVerdict(
    fs: FileSystem, o: Options, d: DirId, prefix: string, seen: set<LinkId>, item: Item, names: seq<string>)
    requires CanList(fs, d, seen)
    ensures IsFoundBy(fs, o, d, prefix, seen, item, names) <==> HasVerdict(fs, o, d, prefix, seen, item, names)
  {
    hide IsItemOf, IsItemOfVerdict, EntryAt, VerdictAt, Classify;
    VerdictOfEntry(fs, o, d, names, seen);
    var r := EntryAt(fs, o, d, names, seen);
    if r.Some? {
      VerdictItems(fs, o, r.value.0, r.value.1, PathAt(prefix, names), item);
      SkipHasNoItem(fs, o, PathAt(prefix, names), item);
    }
  }

  lemma SkipHasNoItem(fs: FileSystem, o: Options, path: string, item: Item)
    ensures !IsItemOfVerdict(fs, o, Skip, path, item)
  {
  }

  /** A directory's listing holds exactly what some names find, and an error if reading it fails. */
  lemma ListedIffFound(fs: FileSystem, o: Options, d: DirId, prefix: string, seen: set<LinkId>, item: Item)
    requires CanList(fs, d, seen)
    ensures item in ListEntries(fs, o, d, 0, prefix, seen) <==>
            || (d in fs.failing && item == ErrorItem(prefix))
            || exists names :: IsFoundBy(fs, o, d, prefix, seen, item, names)
  {
    hide ListEntries, IsFoundBy, HasVerdict;
    if item in AtEnd(fs, d, prefix) {
      EndListed(fs, o, d, 0, prefix, seen, item);
    } else if item in ListEntries(fs, o, d, 0, prefix, seen) {
      var names := Sound(fs, o, d, 0, prefix, seen, item);
      FoundIffVerdict(fs, o, d, prefix, seen, item, names);
    }
    if names :| IsFoundBy(fs, o, d, prefix, seen, item, names) {
      FoundIffVerdict(fs, o, d, prefix, seen, item, names);
      CompleteFromStart(fs, o, d, prefix, seen, item, names);
    }
  }

  lemma CompleteFromStart(
    fs: FileSystem, o: Options, d: DirId, prefix: string, seen: set<LinkId>, item: Item, names: seq<string>)
    requires CanList(fs, d, seen) && HasVerdict(fs, o, d, prefix, seen, item, names)
    ensures item in ListEntries(fs, o, d, 0, prefix, seen)
  {
    Complete(fs, o, d, 0, prefix, seen, item, names);
  }

  // ----- nothing is reported twice -----

  /** The path is that of the entry `name` behind the prefix, or of something inside it. */
  predicate HasStem(path: string, prefix: string, name: string) {
    var n := |prefix| + |name|;
    prefix + name <= path && (|path| == n || path[n] == '/')
  }

  lemma StemUnique(path: string, prefix: string, a: string, b: string)
    requires HasStem(path, prefix, a) && HasStem(path, prefix, b) && '/' !in a && '/' !in b
    ensures a == b
  {
    var n := |prefix|;
    assert forall i :: 0 <= i < |a| ==> a[i] == (prefix + a)[n + i] == path[n + i];
    assert forall i :: 0 <= i < |b| ==> b[i] == (prefix + b)[n + i] == path[n + i];
    assert |a| >= |b|;
    assert |b| >= |a|;
  }

  /** Whatever is in the listing from `i` on has the stem of one of the entries from `i` on, or is its end. */
  lemma {:induction false} ListedStem(
    fs: FileSystem, o: Options, d: DirId, i: nat, prefix: string, seen: set<LinkId>, item: Item)
    returns (k: nat)
    requires CanList(fs, d, seen) && i <= |fs.dirs[d]| && item in ListEntries(fs, o, d, i, prefix, seen)
    ensures !item.DoneItem? && prefix <= item.path
    ensures item in AtEnd(fs, d, prefix) || (i <= k < |fs.dirs[d]| && HasStem(item.path, prefix, fs.dirs[d][k].name))
    decreases |fs.links - seen|, fs.height[d], |fs.dirs[d]| - i
  {
    k := i;
    if i == |fs.dirs[d]| {
    } else if item in Here(fs, o, d, i, prefix, seen) {
      HereStem(fs, o, d, i, prefix, seen, item);
    } else {
      k := ListedStem(fs, o, d, i + 1, prefix, seen, item);
    }
  }

  lemma {:induction false} HereStem(
    fs: FileSystem, o: Options, d: DirId, i: nat, prefix: string, seen: set<LinkId>, item: Item)
    requires CanList(fs, d, seen) && i < |fs.dirs[d]| && item in Here(fs, o, d, i, prefix, seen)
    ensures !item.DoneItem? && HasStem(item.path, prefix, fs.dirs[d][i].name)
    ensures item != DirectoryItem(prefix + fs.dirs[d][i].name) && item != ErrorItem(prefix + fs.dirs[d][i].name) ==>
              Classify(o, fs.dirs[d][i], seen).Enter? ==> prefix + fs.dirs[d][i].name + "/" <= item.path
    decreases |fs.links - seen|, fs.height[d], |fs.dirs[d]| - i, 0
  {
    var e := fs.dirs[d][i];
    assert IsDirOk(fs, d) && IsEntryOk(fs, d, e);
    var path, v := prefix + e.name, Classify(o, e, seen);
    if v.Enter? && item != DirectoryItem(path) && item != ErrorItem(path) {
      EnterDecreases(fs, o, d, e, seen);
      var k := ListedStem(fs, o, v.dir, 0, path + "/", Seen(seen, v.followed), item);
      assert path + "/" <= item.path;
      assert (path + "/")[|path|] == '/';
    }
  }

  lemma JoinNoDuplicates(a: seq<Item>, b: seq<Item>)
    requires NoDuplicates(a) && NoDuplicates(b) && forall x :: x in a ==> x !in b
    ensures NoDuplicates(a + b)
  {
    forall i, j | 0 <= i < j < |a + b|
      ensures (a + b)[i] != (a + b)[j]
    {
      if i < |a| <= j {
        assert a[i] in a && b[j - |a|] in b;
      }
    }
  }

  /** The contribution of one entry repeats nothing. */
  lemma {:induction false} HereNoDuplicates(
    fs: FileSystem, o: Options, d: DirId, i: nat, prefix: string, seen: set<LinkId>)
    requires CanList(fs, d, seen) && i < |fs.dirs[d]|
    ensures NoDuplicates(Here(fs, o, d, i, prefix, seen))
    decreases |fs.links - seen|, fs.height[d], |fs.dirs[d]| - i, 0
  {
    var e := fs.dirs[d][i];
    assert IsDirOk(fs, d) && IsEntryOk(fs, d, e);
    var path, v := prefix + e.name, Classify(o, e, seen);
    if v.Enter? && o.recursive && v.dir !in fs.unreadable {
      EnterDecreases(fs, o, d, e, seen);
      var inner := ListEntries(fs, o, v.dir, 0, path + "/", Seen(seen, v.followed));
      EntriesNoDuplicates(fs, o, v.dir, 0, path + "/", Seen(seen, v.followed));
      if DirectoryItem(path) in inner {
        var k := ListedStem(fs, o, v.dir, 0, path + "/", Seen(seen, v.followed), DirectoryItem(path));
      }
      JoinNoDuplicates([DirectoryItem(path)], inner);
    }
  }

  /** No item is listed twice: each entry is reported once. */
  lemma {:induction false} EntriesNoDuplicates(
    fs: FileSystem, o: Options, d: DirId, i: nat, prefix: string, seen: set<LinkId>)
    requires CanList(fs, d, seen) && i <= |fs.dirs[d]|
    ensures NoDuplicates(ListEntries(fs, o, d, i, prefix, seen))
    decreases |fs.links - seen|, fs.height[d], |fs.dirs[d]| - i, 1
  {
    if i < |fs.dirs[d]| {
      var here, rest := Here(fs, o, d, i, prefix, seen), ListEntries(fs, o, d, i + 1, prefix, seen);
      HereNoDuplicates(fs, o, d, i, prefix, seen);
      EntriesNoDuplicates(fs, o, d, i + 1, prefix, seen);
      forall x | x in here
        ensures x !in rest
      {
        Separate(fs, o, d, i, prefix, seen, x);
      }
      JoinNoDuplicates(here, rest);
      EntriesSplit(fs, o, d, i, prefix, seen);
    }
  }

  lemma Separate(fs: FileSystem, o: Options, d: DirId, i: nat, prefix: string, seen: set<LinkId>, x: Item)
    requires CanList(fs, d, seen) && i < |fs.dirs[d]| && x in Here(fs, o, d, i, prefix, seen)
    ensures x !in ListEntries(fs, o, d, i + 1, prefix, seen)
  {
    HereStem(fs, o, d, i, prefix, seen, x);
    if x in ListEntries(fs, o, d, i + 1, prefix, seen) {
      var k := ListedStem(fs, o, d, i + 1, prefix, seen, x);
      assert IsDirOk(fs, d) && IsEntryOk(fs, d, fs.dirs[d][i]) && IsEntryOk(fs, d, fs.dirs[d][k]);
      StemUnique(x.path, prefix, fs.dirs[d][i].name, fs.dirs[d][k].name);
    }
  }

  // ----- the order of a listing -----

  /** `x` comes before `y`. */
  ghost predicate IsBefore(items: seq<Item>, x: Item, y: Item) {
    exists m, n :: 0 <= m < n < |items| && items[m] == x && items[n] == y
  }

  lemma BeforeAcross(a: seq<Item>, b: seq<Item>, x: Item, y: Item)
    requires x in a && y in b
    ensures IsBefore(a + b, x, y)
  {
    var m, n :| 0 <= m < |a| && a[m] == x && 0 <= n < |b| && b[n] == y;
    assert (a + b)[m] == x && (a + b)[|a| + n] == y;
  }

  lemma BeforeBehind(a: seq<Item>, b: seq<Item>, x: Item, y: Item)
    requires IsBefore(b, x, y)
    ensures IsBefore(a + b, x, y)
  {
    var m, n :| 0 <= m < n < |b| && b[m] == x && b[n] == y;
    assert (a + b)[|a| + m] == x && (a + b)[|a| + n] == y;
  }

  /** What has the stem of a later entry is not in the contribution of an earlier one. */
  lemma NotHere(fs: FileSystem, o: Options, d: DirId, i: nat, k: nat, prefix: string, seen: set<LinkId>, x: Item)
    requires CanList(fs, d, seen) && i < k < |fs.dirs[d]|
    requires !x.DoneItem? && HasStem(x.path, prefix, fs.dirs[d][k].name)
    ensures x !in Here(fs, o, d, i, prefix, seen)
  {
    if x in Here(fs, o, d, i, prefix, seen) {
      HereStem(fs, o, d, i, prefix, seen, x);
      assert IsDirOk(fs, d) && IsEntryOk(fs, d, fs.dirs[d][i]) && IsEntryOk(fs, d, fs.dirs[d][k]);
      StemUnique(x.path, prefix, fs.dirs[d][i].name, fs.dirs[d][k].name);
    }
  }

  /** An item with the stem of an entry is in that entry's contribution, if it is listed from there on. */
  lemma IsHere(fs: FileSystem, o: Options, d: DirId, i: nat, prefix: string, seen: set<LinkId>, x: Item)
    requires CanList(fs, d, seen) && i < |fs.dirs[d]| && x in ListEntries(fs, o, d, i, prefix, seen)
    requires !x.DoneItem? && HasStem(x.path, prefix, fs.dirs[d][i].name)
    ensures x in Here(fs, o, d, i, prefix, seen)
  {
    EntriesSplit(fs, o, d, i, prefix, seen);
    if x in ListEntries(fs, o, d, i + 1, prefix, seen) {
      var k := ListedStem(fs, o, d, i + 1, prefix, seen, x);
      assert IsDirOk(fs, d) && IsEntryOk(fs, d, fs.dirs[d][i]);
      if x !in AtEnd(fs, d, prefix) {
        assert IsEntryOk(fs, d, fs.dirs[d][k]);
        StemUnique(x.path, prefix, fs.dirs[d][i].name, fs.dirs[d][k].name);
      }
    }
  }

  /** Everything about an entry, and inside it, comes before everything about a later entry of its directory. */
  lemma {:induction false} EntriesInOrder(
    fs: FileSystem, o: Options, d: DirId, i: nat, a: nat, b: nat, prefix: string, seen: set<LinkId>, x: Item, y: Item)
    requires CanList(fs, d, seen) && i <= a < b < |fs.dirs[d]|
    requires x in ListEntries(fs, o, d, i, prefix, seen) && y in ListEntries(fs, o, d, i, prefix, seen)
    requires !x.DoneItem? && HasStem(x.path, prefix, fs.dirs[d][a].name)
    requires !y.DoneItem? && HasStem(y.path, prefix, fs.dirs[d][b].name)
    ensures IsBefore(ListEntries(fs, o, d, i, prefix, seen), x, y)
    decreases a - i
  {
    hide ListEntries, Here, HasStem;
    var here, rest := Here(fs, o, d, i, prefix, seen), ListEntries(fs, o, d, i + 1, prefix, seen);
    EntriesSplit(fs, o, d, i, prefix, seen);
    NotHere(fs, o, d, i, b, prefix, seen, y);
    if i == a {
      IsHere(fs, o, d, i, prefix, seen, x);
      BeforeAcross(here, rest, x, y);
    } else {
      NotHere(fs, o, d, i, a, prefix, seen, x);
      EntriesInOrder(fs, o, d, i + 1, a, b, prefix, seen, x, y);
      BeforeBehind(here, rest, x, y);
    }
  }

  /** A directory comes before everything about it and inside it. */
  lemma {:induction false} DirectoryFirst(
    fs: FileSystem, o: Options, d: DirId, i: nat, a: nat, prefix: string, seen: set<LinkId>, y: Item)
    requires CanList(fs, d, seen) && i <= a < |fs.dirs[d]| && Entered(o, fs.dirs[d][a], seen).Some?
    requires y in ListEntries(fs, o, d, i, prefix, seen) && !y.DoneItem?
    requires HasStem(y.path, prefix, fs.dirs[d][a].name) && y != DirectoryItem(prefix + fs.dirs[d][a].name)
    ensures IsBefore(ListEntries(fs, o, d, i, prefix, seen), DirectoryItem(prefix + fs.dirs[d][a].name), y)
    decreases a - i
  {
    hide ListEntries, HasStem;
    var here, rest := Here(fs, o, d, i, prefix, seen), ListEntries(fs, o, d, i + 1, prefix, seen);
    EntriesSplit(fs, o, d, i, prefix, seen);
    if i == a {
      IsHere(fs, o, d, i, prefix, seen, y);
      EnterIff(o, fs.dirs[d][a], seen);
      var x := DirectoryItem(prefix + fs.dirs[d][a].name);
      assert here == [x] + here[1..];
      BeforeAcross([x], here[1..] + rest, x, y);
      assert here + rest == [x] + (here[1..] + rest);
    } else {
      NotHere(fs, o, d, i, a, prefix, seen, y);
      DirectoryFirst(fs, o, d, i + 1, a, prefix, seen, y);
      BeforeBehind(here, rest, DirectoryItem(prefix + fs.dirs[d][a].name), y);
    }
  }

  /** The error of a failing directory comes last. */
  lemma {:induction false} ErrorLast(fs: FileSystem, o: Options, d: DirId, i: nat, prefix: string, seen: set<LinkId>)
    requires CanList(fs, d, seen) && i <= |fs.dirs[d]| && d in fs.failing
    ensures var items := ListEntries(fs, o, d, i, prefix, seen);
            items != [] && items[|items| - 1] == ErrorItem(prefix)
    decreases |fs.dirs[d]| - i
  {
    if i < |fs.dirs[d]| {
      ErrorLast(fs, o, d, i + 1, prefix, seen);
    }
  }

  /** The names are joined by separators. */
  lemma {:induction false} PathAtIsJoin(prefix: string, names: seq<string>)
    ensures PathAt(prefix, names) == prefix + L.Join(names)
    decreases |names|
  {
    if |names| > 1 {
      PathAtIsJoin(prefix + names[0] + "/", names[1..]);
      JoinCons(names);
    }
  }

  lemma {:induction false} JoinCons(names: seq<string>)
    requires |names| > 1
    ensures L.Join(names) == names[0] + "/" + L.Join(names[1..])
  {
    var n := |names| - 1;
    assert names[1..][..n - 1] == names[..n][1..] && names[1..][n - 1] == names[n];
    if n > 1 {
      JoinCons(names[..n]);
    } else {
      assert names[..1] == [names[0]] && names[1..] == [names[1]];
    }
  }

  /** The listing of a path: an error if it cannot be opened, otherwise what names find from its directory. */
  lemma ListDirIff(fs: FileSystem, o: Options, cwd: DirId, path: string, item: Item)
    requires IsWellFormed(fs)
    ensures var d := Resolve(fs, cwd, path);
            item in ListDir(fs, o, cwd, path, path, {}) <==>
            if d.None? || d.value !in fs.dirs || d.value in fs.unreadable then item == ErrorItem(path)
            else
              || (d.value in fs.failing && item == ErrorItem(path))
              || (CanList(fs, d.value, {}) && exists names :: IsFoundBy(fs, o, d.value, path, {}, item, names))
  {
    hide ListEntries, IsFoundBy;
    var d := Open(fs, cwd, path);
    if d.Some? {
      ListedIffFound(fs, o, d.value, path, {}, item);
    }
  }

  lemma ListDirNotDone(fs: FileSystem, o: Options, cwd: DirId, path: string, prefix: string)
    requires IsWellFormed(fs)
    ensures DoneItem !in ListDir(fs, o, cwd, path, prefix, {})
  {
    hide ListEntries;
    var d := Open(fs, cwd, path);
    if d.Some? && DoneItem in ListEntries(fs, o, d.value, 0, prefix, {}) {
      var k := ListedStem(fs, o, d.value, 0, prefix, {}, DoneItem);
    }
  }
}
