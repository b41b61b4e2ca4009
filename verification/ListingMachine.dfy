/**
 The resumable listing on values: a stack of frames, one per directory being listed, and one
 step that reports at most one item. What is still to be reported is a function of the stack,
 and every step moves items from there to the output.
 */
module ListingMachine {
  import opened Basics
  import opened FileTree
  import opened ListingSpec

  datatype Progress =
    | Pending(path: string, prefix: string)          // pushed, not opened yet
    | Finished                                       // nothing left; the next step pops it
    | Reading(dir: DirId, next: nat, prefix: string) // open, `next` entries read

  /** `base` are the links followed to get here, latest first; `followed` the one just followed from here. */
  datatype Frame = Frame(progress: Progress, base: seq<LinkId>, followed: Option<LinkId>)

  function AsSet(links: seq<LinkId>): set<LinkId> {
    set l | l in links
  }

  function Links(f: Frame): seq<LinkId> {
    if f.followed.Some? then [f.followed.value] + f.base else f.base
  }

  /** The fixed surroundings of one listing. */
  datatype Context = Context(fs: FileSystem, options: Options, cwd: DirId)

  /** `prefix` is a path of directory `d` and a separator. */
  ghost predicate NamesDir(c: Context, prefix: string, d: DirId) {
    && prefix != "" && prefix[|prefix| - 1] == '/'
    && Resolve(c.fs, c.cwd, prefix[..|prefix| - 1]) == Some(d)
  }

  ghost predicate IsProgressOk(c: Context, p: Progress, seen: set<LinkId>) {
    match p
    case Pending(path, prefix) =>
      && prefix != "" && prefix[|prefix| - 1] == '/'
      && Resolve(c.fs, c.cwd, prefix[..|prefix| - 1]) == Resolve(c.fs, c.cwd, path)
    case Finished => true
    case Reading(d, next, prefix) =>
      CanList(c.fs, d, seen) && next <= |c.fs.dirs[d]| && NamesDir(c, prefix, d)
  }

  /** The links followed to a frame, and from it, are links of the file system, and all different. */
  ghost predicate IsFrameOk(c: Context, f: Frame) {
    && IsWellFormed(c.fs)
    && NoDuplicates(Links(f)) && AsSet(Links(f)) <= c.fs.links
    && NoDuplicates(f.base) && AsSet(f.base) <= c.fs.links
    && IsProgressOk(c, f.progress, AsSet(f.base))
  }

  /** Each frame starts with the links its parent has followed; the bottom frame with none. */
  ghost predicate IsStackOk(c: Context, frames: seq<Frame>) {
    var n := |frames|;
    n == 0 ||
    (&& IsStackOk(c, frames[..n - 1])
     && IsFrameOk(c, frames[n - 1])
     && frames[n - 1].base == LinksBelow(frames))
  }

  /** The links that the top frame starts with. */
  function LinksBelow(frames: seq<Frame>): seq<LinkId> {
    if |frames| <= 1 then [] else Links(frames[|frames| - 2])
  }

  /** What is left to report of one frame. */
  ghost function Rest(c: Context, f: Frame): seq<Item>
    requires IsFrameOk(c, f)
  {
    match f.progress
    case Pending(path, prefix) => ListDir(c.fs, c.options, c.cwd, path, prefix, AsSet(f.base))
    case Finished => []
    case Reading(d, next, prefix) => ListEntries(c.fs, c.options, d, next, prefix, AsSet(f.base))
  }

  ghost function RestOfStack(c: Context, frames: seq<Frame>): seq<Item>
    requires IsStackOk(c, frames)
  {
    if frames == [] then []
    else Rest(c, frames[|frames| - 1]) + RestOfStack(c, frames[..|frames| - 1])
  }

  /** Everything still to be reported, the final Done included. */
  ghost function Remaining(c: Context, frames: seq<Frame>): seq<Item>
    requires IsStackOk(c, frames)
  {
    if frames == [] then [] else RestOfStack(c, frames) + [DoneItem]
  }

  // ----- one step -----

  /** The first entry from `i` on that is not "." or "..". */
  function SkipTo(o: Options, entries: seq<Entry>, i: nat, seen: set<LinkId>): (j: nat)
    requires i <= |entries|
    ensures i <= j <= |entries|
    ensures j < |entries| ==> !Classify(o, entries[j], seen).Skip?
    ensures forall k :: i <= k < j ==> Classify(o, entries[k], seen).Skip?
    decreases |entries| - i
  {
    if i == |entries| || !Classify(o, entries[i], seen).Skip? then i else SkipTo(o, entries, i + 1, seen)
  }

  lemma {:induction false} ListEntriesSkip(c: Context, d: DirId, i: nat, j: nat, prefix: string, seen: set<LinkId>)
    requires CanList(c.fs, d, seen) && i <= j <= |c.fs.dirs[d]|
    requires forall k :: i <= k < j ==> Classify(c.options, c.fs.dirs[d][k], seen).Skip?
    ensures ListEntries(c.fs, c.options, d, i, prefix, seen) == ListEntries(c.fs, c.options, d, j, prefix, seen)
    decreases j - i
  {
    if i < j {
      ListEntriesSkip(c, d, i + 1, j, prefix, seen);
    }
  }

  function ItemOf(v: Verdict, path: string): Item
    requires !v.Skip?
  {
    match v
    case ReportFile => FileItem(path)
    case ReportLink => LinkItem(path)
    case ReportError => ErrorItem(path)
    case Enter(_, _) => DirectoryItem(path)
  }

  /** The top frame has just reported entry `j`. */
  function Reported(f: Frame, j: nat, v: Verdict): Frame
    requires f.progress.Reading? && !v.Skip?
  {
    Frame(f.progress.(next := j + 1), f.base, if v.Enter? then v.followed else None)
  }

  function Child(parent: Frame, path: string): Frame {
    Frame(Pending(path, path + "/"), Links(parent), None)
  }

  lemma LinksAfterEnter(f: Frame, v: Verdict, links: set<LinkId>)
    requires NoDuplicates(f.base) && AsSet(f.base) <= links
    requires v.Enter? && v.followed.Some? ==> v.followed.value in links && v.followed.value !in AsSet(f.base)
    ensures var f' := Frame(f.progress, f.base, if v.Enter? then v.followed else None);
            && NoDuplicates(Links(f')) && AsSet(Links(f')) <= links
            && (v.Enter? ==> AsSet(Links(f')) == Seen(AsSet(f.base), v.followed))
  {
    var f' := Frame(f.progress, f.base, if v.Enter? then v.followed else None);
    if v.Enter? && v.followed.Some? {
      assert v.followed.value !in f.base;
      assert forall l :: l in Links(f') <==> l == v.followed.value || l in f.base;
    }
  }

  /** The name of an entry appended to the prefix leads where the entry leads. */
  lemma ChildPath(c: Context, d: DirId, i: nat, prefix: string)
    requires IsWellFormed(c.fs) && d in c.fs.dirs && i < |c.fs.dirs[d]|
    requires NamesDir(c, prefix, d)
    ensures var e := c.fs.dirs[d][i];
            Resolve(c.fs, c.cwd, prefix + e.name) == Leads(e.kind)
  {
    var e := c.fs.dirs[d][i];
    var path := prefix[..|prefix| - 1];
    assert IsDirOk(c.fs, d) && IsEntryOk(c.fs, d, e);
    assert prefix + e.name == path + "/" + e.name;
    ResolveChild(c.fs, c.cwd, path, e.name);
    StepToEntry(c.fs, d, i);
  }

  /** What follows the item of an entered directory. */
  ghost function Inside(c: Context, v: Verdict, path: string, seen: set<LinkId>): seq<Item>
    requires v.Enter? ==> CanList(c.fs, v.dir, Seen(seen, v.followed))
  {
    if !v.Enter? || !c.options.recursive then []
    else if v.dir in c.fs.unreadable then [ErrorItem(path)]
    else ListEntries(c.fs, c.options, v.dir, 0, path + "/", Seen(seen, v.followed))
  }

  lemma ListEntriesAt(c: Context, d: DirId, j: nat, prefix: string, seen: set<LinkId>)
    requires CanList(c.fs, d, seen) && j < |c.fs.dirs[d]|
    requires !Classify(c.options, c.fs.dirs[d][j], seen).Skip?
    ensures var e := c.fs.dirs[d][j];
            var v, path := Classify(c.options, e, seen), prefix + e.name;
            && (v.Enter? ==> CanList(c.fs, v.dir, Seen(seen, v.followed)))
            && (v.Enter? && v.followed.Some? ==> v.followed.value in c.fs.links && v.followed.value !in seen)
            && ListEntries(c.fs, c.options, d, j, prefix, seen) ==
               [ItemOf(v, path)] + Inside(c, v, path, seen) + ListEntries(c.fs, c.options, d, j + 1, prefix, seen)
  {
    var e := c.fs.dirs[d][j];
    var v := Classify(c.options, e, seen);
    assert IsDirOk(c.fs, d) && IsEntryOk(c.fs, d, e);
    if v.Enter? {
      EnterDecreases(c.fs, c.options, d, e, seen);
    }
  }

  /** A pushed frame lists exactly what the traversal lists inside the directory it is for. */
  lemma RestOfChild(c: Context, d: DirId, j: nat, prefix: string, f: Frame)
    requires IsWellFormed(c.fs) && d in c.fs.dirs && j < |c.fs.dirs[d]| && NamesDir(c, prefix, d)
    requires var e := c.fs.dirs[d][j];
             var v := Classify(c.options, e, AsSet(f.base));
             && v.Enter? && c.options.recursive
             && CanList(c.fs, v.dir, Seen(AsSet(f.base), v.followed))
             && AsSet(Links(f)) == Seen(AsSet(f.base), v.followed)
             && NoDuplicates(Links(f))
    ensures var e := c.fs.dirs[d][j];
            var v, path := Classify(c.options, e, AsSet(f.base)), prefix + e.name;
            && IsFrameOk(c, Child(f, path))
            && Rest(c, Child(f, path)) == Inside(c, v, path, AsSet(f.base))
  {
    ChildPath(c, d, j, prefix);
  }

  /** Reporting an entry takes its item, and only that, off what is left. */
  lemma RestAfterEntry(c: Context, f: Frame, j: nat)
    requires IsFrameOk(c, f) && f.progress.Reading?
    requires j < |c.fs.dirs[f.progress.dir]|
    requires !Classify(c.options, c.fs.dirs[f.progress.dir][j], AsSet(f.base)).Skip?
    ensures var e := c.fs.dirs[f.progress.dir][j];
            var v, path := Classify(c.options, e, AsSet(f.base)), f.progress.prefix + e.name;
            var f' := Reported(f, j, v);
            var rest := ListEntries(c.fs, c.options, f.progress.dir, j, f.progress.prefix, AsSet(f.base));
            && IsFrameOk(c, f')
            && (if v.Enter? && c.options.recursive
                then IsFrameOk(c, Child(f', path)) && rest == [ItemOf(v, path)] + Rest(c, Child(f', path)) + Rest(c, f')
                else rest == [ItemOf(v, path)] + Rest(c, f'))
  {
    var d := f.progress.dir;
    var e := c.fs.dirs[d][j];
    var v := Classify(c.options, e, AsSet(f.base));
    ListEntriesAt(c, d, j, f.progress.prefix, AsSet(f.base));
    LinksAfterEnter(f, v, c.fs.links);
    if v.Enter? && c.options.recursive {
      RestOfChild(c, d, j, f.progress.prefix, Reported(f, j, v));
    }
  }

  // ----- a step of the stack -----

  datatype ListType = ListFile | ListDirectory | ListLink | ListError | ListDone

  function TypeOf(v: Verdict): ListType
    requires !v.Skip?
  {
    match v
    case ReportFile => ListFile
    case ReportLink => ListLink
    case ReportError => ListError
    case Enter(_, _) => ListDirectory
  }

  /** What asking a frame for its next entry does to it, what it answers, and the path it is about. */
  datatype Answer = Answer(frame: Frame, kind: ListType, path: string)

  /** Nothing is left to read: the frame is done, or has failed. */
  function AnswerAtEnd(c: Context, f: Frame): Answer
    requires f.progress.Reading?
  {
    if f.progress.dir in c.fs.failing then Answer(Frame(Finished, f.base, None), ListError, f.progress.prefix)
    else Answer(Frame(Finished, f.base, None), ListDone, "")
  }

  /** The next entry of a frame that is reading. */
  function ReadNext(c: Context, f: Frame): Answer
    requires f.progress.Reading?
    requires f.progress.dir in c.fs.dirs && f.progress.next <= |c.fs.dirs[f.progress.dir]|
  {
    var entries, seen := c.fs.dirs[f.progress.dir], AsSet(f.base);
    var j := SkipTo(c.options, entries, f.progress.next, seen);
    if j == |entries| then AnswerAtEnd(c, f)
    else
      var v := Classify(c.options, entries[j], seen);
      Answer(Reported(f, j, v), TypeOf(v), f.progress.prefix + entries[j].name)
  }

  function OpenTop(c: Context, f: Frame): Frame
    requires f.progress.Pending?
  {
    match Open(c.fs, c.cwd, f.progress.path)
    case None => Frame(Finished, f.base, None)
    case Some(d) => Frame(Reading(d, 0, f.progress.prefix), f.base, None)
  }

  ghost function Next(c: Context, f: Frame): Answer
    requires IsFrameOk(c, f)
  {
    match f.progress
    case Finished => Answer(f, ListDone, "")
    case Pending(path, _) =>
      var g := OpenTop(c, f);
      if g.progress.Finished? then Answer(g, ListError, path) else ReadNext(c, g)
    case Reading(_, _, _) => ReadNext(c, f)
  }

  /** The stack after a step, and the items the step reports. */
  datatype Outcome = Outcome(frames: seq<Frame>, items: seq<Item>)

  function ItemFor(kind: ListType, path: string): Item {
    match kind
    case ListFile => FileItem(path)
    case ListDirectory => DirectoryItem(path)
    case ListLink => LinkItem(path)
    case ListError => ErrorItem(path)
    case ListDone => DoneItem
  }

  /** A finished frame is popped; otherwise its answer is reported, and an entered directory pushed. */
  function Dispatch(c: Context, frames: seq<Frame>, a: Answer): Outcome
    requires frames != []
  {
    var below := frames[..|frames| - 1];
    if a.kind.ListDone? then Outcome(below, if below == [] then [DoneItem] else [])
    else
      var entered := if a.kind.ListDirectory? && c.options.recursive then [Child(a.frame, a.path)] else [];
      Outcome(below + [a.frame] + entered, [ItemFor(a.kind, a.path)])
  }

  /** Dispatching looks at what lies below the top, not at the top itself. */
  lemma SameDispatch(c: Context, frames: seq<Frame>, a: Answer)
    requires frames != []
    ensures Dispatch(c, frames[..|frames| - 1] + [a.frame], a) == Dispatch(c, frames, a)
  {
    var below := frames[..|frames| - 1];
    assert (below + [a.frame])[..|below|] == below;
  }

  ghost function ListStep(c: Context, frames: seq<Frame>): Outcome
    requires IsStackOk(c, frames) && frames != []
  {
    Dispatch(c, frames, Next(c, frames[|frames| - 1]))
  }

  /** Pushing a frame that starts with the links of the frame below. */
  lemma PushOk(c: Context, frames: seq<Frame>, f: Frame)
    requires IsStackOk(c, frames) && IsFrameOk(c, f)
    requires f.base == if frames == [] then [] else Links(frames[|frames| - 1])
    ensures IsStackOk(c, frames + [f])
    ensures RestOfStack(c, frames + [f]) == Rest(c, f) + RestOfStack(c, frames)
  {
    assert (frames + [f])[..|frames|] == frames;
  }

  /** The answer of a frame takes the reported item, and what a new frame will report, off its rest. */
  ghost predicate Splits(c: Context, a: Answer, rest: seq<Item>) {
    && IsFrameOk(c, a.frame)
    && (a.kind.ListDone? ==> rest == [])
    && (a.kind.ListDirectory? && c.options.recursive ==>
          && IsFrameOk(c, Child(a.frame, a.path))
          && rest == [DirectoryItem(a.path)] + Rest(c, Child(a.frame, a.path)) + Rest(c, a.frame))
    && (!a.kind.ListDone? && !(a.kind.ListDirectory? && c.options.recursive) ==>
          rest == [ItemFor(a.kind, a.path)] + Rest(c, a.frame))
  }

  lemma ReadNextSplits(c: Context, f: Frame)
    requires IsFrameOk(c, f) && f.progress.Reading?
    ensures Splits(c, ReadNext(c, f), Rest(c, f)) && ReadNext(c, f).frame.base == f.base
  {
    var d, seen := f.progress.dir, AsSet(f.base);
    var j := SkipTo(c.options, c.fs.dirs[d], f.progress.next, seen);
    ListEntriesSkip(c, d, f.progress.next, j, f.progress.prefix, seen);
    if j < |c.fs.dirs[d]| {
      RestAfterEntry(c, f, j);
    }
  }

  lemma OpenTopOk(c: Context, f: Frame)
    requires IsFrameOk(c, f) && f.progress.Pending?
    ensures IsFrameOk(c, OpenTop(c, f))
    ensures Rest(c, f) ==
            (if OpenTop(c, f).progress.Finished? then [ErrorItem(f.progress.path)] else []) + Rest(c, OpenTop(c, f))
  {
  }

  lemma NextSplits(c: Context, f: Frame)
    requires IsFrameOk(c, f)
    ensures Splits(c, Next(c, f), Rest(c, f)) && Next(c, f).frame.base == f.base
  {
    match f.progress
    case Finished =>
    case Pending(_, _) =>
      OpenTopOk(c, f);
      if !OpenTop(c, f).progress.Finished? { ReadNextSplits(c, OpenTop(c, f)); }
    case Reading(_, _, _) => ReadNextSplits(c, f);
  }

  lemma Regroup<X>(item: X, a: seq<X>, b: seq<X>, rest: seq<X>)
    ensures ([item] + a + b) + rest == [item] + (a + (b + rest))
    ensures ([item] + b) + rest == [item] + (b + rest)
  {
  }

  lemma RemainingAfter(c: Context, frames: seq<Frame>, frames': seq<Frame>, item: Item)
    requires IsStackOk(c, frames) && IsStackOk(c, frames') && frames != [] && frames' != []
    requires RestOfStack(c, frames) == [item] + RestOfStack(c, frames')
    ensures Remaining(c, frames) == [item] + Remaining(c, frames')
  {
    Regroup(item, [], RestOfStack(c, frames'), [DoneItem]);
  }

  /** Dispatching an answer conserves the listing: reported plus remaining stays the same. */
  lemma DispatchConserves(c: Context, frames: seq<Frame>, a: Answer)
    requires IsStackOk(c, frames) && frames != []
    requires Splits(c, a, Rest(c, frames[|frames| - 1])) && a.frame.base == frames[|frames| - 1].base
    ensures var r := Dispatch(c, frames, a);
            IsStackOk(c, r.frames) && Remaining(c, frames) == r.items + Remaining(c, r.frames)
  {
    var below := frames[..|frames| - 1];
    var r := Dispatch(c, frames, a);
    if a.kind.ListDone? {
      assert RestOfStack(c, frames) == RestOfStack(c, below);
    } else {
      PushOk(c, below, a.frame);
      if a.kind.ListDirectory? && c.options.recursive {
        PushOk(c, below + [a.frame], Child(a.frame, a.path));
        Regroup(r.items[0], Rest(c, Child(a.frame, a.path)), Rest(c, a.frame), RestOfStack(c, below));
      } else {
        assert r.frames == below + [a.frame];
        Regroup(r.items[0], [], Rest(c, a.frame), RestOfStack(c, below));
      }
      RemainingAfter(c, frames, r.frames, r.items[0]);
    }
  }

  /** Every step keeps the stack well formed and conserves the listing. */
  lemma ListStepConserves(c: Context, frames: seq<Frame>)
    requires IsStackOk(c, frames) && frames != []
    ensures var r := ListStep(c, frames);
            IsStackOk(c, r.frames) && Remaining(c, frames) == r.items + Remaining(c, r.frames)
  {
    NextSplits(c, frames[|frames| - 1]);
    DispatchConserves(c, frames, Next(c, frames[|frames| - 1]));
  }

  /** A step reports at most one item, or else pops a frame, so no listing goes on forever; Done comes last. */
  lemma ListStepProgresses(c: Context, frames: seq<Frame>)
    requires IsStackOk(c, frames) && frames != []
    ensures var r := ListStep(c, frames);
            && |r.items| <= 1
            && (r.items == [] ==> |r.frames| < |frames|)
            && (r.frames == [] <==> r.items == [DoneItem])
  {
  }

  /** The stack of a new listing; the directory name ends in a separator. */
  function StartStack(dirName: string): seq<Frame> {
    [Frame(Pending(dirName, dirName), [], None)]
  }

  /** A new listing has the whole traversal, and a final Done, before it. */
  lemma StartRemaining(c: Context, dirName: string)
    requires IsWellFormed(c.fs) && dirName != "" && dirName[|dirName| - 1] == '/'
    ensures IsStackOk(c, StartStack(dirName))
    ensures Remaining(c, StartStack(dirName)) ==
            ListDir(c.fs, c.options, c.cwd, dirName, dirName, {}) + [DoneItem]
  {
    var path := dirName[..|dirName| - 1];
    assert dirName == path + "/" + "";
    ResolveChild(c.fs, c.cwd, path, "");
    var f := Frame(Pending(dirName, dirName), [], None);
    assert AsSet(f.base) == {};
    PushOk(c, [], f);
    assert [] + [f] == StartStack(dirName);
  }
}
