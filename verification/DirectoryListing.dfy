/**
 The resumable directory listing as objects: a linked stack of entries, one path buffer for
 all of them, and linked lists of followed links that entries share with their parents.
 `live` records the link nodes that are allocated and not deleted yet.
 */
module DirectoryListing {
  import opened Basics
  import opened FileTree
  import opened ListingSpec
  import opened ListingMachine
  import opened ListingPaths
  import opened PathBuffer

  /** A followed link, with the links followed before it. */
  class LinkList {
    const id: LinkId
    const next: LinkList?
    ghost const ids: seq<LinkId>

    ghost predicate Valid()
      decreases |ids|
    {
      && ids != [] && ids[0] == id
      && (if next == null then |ids| == 1 else next.ids == ids[1..] && next.Valid())
    }

    constructor (id: LinkId, next: LinkList?)
      requires next != null ==> next.Valid()
      ensures Valid() && this.id == id && this.next == next
      ensures ids == [id] + Ids(next)
    {
      this.id, this.next := id, next;
      this.ids := [id] + Ids(next);
    }
  }

  ghost predicate IsChain(l: LinkList?) {
    l != null ==> l.Valid()
  }

  ghost function Ids(l: LinkList?): seq<LinkId> {
    if l == null then [] else l.ids
  }

  /** The nodes of a chain of links. */
  ghost function Nodes(l: LinkList?): (r: set<LinkList>)
    requires IsChain(l)
    ensures forall m :: m in r ==> m.Valid() && |m.ids| <= |Ids(l)|
    decreases |Ids(l)|
  {
    if l == null then {} else {l} + Nodes(l.next)
  }

  lemma NodesOf(l: LinkList)
    requires l.Valid()
    ensures IsChain(l.next) && Nodes(l) == {l} + Nodes(l.next)
  {
  }

  /** One directory on the stack; `fd` and `lister` are none until it is opened. */
  class DirectoryListingEntry {
    const parent: DirectoryListingEntry?
    var fd: Option<DirId>
    var lister: Option<nat>
    var done: bool
    var pathLength: nat
    var link: LinkList?

    constructor (parent: DirectoryListingEntry?)
      ensures this.parent == parent
      ensures fd == None && lister == None && !done && link == null
    {
      this.parent := parent;
      fd, lister, done, pathLength, link := None, None, false, 0, null;
    }
  }

  /** The link list that an entry inherits from its parent. */
  ghost function Inherited(parent: DirectoryListingEntry?): LinkList?
    reads parent
  {
    if parent == null then null else parent.link
  }

  /** An entry stands for a frame. */
  ghost predicate EntryMatches(e: DirectoryListingEntry, f: Frame)
    reads e, e.parent
  {
    var base := Inherited(e.parent);
    && IsChain(base) && Ids(base) == f.base
    && match f.progress
       case Pending(path, prefix) =>
         && !e.done && e.fd == None && e.lister == None && e.link == null && f.followed.None?
         && prefix == (if e.parent == null then path else path + "/")
       case Finished => e.done && (e.link == null || e.link == base) && f.followed.None?
       case Reading(d, next, prefix) =>
         && !e.done && e.fd == Some(d) && e.lister == Some(next) && e.pathLength == |prefix|
         && (if f.followed.None? then e.link == base
             else e.link != null && e.link.Valid() && e.link.id == f.followed.value && e.link.next == base)
  }

  ghost predicate Matches(stack: seq<DirectoryListingEntry>, frames: seq<Frame>)
    reads stack
  {
    var n := |stack|;
    && |frames| == n
    && (n > 0 ==>
          && Matches(stack[..n - 1], frames[..n - 1])
          && stack[n - 1] !in stack[..n - 1]
          && stack[n - 1].parent == (if n == 1 then null else stack[n - 2])
          && EntryMatches(stack[n - 1], frames[n - 1]))
  }

  /** The longest chain of links on the stack. */
  ghost function Deepest(stack: seq<DirectoryListingEntry>, frames: seq<Frame>): (l: LinkList?)
    requires Matches(stack, frames)
    reads stack
    ensures IsChain(l)
  {
    var n := |stack|;
    if n == 0 then null
    else if frames[n - 1].progress.Reading? then stack[n - 1].link
    else Inherited(stack[n - 1].parent)
  }

  // ----- who owns the link nodes -----

  /** The test by which an entry knows that it must delete its link: its parent, the entry below, has another one. */
  ghost predicate Owns(stack: seq<DirectoryListingEntry>, i: nat, l: LinkList)
    reads stack
  {
    i < |stack| && stack[i].link == l && (i == 0 || stack[i - 1].link != l)
  }

  /** What the top of a sound stack adds to the nodes of the entries below. */
  lemma TopNodes(c: Context, stack: seq<DirectoryListingEntry>, frames: seq<Frame>)
    requires Matches(stack, frames) && IsSound(c, frames) && stack != []
    ensures var n := |stack| - 1;
            && Matches(stack[..n], frames[..n]) && IsSound(c, frames[..n])
            && var link, base := stack[n].link, Deepest(stack[..n], frames[..n]);
               var all := Nodes(Deepest(stack, frames));
               && base == (if n == 0 then null else stack[n - 1].link)
               && IsChain(link) && Nodes(link) <= all
               && (if link == null || link == base then all == Nodes(base)
                   else all == Nodes(base) + {link} && link !in Nodes(base))
  {
    PopSound(c, frames);
    AnchorBefore(c, frames);
  }

  /** Every entry on the stack, not only the top, points to allocated nodes. */
  lemma {:induction false} EntryAllocated(c: Context, stack: seq<DirectoryListingEntry>, frames: seq<Frame>, i: nat)
    requires Matches(stack, frames) && IsSound(c, frames) && i < |stack|
    ensures IsChain(stack[i].link) && Nodes(stack[i].link) <= Nodes(Deepest(stack, frames))
    decreases |stack|
  {
    hide Nodes, Deepest, EntryMatches, IsSound;
    var n := |stack| - 1;
    TopNodes(c, stack, frames);
    if i < n {
      EntryAllocated(c, stack[..n], frames[..n], i);
    }
  }

  /** Every node that is allocated has exactly one owner, the shallowest entry that points to it. */
  lemma {:induction false} OneOwner(c: Context, stack: seq<DirectoryListingEntry>, frames: seq<Frame>, l: LinkList)
    returns (i: nat)
    requires Matches(stack, frames) && IsSound(c, frames) && l in Nodes(Deepest(stack, frames))
    ensures Owns(stack, i, l)
    ensures forall j: nat :: Owns(stack, j, l) ==> j == i
    ensures forall j :: 0 <= j < i ==> stack[j].link != l
    decreases |stack|
  {
    hide Nodes, EntryMatches, IsSound;
    var n := |stack| - 1;
    TopNodes(c, stack, frames);
    var below, base := stack[..n], Deepest(stack[..n], frames[..n]);
    hide Deepest;
    if l in Nodes(base) {
      i := OneOwner(c, below, frames[..n], l);
      assert forall j: nat :: j < n ==> (Owns(stack, j, l) <==> Owns(below, j, l));
    } else {
      i := n;
      forall j | 0 <= j < n
        ensures stack[j].link != l
      {
        EntryAllocated(c, below, frames[..n], j);
        FirstNode(below[j].link);
      }
    }
  }

  lemma FirstNode(l: LinkList?)
    requires IsChain(l)
    ensures l != null ==> l in Nodes(l)
  {
  }

  class DirectoryListing {
    const context: Context
    const pathBuffer: PathBuffer
    var top: DirectoryListingEntry?
    var error: bool
    ghost var stack: seq<DirectoryListingEntry>
    ghost var frames: seq<Frame>
    ghost var live: set<LinkList>
    ghost var repr: set<DirectoryListingEntry>  // every entry the stack has held

    /** The objects stand for the frames; exactly the nodes on the longest chain are allocated. */
    ghost predicate Linked()
      reads this, stack
    {
      && Matches(stack, frames)
      && top == (if stack == [] then null else stack[|stack| - 1])
      && live == Nodes(Deepest(stack, frames))
    }

    ghost predicate Owned()
      reads this
    {
      forall e :: e in stack ==> e in repr
    }

    /** The buffer begins with `text`. */
    ghost predicate Holds(text: string)
      reads pathBuffer, pathBuffer.data
    {
      && pathBuffer.data.Length == PATH_MAX + 1
      && |text| < PATH_MAX && NUL !in text
      && pathBuffer.data[..|text|] == text
    }

    /** The buffer is exactly `text`. */
    ghost predicate Shows(text: string)
      reads pathBuffer, pathBuffer.data
    {
      pathBuffer.Valid() && |text| < PATH_MAX && pathBuffer.length == |text| && pathBuffer.Text() == text
    }

    /** The buffer begins with the path that the top relies on. */
    ghost predicate Buffered()
      reads this, pathBuffer, pathBuffer.data
    {
      && pathBuffer.Valid() && Holds(Anchor(frames))
      && (frames != [] && frames[|frames| - 1].progress.Pending? ==> Shows(Anchor(frames)))
    }

    ghost predicate Valid()
      reads this, stack, pathBuffer, pathBuffer.data
    {
      Linked() && Buffered() && IsSound(context, frames)
    }

    /** A new listing; it is in error if the name does not fit the buffer. */
    constructor (context: Context, dirName: string)
      requires NUL !in dirName
      ensures this.context == context && fresh(pathBuffer) && fresh(pathBuffer.data) && fresh(repr)
      ensures error <==> |dirName| > PATH_MAX
      ensures Linked() && Owned() && frames == StartStack(dirName)
      ensures |dirName| < PATH_MAX ==> Shows(dirName)
    {
      this.context := context;
      pathBuffer := new PathBuffer();
      var e := new DirectoryListingEntry(null);
      top, stack, frames, live, repr := e, [e], StartStack(dirName), {}, {e};
      new;
      var ok := pathBuffer.Add(dirName);
      error := !ok;
    }

    /** When the stack is empty, every link node has been deleted. */
    lemma NothingLive()
      requires Linked() && top == null
      ensures stack == [] && frames == [] && live == {}
    {
    }

    lemma SomeLeft()
      requires Linked() && (top != null || frames != [])
      ensures stack != [] && frames != []
    {
    }

    /** Every entry points to allocated nodes, and every allocated node has one owner, the shallowest to point to it. */
    lemma LinkOwnership()
      requires Linked() && IsSound(context, frames)
      ensures forall i :: 0 <= i < |stack| ==> IsChain(stack[i].link) && Nodes(stack[i].link) <= live
      ensures forall l :: l in live ==> exists i :: IsOwner(i, l)
    {
      forall i | 0 <= i < |stack|
        ensures IsChain(stack[i].link) && Nodes(stack[i].link) <= live
      {
        EntryAllocated(context, stack, frames, i);
      }
      forall l | l in live
        ensures exists i :: IsOwner(i, l)
      {
        var i := OneOwner(context, stack, frames, l);
        assert IsOwner(i, l);
      }
    }

    ghost predicate IsOwner(i: nat, l: LinkList)
      reads this, stack
    {
      && Owns(stack, i, l)
      && (forall j: nat :: Owns(stack, j, l) ==> j == i)
      && (forall j :: 0 <= j < i ==> stack[j].link != l)
    }

    /** A listing whose paths fit starts in a valid state. */
    lemma StartsValid(dirName: string)
      requires Linked() && frames == StartStack(dirName) && Shows(dirName)
      requires StartFits(context, dirName)
      ensures Valid()
    {
      StartSound(context, dirName);
    }

    /** Deletes the first node of the allocated chain. */
    ghost method Free(l: LinkList)
      requires l.Valid() && live == Nodes(l)
      modifies this`live
      ensures l in old(live) && live == old(live) - {l} && live == Nodes(l.next)
    {
      live := live - {l};
    }

    ghost function TopFrame(): Frame
      requires frames != []
      reads this
    {
      frames[|frames| - 1]
    }

    ghost function Below(): seq<Frame>
      requires frames != []
      reads this
    {
      frames[..|frames| - 1]
    }

    /** The link node that the top entry owns, if it owns one. */
    ghost function OwnedByTop(): set<LinkList>
      requires stack != []
      reads this, stack
    {
      var l := stack[|stack| - 1].link;
      if l != null && Owns(stack, |stack| - 1, l) then {l} else {}
    }

    /** The stack is `below` with `f` on top. */
    ghost predicate OnTop(below: seq<Frame>, f: Frame)
      reads this
    {
      frames != [] && Below() == below && TopFrame() == f
    }

    /** The top entry drops the link it has followed and goes back to its parent's links. */
    method ResetLink(e: DirectoryListingEntry)
      requires Linked() && stack != [] && e == top && TopFrame().progress.Reading?
      modifies this`live, this`frames, e`link
      ensures Linked() && live == old(live) - old(OwnedByTop()) && OwnedByTop() == {}
      ensures OnTop(old(Below()), old(TopFrame()).(followed := None))
    {
      hide Nodes;
      if e.link != null && (e.parent == null || e.parent.link != e.link) {
        Free(e.link);
        e.link := null;
      }
      if e.parent != null {
        e.link := e.parent.link;
      }
      frames := frames[|frames| - 1 := TopFrame().(followed := None)];
    }

    /** Takes the top entry off the stack and destroys it, and with it the link it has followed. */
    method Pop()
      requires Linked() && stack != []
      requires |frames| > 1 ==> frames[|frames| - 2].progress.Reading?
      modifies this`top, this`stack, this`frames, this`live, top`link
      ensures Linked() && stack == old(stack)[..|old(stack)| - 1]
      ensures frames == old(frames)[..|old(frames)| - 1]
      ensures live == old(live) - old(OwnedByTop())
    {
      hide Nodes;
      var current := top;
      top := top.parent;
      if current.link != null && (current.parent == null || current.parent.link != current.link) {
        Free(current.link);
        current.link := null;
      }
      if current.parent != null {
        current.link := current.parent.link;
      }
      stack, frames := stack[..|stack| - 1], frames[..|frames| - 1];
    }

    /** Abandons the listing: every entry is destroyed, and no link node stays allocated. */
    method PopAll()
      requires Linked() && IsSound(context, frames) && Owned()
      modifies this`top, this`stack, this`frames, this`live, repr`link
      ensures Linked() && stack == [] && top == null && live == {} && frames == []
    {
      hide EntryMatches, IsStackOk;
      while top != null
        invariant Linked() && IsSound(context, frames) && Owned()
        decreases |stack|
      {
        PopSound(context, frames);
        assert stack[|stack| - 1] in stack;
        Pop();
      }
    }

    /** Whether a link has been followed on the way here; every node looked at is allocated. */
    method IsSeen(id: LinkId, link: LinkList?) returns (seen: bool)
      requires IsChain(link) && Nodes(link) <= live
      ensures seen <==> id in Ids(link)
    {
      var previous := link;
      while previous != null
        invariant IsChain(previous) && Nodes(previous) <= live
        invariant id in Ids(link) <==> id in Ids(previous)
        decreases |Ids(previous)|
      {
        assert previous in live;
        assert previous.ids == [previous.id] + Ids(previous.next);
        if previous.id == id {
          return true;
        }
        previous := previous.next;
      }
      return false;
    }

    /** A link to be followed: one seen before, or broken, is reported as a link; one to a directory is remembered. */
    method DecideLink(entry: Entry) returns (t: ListType)
      requires Linked() && stack != [] && TopFrame().progress.Reading? && TopFrame().followed.None?
      requires entry.kind.Link? && entry.statOk && context.options.followLinks
      modifies this`live, this`frames, top`link
      ensures Linked()
      ensures var v := Classify(context.options, entry, AsSet(old(TopFrame()).base));
              && t == TypeOf(v)
              && OnTop(old(Below()), old(TopFrame()).(followed := if v.Enter? then v.followed else None))
    {
      hide Nodes;
      assert TopFrame() == TopFrame().(followed := None);
      assert forall l :: l in AsSet(TopFrame().base) <==> l in Ids(top.link);
      var seen := IsSeen(entry.kind.link, top.link);
      if seen || entry.kind.target.Broken? {
        return ListLink;
      }
      if entry.kind.target.ToDir? {
        Follow(entry.kind.link);
        return ListDirectory;
      }
      return ListFile;
    }

    /**
     The switch over the kind of an entry just read. A link to a directory is remembered
     as followed; `again` asks for the next entry.
     */
    method Decide(entry: Entry) returns (t: ListType, again: bool)
      requires Linked() && stack != [] && TopFrame().progress.Reading? && TopFrame().followed.None?
      requires entry.kind.Link? ==> !IsSelfOrParent(entry.name)
      modifies this`live, this`frames, top`link
      ensures Linked()
      ensures var v := Classify(context.options, entry, AsSet(old(TopFrame()).base));
              && again == v.Skip?
              && (!again ==> t == TypeOf(v))
              && OnTop(old(Below()), old(TopFrame()).(followed := if v.Enter? then v.followed else None))
    {
      assert TopFrame() == TopFrame().(followed := None);
      if entry.typeKnown && !(entry.kind.Link? && context.options.followLinks) {
        match entry.kind
        case File => return ListFile, false;
        case Dir(_) => return ListDirectory, IsSelfOrParent(entry.name);
        case Link(_, _) => return ListLink, false;
      }
      // The kind is not known yet, or it is a link to follow: ask for the status of the entry itself.
      if !entry.statOk {
        return ListError, false;
      }
      if context.options.followLinks && entry.kind.Link? {
        t := DecideLink(entry);
        return t, false;
      }
      match entry.kind
      case File => return ListFile, false;
      case Dir(_) => return ListDirectory, IsSelfOrParent(entry.name);
      case Link(_, _) => return ListLink, false;
    }

    /** Adds a link to the list of the top entry. */
    method Follow(id: LinkId)
      requires Linked() && stack != [] && TopFrame().progress.Reading? && TopFrame().followed.None?
      modifies this`live, this`frames, top`link
      ensures Linked() && OwnedByTop() != {} && fresh(OwnedByTop()) && live == old(live) + OwnedByTop()
      ensures OnTop(old(Below()), old(TopFrame()).(followed := Some(id)))
    {
      hide Nodes;
      var link := new LinkList(id, top.link);
      NodesOf(link);
      top.link := link;
      live := live + {link};
      frames := frames[|frames| - 1 := TopFrame().(followed := Some(id))];
    }

    /** Back to the directory's own prefix and links, as before reading any entry. */
    method Rewind()
      requires Linked() && stack != [] && TopFrame().progress.Reading? && Holds(TopFrame().progress.prefix)
      modifies this`live, this`frames, top`link, pathBuffer`length, pathBuffer.data
      ensures Linked() && OnTop(old(Below()), old(TopFrame()).(followed := None))
      ensures Shows(TopFrame().progress.prefix)
    {
      pathBuffer.Reset(top.pathLength);
      ResetLink(top);
    }

    /** The end of the directory. */
    method Finish()
      requires Linked() && stack != [] && TopFrame().progress.Reading? && TopFrame().followed.None?
      modifies this`frames, top`done
      ensures Linked() && OnTop(old(Below()), Frame(Finished, old(TopFrame()).base, None))
    {
      top.done := true;
      frames := frames[|frames| - 1 := Frame(Finished, TopFrame().base, None)];
    }

    /** Takes the next entry from the directory stream. */
    method ReadDir() returns (entry: Entry)
      requires Linked() && stack != [] && TopFrame().progress.Reading?
      requires var p := TopFrame().progress; p.dir in context.fs.dirs && p.next < |context.fs.dirs[p.dir]|
      modifies this`frames, top`lister
      ensures Linked()
      ensures entry == context.fs.dirs[old(TopFrame().progress.dir)][old(TopFrame().progress.next)]
      ensures var f := old(TopFrame());
              OnTop(old(Below()), f.(progress := f.progress.(next := f.progress.next + 1)))
    {
      var i := top.lister.value;
      entry := context.fs.dirs[top.fd.value][i];
      top.lister := Some(i + 1);
      frames := frames[|frames| - 1 := TopFrame().(progress := TopFrame().progress.(next := i + 1))];
    }

    /** Reads one entry, puts its name behind the prefix, and decides about it. */
    method ReadOne() returns (t: ListType, again: bool)
      requires Linked() && stack != [] && TopFrame().progress.Reading? && TopFrame().followed.None?
      requires Shows(TopFrame().progress.prefix)
      requires var p := TopFrame().progress;
               && p.dir in context.fs.dirs && p.next < |context.fs.dirs[p.dir]|
               && var e := context.fs.dirs[p.dir][p.next];
                  && |p.prefix + e.name| < PATH_MAX && NUL !in e.name
                  && (e.kind.Link? ==> !IsSelfOrParent(e.name))
      modifies this`live, this`frames, top`lister, top`link, pathBuffer`length, pathBuffer.data
      ensures Linked()
      ensures var f := old(TopFrame());
              var e := context.fs.dirs[f.progress.dir][f.progress.next];
              var v := Classify(context.options, e, AsSet(f.base));
              && again == v.Skip? && (!again ==> t == TypeOf(v))
              && OnTop(old(Below()), Skipped(f).(followed := if v.Enter? then v.followed else None))
              && Shows(f.progress.prefix + e.name)
      ensures pathBuffer.data[..|old(TopFrame()).progress.prefix|] == old(TopFrame()).progress.prefix
    {
      var entry := ReadDir();
      var ok := pathBuffer.Add(entry.name);
      t, again := Decide(entry);
    }

    /** The next entry of the directory, from a clean path and clean links. */
    method Advance() returns (t: ListType, again: bool)
      requires Linked() && stack != [] && TopFrame().progress.Reading? && Holds(TopFrame().progress.prefix)
      requires IsFrameOk(context, TopFrame()) && Fits(context, TopFrame())
      modifies this`live, this`frames, top, pathBuffer`length, pathBuffer.data
      ensures Linked()
      ensures var r := ReadOneEntry(context, old(TopFrame()));
              && again == r.again && OnTop(old(Below()), r.answer.frame)
              && (!again ==> t == r.answer.kind)
              && (!again && !t.ListDone? ==> Shows(r.answer.path))
      ensures Holds(old(TopFrame()).progress.prefix) && pathBuffer.Valid()
    {
      hide Nodes, Classify;
      ghost var f := TopFrame();
      Rewind();
      if top.lister.value == |context.fs.dirs[top.fd.value]| {
        var failed := top.fd.value in context.fs.failing;
        Finish();
        return if failed then ListError else ListDone, false;
      }
      FitsAt(context, f);
      t, again := ReadOne();
    }

    /** Reads entries until one is to be reported or the directory ends. */
    method ReadEntry(ghost a: Answer) returns (t: ListType)
      requires Linked() && stack != [] && TopFrame().progress.Reading? && Holds(TopFrame().progress.prefix)
      requires IsFrameOk(context, TopFrame()) && Fits(context, TopFrame())
      requires a == ReadNext(context, TopFrame())
      modifies this`live, this`frames, top, pathBuffer`length, pathBuffer.data
      ensures Linked()
      ensures t == a.kind && OnTop(old(Below()), a.frame)
      ensures !t.ListDone? ==> Shows(a.path)
      ensures Holds(old(TopFrame()).progress.prefix) && pathBuffer.Valid()
      decreases |context.fs.dirs[TopFrame().progress.dir]| - TopFrame().progress.next
    {
      ReadNextByEntries(context, TopFrame());
      var again;
      t, again := Advance();
      if again {
        t := ReadEntry(a);
      }
    }

    /** The directory could not be opened. */
    method Fail()
      requires Linked() && stack != [] && TopFrame().progress.Pending?
      modifies this`frames, top`done
      ensures Linked() && OnTop(old(Below()), Frame(Finished, old(TopFrame()).base, None))
    {
      top.done := true;
      frames := frames[|frames| - 1 := Frame(Finished, TopFrame().base, None)];
    }

    /** The directory is open; its links are those of its parent, and its entries follow `pathLength` characters. */
    method StartReading(fd: DirId, pathLength: nat)
      requires Linked() && stack != [] && TopFrame().progress.Pending? && pathLength == |TopFrame().progress.prefix|
      modifies this`frames, top
      ensures Linked()
      ensures OnTop(old(Below()), Frame(Reading(fd, 0, old(TopFrame()).progress.prefix), old(TopFrame()).base, None))
    {
      hide Nodes;
      top.fd, top.lister, top.pathLength := Some(fd), Some(0), pathLength;
      if top.parent != null {
        top.link := top.parent.link;
      }
      frames := frames[|frames| - 1 := Frame(Reading(fd, 0, TopFrame().progress.prefix), TopFrame().base, None)];
    }

    /** Opens the directory that the buffer names; its entries will follow a separator. */
    method OpenEntry() returns (ok: bool)
      requires Linked() && stack != [] && TopFrame().progress.Pending? && Shows(TopFrame().progress.path)
      requires var p := TopFrame().progress;
               NUL !in p.prefix && (Open(context.fs, context.cwd, p.path).Some? ==> |p.prefix| < PATH_MAX)
      modifies this`frames, top, pathBuffer`length, pathBuffer.data
      ensures Linked() && OnTop(old(Below()), OpenTop(context, old(TopFrame())))
      ensures ok <==> Open(context.fs, context.cwd, old(TopFrame()).progress.path).Some?
      ensures ok ==> Holds(old(TopFrame()).progress.prefix)
      ensures !ok ==> Shows(old(TopFrame()).progress.path)
    {
      var path := pathBuffer.AsString();
      var fd := Open(context.fs, context.cwd, path);
      ok := fd.Some?;
      if !ok {
        Fail();
      } else {
        if top.parent != null {
          var added := pathBuffer.Add("/");
        }
        StartReading(fd.value, pathBuffer.length);
      }
    }

    /** Opens the directory of the top entry and reads its first entry. */
    method OpenAndRead(ghost a: Answer, ghost floor: string) returns (t: ListType)
      requires Linked() && stack != [] && CanAsk(floor) && TopFrame().progress.Pending?
      requires a == Next(context, TopFrame())
      modifies this`live, this`frames, top, pathBuffer`length, pathBuffer.data
      ensures Linked() && t == a.kind && OnTop(old(Below()), a.frame)
      ensures !t.ListDone? ==> Shows(a.path)
      ensures Holds(floor) && pathBuffer.Valid()
    {
      hide Nodes, Deepest, EntryMatches, Matches;
      OpenTopOk(context, TopFrame());
      var ok := OpenEntry();
      if !ok {
        return ListError;
      }
      t := ReadEntry(a);
    }

    /** Asks the top entry for its next entry; `floor` is the prefix of the entry below. */
    method NextEntry(ghost a: Answer, ghost floor: string) returns (t: ListType)
      requires Linked() && stack != [] && CanAsk(floor) && a == Next(context, TopFrame())
      modifies this`live, this`frames, top, pathBuffer`length, pathBuffer.data
      ensures Linked() && t == a.kind && OnTop(old(Below()), a.frame)
      ensures !t.ListDone? ==> Shows(a.path)
      ensures Holds(floor) && pathBuffer.Valid()
    {
      hide Nodes, Deepest, FitsEntries, ReadNext;
      if top.done {
        t := ListDone;
      } else if top.fd.None? {
        t := OpenAndRead(a, floor);
      } else {
        t := ReadEntry(a);
      }
    }

    /** Puts an entry for the directory just reported on the stack. */
    method Push(ghost path: string)
      requires Linked() && stack != [] && TopFrame().progress.Reading?
      modifies this`top, this`stack, this`frames, this`repr
      ensures Linked() && fresh(repr - old(repr)) && (old(Owned()) ==> Owned())
      ensures frames == old(frames) + [Child(old(TopFrame()), path)]
    {
      hide Nodes;
      ghost var was := stack;
      var e := new DirectoryListingEntry(top);
      top := e;
      repr := repr + {e};
      stack, frames := stack + [e], frames + [Child(TopFrame(), path)];
      assert stack[..|was|] == was && frames[..|was|] == old(frames);
    }

    /** Pops a top entry that is done, and pushes an entry for a directory to enter. */
    method PushOrPop(t: ListType, ghost a: Answer, ghost below: seq<Frame>)
      requires Linked() && stack != [] && OnTop(below, a.frame) && t == a.kind
      requires t.ListDirectory? ==> a.frame.progress.Reading?
      requires below != [] ==> below[|below| - 1].progress.Reading?
      modifies this`top, this`stack, this`frames, this`live, this`repr, top`link
      ensures Linked() && fresh(repr - old(repr)) && (old(Owned()) ==> Owned())
      ensures unchanged(pathBuffer) && unchanged(pathBuffer.data)
      ensures frames == Dispatch(context, below + [a.frame], a).frames
    {
      hide EntryMatches, Nodes, Deepest;
      assert frames == below + [a.frame];
      assert (below + [a.frame])[..|below|] == below;
      if t.ListDone? {
        Pop();
      } else if t.ListDirectory? && context.options.recursive {
        Push(a.path);
      } else {
        assert frames == below + [a.frame] + [];
      }
    }

    /** What a step may rely on: the top frame fits, and the buffer holds its path and the one below. */
    ghost predicate CanAsk(floor: string)
      reads this, pathBuffer, pathBuffer.data
    {
      && frames != [] && IsFrameOk(context, TopFrame()) && Fits(context, TopFrame())
      && Holds(floor) && pathBuffer.Valid()
      && var p := TopFrame().progress;
         && (p.Pending? ==> Shows(p.path) && floor <= p.path)
         && (p.Reading? ==> Holds(p.prefix) && floor <= p.prefix)
    }

    /** The answer of the top entry, and the path it is about. */
    method Ask(ghost a: Answer, ghost floor: string) returns (t: ListType, path: string)
      requires Linked() && stack != [] && CanAsk(floor) && a == Next(context, TopFrame())
      modifies this`live, this`frames, top, pathBuffer`length, pathBuffer.data
      ensures Linked() && OnTop(old(Below()), a.frame)
      ensures t == a.kind && (!t.ListDone? ==> path == a.path && Shows(path))
      ensures Holds(floor) && pathBuffer.Valid()
    {
      path := "";
      t := NextEntry(a, floor);
      if !t.ListDone? {
        path := pathBuffer.AsString();
      }
    }

    /** Asks the top entry and pops it, pushes for it, or leaves it, by its answer `a`. */
    method Dispatched(ghost a: Answer, ghost floor: string) returns (t: ListType, path: string)
      requires Linked() && stack != [] && CanAsk(floor)
      requires a == Next(context, TopFrame()) && (a.kind.ListDirectory? ==> a.frame.progress.Reading?)
      requires |frames| > 1 ==> frames[|frames| - 2].progress.Reading?
      modifies this`top, this`stack, this`frames, this`live, this`repr, top, pathBuffer`length, pathBuffer.data
      ensures Linked() && fresh(repr - old(repr)) && (old(Owned()) ==> Owned())
      ensures frames == Dispatch(context, old(Below()) + [a.frame], a).frames
      ensures t == a.kind && (!t.ListDone? ==> path == a.path && Shows(path))
      ensures Holds(floor) && pathBuffer.Valid()
    {
      hide EntryMatches, Nodes;
      ghost var below := Below();
      t, path := Ask(a, floor);
      PushOrPop(t, a, below);
    }

    /** A valid listing may ask its top entry. */
    lemma StepReady()
      requires Valid() && stack != []
      ensures CanAsk(Floor(frames)) && AnswersWell(context, TopFrame(), Next(context, TopFrame()))
      ensures |frames| > 1 ==> frames[|frames| - 2].progress.Reading?
    {
      AnchorBefore(context, frames);
      NextFits(context, TopFrame());
    }

    /** After a step from `was`, the buffer holds what the new top relies on. */
    lemma StepValid(was: seq<Frame>, a: Answer)
      requires IsSound(context, was) && was != [] && a == Next(context, was[|was| - 1])
      requires Linked() && frames == ListStep(context, was).frames
      requires pathBuffer.Valid() && Holds(Floor(was)) && (!a.kind.ListDone? ==> Shows(a.path))
      ensures Valid()
    {
      ListStepSound(context, was);
      NextFits(context, was[|was| - 1]);
      if a.frame.progress.Finished? {
        AnchorAfterDone(context, was, a);
      } else {
        AnchorAfterEntry(context, was, a);
      }
    }

    /** One step of the listing; `path` is the path reported, unless the top entry is done. */
    method Step() returns (t: ListType, path: string)
      requires Valid() && stack != []
      modifies this`top, this`stack, this`frames, this`live, this`repr, top, pathBuffer`length, pathBuffer.data
      ensures Valid() && fresh(repr - old(repr)) && (old(Owned()) ==> Owned())
      ensures var r := ListStep(context, old(frames));
              && frames == r.frames
              && r.items == if t.ListDone? then (if stack == [] then [DoneItem] else []) else [ItemFor(t, path)]
    {
      ghost var was, a := frames, Next(context, TopFrame());
      StepReady();
      SameDispatch(context, was, a);
      t, path := Dispatched(a, Floor(was));
      StepValid(was, a);
    }
  }
}
