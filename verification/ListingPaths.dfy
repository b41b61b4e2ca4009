/**
 Paths of a listing that fit the path buffer, and how the paths of the frames on the stack
 nest: each begins with the prefix of the frame below it, so one buffer serves them all.
 */
module ListingPaths {
  import opened Basics
  import opened FileTree
  import opened ListingSpec
  import opened ListingMachine
  import opened PathBuffer

  /** Every path that listing these entries puts into the buffer stays below PATH_MAX. */
  ghost predicate FitsEntries(c: Context, d: DirId, i: nat, prefix: string, seen: set<LinkId>)
    requires CanList(c.fs, d, seen) && i <= |c.fs.dirs[d]|
    decreases |c.fs.links - seen|, c.fs.height[d], |c.fs.dirs[d]| - i
  {
    i == |c.fs.dirs[d]| ||
    (var e := c.fs.dirs[d][i];
     var path, v := prefix + e.name, Classify(c.options, e, seen);
     assert IsDirOk(c.fs, d) && IsEntryOk(c.fs, d, e);
     && |path| < PATH_MAX
     && (v.Enter? && c.options.recursive && v.dir !in c.fs.unreadable ==>
           (EnterDecreases(c.fs, c.options, d, e, seen);
            |path| + 1 < PATH_MAX && FitsEntries(c, v.dir, 0, path + "/", Seen(seen, v.followed))))
     && FitsEntries(c, d, i + 1, prefix, seen))
  }

  ghost predicate Fits(c: Context, f: Frame)
    requires IsFrameOk(c, f)
  {
    match f.progress
    case Finished => true
    case Pending(path, prefix) =>
      && NUL !in prefix && path <= prefix && |path| < PATH_MAX
      && var d := Open(c.fs, c.cwd, path);
         d.Some? ==> |prefix| < PATH_MAX && FitsEntries(c, d.value, 0, prefix, AsSet(f.base))
    case Reading(d, next, prefix) =>
      NUL !in prefix && |prefix| < PATH_MAX && FitsEntries(c, d, next, prefix, AsSet(f.base))
  }

  lemma {:induction false} FitsSkip(c: Context, d: DirId, i: nat, j: nat, prefix: string, seen: set<LinkId>)
    requires CanList(c.fs, d, seen) && i <= j <= |c.fs.dirs[d]|
    requires FitsEntries(c, d, i, prefix, seen)
    ensures FitsEntries(c, d, j, prefix, seen)
    decreases j - i
  {
    if i < j {
      FitsSkip(c, d, i + 1, j, prefix, seen);
    }
  }

  /** Entering a directory whose listing fits: the new frame's paths fit as well. */
  lemma FitsAfterEntry(c: Context, f: Frame, j: nat)
    requires IsFrameOk(c, f) && f.progress.Reading? && Fits(c, f)
    requires f.progress.next <= j < |c.fs.dirs[f.progress.dir]|
    requires !Classify(c.options, c.fs.dirs[f.progress.dir][j], AsSet(f.base)).Skip?
    ensures var e := c.fs.dirs[f.progress.dir][j];
            var v, path := Classify(c.options, e, AsSet(f.base)), f.progress.prefix + e.name;
            var f' := Reported(f, j, v);
            && |path| < PATH_MAX && NUL !in path
            && IsFrameOk(c, f') && Fits(c, f')
            && (v.Enter? && c.options.recursive ==> IsFrameOk(c, Child(f', path)) && Fits(c, Child(f', path)))
  {
    var d, seen := f.progress.dir, AsSet(f.base);
    var e := c.fs.dirs[d][j];
    var v, path := Classify(c.options, e, seen), f.progress.prefix + e.name;
    RestAfterEntry(c, f, j);
    FitsSkip(c, d, f.progress.next, j, f.progress.prefix, seen);
    assert IsDirOk(c.fs, d) && IsEntryOk(c.fs, d, e);
    if v.Enter? && c.options.recursive {
      ChildPath(c, d, j, f.progress.prefix);
      EnterDecreases(c.fs, c.options, d, e, seen);
      LinksAfterEnter(f, v, c.fs.links);
    }
  }

  lemma FitsAt(c: Context, f: Frame)
    requires IsFrameOk(c, f) && f.progress.Reading? && Fits(c, f)
    requires f.progress.next < |c.fs.dirs[f.progress.dir]|
    ensures var e := c.fs.dirs[f.progress.dir][f.progress.next];
            && |f.progress.prefix + e.name| < PATH_MAX && NUL !in e.name
            && (e.kind.Link? ==> !IsSelfOrParent(e.name))
            && FitsEntries(c, f.progress.dir, f.progress.next + 1, f.progress.prefix, AsSet(f.base))
  {
    var e := c.fs.dirs[f.progress.dir][f.progress.next];
    assert IsDirOk(c.fs, f.progress.dir) && IsEntryOk(c.fs, f.progress.dir, e);
  }

  /** A frame that has read one more entry, and followed nothing. */
  function Skipped(f: Frame): Frame
    requires f.progress.Reading?
  {
    Frame(f.progress.(next := f.progress.next + 1), f.base, None)
  }

  /** One entry, or the end of the directory; `again` if the entry is to be skipped. */
  datatype OneEntry = OneEntry(again: bool, answer: Answer)

  function ReadOneEntry(c: Context, f: Frame): OneEntry
    requires f.progress.Reading?
    requires f.progress.dir in c.fs.dirs && f.progress.next <= |c.fs.dirs[f.progress.dir]|
  {
    if f.progress.next == |c.fs.dirs[f.progress.dir]| then
      OneEntry(false, AnswerAtEnd(c, f))
    else
      var e := c.fs.dirs[f.progress.dir][f.progress.next];
      var v := Classify(c.options, e, AsSet(f.base));
      if v.Skip? then OneEntry(true, Answer(Skipped(f), ListDone, ""))
      else
        OneEntry(false, Answer(Skipped(f).(followed := if v.Enter? then v.followed else None), TypeOf(v),
                               f.progress.prefix + e.name))
  }

  /** Reading entry by entry gives the answer of the frame. */
  lemma ReadNextByEntries(c: Context, f: Frame)
    requires IsFrameOk(c, f) && f.progress.Reading? && Fits(c, f)
    ensures var r := ReadOneEntry(c, f);
            && (!r.again ==> ReadNext(c, f) == r.answer)
            && (r.again ==>
                  && r.answer.frame == Skipped(f) && f.progress.next < |c.fs.dirs[f.progress.dir]|
                  && IsFrameOk(c, Skipped(f)) && Fits(c, Skipped(f))
                  && ReadNext(c, f) == ReadNext(c, Skipped(f)))
  {
    if ReadOneEntry(c, f).again {
      FitsAt(c, f);
    }
  }

  // ----- nesting -----

  /** The part of the buffer that the top of the stack relies on. */
  function Anchor(frames: seq<Frame>): string {
    var n := |frames|;
    if n == 0 then ""
    else match frames[n - 1].progress
         case Pending(path, _) => path
         case Reading(_, _, prefix) => prefix
         case Finished => if n > 1 && frames[n - 2].progress.Reading? then frames[n - 2].progress.prefix else ""
  }

  /** A frame stacked on another: the lower one is reading, and the paths of the upper extend its prefix. */
  predicate NestsOn(below: Progress, above: Progress) {
    && below.Reading?
    && (above.Pending? ==> below.prefix <= above.path)
    && (above.Reading? ==> below.prefix <= above.prefix)
  }

  ghost predicate IsNested(c: Context, frames: seq<Frame>)
    requires IsStackOk(c, frames)
  {
    var n := |frames|;
    n == 0 ||
    (&& IsNested(c, frames[..n - 1])
     && Fits(c, frames[n - 1])
     && (n > 1 ==> NestsOn(frames[n - 2].progress, frames[n - 1].progress)))
  }

  /** What every listing keeps: links consistent, paths nested and fitting. */
  ghost predicate IsSound(c: Context, frames: seq<Frame>) {
    IsStackOk(c, frames) && IsNested(c, frames)
  }

  lemma PopSound(c: Context, frames: seq<Frame>)
    requires IsSound(c, frames) && frames != []
    ensures IsSound(c, frames[..|frames| - 1])
    ensures Anchor(frames[..|frames| - 1]) <= Anchor(frames)
  {
  }

  lemma PushSound(c: Context, frames: seq<Frame>, f: Frame)
    requires IsSound(c, frames) && IsFrameOk(c, f) && Fits(c, f)
    requires f.base == if frames == [] then [] else Links(frames[|frames| - 1])
    requires frames != [] ==> NestsOn(frames[|frames| - 1].progress, f.progress)
    ensures IsSound(c, frames + [f])
  {
    PushOk(c, frames, f);
    assert (frames + [f])[..|frames|] == frames;
  }

  // ----- steps -----

  /** The answer of a frame: it still fits, and it is about a path that extends the frame's own. */
  ghost predicate AnswersWell(c: Context, f: Frame, a: Answer) {
    && IsFrameOk(c, a.frame) && Fits(c, a.frame)
    && |a.path| < PATH_MAX && NUL !in a.path
    && !a.frame.progress.Pending?
    && (a.kind.ListDone? ==> a.frame.progress.Finished?)
    && (!a.kind.ListDone? && !a.kind.ListError? ==> a.frame.progress.Reading?)
    && (a.frame.progress.Reading? ==>
          && a.frame.progress.prefix <= a.path
          && (f.progress.Reading? ==> f.progress.prefix == a.frame.progress.prefix)
          && (f.progress.Pending? ==> f.progress.path <= a.frame.progress.prefix))
    && (a.kind.ListDirectory? && c.options.recursive ==>
          IsFrameOk(c, Child(a.frame, a.path)) && Fits(c, Child(a.frame, a.path)))
  }

  lemma ReadNextFits(c: Context, f: Frame)
    requires IsFrameOk(c, f) && Fits(c, f) && f.progress.Reading?
    ensures AnswersWell(c, f, ReadNext(c, f))
  {
    var j := SkipTo(c.options, c.fs.dirs[f.progress.dir], f.progress.next, AsSet(f.base));
    ReadNextSplits(c, f);
    if j < |c.fs.dirs[f.progress.dir]| {
      FitsAfterEntry(c, f, j);
    }
  }

  lemma NextFits(c: Context, f: Frame)
    requires IsFrameOk(c, f) && Fits(c, f)
    ensures AnswersWell(c, f, Next(c, f))
  {
    match f.progress
    case Finished =>
    case Pending(path, prefix) =>
      OpenTopOk(c, f);
      var g := OpenTop(c, f);
      if !g.progress.Finished? {
        ReadNextFits(c, g);
      } else {
        assert forall x :: x in path ==> x in prefix;
      }
    case Reading(_, _, _) => ReadNextFits(c, f);
  }

  /** Every step keeps the paths nested and fitting. */
  lemma ListStepSound(c: Context, frames: seq<Frame>)
    requires IsSound(c, frames) && frames != []
    ensures IsSound(c, ListStep(c, frames).frames)
  {
    var f := frames[|frames| - 1];
    var below, a := frames[..|frames| - 1], Next(c, f);
    NextFits(c, f);
    NextSplits(c, f);
    if !a.kind.ListDone? {
      PushSound(c, below, a.frame);
      if a.kind.ListDirectory? && c.options.recursive {
        PushSound(c, below + [a.frame], Child(a.frame, a.path));
      } else {
        assert ListStep(c, frames).frames == below + [a.frame];
      }
    }
  }

  /** The prefix of the frame below the top. */
  function Floor(frames: seq<Frame>): string {
    var n := |frames|;
    if n > 1 && frames[n - 2].progress.Reading? then frames[n - 2].progress.prefix else ""
  }

  /** What the top of the stack says about the buffer before a step. */
  lemma AnchorBefore(c: Context, frames: seq<Frame>)
    requires IsSound(c, frames) && frames != []
    ensures var p := frames[|frames| - 1].progress;
            && IsFrameOk(c, frames[|frames| - 1]) && Fits(c, frames[|frames| - 1])
            && NUL !in Anchor(frames) && Floor(frames) <= Anchor(frames)
            && (p.Pending? ==> p.path == Anchor(frames))
            && (p.Reading? ==> p.prefix == Anchor(frames))
            && (|frames| > 1 ==> frames[|frames| - 2].progress.Reading?)
  {
    var p := frames[|frames| - 1].progress;
    if p.Pending? {
      assert forall x :: x in p.path ==> x in p.prefix;
    }
    if |frames| > 1 {
      assert IsNested(c, frames[..|frames| - 1]);
      assert frames[..|frames| - 1][|frames| - 2] == frames[|frames| - 2];
    }
  }

  /** After a pop or an error that ends a directory, the new top relies on the floor. */
  lemma AnchorAfterDone(c: Context, frames: seq<Frame>, a: Answer)
    requires IsSound(c, frames) && frames != []
    requires a == Next(c, frames[|frames| - 1]) && a.frame.progress.Finished?
    ensures var r := ListStep(c, frames);
            && Anchor(r.frames) == Floor(frames)
            && (r.frames != [] ==> !r.frames[|r.frames| - 1].progress.Pending?)
  {
    AnchorBefore(c, frames);
    NextFits(c, frames[|frames| - 1]);
  }

  /** After a reported entry, the new top relies on its path or a beginning of it. */
  lemma AnchorAfterEntry(c: Context, frames: seq<Frame>, a: Answer)
    requires IsSound(c, frames) && frames != []
    requires a == Next(c, frames[|frames| - 1]) && a.frame.progress.Reading?
    ensures var r := ListStep(c, frames);
            && r.frames != [] && Anchor(r.frames) <= a.path && NUL !in Anchor(r.frames)
            && (r.frames[|r.frames| - 1].progress.Pending? ==> Anchor(r.frames) == a.path)
  {
    NextFits(c, frames[|frames| - 1]);
    var anchor := Anchor(ListStep(c, frames).frames);
    assert anchor <= a.path;
    assert forall x :: x in anchor ==> x in a.path;
  }

  /** The name ends in a separator, and its whole listing fits the buffer. */
  ghost predicate StartFits(c: Context, dirName: string) {
    && IsWellFormed(c.fs)
    && dirName != "" && dirName[|dirName| - 1] == '/' && NUL !in dirName && |dirName| < PATH_MAX
    && var d := Open(c.fs, c.cwd, dirName);
       d.Some? ==> FitsEntries(c, d.value, 0, dirName, {})
  }

  lemma StartSound(c: Context, dirName: string)
    requires StartFits(c, dirName)
    ensures IsSound(c, StartStack(dirName)) && Anchor(StartStack(dirName)) == dirName
  {
    StartRemaining(c, dirName);
    var f := Frame(Pending(dirName, dirName), [], None);
    assert AsSet(f.base) == {};
    assert IsSound(c, []);
    PushSound(c, [], f);
    assert [] + [f] == StartStack(dirName);
  }
}
