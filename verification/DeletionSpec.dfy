/**
 What deleting the tree behind a path means: which part of the file system may change, what
 is gone when the deletion reports success, and exactly when it can succeed.
 */
module DeletionSpec {
  import opened Basics
  import opened PathBuffer
  import opened PathWalk
  import L = LexicalPath

  /** How many characters these names add behind a path, each with its separator. */
  function Extent(names: seq<string>): nat {
    if names == [] then 0 else 1 + |names[0]| + Extent(names[1..])
  }

  /** The paths of everything in the tree at `top` fit the buffer, if that of `top` has `n` characters. */
  ghost predicate Fits(m: Nodes, top: Key, n: nat) {
    forall k :: k in m && top <= k ==> n + Extent(k[|top|..]) < PATH_MAX
  }

  /** There is even room for ".." in each directory; needed where entries come without their type. */
  ghost predicate FitsDots(m: Nodes, top: Key, n: nat) {
    forall k :: IsDir(m, k) && top <= k ==> n + Extent(k[|top|..]) + 3 <= PATH_MAX
  }

  /** The path names something, and a directory can still be removed by it once it is empty. */
  ghost predicate IsRemovable(m: Nodes, cwd: Key, text: string) {
    var r := Lookup(m, cwd, text);
    r.Some? && (IsDir(m, r.value) ==> Entry(Emptied(m, r.value), cwd, text) == r)
  }

  /** The path names something, and still leads to a directory once that is empty. */
  ghost predicate StaysReached(m: Nodes, cwd: Key, text: string) {
    var r := Lookup(m, cwd, text);
    r.Some? && (IsDir(m, r.value) ==> Target(Emptied(m, r.value), cwd, text) == r)
  }

  /** The outcome of deleting what `text` names. A path that was cut to fit never deletes a directory. */
  ghost predicate IsOutcome(before: Nodes, after: Nodes, cwd: Key, text: string, isCut: bool, ok: bool) {
    && IsTree(after)
    && var r := Lookup(before, cwd, text);
       if r.None? then !ok && after == before
       else
         && OnlyInside(after, before, r.value)
         && (isCut && IsDir(before, r.value) ==> !ok && after == before)
         && (ok ==> after == Without(before, r.value))
         && (ok ==> IsRemovable(before, cwd, text) && Fits(before, r.value, |text|))
  }

  /** Some of what is in the directory `d` has been deleted; `n` is the length of its path. */
  ghost predicate IsPartial(before: Nodes, now: Nodes, d: Key, n: nat) {
    && IsTree(now) && IsPart(now, before) && IsPart(Emptied(before, d), now)
    && forall k :: k in before && d <= k && k !in now ==> n + Extent(k[|d|..]) < PATH_MAX
  }

  // ----- facts -----

  lemma LeafAlone(m: Nodes, k: Key)
    requires IsTree(m) && k in m && !IsDir(m, k)
    ensures HasNoChild(m, k) && m - {k} == Without(m, k)
    ensures forall j :: j in m && k <= j ==> j == k
  {
    forall j | j in m && j != []
      ensures Parent(j) != k
    {
      assert IsDir(m, Parent(j));
    }
    NothingBelow(m, k);
    assert forall j :: j in m && k <= j ==> j == k;
  }

  /** Unlinking a file or a link is a complete outcome. */
  lemma UnlinkOutcome(m: Nodes, cwd: Key, text: string, isCut: bool, k: Key)
    requires IsTree(m) && Entry(m, cwd, text) == Some(k) && !IsDir(m, k) && !EndsInSlash(text)
    ensures IsOutcome(m, m - {k}, cwd, text, isCut, true)
  {
    EntryIsLookup(m, cwd, text, k);
    LeafAlone(m, k);
    Remove(m, k);
    assert k[|k|..] == [];
  }

  lemma LookupMonotone(a: Nodes, b: Nodes, cwd: Key, text: string)
    requires IsPart(a, b)
    ensures Lookup(a, cwd, text).Some? ==> Lookup(a, cwd, text) == Lookup(b, cwd, text)
  {
    WalkMonotone(a, b, Start(cwd, text), L.Split(text), MAX_LINKS, false);
  }

  lemma TargetMonotone(a: Nodes, b: Nodes, cwd: Key, text: string)
    requires IsPart(a, b)
    ensures Target(a, cwd, text).Some? ==> Target(a, cwd, text) == Target(b, cwd, text)
  {
    WalkMonotone(a, b, Start(cwd, text), L.Split(text), MAX_LINKS, true);
  }

  lemma DirTarget(m: Nodes, cwd: Key, text: string, d: Key)
    requires Lookup(m, cwd, text) == Some(d) && IsDir(m, d)
    ensures Target(m, cwd, text) == Some(d)
  {
    WalkToDir(m, Start(cwd, text), L.Split(text), MAX_LINKS);
  }

  /** While a directory is being emptied, a path that reaches it in the end keeps leading to it. */
  lemma StillReached(before: Nodes, now: Nodes, cwd: Key, text: string, d: Key)
    requires Lookup(before, cwd, text) == Some(d) && IsDir(before, d) && StaysReached(before, cwd, text)
    requires IsPart(Emptied(before, d), now)
    ensures Target(now, cwd, text) == Some(d) && IsDir(now, d)
  {
    var e := Emptied(before, d);
    assert d in e && IsDir(e, d);
    TargetMonotone(e, now, cwd, text);
  }

  /** What can be removed can be reached until then. */
  lemma RemovableStaysReached(m: Nodes, cwd: Key, text: string)
    requires IsRemovable(m, cwd, text)
    ensures StaysReached(m, cwd, text)
  {
    var d := Lookup(m, cwd, text).value;
    if IsDir(m, d) {
      var e := Emptied(m, d);
      assert d in e && IsDir(e, d);
      EntryIsLookup(e, cwd, text, d);
      DirTarget(e, cwd, text, d);
    }
  }

  /** The child of a directory that stays reached is removable. */
  lemma ChildRemovable(before: Nodes, now: Nodes, cwd: Key, text: string, d: Key, name: string)
    requires Lookup(before, cwd, text) == Some(d) && IsDir(before, d) && StaysReached(before, cwd, text)
    requires IsPart(Emptied(before, d), now) && IsTree(now)
    requires IsName(name) && IsAccepted(text + "/" + name) && d + [name] in now
    ensures Lookup(now, cwd, text + "/" + name) == Some(d + [name])
    ensures IsRemovable(now, cwd, text + "/" + name)
  {
    var k := d + [name];
    StillReached(before, now, cwd, text, d);
    ChildLookup(now, cwd, text, d, name);
    var e := Emptied(now, k);
    StillReached(before, e, cwd, text, d);
    ChildEntry(e, cwd, text, d, name);
  }

  /** When nothing is left in it, the directory has been emptied and nothing else has changed. */
  lemma AllGone(before: Nodes, now: Nodes, d: Key, n: nat)
    requires IsPartial(before, now, d, n) && HasNoChild(now, d)
    ensures now == Emptied(before, d)
  {
    NothingBelow(now, d);
  }

  lemma ExtentChild(d: Key, name: string, k: Key)
    requires d + [name] <= k
    ensures Extent(k[|d|..]) == 1 + |name| + Extent(k[|d| + 1..])
  {
    assert k[|d|..][0] == name && k[|d|..][1..] == k[|d| + 1..];
  }

  lemma ChildFits(m: Nodes, now: Nodes, d: Key, n: nat, name: string)
    requires Fits(m, d, n) && IsPart(now, m) && d + [name] in now
    ensures Fits(now, d + [name], n + 1 + |name|) && n + 1 + |name| < PATH_MAX
    ensures FitsDots(m, d, n) ==> FitsDots(now, d + [name], n + 1 + |name|)
  {
    forall k | k in now && d + [name] <= k
      ensures n + 1 + |name| + Extent(k[|d| + 1..]) == n + Extent(k[|d|..]) < PATH_MAX
    {
      ExtentChild(d, name, k);
    }
    assert (d + [name])[|d| + 1..] == [];
  }

  /** What the path of a directory with an entry's name behind it leads to, while the directory is being emptied. */
  lemma ChildSeen(before: Nodes, now: Nodes, cwd: Key, text: string, d: Key, name: string)
    requires Target(before, cwd, text) == Some(d) && IsDir(before, d) && IsTree(before) && IsPart(now, before)
    requires '/' !in name && IsAccepted(text + "/" + name)
    ensures var r := Lookup(now, cwd, text + "/" + name);
            r.Some? ==> if name == "" || name == L.DOT || name == L.DOTDOT then IsDir(now, r.value)
                        else r.value == d + [name]
  {
    ChildLookup(before, cwd, text, d, name);
    LookupMonotone(now, before, cwd, text + "/" + name);
    WalkExists(now, Start(cwd, text), L.Split(text + "/" + name), MAX_LINKS, false);
  }

  /** Whatever the deletion of an entry has removed had a path that fits. */
  lemma GoneFits(now: Nodes, after: Nodes, d: Key, n: nat, name: string, k: Key)
    requires after == Without(now, d + [name]) && Fits(now, d + [name], n + 1 + |name|)
    requires k in now && k !in after
    ensures n + Extent(k[|d|..]) < PATH_MAX
  {
    ExtentChild(d, name, k);
  }

  /** Deleting an entry leaves a partly deleted directory, or an error inside it. */
  lemma ChildOutcome(
    before: Nodes, now: Nodes, after: Nodes, cwd: Key, text: string, d: Key, name: string, isCut: bool, ok: bool)
    requires Target(before, cwd, text) == Some(d) && IsDir(before, d) && IsTree(before)
    requires '/' !in name && IsAccepted(text + "/" + name) && (isCut || IsName(name))
    requires IsPartial(before, now, d, |text|) && IsOutcome(now, after, cwd, text + "/" + name, isCut, ok)
    ensures IsTree(after) && OnlyInside(after, before, d)
    ensures ok ==> IsPartial(before, after, d, |text|)
    ensures ok && !isCut ==> after == Without(now, d + [name])
  {
    hide Lookup, Target, IsRemovable, Extent;
    ChildSeen(before, now, cwd, text, d, name);
    if ok {
      forall k | k in before && d <= k && k !in after
        ensures |text| + Extent(k[|d|..]) < PATH_MAX
      {
        if k in now {
          GoneFits(now, after, d, |text|, name, k);
        }
      }
    }
  }

  /** Removing the emptied directory itself completes the outcome. */
  lemma RmdirOutcome(before: Nodes, now: Nodes, cwd: Key, text: string, d: Key, k: Key)
    requires Lookup(before, cwd, text) == Some(d) && IsDir(before, d) && IsTree(before)
    requires IsPartial(before, now, d, |text|)
    requires Entry(now, cwd, text) == Some(k) && IsDir(now, k) && HasNoChild(now, k)
    ensures k == d && IsOutcome(before, now - {k}, cwd, text, false, true)
  {
    EntryIsLookup(now, cwd, text, k);
    LookupMonotone(now, before, cwd, text);
    NothingBelow(now, d);
    Remove(now, d);
    assert now == Emptied(before, d);
    forall j | j in before
      ensures j in now - {d} <==> !(d <= j)
    {
      assert d <= j <==> d < j || d == j;
    }
    assert now - {d} == Without(before, d);
    assert d[|d|..] == [];
  }

  // ----- which paths can be deleted -----

  /** The absolute path of an entry. */
  function PathOf(k: Key): string {
    if k == [] then "" else PathOf(Parent(k)) + "/" + k[|k| - 1]
  }

  lemma {:induction false} SplitPathOf(m: Nodes, k: Key)
    requires IsTree(m) && k in m
    ensures L.Split(PathOf(k)) == [""] + k && (k != [] ==> L.IsRooted(PathOf(k)))
    decreases |k|
  {
    if k != [] {
      SplitPathOf(m, Parent(k));
      L.SplitAppend(PathOf(Parent(k)), k[|k| - 1]);
      assert [""] + k == [""] + Parent(k) + [k[|k| - 1]];
    }
  }

  lemma {:induction false} WalkNames(m: Nodes, at: Key, names: seq<string>, links: nat, follow: bool)
    requires IsTree(m) && IsDir(m, at) && at + names in m
    requires follow ==> !m[at + names].Link?
    ensures Walk(m, at, names, links, follow) == Some(at + names)
    decreases |names|
  {
    if names == [] {
      assert at + names == at;
    } else {
      var k := at + [names[0]];
      assert at + names == k + names[1..] && (at + names)[..|k|] == k;
      Ancestor(m, at + names, |k|);
      assert Parent(k) == at;
      if names[1..] == [] {
        assert at + names == k;
      } else {
        WalkNames(m, k, names[1..], links, follow);
      }
    }
  }

  lemma EmptiedTree(m: Nodes, k: Key)
    requires IsTree(m) && k in m
    ensures IsTree(Emptied(m, k))
  {
    var e := Emptied(m, k);
    forall j | j in e && j != []
      ensures IsName(j[|j| - 1]) && IsDir(e, Parent(j))
    {
      assert IsDir(m, Parent(j)) && (k < Parent(j) ==> k < j);
    }
  }

  lemma WalkFromRoot(m: Nodes, k: Key, follow: bool)
    requires IsTree(m) && k in m && (follow ==> !m[k].Link?)
    ensures Walk(m, [], [""] + k, MAX_LINKS, follow) == Some(k)
  {
    assert ([""] + k)[1..] == k && [] + k == k;
    WalkNames(m, [], k, MAX_LINKS, follow);
  }

  lemma EntryOfPath(m: Nodes, cwd: Key, k: Key)
    requires IsTree(m) && k in m && k != [] && |PathOf(k)| < PATH_MAX
    ensures Entry(m, cwd, PathOf(k)) == Some(k)
  {
    hide Walk, L.Split, PathOf;
    SplitPathOf(m, k);
    var path := [""] + k;
    assert path[|path| - 1] == k[|k| - 1] && path[..|path| - 1] == [""] + Parent(k);
    WalkFromRoot(m, Parent(k), true);
    assert Parent(k) + [k[|k| - 1]] == k;
  }

  /** Names of directories lead down, and the walk goes on from there. */
  lemma {:induction false} WalkAlong(m: Nodes, at: Key, names: seq<string>, more: seq<string>, links: nat, follow: bool)
    requires IsTree(m) && IsDir(m, at + names)
    ensures Walk(m, at, names + more, links, follow) == Walk(m, at + names, more, links, follow)
    decreases |names|
  {
    if names == [] {
      assert at + names == at && names + more == more;
    } else {
      var k := at + [names[0]];
      assert at + names == k + names[1..] && (at + names)[..|k|] == k && (at + names)[..|at|] == at;
      Ancestor(m, at + names, |k|);
      Ancestor(m, at + names, |at|);
      assert Parent(k) == at && (names + more)[1..] == names[1..] + more;
      assert k == at + names || |k| < |at + names|;
      assert IsDir(m, k) && IsName(k[|k| - 1]) && k[|k| - 1] == names[0];
      WalkAlong(m, k, names[1..], more, links, follow);
    }
  }

  lemma WalkRoot(m: Nodes, path: seq<string>, links: nat, follow: bool)
    requires IsTree(m)
    ensures Walk(m, [], [""] + path, links, follow) == Walk(m, [], path, links, follow)
  {
    assert ([""] + path)[1..] == path;
  }

  lemma WalkAlongPath(m: Nodes, k: Key, more: seq<string>, links: nat, follow: bool)
    requires IsTree(m) && IsDir(m, k)
    ensures Walk(m, [], L.Split(PathOf(k)) + more, links, follow) == Walk(m, k, more, links, follow)
  {
    hide Walk, L.Split, PathOf, IsTree;
    SplitPathOf(m, k);
    assert [""] + k + more == [""] + (k + more) && [] + k == k;
    WalkRoot(m, k + more, links, follow);
    WalkAlong(m, [], k, more, links, follow);
  }

  /** One link on the way costs one of those that a walk may follow. */
  lemma WalkLink(m: Nodes, at: Key, last: string, k: Key, name: string, links: nat)
    requires IsTree(m) && IsDir(m, at) && IsName(last) && at + [last] in m && m[at + [last]] == Link(PathOf(k))
    requires k != [] && IsDir(m, k) && IsName(name) && k + [name] in m && links > 0
    ensures Walk(m, at, [last, name], links, false) == Some(k + [name])
  {
    hide PathOf, L.Split;
    SplitPathOf(m, k);
    assert [last, name][1..] == [name];
    WalkAlongPath(m, k, [name], links - 1, false);
    WalkNames(m, k, [name], links - 1, false);
  }

  /** A path through a link leads on from the directory that the link names. */
  lemma LinkLeads(m: Nodes, cwd: Key, link: Key, k: Key, name: string)
    requires IsTree(m) && link in m && link != [] && m[link] == Link(PathOf(k)) && k != []
    requires IsDir(m, k) && IsName(name) && k + [name] in m
    requires |PathOf(link) + "/" + name| < PATH_MAX
    ensures Lookup(m, cwd, PathOf(link) + "/" + name) == Some(k + [name])
  {
    var at, last := Parent(link), link[|link| - 1];
    assert IsName(last) && IsDir(m, at) && at + [last] == link;
    assert PathOf(link) == PathOf(at) + "/" + last;
    hide Walk, PathOf, L.Split, IsTree;
    L.SplitAppend(PathOf(link), name);
    L.SplitAppend(PathOf(at), last);
    assert L.Split(PathOf(link) + "/" + name) == L.Split(PathOf(at)) + [last, name];
    WalkAlongPath(m, at, [last, name], MAX_LINKS, false);
    WalkLink(m, at, last, k, name, MAX_LINKS);
    SplitPathOf(m, link);
  }

  /** Everything can be removed by its absolute path, if that is short enough. */
  lemma PathOfIsRemovable(m: Nodes, cwd: Key, k: Key)
    requires IsTree(m) && k in m && k != [] && |PathOf(k)| < PATH_MAX
    ensures Lookup(m, cwd, PathOf(k)) == Some(k) && IsRemovable(m, cwd, PathOf(k))
  {
    SplitPathOf(m, k);
    WalkFromRoot(m, k, false);
    EmptiedTree(m, k);
    assert k in Emptied(m, k);
    EntryOfPath(Emptied(m, k), cwd, k);
  }

  /** A directory can never be removed by a path that ends in ".", although such a path reaches it to the end. */
  lemma DotIsNotRemovable(m: Nodes, cwd: Key, text: string)
    requires Target(m, cwd, text).Some? && IsDir(m, Target(m, cwd, text).value) && IsTree(m)
    requires |text| + 2 < PATH_MAX
    ensures Lookup(m, cwd, text + "/" + L.DOT) == Target(m, cwd, text)
    ensures !IsRemovable(m, cwd, text + "/" + L.DOT)
    ensures var d := Target(m, cwd, text).value;
            Target(Emptied(m, d), cwd, text) == Some(d) ==> StaysReached(m, cwd, text + "/" + L.DOT)
  {
    var d := Target(m, cwd, text).value;
    DotTarget(m, cwd, text, d);
    var e := Emptied(m, d);
    if Target(e, cwd, text) == Some(d) {
      assert d in e;
      DotTarget(e, cwd, text, d);
    }
    L.SplitAppend(text, L.DOT);
    assert Stripped(L.Split(text) + [L.DOT]) == L.Split(text) + [L.DOT];
  }

  lemma DotTarget(m: Nodes, cwd: Key, text: string, d: Key)
    requires Target(m, cwd, text) == Some(d) && IsDir(m, d) && |text| + 2 < PATH_MAX
    ensures Lookup(m, cwd, text + "/" + L.DOT) == Some(d) && Target(m, cwd, text + "/" + L.DOT) == Some(d)
  {
    L.SplitAppend(text, L.DOT);
    assert [L.DOT][1..] == [];
    var left1 := WalkThen(m, Start(cwd, text), L.Split(text), MAX_LINKS, d, [L.DOT], false);
    var left2 := WalkThen(m, Start(cwd, text), L.Split(text), MAX_LINKS, d, [L.DOT], true);
  }

  // ----- a name that is cut -----

  /** A path that goes on for `2 * n` characters and stays where it is. */
  function Dots(n: nat): (r: string)
    ensures |r| == 2 * n && NUL !in r
  {
    if n == 0 then "" else "./" + Dots(n - 1)
  }

  lemma WalkDot(m: Nodes, rest: seq<string>)
    requires IsTree(m)
    ensures Walk(m, [], [L.DOT] + rest, MAX_LINKS, false) == Walk(m, [], rest, MAX_LINKS, false)
  {
    assert ([L.DOT] + rest)[1..] == rest;
  }

  lemma WalkName(m: Nodes, name: string)
    requires IsTree(m) && IsName(name) && [name] in m && !m[[name]].Link?
    ensures Walk(m, [], [name], MAX_LINKS, false) == Some([name])
  {
    assert [] + [name] == [name] && [name][1..] == [];
  }

  lemma SplitDots(n: nat, name: string)
    requires IsName(name)
    ensures !L.IsRooted(Dots(n) + name)
    ensures L.Split(Dots(n) + name) == if n == 0 then [name] else [L.DOT] + L.Split(Dots(n - 1) + name)
  {
    if n == 0 {
      assert Dots(0) + name == name && name[..|name|] == name;
      L.SplitElement(name, |name|);
    } else {
      var text, rest := Dots(n) + name, Dots(n - 1) + name;
      assert text == "./" + rest && text[..1] == L.DOT && text[2..] == rest;
      L.SplitElement(text, 1);
    }
  }

  lemma {:induction false} WalkDots(m: Nodes, n: nat, name: string)
    requires IsTree(m) && IsName(name) && [name] in m && !m[[name]].Link?
    ensures Walk(m, [], L.Split(Dots(n) + name), MAX_LINKS, false) == Some([name])
    ensures !L.IsRooted(Dots(n) + name)
  {
    hide Walk, IsTree, L.Split, Dots;
    SplitDots(n, name);
    if n == 0 {
      WalkName(m, name);
    } else {
      WalkDots(m, n - 1, name);
      WalkDot(m, L.Split(Dots(n - 1) + name));
    }
  }

  /**
   A name of PATH_MAX characters that spells one file, which the operating system would refuse,
   and that is cut to the name of another one.
   */
  lemma CutNameHitsAnother() returns (m: Nodes, name: string)
    ensures IsTree(m) && |name| == PATH_MAX && NUL !in name
    ensures Walk(m, [], L.Split(name), MAX_LINKS, false) == Some(["fg"]) && Lookup(m, [], name).None?
    ensures Lookup(m, [], name[..PATH_MAX - 1]) == Some(["f"]) && !IsDir(m, ["f"])
  {
    m, name := map[[] := Dir, ["f"] := File, ["fg"] := File], Dots(2047) + "fg";
    assert Parent(["f"]) == [] && Parent(["fg"]) == [];
    hide Dots, Walk;
    WalkDots(m, 2047, "f");
    WalkDots(m, 2047, "fg");
    assert name[..PATH_MAX - 1] == Dots(2047) + "f";
  }
}
