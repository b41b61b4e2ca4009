/**
 A file system that deletions change, and how a path text finds its place in it. A key is the
 list of names from the root; a path text is walked element by element, following links.
 */
module PathWalk {
  import opened Basics
  import opened PathBuffer
  import L = LexicalPath

  type Key = seq<string>

  datatype Node = File | Dir | Link(target: string)

  type Nodes = map<Key, Node>

  /** How many links one walk may follow. */
  const MAX_LINKS := 40

  predicate IsName(n: string) {
    n != "" && n != L.DOT && n != L.DOTDOT && '/' !in n && NUL !in n
  }

  predicate IsDir(m: Nodes, k: Key) {
    k in m && m[k].Dir?
  }

  function Parent(k: Key): Key {
    if k == [] then [] else k[..|k| - 1]
  }

  /** The root is a directory, and everything else has a name in a directory. */
  ghost predicate IsTree(m: Nodes) {
    && IsDir(m, [])
    && forall k {:trigger Parent(k)} :: k in m && k != [] ==> IsName(k[|k| - 1]) && IsDir(m, Parent(k))
  }

  /** `a` is what is left of `b` after some deletions. */
  ghost predicate IsPart(a: Nodes, b: Nodes) {
    forall k :: k in a ==> k in b && b[k] == a[k]
  }

  /** The file system without the tree at `top`. */
  ghost function Without(m: Nodes, top: Key): Nodes {
    map k | k in m && !(top <= k) :: m[k]
  }

  /** The file system with the directory `top` emptied. */
  ghost function Emptied(m: Nodes, top: Key): Nodes {
    map k | k in m && !(top < k) :: m[k]
  }

  /** `a` is left of `b` after deletions inside the tree at `top`. */
  ghost predicate OnlyInside(a: Nodes, b: Nodes, top: Key) {
    IsPart(a, b) && forall k :: k in b && !(top <= k) ==> k in a
  }

  // ----- walking -----

  /** Walks `path` from `at`. The last element, if it is a link, is followed only on demand. */
  function Walk(m: Nodes, at: Key, path: seq<string>, links: nat, follow: bool): Option<Key>
    decreases links, |path|
  {
    if path == [] then
      if at in m then Some(at) else None
    else if !IsDir(m, at) then None
    else
      var e, rest := path[0], path[1..];
      if e == "" || e == L.DOT then Walk(m, at, rest, links, follow)
      else if e == L.DOTDOT then Walk(m, Parent(at), rest, links, follow)
      else if at + [e] !in m then None
      else
        var n := m[at + [e]];
        if !n.Link? then Walk(m, at + [e], rest, links, follow)
        else if rest == [] && !follow then Some(at + [e])
        else if links == 0 || n.target == "" then None
        else Walk(m, Start(at, n.target), L.Split(n.target) + rest, links - 1, follow)
  }

  /** Where the walk of a path text begins. */
  function Start(cwd: Key, text: string): Key {
    if L.IsRooted(text) then [] else cwd
  }

  /** The operating system takes paths of this length. */
  predicate IsAccepted(text: string) {
    0 < |text| < PATH_MAX
  }

  /** What a path names, as lstat sees it. */
  function Lookup(m: Nodes, cwd: Key, text: string): Option<Key> {
    if !IsAccepted(text) then None else Walk(m, Start(cwd, text), L.Split(text), MAX_LINKS, false)
  }

  /** What a path names, as open and stat see it. */
  function Target(m: Nodes, cwd: Key, text: string): Option<Key> {
    if !IsAccepted(text) then None else Walk(m, Start(cwd, text), L.Split(text), MAX_LINKS, true)
  }

  /** A path without its trailing slashes. */
  function Stripped(path: seq<string>): seq<string> {
    if path != [] && path[|path| - 1] == "" then Stripped(path[..|path| - 1]) else path
  }

  /** The directory entry that unlink and rmdir remove for a path: its last element must be a name. */
  function Entry(m: Nodes, cwd: Key, text: string): Option<Key> {
    var path := Stripped(L.Split(text));
    if !IsAccepted(text) || path == [] || !IsName(path[|path| - 1]) then None
    else
      match Walk(m, Start(cwd, text), path[..|path| - 1], MAX_LINKS, true)
      case None => None
      case Some(d) =>
        var k := d + [path[|path| - 1]];
        if IsDir(m, d) && k in m then Some(k) else None
  }

  predicate EndsInSlash(text: string) {
    text != "" && text[|text| - 1] == '/'
  }

  // ----- facts about walks -----

  /** Deleting can only make a walk fail; it never leads elsewhere. */
  lemma {:induction false} WalkMonotone(a: Nodes, b: Nodes, at: Key, path: seq<string>, links: nat, follow: bool)
    requires IsPart(a, b)
    ensures var r := Walk(a, at, path, links, follow); r.Some? ==> r == Walk(b, at, path, links, follow)
    decreases links, |path|
  {
    if path != [] && IsDir(a, at) {
      var e, rest := path[0], path[1..];
      if e == "" || e == L.DOT {
        WalkMonotone(a, b, at, rest, links, follow);
      } else if e == L.DOTDOT {
        WalkMonotone(a, b, Parent(at), rest, links, follow);
      } else if at + [e] in a {
        var n := a[at + [e]];
        if !n.Link? {
          WalkMonotone(a, b, at + [e], rest, links, follow);
        } else if links > 0 {
          WalkMonotone(a, b, Start(at, n.target), L.Split(n.target) + rest, links - 1, follow);
        }
      }
    }
  }

  /** A walk to a directory can be continued from there. */
  lemma {:induction false} WalkThen(
    m: Nodes, at: Key, path: seq<string>, links: nat, d: Key, more: seq<string>, follow: bool)
    returns (left: nat)
    requires Walk(m, at, path, links, true) == Some(d) && more != []
    ensures Walk(m, at, path + more, links, follow) == Walk(m, d, more, left, follow)
    decreases links, |path|
  {
    if path == [] {
      assert path + more == more;
      left := links;
    } else {
      var e, rest := path[0], path[1..];
      assert (path + more)[1..] == rest + more;
      if e == "" || e == L.DOT {
        left := WalkThen(m, at, rest, links, d, more, follow);
      } else if e == L.DOTDOT {
        left := WalkThen(m, Parent(at), rest, links, d, more, follow);
      } else {
        var n := m[at + [e]];
        if !n.Link? {
          left := WalkThen(m, at + [e], rest, links, d, more, follow);
        } else {
          var expanded := L.Split(n.target) + rest;
          assert expanded + more == L.Split(n.target) + (rest + more);
          left := WalkThen(m, Start(at, n.target), expanded, links - 1, d, more, follow);
        }
      }
    }
  }

  /** A walk that ends at a directory does not depend on whether a last link is followed. */
  lemma {:induction false} WalkToDir(m: Nodes, at: Key, path: seq<string>, links: nat)
    ensures var r := Walk(m, at, path, links, false);
            r.Some? && !(r.value in m && m[r.value].Link?) ==> r == Walk(m, at, path, links, true)
    decreases links, |path|
  {
    if path != [] && IsDir(m, at) {
      var e, rest := path[0], path[1..];
      if e == "" || e == L.DOT {
        WalkToDir(m, at, rest, links);
      } else if e == L.DOTDOT {
        WalkToDir(m, Parent(at), rest, links);
      } else if at + [e] in m {
        var n := m[at + [e]];
        if !n.Link? {
          WalkToDir(m, at + [e], rest, links);
        } else if rest != [] && links > 0 {
          WalkToDir(m, Start(at, n.target), L.Split(n.target) + rest, links - 1);
        }
      }
    }
  }

  /** A walk ends at something that exists. */
  lemma {:induction false} WalkExists(m: Nodes, at: Key, path: seq<string>, links: nat, follow: bool)
    ensures var r := Walk(m, at, path, links, follow); r.Some? ==> r.value in m
    decreases links, |path|
  {
    if path != [] && IsDir(m, at) {
      var e, rest := path[0], path[1..];
      if e == "" || e == L.DOT {
        WalkExists(m, at, rest, links, follow);
      } else if e == L.DOTDOT {
        WalkExists(m, Parent(at), rest, links, follow);
      } else if at + [e] in m {
        var n := m[at + [e]];
        if !n.Link? {
          WalkExists(m, at + [e], rest, links, follow);
        } else if links > 0 {
          WalkExists(m, Start(at, n.target), L.Split(n.target) + rest, links - 1, follow);
        }
      }
    }
  }

  /** A walk to something other than a directory ends with its name, in the directory it is in. */
  lemma {:induction false} WalkToLeaf(m: Nodes, at: Key, path: seq<string>, links: nat, k: Key)
    requires IsTree(m) && IsDir(m, at) && path != []
    requires Walk(m, at, path, links, false) == Some(k) && !IsDir(m, k)
    ensures k != [] && k[|k| - 1] == path[|path| - 1]
    ensures Walk(m, at, path[..|path| - 1], links, true) == Some(Parent(k)) && IsDir(m, Parent(k))
    decreases links, |path|
  {
    var e, rest := path[0], path[1..];
    var front := path[..|path| - 1];
    if rest != [] {
      assert front[0] == e && front[1..] == rest[..|rest| - 1];
      if e == "" || e == L.DOT {
        WalkToLeaf(m, at, rest, links, k);
      } else if e == L.DOTDOT {
        WalkToLeaf(m, Parent(at), rest, links, k);
      } else {
        var n := m[at + [e]];
        if !n.Link? {
          WalkToLeaf(m, at + [e], rest, links, k);
        } else {
          var expanded := L.Split(n.target) + rest;
          assert expanded[..|expanded| - 1] == L.Split(n.target) + front[1..];
          WalkToLeaf(m, Start(at, n.target), expanded, links - 1, k);
        }
      }
    }
  }

  lemma {:induction false} WalkBlanks(m: Nodes, at: Key, path: seq<string>, links: nat, follow: bool)
    requires IsDir(m, at) && forall i :: 0 <= i < |path| ==> path[i] == ""
    ensures Walk(m, at, path, links, follow) == Some(at)
    decreases |path|
  {
    if path != [] {
      WalkBlanks(m, at, path[1..], links, follow);
    }
  }

  // ----- facts about path texts -----

  lemma {:induction false} StrippedTail(path: seq<string>)
    ensures var n := |Stripped(path)|;
            n <= |path| && path[..n] == Stripped(path) && forall i :: n <= i < |path| ==> path[i] == ""
    ensures var s := Stripped(path); s != [] ==> s[|s| - 1] != ""
  {
    if path != [] && path[|path| - 1] == "" {
      StrippedTail(path[..|path| - 1]);
    }
  }

  /** The last element of a path is empty just if the path ends in a slash. */
  lemma {:induction false} LastElement(text: string)
    requires text != ""
    ensures var path := L.Split(text); path[|path| - 1] == "" <==> EndsInSlash(text)
  {
    if |text| > 1 {
      LastElement(text[1..]);
    }
  }

  /** What unlink or rmdir would remove is what lstat sees. */
  lemma EntryIsLookup(m: Nodes, cwd: Key, text: string, k: Key)
    requires Entry(m, cwd, text) == Some(k) && (IsDir(m, k) || !EndsInSlash(text))
    ensures Lookup(m, cwd, text) == Some(k)
  {
    var path := L.Split(text);
    var n := |Stripped(path)|;
    StrippedTail(path);
    LastElement(text);
    assert Stripped(path)[..n - 1] == path[..n - 1] && path == path[..n - 1] + path[n - 1..];
    var d := Walk(m, Start(cwd, text), path[..n - 1], MAX_LINKS, true).value;
    var left := WalkThen(m, Start(cwd, text), path[..n - 1], MAX_LINKS, d, path[n - 1..], false);
    assert path[n - 1..][1..] == path[n..];
    if IsDir(m, k) {
      WalkBlanks(m, k, path[n..], left, false);
    }
  }

  /** What lstat sees, if it is no directory, is what unlink would remove. */
  lemma LeafIsEntry(m: Nodes, cwd: Key, text: string, k: Key)
    requires IsTree(m) && Lookup(m, cwd, text) == Some(k) && !IsDir(m, k)
    ensures Entry(m, cwd, text) == Some(k) && !EndsInSlash(text)
  {
    var path := L.Split(text);
    WalkExists(m, Start(cwd, text), path, MAX_LINKS, false);
    WalkToLeaf(m, Start(cwd, text), path, MAX_LINKS, k);
    LastElement(text);
    assert Stripped(path) == path;
    assert k == Parent(k) + [path[|path| - 1]];
  }

  /** A trailing slash makes no difference to rmdir. */
  lemma SlashEntry(m: Nodes, cwd: Key, text: string)
    requires IsAccepted(text) && IsAccepted(text + "/")
    ensures Entry(m, cwd, text + "/") == Entry(m, cwd, text)
  {
    L.SplitAppend(text, "");
    assert text + "/" + "" == text + "/";
    assert (L.Split(text) + [""])[..|L.Split(text)|] == L.Split(text);
  }

  /** Nor does it when a directory is opened. */
  lemma SlashTarget(m: Nodes, cwd: Key, text: string, d: Key)
    requires Target(m, cwd, text) == Some(d) && IsDir(m, d) && IsAccepted(text + "/")
    ensures Target(m, cwd, text + "/") == Some(d)
  {
    L.SplitAppend(text, "");
    assert text + "/" + "" == text + "/";
    var left := WalkThen(m, Start(cwd, text), L.Split(text), MAX_LINKS, d, [""], true);
  }

  /** An entry of a directory is found behind the path of the directory. */
  lemma ChildLookup(m: Nodes, cwd: Key, text: string, d: Key, name: string)
    requires Target(m, cwd, text) == Some(d) && IsDir(m, d) && IsTree(m)
    requires '/' !in name && IsAccepted(text + "/" + name)
    ensures var r := Lookup(m, cwd, text + "/" + name);
            if name == "" || name == L.DOT || name == L.DOTDOT then r.Some? && IsDir(m, r.value)
            else r == if d + [name] in m then Some(d + [name]) else None
  {
    L.SplitAppend(text, name);
    var left := WalkThen(m, Start(cwd, text), L.Split(text), MAX_LINKS, d, [name], false);
    assert [name][1..] == [];
  }

  lemma ChildEntry(m: Nodes, cwd: Key, text: string, d: Key, name: string)
    requires Target(m, cwd, text) == Some(d) && IsDir(m, d)
    requires IsName(name) && IsAccepted(text + "/" + name)
    ensures Entry(m, cwd, text + "/" + name) == if d + [name] in m then Some(d + [name]) else None
    ensures !EndsInSlash(text + "/" + name)
  {
    L.SplitAppend(text, name);
    var path := L.Split(text) + [name];
    assert Stripped(path) == path && path[..|path| - 1] == L.Split(text);
    assert (text + "/" + name)[|text| + |name|] == name[|name| - 1];
  }

  // ----- facts about trees -----

  predicate HasNoChild(m: Nodes, d: Key) {
    forall k {:trigger Parent(k)} :: k in m && k != [] ==> Parent(k) != d
  }

  lemma {:induction false} Ancestor(m: Nodes, k: Key, n: nat)
    requires IsTree(m) && k in m && n <= |k|
    ensures k[..n] in m && (n < |k| ==> IsDir(m, k[..n]))
    decreases |k|
  {
    if n < |k| {
      Ancestor(m, Parent(k), n);
      assert Parent(k)[..n] == k[..n];
    } else {
      assert k[..n] == k;
    }
  }

  lemma HasChild(m: Nodes, d: Key, k: Key)
    requires IsTree(m) && k in m && d < k
    ensures !HasNoChild(m, d)
  {
    Ancestor(m, k, |d| + 1);
    assert Parent(k[..|d| + 1]) == d;
  }

  /** A directory without entries has nothing below it. */
  lemma NothingBelow(m: Nodes, d: Key)
    requires IsTree(m) && HasNoChild(m, d)
    ensures forall k :: k in m ==> !(d < k)
  {
    forall k | k in m
      ensures !(d < k)
    {
      if d < k {
        HasChild(m, d, k);
      }
    }
  }

  /** Removing one entry, a directory only if it is empty, leaves a tree. */
  lemma Remove(m: Nodes, k: Key)
    requires IsTree(m) && k in m && k != [] && (IsDir(m, k) ==> HasNoChild(m, k))
    ensures IsTree(m - {k}) && OnlyInside(m - {k}, m, k)
  {
    forall j | j in m - {k} && j != []
      ensures IsName(j[|j| - 1]) && IsDir(m - {k}, Parent(j))
    {
      assert IsDir(m, Parent(j)) && Parent(j) != k;
    }
  }
}
