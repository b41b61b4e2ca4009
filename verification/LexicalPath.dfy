/**
 Lexical path names, in the sense of "Lexical File Names in Plan 9 or Getting Dot-Dot Right":
 splitting on '/', folding the elements over a stack, joining the stack again, and resolving
 a path against a working directory. `Clean` is the reference for the single-pass normaliser
 in CleanUnixPath.dfy.
 */
module LexicalPath {

  const DOT := "."
  const DOTDOT := ".."

  /** The elements between '/' characters; never empty, and "" wherever slashes meet. */
  function Split(s: string): (r: seq<string>)
    ensures |r| > 0
  {
    if s == "" then [""]
    else if s[0] == '/' then [""] + Split(s[1..])
    else
      var rest := Split(s[1..]);
      [[s[0]] + rest[0]] + rest[1..]
  }

  /** Concatenates the elements with one '/' between neighbours. */
  function Join(elements: seq<string>): string {
    if elements == [] then ""
    else if |elements| == 1 then elements[0]
    else Join(elements[..|elements| - 1]) + "/" + elements[|elements| - 1]
  }

  predicate IsRooted(s: string) {
    s != "" && s[0] == '/'
  }

  /** One element applied to the stack of elements kept so far. */
  function Step(rooted: bool, stack: seq<string>, e: string): seq<string> {
    if e == "" || e == DOT then stack
    else if e == DOTDOT then
      if stack != [] && stack[|stack| - 1] != DOTDOT then stack[..|stack| - 1]
      else if rooted then stack
      else stack + [DOTDOT]
    else stack + [e]
  }

  function Fold(rooted: bool, stack: seq<string>, elements: seq<string>): seq<string>
    decreases |elements|
  {
    if elements == [] then stack
    else Fold(rooted, Step(rooted, stack, elements[0]), elements[1..])
  }

  function Render(rooted: bool, stack: seq<string>): string {
    (if rooted then "/" else "") + Join(stack)
  }

  /** The stack of elements that names the same place as `s`. */
  function Reduced(s: string): seq<string> {
    Fold(IsRooted(s), [], Split(s))
  }

  /** The reference normaliser: split, fold on a stack, join; "." stands for the empty path. */
  function Clean(s: string): string {
    var text := Render(IsRooted(s), Reduced(s));
    if text == "" then DOT else text
  }

  /** A path element that neither vanishes nor contains a separator. */
  predicate IsElement(e: string) {
    e != "" && e != DOT && '/' !in e
  }

  /** Normal form: proper elements, ".." only as a leading run of `ups` and never when rooted. */
  predicate IsNormal(rooted: bool, stack: seq<string>, ups: nat) {
    && ups <= |stack|
    && (rooted ==> ups == 0)
    && (forall i :: 0 <= i < |stack| ==> IsElement(stack[i]))
    && (forall i :: 0 <= i < |stack| ==> (stack[i] == DOTDOT <==> i < ups))
  }

  /** The length of the leading run of ".." elements. */
  function Ups(stack: seq<string>): (n: nat)
    ensures n <= |stack|
  {
    if stack != [] && stack[0] == DOTDOT then 1 + Ups(stack[1..]) else 0
  }

  // ----- splitting and joining -----

  lemma {:induction false} SplitElement(s: string, k: nat)
    requires k <= |s|
    requires '/' !in s[..k]
    requires k < |s| ==> s[k] == '/'
    ensures Split(s) == [s[..k]] + (if k == |s| then [] else Split(s[k + 1..]))
  {
    if k > 0 {
      assert s[0] in s[..k];
      assert s[1..][..k - 1] == s[..k][1..];
      assert forall c :: c in s[1..][..k - 1] ==> c in s[..k];
      SplitElement(s[1..], k - 1);
      assert k < |s| ==> s[1..][k..] == s[k + 1..];
      assert s[..k] == [s[0]] + s[1..][..k - 1];
    }
  }

  /** Splitting leaves no separator inside an element. */
  lemma {:induction false} SplitHasNoSlash(s: string, i: nat)
    requires i < |Split(s)|
    ensures '/' !in Split(s)[i]
  {
    if s != "" {
      if s[0] == '/' {
        if i > 0 { SplitHasNoSlash(s[1..], i - 1); }
      } else {
        SplitHasNoSlash(s[1..], i);
      }
    }
  }

  lemma {:induction false} SplitAppend(s: string, e: string)
    requires '/' !in e
    ensures Split(s + "/" + e) == Split(s) + [e]
  {
    if s == "" {
      assert (s + "/" + e)[1..] == e;
      SplitElement(e, |e|);
      assert e[..|e|] == e;
    } else {
      assert (s + "/" + e)[1..] == s[1..] + "/" + e;
      SplitAppend(s[1..], e);
    }
  }

  /** Splitting undoes joining. */
  lemma {:induction false} SplitJoin(elements: seq<string>)
    requires elements != []
    requires forall i :: 0 <= i < |elements| ==> '/' !in elements[i]
    ensures Split(Join(elements)) == elements
  {
    var n := |elements|;
    if n == 1 {
      SplitElement(elements[0], |elements[0]|);
      assert elements[0][..|elements[0]|] == elements[0];
    } else {
      SplitJoin(elements[..n - 1]);
      SplitAppend(Join(elements[..n - 1]), elements[n - 1]);
      assert elements[..n - 1] + [elements[n - 1]] == elements;
    }
  }

  /** A join of proper elements starts with a proper element's first character. */
  lemma {:induction false} JoinStart(elements: seq<string>)
    requires elements != []
    requires forall i :: 0 <= i < |elements| ==> IsElement(elements[i])
    ensures elements[0] != "" && Join(elements) != ""
    ensures Join(elements)[0] == elements[0][0] != '/'
  {
    var n := |elements|;
    assert elements[0][0] in elements[0];
    if n > 1 {
      JoinStart(elements[..n - 1]);
    }
  }

  // ----- the fold -----

  lemma {:induction false} FoldAppend(rooted: bool, stack: seq<string>, a: seq<string>, b: seq<string>)
    ensures Fold(rooted, stack, a + b) == Fold(rooted, Fold(rooted, stack, a), b)
    decreases |a|
  {
    if a == [] {
      assert a + b == b;
    } else {
      assert (a + b)[1..] == a[1..] + b;
      FoldAppend(rooted, Step(rooted, stack, a[0]), a[1..], b);
    }
  }

  lemma UpsOfNormal(rooted: bool, stack: seq<string>, ups: nat)
    requires IsNormal(rooted, stack, ups)
    ensures Ups(stack) == ups
    decreases ups
  {
    if ups > 0 {
      assert stack[0] == DOTDOT;
      assert forall i :: 0 <= i < |stack| - 1 ==> stack[1..][i] == stack[i + 1];
      UpsOfNormal(false, stack[1..], ups - 1);
    }
  }

  lemma StepNormal(rooted: bool, stack: seq<string>, ups: nat, e: string)
    requires IsNormal(rooted, stack, ups)
    requires '/' !in e
    ensures IsNormal(rooted, Step(rooted, stack, e),
                     if e == DOTDOT && |stack| == ups && !rooted then ups + 1 else ups)
  {
  }

  /** Folding proper elements keeps the stack in normal form. */
  lemma {:induction false} FoldNormal(rooted: bool, stack: seq<string>, elements: seq<string>)
    requires IsNormal(rooted, stack, Ups(stack))
    requires forall i :: 0 <= i < |elements| ==> '/' !in elements[i]
    ensures IsNormal(rooted, Fold(rooted, stack, elements), Ups(Fold(rooted, stack, elements)))
    decreases |elements|
  {
    if elements != [] {
      var next := Step(rooted, stack, elements[0]);
      var ups := if elements[0] == DOTDOT && |stack| == Ups(stack) && !rooted then Ups(stack) + 1 else Ups(stack);
      StepNormal(rooted, stack, Ups(stack), elements[0]);
      UpsOfNormal(rooted, next, ups);
      FoldNormal(rooted, next, elements[1..]);
    }
  }

  /** A stack in normal form folds to itself. */
  lemma {:induction false} FoldOfNormal(rooted: bool, stack: seq<string>, ups: nat, n: nat)
    requires IsNormal(rooted, stack, ups)
    requires n <= |stack|
    ensures Fold(rooted, [], stack[..n]) == stack[..n]
  {
    if n > 0 {
      FoldOfNormal(rooted, stack, ups, n - 1);
      assert stack[..n] == stack[..n - 1] + [stack[n - 1]];
      FoldAppend(rooted, [], stack[..n - 1], [stack[n - 1]]);
      var before := stack[..n - 1];
      assert Fold(rooted, before, [stack[n - 1]]) == Step(rooted, before, stack[n - 1]);
      if stack[n - 1] == DOTDOT && n > 1 {
        assert before[|before| - 1] == stack[n - 2] == DOTDOT;
      }
    }
  }

  lemma ReducedIsNormal(s: string)
    ensures IsNormal(IsRooted(s), Reduced(s), Ups(Reduced(s)))
  {
    forall i | 0 <= i < |Split(s)|
      ensures '/' !in Split(s)[i]
    {
      SplitHasNoSlash(s, i);
    }
    FoldNormal(IsRooted(s), [], Split(s));
  }

  // ----- the shape of a cleaned path -----

  /** Rendering a normal stack and reading it back yields that stack. */
  lemma ReducedOfRender(rooted: bool, stack: seq<string>, ups: nat)
    requires IsNormal(rooted, stack, ups)
    requires rooted || stack != []
    ensures IsRooted(Render(rooted, stack)) == rooted
    ensures Reduced(Render(rooted, stack)) == stack
  {
    var text := Render(rooted, stack);
    FoldOfNormal(rooted, stack, ups, |stack|);
    assert stack[..|stack|] == stack;
    if stack == [] {
      assert text[1..] == "";
      assert Split(text) == ["", ""];
      assert Fold(true, [], ["", ""]) == Fold(true, [], [""]) == [];
    } else {
      JoinStart(stack);
      SplitJoin(stack);
      if rooted {
        assert text[1..] == Join(stack);
        assert Split(text) == [""] + stack;
        FoldAppend(true, [], [""], stack);
      } else {
        assert text == Join(stack);
      }
    }
  }

  lemma ReducedOfDot()
    ensures !IsRooted(DOT) && Reduced(DOT) == []
  {
    SplitElement(DOT, 1);
    assert DOT[..1] == DOT;
    assert Split(DOT) == [DOT];
    assert Fold(false, [], [DOT]) == [];
  }

  /** Cleaning keeps the rootedness and the reduced stack of a path. */
  lemma ReducedOfClean(s: string)
    ensures IsRooted(Clean(s)) == IsRooted(s)
    ensures Reduced(Clean(s)) == Reduced(s)
  {
    ReducedIsNormal(s);
    var stack := Reduced(s);
    if IsRooted(s) || stack != [] {
      ReducedOfRender(IsRooted(s), stack, Ups(stack));
      if stack != [] { JoinStart(stack); }
    } else {
      ReducedOfDot();
    }
  }

  /** Cleaning twice is cleaning once. */
  lemma CleanIdempotent(s: string)
    ensures Clean(Clean(s)) == Clean(s)
  {
    ReducedOfClean(s);
  }

  /** The elements of a cleaned path: "." alone, "/" alone, or the split of a normal stack. */
  lemma CleanShape(s: string)
    ensures Clean(s) == DOT ||
            exists stack, ups: nat ::
              && IsNormal(IsRooted(s), stack, ups)
              && Clean(s) == Render(IsRooted(s), stack)
              && (stack == [] ==> IsRooted(s))
              && Split(Clean(s)) == (if IsRooted(s) then [""] else []) + (if stack == [] then [""] else stack)
  {
    ReducedIsNormal(s);
    var rooted, stack := IsRooted(s), Reduced(s);
    if Clean(s) != DOT {
      var text := Render(rooted, stack);
      if stack != [] {
        SplitJoin(stack);
        JoinStart(stack);
      }
      if rooted {
        assert text[1..] == Join(stack);
        assert Split(text) == [""] + Split(Join(stack));
      } else {
        assert text == Join(stack);
      }
      assert IsNormal(rooted, stack, Ups(stack));
      assert Clean(s) == text;
      assert Split(text) == (if rooted then [""] else []) + (if stack == [] then [""] else stack);
    }
  }

  // ----- resolution against a working directory -----

  /** One element walked from the directory `at` (the names below the root); the parent of "/" is "/". */
  function Walk1(at: seq<string>, e: string): seq<string> {
    if e == "" || e == "." then at
    else if e == ".." then if at == [] then [] else at[..|at| - 1]
    else at + [e]
  }

  function Walk(at: seq<string>, elements: seq<string>): seq<string>
    decreases |elements|
  {
    if elements == [] then at else Walk(Walk1(at, elements[0]), elements[1..])
  }

  /** The place a path names, lexically, from the working directory `cwd`. */
  function Resolve(cwd: seq<string>, s: string): seq<string> {
    Walk(if IsRooted(s) then [] else cwd, Split(s))
  }

  lemma {:induction false} WalkAppend(at: seq<string>, a: seq<string>, b: seq<string>)
    ensures Walk(at, a + b) == Walk(Walk(at, a), b)
    decreases |a|
  {
    if a == [] {
      assert a + b == b;
    } else {
      assert (a + b)[1..] == a[1..] + b;
      WalkAppend(Walk1(at, a[0]), a[1..], b);
    }
  }

  /** A stack element pushed onto the reduced stack walks like the element itself. */
  lemma WalkStep(rooted: bool, at: seq<string>, stack: seq<string>, e: string)
    requires rooted ==> at == []
    requires IsNormal(rooted, stack, Ups(stack))
    ensures Walk(at, Step(rooted, stack, e)) == Walk1(Walk(at, stack), e)
  {
    var n := |stack|;
    if e == "" || e == DOT {
    } else if e == DOTDOT && n > 0 && stack[n - 1] != DOTDOT {
      assert stack == stack[..n - 1] + [stack[n - 1]];
      WalkAppend(at, stack[..n - 1], [stack[n - 1]]);
      assert Walk(Walk(at, stack[..n - 1]), [stack[n - 1]]) == Walk1(Walk(at, stack[..n - 1]), stack[n - 1]);
    } else if e == DOTDOT && rooted {
      assert stack == [];
    } else {
      WalkAppend(at, stack, [e]);
      assert Walk(Walk(at, stack), [e]) == Walk1(Walk(at, stack), e);
    }
  }

  lemma {:induction false} WalkFold(rooted: bool, at: seq<string>, stack: seq<string>, elements: seq<string>)
    requires rooted ==> at == []
    requires IsNormal(rooted, stack, Ups(stack))
    requires forall i :: 0 <= i < |elements| ==> '/' !in elements[i]
    ensures Walk(at, Fold(rooted, stack, elements)) == Walk(Walk(at, stack), elements)
    decreases |elements|
  {
    if elements != [] {
      WalkStep(rooted, at, stack, elements[0]);
      FoldNormal(rooted, stack, elements[..1]);
      var next := Step(rooted, stack, elements[0]);
      assert Fold(rooted, stack, elements[..1]) == next;
      WalkFold(rooted, at, next, elements[1..]);
    }
  }

  /** Resolving a path is walking its reduced stack. */
  lemma ResolveIsWalkOfReduced(cwd: seq<string>, s: string)
    ensures Resolve(cwd, s) == Walk(if IsRooted(s) then [] else cwd, Reduced(s))
  {
    forall i | 0 <= i < |Split(s)|
      ensures '/' !in Split(s)[i]
    {
      SplitHasNoSlash(s, i);
    }
    WalkFold(IsRooted(s), if IsRooted(s) then [] else cwd, [], Split(s));
  }

  /** Cleaning keeps the meaning of a path in every working directory. */
  lemma CleanPreservesResolution(cwd: seq<string>, s: string)
    ensures Resolve(cwd, Clean(s)) == Resolve(cwd, s)
  {
    ReducedOfClean(s);
    ResolveIsWalkOfReduced(cwd, s);
    ResolveIsWalkOfReduced(cwd, Clean(s));
  }

  // ----- cleaning is canonical -----

  /** Walking a normal stack drops `ups` names and then adds the remaining elements. */
  lemma {:induction false} WalkOfNormal(rooted: bool, at: seq<string>, stack: seq<string>, ups: nat, n: nat)
    requires IsNormal(rooted, stack, ups)
    requires n <= |stack| && ups <= |at|
    ensures Walk(at, stack[..n]) ==
            if n <= ups then at[..|at| - n] else at[..|at| - ups] + stack[ups..n]
  {
    if n > 0 {
      WalkOfNormal(rooted, at, stack, ups, n - 1);
      assert stack[..n] == stack[..n - 1] + [stack[n - 1]];
      WalkAppend(at, stack[..n - 1], [stack[n - 1]]);
      var before := Walk(at, stack[..n - 1]);
      assert Walk(before, [stack[n - 1]]) == Walk1(before, stack[n - 1]);
    }
  }

  /** A working directory of `n` names spelled alike. */
  function Deep(n: nat, name: string): seq<string> {
    seq(n, i => name)
  }

  /**
   Two paths clean to the same text exactly when no working directory tells them apart, so
   a cleaned path is the canonical name of what its input means.
   */
  lemma CleanIsCanonical(s: string, t: string)
    ensures Clean(s) == Clean(t) <==> forall cwd :: Resolve(cwd, s) == Resolve(cwd, t)
  {
    if Clean(s) == Clean(t) {
      forall cwd
        ensures Resolve(cwd, s) == Resolve(cwd, t)
      {
        CleanPreservesResolution(cwd, s);
        CleanPreservesResolution(cwd, t);
      }
    }
    if forall cwd :: Resolve(cwd, s) == Resolve(cwd, t) {
      SameMeaningSameStack(s, t);
    }
  }

  lemma ResolveDeep(s: string, n: nat, name: string)
    requires n >= Ups(Reduced(s))
    ensures !IsRooted(s) ==>
              Resolve(Deep(n, name), s) ==
              Deep(n, name)[..n - Ups(Reduced(s))] + Reduced(s)[Ups(Reduced(s))..]
    ensures IsRooted(s) ==> Resolve(Deep(n, name), s) == Reduced(s) && Ups(Reduced(s)) == 0
  {
    var stack := Reduced(s);
    ReducedIsNormal(s);
    ResolveIsWalkOfReduced(Deep(n, name), s);
    assert stack[..|stack|] == stack;
    WalkOfNormal(IsRooted(s), if IsRooted(s) then [] else Deep(n, name), stack, Ups(stack), |stack|);
  }

  lemma SameMeaningSameStack(s: string, t: string)
    requires forall cwd :: Resolve(cwd, s) == Resolve(cwd, t)
    ensures IsRooted(s) == IsRooted(t) && Reduced(s) == Reduced(t)
  {
    var a, b := Reduced(s), Reduced(t);
    var n := |a| + |b| + 1;
    // A name longer than any element of either stack occurs in neither.
    var name := Fresh(a + b);
    ResolveDeep(s, n, name);
    ResolveDeep(t, n, name);
    var here := Deep(n, name);
    assert Resolve(here, s) == Resolve(here, t);
    if !IsRooted(s) && !IsRooted(t) {
      SameTail(here, name, a, b);
    }
  }

  /** Names outside the stacks mark where the working directory ends and the stack begins. */
  lemma SameUps(here: seq<string>, name: string, a: seq<string>, b: seq<string>, u: nat, v: nat)
    requires forall i :: 0 <= i < |here| ==> here[i] == name
    requires u <= |a| && v <= |b| && u <= |here| && v <= |here|
    requires here[..|here| - u] + a[u..] == here[..|here| - v] + b[v..]
    ensures u < v ==> name in b
  {
    if u < v {
      var x := here[..|here| - u] + a[u..];
      var k := |here| - v;
      assert x[k] == here[k] == name;
      assert x[k] == (here[..k] + b[v..])[k] == b[v];
    }
  }

  lemma SameTail(here: seq<string>, name: string, a: seq<string>, b: seq<string>)
    requires forall i :: 0 <= i < |here| ==> here[i] == name
    requires name !in a && name !in b
    requires Ups(a) <= |here| && Ups(b) <= |here|
    requires here[..|here| - Ups(a)] + a[Ups(a)..] == here[..|here| - Ups(b)] + b[Ups(b)..]
    ensures a == b
  {
    hide Ups;
    var u := Ups(a);
    SameUps(here, name, a, b, u, Ups(b));
    SameUps(here, name, b, a, Ups(b), u);
    var x := here[..|here| - u] + a[u..];
    assert a[u..] == x[|here| - u..] == b[u..];
    UpsPrefix(a, u);
    UpsPrefix(b, u);
    assert a[..u] == b[..u];
    assert a == a[..u] + a[u..];
    assert b == b[..u] + b[u..];
  }

  lemma {:induction false} UpsPrefix(stack: seq<string>, n: nat)
    requires n <= Ups(stack)
    ensures forall i :: 0 <= i < n ==> stack[i] == DOTDOT
  {
    if n > 0 {
      UpsPrefix(stack[1..], n - 1);
      assert forall i :: 1 <= i < n ==> stack[i] == stack[1..][i - 1];
    }
  }

  /** A string that differs from every given one. */
  function Fresh(names: seq<string>): (r: string)
    ensures r !in names
    ensures forall i :: 0 <= i < |names| ==> |names[i]| < |r|
  {
    if names == [] then "x"
    else
      var rest := Fresh(names[1..]);
      var r := seq(|rest| + |names[0]| + 1, i => 'x');
      assert forall i :: 0 <= i < |names| ==> |names[i]| < |r| by {
        assert forall i :: 1 <= i < |names| ==> names[i] == names[1..][i - 1];
      }
      r
  }
}
