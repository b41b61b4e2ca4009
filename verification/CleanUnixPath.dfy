/**
 The single-pass path normaliser: it reads the input by index, writes the output by index,
 and undoes an element by scanning its own output backwards.
 */
module CleanUnixPath {
  import opened LexicalPath

  const NUL := '\0'

  /** A C string of `|s|` characters: reading at `|s|` yields the terminator, reading beyond is not allowed. */
  function At(s: string, i: nat): (c: char)
    requires i <= |s|
  {
    if i < |s| then s[i] else NUL
  }

  predicate IsSeparator(c: char) {
    c == '/' || c == NUL
  }

  predicate IsCString(s: string) {
    NUL !in s
  }

  /** Where the run of non-separators from `i` ends. */
  function ElementEnd(s: string, i: nat): (e: nat)
    requires i <= |s|
    ensures i <= e <= |s|
    ensures '/' !in s[i..e]
    ensures e < |s| ==> s[e] == '/'
    decreases |s| - i
  {
    if i == |s| || s[i] == '/' then i
    else
      var e := ElementEnd(s, i + 1);
      assert s[i..e] == [s[i]] + s[i + 1..e];
      e
  }

  // ----- the fold seen from a position in the input -----

  /** Skipping a slash leaves the rest of the fold unchanged. */
  lemma FoldSlash(rooted: bool, stack: seq<string>, s: string, i: nat)
    requires i < |s| && s[i] == '/'
    ensures Fold(rooted, stack, Split(s[i..])) == Fold(rooted, stack, Split(s[i + 1..]))
  {
    assert s[i..][1..] == s[i + 1..];
    assert Split(s[i..]) == [""] + Split(s[i + 1..]);
    FoldAppend(rooted, stack, [""], Split(s[i + 1..]));
    assert Fold(rooted, stack, [""]) == stack;
  }

  /** Consuming the element `s[i..e]` is one step of the fold. */
  lemma FoldElement(rooted: bool, stack: seq<string>, s: string, i: nat, e: nat)
    requires i <= e <= |s|
    requires '/' !in s[i..e]
    requires e < |s| ==> s[e] == '/'
    ensures Fold(rooted, stack, Split(s[i..])) == Fold(rooted, Step(rooted, stack, s[i..e]), Split(s[e..]))
  {
    var rest := s[i..];
    assert rest[..e - i] == s[i..e];
    SplitElement(rest, e - i);
    var tail := if e == |s| then [] else Split(s[e + 1..]);
    assert e < |s| ==> rest[e - i + 1..] == s[e + 1..];
    assert Split(rest) == [s[i..e]] + tail;
    FoldAppend(rooted, stack, [s[i..e]], tail);
    var next := Step(rooted, stack, s[i..e]);
    assert Fold(rooted, stack, [s[i..e]]) == next;
    if e < |s| {
      FoldSlash(rooted, next, s, e);
    } else {
      assert s[e..] == "";
      assert Split("") == [""];
      assert Fold(rooted, next, [""]) == next;
    }
  }

  // ----- the output seen as a rendered stack -----

  /** The output index that ".." cannot pass: the end of the leading run of ".." elements. */
  function DotDotLimit(rooted: bool, stack: seq<string>, ups: nat): nat
    requires ups <= |stack|
  {
    |Render(rooted, stack[..ups])|
  }

  lemma RenderPush(rooted: bool, stack: seq<string>, e: string)
    ensures Render(rooted, stack + [e]) == Render(rooted, stack) + (if stack == [] then "" else "/") + e
  {
    assert (stack + [e])[..|stack|] == stack;
  }

  lemma RenderPop(rooted: bool, stack: seq<string>)
    requires stack != []
    ensures var n := |stack| - 1;
            Render(rooted, stack) == Render(rooted, stack[..n]) + (if n == 0 then "" else "/") + stack[n]
  {
    var n := |stack| - 1;
    assert stack == stack[..n] + [stack[n]];
    RenderPush(rooted, stack[..n], stack[n]);
  }

  /** The output is longer than the limit exactly when an ordinary element can be undone. */
  lemma {:induction false} LimitBelow(rooted: bool, stack: seq<string>, ups: nat, n: nat)
    requires IsNormal(rooted, stack, ups)
    requires ups <= n <= |stack|
    ensures |Render(rooted, stack[..n])| >= DotDotLimit(rooted, stack, ups)
    ensures |Render(rooted, stack[..n])| > DotDotLimit(rooted, stack, ups) <==> n > ups
    ensures |Render(rooted, stack[..n])| == (if rooted then 1 else 0) <==> n == 0
  {
    if n > ups {
      LimitBelow(rooted, stack, ups, n - 1);
      assert stack[..n][..n - 1] == stack[..n - 1];
      RenderPop(rooted, stack[..n]);
    } else if n > 0 {
      JoinStart(stack[..n]);
    }
  }

  /** In the output, the last element holds no slash, and a slash precedes it unless the limit does. */
  lemma LastElement(rooted: bool, stack: seq<string>, ups: nat)
    requires IsNormal(rooted, stack, ups) && |stack| > ups
    ensures var n := |stack| - 1;
            var text, kept := Render(rooted, stack), Render(rooted, stack[..n]);
            && kept < text
            && (forall k :: |kept| < k < |text| ==> text[k] != '/')
            && DotDotLimit(rooted, stack, ups) <= |kept|
            && (DotDotLimit(rooted, stack, ups) < |kept| ==> text[|kept|] == '/')
  {
    var n := |stack| - 1;
    RenderPop(rooted, stack);
    LimitBelow(rooted, stack, ups, n);
    assert IsElement(stack[n]);
  }

  /**
   The loop of the source's rule 3: from the end of the output back to the last '/', but not
   past `limit`. What is left is the output for the stack without its last element.
   */
  method ScanBack(out: array<char>, start: nat, limit: nat,
                  ghost rooted: bool, ghost stack: seq<string>, ghost ups: nat) returns (outIndex: nat)
    requires IsNormal(rooted, stack, ups) && |stack| > ups
    requires start <= out.Length && out[..start] == Render(rooted, stack)
    requires limit == DotDotLimit(rooted, stack, ups) < start
    ensures limit <= outIndex < start
    ensures out[..outIndex] == Render(rooted, stack[..|stack| - 1])
  {
    ghost var text, kept := Render(rooted, stack), Render(rooted, stack[..|stack| - 1]);
    LastElement(rooted, stack, ups);
    assert forall k :: 0 <= k < start ==> out[k] == text[k];
    outIndex := start - 1;
    while outIndex > limit && out[outIndex] != '/'
      invariant |kept| <= outIndex < start
    {
      outIndex := outIndex - 1;
    }
    assert out[..outIndex] == out[..start][..outIndex];
  }

  /** Copies the element `input[i..e]` to `out`, or gives up where the input outgrows `out`. */
  method CopyElement(input: string, out: array<char>, i: nat, o: nat, ghost e: nat)
    returns (ok: bool, inIndex: nat, outIndex: nat)
    requires IsCString(input)
    requires i <= |input| && e == ElementEnd(input, i)
    requires o <= i < out.Length
    modifies out
    ensures ok <==> e < out.Length
    ensures ok ==> inIndex == e && outIndex == o + (e - i) <= inIndex
    ensures ok ==> out[..outIndex] == old(out[..o]) + input[i..e]
  {
    inIndex, outIndex := i, o;
    assert input[i..i] == "";
    while !IsSeparator(At(input, inIndex))
      invariant i <= inIndex <= e && inIndex < out.Length
      invariant outIndex == o + (inIndex - i)
      invariant out[..outIndex] == old(out[..o]) + input[i..inIndex]
      decreases e - inIndex
    {
      assert inIndex < e;
      if inIndex + 1 >= out.Length { return false, inIndex, outIndex; }
      out[outIndex] := input[inIndex];
      assert input[i..inIndex + 1] == input[i..inIndex] + [input[inIndex]];
      outIndex, inIndex := outIndex + 1, inIndex + 1;
    }
    ok := true;
  }

  /**
   What the main loop keeps: `out[..outIndex]` renders the stack of the input read so far,
   `dotdot` marks its leading ".." run, and the output has not caught up with the input
   (if an element starts here, one place is free for the '/' before it).
   */
  ghost predicate Progress(input: string, rooted: bool, inIndex: nat, output: string, dotdot: nat,
                           stack: seq<string>, ups: nat)
  {
    && inIndex <= |input| && rooted == IsRooted(input)
    && |output| <= inIndex
    && (stack == [] || |output| < inIndex || IsSeparator(At(input, inIndex)))
    && IsNormal(rooted, stack, ups)
    && output == Render(rooted, stack)
    && dotdot == DotDotLimit(rooted, stack, ups)
    && Fold(rooted, stack, Split(input[inIndex..])) == Reduced(input)
  }

  /** After a leading '/' (if any) nothing but the root has been read. */
  lemma ProgressStart(input: string, rooted: bool)
    requires input != "" && rooted == (input[0] == '/')
    ensures Progress(input, rooted, if rooted then 1 else 0, if rooted then "/" else "",
                     if rooted then 1 else 0, [], 0)
  {
    assert input[0..] == input;
    if rooted {
      FoldSlash(rooted, [], input, 0);
    }
  }

  /** At the end of the input the output is the cleaned path. */
  lemma ProgressDone(input: string, rooted: bool, output: string, dotdot: nat, stack: seq<string>, ups: nat)
    requires Progress(input, rooted, |input|, output, dotdot, stack, ups)
    ensures Clean(input) == if output == "" then DOT else output
  {
    assert input[|input|..] == "";
    assert Fold(rooted, stack, [""]) == stack;
  }

  lemma ProgressSlash(input: string, rooted: bool, i: nat, output: string, dotdot: nat, stack: seq<string>, ups: nat)
    requires Progress(input, rooted, i, output, dotdot, stack, ups)
    requires i < |input| && input[i] == '/'
    ensures Progress(input, rooted, i + 1, output, dotdot, stack, ups)
  {
    FoldSlash(rooted, stack, input, i);
  }

  /** An element starts at `i`: its end is a separator, and the output tells what the stack holds. */
  lemma ProgressElement(input: string, rooted: bool, i: nat, output: string, dotdot: nat,
                        stack: seq<string>, ups: nat, e: nat)
    requires IsCString(input)
    requires Progress(input, rooted, i, output, dotdot, stack, ups)
    requires i < |input| && input[i] != '/' && e == ElementEnd(input, i)
    ensures i < e && IsSeparator(At(input, e))
    ensures var next := Step(rooted, stack, input[i..e]);
            Fold(rooted, next, Split(input[e..])) == Reduced(input)
    ensures |output| > dotdot <==> |stack| > ups
    ensures |output| == (if rooted then 1 else 0) <==> stack == []
  {
    FoldElement(rooted, stack, input, i, e);
    LimitBelow(rooted, stack, ups, |stack|);
    assert stack[..|stack|] == stack;
  }

  /** Rules 2 and 4: "." anywhere and ".." at the root leave the output alone. */
  lemma ProgressSkip(input: string, rooted: bool, i: nat, output: string, dotdot: nat,
                     stack: seq<string>, ups: nat, e: nat)
    requires IsCString(input)
    requires Progress(input, rooted, i, output, dotdot, stack, ups)
    requires i < |input| && input[i] != '/' && e == ElementEnd(input, i)
    requires input[i..e] == DOT || (input[i..e] == DOTDOT && rooted && |output| <= dotdot)
    ensures Progress(input, rooted, e, output, dotdot, stack, ups)
  {
    ProgressElement(input, rooted, i, output, dotdot, stack, ups, e);
  }

  /** Rule 3: ".." after an ordinary element undoes that element. */
  lemma ProgressPop(input: string, rooted: bool, i: nat, output: string, dotdot: nat,
                    stack: seq<string>, ups: nat, e: nat, output': string)
    requires IsCString(input)
    requires Progress(input, rooted, i, output, dotdot, stack, ups)
    requires i < |input| && input[i] != '/' && e == ElementEnd(input, i)
    requires input[i..e] == DOTDOT && |output| > dotdot && |stack| > ups
    requires output' == Render(rooted, stack[..|stack| - 1]) && |output'| <= |output|
    ensures Progress(input, rooted, e, output', dotdot, stack[..|stack| - 1], ups)
  {
    ProgressElement(input, rooted, i, output, dotdot, stack, ups, e);
    StepNormal(rooted, stack, ups, DOTDOT);
    assert stack[..|stack| - 1][..ups] == stack[..ups];
  }

  /** Rule 5: ".." that begins an unrooted path stays. */
  lemma ProgressUp(input: string, i: nat, output: string, dotdot: nat, stack: seq<string>, ups: nat, e: nat)
    requires IsCString(input)
    requires Progress(input, false, i, output, dotdot, stack, ups)
    requires i < |input| && input[i] != '/' && e == ElementEnd(input, i)
    requires input[i..e] == DOTDOT && |output| <= dotdot
    ensures var output' := output + (if output == "" then "" else "/") + DOTDOT;
            && |output'| <= e
            && Progress(input, false, e, output', |output'|, stack + [DOTDOT], ups + 1)
  {
    ProgressElement(input, false, i, output, dotdot, stack, ups, e);
    StepNormal(false, stack, ups, DOTDOT);
    RenderPush(false, stack, DOTDOT);
    assert (stack + [DOTDOT])[..ups + 1] == stack + [DOTDOT];
  }

  /** An ordinary element is appended. */
  lemma ProgressPush(input: string, rooted: bool, i: nat, output: string, dotdot: nat,
                     stack: seq<string>, ups: nat, e: nat)
    requires IsCString(input)
    requires Progress(input, rooted, i, output, dotdot, stack, ups)
    requires i < |input| && input[i] != '/' && e == ElementEnd(input, i)
    requires input[i..e] != DOT && input[i..e] != DOTDOT
    ensures var sep := if |output| == (if rooted then 1 else 0) then "" else "/";
            && |output + sep| <= i
            && Progress(input, rooted, e, output + sep + input[i..e], dotdot, stack + [input[i..e]], ups)
  {
    ProgressElement(input, rooted, i, output, dotdot, stack, ups, e);
    StepNormal(rooted, stack, ups, input[i..e]);
    RenderPush(rooted, stack, input[i..e]);
    assert (stack + [input[i..e]])[..ups] == stack[..ups];
  }

  /** What the source's three look-ahead tests say about the element that starts at `i`. */
  lemma LookAhead(input: string, i: nat, e: nat)
    requires IsCString(input)
    requires i < |input| && input[i] != '/' && e == ElementEnd(input, i)
    ensures input[i..e] == DOT ==> e == i + 1
    ensures input[i..e] == DOTDOT ==> e == i + 2
    ensures (input[i] == '.' && IsSeparator(At(input, i + 1))) <==> input[i..e] == DOT
    ensures (input[i] == '.' && At(input, i + 1) == '.' && IsSeparator(At(input, i + 2))) <==> input[i..e] == DOTDOT
  {
    var element := input[i..e];
    assert forall k :: i <= k < e ==> element[k - i] == input[k];
  }

  /** Puts `..` after what has been written, with a separator if there is anything before it. */
  method WriteDotDot(out: array<char>, o: nat) returns (outIndex: nat)
    requires o + (if o > 0 then 3 else 2) <= out.Length
    modifies out
    ensures outIndex <= out.Length && out[..outIndex] == old(out[..o]) + (if o > 0 then "/" else "") + DOTDOT
  {
    outIndex := o;
    if outIndex > 0 {
      out[outIndex] := '/';
      outIndex := outIndex + 1;
    }
    out[outIndex] := '.';
    outIndex := outIndex + 1;
    out[outIndex] := '.';
    outIndex := outIndex + 1;
  }

  /** Rules 3 to 5: the output after reading "..". */
  method Ascend(ghost input: string, out: array<char>, rooted: bool, ghost i: nat, o: nat, limit: nat,
                ghost stack: seq<string>, ghost ups: nat, ghost e: nat)
    returns (outIndex: nat, dotdot: nat, ghost stack': seq<string>, ghost ups': nat)
    requires IsCString(input)
    requires o <= out.Length && Progress(input, rooted, i, out[..o], limit, stack, ups)
    requires i < |input| && input[i] != '/' && e == ElementEnd(input, i) < out.Length
    requires input[i..e] == DOTDOT
    modifies out
    ensures outIndex <= out.Length
    ensures Progress(input, rooted, e, out[..outIndex], dotdot, stack', ups')
  {
    ghost var output := out[..o];
    outIndex, dotdot, stack', ups' := o, limit, stack, ups;
    ProgressElement(input, rooted, i, output, limit, stack, ups, e);
    if outIndex > dotdot {
      outIndex := ScanBack(out, o, dotdot, rooted, stack, ups);
      ProgressPop(input, rooted, i, output, limit, stack, ups, e, out[..outIndex]);
      stack' := stack[..|stack| - 1];
    } else if rooted {
      ProgressSkip(input, rooted, i, output, limit, stack, ups, e);
    } else {
      ProgressUp(input, i, output, limit, stack, ups, e);
      outIndex := WriteDotDot(out, o);
      dotdot := outIndex;
      stack', ups' := stack + [DOTDOT], ups + 1;
    }
  }

  /** An ordinary element: a '/' unless it comes first, then its characters while they fit. */
  method Append(input: string, out: array<char>, rooted: bool, i: nat, o: nat, ghost dotdot: nat,
                ghost stack: seq<string>, ghost ups: nat, ghost e: nat)
    returns (ok: bool, inIndex: nat, outIndex: nat)
    requires IsCString(input)
    requires o <= out.Length && Progress(input, rooted, i, out[..o], dotdot, stack, ups)
    requires i < |input| && input[i] != '/' && e == ElementEnd(input, i) && i < out.Length
    requires input[i..e] != DOT && input[i..e] != DOTDOT
    modifies out
    ensures ok <==> e < out.Length
    ensures ok ==> inIndex == e && outIndex <= out.Length
    ensures ok ==> Progress(input, rooted, e, out[..outIndex], dotdot, stack + [input[i..e]], ups)
  {
    ghost var output := out[..o];
    ghost var sep := if o == (if rooted then 1 else 0) then "" else "/";
    ProgressPush(input, rooted, i, output, dotdot, stack, ups, e);
    outIndex := o;
    if (rooted && outIndex != 1) || (!rooted && outIndex != 0) {
      out[outIndex] := '/';
      outIndex := outIndex + 1;
    }
    assert out[..outIndex] == output + sep;
    ok, inIndex, outIndex := CopyElement(input, out, i, outIndex, e);
  }

  /** The main loop, from the position after a leading '/' to the terminator. */
  method CleanElements(input: string, out: array<char>, rooted: bool)
    returns (ok: bool, outIndex: nat, ghost dotdot': nat, ghost stack: seq<string>, ghost ups: nat)
    requires IsCString(input) && input != "" && rooted == (input[0] == '/')
    requires out.Length >= 2
    requires rooted ==> out[0] == '/'
    modifies out
    ensures ok <==> |input| < out.Length
    ensures ok ==> outIndex <= out.Length
    ensures ok ==> Progress(input, rooted, |input|, out[..outIndex], dotdot', stack, ups)
  {
    var outlen := out.Length;
    var inIndex: nat := if rooted then 1 else 0;
    outIndex, stack, ups := inIndex, [], 0;
    var dotdot := outIndex;
    ProgressStart(input, rooted);
    assert out[..outIndex] == if rooted then "/" else "";

    while At(input, inIndex) != NUL
      invariant inIndex <= |input| && inIndex < outlen && outIndex <= outlen
      invariant Progress(input, rooted, inIndex, out[..outIndex], dotdot, stack, ups)
      decreases |input| - inIndex
    {
      ghost var i, e := inIndex, ElementEnd(input, inIndex);
      if At(input, inIndex) == '/' {
        ProgressSlash(input, rooted, i, out[..outIndex], dotdot, stack, ups);
        if inIndex + 1 >= outlen { return false, outIndex, dotdot, stack, ups; }
        inIndex := inIndex + 1;
        continue;
      }
      LookAhead(input, i, e);
      if At(input, inIndex) == '.' && IsSeparator(At(input, inIndex + 1)) {
        ProgressSkip(input, rooted, i, out[..outIndex], dotdot, stack, ups, e);
        if inIndex + 1 >= outlen { return false, outIndex, dotdot, stack, ups; }
        inIndex := inIndex + 1;
      } else if At(input, inIndex) == '.' && At(input, inIndex + 1) == '.' && IsSeparator(At(input, inIndex + 2)) {
        if inIndex + 2 >= outlen { return false, outIndex, dotdot, stack, ups; }
        inIndex := inIndex + 2;
        outIndex, dotdot, stack, ups := Ascend(input, out, rooted, i, outIndex, dotdot, stack, ups, e);
      } else {
        ok, inIndex, outIndex := Append(input, out, rooted, inIndex, outIndex, dotdot, stack, ups, e);
        if !ok { return false, outIndex, dotdot, stack, ups; }
        stack := stack + [input[i..e]];
      }
      assert inIndex == e;
    }
    ok, dotdot' := true, dotdot;
  }

  /**
   Cleans `input` into `out`. The result is -1 exactly when the input and its terminator do
   not fit into `out`, although the output may be shorter; otherwise it is the length of the
   cleaned path, which stands NUL-terminated at the start of `out`.
   */
  method CleanPath(input: string, out: array<char>) returns (r: int)
    requires IsCString(input)
    requires out.Length >= 2
    modifies out
    ensures r == -1 <==> |input| >= out.Length
    ensures r != -1 ==> r == |Clean(input)| < out.Length
    ensures r != -1 ==> out[..r] == Clean(input) && out[r] == NUL
  {
    if At(input, 0) == NUL {
      out[0], out[1] := '.', NUL;
      assert Split("") == [""];
      assert out[..1] == DOT;
      return 1;
    }
    var rooted := input[0] == '/';
    if rooted {
      out[0] := '/';
    }
    var ok, outIndex, dotdot, stack, ups := CleanElements(input, out, rooted);
    if !ok {
      return -1;
    }
    ProgressDone(input, rooted, out[..outIndex], dotdot, stack, ups);
    if outIndex == 0 {
      out[0], out[1] := '.', NUL;
      assert out[..1] == DOT;
      return 1;
    }
    out[outIndex] := NUL;
    return outIndex;
  }
}
