/**
 The asynchronous listing: requests with a response array of fixed size, filled two slots per
 item until it is full or the listing is done, and resumed by the next request.
 */
module AsyncListing {
  import opened Basics
  import opened ListingSpec
  import ListingFacts
  import opened ListingMachine
  import opened PathBuffer
  import opened ListingPaths
  import opened DirectoryListing

  /** One slot of a response. */
  datatype Slot = Vacant | Code(kind: int) | PathArg(path: string) | NullArg | ErrorArg(path: string)

  const LIST_FILE := 0
  const LIST_DIRECTORY := 1
  const LIST_LINK := 2
  const LIST_ERROR := 3
  const LIST_DONE := 4

  /** The two slots of an item. */
  function Encode1(item: Item): (slots: seq<Slot>)
    ensures |slots| == 2
  {
    match item
    case FileItem(path) => [Code(LIST_FILE), PathArg(path)]
    case DirectoryItem(path) => [Code(LIST_DIRECTORY), PathArg(path)]
    case LinkItem(path) => [Code(LIST_LINK), PathArg(path)]
    case ErrorItem(path) => [Code(LIST_ERROR), ErrorArg(path)]
    case DoneItem => [Code(LIST_DONE), NullArg]
  }

  function Encode(items: seq<Item>): (slots: seq<Slot>)
    ensures |slots| == 2 * |items|
  {
    if items == [] then [] else Encode(items[..|items| - 1]) + Encode1(items[|items| - 1])
  }

  lemma EncodeSnoc(items: seq<Item>, item: Item)
    ensures Encode(items + [item]) == Encode(items) + Encode1(item)
  {
    assert (items + [item])[..|items|] == items;
  }

  lemma {:induction false} EncodeAppend(a: seq<Item>, b: seq<Item>)
    ensures Encode(a + b) == Encode(a) + Encode(b)
    decreases |b|
  {
    if b == [] {
      assert a + b == a;
    } else {
      var n := |b| - 1;
      calc {
        Encode(a + b);
        { assert a + b == a + b[..n] + [b[n]]; EncodeSnoc(a + b[..n], b[n]); }
        Encode(a + b[..n]) + Encode1(b[n]);
        { EncodeAppend(a, b[..n]); }
        Encode(a) + Encode(b[..n]) + Encode1(b[n]);
        Encode(a) + Encode(b);
      }
    }
  }

  /** The last item is in the last two slots. */
  lemma EncodeLast(items: seq<Item>, n: nat)
    requires |items| == n + 1
    ensures Encode(items)[..2 * n] == Encode(items[..n]) && Encode(items)[2 * n..] == Encode1(items[n])
  {
  }

  lemma Encode1Injective(x: Item, y: Item)
    requires Encode1(x) == Encode1(y)
    ensures x == y
  {
    assert Encode1(x)[0] == Encode1(y)[0] && Encode1(x)[1] == Encode1(y)[1];
  }

  /** Responses can be read back: different listings have different responses. */
  lemma {:induction false} EncodeInjective(a: seq<Item>, b: seq<Item>)
    requires Encode(a) == Encode(b)
    ensures a == b
  {
    hide Encode, Encode1;
    if a != [] {
      var n := |a| - 1;
      var x, y := Encode(a), Encode(b);
      EncodeLast(a, n);
      EncodeLast(b, n);
      EncodeInjective(a[..n], b[..n]);
      Encode1Injective(a[n], b[n]);
      assert a == a[..n] + [a[n]] && b == b[..n] + [b[n]];
    }
  }

  // ----- what the Dart side reads -----

  /** The item of a code and its argument, by the numbers that the Dart side uses. */
  function ReadItem(code: Slot, argument: Slot): Option<Item> {
    match (code, argument)
    case (Code(0), PathArg(path)) => Some(FileItem(path))
    case (Code(1), PathArg(path)) => Some(DirectoryItem(path))
    case (Code(2), PathArg(path)) => Some(LinkItem(path))
    case (Code(3), ErrorArg(path)) => Some(ErrorItem(path))
    case (Code(4), NullArg) => Some(DoneItem)
    case _ => None
  }

  /** A response read from its beginning, two slots at a time, up to Done or its end. */
  function Read(slots: seq<Slot>): seq<Item> {
    if |slots| < 2 then []
    else
      match ReadItem(slots[0], slots[1])
      case None => Read(slots[2..])
      case Some(DoneItem) => [DoneItem]
      case Some(item) => [item] + Read(slots[2..])
  }

  lemma ReadFirst(item: Item, rest: seq<Slot>)
    ensures Read(Encode1(item) + rest) == [item] + if item.DoneItem? then [] else Read(rest)
  {
    assert (Encode1(item) + rest)[2..] == rest;
  }

  lemma EncodeCons(item: Item, rest: seq<Item>)
    ensures Encode([item] + rest) == Encode1(item) + Encode(rest)
  {
    EncodeSnoc([], item);
    assert [] + [item] == [item] && Encode([]) + Encode1(item) == Encode1(item);
    EncodeAppend([item], rest);
  }

  /** What is reported before Done is read as it was meant, and so is Done. */
  lemma {:induction false} ReadEncode(items: seq<Item>, end: seq<Item>)
    requires DoneItem !in items && (end == [] || end == [DoneItem])
    ensures Read(Encode(items + end)) == items + end
    decreases |items|
  {
    hide Read, Encode1;
    if items == [] {
      assert items + end == end;
      ReadNothing();
      ReadFirst(DoneItem, []);
      EncodeCons(DoneItem, []);
      assert [DoneItem] + [] == [DoneItem] && Encode([]) == [];
    } else {
      var first, rest := items[0], items[1..];
      assert items + end == [first] + (rest + end) && first in items;
      EncodeCons(first, rest + end);
      ReadFirst(first, Encode(rest + end));
      ReadEncode(rest, end);
    }
  }

  lemma ReadNothing()
    ensures Read([]) == []
  {
  }

  class AsyncDirectoryListing {
    const listing: DirectoryListing
    var response: array<Slot>
    var index: nat
    var length: nat
    ghost var reported: seq<Item>

    constructor (listing: DirectoryListing)
      ensures this.listing == listing && fresh(response) && response.Length == 0
      ensures index == 0 && length == 0 && reported == []
    {
      this.listing := listing;
      response := new Slot[0];
      index, length, reported := 0, 0, [];
    }

    /** The slots up to `index` hold the items reported so far; the length is even. */
    ghost predicate Filled()
      reads this, response
    {
      && response as object != listing.pathBuffer.data
      && length == response.Length && length % 2 == 0
      && index == 2 * |reported| <= length
      && response[..index] == Encode(reported)
    }

    method SetArray(response: array<Slot>, length: nat)
      requires length == response.Length && length % 2 == 0 && response as object != listing.pathBuffer.data
      modifies this`response, this`index, this`length, this`reported
      ensures Filled() && reported == [] && this.response == response && this.length == length
    {
      this.response, index, this.length := response, 0, length;
      reported := [];
    }

    /** Writes the two slots of an item; true while there is room for another one. */
    method AddToResponse(item: Item) returns (more: bool)
      requires Filled() && index < length
      modifies this`index, this`reported, response
      ensures Filled() && reported == old(reported) + [item]
      ensures more == (index < length)
    {
      hide Encode1;
      assert index + 2 <= length;
      var slots := Encode1(item);
      response[index] := slots[0];
      response[index + 1] := slots[1];
      index := index + 2;
      reported := reported + [item];
      assert reported[..|reported| - 1] == old(reported);
      assert response[..index] == old(response[..index]) + slots;
      return index < length;
    }

    /** The handler calls of one step: its item, or Done after the last entry. */
    method Report(t: ListType, path: string, isEmpty: bool) returns (more: bool)
      requires Filled() && index < length
      modifies this`index, this`reported, response
      ensures Filled() && unchanged(listing) && unchanged(listing.stack)
      ensures unchanged(listing.pathBuffer) && unchanged(listing.pathBuffer.data)
      ensures var items := if t.ListDone? then (if isEmpty then [DoneItem] else []) else [ItemFor(t, path)];
              reported == old(reported) + items
      ensures more == (index < length && !(t.ListDone? && isEmpty))
    {
      if !t.ListDone? {
        more := AddToResponse(ItemFor(t, path));
      } else if isEmpty {
        var _ := AddToResponse(DoneItem);
        more := false;
      } else {
        more := true;
      }
    }

    /** One step of the listing into the response; false when it is full or the listing is done. */
    method ListNext() returns (more: bool)
      requires Filled() && listing.Valid() && listing.stack != [] && index < length
      modifies this`index, this`reported, response
      modifies listing`top, listing`stack, listing`frames, listing`live, listing`repr, listing.top
      modifies listing.pathBuffer`length, listing.pathBuffer.data
      ensures Filled() && listing.Valid() && fresh(listing.repr - old(listing.repr))
      ensures old(listing.Owned()) ==> listing.Owned()
      ensures var r := ListStep(listing.context, old(listing.frames));
              listing.frames == r.frames && reported == old(reported) + r.items
      ensures more == (listing.frames != [] && index < length)
    {
      hide Encode, IsStackOk;
      ListStepProgresses(listing.context, listing.frames);
      var t, path := listing.Step();
      more := Report(t, path, listing.top == null);
    }

    lemma NothingRemains(c: Context, items: seq<Item>)
      ensures items + Remaining(c, []) == items
    {
    }

    lemma Reassociate(before: seq<Item>, items: seq<Item>, rest: seq<Item>)
      ensures (before + items) + rest == before + (items + rest)
    {
    }

    /** A step moves items from what remains of the listing to the response. */
    method ListMore(ghost all: seq<Item>) returns (more: bool)
      requires Filled() && listing.Valid() && listing.frames != [] && index < length
      requires all == reported + Remaining(listing.context, listing.frames)
      modifies this`index, this`reported, response
      modifies listing`top, listing`stack, listing`frames, listing`live, listing`repr, listing.top
      modifies listing.pathBuffer`length, listing.pathBuffer.data
      ensures Filled() && listing.Valid() && fresh(listing.repr - old(listing.repr))
      ensures old(listing.Owned()) ==> listing.Owned()
      ensures all == reported + Remaining(listing.context, listing.frames)
      ensures more == (listing.frames != [] && index < length)
      ensures |reported| > |old(reported)| || (reported == old(reported) && |listing.frames| < |old(listing.frames)|)
    {
      hide Encode, EntryMatches, Matches, Nodes, Deepest, Remaining, ListStep, IsStackOk, IsNested;
      listing.SomeLeft();
      ghost var was, before := listing.frames, reported;
      ListStepConserves(listing.context, was);
      ListStepProgresses(listing.context, was);
      more := ListNext();
      ghost var r := ListStep(listing.context, was);
      Reassociate(before, r.items, Remaining(listing.context, r.frames));
    }

    /** Steps until the response is full or the listing is done: nothing is lost or reported twice. */
    method ListSteps(ghost all: seq<Item>)
      requires Filled() && listing.Valid() && listing.Owned() && listing.frames != [] && index < length
      requires all == reported + Remaining(listing.context, listing.frames)
      modifies this`index, this`reported, response
      modifies listing`top, listing`stack, listing`frames, listing`live, listing`repr, listing.repr
      modifies listing.pathBuffer`length, listing.pathBuffer.data
      ensures Filled() && listing.Valid() && listing.Owned() && fresh(listing.repr - old(listing.repr))
      ensures all == reported + Remaining(listing.context, listing.frames)
      ensures listing.frames == [] || index == length
    {
      hide Remaining, Encode, EntryMatches, Nodes, Deepest;
      var more := true;
      while more
        invariant Filled() && listing.Valid() && listing.Owned() && fresh(listing.repr - old(listing.repr))
        invariant more == (listing.frames != [] && index < length)
        invariant all == reported + Remaining(listing.context, listing.frames)
        decreases |all| - |reported|, |listing.frames|
      {
        assert listing.top in listing.stack;
        more := ListMore(all);
      }
    }

    /** A request for the next items: as many as fit into a response of `size` slots. */
    method ListNextRequest(size: nat) returns (slots: seq<Slot>)
      requires 2 <= size && size % 2 == 0 && listing.Valid() && listing.Owned()
      modifies this`response, this`index, this`length, this`reported
      modifies listing`top, listing`stack, listing`frames, listing`live, listing`repr, listing.repr
      modifies listing.pathBuffer`length, listing.pathBuffer.data
      ensures listing.Valid() && listing.Owned() && fresh(listing.repr - old(listing.repr))
      ensures slots == Encode(reported) && |slots| <= size
      ensures old(Remaining(listing.context, listing.frames)) == reported + Remaining(listing.context, listing.frames)
      ensures listing.frames == [] || |slots| == size
    {
      hide EntryMatches, Nodes, Deepest;
      if listing.top == null {
        reported := [];
        return [];
      }
      ghost var all := Remaining(listing.context, listing.frames);
      var r := new Slot[size];
      SetArray(r, size);
      assert all == reported + Remaining(listing.context, listing.frames);
      ListSteps(all);
      slots := response[..index];
    }

    /** Abandons the listing: nothing is left to report, and nothing stays allocated. */
    method ListStopRequest()
      requires listing.Valid() && listing.Owned()
      modifies listing`top, listing`stack, listing`frames, listing`live, listing.repr`link
      ensures listing.Valid() && listing.Owned() && listing.stack == [] && listing.live == {}
      ensures Remaining(listing.context, listing.frames) == []
    {
      hide EntryMatches, Nodes, Deepest;
      listing.PopAll();
    }

    /** One more request, of any size, moves at least one item from what remains to the answers. */
    method ListSome(ghost all: seq<Item>, ghost before: seq<Item>, slots: seq<Slot>)
      returns (answers: seq<Slot>, ghost items: seq<Item>)
      requires listing.Valid() && listing.Owned() && listing.frames != []
      requires all == before + Remaining(listing.context, listing.frames) && slots == Encode(before)
      modifies this`response, this`index, this`length, this`reported
      modifies listing`top, listing`stack, listing`frames, listing`live, listing`repr, listing.repr
      modifies listing.pathBuffer`length, listing.pathBuffer.data
      ensures listing.Valid() && listing.Owned() && fresh(listing.repr - old(listing.repr))
      ensures all == items + Remaining(listing.context, listing.frames) && answers == Encode(items)
      ensures |items| > |before|
    {
      hide Encode, EntryMatches, Nodes, Deepest, RestOfStack, IsStackOk, IsNested;
      var size: nat :| 2 <= size && size % 2 == 0;
      var more := ListNextRequest(size);
      EncodeAppend(before, reported);
      Reassociate(before, reported, Remaining(listing.context, listing.frames));
      items := before + reported;
      answers := slots + more;
    }

    /** Requests of any sizes, until the listing is done, together report all that remains of it. */
    method ListRemaining() returns (slots: seq<Slot>)
      requires listing.Valid() && listing.Owned()
      modifies this`response, this`index, this`length, this`reported
      modifies listing`top, listing`stack, listing`frames, listing`live, listing`repr, listing.repr
      modifies listing.pathBuffer`length, listing.pathBuffer.data
      ensures slots == Encode(old(Remaining(listing.context, listing.frames)))
      ensures listing.Valid() && listing.stack == [] && listing.live == {}
    {
      hide Encode, Remaining, EntryMatches, Matches, Nodes, Deepest, IsStackOk, IsNested;
      ghost var all, items: seq<Item> := Remaining(listing.context, listing.frames), [];
      slots := [];
      while listing.top != null
        invariant listing.Valid() && listing.Owned() && fresh(listing.repr - old(listing.repr))
        invariant all == items + Remaining(listing.context, listing.frames) && slots == Encode(items)
        decreases |all| - |items|
      {
        listing.SomeLeft();
        slots, items := ListSome(all, items, slots);
      }
      listing.NothingLive();
      NothingRemains(listing.context, items);
    }
  }

  /** A request for a new listing: an error exactly if the name does not fit the path buffer. */
  method ListStartRequest(context: Context, dirName: string) returns (r: Option<AsyncDirectoryListing>)
    requires NUL !in dirName
    ensures r.None? <==> |dirName| > PATH_MAX
    ensures r.Some? ==> fresh(r.value) && fresh(r.value.listing) && r.value.listing.Linked() && r.value.listing.Owned()
    ensures r.Some? ==> r.value.listing.context == context && r.value.listing.frames == StartStack(dirName)
    ensures r.Some? ==> fresh(r.value.listing.repr) && fresh(r.value.listing.pathBuffer)
    ensures r.Some? ==> fresh(r.value.listing.pathBuffer.data)
    ensures StartFits(context, dirName) ==> r.Some? && r.value.listing.Valid()
  {
    hide EntryMatches, Nodes, Deepest, IsStackOk, IsNested;
    var listing := new DirectoryListing(context, dirName);
    if listing.error {
      return None;
    }
    var async := new AsyncDirectoryListing(listing);
    if StartFits(context, dirName) {
      listing.StartsValid(dirName);
    }
    return Some(async);
  }

  /** Listing a directory by requests of any sizes reports what the recursive description says, and then Done. */
  method ListDirectoryAsync(context: Context, dirName: string) returns (slots: seq<Slot>)
    requires StartFits(context, dirName)
    ensures var items := ListDir(context.fs, context.options, context.cwd, dirName, dirName, {}) + [DoneItem];
            slots == Encode(items) && Read(slots) == items
  {
    hide EntryMatches, Nodes, Deepest, IsStackOk, IsNested;
    var r := ListStartRequest(context, dirName);
    StartRemaining(context, dirName);
    slots := r.value.ListRemaining();
    ListingFacts.ListDirNotDone(context.fs, context.options, context.cwd, dirName, dirName);
    ReadEncode(ListDir(context.fs, context.options, context.cwd, dirName, dirName, {}), [DoneItem]);
  }
}
