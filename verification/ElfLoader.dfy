/**
 Loading the segments of an ELF image that lies in memory: the reservation that must hold all
 of them, and the bytes that end up in it. Offsets are machine words; sums wrap around.
 */
module ElfLoader {
  import opened Basics
  import opened PageRounding

  type Word = x: int | 0 <= x < WORD

  const PT_LOAD := 1
  const PF_X := 1
  const PF_W := 2
  const PF_R := 4

  datatype MapType = ReadOnly | ReadWrite | ReadExecute

  datatype ProgramHeader = ProgramHeader(
    kind: Word,
    flags: Word,
    fileOffset: Word,
    memoryOffset: Word,
    fileSize: Word,
    memorySize: Word,
    alignment: Word)
  {
    predicate IsLoad() {
      kind == PT_LOAD
    }

    /** Where the segment ends, if no sum wraps around. */
    function End(): nat {
      memoryOffset + memorySize
    }
  }

  function MapTypeOf(flags: Word): Option<MapType> {
    if flags == PF_R + PF_W then Some(ReadWrite)
    else if flags == PF_R + PF_X then Some(ReadExecute)
    else if flags == PF_R then Some(ReadOnly)
    else None
  }

  /** By the numbers of the ELF format, 4 is read, 2 is write and 1 is execute. */
  lemma MapTypeIff(flags: Word)
    ensures MapTypeOf(flags).Some? <==> flags in {4, 5, 6}
    ensures MapTypeOf(flags) == Some(ReadOnly) <==> flags == 4
    ensures MapTypeOf(flags) == Some(ReadExecute) <==> flags == 5
    ensures MapTypeOf(flags) == Some(ReadWrite) <==> flags == 6
  {
  }

  /** A byte of the source, which goes on with zeros. */
  function ByteAt(source: seq<Byte>, i: nat): Byte {
    if i < |source| then source[i] else 0
  }

  /** Some bytes of the source. */
  function Piece(source: seq<Byte>, i: nat, length: nat): (r: seq<Byte>)
    ensures |r| == length && forall k :: 0 <= k < length ==> r[k] == ByteAt(source, i + k)
  {
    if length == 0 then [] else Piece(source, i, length - 1) + [ByteAt(source, i + length - 1)]
  }

  // ----- the reservation -----

  /** The end of the last segment as the loader computes it. */
  function MachineEnd(table: seq<ProgramHeader>): Word {
    if table == [] then 0
    else
      var h, rest := table[|table| - 1], MachineEnd(table[..|table| - 1]);
      if h.IsLoad() then Max(h.End() % WORD, rest) else rest
  }

  function Reserved(table: seq<ProgramHeader>, page: nat): nat
    requires 0 < page <= WORD
  {
    RoundUp(MachineEnd(table), page)
  }

  /** No segment ends in the last page of the address space or beyond. */
  ghost predicate NeverWraps(table: seq<ProgramHeader>, page: nat) {
    forall i :: 0 <= i < |table| && table[i].IsLoad() ==> table[i].End() + page <= WORD
  }

  ghost predicate IsCovered(table: seq<ProgramHeader>, size: nat) {
    forall i :: 0 <= i < |table| && table[i].IsLoad() ==> table[i].End() <= size
  }

  lemma {:induction false} MachineEndBounds(table: seq<ProgramHeader>)
    ensures forall i :: 0 <= i < |table| && table[i].IsLoad() ==> table[i].End() % WORD <= MachineEnd(table)
    ensures MachineEnd(table) > 0 ==>
              exists i :: 0 <= i < |table| && table[i].IsLoad() && table[i].End() % WORD == MachineEnd(table)
  {
    if table != [] {
      var n := |table| - 1;
      MachineEndBounds(table[..n]);
      var h, rest := table[n], MachineEnd(table[..n]);
      if !(h.IsLoad() && h.End() % WORD >= rest) && rest > 0 {
        var i :| 0 <= i < n && table[..n][i].IsLoad() && table[..n][i].End() % WORD == rest;
        assert table[i] == table[..n][i];
      }
    }
  }

  lemma RoundUpWraps(x: nat, page: nat)
    requires IsPageSize(page) && x < WORD < x + page
    ensures RoundUp(x, page) == 0
  {
    hide And, IsPowerOfTwo;
    var y := x + page - 1 - WORD;
    RoundDownIsMod(y, page);
    ModUnique(0, y, page);
  }

  /** How much the loader reserves: enough for the end it computed, or nothing. */
  lemma ReservedSize(table: seq<ProgramHeader>, page: nat)
    requires IsPageSize(page)
    ensures var end, size := MachineEnd(table), Reserved(table, page);
            if end + page <= WORD then end <= size < end + page else size == 0
  {
    hide And, MachineEnd, RoundUp, IsPowerOfTwo;
    if MachineEnd(table) + page <= WORD {
      RoundUpIsNext(MachineEnd(table), page);
    } else {
      RoundUpWraps(MachineEnd(table), page);
    }
  }

  lemma Uncovered(table: seq<ProgramHeader>, page: nat, i: nat)
    requires IsPageSize(page) && i < |table| && table[i].IsLoad() && table[i].End() + page > WORD
    ensures table[i].End() > Reserved(table, page)
  {
    hide And, MachineEnd, Reserved, IsPowerOfTwo;
    ReservedSize(table, page);
    MachineEndBounds(table);
  }

  lemma Covered(table: seq<ProgramHeader>, page: nat)
    requires IsPageSize(page) && NeverWraps(table, page)
    ensures IsCovered(table, Reserved(table, page)) && MachineEnd(table) + page <= WORD
  {
    hide And, MachineEnd, Reserved, IsPowerOfTwo;
    ReservedSize(table, page);
    MachineEndBounds(table);
  }

  /** The reservation covers every segment exactly if no segment comes near the end of the address space. */
  lemma ReservationCovers(table: seq<ProgramHeader>, page: nat)
    requires IsPageSize(page)
    ensures IsCovered(table, Reserved(table, page)) <==> NeverWraps(table, page)
  {
    hide And, MachineEnd, Reserved, IsPowerOfTwo;
    if NeverWraps(table, page) {
      Covered(table, page);
    } else {
      var i :| 0 <= i < |table| && table[i].IsLoad() && table[i].End() + page > WORD;
      Uncovered(table, page, i);
    }
  }

  lemma CommonPageSize()
    ensures IsPageSize(4096)
  {
    Pow2IsPowerOfTwo(12);
    assert Pow2(6) == 64;
    Pow2Double(6);
  }

  /** A segment that ends where the address space ends: nothing is reserved for it. */
  lemma WrappingSegment() returns (table: seq<ProgramHeader>)
    ensures |table| == 1 && table[0].IsLoad() && IsPowerOfTwo(table[0].alignment)
    ensures Reserved(table, 4096) == 0 && !IsCovered(table, Reserved(table, 4096))
  {
    CommonPageSize();
    hide And, IsPowerOfTwo, RoundUp;
    table := [ProgramHeader(PT_LOAD, PF_R, 0, WORD - 4096, 4096, 4096, 4096)];
    assert table[..0] == [] && MachineEnd(table) == 0;
    RoundUpIsNext(0, 4096);
    MultiplesApart(Reserved(table, 4096), 0, 4096);
    ReservationCovers(table, 4096);
  }

  // ----- the image -----

  /** Where the mapping of a segment starts: the page its first byte is in. */
  function PageStart(h: ProgramHeader, page: nat): nat
    requires page > 0
  {
    h.memoryOffset - h.memoryOffset % page
  }

  function PageEnd(h: ProgramHeader, page: nat): nat
    requires 0 < page <= WORD
  {
    RoundUp(h.End(), page)
  }

  /** Where the mapping of a segment starts in the source. */
  function FileStart(h: ProgramHeader, offset: Word, page: nat): Word
    requires page > 0
  {
    (offset + h.fileOffset - h.memoryOffset % page) % WORD
  }

  predicate IsMapped(h: ProgramHeader, page: nat, a: nat)
    requires page > 0
  {
    h.IsLoad() && PageStart(h, page) <= a < h.End()
  }

  /** The byte at `a` once the segments are mapped in order into zeroed memory. */
  function Loaded(source: seq<Byte>, table: seq<ProgramHeader>, offset: Word, page: nat, a: nat): Byte
    requires page > 0
  {
    if table == [] then 0
    else
      var h := table[|table| - 1];
      if IsMapped(h, page, a) then ByteAt(source, FileStart(h, offset, page) + (a - PageStart(h, page)))
      else Loaded(source, table[..|table| - 1], offset, page, a)
  }

  /** Segments that are loaded share no page. */
  ghost predicate AreDisjoint(table: seq<ProgramHeader>, page: nat)
    requires 0 < page <= WORD
  {
    forall i, j :: 0 <= i < j < |table| && table[i].IsLoad() && table[j].IsLoad() ==>
      PageEnd(table[i], page) <= PageStart(table[j], page) || PageEnd(table[j], page) <= PageStart(table[i], page)
  }

  predicate IsCongruent(h: ProgramHeader, page: nat)
    requires page > 0
  {
    h.memoryOffset % page == h.fileOffset % page
  }

  lemma RemainderFits(x: nat, page: nat)
    requires page > 0
    ensures x % page <= x
  {
  }

  /** A sum and the word it wraps around to have the same place in their pages. */
  lemma RemainderWraps(s: nat, page: nat)
    requires IsPageSize(page)
    ensures s % page <= s && (s >= WORD ==> s % page <= s - WORD)
  {
    hide And, IsPowerOfTwo;
    RemainderFits(s, page);
    if s >= WORD {
      RoundDownIsMod(0, page);
      AddMultiple(s - WORD, WORD, page);
      RemainderFits(s - WORD, page);
    }
  }

  /** The first byte of a segment is the one its header names. */
  lemma FirstByte(h: ProgramHeader, offset: Word, page: nat)
    requires IsPageSize(page) && offset % page == 0 && IsCongruent(h, page)
    ensures FileStart(h, offset, page) + h.memoryOffset % page == (offset + h.fileOffset) % WORD
  {
    hide And, IsPowerOfTwo;
    AddMultiple(h.fileOffset, offset, page);
    RemainderWraps(offset + h.fileOffset, page);
  }

  /** A segment that shares no page with a later one is not overwritten by it. */
  lemma {:induction false} LoadedStays(
    source: seq<Byte>, table: seq<ProgramHeader>, offset: Word, page: nat, i: nat, a: nat)
    requires IsPageSize(page) && NeverWraps(table, page) && AreDisjoint(table, page)
    requires i < |table| && IsMapped(table[i], page, a)
    ensures Loaded(source, table, offset, page, a) ==
            ByteAt(source, FileStart(table[i], offset, page) + (a - PageStart(table[i], page)))
    decreases |table|
  {
    hide And, IsPowerOfTwo, RoundUp;
    var n := |table| - 1;
    if i < n {
      var h, g := table[n], table[i];
      RoundUpIsNext(g.End(), page);
      if h.IsLoad() {
        RoundUpIsNext(h.End(), page);
      }
      assert !IsMapped(h, page, a);
      assert table[..n][i] == g;
      LoadedStays(source, table[..n], offset, page, i, a);
    }
  }

  /** Byte `k` of a segment in memory, and in the source. */
  function MemoryByte(
    source: seq<Byte>, table: seq<ProgramHeader>, offset: Word, page: nat, h: ProgramHeader, k: nat): Byte
    requires page > 0
  {
    Loaded(source, table, offset, page, h.memoryOffset + k)
  }

  function FileByte(source: seq<Byte>, offset: Word, h: ProgramHeader, k: nat): Byte {
    ByteAt(source, (offset + h.fileOffset) % WORD + k)
  }

  /** The image of a segment: its bytes in the source, and zeros past the end of the source. */
  lemma SegmentBytes(source: seq<Byte>, table: seq<ProgramHeader>, offset: Word, page: nat, i: nat, k: nat)
    requires IsPageSize(page) && NeverWraps(table, page) && AreDisjoint(table, page) && offset % page == 0
    requires i < |table| && table[i].IsLoad() && IsCongruent(table[i], page) && k < table[i].memorySize
    ensures MemoryByte(source, table, offset, page, table[i], k) == FileByte(source, offset, table[i], k)
  {
    hide And, IsPowerOfTwo, FileStart, AreDisjoint, Loaded;
    var h := table[i];
    RemainderFits(h.memoryOffset, page);
    LoadedStays(source, table, offset, page, i, h.memoryOffset + k);
    FirstByte(h, offset, page);
  }

  /** Memory that belongs to no segment stays zero. */
  lemma {:induction false} GapsAreZero(source: seq<Byte>, table: seq<ProgramHeader>, offset: Word, page: nat, a: nat)
    requires page > 0 && forall i :: 0 <= i < |table| ==> !IsMapped(table[i], page, a)
    ensures Loaded(source, table, offset, page, a) == 0
    decreases |table|
  {
    if table != [] {
      var n := |table| - 1;
      assert forall i :: 0 <= i < n ==> table[..n][i] == table[i];
      GapsAreZero(source, table[..n], offset, page, a);
    }
  }

  /** Every page of every mapping lies inside the reservation. */
  lemma MappingInside(table: seq<ProgramHeader>, page: nat, i: nat)
    requires IsPageSize(page) && NeverWraps(table, page) && i < |table| && table[i].IsLoad()
    ensures PageStart(table[i], page) <= table[i].End() <= PageEnd(table[i], page) <= Reserved(table, page)
  {
    hide And, IsPowerOfTwo, RoundUp, MachineEnd;
    RemainderFits(table[i].memoryOffset, page);
    RoundUpIsNext(table[i].End(), page);
    Covered(table, page);
    MachineEndBounds(table);
    RoundUpMonotone(table[i].End(), MachineEnd(table), page);
  }

  /**
   The part of a segment past its file size should be zero. The loader takes it from the
   source as well, so that it is zero just if the source has zeros there or has ended.
   */
  lemma TailIsZero(source: seq<Byte>, table: seq<ProgramHeader>, offset: Word, page: nat, i: nat)
    requires IsPageSize(page) && NeverWraps(table, page) && AreDisjoint(table, page) && offset % page == 0
    requires i < |table| && table[i].IsLoad() && IsCongruent(table[i], page)
    ensures var h := table[i];
            (forall k :: h.fileSize <= k < h.memorySize ==> MemoryByte(source, table, offset, page, h, k) == 0) <==>
            (forall k :: h.fileSize <= k < h.memorySize ==> FileByte(source, offset, h, k) == 0)
  {
    hide And, IsPowerOfTwo, Loaded, ByteAt;
    var h := table[i];
    forall k: nat | h.fileSize <= k < h.memorySize
      ensures MemoryByte(source, table, offset, page, h, k) == FileByte(source, offset, h, k)
    {
      SegmentBytes(source, table, offset, page, i, k);
    }
  }

  /** A segment of one byte, none of it in the file, over a source that has a byte there. */
  lemma TailNotZero() returns (source: seq<Byte>, table: seq<ProgramHeader>)
    ensures |table| == 1 && table[0].IsLoad() && table[0].fileSize == 0 && table[0].memorySize == 1
    ensures NeverWraps(table, 4096) && AreDisjoint(table, 4096) && IsCongruent(table[0], 4096)
    ensures MemoryByte(source, table, 0, 4096, table[0], 0) != 0
  {
    source, table := [7], [ProgramHeader(PT_LOAD, PF_R, 0, 0, 0, 1, 4096)];
    CommonPageSize();
    hide And, IsPowerOfTwo, RoundUp, Loaded;
    SegmentBytes(source, table, 0, 4096, 0, 0);
  }

  // ----- pieces of the file -----

  function PieceOffset(s: nat, page: nat): Word
    requires page > 0
  {
    (s - s % WORD % page) % WORD
  }

  function PieceLength(s: nat, length: Word, page: nat): Word
    requires 0 < page <= WORD
  {
    (RoundUp((s + length) % WORD, page) - PieceOffset(s, page)) % WORD
  }

  lemma PieceOffsetIsMultiple(s: nat, page: nat)
    requires IsPageSize(page) && s < 2 * WORD
    ensures PieceOffset(s, page) == s % WORD - s % WORD % page && PieceOffset(s, page) % page == 0
    ensures WORD % page == 0
  {
    hide And, IsPowerOfTwo;
    RemainderFits(s % WORD, page);
    RoundDownIsMod(s % WORD, page);
  }

  lemma DifferenceIsMultiple(a: Word, b: Word, page: nat)
    requires IsPageSize(page) && a % page == 0 && b % page == 0 && WORD % page == 0
    ensures (a - b) % WORD % page == 0 && (a - b) % WORD + page <= WORD
  {
    hide And, IsPowerOfTwo;
    var d := (a - b) % WORD;
    AddMultiple(a - b, b, page);
    AddMultiple(a - b, WORD, page);
    assert d == a - b || d == a - b + WORD;
    AddMultiple(WORD - page, page, page);
    ModUnique(1, 0, page);
    MultiplesApart(d, WORD - page, page);
  }

  lemma RoundUpIsMultiple(x: nat, page: nat)
    requires IsPageSize(page) && x < WORD
    ensures RoundUp(x, page) % page == 0 && RoundUp(x, page) < WORD
  {
    hide And, IsPowerOfTwo;
    RoundDownIsMod((x + page - 1) % WORD, page);
  }

  /** The length of a mapped piece can be rounded to pages without wrapping around. */
  lemma PieceLengthFits(s: nat, length: Word, page: nat)
    requires IsPageSize(page) && s < 2 * WORD
    ensures PieceLength(s, length, page) + page <= WORD && PieceLength(s, length, page) % page == 0
    ensures PieceOffset(s, page) % page == 0
  {
    hide And, IsPowerOfTwo, PieceOffset, RoundUp;
    PieceOffsetIsMultiple(s, page);
    RoundUpIsMultiple((s + length) % WORD, page);
    DifferenceIsMultiple(RoundUp((s + length) % WORD, page), PieceOffset(s, page), page);
  }

  /** A multiple of the page size is its own rounding. */
  lemma RoundUpOfMultiple(x: nat, page: nat)
    requires IsPageSize(page) && x + page <= WORD && x % page == 0
    ensures RoundUp(x, page) == x
  {
    hide And, IsPowerOfTwo, RoundUp;
    RoundUpIsNext(x, page);
    MultiplesApart(RoundUp(x, page), x, page);
  }

  /** If no sum wraps around, the mapped pages contain the piece. */
  lemma PieceIsCovered(s: nat, length: Word, page: nat)
    requires IsPageSize(page) && s + length + page <= WORD
    ensures PieceOffset(s, page) == s - s % page && s % page + length <= PieceLength(s, length, page)
  {
    hide And, IsPowerOfTwo, RoundUp, PieceOffset;
    PieceOffsetIsMultiple(s, page);
    assert s % WORD == s && (s + length) % WORD == s + length;
    RemainderFits(s, page);
    RoundUpIsNext(s + length, page);
  }

  /** Taking the place of the first byte from the file offset alone is right exactly for an aligned object. */
  lemma PieceStart(offset: Word, fileStart: Word, page: nat)
    requires IsPageSize(page)
    ensures fileStart % page == (offset + fileStart) % page <==> offset % page == 0
  {
    hide And, IsPowerOfTwo;
    var r := offset % page;
    assert offset == offset / page * page + r;
    ModUnique(offset / page, 0, page);
    AddMultiple(fileStart + r, offset / page * page, page);
    SameRemainder(fileStart, r, page);
  }

  lemma SameRemainder(x: nat, r: nat, page: nat)
    requires r < page
    ensures x % page == (x + r) % page <==> r == 0
  {
    var q, y := x / page, x % page;
    assert x == q * page + y;
    if y + r < page {
      ModUnique(q, y + r, page);
    } else {
      assert x + r == (q + 1) * page + (y + r - page);
      ModUnique(q + 1, y + r - page, page);
    }
  }

  // ----- the loader -----

  const NOT_ALIGNED := "File offset must be page-aligned."
  const INVALID_OFFSET := "Invalid file offset."
  const NOT_A_POWER := "Alignment must be a power of two."
  const NO_MEMORY := "Could not reserve virtual memory."
  const NOT_CONGRUENT := "Difference between file and memory offset must be page-aligned."
  const BAD_FLAGS := "Unsupported segment flag set."
  const NOT_MAPPED := "Could not map segment."

  /** Memory in which an ELF object lies. It shares the address space with everything allocated. */
  class MemoryMappable {
    const source: seq<Byte>

    method Allocate(size: nat) returns (r: array?<Byte>)
      ensures r != null ==> fresh(r) && r.Length == size && |source| + size < WORD
      ensures r != null ==> forall a :: 0 <= a < size ==> r[a] == 0
    {
      var fault: bool := *;
      if fault || |source| + size >= WORD {
        return null;
      }
      r := new Byte[size](a => 0);
    }

    /** Copies a piece of the source to `start`, and zeros past its end. */
    method MapAt(image: array<Byte>, start: nat, position: Word, length: Word) returns (ok: bool)
      requires start + length <= image.Length && |source| + image.Length < WORD
      modifies image
      ensures ok <==> position <= |source|
      ensures !ok ==> image[..] == old(image[..])
      ensures ok ==> forall a :: 0 <= a < image.Length ==>
                image[a] ==
                if start <= a < start + length then ByteAt(source, position + (a - start)) else old(image[a])
    {
      if position > |source| {
        return false;
      }
      var remainder, copied: nat := 0, length;
      if (position + length) % WORD > |source| {
        remainder := (position + length) % WORD - |source|;
        copied := |source| - position;
      }
      forall i | 0 <= i < copied {
        image[start + i] := source[position + i];
      }
      forall i | 0 <= i < remainder {
        image[start + copied + i] := 0;
      }
      return true;
    }

    /** A new mapping of a piece of the source. */
    method Map(position: Word, length: Word, page: nat) returns (r: array?<Byte>)
      requires IsPageSize(page) && length + page <= WORD
      ensures r != null ==> fresh(r) && length <= r.Length == RoundUp(length, page) && position <= |source|
      ensures r != null ==> forall a :: 0 <= a < length ==> r[a] == ByteAt(source, position + a)
    {
      hide And, IsPowerOfTwo, RoundUp;
      if position > |source| {
        return null;
      }
      RoundUpIsNext(length, page);
      r := Allocate(RoundUp(length, page));
      if r != null {
        var _ := MapAt(r, 0, position, length);
      }
    }
  }

  class LoadedElf {
    const mappable: MemoryMappable
    const offset: Word
    const page: nat
    const table: seq<ProgramHeader>
    var base: array?<Byte>
    var error: Option<string>

    ghost predicate Valid() {
      IsPageSize(page)
    }

    constructor (mappable: MemoryMappable, offset: Word, page: nat, table: seq<ProgramHeader>)
      requires IsPageSize(page)
      ensures this.mappable == mappable && this.offset == offset && this.page == page && this.table == table
      ensures Valid() && base == null && error.None?
    {
      this.mappable, this.offset, this.page, this.table := mappable, offset, page, table;
      base, error := null, None;
    }

    function SegmentError(h: ProgramHeader): Option<string>
      requires page > 0
    {
      if !IsCongruent(h, page) then Some(NOT_CONGRUENT)
      else if MapTypeOf(h.flags).None? then Some(BAD_FLAGS)
      else if FileStart(h, offset, page) > |mappable.source| then Some(NOT_MAPPED)
      else None
    }

    /** The first segment that cannot be loaded decides about the error. */
    function FirstError(n: nat): Option<string>
      requires page > 0 && n <= |table|
    {
      if n == 0 then None
      else
        var e := FirstError(n - 1);
        if e.Some? || !table[n - 1].IsLoad() then e else SegmentError(table[n - 1])
    }

    predicate AreAligned(n: nat)
      requires n <= |table|
    {
      forall i :: 0 <= i < n && table[i].IsLoad() ==> IsPowerOfTwo(table[i].alignment)
    }

    /** How much memory the segments need. */
    method TotalMemory() returns (total: Option<nat>)
      requires Valid()
      ensures total.Some? <==> AreAligned(|table|)
      ensures total.Some? ==> total.value == Reserved(table, page)
    {
      var end: Word := 0;
      for i := 0 to |table|
        invariant AreAligned(i) && end == MachineEnd(table[..i])
      {
        assert table[..i + 1][..i] == table[..i];
        if table[i].IsLoad() {
          end := Max(table[i].End() % WORD, end);
          if !IsPowerOfTwo(table[i].alignment) {
            return None;
          }
        }
      }
      assert table[..|table|] == table;
      return Some(RoundUp(end, page));
    }

    /** Maps one segment into the image. */
    method LoadSegment(h: ProgramHeader, image: array<Byte>) returns (e: Option<string>)
      requires Valid() && h.IsLoad() && h.End() <= image.Length && |mappable.source| + image.Length < WORD
      modifies image
      ensures e == SegmentError(h)
      ensures e.None? ==> forall a :: 0 <= a < image.Length ==>
                image[a] ==
                if !IsMapped(h, page, a) then old(image[a])
                else ByteAt(mappable.source, FileStart(h, offset, page) + (a - PageStart(h, page)))
    {
      hide And, IsPowerOfTwo;
      if h.memoryOffset % page != h.fileOffset % page {
        return Some(NOT_CONGRUENT);
      }
      var adjustment := h.memoryOffset % page;
      RemainderFits(h.memoryOffset, page);
      var memoryStart := h.memoryOffset - adjustment;
      var fileStart := (offset + h.fileOffset - adjustment) % WORD;
      var length := h.memorySize + adjustment;
      if MapTypeOf(h.flags).None? {
        return Some(BAD_FLAGS);
      }
      var ok := mappable.MapAt(image, memoryStart, fileStart, length);
      return if ok then None else Some(NOT_MAPPED);
    }

    lemma {:induction false} StillFirst(n: nat)
      requires page > 0 && n <= |table| && FirstError(n).Some?
      ensures FirstError(|table|) == FirstError(n)
      decreases |table| - n
    {
      if n < |table| {
        StillFirst(n + 1);
      }
    }

    /** Maps all segments, in order, into a zeroed image that covers them. */
    method MapSegments(image: array<Byte>) returns (e: Option<string>)
      requires Valid() && IsCovered(table, image.Length) && |mappable.source| + image.Length < WORD
      requires forall a :: 0 <= a < image.Length ==> image[a] == 0
      modifies image
      ensures e == FirstError(|table|)
      ensures e.None? ==>
                forall a :: 0 <= a < image.Length ==> image[a] == Loaded(mappable.source, table, offset, page, a)
    {
      hide And, IsPowerOfTwo, FileStart, SegmentError;
      for i := 0 to |table|
        invariant FirstError(i).None?
        invariant forall a :: 0 <= a < image.Length ==> image[a] == Loaded(mappable.source, table[..i], offset, page, a)
      {
        assert table[..i + 1][..i] == table[..i];
        if table[i].IsLoad() {
          e := LoadSegment(table[i], image);
          if e.Some? {
            StillFirst(i + 1);
            return;
          }
        }
      }
      assert table[..|table|] == table;
      return None;
    }

    /** Reserves memory for all segments and maps each of them. */
    method LoadSegments() returns (ok: bool)
      requires Valid() && NeverWraps(table, page) && error.None?
      modifies this`base, this`error
      ensures ok <==> error.None?
      ensures ok <==> AreAligned(|table|) && base != null && FirstError(|table|).None?
      ensures !AreAligned(|table|) ==> error == Some(NOT_A_POWER)
      ensures AreAligned(|table|) && !ok ==> error == if base == null then Some(NO_MEMORY) else FirstError(|table|)
      ensures ok ==> fresh(base) && base.Length == Reserved(table, page)
      ensures ok ==> forall a :: 0 <= a < base.Length ==> base[a] == Loaded(mappable.source, table, offset, page, a)
    {
      hide And, IsPowerOfTwo, RoundUp, MachineEnd, Loaded, FirstError;
      var total := TotalMemory();
      if total.None? {
        error := Some(NOT_A_POWER);
        return false;
      }
      base := mappable.Allocate(total.value);
      if base == null {
        error := Some(NO_MEMORY);
        return false;
      }
      Covered(table, page);
      error := MapSegments(base);
      return error.None?;
    }

    lemma {:induction false} NoErrorIsGood(n: nat, i: nat)
      requires page > 0 && i < n <= |table| && FirstError(n).None? && table[i].IsLoad()
      ensures SegmentError(table[i]).None?
    {
      if i < n - 1 {
        NoErrorIsGood(n - 1, i);
      }
    }

    /** Byte `k` of a segment is in its place in memory; past the end of the source it is zero. */
    ghost predicate HasByte(image: array<Byte>, h: ProgramHeader, k: nat)
      reads image
    {
      var j := (offset + h.fileOffset) % WORD + k;
      && h.memoryOffset + k < image.Length
      && image[h.memoryOffset + k] == if j < |mappable.source| then mappable.source[j] else 0
    }

    /** A byte of a loaded segment. */
    lemma ByteLoaded(image: array<Byte>, i: nat, k: nat)
      requires Valid() && NeverWraps(table, page) && AreDisjoint(table, page) && offset % page == 0
      requires FirstError(|table|).None? && image.Length == Reserved(table, page)
      requires forall a :: 0 <= a < image.Length ==> image[a] == Loaded(mappable.source, table, offset, page, a)
      requires i < |table| && table[i].IsLoad() && k < table[i].memorySize
      ensures HasByte(image, table[i], k)
    {
      hide And, IsPowerOfTwo, Loaded, Reserved, AreDisjoint;
      Covered(table, page);
      NoErrorIsGood(|table|, i);
      SegmentBytes(mappable.source, table, offset, page, i, k);
    }

    /** `a` lies in no segment, nor before the first byte of one in the same page. */
    ghost predicate IsGap(a: nat)
      requires page > 0
    {
      forall i :: 0 <= i < |table| && table[i].kind == 1 ==>
        a < table[i].memoryOffset - table[i].memoryOffset % page || table[i].memoryOffset + table[i].memorySize <= a
    }

    lemma GapLoaded(a: nat)
      requires page > 0 && IsGap(a)
      ensures Loaded(mappable.source, table, offset, page, a) == 0
    {
      GapsAreZero(mappable.source, table, offset, page, a);
    }

    /** What a header must be like to be loaded, in the numbers of the ELF format. */
    ghost predicate IsGood(h: ProgramHeader)
      requires page > 0
    {
      && IsSomePower(h.alignment)
      && h.memoryOffset % page == h.fileOffset % page
      && h.flags in {4, 5, 6}
      && (offset + h.fileOffset) % WORD - h.memoryOffset % page <= |mappable.source|
    }

    lemma GoodIff(h: ProgramHeader)
      requires Valid() && offset % page == 0
      ensures IsGood(h) <==> IsPowerOfTwo(h.alignment) && SegmentError(h).None?
    {
      hide And, IsPowerOfTwo, FileStart, IsSomePower;
      PowerOfTwoIff(h.alignment);
      MapTypeIff(h.flags);
      if IsCongruent(h, page) {
        FirstByte(h, offset, page);
        assert FileStart(h, offset, page) == (offset + h.fileOffset) % WORD - h.memoryOffset % page;
      }
    }

    /** No error before `n` exactly if there is nothing wrong with any segment before `n`. */
    lemma {:induction false} NoErrorIff(n: nat)
      requires page > 0 && n <= |table|
      ensures FirstError(n).None? <==>
              forall i :: 0 <= i < n && table[i].IsLoad() ==> SegmentError(table[i]).None?
    {
      if n > 0 {
        NoErrorIff(n - 1);
      }
    }

    lemma AllGoodIff()
      requires Valid() && offset % page == 0
      ensures AreAligned(|table|) && FirstError(|table|).None? <==>
              forall i :: 0 <= i < |table| && table[i].kind == 1 ==> IsGood(table[i])
    {
      hide IsGood, SegmentError, And, IsPowerOfTwo;
      NoErrorIff(|table|);
      forall i | 0 <= i < |table|
        ensures IsGood(table[i]) <==> IsPowerOfTwo(table[i].alignment) && SegmentError(table[i]).None?
      {
        GoodIff(table[i]);
      }
    }

    /** The error tells what is wrong with the first segment that is. */
    lemma {:induction false} ErrorTells(n: nat) returns (i: nat)
      requires Valid() && n <= |table| && FirstError(n).Some?
      ensures i < n && table[i].IsLoad() && FirstError(i).None?
      ensures var h, e := table[i], FirstError(n).value;
              || (e == "Difference between file and memory offset must be page-aligned."
                  && h.memoryOffset % page != h.fileOffset % page)
              || (e == "Unsupported segment flag set." && h.flags !in {4, 5, 6})
              || (e == "Could not map segment." && FileStart(h, offset, page) > |mappable.source|)
    {
      if FirstError(n - 1).Some? {
        i := ErrorTells(n - 1);
      } else {
        i := n - 1;
      }
    }

    /** The checks before anything is loaded, and then the segments: each is where its header wants it. */
    method Load() returns (ok: bool)
      requires Valid() && NeverWraps(table, page) && error.None?
      modifies this`base, this`error
      ensures ok <==> error.None?
      ensures ok <==>
              && offset % page == 0 && offset <= |mappable.source| && base != null
              && forall i :: 0 <= i < |table| && table[i].kind == 1 ==> IsGood(table[i])
      ensures offset % page != 0 ==> error == Some(NOT_ALIGNED)
      ensures offset % page == 0 && offset > |mappable.source| ==> error == Some(INVALID_OFFSET)
      ensures offset % page == 0 && offset <= |mappable.source| && !ok ==>
                error == if !AreAligned(|table|) then Some(NOT_A_POWER)
                         else if base == null then Some(NO_MEMORY) else FirstError(|table|)
      ensures ok ==> base.Length == Reserved(table, page)
      ensures ok && AreDisjoint(table, page) ==>
                forall i, k: nat :: 0 <= i < |table| && table[i].kind == 1 && k < table[i].memorySize ==>
                  HasByte(base, table[i], k)
      ensures ok ==> forall a :: 0 <= a < base.Length && IsGap(a) ==> base[a] == 0
    {
      hide And, IsPowerOfTwo, Loaded, Reserved, AreDisjoint, FirstError, IsCovered, NeverWraps, IsGood, AreAligned;
      hide IsGap;
      if offset % page != 0 {
        error := Some(NOT_ALIGNED);
        return false;
      }
      if offset > |mappable.source| {
        error := Some(INVALID_OFFSET);
        return false;
      }
      ok := LoadSegments();
      AllGoodIff();
      if ok && AreDisjoint(table, page) {
        forall i, k: nat | 0 <= i < |table| && table[i].kind == 1 && k < table[i].memorySize
          ensures HasByte(base, table[i], k)
        {
          ByteLoaded(base, i, k);
        }
      }
      if ok {
        forall a | 0 <= a < base.Length && IsGap(a)
          ensures base[a] == 0
        {
          GapLoaded(a);
        }
      }
    }

    /**
     Maps a piece of the ELF object, with no need of alignment. `start` is the place in the
     mapping that callers take for the first byte of the piece.
     */
    method MapFilePiece(fileStart: Word, fileLength: Word)
      returns (mapping: array?<Byte>, start: nat, ghost position: Word)
      requires Valid()
      ensures position % page == 0
      ensures mapping != null ==> mapping.Length % page == 0
      ensures mapping != null ==>
                forall a :: 0 <= a < mapping.Length ==> mapping[a] == ByteAt(mappable.source, position + a)
      ensures offset + fileStart + fileLength + page <= WORD && mapping != null ==>
                position <= offset + fileStart && offset + fileStart + fileLength <= position + mapping.Length
      ensures offset + fileStart + fileLength + page <= WORD ==>
                (position + start == offset + fileStart <==> offset % page == 0)
      ensures offset + fileStart + fileLength + page <= WORD && offset % page == 0 && mapping != null ==>
                && start + fileLength <= mapping.Length
                && mapping[start..start + fileLength] == Piece(mappable.source, offset + fileStart, fileLength)
    {
      hide And, IsPowerOfTwo, RoundUp;
      var adjustment := (offset + fileStart) % WORD % page;
      var mappingOffset := (offset + fileStart - adjustment) % WORD;
      var mappingLength := (RoundUp((offset + fileStart + fileLength) % WORD, page) - mappingOffset) % WORD;
      PieceLengthFits(offset + fileStart, fileLength, page);
      RoundUpOfMultiple(mappingLength, page);
      mapping := mappable.Map(mappingOffset, mappingLength, page);
      start, position := fileStart % page, mappingOffset;
      if offset + fileStart + fileLength + page <= WORD {
        PieceIsCovered(offset + fileStart, fileLength, page);
        PieceStart(offset, fileStart, page);
      }
    }
  }
}
