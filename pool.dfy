/**
 * The bump-pointer pool of myalloc.c: one byte arena, a free cursor that
 * only moves forward, and a PoolHeader in front of every chunk naming its
 * size and its owning RefId. There is no free.
 */
module Pool {
  import opened Values

  /** The unsigned char of the arena. */
  newtype byte = x: int | 0 <= x < 256

  const INT_MIN: int := -0x8000_0000
  const INT_MAX: int := 0x7fff_ffff

  /** sizeof(struct PoolHeader): two 32-bit ints, obj_size then ref (myalloc.c:27-31). */
  const HEADER_SIZE: nat := 8

  predicate IsInt32(x: int)
  {
    INT_MIN <= x <= INT_MAX
  }

  /** struct PoolHeader: obj_size counts the header and the payload after it. */
  datatype PoolHeader = PoolHeader(objSize: int, ref: RefId)

  /** The four bytes of a C int in memory: two's complement, least significant byte first. */
  function Encode32(x: int): (b: seq<byte>)
    requires IsInt32(x)
    ensures |b| == 4
  {
    var u := if x < 0 then x + 0x1_0000_0000 else x;
    var q1 := u / 0x100;
    var q2 := q1 / 0x100;
    [(u % 0x100) as byte, (q1 % 0x100) as byte, (q2 % 0x100) as byte, (q2 / 0x100) as byte]
  }

  /** The C int that four bytes of memory hold. */
  function Decode32(b: seq<byte>): (x: int)
    requires |b| == 4
    ensures IsInt32(x)
  {
    var u := b[0] as int + 0x100 * b[1] as int + 0x1_0000 * b[2] as int + 0x100_0000 * b[3] as int;
    if u > INT_MAX then u - 0x1_0000_0000 else u
  }

  /** Reading back an int that was stored gives the int. */
  lemma DecodeEncode32(x: int)
    requires IsInt32(x)
    ensures Decode32(Encode32(x)) == x
  {
    var u := if x < 0 then x + 0x1_0000_0000 else x;
    var q1 := u / 0x100;
    var q2 := q1 / 0x100;
    var b := Encode32(x);
    assert u == b[0] as int + 0x100 * q1;
    assert q1 == b[1] as int + 0x100 * q2;
    assert q2 == b[2] as int + 0x100 * b[3] as int;
  }

  /** Storing the int that four bytes hold gives the same bytes: the encoding is a bijection. */
  lemma EncodeDecode32(b: seq<byte>)
    requires |b| == 4
    ensures Encode32(Decode32(b)) == b
  {
    var u := b[0] as int + 0x100 * b[1] as int + 0x1_0000 * b[2] as int + 0x100_0000 * b[3] as int;
    var q1 := b[1] as int + 0x100 * b[2] as int + 0x1_0000 * b[3] as int;
    var q2 := b[2] as int + 0x100 * b[3] as int;
    assert u == b[0] as int + 0x100 * q1 && u / 0x100 == q1;
    assert q1 == b[1] as int + 0x100 * q2 && q1 / 0x100 == q2;
    assert q2 / 0x100 == b[3] as int;
  }

  /** A header can be stored when both of its fields fit a C int. */
  predicate Storable(h: PoolHeader)
  {
    IsInt32(h.objSize) && IsInt32(h.ref)
  }

  /** The header as it lies in memory. */
  function EncodeHeader(h: PoolHeader): (b: seq<byte>)
    requires Storable(h)
    ensures |b| == HEADER_SIZE
  {
    Encode32(h.objSize) + Encode32(h.ref)
  }

  /** The header that the eight bytes at `at` hold (the cast of myalloc.c:99). */
  function DecodeHeader(bytes: seq<byte>, at: nat): (h: PoolHeader)
    requires at + HEADER_SIZE <= |bytes|
    ensures Storable(h)
  {
    PoolHeader(Decode32(bytes[at..at + 4]), Decode32(bytes[at + 4..at + HEADER_SIZE]))
  }

  lemma DecodeEncodeHeader(bytes: seq<byte>, at: nat, h: PoolHeader)
    requires Storable(h) && at + HEADER_SIZE <= |bytes|
    requires bytes[at..at + HEADER_SIZE] == EncodeHeader(h)
    ensures DecodeHeader(bytes, at) == h
  {
    assert bytes[at..at + 4] == EncodeHeader(h)[..4] == Encode32(h.objSize);
    assert bytes[at + 4..at + HEADER_SIZE] == EncodeHeader(h)[4..] == Encode32(h.ref);
    DecodeEncode32(h.objSize);
    DecodeEncode32(h.ref);
  }

  /** A header myalloc writes: it covers at least itself, and both fields fit a C int. */
  predicate WellSized(h: PoolHeader)
  {
    Storable(h) && h.objSize >= HEADER_SIZE
  }

  /**
   * The chunks hs lie back to back from offset `at`, each starting with its
   * header, and the last one ends exactly at `end`, which is inside the arena.
   */
  predicate LaidOut(bytes: seq<byte>, at: nat, hs: seq<PoolHeader>, end: nat)
    decreases |hs|
  {
    end <= |bytes| &&
    if hs == [] then at == end
    else
      WellSized(hs[0]) && at + hs[0].objSize <= end &&
      bytes[at..at + HEADER_SIZE] == EncodeHeader(hs[0]) &&
      LaidOut(bytes, at + hs[0].objSize, hs[1..], end)
  }

  /** The bytes a run of chunks occupies, headers included. */
  function Footprint(hs: seq<PoolHeader>): nat
  {
    if hs == [] then 0 else (if hs[0].objSize < 0 then 0 else hs[0].objSize) + Footprint(hs[1..])
  }

  /** Where chunk k of a run starting at `at` begins. */
  function Offset(hs: seq<PoolHeader>, at: nat, k: nat): nat
    requires k <= |hs|
  {
    at + Footprint(hs[..k])
  }

  /** One line of memdump: "size %d; refId %d" (myalloc.c:101-103). */
  datatype DumpLine = DumpLine(size: int, ref: RefId)

  /** The lines memdump prints for the recorded headers, in allocation order. */
  function Report(hs: seq<PoolHeader>): (lines: seq<DumpLine>)
    ensures |lines| == |hs|
  {
    if hs == [] then [] else [DumpLine(hs[0].objSize - HEADER_SIZE, hs[0].ref)] + Report(hs[1..])
  }

  /** Line i of the report is chunk i's payload size and owner. */
  lemma {:induction false} ReportLines(hs: seq<PoolHeader>)
    ensures forall i :: 0 <= i < |hs| ==> Report(hs)[i] == DumpLine(hs[i].objSize - HEADER_SIZE, hs[i].ref)
    decreases |hs|
  {
    if hs != [] {
      ReportLines(hs[1..]);
      assert forall i :: 1 <= i < |hs| ==> Report(hs)[i] == Report(hs[1..])[i - 1];
    }
  }

  /**
   * memdump's walk (myalloc.c:93-111) as a function of the arena: read the
   * header at the cursor, report it, step by obj_size, stop at `end`.
   */
  function Walk(bytes: seq<byte>, curr: nat, end: nat): (lines: seq<DumpLine>)
    ensures curr >= end ==> lines == []
    ensures curr < end ==> |lines| <= end - curr
    decreases end - curr
  {
    if curr >= end || curr + HEADER_SIZE > |bytes| then []
    else
      var h := DecodeHeader(bytes, curr);
      if h.objSize <= 0 then []
      else [DumpLine(h.objSize - HEADER_SIZE, h.ref)] + Walk(bytes, curr + h.objSize, end)
  }

  /** A run that ends at `end` covers its footprint, so the recorded sizes add up to the cursor. */
  lemma {:induction false} LaidOutEnd(bytes: seq<byte>, at: nat, hs: seq<PoolHeader>, end: nat)
    requires LaidOut(bytes, at, hs, end)
    ensures end == at + Footprint(hs)
    decreases |hs|
  {
    if hs != [] {
      LaidOutEnd(bytes, at + hs[0].objSize, hs[1..], end);
    }
  }

  /** Walking the headers of a laid-out run reports every chunk once, in order, and nothing else. */
  lemma {:induction false} WalkLaidOut(bytes: seq<byte>, at: nat, hs: seq<PoolHeader>, end: nat)
    requires LaidOut(bytes, at, hs, end)
    ensures Walk(bytes, at, end) == Report(hs)
    decreases |hs|
  {
    if hs != [] {
      var h := hs[0];
      DecodeEncodeHeader(bytes, at, h);
      WalkLaidOut(bytes, at + h.objSize, hs[1..], end);
      WalkStep(bytes, at, end, h);
    }
  }

  /** One step of the walk: a header of positive size below `end` is reported, and the walk goes on past its chunk. */
  lemma WalkStep(bytes: seq<byte>, at: nat, end: nat, h: PoolHeader)
    requires at < end && at + HEADER_SIZE <= |bytes| && DecodeHeader(bytes, at) == h && h.objSize > 0
    ensures Walk(bytes, at, end) == [DumpLine(h.objSize - HEADER_SIZE, h.ref)] + Walk(bytes, at + h.objSize, end)
  {
  }

  /** The header of every chunk sits at its offset, and a chunk ends where the next begins. */
  lemma {:induction false} HeaderAtOffset(bytes: seq<byte>, at: nat, hs: seq<PoolHeader>, end: nat, k: nat)
    requires LaidOut(bytes, at, hs, end) && k < |hs|
    ensures Offset(hs, at, k) + HEADER_SIZE <= Offset(hs, at, k + 1) <= end
    ensures DecodeHeader(bytes, Offset(hs, at, k)) == hs[k]
    decreases |hs|
  {
    assert hs[..1] == [hs[0]] && [hs[0]][1..] == [];
    if k == 0 {
      assert hs[..0] == [];
      LaidOutEnd(bytes, at + hs[0].objSize, hs[1..], end);
      DecodeEncodeHeader(bytes, at, hs[0]);
    } else {
      var at' := at + hs[0].objSize;
      HeaderAtOffset(bytes, at', hs[1..], end, k - 1);
      assert hs[..k][1..] == hs[1..][..k - 1];
      assert hs[..k + 1][1..] == hs[1..][..k];
    }
  }

  /** Chunks never overlap: an earlier chunk ends at or before a later one begins. */
  lemma {:induction false} ChunksDisjoint(hs: seq<PoolHeader>, at: nat, j: nat, k: nat)
    requires j < k <= |hs|
    ensures Offset(hs, at, j + 1) <= Offset(hs, at, k)
    decreases k - j
  {
    if j + 1 < k {
      ChunksDisjoint(hs, at, j + 1, k);
      FootprintGrows(hs, j + 1);
    }
  }

  lemma FootprintGrows(hs: seq<PoolHeader>, k: nat)
    requires k < |hs|
    ensures Footprint(hs[..k]) <= Footprint(hs[..k + 1])
  {
    FootprintSnoc(hs[..k], hs[k]);
    assert hs[..k + 1] == hs[..k] + [hs[k]];
  }

  lemma {:induction false} FootprintSnoc(hs: seq<PoolHeader>, h: PoolHeader)
    ensures Footprint(hs + [h]) == Footprint(hs) + (if h.objSize < 0 then 0 else h.objSize)
    decreases |hs|
  {
    if hs == [] {
      assert [] + [h] == [h];
    } else {
      assert (hs + [h])[1..] == hs[1..] + [h];
      FootprintSnoc(hs[1..], h);
    }
  }

  /** A run depends only on the bytes below its end. */
  lemma {:induction false} LaidOutFrame(bytes: seq<byte>, bytes': seq<byte>, at: nat, hs: seq<PoolHeader>, end: nat)
    requires LaidOut(bytes, at, hs, end)
    requires end <= |bytes'| && bytes'[..end] == bytes[..end]
    ensures LaidOut(bytes', at, hs, end)
    decreases |hs|
  {
    if hs != [] {
      assert bytes'[at..at + HEADER_SIZE] == bytes'[..end][at..at + HEADER_SIZE];
      assert bytes[at..at + HEADER_SIZE] == bytes[..end][at..at + HEADER_SIZE];
      LaidOutFrame(bytes, bytes', at + hs[0].objSize, hs[1..], end);
    }
  }

  /** A new chunk written right at the end of a run extends the run. */
  lemma {:induction false} LaidOutSnoc(bytes: seq<byte>, at: nat, hs: seq<PoolHeader>, end: nat, h: PoolHeader)
    requires LaidOut(bytes, at, hs, end)
    requires WellSized(h) && end + h.objSize <= |bytes|
    requires bytes[end..end + HEADER_SIZE] == EncodeHeader(h)
    ensures LaidOut(bytes, at, hs + [h], end + h.objSize)
    decreases |hs|
  {
    if hs == [] {
      assert [] + [h] == [h] && [h][1..] == [];
    } else {
      assert (hs + [h])[0] == hs[0] && (hs + [h])[1..] == hs[1..] + [h];
      LaidOutSnoc(bytes, at + hs[0].objSize, hs[1..], end, h);
    }
  }

  /** The first chunk of a run that has not reached its end: its header, and the run after it. */
  lemma LaidOutStep(bytes: seq<byte>, at: nat, hs: seq<PoolHeader>, end: nat)
    requires LaidOut(bytes, at, hs, end) && at < end
    ensures hs != [] && at + hs[0].objSize <= end && at + HEADER_SIZE <= |bytes|
    ensures DecodeHeader(bytes, at) == hs[0]
    ensures LaidOut(bytes, at + hs[0].objSize, hs[1..], end)
  {
    DecodeEncodeHeader(bytes, at, hs[0]);
  }

  /** Writing a new header at the end of a run, and nothing below it, extends the run. */
  lemma AppendChunk(before: seq<byte>, after: seq<byte>, hs: seq<PoolHeader>, end: nat, h: PoolHeader)
    requires LaidOut(before, 0, hs, end)
    requires WellSized(h) && end + h.objSize <= |before|
    requires after == before[..end] + EncodeHeader(h) + before[end + HEADER_SIZE..]
    ensures LaidOut(after, 0, hs + [h], end + h.objSize)
  {
    assert after[..end] == before[..end];
    assert after[end..end + HEADER_SIZE] == EncodeHeader(h);
    LaidOutFrame(before, after, 0, hs, end);
    LaidOutSnoc(after, 0, hs, end, h);
  }

  /**
   * The allocator state: the arena mem of MEMORY_SIZE bytes and the free
   * cursor, kept as an offset from mem. The ghost allocs records every header
   * written so far, in allocation order.
   */
  class Pool {
    var mem: array<byte>
    var freeptr: nat
    ghost var allocs: seq<PoolHeader>

    ghost predicate Valid()
      reads this, mem
    {
      mem.Length <= INT_MAX && freeptr <= mem.Length && LaidOut(mem[..], 0, allocs, freeptr)
    }

    /** init_myalloc (myalloc.c:50-65): a fresh arena with the cursor at its start. */
    constructor Init(memorySize: nat)
      requires memorySize <= INT_MAX
      ensures Valid() && fresh(mem)
      ensures mem.Length == memorySize && freeptr == 0 && allocs == []
    {
      mem := new byte[memorySize];
      freeptr := 0;
      allocs := [];
    }

    /** The number of bytes handed out so far, headers included (freeptr - mem). */
    function InUse(): (n: nat)
      reads this, mem
      requires Valid()
      ensures n <= mem.Length
      ensures n == Footprint(allocs)
    {
      LaidOutEnd(mem[..], 0, allocs, freeptr);
      freeptr
    }

    /** Stores a C int at offset `at`. */
    method Store32(at: nat, x: int)
      requires IsInt32(x) && at + 4 <= mem.Length
      modifies mem
      ensures mem[..] == old(mem[..at]) + Encode32(x) + old(mem[at + 4..])
    {
      var b := Encode32(x);
      mem[at] := b[0];
      mem[at + 1] := b[1];
      mem[at + 2] := b[2];
      mem[at + 3] := b[3];
    }

    /** The two field stores of myalloc.c:76-78: obj_size, then ref. */
    method WriteHeader(at: nat, h: PoolHeader)
      requires Storable(h) && at + HEADER_SIZE <= mem.Length
      modifies mem
      ensures mem[..] == old(mem[..at]) + EncodeHeader(h) + old(mem[at + HEADER_SIZE..])
    {
      Store32(at, h.objSize);
      Store32(at + 4, h.ref);
    }

    /**
     * myalloc (myalloc.c:72-91): when the header and `size` payload bytes fit
     * strictly below the end of the arena, write the header at the cursor,
     * return the offset just after it and advance the cursor past the
     * payload; otherwise return None (the null pointer) and change nothing.
     */
    method Alloc(size: int, ref: RefId) returns (r: Option<nat>)
      requires Valid() && 0 <= size <= INT_MAX - HEADER_SIZE && IsInt32(ref)
      modifies this, mem
      ensures Valid() && mem == old(mem)
      ensures r.Some? <==> old(freeptr) + HEADER_SIZE + size < mem.Length
      ensures r.Some? ==> r.value == old(freeptr) + HEADER_SIZE
      ensures r.Some? ==> freeptr == old(freeptr) + HEADER_SIZE + size
      ensures r.Some? ==> allocs == old(allocs) + [PoolHeader(HEADER_SIZE + size, ref)]
      ensures r.Some? ==> mem[old(freeptr)..r.value] == EncodeHeader(PoolHeader(HEADER_SIZE + size, ref))
      ensures r.Some? ==> mem[..old(freeptr)] == old(mem[..freeptr]) && mem[r.value..] == old(mem[r.value..])
      ensures r.None? ==> freeptr == old(freeptr) && allocs == old(allocs) && mem[..] == old(mem[..])
    {
      var requested := HEADER_SIZE + size;
      if freeptr + requested < mem.Length {
        r := Some(freeptr + HEADER_SIZE);
        AppendAt(PoolHeader(requested, ref));
      } else {
        r := None;
      }
    }

    /** The successful branch of myalloc (myalloc.c:75-85): header at the cursor, cursor past the chunk. */
    method AppendAt(h: PoolHeader)
      requires Valid() && WellSized(h) && freeptr + h.objSize < mem.Length
      modifies this, mem
      ensures Valid() && mem == old(mem)
      ensures freeptr == old(freeptr) + h.objSize && allocs == old(allocs) + [h]
      ensures mem[..] == old(mem[..freeptr]) + EncodeHeader(h) + old(mem[freeptr + HEADER_SIZE..])
    {
      ghost var before := mem[..];
      WriteHeader(freeptr, h);
      AppendChunk(before, mem[..], allocs, freeptr, h);
      freeptr := freeptr + h.objSize;
      allocs := allocs + [h];
    }

    /** The header the arena holds at offset `at`. */
    function HeaderAt(at: nat): (h: PoolHeader)
      reads this, mem
      requires at + HEADER_SIZE <= mem.Length
      ensures h == DecodeHeader(mem[..], at)
    {
      PoolHeader(Decode32(mem[at..at + 4]), Decode32(mem[at + 4..at + HEADER_SIZE]))
    }

    /**
     * memdump (myalloc.c:93-111) without the printing: the payload size and
     * owner of every chunk from mem up to the cursor.
     */
    method MemDump() returns (lines: seq<DumpLine>)
      requires Valid()
      ensures lines == Report(allocs)
      ensures lines == Walk(mem[..], 0, freeptr)
    {
      var curr := 0;
      lines := [];
      ghost var bytes := mem[..];
      ghost var rest := allocs;
      while curr < freeptr
        invariant bytes == mem[..]
        invariant LaidOut(bytes, curr, rest, freeptr)
        invariant lines + Report(rest) == Report(allocs)
        decreases freeptr - curr
      {
        LaidOutStep(bytes, curr, rest, freeptr);
        var h := HeaderAt(curr);
        assert h == rest[0];
        var line := DumpLine(h.objSize - HEADER_SIZE, h.ref);
        assert Report(rest) == [line] + Report(rest[1..]);
        assert lines + ([line] + Report(rest[1..])) == (lines + [line]) + Report(rest[1..]);
        lines := lines + [line];
        curr := curr + h.objSize;
        rest := rest[1..];
      }
      assert Report(rest) == [];
      WalkLaidOut(mem[..], 0, allocs, freeptr);
    }
  }
}
