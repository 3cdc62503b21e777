/**
 * The slate allocator of vehicle/src/bullwinkle/all/SlateLayout.cc: a bump allocator per shard
 * with a free list of power-of-two chunks that recycles alignment padding, and views of elements.
 *
 * slate_offset_t is an unsigned 32-bit number.  Path syntax, id packing and where storage is
 * allocated come in as parameters.
 */
module SlateLayouts {
  import opened AlignedBuffers

  const MAX_OFFSET: nat := 0xFFFF_FFFF

  datatype Region = Region(offset: nat, size: nat)

  predicate Has(r: Region, b: nat) { r.offset <= b < r.offset + r.size }

  /** How many of the regions contain byte b. */
  function Count(rs: seq<Region>, b: nat): (r: nat) {
    if rs == [] then 0
    else Count(rs[..|rs| - 1], b) + (if Has(rs[|rs| - 1], b) then 1 else 0)
  }

  function One(r: Region, b: nat): (q: nat) { if Has(r, b) then 1 else 0 }

  lemma CountPush(rs: seq<Region>, r: Region, b: nat)
    ensures Count(rs + [r], b) == Count(rs, b) + One(r, b)
  {
    assert (rs + [r])[..|rs|] == rs;
  }

  lemma CountNone(b: nat)
    ensures Count([], b) == 0
  {
  }

  lemma {:induction false} CountConcat(a: seq<Region>, c: seq<Region>, b: nat)
    ensures Count(a + c, b) == Count(a, b) + Count(c, b)
  {
    hide Count;
    if c == [] {
      CountNone(b);
      assert a + c == a;
    } else {
      var d, r := c[..|c| - 1], c[|c| - 1];
      CountConcat(a, d, b);
      CountPush(a + d, r, b);
      CountPush(d, r, b);
      assert a + c == (a + d) + [r] && c == d + [r];
    }
  }

  lemma CountAt(rs: seq<Region>, i: nat, b: nat)
    requires i < |rs|
    ensures Count(rs, b) == Count(rs[..i], b) + One(rs[i], b) + Count(rs[i + 1..], b)
  {
    hide Count;
    assert rs == (rs[..i] + [rs[i]]) + rs[i + 1..];
    CountConcat(rs[..i] + [rs[i]], rs[i + 1..], b);
    CountPush(rs[..i], rs[i], b);
  }

  // ---------- the free list ----------

  predicate ChunkSize(n: nat) { n == 1 || n == 2 || n == 4 || n == 8 || n == 16 }

  /** A free chunk: power-of-two size below the maximal alignment, offset aligned to the size. */
  predicate ChunkOk(c: Region) { ChunkSize(c.size) && c.offset % c.size == 0 }

  ghost predicate FreeListOk(free: seq<Region>) {
    && (forall i :: 0 <= i < |free| ==> ChunkOk(free[i]))
    && (forall i, j :: 0 <= i < j < |free| ==> free[i].size <= free[j].size)
  }

  /** multimap::lower_bound: the first chunk of at least the given size. */
  method LowerBound(free: seq<Region>, size: nat) returns (i: nat)
    ensures i <= |free|
    ensures forall j :: 0 <= j < i ==> free[j].size < size
    ensures i < |free| ==> free[i].size >= size
  {
    i := 0;
    while i < |free| && free[i].size < size
      invariant i <= |free|
      invariant forall j :: 0 <= j < i ==> free[j].size < size
    {
      i := i + 1;
    }
  }

  /** multimap::insert: behind the chunks of the same size. */
  method Insert(free: seq<Region>, c: Region) returns (r: seq<Region>)
    requires FreeListOk(free) && ChunkOk(c)
    ensures FreeListOk(r)
    ensures forall b: nat :: Count(r, b) == Count(free, b) + One(c, b)
  {
    hide Count, One, ChunkOk;
    var i := LowerBound(free, c.size + 1);
    r := free[..i] + [c] + free[i..];
    forall b: nat ensures Count(r, b) == Count(free, b) + One(c, b) {
      CountConcat(free[..i] + [c], free[i..], b);
      CountPush(free[..i], c, b);
      CountConcat(free[..i], free[i..], b);
      assert free == free[..i] + free[i..];
    }
  }

  lemma NoSmallMultiple(x: int, size: nat, rest: nat)
    requires rest == x * size && rest < size
    ensures rest == 0
  {
    AtLeastOne(x, size);
  }

  lemma AtLeastOne(x: int, size: nat)
    ensures x >= 1 ==> x * size >= size
    ensures x <= 0 ==> x * size <= 0
  {
    if x >= 1 { assert x * size == size + (x - 1) * size; }
  }

  lemma DivExact(k: nat, size: nat)
    requires SupportedAlignment(size)
    ensures k * size / size == k
  {
    if size == 1 {
    } else if size == 2 {
    } else if size == 4 {
    } else if size == 8 {
    } else if size == 16 {
    } else {
    }
  }

  /** Doubling the chunk size keeps the offset a whole number of chunks, one half as many. */
  lemma Halve(k: nat, size: nat)
    ensures k % 2 == 0 ==> k * size == k / 2 * (2 * size)
    ensures k % 2 == 1 ==> k * size + size == (k + 1) / 2 * (2 * size)
  {
    if k % 2 == 1 {
      var h := (k + 1) / 2;
      assert k + 1 == h * 2;
      assert (k + 1) * size == h * 2 * size;
    } else {
      assert k == k / 2 * 2;
    }
  }

  /**
   * The carving loop: the space before an aligned end is cut into chunks, smallest first.  Nothing
   * is left over, so the source's abort on left-over space cannot fire.
   */
  method Carve(free: seq<Region>, freeOffset: nat, freeSize: nat, ghost alignment: nat)
    returns (r: seq<Region>, rest: nat)
    requires FreeListOk(free) && SupportedAlignment(alignment)
    requires freeSize < alignment && (freeOffset + freeSize) % alignment == 0
    ensures rest == 0
    ensures FreeListOk(r)
    ensures forall b: nat :: Count(r, b) == Count(free, b) + One(Region(freeOffset, freeSize), b)
  {
    hide Count, FreeListOk, One, SupportedAlignment;
    r, rest := free, freeSize;
    var offset, size := freeOffset, 1;
    // the end is e alignments, an alignment is t chunks of the current size, the offset is k chunks
    ghost var e: nat, t: nat, k: nat := (freeOffset + freeSize) / alignment, alignment, freeOffset;
    EmptyRegion(freeOffset);
    OneSupported();
    while size <= rest
      invariant FreeListOk(r)
      invariant SupportedAlignment(size) && SupportedAlignment(t) && t * size == alignment
      invariant offset + rest == freeOffset + freeSize == e * alignment && freeOffset <= offset
      invariant rest < alignment && offset == k * size
      invariant forall b: nat ::
          Count(r, b) == Count(free, b) + One(Region(freeOffset, offset - freeOffset), b)
      decreases 64 - size
    {
      DivExact(k, size);
      Halve(k, size);
      NextSize(size, t, alignment);
      if offset / size % 2 == 1 {
        MultipleOf(k, size);
        r := Insert(r, Region(offset, size));
        Adjacent(freeOffset, offset, size);
        offset := offset + size;
        rest := rest - size;
        k := k + 1;
      }
      k := k / 2;
      t := t / 2;
      size := 2 * size;
    }
    NothingLeft(e, t, k, size, alignment, rest);
  }

  lemma NothingLeft(e: nat, t: nat, k: nat, size: nat, alignment: nat, rest: nat)
    requires t * size == alignment && k * size + rest == e * alignment && rest < size
    ensures rest == 0
  {
    assert rest == (e * t - k) * size by { assert e * alignment == e * (t * size) == (e * t) * size; }
    NoSmallMultiple(e * t - k, size, rest);
  }

  lemma NextSize(size: nat, t: nat, alignment: nat)
    requires SupportedAlignment(size) && SupportedAlignment(t) && t * size == alignment
    requires SupportedAlignment(alignment) && size < alignment
    ensures SupportedAlignment(2 * size) && SupportedAlignment(t / 2) && t / 2 * (2 * size) == alignment
    ensures ChunkSize(size)
  {
  }

  lemma OneSupported()
    ensures SupportedAlignment(1)
  {
  }

  lemma EmptyRegion(offset: nat)
    ensures forall b: nat :: One(Region(offset, 0), b) == 0
  {
  }

  lemma Adjacent(start: nat, middle: nat, size: nat)
    requires start <= middle
    ensures forall b: nat ::
      One(Region(start, middle - start), b) + One(Region(middle, size), b) == One(Region(start, middle + size - start), b)
  {
  }

  // ---------- one shard ----------

  datatype Shard = Shard(size: nat, free: seq<Region>, memory: Buffer)

  /** Every byte below the size is in exactly one granted region or free chunk, and no other byte is. */
  ghost predicate ExactCover(granted: seq<Region>, free: seq<Region>, size: nat) {
    forall b: nat :: Count(granted, b) + Count(free, b) == if b < size then 1 else 0
  }

  /** The memory in use has the size of the shard, and what was never granted is zero. */
  ghost predicate MemoryOk(memory: Buffer, granted: seq<Region>, size: nat) {
    && memory.Valid() && memory.length == size
    && forall b :: 0 <= b < |memory.bytes| && Count(granted, b) == 0 ==> memory.bytes[b] == 0
  }

  /**
   * The invariant of a shard.  The granted regions are those of all requests that got memory,
   * also when registering the element failed afterwards.
   */
  ghost predicate ShardOk(sh: Shard, granted: seq<Region>) {
    && sh.size <= MAX_OFFSET
    && FreeListOk(sh.free)
    && ExactCover(granted, sh.free, sh.size)
    && MemoryOk(sh.memory, granted, sh.size)
  }

  /** Exact cover in its usual words: no two regions overlap, and all lie inside the shard. */
  lemma RegionsAreDisjoint(sh: Shard, granted: seq<Region>, i: nat, j: nat)
    requires ShardOk(sh, granted) && i < j < |granted| + |sh.free|
    ensures var all := granted + sh.free;
      forall b: nat :: !(Has(all[i], b) && Has(all[j], b))
  {
    hide Count, FreeListOk, MemoryOk;
    var all := granted + sh.free;
    forall b: nat ensures !(Has(all[i], b) && Has(all[j], b)) {
      CountConcat(granted, sh.free, b);
      CountAt(all, j, b);
      CountAt(all[..j], i, b);
    }
  }

  lemma RegionsAreInside(sh: Shard, granted: seq<Region>, i: nat)
    requires ShardOk(sh, granted) && i < |granted| && granted[i].size > 0
    ensures granted[i].offset + granted[i].size <= sh.size
  {
    hide Count, FreeListOk, MemoryOk;
    var b := granted[i].offset + granted[i].size - 1;
    CountAt(granted, i, b);
    assert Count(granted, b) + Count(sh.free, b) >= 1;
  }

  /** Every byte of the shard has an owner: some region of the cover contains it. */
  lemma {:induction false} CountedByteHasRegion(rs: seq<Region>, b: nat)
    requires Count(rs, b) > 0
    ensures exists i :: 0 <= i < |rs| && Has(rs[i], b)
  {
    if Has(rs[|rs| - 1], b) {
    } else {
      CountedByteHasRegion(rs[..|rs| - 1], b);
      var i :| 0 <= i < |rs| - 1 && Has(rs[..|rs| - 1][i], b);
      assert Has(rs[i], b);
    }
  }

  datatype Placement = TooBig | Overflowed | Placed(offset: nat)

  predicate Fits(free: seq<Region>, size: nat) {
    exists i :: 0 <= i < |free| && free[i].size >= size
  }

  /** Handing out a region of fresh bytes, and the chunks cut from the rest of its space. */
  lemma GrantKeepsShard(sh: Shard, granted: seq<Region>, r: Region, rest: Region,
                        size: nat, free: seq<Region>, without: seq<Region>, where: nat)
    requires ShardOk(sh, granted) && where > 0 && sh.size <= size <= MAX_OFFSET && FreeListOk(free)
    requires r.size > 0 && r.offset + r.size <= size
    requires forall b: nat :: Count(free, b) == Count(without, b) + One(rest, b)
    requires forall b: nat :: Count(granted, b) + One(r, b) + One(rest, b) + Count(without, b) == if b < size then 1 else 0
    requires size > sh.size || without != sh.free
    ensures var memory := if size > sh.size then Ensured(sh.memory, size, where) else sh.memory;
      && ShardOk(Shard(size, free, memory), granted + [r])
      && memory.bytes[..sh.size] == sh.memory.bytes[..sh.size]
      && forall b :: r.offset <= b < r.offset + r.size ==> memory.bytes[b] == 0
  {
    hide Count, FreeListOk, Ensured, One;
    var memory := if size > sh.size then Ensured(sh.memory, size, where) else sh.memory;
    forall b: nat ensures Count(granted + [r], b) == Count(granted, b) + One(r, b) { CountPush(granted, r, b); }
    if size > sh.size { EnsuredKeepsBytes(sh.memory, size, where); }
    assert MemoryOk(memory, granted, size) by { MemoryGrown(sh, granted, memory, size); }
    assert MemoryOk(memory, granted + [r], size);
    forall b | r.offset <= b < r.offset + r.size ensures memory.bytes[b] == 0 {
      OneInside(r, b);
      assert Count(granted, b) == 0;
    }
  }

  lemma OneInside(r: Region, b: nat)
    ensures One(r, b) == if r.offset <= b < r.offset + r.size then 1 else 0
  {
  }

  lemma MemoryGrown(sh: Shard, granted: seq<Region>, memory: Buffer, size: nat)
    requires MemoryOk(sh.memory, granted, sh.size) && ExactCover(granted, sh.free, sh.size)
    requires memory.Valid() && memory.length == size >= sh.size
    requires memory.bytes[..sh.size] == sh.memory.bytes[..sh.size]
    requires forall b :: sh.size <= b < size ==> memory.bytes[b] == 0
    ensures MemoryOk(memory, granted, size)
  {
    hide Count;
    forall b | 0 <= b < |memory.bytes| && Count(granted, b) == 0 ensures memory.bytes[b] == 0 {
      if b < sh.size {
        assert memory.bytes[b] == memory.bytes[..sh.size][b] == sh.memory.bytes[..sh.size][b] == sh.memory.bytes[b];
      }
    }
  }

  /** The offset is that of a chunk that fits, and no smaller chunk does. */
  ghost predicate BestFit(free: seq<Region>, size: nat, offset: nat) {
    exists i :: 0 <= i < |free| && free[i].offset == offset && free[i].size >= size
      && forall j :: 0 <= j < |free| && free[j].size >= size ==> free[j].size >= free[i].size
  }

  lemma LowerBoundIsBest(free: seq<Region>, size: nat, i: nat)
    requires FreeListOk(free) && i < |free| && free[i].size >= size
    requires forall j :: 0 <= j < i ==> free[j].size < size
    ensures Fits(free, size) && BestFit(free, size, free[i].offset)
  {
    hide ChunkOk;
  }

  /** Where a value goes: into the smallest free chunk that holds it, else behind the shard. */
  ghost predicate GoesWhere(was: Shard, now: Shard, valueSize: nat, alignment: nat, offset: nat)
    requires alignment > 0
  {
    if Fits(was.free, valueSize) then now.size == was.size && BestFit(was.free, valueSize, offset)
    else offset == AlignUp(was.size, alignment) && now.size == offset + valueSize
  }

  /**
   * The memory part of allocate_element: recycle a chunk, or grow the shard.
   */
  method Place(sh: Shard, ghost granted: seq<Region>, valueSize: nat, alignment: nat, where: nat)
    returns (p: Placement, r: Shard)
    requires ShardOk(sh, granted) && where > 0
    requires SupportedAlignment(alignment) && alignment <= valueSize
    ensures p.TooBig? <==> !Fits(sh.free, valueSize)
                           && (sh.size > MAX_OFFSET - MAX_ALIGNMENT + 1 || valueSize > MAX_OFFSET)
    ensures p.TooBig? ==> r == sh
    ensures p.Overflowed? <==> !p.TooBig? && !Fits(sh.free, valueSize)
                               && AlignUp(sh.size, alignment) + valueSize > MAX_OFFSET
    ensures p.Overflowed? ==> r == sh.(size := AlignUp(sh.size, alignment) + valueSize - (MAX_OFFSET + 1))
    ensures p.Overflowed? ==>
      (ShardOk(r, granted) <==> AlignUp(sh.size, alignment) + valueSize == sh.size + (MAX_OFFSET + 1))
    ensures p.Placed? ==>
      && p.offset % alignment == 0
      && ShardOk(r, granted + [Region(p.offset, valueSize)])
      && sh.size <= r.size <= |r.memory.bytes| && sh.size <= |sh.memory.bytes|
      && r.memory.bytes[..sh.size] == sh.memory.bytes[..sh.size]
      && p.offset + valueSize <= r.size
      && forall b :: p.offset <= b < p.offset + valueSize ==> r.memory.bytes[b] == 0
    ensures p.Placed? ==> GoesWhere(sh, r, valueSize, alignment, p.offset)
  {
    hide Count, One, MemoryOk, ShardOk, ExactCover, BestFit;
    var i := LowerBound(sh.free, valueSize);
    ShardParts(sh, granted);
    if i < |sh.free| {
      var chunk := sh.free[i];
      var valueOffset, freeSize, freeOffset := chunk.offset, chunk.size - valueSize, chunk.offset + valueSize;
      var without := sh.free[..i] + sh.free[i + 1..];
      ChunkServes(chunk, valueSize, alignment);
      LowerBoundIsBest(sh.free, valueSize, i);
      var free, rest := Carve(without, freeOffset, freeSize, chunk.size);
      p := Placed(valueOffset);
      r := Shard(sh.size, free, sh.memory);
      ChunkSplit(sh, granted, i, Region(valueOffset, valueSize), Region(freeOffset, freeSize), without);
      GrantKeepsShard(sh, granted, Region(valueOffset, valueSize), Region(freeOffset, freeSize), sh.size, free, without, where);
    } else {
      if sh.size > MAX_OFFSET - MAX_ALIGNMENT + 1 {
        return TooBig, sh;
      }
      var valueOffset := AlignUp(sh.size, alignment);
      AlignUpBounds(sh.size, alignment);
      var freeOffset, freeSize := sh.size, valueOffset - sh.size;
      if valueSize > MAX_OFFSET {
        return TooBig, sh;
      }
      var size := Truncated(valueOffset + valueSize);
      if valueOffset >= size {
        OverflowBreaksExactly(sh, granted, size);
        return Overflowed, sh.(size := size);
      }
      var memory := Ensured(sh.memory, size, where);
      var free, rest := Carve(sh.free, freeOffset, freeSize, alignment);
      p := Placed(valueOffset);
      r := Shard(size, free, memory);
      GrownSplit(sh, granted, Region(valueOffset, valueSize), Region(freeOffset, freeSize), size);
      GrantKeepsShard(sh, granted, Region(valueOffset, valueSize), Region(freeOffset, freeSize), size, free, sh.free, where);
    }
  }

  /** static_cast<slate_offset_t>. */
  function Truncated(x: nat): (r: nat)
    ensures r <= MAX_OFFSET
    ensures x <= MAX_OFFSET ==> r == x
    ensures MAX_OFFSET < x <= 2 * MAX_OFFSET + 1 ==> r == x - (MAX_OFFSET + 1)
  {
    x % (MAX_OFFSET + 1)
  }

  lemma ShardParts(sh: Shard, granted: seq<Region>)
    requires ShardOk(sh, granted)
    ensures FreeListOk(sh.free) && sh.size <= MAX_OFFSET && sh.memory.Valid() && sh.memory.length == sh.size
  {
  }

  /** A chunk that is large enough is aligned enough, and what is left of it ends aligned. */
  lemma ChunkServes(c: Region, valueSize: nat, alignment: nat)
    requires ChunkOk(c) && SupportedAlignment(alignment) && alignment <= valueSize <= c.size
    ensures SupportedAlignment(c.size) && c.offset % alignment == 0
    ensures c.size - valueSize < c.size && (c.offset + c.size) % c.size == 0
  {
    ChunkAligned(c.offset, c.size, alignment);
  }

  function Quotient(size: nat, a: nat): (t: nat)
    requires ChunkSize(size) && SupportedAlignment(a) && a <= size
    ensures t * a == size
  {
    size / a
  }

  function WholeMultiple(x: nat, size: nat): (q: nat)
    requires size > 0 && x % size == 0
    ensures x == q * size
  {
    x / size
  }

  lemma ChunkAligned(offset: nat, size: nat, a: nat)
    requires ChunkSize(size) && offset % size == 0 && SupportedAlignment(a) && a <= size
    ensures offset % a == 0
    ensures (offset + size) % size == 0
  {
    assert SupportedAlignment(size);
    hide SupportedAlignment, ChunkSize;
    var q, t := WholeMultiple(offset, size), Quotient(size, a);
    assert offset == q * size == q * (t * a);
    Regroup(q, t, 0, a);
    MultipleOf(q * t, a);
    assert offset + size == (q + 1) * size;
    MultipleOf(q + 1, size);
  }

  lemma ChunkSplit(sh: Shard, granted: seq<Region>, i: nat, r: Region, rest: Region, without: seq<Region>)
    requires ShardOk(sh, granted) && i < |sh.free|
    requires without == sh.free[..i] + sh.free[i + 1..]
    requires r.offset == sh.free[i].offset && rest.offset == r.offset + r.size && r.size + rest.size == sh.free[i].size
    requires r.size > 0
    ensures forall b: nat :: Count(granted, b) + One(r, b) + One(rest, b) + Count(without, b) == if b < sh.size then 1 else 0
    ensures r.offset + r.size <= sh.size && without != sh.free && FreeListOk(without)
  {
    hide Count, MemoryOk;
    forall b: nat
      ensures Count(sh.free, b) == One(r, b) + One(rest, b) + Count(without, b)
    {
      CountAt(sh.free, i, b);
      CountConcat(sh.free[..i], sh.free[i + 1..], b);
    }
    var last := r.offset + r.size - 1;
    assert One(r, last) == 1;
    assert Count(granted, last) + Count(sh.free, last) >= 1;
    assert |without| < |sh.free|;
  }

  lemma GrownSplit(sh: Shard, granted: seq<Region>, r: Region, rest: Region, size: nat)
    requires ShardOk(sh, granted) && r.size > 0
    requires rest.offset == sh.size && rest.offset + rest.size == r.offset && r.offset + r.size == size
    ensures forall b: nat :: Count(granted, b) + One(r, b) + One(rest, b) + Count(sh.free, b) == if b < size then 1 else 0
  {
    hide Count, MemoryOk;
  }

  /**
   * What the overflow check leaves behind: the size is written before the check, truncated, and
   * the shard survives that exactly when truncation gives back the size it had.
   */
  lemma OverflowBreaksExactly(sh: Shard, granted: seq<Region>, size: nat)
    requires ShardOk(sh, granted)
    ensures ShardOk(sh.(size := size), granted) <==> size == sh.size
  {
    if size < sh.size {
      assert Count(granted, size) + Count(sh.free, size) == 1;
    } else if size > sh.size {
      assert Count(granted, sh.size) + Count(sh.free, sh.size) == 0;
    }
  }

  /** A shard with one element of n bytes, and nothing else. */
  function OneElement(n: nat, where: nat): (sh: Shard)
  {
    Shard(n, [], Ensured(NO_BUFFER, n, where))
  }

  lemma OneElementOk(n: nat, where: nat)
    requires 0 < n <= MAX_OFFSET && where > 0
    ensures ShardOk(OneElement(n, where), [Region(0, n)])
  {
    hide Ensured;
    EnsuredKeepsBytes(NO_BUFFER, n, where);
    var sh, all := OneElement(n, where), [Region(0, n)];
    forall b: nat ensures Count(all, b) + Count(sh.free, b) == if b < n then 1 else 0 {
      CountNone(b);
      CountPush([], Region(0, n), b);
      assert [] + [Region(0, n)] == all;
    }
    EnsuredZero(n, where);
  }

  lemma EnsuredZero(n: nat, where: nat)
    ensures forall b :: 0 <= b < |Ensured(NO_BUFFER, n, where).bytes| ==> Ensured(NO_BUFFER, n, where).bytes[b] == 0
  {
  }

  /**
   * Both outcomes of that condition occur: behind one byte, the largest request without alignment
   * breaks the shard; behind five, a request aligned to 32 that is 27 short of 2^32 does not.
   */
  lemma OverflowWitnesses(where: nat)
    requires where > 0
    ensures var sh, size := OneElement(1, where), AlignUp(1, 1) + MAX_OFFSET;
      && ShardOk(sh, [Region(0, 1)]) && !Fits(sh.free, MAX_OFFSET) && size > MAX_OFFSET
      && !ShardOk(sh.(size := size - (MAX_OFFSET + 1)), [Region(0, 1)])
    ensures var sh, size := OneElement(5, where), AlignUp(5, 32) + 0xFFFF_FFE5;
      && ShardOk(sh, [Region(0, 5)]) && !Fits(sh.free, 0xFFFF_FFE5) && size > MAX_OFFSET
      && ShardOk(sh.(size := size - (MAX_OFFSET + 1)), [Region(0, 5)])
  {
    hide ShardOk, Ensured;
    OneElementOk(1, where);
    OneElementOk(5, where);
    assert AlignUp(1, 1) == 1 && AlignUp(5, 32) == 32;
    OverflowBreaksExactly(OneElement(1, where), [Region(0, 1)], 0);
  }

  // ---------- the layout ----------

  datatype Meta = Meta(kind: nat, shard: nat, offset: nat, size: nat, policy: nat, subsystem: nat, isView: bool)

  datatype Outcome =
    | Rejected                     // an argument check failed: nothing has changed
    | Overflow                     // the shard size overflowed: the layout is unusable
    | Unregistered                 // memory was granted or a view checked, but the element was refused
    | Created(index: nat)

  /** An element lies inside a region. */
  predicate Inside(m: Meta, r: Region) {
    r.offset <= m.offset && m.offset + m.size <= r.offset + r.size
  }

  /** The bytes of an element in the memory of its shard. */
  function BytesOf(memory: Buffer, m: Meta): (r: seq<Byte>)
    requires m.offset + m.size <= |memory.bytes|
  {
    memory.bytes[m.offset..m.offset + m.size]
  }

  /**
   * Elements and where they are: every element, and every view, also a view of a view, lies inside
   * the granted region of the allocated element it comes from.
   */
  ghost predicate ElementsOk(elements: seq<Meta>, aligns: seq<nat>, owners: seq<nat>,
                             shards: seq<Shard>, granted: seq<seq<Region>>) {
    && |elements| == |aligns| == |owners| && |shards| == |granted|
    && forall i :: 0 <= i < |elements| ==>
         ElementOk(elements[i], aligns[i], owners[i], shards, granted)
  }

  ghost predicate ElementOk(m: Meta, align: nat, owner: nat, shards: seq<Shard>, granted: seq<seq<Region>>)
    requires |shards| == |granted|
  {
    && m.shard < |shards| && owner < |granted[m.shard]|
    && Inside(m, granted[m.shard][owner]) && m.size > 0
    && SupportedAlignment(align) && m.offset % align == 0
    && m.offset + m.size <= shards[m.shard].size <= |shards[m.shard].memory.bytes|
  }

  lemma ElementsKept(elements: seq<Meta>, aligns: seq<nat>, owners: seq<nat>,
                     shards: seq<Shard>, granted: seq<seq<Region>>, s: nat, sh: Shard, r: Region)
    requires ElementsOk(elements, aligns, owners, shards, granted) && s < |shards|
    requires shards[s].size <= sh.size <= |sh.memory.bytes|
    ensures ElementsOk(elements, aligns, owners, shards[s := sh], granted[s := granted[s] + [r]])
  {
    hide Inside, SupportedAlignment;
    forall i | 0 <= i < |elements|
      ensures ElementOk(elements[i], aligns[i], owners[i], shards[s := sh], granted[s := granted[s] + [r]])
    {
      assert ElementOk(elements[i], aligns[i], owners[i], shards, granted);
    }
  }

  lemma BytesKept(elements: seq<Meta>, aligns: seq<nat>, owners: seq<nat>,
                  shards: seq<Shard>, granted: seq<seq<Region>>, s: nat, sh: Shard, i: nat)
    requires ElementsOk(elements, aligns, owners, shards, granted) && s < |shards| && i < |elements|
    requires shards[s].size <= sh.size <= |sh.memory.bytes| && shards[s].size <= |shards[s].memory.bytes|
    requires sh.memory.bytes[..shards[s].size] == shards[s].memory.bytes[..shards[s].size]
    ensures var m := elements[i];
      && m.shard < |shards| && m.offset + m.size <= |shards[s := sh][m.shard].memory.bytes|
      && m.offset + m.size <= |shards[m.shard].memory.bytes|
      && BytesOf(shards[s := sh][m.shard].memory, m) == BytesOf(shards[m.shard].memory, m)
  {
    hide Inside, SupportedAlignment;
    var m := elements[i];
    assert ElementOk(m, aligns[i], owners[i], shards, granted);
    if m.shard == s {
      var n := shards[s].size;
      SliceOfPrefix(sh.memory.bytes, n, m.offset, m.offset + m.size);
      SliceOfPrefix(shards[s].memory.bytes, n, m.offset, m.offset + m.size);
    }
  }

  lemma SliceOfPrefix(s: seq<Byte>, n: nat, lo: nat, hi: nat)
    requires lo <= hi <= n <= |s|
    ensures s[lo..hi] == s[..n][lo..hi]
  {
  }

  const READ_ONLY: nat := 1
  const READ_WRITE: nat := 2

  /** No element is more widely writable than its shard allows. */
  ghost predicate PoliciesKept(elements: seq<Meta>, shardPolicy: seq<nat>)
  {
    forall i :: 0 <= i < |elements| ==>
      elements[i].shard < |shardPolicy| && elements[i].policy <= shardPolicy[elements[i].shard]
  }

  ghost predicate SameRegion(elements: seq<Meta>, owners: seq<nat>, i: nat, j: nat)
    requires i < |elements| == |owners| && j < |elements|
  {
    elements[i].shard == elements[j].shard && owners[i] == owners[j]
  }

  /** No validator is bypassed: a writable element with a validator has its granted region to itself. */
  ghost predicate ValidatorsGuard(elements: seq<Meta>, owners: seq<nat>, validated: set<nat>)
  {
    && |owners| == |elements|
    && (forall i :: i in validated ==> i < |elements|)
    && forall i, j :: i in validated && 0 <= j < |elements| && j != i && SameRegion(elements, owners, i, j) ==>
         elements[i].policy <= READ_ONLY
  }

  /** An element in that region may come in beside the others. */
  ghost predicate Admissible(elements: seq<Meta>, owners: seq<nat>, validated: set<nat>, shardPolicy: seq<nat>,
                             m: Meta, owner: nat, validator: bool)
  {
    && |owners| == |elements|
    && m.shard < |shardPolicy| && m.policy <= shardPolicy[m.shard]
    && forall j :: 0 <= j < |elements| && elements[j].shard == m.shard && owners[j] == owner ==>
         (j in validated ==> elements[j].policy <= READ_ONLY) && (validator ==> m.policy <= READ_ONLY)
  }

  lemma GuardedApart(elements: seq<Meta>, owners: seq<nat>, validated: set<nat>, i: nat)
    requires ValidatorsGuard(elements, owners, validated) && i < |elements|
    ensures forall j :: j in validated ==> j < |elements|
    ensures forall j :: j in validated && j != i && elements[j].policy > READ_ONLY ==>
      (owners[j] != owners[i] || elements[j].shard != elements[i].shard)
  {
    forall j | j in validated && j != i && elements[j].policy > READ_ONLY
      ensures j < |elements| && !SameRegion(elements, owners, j, i)
    {
    }
  }

  lemma FitsSome(free: seq<Region>, size: nat)
    ensures Fits(free, size) <==> exists c :: c in free && c.size >= size
  {
    if c :| c in free && c.size >= size {
      var i :| 0 <= i < |free| && free[i] == c;
    }
  }

  lemma SupportedValues(a: nat)
    ensures SupportedAlignment(a) <==> a in {1, 2, 4, 8, 16, 32}
  {
  }

  lemma GuardGrows(elements: seq<Meta>, owners: seq<nat>, validated: set<nat>, shardPolicy: seq<nat>,
                   m: Meta, owner: nat, validator: bool)
    requires PoliciesKept(elements, shardPolicy) && ValidatorsGuard(elements, owners, validated)
    requires Admissible(elements, owners, validated, shardPolicy, m, owner, validator)
    ensures PoliciesKept(elements + [m], shardPolicy)
    ensures ValidatorsGuard(elements + [m], owners + [owner], validated)
    ensures validator ==> ValidatorsGuard(elements + [m], owners + [owner], validated + {|elements|})
  {
    var es, os := elements + [m], owners + [owner];
    forall i, j | 0 <= i < |es| && 0 <= j < |es| && j != i && SameRegion(es, os, i, j)
      && (i in validated || (validator && i == |elements|))
      ensures es[i].policy <= READ_ONLY
    {
      if i < |elements| && j < |elements| {
        assert SameRegion(elements, owners, i, j);
      }
    }
  }

  /** A region that is granted just now is nobody's yet. */
  lemma FreshIsAdmissible(elements: seq<Meta>, aligns: seq<nat>, owners: seq<nat>, shards: seq<Shard>, granted: seq<seq<Region>>,
                          validated: set<nat>, shardPolicy: seq<nat>, m: Meta, owner: nat, validator: bool)
    requires ElementsOk(elements, aligns, owners, shards, granted) && m.shard < |granted| == |shardPolicy|
    requires owner == |granted[m.shard]| && m.policy <= shardPolicy[m.shard]
    ensures Admissible(elements, owners, validated, shardPolicy, m, owner, validator)
  {
    hide Inside, SupportedAlignment;
    forall j | 0 <= j < |elements| && elements[j].shard == m.shard ensures owners[j] < owner {
      assert ElementOk(elements[j], aligns[j], owners[j], shards, granted);
    }
  }

  /** A view of an element that is read-only or has no validator bypasses none, wherever the element comes from. */
  lemma ViewIsAdmissible(elements: seq<Meta>, owners: seq<nat>, validated: set<nat>, shardPolicy: seq<nat>,
                         m: Meta, parent: nat)
    requires PoliciesKept(elements, shardPolicy) && ValidatorsGuard(elements, owners, validated)
    requires parent < |elements| && m.shard == elements[parent].shard && m.policy == elements[parent].policy
    requires !(parent in validated && elements[parent].policy > READ_ONLY)
    ensures Admissible(elements, owners, validated, shardPolicy, m, owners[parent], false)
  {
    forall j | 0 <= j < |elements| && j in validated && elements[j].shard == m.shard && owners[j] == owners[parent]
      ensures elements[j].policy <= READ_ONLY
    {
      assert SameRegion(elements, owners, j, parent);
    }
  }

  class SlateLayout {
    const shardPolicy: seq<nat>
    const staticShard: nat
    var shards: seq<Shard>
    var elements: seq<Meta>
    var paths: map<string, nat>         // element path to index
    var validated: set<nat>             // indices of elements with a write validator

    /** Granted regions of each shard; per element the requested alignment and the owning region. */
    ghost var Granted: seq<seq<Region>>
    ghost var Aligns: seq<nat>
    ghost var Owners: seq<nat>

    ghost predicate Valid()
      reads this
    {
      && |shardPolicy| == |shards| == |Granted|
      && (forall s :: 0 <= s < |shardPolicy| ==> shardPolicy[s] == if s == staticShard then READ_ONLY else READ_WRITE)
      && (forall s :: 0 <= s < |shards| ==> ShardOk(shards[s], Granted[s]))
      && ElementsOk(elements, Aligns, Owners, shards, Granted)
      && (forall p :: p in paths ==> paths[p] < |elements|)
      && PoliciesKept(elements, shardPolicy) && ValidatorsGuard(elements, Owners, validated)
    }

    /** Static elements are never writable, whatever policy was asked for. */
    lemma StaticIsReadOnly(i: nat)
      requires Valid() && i < |elements| && elements[i].shard == staticShard
      ensures elements[i].policy <= READ_ONLY
    {
      hide ShardOk, ElementsOk, ValidatorsGuard;
    }

    /** What get_element_initial_memory shows of element i. */
    ghost function Contents(i: nat): (r: seq<Byte>)
      requires Valid() && i < |elements|
      reads this
    {
      assert ElementOk(elements[i], Aligns[i], Owners[i], shards, Granted);
      BytesOf(shards[elements[i].shard].memory, elements[i])
    }

    constructor (numShards: nat, staticShard: nat)
      ensures Valid() && elements == [] && |shards| == numShards && paths == map[] && validated == {}
      ensures this.staticShard == staticShard && |shardPolicy| == numShards
      ensures forall s :: 0 <= s < numShards ==>
        shards[s] == Shard(0, [], NO_BUFFER) && shardPolicy[s] == if s == staticShard then READ_ONLY else READ_WRITE
    {
      shardPolicy := seq(numShards, i => if i == staticShard then READ_ONLY else READ_WRITE);
      this.staticShard := staticShard;
      shards := seq(numShards, _ => Shard(0, [], NO_BUFFER));
      elements, paths, validated := [], map[], {};
      Granted := seq(numShards, _ => []);
      Aligns, Owners := [], [];
      new;
      EmptyShardOk();
    }

    /** add_element_and_build_id. */
    method Register(path: string, pathOk: bool, idOk: bool, m: Meta, validator: bool,
                    ghost align: nat, ghost owner: nat) returns (r: Outcome)
      requires Valid() && ElementOk(m, align, owner, shards, Granted)
      requires Admissible(elements, Owners, validated, shardPolicy, m, owner, validator)
      modifies this`elements, this`paths, this`validated, this`Aligns, this`Owners
      ensures Valid()
      ensures r.Created? || r.Unregistered?
      ensures r.Created? <==> path != "" && pathOk && path !in old(paths) && idOk
      ensures r.Created? ==> r.index == |old(elements)| && path in paths && paths[path] == r.index
      ensures validated == old(validated) + if r.Created? && validator then {r.index} else {}
      // the path is taken even if no id can be built for it
      ensures if path == "" || !pathOk || path in old(paths)
        then elements == old(elements) && Aligns == old(Aligns) && Owners == old(Owners) && paths == old(paths)
        else elements == old(elements) + [m] && Aligns == old(Aligns) + [align] && Owners == old(Owners) + [owner]
             && paths == old(paths)[path := |old(elements)|]
    {
      if path == "" || !pathOk || path in paths {
        return Unregistered;
      }
      var index := |elements|;
      hide ElementOk, ShardOk, PoliciesKept, ValidatorsGuard, Admissible;
      GuardGrows(elements, Owners, validated, shardPolicy, m, owner, validator);
      elements := elements + [m];
      Aligns := Aligns + [align];
      Owners := Owners + [owner];
      paths := paths[path := index];
      if !idOk {
        return Unregistered;
      }
      if validator {
        validated := validated + {index};
      }
      return Created(index);
    }

    /** No chunk fits, and the shard or the request is too close to the offset limit to grow. */
    predicate NoRoom(shard: nat, valueSize: nat)
      reads this
    {
      shard < |shards| && !Fits(shards[shard].free, valueSize)
      && (shards[shard].size > MAX_OFFSET - MAX_ALIGNMENT + 1 || valueSize > MAX_OFFSET)
    }

    /** allocate_element. */
    method AllocateElement(path: string, pathOk: bool, idOk: bool, kind: nat, valueSize: nat, alignment: nat,
                           shard: nat, policy: nat, validator: bool, subsystem: nat, where: nat)
      returns (r: Outcome)
      requires Valid() && where > 0
      modifies this
      ensures r.Created? <==> !r.Rejected? && !r.Overflow? && path != "" && pathOk && path !in old(paths) && idOk
      ensures forall p :: p in old(paths) ==> p in paths && paths[p] == old(paths)[p]
      ensures validated == old(validated) + if r.Created? && validator then {r.index} else {}
      ensures r.Rejected? ==> unchanged(this)
      ensures r.Rejected? <==>
        || valueSize == 0 || alignment !in {1, 2, 4, 8, 16, 32} || alignment > valueSize
        || shard >= |old(shards)| || policy > shardPolicy[shard]
        || ((forall c :: c in old(shards)[shard].free ==> c.size < valueSize)
            && (old(shards)[shard].size > 0xFFFF_FFE0 || valueSize > 0xFFFF_FFFF))
      ensures r.Overflow? <==> !r.Rejected? && !Fits(old(shards)[shard].free, valueSize)
                               && AlignUp(old(shards)[shard].size, alignment) + valueSize > MAX_OFFSET
      ensures !r.Overflow? ==> Valid()
      ensures r.Overflow? ==>
        (Valid() <==> AlignUp(old(shards)[shard].size, alignment) + valueSize == old(shards)[shard].size + (MAX_OFFSET + 1))
      ensures !r.Overflow? ==> |elements| >= |old(elements)| && forall i :: 0 <= i < |old(elements)| ==>
        elements[i] == old(elements)[i] && Contents(i) == old(Contents(i))
      ensures r.Created? ==>
        && r.index == |old(elements)| == |elements| - 1 && path !in old(paths) && path in paths && paths[path] == r.index
        && elements[r.index] == Meta(kind, shard, elements[r.index].offset, valueSize, policy, subsystem, false)
        && SupportedAlignment(alignment) && elements[r.index].offset % alignment == 0
        && Contents(r.index) == Zeroes(valueSize)
        && Owners[r.index] == |old(Granted[shard])|
        && |shards| == |old(shards)|
        && GoesWhere(old(shards)[shard], shards[shard], valueSize, alignment, elements[r.index].offset)
      ensures r.Unregistered? ==> shard < |old(Granted)| && Granted[..shard] == old(Granted)[..shard] && shard < |Granted|
                                  && |Granted[shard]| == |old(Granted)[shard]| + 1
    {
      if valueSize == 0 || !SupportedAlignment(alignment) || alignment > valueSize || shard >= |shards| {
        return Rejected;
      }
      if policy > shardPolicy[shard] {
        return Rejected;
      }
      FitsSome(shards[shard].free, valueSize);
      SupportedValues(alignment);
      hide ElementOk, ShardOk, ElementsOk, Fits, AlignUp, SupportedAlignment, BytesOf, GoesWhere, PoliciesKept, ValidatorsGuard, Admissible;
      ghost var wasGranted, wasShards := Granted, shards;
      var p := TakeMemory(shard, valueSize, alignment, where);
      if p.TooBig? {
        return Rejected;
      }
      if p.Overflowed? {
        return Overflow;
      }
      var m := Meta(kind, shard, p.offset, valueSize, policy, subsystem, false);
      ghost var owner := |Granted[shard]| - 1;
      OwnElement(m, alignment, owner, shards, Granted);
      FreshBytes(shards[shard].memory, m);
      FreshIsAdmissible(elements, Aligns, Owners, wasShards, wasGranted, validated, shardPolicy, m, owner, validator);
      r := Register(path, pathOk, idOk, m, validator, alignment, owner);
      assert r.Created? ==> elements[r.index] == m;
    }

    /** Place a value in a shard and take note of the region. */
    method TakeMemory(shard: nat, valueSize: nat, alignment: nat, where: nat) returns (p: Placement)
      requires Valid() && where > 0 && shard < |shards|
      requires SupportedAlignment(alignment) && alignment <= valueSize
      modifies this`shards, this`Granted
      ensures |Granted| == |old(Granted)| && |shards| == |old(shards)|
      ensures p.TooBig? <==> old(NoRoom(shard, valueSize))
      ensures p.TooBig? ==> shards == old(shards) && Granted == old(Granted)
      ensures p.Overflowed? <==> !p.TooBig? && !Fits(old(shards)[shard].free, valueSize)
                                 && AlignUp(old(shards)[shard].size, alignment) + valueSize > MAX_OFFSET
      ensures p.Overflowed? ==>
        (Valid() <==> AlignUp(old(shards)[shard].size, alignment) + valueSize == old(shards)[shard].size + (MAX_OFFSET + 1))
      ensures !p.Overflowed? ==> Valid() && forall i :: 0 <= i < |elements| ==> Contents(i) == old(Contents(i))
      ensures p.Placed? ==>
        && p.offset % alignment == 0
        && Granted == old(Granted)[shard := old(Granted)[shard] + [Region(p.offset, valueSize)]]
        && p.offset + valueSize <= shards[shard].size <= |shards[shard].memory.bytes|
        && forall b :: p.offset <= b < p.offset + valueSize ==> shards[shard].memory.bytes[b] == 0
      ensures p.Placed? ==> GoesWhere(old(shards)[shard], shards[shard], valueSize, alignment, p.offset)
    {
      hide ElementOk, ShardOk, ElementsOk, Fits, AlignUp, SupportedAlignment, GoesWhere, PoliciesKept, ValidatorsGuard;
      SizeInMemory(shards[shard], Granted[shard]);
      var sh;
      p, sh := Place(shards[shard], Granted[shard], valueSize, alignment, where);
      if p.Overflowed? {
        shards := shards[shard := sh];
        if sh.size == old(shards)[shard].size {
          assert shards == old(shards);
        } else {
          assert !ShardOk(shards[shard], Granted[shard]);
        }
      } else if p.Placed? {
        Grant(shard, sh, Region(p.offset, valueSize));
      }
    }

    /** The shard after a region has been handed out. */
    method Grant(shard: nat, sh: Shard, ghost region: Region)
      requires Valid() && shard < |shards| && ShardOk(sh, Granted[shard] + [region])
      requires shards[shard].size <= sh.size <= |sh.memory.bytes| && shards[shard].size <= |shards[shard].memory.bytes|
      requires sh.memory.bytes[..shards[shard].size] == shards[shard].memory.bytes[..shards[shard].size]
      modifies this`shards, this`Granted
      ensures Valid() && shards == old(shards)[shard := sh]
      ensures Granted == old(Granted)[shard := old(Granted)[shard] + [region]]
      ensures forall i :: 0 <= i < |elements| ==> Contents(i) == old(Contents(i))
    {
      hide ElementOk, ShardOk, ElementsOk, PoliciesKept, ValidatorsGuard;
      ElementsKept(elements, Aligns, Owners, shards, Granted, shard, sh, region);
      forall i | 0 <= i < |elements| ensures KeepsBytes(i, shard, sh) {
        BytesKept(elements, Aligns, Owners, shards, Granted, shard, sh, i);
      }
      shards := shards[shard := sh];
      Granted := Granted[shard := Granted[shard] + [region]];
      forall i | 0 <= i < |elements| ensures Contents(i) == old(Contents(i)) {
        assert old(KeepsBytes(i, shard, sh));
      }
    }

    /** The checks of create_view_element, in the order of the source. */
    method CheckView(parent: nat, parentKind: nat, elementOffset: nat, valueSize: nat, alignment: nat)
      returns (ok: bool)
      ensures ok <==>
        && valueSize > 0 && SupportedAlignment(alignment)
        && parent < |elements| && elements[parent].kind == parentKind
        && !(parent in validated && elements[parent].policy > READ_ONLY)
        && elementOffset + valueSize <= elements[parent].size
        && (elements[parent].offset + elementOffset) % alignment == 0
    {
      if valueSize == 0 || !SupportedAlignment(alignment) {
        return false;
      }
      if parent >= |elements| || elements[parent].kind != parentKind {
        return false;
      }
      var p := elements[parent];
      if parent in validated && p.policy > READ_ONLY {
        return false;
      }
      if elementOffset > p.size || valueSize > p.size || elementOffset + valueSize > p.size {
        return false;
      }
      return (p.offset + elementOffset) % alignment == 0;
    }

    /** create_view_element: the parent may itself be a view. */
    method CreateView(parent: nat, parentKind: nat, elementOffset: nat, path: string, pathOk: bool, idOk: bool,
                      kind: nat, valueSize: nat, alignment: nat, subsystem: nat)
      returns (r: Outcome)
      requires Valid()
      modifies this`elements, this`paths, this`validated, this`Aligns, this`Owners
      ensures Valid()
      ensures r.Created? <==> !r.Rejected? && path != "" && pathOk && path !in old(paths) && idOk
      ensures r.Created? ==> path in paths && paths[path] == r.index
      ensures forall p :: p in old(paths) ==> p in paths && paths[p] == old(paths)[p]
      ensures validated == old(validated)
      ensures r.Rejected? ==> unchanged(this)
      ensures |elements| >= |old(elements)| && forall i :: 0 <= i < |old(elements)| ==>
        elements[i] == old(elements)[i] && Contents(i) == old(Contents(i))
      ensures r.Created? ==>
        && r.index == |old(elements)| == |elements| - 1 && parent < |old(elements)|
        && elements[r.index] == Meta(kind, elements[parent].shard, elements[parent].offset + elementOffset, valueSize,
                                     elements[parent].policy, subsystem, true)
        && Owners[r.index] == old(Owners)[parent]
        && elementOffset + valueSize <= elements[parent].size
        && Contents(r.index) == Contents(parent)[elementOffset..elementOffset + valueSize]
        && SupportedAlignment(alignment) && elements[r.index].offset % alignment == 0
      ensures r.Rejected? <==>
        || valueSize == 0 || alignment !in {1, 2, 4, 8, 16, 32}
        || parent >= |old(elements)| || old(elements)[parent].kind != parentKind
        || (parent in old(validated) && old(elements)[parent].policy > READ_ONLY)
        || elementOffset + valueSize > old(elements)[parent].size
        || (old(elements)[parent].offset + elementOffset) % alignment != 0
      ensures !r.Overflow?
    {
      SupportedValues(alignment);
      hide SupportedAlignment, ShardOk, ElementsOk, ElementOk, BytesOf, PoliciesKept, ValidatorsGuard, Admissible;
      var ok := CheckView(parent, parentKind, elementOffset, valueSize, alignment);
      if !ok {
        return Rejected;
      }
      var p := elements[parent];
      var m := Meta(kind, p.shard, p.offset + elementOffset, valueSize, p.policy, subsystem, true);
      ElementAt(elements, Aligns, Owners, shards, Granted, parent);
      PartOfElement(p, m, elementOffset, Aligns[parent], alignment, Owners[parent], shards, Granted);
      ViewIsAdmissible(elements, Owners, validated, shardPolicy, m, parent);
      r := Register(path, pathOk, idOk, m, false, alignment, Owners[parent]);
    }

    /** get_element_initial_memory. */
    method GetInitialMemory(i: nat, kind: nat) returns (ok: bool, data: seq<Byte>)
      requires Valid()
      ensures ok <==> i < |elements| && elements[i].kind == kind
      ensures ok ==> data == Contents(i) && |data| == elements[i].size
    {
      if i >= |elements| || elements[i].kind != kind {
        return false, [];
      }
      assert ElementOk(elements[i], Aligns[i], Owners[i], shards, Granted);
      var m := elements[i];
      return true, shards[m.shard].memory.bytes[m.offset..m.offset + m.size];
    }

    /** A client stores a value through the pointer it was given. */
    method Store(i: nat, data: seq<Byte>)
      requires Valid() && i < |elements| && |data| == elements[i].size
      modifies this`shards
      ensures Valid() && |shards| == |old(shards)|
      // every element, parent and view shows exactly the written bytes that lie inside it
      ensures forall j :: 0 <= j < |elements| ==>
        Contents(j) == Patched(old(Contents(j)), elements[j], elements[i], data)
      ensures Contents(i) == data
      ensures forall j :: 0 <= j < |elements| && Owners[j] != Owners[i] ==> Contents(j) == old(Contents(j))
      ensures forall j :: 0 <= j < |elements| && elements[j].shard != elements[i].shard ==> Contents(j) == old(Contents(j))
      // so no store through another element gets past the validator of a writable element
      ensures forall j :: j in validated && j != i && elements[j].policy > READ_ONLY ==> Contents(j) == old(Contents(j))
    {
      var m := elements[i];
      assert ElementOk(m, Aligns[i], Owners[i], shards, Granted);
      GuardedApart(elements, Owners, validated, i);
      hide SupportedAlignment, ShardOk, ElementsOk, Inside, PoliciesKept, ValidatorsGuard;
      var sh := shards[m.shard];
      var bytes := sh.memory.bytes[..m.offset] + data + sh.memory.bytes[m.offset + m.size..];
      var stored := sh.(memory := sh.memory.(bytes := bytes));
      StoreKeepsShard(sh, Granted[m.shard], m, Owners[i], bytes);
      StoreKeepsElements(elements, Aligns, Owners, shards, Granted, m.shard, stored);
      forall j | 0 <= j < |elements| && (Owners[j] != Owners[i] || elements[j].shard != m.shard)
        ensures KeepsBytes(j, m.shard, stored)
      {
        StoreKeepsOthers(elements, Aligns, Owners, shards, Granted, i, j, bytes);
      }
      assert BytesOf(stored.memory, m) == data;
      forall j | 0 <= j < |elements| ensures ShowsPatch(j, m, stored, data) {
        ElementAt(elements, Aligns, Owners, shards, Granted, j);
        if elements[j].shard == m.shard {
          PatchedBytes(sh.memory, m, elements[j], data);
        } else {
          PatchedElsewhere(BytesOf(shards[elements[j].shard].memory, elements[j]), m, elements[j], data);
        }
      }
      shards := shards[m.shard := stored];
      forall j | 0 <= j < |elements| ensures Contents(j) == Patched(old(Contents(j)), elements[j], m, data) {
        assert old(ShowsPatch(j, m, stored, data));
      }
    }

    /** With shard sh in place of its shard, element j shows what it did, with the data of m written over it. */
    ghost predicate ShowsPatch(j: nat, m: Meta, sh: Shard, data: seq<Byte>)
      requires j < |elements| && m.shard < |shards|
      reads this
    {
      var q := elements[j];
      && q.shard < |shards| && q.offset + q.size <= |shards[m.shard := sh][q.shard].memory.bytes|
      && q.offset + q.size <= |shards[q.shard].memory.bytes| && |data| == m.size
      && BytesOf(shards[m.shard := sh][q.shard].memory, q) == Patched(BytesOf(shards[q.shard].memory, q), q, m, data)
    }

    ghost predicate KeepsBytes(i: nat, s: nat, sh: Shard)
      requires i < |elements| && s < |shards|
      reads this
    {
      var m := elements[i];
      && m.shard < |shards| && m.offset + m.size <= |shards[s := sh][m.shard].memory.bytes|
      && m.offset + m.size <= |shards[m.shard].memory.bytes|
      && BytesOf(shards[s := sh][m.shard].memory, m) == BytesOf(shards[m.shard].memory, m)
    }
  }

  /** An aligned part of an element lies in the region of the element, and shows that part of its bytes. */
  lemma PartOfElement(p: Meta, m: Meta, offset: nat, align: nat, alignment: nat, owner: nat,
                      shards: seq<Shard>, granted: seq<seq<Region>>)
    requires |shards| == |granted| && ElementOk(p, align, owner, shards, granted)
    requires m.shard == p.shard && m.offset == p.offset + offset && m.size > 0 && offset + m.size <= p.size
    requires SupportedAlignment(alignment) && m.offset % alignment == 0
    ensures ElementOk(m, alignment, owner, shards, granted)
    ensures BytesOf(shards[p.shard].memory, m) == BytesOf(shards[p.shard].memory, p)[offset..offset + m.size]
  {
    hide SupportedAlignment;
  }

  /** The bytes of element q after data has been written to element m. */
  function Patched(bytes: seq<Byte>, q: Meta, m: Meta, data: seq<Byte>): (r: seq<Byte>)
    requires |bytes| == q.size && |data| == m.size
    ensures |r| == |bytes|
  {
    seq(|bytes|, b requires 0 <= b < |bytes| =>
      if q.shard == m.shard && m.offset <= q.offset + b < m.offset + m.size
      then data[q.offset + b - m.offset] else bytes[b])
  }

  lemma PatchedBytes(memory: Buffer, m: Meta, q: Meta, data: seq<Byte>)
    requires q.shard == m.shard && |data| == m.size
    requires m.offset + m.size <= |memory.bytes| && q.offset + q.size <= |memory.bytes|
    ensures var bytes := memory.bytes[..m.offset] + data + memory.bytes[m.offset + m.size..];
      && |bytes| == |memory.bytes|
      && BytesOf(memory.(bytes := bytes), q) == Patched(BytesOf(memory, q), q, m, data)
  {
    var bytes := memory.bytes[..m.offset] + data + memory.bytes[m.offset + m.size..];
    var now, patched := BytesOf(memory.(bytes := bytes), q), Patched(BytesOf(memory, q), q, m, data);
    forall b | 0 <= b < q.size ensures now[b] == patched[b] {
      assert now[b] == bytes[q.offset + b];
      SpliceAt(memory.bytes, data, m.offset, q.offset + b);
    }
  }

  lemma SpliceAt(s: seq<Byte>, data: seq<Byte>, lo: nat, b: nat)
    requires lo + |data| <= |s| && b < |s|
    ensures (s[..lo] + data + s[lo + |data|..])[b] == if lo <= b < lo + |data| then data[b - lo] else s[b]
  {
  }

  lemma PatchedElsewhere(bytes: seq<Byte>, m: Meta, q: Meta, data: seq<Byte>)
    requires q.shard != m.shard && |data| == m.size && |bytes| == q.size
    ensures Patched(bytes, q, m, data) == bytes
  {
  }

  /** Writing inside a granted region leaves ungranted memory zero. */
  lemma StoreKeepsShard(sh: Shard, granted: seq<Region>, m: Meta, owner: nat, bytes: seq<Byte>)
    requires ShardOk(sh, granted) && owner < |granted| && Inside(m, granted[owner])
    requires m.offset + m.size <= sh.size <= |sh.memory.bytes| == |bytes|
    requires bytes[..m.offset] == sh.memory.bytes[..m.offset]
    requires bytes[m.offset + m.size..] == sh.memory.bytes[m.offset + m.size..]
    ensures ShardOk(sh.(memory := sh.memory.(bytes := bytes)), granted)
  {
    hide Count, FreeListOk, ExactCover;
    var end := m.offset + m.size;
    forall b | 0 <= b < |bytes| && (b < m.offset || b >= end) ensures bytes[b] == sh.memory.bytes[b] {
      if b < m.offset {
        assert bytes[..m.offset][b] == sh.memory.bytes[..m.offset][b];
      } else {
        assert bytes[end..][b - end] == sh.memory.bytes[end..][b - end];
      }
    }
    forall b | m.offset <= b < end ensures Count(granted, b) > 0 {
      CountAt(granted, owner, b);
    }
  }

  lemma StoreKeepsElements(elements: seq<Meta>, aligns: seq<nat>, owners: seq<nat>,
                           shards: seq<Shard>, granted: seq<seq<Region>>, s: nat, sh: Shard)
    requires ElementsOk(elements, aligns, owners, shards, granted) && s < |shards|
    requires shards[s].size == sh.size && |shards[s].memory.bytes| == |sh.memory.bytes|
    ensures ElementsOk(elements, aligns, owners, shards[s := sh], granted)
  {
    hide Inside, SupportedAlignment;
    forall i | 0 <= i < |elements|
      ensures ElementOk(elements[i], aligns[i], owners[i], shards[s := sh], granted)
    {
      assert ElementOk(elements[i], aligns[i], owners[i], shards, granted);
    }
  }

  /** Elements of different granted regions share no byte. */
  lemma StoreKeepsOthers(elements: seq<Meta>, aligns: seq<nat>, owners: seq<nat>, shards: seq<Shard>,
                         granted: seq<seq<Region>>, i: nat, j: nat, bytes: seq<Byte>)
    requires ElementsOk(elements, aligns, owners, shards, granted) && i < |elements| && j < |elements|
    requires owners[j] != owners[i] || elements[j].shard != elements[i].shard
    requires elements[i].shard < |shards| && ShardOk(shards[elements[i].shard], granted[elements[i].shard])
    requires var m, mem := elements[i], shards[elements[i].shard].memory;
      && m.offset + m.size <= |mem.bytes| == |bytes|
      && bytes[..m.offset] == mem.bytes[..m.offset] && bytes[m.offset + m.size..] == mem.bytes[m.offset + m.size..]
    ensures var m, q, s := elements[i], elements[j], elements[i].shard;
      var sh := shards[s].(memory := shards[s].memory.(bytes := bytes));
      && q.shard < |shards| && q.offset + q.size <= |shards[s := sh][q.shard].memory.bytes|
      && q.offset + q.size <= |shards[q.shard].memory.bytes|
      && BytesOf(shards[s := sh][q.shard].memory, q) == BytesOf(shards[q.shard].memory, q)
  {
    hide SupportedAlignment, Count, FreeListOk, ExactCover, MemoryOk, ShardOk, ElementsOk;
    var m, q := elements[i], elements[j];
    var s := m.shard;
    ElementAt(elements, aligns, owners, shards, granted, i);
    ElementAt(elements, aligns, owners, shards, granted, j);
    if q.shard == s {
      GrantsApart(shards[s], granted[s], owners[i], owners[j]);
      var mem, end := shards[s].memory, m.offset + m.size;
      forall b | q.offset <= b < q.offset + q.size ensures bytes[b] == mem.bytes[b] {
        assert Has(granted[s][owners[j]], b) && !Has(granted[s][owners[i]], b);
        if b < m.offset {
          assert bytes[..m.offset][b] == mem.bytes[..m.offset][b];
        } else {
          assert bytes[end..][b - end] == mem.bytes[end..][b - end];
        }
      }
    }
  }

  lemma ElementAt(elements: seq<Meta>, aligns: seq<nat>, owners: seq<nat>, shards: seq<Shard>,
                  granted: seq<seq<Region>>, i: nat)
    requires ElementsOk(elements, aligns, owners, shards, granted) && i < |elements|
    ensures |elements| == |aligns| == |owners| && |shards| == |granted|
    ensures ElementOk(elements[i], aligns[i], owners[i], shards, granted)
  {
  }

  lemma GrantsApart(sh: Shard, granted: seq<Region>, i: nat, j: nat)
    requires ShardOk(sh, granted) && i < |granted| && j < |granted| && i != j
    ensures forall b: nat :: !(Has(granted[i], b) && Has(granted[j], b))
  {
    hide ShardOk;
    var all := granted + sh.free;
    assert all[i] == granted[i] && all[j] == granted[j];
    if i < j {
      RegionsAreDisjoint(sh, granted, i, j);
    } else {
      RegionsAreDisjoint(sh, granted, j, i);
    }
  }

  /** The address of an element meets the alignment it was requested with. */
  lemma AddressIsAligned(m: Meta, align: nat, owner: nat, shards: seq<Shard>, granted: seq<seq<Region>>)
    requires |shards| == |granted| && ElementOk(m, align, owner, shards, granted)
    requires shards[m.shard].memory.Valid()
    ensures (shards[m.shard].memory.base + m.offset) % align == 0
  {
    hide Inside, SupportedAlignment;
    AlignedSum(shards[m.shard].memory.base, m.offset, align);
  }

  lemma AlignedSum(base: nat, offset: nat, align: nat)
    requires SupportedAlignment(align) && base % MAX_ALIGNMENT == 0 && offset % align == 0
    ensures (base + offset) % align == 0
  {
    var q, t, k := base / MAX_ALIGNMENT, Cofactor(align), offset / align;
    hide SupportedAlignment;
    assert base == q * MAX_ALIGNMENT == q * (t * align) && offset == k * align;
    Regroup(q, t, k, align);
    MultipleOf(q * t + k, align);
  }

  function Cofactor(a: nat): (t: nat)
    requires SupportedAlignment(a)
    ensures t * a == MAX_ALIGNMENT
  {
    if a == 1 then 32 else if a == 2 then 16 else if a == 4 then 8 else if a == 8 then 4 else if a == 16 then 2 else 1
  }

  lemma Regroup(q: nat, t: nat, k: nat, a: nat)
    ensures q * (t * a) + k * a == (q * t + k) * a
  {
  }

  lemma FreshBytes(memory: Buffer, m: Meta)
    requires m.offset + m.size <= |memory.bytes|
    requires forall b :: m.offset <= b < m.offset + m.size ==> memory.bytes[b] == 0
    ensures BytesOf(memory, m) == Zeroes(m.size)
  {
  }

  lemma EmptyShardOk()
    ensures ShardOk(Shard(0, [], NO_BUFFER), [])
  {
  }

  lemma SizeInMemory(sh: Shard, granted: seq<Region>)
    requires ShardOk(sh, granted)
    ensures sh.size <= |sh.memory.bytes|
  {
  }

  lemma OwnElement(m: Meta, align: nat, owner: nat, shards: seq<Shard>, granted: seq<seq<Region>>)
    requires |shards| == |granted| && m.shard < |shards| && owner < |granted[m.shard]|
    requires granted[m.shard][owner] == Region(m.offset, m.size) && m.size > 0
    requires SupportedAlignment(align) && m.offset % align == 0
    requires m.offset + m.size <= shards[m.shard].size <= |shards[m.shard].memory.bytes|
    ensures ElementOk(m, align, owner, shards, granted)
  {
  }
}
