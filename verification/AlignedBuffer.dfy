/**
 * The growing 32-byte-aligned buffer of vehicle/src/bullwinkle/all/AlignedBuffer.cc.
 *
 * Addresses are numbers.  Where `new char[]` puts the storage is a parameter of the methods.
 */
module AlignedBuffers {
  import opened Common

  type Byte = bv8

  const MAX_ALIGNMENT: nat := 32
  const INITIAL_TOTAL: nat := 3072

  /** `alignment != 0 && (alignment & -alignment) == alignment`, for alignments up to the maximum. */
  predicate SupportedAlignment(a: nat) {
    a == 1 || a == 2 || a == 4 || a == 8 || a == 16 || a == 32
  }

  /** `(x + a - 1) & -a`. */
  function AlignUp(x: nat, a: nat): (r: nat)
    requires a > 0
  {
    (x + a - 1) / a * a
  }

  /** Aligning moves up by less than the alignment, and lands on a multiple of it. */
  lemma AlignUpBounds(x: nat, a: nat)
    requires SupportedAlignment(a)
    ensures x <= AlignUp(x, a) < x + a
    ensures AlignUp(x, a) % a == 0
  {
    var q := (x + a - 1) / a;
    assert x + a - 1 == q * a + (x + a - 1) % a;
    MultipleOf(q, a);
  }

  lemma MultipleOf(q: nat, a: nat)
    requires SupportedAlignment(a)
    ensures (q * a) % a == 0
  {
    if a == 1 {
    } else if a == 2 {
    } else if a == 4 {
    } else if a == 8 {
    } else if a == 16 {
    } else {
    }
  }

  /** A value of the buffer: aligned address (0 for none), all bytes of its capacity, length in use. */
  datatype Buffer = Buffer(base: nat, bytes: seq<Byte>, length: nat)
  {
    ghost predicate Valid() {
      && length <= |bytes|
      && base % MAX_ALIGNMENT == 0
      && (base == 0 ==> bytes == [])
      && forall i :: length <= i < |bytes| ==> bytes[i] == 0
    }
  }

  const NO_BUFFER := Buffer(0, [], 0)

  function Zeroes(n: nat): (r: seq<Byte>) { seq(n, _ => 0) }

  /** Capacity after a request. */
  function NewTotal(total: nat, amount: nat): (r: nat) {
    if total >= amount then total
    else Max(Max(total + total / 2, INITIAL_TOTAL), amount)
  }

  /** Effect of `ensure` on a buffer; where is the address the allocator hands out. */
  function Ensured(b: Buffer, amount: nat, where: nat): (r: Buffer)
    requires b.length <= |b.bytes|
  {
    if |b.bytes| >= amount then b.(length := Max(b.length, amount))
    else
      Buffer(AlignUp(where, MAX_ALIGNMENT),
             b.bytes[..b.length] + Zeroes(NewTotal(|b.bytes|, amount) - b.length),
             amount)
  }

  /** What `ensure` promises: room for the request, old bytes kept, new bytes zero. */
  lemma EnsuredKeepsBytes(b: Buffer, amount: nat, where: nat)
    requires b.Valid() && where > 0
    ensures var r := Ensured(b, amount, where);
      && r.Valid() && r.length == Max(b.length, amount) && |r.bytes| == NewTotal(|b.bytes|, amount)
      && r.bytes[..b.length] == b.bytes[..b.length]
      && forall i :: b.length <= i < r.length ==> r.bytes[i] == 0
  {
    AlignUpBounds(where, MAX_ALIGNMENT);
  }

  // ---------- the cost of growing ----------

  /** Capacity, length in use, and bytes copied by reallocation after a sequence of requests. */
  datatype Growth = Growth(total: nat, length: nat, copied: nat)

  function Grow(g: Growth, amount: nat): (r: Growth) {
    if g.total >= amount then g.(length := Max(g.length, amount))
    else Growth(NewTotal(g.total, amount), amount, g.copied + g.length)
  }

  function Run(amounts: seq<nat>): (r: Growth) {
    if amounts == [] then Growth(0, 0, 0)
    else Grow(Run(amounts[..|amounts| - 1]), amounts[|amounts| - 1])
  }

  function Largest(amounts: seq<nat>): (r: nat) {
    if amounts == [] then 0 else Max(Largest(amounts[..|amounts| - 1]), amounts[|amounts| - 1])
  }

  /**
   * Over any sequence of requests, reallocation copies at most three times the final capacity, and
   * the capacity stays within 3072 bytes or one and a half times the largest request.
   */
  lemma {:induction false} GrowthIsAmortized(amounts: seq<nat>)
    ensures var g := Run(amounts);
      && g.copied <= 3 * g.total
      && g.total <= Max(INITIAL_TOTAL, Largest(amounts) + Largest(amounts) / 2)
      && g.length == Largest(amounts) <= g.total
      && (g.total == 0 || g.total >= INITIAL_TOTAL)
  {
    if amounts != [] {
      GrowthIsAmortized(amounts[..|amounts| - 1]);
    }
  }

  /** The growth record follows a real buffer. */
  lemma GrowthFollowsBuffer(b: Buffer, g: Growth, amount: nat, where: nat)
    requires b.Valid() && where > 0 && g.total == |b.bytes| && g.length == b.length
    ensures var r, h := Ensured(b, amount, where), Grow(g, amount);
      && h.total == |r.bytes| && h.length == r.length
      && h.copied - g.copied == if |b.bytes| >= amount then 0 else b.length
  {
    EnsuredKeepsBytes(b, amount, where);
  }

  // ---------- the class ----------

  class AlignedBuffer {
    var ptr: nat
    var alignedPtr: nat
    var storage: array?<Byte>
    var length: nat
    var total: nat

    /** Bytes that reallocation has copied so far. */
    ghost var Copies: nat

    ghost predicate Valid()
      reads this, storage
    {
      && (storage == null ==> ptr == 0 && alignedPtr == 0 && total == 0)
      && (storage != null ==> ptr > 0 && ptr <= alignedPtr < ptr + MAX_ALIGNMENT && storage.Length == total)
      && State().Valid()
    }

    ghost function State(): (r: Buffer)
      reads this, storage
    {
      Buffer(alignedPtr, if storage == null then [] else storage[..], length)
    }

    ghost function Account(): (r: Growth)
      reads this
    {
      Growth(total, length, Copies)
    }

    constructor ()
      ensures Valid() && State() == NO_BUFFER && storage == null && Account() == Growth(0, 0, 0)
    {
      ptr, alignedPtr, storage, length, total := 0, 0, null, 0, 0;
      Copies := 0;
    }

    /** A larger allocation: the bytes in use, copied one by one, then zeroes. */
    method Copied(newTotal: nat) returns (newStorage: array<Byte>)
      requires Valid() && length <= newTotal
      modifies this`Copies
      ensures fresh(newStorage) && newStorage[..] == State().bytes[..length] + Zeroes(newTotal - length)
      ensures Copies == old(Copies) + length
    {
      newStorage := new Byte[newTotal](_ => 0);
      if storage != null {
        for i := 0 to length
          invariant Copies == old(Copies) + i
          invariant forall j :: 0 <= j < i ==> newStorage[j] == storage[j]
          invariant forall j :: i <= j < newTotal ==> newStorage[j] == 0
        {
          newStorage[i] := storage[i];
          Copies := Copies + 1;
        }
      }
    }

    /** The second half of ensure: a larger storage, to which the bytes in use move. */
    method Reallocate(amount: nat, where: nat)
      requires Valid() && where > 0 && total < amount
      modifies this
      ensures Valid() && fresh(storage)
      ensures State() == Ensured(old(State()), amount, where) && Account() == Grow(old(Account()), amount)
    {
      EnsuredKeepsBytes(State(), amount, where);
      AlignUpBounds(where, MAX_ALIGNMENT);
      hide AlignUp, SupportedAlignment;
      var newTotal := Max(Max(total + total / 2, INITIAL_TOTAL), amount);
      var newStorage := Copied(newTotal);
      ptr := where;
      alignedPtr := AlignUp(where, MAX_ALIGNMENT);
      storage := newStorage;
      length := amount;
      total := newTotal;
    }

    /** ensure: grow by half, or to the request, or to the first allocation, whichever is most. */
    method Ensure(amount: nat, alignment: nat, where: nat) returns (ok: bool)
      requires Valid() && where > 0
      modifies this
      ensures Valid()
      ensures ok <==> alignment in {1, 2, 4, 8, 16, 32}
      // what fits already moves nothing
      ensures ok && amount <= old(total) ==> storage == old(storage) && ptr == old(ptr) && alignedPtr == old(alignedPtr)
      ensures !ok ==> State() == old(State())
      ensures ok ==> State() == Ensured(old(State()), amount, where)
      ensures Account() == if ok then Grow(old(Account()), amount) else old(Account())
      ensures storage == old(storage) || fresh(storage)
    {
      if !SupportedAlignment(alignment) {
        return false;
      }
      EnsuredKeepsBytes(State(), amount, where);
      hide AlignUp, SupportedAlignment;
      if total >= amount {
        length := Max(length, amount);
        return true;
      }
      Reallocate(amount, where);
      return true;
    }

    /** Any sequence of requests to a new buffer: what growing it copies, and how large it gets. */
    method EnsureAll(amounts: seq<nat>, alignment: nat, wheres: seq<nat>)
      requires Valid() && Account() == Growth(0, 0, 0) && SupportedAlignment(alignment)
      requires |wheres| == |amounts| && forall i :: 0 <= i < |wheres| ==> wheres[i] > 0
      modifies this
      ensures Valid() && Account() == Run(amounts)
      ensures Copies <= 3 * total && total <= Max(INITIAL_TOTAL, Largest(amounts) + Largest(amounts) / 2)
    {
      assert amounts[..0] == [];
      for i := 0 to |amounts|
        invariant Valid() && Account() == Run(amounts[..i])
      {
        assert amounts[..i + 1][..i] == amounts[..i];
        var _ := Ensure(amounts[i], alignment, wheres[i]);
      }
      assert amounts[..|amounts|] == amounts;
      GrowthIsAmortized(amounts);
    }

    /** clone: the bytes in use, in a buffer of exactly their size. */
    method Clone(where: nat) returns (r: AlignedBuffer)
      requires Valid() && where > 0
      ensures fresh(r) && r.Valid() && (r.storage == null || fresh(r.storage))
      ensures r.length == length || storage == null
      ensures r.State().bytes == State().bytes[..length] && r.total == length
    {
      r := new AlignedBuffer();
      if storage != null {
        var copy := new Byte[length];
        forall i | 0 <= i < length { copy[i] := storage[i]; }
        AlignUpBounds(where, MAX_ALIGNMENT);
        assert copy[..] == storage[..length] == State().bytes[..length];
        r.ptr := where;
        r.alignedPtr := AlignUp(where, MAX_ALIGNMENT);
        r.storage := copy;
        r.length := length;
        r.total := length;
      }
    }

    /** assign: take the other's storage; assigning a buffer to itself empties it. */
    method Assign(other: AlignedBuffer)
      requires Valid() && other.Valid()
      modifies this, other
      ensures Valid() && other.Valid()
      ensures this != other ==> State() == old(other.State()) && storage == old(other.storage)
      ensures other.State() == NO_BUFFER && other.storage == null
    {
      ptr, alignedPtr, storage := 0, 0, null;
      ptr, alignedPtr, storage := other.ptr, other.alignedPtr, other.storage;
      length, total := other.length, other.total;
      other.ptr, other.alignedPtr, other.storage := 0, 0, null;
      other.length, other.total := 0, 0;
    }
  }
}
