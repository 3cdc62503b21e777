/**
 * The signed and floating-point overloads of ground/drone/util/fast_sort/fast_sort.cc: a key map
 * in place, the unsigned sort, and the inverse map in place.
 */
module SortKeys {
  import opened Common
  import opened RadixSort
  import opened SortTheory

  // ---------- key maps in general ----------

  function MapRecords(f: Record -> Record, recs: seq<Record>): (r: seq<Record>)
    ensures |r| == |recs| && forall i :: 0 <= i < |recs| ==> r[i] == f(recs[i])
  {
    seq(|recs|, i requires 0 <= i < |recs| => f(recs[i]))
  }

  /** f keeps the width and g undoes it, both ways. */
  ghost predicate InverseMaps(f: Record -> Record, g: Record -> Record, k: nat) {
    forall r: Record :: |r| == k ==> |f(r)| == k && |g(r)| == k && g(f(r)) == r && f(g(r)) == r
  }

  function Without(a: seq<Record>, i: nat): (r: seq<Record>)
    requires i < |a|
    ensures |r| == |a| - 1
  {
    a[..i] + a[i + 1..]
  }

  lemma WithoutOne(a: seq<Record>, i: nat)
    requires i < |a|
    ensures multiset(a) == multiset(Without(a, i)) + multiset{a[i]}
  {
    assert a == a[..i] + [a[i]] + a[i + 1..];
  }

  lemma MapWithout(f: Record -> Record, a: seq<Record>, i: nat)
    requires i < |a|
    ensures MapRecords(f, Without(a, i)) == Without(MapRecords(f, a), i)
  {
  }

  /** Mapping respects equality of multisets. */
  lemma {:induction false} MapPermutation(f: Record -> Record, a: seq<Record>, b: seq<Record>)
    requires multiset(a) == multiset(b)
    ensures multiset(MapRecords(f, a)) == multiset(MapRecords(f, b))
    decreases |a|
  {
    hide Without;
    SameLength(a, b);
    if a != [] {
      var x := a[0];
      assert x in multiset(b);
      var i :| 0 <= i < |b| && b[i] == x;
      WithoutOne(a, 0);
      WithoutOne(b, i);
      assert multiset(Without(a, 0)) == multiset(a) - multiset{x};
      assert multiset(Without(b, i)) == multiset(b) - multiset{x};
      MapPermutation(f, Without(a, 0), Without(b, i));
      MapWithout(f, a, 0);
      MapWithout(f, b, i);
      WithoutOne(MapRecords(f, a), 0);
      WithoutOne(MapRecords(f, b), i);
    }
  }

  lemma SameLength(a: seq<Record>, b: seq<Record>)
    requires multiset(a) == multiset(b)
    ensures |a| == |b|
  {
    assert |multiset(a)| == |a| && |multiset(b)| == |b|;
  }

  /** Sorted by a key: what a caller of a signed or float overload sees. */
  ghost predicate IsSortBy(input: seq<Record>, output: seq<Record>, key: Record -> int) {
    && multiset(output) == multiset(input)
    && forall x, y :: 0 <= x < y < |output| ==> key(output[x]) <= key(output[y])
  }

  /** Map, sort unsigned, map back sorts by any key whose order the map turns into unsigned order. */
  lemma SortThroughKeys(f: Record -> Record, g: Record -> Record, key: Record -> int,
                        input: seq<Record>, sorted: seq<Record>, k: nat)
    requires InverseMaps(f, g, k) && AllWide(input, k) && AllWide(sorted, k)
    requires forall r: Record, q: Record :: |r| == |q| == k ==> (Low(f(r), k) <= Low(f(q), k) <==> key(r) <= key(q))
    requires IsSort(MapRecords(f, input), sorted, k)
    ensures IsSortBy(input, MapRecords(g, sorted), key)
  {
    var out := MapRecords(g, sorted);
    MapPermutation(g, sorted, MapRecords(f, input));
    assert MapRecords(g, MapRecords(f, input)) == input;
    forall x, y | 0 <= x < y < |out| ensures key(out[x]) <= key(out[y]) {
      assert f(out[x]) == sorted[x] && f(out[y]) == sorted[y];
    }
  }

  // ---------- mapping a buffer in place ----------

  lemma FlatUpdate(recs: seq<Record>, j: nat, k: nat, r: Record)
    requires j < |recs| && AllWide(recs, k) && |r| == k
    ensures var i := Offset(recs, j);
      && i + k <= |Flat(recs)|
      && Flat(recs[j := r]) == Flat(recs)[..i] + r + Flat(recs)[i + k..]
  {
    hide Flat;
    var next := recs[j := r];
    ThreeParts(recs, j);
    ThreeParts(next, j);
    assert next[..j] == recs[..j] && next[j + 1..] == recs[j + 1..];
    var a, c := Flat(recs[..j]), Flat(recs[j + 1..]);
    assert Flat(recs) == a + recs[j] + c;
    assert Flat(recs)[..|a|] == a && Flat(recs)[|a| + k..] == c;
  }

  lemma ThreeParts(recs: seq<Record>, j: nat)
    requires j < |recs|
    ensures Flat(recs) == Flat(recs[..j]) + recs[j] + Flat(recs[j + 1..])
  {
    hide Flat;
    FlatSplit(recs, j + 1);
    FlatTake(recs, j);
  }

  lemma OffsetUpdate(recs: seq<Record>, j: nat, r: Record)
    requires j < |recs| && |r| == |recs[j]|
    ensures Offset(recs[j := r], j + 1) == Offset(recs, j) + |r|
  {
    hide Flat;
    FlatTake(recs[j := r], j);
    assert recs[j := r][..j] == recs[..j];
  }

  /** The first j records mapped, the others as they were. */
  function Partly(f: Record -> Record, recs: seq<Record>, j: nat): (r: seq<Record>)
    requires j <= |recs|
    ensures |r| == |recs|
  {
    MapRecords(f, recs[..j]) + recs[j..]
  }

  lemma PartlyStep(f: Record -> Record, recs: seq<Record>, j: nat, k: nat)
    requires AllWide(recs, k) && (forall r: Record :: |r| == k ==> |f(r)| == k) && j < |recs|
    ensures AllWide(Partly(f, recs, j), k) && Partly(f, recs, j)[j] == recs[j]
    ensures Partly(f, recs, j + 1) == Partly(f, recs, j)[j := f(recs[j])]
  {
    assert forall i :: 0 <= i < |recs| ==> Partly(f, recs, j)[i] == if i < j then f(recs[i]) else recs[i];
    assert forall i :: 0 <= i < |recs| ==> Partly(f, recs, j + 1)[i] == if i < j + 1 then f(recs[i]) else recs[i];
  }

  lemma PartlyEnds(f: Record -> Record, recs: seq<Record>)
    ensures Partly(f, recs, 0) == recs && Partly(f, recs, |recs|) == MapRecords(f, recs)
  {
    assert recs[..|recs|] == recs;
  }

  /** `p[i] = f(p[i])` for every element: the key-map loops, one record of k bytes at a time. */
  method MapInPlace(p: array<Byte>, f: Record -> Record, ghost recs: seq<Record>, k: nat)
    requires k > 0 && AllWide(recs, k) && p[..] == Flat(recs)
    requires forall r: Record :: |r| == k ==> |f(r)| == k
    modifies p
    ensures p[..] == Flat(MapRecords(f, recs))
  {
    hide Flat, Offset, MapRecords, Partly;
    var i := 0;
    ghost var j := 0;
    ghost var cur := recs;
    PartlyEnds(f, recs);
    OffsetOf(recs, 0, k);
    while i < p.Length
      invariant j <= |recs| && cur == Partly(f, recs, j) && AllWide(cur, k) && |cur| == |recs|
      invariant p[..] == Flat(cur) && i == Offset(cur, j)
      invariant i <= p.Length && (i < p.Length <==> j < |recs|)
      decreases p.Length - i
    {
      PartlyStep(f, recs, j, k);
      RecordAt(p[..], cur, j, k);
      var r := f(p[i..i + k]);
      assert p[i..i + k] == p[..][i..i + k];
      FlatUpdate(cur, j, k, r);
      OffsetUpdate(cur, j, r);
      StoreRecord(p, i, r);
      cur := cur[j := r];
      OffsetOf(cur, j + 1, k);
      i := i + k;
      j := j + 1;
    }
  }

  method StoreRecord(p: array<Byte>, i: nat, r: Record)
    requires i + |r| <= p.Length
    modifies p
    ensures p[..] == old(p[..i]) + r + old(p[i + |r|..])
  {
    forall l | 0 <= l < |r| { p[i + l] := r[l]; }
  }

  // ---------- signed integers ----------

  /** `x ^= 1 << (8k - 1)`: the top bit of the top byte. */
  function FlipSign(r: Record): (q: Record) {
    if r == [] then r else r[|r| - 1 := r[|r| - 1] ^ 0x80]
  }

  /** The two's-complement value of a record. */
  function SignedValue(r: Record): (q: int) {
    Low(r, |r|) - (if r != [] && r[|r| - 1] >= 0x80 then Pow256(|r|) else 0)
  }

  lemma FlipTopBit(x: Byte)
    ensures Index(x ^ 0x80) == if x < 0x80 then Index(x) + 128 else Index(x) - 128
    ensures (x ^ 0x80) ^ 0x80 == x
  {
  }

  lemma {:induction false} LowOfPrefix(r: Record, q: Record, j: nat)
    requires j <= |r| && j <= |q| && r[..j] == q[..j]
    ensures Low(r, j) == Low(q, j)
  {
    if j > 0 {
      assert r[j - 1] == r[..j][j - 1] && q[j - 1] == q[..j][j - 1];
      assert r[..j - 1] == r[..j][..j - 1] && q[..j - 1] == q[..j][..j - 1];
      LowOfPrefix(r, q, j - 1);
    }
  }

  lemma LowTop(r: Record, k: nat)
    requires |r| == k > 0
    ensures Low(r, k) == Low(r, k - 1) + Index(r[k - 1]) * Pow256(k - 1)
    ensures Pow256(k) == 256 * Pow256(k - 1)
  {
  }

  lemma FlipShape(r: Record, k: nat)
    requires |r| == k > 0
    ensures |FlipSign(r)| == k && FlipSign(r)[k - 1] == r[k - 1] ^ 0x80
    ensures Low(FlipSign(r), k - 1) == Low(r, k - 1)
    ensures FlipSign(FlipSign(r)) == r
  {
    FlipTopBit(r[k - 1]);
    LowOfPrefix(r, FlipSign(r), k - 1);
  }

  /** Flipping the sign bit shifts the signed values onto the unsigned ones. */
  lemma FlipSignIsOffset(r: Record, k: nat)
    requires |r| == k > 0
    ensures Low(FlipSign(r), k) == SignedValue(r) + 128 * Pow256(k - 1)
  {
    hide Index, Low, FlipSign;
    var i: int, p: int := Index(r[k - 1]), Pow256(k - 1);
    FlipTopBit(r[k - 1]);
    FlipShape(r, k);
    LowTop(r, k);
    LowTop(FlipSign(r), k);
    SignSplit(i, p);
  }

  lemma SignSplit(i: int, p: int)
    ensures (i + 128) * p == i * p + 128 * p && (i - 128) * p == i * p - 128 * p
  {
  }

  lemma FlipSignMaps(k: nat)
    requires k > 0
    ensures InverseMaps(FlipSign, FlipSign, k)
    ensures forall r: Record, q: Record :: |r| == |q| == k ==>
      (Low(FlipSign(r), k) <= Low(FlipSign(q), k) <==> SignedValue(r) <= SignedValue(q))
  {
    hide FlipSign, SignedValue, Low;
    forall r: Record | |r| == k
      ensures |FlipSign(r)| == k && FlipSign(FlipSign(r)) == r
      ensures Low(FlipSign(r), k) == SignedValue(r) + 128 * Pow256(k - 1)
    {
      FlipShape(r, k);
      FlipSignIsOffset(r, k);
    }
  }

  /** Sort(I8*) .. Sort(I128*). */
  method SortSigned(scratch: array<Byte>, p: array<Byte>, n: nat, k: nat)
    requires Width(k) && p.Length == n * k && scratch.Length == n * k && p != scratch
    modifies p, scratch
    ensures n * k <= WRAP ==> IsSortBy(Records(old(p[..]), n, k), Records(p[..], n, k), SignedValue)
    ensures n * k > WRAP ==> KeysLeftBehind(FlipSign, old(p[..]), old(scratch[..]), p[..], n, k)
  {
    FlipSignMaps(k);
    SortMapped(scratch, p, FlipSign, FlipSign, SignedValue, n, k);
  }

  /** The three steps every mapped overload takes. */
  method SortMapped(scratch: array<Byte>, p: array<Byte>, f: Record -> Record, g: Record -> Record,
                    ghost key: Record -> int, n: nat, k: nat)
    requires Width(k) && p.Length == n * k && scratch.Length == n * k && p != scratch
    requires InverseMaps(f, g, k)
    requires forall r: Record, q: Record :: |r| == |q| == k ==> (Low(f(r), k) <= Low(f(q), k) <==> key(r) <= key(q))
    modifies p, scratch
    ensures n * k <= WRAP ==> IsSortBy(Records(old(p[..]), n, k), Records(p[..], n, k), key)
    ensures n * k > WRAP ==> KeysLeftBehind(f, old(p[..]), old(scratch[..]), p[..], n, k)
  {
    hide Flat, Records, MapRecords, Low, IsSort, IsSortBy, LeftBehind, KeysLeftBehind, InverseMaps;
    MapsKeepWidth(f, g, k);
    ghost var input := Records(p[..], n, k);
    MapInPlace(p, f, input, k);
    ghost var keys := MapRecords(f, input);
    RecordsOfFlat(keys, n, k);
    SortUnsigned(scratch, p, n, k);
    ghost var sorted := Records(p[..], n, k);
    MapInPlace(p, g, sorted, k);
    if n * k <= WRAP {
      SortThroughKeys(f, g, key, input, sorted, k);
    }
    RecordsOfFlat(MapRecords(g, sorted), n, k);
    if n * k > WRAP {
      MappedBack(f, g, sorted, k);
      KeptKeys(f, old(p[..]), old(scratch[..]), p[..], keys, sorted, n, k);
    }
  }

  lemma MapsKeepWidth(f: Record -> Record, g: Record -> Record, k: nat)
    requires InverseMaps(f, g, k)
    ensures forall recs :: AllWide(recs, k) ==> AllWide(MapRecords(f, recs), k) && AllWide(MapRecords(g, recs), k)
    ensures InverseMaps(g, f, k)
  {
  }

  /** What a mapped sort leaves behind past 2^32 bytes: seen through the keys, old bytes. */
  ghost predicate KeysLeftBehind(f: Record -> Record, p0: seq<Byte>, scratch0: seq<Byte>, p1: seq<Byte>, n: nat, k: nat)
  {
    && |p0| == |p1| == n * k
    && LeftBehind(Flat(MapRecords(f, Records(p0, n, k))), scratch0, Flat(MapRecords(f, Records(p1, n, k))), k)
  }

  lemma MappedBack(f: Record -> Record, g: Record -> Record, sorted: seq<Record>, k: nat)
    requires InverseMaps(f, g, k) && AllWide(sorted, k)
    ensures MapRecords(f, MapRecords(g, sorted)) == sorted
  {
  }

  lemma KeptKeys(f: Record -> Record, p0: seq<Byte>, scratch0: seq<Byte>, p1: seq<Byte>,
                 keys: seq<Record>, sorted: seq<Record>, n: nat, k: nat)
    requires n * k > WRAP && |p0| == |scratch0| == |p1| == |Flat(keys)| == |Flat(sorted)| == n * k
    requires keys == MapRecords(f, Records(p0, n, k)) && sorted == MapRecords(f, Records(p1, n, k))
    requires Flat(sorted)[WRAP..] == if k == 1 then scratch0[WRAP..] else Flat(keys)[WRAP..]
    ensures KeysLeftBehind(f, p0, scratch0, p1, n, k)
  {
    hide Flat, Records, MapRecords;
  }

  /** No output that can be left behind for these buffers is a sort of p by the key. */
  ghost predicate UnsortableBy(f: Record -> Record, key: Record -> int, p0: seq<Byte>, scratch0: seq<Byte>, n: nat, k: nat) {
    && |p0| == |scratch0| == n * k
    && forall p1 :: KeysLeftBehind(f, p0, scratch0, p1, n, k) ==> !IsSortBy(Records(p0, n, k), Records(p1, n, k), key)
  }

  lemma SortOfKeys(f: Record -> Record, g: Record -> Record, key: Record -> int,
                   input: seq<Record>, output: seq<Record>, k: nat)
    requires InverseMaps(f, g, k) && AllWide(input, k) && AllWide(output, k)
    requires forall r: Record, q: Record :: |r| == |q| == k ==> (Low(f(r), k) <= Low(f(q), k) <==> key(r) <= key(q))
    requires IsSortBy(input, output, key)
    ensures IsSort(MapRecords(f, input), MapRecords(f, output), k)
  {
    hide Low;
    MapPermutation(f, output, input);
  }

  /**
   * Past 2^32 bytes the mapped sorts lose records as the unsigned ones do, for every length and
   * width: the exact limit carries over to every key that a map turns into unsigned order.
   */
  lemma WrapLosesMappedRecords(f: Record -> Record, g: Record -> Record, key: Record -> int, n: nat, k: nat)
    requires Width(k) && n * k > WRAP && InverseMaps(f, g, k)
    requires forall r: Record, q: Record :: |r| == |q| == k ==> (Low(f(r), k) <= Low(f(q), k) <==> key(r) <= key(q))
    ensures exists p0, scratch0 :: UnsortableBy(f, key, p0, scratch0, n, k)
  {
    hide Flat, Records, MapRecords, Low, IsSort, IsSortBy, LeftBehind, InverseMaps, Width, UnsortableBy;
    WrapLosesRecords(n, k);
    var q0, scratch0 :| Unsortable(q0, scratch0, n, k);
    MapsKeepWidth(f, g, k);
    var keys := Records(q0, n, k);
    var input := MapRecords(g, keys);
    MapLength(g, keys);
    RecordsOfFlat(input, n, k);
    MappedBack(f, g, keys, k);
    TransportUnsortable(f, g, key, input, q0, scratch0, n, k);
  }

  lemma MapLength(f: Record -> Record, recs: seq<Record>)
    ensures |MapRecords(f, recs)| == |recs|
  {
  }

  lemma TransportUnsortable(f: Record -> Record, g: Record -> Record, key: Record -> int, input: seq<Record>,
                            q0: seq<Byte>, scratch0: seq<Byte>, n: nat, k: nat)
    requires Unsortable(q0, scratch0, n, k) && InverseMaps(f, g, k)
    requires forall r: Record, q: Record :: |r| == |q| == k ==> (Low(f(r), k) <= Low(f(q), k) <==> key(r) <= key(q))
    requires |Flat(input)| == n * k && Records(Flat(input), n, k) == input && AllWide(input, k)
    requires MapRecords(f, input) == Records(q0, n, k) && Flat(Records(q0, n, k)) == q0
    ensures UnsortableBy(f, key, Flat(input), scratch0, n, k)
  {
    hide Flat, Records, MapRecords, Low, IsSort, IsSortBy, LeftBehind, InverseMaps;
    MapsKeepWidth(f, g, k);
    forall p1 | KeysLeftBehind(f, Flat(input), scratch0, p1, n, k)
      ensures !IsSortBy(input, Records(p1, n, k), key)
    {
      var after := MapRecords(f, Records(p1, n, k));
      MapLength(f, Records(p1, n, k));
      RecordsOfFlat(after, n, k);
      if IsSortBy(input, Records(p1, n, k), key) {
        SortOfKeys(f, g, key, input, Records(p1, n, k), k);
      }
    }
  }

  /** The limit of the signed sorts. */
  lemma WrapLosesSignedRecords(n: nat, k: nat)
    requires Width(k) && n * k > WRAP
    ensures exists p0, scratch0 :: UnsortableBy(FlipSign, SignedValue, p0, scratch0, n, k)
  {
    FlipSignMaps(k);
    WrapLosesMappedRecords(FlipSign, FlipSign, SignedValue, n, k);
  }

  lemma RecordsOfFlat(recs: seq<Record>, n: nat, k: nat)
    requires |recs| == n && AllWide(recs, k)
    ensures |Flat(recs)| == n * k && Records(Flat(recs), n, k) == recs
  {
    FlatLength(recs, k);
    RecordsUnique(recs, n, k);
  }

  // ---------- floating point ----------

  type Word = bv32

  function LoadWord(r: Record): (q: Word)
    requires |r| == 4
  {
    (r[0] as Word) | ((r[1] as Word) << 8) | ((r[2] as Word) << 16) | ((r[3] as Word) << 24)
  }

  function StoreWord(x: Word): (r: Record) {
    [(x & 0xFF) as Byte, ((x >> 8) & 0xFF) as Byte, ((x >> 16) & 0xFF) as Byte, (x >> 24) as Byte]
  }

  /** `I32(x) >> 31`: all ones for a set sign bit. */
  function SignMask(x: Word): (r: Word) { if x >= 0x8000_0000 then 0xFFFF_FFFF else 0 }

  /** The map before the sort. */
  function KeyOfBits(x: Word): (r: Word) { (x | 0x8000_0000) ^ SignMask(x) }

  /** The map after it. */
  function BitsOfKey(y: Word): (r: Word) { (y & !0x8000_0000) ^ SignMask(!y) }

  function ToKey(r: Record): (q: Record) { if |r| == 4 then StoreWord(KeyOfBits(LoadWord(r))) else r }
  function FromKey(r: Record): (q: Record) { if |r| == 4 then StoreWord(BitsOfKey(LoadWord(r))) else r }

  lemma KeyOfNegative(x: Word)
    requires x >= 0x8000_0000
    ensures KeyOfBits(x) == !x && !x < 0x8000_0000
  {
  }

  lemma KeyOfPositive(x: Word)
    requires x < 0x8000_0000
    ensures KeyOfBits(x) == x ^ 0x8000_0000 && x ^ 0x8000_0000 >= 0x8000_0000
  {
  }

  lemma BitsOfHighKey(y: Word)
    requires y >= 0x8000_0000
    ensures BitsOfKey(y) == y ^ 0x8000_0000 && y ^ 0x8000_0000 < 0x8000_0000
  {
  }

  lemma BitsOfLowKey(y: Word)
    requires y < 0x8000_0000
    ensures BitsOfKey(y) == !y && !y >= 0x8000_0000
  {
  }

  lemma Twice(x: Word)
    ensures !!x == x && (x ^ 0x8000_0000) ^ 0x8000_0000 == x
  {
  }

  /** The key map and its inverse undo each other on all 2^32 bit patterns. */
  lemma KeyMapsInverse(x: Word)
    ensures BitsOfKey(KeyOfBits(x)) == x
    ensures KeyOfBits(BitsOfKey(x)) == x
  {
    hide KeyOfBits, BitsOfKey;
    if x >= 0x8000_0000 {
      KeyThenBitsNegative(x);
      BitsThenKeyHigh(x);
    } else {
      KeyThenBitsPositive(x);
      BitsThenKeyLow(x);
    }
  }

  lemma KeyThenBitsNegative(x: Word)
    requires x >= 0x8000_0000
    ensures BitsOfKey(KeyOfBits(x)) == x
  {
    hide KeyOfBits, BitsOfKey;
    KeyOfNegative(x);
    BitsOfLowKey(!x);
    Twice(x);
  }

  lemma KeyThenBitsPositive(x: Word)
    requires x < 0x8000_0000
    ensures BitsOfKey(KeyOfBits(x)) == x
  {
    hide KeyOfBits, BitsOfKey;
    KeyOfPositive(x);
    BitsOfHighKey(x ^ 0x8000_0000);
    Twice(x);
  }

  lemma BitsThenKeyHigh(y: Word)
    requires y >= 0x8000_0000
    ensures KeyOfBits(BitsOfKey(y)) == y
  {
    hide KeyOfBits, BitsOfKey;
    BitsOfHighKey(y);
    KeyOfPositive(y ^ 0x8000_0000);
    Twice(y);
  }

  lemma BitsThenKeyLow(y: Word)
    requires y < 0x8000_0000
    ensures KeyOfBits(BitsOfKey(y)) == y
  {
    hide KeyOfBits, BitsOfKey;
    BitsOfLowKey(y);
    KeyOfNegative(!y);
    Twice(y);
  }

  lemma WordBytes(r: Record)
    requires |r| == 4
    ensures StoreWord(LoadWord(r)) == r
  {
  }

  lemma BytesWord(x: Word)
    ensures LoadWord(StoreWord(x)) == x
  {
  }

  /** All bits of all bytes inverted. */
  function Complement(r: Record): (c: Record)
    ensures |c| == |r|
  {
    seq(|r|, i requires 0 <= i < |r| => !r[i])
  }

  lemma ComplementWord(r: Record)
    requires |r| == 4
    ensures LoadWord(Complement(r)) == !LoadWord(r)
  {
    ComplementBits(r[0], r[1], r[2], r[3]);
  }

  lemma ComplementBits(b0: Byte, b1: Byte, b2: Byte, b3: Byte)
    ensures !((b0 as Word) | ((b1 as Word) << 8) | ((b2 as Word) << 16) | ((b3 as Word) << 24)) ==
            ((!b0 as Word) | ((!b1 as Word) << 8) | ((!b2 as Word) << 16) | ((!b3 as Word) << 24))
  {
  }

  lemma FlipWord(r: Record)
    requires |r| == 4
    ensures LoadWord(FlipSign(r)) == LoadWord(r) ^ 0x8000_0000
  {
    FlipBits(r[0], r[1], r[2], r[3]);
  }

  lemma FlipBits(b0: Byte, b1: Byte, b2: Byte, b3: Byte)
    ensures ((b0 as Word) | ((b1 as Word) << 8) | ((b2 as Word) << 16) | ((b3 as Word) << 24)) ^ 0x8000_0000 ==
            ((b0 as Word) | ((b1 as Word) << 8) | ((b2 as Word) << 16) | (((b3 ^ 0x80) as Word) << 24))
  {
  }

  lemma SignByte(r: Record)
    requires |r| == 4
    ensures LoadWord(r) < 0x8000_0000 <==> r[3] < 0x80
  {
  }

  /** On bytes, the key of a positive float flips its sign bit, that of a negative one all bits. */
  lemma ToKeyBytes(r: Record)
    requires |r| == 4
    ensures ToKey(r) == if r[3] < 0x80 then FlipSign(r) else Complement(r)
  {
    hide StoreWord, LoadWord, KeyOfBits, FlipSign, Complement;
    SignByte(r);
    if r[3] < 0x80 {
      KeyOfPositive(LoadWord(r));
      FlipWord(r);
      FlipLength(r);
      WordBytes(FlipSign(r));
    } else {
      KeyOfNegative(LoadWord(r));
      ComplementWord(r);
      WordBytes(Complement(r));
    }
  }

  lemma FlipLength(r: Record)
    ensures |FlipSign(r)| == |r|
  {
  }

  lemma FloatMapsInverse()
    ensures InverseMaps(ToKey, FromKey, 4)
  {
    hide StoreWord, LoadWord, KeyOfBits, BitsOfKey;
    forall r: Record | |r| == 4
      ensures |ToKey(r)| == 4 && |FromKey(r)| == 4 && FromKey(ToKey(r)) == r && ToKey(FromKey(r)) == r
    {
      var x := LoadWord(r);
      StoredLength(KeyOfBits(x));
      StoredLength(BitsOfKey(x));
      BytesWord(KeyOfBits(x));
      BytesWord(BitsOfKey(x));
      KeyMapsInverse(x);
      WordBytes(r);
    }
  }

  lemma StoredLength(x: Word)
    ensures |StoreWord(x)| == 4
  {
  }

  // ---------- the order of floating-point numbers ----------

  const SIGN: nat := 0x8000_0000
  const UNIT: nat := 0x80_0000      // 2^23, the weight of the exponent field
  const INFINITY: nat := 255 * UNIT

  predicate Negative(x: nat) { x >= SIGN }
  function Magnitude(x: nat): (r: nat) { if Negative(x) then x - SIGN else x }
  predicate NaN(x: nat) { Magnitude(x) > INFINITY }

  /**
   * The absolute value of a number that is not a NaN, in units of 2^-149; infinity gets the value
   * its encoding would have as a number, which is above all finite ones.
   */
  function AbsValue(m: nat): (r: nat) {
    var e, f := m / UNIT, m % UNIT;
    if e == 0 then f else (UNIT + f) * Pow2(e - 1)
  }

  function NumericValue(x: nat): (r: int) {
    if Negative(x) then 0 - AbsValue(Magnitude(x)) else AbsValue(Magnitude(x))
  }

  /** Some encodings: 1, -1, 2, 1.5, the smallest numbers, the infinities and NaNs of both signs. */
  lemma KnownFloats()
    ensures var one := NumericValue(0x3F80_0000);
      && one > 0 && NumericValue(0xBF80_0000) == -one
      && NumericValue(0x4000_0000) == 2 * one && 2 * NumericValue(0x3FC0_0000) == 3 * one
    ensures NumericValue(1) == 1 && NumericValue(0x8000_0001) == -1
    ensures NumericValue(0) == NumericValue(0x8000_0000) == 0
    ensures !NaN(0x7F80_0000) && !NaN(0xFF80_0000) && NaN(0x7F80_0001) && NaN(0xFFC0_0000)
  {
    Pow2Doubles(126);
    hide Pow2;
    assert AbsValue(0x3F80_0000) == UNIT * Pow2(126) && AbsValue(0x4000_0000) == UNIT * Pow2(127);
    assert AbsValue(0x3FC0_0000) == (UNIT + 0x40_0000) * Pow2(126);
  }

  /** totalOrder of section 5.10 of IEEE 754-2019, on the bits of binary32. */
  predicate TotalOrder(x: nat, y: nat) {
    if !NaN(x) && !NaN(y) then
      // numbers by value; equal numbers are identical, or zeroes, and -0 is below +0
      NumericValue(x) < NumericValue(y)
      || (NumericValue(x) == NumericValue(y) && (Negative(x) || !Negative(y)))
    else if !NaN(x) then !Negative(y)
    else if !NaN(y) then Negative(x)
    // two NaNs: by sign, then by quiet bit and payload, which reverse for negative ones
    else if Negative(x) != Negative(y) then Negative(x)
    else if Negative(x) then Magnitude(x) >= Magnitude(y)
    else Magnitude(x) <= Magnitude(y)
  }

  lemma {:induction false} Pow2Monotone(a: nat, b: nat)
    requires a <= b
    ensures Pow2(a) <= Pow2(b)
    decreases b
  {
    if a < b { Pow2Monotone(a, b - 1); }
  }

  /** Larger encodings are larger numbers. */
  lemma AbsValueMonotone(m: nat, n: nat)
    requires m < n
    ensures AbsValue(m) < AbsValue(n)
  {
    var e, f, g, h := m / UNIT, m % UNIT, n / UNIT, n % UNIT;
    assert m == e * UNIT + f && n == g * UNIT + h;
    if e == g {
      if e > 0 {
        Scale(UNIT + f, UNIT + h, Pow2(e - 1));
      }
    } else {
      assert e < g;
      Pow2Monotone(e, g - 1);
      Scale(UNIT, UNIT + h + 1, Pow2(g - 1));
      Scale0(Pow2(e), Pow2(g - 1));
      if e > 0 {
        Scale(UNIT + f, 2 * UNIT, Pow2(e - 1));
      }
    }
  }

  lemma Scale(a: nat, b: nat, p: nat)
    requires a < b && p > 0
    ensures a * p < b * p
    ensures a * p <= (b - 1) * p
  {
  }

  lemma Scale0(p: nat, q: nat)
    requires p <= q
    ensures UNIT * p <= UNIT * q
  {
  }

  function KeyValue(x: nat): (r: int) { if Negative(x) then 2 * SIGN - 1 - x else x + SIGN }

  /** The key order is exactly the total order. */
  lemma KeyOrderIsTotalOrder(x: nat, y: nat)
    requires x < 2 * SIGN && y < 2 * SIGN
    ensures TotalOrder(x, y) <==> KeyValue(x) <= KeyValue(y)
  {
    hide AbsValue;
    var m, n := Magnitude(x), Magnitude(y);
    if m < n { AbsValueMonotone(m, n); }
    if n < m { AbsValueMonotone(n, m); }
    ZeroValue(m);
    ZeroValue(n);
  }

  lemma ZeroValue(m: nat)
    ensures AbsValue(0) == 0
    ensures m > 0 ==> AbsValue(m) > 0
  {
    if m > 0 { AbsValueMonotone(0, m); }
  }

  function FloatBits(r: Record): (q: nat) { Low(r, 4) }
  function FloatKey(r: Record): (q: int) { KeyValue(FloatBits(r)) }

  lemma LowOfFour(r: Record)
    requires |r| == 4
    ensures Low(r, 4) == Index(r[0]) + 256 * Index(r[1]) + 65536 * Index(r[2]) + 16777216 * Index(r[3])
  {
    hide Index;
    assert Pow256(0) == 1 && Pow256(1) == 256 && Pow256(2) == 65536 && Pow256(3) == 16777216;
    assert Low(r, 0) == 0;
    assert Low(r, 1) == Index(r[0]);
    assert Low(r, 2) == Low(r, 1) + 256 * Index(r[1]);
    assert Low(r, 3) == Low(r, 2) + 65536 * Index(r[2]);
  }

  lemma ComplementIndex(x: Byte)
    ensures Index(!x) == 255 - Index(x)
  {
  }

  lemma SignIndex(x: Byte)
    ensures x < 0x80 <==> Index(x) < 128
  {
  }

  lemma FlipBytes(r: Record)
    requires |r| == 4
    ensures |FlipSign(r)| == 4 && FlipSign(r)[..3] == r[..3]
    ensures Index(FlipSign(r)[3]) == if Index(r[3]) < 128 then Index(r[3]) + 128 else Index(r[3]) - 128
  {
    hide Index;
    SignIndex(r[3]);
    FlipTopBit(r[3]);
  }

  lemma ComplementBytes(r: Record)
    requires |r| == 4
    ensures |Complement(r)| == 4
    ensures forall i :: 0 <= i < 4 ==> Index(Complement(r)[i]) == 255 - Index(r[i])
  {
    hide Index;
    forall i | 0 <= i < 4 ensures Index(Complement(r)[i]) == 255 - Index(r[i]) {
      ComplementIndex(r[i]);
    }
  }

  lemma ToKeyByIndex(r: Record)
    requires |r| == 4
    ensures ToKey(r) == if Index(r[3]) < 128 then FlipSign(r) else Complement(r)
  {
    hide Index, ToKey, FlipSign, Complement;
    ToKeyBytes(r);
    SignIndex(r[3]);
  }

  lemma FlippedLow(r: Record)
    requires |r| == 4 && Index(r[3]) < 128
    ensures |FlipSign(r)| == 4 && Low(FlipSign(r), 4) == Low(r, 4) + SIGN
  {
    hide Index, Low, FlipSign;
    FlipBytes(r);
    LowOfFour(r);
    LowOfFour(FlipSign(r));
    assert forall i :: 0 <= i < 3 ==> FlipSign(r)[i] == FlipSign(r)[..3][i] == r[..3][i];
  }

  lemma ComplementLow(r: Record)
    requires |r| == 4
    ensures Low(Complement(r), 4) == 2 * SIGN - 1 - Low(r, 4)
  {
    hide Index, Low, Complement;
    ComplementBytes(r);
    LowOfFour(r);
    LowOfFour(Complement(r));
  }

  /** The unsigned value of a float's key. */
  lemma KeyOfFloat(r: Record)
    requires |r| == 4
    ensures |ToKey(r)| == 4 && Low(ToKey(r), 4) == FloatKey(r) && FloatBits(r) < 2 * SIGN
  {
    hide Index, Low, ToKey, FlipSign, Complement;
    ToKeyByIndex(r);
    LowOfFour(r);
    IndexIsByte(r[0]);
    IndexIsByte(r[1]);
    IndexIsByte(r[2]);
    IndexIsByte(r[3]);
    if Index(r[3]) < 128 {
      FlippedLow(r);
    } else {
      ComplementLow(r);
    }
  }

  lemma IndexIsByte(x: Byte)
    ensures 0 <= Index(x) < 256
  {
  }

  /** A permutation in the total order of floating-point numbers. */
  ghost predicate IsFloatSort(input: seq<Record>, output: seq<Record>) {
    && multiset(output) == multiset(input)
    && forall x, y :: 0 <= x < y < |output| ==> TotalOrder(FloatBits(output[x]), FloatBits(output[y]))
  }

  /** Sort(float*). */
  method SortFloat(scratch: array<Byte>, p: array<Byte>, n: nat)
    requires p.Length == n * 4 && scratch.Length == n * 4 && p != scratch
    modifies p, scratch
    ensures n * 4 <= WRAP ==> IsFloatSort(Records(old(p[..]), n, 4), Records(p[..], n, 4))
    ensures n * 4 > WRAP ==> KeysLeftBehind(ToKey, old(p[..]), old(scratch[..]), p[..], n, 4)
  {
    hide Records, Flat, IsSortBy, IsFloatSort, InverseMaps, Low, ToKey, FromKey, FloatKey;
    ghost var input := Records(p[..], n, 4);
    FloatMaps();
    SortMapped(scratch, p, ToKey, FromKey, FloatKey, n, 4);
    if n * 4 <= WRAP {
      ByTotalOrder(input, Records(p[..], n, 4));
    }
  }

  lemma FloatMaps()
    ensures InverseMaps(ToKey, FromKey, 4)
    ensures forall r: Record, q: Record :: |r| == |q| == 4 ==>
      (Low(ToKey(r), 4) <= Low(ToKey(q), 4) <==> FloatKey(r) <= FloatKey(q))
  {
    hide ToKey, FromKey, FloatKey, Low;
    FloatMapsInverse();
    forall r: Record | |r| == 4 ensures Low(ToKey(r), 4) == FloatKey(r) { KeyOfFloat(r); }
  }

  lemma ByTotalOrder(input: seq<Record>, output: seq<Record>)
    requires IsSortBy(input, output, FloatKey) && AllWide(output, 4)
    ensures IsFloatSort(input, output)
  {
    hide TotalOrder, KeyValue, FloatBits;
    forall x, y | 0 <= x < y < |output| ensures TotalOrder(FloatBits(output[x]), FloatBits(output[y])) {
      KeyOfFloat(output[x]);
      KeyOfFloat(output[y]);
      KeyOrderIsTotalOrder(FloatBits(output[x]), FloatBits(output[y]));
    }
  }

  lemma ByKeyOrder(input: seq<Record>, output: seq<Record>)
    requires IsFloatSort(input, output) && AllWide(output, 4)
    ensures IsSortBy(input, output, FloatKey)
  {
    hide TotalOrder, KeyValue, FloatBits;
    forall x, y | 0 <= x < y < |output| ensures FloatKey(output[x]) <= FloatKey(output[y]) {
      KeyOfFloat(output[x]);
      KeyOfFloat(output[y]);
      KeyOrderIsTotalOrder(FloatBits(output[x]), FloatBits(output[y]));
    }
  }

  ghost predicate UnsortableFloats(p0: seq<Byte>, scratch0: seq<Byte>, n: nat) {
    && |p0| == |scratch0| == n * 4
    && forall p1 :: KeysLeftBehind(ToKey, p0, scratch0, p1, n, 4) ==> !IsFloatSort(Records(p0, n, 4), Records(p1, n, 4))
  }

  /** The limit of the float sort: past 2^32 bytes some input does not come out in total order. */
  lemma WrapLosesFloats(n: nat)
    requires n * 4 > WRAP
    ensures exists p0, scratch0 :: UnsortableFloats(p0, scratch0, n)
  {
    hide ToKey, FromKey, FloatKey, Low, InverseMaps, IsFloatSort, IsSortBy, Records, LeftBehind, Flat, MapRecords;
    FloatMaps();
    WrapLosesMappedRecords(ToKey, FromKey, FloatKey, n, 4);
    var p0, scratch0 :| UnsortableBy(ToKey, FloatKey, p0, scratch0, n, 4);
    forall p1 | KeysLeftBehind(ToKey, p0, scratch0, p1, n, 4) ensures !IsFloatSort(Records(p0, n, 4), Records(p1, n, 4)) {
      if IsFloatSort(Records(p0, n, 4), Records(p1, n, 4)) {
        ByKeyOrder(Records(p0, n, 4), Records(p1, n, 4));
      }
    }
    assert UnsortableFloats(p0, scratch0, n);
  }
}
