/**
 * The seeded 128-bit content digest of a slate shard (vehicle/src/hash/xxh.h).
 *
 * Words are 64-bit vectors, so `+`, `*` and the shifts wrap exactly as the unsigned
 * arithmetic of the source does.  Every arithmetic step gets its explicit inverse; the
 * injectivity theorems at the end are chains of those inverses.
 */
module ShardDigest {
  type Word = bv64
  type Byte = bv8

  datatype Hash128 = Hash128(h1: Word, h2: Word)

  // ---------- single steps and their inverses ----------

  function Rotl(x: Word, r: Word): (q: Word)
    requires 0 < r < 64
  {
    (x << r) | (x >> (64 - r))
  }

  function Xor(x: Word, y: Word): (r: Word) { x ^ y }
  function Add(x: Word, y: Word): (r: Word) { x + y }
  function Sub(x: Word, y: Word): (r: Word) { x - y }

  function XorShift(k: Word): (r: Word) { k ^ (k >> 33) }

  function MulF1(k: Word): (r: Word) { k * 0xff51afd7ed558ccd }
  function MulF2(k: Word): (r: Word) { k * 0xc4ceb9fe1a85ec53 }
  function MulC1(k: Word): (r: Word) { k * 0x87c37b91114253d5 }
  function MulC2(k: Word): (r: Word) { k * 0x4cf5ad432745937f }
  function Affine1(h: Word): (r: Word) { h * 5 + 0x52dce729 }
  function Affine2(h: Word): (r: Word) { h * 5 + 0x38495ab5 }

  function UnF1(k: Word): (r: Word) { k * 0x4f74430c22a54005 }
  function UnF2(k: Word): (r: Word) { k * 0x9cb4b2f8129337db }
  function UnC1(k: Word): (r: Word) { k * 0xa98409e882ce4d7d }
  function UnC2(k: Word): (r: Word) { k * 0xa81e14edd9de2c7f }
  function UnAffine1(h: Word): (r: Word) { (h - 0x52dce729) * 0xcccccccccccccccd }
  function UnAffine2(h: Word): (r: Word) { (h - 0x38495ab5) * 0xcccccccccccccccd }

  // The next lemmas apply an inverse to the raw expression of a step; the ones after
  // them say the same of the named steps, in both directions.
  lemma RawInverses(k: Word)
    ensures UnF1(k * 0xff51afd7ed558ccd) == k && UnF2(k * 0xc4ceb9fe1a85ec53) == k
    ensures UnC1(k * 0x87c37b91114253d5) == k && UnC2(k * 0x4cf5ad432745937f) == k
  {
  }

  lemma RawAffineInverses(k: Word)
    ensures UnAffine1(k * 5 + 0x52dce729) == k
    ensures UnAffine2(k * 5 + 0x38495ab5) == k
  {
  }

  lemma RawSections(k: Word)
    ensures MulF1(k * 0x4f74430c22a54005) == k && MulF2(k * 0x9cb4b2f8129337db) == k
    ensures MulC1(k * 0xa98409e882ce4d7d) == k && MulC2(k * 0xa81e14edd9de2c7f) == k
    ensures Affine1((k - 0x52dce729) * 0xcccccccccccccccd) == k
    ensures Affine2((k - 0x38495ab5) * 0xcccccccccccccccd) == k
  {
  }

  lemma RawXorShift(k: Word)
    ensures XorShift(k ^ (k >> 33)) == k
  {
  }

  lemma XorShiftInvolution(k: Word)
    ensures XorShift(XorShift(k)) == k
  {
    RawXorShift(k);
  }

  lemma FinaliserSteps(k: Word)
    ensures UnF1(MulF1(k)) == k && MulF1(UnF1(k)) == k
    ensures UnF2(MulF2(k)) == k && MulF2(UnF2(k)) == k
  {
    RawInverses(k);
    RawSections(k);
  }

  lemma KeySteps(k: Word)
    ensures UnC1(MulC1(k)) == k && MulC1(UnC1(k)) == k
    ensures UnC2(MulC2(k)) == k && MulC2(UnC2(k)) == k
  {
    RawInverses(k);
    RawSections(k);
  }

  lemma AffineSteps(k: Word)
    ensures UnAffine1(Affine1(k)) == k && Affine1(UnAffine1(k)) == k
    ensures UnAffine2(Affine2(k)) == k && Affine2(UnAffine2(k)) == k
  {
    RawAffineInverses(k);
    RawSections(k);
  }

  lemma Rotations31(x: Word)
    ensures Rotl(Rotl(x, 31), 33) == x
    ensures Rotl(Rotl(x, 33), 31) == x
  {
  }

  lemma Rotations27(x: Word)
    ensures Rotl(Rotl(x, 27), 37) == x
    ensures Rotl(Rotl(x, 37), 27) == x
  {
  }

  lemma Xors(x: Word, y: Word)
    ensures Xor(Xor(x, y), y) == x
    ensures Xor(x, Xor(x, y)) == y
  {
  }

  lemma RawSumRight(x: Word, y: Word)
    ensures Sub(x + y, y) == x
  {
  }

  lemma RawSumLeft(x: Word, y: Word)
    ensures Sub(x + y, x) == y
  {
  }

  lemma RawDifference(x: Word, y: Word)
    ensures Add(x - y, y) == x
  {
  }

  lemma Sums(x: Word, y: Word)
    ensures Sub(Add(x, y), y) == x && Sub(Add(x, y), x) == y
    ensures Add(Sub(x, y), y) == x
  {
    RawSumRight(x, y);
    RawSumLeft(x, y);
    RawDifference(x, y);
  }

  // ---------- fmix64 ----------

  function FMix(k: Word): (r: Word) {
    XorShift(MulF2(XorShift(MulF1(XorShift(k)))))
  }

  function UnFMix(k: Word): (r: Word) {
    XorShift(UnF1(XorShift(UnF2(XorShift(k)))))
  }

  /** The finaliser permutes the 64-bit words: UnFMix inverts it on both sides. */
  lemma FMixBijective(k: Word)
    ensures UnFMix(FMix(k)) == k
    ensures FMix(UnFMix(k)) == k
  {
    hide MulF1, MulF2, UnF1, UnF2, XorShift;
    var a1 := XorShift(k);
    XorShiftInvolution(k);
    var a2 := MulF1(a1);
    FinaliserSteps(a1);
    var a3 := XorShift(a2);
    XorShiftInvolution(a2);
    var a4 := MulF2(a3);
    FinaliserSteps(a3);
    XorShiftInvolution(a4);
    var b2 := UnF2(a1);
    var b3 := XorShift(b2);
    XorShiftInvolution(b2);
    var b4 := UnF1(b3);
    FinaliserSteps(b3);
    XorShiftInvolution(b4);
  }

  // ---------- the key schedules ----------

  function MixK1(k: Word): (r: Word) { MulC2(Rotl(MulC1(k), 31)) }
  function UnMixK1(m: Word): (r: Word) { UnC1(Rotl(UnC2(m), 33)) }

  function MixK2(k: Word): (r: Word) { MulC1(Rotl(MulC2(k), 33)) }
  function UnMixK2(m: Word): (r: Word) { UnC2(Rotl(UnC1(m), 31)) }

  lemma MixKInvertible(k: Word)
    ensures UnMixK1(MixK1(k)) == k
    ensures UnMixK2(MixK2(k)) == k
  {
    hide MulC1, MulC2, UnC1, UnC2, Rotl;
    KeySteps(k);
    var a := MulC1(k);
    Rotations31(a);
    KeySteps(Rotl(a, 31));
    var b := MulC2(k);
    Rotations31(b);
    KeySteps(Rotl(b, 33));
  }

  // ---------- one 16-byte block ----------

  function Lane1(h1: Word, m1: Word, h2: Word): (r: Word) { Affine1(Add(Rotl(Xor(h1, m1), 27), h2)) }
  function Lane2(h2: Word, m2: Word, h1: Word): (r: Word) { Affine2(Add(Rotl(Xor(h2, m2), 31), h1)) }

  function BlockStep(s: Hash128, k1: Word, k2: Word): (r: Hash128) {
    var h1 := Lane1(s.h1, MixK1(k1), s.h2);
    Hash128(h1, Lane2(s.h2, MixK2(k2), h1))
  }

  function UnLane1(t1: Word, m1: Word, h2: Word): (r: Word) { Xor(Rotl(Sub(UnAffine1(t1), h2), 37), m1) }
  function UnLane2(t2: Word, m2: Word, h1: Word): (r: Word) { Xor(Rotl(Sub(UnAffine2(t2), h1), 33), m2) }

  function UnBlock(t: Hash128, k1: Word, k2: Word): (r: Hash128) {
    var h2 := UnLane2(t.h2, MixK2(k2), t.h1);
    Hash128(UnLane1(t.h1, MixK1(k1), h2), h2)
  }

  lemma LanesInvertible(h: Word, m: Word, o: Word)
    ensures UnLane1(Lane1(h, m, o), m, o) == h && Lane1(UnLane1(h, m, o), m, o) == h
    ensures UnLane2(Lane2(h, m, o), m, o) == h && Lane2(UnLane2(h, m, o), m, o) == h
  {
    hide Xor, Add, Sub, Rotl, Affine1, Affine2, UnAffine1, UnAffine2;
    var x := Xor(h, m);
    Xors(h, m);
    Rotations27(x);
    Rotations31(x);
    Sums(Rotl(x, 27), o);
    Sums(Rotl(x, 31), o);
    AffineSteps(Add(Rotl(x, 27), o));
    AffineSteps(Add(Rotl(x, 31), o));
    AffineSteps(h);
    var u1, u2 := Sub(UnAffine1(h), o), Sub(UnAffine2(h), o);
    Sums(UnAffine1(h), o);
    Sums(UnAffine2(h), o);
    Rotations27(u1);
    Rotations31(u2);
    Xors(Rotl(u1, 37), m);
    Xors(Rotl(u2, 33), m);
  }

  /** For a fixed block, the block step is a bijection of (h1, h2). */
  lemma BlockStepBijective(s: Hash128, k1: Word, k2: Word)
    ensures UnBlock(BlockStep(s, k1, k2), k1, k2) == s
    ensures BlockStep(UnBlock(s, k1, k2), k1, k2) == s
  {
    hide Lane1, Lane2, UnLane1, UnLane2, MixK1, MixK2;
    var m1, m2 := MixK1(k1), MixK2(k2);
    LanesInvertible(s.h1, m1, s.h2);
    LanesInvertible(s.h2, m2, Lane1(s.h1, m1, s.h2));
    LanesInvertible(s.h2, m2, s.h1);
    LanesInvertible(s.h1, m1, UnLane2(s.h2, m2, s.h1));
  }

  lemma LaneDeterminesKey(h: Word, m: Word, n: Word, o: Word)
    ensures Lane1(h, m, o) == Lane1(h, n, o) ==> m == n
    ensures Lane2(h, m, o) == Lane2(h, n, o) ==> m == n
  {
    hide UnLane1, UnLane2, Xor, Add, Sub, Rotl, Affine1, Affine2, UnAffine1, UnAffine2;
    KeyOfLane(h, m, o);
    KeyOfLane(h, n, o);
  }

  /** The key word of a lane is a function of the state before and after it. */
  lemma KeyOfLane(h: Word, m: Word, o: Word)
    ensures Xor(h, Rotl(Sub(UnAffine1(Lane1(h, m, o)), o), 37)) == m
    ensures Xor(h, Rotl(Sub(UnAffine2(Lane2(h, m, o)), o), 33)) == m
  {
    hide Xor, Add, Sub, Rotl, Affine1, Affine2, UnAffine1, UnAffine2;
    var x := Xor(h, m);
    Xors(h, m);
    Rotations27(x);
    Rotations31(x);
    Sums(Rotl(x, 27), o);
    Sums(Rotl(x, 31), o);
    AffineSteps(Add(Rotl(x, 27), o));
    AffineSteps(Add(Rotl(x, 31), o));
  }

  /** For a fixed (h1, h2), the block step is injective in the 16 bytes it absorbs. */
  lemma BlockStepInjectiveInBlock(s: Hash128, k1: Word, k2: Word, j1: Word, j2: Word)
    requires BlockStep(s, k1, k2) == BlockStep(s, j1, j2)
    ensures k1 == j1 && k2 == j2
  {
    hide Lane1, Lane2, MixK1, MixK2, UnMixK1, UnMixK2;
    LaneDeterminesKey(s.h1, MixK1(k1), MixK1(j1), s.h2);
    LaneDeterminesKey(s.h2, MixK2(k2), MixK2(j2), Lane1(s.h1, MixK1(k1), s.h2));
    MixKInvertible(k1);
    MixKInvertible(k2);
    MixKInvertible(j1);
    MixKInvertible(j2);
  }

  // ---------- bytes to words ----------

  function Word8(b0: Byte, b1: Byte, b2: Byte, b3: Byte, b4: Byte, b5: Byte, b6: Byte, b7: Byte): (r: Word) {
    (b0 as Word) | ((b1 as Word) << 8) | ((b2 as Word) << 16) | ((b3 as Word) << 24)
    | ((b4 as Word) << 32) | ((b5 as Word) << 40) | ((b6 as Word) << 48) | ((b7 as Word) << 56)
  }

  lemma Word8Injective(a0: Byte, a1: Byte, a2: Byte, a3: Byte, a4: Byte, a5: Byte, a6: Byte, a7: Byte,
                       b0: Byte, b1: Byte, b2: Byte, b3: Byte, b4: Byte, b5: Byte, b6: Byte, b7: Byte)
    requires Word8(a0, a1, a2, a3, a4, a5, a6, a7) == Word8(b0, b1, b2, b3, b4, b5, b6, b7)
    ensures a0 == b0 && a1 == b1 && a2 == b2 && a3 == b3 && a4 == b4 && a5 == b5 && a6 == b6 && a7 == b7
  {
  }

  /** Byte i of a buffer that is followed by zeroes: what the tail switch sees. */
  function Padded(d: seq<Byte>, i: nat): (r: Byte) {
    if i < |d| then d[i] else 0
  }

  /** Little-endian word at byte offset i of a zero-padded buffer. */
  function LoadPadded(d: seq<Byte>, i: nat): (r: Word) {
    Word8(Padded(d, i), Padded(d, i + 1), Padded(d, i + 2), Padded(d, i + 3),
          Padded(d, i + 4), Padded(d, i + 5), Padded(d, i + 6), Padded(d, i + 7))
  }

  lemma LoadInjective(a: seq<Byte>, b: seq<Byte>, i: nat)
    requires LoadPadded(a, i) == LoadPadded(b, i)
    ensures forall j :: i <= j < i + 8 ==> Padded(a, j) == Padded(b, j)
  {
    Word8Injective(Padded(a, i), Padded(a, i + 1), Padded(a, i + 2), Padded(a, i + 3),
                   Padded(a, i + 4), Padded(a, i + 5), Padded(a, i + 6), Padded(a, i + 7),
                   Padded(b, i), Padded(b, i + 1), Padded(b, i + 2), Padded(b, i + 3),
                   Padded(b, i + 4), Padded(b, i + 5), Padded(b, i + 6), Padded(b, i + 7));
  }

  lemma LoadAgrees(a: seq<Byte>, b: seq<Byte>, i: nat)
    requires forall j :: i <= j < i + 8 ==> Padded(a, j) == Padded(b, j)
    ensures LoadPadded(a, i) == LoadPadded(b, i)
  {
  }

  // ---------- the digest ----------

  /** State after the first n full blocks. */
  function Absorb(d: seq<Byte>, n: nat, seed: Hash128): (r: Hash128) {
    if n == 0 then seed
    else BlockStep(Absorb(d, n - 1, seed), LoadPadded(d, 16 * (n - 1)), LoadPadded(d, 16 * (n - 1) + 8))
  }

  /** The tail step: k2 is mixed only for a tail of 9 bytes or more, k1 for 1 or more. */
  function TailStep(s: Hash128, t: nat, k1: Word, k2: Word): (r: Hash128) {
    Hash128(if t >= 1 then Xor(s.h1, MixK1(k1)) else s.h1, if t >= 9 then Xor(s.h2, MixK2(k2)) else s.h2)
  }

  function Finalise(s: Hash128, n: Word): (r: Hash128) {
    var a1, a2 := Xor(s.h1, n), Xor(s.h2, n);
    var b1 := Add(a1, a2);
    var b2 := Add(a2, b1);
    var c1, c2 := FMix(b1), FMix(b2);
    var e1 := Add(c1, c2);
    Hash128(e1, Add(c2, e1))
  }

  function UnFinalise(t: Hash128, n: Word): (r: Hash128) {
    var c2 := Sub(t.h2, t.h1);
    var c1 := Sub(t.h1, c2);
    var b1, b2 := UnFMix(c1), UnFMix(c2);
    var a2 := Sub(b2, b1);
    var a1 := Sub(b1, a2);
    Hash128(Xor(a1, n), Xor(a2, n))
  }

  /** For a fixed length, finalisation is a bijection of (h1, h2). */
  lemma FinaliseBijective(s: Hash128, n: Word)
    ensures UnFinalise(Finalise(s, n), n) == s
    ensures Finalise(UnFinalise(s, n), n) == s
  {
    UnFinaliseFinalise(s, n);
    FinaliseUnFinalise(s, n);
  }

  lemma UnFinaliseFinalise(s: Hash128, n: Word)
    ensures UnFinalise(Finalise(s, n), n) == s
  {
    hide Xor, Add, Sub, FMix, UnFMix;
    var a1, a2 := Xor(s.h1, n), Xor(s.h2, n);
    Xors(s.h1, n);
    Xors(s.h2, n);
    var b1 := Add(a1, a2);
    var b2 := Add(a2, b1);
    Sums(a1, a2);
    Sums(a2, b1);
    FMixBijective(b1);
    FMixBijective(b2);
    var c1, c2 := FMix(b1), FMix(b2);
    Sums(c1, c2);
    Sums(c2, Add(c1, c2));
  }

  lemma FinaliseUnFinalise(t: Hash128, n: Word)
    ensures Finalise(UnFinalise(t, n), n) == t
  {
    hide Xor, Add, Sub, FMix, UnFMix;
    var c2 := Sub(t.h2, t.h1);
    var c1 := Sub(t.h1, c2);
    Sums(t.h2, t.h1);
    Sums(t.h1, c2);
    FMixBijective(c1);
    FMixBijective(c2);
    var b1, b2 := UnFMix(c1), UnFMix(c2);
    var a2 := Sub(b2, b1);
    var a1 := Sub(b1, a2);
    Sums(b2, b1);
    Sums(b1, a2);
    Xors(a1, n);
    Xors(a2, n);
  }

  function Tail(d: seq<Byte>): (r: seq<Byte>) { d[|d| / 16 * 16..] }

  /** The digest as a function of the buffer; Digest below computes it. */
  function DigestOf(d: seq<Byte>, seed: Hash128): (r: Hash128)
    requires |d| < 0x1_0000_0000_0000_0000
  {
    var s := Absorb(d, |d| / 16, seed);
    var t := Tail(d);
    Finalise(TailStep(s, |t|, LoadPadded(t, 0), LoadPadded(t, 8)), |d| as Word)
  }

  /** One case of the switch. */
  function Mixed(k: Word, x: Byte, shift: Word): (r: Word)
    requires shift < 64
  {
    k ^ ((x as Word) << shift)
  }

  lemma MixedZero(k: Word)
    ensures Mixed(k, 0, 8) == k && Mixed(k, 0, 16) == k && Mixed(k, 0, 24) == k && Mixed(k, 0, 32) == k
    ensures Mixed(k, 0, 40) == k && Mixed(k, 0, 48) == k && Mixed(k, 0, 56) == k
  {
  }

  lemma MixedWord(b0: Byte, b1: Byte, b2: Byte, b3: Byte, b4: Byte, b5: Byte, b6: Byte, b7: Byte)
    ensures Mixed(Mixed(Mixed(Mixed(Mixed(Mixed(Mixed(Mixed(0, b7, 56), b6, 48), b5, 40), b4, 32), b3, 24), b2, 16), b1, 8), b0, 0)
         == Word8(b0, b1, b2, b3, b4, b5, b6, b7)
  {
  }

  /** Cases 15 down to 9 of the switch on len & 15, each falling through to the next. */
  method HighTailWord(t: seq<Byte>) returns (k2: Word)
    requires 9 <= |t| < 16
    ensures k2 == LoadPadded(t, 8)
  {
    hide Mixed, Word8;
    MixedWord(Padded(t, 8), Padded(t, 9), Padded(t, 10), Padded(t, 11), Padded(t, 12), Padded(t, 13), Padded(t, 14), 0);
    k2 := 0;
    MixedZero(k2);
    if |t| >= 15 { k2 := Mixed(k2, t[14], 48); }
    MixedZero(k2);
    if |t| >= 14 { k2 := Mixed(k2, t[13], 40); }
    MixedZero(k2);
    if |t| >= 13 { k2 := Mixed(k2, t[12], 32); }
    MixedZero(k2);
    if |t| >= 12 { k2 := Mixed(k2, t[11], 24); }
    MixedZero(k2);
    if |t| >= 11 { k2 := Mixed(k2, t[10], 16); }
    MixedZero(k2);
    if |t| >= 10 { k2 := Mixed(k2, t[9], 8); }
    k2 := Mixed(k2, t[8], 0);
  }

  /** Cases 8 down to 1. */
  method LowTailWord(t: seq<Byte>) returns (k1: Word)
    requires 1 <= |t| < 16
    ensures k1 == LoadPadded(t, 0)
  {
    hide Mixed, Word8;
    MixedWord(Padded(t, 0), Padded(t, 1), Padded(t, 2), Padded(t, 3), Padded(t, 4), Padded(t, 5), Padded(t, 6), Padded(t, 7));
    k1 := 0;
    MixedZero(k1);
    if |t| >= 8 { k1 := Mixed(k1, t[7], 56); }
    MixedZero(k1);
    if |t| >= 7 { k1 := Mixed(k1, t[6], 48); }
    MixedZero(k1);
    if |t| >= 6 { k1 := Mixed(k1, t[5], 40); }
    MixedZero(k1);
    if |t| >= 5 { k1 := Mixed(k1, t[4], 32); }
    MixedZero(k1);
    if |t| >= 4 { k1 := Mixed(k1, t[3], 24); }
    MixedZero(k1);
    if |t| >= 3 { k1 := Mixed(k1, t[2], 16); }
    MixedZero(k1);
    if |t| >= 2 { k1 := Mixed(k1, t[1], 8); }
    k1 := Mixed(k1, t[0], 0);
  }

  /** The whole switch: k2 is folded into h2 at case 9, k1 into h1 at case 1. */
  method TailSwitch(t: seq<Byte>, s: Hash128) returns (r: Hash128)
    requires |t| < 16
    ensures r == TailStep(s, |t|, LoadPadded(t, 0), LoadPadded(t, 8))
  {
    hide Xor, MulC1, MulC2, Rotl, LoadPadded;
    var h1, h2 := s.h1, s.h2;
    if |t| >= 9 {
      var k2 := HighTailWord(t);
      k2 := MulC2(k2);
      k2 := Rotl(k2, 33);
      k2 := MulC1(k2);
      h2 := Xor(h2, k2);
    }
    if |t| >= 1 {
      var k1 := LowTailWord(t);
      k1 := MulC1(k1);
      k1 := Rotl(k1, 31);
      k1 := MulC2(k1);
      h1 := Xor(h1, k1);
    }
    r := Hash128(h1, h2);
  }

  /** digest_xxh128: the block loop, the tail switch and the finaliser. */
  method Digest(d: seq<Byte>, seed: Hash128) returns (r: Hash128)
    requires |d| < 0x1_0000_0000_0000_0000
    ensures r == DigestOf(d, seed)
  {
    hide BlockStep, LoadPadded, TailStep, Finalise;
    var nblocks := |d| / 16;
    var s := seed;
    for i := 0 to nblocks
      invariant s == Absorb(d, i, seed)
    {
      var k1, k2 := LoadPadded(d, i * 16), LoadPadded(d, i * 16 + 8);
      s := BlockStep(s, k1, k2);
    }
    s := TailSwitch(Tail(d), s);
    r := Finalise(s, |d| as Word);
  }

  // ---------- a known digest ----------

  const FOX_1: seq<Byte> := [84, 104, 101, 32, 113, 117, 105, 99, 107, 32, 98, 114, 111, 119, 110, 32]
  const FOX_2: seq<Byte> := [102, 111, 120, 32, 106, 117, 109, 112, 115, 32, 111, 118, 101, 114, 32, 116]
  const FOX_3: seq<Byte> := [104, 101, 32, 108, 97, 122, 121, 32, 100, 111, 103]
  const FOX: seq<Byte> := FOX_1 + FOX_2 + FOX_3

  lemma FoxParts()
    ensures |FOX| == 43 && Tail(FOX) == FOX_3
    ensures forall i :: 0 <= i < 16 ==> FOX[i] == FOX_1[i]
    ensures forall i :: 16 <= i < 32 ==> FOX[i] == FOX_2[i - 16]
  {
  }

  /** A word inside the buffer, from a part of it. */
  lemma LoadPart(d: seq<Byte>, part: seq<Byte>, start: nat, i: nat)
    requires start + |part| <= |d| && i + 8 <= |part|
    requires forall j :: 0 <= j < |part| ==> d[start + j] == part[j]
    ensures LoadPadded(d, start + i) == Word8(part[i], part[i + 1], part[i + 2], part[i + 3],
                                              part[i + 4], part[i + 5], part[i + 6], part[i + 7])
  {
    hide Word8;
  }

  lemma FoxFirst()
    ensures LoadPadded(FOX, 0) == Word8(84, 104, 101, 32, 113, 117, 105, 99)
    ensures LoadPadded(FOX, 8) == Word8(107, 32, 98, 114, 111, 119, 110, 32)
  {
    FoxParts();
    hide Word8, LoadPadded, FOX;
    LoadPart(FOX, FOX_1, 0, 0);
    LoadPart(FOX, FOX_1, 0, 8);
  }

  lemma FoxSecond()
    ensures LoadPadded(FOX, 16) == Word8(102, 111, 120, 32, 106, 117, 109, 112)
    ensures LoadPadded(FOX, 24) == Word8(115, 32, 111, 118, 101, 114, 32, 116)
  {
    FoxParts();
    hide Word8, LoadPadded, FOX;
    LoadPart(FOX, FOX_2, 16, 0);
    LoadPart(FOX, FOX_2, 16, 8);
  }

  lemma FoxTail()
    ensures LoadPadded(FOX_3, 0) == Word8(104, 101, 32, 108, 97, 122, 121, 32)
    ensures LoadPadded(FOX_3, 8) == Word8(100, 111, 103, 0, 0, 0, 0, 0)
  {
    hide Word8;
  }

  lemma FoxWords()
    ensures Word8(84, 104, 101, 32, 113, 117, 105, 99) == 0x6369757120656854
    ensures Word8(107, 32, 98, 114, 111, 119, 110, 32) == 0x206e776f7262206b
    ensures Word8(102, 111, 120, 32, 106, 117, 109, 112) == 0x706d756a20786f66
    ensures Word8(115, 32, 111, 118, 101, 114, 32, 116) == 0x74207265766f2073
    ensures Word8(104, 101, 32, 108, 97, 122, 121, 32) == 0x20797a616c206568
    ensures Word8(100, 111, 103, 0, 0, 0, 0, 0) == 0x676f64
  {
  }

  lemma FoxKeys()
    ensures MixK1(0x6369757120656854) == 0xede938f35bfbb35d && MixK2(0x206e776f7262206b) == 0x9b19a81a60aa0b18
    ensures MixK1(0x706d756a20786f66) == 0x82e320fa65aeeb7a && MixK2(0x74207265766f2073) == 0x3480582491edf347
    ensures MixK1(0x20797a616c206568) == 0xbe2cc08576171173 && MixK2(0x676f64) == 0x307f8a9bc938d855
  {
  }

  lemma FoxLanes()
    ensures Lane1(0, 0xede938f35bfbb35d, 0) == 0x065f54070009580c
    ensures Lane2(0, 0x9b19a81a60aa0b18, 0x065f54070009580c) == 0x1185bfe0bc383732
    ensures Lane1(0x065f54070009580c, 0x82e320fa65aeeb7a, 0x1185bfe0bc383732) == 0xef7ef36e84b36d66
    ensures Lane2(0x1185bfe0bc383732, 0x3480582491edf347, 0xef7ef36e84b36d66) == 0x20112c4dac59411d
  {
  }

  lemma FoxEnd()
    ensures Finalise(Hash128(0x515233ebf2a47c15, 0x106ea6d665619948), 43) == Hash128(0xe34bbc7bbc071b6c, 0x7a433ca9c49a9347)
  {
    assert FMix(0x61c0dac2580615a1) == 0x4c543c4db373a391 && FMix(0x722f8198bd67af04) == 0x96f7802e089377db;
  }

  /**
   * The digest is MurmurHash3_x64_128: with seed zero, "The quick brown fox jumps over the lazy dog"
   * has its published digest.  Two blocks and a tail of 11 bytes go through every step but one.
   */
  lemma KnownDigest()
    ensures |FOX| == 43 && DigestOf(FOX, Hash128(0, 0)) == Hash128(0xe34bbc7bbc071b6c, 0x7a433ca9c49a9347)
  {
    hide MixK1, MixK2, Lane1, Lane2, LoadPadded, Word8, Finalise, Tail, Absorb;
    FoxParts();
    FoxFirst();
    FoxSecond();
    FoxTail();
    FoxWords();
    FoxKeys();
    FoxLanes();
    FoxEnd();
    AbsorbTwo(FOX, Hash128(0, 0));
    assert Xor(0xef7ef36e84b36d66, 0xbe2cc08576171173) == 0x515233ebf2a47c15;
    assert Xor(0x20112c4dac59411d, 0x307f8a9bc938d855) == 0x106ea6d665619948;
  }

  lemma AbsorbTwo(d: seq<Byte>, seed: Hash128)
    ensures Absorb(d, 2, seed) ==
      BlockStep(BlockStep(seed, LoadPadded(d, 0), LoadPadded(d, 8)), LoadPadded(d, 16), LoadPadded(d, 24))
  {
    hide BlockStep, LoadPadded;
    assert Absorb(d, 1, seed) == BlockStep(Absorb(d, 0, seed), LoadPadded(d, 0), LoadPadded(d, 8));
  }

  // ---------- collision freedom ----------

  /** Different states stay different through any further blocks of the same buffer suffix. */
  lemma {:induction false} AbsorbKeepsApart(a: seq<Byte>, b: seq<Byte>, m: nat, n: nat, sa: Hash128, sb: Hash128)
    requires m <= n
    requires Absorb(a, m, sa) != Absorb(b, m, sb)
    requires forall j :: 16 * m <= j < 16 * n ==> Padded(a, j) == Padded(b, j)
    ensures Absorb(a, n, sa) != Absorb(b, n, sb)
  {
    hide BlockStep, UnBlock, LoadPadded;
    if m < n {
      AbsorbKeepsApart(a, b, m, n - 1, sa, sb);
      LoadAgrees(a, b, 16 * (n - 1));
      LoadAgrees(a, b, 16 * (n - 1) + 8);
      var k1, k2 := LoadPadded(a, 16 * (n - 1)), LoadPadded(a, 16 * (n - 1) + 8);
      BlockStepBijective(Absorb(a, n - 1, sa), k1, k2);
      BlockStepBijective(Absorb(b, n - 1, sb), k1, k2);
    }
  }

  lemma {:induction false} AbsorbAgrees(a: seq<Byte>, b: seq<Byte>, n: nat, seed: Hash128)
    requires forall j :: 0 <= j < 16 * n ==> Padded(a, j) == Padded(b, j)
    ensures Absorb(a, n, seed) == Absorb(b, n, seed)
  {
    hide BlockStep, LoadPadded;
    if n > 0 {
      AbsorbAgrees(a, b, n - 1, seed);
      LoadAgrees(a, b, 16 * (n - 1));
      LoadAgrees(a, b, 16 * (n - 1) + 8);
    }
  }

  lemma TailStepInjective(s: Hash128, r: Hash128, t: nat, k1: Word, k2: Word)
    requires TailStep(s, t, k1, k2) == TailStep(r, t, k1, k2)
    ensures s == r
  {
    hide Xor, MixK1, MixK2;
    Xors(s.h1, MixK1(k1));
    Xors(r.h1, MixK1(k1));
    Xors(s.h2, MixK2(k2));
    Xors(r.h2, MixK2(k2));
  }

  lemma MixedInInjective(h: Word, m: Word, n: Word)
    ensures Xor(h, MixK1(m)) == Xor(h, MixK1(n)) ==> m == n
    ensures Xor(h, MixK2(m)) == Xor(h, MixK2(n)) ==> m == n
  {
    hide Xor, MixK1, MixK2, UnMixK1, UnMixK2;
    Xors(h, MixK1(m));
    Xors(h, MixK1(n));
    Xors(h, MixK2(m));
    Xors(h, MixK2(n));
    MixKInvertible(m);
    MixKInvertible(n);
  }

  lemma TailStepInjectiveInTail(s: Hash128, a: seq<Byte>, b: seq<Byte>)
    requires |a| == |b| < 16
    requires TailStep(s, |a|, LoadPadded(a, 0), LoadPadded(a, 8)) == TailStep(s, |b|, LoadPadded(b, 0), LoadPadded(b, 8))
    ensures a == b
  {
    hide Xor, MixK1, MixK2, LoadPadded;
    MixedInInjective(s.h1, LoadPadded(a, 0), LoadPadded(b, 0));
    MixedInInjective(s.h2, LoadPadded(a, 8), LoadPadded(b, 8));
    if |a| >= 1 { LoadInjective(a, b, 0); }
    if |a| >= 9 { LoadInjective(a, b, 8); }
    forall j | 0 <= j < |a| ensures a[j] == b[j] {
      assert a[j] == Padded(a, j) && b[j] == Padded(b, j);
    }
  }

  /** What the end of the computation adds: equal digests mean equal states before it. */
  lemma EndInjective(s: Hash128, r: Hash128, t: nat, k1: Word, k2: Word, n: Word)
    requires Finalise(TailStep(s, t, k1, k2), n) == Finalise(TailStep(r, t, k1, k2), n)
    ensures s == r
  {
    hide BlockStep, LoadPadded, TailStep, Finalise, UnFinalise;
    FinaliseBijective(TailStep(s, t, k1, k2), n);
    FinaliseBijective(TailStep(r, t, k1, k2), n);
    TailStepInjective(s, r, t, k1, k2);
  }

  /** Two buffers of one length that differ only inside full block i never collide. */
  lemma BlockChangeIsDetected(a: seq<Byte>, b: seq<Byte>, i: nat, seed: Hash128)
    requires |a| == |b| < 0x1_0000_0000_0000_0000
    requires i < |a| / 16
    requires a != b
    requires forall j :: 0 <= j < |a| && !(16 * i <= j < 16 * i + 16) ==> a[j] == b[j]
    ensures DigestOf(a, seed) != DigestOf(b, seed)
  {
    hide BlockStep, LoadPadded, TailStep, Finalise, UnFinalise;
    AbsorbAgrees(a, b, i, seed);
    var s := Absorb(a, i, seed);
    if Absorb(a, i + 1, seed) == Absorb(b, i + 1, seed) {
      BlockStepInjectiveInBlock(s, LoadPadded(a, 16 * i), LoadPadded(a, 16 * i + 8),
                                LoadPadded(b, 16 * i), LoadPadded(b, 16 * i + 8));
      LoadInjective(a, b, 16 * i);
      LoadInjective(a, b, 16 * i + 8);
      forall j | 0 <= j < |a| ensures a[j] == b[j] {
        assert a[j] == Padded(a, j) && b[j] == Padded(b, j);
      }
      assert false;
    }
    var n := |a| / 16;
    AbsorbKeepsApart(a, b, i + 1, n, seed, seed);
    assert Tail(a) == Tail(b);
    var t := Tail(a);
    if DigestOf(a, seed) == DigestOf(b, seed) {
      EndInjective(Absorb(a, n, seed), Absorb(b, n, seed), |t|, LoadPadded(t, 0), LoadPadded(t, 8), |a| as Word);
    }
  }

  /** Two buffers of one length that differ only in the tail never collide. */
  lemma TailChangeIsDetected(a: seq<Byte>, b: seq<Byte>, seed: Hash128)
    requires |a| == |b| < 0x1_0000_0000_0000_0000
    requires a != b
    requires forall j :: 0 <= j < |a| / 16 * 16 ==> a[j] == b[j]
    ensures DigestOf(a, seed) != DigestOf(b, seed)
  {
    hide BlockStep, LoadPadded, TailStep, Finalise, UnFinalise;
    var n := |a| / 16;
    AbsorbAgrees(a, b, n, seed);
    var s := Absorb(a, n, seed);
    var ta, tb := Tail(a), Tail(b);
    assert a == a[..n * 16] + ta && b == b[..n * 16] + tb;
    if DigestOf(a, seed) == DigestOf(b, seed) {
      FinaliseBijective(TailStep(s, |ta|, LoadPadded(ta, 0), LoadPadded(ta, 8)), |a| as Word);
      FinaliseBijective(TailStep(s, |tb|, LoadPadded(tb, 0), LoadPadded(tb, 8)), |a| as Word);
      TailStepInjectiveInTail(s, ta, tb);
    }
  }

  /** One buffer under two seeds never collides. */
  lemma SeedChangeIsDetected(d: seq<Byte>, seed: Hash128, other: Hash128)
    requires |d| < 0x1_0000_0000_0000_0000
    requires seed != other
    ensures DigestOf(d, seed) != DigestOf(d, other)
  {
    hide BlockStep, LoadPadded, TailStep, Finalise, UnFinalise;
    var n := |d| / 16;
    AbsorbKeepsApart(d, d, 0, n, seed, other);
    var t := Tail(d);
    if DigestOf(d, seed) == DigestOf(d, other) {
      EndInjective(Absorb(d, n, seed), Absorb(d, n, other), |t|, LoadPadded(t, 0), LoadPadded(t, 8), |d| as Word);
    }
  }
}
