/**
 * What the radix passes achieve (ground/drone/util/fast_sort/fast_sort.cc): after pass i the
 * records are a stable sort of the input by their low i+1 bytes, so after the last pass they
 * are the sorted permutation.  Beyond 2^32 bytes they need not be.
 */
module SortTheory {
  import opened RadixSort

  function Pow256(j: nat): (p: nat)
    ensures p > 0
  {
    if j == 0 then 1 else 256 * Pow256(j - 1)
  }

  /** The little-endian value of the low j bytes. */
  function Low(r: Record, j: nat): (q: nat) {
    if j == 0 then 0 else Low(r, j - 1) + Digit(r, j - 1) * Pow256(j - 1)
  }

  lemma {:induction false} LowBound(r: Record, j: nat)
    ensures Low(r, j) < Pow256(j)
  {
    if j > 0 {
      LowBound(r, j - 1);
      DigitPlace(Digit(r, j - 1), 255, Low(r, j - 1), Pow256(j - 1));
    }
  }

  /** A digit dominates everything below it. */
  lemma DigitPlace(d: nat, e: nat, w: nat, p: nat)
    requires d <= e && w < p
    ensures w + d * p < (e + 1) * p
  {
    assert d * p <= e * p;
    assert (e + 1) * p == e * p + p;
  }

  /** Values of j+1 bytes compare by the top digit first. */
  lemma LowCompare(r: Record, q: Record, j: nat)
    ensures Digit(r, j) < Digit(q, j) ==> Low(r, j + 1) < Low(q, j + 1)
    ensures Digit(r, j) == Digit(q, j) ==> (Low(r, j + 1) <= Low(q, j + 1) <==> Low(r, j) <= Low(q, j))
  {
    hide Digit;
    LowBound(r, j);
    var p := Pow256(j);
    if Digit(r, j) < Digit(q, j) {
      DigitPlace(Digit(r, j), Digit(q, j) - 1, Low(r, j), p);
    }
  }

  ghost predicate SortedLow(recs: seq<Record>, j: nat) {
    forall x, y :: 0 <= x < y < |recs| ==> Low(recs[x], j) <= Low(recs[y], j)
  }

  /** The subsequence of records whose low j bytes have the value w. */
  function Class(recs: seq<Record>, j: nat, w: nat): (r: seq<Record>) {
    if recs == [] then []
    else
      var last := recs[|recs| - 1];
      Class(recs[..|recs| - 1], j, w) + (if Low(last, j) == w then [last] else [])
  }

  // ---------- one pass sorts by one byte more ----------

  lemma {:induction false} PickSorted(recs: seq<Record>, j: nat, v: nat)
    requires SortedLow(recs, j)
    ensures SortedLow(Pick(recs, j, v), j)
    ensures forall i :: 0 <= i < |Pick(recs, j, v)| ==> Digit(Pick(recs, j, v)[i], j) == v
    ensures recs != [] ==>
      forall i :: 0 <= i < |Pick(recs, j, v)| ==> Low(Pick(recs, j, v)[i], j) <= Low(recs[|recs| - 1], j)
  {
    hide Low, Digit;
    if recs != [] {
      var init := recs[..|recs| - 1];
      PickSorted(init, j, v);
    }
  }

  lemma {:induction false} GroupsSorted(recs: seq<Record>, j: nat, v: nat)
    requires SortedLow(recs, j)
    ensures SortedLow(Groups(recs, j, v), j + 1)
    ensures forall i :: 0 <= i < |Groups(recs, j, v)| ==> Digit(Groups(recs, j, v)[i], j) < v
  {
    hide Low, Digit, Pick;
    if v > 0 {
      GroupsSorted(recs, j, v - 1);
      PickSorted(recs, j, v - 1);
      AppendGroup(Groups(recs, j, v - 1), Pick(recs, j, v - 1), j, v - 1);
    }
  }

  lemma AppendGroup(a: seq<Record>, b: seq<Record>, j: nat, v: nat)
    requires SortedLow(a, j + 1) && SortedLow(b, j)
    requires forall i :: 0 <= i < |a| ==> Digit(a[i], j) < v
    requires forall i :: 0 <= i < |b| ==> Digit(b[i], j) == v
    ensures SortedLow(a + b, j + 1)
  {
    hide Low, Digit;
    forall x, y | 0 <= x < y < |a + b| ensures Low((a + b)[x], j + 1) <= Low((a + b)[y], j + 1) {
      LowCompare((a + b)[x], (a + b)[y], j);
      if x >= |a| {
        assert Low(b[x - |a|], j) <= Low(b[y - |a|], j);
      }
    }
  }

  // ---------- one pass keeps the order inside every class ----------

  lemma ClassPush(recs: seq<Record>, r: Record, j: nat, w: nat)
    ensures Class(recs + [r], j, w) == if Low(r, j) == w then Class(recs, j, w) + [r] else Class(recs, j, w)
  {
    hide Low;
    assert (recs + [r])[..|recs|] == recs;
  }

  lemma {:induction false} ClassConcat(a: seq<Record>, b: seq<Record>, j: nat, w: nat)
    ensures Class(a + b, j, w) == Class(a, j, w) + Class(b, j, w)
  {
    hide Low, Class;
    if b == [] {
      NoClass(j, w);
      assert a + b == a;
    } else {
      var c, r := b[..|b| - 1], b[|b| - 1];
      ClassConcat(a, c, j, w);
      ClassPush(a + c, r, j, w);
      ClassPush(c, r, j, w);
      assert b == c + [r] && a + b == (a + c) + [r];
    }
  }

  lemma PickAppend(recs: seq<Record>, r: Record, b: nat, v: nat)
    ensures Pick(recs + [r], b, v) == if Digit(r, b) == v then Pick(recs, b, v) + [r] else Pick(recs, b, v)
  {
    hide Digit;
    assert (recs + [r])[..|recs|] == recs;
  }

  /** A value of j+1 bytes splits uniquely into its top digit and the value below. */
  lemma LowSplit(r: Record, j: nat, v: nat, w: nat)
    requires w < Pow256(j)
    ensures Low(r, j + 1) == w + v * Pow256(j) <==> Digit(r, j) == v && Low(r, j) == w
  {
    hide Digit;
    LowBound(r, j);
    var p, d := Pow256(j), Digit(r, j);
    if d < v {
      DigitPlace(d, v - 1, Low(r, j), p);
    } else if d > v {
      DigitPlace(v, d - 1, w, p);
    }
  }

  /** The class of a longer value is the class of its low part, thinned by the top digit. */
  lemma {:induction false} ClassRefines(recs: seq<Record>, j: nat, v: nat, w: nat)
    requires w < Pow256(j)
    ensures Class(recs, j + 1, w + v * Pow256(j)) == Pick(Class(recs, j, w), j, v)
  {
    hide Low, Digit, Class, Pick, Pow256;
    if recs == [] {
      NoPick(j, v);
      NoClass(j, w);
      NoClass(j + 1, w + v * Pow256(j));
    } else {
      var c, r := recs[..|recs| - 1], recs[|recs| - 1];
      assert recs == c + [r];
      ClassRefines(c, j, v, w);
      LowSplit(r, j, v, w);
      ClassPush(c, r, j + 1, w + v * Pow256(j));
      ClassPush(c, r, j, w);
      PickAppend(Class(c, j, w), r, j, v);
    }
  }

  /** Picking another digit first leaves nothing of the class; picking its own loses nothing. */
  lemma {:induction false} ClassOfPick(recs: seq<Record>, j: nat, u: nat, v: nat, w: nat)
    requires w < Pow256(j)
    ensures Class(Pick(recs, j, u), j + 1, w + v * Pow256(j)) ==
            if u == v then Class(recs, j + 1, w + v * Pow256(j)) else []
  {
    hide Low, Digit, Class, Pick, Pow256;
    if recs == [] {
      NoPick(j, u);
      NoClass(j + 1, w + v * Pow256(j));
    } else {
      var c, r := recs[..|recs| - 1], recs[|recs| - 1];
      var x := w + v * Pow256(j);
      assert recs == c + [r];
      ClassOfPick(c, j, u, v, w);
      LowSplit(r, j, v, w);
      PickAppend(c, r, j, u);
      ClassPush(Pick(c, j, u), r, j + 1, x);
      ClassPush(c, r, j + 1, x);
    }
  }

  lemma {:induction false} ClassOfGroups(recs: seq<Record>, j: nat, u: nat, v: nat, w: nat)
    requires w < Pow256(j)
    ensures Class(Groups(recs, j, u), j + 1, w + v * Pow256(j)) ==
            if v < u then Class(recs, j + 1, w + v * Pow256(j)) else []
  {
    hide Low, Digit, Pick, Class, Pow256, Groups;
    GroupsUnfold(recs, j, u);
    if u == 0 {
      NoClass(j + 1, w + v * Pow256(j));
    } else {
      ClassOfGroups(recs, j, u - 1, v, w);
      ClassOfPick(recs, j, u - 1, v, w);
      ClassConcat(Groups(recs, j, u - 1), Pick(recs, j, u - 1), j + 1, w + v * Pow256(j));
    }
  }

  lemma GroupsUnfold(recs: seq<Record>, b: nat, u: nat)
    ensures Groups(recs, b, u) == if u == 0 then [] else Groups(recs, b, u - 1) + Pick(recs, b, u - 1)
  {
  }

  lemma NoPick(b: nat, v: nat)
    ensures Pick([], b, v) == []
  {
  }

  lemma NoClass(j: nat, x: nat)
    ensures Class([], j, x) == []
  {
  }

  lemma {:induction false} NoSuchValue(recs: seq<Record>, j: nat, w: nat)
    requires w >= Pow256(j)
    ensures Class(recs, j, w) == []
  {
    if recs != [] {
      LowBound(recs[|recs| - 1], j);
      NoSuchValue(recs[..|recs| - 1], j, w);
    }
  }

  lemma SplitValue(x: nat, j: nat) returns (v: nat, w: nat)
    requires x < Pow256(j + 1)
    ensures w < Pow256(j) && v < 256 && x == w + v * Pow256(j)
  {
    var p := Pow256(j);
    v, w := x / p, x % p;
    assert x == v * p + w;
    assert v * p < 256 * p;
    FactorLess(v, 256, p);
  }

  lemma FactorLess(a: nat, b: nat, p: nat)
    ensures a * p < b * p ==> a < b
  {
    if a >= b { assert a * p == b * p + (a - b) * p; }
  }

  /**
   * After j passes the records are a stable sort by their low j bytes: sorted, and every class of
   * equal low bytes is the same subsequence as in the input.
   */
  lemma {:induction false} PassesAreStableSort(recs: seq<Record>, j: nat)
    ensures SortedLow(Passes(recs, j), j)
    ensures forall x :: Class(Passes(recs, j), j, x) == Class(recs, j, x)
  {
    if j > 0 {
      var cur := Passes(recs, j - 1);
      PassesAreStableSort(recs, j - 1);
      GroupsSorted(cur, j - 1, 256);
      forall x ensures Class(Passes(recs, j), j, x) == Class(recs, j, x) {
        StableClass(recs, cur, j - 1, x);
      }
    }
  }

  lemma StableClass(recs: seq<Record>, cur: seq<Record>, j: nat, x: nat)
    requires forall w :: Class(cur, j, w) == Class(recs, j, w)
    ensures Class(Pass(cur, j), j + 1, x) == Class(recs, j + 1, x)
  {
    hide Class, Low, Groups, Pow256;
    if x >= Pow256(j + 1) {
      NoSuchValue(Pass(cur, j), j + 1, x);
      NoSuchValue(recs, j + 1, x);
    } else {
      var v, w := SplitValue(x, j);
      ClassOfGroups(cur, j, 256, v, w);
      ClassRefines(cur, j, v, w);
      ClassRefines(recs, j, v, w);
    }
  }

  // ---------- permutation ----------

  lemma IndexInjective(x: Byte, y: Byte)
    requires Index(x) == Index(y)
    ensures x == y
  {
  }

  /** k bytes are determined by their value. */
  lemma {:induction false} LowInjective(r: Record, q: Record, j: nat)
    requires j <= |r| && j <= |q| && Low(r, j) == Low(q, j)
    ensures r[..j] == q[..j]
  {
    if j > 0 {
      hide Index;
      LowCompare(r, q, j - 1);
      LowCompare(q, r, j - 1);
      LowInjective(r, q, j - 1);
      IndexInjective(r[j - 1], q[j - 1]);
      assert r[..j] == r[..j - 1] + [r[j - 1]] && q[..j] == q[..j - 1] + [q[j - 1]];
    }
  }

  /** The multiplicity of a record is the size of its class. */
  lemma {:induction false} Multiplicity(recs: seq<Record>, k: nat, r: Record)
    requires AllWide(recs, k) && |r| == k
    ensures multiset(recs)[r] == |Class(recs, k, Low(r, k))|
  {
    hide Low;
    if recs != [] {
      var c, l := recs[..|recs| - 1], recs[|recs| - 1];
      assert recs == c + [l];
      Multiplicity(c, k, r);
      if Low(l, k) == Low(r, k) {
        LowInjective(l, r, k);
        assert l[..k] == l && r[..k] == r;
      }
    }
  }

  lemma SameClassesSameRecords(a: seq<Record>, b: seq<Record>, k: nat)
    requires AllWide(a, k) && AllWide(b, k)
    requires forall x :: Class(a, k, x) == Class(b, k, x)
    ensures multiset(a) == multiset(b)
  {
    hide Class, Low;
    forall r: Record ensures multiset(a)[r] == multiset(b)[r] {
      if |r| == k {
        Multiplicity(a, k, r);
        Multiplicity(b, k, r);
      } else {
        assert r !in a && r !in b;
      }
    }
  }

  /** What a sort of records of width k must deliver. */
  ghost predicate IsSort(input: seq<Record>, output: seq<Record>, k: nat) {
    multiset(output) == multiset(input) && SortedLow(output, k)
  }

  /** All passes together sort by the little-endian unsigned value. */
  lemma PassesSort(recs: seq<Record>, k: nat)
    requires AllWide(recs, k)
    ensures IsSort(recs, Passes(recs, k), k)
    ensures AllWide(Passes(recs, k), k)
  {
    PassesKeepShape(recs, k, k);
    PassesAreStableSort(recs, k);
    SameClassesSameRecords(Passes(recs, k), recs, k);
  }

  lemma {:induction false} RecordsUnique(recs: seq<Record>, n: nat, k: nat)
    requires |recs| == n && AllWide(recs, k) && |Flat(recs)| == n * k
    ensures Records(Flat(recs), n, k) == recs
  {
    if n > 0 {
      var c, r := recs[..n - 1], recs[n - 1];
      FlatLength(c, k);
      assert recs == c + [r];
      assert Flat(recs)[..(n - 1) * k] == Flat(c) && Flat(recs)[(n - 1) * k..] == r;
      RecordsUnique(c, n - 1, k);
    }
  }

  /** Sort(U8*) .. Sort(U128*): a sorted permutation of the input, up to 2^32 bytes. */
  method SortUnsigned(scratch: array<Byte>, p: array<Byte>, n: nat, k: nat)
    requires Width(k) && p.Length == n * k && scratch.Length == n * k && p != scratch
    modifies p, scratch
    ensures n * k <= WRAP ==> IsSort(Records(old(p[..]), n, k), Records(p[..], n, k), k)
    ensures n * k > WRAP ==> p[WRAP..] == (if k == 1 then old(scratch[WRAP..]) else old(p[WRAP..]))
  {
    ghost var recs := Records(p[..], n, k);
    SortInternal(scratch, p, n, k);
    if n * k <= WRAP {
      PassesSort(recs, k);
      SortedBytes(recs, p[..], n, k);
    }
  }

  lemma SortedBytes(recs: seq<Record>, out: seq<Byte>, n: nat, k: nat)
    requires |recs| == n && AllWide(recs, k) && |out| == n * k && out == Flat(Passes(recs, k))
    requires IsSort(recs, Passes(recs, k), k) && AllWide(Passes(recs, k), k)
    ensures Records(out, n, k) == Passes(recs, k)
  {
    var t := Passes(recs, k);
    assert |multiset(t)| == |t| && |multiset(recs)| == |recs|;
    RecordsUnique(t, n, k);
  }

  // ---------- the exact limit ----------

  /** The bytes the sort is known to leave behind when the 32-bit offsets wrap. */
  ghost predicate LeftBehind(p0: seq<Byte>, scratch0: seq<Byte>, p1: seq<Byte>, k: nat) {
    |p0| == |scratch0| == |p1| && |p0| > WRAP &&
    p1[WRAP..] == if k == 1 then scratch0[WRAP..] else p0[WRAP..]
  }

  /** No output that can be left behind for these buffers is a sort of p. */
  ghost predicate Unsortable(p0: seq<Byte>, scratch0: seq<Byte>, n: nat, k: nat) {
    && |p0| == |scratch0| == n * k
    && forall p1 :: LeftBehind(p0, scratch0, p1, k) ==> !IsSort(Records(p0, n, k), Records(p1, n, k), k)
  }

  lemma LastRecord(s: seq<Byte>, n: nat, k: nat)
    requires n > 0 && |s| == n * k
    ensures Records(s, n, k)[n - 1] == s[(n - 1) * k..]
  {
  }

  /** Records of width 1, 2, 4, 8 or 16 never straddle byte 2^32. */
  lemma LastStartsBeyondWrap(n: nat, k: nat)
    requires Width(k) && n * k > WRAP
    ensures n > 1 && (n - 1) * k >= WRAP
  {
    var c := WRAP / k;
    assert c * k == WRAP;
    FactorLess(c, n, k);
    assert (n - 1) * k == c * k + (n - 1 - c) * k;
  }

  /** n - 1 records of bytes x, then one record of bytes y. */
  function Almost(n: nat, k: nat, x: Byte, y: Byte): (r: seq<Record>)
    requires n > 0
  {
    seq(n - 1, _ => seq(k, _ => x)) + [seq(k, _ => y)]
  }

  lemma {:induction false} LowOfRepeated(k: nat, j: nat, x: Byte)
    requires j <= k && x < 2
    ensures Low(seq(k, _ => x), j) == 0 <==> x == 0 || j == 0
  {
    if j > 0 {
      LowOfRepeated(k, j - 1, x);
      assert x == 0 || x == 1;
    }
  }

  /**
   * Beyond 2^32 bytes the sort is not one: for every length and width past the limit there is an
   * input (and, for single bytes, a scratch content) that no output it can leave behind sorts.
   * SortUnsigned proves the other half, so n * k <= 2^32 is the exact condition.
   */
  lemma WrapLosesRecords(n: nat, k: nat)
    requires Width(k) && n * k > WRAP
    ensures exists p0, scratch0 :: Unsortable(p0, scratch0, n, k)
  {
    // bytes: zeroes in p, ones in scratch; wider: ones in p, zeroes in its last record
    hide Records, Flat, Unsortable;
    var x: Byte, y: Byte := if k == 1 then 0 else 1, if k == 1 then 1 else 0;
    var input := if k == 1 then Almost(n, k, x, x) else Almost(n, k, x, y);
    var other := if k == 1 then Almost(n, k, y, y) else input;
    FlatLength(input, k);
    FlatLength(other, k);
    BadBuffers(input, other, n, k, x, y);
    assert Unsortable(Flat(input), Flat(other), n, k);
  }

  lemma BadBuffers(input: seq<Record>, other: seq<Record>, n: nat, k: nat, x: Byte, y: Byte)
    requires Width(k) && n * k > WRAP
    requires x == (if k == 1 then 0 else 1) && y == (if k == 1 then 1 else 0)
    requires input == if k == 1 then Almost(n, k, x, x) else Almost(n, k, x, y)
    requires other == if k == 1 then Almost(n, k, y, y) else input
    requires |Flat(input)| == |Flat(other)| == n * k
    ensures Unsortable(Flat(input), Flat(other), n, k)
  {
    hide Flat, Records;
    LastStartsBeyondWrap(n, k);
    var p0, scratch0 := Flat(input), Flat(other);
    RecordsUnique(input, n, k);
    RecordsUnique(other, n, k);
    forall p1 | LeftBehind(p0, scratch0, p1, k)
      ensures !IsSort(Records(p0, n, k), Records(p1, n, k), k)
    {
      KeptRecord(p0, scratch0, p1, n, k);
      NotSorted(input, Records(p1, n, k), n, k, x, y);
    }
  }

  /** The last record of the output is the last record some buffer held before. */
  lemma KeptRecord(p0: seq<Byte>, scratch0: seq<Byte>, p1: seq<Byte>, n: nat, k: nat)
    requires Width(k) && n * k > WRAP && |p0| == |scratch0| == n * k
    requires LeftBehind(p0, scratch0, p1, k)
    ensures |p1| == n * k && n > 1
    ensures Records(p1, n, k)[n - 1] == Records(if k == 1 then scratch0 else p0, n, k)[n - 1]
  {
    hide Records, Width;
    LastStartsBeyondWrap(n, k);
    var kept := if k == 1 then scratch0 else p0;
    LastRecord(p1, n, k);
    LastRecord(kept, n, k);
    var at := (n - 1) * k;
    assert p1[at..] == p1[WRAP..][at - WRAP..] && kept[at..] == kept[WRAP..][at - WRAP..];
  }

  lemma NotSorted(input: seq<Record>, output: seq<Record>, n: nat, k: nat, x: Byte, y: Byte)
    requires Width(k) && n > 1 && |output| == n && output[n - 1] == seq(k, _ => y)
    requires x == (if k == 1 then 0 else 1) && y == (if k == 1 then 1 else 0)
    requires input == if k == 1 then Almost(n, k, x, x) else Almost(n, k, x, y)
    ensures !IsSort(input, output, k)
  {
    var a, z := seq(k, _ => x), seq(k, _ => y);
    assert a[0] == x && z[0] == y;
    if IsSort(input, output, k) {
      assert output[n - 1] in multiset(output);
      assert z in input;
      if k > 1 {
        assert input[0] in multiset(input);
        assert a in output;
        var i :| 0 <= i < n && output[i] == a;
        LowOfRepeated(k, k, x);
        LowOfRepeated(k, k, y);
      }
      assert false;
    }
  }
}
