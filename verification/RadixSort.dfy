/**
 * The byte-wise counting sort of ground/drone/util/fast_sort/fast_sort.cc (SortInternal).
 *
 * The methods work on the raw bytes, in place, with the source's 256 wrapping 32-bit byte
 * offsets.  The specification sees the same bytes as a sequence of records of kBytes each.
 */
module RadixSort {
  type Byte = bv8
  type Record = seq<Byte>

  /** Byte offsets are kept in 32-bit counters. */
  const WRAP: nat := 0x1_0000_0000

  function Wrap(x: nat): (r: nat) { x % WRAP }

  predicate Width(k: nat) { k == 1 || k == 2 || k == 4 || k == 8 || k == 16 }

  // ---------- records and bytes ----------

  function Flat(recs: seq<Record>): (r: seq<Byte>) {
    if recs == [] then [] else Flat(recs[..|recs| - 1]) + recs[|recs| - 1]
  }

  /** The n records of k bytes that a buffer of n * k bytes holds. */
  function Records(s: seq<Byte>, n: nat, k: nat): (recs: seq<Record>)
    requires |s| == n * k
    ensures |recs| == n && AllWide(recs, k) && Flat(recs) == s
  {
    if n == 0 then []
    else
      assert n * k == (n - 1) * k + k;
      Records(s[..(n - 1) * k], n - 1, k) + [s[(n - 1) * k..]]
  }

  ghost predicate AllWide(recs: seq<Record>, k: nat) {
    forall i :: 0 <= i < |recs| ==> |recs[i]| == k
  }

  /** A byte as an index. */
  function Index(x: Byte): (n: nat)
    ensures n < 256
  {
    x as nat
  }

  function Digit(r: Record, b: nat): (d: nat)
    ensures d < 256
  {
    if b < |r| then Index(r[b]) else 0
  }

  lemma FlatPush(recs: seq<Record>, r: Record)
    ensures Flat(recs + [r]) == Flat(recs) + r
  {
    assert (recs + [r])[..|recs|] == recs;
  }

  lemma FlatEmpty()
    ensures Flat([]) == []
  {
  }

  lemma {:induction false} FlatConcat(a: seq<Record>, b: seq<Record>)
    ensures Flat(a + b) == Flat(a) + Flat(b)
  {
    hide Flat;
    if b == [] {
      FlatEmpty();
      assert a + b == a;
    } else {
      var c, r := b[..|b| - 1], b[|b| - 1];
      FlatConcat(a, c);
      FlatPush(a + c, r);
      FlatPush(c, r);
      assert b == c + [r] && a + b == (a + c) + [r];
    }
  }

  lemma {:induction false} FlatLength(recs: seq<Record>, k: nat)
    requires AllWide(recs, k)
    ensures |Flat(recs)| == |recs| * k
  {
    if recs != [] {
      var c, r := recs[..|recs| - 1], recs[|recs| - 1];
      FlatLength(c, k);
      hide Flat;
      assert recs == c + [r];
      FlatPush(c, r);
      assert (|c| + 1) * k == |c| * k + k;
    }
  }

  lemma FlatTake(recs: seq<Record>, j: nat)
    requires j < |recs|
    ensures Flat(recs[..j + 1]) == Flat(recs[..j]) + recs[j]
  {
    hide Flat, Index;
    assert recs[..j + 1] == recs[..j] + [recs[j]];
    FlatPush(recs[..j], recs[j]);
  }

  lemma FlatSplit(recs: seq<Record>, j: nat)
    requires j <= |recs|
    ensures Flat(recs) == Flat(recs[..j]) + Flat(recs[j..])
  {
    hide Flat, Index;
    assert recs == recs[..j] + recs[j..];
    FlatConcat(recs[..j], recs[j..]);
  }

  /** Where record j starts among the bytes. */
  function Offset(recs: seq<Record>, j: nat): (r: nat)
    requires j <= |recs|
  {
    |Flat(recs[..j])|
  }

  lemma RecordAt(s: seq<Byte>, recs: seq<Record>, j: nat, k: nat)
    requires j < |recs| && AllWide(recs, k) && s == Flat(recs)
    ensures var i := Offset(recs, j);
      Offset(recs, j + 1) == i + k <= |s| && s[i..i + k] == recs[j]
  {
    hide Flat, Index;
    FlatTake(recs, j);
    FlatSplit(recs, j + 1);
    var a, c := Flat(recs[..j]), Flat(recs[j + 1..]);
    assert s == a + recs[j] + c;
  }

  /** The offset of record j, and whether there is one. */
  lemma OffsetOf(recs: seq<Record>, j: nat, k: nat)
    requires AllWide(recs, k) && k > 0 && j <= |recs|
    ensures Offset(recs, 0) == 0
    ensures Offset(recs, j) <= |Flat(recs)|
    ensures Offset(recs, j) < |Flat(recs)| <==> j < |recs|
  {
    assert recs[..0] == [];
    hide Flat, Index;
    FlatSplit(recs, j);
    FlatLength(recs[j..], k);
    if j < |recs| {
      FlatTakeOne(recs[j..], k);
    }
  }

  lemma FlatTakeOne(recs: seq<Record>, k: nat)
    requires recs != [] && AllWide(recs, k)
    ensures |Flat(recs)| >= k
  {
    FlatLength(recs[..|recs| - 1], k);
  }

  /** The digit of record j, read from the bytes. */
  lemma DigitAt(s: seq<Byte>, recs: seq<Record>, j: nat, k: nat, b: nat)
    requires j < |recs| && AllWide(recs, k) && s == Flat(recs) && b < k
    ensures Offset(recs, j) + b < |s| && Index(s[Offset(recs, j) + b]) == Digit(recs[j], b)
  {
    hide Flat, Offset, Index, AllWide;
    RecordAt(s, recs, j, k);
    var i, r := Offset(recs, j), recs[j];
    assert |r| == k && s[i + b] == r[b];
  }

  // ---------- one stable pass ----------

  /** The records whose byte b is v, in their order. */
  function Pick(recs: seq<Record>, b: nat, v: nat): (r: seq<Record>) {
    if recs == [] then []
    else
      var last := recs[|recs| - 1];
      Pick(recs[..|recs| - 1], b, v) + (if Digit(last, b) == v then [last] else [])
  }

  /** The groups of the byte values below v, one after the other. */
  function Groups(recs: seq<Record>, b: nat, v: nat): (r: seq<Record>) {
    if v == 0 then [] else Groups(recs, b, v - 1) + Pick(recs, b, v - 1)
  }

  function Pass(recs: seq<Record>, b: nat): (r: seq<Record>) { Groups(recs, b, 256) }

  /** The records after the passes over bytes 0 .. j-1. */
  function Passes(recs: seq<Record>, j: nat): (r: seq<Record>) {
    if j == 0 then recs else Pass(Passes(recs, j - 1), j - 1)
  }

  /** First byte of group v in the output of a pass. */
  function Start(recs: seq<Record>, b: nat, v: nat): (r: nat) { |Flat(Groups(recs, b, v))| }

  /** Bytes of records with byte value v among the first j records. */
  function Count(recs: seq<Record>, b: nat, j: nat, v: nat): (r: nat)
    requires j <= |recs|
  {
    |Flat(Pick(recs[..j], b, v))|
  }

  /** How far group v is filled after the first j records. */
  function Fill(recs: seq<Record>, b: nat, j: nat, v: nat): (r: nat)
    requires j <= |recs|
  {
    Start(recs, b, v) + Count(recs, b, j, v)
  }

  lemma StartZero(recs: seq<Record>, b: nat)
    ensures Start(recs, b, 0) == 0
    ensures Flat(Groups(recs, b, 0)) == []
  {
  }

  lemma StartStep(recs: seq<Record>, b: nat, v: nat)
    ensures Start(recs, b, v + 1) == Start(recs, b, v) + Count(recs, b, |recs|, v)
    ensures Count(recs, b, |recs|, v) == |Flat(Pick(recs, b, v))|
  {
    hide Pick, Flat;
    assert recs[..|recs|] == recs;
    FlatConcat(Groups(recs, b, v), Pick(recs, b, v));
  }

  lemma {:induction false} StartMonotone(recs: seq<Record>, b: nat, v: nat, w: nat)
    requires v <= w
    ensures Start(recs, b, v) <= Start(recs, b, w)
    decreases w
  {
    if v < w {
      StartMonotone(recs, b, v, w - 1);
      StartStep(recs, b, w - 1);
    }
  }

  lemma PickPush(recs: seq<Record>, j: nat, b: nat, v: nat)
    requires j < |recs|
    ensures Digit(recs[j], b) == v ==> Pick(recs[..j + 1], b, v) == Pick(recs[..j], b, v) + [recs[j]]
    ensures Digit(recs[j], b) != v ==> Pick(recs[..j + 1], b, v) == Pick(recs[..j], b, v)
  {
    assert recs[..j + 1][..j] == recs[..j];
  }

  /** The same in bytes. */
  lemma PickPushBytes(recs: seq<Record>, j: nat, b: nat, v: nat)
    requires j < |recs|
    ensures Digit(recs[j], b) == v ==> Flat(Pick(recs[..j + 1], b, v)) == Flat(Pick(recs[..j], b, v)) + recs[j]
    ensures Digit(recs[j], b) != v ==> Flat(Pick(recs[..j + 1], b, v)) == Flat(Pick(recs[..j], b, v))
  {
    hide Flat, Pick, Index;
    PickPush(recs, j, b, v);
    FlatPush(Pick(recs[..j], b, v), recs[j]);
  }

  lemma {:induction false} PickPrefix(recs: seq<Record>, j: nat, b: nat, v: nat)
    requires j <= |recs|
    ensures |Flat(Pick(recs[..j], b, v))| <= |Flat(Pick(recs, b, v))|
    decreases |recs| - j
  {
    if j == |recs| {
      assert recs[..j] == recs;
    } else {
      PickPushBytes(recs, j, b, v);
      PickPrefix(recs, j + 1, b, v);
    }
  }

  /** Taking one record more fills its own group by the record, and no other group. */
  lemma FillStep(recs: seq<Record>, b: nat, j: nat, v: nat)
    requires j < |recs|
    ensures Fill(recs, b, j + 1, v) == Fill(recs, b, j, v) + (if Digit(recs[j], b) == v then |recs[j]| else 0)
    ensures Fill(recs, b, j + 1, v) <= Start(recs, b, v + 1)
  {
    hide Flat, Pick, Groups, Index;
    PickPushBytes(recs, j, b, v);
    PickPrefix(recs, j + 1, b, v);
    StartStep(recs, b, v);
  }

  /** Every record is in one group: the groups together are as long as the input. */
  lemma {:induction false} GroupsPush(recs: seq<Record>, r: Record, b: nat, v: nat)
    ensures Start(recs + [r], b, v) == Start(recs, b, v) + (if Digit(r, b) < v then |r| else 0)
  {
    hide Flat, Pick, Groups, Start, Index;
    if v == 0 {
      StartZero(recs + [r], b);
      StartZero(recs, b);
    } else {
      GroupsPush(recs, r, b, v - 1);
      StartStep(recs + [r], b, v - 1);
      StartStep(recs, b, v - 1);
      PickOneMore(recs, r, b, v - 1);
    }
  }

  lemma PickOneMore(recs: seq<Record>, r: Record, b: nat, v: nat)
    ensures |Flat(Pick(recs + [r], b, v))| == |Flat(Pick(recs, b, v))| + (if Digit(r, b) == v then |r| else 0)
  {
    hide Flat, Pick, Index;
    var all := recs + [r];
    PickPushBytes(all, |recs|, b, v);
    assert all[..|recs|] == recs && all[..|all|] == all;
  }

  lemma {:induction false} GroupsCoverAll(recs: seq<Record>, b: nat)
    ensures Start(recs, b, 256) == |Flat(recs)|
  {
    if recs == [] {
      EmptyGroups(b, 256);
    } else {
      var c, r := recs[..|recs| - 1], recs[|recs| - 1];
      assert recs == c + [r];
      GroupsCoverAll(c, b);
      GroupsPush(c, r, b, 256);
      FlatPush(c, r);
    }
  }

  lemma {:induction false} EmptyGroups(b: nat, v: nat)
    ensures Groups([], b, v) == []
  {
    if v > 0 { EmptyGroups(b, v - 1); }
  }

  // ---------- the three loops of a pass ----------

  /** Adding wrapped counters wraps the sum. */
  lemma WrapSum(x: nat, y: nat)
    ensures Wrap(Wrap(x) + y) == Wrap(x + y)
    ensures Wrap(Wrap(x) + Wrap(y)) == Wrap(x + y)
  {
  }

  /** The first loop: how many bytes of records there are for each byte value. */
  method CountBytes(a: array<Byte>, ghost recs: seq<Record>, k: nat, b: nat) returns (counts: array<nat>)
    requires b < k && AllWide(recs, k) && a[..] == Flat(recs)
    ensures fresh(counts) && counts.Length == 256
    ensures forall v :: 0 <= v < 256 ==> counts[v] == Wrap(Count(recs, b, |recs|, v))
  {
    hide Offset, Count, Flat, Wrap, Index;
    counts := new nat[256](_ => 0);
    var i := 0;
    ghost var j := 0;
    OffsetOf(recs, 0, k);
    NothingCounted(recs, b);
    while i < a.Length
      invariant j <= |recs| && i == Offset(recs, j)
      invariant i <= a.Length && (i < a.Length <==> j < |recs|)
      invariant forall v :: 0 <= v < 256 ==> counts[v] == Wrap(Count(recs, b, j, v))
    {
      RecordAt(a[..], recs, j, k);
      DigitAt(a[..], recs, j, k, b);
      OffsetOf(recs, j + 1, k);
      CountStep(recs, j, b, k);
      var d := Index(a[i + b]);
      counts[d] := Wrap(counts[d] + k);
      i := i + k;
      j := j + 1;
    }
  }

  lemma NothingCounted(recs: seq<Record>, b: nat)
    ensures forall v :: 0 <= v < 256 ==> Wrap(Count(recs, b, 0, v)) == 0
  {
  }

  lemma CountStep(recs: seq<Record>, j: nat, b: nat, k: nat)
    requires j < |recs| && |recs[j]| == k
    ensures forall v :: 0 <= v < 256 ==>
      Wrap(Count(recs, b, j + 1, v)) ==
      if v == Digit(recs[j], b) then Wrap(Wrap(Count(recs, b, j, v)) + k) else Wrap(Count(recs, b, j, v))
  {
    hide Flat, Pick, Wrap, Index;
    forall v | 0 <= v < 256
      ensures Wrap(Count(recs, b, j + 1, v)) ==
        if v == Digit(recs[j], b) then Wrap(Wrap(Count(recs, b, j, v)) + k) else Wrap(Count(recs, b, j, v))
    {
      PickPushBytes(recs, j, b, v);
      WrapSum(Count(recs, b, j, v), k);
    }
  }

  lemma WrapZero()
    ensures Wrap(0) == 0
  {
  }

  /** The second loop: exclusive prefix sums, in place. */
  method PrefixSums(counts: array<nat>, ghost recs: seq<Record>, b: nat)
    requires counts.Length == 256
    requires forall v :: 0 <= v < 256 ==> counts[v] == Wrap(Count(recs, b, |recs|, v))
    modifies counts
    ensures forall v :: 0 <= v < 256 ==> counts[v] == Wrap(Start(recs, b, v))
  {
    hide Start, Count, Wrap;
    var sum := 0;
    StartZero(recs, b);
    WrapZero();
    for i := 0 to 256
      invariant sum == Wrap(Start(recs, b, i))
      invariant forall v :: 0 <= v < i ==> counts[v] == Wrap(Start(recs, b, v))
      invariant forall v :: i <= v < 256 ==> counts[v] == Wrap(Count(recs, b, |recs|, v))
    {
      var tmp := counts[i];
      counts[i] := sum;
      StartStep(recs, b, i);
      WrapSum(Start(recs, b, i), Count(recs, b, |recs|, i));
      sum := Wrap(sum + tmp);
    }
  }

  /** memcpy of one record. */
  method CopyRecord(dst: array<Byte>, off: nat, src: array<Byte>, i: nat, k: nat)
    requires dst != src && off + k <= dst.Length && i + k <= src.Length
    modifies dst
    ensures dst[..] == old(dst[..off]) + src[i..i + k] + old(dst[off + k..])
  {
    forall l | 0 <= l < k { dst[off + l] := src[i + l]; }
  }

  /** Each group of the output holds, from its start, the records of the group met so far. */
  ghost predicate Filled(out: seq<Byte>, recs: seq<Record>, b: nat, j: nat)
    requires j <= |recs|
  {
    forall v :: 0 <= v < 256 ==>
      Fill(recs, b, j, v) <= |out| && out[Start(recs, b, v)..Fill(recs, b, j, v)] == Flat(Pick(recs[..j], b, v))
  }

  /**
   * What the scatter loop has achieved: within 2^32 bytes the groups are filled, beyond no byte
   * from 2^32 on has changed.
   */
  ghost predicate Scattered(was: seq<Byte>, out: seq<Byte>, recs: seq<Record>, b: nat, j: nat)
    requires j <= |recs|
  {
    if |was| <= WRAP then Filled(out, recs, b, j) else |out| == |was| && out[WRAP..] == was[WRAP..]
  }

  /** Copying the next record to the wrapped running offset of its group keeps that. */
  lemma ScatteredStep(was: seq<Byte>, out: seq<Byte>, recs: seq<Record>, b: nat, j: nat, k: nat)
    requires j < |recs| && AllWide(recs, k) && Width(k) && |was| == |out| == |Flat(recs)|
    requires Scattered(was, out, recs, b, j)
    ensures var off := Wrap(Fill(recs, b, j, Digit(recs[j], b)));
      off + k <= |out| && Scattered(was, out[..off] + recs[j] + out[off + k..], recs, b, j + 1)
  {
    hide Flat, Filled, Fill, Digit;
    var d := Digit(recs[j], b);
    var off := Wrap(Fill(recs, b, j, d));
    FillIsWholeRecords(recs, b, j, d, k);
    if |was| <= WRAP {
      OffsetInRange(recs, b, j, k);
      FilledStep(out, recs, b, j, out[..off] + recs[j] + out[off + k..]);
    } else {
      var out' := out[..off] + recs[j] + out[off + k..];
      assert forall l :: WRAP <= l < |out| ==> out'[l] == out[l];
      assert out'[WRAP..] == out[WRAP..];
    }
  }

  lemma NothingFilled(out: seq<Byte>, recs: seq<Record>, b: nat)
    requires |out| == |Flat(recs)|
    ensures Filled(out, recs, b, 0) && Flat(recs[..0]) == []
    ensures forall v :: 0 <= v < 256 ==> Fill(recs, b, 0, v) == Start(recs, b, v)
  {
    forall v | 0 <= v < 256 ensures Start(recs, b, v) <= |out| {
      StartMonotone(recs, b, v, 256);
      GroupsCoverAll(recs, b);
    }
  }

  /** A copy leaves a range before or behind it alone, and extends the range that it continues. */
  lemma SpliceApart(out: seq<Byte>, r: Record, off: nat, lo: nat, hi: nat)
    requires off + |r| <= |out| && lo <= hi <= |out| && (hi <= off || off + |r| <= lo)
    ensures (out[..off] + r + out[off + |r|..])[lo..hi] == out[lo..hi]
  {
  }

  lemma SpliceOwn(out: seq<Byte>, r: Record, off: nat, lo: nat)
    requires off + |r| <= |out| && lo <= off
    ensures (out[..off] + r + out[off + |r|..])[lo..off + |r|] == out[lo..off] + r
  {
  }

  /** Writing the next record at the end of its own group disturbs no other group. */
  lemma FilledStep(out: seq<Byte>, recs: seq<Record>, b: nat, j: nat, out': seq<Byte>)
    requires j < |recs| && |out| == |Flat(recs)|
    requires Filled(out, recs, b, j)
    requires var off := Fill(recs, b, j, Digit(recs[j], b));
      off + |recs[j]| <= |out| && out' == out[..off] + recs[j] + out[off + |recs[j]|..]
    ensures Filled(out', recs, b, j + 1)
  {
    hide Flat, Pick, Groups, Start, Index;
    var d := Digit(recs[j], b);
    var off := Fill(recs, b, j, d);
    FillStep(recs, b, j, d);
    forall v | 0 <= v < 256
      ensures Fill(recs, b, j + 1, v) <= |out'|
      ensures out'[Start(recs, b, v)..Fill(recs, b, j + 1, v)] == Flat(Pick(recs[..j + 1], b, v))
    {
      FillStep(recs, b, j, v);
      PickPushBytes(recs, j, b, v);
      var lo, hi := Start(recs, b, v), Fill(recs, b, j, v);
      if v == d {
        SpliceOwn(out, recs[j], off, lo);
      } else if v < d {
        StartMonotone(recs, b, v + 1, d);
        SpliceApart(out, recs[j], off, lo, hi);
      } else {
        StartMonotone(recs, b, d + 1, v);
        SpliceApart(out, recs[j], off, lo, hi);
      }
    }
  }

  /** When every record has been placed, the output is the concatenation of the groups. */
  lemma {:induction false} AllFilled(out: seq<Byte>, recs: seq<Record>, b: nat, v: nat)
    requires |out| == |Flat(recs)| && v <= 256
    requires Filled(out, recs, b, |recs|)
    ensures Start(recs, b, v) <= |out| && out[..Start(recs, b, v)] == Flat(Groups(recs, b, v))
  {
    hide Flat, Pick, Filled, Start;
    if v == 0 {
      StartZero(recs, b);
    } else {
      AllFilled(out, recs, b, v - 1);
      GroupFilled(out, recs, b, v - 1);
      FlatConcat(Groups(recs, b, v - 1), Pick(recs, b, v - 1));
      var lo, hi := Start(recs, b, v - 1), Start(recs, b, v);
      assert out[..hi] == out[..lo] + out[lo..hi];
    }
  }

  lemma GroupFilled(out: seq<Byte>, recs: seq<Record>, b: nat, v: nat)
    requires v < 256 && Filled(out, recs, b, |recs|)
    ensures Start(recs, b, v) <= Start(recs, b, v + 1) <= |out|
    ensures out[Start(recs, b, v)..Start(recs, b, v + 1)] == Flat(Pick(recs, b, v))
  {
    hide Flat, Pick, Start, Count;
    StartStep(recs, b, v);
    assert recs[..|recs|] == recs;
  }

  /** A wrapped offset of whole records is an offset of whole records below the wrap. */
  lemma WrappedMultiple(m: nat, k: nat, c: nat)
    requires c > 0 && c * k == WRAP
    ensures Wrap(m * k) + k <= WRAP
  {
    var q, r := m / c, m % c;
    assert m * k == q * WRAP + r * k by {
      assert m == q * c + r;
      assert m * k == q * c * k + r * k;
      assert q * c * k == q * (c * k);
    }
    assert r * k + k <= WRAP by {
      assert (r + 1) * k <= c * k;
      assert (r + 1) * k == r * k + k;
    }
    if k > 0 {
      assert (q * WRAP + r * k) % WRAP == r * k;
    }
  }

  lemma WrappedOffset(m: nat, k: nat)
    requires Width(k)
    ensures Wrap(m * k) + k <= WRAP
  {
    WrappedMultiple(m, k, WRAP / k);
  }

  lemma {:induction false} PickWide(recs: seq<Record>, b: nat, v: nat, k: nat)
    requires AllWide(recs, k)
    ensures AllWide(Pick(recs, b, v), k)
  {
    if recs != [] { PickWide(recs[..|recs| - 1], b, v, k); }
  }

  lemma {:induction false} GroupsWide(recs: seq<Record>, b: nat, v: nat, k: nat)
    requires AllWide(recs, k)
    ensures AllWide(Groups(recs, b, v), k)
  {
    if v > 0 {
      GroupsWide(recs, b, v - 1, k);
      PickWide(recs, b, v - 1, k);
    }
  }

  lemma FillIsWholeRecords(recs: seq<Record>, b: nat, j: nat, v: nat, k: nat)
    requires AllWide(recs, k) && Width(k) && j <= |recs|
    ensures Wrap(Fill(recs, b, j, v)) + k <= WRAP
  {
    hide Flat, Pick, Groups, Wrap, Index;
    var g, p := Groups(recs, b, v), Pick(recs[..j], b, v);
    GroupsWide(recs, b, v, k);
    PickWide(recs[..j], b, v, k);
    FlatLength(g, k);
    FlatLength(p, k);
    assert |g| * k + |p| * k == (|g| + |p|) * k;
    WrappedOffset(|g| + |p|, k);
  }

  /**
   * The third loop: each record goes to the running offset of its byte value.  Within 2^32
   * bytes this is the stable pass; beyond, no byte at or above 2^32 is ever written.
   */
  method Scatter(a: array<Byte>, dst: array<Byte>, counts: array<nat>, ghost recs: seq<Record>, k: nat, b: nat)
    requires Width(k) && b < k && AllWide(recs, k) && a[..] == Flat(recs)
    requires dst.Length == a.Length && a != dst
    requires counts.Length == 256 && a as object != counts && dst as object != counts
    requires forall v :: 0 <= v < 256 ==> counts[v] == Wrap(Start(recs, b, v))
    modifies dst, counts
    ensures a.Length <= WRAP ==> dst[..] == Flat(Pass(recs, b))
    ensures a.Length > WRAP ==> dst[WRAP..] == old(dst[WRAP..])
  {
    hide Flat, Pass, Start, Scattered, Fill, Wrap, Index, Offset, Offsets;
    var i := 0;
    ghost var j := 0;
    ghost var was := dst[..];
    NothingScattered(was, recs, b);
    FirstOffsets(counts[..], recs, b);
    OffsetOf(recs, 0, k);
    while i < a.Length
      invariant unchanged(a)
      invariant j <= |recs| && i == Offset(recs, j)
      invariant i <= a.Length && (i < a.Length <==> j < |recs|)
      invariant Offsets(counts[..], recs, b, j)
      invariant Scattered(was, dst[..], recs, b, j)
    {
      assert a[..] == old(a[..]);
      RecordAt(a[..], recs, j, k);
      DigitAt(a[..], recs, j, k, b);
      OffsetOf(recs, j + 1, k);
      var d := Index(a[i + b]);
      assert a[i..i + k] == a[..][i..i + k];
      OffsetsStep(counts[..], recs, b, j, k);
      ScatteredStep(was, dst[..], recs, b, j, k);
      CopyRecord(dst, counts[d], a, i, k);
      counts[d] := Wrap(counts[d] + k);
      i := i + k;
      j := j + 1;
    }
    ScatterDone(was, dst[..], recs, b);
  }

  /** The running offset of each byte value, after the first j records. */
  ghost predicate Offsets(counts: seq<nat>, recs: seq<Record>, b: nat, j: nat)
    requires j <= |recs|
  {
    |counts| == 256 && forall v :: 0 <= v < 256 ==> counts[v] == Wrap(Fill(recs, b, j, v))
  }

  lemma FirstOffsets(counts: seq<nat>, recs: seq<Record>, b: nat)
    requires |counts| == 256 && forall v :: 0 <= v < 256 ==> counts[v] == Wrap(Start(recs, b, v))
    ensures Offsets(counts, recs, b, 0)
  {
    hide Wrap, Start, Fill;
    FirstFill(recs, b);
  }

  lemma FirstFill(recs: seq<Record>, b: nat)
    ensures forall v :: 0 <= v < 256 ==> Fill(recs, b, 0, v) == Start(recs, b, v)
  {
    assert recs[..0] == [];
  }

  lemma OffsetsStep(counts: seq<nat>, recs: seq<Record>, b: nat, j: nat, k: nat)
    requires j < |recs| && |recs[j]| == k && Offsets(counts, recs, b, j)
    ensures var d := Digit(recs[j], b);
      && d < 256 && |counts| == 256 && counts[d] == Wrap(Fill(recs, b, j, d))
      && Offsets(counts[d := Wrap(counts[d] + k)], recs, b, j + 1)
  {
    hide Fill, Wrap, Index;
    FillSteps(recs, b, j, k);
  }

  lemma NothingScattered(was: seq<Byte>, recs: seq<Record>, b: nat)
    requires |was| == |Flat(recs)|
    ensures Scattered(was, was, recs, b, 0)
  {
    NothingFilled(was, recs, b);
  }

  lemma ScatterDone(was: seq<Byte>, out: seq<Byte>, recs: seq<Record>, b: nat)
    requires |was| == |out| == |Flat(recs)| && Scattered(was, out, recs, b, |recs|)
    ensures |was| <= WRAP ==> out == Flat(Pass(recs, b))
    ensures |was| > WRAP ==> out[WRAP..] == was[WRAP..]
  {
    if |was| <= WRAP { WholePass(out, recs, b); }
  }

  lemma WholePass(out: seq<Byte>, recs: seq<Record>, b: nat)
    requires |out| == |Flat(recs)| && Filled(out, recs, b, |recs|)
    ensures out == Flat(Pass(recs, b))
  {
    hide Flat, Groups, Filled, Start;
    AllFilled(out, recs, b, 256);
    GroupsCoverAll(recs, b);
    assert out[..|out|] == out;
  }

  lemma FillSteps(recs: seq<Record>, b: nat, j: nat, k: nat)
    requires j < |recs| && |recs[j]| == k
    ensures forall v :: 0 <= v < 256 ==>
      Wrap(Fill(recs, b, j + 1, v)) ==
      if v == Digit(recs[j], b) then Wrap(Wrap(Fill(recs, b, j, v)) + k) else Wrap(Fill(recs, b, j, v))
  {
    hide Fill, Wrap, Index;
    forall v | 0 <= v < 256
      ensures Wrap(Fill(recs, b, j + 1, v)) ==
        if v == Digit(recs[j], b) then Wrap(Wrap(Fill(recs, b, j, v)) + k) else Wrap(Fill(recs, b, j, v))
    {
      FillStep(recs, b, j, v);
      WrapSum(Fill(recs, b, j, v), k);
    }
  }

  /** Within 2^32 bytes the running offset is exact and the record fits below it. */
  lemma OffsetInRange(recs: seq<Record>, b: nat, j: nat, k: nat)
    requires j < |recs| && AllWide(recs, k) && k > 0
    requires |Flat(recs)| <= WRAP
    ensures var off := Fill(recs, b, j, Digit(recs[j], b));
      Wrap(off) == off && off + k <= |Flat(recs)|
  {
    hide Flat, Fill, Start, Digit;
    var d := Digit(recs[j], b);
    FillStep(recs, b, j, d);
    StartMonotone(recs, b, d + 1, 256);
    GroupsCoverAll(recs, b);
  }

  // ---------- the whole sort ----------

  lemma {:induction false} PassesKeepShape(recs: seq<Record>, j: nat, k: nat)
    requires AllWide(recs, k)
    ensures AllWide(Passes(recs, j), k) && |Flat(Passes(recs, j))| == |Flat(recs)|
  {
    if j > 0 {
      PassesKeepShape(recs, j - 1, k);
      GroupsWide(Passes(recs, j - 1), j - 1, 256, k);
      GroupsCoverAll(Passes(recs, j - 1), j - 1);
    }
  }

  /**
   * SortInternal: one pass per byte, each from one buffer into the other, and a final copy for
   * odd widths.  Within 2^32 bytes the result is the composition of all passes.  Beyond, the
   * bytes of p from 2^32 on are those a buffer held before: see WrapLosesRecords.
   */
  method SortInternal(scratch: array<Byte>, p: array<Byte>, n: nat, k: nat)
    requires Width(k) && p.Length == n * k && scratch.Length == n * k && p != scratch
    modifies p, scratch
    ensures n * k <= WRAP ==> p[..] == Flat(Passes(Records(old(p[..]), n, k), k))
    ensures n * k > WRAP ==> p[WRAP..] == (if k == 1 then old(scratch[WRAP..]) else old(p[WRAP..]))
  {
    ghost var recs := Records(p[..], n, k);
    RunPasses(scratch, p, recs, k);
    if k % 2 == 1 {
      assert k == 1 && n * k == n;
      forall l | 0 <= l < n { p[l] := scratch[l]; }
      assert p[..] == scratch[..];
    }
  }

  /** The loop over the bytes of a record: even passes go from p to scratch, odd ones back. */
  method RunPasses(scratch: array<Byte>, p: array<Byte>, ghost recs: seq<Record>, k: nat)
    requires Width(k) && p.Length == scratch.Length && p != scratch
    requires AllWide(recs, k) && p[..] == Flat(recs)
    modifies p, scratch
    ensures p.Length <= WRAP ==> (if k == 1 then scratch else p)[..] == Flat(Passes(recs, k))
    ensures p.Length > WRAP && k > 1 ==> p[WRAP..] == old(p[WRAP..])
    ensures p.Length > WRAP && k == 1 ==> scratch[WRAP..] == old(scratch[WRAP..])
  {
    hide Passes, Pass, Flat, Index;
    FirstPasses(recs);
    ghost var cur := recs;
    var iByte := 0;
    while iByte < k
      invariant iByte <= k
      invariant AllWide(cur, k)
      invariant (if iByte % 2 == 0 then p else scratch)[..] == Flat(cur)
      invariant p.Length <= WRAP ==> cur == Passes(recs, iByte)
      invariant KeepsTail(old(p[..]), p[..]) && (iByte <= 1 ==> KeepsTail(old(scratch[..]), scratch[..]))
    {
      if iByte % 2 == 0 {
        OnePass(p, scratch, cur, k, iByte);
        cur := AfterPass(scratch, cur, recs, iByte, k);
      } else {
        OnePass(scratch, p, cur, k, iByte);
        cur := AfterPass(p, cur, recs, iByte, k);
      }
      iByte := iByte + 1;
    }
  }

  /** Beyond 2^32 bytes, nothing from byte 2^32 on has changed. */
  predicate KeepsTail(was: seq<Byte>, now: seq<Byte>) {
    |was| == |now| && (|was| > WRAP ==> now[WRAP..] == was[WRAP..])
  }

  /** The records in the buffer a pass has written, whatever they are beyond the wrap. */
  ghost method AfterPass(a: array<Byte>, cur: seq<Record>, recs: seq<Record>, j: nat, k: nat) returns (next: seq<Record>)
    requires AllWide(cur, k) && AllWide(recs, k) && |Flat(cur)| == a.Length
    requires a.Length <= WRAP ==> a[..] == Flat(Pass(cur, j)) && cur == Passes(recs, j)
    ensures AllWide(next, k) && Flat(next) == a[..]
    ensures a.Length <= WRAP ==> next == Passes(recs, j + 1)
  {
    if a.Length <= WRAP {
      next := Pass(cur, j);
      PassesKeepShape(recs, j + 1, k);
    } else {
      FlatLength(cur, k);
      next := Records(a[..], |cur|, k);
    }
  }

  method OnePass(a: array<Byte>, dst: array<Byte>, ghost recs: seq<Record>, k: nat, b: nat)
    requires Width(k) && b < k && AllWide(recs, k) && a[..] == Flat(recs)
    requires dst.Length == a.Length && a != dst
    modifies dst
    ensures a.Length <= WRAP ==> dst[..] == Flat(Pass(recs, b))
    ensures KeepsTail(old(dst[..]), dst[..]) || a.Length <= WRAP
  {
    var counts := CountBytes(a, recs, k, b);
    PrefixSums(counts, recs, b);
    Scatter(a, dst, counts, recs, k, b);
  }

  lemma FirstPasses(recs: seq<Record>)
    ensures Passes(recs, 0) == recs
  {
  }
}
