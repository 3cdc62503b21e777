/**
 * The probing hash table of ground/drone/util/fast_map/fast_map_common.h.
 *
 * A probe looks at four lanes, then moves on by a whole 16-slot bucket.  The vector
 * compares of the source are modelled as "first lane that matches".
 */
module FastMap {
  import opened Common

  type U32 = x: nat | x < 0x1_0000_0000

  const INVALID: U32 := 0xFFFF_FFFF
  const BUCKET: nat := 16
  const LANES: nat := 4

  // ---------- capacity ----------

  /** kPaddedCap, for the default load factor of 80. */
  function PaddedCap(capacity: nat): (r: nat) { Max(capacity * 100 / 80, BUCKET) }

  /** The least power of two that is at least x: 1 << (64 - clz(x - 1)) for x >= 2. */
  function PowerAtLeast(p: nat, x: nat): (r: nat)
    requires p > 0 && p % BUCKET == 0
    ensures r >= x && r >= p && r % BUCKET == 0
    decreases x - p
  {
    if p >= x then p else PowerAtLeast(2 * p, x)
  }

  function InternalCap(capacity: nat): (r: nat) { PowerAtLeast(BUCKET, PaddedCap(capacity)) }

  /** The table is a whole number of buckets and has a slot for every key it may hold. */
  lemma InternalCapHoldsCapacity(capacity: nat)
    ensures var c := InternalCap(capacity);
      c >= BUCKET && c % BUCKET == 0 && c >= capacity
  {
    assert capacity * 100 / 80 >= capacity;
  }

  lemma {:induction false} PowerIsLeast(p: nat, x: nat, n: nat)
    requires p == Pow2(n) && p % BUCKET == 0 && (p > BUCKET ==> p < 2 * x)
    ensures var r := PowerAtLeast(p, x); (exists e: nat :: r == Pow2(e)) && (r > BUCKET ==> r < 2 * x)
    decreases x - p
  {
    if p < x {
      Pow2Doubles(n);
      PowerIsLeast(2 * p, x, n + 1);
    }
  }

  /**
   * The table is the smallest power of two from 16 on that a full map loads to at most 80 percent
   * (up to the rounding of the padded capacity): half of it would not do.
   */
  lemma InternalCapIsLeast(capacity: nat)
    ensures var c := InternalCap(capacity);
      && (exists e: nat :: c == Pow2(e)) && c >= 16
      && 100 * capacity < 80 * (c + 1)
      && (c > 16 ==> 80 * (c / 2 + 1) <= 100 * capacity)
  {
    assert Pow2(4) == 16;
    PowerIsLeast(BUCKET, PaddedCap(capacity), 4);
  }

  // ---------- the probe sequence ----------

  /** Start of the window inspected at probe j: each probe moves one bucket on, wrapping. */
  function Window(home: nat, j: nat, cap: nat): (r: nat)
    requires cap > 0
  {
    if j == 0 then home else (Window(home, j - 1, cap) + BUCKET) % cap
  }

  /** The four lanes of a window stay inside the table when they stay inside their bucket. */
  predicate HomeFits(home: nat) { home % BUCKET <= BUCKET - LANES }

  /** A multiple of the bucket size, and an index below it, in buckets and lanes. */
  lemma BucketOf(w: nat, cap: nat) returns (a: nat, r: nat, b: nat)
    requires cap % BUCKET == 0 && w < cap
    ensures w == BUCKET * a + r && r == w % BUCKET && cap == BUCKET * b && a < b
  {
    a, r, b := w / BUCKET, w % BUCKET, cap / BUCKET;
  }

  lemma LaneOf(a: nat, r: nat)
    requires r < BUCKET
    ensures (BUCKET * a + r) % BUCKET == r
  {
  }

  lemma Modulo(x: nat, cap: nat)
    requires 0 < cap && x < 2 * cap
    ensures x % cap == if x < cap then x else x - cap
  {
    if x >= cap {
      assert x / cap == 1;
    }
  }

  /** One step of the index keeps its place inside the bucket, and so the whole window in range. */
  lemma StepInside(w: nat, cap: nat)
    requires cap % BUCKET == 0 && w < cap
    ensures var n := (w + BUCKET) % cap; n < cap && n % BUCKET == w % BUCKET
    ensures HomeFits(w) ==> w + LANES <= cap
  {
    var a, r, b := BucketOf(w, cap);
    Modulo(w + BUCKET, cap);
    if a + 1 < b {
      LaneOf(a + 1, r);
    } else {
      LaneOf(0, r);
    }
  }

  /** Every probe of a home that fits stays inside the table; no other home is safe to read. */
  lemma {:induction false} WindowInside(home: nat, j: nat, cap: nat)
    requires cap % BUCKET == 0 && home < cap
    ensures var w := Window(home, j, cap); w < cap && w % BUCKET == home % BUCKET
    ensures HomeFits(home) ==> Window(home, j, cap) + LANES <= cap
  {
    if j > 0 {
      WindowInside(home, j - 1, cap);
      StepInside(Window(home, j - 1, cap), cap);
    }
    StepInside(Window(home, j, cap), cap);
  }

  /** Where the window of probe j starts, wrapping at most once in a loop over the table. */
  lemma {:induction false} WindowClosed(home: nat, j: nat, cap: nat)
    requires home < cap && j * BUCKET < cap
    ensures Window(home, j, cap) == if home + j * BUCKET < cap then home + j * BUCKET else home + j * BUCKET - cap
  {
    if j > 0 {
      WindowClosed(home, j - 1, cap);
      Modulo(Window(home, j - 1, cap) + BUCKET, cap);
    }
  }

  /**
   * All probes of the loop stay inside the table exactly when the four lanes of the home stay
   * inside their bucket: any other home reads past the end at its last probe before the wrap.
   */
  lemma HomeFitsExactly(home: nat, cap: nat)
    requires cap % BUCKET == 0 && home < cap
    ensures HomeFits(home) <==> forall j: nat :: j * BUCKET < cap ==> Window(home, j, cap) + LANES <= cap
  {
    if HomeFits(home) {
      forall j: nat | j * BUCKET < cap ensures Window(home, j, cap) + LANES <= cap {
        WindowInside(home, j, cap);
      }
    } else {
      var j := (cap - 1 - home) / BUCKET;
      var a, r, b := BucketOf(home, cap);
      assert j == b - 1 - a;
      WindowClosed(home, j, cap);
      assert Window(home, j, cap) + LANES > cap;
    }
  }

  /** Slot i is one of the lanes inspected at probe j. */
  ghost predicate InWindow(i: nat, home: nat, j: nat, cap: nat)
    requires cap > 0
  {
    i < cap && Window(home, j, cap) <= i < Window(home, j, cap) + LANES
  }

  ghost predicate WindowFull(ks: seq<U32>, home: nat, j: nat)
    requires |ks| > 0
  {
    forall i :: 0 <= i < |ks| && InWindow(i, home, j, |ks|) ==> ks[i] != INVALID
  }

  /** No probe of the loop finds an empty lane. */
  ghost predicate PathFull(ks: seq<U32>, home: nat)
    requires |ks| > 0
  {
    forall l: nat :: l * BUCKET < |ks| ==> WindowFull(ks, home, l)
  }

  /** Key k sits in the given slot, in the window of the given probe; every earlier window is full. */
  ghost predicate Placed(ks: seq<U32>, k: U32, home: nat, slot: nat, probe: nat)
    requires |ks| > 0
  {
    && probe * BUCKET < |ks|
    && slot < |ks| && InWindow(slot, home, probe, |ks|)
    && ks[slot] == k
    && forall j :: 0 <= j < probe ==> WindowFull(ks, home, j)
  }

  /** Filling an empty slot leaves every key where it was and reachable as before. */
  lemma StaysPlaced(ks: seq<U32>, k: U32, home: nat, slot: nat, probe: nat, i: nat, key: U32)
    requires 0 < |ks| && i < |ks| && ks[i] == INVALID && k != INVALID && key != INVALID
    requires Placed(ks, k, home, slot, probe)
    ensures Placed(ks[i := key], k, home, slot, probe)
  {
    var ks' := ks[i := key];
    forall j | 0 <= j < probe ensures WindowFull(ks', home, j) {
      assert WindowFull(ks, home, j);
    }
  }

  lemma NewKeyIsPlaced(ks: seq<U32>, key: U32, home: nat, slot: nat, probe: nat)
    requires 0 < |ks| && slot < |ks| && probe * BUCKET < |ks| && key != INVALID
    requires InWindow(slot, home, probe, |ks|)
    requires forall j :: 0 <= j < probe ==> WindowFull(ks, home, j)
    ensures Placed(ks[slot := key], key, home, slot, probe)
  {
    var ks' := ks[slot := key];
    forall j | 0 <= j < probe ensures WindowFull(ks', home, j) {
      assert WindowFull(ks, home, j);
    }
  }

  // ---------- the whole table ----------

  /** Index of a key: the hash masked to the table size, a power of two. */
  function Home(hash: U32 -> nat, k: U32, cap: nat): (r: nat)
    requires cap > 0
    ensures r < cap
  {
    hash(k) % cap
  }

  /** A table of keys and values, and the finite map it stands for. */
  ghost predicate Represents(ks: seq<U32>, vs: seq<U32>, hash: U32 -> nat,
                             m: map<U32, U32>, slot: map<U32, nat>, probe: map<U32, nat>) {
    && 0 < |ks| == |vs|
    && INVALID !in m
    && slot.Keys == m.Keys && probe.Keys == m.Keys
    && (forall k :: k in m ==> Placed(ks, k, Home(hash, k, |ks|), slot[k], probe[k]))
    && (forall k :: k in m ==> slot[k] < |vs| && vs[slot[k]] == m[k])
    && (forall i :: 0 <= i < |ks| && ks[i] != INVALID ==> ks[i] in m && slot[ks[i]] == i)
  }

  lemma EmptyRepresents(ks: seq<U32>, vs: seq<U32>, hash: U32 -> nat)
    requires 0 < |ks| == |vs| && forall i :: 0 <= i < |ks| ==> ks[i] == INVALID
    ensures Represents(ks, vs, hash, map[], map[], map[])
  {
  }

  lemma KeysHaveOwnSlots(ks: seq<U32>, vs: seq<U32>, hash: U32 -> nat,
                         m: map<U32, U32>, slot: map<U32, nat>, probe: map<U32, nat>, k: U32)
    requires Represents(ks, vs, hash, m, slot, probe) && k in m
    ensures slot[k] < |ks| && ks[slot[k]] == k && probe[k] * BUCKET < |ks|
  {
    assert Placed(ks, k, Home(hash, k, |ks|), slot[k], probe[k]);
  }

  /** Overwriting the value beside a key updates the map at that key. */
  lemma OverwriteRepresents(ks: seq<U32>, vs: seq<U32>, hash: U32 -> nat,
                            m: map<U32, U32>, slot: map<U32, nat>, probe: map<U32, nat>, i: nat, v: U32)
    requires Represents(ks, vs, hash, m, slot, probe)
    requires i < |ks| && ks[i] != INVALID
    ensures Represents(ks, vs[i := v], hash, m[ks[i] := v], slot, probe)
    ensures ks[i] in m
  {
    hide Placed, Home;
    forall k | k in m ensures slot[k] < |ks| && ks[slot[k]] == k {
      KeysHaveOwnSlots(ks, vs, hash, m, slot, probe, k);
    }
    assert m[ks[i] := v].Keys == m.Keys;
  }

  /** Filling the first empty lane on a key's probe path adds the key to the map. */
  lemma AddRepresents(ks: seq<U32>, vs: seq<U32>, hash: U32 -> nat,
                      m: map<U32, U32>, slot: map<U32, nat>, probe: map<U32, nat>, i: nat, j: nat, key: U32, v: U32)
    requires Represents(ks, vs, hash, m, slot, probe)
    requires i < |ks| && ks[i] == INVALID && key != INVALID && key !in m
    requires j * BUCKET < |ks| && InWindow(i, Home(hash, key, |ks|), j, |ks|)
    requires forall l :: 0 <= l < j ==> WindowFull(ks, Home(hash, key, |ks|), l)
    ensures Represents(ks[i := key], vs[i := v], hash, m[key := v], slot[key := i], probe[key := j])
  {
    hide Placed, Home, InWindow, WindowFull;
    var ks', vs', m', slot', probe' := ks[i := key], vs[i := v], m[key := v], slot[key := i], probe[key := j];
    NewKeyIsPlaced(ks, key, Home(hash, key, |ks|), i, j);
    forall k | k in m ensures slot[k] < |ks| && ks[slot[k]] == k && slot[k] != i {
      KeysHaveOwnSlots(ks, vs, hash, m, slot, probe, k);
    }
    forall k | k in m' ensures Placed(ks', k, Home(hash, k, |ks'|), slot'[k], probe'[k]) {
      if k != key {
        StaysPlaced(ks, k, Home(hash, k, |ks|), slot[k], probe[k], i, key);
      }
    }
    forall l | 0 <= l < |ks'| && ks'[l] != INVALID ensures ks'[l] in m' && slot'[ks'[l]] == l {
      if l != i {
        assert ks[l] in m;
      }
    }
  }

  /** Different probes of a loop look at different lanes. */
  lemma WindowsApart(home: nat, l: nat, j: nat, cap: nat, i: nat)
    requires cap % BUCKET == 0 && home < cap && l < j && j * BUCKET < cap
    ensures !(InWindow(i, home, l, cap) && InWindow(i, home, j, cap))
  {
    hide Window;
    var a, r, b := BucketOf(home, cap);
    WindowClosed(home, l, cap);
    WindowClosed(home, j, cap);
    var x, y := if a + l < b then a + l else a + l - b, if a + j < b then a + j else a + j - b;
    assert Window(home, l, cap) == BUCKET * x + r && Window(home, j, cap) == BUCKET * y + r;
    assert x != y;
  }

  /** The keys in the first j windows of a path, if those are full: four for each. */
  lemma {:induction false} FullWindowsHoldKeys(ks: seq<U32>, vs: seq<U32>, hash: U32 -> nat, m: map<U32, U32>,
                                               slot: map<U32, nat>, probe: map<U32, nat>, home: nat, j: nat)
    returns (found: set<U32>)
    requires Represents(ks, vs, hash, m, slot, probe)
    requires |ks| % BUCKET == 0 && home < |ks| && HomeFits(home) && j * BUCKET <= |ks|
    requires forall l: nat :: l < j ==> WindowFull(ks, home, l)
    ensures found <= m.Keys && |found| == LANES * j
    ensures forall k :: k in found ==> exists l: nat :: l < j && InWindow(slot[k], home, l, |ks|)
    decreases j
  {
    hide Represents, WindowFull, HomeFits, Placed, Home, InWindow;
    found := {};
    RepresentsKeys(ks, vs, hash, m, slot, probe);
    if j > 0 {
      var before := FullWindowsHoldKeys(ks, vs, hash, m, slot, probe, home, j - 1);
      var four := WindowKeys(ks, vs, hash, m, slot, probe, home, j - 1);
      forall k | k in four ensures k !in before {
        if k in before {
          var l: nat :| l < j - 1 && InWindow(slot[k], home, l, |ks|);
          WindowsApart(home, l, j - 1, |ks|, slot[k]);
        }
      }
      found := before + four;
      assert before !! four;
    }
  }

  lemma RepresentsKeys(ks: seq<U32>, vs: seq<U32>, hash: U32 -> nat,
                       m: map<U32, U32>, slot: map<U32, nat>, probe: map<U32, nat>)
    requires Represents(ks, vs, hash, m, slot, probe)
    ensures slot.Keys == m.Keys
  {
  }

  lemma WindowKeys(ks: seq<U32>, vs: seq<U32>, hash: U32 -> nat, m: map<U32, U32>,
                   slot: map<U32, nat>, probe: map<U32, nat>, home: nat, j: nat)
    returns (four: set<U32>)
    requires Represents(ks, vs, hash, m, slot, probe)
    requires |ks| % BUCKET == 0 && home < |ks| && HomeFits(home) && j * BUCKET < |ks| && WindowFull(ks, home, j)
    ensures four <= m.Keys && |four| == LANES
    ensures slot.Keys == m.Keys && forall k :: k in four ==> InWindow(slot[k], home, j, |ks|)
  {
    hide Placed, Home, Window;
    WindowInside(home, j, |ks|);
    var w := Window(home, j, |ks|);
    assert forall i :: w <= i < w + LANES ==> InWindow(i, home, j, |ks|);
    assert forall i :: w <= i < w + LANES ==> ks[i] in m && slot[ks[i]] == i;
    four := {ks[w], ks[w + 1], ks[w + 2], ks[w + 3]};
  }

  /** A path can only be full in a table that is at least a quarter full. */
  lemma FullPathNeedsQuarter(ks: seq<U32>, vs: seq<U32>, hash: U32 -> nat, m: map<U32, U32>,
                             slot: map<U32, nat>, probe: map<U32, nat>, home: nat)
    requires Represents(ks, vs, hash, m, slot, probe)
    requires |ks| % BUCKET == 0 && home < |ks| && HomeFits(home)
    ensures PathFull(ks, home) ==> |ks| <= LANES * |m|
  {
    hide Represents, WindowFull, HomeFits;
    if PathFull(ks, home) {
      var buckets := |ks| / BUCKET;
      assert buckets * BUCKET == |ks|;
      var found := FullWindowsHoldKeys(ks, vs, hash, m, slot, probe, home, buckets);
      SubsetSize(found, m.Keys);
      assert |m.Keys| == |m|;
    }
  }

  /** What the two compares of one probe say about where a key can be. */
  lemma ProbeNarrows(ks: seq<U32>, k: U32, home: nat, slot: nat, probe: nat, j: nat)
    requires 0 < |ks| && Placed(ks, k, home, slot, probe) && probe >= j
    requires Window(home, j, |ks|) + LANES <= |ks|
    requires forall i :: Window(home, j, |ks|) <= i < Window(home, j, |ks|) + LANES ==> ks[i] != k
    ensures probe >= j + 1
    ensures forall i :: Window(home, j, |ks|) <= i < Window(home, j, |ks|) + LANES ==> ks[i] != INVALID
  {
    assert WindowFull(ks, home, j);
    forall i | Window(home, j, |ks|) <= i < Window(home, j, |ks|) + LANES ensures ks[i] != INVALID {
      assert InWindow(i, home, j, |ks|);
    }
  }

  lemma WindowSteps(home: nat, j: nat, cap: nat)
    requires cap > 0
    ensures Window(home, 0, cap) == home
    ensures Window(home, j + 1, cap) == (Window(home, j, cap) + BUCKET) % cap
  {
  }

  lemma LaneInWindow(i: nat, home: nat, j: nat, cap: nat)
    requires cap > 0 && Window(home, j, cap) <= i < Window(home, j, cap) + LANES <= cap
    ensures InWindow(i, home, j, cap)
  {
  }

  lemma NoEmptyLane(ks: seq<U32>, home: nat, j: nat)
    requires |ks| > 0 && Window(home, j, |ks|) + LANES <= |ks|
    requires forall i :: Window(home, j, |ks|) <= i < Window(home, j, |ks|) + LANES ==> ks[i] != INVALID
    ensures WindowFull(ks, home, j)
  {
  }

  // ---------- the abstract map ----------

  datatype Op = InsertOp(key: U32, value: U32) | FindOp(key: U32) | ClearOp
  datatype Located = At(slot: nat) | Free(slot: nat) | Nowhere
  datatype Outcome = Inserted(ok: bool) | Found(value: Option<U32>) | Cleared

  function Lookup(m: map<U32, U32>, key: U32): (r: Option<U32>) {
    if key in m then Some(m[key]) else None
  }

  /** The table after an insertion: a new key takes an empty lane of the first window that has one. */
  ghost predicate TableAfter(t: seq<U32>, added: bool, key: U32, home: nat, t': seq<U32>)
    requires |t| > 0
  {
    if added then
      exists slot: nat, j: nat :: Takes(t, key, home, slot, j) && t' == t[slot := key]
    else
      t' == t
  }

  lemma TakenLane(t: seq<U32>, key: U32, home: nat, slot: nat, j: nat)
    requires |t| > 0 && slot < |t| && j * BUCKET < |t| && InWindow(slot, home, j, |t|) && t[slot] == INVALID
    requires forall l :: 0 <= l < j ==> WindowFull(t, home, l)
    ensures Takes(t, key, home, slot, j) && !PathFull(t, home)
  {
    assert !WindowFull(t, home, j);
  }

  ghost predicate Takes(t: seq<U32>, key: U32, home: nat, slot: nat, j: nat)
    requires |t| > 0
  {
    && j * BUCKET < |t| && InWindow(slot, home, j, |t|) && t[slot] == INVALID
    && forall l :: 0 <= l < j ==> WindowFull(t, home, l)
  }

  /**
   * What an operation may answer, on the abstract map m and the table t of its keys, and what both
   * are afterwards.  A new key is taken exactly when the map is below capacity and the path of the
   * key has an empty lane.
   */
  ghost predicate Allowed(hash: U32 -> nat, capacity: nat, m: map<U32, U32>, t: seq<U32>,
                          op: Op, out: Outcome, m': map<U32, U32>, t': seq<U32>) {
    |t| > 0 &&
    match op
    case InsertOp(k, v) =>
      var home := Home(hash, k, |t|);
      && out.Inserted?
      && (out.ok <==> k in m || (|m| < capacity && !PathFull(t, home)))
      && m' == (if out.ok then m[k := v] else m)
      && TableAfter(t, out.ok && k !in m, k, home, t')
      && |m'| <= capacity
    case FindOp(k) => out == Found(Lookup(m, k)) && m' == m && t' == t
    case ClearOp => out == Cleared && m' == map[] && t' == seq(|t|, _ => INVALID)
  }

  /** A run of outcomes that starts at m and t and ends at m' and t'. */
  ghost predicate AllowedRun(hash: U32 -> nat, capacity: nat, m: map<U32, U32>, t: seq<U32>,
                             ops: seq<Op>, outs: seq<Outcome>, m': map<U32, U32>, t': seq<U32>) {
    |ops| == |outs| &&
    if ops == [] then m' == m && t' == t
    else
      var n := |ops| - 1;
      exists mid, table :: AllowedRun(hash, capacity, m, t, ops[..n], outs[..n], mid, table)
                           && Allowed(hash, capacity, mid, table, ops[n], outs[n], m', t')
  }

  /** The value of the last insertion of the key that succeeded since the last clear. */
  function LastWrite(ops: seq<Op>, outs: seq<Outcome>, key: U32): (r: Option<U32>)
    requires |ops| == |outs|
  {
    if ops == [] then None
    else
      var n := |ops| - 1;
      match ops[n]
      case InsertOp(k, v) => if k == key && outs[n] == Inserted(true) then Some(v) else LastWrite(ops[..n], outs[..n], key)
      case FindOp(_) => LastWrite(ops[..n], outs[..n], key)
      case ClearOp => None
  }

  /** After a run on an empty table the map holds the last write of every key... */
  lemma {:induction false} HoldsLastWrite(hash: U32 -> nat, capacity: nat, t: seq<U32>,
                                          ops: seq<Op>, outs: seq<Outcome>, m': map<U32, U32>, t': seq<U32>, key: U32)
    requires AllowedRun(hash, capacity, map[], t, ops, outs, m', t')
    ensures (if key in m' then Some(m'[key]) else None) == LastWrite(ops, outs, key)
    decreases |ops|
  {
    hide Home, PathFull, TableAfter;
    if ops != [] {
      var n := |ops| - 1;
      var mid, table :| AllowedRun(hash, capacity, map[], t, ops[..n], outs[..n], mid, table)
                        && Allowed(hash, capacity, mid, table, ops[n], outs[n], m', t');
      HoldsLastWrite(hash, capacity, t, ops[..n], outs[..n], mid, table, key);
    }
  }

  /** ... and every search in it answers the last write before it. */
  lemma FindsLastWrite(hash: U32 -> nat, capacity: nat, t: seq<U32>,
                       ops: seq<Op>, outs: seq<Outcome>, m': map<U32, U32>, t': seq<U32>, i: nat)
    requires AllowedRun(hash, capacity, map[], t, ops, outs, m', t') && i < |ops| && ops[i].FindOp?
    ensures outs[i] == Found(LastWrite(ops[..i], outs[..i], ops[i].key))
    decreases |ops|
  {
    hide Home, PathFull, TableAfter, LastWrite;
    var n := |ops| - 1;
    var mid, table :| AllowedRun(hash, capacity, map[], t, ops[..n], outs[..n], mid, table)
                      && Allowed(hash, capacity, mid, table, ops[n], outs[n], m', t');
    if i == n {
      HoldsLastWrite(hash, capacity, t, ops[..n], outs[..n], mid, table, ops[i].key);
    } else {
      FindsLastWrite(hash, capacity, t, ops[..n], outs[..n], mid, table, i);
      assert ops[..n][..i] == ops[..i] && outs[..n][..i] == outs[..i];
    }
  }

  class FastMap32 {
    const capacity: nat
    const cap: nat
    const hash: U32 -> nat
    const keys: array<U32>
    const values: array<U32>
    var size: nat

    /** The abstract contents, and where each key lives: its slot and the probe that finds it. */
    ghost var Contents: map<U32, U32>
    ghost var Slot: map<U32, nat>
    ghost var Probe: map<U32, nat>

    ghost predicate Valid()
      reads this, keys, values
    {
      && cap >= BUCKET && cap % BUCKET == 0
      && keys.Length == cap && values.Length == cap && keys != values
      && size == |Contents| <= capacity
      && Represents(keys[..], values[..], hash, Contents, Slot, Probe)
    }

    constructor (capacity: nat, hash: U32 -> nat)
      ensures Valid() && Contents == map[]
      ensures this.capacity == capacity && this.hash == hash && cap == InternalCap(capacity)
      ensures fresh(keys) && fresh(values)
    {
      InternalCapHoldsCapacity(capacity);
      this.capacity := capacity;
      this.hash := hash;
      var c := InternalCap(capacity);
      cap := c;
      keys := new U32[c](_ => INVALID);
      values := new U32[c](_ => 0);
      size := 0;
      Contents, Slot, Probe := map[], map[], map[];
    }

    /** First lane of the window at idx that holds x, or LANES: compare, movemask, ctz. */
    method FirstLane(idx: nat, x: U32) returns (lane: nat)
      requires keys.Length >= idx + LANES
      ensures lane <= LANES
      ensures forall i :: idx <= i < idx + lane ==> keys[i] != x
      ensures lane < LANES ==> keys[idx + lane] == x
    {
      lane := 0;
      while lane < LANES && keys[idx + lane] != x
        invariant lane <= LANES
        invariant forall i :: idx <= i < idx + lane ==> keys[i] != x
      {
        lane := lane + 1;
      }
    }

    /** What the two compares of one probe say about a key of this table. */
    lemma ProbeSays(k: U32, j: nat, idx: nat)
      requires Valid() && (k in Contents ==> Probe[k] >= j)
      requires idx == Window(Home(hash, k, cap), j, cap) && idx + LANES <= cap
      requires forall i :: idx <= i < idx + LANES ==> keys[i] != k
      ensures k in Contents ==> Probe[k] >= j + 1
      ensures k in Contents ==> forall i :: idx <= i < idx + LANES ==> keys[i] != INVALID
    {
      hide Placed, Window, Home;
      if k in Contents {
        ProbeNarrows(keys[..], k, Home(hash, k, cap), Slot[k], Probe[k], j);
        assert forall i :: idx <= i < idx + LANES ==> keys[..][i] == keys[i];
      }
    }

    /** Find: the slot of the key, or nothing. */
    method Find(key: U32) returns (r: Option<nat>)
      requires Valid() && key != INVALID && HomeFits(Home(hash, key, cap))
      ensures r.Some? <==> key in Contents
      ensures r.Some? ==> r.value == Slot[key] && r.value < cap && values[r.value] == Contents[key]
    {
      hide HomeFits, Placed, Window, Represents;
      KeyFacts(key);
      var home := Home(hash, key, cap);
      hide Home;
      var idx := home;
      var probe := 0;
      ghost var j := 0;
      WindowSteps(home, j, cap);
      while probe < cap
        invariant probe == j * BUCKET && idx == Window(home, j, cap)
        invariant key in Contents ==> Probe[key] >= j
        decreases cap - probe
      {
        WindowInside(home, j, cap);
        WindowSteps(home, j, cap);
        var lane := FirstLane(idx, key);
        if lane < LANES {
          SlotOf(key, idx + lane);
          return Some(idx + lane);
        }
        ProbeSays(key, j, idx);
        var empty := FirstLane(idx, INVALID);
        if empty < LANES {
          assert keys[idx + empty] == INVALID;
          return None;
        }
        idx := (idx + BUCKET) % cap;
        probe := probe + BUCKET;
        j := j + 1;
      }
      return None;
    }

    /** One probe of Insert: the slot of the key, else the first empty lane, else nothing. */
    method TryWindow(key: U32, idx: nat, ghost j: nat) returns (r: Option<Located>)
      requires Valid() && key != INVALID && (key in Contents ==> Probe[key] >= j)
      requires idx == Window(Home(hash, key, cap), j, cap) && idx + LANES <= cap
      ensures r.Some? ==> !r.value.Nowhere? && r.value.slot < cap
      ensures r.Some? && r.value.At? ==> keys[r.value.slot] == key && key in Contents
      ensures r.Some? && r.value.Free? ==> keys[r.value.slot] == INVALID && key !in Contents
      ensures r.Some? && r.value.Free? ==> InWindow(r.value.slot, Home(hash, key, cap), j, cap)
      ensures r.None? ==> WindowFull(keys[..], Home(hash, key, cap), j)
      ensures r.None? && key in Contents ==> Probe[key] >= j + 1
    {
      hide Represents, Placed, Window, InWindow, WindowFull, Home;
      var lane := FirstLane(idx, key);
      if lane < LANES {
        KeyIsHere(key, idx + lane);
        return Some(At(idx + lane));
      }
      ProbeSays(key, j, idx);
      var empty := FirstLane(idx, INVALID);
      if empty < LANES {
        assert keys[idx + empty] == INVALID;
        LaneInWindow(idx + empty, Home(hash, key, cap), j, cap);
        return Some(Free(idx + empty));
      }
      NoEmptyLane(keys[..], Home(hash, key, cap), j);
      return None;
    }

    /** The probe loop of Insert: the slot of the key, else the first empty lane on its path. */
    method Locate(key: U32) returns (r: Located, ghost j: nat)
      requires Valid() && key != INVALID && HomeFits(Home(hash, key, cap))
      ensures r.At? ==> r.slot < cap && keys[r.slot] == key && key in Contents
      ensures !r.At? ==> key !in Contents
      ensures r.Free? ==> r.slot < cap && keys[r.slot] == INVALID && j * BUCKET < cap
      ensures r.Free? ==> InWindow(r.slot, Home(hash, key, cap), j, cap)
      ensures r.Free? ==> forall l :: 0 <= l < j ==> WindowFull(keys[..], Home(hash, key, cap), l)
      ensures r.Nowhere? ==> PathFull(keys[..], Home(hash, key, cap))
    {
      hide HomeFits, Represents, Placed, Window, InWindow, WindowFull, Home;
      var home := Home(hash, key, cap);
      var idx := home;
      var probe := 0;
      j := 0;
      WindowSteps(home, j, cap);
      KeyFacts(key);
      while probe < cap
        invariant probe == j * BUCKET && idx == Window(home, j, cap)
        invariant key in Contents ==> Probe[key] >= j
        invariant forall l :: 0 <= l < j ==> WindowFull(keys[..], home, l)
        decreases cap - probe
      {
        WindowInside(home, j, cap);
        WindowSteps(home, j, cap);
        var found := TryWindow(key, idx, j);
        if found.Some? {
          return found.value, j;
        }
        idx := (idx + BUCKET) % cap;
        probe := probe + BUCKET;
        j := j + 1;
      }
      return Nowhere, j;
    }

    /** Insert: overwrite the key in place, or take the first empty lane on its probe path. */
    method Insert(key: U32, value: U32) returns (ok: bool)
      requires Valid() && key != INVALID && HomeFits(Home(hash, key, cap))
      modifies this, keys, values
      ensures Valid()
      ensures ok ==> Contents == old(Contents)[key := value]
      ensures !ok ==> key !in old(Contents) && Contents == old(Contents)
      ensures !ok ==> keys[..] == old(keys[..]) && values[..] == old(values[..]) && size == old(size)
      ensures forall k :: k in old(Slot) ==> k in Slot && Slot[k] == old(Slot)[k]
      // exactly when it succeeds, and what is enough for that
      ensures ok == (key in old(Contents)
                     || (|old(Contents)| < capacity && !PathFull(old(keys[..]), Home(hash, key, cap))))
      ensures |old(Contents)| < capacity && LANES * |old(Contents)| < cap ==> ok
      ensures TableAfter(old(keys[..]), ok && key !in old(Contents), key, Home(hash, key, cap), keys[..])
    {
      hide HomeFits, Represents, InWindow, WindowFull, Home, PathFull, Takes;
      KeyFacts(key);
      var r, j := Locate(key);
      Room(key);
      match r {
        case At(slot) =>
          Overwrite(key, value, slot);
          return true;
        case Free(slot) =>
          TakenLane(keys[..], key, Home(hash, key, cap), slot, j);
          if size >= capacity {
            return false;
          }
          AddKey(key, value, slot, j);
          return true;
        case Nowhere =>
          return false;
      }
    }

    /** Less than a quarter full, the table has room for every usable key. */
    lemma Room(key: U32)
      requires Valid() && HomeFits(Home(hash, key, cap))
      ensures LANES * |Contents| < cap ==> !PathFull(keys[..], Home(hash, key, cap))
    {
      hide Represents, HomeFits, PathFull;
      FullPathNeedsQuarter(keys[..], values[..], hash, Contents, Slot, Probe, Home(hash, key, cap));
    }

    lemma SlotOf(k: U32, i: nat)
      requires Valid() && i < cap && keys[i] == k != INVALID
      ensures k in Contents && k in Slot && Slot[k] == i && values[i] == Contents[k]
    {
      assert keys[..][i] == k && values[..][i] == values[i];
    }

    lemma KeyIsHere(k: U32, i: nat)
      requires Valid() && i < cap && keys[i] == k != INVALID
      ensures k in Contents
    {
      assert keys[..][i] == k;
    }

    lemma KeyFacts(k: U32)
      requires Valid()
      ensures Slot.Keys == Contents.Keys && Probe.Keys == Contents.Keys
      ensures k in Contents ==> Probe[k] * BUCKET < cap
    {
      if k in Contents { KeysHaveOwnSlots(keys[..], values[..], hash, Contents, Slot, Probe, k); }
    }

    method Overwrite(key: U32, value: U32, slot: nat)
      requires Valid() && slot < cap && keys[slot] == key != INVALID
      modifies values, this`Contents
      ensures Valid() && Contents == old(Contents)[key := value]
    {
      hide Represents;
      OverwriteRepresents(keys[..], values[..], hash, Contents, Slot, Probe, slot, value);
      ghost var before := values[..];
      values[slot] := value;
      assert values[..] == before[slot := value];
      assert Contents[key := value].Keys == Contents.Keys;
      assert |Contents[key := value]| == |Contents[key := value].Keys| && |Contents| == |Contents.Keys|;
      Contents := Contents[key := value];
    }

    method AddKey(key: U32, value: U32, slot: nat, ghost probe: nat)
      requires Valid() && key != INVALID && key !in Contents && size < capacity
      requires slot < cap && probe * BUCKET < cap && InWindow(slot, Home(hash, key, cap), probe, cap)
      requires keys[slot] == INVALID
      requires forall j :: 0 <= j < probe ==> WindowFull(keys[..], Home(hash, key, cap), j)
      modifies this, keys, values
      ensures Valid() && Contents == old(Contents)[key := value] && Slot == old(Slot)[key := slot]
      ensures keys[..] == old(keys[..])[slot := key]
    {
      hide Represents;
      AddRepresents(keys[..], values[..], hash, Contents, Slot, Probe, slot, probe, key, value);
      ghost var ks, vs := keys[..], values[..];
      keys[slot] := key;
      values[slot] := value;
      assert keys[..] == ks[slot := key] && values[..] == vs[slot := value];
      size := size + 1;
      Contents := Contents[key := value];
      Slot := Slot[key := slot];
      Probe := Probe[key := probe];
    }

    method Clear()
      requires Valid()
      modifies this, keys
      ensures Valid() && Contents == map[]
      ensures keys[..] == seq(cap, _ => INVALID)
    {
      hide Represents;
      for i := 0 to cap
        invariant forall k :: 0 <= k < i ==> keys[k] == INVALID
      {
        keys[i] := INVALID;
      }
      size := 0;
      Contents, Slot, Probe := map[], map[], map[];
      EmptyRepresents(keys[..], values[..], hash);
    }

    predicate Usable(op: Op)
      requires cap > 0
    {
      op.ClearOp? || (op.key != INVALID && HomeFits(Home(hash, op.key, cap)))
    }

    /** One operation answers as the abstract map does. */
    method Apply(op: Op) returns (out: Outcome)
      requires Valid() && Usable(op)
      modifies this, keys, values
      ensures Valid() && Allowed(hash, capacity, old(Contents), old(keys[..]), op, out, Contents, keys[..])
    {
      hide Represents, HomeFits, Home, PathFull, TableAfter;
      match op {
        case InsertOp(k, v) =>
          var ok := Insert(k, v);
          out := Inserted(ok);
        case FindOp(k) =>
          var r := Find(k);
          out := Found(if r.Some? then Some(values[r.value]) else None);
        case ClearOp =>
          Clear();
          out := Cleared;
      }
    }

    /** Any run of operations on usable keys answers like a finite map. */
    method Run(ops: seq<Op>) returns (outs: seq<Outcome>)
      requires Valid()
      requires forall i :: 0 <= i < |ops| ==> Usable(ops[i])
      modifies this, keys, values
      ensures Valid()
      ensures AllowedRun(hash, capacity, old(Contents), old(keys[..]), ops, outs, Contents, keys[..])
    {
      hide HomeFits, Represents, Home, Allowed, Usable;
      outs := [];
      for i := 0 to |ops|
        invariant Valid()
        invariant AllowedRun(hash, capacity, old(Contents), old(keys[..]), ops[..i], outs, Contents, keys[..])
      {
        ghost var mid, table := Contents, keys[..];
        var out := Apply(ops[i]);
        assert ops[..i + 1][..i] == ops[..i] && (outs + [out])[..i] == outs;
        outs := outs + [out];
      }
      assert ops[..|ops|] == ops;
    }
  }

  // ---------- what the real hash does ----------

  function Mix16(x: bv32): (r: bv32) { x ^ (x >> 16) }
  function Mix13(x: bv32): (r: bv32) { x ^ (x >> 13) }
  function Mul1(x: bv32): (r: bv32) { x * 0x85eb_ca6b }
  function Mul2(x: bv32): (r: bv32) { x * 0xc2b2_ae35 }

  /** The integer mix of the source, on 32-bit words. */
  function Hash(x: bv32): (r: bv32) { Mix16(Mul2(Mix13(Mul1(Mix16(x))))) }

  function UnMix13(x: bv32): (r: bv32) { x ^ (x >> 13) ^ (x >> 26) }
  function UnMul1(x: bv32): (r: bv32) { x * 0xa5cb_9243 }
  function UnMul2(x: bv32): (r: bv32) { x * 0x7ed1_b41d }

  function UnHash(h: bv32): (x: bv32) { Mix16(UnMul1(UnMix13(UnMul2(Mix16(h))))) }

  lemma RawFold16(x: bv32)
    ensures Mix16(x ^ (x >> 16)) == x
  {
  }

  lemma RawFold13(x: bv32)
    ensures UnMix13(x ^ (x >> 13)) == x
  {
  }

  lemma FoldsInvertible(x: bv32)
    ensures Mix16(Mix16(x)) == x && UnMix13(Mix13(x)) == x
  {
    RawFold16(x);
    RawFold13(x);
  }

  lemma FactorsInvertible(x: bv32)
    ensures UnMul1(Mul1(x)) == x && UnMul2(Mul2(x)) == x
  {
    RawFactors(x);
  }

  lemma RawFactors(x: bv32)
    ensures UnMul1(x * 0x85eb_ca6b) == x && UnMul2(x * 0xc2b2_ae35) == x
  {
  }

  /** The mix itself loses nothing: different keys have different hashes. */
  lemma HashInvertible(x: bv32)
    ensures UnHash(Hash(x)) == x
  {
    hide Mix16, Mix13, Mul1, Mul2, UnMix13, UnMul1, UnMul2;
    FoldsInvertible(x);
    FactorsInvertible(Mix16(x));
    FoldsInvertible(Mul1(Mix16(x)));
    FactorsInvertible(Mix13(Mul1(Mix16(x))));
    FoldsInvertible(Mul2(Mix13(Mul1(Mix16(x)))));
  }

  function HashOf(k: U32): (h: nat)
  {
    Hash(k as bv32) as nat
  }

  /**
   * The hash does not keep to homes that fit: in a table of 16 slots the very first probe for key 5
   * reads one lane past the end, while key 10 is at home in lane 0.
   */
  lemma RealHashLeavesTable()
    ensures Window(Home(HashOf, 5, BUCKET), 0, BUCKET) + LANES > BUCKET
    ensures HomeFits(Home(HashOf, 10, BUCKET))
  {
    HashValues();
  }

  lemma HashValues()
    ensures HashOf(5) == 0xcc0d_53cd && HashOf(0) == 0 && HashOf(10) == 0xe925_0490
    ensures HashOf(28) == 0x4289_c4e0 && HashOf(36) == 0x6ebb_d6e0 && HashOf(82) == 0xde00_2730
  {
    assert Hash(5) == 0xcc0d_53cd && Hash(0) == 0 && Hash(10) == 0xe925_0490;
    assert Hash(28) == 0x4289_c4e0 && Hash(36) == 0x6ebb_d6e0 && Hash(82) == 0xde00_2730;
  }

  // ---------- a quarter is all that is guaranteed ----------

  /** Where key k goes when every key is at home in lane 0: the path fills window by window. */
  function FillSlot(k: nat): (i: nat) { k / LANES * BUCKET + k % LANES }

  /** The key in slot i then, for n keys. */
  function FillKey(i: nat, n: nat): (k: U32)
    requires n <= INVALID
  {
    var k := i / BUCKET * LANES + i % BUCKET;
    if i % BUCKET < LANES && k < n then k else INVALID
  }

  function FillTable(n: nat): (ks: seq<U32>)
    requires n <= INVALID
    ensures |ks| == LANES * n
  {
    seq(LANES * n, i requires i >= 0 => FillKey(i, n))
  }

  predicate InFill(k: U32, n: nat) { k < n }

  function FillMap(n: nat): (m: map<U32, U32>)
    requires n <= INVALID
    ensures forall k: U32 :: k in m <==> k < n
    ensures forall k :: k in m ==> m[k] == 0
  {
    map k: U32 | InFill(k, n) :: 0
  }

  function FillSlots(n: nat): (m: map<U32, nat>)
    requires n <= INVALID
    ensures forall k: U32 :: k in m <==> k < n
    ensures forall k :: k in m ==> m[k] == FillSlot(k)
  {
    map k: U32 | InFill(k, n) :: FillSlot(k)
  }

  function FillProbes(n: nat): (m: map<U32, nat>)
    requires n <= INVALID
    ensures forall k: U32 :: k in m <==> k < n
    ensures forall k :: k in m ==> m[k] == k / LANES
  {
    map k: U32 | InFill(k, n) :: k / LANES
  }

  lemma FillSlotKey(k: nat, n: nat)
    requires n % LANES == 0 && k < n <= INVALID
    ensures FillSlot(k) < LANES * n && FillKey(FillSlot(k), n) == k
  {
    var j, l := k / LANES, k % LANES;
    assert FillSlot(k) == j * BUCKET + l;
  }

  lemma FillKeySlot(i: nat, n: nat)
    requires n % LANES == 0 && i < LANES * n && n <= INVALID
    ensures FillKey(i, n) != INVALID ==> FillKey(i, n) < n && FillSlot(FillKey(i, n)) == i
    ensures i % BUCKET < LANES ==> FillKey(i, n) != INVALID
  {
    var a, r := i / BUCKET, i % BUCKET;
    if r < LANES {
      var k := a * LANES + r;
      assert a < n / LANES && k < n;
      assert k / LANES == a && k % LANES == r;
    }
  }

  /** The windows of home 0 are the first lanes of the buckets, in order. */
  lemma ZeroWindow(j: nat, cap: nat, i: nat)
    requires cap > 0 && j * BUCKET < cap
    ensures InWindow(i, 0, j, cap) <==> i < cap && j * BUCKET <= i < j * BUCKET + LANES
  {
    WindowClosed(0, j, cap);
  }

  lemma FillWindowFull(n: nat, j: nat)
    requires n % LANES == 0 && 0 < n <= INVALID && j * BUCKET < LANES * n
    ensures WindowFull(FillTable(n), 0, j)
  {
    hide FillKey;
    var ks := FillTable(n);
    forall i | 0 <= i < |ks| && InWindow(i, 0, j, |ks|) ensures ks[i] != INVALID {
      ZeroWindow(j, |ks|, i);
      LaneOf(j, i - j * BUCKET);
      FillKeySlot(i, n);
    }
  }

  lemma FillKeyIsPlaced(k: nat, n: nat)
    requires n % LANES == 0 && k < n <= INVALID
    ensures Placed(FillTable(n), k, 0, FillSlot(k), k / LANES)
  {
    hide FillKey, WindowFull, InWindow;
    var ks := FillTable(n);
    FillSlotKey(k, n);
    ZeroWindow(k / LANES, |ks|, FillSlot(k));
    forall j: nat | j < k / LANES ensures WindowFull(ks, 0, j) {
      FillWindowFull(n, j);
    }
  }

  lemma {:induction false} FillMapSize(n: nat)
    requires n <= INVALID
    ensures |FillMap(n)| == n
  {
    if n == 0 {
      assert FillMap(0).Keys == {};
    } else {
      FillMapSize(n - 1);
      assert FillMap(n).Keys == FillMap(n - 1).Keys + {n - 1};
      assert |FillMap(n).Keys| == |FillMap(n - 1).Keys| + 1;
    }
  }

  lemma FillPath(n: nat)
    requires n % LANES == 0 && 0 < n <= INVALID
    ensures PathFull(FillTable(n), 0)
  {
    hide WindowFull;
    forall l: nat | l * BUCKET < LANES * n ensures WindowFull(FillTable(n), 0, l) {
      FillWindowFull(n, l);
    }
  }

  /** Every key at home in lane 0. */
  function NoHash(k: U32): (r: nat) { 0 }

  function Zeros(n: nat): (vs: seq<U32>)
    ensures |vs| == n && forall i :: 0 <= i < n ==> vs[i] == 0
  {
    seq(n, _ => 0)
  }

  lemma FillPlaces(n: nat)
    requires n % LANES == 0 && 0 < n <= INVALID
    ensures forall k :: k in FillMap(n) ==> Placed(FillTable(n), k, 0, FillSlots(n)[k], FillProbes(n)[k])
    ensures forall k :: k in FillMap(n) ==> FillSlots(n)[k] < LANES * n
  {
    hide Placed, FillKey, FillTable, FillMap, FillSlots, FillProbes;
    forall k | k in FillMap(n)
      ensures Placed(FillTable(n), k, 0, FillSlots(n)[k], FillProbes(n)[k]) && FillSlots(n)[k] < LANES * n
    {
      FillKeyIsPlaced(k, n);
      FillSlotKey(k, n);
    }
  }

  lemma FillKeysKnown(n: nat)
    requires n % LANES == 0 && 0 < n <= INVALID
    ensures forall i :: 0 <= i < LANES * n && FillTable(n)[i] != INVALID ==>
      FillTable(n)[i] in FillMap(n) && FillSlots(n)[FillTable(n)[i]] == i
  {
    hide FillKey, FillSlot, FillMap, FillSlots;
    forall i | 0 <= i < LANES * n && FillTable(n)[i] != INVALID
      ensures FillTable(n)[i] in FillMap(n) && FillSlots(n)[FillTable(n)[i]] == i
    {
      FillKeySlot(i, n);
    }
  }

  lemma NoHashHome(k: U32, cap: nat)
    requires cap > 0
    ensures Home(NoHash, k, cap) == 0
  {
  }

  lemma FillRepresents(n: nat)
    requires n % LANES == 0 && 0 < n <= INVALID
    ensures Represents(FillTable(n), Zeros(LANES * n), NoHash, FillMap(n), FillSlots(n), FillProbes(n))
  {
    hide Placed, FillTable, FillMap, FillSlots, FillProbes, FillSlot, Home, Zeros;
    FillPlaces(n);
    FillKeysKnown(n);
    forall k | k in FillMap(n)
      ensures Placed(FillTable(n), k, Home(NoHash, k, LANES * n), FillSlots(n)[k], FillProbes(n)[k])
    {
      NoHashHome(k, LANES * n);
    }
    assert FillSlots(n).Keys == FillMap(n).Keys && FillProbes(n).Keys == FillMap(n).Keys;
  }

  /**
   * The quarter is tight for every size of table that can be a quarter full: if all keys are at
   * home in lane 0, the keys below n fill every window of a table of LANES * n slots, and no other
   * key finds a place.
   */
  lemma QuarterIsTight(n: nat)
    requires n > 0 && n % LANES == 0 && n <= INVALID
    ensures |FillTable(n)| == LANES * n && |FillTable(n)| % BUCKET == 0 && |FillMap(n)| == n
    ensures Represents(FillTable(n), Zeros(LANES * n), NoHash, FillMap(n), FillSlots(n), FillProbes(n))
    ensures PathFull(FillTable(n), 0)
  {
    hide Represents, PathFull, FillTable, FillMap, FillSlots, FillProbes, Zeros, Placed;
    FillMapSize(n);
    FillRepresents(n);
    FillPath(n);
  }

  /** A table of more than four times as many slots as there are keys never has a full path. */
  lemma LargeTableHasRoom(ks: seq<U32>, vs: seq<U32>, hash: U32 -> nat, m: map<U32, U32>,
                          slot: map<U32, nat>, probe: map<U32, nat>, home: nat)
    requires Represents(ks, vs, hash, m, slot, probe)
    requires |ks| % BUCKET == 0 && home < |ks| && HomeFits(home) && |ks| / LANES > INVALID
    ensures !PathFull(ks, home)
  {
    hide PathFull, Placed;
    FullPathNeedsQuarter(ks, vs, hash, m, slot, probe, home);
    FillMapSize(INVALID);
    assert m.Keys <= FillMap(INVALID).Keys;
    SubsetSize(m.Keys, FillMap(INVALID).Keys);
    assert |m.Keys| == |m| && |FillMap(INVALID).Keys| == |FillMap(INVALID)|;
  }

  // ---------- the real hash ----------

  /** Four keys that are at home in lane 0 of a table of 16 slots leave no room on that path. */
  lemma FourFillPath(ks: seq<U32>, vs: seq<U32>, hash: U32 -> nat, m: map<U32, U32>,
                     slot: map<U32, nat>, probe: map<U32, nat>)
    requires Represents(ks, vs, hash, m, slot, probe) && |ks| == BUCKET
    requires m.Keys == {0, 10, 28, 36} && forall k :: k in m ==> Home(hash, k, BUCKET) == 0
    ensures PathFull(ks, 0)
  {
    hide Home, WindowFull;
    forall k | k in m ensures slot[k] < LANES && ks[slot[k]] == k && ks[slot[k]] != INVALID {
      assert Placed(ks, k, 0, slot[k], probe[k]);
      ZeroWindow(0, BUCKET, slot[k]);
    }
    assert 0 in m && 10 in m && 28 in m && 36 in m;
    FourSlotsFill(ks, slot[0], slot[10], slot[28], slot[36]);
    assert forall l: nat :: l * BUCKET < |ks| ==> l == 0;
  }

  lemma FourSlotsFill(ks: seq<U32>, a: nat, b: nat, c: nat, d: nat)
    requires |ks| == BUCKET && a < LANES && b < LANES && c < LANES && d < LANES
    requires a != b && a != c && a != d && b != c && b != d && c != d
    requires ks[a] != INVALID && ks[b] != INVALID && ks[c] != INVALID && ks[d] != INVALID
    ensures WindowFull(ks, 0, 0)
  {
    forall i | 0 <= i < |ks| && InWindow(i, 0, 0, |ks|) ensures ks[i] != INVALID {
      ZeroWindow(0, BUCKET, i);
      assert i == a || i == b || i == c || i == d;
    }
  }

  lemma RealHomes()
    ensures Home(HashOf, 0, BUCKET) == 0 && Home(HashOf, 10, BUCKET) == 0 && Home(HashOf, 28, BUCKET) == 0
    ensures Home(HashOf, 36, BUCKET) == 0 && Home(HashOf, 82, BUCKET) == 0
    ensures InternalCap(12) == BUCKET
  {
    hide Hash, HashOf;
    HashValues();
  }

  /** A new map for 12 keys that has taken the keys 0, 10, 28 and 36. */
  method TakeFour() returns (t: FastMap32)
    ensures fresh(t) && fresh(t.keys) && fresh(t.values)
    ensures t.Valid() && t.capacity == 12 && t.cap == BUCKET && t.hash == HashOf
    ensures t.Contents == map[0 := 1, 10 := 1, 28 := 1, 36 := 1]
  {
    hide HashOf, Home, Represents, PathFull, TableAfter, InternalCap;
    RealHomes();
    t := new FastMap32(12, HashOf);
    var a := t.Insert(0, 1);
    var b := t.Insert(10, 1);
    var c := t.Insert(28, 1);
    var d := t.Insert(36, 1);
  }

  /**
   * Insertion is not guaranteed up to kCapacity: a new map for 12 keys takes 0, 10, 28 and 36, and
   * then refuses 82.
   */
  method FifthKeyIsRefused() returns (t: FastMap32, ok: bool)
    ensures fresh(t) && t.Valid() && t.capacity == 12 && t.hash == HashOf
    ensures t.Contents == map[0 := 1, 10 := 1, 28 := 1, 36 := 1] && !ok
  {
    hide HashOf, Home, Represents, PathFull, TableAfter, InternalCap;
    RealHomes();
    t := TakeFour();
    assert t.Contents.Keys == {0, 10, 28, 36};
    FourFillPath(t.keys[..], t.values[..], HashOf, t.Contents, t.Slot, t.Probe);
    ok := t.Insert(82, 1);
  }
}
