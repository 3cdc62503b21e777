/**
 * The fair reader/writer spin lock of ground/drone/util/concurrency/lock.h as a transition
 * system: one shared word, any number of threads, and separate steps for the load and for
 * the compare-exchange that follows it.  A run is an arbitrary schedule of such steps.
 *
 * A thread here is one client of the lock, so it holds at most one lock at a time.
 */
module SpinLock {
  import opened Common

  const READ: nat := 1
  const WRITE: nat := 1024
  const SPIN: nat := 2048
  const PRIO: nat := 4096

  // The fields of the word: `x & (kSpin - 1)`, `x & kSpin`, and the published priority.
  function Rw(x: nat): (r: nat) { x % 2048 }
  function SpinBit(x: nat): (r: nat) { x / 2048 % 2 * 2048 }
  function Published(x: nat): (r: nat) { x / 4096 }

  function Word(published: nat, spin: bool, rw: nat): (r: nat) {
    published * PRIO + (if spin then SPIN else 0) + rw
  }

  datatype Thread =
    | Outside
    | WriteLoad(prio: nat)            // in WriteLock, about to load
    | WriteTry(prio: nat, x: nat)     // in WriteLock, has loaded x
    | ReadLoad(prio: nat)
    | ReadTry(prio: nat, x: nat)
    | TryingWrite(x: nat)             // in TryWriteLock, has loaded x
    | TryingRead(x: nat)
    | Writing
    | Reading
  {
    predicate WaitsToWrite() { WriteLoad? || WriteTry? }
    predicate WaitsToRead() { ReadLoad? || ReadTry? }
    predicate Waits() { WaitsToWrite() || WaitsToRead() }
    predicate Inside() { Writing? || Reading? }
  }

  /** What the scheduler can let a thread do; `fails` is a spurious compare-exchange failure. */
  datatype Action = StartWrite | StartRead | TryWrite | TryRead | Load | Cas(fails: bool) | Unlock

  // ---------- the guards, as the source computes them from the loaded word ----------

  predicate WriterPrecedence(x: nat) { Rw(x) != 0 && SpinBit(x) != 0 }

  predicate WriteGuard(prio: nat, x: nat) { Rw(x) == 0 && prio > x }

  predicate ReadGuard(prio: nat, x: nat) { Rw(x) < WRITE - 1 && !WriterPrecedence(x) && prio > x }

  // ---------- one step of one thread ----------

  /** The compare-exchange of WriteLock, both branches. */
  function WriteCas(prio: nat, x: nat, word: nat, fails: bool): (r: (Thread, nat))
    requires prio >= PRIO
  {
    var swaps := word == x && !fails;
    if WriteGuard(prio, x) then
      if swaps then (Writing, WRITE) else (WriteLoad(prio), word)
    else if prio > x + 16 * PRIO && swaps then
      (WriteLoad(prio + PRIO), SPIN + (prio - PRIO) + Rw(x))
    else
      (WriteLoad(prio + PRIO), word)
  }

  /** The compare-exchange of ReadLock, both branches. */
  function ReadCas(prio: nat, x: nat, word: nat, fails: bool): (r: (Thread, nat))
    requires prio >= PRIO
  {
    var swaps := word == x && !fails;
    if ReadGuard(prio, x) then
      if swaps then (Reading, SpinBit(x) + (Rw(x) + READ)) else (ReadLoad(prio), word)
    else if !WriterPrecedence(x) && prio > x + 16 * PRIO && swaps then
      (ReadLoad(prio + PRIO), SpinBit(x) + (prio - PRIO) + Rw(x))
    else
      (ReadLoad(prio + PRIO), word)
  }

  /** Local data: a priority is a positive multiple of PRIO, and a Try lock has passed its test. */
  predicate LocalOk(t: Thread) {
    && (t.Waits() ==> t.prio % PRIO == 0 && t.prio >= PRIO)
    && (t.TryingWrite? ==> Rw(t.x) == 0)
    && (t.TryingRead? ==> Rw(t.x) < WRITE - 1 && !WriterPrecedence(t.x))
  }

  /** Effect of an action on the thread and the word; an action that does not apply does nothing. */
  function Step(t: Thread, word: nat, a: Action): (r: (Thread, nat))
    requires LocalOk(t)
    requires t.Writing? ==> word >= WRITE
    requires t.Reading? ==> word >= READ
  {
    match (t, a)
    case (Outside, StartWrite) => (WriteLoad(PRIO), word)
    case (Outside, StartRead) => (ReadLoad(PRIO), word)
    case (Outside, TryWrite) => (if Rw(word) != 0 then Outside else TryingWrite(word), word)
    case (Outside, TryRead) =>
      (if Rw(word) < WRITE - 1 && !WriterPrecedence(word) then TryingRead(word) else Outside, word)
    case (WriteLoad(p), Load) => (WriteTry(p, word), word)
    case (ReadLoad(p), Load) => (ReadTry(p, word), word)
    case (WriteTry(p, x), Cas(fails)) => WriteCas(p, x, word, fails)
    case (ReadTry(p, x), Cas(fails)) => ReadCas(p, x, word, fails)
    case (TryingWrite(x), Cas(_)) => if word == x then (Writing, WRITE) else (Outside, word)
    case (TryingRead(x), Cas(_)) =>
      if word == x then (Reading, SpinBit(x) + (Rw(x) + READ)) else (Outside, word)
    case (Writing, Unlock) => (Outside, word - WRITE)
    case (Reading, Unlock) => (Outside, word - READ)
    case _ => (t, word)
  }

  // ---------- the system ----------

  datatype System = System(word: nat, threads: seq<Thread>)

  function Readers(s: System): (r: set<nat>) { set i | 0 <= i < |s.threads| && s.threads[i].Reading? }
  function Writers(s: System): (r: set<nat>) { set i | 0 <= i < |s.threads| && s.threads[i].Writing? }

  /** The low 11 bits of the word count the readers inside, or are the writer bit. */
  ghost predicate CountsHolders(s: System) {
    && |Readers(s)| <= WRITE - 1
    && |Writers(s)| <= 1
    && (Writers(s) != {} ==> Readers(s) == {} && Rw(s.word) == WRITE)
    && (Writers(s) == {} ==> Rw(s.word) == |Readers(s)|)
  }

  /** A published priority is exceeded by some waiting thread's own priority. */
  ghost predicate PublisherWaits(s: System) {
    Published(s.word) > 0 ==>
      exists i :: 0 <= i < |s.threads| && s.threads[i].Waits() && s.threads[i].prio > s.word
  }

  /** The spin bit has a writer behind it. */
  ghost predicate SpinnerWaits(s: System) {
    SpinBit(s.word) != 0 ==> exists i :: 0 <= i < |s.threads| && s.threads[i].WaitsToWrite()
  }

  ghost predicate Inv(s: System) {
    && (forall i :: 0 <= i < |s.threads| ==> LocalOk(s.threads[i]))
    && CountsHolders(s)
    && PublisherWaits(s)
    && SpinnerWaits(s)
  }

  /** A freshly constructed lock, its n clients all outside. */
  function Fresh(n: nat): (r: System) { System(0, seq(n, i => Outside)) }

  function Next(s: System, i: nat, a: Action): (r: System)
    requires Inv(s)
  {
    if i >= |s.threads| then s
    else
      HolderHasBits(s, i);
      var (t, w) := Step(s.threads[i], s.word, a);
      System(w, s.threads[i := t])
  }

  /** The state a schedule leads to. */
  ghost function Run(n: nat, sched: seq<(nat, Action)>): (s: System)
    ensures Inv(s) && |s.threads| == n
  {
    if sched == [] then
      FreshInv(n);
      Fresh(n)
    else
      var s := Run(n, sched[..|sched| - 1]);
      var last := sched[|sched| - 1];
      NextKeepsInv(s, last.0, last.1);
      Next(s, last.0, last.1)
  }

  // ---------- preservation ----------

  lemma FreshInv(n: nat)
    ensures Inv(Fresh(n))
  {
    var s := Fresh(n);
    assert Readers(s) == {} && Writers(s) == {};
  }

  lemma HolderHasBits(s: System, i: nat)
    requires CountsHolders(s) && i < |s.threads|
    ensures s.threads[i].Writing? ==> Rw(s.word) == WRITE && s.word >= WRITE && Writers(s) == {i}
    ensures s.threads[i].Reading? ==> Rw(s.word) >= READ && s.word >= READ && Writers(s) == {}
  {
    if s.threads[i].Writing? {
      assert i in Writers(s);
      assert Writers(s) == {i} by {
        if j :| j in Writers(s) && j != i {
          assert {i, j} <= Writers(s);
          SubsetSize({i, j}, Writers(s));
        }
      }
    }
    if s.threads[i].Reading? {
      assert i in Readers(s);
      SubsetSize({i}, Readers(s));
    }
  }

  /** How replacing one thread changes the two sets of holders. */
  lemma ReplaceThread(s: System, i: nat, t: Thread, w: nat)
    requires i < |s.threads|
    ensures var s' := System(w, s.threads[i := t]);
      && Readers(s') == (if t.Reading? then Readers(s) + {i} else Readers(s) - {i})
      && Writers(s') == (if t.Writing? then Writers(s) + {i} else Writers(s) - {i})
  {
  }

  lemma ReplaceOutsider(s: System, i: nat, t: Thread, w: nat)
    requires i < |s.threads| && !t.Inside() && !s.threads[i].Inside()
    ensures Readers(System(w, s.threads[i := t])) == Readers(s)
    ensures Writers(System(w, s.threads[i := t])) == Writers(s)
  {
    ReplaceThread(s, i, t, w);
    assert i !in Readers(s) && i !in Writers(s);
  }

  /** The fields of a word that was put together from them. */
  lemma WordFields(p: nat, spin: bool, rw: nat)
    requires rw < 2048
    ensures var x := Word(p, spin, rw);
      Rw(x) == rw && SpinBit(x) == (if spin then SPIN else 0) && Published(x) == p
  {
    var low := (if spin then SPIN else 0) + rw;
    assert (p * 4096 + low) / 4096 == p;
    assert (p * 4096 + low) / 2048 == 2 * p + low / 2048;
    assert (p * 4096 + low) % 2048 == low % 2048 by {
      assert p * 4096 + low == 2048 * (2 * p) + low;
    }
  }

  lemma WordOf(x: nat)
    ensures x == Word(Published(x), SpinBit(x) != 0, Rw(x))
  {
    assert x / 4096 == x / 2048 / 2;
  }

  /** A priority is a multiple of PRIO, so comparing it with a word compares the upper fields. */
  lemma PrioComparison(prio: nat, x: nat)
    requires prio % PRIO == 0
    ensures prio > x <==> prio / PRIO > Published(x)
  {
    assert prio == prio / PRIO * PRIO;
  }

  // ---------- the masks and unions of the source ----------

  /** Bitwise `&` and `|`, from the lowest bit up. */
  function And(x: nat, y: nat): (r: nat)
  {
    if x == 0 || y == 0 then 0 else x % 2 * (y % 2) + 2 * And(x / 2, y / 2)
  }

  function Or(x: nat, y: nat): (r: nat)
  {
    if x == 0 then y else if y == 0 then x
    else (if x % 2 == 1 || y % 2 == 1 then 1 else 0) + 2 * Or(x / 2, y / 2)
  }

  /** The parts of a number above and below bit n + 1 are those of its half above and below bit n. */
  lemma HalfParts(x: nat, p: nat)
    requires p > 0
    ensures x % (2 * p) == x % 2 + 2 * (x / 2 % p)
    ensures x / (2 * p) == x / 2 / p
  {
    var q, r := x / 2 / p, x / 2 % p;
    assert x / 2 == q * p + r;
    var low := x % 2 + 2 * r;
    assert x == q * (2 * p) + low by {
      assert q * (2 * p) == 2 * (q * p);
    }
    Divided(x, q, 2 * p, low);
  }

  lemma Divided(x: nat, q: nat, p: nat, r: nat)
    requires x == q * p + r && r < p
    ensures x / p == q && x % p == r
  {
    var e := x / p - q;
    assert x / p * p + x % p == x;
    assert e * p == r - x % p by {
      assert e * p == x / p * p - q * p;
    }
    MultipleBelow(e, p);
  }

  lemma MultipleBelow(e: int, p: nat)
    ensures e >= 1 ==> e * p >= p
    ensures e <= -1 ==> e * p <= 0 - p
  {
    if e >= 1 {
      assert e * p == (e - 1) * p + p;
    } else if e <= -1 {
      assert e * p == (e + 1) * p - p;
    }
  }

  lemma AndSteps(x: nat, p: nat)
    requires p > 0
    ensures And(x, 2 * p - 1) == x % 2 + 2 * And(x / 2, p - 1)
    ensures And(x, 2 * p) == 2 * And(x / 2, p)
  {
  }

  lemma OrStep(high: nat, low: nat)
    ensures Or(2 * high, low) == low % 2 + 2 * Or(high, low / 2)
  {
  }

  lemma AndNothing(x: nat)
    ensures And(x, 0) == 0
  {
  }

  lemma {:induction false} AndLow(x: nat, n: nat)
    ensures And(x, Pow2(n) - 1) == x % Pow2(n)
  {
    hide And, Pow2;
    Pow2Doubles(n);
    if n == 0 {
      AndNothing(x);
    } else {
      Pow2Doubles(n - 1);
      AndLow(x / 2, n - 1);
      HalfParts(x, Pow2(n - 1));
      AndSteps(x, Pow2(n - 1));
    }
  }

  lemma {:induction false} AndBit(x: nat, n: nat)
    ensures And(x, Pow2(n)) == x / Pow2(n) % 2 * Pow2(n)
  {
    if n > 0 {
      hide And;
      AndBit(x / 2, n - 1);
      HalfParts(x, Pow2(n - 1));
      AndSteps(x, Pow2(n - 1));
      Doubled(x / 2 / Pow2(n - 1) % 2, Pow2(n - 1));
    } else {
      assert And(x, 1) == x % 2;
    }
  }

  lemma Doubled(a: nat, p: nat)
    ensures a * (2 * p) == 2 * (a * p)
  {
  }

  lemma {:induction false} OrLow(high: nat, low: nat, n: nat)
    requires low < Pow2(n)
    ensures Or(high * Pow2(n), low) == high * Pow2(n) + low
  {
    if n > 0 {
      hide Or;
      OrLow(high, low / 2, n - 1);
      Doubled(high, Pow2(n - 1));
      OrStep(high * Pow2(n - 1), low);
    }
  }

  /** `x & (kSpin - 1)`. */
  lemma MaskIsRemainder(x: nat)
    ensures And(x, SPIN - 1) == Rw(x)
  {
    Powers();
    AndLow(x, 11);
  }

  /** `x & kSpin`. */
  lemma BitIsField(x: nat)
    ensures And(x, SPIN) == SpinBit(x)
  {
    Powers();
    AndBit(x, 11);
  }

  /** `spin | prio | rw`, as the lock writes it in either loop. */
  lemma UnionIsSum(spin: nat, prio: nat, rw: nat)
    requires (spin == 0 || spin == SPIN) && prio % PRIO == 0 && rw < SPIN
    ensures Or(Or(spin, prio), rw) == spin + prio + rw && Or(spin, rw) == spin + rw
  {
    hide Or, Pow2;
    Powers();
    var p, s := prio / PRIO, if spin == 0 then 0 else 1;
    assert prio == p * PRIO && spin == s * SPIN;
    OrCommutes(spin, prio);
    OrLow(p, spin, 12);
    assert (2 * p + s) * SPIN == prio + spin;
    OrLow(2 * p + s, rw, 11);
    OrLow(s, rw, 11);
  }

  lemma Powers()
    ensures Pow2(11) == SPIN && Pow2(12) == PRIO
  {
    assert Pow2(4) == 16 && Pow2(8) == 256;
  }

  lemma {:induction false} OrCommutes(x: nat, y: nat)
    ensures Or(x, y) == Or(y, x)
  {
    if x > 0 && y > 0 {
      OrCommutes(x / 2, y / 2);
    }
  }

  /** The words the lock writes, field by field; `|` of disjoint fields is their sum. */
  lemma WrittenWords(prio: nat, x: nat)
    requires prio % PRIO == 0 && prio >= PRIO
    ensures Rw(WRITE) == WRITE && SpinBit(WRITE) == 0 && Published(WRITE) == 0
    ensures var w := SPIN + (prio - PRIO) + Rw(x);
      Rw(w) == Rw(x) && SpinBit(w) == SPIN && Published(w) == prio / PRIO - 1 && prio + PRIO > w
    ensures var w := SpinBit(x) + (prio - PRIO) + Rw(x);
      Rw(w) == Rw(x) && SpinBit(w) == SpinBit(x) && Published(w) == prio / PRIO - 1 && prio + PRIO > w
    ensures Rw(x) < WRITE - 1 ==> var w := SpinBit(x) + (Rw(x) + READ);
      Rw(w) == Rw(x) + 1 && SpinBit(w) == SpinBit(x) && Published(w) == 0
  {
    var q := prio / PRIO - 1;
    assert prio == prio / PRIO * PRIO;
    WordFields(q, true, Rw(x));
    WordFields(q, SpinBit(x) != 0, Rw(x));
    WordFields(0, SpinBit(x) != 0, if Rw(x) < WRITE - 1 then Rw(x) + 1 else 0);
  }

  /** Unlocking takes exactly the holder's bits: nothing is borrowed from the upper fields. */
  lemma UnlockBorrowsNothing(s: System, i: nat)
    requires Inv(s) && i < |s.threads| && s.threads[i].Inside()
    ensures var s' := Next(s, i, Unlock);
      && s' == System(s.word - (if s.threads[i].Writing? then WRITE else READ), s.threads[i := Outside])
      && SpinBit(s'.word) == SpinBit(s.word) && Published(s'.word) == Published(s.word)
      && Rw(s'.word) == (if s.threads[i].Writing? then 0 else Rw(s.word) - 1)
  {
    HolderHasBits(s, i);
    WordOf(s.word);
    var rw := if s.threads[i].Writing? then 0 else Rw(s.word) - 1;
    WordFields(Published(s.word), SpinBit(s.word) != 0, rw);
  }

  /** A step that leaves the word alone and lets no one in or out. */
  lemma QuietStep(s: System, i: nat, t: Thread)
    requires Inv(s) && i < |s.threads|
    requires LocalOk(t) && !t.Inside() && !s.threads[i].Inside()
    requires s.threads[i].WaitsToWrite() ==> t.WaitsToWrite()
    requires s.threads[i].Waits() ==> t.Waits() && t.prio >= s.threads[i].prio
    ensures Inv(System(s.word, s.threads[i := t]))
  {
    hide Rw, SpinBit, Published, Readers, Writers, LocalOk;
    var s' := System(s.word, s.threads[i := t]);
    ReplaceOutsider(s, i, t, s.word);
    if Published(s.word) > 0 {
      var k :| 0 <= k < |s.threads| && s.threads[k].Waits() && s.threads[k].prio > s.word;
      assert s'.threads[k].Waits() && s'.threads[k].prio > s.word;
    }
    if SpinBit(s.word) != 0 {
      var k :| 0 <= k < |s.threads| && s.threads[k].WaitsToWrite();
      assert s'.threads[k].WaitsToWrite();
    }
  }

  /** A waiting thread publishes its priority and raises it. */
  lemma PublishStep(s: System, i: nat, t: Thread, w: nat)
    requires Inv(s) && i < |s.threads|
    requires s.threads[i].Waits() && LocalOk(t)
    requires t.Waits() && (s.threads[i].WaitsToWrite() <==> t.WaitsToWrite())
    requires Rw(w) == Rw(s.word) && t.prio > w
    requires SpinBit(w) == SpinBit(s.word) || t.WaitsToWrite()
    ensures Inv(System(w, s.threads[i := t]))
  {
    hide Rw, SpinBit, Published, Readers, Writers, LocalOk;
    var s' := System(w, s.threads[i := t]);
    ReplaceOutsider(s, i, t, w);
    assert PublisherWaits(s') by {
      assert s'.threads[i].Waits() && s'.threads[i].prio > w;
    }
    assert SpinnerWaits(s') by {
      if SpinBit(w) != 0 && !t.WaitsToWrite() {
        var k :| 0 <= k < |s.threads| && s.threads[k].WaitsToWrite();
        assert s'.threads[k].WaitsToWrite();
      } else if SpinBit(w) != 0 {
        assert s'.threads[i].WaitsToWrite();
      }
    }
  }

  lemma WriterEnters(s: System, i: nat)
    requires Inv(s) && i < |s.threads| && !s.threads[i].Inside() && Rw(s.word) == 0
    ensures Inv(System(WRITE, s.threads[i := Writing]))
  {
    if Writers(s) == {} {
      assert Readers(s) == {};
    }
    ReplaceThread(s, i, Writing, WRITE);
    var s' := System(WRITE, s.threads[i := Writing]);
    assert Readers(s') == {} && Writers(s') == {i};
    WrittenWords(PRIO, 0);
  }

  lemma ReaderEnters(s: System, i: nat)
    requires Inv(s) && i < |s.threads|
    requires !s.threads[i].Inside() && !s.threads[i].WaitsToWrite()
    requires Rw(s.word) < WRITE - 1
    ensures Inv(System(SpinBit(s.word) + (Rw(s.word) + READ), s.threads[i := Reading]))
  {
    var w := SpinBit(s.word) + (Rw(s.word) + READ);
    var s' := System(w, s.threads[i := Reading]);
    ReplaceThread(s, i, Reading, w);
    WrittenWords(PRIO, s.word);
    assert Writers(s) == {};
    assert i !in Readers(s);
    assert Writers(s') == {} && |Readers(s')| == |Readers(s)| + 1;
    if SpinBit(w) != 0 {
      var k :| 0 <= k < |s.threads| && s.threads[k].WaitsToWrite();
      assert s'.threads[k].WaitsToWrite();
    }
  }

  /** The waiting threads behind the upper fields are still there when a thread that holds leaves. */
  lemma WaitersStay(s: System, i: nat, w: nat)
    requires PublisherWaits(s) && SpinnerWaits(s) && i < |s.threads| && s.threads[i].Inside()
    requires w <= s.word && Published(w) == Published(s.word) && SpinBit(w) == SpinBit(s.word)
    ensures PublisherWaits(System(w, s.threads[i := Outside])) && SpinnerWaits(System(w, s.threads[i := Outside]))
  {
    hide Rw, SpinBit, Published;
    var s' := System(w, s.threads[i := Outside]);
    if Published(w) > 0 {
      var k :| 0 <= k < |s.threads| && s.threads[k].Waits() && s.threads[k].prio > s.word;
      assert s'.threads[k].Waits() && s'.threads[k].prio > s'.word;
    }
    if SpinBit(w) != 0 {
      var k :| 0 <= k < |s.threads| && s.threads[k].WaitsToWrite();
      assert s'.threads[k].WaitsToWrite();
    }
  }

  lemma HolderLeaves(s: System, i: nat)
    requires Inv(s) && i < |s.threads| && s.threads[i].Inside()
    ensures Inv(Next(s, i, Unlock))
  {
    hide Rw, SpinBit, Published, PublisherWaits, SpinnerWaits, LocalOk;
    HolderHasBits(s, i);
    UnlockBorrowsNothing(s, i);
    var s' := Next(s, i, Unlock);
    assert s'.threads == s.threads[i := Outside];
    ReplaceThread(s, i, Outside, s'.word);
    OutsideIsOk();
    if s.threads[i].Writing? {
      assert Writers(s') == {} && Readers(s') == {};
    } else {
      assert i in Readers(s);
      assert |Readers(s')| == |Readers(s)| - 1;
    }
    WaitersStay(s, i, s'.word);
  }

  lemma OutsideIsOk()
    ensures LocalOk(Outside)
  {
  }

  /** The four things a thread that holds nothing can do to the word. */
  lemma StepEffects(t: Thread, word: nat, a: Action)
    requires LocalOk(t) && !t.Inside()
    ensures var (t', w) := Step(t, word, a);
      && LocalOk(t')
      && (t'.Writing? ==> Rw(word) == 0 && w == WRITE)
      && (t'.Reading? ==> !t.WaitsToWrite() && Rw(word) < WRITE - 1 && !WriterPrecedence(word)
                          && w == SpinBit(word) + (Rw(word) + READ))
      && (!t'.Inside() && t.Waits() ==>
            t'.Waits() && t'.prio >= t.prio && (t.WaitsToWrite() <==> t'.WaitsToWrite()))
      && (!t'.Inside() && w != word ==>
            t.Waits() && Rw(w) == Rw(word) && t'.prio > w && (SpinBit(w) == SpinBit(word) || t.WaitsToWrite()))
  {
    hide Rw, SpinBit, Published;
    if t.Waits() {
      WrittenWords(t.prio, word);
      assert (t.prio + PRIO) % PRIO == 0;
    }
  }

  /** Every step of every thread keeps the invariant. */
  lemma NextKeepsInv(s: System, i: nat, a: Action)
    requires Inv(s)
    ensures Inv(Next(s, i, a))
  {
    if i >= |s.threads| { return; }
    var t := s.threads[i];
    if t.Inside() {
      if a == Unlock {
        HolderLeaves(s, i);
      } else {
        assert s.threads[i := t] == s.threads;
      }
    } else {
      OutsiderKeepsInv(s, i, a);
    }
  }

  lemma OutsiderKeepsInv(s: System, i: nat, a: Action)
    requires Inv(s) && i < |s.threads| && !s.threads[i].Inside()
    ensures Inv(Next(s, i, a))
  {
    hide Step, Rw, SpinBit, Published;
    var t := s.threads[i];
    HolderHasBits(s, i);
    StepEffects(t, s.word, a);
    var (t', w) := Step(t, s.word, a);
    if t'.Writing? {
      WriterEnters(s, i);
    } else if t'.Reading? {
      ReaderEnters(s, i);
    } else if w == s.word {
      QuietStep(s, i, t');
    } else {
      PublishStep(s, i, t', w);
    }
  }

  // ---------- what every run keeps ----------

  /**
   * Mutual exclusion, for any number of threads and any schedule: the low bits are exactly
   * the holders, a writer is alone, and there are never more than 1023 readers.
   */
  lemma MutualExclusion(n: nat, sched: seq<(nat, Action)>, i: nat, j: nat)
    requires i < n && j < n && i != j
    ensures var s := Run(n, sched);
      && (s.threads[i].Writing? ==> !s.threads[j].Inside() && Rw(s.word) == WRITE)
      && (!(exists k :: 0 <= k < n && s.threads[k].Writing?) ==> Rw(s.word) == |Readers(s)| <= 1023)
  {
    var s := Run(n, sched);
    if s.threads[i].Writing? {
      HolderHasBits(s, i);
      assert j !in Writers(s) && j !in Readers(s);
    }
    if !(exists k :: 0 <= k < n && s.threads[k].Writing?) {
      assert Writers(s) == {};
    }
  }

  /** While the spin bit is set with readers inside, no step of any thread adds a reader. */
  lemma WriterPrecedenceIsEffective(n: nat, sched: seq<(nat, Action)>, i: nat, a: Action)
    requires WriterPrecedence(Run(n, sched).word)
    ensures var s := Run(n, sched); Readers(Next(s, i, a)) <= Readers(s)
  {
    hide Step, Rw, SpinBit, Published, WriterPrecedence;
    var s := Run(n, sched);
    if i < |s.threads| {
      HolderHasBits(s, i);
      var t := s.threads[i];
      var (t', w) := Step(t, s.word, a);
      ReplaceThread(s, i, t', w);
      if !t.Inside() {
        StepEffects(t, s.word, a);
      } else {
        HolderStep(t, s.word, a);
      }
    }
  }

  lemma HolderStep(t: Thread, word: nat, a: Action)
    requires t.Inside() && (t.Writing? ==> word >= WRITE) && (t.Reading? ==> word >= READ)
    ensures Step(t, word, a).0 == if a == Unlock then Outside else t
  {
  }

  /** The spin bit is set only while a writer is inside its WriteLock loop. */
  lemma SpinBitHasAWriter(n: nat, sched: seq<(nat, Action)>)
    requires SpinBit(Run(n, sched).word) != 0
    ensures exists i :: 0 <= i < n && Run(n, sched).threads[i].WaitsToWrite()
  {
  }

  /** With no holder and no waiter the word is zero, so the destructor's test passes. */
  lemma IdleLockIsZero(n: nat, sched: seq<(nat, Action)>)
    requires forall i :: 0 <= i < n ==>
      !Run(n, sched).threads[i].Inside() && !Run(n, sched).threads[i].Waits()
    ensures Run(n, sched).word == 0
  {
    var s := Run(n, sched);
    assert Readers(s) == {} && Writers(s) == {};
    WordOf(s.word);
  }

  // ---------- progress ----------

  predicate Passes(t: Thread, word: nat)
    requires t.Waits()
  {
    if t.WaitsToWrite() then WriteGuard(t.prio, word) else ReadGuard(t.prio, word)
  }

  /** The lock is never wedged: if it is free and somebody waits, some waiter passes its guard. */
  lemma NeverWedged(n: nat, sched: seq<(nat, Action)>, w: nat)
    requires w < n && Run(n, sched).threads[w].Waits()
    requires forall i :: 0 <= i < n ==> !Run(n, sched).threads[i].Inside()
    ensures exists i :: 0 <= i < n && Run(n, sched).threads[i].Waits()
              && Passes(Run(n, sched).threads[i], Run(n, sched).word)
  {
    var s := Run(n, sched);
    assert Readers(s) == {} && Writers(s) == {};
    WordOf(s.word);
    if Published(s.word) > 0 {
      var k :| 0 <= k < |s.threads| && s.threads[k].Waits() && s.threads[k].prio > s.word;
      assert Passes(s.threads[k], s.word);
    } else {
      assert Passes(s.threads[w], s.word);
    }
  }

  /** One undisturbed turn of a waiting loop: load, then a compare-exchange that does not fail. */
  function Turn(s: System, i: nat): (r: System)
    requires Inv(s)
    ensures Inv(r) && |r.threads| == |s.threads|
  {
    NextKeepsInv(s, i, Load);
    var l := Next(s, i, Load);
    NextKeepsInv(l, i, Cas(false));
    Next(l, i, Cas(false))
  }

  function Turns(s: System, i: nat, k: nat): (r: System)
    requires Inv(s)
    ensures Inv(r) && |r.threads| == |s.threads|
    decreases k
  {
    if k == 0 then s else Turns(Turn(s, i), i, k - 1)
  }

  // ---------- what a turn of a waiting loop does, field by field ----------

  /** A waiter cannot pass the priority that another one has published. */
  predicate Outranks(t: Thread, word: nat)
    requires t.Waits()
  {
    t.prio / PRIO > Published(word)
  }

  /** A waiter publishes only when it is more than 16 steps above the published priority. */
  predicate FarAbove(t: Thread, word: nat)
    requires t.Waits()
  {
    t.prio / PRIO > Published(word) + 16
  }

  lemma FarComparison(prio: nat, x: nat)
    requires prio % PRIO == 0
    ensures prio > x + 16 * PRIO <==> prio / PRIO > Published(x) + 16
  {
    assert prio == prio / PRIO * PRIO;
  }

  /**
   * One compare-exchange of WriteLock on a word that nobody has changed: the writer gets in exactly
   * when nobody is inside and it outranks the published priority; otherwise the holders stay, its
   * priority rises, and if it is far above it announces itself by the spin bit and publishes the
   * priority it had less one step.
   */
  lemma WriterTurn(s: System, i: nat)
    requires Inv(s) && i < |s.threads| && s.threads[i].WriteTry? && s.threads[i].x == s.word
    ensures var t, n := s.threads[i], Next(s, i, Cas(false));
      && (n.threads[i].Inside() <==> Rw(s.word) == 0 && Outranks(t, s.word))
      && (n.threads[i].Inside() ==> n.threads[i] == Writing && n.word == WRITE)
      && (!n.threads[i].Inside() ==>
            && n.threads[i] == WriteLoad(t.prio + PRIO) && Rw(n.word) == Rw(s.word)
            && SpinBit(n.word) == (if FarAbove(t, s.word) then SPIN else SpinBit(s.word))
            && Published(n.word) == (if FarAbove(t, s.word) then t.prio / PRIO - 1 else Published(s.word)))
  {
    hide Rw, SpinBit, Published;
    var t := s.threads[i];
    assert LocalOk(t);
    PrioComparison(t.prio, s.word);
    FarComparison(t.prio, s.word);
    WrittenWords(t.prio, s.word);
  }

  /** The same for ReadLock, which holds back while a writer has announced itself to readers inside. */
  lemma ReaderTurn(s: System, i: nat)
    requires Inv(s) && i < |s.threads| && s.threads[i].ReadTry? && s.threads[i].x == s.word
    ensures var t, n := s.threads[i], Next(s, i, Cas(false));
      var held := Rw(s.word) != 0 && SpinBit(s.word) != 0;
      && (n.threads[i].Inside() <==> Rw(s.word) < 1023 && !held && Outranks(t, s.word))
      && (n.threads[i].Inside() ==>
            && n.threads[i] == Reading && Rw(n.word) == Rw(s.word) + 1
            && SpinBit(n.word) == SpinBit(s.word) && Published(n.word) == 0)
      && (!n.threads[i].Inside() ==>
            && n.threads[i] == ReadLoad(t.prio + PRIO) && Rw(n.word) == Rw(s.word) && SpinBit(n.word) == SpinBit(s.word)
            && Published(n.word) == (if !held && FarAbove(t, s.word) then t.prio / PRIO - 1 else Published(s.word)))
  {
    hide Rw, SpinBit, Published;
    var t := s.threads[i];
    assert LocalOk(t);
    PrioComparison(t.prio, s.word);
    FarComparison(t.prio, s.word);
    WrittenWords(t.prio, s.word);
  }

  /**
   * A compare-exchange that fails, because the word has changed or spuriously, changes nothing but
   * the priority of the waiter: that rises unless the waiter was about to get in.
   */
  lemma FailedTurn(s: System, i: nat, fails: bool)
    requires Inv(s) && i < |s.threads| && (s.threads[i].WriteTry? || s.threads[i].ReadTry?)
    requires fails || s.threads[i].x != s.word
    ensures var t, n := s.threads[i], Next(s, i, Cas(fails));
      var low, held := Rw(t.x), Rw(t.x) != 0 && SpinBit(t.x) != 0;
      var again := Outranks(t, t.x) && (if t.WriteTry? then low == 0 else low < 1023 && !held);
      var prio := if again then t.prio else t.prio + PRIO;
      n == System(s.word, s.threads[i := if t.WriteTry? then WriteLoad(prio) else ReadLoad(prio)])
  {
    hide Rw, SpinBit, Published;
    var t := s.threads[i];
    assert LocalOk(t);
    PrioComparison(t.prio, t.x);
  }

  /** A new waiter starts with the lowest priority, so on any published one it has to wait its turn. */
  lemma NewcomerYields(s: System, i: nat, write: bool)
    requires Inv(s) && i < |s.threads| && s.threads[i].Outside? && Published(s.word) > 0
    ensures var n := Next(s, i, if write then StartWrite else StartRead);
      && Inv(n) && n.word == s.word && n.threads[i].Waits() && !Turn(n, i).threads[i].Inside()
  {
    hide Rw, SpinBit, Published;
    var a := if write then StartWrite else StartRead;
    NextKeepsInv(s, i, a);
    var n := Next(s, i, a);
    NextKeepsInv(n, i, Load);
    var l := Next(n, i, Load);
    assert n.threads[i].prio == PRIO && l.threads[i].prio / PRIO == 1;
    if write {
      WriterTurn(l, i);
    } else {
      ReaderTurn(l, i);
    }
  }

  /**
   * The Try functions, undisturbed between load and compare-exchange: TryWriteLock gets in exactly
   * when nobody is inside, TryReadLock exactly when there is room and no announced writer to let
   * past; a refusal changes nothing.
   */
  lemma TryExactly(s: System, i: nat, write: bool)
    requires Inv(s) && i < |s.threads| && s.threads[i].Outside?
    ensures Inv(Next(s, i, if write then TryWrite else TryRead))
    ensures var n := Next(Next(s, i, if write then TryWrite else TryRead), i, Cas(false));
      var free := if write then Rw(s.word) == 0 else Rw(s.word) < 1023 && !(Rw(s.word) != 0 && SpinBit(s.word) != 0);
      && (free ==> n.threads[i] == (if write then Writing else Reading) && Rw(n.word) == (if write then WRITE else Rw(s.word) + 1))
      && (!write && free ==> SpinBit(n.word) == SpinBit(s.word))
      && (!free ==> n == s)
  {
    hide Rw, SpinBit, Published;
    NextKeepsInv(s, i, if write then TryWrite else TryRead);
    WrittenWords(PRIO, s.word);
    assert s.threads[i := Outside] == s.threads;
  }

  /** The word changed in between: a Try function gives up and changes nothing. */
  lemma TryGivesUp(s: System, i: nat, fails: bool)
    requires Inv(s) && i < |s.threads| && (s.threads[i].TryingWrite? || s.threads[i].TryingRead?)
    requires s.threads[i].x != s.word
    ensures Next(s, i, Cas(fails)) == System(s.word, s.threads[i := Outside])
  {
  }

  /** How many turns a writer needs to announce itself while somebody is inside. */
  function TurnsToAnnounce(prio: nat, word: nat): (r: nat)
  {
    if prio / PRIO > Published(word) + 16 then 1 else Published(word) + 16 - prio / PRIO + 2
  }

  /** With readers inside that stay, a writer left alone sets the spin bit, and from then on has precedence. */
  lemma {:induction false} WriterAnnounces(s: System, i: nat)
    requires Inv(s) && i < |s.threads| && s.threads[i].WriteLoad? && Rw(s.word) != 0
    ensures var n := Turns(s, i, TurnsToAnnounce(s.threads[i].prio, s.word));
      && Readers(n) == Readers(s) && Rw(n.word) == Rw(s.word) && WriterPrecedence(n.word) && n.threads[i].WriteLoad?
    decreases TurnsToAnnounce(s.threads[i].prio, s.word)
  {
    hide Turn, Rw, SpinBit, Published, CountsHolders, PublisherWaits, SpinnerWaits;
    var t, n := s.threads[i], Turn(s, i);
    assert LocalOk(t);
    WriterTurnAlone(s, i);
    if t.prio / PRIO > Published(s.word) + 16 {
      assert Turns(s, i, 1) == Turns(n, i, 0);
    } else {
      WriterAnnounces(n, i);
    }
  }

  lemma WriterTurnAlone(s: System, i: nat)
    requires Inv(s) && i < |s.threads| && s.threads[i].WriteLoad? && Rw(s.word) != 0
    ensures var t, n := s.threads[i], Turn(s, i);
      && t.prio % PRIO == 0 && Readers(n) == Readers(s) && Rw(n.word) == Rw(s.word)
      && n.threads[i] == WriteLoad(t.prio + PRIO) && n.threads[i].prio / PRIO == t.prio / PRIO + 1
      && (FarAbove(t, s.word) ==> SpinBit(n.word) == SPIN)
      && (!FarAbove(t, s.word) ==> Published(n.word) == Published(s.word))
  {
    hide Rw, SpinBit, Published;
    assert LocalOk(s.threads[i]);
    NextKeepsInv(s, i, Load);
    var l := Next(s, i, Load);
    WriterTurn(l, i);
    ReplaceOutsider(s, i, l.threads[i], l.word);
    var n := Next(l, i, Cas(false));
    ReplaceOutsider(l, i, n.threads[i], n.word);
  }

  /** How many turns a waiter needs on a free lock: its priority must pass the published one. */
  function TurnsNeeded(prio: nat, word: nat): (r: nat)
  {
    if prio / PRIO > Published(word) then 1 else Published(word) - prio / PRIO + 2
  }

  /** What one turn of a waiter does on a free lock: it gets in, or raises its priority. */
  lemma TurnOfWaiter(s: System, i: nat)
    requires Inv(s) && i < |s.threads|
    requires s.threads[i].WriteLoad? || s.threads[i].ReadLoad?
    requires Rw(s.word) == 0
    ensures var t, r := s.threads[i], Turn(s, i);
      if t.prio > s.word then r.threads[i].Inside()
      else r.word == s.word && r.threads[i] == (if t.WriteLoad? then WriteLoad(t.prio + PRIO) else ReadLoad(t.prio + PRIO))
  {
    NextKeepsInv(s, i, Load);
  }

  /** On a free lock every waiter gets in, alone, after a number of turns known beforehand. */
  lemma {:induction false} WaiterGetsIn(s: System, i: nat)
    requires Inv(s) && i < |s.threads|
    requires s.threads[i].WriteLoad? || s.threads[i].ReadLoad?
    requires Rw(s.word) == 0
    ensures Turns(s, i, TurnsNeeded(s.threads[i].prio, s.word)).threads[i].Inside()
    decreases TurnsNeeded(s.threads[i].prio, s.word)
  {
    hide Turn, Rw, Published, CountsHolders, PublisherWaits, SpinnerWaits;
    var t := s.threads[i];
    assert LocalOk(t);
    PrioComparison(t.prio, s.word);
    TurnOfWaiter(s, i);
    if t.prio > s.word {
      assert Turns(s, i, 1) == Turns(Turn(s, i), i, 0);
    } else {
      WaiterGetsIn(Turn(s, i), i);
    }
  }

  // ---------- progress under any interleaving ----------

  /** The state after a schedule, from any state. */
  ghost function Steps(s: System, sched: seq<(nat, Action)>): (r: System)
    requires Inv(s)
    ensures Inv(r) && |r.threads| == |s.threads|
    decreases |sched|
  {
    if sched == [] then s
    else
      NextKeepsInv(s, sched[0].0, sched[0].1);
      Steps(Next(s, sched[0].0, sched[0].1), sched[1..])
  }

  predicate Tries(t: Thread) { t.WriteTry? || t.ReadTry? }

  /** How many compare-exchanges of thread i in the schedule do not fail spuriously. */
  ghost function TurnsTaken(s: System, sched: seq<(nat, Action)>, i: nat): (r: nat)
    requires Inv(s) && i < |s.threads|
    decreases |sched|
  {
    if sched == [] then 0
    else
      NextKeepsInv(s, sched[0].0, sched[0].1);
      (if sched[0] == (i, Cas(false)) && Tries(s.threads[i]) then 1 else 0)
        + TurnsTaken(Next(s, sched[0].0, sched[0].1), sched[1..], i)
  }

  ghost predicate NobodyInside(s: System) {
    forall k :: 0 <= k < |s.threads| ==> !s.threads[k].Inside()
  }

  /** A step on a free lock lets its thread in, or leaves the word as it is. */
  lemma FreeStep(t: Thread, word: nat, a: Action)
    requires LocalOk(t) && !t.Inside() && Rw(word) == 0
    ensures Step(t, word, a).0.Inside() || Step(t, word, a).1 == word
  {
  }

  /** What one step of a waiter does on a free lock, when what it has loaded is the word. */
  lemma FreeTurn(t: Thread, word: nat, a: Action)
    requires LocalOk(t) && t.Waits() && Rw(word) == 0 && (Tries(t) ==> t.x == word)
    requires !Step(t, word, a).0.Inside()
    ensures var r := Step(t, word, a).0;
      && r.Waits() && (Tries(r) ==> r.x == word) && r.prio >= t.prio
      && (a == Cas(false) && Tries(t) ==> t.prio <= word && r.prio == t.prio + PRIO)
  {
  }

  lemma NeededFalls(prio: nat, more: nat, word: nat)
    requires prio % PRIO == 0 && more % PRIO == 0 && prio <= more
    ensures TurnsNeeded(more, word) <= TurnsNeeded(prio, word) && TurnsNeeded(prio, word) >= 1
    ensures prio <= word && more == prio + PRIO ==> TurnsNeeded(more, word) < TurnsNeeded(prio, word)
  {
    PrioComparison(prio, word);
    assert prio == prio / PRIO * PRIO && more == more / PRIO * PRIO;
  }

  /**
   * Progress on a free lock under any interleaving: while nobody gets in, a waiter cannot complete
   * as many unfailing compare-exchanges as its priority and the word allow beforehand.
   */
  lemma {:induction false} WaiterIsBounded(s: System, sched: seq<(nat, Action)>, i: nat)
    requires Inv(s) && i < |s.threads| && s.threads[i].Waits() && Rw(s.word) == 0
    requires Tries(s.threads[i]) ==> s.threads[i].x == s.word
    requires forall k :: 0 <= k <= |sched| ==> NobodyInside(Steps(s, sched[..k]))
    ensures TurnsTaken(s, sched, i) < TurnsNeeded(s.threads[i].prio, s.word)
    decreases |sched|
  {
    hide Step, Rw, CountsHolders, PublisherWaits, SpinnerWaits, TurnsNeeded;
    var t := s.threads[i];
    assert LocalOk(t);
    NeededFalls(t.prio, t.prio, s.word);
    if sched != [] {
      var (j, a) := sched[0];
      NextKeepsInv(s, j, a);
      var n := Next(s, j, a);
      PrefixStates(s, sched);
      OutsiderStep(s, j, a);
      if i == j {
        FreeTurn(t, s.word, a);
        assert LocalOk(n.threads[i]);
        NeededFalls(t.prio, n.threads[i].prio, s.word);
      }
      WaiterIsBounded(n, sched[1..], i);
    }
  }

  lemma PrefixStates(s: System, sched: seq<(nat, Action)>)
    requires Inv(s) && sched != []
    requires forall k :: 0 <= k <= |sched| ==> NobodyInside(Steps(s, sched[..k]))
    ensures NobodyInside(s) && Inv(Next(s, sched[0].0, sched[0].1)) && NobodyInside(Next(s, sched[0].0, sched[0].1))
    ensures forall k :: 0 <= k <= |sched| - 1 ==>
      NobodyInside(Steps(Next(s, sched[0].0, sched[0].1), sched[1..][..k]))
  {
    hide Step, NobodyInside, CountsHolders, PublisherWaits, SpinnerWaits, Next;
    NextKeepsInv(s, sched[0].0, sched[0].1);
    assert sched[..0] == [] && Steps(s, []) == s;
    forall k | 0 <= k <= |sched| - 1
      ensures NobodyInside(Steps(Next(s, sched[0].0, sched[0].1), sched[1..][..k]))
    {
      assert sched[..k + 1][0] == sched[0] && sched[..k + 1][1..] == sched[1..][..k];
      assert NobodyInside(Steps(s, sched[..k + 1]));
    }
    assert sched[1..][..0] == [];
  }

  lemma OutsiderStep(s: System, j: nat, a: Action)
    requires Inv(s) && NobodyInside(s) && Rw(s.word) == 0 && NobodyInside(Next(s, j, a))
    ensures Next(s, j, a).word == s.word
    ensures j < |s.threads| ==> Next(s, j, a).threads == s.threads[j := Step(s.threads[j], s.word, a).0]
    ensures j < |s.threads| ==> !Step(s.threads[j], s.word, a).0.Inside()
    ensures j >= |s.threads| ==> Next(s, j, a) == s
  {
    hide Step, Rw, CountsHolders, PublisherWaits, SpinnerWaits;
    if j < |s.threads| {
      var n := Next(s, j, a);
      assert n.threads[j] == Step(s.threads[j], s.word, a).0;
      FreeStep(s.threads[j], s.word, a);
    }
  }

  /** So when some waiter takes that many, somebody got in on the way, whatever the others did. */
  lemma SomebodyGetsIn(s: System, sched: seq<(nat, Action)>, i: nat)
    requires Inv(s) && i < |s.threads| && (s.threads[i].WriteLoad? || s.threads[i].ReadLoad?) && Rw(s.word) == 0
    requires TurnsTaken(s, sched, i) >= TurnsNeeded(s.threads[i].prio, s.word)
    ensures exists k, j :: 0 <= k <= |sched| && 0 <= j < |s.threads| && Steps(s, sched[..k]).threads[j].Inside()
  {
    hide Rw, CountsHolders, PublisherWaits, SpinnerWaits, TurnsNeeded, TurnsTaken, Steps;
    if forall k :: 0 <= k <= |sched| ==> NobodyInside(Steps(s, sched[..k])) {
      WaiterIsBounded(s, sched, i);
    }
  }
}
