/**
 * Signal of vehicle/src/bullwinkle/all/Signal.h: an ordered list of slot records that may be
 * connected, disconnected, cleared and invalidated while it is being emitted.
 *
 * A callback is an arbitrary finite script; the k-th function called by an emission runs the k-th
 * script.  The list, with its removal requests and deferred erasure, is proved to refine a plain
 * map from record id to function.
 */
module Signals {
  /** The shared function object; invalidating it leaves an empty function. */
  class Callable {
    var present: bool

    constructor ()
      ensures present
    {
      present := true;
    }
  }

  /** Owner of member functions, which become empty when it is destroyed. */
  class SignalHandler {
    const functions: seq<Callable>

    constructor (functions: seq<Callable>)
      ensures this.functions == functions
    {
      this.functions := functions;
    }

    /** ~SignalHandler. */
    method Destroy()
      modifies (set f | f in functions)`present
      ensures forall f :: f in functions ==> !f.present
    {
      for i := 0 to |functions|
        invariant forall j :: 0 <= j < i ==> !functions[j].present
      {
        functions[i].present := false;
      }
    }
  }

  datatype SlotRecord = SlotRecord(id: nat, requestRemoval: bool, fsptr: Callable)

  /** One thing a callback can do. */
  datatype Op =
    | ConnectOp(slot: Callable)
    | DisconnectOp(id: nat)
    | ClearOp
    | DestroyOp(handler: SignalHandler)
    | EmitOp(scripts: seq<seq<Op>>)

  // ---------- the reference: a map of connected functions ----------

  /** The connected functions by id, the next id, and the functions that have been invalidated. */
  datatype Roster = Roster(live: map<nat, Callable>, next: nat, dead: set<Callable>)
  {
    ghost predicate Sound()
    {
      forall id :: id in live ==> id < next && live[id] !in dead
    }
  }

  ghost function Perform(r: Roster, op: Op): (q: Roster)
    requires r.Sound()
    ensures q.Sound() && r.next <= q.next <= r.next + Connects(op)
    ensures forall id :: id in q.live && id < r.next ==> id in r.live
  {
    match op
    case ConnectOp(slot) =>
      if slot in r.dead then r else r.(live := r.live[r.next := slot], next := r.next + 1)
    case DisconnectOp(id) => r.(live := r.live - {id})
    case ClearOp => r.(live := map[])
    case DestroyOp(handler) =>
      r.(live := map id | id in r.live && r.live[id] !in handler.functions :: r.live[id],
         dead := r.dead + set f | f in handler.functions)
    // a signal that is being emitted is not emitted again
    case EmitOp(_) => r
  }

  lemma PerformEmit(r: Roster)
    requires r.Sound()
    ensures forall scripts :: Perform(r, EmitOp(scripts)) == r
  {
  }

  function Connects(op: Op): (r: nat)
  {
    if op.ConnectOp? then 1 else 0
  }

  function ScriptConnects(script: seq<Op>): (r: nat)
  {
    if |script| == 0 then 0 else ScriptConnects(script[..|script| - 1]) + Connects(script[|script| - 1])
  }

  ghost function PerformAll(r: Roster, script: seq<Op>): (q: Roster)
    requires r.Sound()
    ensures q.Sound() && r.next <= q.next <= r.next + ScriptConnects(script)
    ensures forall id :: id in q.live && id < r.next ==> id in r.live
  {
    if |script| == 0 then r else Perform(PerformAll(r, script[..|script| - 1]), script[|script| - 1])
  }

  /** What the k-th function called does. */
  function Script(scripts: seq<seq<Op>>, k: nat): (r: seq<Op>)
  {
    if k < |scripts| then scripts[k] else []
  }

  function ConnectsFrom(scripts: seq<seq<Op>>, k: nat): (r: nat)
    decreases |scripts| - k
  {
    if k >= |scripts| then 0 else ScriptConnects(scripts[k]) + ConnectsFrom(scripts, k + 1)
  }

  /** The smallest connected id in [from, end), or `end`. */
  ghost function First(live: map<nat, Callable>, from: nat, end: nat): (i: nat)
    requires from <= end
    ensures from <= i <= end
    ensures i < end ==> i in live
    ensures forall j :: from <= j < i ==> j !in live
    decreases end - from
  {
    if from == end || from in live then from else First(live, from + 1, end)
  }

  /**
   * An emission from id `from` on: call the connected record with the smallest id, then go on behind
   * it, with whatever that call left behind.
   */
  ghost function Emission(r: Roster, from: nat, k: nat, scripts: seq<seq<Op>>): (q: (Roster, seq<nat>))
    requires r.Sound() && from <= r.next
    ensures q.0.Sound() && r.next <= q.0.next
    decreases ConnectsFrom(scripts, k) + r.next - from
  {
    var i := First(r.live, from, r.next);
    if i == r.next then
      (r, [])
    else
      var rest := Emission(PerformAll(r, Script(scripts, k)), i + 1, k + 1, scripts);
      (rest.0, [i] + rest.1)
  }

  // ---------- what the reference means ----------

  /** What each operation does to the roster. */
  lemma PerformEffect(r: Roster, op: Op)
    requires r.Sound()
    ensures var q := Perform(r, op);
      && (op.ConnectOp? && op.slot !in r.dead ==>
            && q.next == r.next + 1 && q.dead == r.dead && q.live.Keys == r.live.Keys + {r.next}
            && q.live[r.next] == op.slot && forall id :: id in r.live ==> q.live[id] == r.live[id])
      && (op.ConnectOp? && op.slot in r.dead ==> q == r)
      && (op.DisconnectOp? ==>
            && q.next == r.next && q.dead == r.dead && q.live.Keys == r.live.Keys - {op.id}
            && forall id :: id in q.live ==> q.live[id] == r.live[id])
      && (op.ClearOp? ==> q == Roster(map[], r.next, r.dead))
      && (op.DestroyOp? ==>
            && q.next == r.next && (forall f :: f in q.dead <==> f in r.dead || f in op.handler.functions)
            && (forall id :: id in q.live <==> id in r.live && r.live[id] !in op.handler.functions)
            && forall id :: id in q.live ==> q.live[id] == r.live[id])
      && (op.EmitOp? ==> q == r)
  {
    assert op.ConnectOp? || op.DisconnectOp? || op.ClearOp? || op.DestroyOp? || op.EmitOp?;
  }

  lemma {:induction false} PerformAllConcat(r: Roster, a: seq<Op>, b: seq<Op>)
    requires r.Sound()
    ensures PerformAll(r, a + b) == PerformAll(PerformAll(r, a), b)
  {
    hide Perform, ScriptConnects;
    if |b| == 0 {
      assert a + b == a;
    } else {
      var front, last := b[..|b| - 1], b[|b| - 1];
      PerformAllConcat(r, a, front);
      assert (a + b)[..|a + b| - 1] == a + front && (a + b)[|a + b| - 1] == last;
    }
  }

  /** The operations of n scripts from the k-th on, one after the other. */
  function Joined(scripts: seq<seq<Op>>, k: nat, n: nat): (ops: seq<Op>)
    decreases n
  {
    if n == 0 then [] else (if k < |scripts| then scripts[k] else []) + Joined(scripts, k + 1, n - 1)
  }

  /**
   * An emission is the run of the scripts of the functions it calls, in order, and each function it
   * calls is connected when its turn comes.
   */
  lemma {:induction false} EmissionIsScripts(r: Roster, from: nat, k: nat, scripts: seq<seq<Op>>)
    requires r.Sound() && from <= r.next
    ensures var (after, log) := Emission(r, from, k, scripts);
      && after == PerformAll(r, Joined(scripts, k, |log|))
      && forall a :: 0 <= a < |log| ==> log[a] in PerformAll(r, Joined(scripts, k, a)).live
    decreases ConnectsFrom(scripts, k) + r.next - from
  {
    hide First, PerformAll;
    PerformNone(r);
    var i := First(r.live, from, r.next);
    if i < r.next {
      var script := Script(scripts, k);
      var mid := PerformAll(r, script);
      EmissionIsScripts(mid, i + 1, k + 1, scripts);
      var rest := Emission(mid, i + 1, k + 1, scripts).1;
      var log := [i] + rest;
      PerformAllConcat(r, script, Joined(scripts, k + 1, |rest|));
      forall a | 0 <= a < |log| ensures log[a] in PerformAll(r, Joined(scripts, k, a)).live {
        if a > 0 {
          PerformAllConcat(r, script, Joined(scripts, k + 1, a - 1));
          assert log[a] == rest[a - 1];
        }
      }
    }
  }

  lemma PerformNone(r: Roster)
    requires r.Sound()
    ensures PerformAll(r, []) == r
  {
  }

  // ---------- what an emission does ----------

  ghost predicate Ascending(log: seq<nat>, from: nat)
  {
    && (forall a :: 0 <= a < |log| ==> from <= log[a])
    && (forall a, b :: 0 <= a < b < |log| ==> log[a] < log[b])
  }

  lemma AscendingFrom(from: nat, i: nat, rest: seq<nat>)
    requires from <= i && Ascending(rest, i + 1)
    ensures Ascending([i] + rest, from)
  {
  }

  /** Every record is called at most once, in the order of the ids. */
  lemma {:induction false} CalledOnceInOrder(r: Roster, from: nat, k: nat, scripts: seq<seq<Op>>)
    requires r.Sound() && from <= r.next
    ensures Ascending(Emission(r, from, k, scripts).1, from)
    decreases ConnectsFrom(scripts, k) + r.next - from
  {
    hide First, PerformAll;
    var i := First(r.live, from, r.next);
    if i < r.next {
      var after := PerformAll(r, Script(scripts, k));
      CalledOnceInOrder(after, i + 1, k + 1, scripts);
      AscendingFrom(from, i, Emission(after, i + 1, k + 1, scripts).1);
    }
  }

  /** What is not connected by now, and has been once, is not called any more. */
  lemma {:induction false} GoneIsNotCalled(r: Roster, from: nat, k: nat, scripts: seq<seq<Op>>, id: nat)
    requires r.Sound() && from <= r.next && id < r.next && id !in r.live
    ensures id !in Emission(r, from, k, scripts).1 && id !in Emission(r, from, k, scripts).0.live
    decreases ConnectsFrom(scripts, k) + r.next - from
  {
    hide First, PerformAll;
    var i := First(r.live, from, r.next);
    if i < r.next {
      GoneIsNotCalled(PerformAll(r, Script(scripts, k)), i + 1, k + 1, scripts, id);
    }
  }

  /** Whatever is connected when the emission ends was called by it, even if it was connected on the way. */
  lemma {:induction false} SurvivorsWereCalled(r: Roster, from: nat, k: nat, scripts: seq<seq<Op>>, id: nat)
    requires r.Sound() && from <= r.next && from <= id
    requires id in Emission(r, from, k, scripts).0.live
    ensures id in Emission(r, from, k, scripts).1
    decreases ConnectsFrom(scripts, k) + r.next - from
  {
    hide First, PerformAll;
    var i := First(r.live, from, r.next);
    if i < r.next {
      var after := PerformAll(r, Script(scripts, k));
      if id < i {
        GoneIsNotCalled(after, i + 1, k + 1, scripts, id);
      } else if id > i {
        SurvivorsWereCalled(after, i + 1, k + 1, scripts, id);
      }
    }
  }

  // ---------- the list, as a value ----------

  ghost predicate Has(records: seq<SlotRecord>, id: nat)
  {
    exists i :: 0 <= i < |records| && records[i].id == id
  }

  /**
   * The ids increase along the list; a record without a removal request and with a function that
   * is still there is connected, the others are not; and everything connected is in the list.
   */
  ghost predicate Lists(records: seq<SlotRecord>, r: Roster)
  {
    && IdsAscend(records)
    && (forall i :: 0 <= i < |records| ==> records[i].id < r.next && Connected(records[i], r))
    && (forall id :: id in r.live ==> Has(records, id))
  }

  ghost predicate Connected(s: SlotRecord, r: Roster)
  {
    && (s.id in r.live <==> !s.requestRemoval && s.fsptr !in r.dead)
    && (s.id in r.live ==> r.live[s.id] == s.fsptr)
  }

  /** Records stay where they are, with their function; removal requests stay. */
  ghost predicate Kept(was: seq<SlotRecord>, now: seq<SlotRecord>)
  {
    && |was| <= |now|
    && forall i :: 0 <= i < |was| ==> now[i].id == was[i].id && now[i].fsptr == was[i].fsptr
                                      && (was[i].requestRemoval ==> now[i].requestRemoval)
  }

  lemma KeptReflexive(a: seq<SlotRecord>)
    ensures Kept(a, a)
  {
  }

  lemma KeptTransitive(a: seq<SlotRecord>, b: seq<SlotRecord>, c: seq<SlotRecord>)
    requires Kept(a, b) && Kept(b, c)
    ensures Kept(a, c)
  {
  }

  lemma ConnectLists(records: seq<SlotRecord>, r: Roster, slot: Callable)
    requires r.Sound() && Lists(records, r) && slot !in r.dead
    ensures Lists(records + [SlotRecord(r.next, false, slot)], Perform(r, ConnectOp(slot)))
  {
    var more, q := records + [SlotRecord(r.next, false, slot)], Perform(r, ConnectOp(slot));
    forall i | 0 <= i < |more| ensures Connected(more[i], q) {
      if i < |records| {
        assert more[i] == records[i] && Connected(records[i], r);
      }
    }
    forall id | id in q.live ensures Has(more, id) {
      if id == r.next {
        assert more[|records|].id == id;
      } else {
        assert Has(records, id);
        var i :| 0 <= i < |records| && records[i].id == id;
        assert more[i].id == id;
      }
    }
  }

  /** Same ids and functions; the records outside `q.live` are out. */
  lemma SameIds(was: seq<SlotRecord>, now: seq<SlotRecord>, r: Roster, q: Roster)
    requires Lists(was, r) && |now| == |was| && q.next == r.next
    requires forall i :: 0 <= i < |was| ==> now[i].id == was[i].id && Connected(now[i], q)
    requires forall id :: id in q.live ==> id in r.live
    ensures Lists(now, q)
  {
    forall id | id in q.live ensures Has(now, id) {
      assert Has(was, id);
      var i :| 0 <= i < |was| && was[i].id == id;
      assert now[i].id == id;
    }
  }

  lemma NoneConnected(records: seq<SlotRecord>, r: Roster)
    requires Lists(records, r)
    requires forall i :: 0 <= i < |records| ==> records[i].id !in r.live
    ensures r.live == map[]
  {
    forall id ensures id !in r.live {
      if Has(records, id) {
        var i :| 0 <= i < |records| && records[i].id == id;
      }
    }
  }

  // ---------- a position in the list ----------

  /** The records before position `it` have ids below `from`, the others do not. */
  ghost predicate Ahead(records: seq<SlotRecord>, it: nat, from: nat)
  {
    && it <= |records|
    && (forall j :: 0 <= j < it ==> records[j].id < from)
    && (forall j :: it <= j < |records| ==> from <= records[j].id)
  }

  lemma AheadAt(records: seq<SlotRecord>, it: nat, from: nat)
    requires Ahead(records, it, from) && it < |records|
    ensures from <= records[it].id
  {
  }

  lemma AheadStep(was: seq<SlotRecord>, now: seq<SlotRecord>, it: nat)
    requires IdsAscend(now) && Kept(was, now) && it < |was|
    ensures Ahead(now, it + 1, was[it].id + 1)
  {
    assert now[it].id == was[it].id;
  }

  lemma FirstSkips(live: map<nat, Callable>, from: nat, mid: nat, end: nat)
    requires from <= mid <= end && forall j :: from <= j < mid ==> j !in live
    ensures First(live, from, end) == First(live, mid, end)
  {
    var a, b := First(live, from, end), First(live, mid, end);
    assert a >= mid || a == end;
  }

  lemma ConnectedIsAhead(records: seq<SlotRecord>, r: Roster, it: nat, from: nat, id: nat)
    requires Lists(records, r) && Ahead(records, it, from) && id in r.live && from <= id
    ensures id < r.next && it < |records| && records[it].id <= id
  {
    assert Has(records, id);
    var i :| 0 <= i < |records| && records[i].id == id;
  }

  /** The next connected record is the one at the position, if it is connected at all. */
  lemma NextConnected(records: seq<SlotRecord>, r: Roster, it: nat, from: nat)
    requires Lists(records, r) && Ahead(records, it, from)
    ensures forall j :: from <= j < (if it < |records| then records[it].id else r.next) ==> j !in r.live
  {
    forall j | j in r.live && from <= j ensures it < |records| && records[it].id <= j {
      ConnectedIsAhead(records, r, it, from, j);
    }
  }

  lemma EmissionFrom(r: Roster, from: nat, mid: nat, k: nat, scripts: seq<seq<Op>>)
    requires r.Sound() && from <= mid <= r.next
    requires First(r.live, from, r.next) == First(r.live, mid, r.next)
    ensures Emission(r, from, k, scripts) == Emission(r, mid, k, scripts)
  {
    hide First, PerformAll;
  }

  lemma EmissionSkips(records: seq<SlotRecord>, r: Roster, it: nat, from: nat, k: nat, scripts: seq<seq<Op>>)
    requires r.Sound() && Lists(records, r) && Ahead(records, it, from) && from <= r.next
    requires it < |records| && records[it].id !in r.live
    ensures Emission(r, from, k, scripts) == Emission(r, records[it].id + 1, k, scripts)
  {
    hide Emission;
    NextConnected(records, r, it, from);
    FirstSkips(r.live, from, records[it].id + 1, r.next);
    EmissionFrom(r, from, records[it].id + 1, k, scripts);
  }

  lemma EmissionCalls(records: seq<SlotRecord>, r: Roster, it: nat, from: nat, k: nat, scripts: seq<seq<Op>>)
    requires r.Sound() && Lists(records, r) && Ahead(records, it, from) && from <= r.next
    requires it < |records| && records[it].id in r.live
    ensures var rest := Emission(PerformAll(r, Script(scripts, k)), records[it].id + 1, k + 1, scripts);
      Emission(r, from, k, scripts) == (rest.0, [records[it].id] + rest.1)
  {
    hide PerformAll, Script;
    NextConnected(records, r, it, from);
    FirstSkips(r.live, from, records[it].id, r.next);
  }

  lemma EmissionEnds(records: seq<SlotRecord>, r: Roster, it: nat, from: nat, k: nat, scripts: seq<seq<Op>>)
    requires r.Sound() && Lists(records, r) && Ahead(records, it, from) && from <= r.next
    requires it == |records|
    ensures Emission(r, from, k, scripts) == (r, [])
  {
    NextConnected(records, r, it, from);
    FirstSkips(r.live, from, r.next, r.next);
  }

  /** The records that stay when the list is tidied. */
  ghost function Tidied(records: seq<SlotRecord>, dead: set<Callable>): (t: seq<SlotRecord>)
    ensures |t| <= |records|
    ensures forall i :: 0 <= i < |t| ==> t[i] in records && !t[i].requestRemoval && t[i].fsptr !in dead
    ensures forall s :: s in records && !s.requestRemoval && s.fsptr !in dead ==> s in t
  {
    if |records| == 0 then []
    else
      var last := records[|records| - 1];
      Tidied(records[..|records| - 1], dead) + if last.requestRemoval || last.fsptr in dead then [] else [last]
  }

  ghost predicate IdsAscend(records: seq<SlotRecord>)
  {
    forall i, j :: 0 <= i < j < |records| ==> records[i].id < records[j].id
  }

  lemma AppendAscends(records: seq<SlotRecord>, s: SlotRecord)
    requires IdsAscend(records) && forall t :: t in records ==> t.id < s.id
    ensures IdsAscend(records + [s])
  {
    assert forall i :: 0 <= i < |records| ==> records[i] in records;
  }

  lemma {:induction false} TidiedAscends(records: seq<SlotRecord>, dead: set<Callable>)
    requires IdsAscend(records)
    ensures IdsAscend(Tidied(records, dead))
  {
    if |records| > 0 {
      var front, last := records[..|records| - 1], records[|records| - 1];
      assert IdsAscend(front);
      TidiedAscends(front, dead);
      var t := Tidied(front, dead);
      forall s | s in t ensures s.id < last.id {
        var i :| 0 <= i < |t| && t[i] == s;
        assert t[i] in front;
        var j :| 0 <= j < |front| && front[j] == s;
        assert records[j] == s;
      }
      AppendAscends(t, last);
    }
  }

  /** Erasing what is out has no functional effect. */
  lemma TidiedLists(records: seq<SlotRecord>, r: Roster)
    requires Lists(records, r)
    ensures Lists(Tidied(records, r.dead), r)
  {
    hide Tidied;
    var t := Tidied(records, r.dead);
    TidiedAscends(records, r.dead);
    forall i | 0 <= i < |t| ensures t[i].id < r.next && Connected(t[i], r) {
      var j :| 0 <= j < |records| && records[j] == t[i];
    }
    forall id | id in r.live ensures Has(t, id) {
      assert Has(records, id);
      var j :| 0 <= j < |records| && records[j].id == id;
      assert Connected(records[j], r) && records[j] in t;
      var i :| 0 <= i < |t| && t[i] == records[j];
    }
  }

  // ---------- the signal ----------

  ghost predicate Within(op: Op, universe: set<Callable>)
  {
    && (op.ConnectOp? ==> op.slot in universe)
    && (op.DestroyOp? ==> forall f :: f in op.handler.functions ==> f in universe)
  }

  ghost predicate AllWithin(script: seq<Op>, universe: set<Callable>)
  {
    forall i :: 0 <= i < |script| ==> Within(script[i], universe)
  }

  class Signal {
    /** All function objects the program has. */
    ghost const Universe: set<Callable>

    var locked: bool
    var nextId: nat
    var pendingRemoval: bool
    var slotRecords: seq<SlotRecord>

    constructor (ghost universe: set<Callable>)
      ensures Universe == universe && !locked && Tidy() && slotRecords == []
      ensures Shows(Roster(map[], 0, set f | f in universe && !f.present))
    {
      Universe := universe;
      locked, nextId, pendingRemoval, slotRecords := false, 0, false, [];
    }

    /** The list and the functions are what the reference says. */
    ghost predicate Shows(r: Roster)
      reads this`nextId, this`slotRecords, Universe`present
    {
      && r.Sound() && nextId == r.next
      && (forall f :: f in Universe ==> (f.present <==> f !in r.dead))
      && (forall i :: 0 <= i < |slotRecords| ==> slotRecords[i].fsptr in Universe)
      && Lists(slotRecords, r)
    }

    /** No removal request without the pending flag. */
    ghost predicate Flagged()
      reads this`pendingRemoval, this`slotRecords
    {
      !pendingRemoval ==> forall i :: 0 <= i < |slotRecords| ==> !slotRecords[i].requestRemoval
    }

    /** Outside of an emission no removal request is left waiting. */
    ghost predicate Tidy()
      reads this`locked, this`pendingRemoval, this`slotRecords
    {
      Flagged() && (!locked ==> !pendingRemoval)
    }

    /** insert. */
    method Connect(slot: Callable, ghost r: Roster) returns (ok: bool, id: nat)
      requires Shows(r) && Tidy() && slot in Universe
      modifies this`nextId, this`slotRecords
      ensures Shows(Perform(r, ConnectOp(slot))) && Tidy()
      ensures ok <==> slot !in r.dead
      ensures if ok then id == r.next && Shows(r.(live := r.live[id := slot], next := id + 1)) else Shows(r)
      ensures Kept(old(slotRecords), slotRecords)
    {
      id := 0;
      if !slot.present {
        return false, id;
      }
      ConnectLists(slotRecords, r, slot);
      id := nextId;
      nextId := nextId + 1;
      slotRecords := slotRecords + [SlotRecord(id, false, slot)];
      ok := true;
    }

    /** reconcile_removal: no functional effect, and none at all during an emission. */
    method ReconcileRemoval(ghost r: Roster)
      requires Shows(r) && Flagged()
      modifies this`pendingRemoval, this`slotRecords
      ensures Shows(r) && Tidy()
      ensures locked ==> slotRecords == old(slotRecords) && pendingRemoval == old(pendingRemoval)
      ensures !locked && old(pendingRemoval) ==> slotRecords == Tidied(old(slotRecords), r.dead)
    {
      hide Lists;
      if !pendingRemoval {
        return;
      }
      if locked {
        return;
      }
      TidiedLists(slotRecords, r);
      var stay: seq<SlotRecord> := [];
      assert slotRecords[..0] == [];
      for i := 0 to |slotRecords|
        invariant stay == Tidied(slotRecords[..i], r.dead)
      {
        assert slotRecords[..i + 1][..i] == slotRecords[..i];
        if !(slotRecords[i].requestRemoval || !slotRecords[i].fsptr.present) {
          stay := stay + [slotRecords[i]];
        }
      }
      assert slotRecords[..|slotRecords|] == slotRecords;
      slotRecords := stay;
      pendingRemoval := false;
    }

    /** remove. */
    method Remove(id: nat, ghost r: Roster)
      requires Shows(r) && Tidy()
      modifies this`pendingRemoval, this`slotRecords
      ensures Shows(Perform(r, DisconnectOp(id))) && Shows(r.(live := r.live - {id})) && Tidy()
      ensures locked ==> Kept(old(slotRecords), slotRecords)
    {
      ghost var q, was := Perform(r, DisconnectOp(id)), slotRecords;
      var i := 0;
      while i < |slotRecords| && slotRecords[i].id != id
        invariant 0 <= i <= |slotRecords|
        invariant forall j :: 0 <= j < i ==> slotRecords[j].id != id
      {
        i := i + 1;
      }
      if i < |slotRecords| {
        slotRecords := slotRecords[i := slotRecords[i].(requestRemoval := true)];
      }
      RemovedConnected(was, slotRecords, r, id, i);
      SameIds(was, slotRecords, r, q);
      pendingRemoval := true;
      ReconcileRemoval(q);
    }

    /** clear. */
    method Clear(ghost r: Roster)
      requires Shows(r) && Tidy()
      modifies this`pendingRemoval, this`slotRecords
      ensures Shows(Perform(r, ClearOp)) && Shows(Roster(map[], r.next, r.dead)) && Tidy()
      ensures locked ==> Kept(old(slotRecords), slotRecords)
    {
      ghost var q, was := Perform(r, ClearOp), slotRecords;
      for i := 0 to |slotRecords|
        invariant |slotRecords| == |was|
        invariant forall j :: 0 <= j < i ==> slotRecords[j] == was[j].(requestRemoval := true)
        invariant forall j :: i <= j < |was| ==> slotRecords[j] == was[j]
      {
        slotRecords := slotRecords[i := slotRecords[i].(requestRemoval := true)];
      }
      SameIds(was, slotRecords, r, q);
      pendingRemoval := true;
      ReconcileRemoval(q);
    }

    /** is_valid. */
    method IsValid(id: nat, ghost r: Roster) returns (valid: bool)
      requires Shows(r)
      ensures valid <==> id in r.live
    {
      for i := 0 to |slotRecords|
        invariant forall j :: 0 <= j < i ==> slotRecords[j].id != id
      {
        if slotRecords[i].id == id {
          assert Connected(slotRecords[i], r);
          return !(slotRecords[i].requestRemoval || !slotRecords[i].fsptr.present);
        }
      }
      assert !Has(slotRecords, id);
      return false;
    }

    /** empty. */
    method Empty(ghost r: Roster) returns (empty: bool)
      requires Shows(r)
      ensures empty <==> r.live == map[]
    {
      for i := 0 to |slotRecords|
        invariant forall j :: 0 <= j < i ==> slotRecords[j].id !in r.live
      {
        assert Connected(slotRecords[i], r);
        if !(slotRecords[i].requestRemoval || !slotRecords[i].fsptr.present) {
          assert slotRecords[i].id in r.live;
          return false;
        }
      }
      NoneConnected(slotRecords, r);
      return true;
    }

    /** A handler goes out of scope. */
    method Destroy(handler: SignalHandler, ghost r: Roster)
      requires Shows(r) && Within(DestroyOp(handler), Universe)
      modifies (set f | f in handler.functions)`present
      ensures Shows(Perform(r, DestroyOp(handler)))
    {
      ghost var q := Perform(r, DestroyOp(handler));
      handler.Destroy();
      forall i | 0 <= i < |slotRecords| ensures Connected(slotRecords[i], q) {
        assert Connected(slotRecords[i], r);
      }
      SameIds(slotRecords, slotRecords, r, q);
    }

    /** One operation of a callback; the signal is being emitted, so the list only grows. */
    method Run(op: Op, ghost r: Roster)
      requires Shows(r) && r.Sound() && locked && Tidy() && Within(op, Universe)
      modifies this`nextId, this`pendingRemoval, this`slotRecords, this`locked, Universe`present
      ensures Shows(Perform(r, op)) && locked && Tidy()
      ensures Kept(old(slotRecords), slotRecords)
      decreases 1, 0
    {
      hide Shows, Perform;
      PerformEmit(r);
      match op {
        case ConnectOp(slot) => var _, _ := Connect(slot, r);
        case DisconnectOp(id) => Remove(id, r);
        case ClearOp => Clear(r);
        case DestroyOp(handler) => Destroy(handler, r);
        case EmitOp(scripts) => var _, _ := Emit(scripts, r);
      }
    }

    method RunScript(script: seq<Op>, ghost r: Roster)
      requires Shows(r) && r.Sound() && locked && Tidy() && AllWithin(script, Universe)
      modifies this`nextId, this`pendingRemoval, this`slotRecords, this`locked, Universe`present
      ensures Shows(PerformAll(r, script)) && locked && Tidy()
      ensures Kept(old(slotRecords), slotRecords)
      decreases 1, 1
    {
      hide Shows, Perform, Kept;
      KeptReflexive(slotRecords);
      assert script[..0] == [];
      for i := 0 to |script|
        invariant locked && Tidy() && Shows(PerformAll(r, script[..i]))
        invariant Kept(old(slotRecords), slotRecords)
      {
        assert script[..i + 1][..i] == script[..i];
        ghost var was := slotRecords;
        Run(script[i], PerformAll(r, script[..i]));
        KeptTransitive(old(slotRecords), was, slotRecords);
      }
      assert script[..|script|] == script;
    }

    /** One turn of the loop of emit: call the record, or ask for its removal. */
    method Visit(it: nat, script: seq<Op>, ghost r: Roster) returns (called: bool)
      requires Shows(r) && r.Sound() && locked && Tidy() && it < |slotRecords| && AllWithin(script, Universe)
      modifies this`nextId, this`pendingRemoval, this`slotRecords, this`locked, Universe`present
      ensures locked && Tidy() && Kept(old(slotRecords), slotRecords)
      ensures called <==> old(slotRecords)[it].id in r.live
      ensures Shows(if called then PerformAll(r, script) else r)
      decreases 1, 2
    {
      hide PerformAll;
      assert Connected(slotRecords[it], r);
      if slotRecords[it].requestRemoval || !slotRecords[it].fsptr.present {
        ghost var was := slotRecords;
        slotRecords := slotRecords[it := slotRecords[it].(requestRemoval := true)];
        forall i | 0 <= i < |was| ensures Connected(slotRecords[i], r) {
          assert Connected(was[i], r);
        }
        SameIds(was, slotRecords, r, r);
        pendingRemoval := true;
        return false;
      }
      RunScript(script, r);
      return true;
    }

    /** The loop of emit; list positions stay what they are, because nothing is erased. */
    method VisitAll(scripts: seq<seq<Op>>, ghost r: Roster) returns (log: seq<nat>)
      requires Shows(r) && r.Sound() && locked && Tidy()
      requires forall i :: 0 <= i < |scripts| ==> AllWithin(scripts[i], Universe)
      modifies this`nextId, this`pendingRemoval, this`slotRecords, this`locked, Universe`present
      ensures locked && Tidy() && Shows(Emission(r, 0, 0, scripts).0)
      ensures log == Emission(r, 0, 0, scripts).1
      ensures Kept(old(slotRecords), slotRecords)
      decreases 1, 3
    {
      hide Shows, Kept, PerformAll, Emission, Ahead, IdsAscend;
      log := [];
      var it := 0;
      ghost var cur: Roster, from: nat := r, 0;
      ghost var all := Emission(r, 0, 0, scripts);
      assert all.1 == [] + all.1;
      KeptReflexive(slotRecords);
      StartAhead(slotRecords);
      while it < |slotRecords|
        invariant it <= |slotRecords| && locked && Tidy() && cur.Sound() && from <= cur.next && Shows(cur)
        invariant Ahead(slotRecords, it, from)
        invariant all == (Emission(cur, from, |log|, scripts).0, log + Emission(cur, from, |log|, scripts).1)
        invariant Kept(old(slotRecords), slotRecords)
        decreases ConnectsFrom(scripts, |log|) + cur.next - from
      {
        ListsShown(cur);
        ghost var was, k := slotRecords, |log|;
        AheadAt(was, it, from);
        var script := if |log| < |scripts| then scripts[|log|] else [];
        var id := slotRecords[it].id;
        var called := Visit(it, script, cur);
        KeptTransitive(old(slotRecords), was, slotRecords);
        if called {
          EmissionCalls(was, cur, it, from, k, scripts);
          ghost var rest := Emission(PerformAll(cur, script), id + 1, k + 1, scripts).1;
          assert log + ([id] + rest) == (log + [id]) + rest;
          log := log + [id];
          cur := PerformAll(cur, script);
        } else {
          EmissionSkips(was, cur, it, from, k, scripts);
        }
        ListsShown(cur);
        AheadStep(was, slotRecords, it);
        from, it := id + 1, it + 1;
      }
      ListsShown(cur);
      EmissionEnds(slotRecords, cur, it, from, |log|, scripts);
    }

    /** emit. */
    method Emit(scripts: seq<seq<Op>>, ghost r: Roster) returns (done: bool, log: seq<nat>)
      requires Shows(r) && r.Sound() && Tidy()
      requires !locked ==> forall i :: 0 <= i < |scripts| ==> AllWithin(scripts[i], Universe)
      modifies this`nextId, this`pendingRemoval, this`slotRecords, this`locked, Universe`present
      // an emission from inside an emission does nothing
      ensures old(locked) ==> !done && log == [] && Shows(r) && locked && slotRecords == old(slotRecords)
      ensures Tidy()
      ensures !old(locked) ==> done && !locked && Shows(Emission(r, 0, 0, scripts).0)
      ensures !old(locked) ==> log == Emission(r, 0, 0, scripts).1
      decreases if locked then 0 else 2
    {
      hide Shows, Emission;
      log := [];
      if locked {
        return false, log;
      }
      locked := true;
      log := VisitAll(scripts, r);
      locked := false;
      ReconcileRemoval(Emission(r, 0, 0, scripts).0);
      done := true;
    }

    lemma ListsShown(r: Roster)
      requires Shows(r)
      ensures Lists(slotRecords, r) && IdsAscend(slotRecords) && r.Sound()
      ensures forall i :: 0 <= i < |slotRecords| ==> slotRecords[i].id < r.next
    {
    }
  }

  lemma StartAhead(records: seq<SlotRecord>)
    ensures Ahead(records, 0, 0)
  {
  }

  lemma RemovedConnected(was: seq<SlotRecord>, now: seq<SlotRecord>, r: Roster, id: nat, i: nat)
    requires Lists(was, r) && r.Sound() && i <= |was|
    requires forall j :: 0 <= j < i ==> was[j].id != id
    requires i < |was| ==> was[i].id == id
    requires now == if i < |was| then was[i := was[i].(requestRemoval := true)] else was
    ensures forall j :: 0 <= j < |was| ==> now[j].id == was[j].id && Connected(now[j], Perform(r, DisconnectOp(id)))
    ensures Kept(was, now)
  {
    forall j | 0 <= j < |was| ensures now[j].id == was[j].id && Connected(now[j], Perform(r, DisconnectOp(id))) {
      assert Connected(was[j], r);
      assert j > i ==> was[i].id < was[j].id;
    }
  }
}
