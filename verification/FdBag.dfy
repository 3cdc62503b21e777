/**
 * The registry of file-descriptor event sinks of vehicle/src/bullwinkle/all/FdBag.cc.
 *
 * Sinks are objects with the fields the bag touches.  What the kernel answers to epoll_ctl is a
 * parameter of each operation, and a callback is an arbitrary finite script of operations.  The
 * bag, with its swap-removal, back-indices and deferred deletion, is proved to refine a plain set
 * of attached sinks.
 */
module FdBags {
  /** An event mask. */
  datatype Events = Events(read: bool, write: bool, except: bool)
  {
    predicate ReadOrWrite() { read || write }
    function And(o: Events): (r: Events) { Events(read && o.read, write && o.write, except && o.except) }
    function Or(o: Events): (r: Events) { Events(read || o.read, write || o.write, except || o.except) }
  }

  const NONE := Events(false, false, false)
  const READ := Events(true, false, false)
  const WRITE := Events(false, true, false)
  const EXCEPT := Events(false, false, true)
  const READ_WRITE := Events(true, true, false)
  const SIZE_MAX: nat := 0xFFFF_FFFF_FFFF_FFFF

  class FdEventSink {
    var owner: FdBag?
    var idx: nat
    var events: Events          // what the client asks for
    var armed: Events           // epoll_events.events: what epoll was last told
    var closed: bool

    constructor ()
      ensures owner == null && idx == SIZE_MAX && events == NONE && armed == NONE && !closed
    {
      owner, idx, events, armed, closed := null, SIZE_MAX, NONE, NONE, false;
    }
  }

  /** One thing a callback can do to the bag, and what the kernel answers. */
  datatype Op =
    | AttachOp(sink: FdEventSink, ok: bool)
    | DetachOp(sink: FdEventSink, ok: bool)
    | SetEventsOp(sink: FdEventSink, events: Events, ok: bool)
    | CloseOp(sink: FdEventSink, ok: bool)

  /** An event delivered by epoll, and the callback that runs if it is dispatched. */
  datatype Delivery = Delivery(sink: FdEventSink, ready: Events, hangup: bool, error: bool,
                               script: seq<Op>, keep: bool, closeOk: bool)

  // ---------- the reference: a set of attached sinks ----------

  datatype Registry = Registry(attached: set<FdEventSink>, wanted: map<FdEventSink, Events>,
                               armed: map<FdEventSink, Events>, closed: set<FdEventSink>, active: int)
  {
    ghost predicate Over(universe: set<FdEventSink>)
    {
      attached <= universe && wanted.Keys == universe && armed.Keys == universe
    }

    /** Attached sinks that wait for reading or writing. */
    ghost function Interested(): (r: set<FdEventSink>)
    {
      set s | s in attached && s in armed && armed[s].ReadOrWrite()
    }

    /** The count that decides whether a select may block for ever. */
    ghost predicate Exact()
    {
      active == |Interested()|
    }

    ghost predicate AllOpen()
    {
      attached !! closed
    }
  }

  function Weight(e: Events): (r: int)
  {
    if e.ReadOrWrite() then 1 else 0
  }

  /** update_epoll. */
  ghost function Refresh(r: Registry, s: FdEventSink, ok: bool): (q: Registry)
    requires s in r.wanted && s in r.armed
  {
    var was, now := r.armed[s], r.wanted[s];
    r.(armed := r.armed[s := now],
       active := if now != was && !ok then r.active else r.active + Weight(now) - Weight(was))
  }

  ghost predicate Admits(r: Registry, maxFds: nat, s: FdEventSink)
  {
    s !in r.closed && s !in r.attached && |r.attached| < maxFds
  }

  /** attach_fes. */
  ghost function Enrol(r: Registry, maxFds: nat, s: FdEventSink, ok: bool): (q: Registry)
    requires s in r.wanted
  {
    if Admits(r, maxFds, s) then Refresh(r.(attached := r.attached + {s}, armed := r.armed[s := NONE]), s, ok) else r
  }

  /** remove_fes. */
  ghost function Drop(r: Registry, s: FdEventSink, ok: bool): (q: Registry)
    requires s in r.armed
  {
    if s !in r.attached then
      r
    else
      var uncounted := r.(active := r.active - Weight(r.armed[s]));
      if r.armed[s] != NONE && !ok then uncounted else uncounted.(attached := r.attached - {s})
  }

  /** set_events. */
  ghost function Want(r: Registry, s: FdEventSink, events: Events, ok: bool): (q: Registry)
    requires s in r.armed
  {
    var asked := r.(wanted := r.wanted[s := events]);
    if s in r.attached then Refresh(asked, s, ok) else asked
  }

  /** close: the sink is closed and takes itself out of the bag. */
  ghost function Shut(r: Registry, s: FdEventSink, ok: bool): (q: Registry)
    requires s in r.armed
  {
    if s in r.closed then r else Drop(r.(closed := r.closed + {s}), s, ok)
  }

  ghost function Perform(r: Registry, maxFds: nat, op: Op): (q: Registry)
    requires r.Over(r.wanted.Keys) && op.sink in r.wanted
    ensures q.Over(r.wanted.Keys)
  {
    match op
    case AttachOp(s, ok) => Enrol(r, maxFds, s, ok)
    case DetachOp(s, ok) => if s in r.closed then r else Drop(r, s, ok)
    case SetEventsOp(s, events, ok) => Want(r, s, events, ok)
    case CloseOp(s, ok) => Shut(r, s, ok)
  }

  ghost predicate Within(script: seq<Op>, universe: set<FdEventSink>)
  {
    forall i :: 0 <= i < |script| ==> script[i].sink in universe
  }

  ghost function PerformAll(r: Registry, maxFds: nat, script: seq<Op>): (q: Registry)
    requires r.Over(r.wanted.Keys) && Within(script, r.wanted.Keys)
    ensures q.Over(r.wanted.Keys)
  {
    if |script| == 0 then r
    else Perform(PerformAll(r, maxFds, script[..|script| - 1]), maxFds, script[|script| - 1])
  }

  /** What is dispatched: the ready events, those a hang-up or an error stand for, and the mask. */
  function Fired(armed: Events, d: Delivery, mask: Events): (r: Events)
  {
    d.ready.Or(if d.hangup then armed.And(READ) else NONE)
           .Or(if d.error then armed.And(READ_WRITE) else NONE).And(mask)
  }

  /** The events dispatched for one delivery; none if its sink was removed in the meantime. */
  ghost function FiredNow(r: Registry, mask: Events, d: Delivery): (q: Events)
  {
    if d.sink in r.attached && d.sink in r.armed then Fired(r.armed[d.sink], d, mask) else NONE
  }

  /** How many of the dispatched events have one of the given types. */
  function Count(fired: seq<Events>, types: Events): (r: nat)
  {
    if |fired| == 0 then 0
    else Count(fired[..|fired| - 1], types) + if fired[|fired| - 1].And(types) != NONE then 1 else 0
  }

  ghost predicate Covers(d: Delivery, universe: set<FdEventSink>)
  {
    d.sink in universe && Within(d.script, universe)
  }

  /** A callback runs, and its sink is closed unless it asks to be kept. */
  ghost function Called(r: Registry, maxFds: nat, d: Delivery): (q: Registry)
    requires r.Over(r.wanted.Keys) && Covers(d, r.wanted.Keys)
    ensures q.Over(r.wanted.Keys)
  {
    var after := PerformAll(r, maxFds, d.script);
    if d.keep then after else Shut(after, d.sink, d.closeOk)
  }

  ghost function Deliver(r: Registry, maxFds: nat, mask: Events, d: Delivery): (q: Registry)
    requires r.Over(r.wanted.Keys) && Covers(d, r.wanted.Keys)
    ensures q.Over(r.wanted.Keys)
  {
    if FiredNow(r, mask, d) == NONE then r else Called(r, maxFds, d)
  }

  ghost predicate CoversAll(ds: seq<Delivery>, universe: set<FdEventSink>)
  {
    forall i :: 0 <= i < |ds| ==> Covers(ds[i], universe)
  }

  ghost function DeliverAll(r: Registry, maxFds: nat, mask: Events, ds: seq<Delivery>): (q: Registry)
    requires r.Over(r.wanted.Keys) && CoversAll(ds, r.wanted.Keys)
    ensures q.Over(r.wanted.Keys)
  {
    if |ds| == 0 then r
    else Deliver(DeliverAll(r, maxFds, mask, ds[..|ds| - 1]), maxFds, mask, ds[|ds| - 1])
  }

  /** The registry just before delivery i. */
  ghost function Before(r: Registry, maxFds: nat, mask: Events, ds: seq<Delivery>, i: nat): (q: Registry)
    requires i <= |ds|
    requires r.Over(r.wanted.Keys) && CoversAll(ds, r.wanted.Keys)
    ensures q.Over(r.wanted.Keys)
  {
    DeliverAll(r, maxFds, mask, ds[..i])
  }

  lemma BeforeEnds(r: Registry, maxFds: nat, mask: Events, ds: seq<Delivery>)
    requires r.Over(r.wanted.Keys) && CoversAll(ds, r.wanted.Keys)
    ensures Before(r, maxFds, mask, ds, 0) == r
    ensures Before(r, maxFds, mask, ds, |ds|) == DeliverAll(r, maxFds, mask, ds)
  {
    assert ds[..|ds|] == ds;
  }

  lemma BeforeStep(r: Registry, maxFds: nat, mask: Events, ds: seq<Delivery>, i: nat)
    requires i < |ds|
    requires r.Over(r.wanted.Keys) && CoversAll(ds, r.wanted.Keys)
    ensures Before(r, maxFds, mask, ds, i + 1) == Deliver(Before(r, maxFds, mask, ds, i), maxFds, mask, ds[i])
  {
    hide Deliver;
    assert ds[..i + 1][..i] == ds[..i];
  }

  /** The events fired so far are those of the reference, delivery by delivery. */
  ghost predicate IsLog(r: Registry, maxFds: nat, mask: Events, ds: seq<Delivery>, fired: seq<Events>)
    requires r.Over(r.wanted.Keys) && CoversAll(ds, r.wanted.Keys)
  {
    && |fired| <= |ds|
    && forall j :: 0 <= j < |fired| ==> fired[j] == FiredNow(Before(r, maxFds, mask, ds, j), mask, ds[j])
  }

  lemma EmptyLog(r: Registry, maxFds: nat, mask: Events, ds: seq<Delivery>)
    requires r.Over(r.wanted.Keys) && CoversAll(ds, r.wanted.Keys)
    ensures IsLog(r, maxFds, mask, ds, [])
    ensures Count([], READ) == 0 && Count([], WRITE) == 0 && Count([], EXCEPT) == 0
  {
  }

  lemma LogStep(r: Registry, maxFds: nat, mask: Events, ds: seq<Delivery>, fired: seq<Events>, ev: Events)
    requires r.Over(r.wanted.Keys) && CoversAll(ds, r.wanted.Keys)
    requires IsLog(r, maxFds, mask, ds, fired) && |fired| < |ds|
    requires ev == FiredNow(Before(r, maxFds, mask, ds, |fired|), mask, ds[|fired|])
    ensures IsLog(r, maxFds, mask, ds, fired + [ev])
  {
    hide FiredNow, Before;
  }

  lemma CountStep(fired: seq<Events>, ev: Events, types: Events)
    ensures Count(fired + [ev], types) == Count(fired, types) + if ev.And(types) != NONE then 1 else 0
  {
    assert (fired + [ev])[..|fired|] == fired;
  }

  // ---------- what the reference means ----------

  /** attach, with what a kernel error leaves: the sink attached and armed, but its interest not counted. */
  lemma AttachEffect(r: Registry, maxFds: nat, s: FdEventSink, ok: bool)
    requires r.Over(r.wanted.Keys) && s in r.wanted
    ensures var q, asked := Perform(r, maxFds, AttachOp(s, ok)), r.wanted[s];
      var takes := s !in r.closed && s !in r.attached && |r.attached| < maxFds;
      && q.wanted == r.wanted && q.closed == r.closed
      && q.attached == r.attached + (if takes then {s} else {})
      && q.armed == (if takes then r.armed[s := asked] else r.armed)
      && q.active - r.active == if takes && ok && (asked.read || asked.write) then 1 else 0
  {
    assert r.armed[s := NONE][s := r.wanted[s]] == r.armed[s := r.wanted[s]];
  }

  /** detach and close, with what a kernel error leaves: the sink attached, its interest no longer counted. */
  lemma LeaveEffect(r: Registry, maxFds: nat, s: FdEventSink, ok: bool, close: bool)
    requires r.Over(r.wanted.Keys) && s in r.wanted
    ensures var q, was := Perform(r, maxFds, if close then CloseOp(s, ok) else DetachOp(s, ok)), r.armed[s];
      var tries := s in r.attached && s !in r.closed;
      && q.wanted == r.wanted && q.armed == r.armed
      && q.closed == r.closed + (if close then {s} else {})
      && q.attached == r.attached - (if tries && (ok || was == NONE) then {s} else {})
      && r.active - q.active == if tries && (was.read || was.write) then 1 else 0
  {
    assert s in r.closed ==> r.closed + {s} == r.closed;
    assert s !in r.attached ==> r.attached - {s} == r.attached;
  }

  /** set_events, with what a kernel error leaves: the sink armed, but the change not counted. */
  lemma SetEventsEffect(r: Registry, maxFds: nat, s: FdEventSink, asked: Events, ok: bool)
    requires r.Over(r.wanted.Keys) && s in r.wanted
    ensures var q, was := Perform(r, maxFds, SetEventsOp(s, asked, ok)), r.armed[s];
      && q.wanted == r.wanted[s := asked] && q.closed == r.closed && q.attached == r.attached
      && q.armed == (if s in r.attached then r.armed[s := asked] else r.armed)
      && q.active - r.active == if s in r.attached && ok
                                then (if asked.read || asked.write then 1 else 0) - (if was.read || was.write then 1 else 0)
                                else 0
  {
  }

  lemma {:induction false} PerformAllConcat(r: Registry, maxFds: nat, a: seq<Op>, b: seq<Op>)
    requires r.Over(r.wanted.Keys) && Within(a, r.wanted.Keys) && Within(b, r.wanted.Keys)
    ensures Within(a + b, r.wanted.Keys)
    ensures PerformAll(r, maxFds, a + b) == PerformAll(PerformAll(r, maxFds, a), maxFds, b)
  {
    hide Perform;
    if |b| == 0 {
      assert a + b == a;
    } else {
      var front, last := b[..|b| - 1], b[|b| - 1];
      PerformAllConcat(r, maxFds, a, front);
      assert (a + b)[..|a + b| - 1] == a + front && (a + b)[|a + b| - 1] == last;
    }
  }

  /** The bits of the event dispatched for a sink that is still attached. */
  lemma FiredBits(r: Registry, mask: Events, d: Delivery)
    requires d.sink in r.attached && d.sink in r.armed
    ensures var f, armed := FiredNow(r, mask, d), r.armed[d.sink];
      && (f.read <==> mask.read && (d.ready.read || (armed.read && (d.hangup || d.error))))
      && (f.write <==> mask.write && (d.ready.write || (armed.write && d.error)))
      && (f.except <==> mask.except && d.ready.except)
  {
  }

  /** The log in those terms, delivery by delivery. */
  lemma LogBits(r: Registry, maxFds: nat, mask: Events, ds: seq<Delivery>, fired: seq<Events>)
    requires r.Over(r.wanted.Keys) && CoversAll(ds, r.wanted.Keys) && IsLog(r, maxFds, mask, ds, fired)
    ensures forall j :: 0 <= j < |fired| ==>
      var now, d, f := Before(r, maxFds, mask, ds, j), ds[j], fired[j];
      if d.sink in now.attached then
        && d.sink in now.armed
        && (f.read <==> mask.read && (d.ready.read || (now.armed[d.sink].read && (d.hangup || d.error))))
        && (f.write <==> mask.write && (d.ready.write || (now.armed[d.sink].write && d.error)))
        && (f.except <==> mask.except && d.ready.except)
      else
        !f.read && !f.write && !f.except
  {
    hide Before, FiredNow, Covers;
    forall j | 0 <= j < |fired|
      ensures ds[j].sink in Before(r, maxFds, mask, ds, j).attached ==> ds[j].sink in Before(r, maxFds, mask, ds, j).armed
    {
      BeforeOver(r, maxFds, mask, ds, j);
    }
    forall j | 0 <= j < |fired|
      ensures var now, d, f := Before(r, maxFds, mask, ds, j), ds[j], fired[j];
        if d.sink in now.attached then
          && d.sink in now.armed
          && (f.read <==> mask.read && (d.ready.read || (now.armed[d.sink].read && (d.hangup || d.error))))
          && (f.write <==> mask.write && (d.ready.write || (now.armed[d.sink].write && d.error)))
          && (f.except <==> mask.except && d.ready.except)
        else
          !f.read && !f.write && !f.except
    {
      var now := Before(r, maxFds, mask, ds, j);
      assert fired[j] == FiredNow(now, mask, ds[j]);
      if ds[j].sink in now.attached {
        FiredBits(now, mask, ds[j]);
      } else {
        SilentIsNone(now, mask, ds[j]);
      }
    }
  }

  lemma BeforeOver(r: Registry, maxFds: nat, mask: Events, ds: seq<Delivery>, j: nat)
    requires j <= |ds| && r.Over(r.wanted.Keys) && CoversAll(ds, r.wanted.Keys)
    ensures Before(r, maxFds, mask, ds, j).attached <= Before(r, maxFds, mask, ds, j).armed.Keys
  {
    hide Before;
  }

  lemma SilentIsNone(r: Registry, mask: Events, d: Delivery)
    requires d.sink !in r.attached
    ensures FiredNow(r, mask, d) == NONE
  {
  }

  /** The operations of the callbacks that run, in order; a callback that does not keep its sink closes it. */
  ghost function Executed(r: Registry, maxFds: nat, mask: Events, ds: seq<Delivery>): (ops: seq<Op>)
    requires r.Over(r.wanted.Keys) && CoversAll(ds, r.wanted.Keys)
  {
    if |ds| == 0 then []
    else
      var d, f := ds[|ds| - 1], FiredNow(Before(r, maxFds, mask, ds, |ds| - 1), mask, ds[|ds| - 1]);
      Executed(r, maxFds, mask, ds[..|ds| - 1]) +
      if f.read || f.write || f.except then d.script + (if d.keep then [] else [CloseOp(d.sink, d.closeOk)]) else []
  }

  /** A dispatch is nothing but the run of these operations. */
  lemma {:induction false} DispatchIsScript(r: Registry, maxFds: nat, mask: Events, ds: seq<Delivery>)
    requires r.Over(r.wanted.Keys) && CoversAll(ds, r.wanted.Keys)
    ensures Within(Executed(r, maxFds, mask, ds), r.wanted.Keys)
    ensures DeliverAll(r, maxFds, mask, ds) == PerformAll(r, maxFds, Executed(r, maxFds, mask, ds))
  {
    hide Perform, FiredNow, Shut;
    if |ds| > 0 {
      var front, d := ds[..|ds| - 1], ds[|ds| - 1];
      DispatchIsScript(r, maxFds, mask, front);
      var before := DeliverAll(r, maxFds, mask, front);
      var f := FiredNow(before, mask, d);
      var ops := if f.read || f.write || f.except then d.script + (if d.keep then [] else [CloseOp(d.sink, d.closeOk)]) else [];
      DeliverIsScript(before, maxFds, mask, d);
      PerformAllConcat(r, maxFds, Executed(r, maxFds, mask, front), ops);
    }
  }

  lemma DeliverIsScript(r: Registry, maxFds: nat, mask: Events, d: Delivery)
    requires r.Over(r.wanted.Keys) && Covers(d, r.wanted.Keys)
    ensures var f := FiredNow(r, mask, d);
      var ops := if f.read || f.write || f.except then d.script + (if d.keep then [] else [CloseOp(d.sink, d.closeOk)]) else [];
      Within(ops, r.wanted.Keys) && Deliver(r, maxFds, mask, d) == PerformAll(r, maxFds, ops)
  {
    hide FiredNow, Shut;
    var close := [CloseOp(d.sink, d.closeOk)];
    PerformAllConcat(r, maxFds, d.script, close);
    PerformOne(PerformAll(r, maxFds, d.script), maxFds, close[0]);
    assert d.script + [] == d.script;
  }

  lemma PerformOne(r: Registry, maxFds: nat, op: Op)
    requires r.Over(r.wanted.Keys) && op.sink in r.wanted
    ensures PerformAll(r, maxFds, [op]) == Perform(r, maxFds, op)
  {
    hide Perform;
    assert [op][..0] == [];
  }

  /** The counters count dispatched events. */
  lemma CountIsNumber(fired: seq<Events>)
    ensures Count(fired, READ) == |set i | 0 <= i < |fired| && fired[i].read|
    ensures Count(fired, WRITE) == |set i | 0 <= i < |fired| && fired[i].write|
    ensures Count(fired, EXCEPT) == |set i | 0 <= i < |fired| && fired[i].except|
  {
    CountIsHits(fired, READ);
    CountIsHits(fired, WRITE);
    CountIsHits(fired, EXCEPT);
    assert Hits(fired, READ) == set i | 0 <= i < |fired| && fired[i].read;
    assert Hits(fired, WRITE) == set i | 0 <= i < |fired| && fired[i].write;
    assert Hits(fired, EXCEPT) == set i | 0 <= i < |fired| && fired[i].except;
  }

  ghost function Hits(fired: seq<Events>, types: Events): (r: set<nat>)
  {
    set i | 0 <= i < |fired| && fired[i].And(types) != NONE
  }

  lemma {:induction false} CountIsHits(fired: seq<Events>, types: Events)
    ensures Count(fired, types) == |Hits(fired, types)|
  {
    if |fired| > 0 {
      var n := |fired| - 1;
      CountIsHits(fired[..n], types);
      assert Hits(fired, types) == Hits(fired[..n], types) + if fired[n].And(types) != NONE then {n} else {};
    }
  }

  /** How the size of a set changes when one element comes or goes. */
  lemma OneMoreOrLess(was: set<FdEventSink>, s: FdEventSink)
    ensures |was + {s}| == |was| + if s in was then 0 else 1
    ensures |was - {s}| == |was| - if s in was then 1 else 0
  {
    if s in was {
      assert was + {s} == was;
    }
  }

  // ---------- what the reference keeps ----------

  /**
   * The count stays right exactly when the kernel agreed or the sink had read or write interest
   * before just when it has it now, as in a change from READ to WRITE.
   */
  lemma RefreshCount(r: Registry, s: FdEventSink, ok: bool)
    requires r.Over(r.wanted.Keys) && s in r.attached && r.Exact()
    ensures Refresh(r, s, ok).Exact() <==> ok || Weight(r.armed[s]) == Weight(r.wanted[s])
  {
    var was, now := r.Interested(), Refresh(r, s, ok).Interested();
    OneMoreOrLess(was, s);
    if r.wanted[s].ReadOrWrite() {
      assert now == was + {s};
    } else {
      assert now == was - {s};
    }
  }

  lemma EnrolCount(r: Registry, maxFds: nat, s: FdEventSink, ok: bool)
    requires r.Over(r.wanted.Keys) && s in r.wanted && r.Exact()
    ensures Enrol(r, maxFds, s, ok).Exact() <==> ok || !Admits(r, maxFds, s) || Weight(r.wanted[s]) == 0
  {
    if Admits(r, maxFds, s) {
      var q := r.(attached := r.attached + {s}, armed := r.armed[s := NONE]);
      assert q.Interested() == r.Interested();
      assert q.Over(r.wanted.Keys);
      RefreshCount(q, s, ok);
    }
  }

  /** A kernel error on removal leaves the sink attached but its read/write interest uncounted. */
  lemma DropCount(r: Registry, s: FdEventSink, ok: bool)
    requires r.Over(r.wanted.Keys) && s in r.wanted && r.Exact()
    ensures Drop(r, s, ok).Exact() <==> ok || s !in r.attached || Weight(r.armed[s]) == 0
  {
    var was, q := r.Interested(), Drop(r, s, ok);
    OneMoreOrLess(was, s);
    if s in q.attached || s !in r.attached {
      assert q.Interested() == was;
    } else {
      assert q.Interested() == was - {s};
    }
  }

  /** A sink that waits for reading: a refused removal, or a refused change to NONE, breaks the count. */
  lemma RefusalMiscounts(s: FdEventSink)
    ensures var r := Registry({s}, map[s := READ], map[s := READ], {}, 1);
      && r.Exact() && !Drop(r, s, false).Exact()
      && !Want(r, s, NONE, false).Exact() && Want(r, s, WRITE, false).Exact()
  {
    var r := Registry({s}, map[s := READ], map[s := READ], {}, 1);
    assert r.Interested() == {s};
    DropCount(r, s, false);
    RefusedWant(r, s, NONE);
    RefusedWant(r, s, WRITE);
  }

  /** A refused set_events breaks the count exactly when read/write interest comes or goes. */
  lemma RefusedWant(r: Registry, s: FdEventSink, events: Events)
    requires r.Over(r.wanted.Keys) && s in r.attached && r.Exact()
    ensures Want(r, s, events, false).Exact() <==> Weight(r.armed[s]) == Weight(events)
  {
    var asked := r.(wanted := r.wanted[s := events]);
    assert asked.Interested() == r.Interested();
    assert asked.wanted.Keys == r.wanted.Keys;
    RefreshCount(asked, s, false);
  }

  lemma PerformKeepsCount(r: Registry, maxFds: nat, op: Op)
    requires r.Over(r.wanted.Keys) && op.sink in r.wanted && r.Exact() && r.AllOpen() && op.ok
    ensures Perform(r, maxFds, op).Exact() && Perform(r, maxFds, op).AllOpen()
  {
    match op
    case AttachOp(s, ok) => EnrolCount(r, maxFds, s, ok);
    case DetachOp(s, ok) => DropCount(r, s, ok);
    case SetEventsOp(s, events, ok) =>
      var asked := r.(wanted := r.wanted[s := events]);
      assert asked.Interested() == r.Interested();
      assert asked.Over(r.wanted.Keys);
      if s in r.attached { RefreshCount(asked, s, ok); }
    case CloseOp(s, ok) => ShutKeepsCount(r, s, ok);
  }

  lemma ShutKeepsCount(r: Registry, s: FdEventSink, ok: bool)
    requires r.Over(r.wanted.Keys) && s in r.wanted && r.Exact() && r.AllOpen() && ok
    ensures Shut(r, s, ok).Exact() && Shut(r, s, ok).AllOpen()
  {
    var marked := r.(closed := r.closed + {s});
    assert marked.Interested() == r.Interested();
    DropCount(marked, s, ok);
  }

  ghost predicate AllAnswered(script: seq<Op>)
  {
    forall i :: 0 <= i < |script| ==> script[i].ok
  }

  lemma {:induction false} PerformAllKeepsCount(r: Registry, maxFds: nat, script: seq<Op>)
    requires r.Over(r.wanted.Keys) && Within(script, r.wanted.Keys) && r.Exact() && r.AllOpen() && AllAnswered(script)
    ensures PerformAll(r, maxFds, script).Exact() && PerformAll(r, maxFds, script).AllOpen()
  {
    hide Perform;
    if |script| > 0 {
      var rest := script[..|script| - 1];
      PerformAllKeepsCount(r, maxFds, rest);
      PerformKeepsCount(PerformAll(r, maxFds, rest), maxFds, script[|script| - 1]);
    }
  }

  ghost predicate AllDeliveriesAnswered(ds: seq<Delivery>)
  {
    forall i :: 0 <= i < |ds| ==> ds[i].closeOk && AllAnswered(ds[i].script)
  }

  lemma DeliverKeepsCount(r: Registry, maxFds: nat, mask: Events, d: Delivery)
    requires r.Over(r.wanted.Keys) && Covers(d, r.wanted.Keys) && r.Exact() && r.AllOpen()
    requires d.closeOk && AllAnswered(d.script)
    ensures Deliver(r, maxFds, mask, d).Exact() && Deliver(r, maxFds, mask, d).AllOpen()
  {
    hide PerformAll, Shut, FiredNow;
    PerformAllKeepsCount(r, maxFds, d.script);
    ShutKeepsCount(PerformAll(r, maxFds, d.script), d.sink, d.closeOk);
  }

  /**
   * Whatever the callbacks do during a dispatch, the active count is the number of attached sinks
   * with read or write interest and no attached sink is closed, as long as the kernel agrees.
   */
  lemma {:induction false} DispatchKeepsCount(r: Registry, maxFds: nat, mask: Events, ds: seq<Delivery>)
    requires r.Over(r.wanted.Keys) && CoversAll(ds, r.wanted.Keys) && r.Exact() && r.AllOpen()
    requires AllDeliveriesAnswered(ds)
    ensures DeliverAll(r, maxFds, mask, ds).Exact() && DeliverAll(r, maxFds, mask, ds).AllOpen()
  {
    hide Deliver;
    if |ds| > 0 {
      var rest := ds[..|ds| - 1];
      DispatchKeepsCount(r, maxFds, mask, rest);
      DeliverKeepsCount(DeliverAll(r, maxFds, mask, rest), maxFds, mask, ds[|ds| - 1]);
    }
  }

  ghost predicate NeverAttaches(script: seq<Op>, s: FdEventSink)
  {
    forall i :: 0 <= i < |script| && script[i].AttachOp? ==> script[i].sink != s
  }

  ghost predicate NeverRemoves(d: Delivery, s: FdEventSink)
  {
    && (d.sink == s ==> d.keep)
    && forall i :: 0 <= i < |d.script| && (d.script[i].DetachOp? || d.script[i].CloseOp?) ==> d.script[i].sink != s
  }

  lemma {:induction false} ScriptLeavesOut(r: Registry, maxFds: nat, script: seq<Op>, s: FdEventSink)
    requires r.Over(r.wanted.Keys) && Within(script, r.wanted.Keys)
    requires s !in r.attached && NeverAttaches(script, s)
    ensures s !in PerformAll(r, maxFds, script).attached
  {
    if |script| > 0 {
      ScriptLeavesOut(r, maxFds, script[..|script| - 1], s);
    }
  }

  lemma {:induction false} ScriptLeavesIn(r: Registry, maxFds: nat, script: seq<Op>, s: FdEventSink)
    requires r.Over(r.wanted.Keys) && Within(script, r.wanted.Keys)
    requires s in r.attached
    requires forall i :: 0 <= i < |script| && (script[i].DetachOp? || script[i].CloseOp?) ==> script[i].sink != s
    ensures s in PerformAll(r, maxFds, script).attached
  {
    if |script| > 0 {
      ScriptLeavesIn(r, maxFds, script[..|script| - 1], s);
    }
  }

  lemma DeliverLeavesOut(r: Registry, maxFds: nat, mask: Events, d: Delivery, s: FdEventSink)
    requires r.Over(r.wanted.Keys) && Covers(d, r.wanted.Keys)
    requires s !in r.attached && NeverAttaches(d.script, s)
    ensures s !in Deliver(r, maxFds, mask, d).attached
  {
    hide PerformAll, FiredNow, NeverAttaches;
    ScriptLeavesOut(r, maxFds, d.script, s);
  }

  lemma DeliverLeavesIn(r: Registry, maxFds: nat, mask: Events, d: Delivery, s: FdEventSink)
    requires r.Over(r.wanted.Keys) && Covers(d, r.wanted.Keys)
    requires s in r.attached && NeverRemoves(d, s)
    ensures s in Deliver(r, maxFds, mask, d).attached
  {
    hide PerformAll, FiredNow;
    ScriptLeavesIn(r, maxFds, d.script, s);
  }

  /** A sink that a callback removed fires nothing later in the dispatch, unless it is attached again. */
  lemma {:induction false} RemovedStaysSilent(r: Registry, maxFds: nat, mask: Events, ds: seq<Delivery>, j: nat, i: nat,
                                              d: Delivery)
    requires r.Over(r.wanted.Keys) && CoversAll(ds, r.wanted.Keys) && j <= i <= |ds|
    requires d.sink !in Before(r, maxFds, mask, ds, j).attached
    requires forall k :: j <= k < i ==> NeverAttaches(ds[k].script, d.sink)
    ensures d.sink !in Before(r, maxFds, mask, ds, i).attached
    ensures FiredNow(Before(r, maxFds, mask, ds, i), mask, d) == NONE
    decreases i
  {
    hide Deliver, Before, NeverAttaches, Covers;
    if j < i {
      RemovedStaysSilent(r, maxFds, mask, ds, j, i - 1, d);
      BeforeStep(r, maxFds, mask, ds, i - 1);
      DeliverLeavesOut(Before(r, maxFds, mask, ds, i - 1), maxFds, mask, ds[i - 1], d.sink);
    }
  }

  /** A sink that is attached and that no earlier callback removes is dispatched in its turn. */
  lemma {:induction false} UndisturbedFires(r: Registry, maxFds: nat, mask: Events, ds: seq<Delivery>, j: nat, i: nat,
                                            d: Delivery)
    requires r.Over(r.wanted.Keys) && CoversAll(ds, r.wanted.Keys) && j <= i <= |ds|
    requires d.sink in Before(r, maxFds, mask, ds, j).attached
    requires forall k :: j <= k < i ==> NeverRemoves(ds[k], d.sink)
    ensures var now := Before(r, maxFds, mask, ds, i);
      d.sink in now.attached && d.sink in now.armed && FiredNow(now, mask, d) == Fired(now.armed[d.sink], d, mask)
    decreases i
  {
    hide Deliver, Before, NeverRemoves, Covers, Fired;
    if j < i {
      UndisturbedFires(r, maxFds, mask, ds, j, i - 1, d);
      BeforeStep(r, maxFds, mask, ds, i - 1);
      DeliverLeavesIn(Before(r, maxFds, mask, ds, i - 1), maxFds, mask, ds[i - 1], d.sink);
    }
  }

  // ---------- slots, as values ----------

  /** std::swap of two slots. */
  function Swapped(v: seq<FdEventSink>, i: nat, j: nat): (r: seq<FdEventSink>)
    requires i < |v| && j < |v|
    ensures |r| == |v| && r[i] == v[j] && r[j] == v[i]
    ensures forall k :: 0 <= k < |v| && k != i && k != j ==> r[k] == v[k]
  {
    v[i := v[j]][j := v[i]]
  }

  lemma SwapKeeps(v: seq<FdEventSink>, i: nat, j: nat, s: FdEventSink)
    requires i < |v| && j < |v|
    ensures s in v <==> s in Swapped(v, i, j)
  {
    var r := Swapped(v, i, j);
    if s in v {
      var k :| 0 <= k < |v| && v[k] == s;
      assert r[if k == i then j else if k == j then i else k] == s;
    }
  }

  /**
   * Each active slot i holds a sink that knows its slot, and each sink with a slot is in it; the
   * slots behind the active ones only keep sinks alive.
   */
  ghost predicate Indexed(v: seq<FdEventSink>, count: nat, slots: map<FdEventSink, nat>)
  {
    && count <= |v|
    && (forall i :: 0 <= i < count ==> v[i] in slots && slots[v[i]] == i)
    && (forall s :: s in slots ==> slots[s] < count && v[slots[s]] == s)
  }

  lemma IndexedFits(v: seq<FdEventSink>, count: nat, slots: map<FdEventSink, nat>)
    requires Indexed(v, count, slots)
    ensures count <= |v|
    ensures forall s :: s in slots ==> s in v
    ensures forall s :: s in v[..count] <==> s in slots
  {
    forall s | s in slots ensures s in v && s in v[..count] {
      assert v[slots[s]] == s && v[..count][slots[s]] == s;
    }
  }

  /** The vector after push_back and the swap into the last active slot. */
  function Pushed(v: seq<FdEventSink>, count: nat, s: FdEventSink): (r: seq<FdEventSink>)
    requires count <= |v|
    ensures |r| == |v| + 1 && r[count] == s
    ensures forall i :: 0 <= i < count ==> r[i] == v[i]
  {
    if count == |v| then v + [s] else Swapped(v + [s], |v|, count)
  }

  lemma PushedKeeps(v: seq<FdEventSink>, count: nat, s: FdEventSink, a: FdEventSink)
    requires count <= |v|
    ensures a in Pushed(v, count, s) <==> a in v || a == s
  {
    SwapKeeps(v + [s], |v|, count, a);
    assert (v + [s])[|v|] == s;
  }

  lemma PushedIsIndexed(v: seq<FdEventSink>, count: nat, slots: map<FdEventSink, nat>, s: FdEventSink)
    requires Indexed(v, count, slots) && s !in slots
    ensures Indexed(Pushed(v, count, s), count + 1, slots[s := count])
  {
    hide Pushed, Swapped;
  }

  lemma SwappedIsIndexed(v: seq<FdEventSink>, count: nat, slots: map<FdEventSink, nat>, s: FdEventSink)
    requires Indexed(v, count, slots) && s in slots
    ensures 1 <= count <= |v| && slots[s] < count && v[slots[s]] == s && v[count - 1] in slots
    ensures Indexed(Swapped(v, slots[s], count - 1), count - 1, slots[v[count - 1] := slots[s]] - {s})
  {
    hide Swapped;
    assert v[count - 1] in slots;
    var r, after := Swapped(v, slots[s], count - 1), slots[v[count - 1] := slots[s]] - {s};
    forall i | 0 <= i < count - 1 ensures r[i] in after && after[r[i]] == i {
      assert v[i] in slots;
    }
  }

  lemma IndexedPrefix(v: seq<FdEventSink>, count: nat, slots: map<FdEventSink, nat>, n: nat)
    requires Indexed(v, count, slots) && count <= n <= |v|
    ensures Indexed(v[..n], count, slots)
    ensures forall s :: s in v[..n] ==> s in v
  {
  }

  lemma NoSlots(v: seq<FdEventSink>, slots: map<FdEventSink, nat>)
    requires Indexed(v, 0, slots)
    ensures slots.Keys == {}
  {
  }

  /** The number of active slots is the number of sinks that have one. */
  lemma {:induction false} CountIsSize(v: seq<FdEventSink>, count: nat, slots: map<FdEventSink, nat>)
    requires Indexed(v, count, slots)
    ensures |slots.Keys| == count
    decreases count
  {
    if count == 0 {
      NoSlots(v, slots);
    } else {
      var last := v[count - 1];
      var less := slots - {last};
      assert last in slots;
      forall i | 0 <= i < count - 1 ensures v[i] in less && less[v[i]] == i {
        assert v[i] in slots;
      }
      CountIsSize(v, count - 1, less);
      assert less.Keys == slots.Keys - {last};
    }
  }

  class FdBag {
    const maxFds: nat
    /** All sinks the program has. */
    ghost const Universe: set<FdEventSink>

    var fesv: seq<FdEventSink>
    var fesCount: nat
    var activeCount: int
    var readCount: nat
    var writeCount: nat
    var exceptCount: nat
    var eventCount: nat
    var dispatching: bool

    constructor (maxFds: nat, ghost universe: set<FdEventSink>)
      requires maxFds < SIZE_MAX
      requires forall s :: s in universe ==> s.owner == null && s.idx == SIZE_MAX
      ensures this.maxFds == maxFds && Universe == universe
      ensures Shape() && !dispatching && Shows(View()) && View().attached == {} && View().Exact()
    {
      this.maxFds, Universe := maxFds, universe;
      fesv, fesCount, activeCount := [], 0, 0;
      readCount, writeCount, exceptCount, eventCount := 0, 0, 0, 0;
      dispatching := false;
      new;
      ShowsView();
      assert View().attached == {};
      assert View().Interested() == {};
    }

    // ---------- the invariant ----------

    /** The slot of each attached sink. */
    ghost function Slots(): (r: map<FdEventSink, nat>)
      reads Universe`owner, Universe`idx
    {
      map s | s in Universe && s.owner == this :: s.idx
    }

    /**
     * Each active slot holds a sink that belongs to this bag and knows its slot, each sink that
     * belongs to the bag is in its slot, and a sink that does not has neither owner nor slot.
     */
    ghost predicate Shape()
      reads this`fesv, this`fesCount, this`dispatching, Universe`owner, Universe`idx
    {
      && fesCount <= maxFds < SIZE_MAX
      && (!dispatching ==> |fesv| == fesCount)
      && Indexed(fesv, fesCount, Slots())
      && (forall s :: s in fesv ==> s in Universe)
      && (forall s :: s in Universe && s.owner != this ==> s.owner == null && s.idx == SIZE_MAX)
    }

    /** The bag and its sinks are what the reference says. */
    ghost predicate Shows(r: Registry)
      reads this`activeCount, Universe`owner, Universe`events, Universe`armed, Universe`closed
    {
      && r.Over(Universe)
      && r.active == activeCount
      && forall s :: s in Universe ==>
           && (s.owner == this <==> s in r.attached)
           && s.events == r.wanted[s] && s.armed == r.armed[s]
           && (s.closed <==> s in r.closed)
    }

    /** What the bag and its sinks say, as a value of the reference. */
    ghost function View(): (r: Registry)
      reads this`activeCount, Universe`owner, Universe`events, Universe`armed, Universe`closed
    {
      Registry((set s | s in Universe && s.owner == this), (map s | s in Universe :: s.events),
               (map s | s in Universe :: s.armed), (set s | s in Universe && s.closed), activeCount)
    }

    lemma ShowsView()
      ensures Shows(View())
    {
    }

    lemma SlotsAre(m: map<FdEventSink, nat>)
      requires m.Keys <= Universe
      requires forall s :: s in Universe ==> (s.owner == this <==> s in m)
      requires forall s :: s in m ==> s.idx == m[s]
      ensures Slots() == m
    {
    }

    lemma ShapeFacts(r: Registry)
      requires Shape() && Shows(r)
      ensures fesCount <= |fesv| && fesCount == |r.attached|
      ensures forall s :: s in Universe ==> (s.idx < fesCount <==> s in r.attached)
      ensures forall s :: s in Universe && s.owner != this ==> s.owner == null
    {
      CountIsSize(fesv, fesCount, Slots());
      assert Slots().Keys == r.attached;
      forall s | s in Universe && s.owner == this ensures s.idx < fesCount {
        assert s in Slots();
      }
    }

    // ---------- operations ----------

    /** update_epoll: tell the kernel, then account for the change of read/write interest. */
    method UpdateEpoll(s: FdEventSink, ctlOk: bool, ghost r: Registry) returns (ok: bool)
      requires Shows(r) && s in Universe && s.owner == this
      modifies this`activeCount, s`armed
      ensures Shows(Refresh(r, s, ctlOk))
      ensures ok <==> ctlOk || r.armed[s] == r.wanted[s]
    {
      var oldState, newState := s.armed, s.events;
      s.armed := newState;
      if newState != oldState {
        if !ctlOk {
          return false;
        }
      }
      if !oldState.ReadOrWrite() && newState.ReadOrWrite() {
        activeCount := activeCount + 1;
      } else if !newState.ReadOrWrite() && oldState.ReadOrWrite() {
        activeCount := activeCount - 1;
      }
      return true;
    }

    /** push_back, the back-index, and the swap into the last active slot. */
    method Place(s: FdEventSink)
      requires Shape() && s in Universe && s.owner == null && fesCount < maxFds
      modifies this`fesv, this`fesCount, s`owner, s`idx
      ensures Shape() && s.owner == this
      ensures forall a :: a in old(fesv) ==> a in fesv
    {
      hide Indexed, Swapped;
      ghost var slots, was := Slots(), fesv;
      PushedIsIndexed(fesv, fesCount, slots, s);
      IndexedFits(fesv, fesCount, slots);
      forall a ensures a in Pushed(fesv, fesCount, s) <==> a in fesv || a == s {
        PushedKeeps(fesv, fesCount, s, a);
      }
      fesv := fesv + [s];
      s.owner := this;
      s.idx := fesCount;
      fesCount := fesCount + 1;
      if fesCount != |fesv| {
        fesv := Swapped(fesv, |fesv| - 1, s.idx);
      }
      SlotsAre(slots[s := s.idx]);
    }

    /** The first half of attach_fes: the new sink takes the first slot behind the active ones. */
    method Enter(s: FdEventSink, ghost r: Registry)
      requires Shape() && Shows(r) && s in Universe && s.owner == null && fesCount < maxFds
      modifies this`fesv, this`fesCount, s`owner, s`idx, s`armed
      ensures Shape() && s.owner == this
      ensures Shows(r.(attached := r.attached + {s}, armed := r.armed[s := NONE]))
      ensures forall a :: a in old(fesv) ==> a in fesv
    {
      hide Shape;
      Place(s);
      Disarm(s, r.(attached := r.attached + {s}));
    }

    method Disarm(s: FdEventSink, ghost r: Registry)
      requires Shows(r) && s in Universe
      modifies s`armed
      ensures Shows(r.(armed := r.armed[s := NONE]))
    {
      s.armed := NONE;
    }

    /** attach_fes. */
    method Attach(s: FdEventSink, ctlOk: bool, ghost r: Registry) returns (ok: bool)
      requires Shape() && Shows(r) && s in Universe
      modifies this`fesv, this`fesCount, this`activeCount, s`owner, s`idx, s`armed
      ensures Shape() && Shows(Enrol(r, maxFds, s, ctlOk))
      ensures ok <==> Admits(r, maxFds, s) && (ctlOk || r.wanted[s] == NONE)
      ensures forall a :: a in old(fesv) ==> a in fesv
    {
      hide Shape, Shows;
      ShapeFacts(r);
      ShowsOver(r);
      if s.closed || s.owner != null || fesCount >= maxFds {
        return false;
      }
      Enter(s, r);
      ok := UpdateEpoll(s, ctlOk, r.(attached := r.attached + {s}, armed := r.armed[s := NONE]));
    }

    /** std::swap of two back-indices, after which the removed sink loses owner and slot. */
    method Unlink(a: FdEventSink, s: FdEventSink)
      modifies a`idx, s`idx, s`owner
      ensures s.owner == null && s.idx == SIZE_MAX
      ensures a != s ==> a.idx == old(s.idx)
    {
      a.idx, s.idx := s.idx, a.idx;
      s.owner := null;
      s.idx := SIZE_MAX;
    }

    /**
     * The second half of remove_fes: swap the sink with the last active one.  During dispatch it
     * stays in the vector, behind the active slots.
     */
    method Evict(s: FdEventSink)
      requires Shape() && s in Universe && s.owner == this
      modifies this`fesv, this`fesCount, Universe`owner, Universe`idx
      ensures Shape() && s.owner == null
      ensures forall a :: a in Universe && a != s ==> a.owner == old(a.owner)
      ensures dispatching ==> forall a :: a in old(fesv) ==> a in fesv
    {
      hide Indexed, Swapped;
      ghost var slots, was := Slots(), fesv;
      SwappedIsIndexed(fesv, fesCount, slots, s);
      var oldIdx, last := s.idx, fesCount - 1;
      var other := fesv[last];
      ghost var after := slots[other := oldIdx] - {s};
      assert Indexed(Swapped(fesv, oldIdx, last), last, after);
      forall a ensures a in fesv <==> a in Swapped(fesv, oldIdx, last) {
        SwapKeeps(fesv, oldIdx, last, a);
      }
      fesv := Swapped(fesv, oldIdx, last);
      Unlink(fesv[oldIdx], fesv[last]);
      fesCount := fesCount - 1;
      SlotsAre(after);
      if !dispatching {
        IndexedPrefix(fesv, fesCount, after, |fesv| - 1);
        fesv := fesv[..|fesv| - 1];
      }
    }

    /** remove_fes: a kernel error leaves the sink attached, with its interest no longer counted. */
    method Remove(s: FdEventSink, ctlOk: bool, ghost r: Registry) returns (ok: bool)
      requires Shape() && Shows(r) && s in Universe
      modifies this`fesv, this`fesCount, this`activeCount, Universe`owner, Universe`idx
      ensures Shape() && Shows(Drop(r, s, ctlOk))
      ensures ok <==> s in r.attached && (r.armed[s] == NONE || ctlOk)
      ensures dispatching ==> forall a :: a in old(fesv) ==> a in fesv
    {
      hide Shape;
      ShapeFacts(r);
      if s.idx >= fesCount {
        return false;
      }
      if s.armed.ReadOrWrite() {
        activeCount := activeCount - 1;
      }
      if s.armed != NONE {
        if !ctlOk {
          return false;
        }
      }
      Evict(s);
      return true;
    }

    /** detach_fes. */
    method Detach(s: FdEventSink, ctlOk: bool, ghost r: Registry) returns (ok: bool)
      requires Shape() && Shows(r) && s in Universe
      modifies this`fesv, this`fesCount, this`activeCount, Universe`owner, Universe`idx
      ensures Shape() && Shows(if s in r.closed then r else Drop(r, s, ctlOk))
      ensures ok <==> s !in r.closed && s in r.attached && (r.armed[s] == NONE || ctlOk)
      ensures dispatching ==> forall a :: a in old(fesv) ==> a in fesv
    {
      hide Shape;
      if s.closed || s.owner != this {
        return false;
      }
      ok := Remove(s, ctlOk, r);
    }

    /** set_events of an event sink. */
    method SetEvents(s: FdEventSink, events: Events, ctlOk: bool, ghost r: Registry)
      requires Shape() && Shows(r) && s in Universe
      modifies this`activeCount, s`events, s`armed
      ensures Shape() && Shows(Want(r, s, events, ctlOk))
    {
      hide Shape, Shows;
      ShowsOver(r);
      Ask(s, events, r);
      if s.owner == this {
        var _ := UpdateEpoll(s, ctlOk, r.(wanted := r.wanted[s := events]));
      }
    }

    method Ask(s: FdEventSink, events: Events, ghost r: Registry)
      requires Shows(r) && s in Universe
      modifies s`events
      ensures Shows(r.(wanted := r.wanted[s := events]))
    {
      s.events := events;
    }

    /** close of an event sink. */
    method Close(s: FdEventSink, ctlOk: bool, ghost r: Registry)
      requires Shape() && Shows(r) && s in Universe
      modifies this`fesv, this`fesCount, this`activeCount, Universe`owner, Universe`idx, s`closed
      ensures Shape() && Shows(Shut(r, s, ctlOk))
      ensures dispatching ==> forall a :: a in old(fesv) ==> a in fesv
    {
      hide Shape;
      if s.closed {
        return;
      }
      s.closed := true;
      if s.owner == this {
        var _ := Remove(s, ctlOk, r.(closed := r.closed + {s}));
      }
    }

    // ---------- dispatch ----------

    /** One operation of a callback. */
    method Run(op: Op, ghost r: Registry)
      requires Shape() && Shows(r) && op.sink in Universe
      modifies this`fesv, this`fesCount, this`activeCount, Universe
      ensures Shape() && Shows(Perform(r, maxFds, op))
      ensures dispatching ==> forall a :: a in old(fesv) ==> a in fesv
    {
      hide Shape, Shows, Enrol, Drop, Want, Shut;
      assert r.Over(Universe) by { ShowsOver(r); }
      match op {
        case AttachOp(s, ok) => var _ := Attach(s, ok, r);
        case DetachOp(s, ok) => var _ := Detach(s, ok, r);
        case SetEventsOp(s, events, ok) => SetEvents(s, events, ok, r);
        case CloseOp(s, ok) => Close(s, ok, r);
      }
    }

    lemma ShowsOver(r: Registry)
      requires Shows(r)
      ensures r.Over(Universe) && r.wanted.Keys == Universe
      ensures forall s :: s in Universe ==>
        (s.owner == this <==> s in r.attached) && s.armed == r.armed[s] && (s.closed <==> s in r.closed)
    {
    }

    /** A callback. */
    method RunScript(script: seq<Op>, ghost r: Registry)
      requires Shape() && Shows(r) && Within(script, Universe)
      modifies this`fesv, this`fesCount, this`activeCount, Universe
      ensures r.Over(r.wanted.Keys) && r.wanted.Keys == Universe
      ensures Shape() && Shows(PerformAll(r, maxFds, script))
      ensures dispatching ==> forall a :: a in old(fesv) ==> a in fesv
    {
      hide Shape, Shows, Perform;
      ShowsOver(r);
      assert script[..0] == [];
      for i := 0 to |script|
        invariant Shape() && Shows(PerformAll(r, maxFds, script[..i]))
        invariant dispatching ==> forall a :: a in old(fesv) ==> a in fesv
      {
        assert script[..i + 1][..i] == script[..i];
        Run(script[i], PerformAll(r, maxFds, script[..i]));
      }
      assert script[..|script|] == script;
    }

    /** The events to dispatch, with those a hang-up or an error stand for filled in. */
    method Synthesise(armed: Events, d: Delivery, mask: Events) returns (ev: Events)
      ensures ev == Fired(armed, d, mask)
    {
      var synth := NONE;
      if d.hangup {
        synth := synth.Or(armed.And(READ));
      }
      if d.error {
        synth := synth.Or(armed.And(READ_WRITE));
      }
      ev := d.ready.Or(synth).And(mask);
    }

    /** The three counters agree with what has been dispatched so far. */
    ghost predicate Tallied(log: seq<Events>)
      reads this`readCount, this`writeCount, this`exceptCount
    {
      readCount == Count(log, READ) && writeCount == Count(log, WRITE) && exceptCount == Count(log, EXCEPT)
    }

    method Tally(ev: Events, ghost log: seq<Events>)
      requires Tallied(log)
      modifies this`readCount, this`writeCount, this`exceptCount
      ensures Tallied(log + [ev])
    {
      hide Count;
      CountStep(log, ev, READ);
      CountStep(log, ev, WRITE);
      CountStep(log, ev, EXCEPT);
      if ev.read { readCount := readCount + 1; }
      if ev.write { writeCount := writeCount + 1; }
      if ev.except { exceptCount := exceptCount + 1; }
    }

    lemma ShowsSink(r: Registry, s: FdEventSink)
      requires Shape() && Shows(r) && s in Universe
      ensures r.Over(Universe) && r.wanted.Keys == Universe
      ensures (s.owner == this <==> s in r.attached) && (s.owner == null <==> s !in r.attached)
      ensures s.armed == r.armed[s]
    {
    }

    /** dispatch_event: run the callback, and close the sink if it says so. */
    method Callback(d: Delivery, ghost r: Registry)
      requires Shape() && Shows(r) && Covers(d, Universe)
      requires r.Over(r.wanted.Keys) && r.wanted.Keys == Universe
      modifies this`fesv, this`fesCount, this`activeCount, Universe
      ensures Shape() && Shows(Called(r, maxFds, d))
      ensures dispatching ==> forall a :: a in old(fesv) ==> a in fesv
    {
      hide Shape, Shows, PerformAll, Shut;
      RunScript(d.script, r);
      if !d.keep {
        Close(d.sink, d.closeOk, PerformAll(r, maxFds, d.script));
      }
    }

    /**
     * One turn of the loop of dispatch_epoll.  The sink is reached through a raw pointer, so the
     * vector must still hold it.
     */
    method DispatchOne(d: Delivery, mask: Events, ghost r: Registry, ghost log: seq<Events>) returns (fired: Events)
      requires Shape() && Shows(r) && Covers(d, Universe) && dispatching && Tallied(log)
      requires d.sink in fesv
      modifies this`fesv, this`fesCount, this`activeCount, this`readCount, this`writeCount, this`exceptCount, Universe
      ensures r.Over(r.wanted.Keys) && r.wanted.Keys == Universe
      ensures Shape() && Shows(Deliver(r, maxFds, mask, d))
      ensures fired == FiredNow(r, mask, d)
      ensures forall a :: a in old(fesv) ==> a in fesv
      ensures Tallied(log + [fired])
    {
      hide Shape, Shows, Called, Fired, Tallied;
      ShowsSink(r, d.sink);
      if d.sink.owner == null {
        Tally(NONE, log);
        return NONE;
      }
      fired := Synthesise(d.sink.armed, d, mask);
      Tally(fired, log);
      if fired != NONE {
        Callback(d, r);
      }
    }

    /** From here on removed sinks are kept. */
    method BeginDispatch()
      requires Shape()
      modifies this`dispatching
      ensures Shape() && dispatching
      ensures forall s :: s in Universe && s.owner == this ==> s in fesv
    {
      IndexedFits(fesv, fesCount, Slots());
      forall s | s in Universe && s.owner == this ensures s in fesv {
        assert s in Slots();
      }
      dispatching := true;
    }

    /** Deferred deletion: drop what lies behind the active slots. */
    method EndDispatch()
      requires Shape()
      modifies this`dispatching, this`fesv
      ensures Shape() && !dispatching && |fesv| == fesCount
      ensures forall s :: s in fesv <==> s in Universe && s.owner == this
    {
      hide Indexed;
      IndexedFits(fesv, fesCount, Slots());
      IndexedPrefix(fesv, fesCount, Slots(), fesCount);
      dispatching := false;
      fesv := fesv[..fesCount];
      forall s ensures s in fesv <==> s in Universe && s.owner == this {
        assert s in Slots() <==> s in Universe && s.owner == this;
      }
    }

    /** The loop of dispatch_epoll. */
    method DispatchAll(ds: seq<Delivery>, mask: Events, ghost r: Registry) returns (fired: seq<Events>)
      requires Shape() && Shows(r) && CoversAll(ds, Universe) && dispatching && Tallied([])
      requires r.Over(r.wanted.Keys) && r.wanted.Keys == Universe
      requires forall i :: 0 <= i < |ds| ==> ds[i].sink in fesv
      modifies this`fesv, this`fesCount, this`activeCount, Universe
      modifies this`readCount, this`writeCount, this`exceptCount
      ensures Shape() && Shows(DeliverAll(r, maxFds, mask, ds))
      ensures |fired| == |ds| && IsLog(r, maxFds, mask, ds, fired) && Tallied(fired)
    {
      hide Shape, Shows, Deliver, FiredNow, Before, IsLog, Tallied, DeliverAll;
      BeforeEnds(r, maxFds, mask, ds);
      EmptyLog(r, maxFds, mask, ds);
      fired := [];
      for i := 0 to |ds|
        invariant Shape() && Shows(Before(r, maxFds, mask, ds, i))
        invariant |fired| == i && IsLog(r, maxFds, mask, ds, fired) && Tallied(fired)
        invariant forall j :: 0 <= j < |ds| ==> ds[j].sink in fesv
      {
        BeforeStep(r, maxFds, mask, ds, i);
        var ev := DispatchOne(ds[i], mask, Before(r, maxFds, mask, ds, i), fired);
        LogStep(r, maxFds, mask, ds, fired, ev);
        fired := fired + [ev];
      }
    }

    /** dispatch_epoll. */
    method Dispatch(ds: seq<Delivery>, mask: Events, ghost r: Registry) returns (fired: seq<Events>)
      requires Shape() && Shows(r) && CoversAll(ds, Universe)
      requires r.Over(r.wanted.Keys) && r.wanted.Keys == Universe
      // epoll only reports sinks it was told to watch
      requires forall i :: 0 <= i < |ds| ==> ds[i].sink.owner == this
      modifies this`fesv, this`fesCount, this`activeCount, this`dispatching, Universe
      modifies this`readCount, this`writeCount, this`exceptCount, this`eventCount
      ensures Shape() && Shows(DeliverAll(r, maxFds, mask, ds))
      // each delivery fires its ready events and those a hang-up or an error stand for, as far as the
      // mask lets them through, and nothing if its sink is gone by then
      ensures |fired| == |ds| && IsLog(r, maxFds, mask, ds, fired)
      ensures forall j :: 0 <= j < |ds| ==>
        var now, d, f := Before(r, maxFds, mask, ds, j), ds[j], fired[j];
        if d.sink in now.attached then
          && d.sink in now.armed
          && (f.read <==> mask.read && (d.ready.read || (now.armed[d.sink].read && (d.hangup || d.error))))
          && (f.write <==> mask.write && (d.ready.write || (now.armed[d.sink].write && d.error)))
          && (f.except <==> mask.except && d.ready.except)
        else
          !f.read && !f.write && !f.except
      // deferred deletion is over: the vector holds the attached sinks and no other
      ensures !dispatching && |fesv| == fesCount
      ensures forall s :: s in fesv <==> s in Universe && s.owner == this
      ensures readCount == |set i | 0 <= i < |fired| && fired[i].read|
      ensures writeCount == |set i | 0 <= i < |fired| && fired[i].write|
      ensures exceptCount == |set i | 0 <= i < |fired| && fired[i].except|
      ensures eventCount == old(eventCount) + readCount + writeCount + exceptCount
    {
      hide Shape, Shows, IsLog, DeliverAll, Before, Count;
      BeginDispatch();
      ResetTallies();
      fired := DispatchAll(ds, mask, r);
      EndDispatch();
      CountIsNumber(fired);
      LogBits(r, maxFds, mask, ds, fired);
      eventCount := eventCount + readCount + writeCount + exceptCount;
    }

    /** raw_epoll, before it waits: with no end to the wait and nothing to wait for it must not block. */
    method WouldBlock(noEnd: bool, ghost r: Registry) returns (refused: bool)
      requires Shows(r) && r.Exact()
      ensures refused <==> noEnd && forall s :: s in Universe && s.owner == this ==> !s.armed.read && !s.armed.write
    {
      assert r.Interested() == {} <==> forall s :: s in Universe && s.owner == this ==> !s.armed.read && !s.armed.write by {
        forall s | s in r.Interested() ensures s in Universe && s.owner == this && (s.armed.read || s.armed.write) {
        }
        forall s | s in Universe && s.owner == this && (s.armed.read || s.armed.write) ensures s in r.Interested() {
        }
      }
      return activeCount == 0 && noEnd;
    }

    method ResetTallies()
      modifies this`readCount, this`writeCount, this`exceptCount
      ensures Tallied([])
    {
      readCount, writeCount, exceptCount := 0, 0, 0;
    }
  }
}
