/**
 * The command uplink: CommandQueueClient.cc asks the ground for commands through the polling client
 * of GrpcPoller.h, which makes its calls through the asynchronous client of GrpcClient.h.
 *
 * The slate of each component is a value that its methods replace.  Random delays, the state of the
 * channel, the answer of the ground, the unwrapping of signatures and the outcome of handing a
 * command on are parameters.
 */
module CommandUplink {
  import opened Common

  /** uint32 */
  type Num = n: nat | n < 0x1_0000_0000

  const NANO_MAX: int := 0x7FFF_FFFF_FFFF_FFFF

  datatype Request = Request(accepted: Num, rejected: Num, requireSigned: bool)

  /** The payload field of a response, and whether it decodes. */
  datatype Payload = NoPayload | Payload(wellFormed: bool)

  /** The signed command of a response, and what unwrapping its two layers yields. */
  datatype Signed =
    | NoSigned
    | Signed(outerOk: bool, outerId: string, innerOk: bool, innerId: string,
             commandId: Num, creationId: string, targetId: string, payload: Payload)

  datatype Response = Response(seqNum: Num, payload: Payload, signed: Signed)

  // ---------- GrpcClient ----------

  datatype Metrics = Metrics(outstanding: int, started: nat, skipped: nat, completed: nat, succeeded: nat, failed: nat)

  datatype Client = Client(calls: map<nat, Request>, lastTag: nat, metrics: Metrics)

  /** async: a call is skipped when too many are in flight, and fails without a stub. */
  function Start(c: Client, maxOutstanding: nat, request: Request, stub: bool): (r: Client)
  {
    if !stub then c
    else if c.metrics.outstanding >= maxOutstanding then c.(metrics := c.metrics.(skipped := c.metrics.skipped + 1))
    else c.(calls := c.calls[c.lastTag + 1 := request], lastTag := c.lastTag + 1,
            metrics := c.metrics.(started := c.metrics.started + 1, outstanding := c.metrics.outstanding + 1))
  }

  /** The bookkeeping of complete. */
  function Finish(c: Client, tag: nat, ok: bool): (r: Client)
  {
    if tag !in c.calls then c
    else c.(calls := c.calls - {tag},
            metrics := c.metrics.(outstanding := c.metrics.outstanding - 1,
                                  completed := c.metrics.completed + 1,
                                  succeeded := c.metrics.succeeded + if ok then 1 else 0,
                                  failed := c.metrics.failed + if ok then 0 else 1))
  }

  /** The counters add up, and every call in flight has a tag that was given out. */
  ghost predicate Balanced(c: Client)
  {
    && c.metrics.outstanding == |c.calls|
    && c.metrics.started == c.metrics.completed + |c.calls|
    && c.metrics.completed == c.metrics.succeeded + c.metrics.failed
    && c.lastTag == c.metrics.started
    && forall tag :: tag in c.calls ==> tag <= c.lastTag
  }

  lemma StartIsBalanced(c: Client, maxOutstanding: nat, request: Request, stub: bool)
    requires Balanced(c)
    ensures Balanced(Start(c, maxOutstanding, request, stub))
    ensures |c.calls| <= maxOutstanding ==> |Start(c, maxOutstanding, request, stub).calls| <= maxOutstanding
  {
    assert c.lastTag + 1 !in c.calls;
    assert c.calls[c.lastTag + 1 := request].Keys == c.calls.Keys + {c.lastTag + 1};
  }

  lemma FinishIsBalanced(c: Client, tag: nat, ok: bool)
    requires Balanced(c)
    ensures Balanced(Finish(c, tag, ok))
    ensures |Finish(c, tag, ok).calls| <= |c.calls|
  {
    if tag in c.calls {
      assert (c.calls - {tag}).Keys == c.calls.Keys - {tag};
    }
  }

  class GrpcClient {
    const maxOutstandingCalls: nat
    var outstandingCalls: map<nat, Request>
    var lastTag: nat
    var slate: Metrics

    constructor (maxOutstandingCalls: nat)
      ensures this.maxOutstandingCalls == maxOutstandingCalls
      ensures View().calls == map[] && Balanced(View())
    {
      this.maxOutstandingCalls := maxOutstandingCalls;
      outstandingCalls, lastTag, slate := map[], 0, Metrics(0, 0, 0, 0, 0, 0);
    }

    function View(): (r: Client)
      reads this
    {
      Client(outstandingCalls, lastTag, slate)
    }

    /** async. */
    method Async(request: Request, stub: bool) returns (ok: bool)
      modifies this
      ensures View() == Start(old(View()), maxOutstandingCalls, request, stub)
      ensures ok == stub
      // no stub: nothing; too many calls: counted as skipped; otherwise in flight under a new tag
      ensures !stub ==> unchanged(this)
      ensures stub && old(slate.outstanding) >= maxOutstandingCalls ==>
        outstandingCalls == old(outstandingCalls) && lastTag == old(lastTag) && slate == old(slate).(skipped := old(slate.skipped) + 1)
      ensures stub && old(slate.outstanding) < maxOutstandingCalls ==>
        && lastTag == old(lastTag) + 1 && outstandingCalls == old(outstandingCalls)[lastTag := request]
        && slate == old(slate).(started := old(slate.started) + 1, outstanding := old(slate.outstanding) + 1)
    {
      if !stub {
        return false;
      }
      if slate.outstanding >= maxOutstandingCalls {
        slate := slate.(skipped := slate.skipped + 1);
        return true;
      }
      lastTag := lastTag + 1;
      slate := slate.(started := slate.started + 1);
      outstandingCalls := outstandingCalls[lastTag := request];
      slate := slate.(outstanding := slate.outstanding + 1);
      return true;
    }

    /** complete, up to the callback; `found` tells whether the callback runs. */
    method Complete(tag: nat, ok: bool) returns (found: bool)
      modifies this
      ensures View() == Finish(old(View()), tag, ok)
      ensures found <==> tag in old(outstandingCalls)
      // a known call leaves and counts as succeeded or failed, an unknown one does nothing
      ensures !found ==> unchanged(this)
      ensures found ==> outstandingCalls == old(outstandingCalls) - {tag} && lastTag == old(lastTag)
      ensures found ==> slate == Metrics(old(slate.outstanding) - 1, old(slate.started), old(slate.skipped), old(slate.completed) + 1,
                                         old(slate.succeeded) + (if ok then 1 else 0), old(slate.failed) + (if ok then 0 else 1))
    {
      if tag !in outstandingCalls {
        return false;
      }
      outstandingCalls := outstandingCalls - {tag};
      slate := slate.(outstanding := slate.outstanding - 1);
      slate := slate.(completed := slate.completed + 1);
      if ok {
        slate := slate.(succeeded := slate.succeeded + 1);
      } else {
        slate := slate.(failed := slate.failed + 1);
      }
      return true;
    }
  }

  // ---------- the commands ----------

  datatype Commands = Commands(enabled: bool, requireSigned: bool,
                               accepted: Num, rejected: Num,
                               lastRequestAccepted: Num, lastRequestRejected: Num,
                               sendFailed: Num, lastSend: Num,
                               returnedWithCommand: nat, wrongSignatureState: nat, seqNumCheckFailed: nat,
                               ephemeralIdCheckFailed: nat, targetIdCheckFailed: nat, invalidEncoding: nat)

  /** build_request. */
  function RequestFor(s: Commands): (r: (Request, Commands))
  {
    (Request(s.accepted, Max(s.rejected, s.sendFailed), s.requireSigned),
     s.(lastRequestAccepted := s.accepted, lastRequestRejected := s.rejected))
  }

  /** Why a response that carries a command is not handed on. */
  datatype Verdict = Fine | WrongState | Unauthorised | Replayed | ForeignId | ForeignTarget | Undecodable

  function Judge(s: Commands, target: string, r: Response): (q: Verdict)
  {
    if s.requireSigned then
      if r.signed.NoSigned? then WrongState
      else if !r.signed.outerOk || !r.signed.innerOk then Unauthorised
      else if r.seqNum != r.signed.commandId
              || (s.accepted > 0 && r.signed.commandId <= Max(s.lastRequestAccepted, s.lastRequestRejected)) then Replayed
      else if (r.signed.outerId != "" && r.signed.outerId != r.signed.creationId)
              || (r.signed.innerId != "" && r.signed.innerId != r.signed.creationId) then ForeignId
      else if target != r.signed.targetId then ForeignTarget
      else if r.signed.payload != Payload(true) then Undecodable
      else Fine
    else
      if r.payload.NoPayload? then WrongState
      else if r.payload != Payload(true) then Undecodable
      else Fine
  }

  function Counted(s: Commands, v: Verdict): (r: Commands)
  {
    match v
    case WrongState => s.(wrongSignatureState := s.wrongSignatureState + 1)
    case Replayed => s.(seqNumCheckFailed := s.seqNumCheckFailed + 1)
    case ForeignId => s.(ephemeralIdCheckFailed := s.ephemeralIdCheckFailed + 1)
    case ForeignTarget => s.(targetIdCheckFailed := s.targetIdCheckFailed + 1)
    case Undecodable => s.(invalidEncoding := s.invalidEncoding + 1)
    case _ => s
  }

  /**
   * What an acceptable response must be.  In signed mode: unwrapped from both its layers, with the
   * number it was signed for, newer than both numbers of the latest request unless nothing was
   * accepted yet, with no foreign ephemeral id, made for this vehicle, and decodable.
   */
  ghost predicate Genuine(s: Commands, target: string, r: Response)
  {
    if s.requireSigned then
      && r.signed.Signed? && r.signed.outerOk && r.signed.innerOk
      && r.signed.commandId == r.seqNum
      && (s.accepted == 0 || (s.lastRequestAccepted < r.seqNum && s.lastRequestRejected < r.seqNum))
      && r.signed.outerId in {"", r.signed.creationId} && r.signed.innerId in {"", r.signed.creationId}
      && r.signed.targetId == target
      && r.signed.payload == Payload(true)
    else
      r.payload == Payload(true)
  }

  predicate HasCommand(r: Response)
  {
    !r.payload.NoPayload? || !r.signed.NoSigned?
  }

  /** Whether a response makes the client emit its command. */
  predicate Emits(s: Commands, target: string, ok: bool, r: Response)
  {
    ok && HasCommand(r) && r.seqNum != 0 && Judge(s, target, r).Fine?
  }

  /** Feedback of the vehicle: the last command it accepted and the last it rejected. */
  datatype Feedback = Feedback(accepted: Num, rejected: Num)

  function Heard(s: Commands, f: Feedback): (r: Commands)
  {
    s.(accepted := f.accepted, rejected := f.rejected)
  }

  /**
   * What handing a command on does: the answer of the signal, whether the command was issued, and
   * feedback that arrives from inside the call.
   */
  datatype Handover = Handover(sent: bool, issued: bool, feedback: Option<Feedback>)

  /** on_pump_response. */
  function Pumped(s: Commands, target: string, ok: bool, r: Response, h: Handover): (q: Commands)
  {
    if !ok then s
    else if !HasCommand(r) then s.(lastSend := r.seqNum)
    else
      var seen := s.(lastSend := r.seqNum, returnedWithCommand := s.returnedWithCommand + 1);
      if r.seqNum == 0 then seen
      else if !Judge(s, target, r).Fine? then Counted(seen, Judge(s, target, r))
      else
        var after := if h.feedback.Some? then Heard(seen, h.feedback.value) else seen;
        if h.sent && !h.issued then after.(sendFailed := r.seqNum) else after
  }

  /** Why a command in a response is refused, as the counters tell: the first check that fails. */
  lemma RefusalIsCounted(s: Commands, target: string, r: Response, h: Handover)
    requires r.seqNum != 0 && (r.payload.Payload? || r.signed.Signed?)
    ensures var q := Pumped(s, target, true, r, h);
      var unwrapped := s.requireSigned && r.signed.Signed? && r.signed.outerOk && r.signed.innerOk;
      var newer := unwrapped && r.signed.commandId == r.seqNum
                   && (s.accepted == 0 || (s.lastRequestAccepted < r.seqNum && s.lastRequestRejected < r.seqNum));
      var own := newer && r.signed.outerId in {"", r.signed.creationId} && r.signed.innerId in {"", r.signed.creationId};
      var ours := own && r.signed.targetId == target;
      && q.wrongSignatureState - s.wrongSignatureState
         == (if s.requireSigned then (if r.signed.NoSigned? then 1 else 0) else if r.payload.NoPayload? then 1 else 0)
      && q.seqNumCheckFailed - s.seqNumCheckFailed == (if unwrapped && !newer then 1 else 0)
      && q.ephemeralIdCheckFailed - s.ephemeralIdCheckFailed == (if newer && !own then 1 else 0)
      && q.targetIdCheckFailed - s.targetIdCheckFailed == (if own && !ours then 1 else 0)
      && q.invalidEncoding - s.invalidEncoding
         == (if ours && r.signed.payload != Payload(true) then 1
             else if !s.requireSigned && r.payload == Payload(false) then 1 else 0)
  {
  }

  /** What else a response changes: the last number seen, the commands counted, and what handing over left. */
  lemma ResponseIsRecorded(s: Commands, target: string, ok: bool, r: Response, h: Handover)
    ensures var q := Pumped(s, target, ok, r, h);
      var command, emitted := r.payload.Payload? || r.signed.Signed?, ok && r.seqNum != 0 && Genuine(s, target, r);
      && q.lastSend == (if ok then r.seqNum else s.lastSend)
      && q.returnedWithCommand == s.returnedWithCommand + (if ok && command then 1 else 0)
      && (q.accepted, q.rejected) == (if emitted && h.feedback.Some?
                                      then (h.feedback.value.accepted, h.feedback.value.rejected) else (s.accepted, s.rejected))
      && q.sendFailed == (if emitted && h.sent && !h.issued then r.seqNum else s.sendFailed)
      && (q.enabled, q.requireSigned, q.lastRequestAccepted, q.lastRequestRejected)
         == (s.enabled, s.requireSigned, s.lastRequestAccepted, s.lastRequestRejected)
      && (!ok || !command || r.seqNum == 0 ==>
            (q.wrongSignatureState, q.seqNumCheckFailed, q.ephemeralIdCheckFailed, q.targetIdCheckFailed, q.invalidEncoding)
            == (s.wrongSignatureState, s.seqNumCheckFailed, s.ephemeralIdCheckFailed, s.targetIdCheckFailed, s.invalidEncoding))
  {
  }

  // ---------- GrpcPoller ----------

  datatype Config = Config(reenableFromLastSuccess: bool, minDelay: int, minBackoff: int, maxBackoff: int,
                           randomizeBackoff: bool, fifo: bool)

  datatype Poller = Poller(enabled: bool, waiting: bool, justEnabled: bool, nextPoll: int, lastPoll: int,
                           lastSuccess: int, asapCount: nat, retryCount: nat, period: int)

  /** When the next call is due, as dispatch works it out. */
  function DueTime(p: Poller, config: Config, now: int, delay: int): (r: int)
  {
    if p.justEnabled then (if config.reenableFromLastSuccess then p.lastSuccess else now) + delay
    else Max(p.nextPoll, p.lastSuccess + config.minDelay)
  }

  predicate Due(p: Poller, config: Config, now: int, delay: int)
  {
    p.enabled && !p.waiting && DueTime(p, config, now, delay) <= now
  }

  /** dispatch, but for the call itself. */
  function Dispatched(p: Poller, config: Config, now: int, delay: int): (r: Poller)
  {
    if !p.enabled || p.waiting then p
    else if Due(p, config, now, delay) then p.(justEnabled := false, lastPoll := now, nextPoll := NANO_MAX, waiting := true)
    else p.(justEnabled := false, nextPoll := DueTime(p, config, now, delay))
  }

  function PolledAsap(p: Poller): (r: Poller)
  {
    p.(asapCount := p.asapCount + 1, retryCount := 0, lastPoll := 0, nextPoll := 0)
  }

  /** The longest back-off after `retries` failures: doubling, within the limits and within nano_t. */
  function Backoff(config: Config, retries: nat): (r: int)
    requires config.minBackoff > 0
  {
    var multiplier := Min(NANO_MAX / config.minBackoff, Pow2(if retries < 32 then retries else 32));
    Min(config.minBackoff * multiplier, config.maxBackoff)
  }

  /** What on_response does after the callback; `draw` is the random delay where one is drawn. */
  function Rescheduled(p: Poller, config: Config, ok: bool, draw: int): (r: Poller)
    requires config.minBackoff > 0
  {
    var wait :=
      if ok then (if p.retryCount > 0 then draw else p.period)
      else if config.randomizeBackoff then draw else Backoff(config, p.retryCount);
    var next := if wait != 0 then p.lastPoll + wait else p.nextPoll;
    var waiting := p.waiting && config.fifo;
    if ok then p.(waiting := waiting, retryCount := 0, asapCount := 0, nextPoll := next)
    else p.(waiting := waiting, retryCount := p.retryCount + 1, nextPoll := next)
  }

  /** on_response; `asap` is whether its callback asks for a poll. */
  function Responded(p: Poller, config: Config, ok: bool, asap: bool, draw: int): (r: Poller)
    requires config.minBackoff > 0
  {
    var called := p.(waiting := false, lastSuccess := if ok then p.lastPoll else p.lastSuccess);
    Rescheduled(if asap then PolledAsap(called) else called, config, ok, draw)
  }

  function Enabled(p: Poller): (r: Poller)
  {
    if p.enabled then p else p.(enabled := true, retryCount := 0, justEnabled := true)
  }

  class GrpcPoller {
    const config: Config
    const client: GrpcClient
    var slate: Poller

    constructor (config: Config, client: GrpcClient, startEnabled: bool, period: int)
      ensures this.config == config && this.client == client
      ensures slate == Poller(startEnabled, false, false, if period == 0 || !startEnabled then NANO_MAX else 0,
                              0, -NANO_MAX - 1, 0, 0, period)
    {
      this.config, this.client := config, client;
      slate := Poller(startEnabled, false, false, if period == 0 || !startEnabled then NANO_MAX else 0,
                      0, -NANO_MAX - 1, 0, 0, period);
    }

    /** dispatch: build a request and make a call, if one is due and none is waited for. */
    method Dispatch(owner: CommandQueueClient, now: int, delay: int, stub: bool)
        returns (wakeup: int, asked: Option<Request>)
      modifies this`slate, owner`slate, client
      ensures slate == Dispatched(old(slate), config, now, delay)
      ensures var due := Due(old(slate), config, now, delay);
        && (asked.Some? <==> due)
        && (due ==> (asked.value, owner.slate) == RequestFor(old(owner.slate)))
        && (!due ==> owner.slate == old(owner.slate))
        && client.View() == if due then Start(old(client.View()), client.maxOutstandingCalls, asked.value, stub)
                            else old(client.View())
      // when it asks, and for what
      ensures asked.Some? <==>
        (old(slate.enabled) && !old(slate.waiting) &&
         if old(slate.justEnabled) then (if config.reenableFromLastSuccess then old(slate.lastSuccess) else now) + delay <= now
         else old(slate.nextPoll) <= now && old(slate.lastSuccess) + config.minDelay <= now)
      ensures asked.Some? ==>
        && asked.value.accepted == old(owner.slate.accepted)
        && asked.value.rejected in {old(owner.slate.rejected), old(owner.slate.sendFailed)}
        && asked.value.rejected >= old(owner.slate.rejected) && asked.value.rejected >= old(owner.slate.sendFailed)
        && asked.value.requireSigned == old(owner.slate.requireSigned)
      // what it remembers
      ensures !old(slate.enabled) || old(slate.waiting) ==> slate == old(slate) && wakeup == NANO_MAX
      ensures asked.Some? ==>
        slate == old(slate).(justEnabled := false, lastPoll := now, nextPoll := NANO_MAX, waiting := true) && wakeup == NANO_MAX
      ensures asked.None? && old(slate.enabled) && !old(slate.waiting) ==>
        && slate == old(slate).(justEnabled := false, nextPoll := wakeup)
        && if old(slate.justEnabled) then wakeup == (if config.reenableFromLastSuccess then old(slate.lastSuccess) else now) + delay
           else wakeup == Max(old(slate.nextPoll), old(slate.lastSuccess) + config.minDelay)
      // the caller is never told to come back at once, and misses nothing until it does
      ensures wakeup > now || wakeup == NANO_MAX
      ensures forall t, d :: t < wakeup ==> !Due(slate, config, t, d)
    {
      asked := None;
      if !slate.enabled || slate.waiting {
        return NANO_MAX, asked;
      }
      if slate.justEnabled {
        if config.reenableFromLastSuccess {
          slate := slate.(nextPoll := slate.lastSuccess + delay);
        } else {
          slate := slate.(nextPoll := now + delay);
        }
        slate := slate.(justEnabled := false);
      } else if slate.nextPoll < slate.lastSuccess + config.minDelay {
        slate := slate.(nextPoll := slate.lastSuccess + config.minDelay);
      }
      if now >= slate.nextPoll {
        var request := owner.BuildRequest();
        asked := Some(request);
        slate := slate.(lastPoll := now);
        slate := slate.(nextPoll := NANO_MAX);
        slate := slate.(waiting := true);
        var _ := client.Async(request, stub);
      }
      return slate.nextPoll, asked;
    }

    method EnablePolling()
      modifies this`slate
      ensures slate == Enabled(old(slate))
      ensures slate.enabled && (!old(slate.enabled) ==> slate.justEnabled && slate.retryCount == 0)
      ensures old(slate.enabled) ==> slate == old(slate)
    {
      if !slate.enabled {
        slate := slate.(retryCount := 0);
        slate := slate.(justEnabled := true);
      }
      slate := slate.(enabled := true);
    }

    /** poll_asap; force_retry cancels the call first, which is only a request to the channel. */
    method PollAsap()
      modifies this`slate
      ensures slate == PolledAsap(old(slate))
      ensures slate == old(slate).(asapCount := old(slate.asapCount) + 1, retryCount := 0, lastPoll := 0, nextPoll := 0)
    {
      slate := slate.(asapCount := slate.asapCount + 1);
      slate := slate.(retryCount := 0);
      slate := slate.(lastPoll := 0);
      slate := slate.(nextPoll := 0);
    }

    /** on_response. */
    method OnResponse(owner: CommandQueueClient, ok: bool, r: Response, h: Handover, draw: int)
        returns (emitted: Option<Num>)
      requires owner.poller == this && config.minBackoff > 0
      modifies this`slate, owner`slate
      ensures emitted == if Emits(old(owner.slate), owner.target, ok, r) then Some(r.seqNum) else None
      ensures owner.slate == Pumped(old(owner.slate), owner.target, ok, r, h)
      ensures slate == Responded(old(slate), config, ok, emitted.Some? && h.feedback.Some?, draw)
    {
      emitted := None;
      if config.fifo {
        slate := slate.(waiting := false);
      }
      if ok {
        slate := slate.(lastSuccess := slate.lastPoll);
        emitted := owner.OnPumpResponse(ok, r, h);
      }
      Reschedule(ok, draw);
    }

    /** What on_response does after the callback. */
    method Reschedule(ok: bool, draw: int)
      requires config.minBackoff > 0
      modifies this`slate
      ensures slate == Rescheduled(old(slate), config, ok, draw)
    {
      if !config.fifo {
        slate := slate.(waiting := false);
      }
      var wait := slate.period;
      if ok {
        if slate.retryCount > 0 {
          wait := draw;
        }
        slate := slate.(retryCount := 0);
        slate := slate.(asapCount := 0);
      } else {
        wait := if config.randomizeBackoff then draw else Backoff(config, slate.retryCount);
        slate := slate.(retryCount := slate.retryCount + 1);
      }
      if wait != 0 {
        slate := slate.(nextPoll := slate.lastPoll + wait);
      }
    }
  }

  class CommandQueueClient {
    const target: string
    const poller: GrpcPoller
    var slate: Commands

    constructor (target: string, poller: GrpcPoller)
      ensures this.target == target && this.poller == poller
      ensures slate == Commands(false, false, 0, 0, 0, 0, 0, 0, 0, 0, 0, 0, 0, 0)
    {
      this.target, this.poller := target, poller;
      slate := Commands(false, false, 0, 0, 0, 0, 0, 0, 0, 0, 0, 0, 0, 0);
    }

    function View(): (r: Uplink)
      reads this, poller, poller.client
    {
      Uplink(slate, poller.slate, poller.client.View())
    }

    function Setting(): (r: Setup)
    {
      Setup(target, poller.config, poller.client.maxOutstandingCalls)
    }

    method BuildRequest() returns (request: Request)
      modifies this`slate
      ensures (request, slate) == RequestFor(old(slate))
      ensures request.accepted == old(slate.accepted) && request.requireSigned == old(slate.requireSigned)
      ensures request.rejected >= old(slate.rejected) && request.rejected >= old(slate.sendFailed)
        && request.rejected in {old(slate.rejected), old(slate.sendFailed)}
      ensures slate == old(slate).(lastRequestAccepted := old(slate.accepted), lastRequestRejected := old(slate.rejected))
    {
      request := Request(slate.accepted, Max(slate.rejected, slate.sendFailed), slate.requireSigned);
      slate := slate.(lastRequestAccepted := slate.accepted);
      slate := slate.(lastRequestRejected := slate.rejected);
    }

    /** pump_now. */
    method PumpNow(f: Feedback)
      modifies this`slate, poller`slate
      ensures slate == Heard(old(slate), f) && poller.slate == PolledAsap(old(poller.slate))
      ensures slate == old(slate).(accepted := f.accepted, rejected := f.rejected)
    {
      slate := slate.(accepted := f.accepted);
      slate := slate.(rejected := f.rejected);
      poller.PollAsap();
    }

    /** on_pump_response; returns the sequence number of the command it emitted. */
    method OnPumpResponse(ok: bool, r: Response, h: Handover) returns (emitted: Option<Num>)
      modifies this`slate, poller`slate
      ensures emitted == if Emits(old(slate), target, ok, r) then Some(r.seqNum) else None
      ensures emitted.Some? <==> ok && r.seqNum != 0 && Genuine(old(slate), target, r)
      ensures slate == Pumped(old(slate), target, ok, r, h)
      ensures poller.slate == if emitted.Some? && h.feedback.Some? then PolledAsap(old(poller.slate)) else old(poller.slate)
    {
      if !ok {
        return None;
      }
      slate := slate.(lastSend := r.seqNum);
      if !r.payload.NoPayload? || !r.signed.NoSigned? {
        slate := slate.(returnedWithCommand := slate.returnedWithCommand + 1);
        if r.seqNum == 0 {
          return None;
        }
        if slate.requireSigned {
          if r.signed.NoSigned? {
            slate := slate.(wrongSignatureState := slate.wrongSignatureState + 1);
            return None;
          }
          if !r.signed.outerOk {
            return None;
          }
          if !r.signed.innerOk {
            return None;
          }
          if r.seqNum != r.signed.commandId ||
             (slate.accepted > 0 && r.signed.commandId <= Max(slate.lastRequestAccepted, slate.lastRequestRejected)) {
            slate := slate.(seqNumCheckFailed := slate.seqNumCheckFailed + 1);
            return None;
          }
          if (r.signed.outerId != "" && r.signed.outerId != r.signed.creationId) ||
             (r.signed.innerId != "" && r.signed.innerId != r.signed.creationId) {
            slate := slate.(ephemeralIdCheckFailed := slate.ephemeralIdCheckFailed + 1);
            return None;
          }
          if target != r.signed.targetId {
            slate := slate.(targetIdCheckFailed := slate.targetIdCheckFailed + 1);
            return None;
          }
          if r.signed.payload != Payload(true) {
            slate := slate.(invalidEncoding := slate.invalidEncoding + 1);
            return None;
          }
        } else {
          if r.payload.NoPayload? {
            slate := slate.(wrongSignatureState := slate.wrongSignatureState + 1);
            return None;
          }
          if r.payload != Payload(true) {
            slate := slate.(invalidEncoding := slate.invalidEncoding + 1);
            return None;
          }
        }
        emitted := Some(r.seqNum);
        if h.feedback.Some? {
          PumpNow(h.feedback.value);
        }
        if !h.sent {
          return;
        }
        if !h.issued {
          slate := slate.(sendFailed := r.seqNum);
        }
        return;
      }
      return None;
    }

    /** dispatch. */
    method Dispatch(now: int, delay: int, stub: bool) returns (wakeup: int, asked: Option<Request>)
      modifies this`slate, poller`slate, poller.client
      ensures (View(), if asked.Some? then Asked(asked.value) else Quiet) == Step(old(View()), Setting(), Poll(now, delay, stub))
      ensures wakeup > now || wakeup == NANO_MAX
    {
      if !slate.enabled {
        return NANO_MAX, None;
      }
      wakeup, asked := poller.Dispatch(this, now, delay, stub);
    }

    /** A call completes, and its callback runs on the main thread. */
    method Complete(tag: nat, ok: bool, r: Response, h: Handover, draw: int) returns (emitted: Option<Num>)
      requires poller.config.minBackoff > 0
      modifies this`slate, poller`slate, poller.client
      ensures (View(), if emitted.Some? then Emitted(emitted.value) else Quiet)
           == Step(old(View()), Setting(), Completed(tag, ok, r, h, draw))
      ensures emitted.Some? <==> tag in old(poller.client.outstandingCalls) && ok && r.seqNum != 0 && Genuine(old(slate), target, r)
      ensures emitted.Some? ==> emitted.value == r.seqNum
    {
      var found := poller.client.Complete(tag, ok);
      if !found {
        return None;
      }
      emitted := poller.OnResponse(this, ok, r, h, draw);
    }
  }

  // ---------- runs ----------

  datatype Uplink = Uplink(commands: Commands, poller: Poller, client: Client)

  datatype Setup = Setup(target: string, config: Config, maxOutstanding: nat)

  /**
   * What can happen, in any order.  A completed call that the worker of the client drops is no
   * event: it changes nothing.
   */
  datatype Event =
    | Settings(enabled: bool, requireSigned: bool)
    | PumpNow(feedback: Feedback)
    | Poll(now: int, delay: int, stub: bool)
    | EnablePolling
    | DisablePolling
    | Completed(tag: nat, ok: bool, response: Response, handover: Handover, draw: int)

  datatype Output = Quiet | Asked(request: Request) | Emitted(seqNum: Num)

  function Step(u: Uplink, setup: Setup, e: Event): (r: (Uplink, Output))
    requires setup.config.minBackoff > 0 || !e.Completed?
  {
    match e
    case Settings(enabled, requireSigned) =>
      (u.(commands := u.commands.(enabled := enabled, requireSigned := requireSigned)), Quiet)
    case PumpNow(f) => (u.(commands := Heard(u.commands, f), poller := PolledAsap(u.poller)), Quiet)
    case Poll(now, delay, stub) =>
      if !u.commands.enabled then (u, Quiet)
      else
        var poller := Dispatched(u.poller, setup.config, now, delay);
        if Due(u.poller, setup.config, now, delay) then
          var (request, commands) := RequestFor(u.commands);
          (Uplink(commands, poller, Start(u.client, setup.maxOutstanding, request, stub)), Asked(request))
        else
          (u.(poller := poller), Quiet)
    case EnablePolling => (u.(poller := Enabled(u.poller)), Quiet)
    case DisablePolling => (u.(poller := u.poller.(enabled := false)), Quiet)
    case Completed(tag, ok, r, h, draw) =>
      if tag !in u.client.calls then (u, Quiet)
      else
        var emits := Emits(u.commands, setup.target, ok, r);
        (Uplink(Pumped(u.commands, setup.target, ok, r, h),
                Responded(u.poller, setup.config, ok, emits && h.feedback.Some?, draw),
                Finish(u.client, tag, ok)),
         if emits then Emitted(r.seqNum) else Quiet)
  }

  function Run(u: Uplink, setup: Setup, es: seq<Event>): (r: (Uplink, seq<Output>))
    requires setup.config.minBackoff > 0
  {
    if |es| == 0 then (u, [])
    else
      var before := Run(u, setup, es[..|es| - 1]);
      var step := Step(before.0, setup, es[|es| - 1]);
      (step.0, before.1 + [step.1])
  }

  // ---------- one call in flight ----------

  /** The latest request that was built. */
  function LastAsked(outputs: seq<Output>): (r: Option<Request>)
  {
    if |outputs| == 0 then None
    else if outputs[|outputs| - 1].Asked? then Some(outputs[|outputs| - 1].request)
    else LastAsked(outputs[..|outputs| - 1])
  }

  /**
   * At most one call is in flight; while one is, a response is waited for; and it carries the
   * latest request, with the feedback that is on record for it.
   */
  ghost predicate SingleFlight(u: Uplink, latest: Option<Request>)
  {
    && Balanced(u.client)
    && |u.client.calls| <= 1
    && (forall tag :: tag in u.client.calls ==> u.poller.waiting && latest == Some(u.client.calls[tag]))
    && (latest.Some? ==> latest.value.accepted == u.commands.lastRequestAccepted
                         && u.commands.lastRequestRejected <= latest.value.rejected)
  }

  lemma PollIsSingleFlight(u: Uplink, setup: Setup, e: Event, latest: Option<Request>)
    requires setup.config.minBackoff > 0 && SingleFlight(u, latest) && e.Poll?
    ensures var (v, output) := Step(u, setup, e);
      && SingleFlight(v, if output.Asked? then Some(output.request) else latest)
      && (setup.maxOutstanding >= 1 ==> v.client.metrics.skipped == u.client.metrics.skipped)
  {
    hide Balanced, DueTime;
    var request := RequestFor(u.commands).0;
    NoneInFlight(u.client, u.poller.waiting);
    StartIsBalanced(u.client, setup.maxOutstanding, request, e.stub);
    StartOne(u.client, setup.maxOutstanding, request, e.stub);
  }

  lemma CompletedIsSingleFlight(u: Uplink, setup: Setup, e: Event, latest: Option<Request>)
    requires setup.config.minBackoff > 0 && SingleFlight(u, latest) && e.Completed?
    ensures var (v, output) := Step(u, setup, e);
      SingleFlight(v, latest) && !output.Asked? && v.client.metrics.skipped == u.client.metrics.skipped
  {
    hide Balanced, Judge, Responded;
    FinishIsBalanced(u.client, e.tag, e.ok);
    OnlyOne(u.client, e.tag, e.ok);
  }

  lemma StepIsSingleFlight(u: Uplink, setup: Setup, e: Event, latest: Option<Request>)
    requires setup.config.minBackoff > 0 && SingleFlight(u, latest)
    ensures var (v, output) := Step(u, setup, e);
      && SingleFlight(v, if output.Asked? then Some(output.request) else latest)
      && (setup.maxOutstanding >= 1 ==> v.client.metrics.skipped == u.client.metrics.skipped)
  {
    hide Balanced;
    if e.Poll? {
      PollIsSingleFlight(u, setup, e, latest);
    } else if e.Completed? {
      CompletedIsSingleFlight(u, setup, e, latest);
    }
  }

  /** With nothing waited for, nothing is in flight. */
  lemma NoneInFlight(c: Client, waiting: bool)
    requires Balanced(c)
    ensures (forall tag :: tag in c.calls ==> waiting) && !waiting ==> c.calls == map[] && c.metrics.outstanding == 0
  {
    if !waiting && forall tag :: tag in c.calls ==> waiting {
      assert c.calls == map[];
    }
  }

  lemma StartOne(c: Client, maxOutstanding: nat, request: Request, stub: bool)
    ensures c.calls == map[] ==>
      var d := Start(c, maxOutstanding, request, stub);
      |d.calls| <= 1 && forall tag :: tag in d.calls ==> d.calls[tag] == request
  {
  }

  lemma OnlyOne(c: Client, tag: nat, ok: bool)
    ensures tag in c.calls && |c.calls| <= 1 ==> Finish(c, tag, ok).calls == map[]
  {
    if tag in c.calls && |c.calls| <= 1 {
      var rest := c.calls - {tag};
      assert rest.Keys == c.calls.Keys - {tag};
      assert |rest.Keys| == 0;
    }
  }

  /**
   * In every run, however feedback, polls, cancellations and responses are interleaved: one call
   * at most is in flight, and the response it gets answers the latest request.
   */
  lemma {:induction false} RunIsSingleFlight(u: Uplink, setup: Setup, es: seq<Event>)
    requires setup.config.minBackoff > 0 && SingleFlight(u, None)
    ensures SingleFlight(Run(u, setup, es).0, LastAsked(Run(u, setup, es).1))
    ensures setup.maxOutstanding >= 1 ==> Run(u, setup, es).0.client.metrics.skipped == u.client.metrics.skipped
  {
    hide SingleFlight, Step;
    if |es| > 0 {
      var front := es[..|es| - 1];
      RunIsSingleFlight(u, setup, front);
      var before := Run(u, setup, front);
      StepIsSingleFlight(before.0, setup, es[|es| - 1], LastAsked(before.1));
      var output := Step(before.0, setup, es[|es| - 1]).1;
      assert (before.1 + [output])[..|before.1|] == before.1;
    }
  }

  // ---------- waiting for nothing ----------

  /** The client waits for a response, but no call is in flight. */
  ghost predicate Wedged(u: Uplink)
  {
    u.poller.waiting && u.client.calls == map[]
  }

  /** The client comes to wait for nothing exactly when a poll is due and its call is not started. */
  lemma WedgesExactly(u: Uplink, setup: Setup, e: Event, latest: Option<Request>)
    requires setup.config.minBackoff > 0 && SingleFlight(u, latest) && !Wedged(u) && setup.maxOutstanding >= 1
    ensures Wedged(Step(u, setup, e).0)
       <==> e.Poll? && u.commands.enabled && Due(u.poller, setup.config, e.now, e.delay) && !e.stub
  {
    hide Balanced, Judge, Backoff;
    match e
    case Poll(now, delay, stub) =>
      NoneInFlight(u.client, u.poller.waiting);
      var request := RequestFor(u.commands).0;
      assert stub && u.client.metrics.outstanding == 0 ==>
        u.client.lastTag + 1 in Start(u.client, setup.maxOutstanding, request, stub).calls;
    case _ =>
  }

  ghost predicate AllQuiet(outputs: seq<Output>)
  {
    forall i :: 0 <= i < |outputs| ==> outputs[i].Quiet?
  }

  /** From then on nothing is asked and nothing is emitted, whatever happens. */
  lemma {:induction false} WedgedForEver(u: Uplink, setup: Setup, es: seq<Event>)
    requires setup.config.minBackoff > 0 && Wedged(u)
    ensures Wedged(Run(u, setup, es).0) && AllQuiet(Run(u, setup, es).1)
  {
    hide Judge, Backoff;
    if |es| > 0 {
      WedgedForEver(u, setup, es[..|es| - 1]);
    }
  }

  ghost predicate NeverCompletes(es: seq<Event>, tag: nat)
  {
    forall i :: 0 <= i < |es| && es[i].Completed? ==> es[i].tag != tag
  }

  lemma OnlyThisTag(c: Client, tag: nat, other: nat)
    requires |c.calls| <= 1 && tag in c.calls && other in c.calls
    ensures other == tag
  {
    OnlyOne(c, tag, true);
    assert other != tag ==> other in c.calls - {tag};
  }

  /** While a response is waited for, only the completion of the call in flight is more than bookkeeping. */
  lemma WaitingStepIsQuiet(u: Uplink, setup: Setup, e: Event)
    requires setup.config.minBackoff > 0 && u.poller.waiting
    requires e.Completed? ==> e.tag !in u.client.calls
    ensures var (v, output) := Step(u, setup, e);
      output.Quiet? && v.poller.waiting && v.client == u.client
  {
    hide Judge, Backoff;
  }

  /** The same holds when the worker drops the completion of the call in flight. */
  lemma {:induction false} LostCallSilences(u: Uplink, setup: Setup, es: seq<Event>, tag: nat, latest: Option<Request>)
    requires setup.config.minBackoff > 0 && SingleFlight(u, latest) && tag in u.client.calls
    requires NeverCompletes(es, tag)
    ensures AllQuiet(Run(u, setup, es).1)
    ensures Run(u, setup, es).0.poller.waiting && Run(u, setup, es).0.client == u.client
  {
    hide Step, Balanced;
    if |es| > 0 {
      var e := es[|es| - 1];
      LostCallSilences(u, setup, es[..|es| - 1], tag, latest);
      if e.Completed? && e.tag in u.client.calls { OnlyThisTag(u.client, tag, e.tag); }
      WaitingStepIsQuiet(Run(u, setup, es[..|es| - 1]).0, setup, e);
    }
  }

  // ---------- what a poll and a completion do ----------

  /** A command is emitted exactly when a call in flight completes with an acceptable response. */
  lemma EmittedExactly(u: Uplink, setup: Setup, e: Event)
    requires setup.config.minBackoff > 0
    ensures Step(u, setup, e).1.Emitted? <==>
      && e.Completed? && e.tag in u.client.calls && e.ok
      && e.response.seqNum != 0 && Genuine(u.commands, setup.target, e.response)
    ensures Step(u, setup, e).1.Emitted? ==> Step(u, setup, e).1.seqNum == e.response.seqNum
  {
    hide Responded, Pumped, Dispatched, Due, Start, Finish;
  }

  /** Feedback forces a poll: the next dispatch asks with it as soon as the rate limit allows. */
  lemma FeedbackIsAsked(u: Uplink, setup: Setup, f: Feedback, now: int, delay: int, stub: bool)
    requires now >= 0
    ensures var v := Step(u, setup, PumpNow(f)).0;
      var output := Step(v, setup, Poll(now, delay, stub)).1;
      && (output.Asked? <==>
            u.commands.enabled && u.poller.enabled && !u.poller.waiting &&
            if u.poller.justEnabled then (if setup.config.reenableFromLastSuccess then u.poller.lastSuccess else now) + delay <= now
            else u.poller.lastSuccess + setup.config.minDelay <= now)
      && (output.Asked? ==>
            output.request == Request(f.accepted, if f.rejected < u.commands.sendFailed then u.commands.sendFailed else f.rejected,
                                      u.commands.requireSigned))
  {
  }

  /** With polling or the client disabled nothing is asked, until it is enabled again. */
  lemma DisabledIsSilent(u: Uplink, setup: Setup, now: int, delay: int, stub: bool, requireSigned: bool)
    ensures var off := Step(u, setup, DisablePolling).0;
      && Step(off, setup, Poll(now, delay, stub)).1.Quiet?
      && Step(off, setup, EnablePolling).0.poller.enabled && Step(off, setup, EnablePolling).0.poller.justEnabled
    ensures var off := Step(u, setup, Settings(false, requireSigned)).0;
      && off.commands == u.commands.(enabled := false, requireSigned := requireSigned)
      && Step(off, setup, Poll(now, delay, stub)) == (off, Quiet)
      && Step(off, setup, Settings(u.commands.enabled, u.commands.requireSigned)).0 == u
  {
  }

  // ---------- no command twice ----------

  function Covered(s: Commands): (r: int)
  {
    Max(s.lastRequestAccepted, s.lastRequestRejected)
  }

  /**
   * In signed mode the client would emit command n for some response exactly when no command was
   * accepted yet or the latest request does not cover n.
   */
  lemma ReplayExactly(s: Commands, target: string, n: Num)
    requires s.requireSigned && n > 0
    ensures (exists r: Response :: r.seqNum == n && Emits(s, target, true, r)) <==> s.accepted == 0 || Covered(s) < n
  {
    var r := Response(n, NoPayload, Signed(true, "", true, "", n, "", target, Payload(true)));
    if s.accepted == 0 || Covered(s) < n {
      assert r.seqNum == n && Emits(s, target, true, r);
    }
  }

  /**
   * The request tells the ground about a command that could not be issued, but the check does not
   * count it: the same command may come back.
   */
  lemma UnissuedMayComeBack(s: Commands, target: string)
    requires s.requireSigned && Max(s.accepted, s.rejected) < s.sendFailed
    ensures var (request, asked) := RequestFor(s);
      && request.rejected == s.sendFailed
      && exists r: Response :: r.seqNum == request.rejected && Emits(asked, target, true, r)
  {
    var asked := RequestFor(s).1;
    ReplayExactly(asked, target, s.sendFailed);
    var r: Response :| r.seqNum == s.sendFailed && Emits(asked, target, true, r);
  }

  /** Signed mode, a command accepted, and feedback of at least n on record and in the latest request. */
  ghost predicate Guarded(s: Commands, n: int)
  {
    s.requireSigned && s.accepted > 0 && n <= Max(s.accepted, s.rejected) && n <= Covered(s)
  }

  ghost predicate FeedbackCovers(f: Feedback, n: int)
  {
    f.accepted > 0 && n <= Max(f.accepted, f.rejected)
  }

  /** The run stays in signed mode and its feedback does not fall behind n. */
  ghost predicate Steady(e: Event, n: int)
  {
    match e
    case Settings(_, requireSigned) => requireSigned
    case PumpNow(f) => FeedbackCovers(f, n)
    case Completed(_, _, _, h, _) => h.feedback.Some? ==> FeedbackCovers(h.feedback.value, n)
    case _ => true
  }

  ghost predicate AllSteady(es: seq<Event>, n: int)
  {
    forall i :: 0 <= i < |es| ==> Steady(es[i], n)
  }

  ghost predicate AllAbove(outputs: seq<Output>, n: int)
  {
    forall i :: 0 <= i < |outputs| && outputs[i].Emitted? ==> outputs[i].seqNum > n
  }

  lemma StepStaysGuarded(u: Uplink, setup: Setup, e: Event, n: int)
    requires setup.config.minBackoff > 0 && Guarded(u.commands, n) && Steady(e, n)
    ensures Guarded(Step(u, setup, e).0.commands, n)
    ensures Step(u, setup, e).1.Emitted? ==> Step(u, setup, e).1.seqNum > n
  {
    hide Start, Finish, Responded, Dispatched, Due;
  }

  lemma {:induction false} GuardedRun(u: Uplink, setup: Setup, es: seq<Event>, n: int)
    requires setup.config.minBackoff > 0 && Guarded(u.commands, n) && AllSteady(es, n)
    ensures Guarded(Run(u, setup, es).0.commands, n) && AllAbove(Run(u, setup, es).1, n)
  {
    hide Step, Guarded;
    if |es| > 0 {
      GuardedRun(u, setup, es[..|es| - 1], n);
      StepStaysGuarded(Run(u, setup, es[..|es| - 1]).0, setup, es[|es| - 1], n);
    }
  }

  /**
   * Anti-replay: once a request carrying feedback of at least n has been built, no command
   * numbered n or lower is emitted any more, whatever the ground answers and in whatever order.
   */
  lemma NoReplay(u: Uplink, setup: Setup, poll: Event, es: seq<Event>, n: int)
    requires setup.config.minBackoff > 0 && poll.Poll? && Step(u, setup, poll).1.Asked?
    requires u.commands.requireSigned && u.commands.accepted > 0 && n <= Max(u.commands.accepted, u.commands.rejected)
    requires AllSteady(es, n)
    ensures AllAbove(Run(Step(u, setup, poll).0, setup, es).1, n)
  {
    GuardedRun(Step(u, setup, poll).0, setup, es, n);
  }

  /** The sequence numbers of the emitted commands, in order. */
  function Emissions(outputs: seq<Output>): (r: seq<Num>)
  {
    if |outputs| == 0 then []
    else Emissions(outputs[..|outputs| - 1]) +
         if outputs[|outputs| - 1].Emitted? then [outputs[|outputs| - 1].seqNum] else []
  }

  function Last(emitted: seq<Num>): (r: int)
  {
    if |emitted| == 0 then 0 else emitted[|emitted| - 1]
  }

  /** Every request is built only after feedback for the last emitted command has come in. */
  ghost predicate Acknowledged(u: Uplink, setup: Setup, es: seq<Event>)
    requires setup.config.minBackoff > 0
  {
    |es| == 0 ||
    var before := Run(u, setup, es[..|es| - 1]);
    && Acknowledged(u, setup, es[..|es| - 1])
    && (Step(before.0, setup, es[|es| - 1]).1.Asked? ==>
          Last(Emissions(before.1)) <= Max(before.0.commands.accepted, before.0.commands.rejected))
  }

  ghost predicate Increasing(emitted: seq<Num>)
  {
    forall i, j :: 0 <= i < j < |emitted| ==> emitted[i] < emitted[j]
  }

  /** While a call is in flight, the latest request covers everything emitted so far. */
  ghost predicate InOrder(u: Uplink, emitted: seq<Num>)
  {
    && u.commands.requireSigned && u.commands.accepted > 0
    && Increasing(emitted)
    && (u.client.calls != map[] ==> Last(emitted) <= Covered(u.commands))
  }

  lemma StepStaysInOrder(u: Uplink, setup: Setup, e: Event, latest: Option<Request>, emitted: seq<Num>)
    requires setup.config.minBackoff > 0 && SingleFlight(u, latest) && InOrder(u, emitted) && Steady(e, 0)
    requires Step(u, setup, e).1.Asked? ==> Last(emitted) <= Max(u.commands.accepted, u.commands.rejected)
    ensures var (v, output) := Step(u, setup, e);
      InOrder(v, if output.Emitted? then emitted + [output.seqNum] else emitted)
  {
    hide Balanced, Start, Responded, Dispatched;
    match e
    case Completed(tag, ok, r, h, draw) =>
      OnlyOne(u.client, tag, ok);
      if tag in u.client.calls && Emits(u.commands, setup.target, ok, r) {
        assert u.client.calls != map[];
        assert Last(emitted) < r.seqNum;
        Extended(emitted, r.seqNum);
      }
    case _ =>
  }

  lemma Extended(emitted: seq<Num>, n: Num)
    requires Increasing(emitted) && Last(emitted) < n
    ensures Increasing(emitted + [n])
  {
  }

  /**
   * No command is emitted twice, and commands are emitted in ascending order, as long as a new
   * request waits for the feedback about the last command.  That is where one call in flight is
   * needed: between two emissions a request is built.
   */
  lemma {:induction false} EmissionsIncrease(u: Uplink, setup: Setup, es: seq<Event>)
    requires setup.config.minBackoff > 0 && SingleFlight(u, None) && u.client.calls == map[]
    requires u.commands.requireSigned && u.commands.accepted > 0
    requires AllSteady(es, 0) && Acknowledged(u, setup, es)
    ensures InOrder(Run(u, setup, es).0, Emissions(Run(u, setup, es).1))
  {
    hide SingleFlight, Step, InOrder, Run, Acknowledged, AllSteady, Steady, Emissions, LastAsked;
    if |es| > 0 {
      var front, e := es[..|es| - 1], es[|es| - 1];
      LastEvent(u, setup, es, 0);
      EmissionsIncrease(u, setup, front);
      RunIsSingleFlight(u, setup, front);
      var before := Run(u, setup, front);
      StepStaysInOrder(before.0, setup, e, LastAsked(before.1), Emissions(before.1));
      PushEmission(before.1, Step(before.0, setup, e).1);
    } else {
      NothingYet(u, setup, es);
    }
  }

  lemma LastEvent(u: Uplink, setup: Setup, es: seq<Event>, n: int)
    requires setup.config.minBackoff > 0 && |es| > 0 && AllSteady(es, n) && Acknowledged(u, setup, es)
    ensures var front, e := es[..|es| - 1], es[|es| - 1];
      var before := Run(u, setup, front);
      && AllSteady(front, n) && Steady(e, n) && Acknowledged(u, setup, front)
      && Run(u, setup, es) == (Step(before.0, setup, e).0, before.1 + [Step(before.0, setup, e).1])
      && (Step(before.0, setup, e).1.Asked? ==>
            Last(Emissions(before.1)) <= Max(before.0.commands.accepted, before.0.commands.rejected))
  {
    hide Step, Emissions, Steady;
  }

  lemma PushEmission(outputs: seq<Output>, output: Output)
    ensures Emissions(outputs + [output]) ==
      if output.Emitted? then Emissions(outputs) + [output.seqNum] else Emissions(outputs)
  {
    assert (outputs + [output])[..|outputs|] == outputs;
  }

  lemma NothingYet(u: Uplink, setup: Setup, es: seq<Event>)
    requires setup.config.minBackoff > 0 && es == [] && u.client.calls == map[]
    requires u.commands.requireSigned && u.commands.accepted > 0
    ensures InOrder(Run(u, setup, es).0, Emissions(Run(u, setup, es).1))
  {
  }

  // ---------- polling times ----------

  lemma Pow2Grows(n: nat)
    ensures 1 <= Pow2(n) < Pow2(n + 1)
  {
    if n > 0 {
      Pow2Grows(n - 1);
    }
  }

  lemma Scaled(a: int, b: int, c: int)
    requires 0 < a && b <= c
    ensures a * b <= a * c
  {
  }

  lemma WithinNano(minBackoff: int, m: int)
    requires 0 < minBackoff && m <= NANO_MAX / minBackoff
    ensures minBackoff * m <= NANO_MAX
  {
    Scaled(minBackoff, m, NANO_MAX / minBackoff);
  }

  /** The back-off starts at its minimum, never shrinks, never passes its maximum and never overflows. */
  lemma BackoffFits(config: Config, retries: nat)
    requires 0 < config.minBackoff <= config.maxBackoff <= NANO_MAX
    ensures config.minBackoff <= Backoff(config, retries) <= Backoff(config, retries + 1) <= config.maxBackoff
    ensures retries == 0 ==> Backoff(config, retries) == config.minBackoff
    ensures config.minBackoff * Min(NANO_MAX / config.minBackoff, Pow2(if retries < 32 then retries else 32)) <= NANO_MAX
  {
    hide Pow2;
    var a := if retries < 32 then retries else 32;
    var b := if retries + 1 < 32 then retries + 1 else 32;
    assert Pow2(0) == 1 && 1 <= Pow2(a) <= Pow2(b) by {
      Pow2Doubles(0);
      Pow2Grows(a);
    }
    var x, y := Min(NANO_MAX / config.minBackoff, Pow2(a)), Min(NANO_MAX / config.minBackoff, Pow2(b));
    Quotient(config.minBackoff);
    assert 1 <= x <= y;
    Scaled(config.minBackoff, 1, x);
    Scaled(config.minBackoff, x, y);
    WithinNano(config.minBackoff, x);
  }

  lemma Quotient(minBackoff: int)
    requires 0 < minBackoff <= NANO_MAX
    ensures 1 <= NANO_MAX / minBackoff
  {
  }

  /**
   * A poll asked for while a response is waited for is not lost: after the response the next call
   * is due as soon as the clock passes the wait and the rate limit, counted from zero.
   */
  lemma AsapSurvivesResponse(p: Poller, config: Config, ok: bool, draw: int, now: int, delay: int)
    requires config.minBackoff > 0 && p.enabled && p.waiting && !p.justEnabled
    ensures var q := Responded(PolledAsap(p), config, ok, false, draw);
      var wait := if ok then p.period else if config.randomizeBackoff then draw else Backoff(config, 0);
      Due(q, config, now, delay) <==> Max(wait, (if ok then 0 else p.lastSuccess) + config.minDelay) <= now
  {
    hide Backoff;
  }

  /**
   * What enabling achieves: a poller that was disabled polls as soon as the re-enabling delay has
   * passed, and one that was enabled polls when it would have anyway.
   */
  lemma EnablingSchedulesPoll(p: Poller, config: Config, now: int, delay: int)
    ensures Due(Enabled(p), config, now, delay) <==>
      if p.enabled then Due(p, config, now, delay)
      else !p.waiting && (if config.reenableFromLastSuccess then p.lastSuccess else now) + delay <= now
  {
  }

  /** If the first dispatch comes too early for that, the poll waits for its time and for the rate limit. */
  lemma EnabledPollComes(p: Poller, config: Config, first: int, delay: int, now: int, other: int)
    requires !p.enabled && !p.waiting && !Due(Enabled(p), config, first, delay)
    ensures var start := if config.reenableFromLastSuccess then p.lastSuccess else first;
      Due(Dispatched(Enabled(p), config, first, delay), config, now, other) <==>
        Max(start + delay, p.lastSuccess + config.minDelay) <= now
  {
  }

  /** Doubling: the next back-off is twice the last, until that would pass the maximum or the 32nd retry. */
  lemma BackoffDoubles(config: Config, retries: nat)
    requires 0 < config.minBackoff <= config.maxBackoff <= NANO_MAX && retries < 32
    ensures 2 * Backoff(config, retries) <= config.maxBackoff ==>
      Backoff(config, retries + 1) == 2 * Backoff(config, retries)
  {
    hide Pow2;
    var least, most := config.minBackoff, NANO_MAX / config.minBackoff;
    var a, b := Pow2(retries), Pow2(retries + 1);
    Pow2Doubles(retries);
    Quotient(least);
    var x := Min(most, a);
    Scaled(least, 1, x);
    if 2 * Min(least * x, config.maxBackoff) <= config.maxBackoff {
      assert 2 * (least * x) <= NANO_MAX;
      TwiceFits(least, x, most);
      assert x == a && Min(most, b) == b;
      assert least * b == 2 * (least * a);
    }
  }

  /** What fits twice leaves room for twice as much. */
  lemma TwiceFits(least: int, x: int, most: int)
    requires 0 < least && 1 <= x && most == NANO_MAX / least && 2 * (least * x) <= NANO_MAX
    ensures 2 * x <= most
  {
    assert least * (2 * x) == 2 * (least * x);
    assert NANO_MAX < least * (most + 1) by {
      assert NANO_MAX == least * most + NANO_MAX % least;
      assert least * (most + 1) == least * most + least;
    }
    if 2 * x >= most + 1 {
      Scaled(least, most + 1, 2 * x);
    }
  }

  /** After a response the poller is free again, and polls when its wait and the rate limit are over. */
  lemma PollAfterResponse(p: Poller, config: Config, ok: bool, asap: bool, draw: int, now: int, delay: int)
    requires config.minBackoff > 0 && p.enabled && !p.justEnabled && (asap ==> ok)
    ensures var q := Responded(p, config, ok, asap, draw);
      var wait := if !ok then (if config.randomizeBackoff then draw else Backoff(config, p.retryCount))
                  else if p.retryCount > 0 && !asap then draw else p.period;
      var from := if asap then 0 else p.lastPoll;
      && !q.waiting && q.enabled && q.retryCount == (if ok then 0 else p.retryCount + 1)
      && q.asapCount == (if ok then 0 else p.asapCount)
      && (wait != 0 ==> (Due(q, config, now, delay) <==>
            from + wait <= now && (if ok then p.lastPoll else p.lastSuccess) + config.minDelay <= now))
  {
    hide Backoff;
  }

  /** With a period of zero a call that succeeds is not followed by another until one is forced. */
  lemma ZeroPeriodWaits(p: Poller, config: Config, start: int, delay: int, now: int, other: int, draw: int)
    requires config.minBackoff > 0 && Due(p, config, start, delay) && p.period == 0 && p.retryCount == 0 && now < NANO_MAX
    ensures !Due(Responded(Dispatched(p, config, start, delay), config, true, false, draw), config, now, other)
  {
  }

  /** The rate limit counts from the recorded success; only a poll right after enabling ignores it. */
  lemma RateLimitOfRecord(p: Poller, config: Config, now: int, delay: int)
    requires Due(p, config, now, delay) && now < p.lastSuccess + config.minDelay
    ensures p.justEnabled
  {
  }

  /**
   * The comment of dispatch says that the next poll never violates the rate limit.  After a call
   * made at `lastPoll` that succeeds, one comes too soon exactly in two cases: polling was disabled
   * and enabled again while the response was awaited, and the re-enabling delay ends before the
   * limit; or a poll was forced meanwhile, which erases the time of the call, and the clock is past
   * the polling period.  A poll that the callback itself asks for keeps the limit.
   */
  lemma RateLimitExactly(p: Poller, config: Config, forced: bool, asap: bool, draw: int, delay: int)
    requires config.minBackoff > 0 && config.minDelay >= 0
    requires p.waiting && p.lastPoll > 0
    ensures var q := Responded(if forced then PolledAsap(p) else p, config, true, asap, draw);
      (exists now :: p.lastPoll <= now < p.lastPoll + config.minDelay && Due(q, config, now, delay))
        <==> (p.enabled && config.minDelay > 0 &&
              if p.justEnabled then
                (if config.reenableFromLastSuccess
                 then (if forced then 0 else p.lastPoll) + delay < p.lastPoll + config.minDelay
                 else delay <= 0)
              else forced && p.period < p.lastPoll + config.minDelay)
  {
    var q := Responded(if forced then PolledAsap(p) else p, config, true, asap, draw);
    var success := if forced then 0 else p.lastPoll;
    if p.enabled && config.minDelay > 0 {
      if p.justEnabled {
        var now := if config.reenableFromLastSuccess then Max(p.lastPoll, success + delay) else p.lastPoll;
        assert now < p.lastPoll + config.minDelay && (config.reenableFromLastSuccess || delay <= 0) ==>
          Due(q, config, now, delay);
      } else if forced && p.period < p.lastPoll + config.minDelay {
        assert Due(q, config, Max(p.lastPoll, Max(p.period, config.minDelay)), delay);
      }
    }
  }

  /** A call at 1000, a forced poll and a success: with a limit of 10 the next call comes at 1001. */
  lemma ForcedPollComesTooSoon()
    ensures var config := Config(false, 10, 1, 1, false, true);
      var called := Dispatched(Poller(true, false, false, 0, 0, -NANO_MAX - 1, 0, 0, 10), config, 1000, 0);
      && called.waiting && called.lastPoll == 1000
      && Due(Responded(PolledAsap(called), config, true, false, 0), config, 1001, 0)
  {
  }

  /** The same without a forced poll: polling is disabled and enabled again while the response is awaited. */
  lemma ReenabledPollComesTooSoon()
    ensures var config := Config(false, 10, 1, 1, false, true);
      var called := Dispatched(Poller(true, false, false, 0, 0, -NANO_MAX - 1, 0, 0, 10), config, 1000, 0);
      && called.waiting && called.lastPoll == 1000
      && Due(Responded(Enabled(called.(enabled := false)), config, true, false, 0), config, 1001, 0)
  {
  }
}
