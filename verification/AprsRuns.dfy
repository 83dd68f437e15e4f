/**
 Every run of the agent: packets, retry rounds, sends the TNC does not accept and kills at any point, on any wall clock.
 How often a message is sent and when sends are spaced, when a command is executed again, that whatever is done for a
 message follows its own claim, and what the limiter bounds (pcs_aprs_agent.py).
 */
module AprsRuns {
  import opened Basics
  import PyText
  import opened AprsMessages
  import opened ReplySplitter
  import opened StateStore
  import opened StateRuns
  import opened AprsAgent
  import Ax25
  import StateClaims
  import RateLimiter

  /**
   A packet with the provider's answer; a retry round with the page the due query returned; or either of them during
   which the process is killed after so many transactions, a new one starting with the same database.
   */
  datatype Event =
    | Packet(raw: Bytes, ingress: int, provided: Option<string>, readings: Readings)
    | RetryRound(dueAt: real, page: seq<string>, sentAt: seq<real>, accepted: nat)
    | Killed(during: Event, after: nat)

  ghost predicate Possible(t: Tables, e: Event) {
    match e
    case Packet(_, _, _, readings) => |readings.sentAt| >= 99
    case RetryRound(dueAt, page, sentAt, _) => |sentAt| >= |page| && DuePage(t, dueAt, 10, page)
    case Killed(during, _) => Possible(t, during)
  }

  ghost function PacketOutcome(c: Config, t: Tables, history: seq<RateLimiter.Grant>, e: Event): Outcome
    requires ValidConfig(c) && Consistent(c.limits, t) && e.Packet? && Possible(t, e)
  {
    Process(c, t, e.raw, e.ingress, Granted(c, history, e.raw, e.ingress, e.readings), e.provided, e.readings)
  }

  function FirstSteps(steps: seq<Step>, n: nat): seq<Step> { if n < |steps| then steps[..n] else steps }

  ghost function EventSteps(c: Config, t: Tables, history: seq<RateLimiter.Grant>, e: Event): seq<Step>
    requires ValidConfig(c) && Consistent(c.limits, t) && Possible(t, e)
  {
    match e
    case Packet(_, _, _, _) => PacketOutcome(c, t, history, e).steps
    case RetryRound(_, page, sentAt, accepted) => SentSteps(Taken(page, accepted), sentAt)
    case Killed(during, after) => FirstSteps(EventSteps(c, t, history, during), after)
  }

  function CallTimes(call: Option<Call>): seq<nat> { if call.Some? then [call.value.after] else [] }

  /** The calls of the provider, each by the number of transactions of the event before it. */
  ghost function EventCalls(c: Config, t: Tables, history: seq<RateLimiter.Grant>, e: Event): seq<nat>
    requires ValidConfig(c) && Consistent(c.limits, t) && Possible(t, e)
  {
    match e
    case Packet(_, _, _, _) =>
      CallTimes(PacketOutcome(c, t, history, e).call)
    case RetryRound(_, _, _, _) => []
    case Killed(during, after) =>
      var calls := EventCalls(c, t, history, during);
      CallsWithin(calls, after)
  }

  ghost function HistoryAfter(c: Config, history: seq<RateLimiter.Grant>, e: Event): seq<RateLimiter.Grant> {
    match e
    case Packet(raw, ingress, _, r) => GrantsAfter(c, history, raw, ingress, r)
    case RetryRound(_, _, _, _) => history
    case Killed(_, _) => []
  }

  /** The transactions of a run, the grants of the running process's limiter, and the provider calls by position. */
  datatype Progress = Progress(steps: seq<Step>, history: seq<RateLimiter.Grant>, calls: seq<nat>)

  ghost predicate RunOf(c: Config, events: seq<Event>, p: Progress)
    requires ValidConfig(c)
    decreases |events|
  {
    if events == [] then p == Progress([], [], [])
    else
      var rest, e := events[..|events| - 1], events[|events| - 1];
      exists before: Progress :: RunOf(c, rest, before) && Extends(c, before, e, p)
  }

  function Shifted(calls: seq<nat>, n: nat): (r: seq<nat>)
    ensures |r| == |calls| && forall i :: 0 <= i < |calls| ==> r[i] == calls[i] + n
  {
    seq(|calls|, i requires 0 <= i < |calls| => calls[i] + n)
  }

  ghost predicate Extends(c: Config, before: Progress, e: Event, p: Progress)
    requires ValidConfig(c)
  {
    && FromFrames(before.steps)
    && var t := Reached(c.limits, before.steps);
    && Possible(t, e)
    && p.steps == before.steps + EventSteps(c, t, before.history, e)
    && p.history == HistoryAfter(c, before.history, e)
    && p.calls == before.calls + Shifted(EventCalls(c, t, before.history, e), |before.steps|)
  }

  // ---- What the steps of an event are ----

  lemma SentStepsPlain(ids: seq<string>, at: seq<real>)
    requires |ids| <= |at|
    ensures FromFrames(SentSteps(ids, at))
  {
  }

  lemma QueueAndSendPlain(c: Config, t: Tables, recipient: string, bodies: seq<string>, ingress: int, r: Readings)
    requires ValidConfig(c) && Consistent(c.limits, t) && Ax25.Callsign(recipient) && |bodies| <= 99 <= |r.sentAt|
    requires r.accepted > 0
    ensures var steps := QueueAndSend(c, t, recipient, bodies, ingress, r).steps;
      FromFrames(steps) && forall k :: 0 <= k < |steps| ==> steps[k].Queued? || steps[k].Sent?
  {
    hide ValidConfig, Consistent, QueueBatch, ReplyFrames, Ax25.Callsign;
  }

  lemma ExecutePlain(c: Config, t: Tables, message: Message, ingress: int, provided: Option<string>, r: Readings)
    requires ValidConfig(c) && Consistent(c.limits, t) && WellFormed(message) && message.messageId.Some?
    requires |r.sentAt| >= 99 && r.accepted > 0
    ensures var steps, request := Execute(c, t, message, ingress, provided, r).steps, ReadRequest(message.body);
      && FromFrames(steps) && |steps| > 0
      && (forall k :: 0 < k < |steps| ==> !steps[k].Mailed?)
      && (steps[0].Mailed? ==>
            && steps[0].mail.sender == message.sender && Some(steps[0].mail.messageId) == message.messageId
            && request.mailboxText.Some?)
  {
    hide ValidConfig, Consistent, ReadRequest, Respond, SplitReplySpec, QueueAndSend, Run, MessageId, Ax25.Callsign;
    var request := ReadRequest(message.body);
    var steps := HandlingSteps(message, request, r);
    if SplitReplySpec(Respond(request, provided)).Ok? {
      AtMost99(Respond(request, provided));
      var bodies := SplitReplySpec(Respond(request, provided)).value;
      QueueAndSendPlain(c, Run(c.limits, t, steps), message.sender, bodies, ingress, r);
    }
  }

  lemma MailboxTextIsNoCall(message: Message)
    ensures ReadRequest(message.body).mailboxText.Some? ==> CallFor(message) == None
  {
  }

  // ---- Work follows its own claim ----

  /** The k-th step is a claim that the tables it meets answer "new". */
  predicate NewAt(l: Limits, t: Tables, steps: seq<Step>, k: int)
    requires Consistent(l, t) && FromFrames(steps)
  {
    && 0 <= k < |steps| && steps[k].Claimed?
    && Claim(Run(l, t, steps[..k]), l.ttl, steps[k].sender, steps[k].id, steps[k].body, steps[k].at).1 == New
  }

  predicate ClaimFor(claim: Step, mailed: Step)
    requires mailed.Mailed?
  {
    claim.Claimed? && claim.sender == mailed.mail.sender && claim.id == mailed.mail.messageId
  }

  /** A mailbox store directly follows its own new claim, which no provider call answers. */
  predicate MailedOk(l: Limits, t: Tables, steps: seq<Step>, calls: seq<nat>, k: int)
    requires Consistent(l, t) && FromFrames(steps)
  {
    0 <= k < |steps| && steps[k].Mailed? ==>
      k > 0 && NewAt(l, t, steps, k - 1) && ClaimFor(steps[k - 1], steps[k]) && k !in calls
  }

  predicate CallOk(l: Limits, t: Tables, steps: seq<Step>, q: nat)
    requires Consistent(l, t) && FromFrames(steps)
  {
    0 < q <= |steps| && NewAt(l, t, steps, q - 1)
  }

  /** Each mailbox store and each provider call directly follows a new claim of its own. */
  predicate Worked(l: Limits, t: Tables, steps: seq<Step>, calls: seq<nat>)
    requires Consistent(l, t) && FromFrames(steps)
  {
    && (forall k :: 0 <= k < |steps| ==> MailedOk(l, t, steps, calls, k))
    && |calls| <= 1 && (forall i :: 0 <= i < |calls| ==> CallOk(l, t, steps, calls[i]))
  }

  function CallsWithin(calls: seq<nat>, n: nat): seq<nat> { if calls != [] && calls[0] > n then [] else calls }

  lemma WorkedCut(l: Limits, t: Tables, steps: seq<Step>, calls: seq<nat>, n: nat)
    requires Consistent(l, t) && FromFrames(steps) && Worked(l, t, steps, calls)
    ensures FromFrames(FirstSteps(steps, n))
    ensures Worked(l, t, FirstSteps(steps, n), CallsWithin(calls, n))
  {
    var cut, some := FirstSteps(steps, n), CallsWithin(calls, n);
    assert FromFrames(cut) by { hide NewAt, Consistent; }
    hide NewAt, FromFrames, Consistent, MailedOk, CallOk, Ax25.Callsign;
    forall k | 0 <= k < |cut| ensures MailedOk(l, t, cut, some, k) {
      MailedCut(l, t, steps, calls, n, k);
    }
    if some != [] {
      CallCut(l, t, steps, n, some[0]);
    }
  }

  lemma NewCut(l: Limits, t: Tables, steps: seq<Step>, n: nat, k: int)
    requires Consistent(l, t) && FromFrames(steps) && FromFrames(FirstSteps(steps, n)) && k < |FirstSteps(steps, n)|
    requires NewAt(l, t, steps, k)
    ensures NewAt(l, t, FirstSteps(steps, n), k)
  {
    hide Consistent, FromFrames, Run;
    assert FirstSteps(steps, n)[..k] == steps[..k];
  }

  lemma MailedCut(l: Limits, t: Tables, steps: seq<Step>, calls: seq<nat>, n: nat, k: int)
    requires Consistent(l, t) && FromFrames(steps) && FromFrames(FirstSteps(steps, n)) && 0 <= k < |FirstSteps(steps, n)|
    requires MailedOk(l, t, steps, calls, k)
    ensures MailedOk(l, t, FirstSteps(steps, n), CallsWithin(calls, n), k)
  {
    hide Consistent, FromFrames, NewAt;
    if steps[k].Mailed? {
      NewCut(l, t, steps, n, k - 1);
    }
  }

  lemma CallCut(l: Limits, t: Tables, steps: seq<Step>, n: nat, q: nat)
    requires Consistent(l, t) && FromFrames(steps) && FromFrames(FirstSteps(steps, n)) && q <= n
    requires CallOk(l, t, steps, q)
    ensures CallOk(l, t, FirstSteps(steps, n), q)
  {
    hide Consistent, FromFrames, NewAt;
    NewCut(l, t, steps, n, q - 1);
  }

  lemma ReceiptsThenNew(c: Config, t: Tables, receipts: seq<Step>, handled: seq<Step>, calls: seq<nat>)
    requires Consistent(c.limits, t) && FromFrames(receipts) && FromFrames(handled)
    requires forall i :: 0 <= i < |receipts| ==> receipts[i].ReceiptSeen?
    requires Worked(c.limits, Run(c.limits, t, receipts), handled, calls)
    ensures FromFrames(receipts + handled)
    ensures Worked(c.limits, t, receipts + handled, Shifted(calls, |receipts|))
  {
    hide NewAt, Consistent, Run, FromFrames, MailedOk, CallOk;
    FramesAppend(receipts, handled);
    ReceiptsThenMail(c.limits, t, receipts, handled, calls);
    forall i | 0 <= i < |calls| ensures CallOk(c.limits, t, receipts + handled, Shifted(calls, |receipts|)[i]) {
      CallLater(c.limits, t, receipts, handled, calls[i]);
    }
  }

  lemma FramesAppend(a: seq<Step>, b: seq<Step>)
    requires FromFrames(a) && FromFrames(b)
    ensures FromFrames(a + b)
  {
    hide Ax25.Callsign;
  }

  lemma ReceiptsThenMail(l: Limits, t: Tables, receipts: seq<Step>, handled: seq<Step>, calls: seq<nat>)
    requires Consistent(l, t) && FromFrames(receipts) && FromFrames(handled) && FromFrames(receipts + handled)
    requires forall i :: 0 <= i < |receipts| ==> receipts[i].ReceiptSeen?
    requires forall k :: 0 <= k < |handled| ==> MailedOk(l, Run(l, t, receipts), handled, calls, k)
    ensures forall k :: 0 <= k < |receipts + handled| ==> MailedOk(l, t, receipts + handled, Shifted(calls, |receipts|), k)
  {
    hide NewAt, Consistent, Run, FromFrames, MailedOk, Ax25.Callsign, Shifted;
    forall k | 0 <= k < |receipts + handled|
      ensures MailedOk(l, t, receipts + handled, Shifted(calls, |receipts|), k) {
      if k < |receipts| {
        NoMail(l, t, receipts + handled, Shifted(calls, |receipts|), k);
      } else {
        MailedLater(l, t, receipts, handled, calls, k - |receipts|);
      }
    }
  }

  lemma NoMail(l: Limits, t: Tables, steps: seq<Step>, calls: seq<nat>, k: int)
    requires Consistent(l, t) && FromFrames(steps) && 0 <= k < |steps| && !steps[k].Mailed?
    ensures MailedOk(l, t, steps, calls, k)
  {
    hide NewAt, Consistent, FromFrames;
  }

  lemma MailedLater(l: Limits, t: Tables, a: seq<Step>, b: seq<Step>, calls: seq<nat>, k: nat)
    requires Consistent(l, t) && FromFrames(a) && FromFrames(b) && FromFrames(a + b) && k < |b|
    requires MailedOk(l, Run(l, t, a), b, calls, k)
    ensures MailedOk(l, t, a + b, Shifted(calls, |a|), |a| + k)
  {
    hide Consistent, FromFrames, Run, NewAt;
    if b[k].Mailed? {
      NewAppended(l, t, a, b, k - 1);
    }
  }

  lemma CallLater(l: Limits, t: Tables, a: seq<Step>, b: seq<Step>, q: nat)
    requires Consistent(l, t) && FromFrames(a) && FromFrames(b) && FromFrames(a + b)
    requires CallOk(l, Run(l, t, a), b, q)
    ensures CallOk(l, t, a + b, |a| + q)
  {
    hide Consistent, FromFrames, Run, NewAt;
    NewAppended(l, t, a, b, q - 1);
  }

  lemma NewAppended(l: Limits, t: Tables, a: seq<Step>, b: seq<Step>, k: nat)
    requires Consistent(l, t) && FromFrames(a) && FromFrames(b) && FromFrames(a + b) && k < |b|
    ensures NewAt(l, t, a + b, |a| + k) == NewAt(l, Run(l, t, a), b, k)
  {
    hide Consistent;
    assert (a + b)[..|a| + k] == a + b[..k] && (a + b)[|a| + k] == b[k];
    assert FromFrames(b[..k]);
    hide Run, FromFrames;
    RunSplit(l, t, a, b[..k]);
  }

  lemma HandleWorked(c: Config, t: Tables, message: Message, ingress: int, provided: Option<string>, r: Readings)
    requires ValidConfig(c) && Consistent(c.limits, t) && WellFormed(message) && message.messageId.Some?
    requires |r.sentAt| >= 99 && r.accepted > 0
    ensures var o := Handle(c, t, message, ingress, provided, r);
      FromFrames(o.steps) && Worked(c.limits, t, o.steps, CallTimes(o.call))
  {
    hide ValidConfig, Consistent, ReadRequest, Execute, Apply, MessageId, Ax25.Callsign;
    var claim, o := ClaimStep(message, r), Handle(c, t, message, ingress, provided, r);
    assert o.steps[0] == claim;
    assert o.steps[..0] == [];
    RunNone(c.limits, t);
    if Claim(t, c.limits.ttl, claim.sender, claim.id, claim.body, claim.at).1 == New {
      ApplyKeeps(c.limits, t, claim);
      var executed := Execute(c, Apply(c.limits, t, claim), message, ingress, provided, r);
      ExecutePlain(c, Apply(c.limits, t, claim), message, ingress, provided, r);
      MailboxTextIsNoCall(message);
      ExecuteCall(c, Apply(c.limits, t, claim), message, ingress, provided, r);
      assert o.steps == [claim] + executed.steps;
      assert forall k :: 0 < k < |o.steps| ==> o.steps[k] == executed.steps[k - 1];
      assert NewAt(c.limits, t, o.steps, 0);
    }
  }

  lemma ExecuteCall(c: Config, t: Tables, message: Message, ingress: int, provided: Option<string>, r: Readings)
    requires ValidConfig(c) && Consistent(c.limits, t) && WellFormed(message) && message.messageId.Some?
    requires |r.sentAt| >= 99 && r.accepted > 0
    ensures Execute(c, t, message, ingress, provided, r).call == CallFor(message)
    ensures CallFor(message).Some? ==> CallFor(message).value.after == 0
  {
    hide ValidConfig, Consistent, ReadRequest, Respond, SplitReplySpec, QueueAndSend, Run, MessageId, Ax25.Callsign;
  }

  lemma ReceiptsOnly(l: Limits, t: Tables, receipts: seq<Step>)
    requires Consistent(l, t) && forall i :: 0 <= i < |receipts| ==> receipts[i].ReceiptSeen?
    ensures FromFrames(receipts) && Worked(l, t, receipts, [])
  {
    hide Consistent, NewAt;
  }

  lemma PacketWorked(c: Config, t: Tables, raw: Bytes, ingress: int, granted: bool, provided: Option<string>, r: Readings)
    requires ValidConfig(c) && Consistent(c.limits, t) && |r.sentAt| >= 99
    ensures var o := Process(c, t, raw, ingress, granted, provided, r);
      FromFrames(o.steps) && Worked(c.limits, t, o.steps, CallTimes(o.call))
  {
    hide ValidConfig, Consistent, Accept, Handle, Run, NewAt, MessageId, Ax25.Callsign, AckFrame, ParseReceipt;
    if Accept(c, raw, ingress).Some? {
      AcceptedSender(c, raw, ingress);
      var message := Accept(c, raw, ingress).value;
      var receipts := ReceiptSteps(message, r);
      if message.messageId.Some? && r.accepted > 0 && granted {
        var t1 := Run(c.limits, t, receipts);
        var handled := Handle(c, t1, message, ingress, provided, r);
        HandleWorked(c, t1, message, ingress, provided, r);
        ReceiptsThenNew(c, t, receipts, handled.steps, CallTimes(handled.call));
        assert CallTimes(Later(handled.call, |receipts|)) == Shifted(CallTimes(handled.call), |receipts|);
      } else {
        ReceiptsOnly(c.limits, t, receipts);
      }
    } else {
      ReceiptsOnly(c.limits, t, []);
    }
  }

  lemma EventWorked(c: Config, t: Tables, history: seq<RateLimiter.Grant>, e: Event)
    requires ValidConfig(c) && Consistent(c.limits, t) && Possible(t, e)
    ensures FromFrames(EventSteps(c, t, history, e))
    ensures Worked(c.limits, t, EventSteps(c, t, history, e), EventCalls(c, t, history, e))
  {
    hide ValidConfig, Consistent, NewAt, Process, DuePage, Granted;
    match e
    case Packet(raw, ingress, provided, r) =>
      PacketWorked(c, t, raw, ingress, Granted(c, history, raw, ingress, r), provided, r);
    case RetryRound(_, page, sentAt, accepted) => SentStepsPlain(Taken(page, accepted), sentAt);
    case Killed(during, after) =>
      EventWorked(c, t, history, during);
      WorkedCut(c.limits, t, EventSteps(c, t, history, during), EventCalls(c, t, history, during), after);
  }

  // ---- Over a run ----

  /** The mailbox store at this place directly follows its own new claim, which no provider call answers. */
  predicate StoredOk(ttl: real, steps: seq<Step>, calls: seq<nat>, k: int) {
    0 <= k < |steps| && steps[k].Mailed? ==>
      k > 0 && StateClaims.Executes(ttl, steps, k - 1) && ClaimFor(steps[k - 1], steps[k]) && k !in calls
  }

  predicate CalledOk(ttl: real, steps: seq<Step>, q: nat) {
    0 < q <= |steps| && StateClaims.Executes(ttl, steps, q - 1)
  }

  /** Each mailbox store and each provider call of the run directly follows a new claim that belongs to it alone. */
  predicate OwnClaims(ttl: real, steps: seq<Step>, calls: seq<nat>) {
    && (forall k :: 0 <= k < |steps| ==> StoredOk(ttl, steps, calls, k))
    && (forall i :: 0 <= i < |calls| ==> CalledOk(ttl, steps, calls[i]))
    && (forall i, j :: 0 <= i < j < |calls| ==> calls[i] < calls[j])
  }

  lemma ReachedSplit(l: Limits, a: seq<Step>, b: seq<Step>)
    requires FromFrames(a) && FromFrames(b)
    ensures FromFrames(a + b) && Reached(l, a + b) == Run(l, Reached(l, a), b)
  {
    EmptyConsistent(l);
    hide Consistent, Run, FromFrames;
    RunSplit(l, EMPTY, a, b);
  }

  lemma ExecutesAppended(l: Limits, a: seq<Step>, b: seq<Step>, k: nat)
    requires FromFrames(a) && FromFrames(b) && k < |b| && NewAt(l, Reached(l, a), b, k)
    ensures StateClaims.Executes(l.ttl, a + b, |a| + k)
  {
    hide *;
    FramesAppend(a, b);
    PrefixOfSum(a, b, k);
    NewIs(l, Reached(l, a), b, k);
    ReachedSplit(l, a, b[..k]);
    StateClaims.ExecutesIsNew(l, a + b, |a| + k);
  }

  lemma NewIs(l: Limits, t: Tables, steps: seq<Step>, k: nat)
    requires Consistent(l, t) && FromFrames(steps) && NewAt(l, t, steps, k)
    ensures k < |steps| && steps[k].Claimed? && FromFrames(steps[..k])
    ensures Claim(Run(l, t, steps[..k]), l.ttl, steps[k].sender, steps[k].id, steps[k].body, steps[k].at).1 == New
  {
    hide Claim, Run, Ax25.Callsign, Consistent;
  }

  lemma PrefixOfSum(a: seq<Step>, b: seq<Step>, k: nat)
    requires k < |b| && FromFrames(b)
    ensures (a + b)[..|a| + k] == a + b[..k] && (a + b)[|a| + k] == b[k] && FromFrames(b[..k])
  {
    hide Ax25.Callsign;
  }

  lemma StoredEarlier(l: Limits, a: seq<Step>, b: seq<Step>, calls: seq<nat>, more: seq<nat>, k: nat)
    requires FromFrames(a) && FromFrames(b) && k < |a|
    requires OwnClaims(l.ttl, a, calls) && Worked(l, Reached(l, a), b, more)
    ensures StoredOk(l.ttl, a + b, calls + Shifted(more, |a|), k)
  {
    CallsAfter(l, Reached(l, a), b, more, |a|);
    assert StoredOk(l.ttl, a, calls, k);
    hide StateClaims.Executes, Worked, Reached, OwnClaims, FromFrames;
    if a[k].Mailed? {
      assert (a + b)[..|a|] == a;
      StateClaims.ExecutesPrefix(l.ttl, a + b, k - 1, |a|);
    }
  }

  lemma StoredLater(l: Limits, a: seq<Step>, b: seq<Step>, calls: seq<nat>, more: seq<nat>, k: nat)
    requires FromFrames(a) && FromFrames(b) && k < |b|
    requires OwnClaims(l.ttl, a, calls) && Worked(l, Reached(l, a), b, more)
    ensures StoredOk(l.ttl, a + b, calls + Shifted(more, |a|), |a| + k)
  {
    hide *;
    CallsBefore(l.ttl, a, calls);
    var all, later := a + b, calls + Shifted(more, |a|);
    if b[k].Mailed? {
      MailIsNew(l, Reached(l, a), b, more, k);
      ExecutesAppended(l, a, b, k - 1);
      assert all[|a| + k] == b[k] && all[|a| + k - 1] == b[k - 1];
      assert |a| + k !in Shifted(more, |a|);
      assert |a| + k !in calls;
      assert |a| + k !in later;
    }
    StoredIf(l.ttl, all, later, |a| + k);
  }

  lemma MailIsNew(l: Limits, t: Tables, steps: seq<Step>, calls: seq<nat>, k: nat)
    requires Consistent(l, t) && FromFrames(steps) && Worked(l, t, steps, calls) && k < |steps| && steps[k].Mailed?
    ensures k > 0 && NewAt(l, t, steps, k - 1) && ClaimFor(steps[k - 1], steps[k]) && k !in calls
  {
    hide NewAt, CallOk, FromFrames, Consistent;
    assert MailedOk(l, t, steps, calls, k);
  }

  lemma StoredIf(ttl: real, steps: seq<Step>, calls: seq<nat>, k: nat)
    requires k < |steps| && (steps[k].Mailed? ==>
      k > 0 && StateClaims.Executes(ttl, steps, k - 1) && ClaimFor(steps[k - 1], steps[k]) && k !in calls)
    ensures StoredOk(ttl, steps, calls, k)
  {
    hide StateClaims.Executes;
  }

  lemma CalledEarlier(l: Limits, a: seq<Step>, b: seq<Step>, calls: seq<nat>, i: nat)
    requires OwnClaims(l.ttl, a, calls) && i < |calls|
    ensures CalledOk(l.ttl, a + b, calls[i])
  {
    assert CalledOk(l.ttl, a, calls[i]);
    hide StateClaims.Executes, OwnClaims;
    assert (a + b)[..|a|] == a;
    StateClaims.ExecutesPrefix(l.ttl, a + b, calls[i] - 1, |a|);
  }

  lemma CalledLater(l: Limits, a: seq<Step>, b: seq<Step>, more: seq<nat>, i: nat)
    requires FromFrames(a) && FromFrames(b) && Worked(l, Reached(l, a), b, more) && i < |more|
    ensures CalledOk(l.ttl, a + b, Shifted(more, |a|)[i])
  {
    hide *;
    CallIsNew(l, Reached(l, a), b, more, i);
    ExecutesAppended(l, a, b, more[i] - 1);
    CalledIf(l.ttl, a + b, |a| + more[i]);
  }

  lemma CallIsNew(l: Limits, t: Tables, steps: seq<Step>, calls: seq<nat>, i: nat)
    requires Consistent(l, t) && FromFrames(steps) && Worked(l, t, steps, calls) && i < |calls|
    ensures 0 < calls[i] <= |steps| && NewAt(l, t, steps, calls[i] - 1)
  {
    hide NewAt, MailedOk, FromFrames, Consistent;
    assert CallOk(l, t, steps, calls[i]);
  }

  lemma CalledIf(ttl: real, steps: seq<Step>, q: nat)
    requires 0 < q <= |steps| && StateClaims.Executes(ttl, steps, q - 1)
    ensures CalledOk(ttl, steps, q)
  {
    hide StateClaims.Executes;
  }

  lemma CallsBefore(ttl: real, a: seq<Step>, calls: seq<nat>)
    requires OwnClaims(ttl, a, calls)
    ensures forall q :: q in calls ==> q <= |a|
    ensures forall i :: 0 <= i < |calls| ==> calls[i] <= |a|
  {
    hide StateClaims.Executes, StoredOk;
  }

  lemma CallsAfter(l: Limits, t: Tables, b: seq<Step>, more: seq<nat>, n: nat)
    requires Consistent(l, t) && FromFrames(b) && Worked(l, t, b, more)
    ensures forall q :: q in Shifted(more, n) ==> q > n
    ensures forall i :: 0 <= i < |more| ==> Shifted(more, n)[i] > n
  {
    hide NewAt, MailedOk, FromFrames, Consistent;
  }

  lemma CallsOrdered(l: Limits, a: seq<Step>, b: seq<Step>, calls: seq<nat>, more: seq<nat>)
    requires FromFrames(a) && FromFrames(b) && OwnClaims(l.ttl, a, calls) && Worked(l, Reached(l, a), b, more)
    ensures var all := calls + Shifted(more, |a|); forall i, j :: 0 <= i < j < |all| ==> all[i] < all[j]
  {
    CallsBefore(l.ttl, a, calls);
    CallsAfter(l, Reached(l, a), b, more, |a|);
    assert |more| <= 1 && forall i, j :: 0 <= i < j < |calls| ==> calls[i] < calls[j];
    hide *;
  }

  lemma OwnAppend(l: Limits, a: seq<Step>, b: seq<Step>, calls: seq<nat>, more: seq<nat>)
    requires FromFrames(a) && FromFrames(b) && OwnClaims(l.ttl, a, calls) && Worked(l, Reached(l, a), b, more)
    ensures FromFrames(a + b) && OwnClaims(l.ttl, a + b, calls + Shifted(more, |a|))
  {
    hide *;
    FramesAppend(a, b);
    var steps, all := a + b, calls + Shifted(more, |a|);
    forall k | 0 <= k < |steps| ensures StoredOk(l.ttl, steps, all, k) {
      if k < |a| {
        StoredEarlier(l, a, b, calls, more, k);
      } else {
        StoredLater(l, a, b, calls, more, k - |a|);
      }
    }
    forall i | 0 <= i < |all| ensures CalledOk(l.ttl, steps, all[i]) {
      if i < |calls| {
        CalledEarlier(l, a, b, calls, i);
      } else {
        CalledLater(l, a, b, more, i - |calls|);
      }
    }
    CallsOrdered(l, a, b, calls, more);
    OwnFrom(l.ttl, steps, all);
  }

  lemma OwnFrom(ttl: real, steps: seq<Step>, calls: seq<nat>)
    requires forall k :: 0 <= k < |steps| ==> StoredOk(ttl, steps, calls, k)
    requires forall i :: 0 <= i < |calls| ==> CalledOk(ttl, steps, calls[i])
    requires forall i, j :: 0 <= i < j < |calls| ==> calls[i] < calls[j]
    ensures OwnClaims(ttl, steps, calls)
  {
    hide StoredOk, CalledOk;
  }

  lemma {:induction false} RunOwnsClaims(c: Config, events: seq<Event>, p: Progress)
    requires ValidConfig(c) && RunOf(c, events, p)
    ensures FromFrames(p.steps) && OwnClaims(c.limits.ttl, p.steps, p.calls)
    decreases |events|
  {
    if events != [] {
      var rest, e := events[..|events| - 1], events[|events| - 1];
      var before: Progress :| RunOf(c, rest, before) && Extends(c, before, e, p);
      RunOwnsClaims(c, rest, before);
      hide ValidConfig, Consistent, Reached, RunOf, FromFrames, EventSteps, EventCalls, HistoryAfter, Possible;
      var t := Reached(c.limits, before.steps);
      EventWorked(c, t, before.history, e);
      hide Worked, OwnClaims;
      OwnAppend(c.limits, before.steps, EventSteps(c, t, before.history, e), before.calls, EventCalls(c, t, before.history, e));
    }
  }

  // ---- When sends are spaced ----

  lemma SendSnoc(l: Limits, t: Tables, steps: seq<Step>, last: Step)
    requires Consistent(l, t) && FromFrames(steps) && last.Sent?
    ensures FromFrames(steps + [last])
    ensures DueSends(l, t, steps + [last]) <==> DueSends(l, t, steps) && SendsWhenDue(Run(l, t, steps), last)
  {
    hide Consistent, Run, SendsWhenDue;
    assert (steps + [last])[..|steps|] == steps;
  }

  /** The row of each listed message was never sent, or is due by the reading its record will take. */
  predicate OnTime(t: Tables, ids: seq<string>, at: seq<real>)
    requires |ids| <= |at|
  {
    forall i :: 0 <= i < |ids| ==> ids[i] in t.outbound && (t.outbound[ids[i]].attempts == 0 || DueAt(t, ids[i], at[i]))
  }

  /** Messages of a due page, or just queued. */
  predicate Listed(t: Tables, ids: seq<string>) {
    Distinct(ids) && forall i :: 0 <= i < |ids| ==>
      ids[i] in t.outbound && (t.outbound[ids[i]].state == Pending || t.outbound[ids[i]].attempts == 0)
  }

  lemma OnTimeSnoc(t: Tables, ids: seq<string>, at: seq<real>)
    requires ids != [] && |ids| <= |at| && Listed(t, ids)
    ensures var n := |ids| - 1;
      && Listed(t, ids[..n]) && ids[n] !in ids[..n] && ids[n] in t.outbound
      && (OnTime(t, ids, at) <==> OnTime(t, ids[..n], at) && SendsWhenDue(t, Sent(ids[n], at[n])))
  {
    hide DueAt;
    var n := |ids| - 1;
    assert forall i :: 0 <= i < n ==> ids[..n][i] == ids[i];
  }

  lemma SameRowSame(t: Tables, t': Tables, step: Step)
    requires step.Sent? && step.messageId in t.outbound && step.messageId in t'.outbound
    requires t'.outbound[step.messageId] == t.outbound[step.messageId]
    ensures SendsWhenDue(t', step) <==> SendsWhenDue(t, step)
  {
  }

  /** A round of sends is spaced exactly when every row in it is due by the reading that its own record takes. */
  lemma {:induction false} RoundSpacedExactly(l: Limits, t: Tables, ids: seq<string>, at: seq<real>)
    requires Consistent(l, t) && |ids| <= |at| && Listed(t, ids)
    ensures FromFrames(SentSteps(ids, at))
    ensures DueSends(l, t, SentSteps(ids, at)) <==> OnTime(t, ids, at)
    decreases |ids|
  {
    SentStepsPlain(ids, at);
    if ids == [] {
      hide Consistent;
    } else {
      var n := |ids| - 1;
      var earlier, last := SentSteps(ids[..n], at), Sent(ids[n], at[n]);
      assert SentSteps(ids, at) == earlier + [last];
      OnTimeSnoc(t, ids, at);
      hide *;
      RoundSpacedExactly(l, t, ids[..n], at);
      SentRunKeeps(l, t, ids[..n], at, ids[n]);
      SameRowSame(t, Run(l, t, earlier), last);
      SendSnoc(l, t, earlier, last);
    }
  }

  lemma DueLast(l: Limits, t: Tables, steps: seq<Step>)
    requires Consistent(l, t) && FromFrames(steps) && steps != []
    ensures var rest, last := steps[..|steps| - 1], steps[|steps| - 1];
      FromFrames(rest) && (DueSends(l, t, steps) <==> DueSends(l, t, rest) && SendsWhenDue(Run(l, t, rest), last))
  {
    hide Consistent, Run, SendsWhenDue;
  }

  lemma {:induction false} DueAppend(l: Limits, t: Tables, a: seq<Step>, b: seq<Step>)
    requires Consistent(l, t) && FromFrames(a) && FromFrames(b)
    requires DueSends(l, t, a) && DueSends(l, Run(l, t, a), b)
    ensures FromFrames(a + b) && DueSends(l, t, a + b)
    decreases |b|
  {
    hide *;
    FramesAppend(a, b);
    if b == [] {
      assert a + b == a;
    } else {
      var rest, last := b[..|b| - 1], b[|b| - 1];
      DueLast(l, Run(l, t, a), b);
      DueAppend(l, t, a, rest);
      RunSplit(l, t, a, rest);
      assert (a + b)[..|a + b| - 1] == a + rest && (a + b)[|a + b| - 1] == last;
      DueLast(l, t, a + b);
    }
  }

  lemma {:induction false} NoSendsDue(l: Limits, t: Tables, steps: seq<Step>)
    requires Consistent(l, t) && FromFrames(steps)
    requires forall i :: 0 <= i < |steps| ==> !steps[i].Sent?
    ensures DueSends(l, t, steps)
  {
    hide Run, Consistent;
    if steps != [] {
      NoSendsDue(l, t, steps[..|steps| - 1]);
    }
  }

  lemma {:induction false} DueCut(l: Limits, t: Tables, steps: seq<Step>, n: nat)
    requires Consistent(l, t) && FromFrames(steps) && DueSends(l, t, steps) && n <= |steps|
    ensures FromFrames(steps[..n]) && DueSends(l, t, steps[..n])
    decreases |steps|
  {
    hide Run, Consistent, SendsWhenDue;
    if n < |steps| {
      var rest := steps[..|steps| - 1];
      DueCut(l, t, rest, n);
      assert rest[..n] == steps[..n];
    } else {
      assert steps[..n] == steps;
    }
  }

  /** The retry rounds record their sends at readings no earlier than that of their due query. */
  predicate Punctual(e: Event) {
    match e
    case Packet(_, _, _, _) => true
    case RetryRound(dueAt, _, sentAt, _) => forall i :: 0 <= i < |sentAt| ==> dueAt <= sentAt[i]
    case Killed(during, _) => Punctual(during)
  }

  lemma QueueSendsDue(c: Config, t: Tables, recipient: string, bodies: seq<string>, ingress: int, r: Readings)
    requires ValidConfig(c) && Consistent(c.limits, t) && Ax25.Callsign(recipient) && |bodies| <= 99 <= |r.sentAt|
    requires r.accepted > 0
    ensures var steps := QueueAndSend(c, t, recipient, bodies, ingress, r).steps;
      FromFrames(steps) && DueSends(c.limits, t, steps)
  {
    hide ValidConfig, Consistent, QueueBatch, Run, DueSends, ReplyFrames, Ax25.Callsign;
    var queue := Queued(recipient, bodies, ingress, r.queueAt);
    NoSendsDue(c.limits, t, [queue]);
    if QueueBatch(t, recipient, bodies, c.limits.maximumPending, ingress, r.queueAt).Ok? {
      var (t', queued) := QueueBatch(t, recipient, bodies, c.limits.maximumPending, ingress, r.queueAt).value;
      QueuedDeliverable(c.limits, t, recipient, bodies, ingress, r.queueAt);
      var taken := Taken(Ids(queued), r.accepted - 1);
      assert QueueAndSend(c, t, recipient, bodies, ingress, r).steps == [queue] + SentSteps(taken, r.sentAt);
      assert Apply(c.limits, t, queue) == t';
      assert Distinct(taken) && forall i :: 0 <= i < |taken| ==> taken[i] in t'.outbound && t'.outbound[taken[i]].attempts == 0;
      hide *;
      RunOne(c.limits, t, queue);
      FreshOnTime(c.limits, t', taken, r.sentAt);
      DueAppend(c.limits, t, [queue], SentSteps(taken, r.sentAt));
    }
  }

  lemma FreshOnTime(l: Limits, t: Tables, ids: seq<string>, at: seq<real>)
    requires Consistent(l, t) && Distinct(ids) && |ids| <= |at|
    requires forall i :: 0 <= i < |ids| ==> ids[i] in t.outbound && t.outbound[ids[i]].attempts == 0
    ensures FromFrames(SentSteps(ids, at)) && DueSends(l, t, SentSteps(ids, at))
  {
    assert Listed(t, ids) && OnTime(t, ids, at) by { hide Consistent, Distinct; }
    hide *;
    RoundSpacedExactly(l, t, ids, at);
  }

  lemma ExecuteSendsDue(c: Config, t: Tables, message: Message, ingress: int, provided: Option<string>, r: Readings)
    requires ValidConfig(c) && Consistent(c.limits, t) && WellFormed(message) && message.messageId.Some?
    requires |r.sentAt| >= 99 && r.accepted > 0
    ensures var steps := Execute(c, t, message, ingress, provided, r).steps;
      FromFrames(steps) && DueSends(c.limits, t, steps)
  {
    hide ValidConfig, Consistent, ReadRequest, Respond, SplitReplySpec, QueueAndSend, Run, DueSends, MessageId, Ax25.Callsign;
    var request := ReadRequest(message.body);
    var steps := HandlingSteps(message, request, r);
    NoSendsDue(c.limits, t, steps);
    if SplitReplySpec(Respond(request, provided)).Ok? {
      AtMost99(Respond(request, provided));
      var bodies := SplitReplySpec(Respond(request, provided)).value;
      var t1 := Run(c.limits, t, steps);
      QueueSendsDue(c, t1, message.sender, bodies, ingress, r);
      DueAppend(c.limits, t, steps, QueueAndSend(c, t1, message.sender, bodies, ingress, r).steps);
    }
  }

  lemma HandleSendsDue(c: Config, t: Tables, message: Message, ingress: int, provided: Option<string>, r: Readings)
    requires ValidConfig(c) && Consistent(c.limits, t) && WellFormed(message) && message.messageId.Some?
    requires |r.sentAt| >= 99 && r.accepted > 0
    ensures var steps := Handle(c, t, message, ingress, provided, r).steps;
      FromFrames(steps) && DueSends(c.limits, t, steps)
  {
    hide ValidConfig, Consistent, ReadRequest, Execute, Apply, Run, Claim, DueSends, MessageId, Ax25.Callsign;
    var claim := ClaimStep(message, r);
    NoSendsDue(c.limits, t, [claim]);
    RunOne(c.limits, t, claim);
    if Claim(t, c.limits.ttl, claim.sender, claim.id, claim.body, claim.at).1 == New {
      ApplyKeeps(c.limits, t, claim);
      var t1 := Apply(c.limits, t, claim);
      ExecuteSendsDue(c, t1, message, ingress, provided, r);
      DueAppend(c.limits, t, [claim], Execute(c, t1, message, ingress, provided, r).steps);
    }
  }

  /** A packet sends only what it has just queued, so its sends are always spaced. */
  lemma PacketSendsDue(c: Config, t: Tables, raw: Bytes, ingress: int, granted: bool, provided: Option<string>, r: Readings)
    requires ValidConfig(c) && Consistent(c.limits, t) && |r.sentAt| >= 99
    ensures var steps := Process(c, t, raw, ingress, granted, provided, r).steps;
      FromFrames(steps) && DueSends(c.limits, t, steps)
  {
    hide ValidConfig, Consistent, Accept, Handle, Run, DueSends, MessageId, Ax25.Callsign, AckFrame, ParseReceipt;
    if Accept(c, raw, ingress).Some? {
      AcceptedSender(c, raw, ingress);
      var message := Accept(c, raw, ingress).value;
      var receipts := ReceiptSteps(message, r);
      NoSendsDue(c.limits, t, receipts);
      if message.messageId.Some? && r.accepted > 0 && granted {
        var t1 := Run(c.limits, t, receipts);
        HandleSendsDue(c, t1, message, ingress, provided, r);
        DueAppend(c.limits, t, receipts, Handle(c, t1, message, ingress, provided, r).steps);
      }
    } else {
      NoSendsDue(c.limits, t, []);
    }
  }

  /** What one retry round records is spaced exactly when each row it sends is due by the record's own reading. */
  lemma RetrySpacedExactly(l: Limits, t: Tables, dueAt: real, page: seq<string>, at: seq<real>, accepted: nat)
    requires Consistent(l, t) && |page| <= |at| && DuePage(t, dueAt, 10, page)
    ensures FromFrames(SentSteps(Taken(page, accepted), at))
    ensures DueSends(l, t, SentSteps(Taken(page, accepted), at)) <==> OnTime(t, Taken(page, accepted), at)
  {
    assert Listed(t, Taken(page, accepted)) by { hide Consistent; }
    hide *;
    RoundSpacedExactly(l, t, Taken(page, accepted), at);
  }

  lemma PunctualIsOnTime(t: Tables, dueAt: real, page: seq<string>, at: seq<real>, accepted: nat)
    requires |page| <= |at| && DuePage(t, dueAt, 10, page) && forall i :: 0 <= i < |at| ==> dueAt <= at[i]
    ensures OnTime(t, Taken(page, accepted), at)
  {
  }

  lemma EventSendsDue(c: Config, t: Tables, history: seq<RateLimiter.Grant>, e: Event)
    requires ValidConfig(c) && Consistent(c.limits, t) && Possible(t, e) && Punctual(e)
    ensures FromFrames(EventSteps(c, t, history, e)) && DueSends(c.limits, t, EventSteps(c, t, history, e))
  {
    hide ValidConfig, Consistent, DueSends, DuePage, Process, Granted, FromFrames;
    match e
    case Packet(raw, ingress, provided, r) =>
      PacketSendsDue(c, t, raw, ingress, Granted(c, history, raw, ingress, r), provided, r);
    case RetryRound(dueAt, page, sentAt, accepted) =>
      PunctualIsOnTime(t, dueAt, page, sentAt, accepted);
      RetrySpacedExactly(c.limits, t, dueAt, page, sentAt, accepted);
    case Killed(during, after) =>
      EventSendsDue(c, t, history, during);
      var steps := EventSteps(c, t, history, during);
      DueCut(c.limits, t, steps, if after < |steps| then after else |steps|);
      assert steps[..|steps|] == steps;
  }

  lemma {:induction false} RunSendsDue(c: Config, events: seq<Event>, p: Progress)
    requires ValidConfig(c) && RunOf(c, events, p) && forall i :: 0 <= i < |events| ==> Punctual(events[i])
    ensures FromFrames(p.steps) && SendsDue(c.limits, p.steps)
    decreases |events|
  {
    if events == [] {
      hide Run, Consistent;
    } else {
      var rest, e := events[..|events| - 1], events[|events| - 1];
      var before: Progress :| RunOf(c, rest, before) && Extends(c, before, e, p);
      RunSendsDue(c, rest, before);
      hide *;
      ExtendsSteps(c, before, e, p);
      var t := Reached(c.limits, before.steps);
      EventSendsDue(c, t, before.history, e);
      SendsDueAppend(c.limits, before.steps, EventSteps(c, t, before.history, e));
    }
  }

  lemma ExtendsSteps(c: Config, before: Progress, e: Event, p: Progress)
    requires ValidConfig(c) && Extends(c, before, e, p)
    ensures FromFrames(before.steps) && Possible(Reached(c.limits, before.steps), e)
    ensures p.steps == before.steps + EventSteps(c, Reached(c.limits, before.steps), before.history, e)
  {
    hide ValidConfig, Consistent, Reached, FromFrames, EventSteps, EventCalls, HistoryAfter, Possible;
  }

  lemma SendsDueAppend(l: Limits, a: seq<Step>, b: seq<Step>)
    requires FromFrames(a) && FromFrames(b) && SendsDue(l, a) && DueSends(l, Reached(l, a), b)
    ensures FromFrames(a + b) && SendsDue(l, a + b)
  {
    hide Consistent, DueSends, Run, FromFrames;
    EmptyConsistent(l);
    DueAppend(l, EMPTY, a, b);
  }

  // ---- A clock set back during a retry round ----

  function StationText(): (r: string)
    ensures Ax25.Callsign(r) && PyText.Upper(r) == r && Ax25.SplitCallsign(r).Ok?
  {
    Ax25.CallsignCanonical("N0CALL");
    "N0CALL"
  }

  lemma FirstId()
    ensures IdText(0) == "0000"
  {
    assert Encode36(0, 1) == "0" && Encode36(0, 2) == "00" && Encode36(0, 3) == "000";
  }

  lemma FirstText()
    ensures IdText(0) == "0000" && NormalizeReplyBody("HI", "0000") == Ok("HI")
  {
    FirstId();
    assert PyText.Tidy("HI") && PyText.Printable("HI");
    hide *;
    TidyStays("HI", "0000");
  }

  /** One reply is queued at 100. */
  lemma FirstQueued(l: Limits)
    requires l.maximumPending >= 1
    ensures var queue := Queued(StationText(), ["HI"], 1, 100.0);
      && FromFrames([queue])
      && Reached(l, [queue]).outbound == map["0000" := FreshRow(StationText(), "HI", 1, 100.0)]
      && TrackReached(l, [queue]) == map["0000" := []]
  {
    FirstText();
    EmptyConsistent(l);
    var queue := Queued(StationText(), ["HI"], 1, 100.0);
    hide PyText.Upper, StationText, Consistent, IdText, NormalizeReplyBody, Ax25.SplitCallsign, Ax25.Callsign;
    RunOne(l, EMPTY, queue);
    assert PendingIds(EMPTY) == {};
    assert InsertAll(EMPTY, queue.recipient, [], 1, 100.0).Ok?;
    var after := Apply(l, EMPTY, queue);
    assert after.outbound == map["0000" := FreshRow(StationText(), "HI", 1, 100.0)];
    assert NewIds(EMPTY, after) == {"0000"};
    LastStep(l, [queue]);
    assert [queue][..0] == [] && Reached(l, []) == EMPTY && TrackReached(l, []) == map[];
  }

  /** Sending the only message of a store. */
  lemma SendOnly(l: Limits, t: Tables, h: SendTimes, row: Row, at: real)
    requires Consistent(l, t) && t.outbound == map["0000" := row] && row.state == Pending && row.attempts >= 0 && "0000" in h
    ensures Apply(l, t, Sent("0000", at)).outbound == map["0000" := SentRow(row, l.retry, at)]
    ensures Track(l, t, h, Sent("0000", at)) == h["0000" := h["0000"] + [at]]
  {
    hide Consistent, SentRow;
  }

  lemma FirstSentRow(l: Limits)
    requires l.retry != []
    ensures var row := SentRow(FreshRow(StationText(), "HI", 1, 100.0), l.retry, 100.0);
      row.state == Pending && row.attempts == 1 && row.nextAttemptAt == Some(100.0 + l.retry[0] as real)
  {
    hide StationText, PyText.Upper;
  }

  lemma OneSendPlain(id: string, at: real)
    ensures FromFrames([Sent(id, at)])
  {
  }

  /** The same as the next transaction of a run. */
  lemma SendNext(l: Limits, steps: seq<Step>, row: Row, times: seq<real>, at: real)
    requires FromFrames(steps) && Reached(l, steps).outbound == map["0000" := row] && row.state == Pending
    requires row.attempts >= 0 && TrackReached(l, steps) == map["0000" := times]
    ensures FromFrames(steps + [Sent("0000", at)])
    ensures Reached(l, steps + [Sent("0000", at)]).outbound == map["0000" := SentRow(row, l.retry, at)]
    ensures TrackReached(l, steps + [Sent("0000", at)]) == map["0000" := times + [at]]
  {
    hide *;
    OneSendPlain("0000", at);
    FramesAppend(steps, [Sent("0000", at)]);
    var all := steps + [Sent("0000", at)];
    assert all[..|steps|] == steps && all[|steps|] == Sent("0000", at);
    LastStep(l, all);
    SendOnly(l, Reached(l, steps), TrackReached(l, steps), row, at);
  }

  /** One reply is queued and sent at 100. */
  function QueuedAndSent(): (r: seq<Step>)
    ensures FromFrames(r)
  {
    hide Ax25.Callsign;
    [Queued(StationText(), ["HI"], 1, 100.0)] + [Sent("0000", 100.0)]
  }

  lemma FirstSent(l: Limits)
    requires l.maximumPending >= 1 && l.retry != []
    ensures var row := SentRow(FreshRow(StationText(), "HI", 1, 100.0), l.retry, 100.0);
      Reached(l, QueuedAndSent()).outbound == map["0000" := row] && TrackReached(l, QueuedAndSent()) == map["0000" := [100.0]]
  {
    var queue, queued := Queued(StationText(), ["HI"], 1, 100.0), FreshRow(StationText(), "HI", 1, 100.0);
    assert queued.state == Pending && queued.attempts == 0 by { hide StationText; }
    assert QueuedAndSent() == [queue] + [Sent("0000", 100.0)] by { hide StationText; }
    hide *;
    FirstQueued(l);
    SendNext(l, [queue], queued, [], 100.0);
    assert [] + [100.0] == [100.0];
  }

  lemma OnlyRowDue(t: Tables, row: Row, dueAt: real)
    requires t.outbound == map["0000" := row] && row.state == Pending && row.nextAttemptAt.Some? && row.nextAttemptAt.value <= dueAt
    ensures DuePage(t, dueAt, 10, ["0000"])
  {
  }

  lemma OneSendRound(t: Tables, dueAt: real, again: real)
    ensures Possible(t, RetryRound(dueAt, ["0000"], [again], 1)) <==> DuePage(t, dueAt, 10, ["0000"])
    ensures SentSteps(Taken(["0000"], 1), [again]) == [Sent("0000", again)]
  {
    hide DuePage;
  }

  lemma TooSoon(l: Limits, h: SendTimes, again: real)
    requires l.retry != [] && h == map["0000" := [100.0, again]] && again < 100.0 + l.retry[0] as real
    ensures !AllSpaced(l, h)
  {
    assert h["0000"][1] - h["0000"][0] < l.retry[0] as real;
    assert !Spaced(l.retry, h["0000"]);
  }

  lemma NotThroughout(l: Limits, steps: seq<Step>)
    requires FromFrames(steps) && !AllSpaced(l, TrackReached(l, steps))
    ensures !SpacedThroughout(l, steps)
  {
    hide AllSpaced, TrackReached, FromFrames;
  }

  lemma SecondTooSoon(l: Limits, steps: seq<Step>, row: Row, again: real)
    requires FromFrames(steps) && Reached(l, steps).outbound == map["0000" := row] && row.state == Pending
    requires row.attempts >= 0 && TrackReached(l, steps) == map["0000" := [100.0]]
    requires l.retry != [] && again < 100.0 + l.retry[0] as real
    ensures var all := steps + [Sent("0000", again)];
      FromFrames(all) && TrackReached(l, all) == map["0000" := [100.0, again]] && !SpacedThroughout(l, all)
  {
    hide *;
    SendNext(l, steps, row, [100.0], again);
    assert [100.0] + [again] == [100.0, again];
    TooSoon(l, TrackReached(l, steps + [Sent("0000", again)]), again);
    NotThroughout(l, steps + [Sent("0000", again)]);
  }

  /**
   The due query finds the message due, the clock is set back before the send is recorded: the second send is recorded
   less than the delay after the first. With a delay of 30: due at 131, recorded at 110, ten seconds after the first.
   */
  lemma ClockStepBackSendsTooSoon(l: Limits, dueAt: real, again: real)
    requires l.maximumPending >= 1 && l.retry != [] && again < 100.0 + l.retry[0] as real <= dueAt
    ensures var steps, last := QueuedAndSent(), Sent("0000", again);
      && Possible(Reached(l, steps), RetryRound(dueAt, ["0000"], [again], 1)) && FromFrames(steps + [last])
      && SentSteps(Taken(["0000"], 1), [again]) == [last]
      && TrackReached(l, steps + [last]) == map["0000" := [100.0, again]]
      && !SpacedThroughout(l, steps + [last])
  {
    var steps := QueuedAndSent();
    var t, row := Reached(l, steps), SentRow(FreshRow(StationText(), "HI", 1, 100.0), l.retry, 100.0);
    hide *;
    OneSendRound(t, dueAt, again);
    FirstSent(l);
    FirstSentRow(l);
    OnlyRowDue(t, row, dueAt);
    SecondTooSoon(l, steps, row, again);
  }

  // ---- Everything over a run ----

  /**
   Over every run, whatever the wall clock does: sends are bounded, and spaced exactly when each finds its row due by
   its own reading, which they do if retry rounds are punctual; a command is executed again within the time to live
   exactly when a claim in between read the clock too far ahead, so never if claims read a clock that does not go back;
   and every mailbox store and provider call follows a new claim of its own.
   */
  lemma AgentRuns(c: Config, events: seq<Event>, p: Progress)
    requires ValidConfig(c) && RunOf(c, events, p)
    ensures FromFrames(p.steps)
    ensures Counted(c.limits, Reached(c.limits, p.steps), TrackReached(c.limits, p.steps))
    ensures SpacedThroughout(c.limits, p.steps) <==> SendsDue(c.limits, p.steps)
    ensures (forall i :: 0 <= i < |events| ==> Punctual(events[i])) ==> SpacedThroughout(c.limits, p.steps)
    ensures StateClaims.RepeatsWhenForgotten(c.limits.ttl, p.steps)
    ensures StateClaims.ClaimsForward(p.steps) ==> StateClaims.AtMostOnce(c.limits.ttl, p.steps)
    ensures OwnClaims(c.limits.ttl, p.steps, p.calls)
  {
    hide *;
    RunOwnsClaims(c, events, p);
    SendsBounded(c.limits, p.steps);
    SpacedExactly(c.limits, p.steps);
    if forall i :: 0 <= i < |events| ==> Punctual(events[i]) {
      RunSendsDue(c, events, p);
    }
    StateClaims.AllRepeatsExactly(c.limits.ttl, p.steps);
    if StateClaims.ClaimsForward(p.steps) {
      StateClaims.AtMostOncePerTtl(c.limits.ttl, p.steps);
    }
  }

  /** The limiter's windows bound what one process handles: no sixty seconds hold more grants than the limits. */
  lemma {:induction false} HandlingBounded(c: Config, events: seq<Event>, p: Progress, t: real, sender: string)
    requires ValidConfig(c) && RunOf(c, events, p)
    ensures RateLimiter.InWindow(p.history, t) <= c.globalLimit
    ensures RateLimiter.InWindow(RateLimiter.By(p.history, sender), t) <= c.perSender
    decreases |events|
  {
    if events != [] {
      var rest, e := events[..|events| - 1], events[|events| - 1];
      var before: Progress :| RunOf(c, rest, before) && Extends(c, before, e, p);
      HandlingBounded(c, rest, before, t, sender);
      hide *;
      assert p.history == HistoryAfter(c, before.history, e) by { ExtendsHistory(c, before, e, p); }
      GrantsBounded(c, before.history, e, t, sender);
    }
  }

  lemma ExtendsHistory(c: Config, before: Progress, e: Event, p: Progress)
    requires ValidConfig(c) && Extends(c, before, e, p)
    ensures p.history == HistoryAfter(c, before.history, e)
  {
    hide ValidConfig, Consistent, Reached, FromFrames, EventSteps, EventCalls, HistoryAfter;
  }

  lemma GrantsBounded(c: Config, history: seq<RateLimiter.Grant>, e: Event, t: real, sender: string)
    requires RateLimiter.InWindow(history, t) <= c.globalLimit
    requires RateLimiter.InWindow(RateLimiter.By(history, sender), t) <= c.perSender
    ensures RateLimiter.InWindow(HistoryAfter(c, history, e), t) <= c.globalLimit
    ensures RateLimiter.InWindow(RateLimiter.By(HistoryAfter(c, history, e), sender), t) <= c.perSender
  {
    hide Asked, RateLimiter.After;
    if e.Packet? && Granted(c, history, e.raw, e.ingress, e.readings) {
      hide RateLimiter.InWindow, RateLimiter.By;
      var grant := RateLimiter.Grant(Asked(c, e.raw, e.ingress, e.readings).value, e.readings.mono);
      RateLimiter.GrantKeepsBound(history, grant, t, c.globalLimit);
      RateLimiter.ByAppend(history, grant, sender);
      if grant.sender == sender {
        RateLimiter.GrantKeepsBound(RateLimiter.By(history, sender), grant, t, c.perSender);
      }
    }
  }
}
