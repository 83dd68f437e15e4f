/**
 The LAN witness as a distributed protocol: a client that never retransmits, the receiver's book, and a
 network that loses, duplicates, delays and reorders every datagram (pcs_qualify_lan.py).
 */
module WitnessProtocol {
  import opened Basics
  import opened LanReceipts

  /** Where the client's loop stands; the number of its recorded rows is the number it is asking about. */
  datatype Phase =
    | Waiting
    | AskedBefore
    | Sampling(before: real)
    | AskedAfter(before: real, ok: bool)
    | Complete
    | Stopped

  datatype System = System(
    phase: Phase,
    rows: seq<Sample>,
    /** Seconds since the client's loop began. */
    elapsed: real,
    worker: Worker,
    /** The receiver's inputs so far, and the reading of its clock at the last one. */
    log: seq<Event>,
    clock: real,
    /** Every datagram ever sent: the network may deliver any of them, any number of times, or never. */
    requests: set<Request>,
    replies: set<Reply>,
    /** Some answer took more than three seconds, or some sample began more than three seconds after the last. */
    late: bool)

  datatype Step =
    | Ask(at: real)
    | Expire(at: real)
    | Sampled(ok: bool)
    | Arrive(request: Request, now: real)
    | Noise(packet: Packet, now: real)
    | FinishBy(at: real, now: real)
    | Hear(reply: Reply, at: real)
    | Halt

  const START := System(Waiting, [], 0.0, NEW, [], 0.0, {}, {}, false)

  predicate Enabled(session: string, duration: int, s: System, step: Step) {
    match step
    case Ask(at) => s.phase == Waiting && s.elapsed <= at < duration as real
    case Expire(at) => s.phase == Waiting && s.elapsed <= at && at >= duration as real
    case Sampled(_) => s.phase.Sampling?
    case Arrive(request, now) => request in s.requests && now >= s.clock
    case Noise(packet, now) => Read(session, packet) == Foreign && now >= s.clock
    case FinishBy(_, now) => now >= s.clock
    case Hear(reply, at) => (s.phase == AskedBefore || s.phase.AskedAfter?) && reply in s.replies && at >= s.elapsed
    case Halt => s.phase != Complete
  }

  /** The receipt that makes a book late: the answer to an "after" that is the next one due. */
  predicate Overdue(b: Book, request: Request, now: real) {
    && request.AfterOf? && request.number == |b.samples| && b.pending.Some?
    && (now - b.pending.value > MAX_SECONDS
        || (b.samples != [] && b.pending.value - b.samples[|b.samples| - 1].after > MAX_SECONDS))
  }

  function Heard(session: string, s: System, e: Event): System {
    s.(worker := LanReceipts.Next(session, s.worker, e), log := s.log + [e], clock := e.now)
  }

  function Next(session: string, duration: int, s: System, step: Step): System
    requires Enabled(session, duration, s, step)
  {
    match step
    case Ask(at) => s.(phase := AskedBefore, elapsed := at, requests := s.requests + {BeforeOf(|s.rows|)})
    case Expire(at) => s.(phase := Complete, elapsed := at)
    case Sampled(ok) =>
      s.(phase := AskedAfter(s.phase.before, ok), requests := s.requests + {AfterOf(|s.rows|, ok)})
    case Arrive(request, now) =>
      var packet := Encode(session, request);
      var reply := AnswerTo(session, s.worker.book, packet, now).reply;
      Heard(session, s, Datagram(packet, now)).(
        replies := s.replies + (if reply.Some? then {reply.value} else {}),
        late := s.late || Overdue(s.worker.book, request, now))
    case Noise(packet, now) => Heard(session, s, Datagram(packet, now))
    case FinishBy(at, now) => Heard(session, s, Finish(at, now))
    case Hear(reply, at) =>
      if reply.number != |s.rows| || reply.isAfter != s.phase.AskedAfter? || reply.receipt < 0.0 then s.(phase := Stopped)
      else if s.phase == AskedBefore then s.(phase := Sampling(reply.receipt), elapsed := at)
      else
        // A row is recorded; unless told to finish, the client sleeps a second before the next.
        s.(phase := if reply.done then Complete else Waiting,
           rows := s.rows + [Sample(|s.rows|, s.phase.before, reply.receipt, s.phase.ok)],
           elapsed := if reply.done then at else at + 1.0)
    case Halt => s.(phase := Stopped)
  }

  /** The state after a run, if every step could be taken when its turn came. */
  function Reach(session: string, duration: int, steps: seq<Step>): Option<System> {
    if steps == [] then Some(START)
    else
      var before, last := Reach(session, duration, steps[..|steps| - 1]), steps[|steps| - 1];
      if before.Some? && Enabled(session, duration, before.value, last)
      then Some(Next(session, duration, before.value, last)) else None
  }

  // ---- The invariant ----

  predicate Idle(p: Phase) { p == Waiting || p == Complete }

  /** What the client knows and has asked, against the receiver's book. */
  predicate InStep(s: System) {
    var n, b := |s.rows|, s.worker.book;
    && s.rows <= b.samples && |b.samples| <= n + 1
    && (forall i :: 0 <= i < |b.samples| ==> b.samples[i].number == i)
    && (s.phase == Stopped || s.phase.AskedAfter? || |b.samples| == n)
    && (s.phase.Sampling? ==> b.pending == Some(s.phase.before))
    && (s.phase.AskedAfter? ==> Answerable(b, n, s.phase.before, s.phase.ok))
  }

  predicate Answerable(b: Book, n: nat, before: real, ok: bool) {
    || (|b.samples| == n && b.pending == Some(before))
    || (|b.samples| == n + 1 && b.samples[n].before == before && b.samples[n].ok == ok)
  }

  predicate RequestOk(s: System, r: Request) {
    var n, b := |s.rows|, s.worker.book;
    && 0 <= r.number <= n && (r.number == n ==> !Idle(s.phase)) && r.number < MAX_SAMPLES
    && (r.AfterOf? ==>
          && (r.number == n ==> s.phase == Stopped || s.phase.AskedAfter?)
          && r.number <= |b.samples|
          && (r.number == |b.samples| ==> b.pending.Some?)
          && (r.number < |b.samples| ==> b.samples[r.number].ok == r.ok))
  }

  predicate ReplyOk(s: System, r: Reply) {
    var b := s.worker.book;
    if r.isAfter then
      && 0 <= r.number < |b.samples| && b.samples[r.number].after == r.receipt
      && (r.done ==> Reached(b.finishAfter, r.receipt))
    else Given(b, BeforeOf(r.number), r.receipt)
  }

  /** Once asked, a sample's outcome is asked with that outcome only. */
  ghost predicate OneOutcome(requests: set<Request>) {
    forall n, x, y :: AfterOf(n, x) in requests && AfterOf(n, y) in requests ==> x == y
  }

  predicate Timely(duration: int, s: System) {
    && (s.phase == Waiting ==> |s.rows| as real <= s.elapsed)
    && (!Idle(s.phase) && s.phase != Stopped ==> |s.rows| as real <= s.elapsed && |s.rows| < duration)
  }

  ghost predicate Inv(session: string, duration: int, s: System) {
    && InStep(s) && Timely(duration, s) && OneOutcome(s.requests)
    && (forall r :: r in s.requests ==> RequestOk(s, r))
    && (forall r :: r in s.replies ==> ReplyOk(s, r))
    && (s.phase.AskedAfter? ==> AfterOf(|s.rows|, s.phase.ok) in s.requests)
    && (s.worker.book.invalid <==> s.late)
    && (s.worker.book.pending.Some? ==>
          s.worker.book.pending.value <= s.clock && BeforeOf(|s.worker.book.samples|) in s.requests)
  }

  lemma AskKeeps(session: string, duration: int, s: System, at: real)
    requires Inv(session, duration, s) && Enabled(session, duration, s, Ask(at)) && duration <= 300
    ensures Inv(session, duration, Next(session, duration, s, Ask(at)))
  {
    hide Given, Reached;
  }

  lemma SampledKeeps(session: string, duration: int, s: System, ok: bool)
    requires Inv(session, duration, s) && Enabled(session, duration, s, Sampled(ok)) && duration <= 300
    ensures Inv(session, duration, Next(session, duration, s, Sampled(ok)))
  {
    hide Given, Reached;
  }

  lemma BeforeArrives(session: string, duration: int, s: System, request: Request, now: real)
    requires Inv(session, duration, s) && Enabled(session, duration, s, Arrive(request, now)) && request.BeforeOf?
    ensures Inv(session, duration, Next(session, duration, s, Arrive(request, now)))
  {
    assert RequestOk(s, request);
    RequestRoundTrip(session, request);
    hide Read, Encode, Reached;
  }

  lemma RepliesStay(session: string, duration: int, s: System, request: Request, now: real)
    requires Inv(session, duration, s) && Enabled(session, duration, s, Arrive(request, now)) && request.AfterOf?
    ensures var s' := Next(session, duration, s, Arrive(request, now)); forall r :: r in s'.replies ==> ReplyOk(s', r)
  {
    assert RequestOk(s, request);
    RequestRoundTrip(session, request);
    hide Read, Encode, Reached, InStep, RequestOk, OneOutcome, Timely;
  }

  lemma AfterArrives(session: string, duration: int, s: System, request: Request, now: real)
    requires Inv(session, duration, s) && Enabled(session, duration, s, Arrive(request, now)) && request.AfterOf?
    ensures Inv(session, duration, Next(session, duration, s, Arrive(request, now)))
  {
    assert RequestOk(s, request);
    RequestRoundTrip(session, request);
    RepliesStay(session, duration, s, request, now);
    hide Read, Encode, Reached, ReplyOk, Given;
  }

  lemma HeardKeeps(session: string, duration: int, s: System, step: Step)
    requires Inv(session, duration, s) && Enabled(session, duration, s, step) && (step.Noise? || step.FinishBy?)
    ensures Inv(session, duration, Next(session, duration, s, step))
  {
    hide Read;
  }

  lemma HearKeeps(session: string, duration: int, s: System, reply: Reply, at: real)
    requires Inv(session, duration, s) && Enabled(session, duration, s, Hear(reply, at))
    ensures Inv(session, duration, Next(session, duration, s, Hear(reply, at)))
  {
    assert ReplyOk(s, reply);
    hide Reached;
  }

  lemma {:induction false} RunKeeps(session: string, duration: int, steps: seq<Step>)
    requires duration <= 300 && Reach(session, duration, steps).Some?
    ensures Inv(session, duration, Reach(session, duration, steps).value)
  {
    if steps != [] {
      var before, last := Reach(session, duration, steps[..|steps| - 1]).value, steps[|steps| - 1];
      RunKeeps(session, duration, steps[..|steps| - 1]);
      match last
      case Ask(at) => AskKeeps(session, duration, before, at);
      case Expire(at) =>
      case Sampled(ok) => SampledKeeps(session, duration, before, ok);
      case Arrive(request, now) =>
        if request.BeforeOf? {
          BeforeArrives(session, duration, before, request, now);
        } else {
          AfterArrives(session, duration, before, request, now);
        }
      case Noise(_, _) => HeardKeeps(session, duration, before, last);
      case FinishBy(_, _) => HeardKeeps(session, duration, before, last);
      case Hear(reply, at) => HearKeeps(session, duration, before, reply, at);
      case Halt =>
    }
  }

  // ---- What the invariant means for every run ----

  /**
   In every reachable state the client's rows are a prefix of the receiver's samples, which are at most one
   ahead; between two exchanges, and when the client completes, the two are the same.
   */
  lemma RowsArePrefix(session: string, duration: int, steps: seq<Step>)
    requires duration <= 300 && Reach(session, duration, steps).Some?
    ensures var s := Reach(session, duration, steps).value;
      && s.rows <= s.worker.book.samples && |s.worker.book.samples| <= |s.rows| + 1
      && (s.phase == Waiting || s.phase == Complete ==> s.rows == s.worker.book.samples)
  {
    RunKeeps(session, duration, steps);
  }

  predicate OverdueAt(session: string, duration: int, steps: seq<Step>, i: int)
    requires 0 <= i < |steps|
  {
    var before := Reach(session, duration, steps[..i]);
    before.Some? && steps[i].Arrive? && Overdue(before.value.worker.book, steps[i].request, steps[i].now)
  }

  lemma {:induction false} LateMeansOverdue(session: string, duration: int, steps: seq<Step>)
    requires Reach(session, duration, steps).Some?
    ensures Reach(session, duration, steps).value.late <==> exists i :: 0 <= i < |steps| && OverdueAt(session, duration, steps, i)
  {
    if steps != [] {
      var rest, last := steps[..|steps| - 1], |steps| - 1;
      LateMeansOverdue(session, duration, rest);
      forall i | 0 <= i < last ensures OverdueAt(session, duration, rest, i) <==> OverdueAt(session, duration, steps, i) {
        assert rest[..i] == steps[..i];
      }
      hide Overdue;
      var s, s' := Reach(session, duration, rest).value, Reach(session, duration, steps).value;
      assert s'.late <==> s.late || OverdueAt(session, duration, steps, last);
      hide *;
    }
  }

  /**
   The book is invalid exactly when the answer that was due came more than three seconds after its sample began,
   or that sample began more than three seconds after the last one: losing, duplicating and reordering datagrams
   never invalidates it.
   */
  lemma InvalidOnlyWhenOverdue(session: string, duration: int, steps: seq<Step>)
    requires duration <= 300 && Reach(session, duration, steps).Some?
    ensures Reach(session, duration, steps).value.worker.book.invalid
      <==> exists i :: 0 <= i < |steps| && OverdueAt(session, duration, steps, i)
  {
    RunKeeps(session, duration, steps);
    LateMeansOverdue(session, duration, steps);
    hide *;
  }

  /** The receiver's state is a run of the book over its inputs, with a clock that never goes back. */
  predicate Logged(session: string, s: System) {
    && s.worker == Run(session, LanReceipts.NEW, s.log) && Clocked(s.log) && 0.0 <= s.clock
    && forall i :: 0 <= i < |s.log| ==> At(s.log[i]) <= s.clock
  }

  lemma LogOne(session: string, s: System, e: Event)
    requires Logged(session, s) && e.now >= s.clock
    ensures Logged(session, Heard(session, s, e))
  {
    hide LanReceipts.Next;
    assert (s.log + [e])[..|s.log|] == s.log;
  }

  lemma {:induction false} RunLogged(session: string, duration: int, steps: seq<Step>)
    requires Reach(session, duration, steps).Some?
    ensures Logged(session, Reach(session, duration, steps).value)
  {
    if steps != [] {
      var before, last := Reach(session, duration, steps[..|steps| - 1]).value, steps[|steps| - 1];
      RunLogged(session, duration, steps[..|steps| - 1]);
      hide Reach, Logged, Heard, AnswerTo, Overdue, Encode, Read;
      match last
      case Arrive(request, now) => LogOne(session, before, Datagram(Encode(session, request), now));
      case Noise(packet, now) => LogOne(session, before, Datagram(packet, now));
      case FinishBy(at, now) => LogOne(session, before, Finish(at, now));
      case _ =>
    }
  }

  /** The file of a client that completed, with a valid book, is accepted against the receiver's samples. */
  lemma CompletedFileCorrelates(session: string, duration: int, steps: seq<Step>)
    requires duration <= 300 && Reach(session, duration, steps).Some?
    requires Reach(session, duration, steps).value.phase == Complete
    ensures var s := Reach(session, duration, steps).value;
      !s.worker.book.invalid ==> Exchanged(s.rows) && s.rows == s.worker.book.samples && |s.rows| <= MAX_SAMPLES
  {
    var s := Reach(session, duration, steps).value;
    RunKeeps(session, duration, steps);
    RunLogged(session, duration, steps);
    RunSound(session, s.log);
    RunInOrder(session, s.log);
    hide Run, Reach, Clocked;
    assert s.rows == s.worker.book.samples;
    assert NonNegative(s.rows) by {
      assert forall i :: 0 <= i < |s.rows| ==> Timed(s.rows[i]);
    }
    hide Gapless, Timed, NonNegative;
    forall i | 0 <= i < |s.rows| - 1 ensures InSequence(s.rows, i) {
      assert s.worker.book.samples[i].after <= s.worker.book.samples[i + 1].before;
    }
  }

  /** A client told that it is done has recorded every sample, the last of which reaches the requested end. */
  lemma ToldDoneReachesEnd(session: string, duration: int, steps: seq<Step>, reply: Reply, at: real)
    requires duration <= 300 && Reach(session, duration, steps).Some?
    requires Enabled(session, duration, Reach(session, duration, steps).value, Hear(reply, at))
    requires var s := Reach(session, duration, steps).value;
      Next(session, duration, s, Hear(reply, at)).phase == Complete
    ensures var s := Next(session, duration, Reach(session, duration, steps).value, Hear(reply, at));
      && s.rows != [] && s.rows == s.worker.book.samples
      && s.worker.book.finishAfter.Some? && s.rows[|s.rows| - 1].after >= s.worker.book.finishAfter.value
  {
    var s := Reach(session, duration, steps).value;
    RunKeeps(session, duration, steps);
    assert ReplyOk(s, reply);
    HearKeeps(session, duration, s, reply, at);
  }

  // ---- Progress ----

  lemma ReachStep(session: string, duration: int, steps: seq<Step>, s: System, step: Step)
    requires Reach(session, duration, steps) == Some(s) && Enabled(session, duration, s, step)
    ensures Reach(session, duration, steps + [step]) == Some(Next(session, duration, s, step))
  {
    hide Enabled, Next;
    assert (steps + [step])[..|steps|] == steps;
  }

  /** The system between two exchanges, about to take its n-th sample, with nothing wrong so far. */
  predicate Rested(s: System, n: nat, at: real) {
    && s.phase == Waiting && |s.rows| == n && s.rows == s.worker.book.samples && s.worker.book.pending.None?
    && !s.worker.book.invalid && s.clock <= at
    && (n > 0 ==> at - s.rows[n - 1].after <= MAX_SECONDS)
  }

  lemma RestedState(session: string, duration: int, s: System)
    requires Inv(session, duration, s) && s.phase == Waiting
    ensures s.rows == s.worker.book.samples && s.worker.book.pending.None?
  {
    assert !RequestOk(s, BeforeOf(|s.rows|)) && s.rows == s.worker.book.samples;
  }

  /**
   A network that is prompt for once gets one more row recorded: from every reachable state between exchanges, six
   steps in which the answer comes within three seconds record the sample at both ends and invalidate nothing.
   */
  lemma PromptExchange(session: string, duration: int, steps: seq<Step>, s: System, ok: bool, before: real, after: real)
    returns (more: seq<Step>, end: System)
    requires duration <= 300 && Reach(session, duration, steps) == Some(s)
    requires s.phase == Waiting && s.elapsed < duration as real && !s.worker.book.invalid
    requires s.clock <= before <= after <= before + MAX_SECONDS && before >= 0.0
    requires s.rows != [] ==> before - s.rows[|s.rows| - 1].after <= MAX_SECONDS
    ensures Reach(session, duration, steps + more) == Some(end)
    ensures end.rows == s.rows + [Sample(|s.rows|, before, after, ok)]
    ensures end.worker.book.samples == end.rows && !end.worker.book.invalid
  {
    hide Reach;
    RunKeeps(session, duration, steps);
    RestedState(session, duration, s);
    assert |s.rows| as real <= s.elapsed;
    assert Rested(s, |s.rows|, before);
    hide *;
    more, end := ExchangeRested(session, duration, steps, s, ok, before, after);
  }

  lemma ExchangeRested(session: string, duration: int, steps: seq<Step>, s: System, ok: bool, before: real, after: real)
    returns (more: seq<Step>, end: System)
    requires Reach(session, duration, steps) == Some(s) && Rested(s, |s.rows|, before)
    requires |s.rows| < MAX_SAMPLES && s.elapsed < duration as real && 0.0 <= before <= after <= before + MAX_SECONDS
    ensures Reach(session, duration, steps + more) == Some(end)
    ensures end.rows == s.rows + [Sample(|s.rows|, before, after, ok)]
    ensures end.worker.book.samples == end.rows && !end.worker.book.invalid
  {
    hide Reach;
    var first, s3 := AskAndHear(session, duration, steps, s, before);
    var second;
    second, end := SampleAndHear(session, duration, steps + first, s3, ok, after);
    hide *;
    more := first + second;
    assert steps + first + second == steps + more;
  }

  lemma AskAndHear(session: string, duration: int, steps: seq<Step>, s: System, now: real) returns (more: seq<Step>, s': System)
    requires Reach(session, duration, steps) == Some(s) && Rested(s, |s.rows|, now) && |s.rows| < MAX_SAMPLES
    requires s.elapsed < duration as real && now >= 0.0
    ensures Reach(session, duration, steps + more) == Some(s')
    ensures s'.phase == Sampling(now) && s'.rows == s.rows && s'.worker.book == s.worker.book.(pending := Some(now))
    ensures s'.clock == now
  {
    hide Reach;
    var request := BeforeOf(|s.rows|);
    RequestRoundTrip(session, request);
    hide Read, Encode, Reached;
    var ask, arrive := Ask(s.elapsed), Arrive(request, now);
    ReachStep(session, duration, steps, s, ask);
    var s1 := Next(session, duration, s, ask);
    ReachStep(session, duration, steps + [ask], s1, arrive);
    var s2 := Next(session, duration, s1, arrive);
    var reply := Reply(|s.rows|, false, now, false);
    assert reply in s2.replies;
    var hear := Hear(reply, s.elapsed);
    ReachStep(session, duration, steps + [ask] + [arrive], s2, hear);
    s' := Next(session, duration, s2, hear);
    more := [ask, arrive, hear];
    assert steps + [ask] + [arrive] + [hear] == steps + more;
  }

  lemma SampleAndHear(session: string, duration: int, steps: seq<Step>, s: System, ok: bool, now: real)
    returns (more: seq<Step>, s': System)
    requires Reach(session, duration, steps) == Some(s) && s.phase.Sampling? && |s.rows| < MAX_SAMPLES
    requires var b := s.worker.book;
      && b.samples == s.rows && b.pending == Some(s.phase.before) && !b.invalid && s.clock == s.phase.before >= 0.0
      && s.clock <= now <= s.clock + MAX_SECONDS
      && (s.rows != [] ==> s.phase.before - s.rows[|s.rows| - 1].after <= MAX_SECONDS)
    ensures Reach(session, duration, steps + more) == Some(s')
    ensures s'.rows == s.rows + [Sample(|s.rows|, s.phase.before, now, ok)]
    ensures s'.worker.book.samples == s'.rows && !s'.worker.book.invalid
  {
    hide Reach;
    var request := AfterOf(|s.rows|, ok);
    RequestRoundTrip(session, request);
    hide Read, Encode, Reached;
    var sampled, arrive := Sampled(ok), Arrive(request, now);
    ReachStep(session, duration, steps, s, sampled);
    var s1 := Next(session, duration, s, sampled);
    ReachStep(session, duration, steps + [sampled], s1, arrive);
    var s2 := Next(session, duration, s1, arrive);
    var reply := Reply(|s.rows|, true, now, Reached(s.worker.book.finishAfter, now));
    assert reply in s2.replies;
    var hear := Hear(reply, s.elapsed);
    ReachStep(session, duration, steps + [sampled] + [arrive], s2, hear);
    s' := Next(session, duration, s2, hear);
    more := [sampled, arrive, hear];
    assert steps + [sampled] + [arrive] + [hear] == steps + more;
  }
}
