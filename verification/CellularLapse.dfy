/**
 A campaign that passes although neither lease nor table stood when the fallback was proved: the proof is a sample taken
 in the turn in which the kernel's timeout ends (pcs_qualify_cellular.py).
 */
module CellularLapse {
  import opened Basics
  import opened CellularCampaign
  import FaultLedger
  import LanReceipts

  const SESSION := "S"
  const SETTING := Setting(SESSION, Plan(30, 30, 10), 90, 0.0)
  const TOKEN := Token("session", "profile")

  // ---- A witness that answers every three seconds ----

  function Row(i: nat): LanReceipts.Sample { LanReceipts.Sample(i, 3.0 * i as real, 3.0 * i as real + 3.0, true) }

  function Rows(n: nat): seq<LanReceipts.Sample> { seq(n, i requires 0 <= i < n => Row(i)) }

  function Known(n: nat, finish: Option<real>): LanReceipts.Worker {
    LanReceipts.Worker(LanReceipts.Book(Rows(n), None, false, finish), finish.Some?)
  }

  function Answered(n: nat, finish: Option<real>): LanReceipts.Snapshot {
    LanReceipts.Snapshot(SESSION, Rows(n), false, finish, finish.Some?)
  }

  lemma RowsHonest(n: nat)
    requires n <= LanReceipts.MAX_SAMPLES
    ensures LanReceipts.Accepted(Rows(n)) && LanReceipts.Gapless(Rows(n)) && LanReceipts.AllOk(Rows(n))
    ensures forall i :: 0 <= i < n ==> LanReceipts.SnapshotRow(Rows(n), i)
  {
  }

  lemma RowsAnswered(m: nat, n: nat, finish: Option<real>)
    requires m <= n <= LanReceipts.MAX_SAMPLES && n > 0
    requires finish.Some? ==> 0.0 <= finish.value <= 3.0 * n as real
    ensures LanReceipts.UpdateSpec(SESSION, Known(m, None), Answered(n, finish)) == Ok(Known(n, finish))
  {
    RowsHonest(n);
    LanReceipts.AcceptedReplay(SESSION, Rows(n));
    assert Rows(m) <= Rows(n);
    assert Rows(n)[n - 1].after == 3.0 * n as real;
    hide LanReceipts.Replay, LanReceipts.SnapshotRow, LanReceipts.Gapless, LanReceipts.Accepted;
  }

  lemma RowsReady(n: nat, finish: Option<real>)
    requires 2 <= n <= LanReceipts.MAX_SAMPLES
    ensures LanReceipts.Ready(Known(n, finish).book, 3.0 * n as real)
  {
    RowsHonest(n);
  }

  // ---- What is seen ----

  const IDLE := Facts(true, "cell", "profile", map[], [], 8, 1, [], false)
  const BUSY := Facts(true, "cell", "profile", map["cell" := TOKEN], [], 11, 1, [Activation(TOKEN, 2)], true)

  const UP := Uplink(Some(true), true, true, false, false, true)
  const DOWN := Uplink(Some(false), true, false, false, false, true)
  const UNUSED := Uplink(None, false, false, false, false, false)
  const CARRYING := Uplink(Some(true), true, true, true, false, true)

  const START := View(true, IDLE, UP, UP, UNUSED, true, Ethernet)
  const FALLBACK := View(true, BUSY, DOWN, DOWN, CARRYING, true, Cellular)

  /** The restore finds that the lease is not its own any more: it has expired. */
  const EXPIRED := ReturnsBy([FaultLedger.Spawn(0, FaultLedger.RestoreLock(Some(SESSION))), FaultLedger.Advance(0, 0)], 0, 0)

  const ARMING := Arming(None, Ok(START), Ok(Answered(2, None)), 6.0, None)

  function LookAt(n: nat, view: View, lease: bool, table: Option<Trouble>, at: real): Look {
    Look(Ok(Answered(n, None)), 3.0 * n as real, true, 6.0, ARMING, 6.0, lease, table, None, Ok(view), Ok(Healthy), false, true,
         EXPIRED, at, at, Ok(Answered(n, Some(3.0 * n as real))), 3.0 * n as real, 3.0 * n as real, at)
  }

  /** Armed at 6 for ninety seconds; the fallback proved at 96, without lease and table; recovered at 117. */
  function Looks(): seq<Look> {
    [LookAt(2, START, true, None, 6.0), LookAt(32, FALLBACK, false, Some(Execution), 97.0), LookAt(39, START, true, None, 117.0)]
  }

  lemma ViewsJudged()
    ensures HealthyStart(START) && !BothPreferredDown(START) && EthernetSelected(START)
    ensures BothPreferredDown(FALLBACK) && CellularCarries(FALLBACK)
    ensures forall expected, recovering :: Judge(IDLE, expected, recovering) == Ok(Ownership(Inactive, None))
    ensures Judge(BUSY, None, false) == Ok(Ownership(OwnedActive, Some(TOKEN)))
  {
    forall expected, recovering ensures Judge(IDLE, expected, recovering) == Ok(Ownership(Inactive, None)) {
      JudgementExact(IDLE, expected, recovering, TOKEN);
    }
    JudgementExact(BUSY, None, false, TOKEN);
    hide Judge;
  }

  lemma RestoreReturns()
    ensures Answer(SESSION, EXPIRED).Ok?
  {
    var spawn, lock := FaultLedger.Spawn(0, FaultLedger.RestoreLock(Some(SESSION))), FaultLedger.Advance(0, 0);
    var w1 := FaultLedger.Become(FaultLedger.EMPTY, 0, FaultLedger.RestoreLock(Some(SESSION)));
    var w2 := FaultLedger.Take(w1, 0, FaultLedger.RestoreRead(Some(SESSION)));
    assert FaultLedger.Enabled(FaultLedger.EMPTY, spawn) && FaultLedger.Next(FaultLedger.EMPTY, spawn) == w1;
    assert FaultLedger.Enabled(w1, lock) && FaultLedger.Next(w1, lock) == w2;
    assert [] + [spawn] == [spawn] && [spawn] + [lock] == EXPIRED.steps;
    ReachEmpty();
    ReachNext([], FaultLedger.EMPTY, spawn);
    ReachNext([spawn], w1, lock);
    hide FaultLedger.Reach;
    LastStep(w2);
  }

  lemma ReachEmpty()
    ensures FaultLedger.Reach([]) == Some(FaultLedger.EMPTY)
  {
  }

  lemma ReachNext(steps: seq<FaultLedger.Step>, w: FaultLedger.World, step: FaultLedger.Step)
    requires FaultLedger.Reach(steps) == Some(w) && FaultLedger.Enabled(w, step)
    ensures FaultLedger.Reach(steps + [step]) == Some(FaultLedger.Next(w, step))
  {
    hide FaultLedger.Enabled, FaultLedger.Next;
    assert (steps + [step])[..|steps|] == steps;
  }

  /** The lease is not the session's own, so the restore returns at once. */
  lemma LastStep(w: FaultLedger.World)
    requires FaultLedger.Reach(EXPIRED.steps) == Some(w)
    requires 0 in w.processes && w.processes[0] == FaultLedger.RestoreRead(Some(SESSION)) && w.active.None?
    ensures Answer(SESSION, EXPIRED).Ok?
  {
    hide FaultLedger.Reach;
  }

  lemma TurnFrom(c: Setting, s: State, look: Look, t: State, now: real, seen: State, judged: State)
    requires ContactSpec(c, s, look) == (Turned(t, None), now) && t.injected.Some? && now >= t.nextSample
    requires ObserveSpec(c, t, look, now) == Turned(seen, None) && look.view.Ok?
    requires JudgedSpec(c, seen, look, now, look.view.value) == Turned(judged, None)
    ensures judged.injected.Some?
    ensures TurnSpec(c, s, look) == EndSpec(c, judged.(nextSample := look.sampledAt + 2.0), look)
  {
    SampleParts(c, t, look, now);
    hide ContactSpec, ObserveSpec, JudgedSpec, SampleSpec, EndSpec;
  }

  // ---- Armed ----

  function Armed(): State {
    var book := Known(2, None).book;
    State(Known(2, None), Some(6.0), None, None, None, false, 0.0, [WitnessReady(book, 6.0), FaultArmed(6.0, START, book, 6.0)])
  }

  function First(): State {
    Armed().(trace := Armed().trace + [Observed(6.0, START, Ownership(Inactive, None), Healthy, false, true, true)],
             nextSample := 8.0)
  }

  lemma RowsLearned(m: nat, n: nat, finish: Option<real>)
    requires m <= n <= LanReceipts.MAX_SAMPLES && n > 0
    requires finish.Some? ==> 0.0 <= finish.value <= 3.0 * n as real
    ensures Learned(SESSION, Known(m, None), Ok(Answered(n, finish))) == Ok(Known(n, finish))
  {
    RowsAnswered(m, n, finish);
    hide LanReceipts.UpdateSpec, Known, Answered;
  }

  /** Contact is kept while the witness answers, if the lease stands where it is looked at. */
  lemma ContactHolds(s: State, n: nat, look: Look)
    requires s.worker == Known(n, None) && 2 <= n <= LanReceipts.MAX_SAMPLES
    requires Guarded(SETTING, s, 3.0 * n as real) ==> look.leaseValid
    ensures KeepSpec(SETTING, s, look, 3.0 * n as real) == Turned(s, None)
  {
    RowsReady(n, None);
    RowsHonest(n);
    hide LanReceipts.Ready, LanReceipts.AllOk, Rows, Guarded;
  }

  /** A later contact with the receiver. */
  lemma LaterContact(s: State, m: nat, n: nat, look: Look)
    requires s.worker == Known(m, None) && s.injected.Some? && m <= n && 2 <= n <= LanReceipts.MAX_SAMPLES
    requires look.polled == Ok(Answered(n, None)) && look.now == 3.0 * n as real && look.sameBoot
    requires Guarded(SETTING, s, look.now) ==> look.leaseValid
    ensures ContactSpec(SETTING, s, look) == (Turned(s.(worker := Known(n, None)), None), look.now)
  {
    RowsLearned(m, n, None);
    ContactHolds(s.(worker := Known(n, None)), n, look);
    hide Known, Answered, KeepSpec, Learned, Guarded;
  }

  lemma FirstArmed()
    ensures InjectSpec(SETTING, Beginning(SETTING).(worker := Known(2, None)), Looks()[0]) == Turned(Armed(), None)
  {
    var s, look := Beginning(SETTING).(worker := Known(2, None)), Looks()[0];
    var ready, armed := WitnessReady(Known(2, None).book, 6.0), FaultArmed(6.0, START, Known(2, None).book, 6.0);
    RowsLearned(2, 2, None);
    RowsReady(2, None);
    ViewsJudged();
    assert [] + [ready] + [armed] == [ready, armed];
    hide LanReceipts.Ready, Rows, HealthyStart, Learned, Answered;
    assert ArmSpec(SETTING, Emitted(s, ready), look.arming, 6.0) == Turned(Armed(), None);
  }

  lemma FirstContact()
    ensures ContactSpec(SETTING, Beginning(SETTING), Looks()[0]) == (Turned(Armed(), None), 6.0)
  {
    assert LanReceipts.NEW == Known(0, None);
    RowsLearned(0, 2, None);
    FirstArmed();
    ContactHolds(Armed(), 2, Looks()[0]);
    hide Learned, InjectSpec, KeepSpec, Answered;
  }

  /** A sample of the idle station under the fault, or after it. */
  lemma IdleSeen(s: State, n: nat, look: Look, now: real)
    requires look == LookAt(n, START, true, None, look.removedAt) && !s.warning
    ensures var e := Observed(now, START, Ownership(Inactive, None), Healthy, false, Guarded(SETTING, s, now), true);
      ObserveSpec(SETTING, s, look, now) == Turned(s.(trace := s.trace + [e]), None)
  {
    ViewsJudged();
    hide Judge, Answered;
  }

  lemma FirstTurn()
    ensures TurnSpec(SETTING, Beginning(SETTING), Looks()[0]) == Turned(First(), None)
  {
    var look, seen := Looks()[0], First().(nextSample := 0.0);
    assert Guarded(SETTING, Armed(), 6.0) && look == LookAt(2, START, true, None, look.removedAt);
    assert JudgedSpec(SETTING, seen, look, 6.0, START) == Turned(seen, None) by {
      ViewsJudged();
      hide BothPreferredDown, EthernetSelected, HealthyStart, Judge, Rows, Answered;
    }
    assert EndSpec(SETTING, First(), look) == Turned(First(), None) by { hide Answered, Rows; }
    hide *;
    FirstContact();
    IdleSeen(Armed(), 2, look, 6.0);
    TurnFrom(SETTING, Beginning(SETTING), look, Armed(), 6.0, seen, seen);
  }

  // ---- Proved ----

  function Second(): State
    requires Answer(SESSION, EXPIRED).Ok?
  {
    State(Known(32, None), Some(6.0), Some(97.0), None, Some(TOKEN), false, 98.0,
          First().trace + [Observed(96.0, FALLBACK, Ownership(OwnedActive, Some(TOKEN)), Healthy, false, false, false),
                           FaultRemoved(97.0, Answer(SESSION, EXPIRED).value)])
  }

  function Seen96(): State {
    State(Known(32, None), Some(6.0), None, None, Some(TOKEN), false, 8.0,
          First().trace + [Observed(96.0, FALLBACK, Ownership(OwnedActive, Some(TOKEN)), Healthy, false, false, false)])
  }

  lemma BusySeen()
    ensures ObserveSpec(SETTING, First().(worker := Known(32, None)), Looks()[1], 96.0) == Turned(Seen96(), None)
  {
    ViewsJudged();
    hide Judge, Answered, Rows;
  }

  lemma BusyJudged()
    requires Answer(SESSION, EXPIRED).Ok?
    ensures JudgedSpec(SETTING, Seen96(), Looks()[1], 96.0, FALLBACK) == Turned(Second().(nextSample := 8.0), None)
  {
    ViewsJudged();
    hide Judge, Answered, Rows, BothPreferredDown, CellularCarries, EthernetSelected, HealthyStart, Answer, First;
    var removed := FaultRemoved(97.0, Answer(SESSION, EXPIRED).value);
    assert Seen96().trace + [removed] == Second().trace;
    assert LastStanding(Seen96()) == OwnedActive;
  }

  lemma SecondTurn()
    requires Answer(SESSION, EXPIRED).Ok?
    ensures TurnSpec(SETTING, First(), Looks()[1]) == Turned(Second(), None)
  {
    var look, t := Looks()[1], First().(worker := Known(32, None));
    assert !Guarded(SETTING, First(), 96.0);
    assert EndSpec(SETTING, Second(), look) == Turned(Second(), None) by { hide Answered, Rows, Answer, First; }
    hide Rows, Answered, ContactSpec, ObserveSpec, JudgedSpec, EndSpec, TurnSpec, Answer;
    LaterContact(First(), 2, 32, look);
    BusySeen();
    BusyJudged();
    TurnFrom(SETTING, First(), look, t, 96.0, Seen96(), Second().(nextSample := 8.0));
  }

  // ---- Recovered ----

  function Third(): State
    requires Answer(SESSION, EXPIRED).Ok?
  {
    Recovered().(trace := Recovered().trace + [Concluded(117.0, Known(39, Some(117.0)).book)], nextSample := 119.0)
  }

  function Seen117(): State
    requires Answer(SESSION, EXPIRED).Ok?
  {
    Second().(worker := Known(39, None),
              trace := Second().trace + [Observed(117.0, START, Ownership(Inactive, None), Healthy, false, false, true)])
  }

  function Recovered(): State
    requires Answer(SESSION, EXPIRED).Ok?
  {
    Seen117().(worker := Known(39, Some(117.0)), recovered := Some(117.0),
               trace := Seen117().trace + [RecoveryObserved(117.0)])
  }

  lemma RowsCover()
    ensures LanReceipts.Coverage(Known(39, Some(117.0)).book, 6.0, 117.0) == LanReceipts.Pass
  {
    RowsHonest(39);
    hide LanReceipts.AllOk;
  }

  lemma IdleJudged()
    requires Answer(SESSION, EXPIRED).Ok?
    ensures JudgedSpec(SETTING, Seen117(), Looks()[2], 117.0, START) == Turned(Recovered(), None)
  {
    ViewsJudged();
    RowsLearned(39, 39, Some(117.0));
    var s, look := Seen117(), Looks()[2];
    assert s.removed == Some(97.0) && s.recovered.None? && s.worker == Known(39, None) && LastStanding(s) == Inactive by {
      hide Answer, First, Rows;
    }
    assert Recovered() == Emitted(s, RecoveryObserved(117.0)).(recovered := Some(117.0), worker := Known(39, Some(117.0)))
      by { hide Answer, First, Rows; }
    assert look.recoveredAt == 117.0 && look.finishAsked == Ok(Answered(39, Some(117.0))) by { hide Answered; }
    hide Judge, Answered, Known, BothPreferredDown, EthernetSelected, HealthyStart, Answer, First, Learned, Seen117, Recovered, Looks;
  }

  lemma ThirdEnd()
    requires Answer(SESSION, EXPIRED).Ok?
    ensures EndSpec(SETTING, Recovered().(nextSample := 119.0), Looks()[2])
         == Turned(Third(), Some(Returned(Passed, "automatic_cellular_ownership_and_release")))
  {
    RowsCover();
    hide Answered, Rows, Answer, First, LanReceipts.Coverage;
  }

  lemma ThirdTurn()
    requires Answer(SESSION, EXPIRED).Ok?
    ensures TurnSpec(SETTING, Second(), Looks()[2])
         == Turned(Third(), Some(Returned(Passed, "automatic_cellular_ownership_and_release")))
  {
    var look := Looks()[2];
    var t := Second().(worker := Known(39, None));
    ThirdEnd();
    assert !Guarded(SETTING, Second(), 117.0) && !Guarded(SETTING, t, 117.0) && look == LookAt(39, START, true, None, 117.0);
    hide Rows, First, Answered, ContactSpec, ObserveSpec, JudgedSpec, EndSpec, TurnSpec, Answer;
    LaterContact(Second(), 32, 39, look);
    IdleSeen(t, 39, look, 117.0);
    IdleJudged();
    TurnFrom(SETTING, Second(), look, t, 117.0, Seen117(), Recovered());
  }

  lemma ThirdTrace()
    requires Answer(SESSION, EXPIRED).Ok?
    ensures var trace := Third().trace;
      && |trace| > 4 && trace[3].Observed? && trace[4].FaultRemoved?
      && trace[3].ownership.standing == OwnedActive && trace[3].view == FALLBACK
      && trace[3].at == 6.0 + SETTING.duration as real && !trace[3].checked && !trace[3].underLease
  {
    hide Answer, Known;
  }

  /**
   The campaign over this environment passes, and the sample that proves the fallback was taken at the end of the timeout
   with neither lease nor table in place.
   */
  lemma UncheckedProofPasses()
    ensures var t := RunSpec(SETTING, Beginning(SETTING), Looks());
      && t.stop == Some(Returned(Passed, "automatic_cellular_ownership_and_release"))
      && |t.state.trace| > 4 && t.state.trace[3].Observed? && t.state.trace[4].FaultRemoved?
      && t.state.trace[3].ownership.standing == OwnedActive && t.state.trace[3].view == FALLBACK
      && t.state.trace[3].at == 6.0 + SETTING.duration as real
      && !t.state.trace[3].checked && !t.state.trace[3].underLease
  {
    RestoreReturns();
    var looks := Looks();
    assert looks[1..][1..] == looks[2..] && looks[1..][0] == looks[1] && looks[2..][0] == looks[2];
    hide *;
    FirstTurn();
    SecondTurn();
    ThirdTurn();
    RunFirst(SETTING, Beginning(SETTING), looks);
    RunFirst(SETTING, First(), looks[1..]);
    RunFirst(SETTING, Second(), looks[2..]);
    ThirdTrace();
  }
}
