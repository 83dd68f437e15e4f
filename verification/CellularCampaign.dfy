/**
 The automatic cellular fallback campaign: one bounded fault, observed sample by sample, and the verdict
 drawn from what was seen (pcs_qualify_cellular.py). Every reading and every failure of a collector is the
 environment's choice.
 */
module CellularCampaign {
  import opened Basics
  import FaultLedger
  import LanReceipts

  // ---- Who owns the cellular session ----

  datatype Token = Token(session: string, profile: string)

  datatype Activation = Activation(token: Token, state: int)

  datatype Facts = Facts(
    sameBoot: bool,
    cellularId: string,
    cellularProfile: string,
    /** The manager's own ledger, by uplink. */
    owned: map<string, Token>,
    suppressed: seq<string>,
    modemState: int,
    registration: int,
    active: seq<Activation>,
    bearerConnected: bool)

  datatype Standing = Inactive | Releasing | OwnedPending | OwnedActive

  datatype Ownership = Ownership(standing: Standing, token: Option<Token>)

  function Judge(f: Facts, expected: Option<Token>, recovering: bool): Result<Ownership, string> {
    if !f.sameBoot || f.cellularId in f.suppressed || !(8 <= f.modemState <= 11) || f.registration !in {1, 5}
    then Err("cellular_ownership_unavailable")
    else if f.owned.Keys - {f.cellularId} != {} then Err("unexpected_manager_ownership")
    else
      var owned := if f.cellularId in f.owned then Some(f.owned[f.cellularId]) else None;
      if f.active == [] then
        if owned.Some? || f.bearerConnected then Err("cellular_ownership_unavailable") else Ok(Ownership(Inactive, None))
      else if |f.active| != 1 then Err("cellular_ownership_unavailable")
      else
        var token, state := f.active[0].token, f.active[0].state;
        if token.profile != f.cellularProfile || (expected.Some? && Some(token) != expected)
        then Err("operator_or_replaced_cellular_session")
        else if recovering && owned.None? && state == 3 && expected == Some(token) then Ok(Ownership(Releasing, Some(token)))
        else if owned != Some(token) then Err("cellular_ownership_unproven")
        else if state !in {1, 2, 3} then Err("cellular_state_ambiguous")
        else Ok(Ownership(if state == 2 && f.bearerConnected then OwnedActive else OwnedPending, Some(token)))
  }

  /** The modem is usable and nothing but the cellular uplink is in the manager's ledger. */
  predicate Sane(f: Facts) {
    && f.sameBoot && f.cellularId !in f.suppressed && 8 <= f.modemState <= 11 && f.registration in {1, 5}
    && f.owned.Keys <= {f.cellularId}
  }

  predicate NoSession(f: Facts) {
    f.active == [] && f.owned == map[] && !f.bearerConnected
  }

  /** Exactly one activation, of the configured profile, and it is the one in the ledger. */
  predicate LedgerSession(f: Facts, t: Token) {
    && |f.active| == 1 && f.active[0].token == t && t.profile == f.cellularProfile
    && f.owned == map[f.cellularId := t]
  }

  /** What each judgement means, and that it is given whenever it is true. */
  lemma JudgementExact(f: Facts, expected: Option<Token>, recovering: bool, t: Token)
    ensures Judge(f, expected, recovering) == Ok(Ownership(Inactive, None)) <==> Sane(f) && NoSession(f)
    ensures Judge(f, expected, recovering) == Ok(Ownership(OwnedActive, Some(t)))
      <==> Sane(f) && LedgerSession(f, t) && f.active[0].state == 2 && f.bearerConnected && expected in {None, Some(t)}
    ensures Judge(f, expected, recovering) == Ok(Ownership(OwnedPending, Some(t)))
      <==> Sane(f) && LedgerSession(f, t) && expected in {None, Some(t)}
           && f.active[0].state in {1, 2, 3} && !(f.active[0].state == 2 && f.bearerConnected)
    ensures Judge(f, expected, recovering) == Ok(Ownership(Releasing, Some(t)))
      <==> Sane(f) && recovering && expected == Some(t) && f.owned == map[]
           && |f.active| == 1 && f.active[0] == Activation(t, 3) && t.profile == f.cellularProfile
  {
    if f.owned.Keys <= {f.cellularId} {
      assert f.owned.Keys - {f.cellularId} == {};
      assert f.owned == if f.cellularId in f.owned then map[f.cellularId := f.owned[f.cellularId]] else map[];
    } else {
      var id :| id in f.owned.Keys && id != f.cellularId;
      assert id in f.owned.Keys - {f.cellularId};
    }
  }

  // ---- What one sample shows ----

  datatype Uplink = Uplink(internet: Option<bool>, active: bool, selected: bool, owned: bool, suppressed: bool, usable: bool)

  datatype Path = Ethernet | Wifi | Cellular | Elsewhere

  datatype View = View(
    sameFixed: bool,
    facts: Facts,
    ethernet: Uplink,
    wifi: Uplink,
    cellular: Uplink,
    internet: bool,
    effective: Path)

  /** Ethernet carries the traffic; `usable` stands for its link and address. */
  predicate EthernetSelected(v: View) {
    v.ethernet.internet == Some(true) && v.ethernet.active && v.ethernet.selected && v.ethernet.usable && v.internet
  }

  predicate HealthyStart(v: View) {
    && Judge(v.facts, None, false).Ok? && Judge(v.facts, None, false).value.standing == Inactive
    && v.facts.owned == map[] && v.facts.modemState == 8
    && EthernetSelected(v) && v.effective == Ethernet && v.wifi.internet == Some(true)
    && !v.cellular.owned && !v.cellular.suppressed
  }

  predicate BothPreferredDown(v: View) {
    v.ethernet.internet == Some(false) && v.wifi.internet == Some(false)
  }

  /** Cellular is owned, selected, active, reaches the Internet and is where packets go. */
  predicate CellularCarries(v: View) {
    && v.cellular.owned && v.cellular.selected && v.cellular.active && v.cellular.internet == Some(true)
    && v.effective == Cellular
  }

  // ---- The environment ----

  datatype Verdict = Passed | PassedWithObservation | Failed | Inconclusive | Aborted | Blocked | HarnessError

  datatype Trouble = RfBlocked | Ambiguity(reason: string) | Refused(reason: string) | Execution | Interrupted

  datatype Health = Healthy | Observation | Unhealthy | Unknown

  /** How a call of restore ends: it raises, or it returns in the world that a run of the fault ledger leads to. */
  datatype Restoration = Raises(trouble: Trouble) | ReturnsBy(steps: seq<FaultLedger.Step>, pid: nat, unused: nat)

  /** The world in which a restore of the session returns; a call that never returns is interrupted. */
  function Answer(session: string, r: Restoration): Result<FaultLedger.World, Trouble> {
    match r
    case Raises(trouble) => Err(trouble)
    case ReturnsBy(steps, pid, unused) =>
      var before, step := FaultLedger.Reach(steps), FaultLedger.Advance(pid, unused);
      if before.Some? && FaultLedger.Enabled(before.value, step) then
        var after := FaultLedger.Next(before.value, step);
        if pid in after.processes && after.processes[pid] == FaultLedger.Restored(Some(session)) then Ok(after)
        else Err(Interrupted)
      else Err(Interrupted)
  }

  /** A restore that has returned has left nothing of its session. */
  lemma RestoredIsClean(session: string, r: Restoration)
    requires Answer(session, r).Ok?
    ensures FaultLedger.Clean(Answer(session, r).value, session)
  {
    hide FaultLedger.Reach, FaultLedger.Enabled, FaultLedger.Next, FaultLedger.Clean;
    var w := FaultLedger.Reach(r.steps).value;
    FaultLedger.RestoreReturnsClean(r.steps, w, r.pid, r.unused, Answer(session, r).value);
  }

  /** The final check made under the lease, just before the fault is injected. */
  datatype Arming = Arming(
    rf: Option<Trouble>,
    view: Result<View, Trouble>,
    polled: Result<LanReceipts.Snapshot, Trouble>,
    checkedAt: real,
    effect: Option<Trouble>)

  /** Everything the environment may answer during one turn of the loop. */
  datatype Look = Look(
    polled: Result<LanReceipts.Snapshot, Trouble>,
    now: real,
    sameBoot: bool,
    injectAt: real,
    arming: Arming,
    armedNow: real,
    leaseValid: bool,
    tableOwned: Option<Trouble>,
    rf: Option<Trouble>,
    view: Result<View, Trouble>,
    health: Result<Health, Trouble>,
    powerWarning: bool,
    nameServed: bool,
    restored: Restoration,
    removedAt: real,
    recoveredAt: real,
    finishAsked: Result<LanReceipts.Snapshot, Trouble>,
    sampledAt: real,
    budgetAt: real,
    recoveryAt: real)

  datatype Plan = Plan(failureSeconds: int, recoverySeconds: int, pollSeconds: int)

  datatype Outcome = Returned(verdict: Verdict, reason: string) | Raised

  const INCONCLUSIVE_REASONS := {
    "lease_setup_too_slow", "lease_expired_before_injection", "cellular_preflight_changed", "collector_failed",
    "collector_unavailable", "collector_truncated", "collector_invalid", "firewall_table_collision", "expiry_not_armed"}

  const IDENTITY_REASONS := {
    "wifi_identity_unverified", "wifi_profile_changed", "wan_identity_unverified", "wan_permanent_identity_unverified",
    "configured_wan_identity_changed", "wan_addresses_ambiguous", "preferred_interface_or_address_lost",
    "direct_ipv4_lan_ssh_required", "independent_direct_lan_control_required", "ssh_server_not_lan_address",
    "policy_routing_unsupported"}

  const AMBIGUOUS_REASONS := {
    "cellular_ownership_unavailable", "unexpected_manager_ownership", "operator_or_replaced_cellular_session",
    "cellular_ownership_unproven", "cellular_state_ambiguous", "effective_route_ambiguous",
    "effective_route_unverified", "route_snapshot_identity_changed", "route_snapshot_unstable"}

  function Explain(t: Trouble): Outcome {
    match t
    case RfBlocked => Returned(Aborted, "rf_safety_changed")
    case Ambiguity(reason) =>
      Returned(Inconclusive, if reason in AMBIGUOUS_REASONS then reason else "cellular_ownership_or_route_unproven")
    case Refused(reason) =>
      if reason in INCONCLUSIVE_REASONS then Returned(Inconclusive, reason)
      else if reason == "unexpected_failed_service" then Returned(Failed, reason)
      else if reason in IDENTITY_REASONS then Returned(Aborted, "control_or_preferred_identity_changed")
      else Returned(Inconclusive, "required_cellular_observation_unavailable")
    case Execution => Returned(HarnessError, "cellular_execution_error")
    case Interrupted => Returned(Aborted, "interrupted")
  }

  // ---- The trace ----

  datatype Event =
    | WitnessReady(book: LanReceipts.Book, at: real)
    | FaultArmed(at: real, check: View, book: LanReceipts.Book, checkedAt: real)
    /** `checked` says whether lease and table were looked at, `underLease` whether they stood. */
    | Observed(at: real, view: View, ownership: Ownership, health: Health, warned: bool, checked: bool, underLease: bool)
    | NameUnserved
    | FaultRemoved(at: real, world: FaultLedger.World)
    | RecoveryObserved(at: real)
    | Concluded(at: real, book: LanReceipts.Book)
    | CleanupVerified

  predicate ReadyAt(trace: seq<Event>, i: int) {
    0 <= i < |trace| && trace[i].WitnessReady? && LanReceipts.Ready(trace[i].book, trace[i].at)
  }

  /** Armed at `at`, after a final check that found everything healthy and the witness ready. */
  predicate ArmedAt(trace: seq<Event>, i: int, at: real) {
    && 0 <= i < |trace| && trace[i].FaultArmed? && trace[i].at == at
    && trace[i].check.sameFixed && HealthyStart(trace[i].check) && LanReceipts.Ready(trace[i].book, trace[i].checkedAt)
  }

  /**
   A sample with both preferred paths down and cellular carrying the traffic; lease and table are looked at exactly
   while the kernel's timeout runs, and then they stood.
   */
  predicate ProvenAt(plan: Plan, duration: int, trace: seq<Event>, i: int, injected: real) {
    && 0 <= i < |trace| && trace[i].Observed?
    && trace[i].ownership.standing == OwnedActive && BothPreferredDown(trace[i].view) && CellularCarries(trace[i].view)
    && trace[i].at - injected >= (plan.failureSeconds - plan.pollSeconds - 8) as real
    && (trace[i].checked <==> trace[i].at - injected < duration as real) && (trace[i].checked ==> trace[i].underLease)
  }

  /** Removed in a world in which nothing of the session was left. */
  predicate RemovedAt(session: string, trace: seq<Event>, i: int, at: real) {
    0 <= i < |trace| && trace[i].FaultRemoved? && trace[i].at == at && FaultLedger.Clean(trace[i].world, session)
  }

  predicate ReleasedAt(plan: Plan, trace: seq<Event>, i: int, removed: real) {
    && 0 <= i < |trace| && trace[i].Observed?
    && trace[i].ownership.standing == Inactive && EthernetSelected(trace[i].view) && trace[i].view.effective == Ethernet
    && !trace[i].view.cellular.owned && !trace[i].view.cellular.active
    && trace[i].at - removed >= (plan.recoverySeconds - plan.pollSeconds - 2) as real
  }

  predicate RecoveredAt(trace: seq<Event>, i: int, at: real) {
    0 <= i < |trace| && trace[i] == RecoveryObserved(at)
  }

  /** Where in the trace the stages of a campaign stand, and when they happened. */
  datatype Stages = Stages(ready: int, armed: int, proven: int, removed: int, released: int, recovered: int,
                           injectedAt: real, removedAt: real, recoveredAt: real)

  predicate UpToFault(trace: seq<Event>, s: Stages) {
    s.ready < s.armed && ReadyAt(trace, s.ready) && ArmedAt(trace, s.armed, s.injectedAt)
  }

  /** What one campaign is about. */
  datatype Setting = Setting(session: string, plan: Plan, duration: int, started: real)

  predicate UpToRemoval(c: Setting, trace: seq<Event>, s: Stages) {
    && UpToFault(trace, s) && s.armed < s.proven < s.removed
    && ProvenAt(c.plan, c.duration, trace, s.proven, s.injectedAt) && RemovedAt(c.session, trace, s.removed, s.removedAt)
  }

  predicate UpToRecovery(c: Setting, trace: seq<Event>, s: Stages) {
    && UpToRemoval(c, trace, s) && s.removed < s.released < s.recovered
    && ReleasedAt(c.plan, trace, s.released, s.removedAt) && RecoveredAt(trace, s.recovered, s.recoveredAt)
  }

  function RecoveryBudget(plan: Plan): int { plan.recoverySeconds + 3 * plan.pollSeconds + 8 }

  /** Every sample of the book was good, and no instant of the window is without one. */
  ghost predicate Covered(book: LanReceipts.Book, start: real, end: real) {
    LanReceipts.AllOk(book.samples) && forall t :: start <= t <= end ==> LanReceipts.Witnessed(book.samples, t)
  }

  /** The whole of a passed campaign: all stages in order, concluded in time, the witness covering fault and recovery. */
  ghost predicate Justified(c: Setting, trace: seq<Event>, s: Stages, end: int) {
    && UpToRecovery(c, trace, s) && s.recovered < end < |trace| && trace[end].Concluded?
    && trace[end].at - s.removedAt <= RecoveryBudget(c.plan) as real
    && Covered(trace[end].book, s.injectedAt, s.recoveredAt)
  }

  /** When the fault was last injected, and when it was removed, as far as the trace tells. */
  function InjectedIn(trace: seq<Event>): Option<real> {
    if trace == [] then None
    else if trace[|trace| - 1].FaultArmed? then Some(trace[|trace| - 1].at) else InjectedIn(trace[..|trace| - 1])
  }

  function RemovedIn(trace: seq<Event>): Option<real> {
    if trace == [] then None
    else if trace[|trace| - 1].FaultRemoved? then Some(trace[|trace| - 1].at) else RemovedIn(trace[..|trace| - 1])
  }

  /** Under the fault, the uplink manager took a cellular session before it can have seen the failure long enough. */
  predicate EarlyActivation(plan: Plan, trace: seq<Event>, i: int) {
    && 0 <= i < |trace| && trace[i].Observed? && RemovedIn(trace[..i]).None? && InjectedIn(trace[..i]).Some?
    && (trace[i].ownership.standing == OwnedActive || trace[i].ownership.standing == OwnedPending)
    && trace[i].at - InjectedIn(trace[..i]).value < (plan.failureSeconds - plan.pollSeconds - 8) as real
  }

  /** After the removal, Ethernet carries the traffic again before it can have been seen healthy long enough. */
  predicate EarlyReturn(plan: Plan, trace: seq<Event>, i: int) {
    && 0 <= i < |trace| && trace[i].Observed? && RemovedIn(trace[..i]).Some?
    && EthernetSelected(trace[i].view) && trace[i].view.effective == Ethernet
    && trace[i].at - RemovedIn(trace[..i]).value < (plan.recoverySeconds - plan.pollSeconds - 2) as real
  }

  predicate Early(plan: Plan, trace: seq<Event>, i: int) { EarlyActivation(plan, trace, i) || EarlyReturn(plan, trace, i) }

  predicate NoneEarly(plan: Plan, trace: seq<Event>) {
    forall i :: 0 <= i < |trace| ==> !Early(plan, trace, i)
  }

  predicate SampleSound(e: Event, token: Option<Token>) {
    e.Observed? ==>
      && e.view.sameFixed && (e.health == Healthy || e.health == Observation)
      && (e.ownership.token.Some? ==> e.ownership.token == token)
  }

  /** Every sample kept the baseline's identities, was healthy enough, and saw no session but the one. */
  predicate SamplesSound(trace: seq<Event>, token: Option<Token>) {
    forall i :: 0 <= i < |trace| ==> SampleSound(trace[i], token)
  }

  predicate ArmedOnce(trace: seq<Event>, injected: bool) {
    && (forall i, j :: 0 <= i < j < |trace| && trace[i].FaultArmed? ==> !trace[j].FaultArmed?)
    && (!injected ==> forall i :: 0 <= i < |trace| ==> !trace[i].FaultArmed?)
  }

  predicate Warns(e: Event) { e == NameUnserved || (e.Observed? && e.warned) }

  predicate Warned(trace: seq<Event>) { exists i :: 0 <= i < |trace| && Warns(trace[i]) }

  lemma StagesKept(c: Setting, trace: seq<Event>, e: Event, s: Stages)
    ensures UpToFault(trace, s) ==> UpToFault(trace + [e], s)
    ensures UpToRemoval(c, trace, s) ==> UpToRemoval(c, trace + [e], s)
    ensures UpToRecovery(c, trace, s) ==> UpToRecovery(c, trace + [e], s)
  {
    hide LanReceipts.Ready, HealthyStart, EthernetSelected, CellularCarries, BothPreferredDown, FaultLedger.Clean;
  }

  lemma StagesWithin(c: Setting, trace: seq<Event>, s: Stages)
    ensures UpToFault(trace, s) ==> s.armed < |trace|
    ensures UpToRemoval(c, trace, s) ==> s.removed < |trace|
  {
    hide LanReceipts.Ready, HealthyStart, EthernetSelected, CellularCarries, BothPreferredDown, FaultLedger.Clean;
  }

  lemma SamplesKept(trace: seq<Event>, e: Event, token: Option<Token>)
    requires SamplesSound(trace, token) && SampleSound(e, token)
    ensures SamplesSound(trace + [e], token)
  {
    hide SampleSound;
  }

  lemma WarnedKept(trace: seq<Event>, e: Event)
    ensures Warned(trace + [e]) <==> Warned(trace) || Warns(e)
  {
    hide Warns;
    assert (trace + [e])[|trace|] == e;
    if i :| 0 <= i < |trace| && Warns(trace[i]) {
      assert Warns((trace + [e])[i]);
    }
  }

  lemma FirstToken(trace: seq<Event>, token: Token)
    requires SamplesSound(trace, None)
    ensures SamplesSound(trace, Some(token))
  {
    forall i | 0 <= i < |trace| ensures SampleSound(trace[i], Some(token)) {
      assert SampleSound(trace[i], None);
    }
  }

  lemma SameToken(f: Facts, expected: Option<Token>, recovering: bool)
    requires Judge(f, expected, recovering).Ok? && Judge(f, expected, recovering).value.token.Some?
    ensures expected.None? || expected == Judge(f, expected, recovering).value.token
  {
  }

  // ---- The campaign, turn by turn ----

  datatype State = State(worker: LanReceipts.Worker, injected: Option<real>, removed: Option<real>, recovered: Option<real>,
                         token: Option<Token>, warning: bool, nextSample: real, trace: seq<Event>)

  /** The state after a part of a turn, and the outcome if the campaign ends there. */
  datatype Turned = Turned(state: State, stop: Option<Outcome>)

  function Beginning(c: Setting): State { State(LanReceipts.NEW, None, None, None, None, false, c.started, []) }

  function Stop(s: State, outcome: Outcome): Turned { Turned(s, Some(outcome)) }

  /** An event is recorded; a warning stays with the campaign. */
  function Emitted(s: State, e: Event): State { s.(trace := s.trace + [e], warning := s.warning || Warns(e)) }

  /** What the parent knows of its receiver after an exchange with it. */
  function Learned(session: string, known: LanReceipts.Worker, answer: Result<LanReceipts.Snapshot, Trouble>)
    : Result<LanReceipts.Worker, Outcome>
  {
    match answer
    case Err(trouble) => Err(Explain(trouble))
    case Ok(snapshot) =>
      match LanReceipts.UpdateSpec(session, known, snapshot)
      case Err(_) => Err(Explain(Execution))
      case Ok(w) => Ok(w)
  }

  function InjectSpec(c: Setting, s: State, look: Look): Turned {
    if look.now - c.started > 45.0 then Stop(s, Returned(Blocked, "verified_lan_witness_missing"))
    else if !LanReceipts.Ready(s.worker.book, look.now) then Turned(s, None)
    else ArmSpec(c, Emitted(s, WitnessReady(s.worker.book, look.now)), look.arming, look.injectAt)
  }

  function ArmSpec(c: Setting, s: State, arming: Arming, at: real): Turned {
    if arming.rf.Some? then Stop(s, Explain(arming.rf.value))
    else if arming.view.Err? then Stop(s, Explain(arming.view.error))
    else
      match Learned(c.session, s.worker, arming.polled)
      case Err(outcome) => Stop(s, outcome)
      case Ok(w) =>
        if !arming.view.value.sameFixed || !HealthyStart(arming.view.value) || !LanReceipts.Ready(w.book, arming.checkedAt)
        then Stop(s.(worker := w), Explain(Refused("cellular_preflight_changed")))
        else if arming.effect.Some? then Stop(s.(worker := w), Explain(arming.effect.value))
        else Turned(s.(worker := w, injected := Some(at),
                       trace := s.trace + [FaultArmed(at, arming.view.value, w.book, arming.checkedAt)]), None)
  }

  /** The kernel's timeout runs, and the fault has not been removed. */
  predicate Guarded(c: Setting, s: State, now: real) {
    s.injected.Some? && s.removed.None? && now - s.injected.value < c.duration as real
  }

  function KeepSpec(c: Setting, s: State, look: Look, now: real): Turned {
    if s.worker.book.invalid then Stop(s, Returned(Inconclusive, "witness_contact_lost"))
    else if !LanReceipts.AllOk(s.worker.book.samples) then Stop(s, Returned(Failed, "lan_http_sample_failed"))
    else if !LanReceipts.Ready(s.worker.book, now) then Stop(s, Returned(Inconclusive, "witness_contact_lost"))
    else if Guarded(c, s, now) && !look.leaseValid then Stop(s, Returned(Aborted, "fault_lease_lost"))
    else Turned(s, None)
  }

  /** Polls the receiver, injects once the witness is ready, and checks that contact and lease still hold. */
  function ContactSpec(c: Setting, s: State, look: Look): (Turned, real) {
    match Learned(c.session, s.worker, look.polled)
    case Err(outcome) => (Stop(s, outcome), look.now)
    case Ok(w) =>
      var known := s.(worker := w);
      if !look.sameBoot then (Stop(known, Returned(Aborted, "boot_changed")), look.now)
      else if s.injected.Some? then (KeepSpec(c, known, look, look.now), look.now)
      else
        var t := InjectSpec(c, known, look);
        if t.stop.Some? || t.state.injected.None? then (t, look.now)
        else (KeepSpec(c, t.state, look, look.armedNow), look.armedNow)
  }

  function ObserveSpec(c: Setting, s: State, look: Look, now: real): (r: Turned)
    ensures r.state.injected == s.injected && r.state.removed == s.removed
    ensures r.stop.None? ==> look.view.Ok?
  {
    hide Judge;
    if Guarded(c, s, now) && look.tableOwned.Some? then Stop(s, Explain(look.tableOwned.value))
    else if look.rf.Some? then Stop(s, Explain(look.rf.value))
    else if look.view.Err? then Stop(s, Explain(look.view.error))
    else if !look.view.value.sameFixed then Stop(s, Returned(Aborted, "cellular_identity_or_policy_changed"))
    else
      match Judge(look.view.value.facts, s.token, s.removed.Some?)
      case Err(reason) => Stop(s, Explain(Ambiguity(reason)))
      case Ok(ownership) =>
        HealthSpec(c, if ownership.token.Some? then s.(token := ownership.token) else s, look, now, ownership)
  }

  function HealthSpec(c: Setting, s: State, look: Look, now: real, ownership: Ownership): (r: Turned)
    requires look.view.Ok?
    ensures r.state.injected == s.injected && r.state.removed == s.removed
  {
    if look.health.Err? then Stop(s, Explain(look.health.error))
    else if look.health.value == Unhealthy then Stop(s, Returned(Failed, "required_observation_unhealthy"))
    else if look.health.value == Unknown then Stop(s, Returned(Inconclusive, "required_observation_unhealthy"))
    else
      Turned(Emitted(s, Observed(now, look.view.value, ownership, look.health.value, look.powerWarning, Guarded(c, s, now),
                                 look.leaseValid && look.tableOwned.None?)), None)
  }

  /** A sample under the fault: too early is a failure, a proof removes the fault. */
  function FallbackSpec(c: Setting, s: State, look: Look, now: real, view: View, standing: Standing): (r: Turned)
    requires s.injected.Some?
    ensures r.state.injected == s.injected
  {
    hide Answer, BothPreferredDown, CellularCarries;
    if standing in {OwnedActive, OwnedPending}
       && now - s.injected.value < (c.plan.failureSeconds - c.plan.pollSeconds - 8) as real
    then Stop(s, Returned(Failed, "cellular_activation_before_failure_window"))
    else if BothPreferredDown(view) && standing == OwnedActive && CellularCarries(view) then
      var named := if look.nameServed then s else Emitted(s, NameUnserved);
      match Answer(c.session, look.restored)
      case Err(trouble) => Stop(named, Explain(trouble))
      case Ok(world) =>
        Turned(Emitted(named, FaultRemoved(look.removedAt, world)).(removed := Some(look.removedAt)), None)
    else Turned(s, None)
  }

  /** A sample after the removal: too early a return is a failure, a release ends the recovery. */
  function RecoverySpec(c: Setting, s: State, look: Look, now: real, view: View, standing: Standing): (r: Turned)
    requires s.removed.Some?
    ensures r.state.injected == s.injected
  {
    hide Learned, EthernetSelected;
    if !EthernetSelected(view) || view.effective != Ethernet then Turned(s, None)
    else if now - s.removed.value < (c.plan.recoverySeconds - c.plan.pollSeconds - 2) as real
    then Stop(s, Returned(Failed, "preferred_recovery_before_hysteresis_window"))
    else if standing == Inactive && !view.cellular.owned && !view.cellular.active && s.recovered.None? then
      var done := Emitted(s, RecoveryObserved(look.recoveredAt)).(recovered := Some(look.recoveredAt));
      match Learned(c.session, s.worker, look.finishAsked)
      case Err(outcome) => Stop(done, outcome)
      case Ok(w) => Turned(done.(worker := w), None)
    else Turned(s, None)
  }

  function LastStanding(s: State): Standing {
    if s.trace != [] && s.trace[|s.trace| - 1].Observed? then s.trace[|s.trace| - 1].ownership.standing else Inactive
  }

  function JudgedSpec(c: Setting, s: State, look: Look, now: real, view: View): (r: Turned)
    requires s.injected.Some?
    ensures r.state.injected == s.injected
  {
    hide FallbackSpec, RecoverySpec;
    if s.removed.None? then FallbackSpec(c, s, look, now, view, LastStanding(s))
    else RecoverySpec(c, s, look, now, view, LastStanding(s))
  }

  /** Observes and judges one sample. */
  function SampleSpec(c: Setting, s: State, look: Look, now: real): (r: Turned)
    requires s.injected.Some?
    ensures r.state.injected == s.injected
  {
    hide ObserveSpec, JudgedSpec;
    var seen := ObserveSpec(c, s, look, now);
    if seen.stop.Some? then seen
    else
      var judged := JudgedSpec(c, seen.state, look, now, look.view.value);
      if judged.stop.Some? then judged else Turned(judged.state.(nextSample := look.sampledAt + 2.0), None)
  }

  function Conclusion(s: State): Verdict
    requires s.injected.Some? && s.recovered.Some?
  {
    match LanReceipts.Coverage(s.worker.book, s.injected.value, s.recovered.value)
    case Pass => if s.warning then PassedWithObservation else Passed
    case Fail => Failed
    case Inconclusive => Verdict.Inconclusive
  }

  function EndSpec(c: Setting, s: State, look: Look): Turned
    requires s.injected.Some?
  {
    if s.removed.None? && look.budgetAt - s.injected.value >= c.duration as real
    then Stop(s, Returned(Failed, "automatic_cellular_fallback_not_proven_within_budget"))
    else if s.removed.Some? && look.recoveryAt - s.removed.value > RecoveryBudget(c.plan) as real
    then Stop(s, Returned(Failed, "preferred_recovery_or_owned_release_deadline"))
    else if s.recovered.Some? && s.worker.finished
    then Stop(Emitted(s, Concluded(look.recoveryAt, s.worker.book)),
              Returned(Conclusion(s), "automatic_cellular_ownership_and_release"))
    else Turned(s, None)
  }

  /** One turn of the loop. */
  function TurnSpec(c: Setting, s: State, look: Look): Turned {
    hide ContactSpec, SampleSpec, EndSpec;
    var (t, now) := ContactSpec(c, s, look);
    if t.stop.Some? || t.state.injected.None? then t
    else
      var u := if now >= t.state.nextSample then SampleSpec(c, t.state, look, now) else t;
      if u.stop.Some? then u else EndSpec(c, u.state, look)
  }

  function RunSpec(c: Setting, s: State, looks: seq<Look>): Turned
    decreases |looks|
  {
    if looks == [] then Turned(s, None)
    else
      var t := TurnSpec(c, s, looks[0]);
      if t.stop.Some? then t else RunSpec(c, t.state, looks[1..])
  }

  // ---- What every turn keeps ----

  /** The evidence that a state carries: the stages it has been through stand in its trace, in order. */
  predicate Evident(c: Setting, s: State, g: Stages) {
    && (s.injected.None? ==> s.removed.None?) && (s.removed.None? ==> s.recovered.None?)
    && (s.injected.Some? ==> g.injectedAt == s.injected.value && UpToFault(s.trace, g))
    && (s.removed.Some? ==> g.removedAt == s.removed.value && UpToRemoval(c, s.trace, g))
    && (s.recovered.Some? ==> g.recoveredAt == s.recovered.value && UpToRecovery(c, s.trace, g))
    && SamplesSound(s.trace, s.token) && ArmedOnce(s.trace, s.injected.Some?) && (s.warning <==> Warned(s.trace))
    && LanReceipts.Sound(s.worker)
  }

  predicate Passes(stop: Option<Outcome>) {
    stop.Some? && stop.value.Returned? && stop.value.verdict in {Passed, PassedWithObservation}
  }

  /** The evidence stands, and the campaign does not end here with a pass. */
  predicate Goes(c: Setting, t: Turned, g: Stages) {
    Evident(c, t.state, g) && (t.stop.Some? ==> t.stop.value.Returned?) && !Passes(t.stop)
  }

  lemma EmitKeeps(c: Setting, s: State, g: Stages, e: Event)
    requires Evident(c, s, g) && !e.FaultArmed? && SampleSound(e, s.token)
    ensures Evident(c, Emitted(s, e), g)
  {
    hide UpToFault, UpToRemoval, UpToRecovery, SamplesSound, Warned, SampleSound, LanReceipts.Sound, Warns;
    StagesKept(c, s.trace, e, g);
    SamplesKept(s.trace, e, s.token);
    WarnedKept(s.trace, e);
  }

  lemma LearnedIsSound(session: string, known: LanReceipts.Worker, answer: Result<LanReceipts.Snapshot, Trouble>)
    ensures match Learned(session, known, answer)
      case Ok(w) => LanReceipts.Sound(w) && known.book.samples <= w.book.samples && (known.finished ==> w.finished)
      case Err(outcome) => !Passes(Some(outcome)) && outcome.Returned?
  {
    hide LanReceipts.UpdateSpec, LanReceipts.Sound;
    if answer.Ok? && LanReceipts.UpdateSpec(session, known, answer.value).Ok? {
      LanReceipts.UpdateOnlyExtends(session, known, answer.value);
    }
  }

  lemma InjectKeeps(c: Setting, s: State, g: Stages, look: Look) returns (g': Stages)
    requires Evident(c, s, g) && s.injected.None?
    ensures Goes(c, InjectSpec(c, s, look), g')
  {
    g' := g;
    if look.now - c.started <= 45.0 && LanReceipts.Ready(s.worker.book, look.now) {
      var e := WitnessReady(s.worker.book, look.now);
      EmitKeeps(c, s, g, e);
      assert ReadyAt(s.trace + [e], |s.trace|);
      hide Evident, Goes, LanReceipts.Ready;
      g' := ArmKeeps(c, Emitted(s, e), g, look.arming, look.injectAt);
    } else {
      hide Evident, LanReceipts.Ready;
    }
  }

  lemma ArmKeeps(c: Setting, s: State, g: Stages, arming: Arming, at: real) returns (g': Stages)
    requires Evident(c, s, g) && s.injected.None? && s.trace != [] && ReadyAt(s.trace, |s.trace| - 1)
    ensures Goes(c, ArmSpec(c, s, arming, at), g')
  {
    g' := g;
    LearnedIsSound(c.session, s.worker, arming.polled);
    hide HealthyStart, LanReceipts.Ready, LanReceipts.Sound, SamplesSound, Warned, UpToRemoval, UpToRecovery, Learned;
    if arming.rf.None? && arming.view.Ok? && Learned(c.session, s.worker, arming.polled).Ok? {
      var w := Learned(c.session, s.worker, arming.polled).value;
      var e := FaultArmed(at, arming.view.value, w.book, arming.checkedAt);
      if arming.view.value.sameFixed && HealthyStart(arming.view.value) && LanReceipts.Ready(w.book, arming.checkedAt)
         && arming.effect.None? {
        g' := Stages(|s.trace| - 1, |s.trace|, 0, 0, 0, 0, at, 0.0, 0.0);
        SamplesKept(s.trace, e, s.token);
        WarnedKept(s.trace, e);
      }
    }
  }

  lemma KeepKeeps(c: Setting, s: State, g: Stages, look: Look, now: real)
    requires Evident(c, s, g)
    ensures var t := KeepSpec(c, s, look, now);
      Goes(c, t, g) && t.state == s && (t.stop.None? && Guarded(c, s, now) ==> look.leaseValid)
  {
    hide Evident, LanReceipts.Ready, LanReceipts.AllOk;
  }

  lemma ContactKeeps(c: Setting, s: State, g: Stages, look: Look) returns (g': Stages)
    requires Evident(c, s, g)
    ensures var (t, now) := ContactSpec(c, s, look);
      Goes(c, t, g') && (t.stop.None? && Guarded(c, t.state, now) ==> look.leaseValid)
  {
    g' := g;
    LearnedIsSound(c.session, s.worker, look.polled);
    hide Learned, InjectSpec, KeepSpec, LanReceipts.Sound, SamplesSound, Warned, UpToFault, UpToRemoval, UpToRecovery;
    if Learned(c.session, s.worker, look.polled).Ok? && look.sameBoot {
      var known := s.(worker := Learned(c.session, s.worker, look.polled).value);
      assert Evident(c, known, g);
      hide Evident;
      if s.injected.Some? {
        KeepKeeps(c, known, g, look, look.now);
      } else {
        g' := InjectKeeps(c, known, g, look);
        var t := InjectSpec(c, known, look);
        if t.stop.None? && t.state.injected.Some? {
          KeepKeeps(c, t.state, g', look, look.armedNow);
        }
      }
    }
  }

  /** A sample is the last event, with what was seen and whether lease and table were looked at. */
  predicate SampleLast(c: Setting, s: State, look: Look, now: real, t: State) {
    && look.view.Ok? && |t.trace| == |s.trace| + 1 && t.trace[..|s.trace|] == s.trace && t.trace[|s.trace|].Observed?
    && var e := t.trace[|s.trace|];
    && e.at == now && e.view == look.view.value && Judge(look.view.value.facts, s.token, s.removed.Some?) == Ok(e.ownership)
    && (e.checked <==> Guarded(c, s, now)) && (e.underLease <==> look.leaseValid && look.tableOwned.None?)
    && t.injected == s.injected && t.removed == s.removed && t.recovered == s.recovered && t.worker == s.worker
  }

  lemma ObserveKeeps(c: Setting, s: State, g: Stages, look: Look, now: real)
    requires Evident(c, s, g)
    ensures var t := ObserveSpec(c, s, look, now);
      && Goes(c, t, g)
      && (t.stop.None? ==> SampleLast(c, s, look, now, t.state)
                           && (Guarded(c, s, now) ==> look.tableOwned.None?))
  {
    hide Evident, Judge, HealthSpec;
    if look.view.Ok? && look.view.value.sameFixed && Judge(look.view.value.facts, s.token, s.removed.Some?).Ok? {
      var ownership := Judge(look.view.value.facts, s.token, s.removed.Some?).value;
      var known := if ownership.token.Some? then s.(token := ownership.token) else s;
      TokenKeeps(c, s, g, look.view.value.facts);
      HealthKeeps(c, known, g, look, now, ownership);
    }
  }

  lemma TokenKeeps(c: Setting, s: State, g: Stages, f: Facts)
    requires Evident(c, s, g) && Judge(f, s.token, s.removed.Some?).Ok?
    ensures var ownership := Judge(f, s.token, s.removed.Some?).value;
      var known := if ownership.token.Some? then s.(token := ownership.token) else s;
      Evident(c, known, g) && (ownership.token.Some? ==> ownership.token == known.token)
  {
    var ownership := Judge(f, s.token, s.removed.Some?).value;
    if ownership.token.Some? {
      SameToken(f, s.token, s.removed.Some?);
      if s.token.None? {
        FirstToken(s.trace, ownership.token.value);
      }
    }
    hide SamplesSound, Warned, UpToFault, UpToRemoval, UpToRecovery, LanReceipts.Sound, Judge, ArmedOnce;
  }

  lemma HealthKeeps(c: Setting, s: State, g: Stages, look: Look, now: real, ownership: Ownership)
    requires Evident(c, s, g) && look.view.Ok? && look.view.value.sameFixed
    requires ownership.token.Some? ==> ownership.token == s.token
    ensures var t := HealthSpec(c, s, look, now, ownership);
      && Goes(c, t, g)
      && (t.stop.None? ==>
            exists e: Event :: t.state == Emitted(s, e) && e.Observed? && e.at == now && e.view == look.view.value
              && e.ownership == ownership && (e.checked <==> Guarded(c, s, now))
              && (e.underLease <==> look.leaseValid && look.tableOwned.None?))
  {
    hide Evident;
    if look.health.Ok? && look.health.value in {Healthy, Observation} {
      var e := Observed(now, look.view.value, ownership, look.health.value, look.powerWarning, Guarded(c, s, now),
                        look.leaseValid && look.tableOwned.None?);
      EmitKeeps(c, s, g, e);
      hide Emitted;
      assert HealthSpec(c, s, look, now, ownership).state == Emitted(s, e);
    }
  }

  lemma FallbackKeeps(c: Setting, s: State, g: Stages, look: Look, now: real) returns (g': Stages)
    requires Evident(c, s, g) && s.injected.Some? && s.removed.None? && s.trace != [] && look.view.Ok?
    requires var e := s.trace[|s.trace| - 1];
      && e.Observed? && e.at == now && e.view == look.view.value && g.armed < |s.trace| - 1
      && (e.checked <==> now - s.injected.value < c.duration as real) && (e.checked ==> e.underLease)
    ensures Goes(c, FallbackSpec(c, s, look, now, look.view.value, LastStanding(s)), g')
  {
    g' := g;
    var view, standing := look.view.value, LastStanding(s);
    var early := standing in {OwnedActive, OwnedPending}
                 && now - s.injected.value < (c.plan.failureSeconds - c.plan.pollSeconds - 8) as real;
    if !early && BothPreferredDown(view) && standing == OwnedActive && CellularCarries(view) {
      assert ProvenAt(c.plan, c.duration, s.trace, |s.trace| - 1, s.injected.value);
      hide Evident, BothPreferredDown, CellularCarries, Answer, ProvenAt, Goes;
      g' := ProofKeeps(c, s, g, look);
    } else {
      hide Evident, Answer;
    }
  }

  /** What follows a proof of the fallback. */
  lemma ProofKeeps(c: Setting, s: State, g: Stages, look: Look) returns (g': Stages)
    requires Evident(c, s, g) && s.injected.Some? && s.removed.None? && g.armed < |s.trace| - 1
    requires ProvenAt(c.plan, c.duration, s.trace, |s.trace| - 1, s.injected.value)
    ensures var named := if look.nameServed then s else Emitted(s, NameUnserved);
      match Answer(c.session, look.restored)
      case Err(trouble) => Goes(c, Stop(named, Explain(trouble)), g')
      case Ok(world) => Goes(c, Turned(Emitted(named, FaultRemoved(look.removedAt, world)).(removed := Some(look.removedAt)), None), g')
  {
    g' := g;
    var named := if look.nameServed then s else Emitted(s, NameUnserved);
    assert Evident(c, named, g) && named.trace[..|s.trace|] == s.trace by {
      hide Evident;
      if !look.nameServed {
        EmitKeeps(c, s, g, NameUnserved);
      }
    }
    hide Answer, ProvenAt, Evident;
    if Answer(c.session, look.restored).Ok? {
      var e := FaultRemoved(look.removedAt, Answer(c.session, look.restored).value);
      RestoredIsClean(c.session, look.restored);
      ProofStays(c, s.trace, named.trace + [e], s.injected.value);
      g' := g.(proven := |s.trace| - 1, removed := |named.trace|, removedAt := look.removedAt);
      RemovalKeeps(c, named, g, e, g');
    }
  }

  lemma RemovalKeeps(c: Setting, s: State, g: Stages, e: Event, g': Stages)
    requires Evident(c, s, g) && s.injected.Some? && s.removed.None? && e.FaultRemoved?
    requires g' == g.(proven := g'.proven, removed := |s.trace|, removedAt := e.at) && g.armed < g'.proven < |s.trace|
    requires ProvenAt(c.plan, c.duration, s.trace + [e], g'.proven, s.injected.value)
    requires FaultLedger.Clean(e.world, c.session)
    ensures Evident(c, Emitted(s, e).(removed := Some(e.at)), g')
  {
    EmitKeeps(c, s, g, e);
    hide SamplesSound, Warned, ReadyAt, ArmedAt, ProvenAt, FaultLedger.Clean, LanReceipts.Sound, ArmedOnce, UpToRecovery, Warns;
  }

  lemma ProofStays(c: Setting, trace: seq<Event>, later: seq<Event>, injected: real)
    requires trace != [] && ProvenAt(c.plan, c.duration, trace, |trace| - 1, injected)
    requires |trace| <= |later| && later[..|trace|] == trace
    ensures ProvenAt(c.plan, c.duration, later, |trace| - 1, injected)
  {
    assert later[|trace| - 1] == trace[|trace| - 1];
    hide BothPreferredDown, CellularCarries;
  }

  lemma RecoveryKeeps(c: Setting, s: State, g: Stages, look: Look, now: real) returns (g': Stages)
    requires Evident(c, s, g) && s.removed.Some? && s.trace != [] && look.view.Ok?
    requires var e := s.trace[|s.trace| - 1];
      e.Observed? && e.at == now && e.view == look.view.value && g.removed < |s.trace| - 1
    ensures Goes(c, RecoverySpec(c, s, look, now, look.view.value, LastStanding(s)), g')
  {
    g' := g;
    LearnedIsSound(c.session, s.worker, look.finishAsked);
    var view, standing := look.view.value, LastStanding(s);
    hide EthernetSelected, Learned, LanReceipts.Sound;
    if EthernetSelected(view) && view.effective == Ethernet
       && now - s.removed.value >= (c.plan.recoverySeconds - c.plan.pollSeconds - 2) as real
       && standing == Inactive && !view.cellular.owned && !view.cellular.active && s.recovered.None? {
      var e := RecoveryObserved(look.recoveredAt);
      assert ReleasedAt(c.plan, s.trace, |s.trace| - 1, s.removed.value);
      EmitKeeps(c, s, g, e);
      g' := g.(released := |s.trace| - 1, recovered := |s.trace|, recoveredAt := look.recoveredAt);
      RecoveredKeeps(c, s, g, e, g');
    } else {
      hide Evident;
    }
  }

  lemma RecoveredKeeps(c: Setting, s: State, g: Stages, e: Event, g': Stages)
    requires Evident(c, s, g) && s.removed.Some? && s.recovered.None? && e.RecoveryObserved? && g.removed < |s.trace| - 1
    requires s.trace != [] && ReleasedAt(c.plan, s.trace, |s.trace| - 1, s.removed.value)
    requires g' == g.(released := |s.trace| - 1, recovered := |s.trace|, recoveredAt := e.at)
    ensures Evident(c, Emitted(s, e).(recovered := Some(e.at)), g')
  {
    EmitKeeps(c, s, g, e);
    assert (s.trace + [e])[|s.trace| - 1] == s.trace[|s.trace| - 1];
    hide SamplesSound, Warned, ReadyAt, ArmedAt, ProvenAt, RemovedAt, EthernetSelected, LanReceipts.Sound, ArmedOnce;
  }

  lemma SampleKeeps(c: Setting, s: State, g: Stages, look: Look, now: real) returns (g': Stages)
    requires Evident(c, s, g) && s.injected.Some? && (Guarded(c, s, now) ==> look.leaseValid)
    ensures Goes(c, SampleSpec(c, s, look, now), g') && SampleSpec(c, s, look, now).state.injected == s.injected
  {
    g' := g;
    hide *;
    PlacedBefore(c, s, g);
    ObserveKeeps(c, s, g, look, now);
    var seen := ObserveSpec(c, s, look, now);
    if seen.stop.None? {
      SampleFacts(c, s, look, now, seen.state);
      GoesOn(c, seen, g);
      g' := JudgedKeeps(c, seen.state, g, look, now);
      NextSampleFree(c, JudgedSpec(c, seen.state, look, now, look.view.value), g', look.sampledAt + 2.0);
    }
    SampleParts(c, s, look, now);
  }

  lemma GoesOn(c: Setting, t: Turned, g: Stages)
    requires Goes(c, t, g)
    ensures Evident(c, t.state, g)
  {
    hide Evident;
  }

  lemma SampleParts(c: Setting, s: State, look: Look, now: real)
    requires s.injected.Some?
    ensures var seen, r := ObserveSpec(c, s, look, now), SampleSpec(c, s, look, now);
      if seen.stop.Some? then r == seen
      else
        var judged := JudgedSpec(c, seen.state, look, now, look.view.value);
        r == if judged.stop.Some? then judged else judged.(state := judged.state.(nextSample := look.sampledAt + 2.0))
  {
    hide ObserveSpec, JudgedSpec;
  }

  lemma JudgedKeeps(c: Setting, s: State, g: Stages, look: Look, now: real) returns (g': Stages)
    requires Evident(c, s, g) && s.injected.Some? && s.trace != [] && look.view.Ok?
    requires g.armed < |s.trace| - 1 && (s.removed.Some? ==> g.removed < |s.trace| - 1)
    requires var e := s.trace[|s.trace| - 1];
      && e.Observed? && e.at == now && e.view == look.view.value && (e.checked ==> e.underLease)
      && (s.removed.None? ==> (e.checked <==> now - s.injected.value < c.duration as real))
    ensures Goes(c, JudgedSpec(c, s, look, now, look.view.value), g')
  {
    hide FallbackSpec, RecoverySpec, Evident, Goes;
    if s.removed.None? {
      g' := FallbackKeeps(c, s, g, look, now);
    } else {
      g' := RecoveryKeeps(c, s, g, look, now);
    }
  }

  lemma PlacedBefore(c: Setting, s: State, g: Stages)
    requires Evident(c, s, g) && s.injected.Some?
    ensures g.armed < |s.trace| && (s.removed.Some? ==> g.removed < |s.trace|)
  {
    StagesWithin(c, s.trace, g);
    hide UpToFault, UpToRemoval, UpToRecovery, SamplesSound, Warned, LanReceipts.Sound, ArmedOnce;
  }

  /** What is known of the last event when a sample was taken. */
  lemma SampleFacts(c: Setting, s: State, look: Look, now: real, t: State)
    requires SampleLast(c, s, look, now, t) && s.injected.Some?
    requires Guarded(c, s, now) ==> look.leaseValid && look.tableOwned.None?
    ensures |t.trace| == |s.trace| + 1 && t.injected == s.injected && t.removed == s.removed && look.view.Ok?
    ensures var e := t.trace[|t.trace| - 1];
      && e.Observed? && e.at == now && e.view == look.view.value && (e.checked ==> e.underLease)
      && (s.removed.None? ==> (e.checked <==> now - s.injected.value < c.duration as real))
  {
    hide Judge;
  }

  lemma NextSampleFree(c: Setting, t: Turned, g: Stages, next: real)
    requires Goes(c, t, g)
    ensures Goes(c, t.(state := t.state.(nextSample := next)), g)
  {
    hide SamplesSound, Warned, UpToFault, UpToRemoval, UpToRecovery, ArmedOnce;
  }

  /** A campaign that ends with a pass has the whole of it in its trace. */
  ghost predicate Ends(c: Setting, t: Turned, g: Stages) {
    && (t.stop.Some? ==> t.stop.value.Returned?)
    && (Passes(t.stop) ==>
          && t.state.trace != [] && Justified(c, t.state.trace, g, |t.state.trace| - 1) && ArmedOnce(t.state.trace, true)
          && SamplesSound(t.state.trace, t.state.token)
          && (t.stop.value.verdict == PassedWithObservation <==> Warned(t.state.trace)))
    && (t.stop.None? ==> Evident(c, t.state, g))
  }

  lemma EndKeeps(c: Setting, s: State, g: Stages, look: Look)
    requires Evident(c, s, g) && s.injected.Some?
    ensures Ends(c, EndSpec(c, s, look), g)
  {
    hide LanReceipts.Coverage, LanReceipts.Sound, Covered, UpToFault, UpToRemoval, Warned, SamplesSound;
    if !(s.removed.None? && look.budgetAt - s.injected.value >= c.duration as real)
       && !(s.removed.Some? && look.recoveryAt - s.removed.value > RecoveryBudget(c.plan) as real)
       && s.recovered.Some? && s.worker.finished {
      var e := Concluded(look.recoveryAt, s.worker.book);
      EmitKeeps(c, s, g, e);
      StagesKept(c, s.trace, e, g);
      assert (s.trace + [e])[|s.trace|] == e;
      if Conclusion(s) in {Passed, PassedWithObservation} {
        PassIsCovered(s.worker, s.injected.value, s.recovered.value);
      }
      hide UpToRecovery;
    }
  }

  lemma PassIsCovered(w: LanReceipts.Worker, start: real, end: real)
    requires LanReceipts.Sound(w) && LanReceipts.Coverage(w.book, start, end) == LanReceipts.Pass
    ensures Covered(w.book, start, end)
  {
    LanReceipts.PassIsWitnessed(w, start, end);
    hide LanReceipts.Witnessed, LanReceipts.Sound, LanReceipts.Coverage, LanReceipts.AllOk;
  }

  lemma GoesEnds(c: Setting, t: Turned, g: Stages)
    requires Goes(c, t, g)
    ensures Ends(c, t, g)
  {
    hide Evident;
  }

  lemma TurnKeeps(c: Setting, s: State, g: Stages, look: Look) returns (g': Stages)
    requires Evident(c, s, g)
    ensures Ends(c, TurnSpec(c, s, look), g')
  {
    hide ContactSpec, SampleSpec, EndSpec, Evident, Ends;
    g' := ContactKeeps(c, s, g, look);
    var (t, now) := ContactSpec(c, s, look);
    if t.stop.Some? || t.state.injected.None? {
      GoesEnds(c, t, g');
    } else {
      var u := t;
      if now >= t.state.nextSample {
        g' := SampleKeeps(c, t.state, g', look, now);
        u := SampleSpec(c, t.state, look, now);
      }
      if u.stop.Some? {
        GoesEnds(c, u, g');
      } else {
        EndKeeps(c, u.state, g', look);
      }
    }
  }

  lemma {:induction false} RunKeeps(c: Setting, s: State, g: Stages, looks: seq<Look>) returns (g': Stages)
    requires Evident(c, s, g)
    ensures Ends(c, RunSpec(c, s, looks), g')
    decreases |looks|
  {
    g' := g;
    if looks != [] {
      g' := TurnKeeps(c, s, g, looks[0]);
      hide TurnSpec, Evident;
      var t := TurnSpec(c, s, looks[0]);
      if t.stop.None? {
        g' := RunKeeps(c, t.state, g', looks[1..]);
      }
    } else {
      hide Evident;
    }
  }

  lemma BeginningEvident(c: Setting, g: Stages)
    ensures Evident(c, Beginning(c), g)
  {
  }

  // ---- Samples before their time ----

  /** The trace tells what the state says of injection and removal. */
  predicate Tells(s: State) {
    && InjectedIn(s.trace) == s.injected && RemovedIn(s.trace) == s.removed && (s.removed.Some? ==> s.injected.Some?)
    && RemovedOnce(s.trace)
  }

  predicate RemovedOnce(trace: seq<Event>) {
    forall i, j :: 0 <= i < j < |trace| && trace[i].FaultRemoved? ==> !trace[j].FaultRemoved?
  }

  const EARLY_ACTIVATION := Returned(Failed, "cellular_activation_before_failure_window")
  const EARLY_RETURN := Returned(Failed, "preferred_recovery_before_hysteresis_window")

  /** A sample before its time is the last event, and ends the campaign with the failure that names it; nothing else does. */
  predicate Timely(c: Setting, t: Turned) {
    var trace, last := t.state.trace, |t.state.trace| - 1;
    && Tells(t.state) && (forall i :: 0 <= i < last ==> !Early(c.plan, trace, i))
    && (t.stop == Some(EARLY_ACTIVATION) <==> EarlyActivation(c.plan, trace, last))
    && (t.stop == Some(EARLY_RETURN) <==> EarlyReturn(c.plan, trace, last))
  }

  lemma EarlyPrefix(plan: Plan, trace: seq<Event>, more: seq<Event>, i: int)
    requires i < |trace|
    ensures EarlyActivation(plan, trace + more, i) <==> EarlyActivation(plan, trace, i)
    ensures EarlyReturn(plan, trace + more, i) <==> EarlyReturn(plan, trace, i)
  {
    hide EthernetSelected, InjectedIn, RemovedIn;
    assert 0 <= i ==> (trace + more)[..i] == trace[..i] && (trace + more)[i] == trace[i];
  }

  lemma TellsNext(trace: seq<Event>, e: Event)
    ensures InjectedIn(trace + [e]) == if e.FaultArmed? then Some(e.at) else InjectedIn(trace)
    ensures RemovedIn(trace + [e]) == if e.FaultRemoved? then Some(e.at) else RemovedIn(trace)
    ensures (trace + [e])[..|trace|] == trace
  {
    assert (trace + [e])[..|trace|] == trace;
  }

  lemma {:induction false} NoRemovalYet(trace: seq<Event>)
    ensures RemovedIn(trace).None? <==> forall i :: 0 <= i < |trace| ==> !trace[i].FaultRemoved?
  {
    if trace != [] {
      NoRemovalYet(trace[..|trace| - 1]);
    }
  }

  /** An event that is no sample is never early. */
  lemma QuietEvent(c: Setting, s: State, e: Event)
    requires Tells(s) && NoneEarly(c.plan, s.trace) && !e.Observed? && !e.FaultArmed? && !e.FaultRemoved?
    ensures Tells(Emitted(s, e)) && NoneEarly(c.plan, Emitted(s, e).trace)
  {
    TellsNext(s.trace, e);
    hide InjectedIn, RemovedIn, Early, Warns;
    forall i | 0 <= i < |s.trace| + 1 ensures !Early(c.plan, s.trace + [e], i) {
      LaterNotEarly(c.plan, s.trace, e, i);
    }
  }

  lemma LaterNotEarly(plan: Plan, trace: seq<Event>, e: Event, i: int)
    requires NoneEarly(plan, trace) && (i < |trace| || !e.Observed?)
    ensures !Early(plan, trace + [e], i)
  {
    if 0 <= i < |trace| {
      EarlyPrefix(plan, trace, [e], i);
      assert !Early(plan, trace, i);
    }
    hide EthernetSelected, InjectedIn, RemovedIn;
  }

  /** A state without early samples is timely as long as the campaign does not end for one. */
  lemma NoneIsTimely(c: Setting, t: Turned)
    requires Tells(t.state) && NoneEarly(c.plan, t.state.trace) && t.stop != Some(EARLY_ACTIVATION) && t.stop != Some(EARLY_RETURN)
    ensures Timely(c, t)
  {
    hide EarlyActivation, EarlyReturn, Tells;
    var last := |t.state.trace| - 1;
    if last >= 0 {
      assert !Early(c.plan, t.state.trace, last);
    } else {
      NotBeforeStart(c.plan, t.state.trace, last);
    }
  }

  lemma NotBeforeStart(plan: Plan, trace: seq<Event>, i: int)
    requires i < 0
    ensures !EarlyActivation(plan, trace, i) && !EarlyReturn(plan, trace, i)
  {
  }

  lemma ExplainedOtherwise(trouble: Trouble)
    ensures Explain(trouble) != EARLY_ACTIVATION && Explain(trouble) != EARLY_RETURN
  {
  }

  lemma LearnedOtherwise(session: string, known: LanReceipts.Worker, answer: Result<LanReceipts.Snapshot, Trouble>)
    ensures Learned(session, known, answer).Err? ==>
      Learned(session, known, answer).error != EARLY_ACTIVATION && Learned(session, known, answer).error != EARLY_RETURN
  {
    hide LanReceipts.UpdateSpec;
  }

  lemma InjectTimely(c: Setting, s: State, look: Look)
    requires Tells(s) && NoneEarly(c.plan, s.trace) && s.injected.None?
    ensures var t := InjectSpec(c, s, look);
      Tells(t.state) && NoneEarly(c.plan, t.state.trace) && t.stop != Some(EARLY_ACTIVATION) && t.stop != Some(EARLY_RETURN)
  {
    hide LanReceipts.Ready, Tells, NoneEarly, ArmSpec;
    if look.now - c.started <= 45.0 && LanReceipts.Ready(s.worker.book, look.now) {
      var e := WitnessReady(s.worker.book, look.now);
      QuietEvent(c, s, e);
      ArmTimely(c, Emitted(s, e), look.arming, look.injectAt);
    }
  }

  lemma ArmTimely(c: Setting, s: State, arming: Arming, at: real)
    requires Tells(s) && NoneEarly(c.plan, s.trace) && s.injected.None?
    ensures var t := ArmSpec(c, s, arming, at);
      Tells(t.state) && NoneEarly(c.plan, t.state.trace) && t.stop != Some(EARLY_ACTIVATION) && t.stop != Some(EARLY_RETURN)
  {
    LearnedOtherwise(c.session, s.worker, arming.polled);
    hide Learned, HealthyStart, LanReceipts.Ready, InjectedIn, RemovedIn, Early;
    if arming.rf.None? && arming.view.Ok? && Learned(c.session, s.worker, arming.polled).Ok? {
      var w := Learned(c.session, s.worker, arming.polled).value;
      var e := FaultArmed(at, arming.view.value, w.book, arming.checkedAt);
      TellsNext(s.trace, e);
      forall i | 0 <= i < |s.trace| + 1 ensures !Early(c.plan, s.trace + [e], i) {
        LaterNotEarly(c.plan, s.trace, e, i);
      }
    }
  }

  lemma ContactTimely(c: Setting, s: State, look: Look)
    requires Tells(s) && NoneEarly(c.plan, s.trace)
    ensures var t := ContactSpec(c, s, look).0;
      Tells(t.state) && NoneEarly(c.plan, t.state.trace) && t.stop != Some(EARLY_ACTIVATION) && t.stop != Some(EARLY_RETURN)
  {
    LearnedOtherwise(c.session, s.worker, look.polled);
    hide Learned, InjectSpec, LanReceipts.Ready, LanReceipts.AllOk, NoneEarly, InjectedIn, RemovedIn;
    if Learned(c.session, s.worker, look.polled).Ok? && look.sameBoot && s.injected.None? {
      InjectTimely(c, s.(worker := Learned(c.session, s.worker, look.polled).value), look);
    }
  }

  /** A sample is early exactly by what is seen, the time and the stage. */
  lemma SampleEarly(c: Setting, s: State, e: Event)
    requires Tells(s) && e.Observed?
    ensures EarlyActivation(c.plan, s.trace + [e], |s.trace|) <==>
      s.injected.Some? && s.removed.None? && (e.ownership.standing == OwnedActive || e.ownership.standing == OwnedPending)
      && e.at - s.injected.value < (c.plan.failureSeconds - c.plan.pollSeconds - 8) as real
    ensures EarlyReturn(c.plan, s.trace + [e], |s.trace|) <==>
      s.removed.Some? && EthernetSelected(e.view) && e.view.effective == Ethernet
      && e.at - s.removed.value < (c.plan.recoverySeconds - c.plan.pollSeconds - 2) as real
  {
    TellsNext(s.trace, e);
    hide InjectedIn, RemovedIn, EthernetSelected;
  }

  /** The state in which a sample is judged: it is the last event, and no earlier one is early. */
  predicate Judging(c: Setting, s: State, now: real, view: View) {
    && Tells(s) && s.trace != [] && s.injected.Some?
    && var last := |s.trace| - 1;
    && s.trace[last].Observed? && s.trace[last].at == now && s.trace[last].view == view
    && NoneEarly(c.plan, s.trace[..last])
    && (EarlyActivation(c.plan, s.trace, last) <==>
          s.removed.None? && (LastStanding(s) == OwnedActive || LastStanding(s) == OwnedPending)
          && now - s.injected.value < (c.plan.failureSeconds - c.plan.pollSeconds - 8) as real)
    && (EarlyReturn(c.plan, s.trace, last) <==>
          s.removed.Some? && EthernetSelected(view) && view.effective == Ethernet
          && now - s.removed.value < (c.plan.recoverySeconds - c.plan.pollSeconds - 2) as real)
  }

  lemma JudgingNoneEarly(c: Setting, s: State, now: real, view: View)
    requires Judging(c, s, now, view)
    ensures forall i :: 0 <= i < |s.trace| - 1 ==> !Early(c.plan, s.trace, i)
    ensures !Early(c.plan, s.trace, |s.trace| - 1) ==> NoneEarly(c.plan, s.trace)
  {
    var last := |s.trace| - 1;
    var rest := s.trace[..last];
    assert rest + [s.trace[last]] == s.trace;
    hide EarlyActivation, EarlyReturn, Tells, EthernetSelected;
    forall i | 0 <= i < last ensures !Early(c.plan, s.trace, i) {
      EarlyPrefix(c.plan, rest, [s.trace[last]], i);
      assert !Early(c.plan, rest, i);
    }
  }

  lemma ObserveTimely(c: Setting, s: State, look: Look, now: real)
    requires Tells(s) && NoneEarly(c.plan, s.trace) && s.injected.Some?
    ensures var t := ObserveSpec(c, s, look, now);
      && (t.stop.None? ==> look.view.Ok? && Judging(c, t.state, now, look.view.value))
      && (t.stop.Some? ==> Tells(t.state) && NoneEarly(c.plan, t.state.trace)
                           && t.stop != Some(EARLY_ACTIVATION) && t.stop != Some(EARLY_RETURN))
  {
    ObserveParts(c, s, look, now);
    hide ObserveSpec, Judging, Tells, NoneEarly;
    var t := ObserveSpec(c, s, look, now);
    if t.stop.None? {
      SampleJudging(c, s, t.state, now, look.view.value);
    } else {
      TellsOfTrace(s, t.state);
    }
  }

  lemma TellsOfTrace(s: State, t: State)
    requires Tells(s) && t.trace == s.trace && t.injected == s.injected && t.removed == s.removed
    ensures Tells(t)
  {
    hide InjectedIn, RemovedIn, RemovedOnce;
  }

  predicate NotEarly(stop: Option<Outcome>) { stop != Some(EARLY_ACTIVATION) && stop != Some(EARLY_RETURN) }

  /** A stop leaves the trace as it is; otherwise one sample is added. */
  predicate AddsSample(s: State, t: Turned, now: real, look: Look) {
    && (t.stop.Some? ==> t.state.trace == s.trace && NotEarly(t.stop))
    && (t.stop.None? ==>
          && look.view.Ok? && |t.state.trace| == |s.trace| + 1
          && var e := t.state.trace[|s.trace|];
          t.state.trace == s.trace + [e] && e.Observed? && e.at == now && e.view == look.view.value)
  }

  lemma HealthParts(c: Setting, s: State, look: Look, now: real, ownership: Ownership)
    requires look.view.Ok?
    ensures AddsSample(s, HealthSpec(c, s, look, now, ownership), now, look)
  {
    ExplainedNotEarly(look.health);
    UnhealthyNotEarly();
    hide NotEarly, Explain, Guarded, Warns;
  }

  lemma ExplainedNotEarly(health: Result<Health, Trouble>)
    ensures health.Err? ==> NotEarly(Some(Explain(health.error)))
  {
  }

  lemma UnhealthyNotEarly()
    ensures NotEarly(Some(Returned(Failed, "required_observation_unhealthy")))
    ensures NotEarly(Some(Returned(Inconclusive, "required_observation_unhealthy")))
  {
    assert |"required_observation_unhealthy"| != |"cellular_activation_before_failure_window"|;
  }

  lemma ObserveParts(c: Setting, s: State, look: Look, now: real)
    ensures AddsSample(s, ObserveSpec(c, s, look, now), now, look)
  {
    hide Judge, HealthSpec;
    if look.view.Ok? && Judge(look.view.value.facts, s.token, s.removed.Some?).Ok? {
      var ownership := Judge(look.view.value.facts, s.token, s.removed.Some?).value;
      HealthParts(c, if ownership.token.Some? then s.(token := ownership.token) else s, look, now, ownership);
    }
  }

  lemma SampleJudging(c: Setting, s: State, t: State, now: real, view: View)
    requires Tells(s) && NoneEarly(c.plan, s.trace) && s.injected.Some?
    requires t.injected == s.injected && t.removed == s.removed && |t.trace| == |s.trace| + 1
    requires var e := t.trace[|s.trace|]; t.trace == s.trace + [e] && e.Observed? && e.at == now && e.view == view
    ensures Judging(c, t, now, view)
  {
    hide NoneEarly, InjectedIn, RemovedIn, EarlyActivation, EarlyReturn, EthernetSelected;
    var e := t.trace[|s.trace|];
    TellsNext(s.trace, e);
    SampleEarly(c, s, e);
  }

  lemma FallbackTimely(c: Setting, s: State, look: Look, now: real, view: View)
    requires Judging(c, s, now, view) && s.removed.None?
    ensures Timely(c, FallbackSpec(c, s, look, now, view, LastStanding(s)))
  {
    JudgingNoneEarly(c, s, now, view);
    var t := FallbackSpec(c, s, look, now, view, LastStanding(s));
    if EarlyActivation(c.plan, s.trace, |s.trace| - 1) {
      hide Tells, EarlyActivation, EarlyReturn, BothPreferredDown, CellularCarries, Answer, EthernetSelected, NoneEarly;
    } else {
      FallbackNotEarly(c, s, look, now, view);
      NoneIsTimely(c, t);
    }
  }

  lemma FallbackNotEarly(c: Setting, s: State, look: Look, now: real, view: View)
    requires Judging(c, s, now, view) && s.removed.None? && !EarlyActivation(c.plan, s.trace, |s.trace| - 1)
    ensures var t := FallbackSpec(c, s, look, now, view, LastStanding(s));
      Tells(t.state) && NoneEarly(c.plan, t.state.trace) && t.stop != Some(EARLY_ACTIVATION) && t.stop != Some(EARLY_RETURN)
  {
    JudgingNoneEarly(c, s, now, view);
    assert NoneEarly(c.plan, s.trace) && Tells(s);
    hide NoneEarly, Tells, EarlyActivation, EarlyReturn, BothPreferredDown, CellularCarries, Answer, EthernetSelected;
    var named := if look.nameServed then s else Emitted(s, NameUnserved);
    if !look.nameServed {
      QuietEvent(c, s, NameUnserved);
    }
    if Answer(c.session, look.restored).Ok? {
      RemovalTimely(c, named, look.removedAt, Answer(c.session, look.restored).value);
    }
  }

  lemma RemovalTimely(c: Setting, s: State, at: real, world: FaultLedger.World)
    requires Tells(s) && NoneEarly(c.plan, s.trace) && s.injected.Some? && s.removed.None?
    ensures var done := Emitted(s, FaultRemoved(at, world)).(removed := Some(at)); Tells(done) && NoneEarly(c.plan, done.trace)
  {
    var e := FaultRemoved(at, world);
    TellsNext(s.trace, e);
    NoRemovalYet(s.trace);
    hide InjectedIn, RemovedIn, Early, Warns;
    forall i | 0 <= i < |s.trace| + 1 ensures !Early(c.plan, s.trace + [e], i) {
      LaterNotEarly(c.plan, s.trace, e, i);
    }
  }

  lemma RecoveryTimely(c: Setting, s: State, look: Look, now: real, view: View)
    requires Judging(c, s, now, view) && s.removed.Some?
    ensures Timely(c, RecoverySpec(c, s, look, now, view, LastStanding(s)))
  {
    JudgingNoneEarly(c, s, now, view);
    LearnedOtherwise(c.session, s.worker, look.finishAsked);
    var t := RecoverySpec(c, s, look, now, view, LastStanding(s));
    if EarlyReturn(c.plan, s.trace, |s.trace| - 1) {
      hide Tells, EarlyActivation, EarlyReturn, EthernetSelected, NoneEarly, Learned;
    } else {
      assert NoneEarly(c.plan, s.trace) && Tells(s);
      hide EarlyActivation, EarlyReturn, EthernetSelected, NoneEarly, Learned;
      var e := RecoveryObserved(look.recoveredAt);
      QuietEvent(c, s, e);
      hide Warns, Timely;
      NoneIsTimely(c, t);
    }
  }

  lemma SampleTimely(c: Setting, s: State, look: Look, now: real)
    requires Tells(s) && NoneEarly(c.plan, s.trace) && s.injected.Some?
    ensures Timely(c, SampleSpec(c, s, look, now))
  {
    hide *;
    ObserveTimely(c, s, look, now);
    SampleParts(c, s, look, now);
    var seen := ObserveSpec(c, s, look, now);
    if seen.stop.Some? {
      NoneIsTimely(c, seen);
    } else {
      JudgedTimely(c, seen.state, look, now, look.view.value);
      NextSampleTimely(c, JudgedSpec(c, seen.state, look, now, look.view.value), look.sampledAt + 2.0);
    }
  }

  lemma NextSampleTimely(c: Setting, t: Turned, next: real)
    requires Timely(c, t)
    ensures Timely(c, t.(state := t.state.(nextSample := next)))
  {
    hide EarlyActivation, EarlyReturn, InjectedIn, RemovedIn;
  }

  lemma JudgedTimely(c: Setting, s: State, look: Look, now: real, view: View)
    requires Judging(c, s, now, view) && s.injected.Some?
    ensures Timely(c, JudgedSpec(c, s, look, now, view))
  {
    hide Judging, FallbackSpec, RecoverySpec, Timely;
    if s.removed.None? {
      FallbackTimely(c, s, look, now, view);
    } else {
      RecoveryTimely(c, s, look, now, view);
    }
  }

  lemma EndTimely(c: Setting, s: State, look: Look)
    requires Tells(s) && NoneEarly(c.plan, s.trace) && s.injected.Some?
    ensures Timely(c, EndSpec(c, s, look))
  {
    hide Tells, NoneEarly, LanReceipts.Coverage, Timely;
    var e := Concluded(look.recoveryAt, s.worker.book);
    QuietEvent(c, s, e);
    NoneIsTimely(c, EndSpec(c, s, look));
  }

  lemma TimelyGoesOn(c: Setting, t: Turned)
    requires Timely(c, t) && t.stop.None?
    ensures Tells(t.state) && NoneEarly(c.plan, t.state.trace)
  {
    hide EarlyActivation, EarlyReturn, Tells;
    forall i | 0 <= i < |t.state.trace| ensures !Early(c.plan, t.state.trace, i) {
      assert i < |t.state.trace| - 1 ==> !Early(c.plan, t.state.trace, i);
    }
  }

  lemma TurnTimely(c: Setting, s: State, look: Look)
    requires Tells(s) && NoneEarly(c.plan, s.trace)
    ensures Timely(c, TurnSpec(c, s, look))
  {
    hide ContactSpec, SampleSpec, EndSpec, Tells, NoneEarly, Timely;
    ContactTimely(c, s, look);
    var (t, now) := ContactSpec(c, s, look);
    if t.stop.Some? || t.state.injected.None? {
      NoneIsTimely(c, t);
    } else if now >= t.state.nextSample {
      SampleTimely(c, t.state, look, now);
      var u := SampleSpec(c, t.state, look, now);
      if u.stop.None? {
        TimelyGoesOn(c, u);
        EndTimely(c, u.state, look);
      }
    } else {
      EndTimely(c, t.state, look);
    }
  }

  /**
   Over every run: the campaign fails for an early activation or an early return exactly when a sample was one, at the
   first such sample, which is then the last event of the trace.
   */
  lemma {:induction false} RunTimely(c: Setting, s: State, looks: seq<Look>)
    requires Tells(s) && NoneEarly(c.plan, s.trace)
    ensures Timely(c, RunSpec(c, s, looks))
    decreases |looks|
  {
    hide TurnSpec, Tells, NoneEarly, Timely;
    if looks == [] {
      NoneIsTimely(c, Turned(s, None));
    } else {
      TurnTimely(c, s, looks[0]);
      var t := TurnSpec(c, s, looks[0]);
      if t.stop.None? {
        TimelyGoesOn(c, t);
        RunTimely(c, t.state, looks[1..]);
      }
    }
  }

  lemma BeginningTells(c: Setting)
    ensures Tells(Beginning(c)) && NoneEarly(c.plan, Beginning(c).trace)
  {
  }

  // ---- The object ----

  class Campaign {
    const setting: Setting
    var worker: LanReceipts.Worker
    var injected: Option<real>
    var removed: Option<real>
    var recovered: Option<real>
    var token: Option<Token>
    var warning: bool
    var nextSample: real
    var trace: seq<Event>

    function Now(): State
      reads this
    {
      State(worker, injected, removed, recovered, token, warning, nextSample, trace)
    }

    constructor (setting: Setting)
      ensures this.setting == setting && Now() == Beginning(setting)
    {
      this.setting := setting;
      worker, injected, removed, recovered := LanReceipts.NEW, None, None, None;
      token, warning, nextSample, trace := None, false, setting.started, [];
    }

    method Emit(e: Event)
      modifies this`trace, this`warning
      ensures Now() == Emitted(old(Now()), e)
    {
      warning := warning || Warns(e);
      trace := trace + [e];
    }

    /** Takes over what the receiver answered; an error or a refused snapshot ends the campaign. */
    method Learn(answer: Result<LanReceipts.Snapshot, Trouble>) returns (stop: Option<Outcome>)
      modifies this`worker
      ensures match Learned(setting.session, old(worker), answer)
        case Err(outcome) => stop == Some(outcome) && worker == old(worker)
        case Ok(w) => stop == None && worker == w
    {
      hide LanReceipts.UpdateSpec;
      if answer.Err? {
        return Some(Explain(answer.error));
      }
      var updated := LanReceipts.UpdateSpec(setting.session, worker, answer.value);
      if updated.Err? {
        return Some(Explain(Execution));
      }
      worker := updated.value;
      return None;
    }

    /** Waits for the witness, then arms the fault under a lease after a last check. */
    method Inject(look: Look) returns (stop: Option<Outcome>)
      requires injected.None?
      modifies this
      ensures Turned(Now(), stop) == InjectSpec(setting, old(Now()), look)
    {
      hide LanReceipts.Ready, HealthyStart, Learned, Warns;
      if look.now - setting.started > 45.0 {
        return Some(Returned(Blocked, "verified_lan_witness_missing"));
      }
      if !LanReceipts.Ready(worker.book, look.now) {
        return None;
      }
      Emit(WitnessReady(worker.book, look.now));
      var arming := look.arming;
      if arming.rf.Some? {
        return Some(Explain(arming.rf.value));
      }
      if arming.view.Err? {
        return Some(Explain(arming.view.error));
      }
      stop := Learn(arming.polled);
      if stop.Some? {
        return;
      }
      if !arming.view.value.sameFixed || !HealthyStart(arming.view.value) || !LanReceipts.Ready(worker.book, arming.checkedAt) {
        return Some(Explain(Refused("cellular_preflight_changed")));
      }
      if arming.effect.Some? {
        return Some(Explain(arming.effect.value));
      }
      injected := Some(look.injectAt);
      trace := trace + [FaultArmed(look.injectAt, arming.view.value, worker.book, arming.checkedAt)];
    }

    /** One sample: the session judged, the health checked, everything recorded. */
    method Observe(look: Look, now: real) returns (stop: Option<Outcome>)
      requires injected.Some?
      modifies this`token, this`trace, this`warning
      ensures Turned(Now(), stop) == ObserveSpec(setting, old(Now()), look, now)
    {
      hide Judge;
      var guarded := removed.None? && now - injected.value < setting.duration as real;
      if guarded && look.tableOwned.Some? {
        return Some(Explain(look.tableOwned.value));
      }
      if look.rf.Some? {
        return Some(Explain(look.rf.value));
      }
      if look.view.Err? {
        return Some(Explain(look.view.error));
      }
      var view := look.view.value;
      if !view.sameFixed {
        return Some(Returned(Aborted, "cellular_identity_or_policy_changed"));
      }
      var judged := Judge(view.facts, token, removed.Some?);
      if judged.Err? {
        return Some(Explain(Ambiguity(judged.error)));
      }
      if judged.value.token.Some? {
        token := judged.value.token;
      }
      if look.health.Err? {
        return Some(Explain(look.health.error));
      }
      if look.health.value == Unhealthy || look.health.value == Unknown {
        return Some(Returned(if look.health.value == Unhealthy then Failed else Inconclusive, "required_observation_unhealthy"));
      }
      Emit(Observed(now, view, judged.value, look.health.value, look.powerWarning, guarded,
                    look.leaseValid && look.tableOwned.None?));
      stop := None;
    }

    /** A sample under the fault: too early is a failure, a proof removes the fault. */
    method JudgeFallback(look: Look, now: real, view: View, standing: Standing) returns (stop: Option<Outcome>)
      requires injected.Some? && removed.None?
      modifies this`trace, this`warning, this`removed
      ensures Turned(Now(), stop) == FallbackSpec(setting, old(Now()), look, now, view, standing)
    {
      hide BothPreferredDown, CellularCarries, Answer;
      if standing in {OwnedActive, OwnedPending}
         && now - injected.value < (setting.plan.failureSeconds - setting.plan.pollSeconds - 8) as real {
        return Some(Returned(Failed, "cellular_activation_before_failure_window"));
      }
      if BothPreferredDown(view) && standing == OwnedActive && CellularCarries(view) {
        if !look.nameServed {
          Emit(NameUnserved);
        }
        var answer := Answer(setting.session, look.restored);
        if answer.Err? {
          return Some(Explain(answer.error));
        }
        Emit(FaultRemoved(look.removedAt, answer.value));
        removed := Some(look.removedAt);
      }
      stop := None;
    }

    /** A sample after the removal: too early a return is a failure, a release ends the recovery. */
    method JudgeRecovery(look: Look, now: real, view: View, standing: Standing) returns (stop: Option<Outcome>)
      requires removed.Some?
      modifies this`trace, this`warning, this`recovered, this`worker
      ensures Turned(Now(), stop) == RecoverySpec(setting, old(Now()), look, now, view, standing)
    {
      hide EthernetSelected, Learned;
      if EthernetSelected(view) && view.effective == Ethernet {
        if now - removed.value < (setting.plan.recoverySeconds - setting.plan.pollSeconds - 2) as real {
          return Some(Returned(Failed, "preferred_recovery_before_hysteresis_window"));
        }
        if standing == Inactive && !view.cellular.owned && !view.cellular.active && recovered.None? {
          Emit(RecoveryObserved(look.recoveredAt));
          recovered := Some(look.recoveredAt);
          stop := Learn(look.finishAsked);
          return;
        }
      }
      stop := None;
    }

    /** Polls the receiver, injects once the witness is ready, and checks that contact and lease still hold. */
    method Contact(look: Look) returns (stop: Option<Outcome>, now: real)
      modifies this
      ensures (Turned(Now(), stop), now) == ContactSpec(setting, old(Now()), look)
    {
      hide Learned, InjectSpec, LanReceipts.Ready, LanReceipts.AllOk;
      now := look.now;
      stop := Learn(look.polled);
      if stop.Some? {
        return;
      }
      if !look.sameBoot {
        return Some(Returned(Aborted, "boot_changed")), now;
      }
      if injected.None? {
        stop := Inject(look);
        if stop.Some? || injected.None? {
          return;
        }
        now := look.armedNow;
      }
      if worker.book.invalid {
        return Some(Returned(Inconclusive, "witness_contact_lost")), now;
      }
      if !LanReceipts.AllOk(worker.book.samples) {
        return Some(Returned(Failed, "lan_http_sample_failed")), now;
      }
      if !LanReceipts.Ready(worker.book, now) {
        return Some(Returned(Inconclusive, "witness_contact_lost")), now;
      }
      if removed.None? && now - injected.value < setting.duration as real && !look.leaseValid {
        return Some(Returned(Aborted, "fault_lease_lost")), now;
      }
      stop := None;
    }

    /** Observes and judges one sample. */
    method TakeSample(look: Look, now: real) returns (stop: Option<Outcome>)
      requires injected.Some?
      modifies this
      ensures Turned(Now(), stop) == SampleSpec(setting, old(Now()), look, now)
      ensures injected == old(injected)
    {
      hide FallbackSpec, RecoverySpec, Judge;
      stop := Observe(look, now);
      if stop.Some? {
        return;
      }
      ghost var seen := Now();
      var standing := trace[|trace| - 1].ownership.standing;
      hide ObserveSpec;
      if removed.None? {
        stop := JudgeFallback(look, now, look.view.value, standing);
      } else {
        stop := JudgeRecovery(look, now, look.view.value, standing);
      }
      if stop.Some? {
        return;
      }
      nextSample := look.sampledAt + 2.0;
    }

    /** One turn of the loop. */
    method Turn(look: Look) returns (stop: Option<Outcome>)
      modifies this
      ensures Turned(Now(), stop) == TurnSpec(setting, old(Now()), look)
    {
      hide ContactSpec, SampleSpec, LanReceipts.Coverage, Warns;
      var now;
      stop, now := Contact(look);
      if stop.Some? || injected.None? {
        return;
      }
      if now >= nextSample {
        stop := TakeSample(look, now);
        if stop.Some? {
          return;
        }
      }
      if removed.None? && look.budgetAt - injected.value >= setting.duration as real {
        return Some(Returned(Failed, "automatic_cellular_fallback_not_proven_within_budget"));
      }
      if removed.Some? && look.recoveryAt - removed.value > RecoveryBudget(setting.plan) as real {
        return Some(Returned(Failed, "preferred_recovery_or_owned_release_deadline"));
      }
      if recovered.Some? && worker.finished {
        var verdict := Conclude(look.recoveryAt);
        return Some(Returned(verdict, "automatic_cellular_ownership_and_release"));
      }
      stop := None;
    }

    method Conclude(at: real) returns (verdict: Verdict)
      requires injected.Some? && recovered.Some?
      modifies this`trace, this`warning
      ensures Now() == Emitted(old(Now()), Concluded(at, old(worker).book)) && verdict == Conclusion(old(Now()))
    {
      hide LanReceipts.Coverage;
      match LanReceipts.Coverage(worker.book, injected.value, recovered.value) {
        case Pass => verdict := if warning then PassedWithObservation else Passed;
        case Fail => verdict := Failed;
        case Inconclusive => verdict := Verdict.Inconclusive;
      }
      Emit(Concluded(at, worker.book));
    }
  }

  // ---- The whole run ----

  /** What is known before anything is touched. */
  datatype Preflight = Preflight(trouble: bool, plan: Plan, baseline: View, health: Health, started: real)

  /**
   How the cleanup at the end goes: whether the receiver closes, how the restore ends, and what other processes do
   between its return and the last look at the kernel and the files.
   */
  datatype Closing = Closing(closed: bool, restored: Restoration, later: seq<FaultLedger.Step>)

  predicate Admissible(pre: Preflight, duration: int) {
    && 90 <= duration <= 180 && !pre.trouble
    && pre.plan.failureSeconds + pre.plan.recoverySeconds + 3 * pre.plan.pollSeconds <= duration
    && 45 + duration + RecoveryBudget(pre.plan) <= 295
    && HealthyStart(pre.baseline) && pre.health == Healthy
  }

  /** The world after further steps of the ledger; steps that are not possible do not happen. */
  function After(w: FaultLedger.World, steps: seq<FaultLedger.Step>): FaultLedger.World {
    if steps == [] then w
    else
      var before, last := After(w, steps[..|steps| - 1]), steps[|steps| - 1];
      if FaultLedger.Enabled(before, last) then FaultLedger.Next(before, last) else before
  }

  /** No table, no lease and no record, whoever's they would be. */
  predicate NothingLeft(w: FaultLedger.World) { w.table.None? && w.active.None? && w.wan.None? }

  /** The receiver is closed, the restore has returned, and then neither table nor lease nor record is found. */
  predicate Verified(session: string, closing: Closing) {
    closing.closed && Answer(session, closing.restored).Ok?
    && NothingLeft(After(Answer(session, closing.restored).value, closing.later))
  }

  predicate ForeignTable(w: FaultLedger.World) { w.table.Some? && w.table.value.comment.Foreign? }

  predicate OtherLease(w: FaultLedger.World, session: string) { w.active.Some? && w.active.value.session != session }

  /** Looked at right after the restore returned: something is found exactly if it is a foreign table or another session's. */
  lemma ClosingExact(session: string, closing: Closing)
    requires closing.closed && Answer(session, closing.restored).Ok? && closing.later == []
    ensures var w := Answer(session, closing.restored).value;
      Verified(session, closing) <==> !ForeignTable(w) && !OtherLease(w, session)
  {
    var r, w := closing.restored, Answer(session, closing.restored).value;
    RestoredIsClean(session, r);
    var steps := r.steps + [FaultLedger.Advance(r.pid, r.unused)];
    assert steps[..|steps| - 1] == r.steps;
    assert FaultLedger.Reach(steps) == Some(w) by { hide FaultLedger.Enabled, FaultLedger.Next, FaultLedger.Clean; }
    FaultLedger.LedgerNested(steps);
    hide FaultLedger.Reach, Answer;
  }

  /** The trace of a passed campaign: justified up to its conclusion, then the cleanup verified. */
  ghost predicate JustifiedBy(c: Setting, trace: seq<Event>, s: Stages) {
    && |trace| >= 2 && Justified(c, trace, s, |trace| - 2) && trace[|trace| - 1] == CleanupVerified
    && ArmedOnce(trace, true) && RemovedOnce(trace) && NoneEarly(c.plan, trace)
  }

  ghost predicate JustifiedTrace(c: Setting, trace: seq<Event>) {
    exists s: Stages :: JustifiedBy(c, trace, s)
  }

  function SettingOf(session: string, pre: Preflight, duration: int): Setting {
    Setting(session, pre.plan, duration, pre.started)
  }

  /**
   The campaign over any environment; one that stops answering interrupts it. A pass is justified by the
   trace and by a verified cleanup; nothing is reported as a result while the fault may still be there.
   */
  method Run(session: string, pre: Preflight, duration: int, looks: seq<Look>, closing: Closing)
    returns (outcome: Outcome, trace: seq<Event>)
    ensures !Admissible(pre, duration) ==> outcome.Returned? && outcome.verdict == Blocked && trace == []
    ensures Admissible(pre, duration) ==>
      var t := RunSpec(SettingOf(session, pre, duration), Beginning(SettingOf(session, pre, duration)), looks);
      if Verified(session, closing) then
        outcome == (if t.stop.Some? then t.stop.value else Explain(Interrupted)) && trace == t.state.trace + [CleanupVerified]
      else outcome == Raised && trace == t.state.trace
    ensures outcome.Returned? && outcome.verdict in {Passed, PassedWithObservation} ==>
      && Admissible(pre, duration) && Verified(session, closing)
      && JustifiedTrace(SettingOf(session, pre, duration), trace)
      && (outcome.verdict == PassedWithObservation <==> Warned(trace))
  {
    hide HealthyStart, Answer, After, RunSpec, Warned, JustifiedTrace, TurnSpec;
    trace := [];
    if !(90 <= duration <= 180) {
      return Returned(Blocked, "cellular_fault_budget_requires_90_to_180_seconds"), trace;
    }
    if pre.trouble {
      return Returned(Blocked, "cellular_preflight_failed"), trace;
    }
    if duration < pre.plan.failureSeconds + pre.plan.recoverySeconds + 3 * pre.plan.pollSeconds
       || 45 + duration + RecoveryBudget(pre.plan) > 295 {
      return Returned(Blocked, "policy_exceeds_bounded_campaign"), trace;
    }
    if !HealthyStart(pre.baseline) || pre.health != Healthy {
      return Returned(Blocked, "healthy_inactive_cellular_baseline_required"), trace;
    }
    ghost var c := SettingOf(session, pre, duration);
    ghost var whole := RunSpec(c, Beginning(c), looks);
    var campaign := new Campaign(Setting(session, pre.plan, duration, pre.started));
    var stop: Option<Outcome> := None;
    var turn := 0;
    assert looks[turn..] == looks;
    while turn < |looks| && stop.None?
      invariant 0 <= turn <= |looks| && fresh(campaign) && campaign.setting == c
      invariant whole == if stop.Some? then Turned(campaign.Now(), stop) else RunSpec(c, campaign.Now(), looks[turn..])
    {
      RunFirst(c, campaign.Now(), looks[turn..]);
      assert looks[turn..][1..] == looks[turn + 1..];
      stop := campaign.Turn(looks[turn]);
      turn := turn + 1;
    }
    RunNone(c, campaign.Now());
    assert stop.None? ==> looks[turn..] == [];
    assert whole == Turned(campaign.Now(), stop);
    outcome := if stop.Some? then stop.value else Explain(Interrupted);
    var answer := Answer(session, closing.restored);
    if !closing.closed || answer.Err? || !NothingLeft(After(answer.value, closing.later)) {
      return Raised, campaign.trace;
    }
    trace := campaign.trace + [CleanupVerified];
    PassIsJustified(c, looks);
  }

  lemma RunFirst(c: Setting, s: State, looks: seq<Look>)
    requires looks != []
    ensures RunSpec(c, s, looks) == var t := TurnSpec(c, s, looks[0]); if t.stop.Some? then t else RunSpec(c, t.state, looks[1..])
  {
    hide TurnSpec;
  }

  lemma RunNone(c: Setting, s: State)
    ensures RunSpec(c, s, []) == Turned(s, None)
  {
  }

  /** Every run that ends with a pass is justified by its trace. */
  lemma PassIsJustified(c: Setting, looks: seq<Look>)
    ensures var t := RunSpec(c, Beginning(c), looks);
      && (t.stop.Some? ==> t.stop.value.Returned?)
      && (Passes(t.stop) ==>
            && JustifiedTrace(c, t.state.trace + [CleanupVerified])
            && (t.stop.value.verdict == PassedWithObservation <==> Warned(t.state.trace + [CleanupVerified])))
  {
    var none := Stages(0, 0, 0, 0, 0, 0, 0.0, 0.0, 0.0);
    BeginningEvident(c, none);
    hide RunSpec, Evident, Justified, Warned, SamplesSound;
    var g := RunKeeps(c, Beginning(c), none, looks);
    var t := RunSpec(c, Beginning(c), looks);
    BeginningTells(c);
    RunTimely(c, Beginning(c), looks);
    if Passes(t.stop) {
      PassNoneEarly(c, t);
      ConclusionKept(c, t.state.trace, g);
      WarnedKept(t.state.trace, CleanupVerified);
    }
  }

  lemma PassNoneEarly(c: Setting, t: Turned)
    requires Timely(c, t) && Passes(t.stop)
    ensures NoneEarly(c.plan, t.state.trace) && RemovedOnce(t.state.trace)
  {
    hide EarlyActivation, EarlyReturn, InjectedIn, RemovedIn;
    forall i | 0 <= i < |t.state.trace| ensures !Early(c.plan, t.state.trace, i) {
      assert i < |t.state.trace| - 1 ==> !Early(c.plan, t.state.trace, i);
    }
  }

  /** A run fails for an early activation or return exactly at the first sample that is one. */
  lemma FailsAtFirstEarly(c: Setting, looks: seq<Look>)
    ensures var t := RunSpec(c, Beginning(c), looks);
      var last := |t.state.trace| - 1;
      && (t.stop == Some(EARLY_ACTIVATION) <==> EarlyActivation(c.plan, t.state.trace, last))
      && (t.stop == Some(EARLY_RETURN) <==> EarlyReturn(c.plan, t.state.trace, last))
      && forall i :: 0 <= i < last ==> !Early(c.plan, t.state.trace, i)
  {
    BeginningTells(c);
    RunTimely(c, Beginning(c), looks);
    hide RunSpec, EarlyActivation, EarlyReturn, Tells, NoneEarly;
  }

  lemma {:induction false} InjectedFound(trace: seq<Event>, k: int, i: int)
    requires 0 <= k < i <= |trace| && trace[k].FaultArmed? && ArmedOnce(trace, true)
    ensures InjectedIn(trace[..i]) == Some(trace[k].at)
    decreases i
  {
    assert trace[..i][..i - 1] == trace[..i - 1];
    if k < i - 1 {
      InjectedFound(trace, k, i - 1);
    }
  }

  lemma {:induction false} RemovedFound(trace: seq<Event>, k: int, i: int)
    requires 0 <= k < |trace| && 0 <= i <= |trace| && trace[k].FaultRemoved? && RemovedOnce(trace)
    ensures RemovedIn(trace[..i]) == if k < i then Some(trace[k].at) else None
    decreases i
  {
    if i > 0 {
      assert trace[..i][..i - 1] == trace[..i - 1];
      RemovedFound(trace, k, i - 1);
    }
  }

  /** In a passed campaign cellular is taken only after the failure window, and Ethernet again only after the recovery window. */
  lemma PassKeepsWindows(c: Setting, trace: seq<Event>, s: Stages, i: int)
    requires JustifiedBy(c, trace, s) && s.armed < i < |trace| && trace[i].Observed?
    ensures i < s.removed && (trace[i].ownership.standing == OwnedActive || trace[i].ownership.standing == OwnedPending) ==>
      trace[i].at - s.injectedAt >= (c.plan.failureSeconds - c.plan.pollSeconds - 8) as real
    ensures s.removed < i && EthernetSelected(trace[i].view) && trace[i].view.effective == Ethernet ==>
      trace[i].at - s.removedAt >= (c.plan.recoverySeconds - c.plan.pollSeconds - 2) as real
  {
    assert UpToRemoval(c, trace, s) && !Early(c.plan, trace, i);
    InjectedFound(trace, s.armed, i);
    RemovedFound(trace, s.removed, i);
    hide InjectedIn, RemovedIn, EthernetSelected, HealthyStart, LanReceipts.Ready, BothPreferredDown, CellularCarries, Covered,
         FaultLedger.Clean;
  }

  lemma ConclusionKept(c: Setting, trace: seq<Event>, s: Stages)
    requires trace != [] && Justified(c, trace, s, |trace| - 1) && ArmedOnce(trace, true)
    requires RemovedOnce(trace) && NoneEarly(c.plan, trace)
    ensures JustifiedTrace(c, trace + [CleanupVerified])
  {
    StagesKept(c, trace, CleanupVerified, s);
    forall i | 0 <= i < |trace| + 1 ensures !Early(c.plan, trace + [CleanupVerified], i) {
      LaterNotEarly(c.plan, trace, CleanupVerified, i);
    }
    hide UpToRecovery, Covered, Early;
    assert (trace + [CleanupVerified])[|trace| - 1] == trace[|trace| - 1];
    assert JustifiedBy(c, trace + [CleanupVerified], s);
  }

  /** The witness has answered at least twice, always well, and the last time at most three seconds before. */
  predicate Answering(book: LanReceipts.Book, at: real) {
    && !book.invalid && |book.samples| > 1 && (forall sample :: sample in book.samples ==> sample.ok)
    && var age := at - book.samples[|book.samples| - 1].after; age >= 0.0 && age <= 3.0
  }

  /** Ethernet and Wi-Fi reach the Internet, packets go by Ethernet, and there is no cellular session, whoever's. */
  predicate AtRest(view: View) {
    && view.ethernet.internet == Some(true) && view.ethernet.active && view.ethernet.selected && view.ethernet.usable
    && view.wifi.internet == Some(true) && view.internet && view.effective == Ethernet
    && view.facts.modemState == 8 && view.facts.owned == map[] && view.facts.active == []
    && !view.cellular.owned && !view.cellular.suppressed
  }

  lemma HealthyIsAtRest(view: View)
    ensures HealthyStart(view) ==> AtRest(view)
  {
  }

  /**
   What a pass means: a witness that answered before, a fault injected after a healthy last check, cellular
   alone carrying the traffic late enough, the fault removed leaving nothing of the session, Ethernet carrying the
   traffic again late enough with no cellular session left, all within the recovery budget, and no instant from injection
   to recovery without a good answer on the LAN.
   */
  lemma PassMeans(c: Setting, trace: seq<Event>, s: Stages)
    requires JustifiedBy(c, trace, s)
    ensures var ready, armed, end := trace[s.ready], trace[s.armed], trace[|trace| - 2];
      && Answering(ready.book, ready.at) && Answering(armed.book, armed.checkedAt) && AtRest(armed.check)
      && end.at <= s.removedAt + (c.plan.recoverySeconds + 3 * c.plan.pollSeconds + 8) as real
      && (forall sample :: sample in end.book.samples ==> sample.ok)
      && forall t :: s.injectedAt <= t <= s.recoveredAt ==> LanReceipts.Witnessed(end.book.samples, t)
    ensures var proof, removal, release := trace[s.proven], trace[s.removed], trace[s.released];
      && s.injectedAt + (c.plan.failureSeconds - c.plan.pollSeconds - 8) as real <= proof.at
      && s.removedAt + (c.plan.recoverySeconds - c.plan.pollSeconds - 2) as real <= release.at
      && proof.view.ethernet.internet == Some(false) == proof.view.wifi.internet
      && proof.view.cellular.internet == Some(true) && proof.view.effective == Cellular
      && proof.view.cellular.owned && proof.view.cellular.selected && proof.view.cellular.active
      && (proof.checked <==> proof.at < s.injectedAt + c.duration as real) && (proof.checked ==> proof.underLease)
      && FaultLedger.Clean(removal.world, c.session)
      && release.view.effective == Ethernet && release.view.ethernet.internet == Some(true)
      && release.view.ethernet.selected && !release.view.cellular.owned && !release.view.cellular.active
  {
    var ready, armed, end := trace[s.ready], trace[s.armed], trace[|trace| - 2];
    LanReceipts.ReadyExactly(ready.book, ready.at);
    LanReceipts.ReadyExactly(armed.book, armed.checkedAt);
    LanReceipts.OkExactly(end.book.samples);
    HealthyIsAtRest(armed.check);
    hide LanReceipts.Witnessed, LanReceipts.Ready, HealthyStart, FaultLedger.Clean, LanReceipts.AllOk, AtRest;
  }
}
