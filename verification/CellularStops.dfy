/**
 What ends the cellular campaign without a pass: the troubles that a turn looks for, in their order, with the verdict and
 the code each of them gives, and that no other code ever leaves the campaign (pcs_qualify_cellular.py).
 */
module CellularStops {
  import opened Basics
  import opened CellularCampaign
  import LanReceipts

  /** A condition that ends the campaign if it is found, and how. */
  datatype Trap = Trap(found: bool, outcome: Outcome)

  /** The outcome of the first that is found. */
  function First(traps: seq<Trap>): Option<Outcome> {
    if traps == [] then None
    else if traps[0].found then Some(traps[0].outcome)
    else First(traps[1..])
  }

  lemma FirstOfTwo(a: seq<Trap>, b: seq<Trap>)
    ensures First(a + b) == if First(a).Some? then First(a) else First(b)
  {
    if a == [] {
      assert a + b == b;
    } else {
      assert (a + b)[1..] == a[1..] + b;
      FirstOfTwo(a[1..], b);
    }
  }

  lemma FirstStep(a: Trap, rest: seq<Trap>)
    ensures First([a] + rest) == if a.found then Some(a.outcome) else First(rest)
  {
    assert ([a] + rest)[1..] == rest;
  }

  lemma FirstThree(a: Trap, b: Trap, c: Trap)
    ensures First([a, b, c]) ==
      if a.found then Some(a.outcome) else if b.found then Some(b.outcome) else if c.found then Some(c.outcome) else None
  {
    FirstStep(c, []);
    FirstStep(b, [c]);
    FirstStep(a, [b, c]);
    assert [c] + [] == [c] && [b] + [c] == [b, c] && [a] + [b, c] == [a, b, c];
  }

  lemma FirstFive(a: Trap, b: Trap, c: Trap, d: Trap, e: Trap)
    ensures First([a, b, c, d, e]) ==
      if a.found then Some(a.outcome) else if b.found then Some(b.outcome) else if c.found then Some(c.outcome)
      else if d.found then Some(d.outcome) else if e.found then Some(e.outcome) else None
  {
    FirstThree(c, d, e);
    FirstStep(b, [c, d, e]);
    FirstStep(a, [b, c, d, e]);
    assert [b] + [c, d, e] == [b, c, d, e] && [a] + [b, c, d, e] == [a, b, c, d, e];
  }

  // ---- Codes ----

  const EXPORTED := {
    "rf_safety_changed", "interrupted", "cellular_execution_error", "control_or_preferred_identity_changed",
    "cellular_ownership_or_route_unproven", "required_cellular_observation_unavailable", "unexpected_failed_service",
    "cellular_ownership_unavailable", "unexpected_manager_ownership", "operator_or_replaced_cellular_session",
    "cellular_ownership_unproven", "cellular_state_ambiguous", "effective_route_ambiguous", "effective_route_unverified",
    "route_snapshot_identity_changed", "route_snapshot_unstable",
    "lease_setup_too_slow", "lease_expired_before_injection", "cellular_preflight_changed", "collector_failed",
    "collector_unavailable", "collector_truncated", "collector_invalid", "firewall_table_collision", "expiry_not_armed"}

  /** Whatever an exception says, the campaign ends with one of the fixed codes, and never with a pass. */
  lemma OnlyFixedCodes(t: Trouble)
    ensures Explain(t).Returned? && Explain(t).reason in EXPORTED && !Passes(Some(Explain(t)))
  {
  }

  lemma IdentityCodes(reason: string)
    requires reason in IDENTITY_REASONS
    ensures reason !in INCONCLUSIVE_REASONS && reason != "unexpected_failed_service"
  {
  }

  lemma FailedServiceCode()
    ensures "unexpected_failed_service" !in INCONCLUSIVE_REASONS
  {
  }

  /** Which verdict an exception gives, and that a code of the fixed ones is passed on as it is. */
  lemma VerdictOfTrouble(t: Trouble)
    ensures Explain(t).verdict == match t
      case RfBlocked => Aborted
      case Ambiguity(_) => Verdict.Inconclusive
      case Refused(reason) =>
        if reason == "unexpected_failed_service" then Failed
        else if reason in IDENTITY_REASONS then Aborted else Verdict.Inconclusive
      case Execution => HarnessError
      case Interrupted => Aborted
    ensures t.Ambiguity? && t.reason in AMBIGUOUS_REASONS ==> Explain(t).reason == t.reason
    ensures t.Refused? && t.reason in INCONCLUSIVE_REASONS ==> Explain(t).reason == t.reason
  {
    if t.Refused? {
      FailedServiceCode();
      if t.reason in IDENTITY_REASONS {
        IdentityCodes(t.reason);
      }
    }
  }

  // ---- Contact with the witness ----

  /** The boot, the witness and the lease, in the order in which a turn under the fault looks at them. */
  function ContactTraps(w: LanReceipts.Worker, look: Look, now: real, guarded: bool): seq<Trap> {
    var bad := exists i :: 0 <= i < |w.book.samples| && !w.book.samples[i].ok;
    var late := |w.book.samples| < 2 || now < w.book.samples[|w.book.samples| - 1].after
                || now > w.book.samples[|w.book.samples| - 1].after + 3.0;
    [Trap(!look.sameBoot, Returned(Aborted, "boot_changed")),
     Trap(w.book.invalid, Returned(Verdict.Inconclusive, "witness_contact_lost")),
     Trap(bad, Returned(Failed, "lan_http_sample_failed")),
     Trap(late, Returned(Verdict.Inconclusive, "witness_contact_lost")),
     Trap(guarded && !look.leaseValid, Returned(Aborted, "fault_lease_lost"))]
  }

  /** Under the fault, contact ends the campaign exactly for the first of these. */
  lemma ContactStops(c: Setting, s: State, look: Look, w: LanReceipts.Worker)
    requires s.injected.Some? && Learned(c.session, s.worker, look.polled) == Ok(w)
    ensures var (t, now) := ContactSpec(c, s, look);
      var guarded := s.removed.None? && look.now < s.injected.value + c.duration as real;
      t.stop == First(ContactTraps(w, look, look.now, guarded)) && now == look.now
  {
    var guarded := s.removed.None? && look.now < s.injected.value + c.duration as real;
    var traps := ContactTraps(w, look, look.now, guarded);
    FirstFive(traps[0], traps[1], traps[2], traps[3], traps[4]);
    assert traps == [traps[0], traps[1], traps[2], traps[3], traps[4]];
    hide Learned, First;
  }

  // ---- Admission ----

  /** Ethernet, Wi-Fi and the ledger are at rest exactly then, the ownership being proven inactive. */
  lemma AtRestExactly(view: View)
    ensures HealthyStart(view) <==> AtRest(view) && Sane(view.facts) && NoSession(view.facts)
  {
    JudgementExact(view.facts, None, false, Token("", ""));
  }

  /**
   A campaign begins exactly with a fault of 90 to 180 seconds that holds the failure window, the recovery window and three
   polls, when it ends with all its budgets within 295 seconds, and after a healthy look at everything.
   */
  lemma AdmittedExactly(pre: Preflight, duration: int)
    ensures Admissible(pre, duration) <==>
      && !pre.trouble && duration >= 90 && duration <= 180
      && duration - (pre.plan.failureSeconds + pre.plan.recoverySeconds + 3 * pre.plan.pollSeconds) >= 0
      && duration + pre.plan.recoverySeconds + 3 * pre.plan.pollSeconds <= 242
      && AtRest(pre.baseline) && Sane(pre.baseline.facts) && NoSession(pre.baseline.facts) && pre.health == Healthy
  {
    AtRestExactly(pre.baseline);
    hide HealthyStart, AtRest, Sane, NoSession;
  }

  // ---- Before the fault ----

  /** What the last check under the lease looks at. */
  function ArmingTraps(c: Setting, s: State, arming: Arming): seq<Trap> {
    var polled := Learned(c.session, s.worker, arming.polled);
    var changed := Returned(Verdict.Inconclusive, "cellular_preflight_changed");
    [Trap(arming.rf.Some?, if arming.rf.Some? then Explain(arming.rf.value) else Raised),
     Trap(arming.view.Err?, if arming.view.Err? then Explain(arming.view.error) else Raised),
     Trap(polled.Err?, if polled.Err? then polled.error else Raised),
     Trap(arming.view.Ok? && polled.Ok?
          && !(arming.view.value.sameFixed && HealthyStart(arming.view.value) && Answering(polled.value.book, arming.checkedAt)),
          changed),
     Trap(arming.effect.Some?, if arming.effect.Some? then Explain(arming.effect.value) else Raised)]
  }

  /** Arming ends the campaign exactly for the first of these; otherwise the fault is injected. */
  lemma ArmingStops(c: Setting, s: State, arming: Arming, at: real)
    ensures var t := ArmSpec(c, s, arming, at);
      && t.stop == First(ArmingTraps(c, s, arming))
      && (t.stop.None? ==> t.state.injected == Some(at))
  {
    var polled := Learned(c.session, s.worker, arming.polled);
    var traps := ArmingTraps(c, s, arming);
    FirstFive(traps[0], traps[1], traps[2], traps[3], traps[4]);
    assert traps == [traps[0], traps[1], traps[2], traps[3], traps[4]];
    if polled.Ok? {
      LanReceipts.ReadyExactly(polled.value.book, arming.checkedAt);
    }
    assert Explain(Refused("cellular_preflight_changed")) == Returned(Verdict.Inconclusive, "cellular_preflight_changed");
    hide Learned, First, Explain, HealthyStart, LanReceipts.Ready;
  }

  /** Before the fault a turn ends the campaign for a changed boot or after 45 seconds, and waits until the witness answers. */
  lemma WaitingStops(c: Setting, s: State, look: Look, w: LanReceipts.Worker)
    requires s.injected.None? && Learned(c.session, s.worker, look.polled) == Ok(w)
    ensures var (t, now) := ContactSpec(c, s, look);
      && (!look.sameBoot ==> t.stop == Some(Returned(Aborted, "boot_changed")))
      && (look.sameBoot && look.now > c.started + 45.0 ==> t.stop == Some(Returned(Blocked, "verified_lan_witness_missing")))
      && (look.sameBoot && look.now <= c.started + 45.0 && !Answering(w.book, look.now) ==>
            t.stop == None && t.state == s.(worker := w))
  {
    LanReceipts.ReadyExactly(w.book, look.now);
    hide Learned, ArmSpec, KeepSpec, LanReceipts.Ready;
  }

  // ---- One sample ----

  /** Table, radio, collector, identity, ownership and health, in the order in which a sample looks at them. */
  function SampleTraps(s: State, look: Look, guarded: bool): seq<Trap> {
    var view := if look.view.Ok? then Some(look.view.value) else None;
    var judged := if view.Some? then Judge(view.value.facts, s.token, s.removed.Some?) else Err("");
    [Trap(guarded && look.tableOwned.Some?, if look.tableOwned.Some? then Explain(look.tableOwned.value) else Raised),
     Trap(look.rf.Some?, if look.rf.Some? then Explain(look.rf.value) else Raised),
     Trap(look.view.Err?, if look.view.Err? then Explain(look.view.error) else Raised),
     Trap(view.Some? && !view.value.sameFixed, Returned(Aborted, "cellular_identity_or_policy_changed")),
     Trap(judged.Err?, if judged.Err? then Explain(Ambiguity(judged.error)) else Raised)]
  }

  function HealthTraps(look: Look): seq<Trap> {
    [Trap(look.health.Err?, if look.health.Err? then Explain(look.health.error) else Raised),
     Trap(look.health == Ok(Unhealthy), Returned(Failed, "required_observation_unhealthy")),
     Trap(look.health == Ok(Unknown), Returned(Verdict.Inconclusive, "required_observation_unhealthy"))]
  }

  lemma HealthStops(c: Setting, s: State, look: Look, now: real, ownership: Ownership)
    requires look.view.Ok?
    ensures HealthSpec(c, s, look, now, ownership).stop == First(HealthTraps(look))
  {
    var traps := HealthTraps(look);
    FirstThree(traps[0], traps[1], traps[2]);
    hide Explain, Guarded, Emitted, First;
    if look.health.Ok? {
      assert look.health == Ok(look.health.value);
    }
  }

  /** Observing a sample ends the campaign exactly for the first of these. */
  lemma ObservationStops(c: Setting, s: State, look: Look, now: real)
    requires s.injected.Some?
    ensures var guarded := s.removed.None? && now < s.injected.value + c.duration as real;
      ObserveSpec(c, s, look, now).stop == First(SampleTraps(s, look, guarded) + HealthTraps(look))
  {
    var guarded := s.removed.None? && now < s.injected.value + c.duration as real;
    var traps := SampleTraps(s, look, guarded);
    FirstOfTwo(traps, HealthTraps(look));
    FirstFive(traps[0], traps[1], traps[2], traps[3], traps[4]);
    assert traps == [traps[0], traps[1], traps[2], traps[3], traps[4]];
    hide Explain, Judge, HealthSpec, HealthTraps, First;
    if look.view.Ok? && Judge(look.view.value.facts, s.token, s.removed.Some?).Ok? {
      var ownership := Judge(look.view.value.facts, s.token, s.removed.Some?).value;
      HealthStops(c, if ownership.token.Some? then s.(token := ownership.token) else s, look, now, ownership);
    }
  }

  // ---- Deadlines ----

  /** The deadlines of a turn. */
  function DeadlineTraps(c: Setting, s: State, look: Look): seq<Trap>
    requires s.injected.Some?
  {
    var budget := c.plan.recoverySeconds + 3 * c.plan.pollSeconds + 8;
    [Trap(s.removed.None? && look.budgetAt >= s.injected.value + c.duration as real,
          Returned(Failed, "automatic_cellular_fallback_not_proven_within_budget")),
     Trap(s.removed.Some? && look.recoveryAt > (if s.removed.Some? then s.removed.value else 0.0) + budget as real,
          Returned(Failed, "preferred_recovery_or_owned_release_deadline")),
     Trap(s.recovered.Some? && s.worker.finished,
          Returned(Concludes(s), "automatic_cellular_ownership_and_release"))]
  }

  /** The coverage of the whole window decides, and a warning is passed on. */
  function Concludes(s: State): Verdict {
    if s.injected.None? || s.recovered.None? then HarnessError
    else if LanReceipts.Coverage(s.worker.book, s.injected.value, s.recovered.value) == LanReceipts.Fail then Failed
    else if LanReceipts.Coverage(s.worker.book, s.injected.value, s.recovered.value) == LanReceipts.Inconclusive then Verdict.Inconclusive
    else if s.warning then PassedWithObservation else Passed
  }

  /** A turn that nothing else has ended ends exactly for the first of these, the last being the conclusion. */
  lemma DeadlineStops(c: Setting, s: State, look: Look)
    requires s.injected.Some? && (s.recovered.Some? ==> s.removed.Some?)
    ensures EndSpec(c, s, look).stop == First(DeadlineTraps(c, s, look))
  {
    var traps := DeadlineTraps(c, s, look);
    FirstThree(traps[0], traps[1], traps[2]);
    hide LanReceipts.Coverage, First;
  }
}
