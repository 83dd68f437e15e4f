/**
 The cellular fallback controller: what its ownership marker does and does not promise, over every run of its
 steps between Wi-Fi changes, restarts and an operator's own connections (pcs_cellular_fallback.py).
 */
module CellularFallback {
  import opened Basics

  datatype Config = Config(lossSeconds: int, recoverySeconds: int)

  datatype Maker = Controller | Operator

  /** How a command to NetworkManager ended; one that breaks off may have taken effect. */
  datatype Attempt = Succeeded | Refused | Broke(effect: bool)

  /** What one step meets: each observation may fail, and so may writing or removing the marker. */
  datatype Readings = Readings(wifi: Option<bool>, cellular: Option<bool>, connect: Attempt, recorded: bool,
                               disconnect: Attempt, cleared: bool)

  datatype State = State(
    /** The marker names our profile. */
    marked: bool,
    lostAt: Option<real>,
    restoredAt: Option<real>,
    /** The active cellular connection, by who made it. */
    session: Option<Maker>)

  const INITIAL := State(false, None, None, None)

  datatype Issue = Nothing | Connects | Disconnects

  datatype Turn = Turn(state: State, issue: Issue)

  function AfterConnect(s: State, r: Readings): State {
    match r.connect
    case Refused => s
    case Broke(effect) => if effect then s.(session := Some(Controller)) else s
    case Succeeded =>
      if r.recorded then s.(session := Some(Controller), marked := true, lostAt := None)
      else s.(session := Some(Controller))
  }

  function AfterDisconnect(s: State, r: Readings): State {
    match r.disconnect
    case Refused => s
    case Broke(effect) => if effect then s.(session := None) else s
    case Succeeded => s.(session := None, marked := s.marked && !r.cleared)
  }

  function Step(c: Config, s: State, now: real, r: Readings): Turn {
    if r.wifi.None? || r.cellular.None? then Turn(s, Nothing)
    else if r.wifi.value then
      var s1 := s.(lostAt := None);
      if !s.marked then Turn(s1.(restoredAt := None), Nothing)
      else if !r.cellular.value then
        Turn(if r.cleared then s1.(marked := false, restoredAt := None) else s1, Nothing)
      else if s.restoredAt.None? then Turn(s1.(restoredAt := Some(now)), Nothing)
      else if now - s.restoredAt.value < c.recoverySeconds as real then Turn(s1, Nothing)
      else
        var s2 := AfterDisconnect(s1, r);
        Turn(if r.disconnect == Succeeded && r.cleared then s2.(restoredAt := None) else s2, Disconnects)
    else
      var s1 := s.(restoredAt := None);
      if r.cellular.value then Turn(s1.(lostAt := None), Nothing)
      else if s.lostAt.None? then Turn(s1.(lostAt := Some(now)), Nothing)
      else if now - s.lostAt.value < c.lossSeconds as real then Turn(s1, Nothing)
      else Turn(AfterConnect(s1, r), Connects)
  }

  function Release(s: State, r: Readings): Turn {
    if !s.marked || r.cellular.None? then Turn(s, Nothing)
    else if !r.cellular.value then Turn(s.(marked := !r.cleared), Nothing)
    else Turn(AfterDisconnect(s, r), Disconnects)
  }

  datatype Event =
    | Stepped(now: real, readings: Readings)
    | Released(readings: Readings)
    | Restarted
    | OperatorConnects
    | OperatorDisconnects

  function Next(c: Config, s: State, e: Event): Turn {
    match e
    case Stepped(now, r) => Step(c, s, now, r)
    case Released(r) => Release(s, r)
    case Restarted => Turn(s.(lostAt := None, restoredAt := None), Nothing)
    case OperatorConnects => Turn(s.(session := Some(Operator)), Nothing)
    case OperatorDisconnects => Turn(s.(session := None), Nothing)
  }

  function Run(c: Config, events: seq<Event>): State {
    if events == [] then INITIAL else Next(c, Run(c, events[..|events| - 1]), events[|events| - 1]).state
  }

  /** The state that the i-th event meets. */
  function Before(c: Config, events: seq<Event>, i: int): State
    requires 0 <= i < |events|
  {
    Run(c, events[..i])
  }

  function IssuedAt(c: Config, events: seq<Event>, i: int): Issue
    requires 0 <= i < |events|
  {
    Next(c, Before(c, events, i), events[i]).issue
  }

  lemma PrefixBefore(c: Config, events: seq<Event>, i: int)
    requires 0 <= i < |events| - 1
    ensures Before(c, events[..|events| - 1], i) == Before(c, events, i)
    ensures IssuedAt(c, events[..|events| - 1], i) == IssuedAt(c, events, i)
  {
    assert events[..|events| - 1][..i] == events[..i];
  }

  // ---- The marker ----

  /** The i-th event connected successfully and wrote the marker, which has stood ever since. */
  predicate MarkedSince(c: Config, events: seq<Event>, i: int) {
    && 0 <= i < |events| && IssuedAt(c, events, i) == Connects
    && events[i].Stepped? && events[i].readings.connect == Succeeded && events[i].readings.recorded
    && forall j :: i < j < |events| ==> Before(c, events, j).marked
  }

  lemma {:induction false} MarkerMeansConnected(c: Config, events: seq<Event>) returns (i: int)
    requires Run(c, events).marked
    ensures MarkedSince(c, events, i)
  {
    var rest, last := events[..|events| - 1], |events| - 1;
    assert Before(c, events, last) == Run(c, rest);
    if Run(c, rest).marked {
      i := MarkerMeansConnected(c, rest);
      hide Run, Before, IssuedAt;
      PrefixBefore(c, events, i);
      forall j | i < j < |events| ensures Before(c, events, j).marked {
        if j < last {
          PrefixBefore(c, events, j);
        }
      }
    } else {
      i := last;
    }
  }

  /** A disconnect is issued only while the marker stands that one of our own successful connects has written. */
  lemma DisconnectsOnlyWhileMarked(c: Config, events: seq<Event>, j: int) returns (i: int)
    requires 0 <= j < |events| && IssuedAt(c, events, j) == Disconnects
    ensures Before(c, events, j).marked && MarkedSince(c, events[..j], i)
  {
    i := MarkerMeansConnected(c, events[..j]);
  }

  // ---- Stability windows ----

  /** A step that observed anything saw Wi-Fi up, or else Wi-Fi and cellular down. */
  predicate Saw(e: Event, wifi: bool) {
    && e != Restarted
    && (e.Stepped? && e.readings.wifi.Some? && e.readings.cellular.Some? ==>
          e.readings.wifi.value == wifi && (!wifi ==> !e.readings.cellular.value))
  }

  /** From the i-th event, a step that saw it, to the end, every step saw this, and the controller was not restarted. */
  predicate SawSince(events: seq<Event>, i: int, wifi: bool) {
    && 0 <= i < |events| && events[i].Stepped? && events[i].readings.wifi.Some? && events[i].readings.cellular.Some?
    && forall j :: i <= j < |events| ==> Saw(events[j], wifi)
  }

  lemma SawSinceExtends(events: seq<Event>, i: int, wifi: bool)
    requires events != [] && SawSince(events[..|events| - 1], i, wifi) && Saw(events[|events| - 1], wifi)
    ensures SawSince(events, i, wifi)
  {
    hide Saw;
    forall j | i <= j < |events| ensures Saw(events[j], wifi) {
      if j < |events| - 1 {
        assert events[..|events| - 1][j] == events[j];
      }
    }
  }

  /** The two timers measure uninterrupted observations. */
  lemma {:induction false} TimersMeasure(c: Config, events: seq<Event>) returns (lost: int, restored: int)
    ensures Run(c, events).lostAt.Some? ==>
      SawSince(events, lost, false) && events[lost].now == Run(c, events).lostAt.value
    ensures Run(c, events).restoredAt.Some? ==>
      SawSince(events, restored, true) && events[restored].now == Run(c, events).restoredAt.value
  {
    lost, restored := 0, 0;
    if events != [] {
      var rest, last := events[..|events| - 1], events[|events| - 1];
      lost, restored := TimersMeasure(c, rest);
      var s, s' := Run(c, rest), Run(c, events);
      assert s' == Next(c, s, last).state;
      hide Run;
      if s'.lostAt.Some? {
        if s.lostAt == s'.lostAt && Saw(last, false) {
          SawSinceExtends(events, lost, false);
        } else {
          lost := |events| - 1;
        }
      }
      if s'.restoredAt.Some? {
        if s.restoredAt == s'.restoredAt && Saw(last, true) {
          SawSinceExtends(events, restored, true);
        } else {
          restored := |events| - 1;
        }
      }
    }
  }

  /** A connect follows at least the loss window in which every step saw Wi-Fi and cellular down. */
  lemma ConnectsAfterLoss(c: Config, events: seq<Event>, j: int) returns (i: int)
    requires 0 <= j < |events| && IssuedAt(c, events, j) == Connects
    ensures SawSince(events[..j + 1], i, false) && events[j].Stepped?
    ensures i < j && events[j].now - events[i].now >= c.lossSeconds as real
  {
    var restored;
    i, restored := TimersMeasure(c, events[..j]);
    hide Run;
    assert events[..j + 1][..j] == events[..j];
    SawSinceExtends(events[..j + 1], i, false);
  }

  /** A disconnect by a step follows at least the recovery window in which every step saw Wi-Fi up. */
  lemma DisconnectsAfterRecovery(c: Config, events: seq<Event>, j: int) returns (i: int)
    requires 0 <= j < |events| && IssuedAt(c, events, j) == Disconnects && events[j].Stepped?
    ensures SawSince(events[..j + 1], i, true)
    ensures i < j && events[j].now - events[i].now >= c.recoverySeconds as real
  {
    var lost;
    lost, i := TimersMeasure(c, events[..j]);
    hide Run;
    assert events[..j + 1][..j] == events[..j];
    SawSinceExtends(events[..j + 1], i, true);
  }

  /** Readings of the clock never go back. */
  predicate Clocked(events: seq<Event>) {
    forall i, j :: 0 <= i < j < |events| && events[i].Stepped? && events[j].Stepped? ==> events[i].now <= events[j].now
  }

  /** Nothing of this kind was issued from the i-th event on. */
  predicate NotIssued(c: Config, events: seq<Event>, i: int, issue: Issue) {
    0 <= i && forall j :: i <= j < |events| ==> IssuedAt(c, events, j) != issue
  }

  predicate AlwaysMarked(c: Config, events: seq<Event>, i: int) {
    0 <= i && forall j :: i <= j < |events| ==> Before(c, events, j).marked && CellularSeen(events[j])
  }

  predicate CellularSeen(e: Event) {
    e.Stepped? && e.readings.wifi.Some? && e.readings.cellular.Some? ==> e.readings.cellular.value
  }

  lemma PrefixKeeps(c: Config, events: seq<Event>, i: int, wifi: bool)
    requires 0 <= i < |events| - 1 && SawSince(events, i, wifi) && Clocked(events)
    ensures SawSince(events[..|events| - 1], i, wifi) && Clocked(events[..|events| - 1])
    ensures forall issue :: NotIssued(c, events, i, issue) ==> NotIssued(c, events[..|events| - 1], i, issue)
    ensures AlwaysMarked(c, events, i) ==> AlwaysMarked(c, events[..|events| - 1], i)
  {
    hide Saw, IssuedAt, Before, CellularSeen;
    var rest := events[..|events| - 1];
    forall j | i <= j < |rest| ensures Before(c, rest, j) == Before(c, events, j) && IssuedAt(c, rest, j) == IssuedAt(c, events, j) {
      PrefixBefore(c, events, j);
    }
  }

  lemma {:induction false} LossTimerRuns(c: Config, events: seq<Event>, i: int)
    requires SawSince(events, i, false) && Clocked(events) && NotIssued(c, events, i, Connects)
    ensures Run(c, events).lostAt.Some? && Run(c, events).lostAt.value <= events[i].now
  {
    var rest, last := events[..|events| - 1], |events| - 1;
    assert Before(c, events, last) == Run(c, rest) && IssuedAt(c, events, last) != Connects;
    assert Saw(events[last], false);
    if i == last {
      var lost, restored := TimersMeasure(c, rest);
    } else {
      PrefixKeeps(c, events, i, false);
      LossTimerRuns(c, rest, i);
    }
  }

  /** And a step that has seen Wi-Fi and cellular down for the loss window, without a connect in it, does connect. */
  lemma LongLossConnects(c: Config, events: seq<Event>, i: int, now: real, r: Readings)
    requires SawSince(events, i, false) && Clocked(events) && NotIssued(c, events, i, Connects)
    requires r.wifi == Some(false) && r.cellular == Some(false) && now - events[i].now >= c.lossSeconds as real
    ensures Step(c, Run(c, events), now, r).issue == Connects
  {
    LossTimerRuns(c, events, i);
    hide Run;
  }

  lemma {:induction false} RecoveryTimerRuns(c: Config, events: seq<Event>, i: int)
    requires SawSince(events, i, true) && Clocked(events) && NotIssued(c, events, i, Disconnects) && AlwaysMarked(c, events, i)
    ensures Run(c, events).restoredAt.Some? && Run(c, events).restoredAt.value <= events[i].now
  {
    var rest, last := events[..|events| - 1], |events| - 1;
    assert Before(c, events, last) == Run(c, rest) && IssuedAt(c, events, last) != Disconnects;
    assert Saw(events[last], true);
    if i == last {
      var lost, restored := TimersMeasure(c, rest);
    } else {
      PrefixKeeps(c, events, i, true);
      RecoveryTimerRuns(c, rest, i);
    }
  }

  /** And a step that has seen both up for the recovery window, the marker standing, does disconnect. */
  lemma LongRecoveryDisconnects(c: Config, events: seq<Event>, i: int, now: real, r: Readings)
    requires SawSince(events, i, true) && Clocked(events) && NotIssued(c, events, i, Disconnects) && AlwaysMarked(c, events, i)
    requires Run(c, events).marked && r.wifi == Some(true) && r.cellular == Some(true)
    requires now - events[i].now >= c.recoverySeconds as real
    ensures Step(c, Run(c, events), now, r).issue == Disconnects
  {
    RecoveryTimerRuns(c, events, i);
    hide Run;
  }

  // ---- Marker and timers, exactly ----

  predicate Sees(e: Event, wifi: bool, cellular: bool) {
    e.Stepped? && e.readings.wifi == Some(wifi) && e.readings.cellular == Some(cellular)
  }

  /** The i-th event connected and wrote the marker. */
  predicate Writes(c: Config, events: seq<Event>, i: int)
    requires 0 <= i < |events|
  {
    IssuedAt(c, events, i) == Connects && events[i].Stepped? && events[i].readings.connect == Succeeded && events[i].readings.recorded
  }

  /** The i-th event disconnected and removed the marker. */
  predicate Ends(c: Config, events: seq<Event>, i: int)
    requires 0 <= i < |events|
  {
    && IssuedAt(c, events, i) == Disconnects && (events[i].Stepped? || events[i].Released?)
    && events[i].readings.disconnect == Succeeded && events[i].readings.cleared
  }

  /** The i-th event removes the marker if it stands: with its session, or because no session is left. */
  predicate Clears(c: Config, events: seq<Event>, i: int)
    requires 0 <= i < |events|
  {
    || Ends(c, events, i)
    || (Sees(events[i], true, false) && events[i].readings.cleared)
    || (events[i].Released? && events[i].readings.cellular == Some(false) && events[i].readings.cleared)
  }

  predicate Written(c: Config, events: seq<Event>, i: int) {
    0 <= i < |events| && Writes(c, events, i) && forall j :: i < j < |events| ==> !Clears(c, events, j)
  }

  lemma StepMarks(c: Config, events: seq<Event>)
    requires events != []
    ensures var last := |events| - 1; var before := Before(c, events, last).marked;
      Run(c, events).marked <==> Writes(c, events, last) || (before && !Clears(c, events, last))
  {
  }

  lemma SameEarlier(c: Config, events: seq<Event>, rest: seq<Event>, i: int)
    requires events != [] && rest == events[..|events| - 1] && 0 <= i < |rest|
    ensures Writes(c, rest, i) <==> Writes(c, events, i)
    ensures Clears(c, rest, i) <==> Clears(c, events, i)
    ensures Ends(c, rest, i) <==> Ends(c, events, i)
    ensures Before(c, rest, i) == Before(c, events, i)
  {
    hide Before, IssuedAt;
    PrefixBefore(c, events, i);
  }

  /** The marker stands exactly when some connect wrote it and nothing since has removed it. */
  lemma {:induction false} MarkedExactly(c: Config, events: seq<Event>)
    ensures Run(c, events).marked <==> exists i :: Written(c, events, i)
  {
    if events != [] {
      var rest, last := events[..|events| - 1], |events| - 1;
      MarkedExactly(c, rest);
      StepMarks(c, events);
      assert Before(c, events, last) == Run(c, rest);
      hide Run, Before, Writes, Clears;
      forall i | 0 <= i < last
        ensures (Writes(c, rest, i) <==> Writes(c, events, i)) && (Clears(c, rest, i) <==> Clears(c, events, i)) {
        SameEarlier(c, events, rest, i);
      }
      WrittenStep(c, events, rest);
    }
  }

  lemma WrittenStep(c: Config, events: seq<Event>, rest: seq<Event>)
    requires events != [] && rest == events[..|events| - 1]
    requires forall i :: 0 <= i < |rest| ==>
      (Writes(c, rest, i) <==> Writes(c, events, i)) && (Clears(c, rest, i) <==> Clears(c, events, i))
    ensures (exists i :: Written(c, events, i)) <==>
      Writes(c, events, |rest|) || ((exists i :: Written(c, rest, i)) && !Clears(c, events, |rest|))
  {
    hide Writes, Clears;
    var last := |rest|;
    if Writes(c, events, last) {
      assert Written(c, events, last);
    }
    if !Clears(c, events, last) {
      if i :| Written(c, rest, i) {
        assert Written(c, events, i);
      }
    }
    if i :| Written(c, events, i) {
      assert i < last ==> Written(c, rest, i);
    }
  }

  /** The i-th event ends a measurement of the loss: a restart, Wi-Fi or cellular seen up, or a connect that was recorded. */
  predicate EndsLoss(c: Config, events: seq<Event>, i: int)
    requires 0 <= i < |events|
  {
    events[i] == Restarted || Sees(events[i], true, true) || Sees(events[i], true, false) || Sees(events[i], false, true)
    || Writes(c, events, i)
  }

  /** The loss is measured from the i-th event on: the first since the last end to see both down. */
  ghost predicate LossFrom(c: Config, events: seq<Event>, i: int) {
    && 0 <= i < |events| && Sees(events[i], false, false)
    && (forall j :: i <= j < |events| ==> !EndsLoss(c, events, j))
    && exists m :: FirstSince(events, m, i) && (m > 0 ==> EndsLoss(c, events, m - 1))
  }

  predicate FirstSince(events: seq<Event>, m: int, i: int) {
    0 <= m <= i < |events| && forall j :: m <= j < i ==> !Sees(events[j], false, false)
  }

  lemma StepLoss(c: Config, events: seq<Event>)
    requires events != []
    ensures var last := |events| - 1; var before := Before(c, events, last).lostAt;
      Run(c, events).lostAt == if EndsLoss(c, events, last) then None
                               else if before.None? && Sees(events[last], false, false) then Some(events[last].now) else before
  {
    var s, e := Before(c, events, |events| - 1), events[|events| - 1];
    assert Run(c, events) == Next(c, s, e).state;
    if e.Stepped? && e.readings.wifi.Some? && e.readings.cellular.Some? {
      var r := e.readings;
      assert r.wifi == Some(r.wifi.value) && r.cellular == Some(r.cellular.value);
      assert r.wifi.value || r.wifi == Some(false);
      assert r.cellular.value || r.cellular == Some(false);
    }
    hide Run, Before;
  }

  /** Without a measurement nothing since the last end has seen both down. */
  predicate NoLossFrom(c: Config, events: seq<Event>, m: int) {
    && 0 <= m <= |events| && (m > 0 ==> EndsLoss(c, events, m - 1))
    && forall j :: m <= j < |events| ==> !Sees(events[j], false, false)
  }

  /** The loss timer is the clock reading of the event from which the loss is measured. */
  lemma {:induction false} LossTimerExactly(c: Config, events: seq<Event>) returns (i: int)
    ensures Run(c, events).lostAt.Some? ==> LossFrom(c, events, i) && events[i].now == Run(c, events).lostAt.value
    ensures Run(c, events).lostAt.None? ==> NoLossFrom(c, events, i)
  {
    i := 0;
    if events != [] {
      var rest, last := events[..|events| - 1], |events| - 1;
      i := LossTimerExactly(c, rest);
      StepLoss(c, events);
      var s, s' := Run(c, rest), Run(c, events);
      assert Before(c, events, last) == s;
      hide Run, Before, EndsLoss;
      forall j | 0 <= j < last ensures EndsLoss(c, rest, j) <==> EndsLoss(c, events, j) {
        SameEnds(c, events, rest, j);
      }
      if EndsLoss(c, events, last) {
        i := |events|;
      } else if s.lostAt.Some? {
        LossKept(c, events, rest, i);
      } else if Sees(events[last], false, false) {
        assert FirstSince(events, i, last);
        i := last;
      }
    }
  }

  lemma SameEnds(c: Config, events: seq<Event>, rest: seq<Event>, i: int)
    requires events != [] && rest == events[..|events| - 1] && 0 <= i < |rest|
    ensures EndsLoss(c, rest, i) <==> EndsLoss(c, events, i)
  {
    hide Writes;
    SameEarlier(c, events, rest, i);
  }

  lemma LossKept(c: Config, events: seq<Event>, rest: seq<Event>, i: int)
    requires events != [] && rest == events[..|events| - 1] && LossFrom(c, rest, i) && !EndsLoss(c, events, |rest|)
    requires forall j :: 0 <= j < |rest| ==> (EndsLoss(c, rest, j) <==> EndsLoss(c, events, j))
    ensures LossFrom(c, events, i)
  {
    hide EndsLoss, Sees;
    var m :| FirstSince(rest, m, i) && (m > 0 ==> EndsLoss(c, rest, m - 1));
    assert FirstSince(events, m, i);
    assert m > 0 ==> EndsLoss(c, events, m - 1);
  }

  lemma LossUnique(c: Config, events: seq<Event>, i: int, j: int)
    requires LossFrom(c, events, i)
    ensures LossFrom(c, events, j) ==> i == j
    ensures !NoLossFrom(c, events, j)
  {
    hide EndsLoss, Sees;
    if LossFrom(c, events, j) {
      LossNotLater(c, events, i, j);
      LossNotLater(c, events, j, i);
    }
  }

  lemma LossNotLater(c: Config, events: seq<Event>, i: int, j: int)
    requires LossFrom(c, events, i) && LossFrom(c, events, j)
    ensures i <= j
  {
    hide EndsLoss, Sees;
    var m :| FirstSince(events, m, i) && (m > 0 ==> EndsLoss(c, events, m - 1));
    assert m <= j;
  }

  /** A connect is issued exactly by a step that sees both down when they have been measured down for the loss window. */
  lemma ConnectsExactly(c: Config, events: seq<Event>, j: int)
    requires 0 <= j < |events|
    ensures IssuedAt(c, events, j) == Connects <==>
      && Sees(events[j], false, false)
      && exists i :: LossFrom(c, events[..j], i) && events[j].now - events[i].now >= c.lossSeconds as real
  {
    var past := events[..j];
    var i := LossTimerExactly(c, past);
    hide Run, LossFrom, NoLossFrom;
    if Before(c, events, j).lostAt.Some? {
      forall k ensures LossFrom(c, past, k) ==> k == i {
        LossUnique(c, past, i, k);
      }
    } else {
      forall k ensures !LossFrom(c, past, k) {
        if LossFrom(c, past, k) {
          LossUnique(c, past, k, i);
        }
      }
    }
  }

  /**
   The i-th event ends a measurement of the recovery: a restart, Wi-Fi seen down, Wi-Fi seen up without the marker, a stale
   marker removed, or a step's disconnect with the marker removed.
   */
  predicate EndsRecovery(c: Config, events: seq<Event>, i: int)
    requires 0 <= i < |events|
  {
    || events[i] == Restarted || Sees(events[i], false, true) || Sees(events[i], false, false)
    || ((Sees(events[i], true, true) || Sees(events[i], true, false)) && !Before(c, events, i).marked)
    || (Sees(events[i], true, false) && events[i].readings.cleared)
    || (events[i].Stepped? && Ends(c, events, i))
  }

  /** A step that sees both up while the marker stands. */
  predicate Recovers(c: Config, events: seq<Event>, i: int)
    requires 0 <= i < |events|
  {
    Sees(events[i], true, true) && Before(c, events, i).marked
  }

  ghost predicate RecoveryFrom(c: Config, events: seq<Event>, i: int) {
    && 0 <= i < |events| && Recovers(c, events, i)
    && (forall j :: i <= j < |events| ==> !EndsRecovery(c, events, j))
    && exists m :: FirstRecovery(c, events, m, i) && (m > 0 ==> EndsRecovery(c, events, m - 1))
  }

  predicate FirstRecovery(c: Config, events: seq<Event>, m: int, i: int) {
    0 <= m <= i < |events| && forall j :: m <= j < i ==> !Recovers(c, events, j)
  }

  predicate NoRecoveryFrom(c: Config, events: seq<Event>, m: int) {
    && 0 <= m <= |events| && (m > 0 ==> EndsRecovery(c, events, m - 1))
    && forall j :: m <= j < |events| ==> !Recovers(c, events, j)
  }

  lemma StepRecovers(c: Config, s: State, now: real, r: Readings)
    requires r.wifi.Some? && r.cellular.Some?
    ensures var t := Step(c, s, now, r);
      t.state.restoredAt == if !r.wifi.value || !s.marked || (!r.cellular.value && r.cleared) then None
                            else if t.issue == Disconnects && r.disconnect == Succeeded && r.cleared then None
                            else if s.restoredAt.None? && r.cellular.value then Some(now) else s.restoredAt
  {
  }

  lemma StepRecovery(c: Config, events: seq<Event>)
    requires events != []
    ensures var last := |events| - 1; var before := Before(c, events, last).restoredAt;
      Run(c, events).restoredAt == if EndsRecovery(c, events, last) then None
                                   else if before.None? && Recovers(c, events, last) then Some(events[last].now) else before
  {
    var s, e := Before(c, events, |events| - 1), events[|events| - 1];
    assert Run(c, events) == Next(c, s, e).state;
    assert IssuedAt(c, events, |events| - 1) == Next(c, s, e).issue;
    if e.Stepped? && e.readings.wifi.Some? && e.readings.cellular.Some? {
      StepRecovers(c, s, e.now, e.readings);
      var r := e.readings;
      assert r.wifi == Some(r.wifi.value) && r.cellular == Some(r.cellular.value);
      assert r.wifi.value || r.wifi == Some(false);
      assert r.cellular.value || r.cellular == Some(false);
      assert EndsRecovery(c, events, |events| - 1) <==>
        !r.wifi.value || !s.marked || (!r.cellular.value && r.cleared) || Ends(c, events, |events| - 1);
      assert Recovers(c, events, |events| - 1) <==> r.wifi.value && r.cellular.value && s.marked;
    } else {
      assert !Recovers(c, events, |events| - 1);
      assert EndsRecovery(c, events, |events| - 1) <==> e == Restarted || (e.Stepped? && Ends(c, events, |events| - 1));
      assert e.Stepped? ==> !Ends(c, events, |events| - 1);
    }
    hide Run, Before;
  }

  lemma SameRecovery(c: Config, events: seq<Event>, rest: seq<Event>, i: int)
    requires events != [] && rest == events[..|events| - 1] && 0 <= i < |rest|
    ensures EndsRecovery(c, rest, i) <==> EndsRecovery(c, events, i)
    ensures Recovers(c, rest, i) <==> Recovers(c, events, i)
  {
    SameEarlier(c, events, rest, i);
    hide Ends, Before;
  }

  /** The recovery timer is the clock reading of the event from which the recovery is measured. */
  lemma {:induction false} RecoveryTimerExactly(c: Config, events: seq<Event>) returns (i: int)
    ensures Run(c, events).restoredAt.Some? ==> RecoveryFrom(c, events, i) && events[i].now == Run(c, events).restoredAt.value
    ensures Run(c, events).restoredAt.None? ==> NoRecoveryFrom(c, events, i)
  {
    i := 0;
    if events != [] {
      var rest, last := events[..|events| - 1], |events| - 1;
      i := RecoveryTimerExactly(c, rest);
      StepRecovery(c, events);
      var s := Run(c, rest);
      assert Before(c, events, last) == s;
      hide Run, Before, EndsRecovery, Recovers;
      forall j | 0 <= j < last
        ensures (EndsRecovery(c, rest, j) <==> EndsRecovery(c, events, j)) && (Recovers(c, rest, j) <==> Recovers(c, events, j)) {
        SameRecovery(c, events, rest, j);
      }
      if EndsRecovery(c, events, last) {
        i := |events|;
      } else if s.restoredAt.Some? {
        RecoveryKept(c, events, rest, i);
      } else if Recovers(c, events, last) {
        assert FirstRecovery(c, events, i, last);
        i := last;
      }
    }
  }

  lemma RecoveryKept(c: Config, events: seq<Event>, rest: seq<Event>, i: int)
    requires events != [] && rest == events[..|events| - 1] && RecoveryFrom(c, rest, i) && !EndsRecovery(c, events, |rest|)
    requires forall j :: 0 <= j < |rest| ==>
      (EndsRecovery(c, rest, j) <==> EndsRecovery(c, events, j)) && (Recovers(c, rest, j) <==> Recovers(c, events, j))
    ensures RecoveryFrom(c, events, i)
  {
    hide EndsRecovery, Recovers;
    var m :| FirstRecovery(c, rest, m, i) && (m > 0 ==> EndsRecovery(c, rest, m - 1));
    assert FirstRecovery(c, events, m, i);
    assert m > 0 ==> EndsRecovery(c, events, m - 1);
  }

  lemma RecoveryUnique(c: Config, events: seq<Event>, i: int, j: int)
    requires RecoveryFrom(c, events, i)
    ensures RecoveryFrom(c, events, j) ==> i == j
    ensures !NoRecoveryFrom(c, events, j)
  {
    hide EndsRecovery, Recovers;
    if RecoveryFrom(c, events, j) {
      RecoveryNotLater(c, events, i, j);
      RecoveryNotLater(c, events, j, i);
    }
  }

  lemma RecoveryNotLater(c: Config, events: seq<Event>, i: int, j: int)
    requires RecoveryFrom(c, events, i) && RecoveryFrom(c, events, j)
    ensures i <= j
  {
    hide EndsRecovery, Recovers;
    var m :| FirstRecovery(c, events, m, i) && (m > 0 ==> EndsRecovery(c, events, m - 1));
    assert m <= j;
  }

  /**
   A disconnect is issued exactly by a step that sees both up with the marker standing when they have been measured so for
   the recovery window, and by a release that finds marker and session.
   */
  lemma DisconnectsExactly(c: Config, events: seq<Event>, j: int)
    requires 0 <= j < |events|
    ensures IssuedAt(c, events, j) == Disconnects <==>
      || (events[j].Released? && Before(c, events, j).marked && events[j].readings.cellular == Some(true))
      || (Recovers(c, events, j)
          && exists i :: RecoveryFrom(c, events[..j], i) && events[j].now - events[i].now >= c.recoverySeconds as real)
  {
    var past := events[..j];
    var i := RecoveryTimerExactly(c, past);
    hide Run, RecoveryFrom, NoRecoveryFrom;
    if Before(c, events, j).restoredAt.Some? {
      forall k ensures RecoveryFrom(c, past, k) ==> k == i {
        RecoveryUnique(c, past, i, k);
      }
    } else {
      forall k ensures !RecoveryFrom(c, past, k) {
        if RecoveryFrom(c, past, k) {
          RecoveryUnique(c, past, k, i);
        }
      }
    }
  }

  // ---- Whose session is it ----

  predicate Effective(a: Attempt) { a == Succeeded || a == Broke(true) }

  /** The i-th event made or ended a cellular session. */
  predicate Changes(c: Config, events: seq<Event>, i: int)
    requires 0 <= i < |events|
  {
    || events[i] == OperatorConnects || events[i] == OperatorDisconnects
    || (events[i].Stepped? && IssuedAt(c, events, i) == Connects && Effective(events[i].readings.connect))
    || (IssuedAt(c, events, i) == Disconnects && Effective(events[i].readings.disconnect))
  }

  /** The operator's own connect, while the marker stood, was the last change of the session. */
  predicate TakenOverAt(c: Config, events: seq<Event>, k: int) {
    && 0 <= k < |events| && events[k] == OperatorConnects && Before(c, events, k).marked
    && forall j :: k < j < |events| ==> !Changes(c, events, j)
  }

  lemma {:induction false} OperatorsSession(c: Config, events: seq<Event>) returns (k: int)
    requires Run(c, events).session == Some(Operator)
    ensures 0 <= k < |events| && events[k] == OperatorConnects
    ensures forall j :: k < j < |events| ==> !Changes(c, events, j)
  {
    var rest, last := events[..|events| - 1], |events| - 1;
    assert Before(c, events, last) == Run(c, rest);
    if events[last] == OperatorConnects {
      k := last;
    } else {
      assert !Changes(c, events, last) && Run(c, rest).session == Some(Operator);
      k := OperatorsSession(c, rest);
      hide Run, Before, IssuedAt;
      forall j | k < j < |events| ensures !Changes(c, events, j) {
        if j < last {
          PrefixBefore(c, events, j);
          assert !Changes(c, rest, j);
        }
      }
    }
  }

  lemma {:induction false} UnchangedSince(c: Config, events: seq<Event>, k: int)
    requires 0 <= k < |events| && events[k] == OperatorConnects
    requires forall j :: k < j < |events| ==> !Changes(c, events, j)
    ensures Run(c, events).session == Some(Operator)
  {
    var rest, last := events[..|events| - 1], |events| - 1;
    assert Before(c, events, last) == Run(c, rest);
    if k < last {
      assert !Changes(c, events, last);
      forall j | k < j < |rest| ensures !Changes(c, rest, j) {
        PrefixBefore(c, events, j);
        assert !Changes(c, events, j);
      }
      UnchangedSince(c, rest, k);
    }
  }

  /**
   A disconnect hits the operator's session exactly when the operator's own connect, made while the marker
   stood, was the last change of the session.
   */
  lemma HitsOperatorExactly(c: Config, events: seq<Event>, j: int)
    requires 0 <= j < |events| && IssuedAt(c, events, j) == Disconnects
    ensures Before(c, events, j).session == Some(Operator) <==> exists k :: TakenOverAt(c, events[..j], k)
  {
    var past := events[..j];
    var i := DisconnectsOnlyWhileMarked(c, events, j);
    hide Run;
    if Before(c, events, j).session == Some(Operator) {
      var k := OperatorsSession(c, past);
      assert k > i by {
        assert Changes(c, past, i);
      }
      assert TakenOverAt(c, past, k);
    }
    if k :| TakenOverAt(c, past, k) {
      UnchangedSince(c, past, k);
    }
  }

  /** It does happen: an operator who reconnects by hand is disconnected when Wi-Fi returns. */
  lemma OperatorIsDisconnected()
    ensures var c := Config(30, 30);
      var down := Readings(Some(false), Some(false), Succeeded, true, Succeeded, true);
      var up := Readings(Some(true), Some(true), Succeeded, true, Succeeded, true);
      var events := [Stepped(0.0, down), Stepped(30.0, down), OperatorDisconnects, OperatorConnects,
                     Stepped(40.0, up), Stepped(70.0, up)];
      IssuedAt(c, events, 5) == Disconnects && Before(c, events, 5).session == Some(Operator)
  {
    var c := Config(30, 30);
    var down := Readings(Some(false), Some(false), Succeeded, true, Succeeded, true);
    var up := Readings(Some(true), Some(true), Succeeded, true, Succeeded, true);
    var e0, e1, e2, e3, e4 := Stepped(0.0, down), Stepped(30.0, down), OperatorDisconnects, OperatorConnects, Stepped(40.0, up);
    var events := [e0, e1, e2, e3, e4, Stepped(70.0, up)];
    hide Run;
    RunStart(c);
    RunStep(c, [], e0);
    assert [] + [e0] == [e0];
    RunStep(c, [e0], e1);
    assert [e0] + [e1] == [e0, e1];
    RunStep(c, [e0, e1], e2);
    assert [e0, e1] + [e2] == [e0, e1, e2];
    RunStep(c, [e0, e1, e2], e3);
    assert [e0, e1, e2] + [e3] == [e0, e1, e2, e3];
    RunStep(c, [e0, e1, e2, e3], e4);
    assert [e0, e1, e2, e3] + [e4] == events[..5];
  }

  lemma RunStart(c: Config)
    ensures Run(c, []) == INITIAL
  {
  }

  lemma RunStep(c: Config, events: seq<Event>, e: Event)
    ensures Run(c, events + [e]) == Next(c, Run(c, events), e).state
  {
    assert (events + [e])[..|events|] == events;
  }

  // ---- The object ----

  /** The controller's fields, the marker file and what NetworkManager does for it. */
  class FallbackController {
    const config: Config
    var marked: bool
    var lostAt: Option<real>
    var restoredAt: Option<real>
    var session: Option<Maker>

    function Contents(): State
      reads this
    {
      State(marked, lostAt, restoredAt, session)
    }

    constructor (config: Config)
      ensures Contents() == INITIAL && this.config == config
    {
      this.config := config;
      marked, lostAt, restoredAt, session := false, None, None, None;
    }

    method ReleaseOwned(r: Readings) returns (issue: Issue)
      modifies this
      ensures Turn(Contents(), issue) == Release(old(Contents()), r)
    {
      issue := Nothing;
      if !marked || r.cellular.None? {
        return;
      }
      if r.cellular.value {
        issue := Disconnects;
        var done := Disconnect(r.disconnect);
        if !done {
          return;
        }
      }
      if r.cleared {
        marked := false;
      }
    }

    method Disconnect(outcome: Attempt) returns (done: bool)
      modifies this`session
      ensures done <==> outcome == Succeeded
      ensures session == if Effective(outcome) then None else old(session)
    {
      if Effective(outcome) {
        session := None;
      }
      done := outcome == Succeeded;
    }

    method TakeStep(now: real, r: Readings) returns (issue: Issue)
      modifies this
      ensures Turn(Contents(), issue) == Step(config, old(Contents()), now, r)
    {
      issue := Nothing;
      if r.wifi.None? || r.cellular.None? {
        return;
      }
      if r.wifi.value {
        lostAt := None;
        if !marked {
          restoredAt := None;
          return;
        }
        if !r.cellular.value {
          if r.cleared {
            marked := false;
            restoredAt := None;
          }
          return;
        }
        if restoredAt.None? {
          restoredAt := Some(now);
          return;
        }
        if now - restoredAt.value < config.recoverySeconds as real {
          return;
        }
        issue := Disconnects;
        var done := Disconnect(r.disconnect);
        if done && r.cleared {
          marked := false;
          restoredAt := None;
        }
        return;
      }
      restoredAt := None;
      if r.cellular.value {
        lostAt := None;
        return;
      }
      if lostAt.None? {
        lostAt := Some(now);
        return;
      }
      if now - lostAt.value < config.lossSeconds as real {
        return;
      }
      issue := Connects;
      if Effective(r.connect) {
        session := Some(Controller);
      }
      if r.connect == Succeeded && r.recorded {
        marked := true;
        lostAt := None;
      }
    }
  }
}
