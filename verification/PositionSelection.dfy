/** Choosing between the receiver's position and a manual one, over any stream of partial reports (pcs_location.py). */
module PositionSelection {
  import opened Basics

  const FIX_MAX_AGE := 15.0
  const RECOVERY_SECONDS := 5.0

  /** A JSON value; a text carries the instant it denotes when it is a time with an offset. */
  datatype Value = Whole(number: int) | Fraction(amount: real) | Text(text: string, instant: Option<real>) | Other(truthy: bool)

  /** A report, or several of them merged, by field. */
  type Report = map<string, Value>

  function Field(r: Report, name: string): Option<Value> { if name in r then Some(r[name]) else None }

  predicate Truthy(v: Option<Value>) {
    match v
    case None => false
    case Some(Whole(n)) => n != 0
    case Some(Fraction(x)) => x != 0.0
    case Some(Text(s, _)) => s != ""
    case Some(Other(truthy)) => truthy
  }

  predicate Between(v: Option<Value>, low: int, high: int) {
    match v
    case Some(Whole(n)) => low <= n <= high
    case Some(Fraction(x)) => low as real <= x <= high as real
    case _ => false
  }

  predicate HasFix(r: Report) {
    "mode" in r && r["mode"].Whole? && r["mode"].number >= 2
  }

  /** A fix with coordinates whose time is at most thirty seconds behind the wall clock, or five ahead of it. */
  predicate ValidFix(r: Report, wall: real) {
    && HasFix(r) && Between(Field(r, "lat"), -90, 90) && Between(Field(r, "lon"), -180, 180)
    && "time" in r && r["time"].Text? && r["time"].instant.Some? && -5.0 <= wall - r["time"].instant.value <= 30.0
  }

  predicate CompleteReport(r: Report) { "mode" in r && "lat" in r && "lon" in r && "time" in r }

  predicate NoFix(r: Report) { "mode" in r && r["mode"].Whole? && r["mode"].number < 2 }

  datatype State = State(pending: Report, fix: Report, received: Option<real>, goodSince: Option<real>, lastEpoch: Option<Value>)

  const INITIAL := State(map[], map[], None, None, None)

  /** The clocks read while one report is handled. */
  datatype Clocks = Clocks(checked: real, received: real, good: real, wall: real)

  /** The epoch assembled so far, with this fragment. */
  function Assembled(s: State, r: Report): Report {
    (if Truthy(Field(r, "time")) && Field(r, "time") != Field(s.pending, "time") then map[] else s.pending) + r
  }

  /** An assembled report that says something: a valid fix, a complete report, or no fix. Anything else is partial. */
  predicate Judged(r: Report, wall: real) { ValidFix(r, wall) || CompleteReport(r) || NoFix(r) }

  predicate TooOld(s: State, now: real) { s.received.None? || now - s.received.value > FIX_MAX_AGE }

  predicate NewEpoch(s: State, r: Report) { Field(r, "time") != s.lastEpoch }

  function Updated(s: State, r: Report, c: Clocks): State {
    if Field(r, "class").None? || !Field(r, "class").value.Text? || Field(r, "class").value.text != "TPV" then s
    else
      var report := Assembled(s, r);
      var s1 := s.(pending := report);
      if !Judged(report, c.wall) then s1
      else
        var valid := ValidFix(report, c.wall);
        var good := if !valid || TooOld(s, c.checked) then None else s.goodSince;
        if valid && NewEpoch(s, report) then
          s1.(fix := report, received := Some(c.received), lastEpoch := Field(report, "time"),
              goodSince := if good.None? then Some(c.good) else good)
        else s1.(fix := report, goodSince := good)
  }

  /** The receiver's connection was lost. */
  function Disconnected(s: State): State { s.(pending := map[], fix := map[], goodSince := None) }

  datatype Source = Manual | Gps | Unavailable

  predicate Good(s: State, wall: real, now: real) {
    ValidFix(s.fix, wall) && s.received.Some? && 0.0 <= now - s.received.value <= FIX_MAX_AGE
  }

  /** Two readings of the clock: one for the age of the fix, a later one for the recovery. */
  function Select(s: State, enabled: bool, persist: bool, wall: real, now: real, later: real): Source {
    var good := Good(s, wall, now);
    var recovered := good && s.goodSince.Some? && later - s.goodSince.value >= RECOVERY_SECONDS;
    if enabled && (persist || !recovered) then Manual else if good then Gps else Unavailable
  }

  // ---- Every run ----

  datatype Event = Heard(report: Report, clocks: Clocks) | Lost

  function Next(s: State, e: Event): State {
    match e
    case Heard(r, c) => Updated(s, r, c)
    case Lost => Disconnected(s)
  }

  function Run(events: seq<Event>): State {
    if events == [] then INITIAL else Next(Run(events[..|events| - 1]), events[|events| - 1])
  }

  predicate IsPosition(r: Report) {
    Field(r, "class").Some? && Field(r, "class").value.Text? && Field(r, "class").value.text == "TPV"
  }

  /** The event that brought a new epoch with a valid fix. */
  predicate Fresh(s: State, e: Event) {
    && e.Heard? && IsPosition(e.report) && ValidFix(Assembled(s, e.report), e.clocks.wall)
    && NewEpoch(s, Assembled(s, e.report))
  }

  /** A number between the two, whole or not. */
  predicate Degrees(v: Value, limit: int) {
    (v.Whole? && -limit <= v.number <= limit) || (v.Fraction? && -(limit as real) <= v.amount <= limit as real)
  }

  /** What a fix must hold to be used: its kind, its coordinates in degrees and its age in seconds. */
  predicate Usable(r: Report, wall: real) {
    && {"mode", "lat", "lon", "time"} <= r.Keys
    && r["mode"].Whole? && r["mode"].number > 1
    && Degrees(r["lat"], 90) && Degrees(r["lon"], 180)
    && r["time"].Text? && r["time"].instant.Some?
    && var age := wall - r["time"].instant.value; age >= -5.0 && age <= 30.0
  }

  lemma UsableExactly(r: Report, wall: real)
    ensures ValidFix(r, wall) <==> Usable(r, wall)
  {
  }

  /** The report says something: a usable fix, a report with all four fields, or that there is no fix. */
  predicate Speaks(r: Report, wall: real) {
    || Usable(r, wall) || {"mode", "lat", "lon", "time"} <= r.Keys
    || ("mode" in r && r["mode"].Whole? && r["mode"].number <= 1)
  }

  /**
   The event keeps the recovery running: the connection holds, and what it completes, if anything, is a usable fix at most
   fifteen seconds after the latest new epoch.
   */
  predicate Steady(s: State, e: Event) {
    && e.Heard?
    && var r := Next(s, e).pending;
    (IsPosition(e.report) && Speaks(r, e.clocks.wall) ==>
       Usable(r, e.clocks.wall) && s.received.Some? && e.clocks.checked <= s.received.value + 15.0)
  }

  lemma SteadyExactly(s: State, e: Event)
    ensures Steady(s, e) <==>
      && e.Heard?
      && (IsPosition(e.report) && Judged(Assembled(s, e.report), e.clocks.wall) ==>
            ValidFix(Assembled(s, e.report), e.clocks.wall) && !TooOld(s, e.clocks.checked))
  {
    if e.Heard? && IsPosition(e.report) {
      UsableExactly(Assembled(s, e.report), e.clocks.wall);
      assert Next(s, e).pending == Assembled(s, e.report) by { hide ValidFix, CompleteReport, NoFix, Usable, Assembled; }
      hide ValidFix, Usable, Assembled, Next;
    }
  }

  predicate FreshAt(events: seq<Event>, k: int)
    requires 0 <= k < |events|
  {
    Fresh(Run(events[..k]), events[k])
  }

  /** The i-th event was the latest to bring a new epoch. */
  predicate LastFresh(events: seq<Event>, i: int) {
    0 <= i < |events| && FreshAt(events, i) && forall j :: i < j < |events| ==> !FreshAt(events, j)
  }

  /** The i-th event brought a new epoch and everything since kept the recovery running. */
  predicate SteadySince(events: seq<Event>, i: int) {
    && 0 <= i < |events| && Fresh(Run(events[..i]), events[i])
    && forall j :: i < j < |events| ==> Steady(Run(events[..j]), events[j])
  }

  lemma {:induction false} ReceivedMeansFresh(events: seq<Event>) returns (i: int)
    requires Run(events).received.Some?
    ensures LastFresh(events, i) && events[i].clocks.received == Run(events).received.value
  {
    var rest, last := events[..|events| - 1], events[|events| - 1];
    var s := Run(rest);
    if Fresh(s, last) {
      i := |events| - 1;
    } else {
      hide ValidFix, CompleteReport, NoFix, Truthy;
      assert Run(events).received == s.received;
      i := ReceivedMeansFresh(rest);
      LastFreshGrows(events, i);
    }
  }

  lemma {:induction false} GoodMeansSteady(events: seq<Event>) returns (i: int)
    requires Run(events).goodSince.Some?
    ensures SteadySince(events, i) && events[i].clocks.good == Run(events).goodSince.value
  {
    var rest, last := events[..|events| - 1], events[|events| - 1];
    var s := Run(rest);
    SteadyExactly(s, last);
    hide ValidFix, CompleteReport, NoFix, Truthy, Assembled, Steady;
    if s.goodSince.Some? && Run(events).goodSince == s.goodSince && Steady(s, last) {
      i := GoodMeansSteady(rest);
      hide Run, Fresh, Steady;
      assert rest[..i] == events[..i];
      forall j | i < j < |events| ensures Steady(Run(events[..j]), events[j]) {
        if j < |rest| {
          assert rest[..j] == events[..j];
        } else {
          assert events[..j] == rest;
        }
      }
    } else {
      i := |events| - 1;
    }
  }

  /** GPS is the source only while a new epoch, the latest, came at most fifteen seconds ago with a fix that is still valid. */
  lemma {:induction false} GpsIsFresh(events: seq<Event>, enabled: bool, persist: bool, wall: real, now: real, later: real) returns (i: int)
    requires Select(Run(events), enabled, persist, wall, now, later) == Gps
    ensures LastFresh(events, i) && 0.0 <= now - events[i].clocks.received <= FIX_MAX_AGE
    ensures Usable(Run(events).fix, wall)
  {
    UsableExactly(Run(events).fix, wall);
    hide Run, ValidFix, Usable;
    i := ReceivedMeansFresh(events);
  }

  // ---- What a fix is made of ----

  /** A position report that gives a time which is not empty. */
  predicate Times(r: Report) {
    && IsPosition(r) && "time" in r && r["time"] !in {Whole(0), Fraction(0.0), Other(false)}
    && !(r["time"].Text? && r["time"].text == "")
  }

  /** The fields as the position reports among the events gave them last. */
  function Merged(events: seq<Event>): Report {
    if events == [] then map[]
    else
      var e := events[|events| - 1];
      Merged(events[..|events| - 1]) + if e.Heard? && IsPosition(e.report) then e.report else map[]
  }

  function After(events: seq<Event>, k: int): Report
    requires 0 <= k < |events|
  {
    Run(events[..k + 1]).pending
  }

  /** The k-th event begins an epoch: it gives another time than the one collected so far. */
  predicate Begins(events: seq<Event>, k: int)
    requires 0 <= k < |events|
  {
    events[k].Heard? && Times(events[k].report) && Field(events[k].report, "time") != Field(Run(events[..k]).pending, "time")
  }

  /** No event from the m-th on begins another epoch or loses the connection. */
  predicate OneEpoch(events: seq<Event>, m: int) {
    && 0 <= m <= |events| && (m == 0 || events[m - 1].Lost? || (m < |events| && Begins(events, m)))
    && forall k :: m <= k < |events| ==> events[k].Heard? && (k > m ==> !Begins(events, k))
  }

  lemma BeginsPrefix(events: seq<Event>, k: int)
    requires 0 <= k < |events| - 1
    ensures Begins(events[..|events| - 1], k) <==> Begins(events, k)
  {
    assert events[..|events| - 1][..k] == events[..k];
  }

  /** What is collected are the fields of one epoch as they came last, nothing from before it or from another connection. */
  lemma {:induction false} CollectedIsOneEpoch(events: seq<Event>) returns (m: int)
    ensures OneEpoch(events, m) && Run(events).pending == Merged(events[m..])
  {
    m := 0;
    if events != [] {
      var rest, last := events[..|events| - 1], |events| - 1;
      var e := events[last];
      if e.Lost? {
        m := |events|;
      } else if Begins(events, last) {
        m := last;
        assert events[m..] == [e] && [e][..0] == [];
        assert Merged([e]) == e.report;
        assert Run(events).pending == e.report;
      } else {
        m := CollectedIsOneEpoch(rest);
        assert events[m..][..last - m] == rest[m..] && events[m..][last - m] == e;
        StepCollects(Run(rest), e);
        EpochGrows(events, m);
      }
    }
  }

  lemma StepCollects(s: State, e: Event)
    requires e.Heard?
    requires !(Times(e.report) && Field(e.report, "time") != Field(s.pending, "time"))
    ensures Next(s, e).pending == s.pending + if IsPosition(e.report) then e.report else map[]
  {
    hide ValidFix, CompleteReport, NoFix;
  }

  lemma EpochGrows(events: seq<Event>, m: int)
    requires events != [] && OneEpoch(events[..|events| - 1], m)
    requires var last := |events| - 1; events[last].Heard? && !Begins(events, last)
    ensures OneEpoch(events, m)
  {
    var rest := events[..|events| - 1];
    forall k | 0 <= k < |rest| ensures Begins(rest, k) <==> Begins(events, k) {
      BeginsPrefix(events, k);
    }
    hide Begins;
  }

  /** The k-th event completes something: a usable fix, a report with all four fields, or the statement that there is no fix. */
  predicate Completes(events: seq<Event>, k: int)
    requires 0 <= k < |events|
  {
    && events[k].Heard? && IsPosition(events[k].report)
    && Speaks(After(events, k), events[k].clocks.wall)
  }

  lemma StepCompletes(s: State, e: Event)
    requires e.Heard? && IsPosition(e.report)
    ensures var t := Next(s, e);
      && t.pending == Assembled(s, e.report)
      && (Judged(t.pending, e.clocks.wall) ==> t.fix == t.pending)
      && (!Judged(t.pending, e.clocks.wall) ==> t.fix == s.fix)
  {
    hide ValidFix, CompleteReport, NoFix, Assembled;
  }

  lemma StepOthers(s: State, e: Event)
    requires e.Heard? && !IsPosition(e.report)
    ensures Next(s, e) == s
  {
  }

  /** The k-th event was the latest to complete something, and the connection has held since. */
  predicate LastComplete(events: seq<Event>, k: int) {
    && 0 <= k < |events| && Completes(events, k)
    && forall j :: k < j < |events| ==> events[j].Heard? && !Completes(events, j)
  }

  lemma CompletesPrefix(events: seq<Event>, k: int)
    requires 0 <= k < |events| - 1
    ensures Completes(events[..|events| - 1], k) <==> Completes(events, k)
    ensures After(events[..|events| - 1], k) == After(events, k)
  {
    assert events[..|events| - 1][..k + 1] == events[..k + 1];
    hide Run, Usable;
  }

  /** Whatever was completed, the connection has been lost since. */
  predicate NoneComplete(events: seq<Event>) {
    forall j :: 0 <= j < |events| && Completes(events, j) ==> LostAfter(events, j)
  }

  predicate LostAfter(events: seq<Event>, j: int) { exists i :: j < i < |events| && 0 <= i && events[i].Lost? }

  lemma LostLater(events: seq<Event>, rest: seq<Event>, j: int)
    requires events != [] && rest == events[..|events| - 1] && 0 <= j < |rest|
    ensures LostAfter(events, j) <==> LostAfter(rest, j) || events[|rest|].Lost?
  {
    if i :| j < i < |rest| && rest[i].Lost? {
      assert events[i].Lost?;
    }
    if i :| j < i < |events| && events[i].Lost? {
      assert i < |rest| ==> rest[i].Lost?;
    }
  }

  lemma NoneCompleteGrows(events: seq<Event>, rest: seq<Event>)
    requires events != [] && rest == events[..|events| - 1]
    ensures events[|rest|].Lost? ==> NoneComplete(events)
    ensures NoneComplete(rest) && !Completes(events, |rest|) ==> NoneComplete(events)
  {
    assert events[|rest|].Lost? ==> !Completes(events, |rest|);
    forall j | 0 <= j < |rest|
      ensures Completes(rest, j) <==> Completes(events, j)
      ensures LostAfter(events, j) <==> LostAfter(rest, j) || events[|rest|].Lost?
    {
      CompletesPrefix(events, j);
      LostLater(events, rest, j);
    }
    hide Completes, LostAfter;
  }

  lemma LastCompleteGrows(events: seq<Event>, rest: seq<Event>, k: int)
    requires events != [] && rest == events[..|events| - 1] && LastComplete(rest, k)
    requires events[|rest|].Heard? && !Completes(events, |rest|)
    ensures LastComplete(events, k) && After(events, k) == After(rest, k)
  {
    forall j | 0 <= j < |rest| ensures Completes(rest, j) <==> Completes(events, j) {
      CompletesPrefix(events, j);
    }
    CompletesPrefix(events, k);
    hide Completes, After;
  }

  /** The fix is what the latest completing report completed; without one since the connection was lost it is empty. */
  lemma {:induction false} FixIsLastComplete(events: seq<Event>) returns (k: int)
    ensures k == -1 || LastComplete(events, k)
    ensures Run(events).fix == if k == -1 then map[] else After(events, k)
    ensures k == -1 ==> NoneComplete(events)
  {
    k := -1;
    if events != [] {
      var rest, last := events[..|events| - 1], |events| - 1;
      var before := FixIsLastComplete(rest);
      LastCompletes(events);
      assert LastComplete(events, last) <==> Completes(events, last);
      hide Run, Completes, After, NoneComplete, LastComplete;
      NoneCompleteGrows(events, rest);
      if Completes(events, last) {
        k := last;
      } else if events[last].Heard? {
        k := before;
        if k != -1 {
          LastCompleteGrows(events, rest, k);
        }
      }
    }
  }

  lemma LastCompletes(events: seq<Event>)
    requires events != []
    ensures var last, rest := |events| - 1, events[..|events| - 1];
      && (Completes(events, last) ==> Run(events).fix == After(events, last))
      && (events[last].Heard? && !Completes(events, last) ==> Run(events).fix == Run(rest).fix)
      && (events[last].Lost? ==> Run(events).fix == map[])
  {
    var e, s := events[|events| - 1], Run(events[..|events| - 1]);
    assert events[..|events|] == events;
    if e.Heard? && IsPosition(e.report) {
      StepCompletes(s, e);
      UsableExactly(Next(s, e).pending, e.clocks.wall);
      hide ValidFix, Usable, Assembled, Updated;
    } else if e.Heard? {
      StepOthers(s, e);
    }
  }

  lemma FreshPrefix(events: seq<Event>, k: int)
    requires 0 <= k < |events| - 1
    ensures FreshAt(events[..|events| - 1], k) <==> FreshAt(events, k)
    ensures After(events[..|events| - 1], k) == After(events, k)
  {
    assert events[..|events| - 1][..k] == events[..k];
    assert events[..|events| - 1][..k + 1] == events[..k + 1];
    hide Run, Fresh;
  }

  lemma StepEpoch(s: State, e: Event)
    ensures Fresh(s, e) ==> Next(s, e).lastEpoch == Field(Next(s, e).pending, "time")
    ensures !Fresh(s, e) ==> Next(s, e).lastEpoch == s.lastEpoch
  {
    hide ValidFix, CompleteReport, NoFix, Assembled;
  }

  /** The epoch last used is the time of the latest event that brought a new one. */
  lemma {:induction false} LastEpochIs(events: seq<Event>) returns (i: int)
    ensures i == -1 || LastFresh(events, i)
    ensures Run(events).lastEpoch == if i == -1 then None else Field(After(events, i), "time")
    ensures i == -1 ==> forall j :: 0 <= j < |events| ==> !FreshAt(events, j)
  {
    i := -1;
    if events != [] {
      var rest, last := events[..|events| - 1], |events| - 1;
      assert events[..last + 1] == events;
      StepEpoch(Run(rest), events[last]);
      if FreshAt(events, last) {
        i := last;
      } else {
        i := LastEpochIs(rest);
        assert Run(events).lastEpoch == Run(rest).lastEpoch;
        hide Run, Fresh, After;
        NotFreshGrows(events, rest);
        if i >= 0 {
          FreshPrefix(events, i);
          LastFreshGrows(events, i);
        }
      }
    }
  }

  lemma NotFreshGrows(events: seq<Event>, rest: seq<Event>)
    requires events != [] && rest == events[..|events| - 1] && !FreshAt(events, |events| - 1)
    ensures (forall j :: 0 <= j < |rest| ==> !FreshAt(rest, j)) ==> forall j :: 0 <= j < |events| ==> !FreshAt(events, j)
  {
    forall j | 0 <= j < |rest| ensures FreshAt(rest, j) <==> FreshAt(events, j) {
      FreshPrefix(events, j);
    }
    hide FreshAt;
  }

  lemma LastFreshGrows(events: seq<Event>, i: int)
    requires events != [] && LastFresh(events[..|events| - 1], i) && !FreshAt(events, |events| - 1)
    ensures LastFresh(events, i)
  {
    var rest := events[..|events| - 1];
    forall j | 0 <= j < |rest| ensures FreshAt(rest, j) <==> FreshAt(events, j) {
      FreshPrefix(events, j);
    }
    hide FreshAt;
  }

  lemma LastFreshUnique(events: seq<Event>, i: int, j: int)
    requires LastFresh(events, i) && LastFresh(events, j)
    ensures i == j
  {
    hide Run, Fresh;
  }

  /** An event brings a new epoch exactly when it completes a usable fix with another time than the latest that did. */
  lemma FreshExactly(events: seq<Event>, k: int)
    requires 0 <= k < |events|
    ensures FreshAt(events, k) <==>
      && events[k].Heard? && IsPosition(events[k].report) && Usable(After(events, k), events[k].clocks.wall)
      && forall i :: LastFresh(events[..k], i) ==> Field(After(events[..k], i), "time") != Field(After(events, k), "time")
  {
    var s, e := Run(events[..k]), events[k];
    assert events[..k + 1][..k] == events[..k];
    var i := LastEpochIs(events[..k]);
    if e.Heard? && IsPosition(e.report) {
      StepCompletes(s, e);
      UsableExactly(After(events, k), e.clocks.wall);
      if LastFresh(events[..k], i) {
        forall j | LastFresh(events[..k], j) ensures j == i {
          LastFreshUnique(events[..k], i, j);
        }
      } else {
        assert forall j :: !LastFresh(events[..k], j);
      }
    }
    hide ValidFix, Assembled, Usable, LastFresh;
  }

  /** The clock read when an epoch starts a recovery never goes back. */
  predicate Clocked(events: seq<Event>) {
    forall i, j :: 0 <= i < j < |events| && events[i].Heard? && events[j].Heard? ==>
      events[i].clocks.good <= events[j].clocks.good
  }

  lemma {:induction false} SteadyMeansGood(events: seq<Event>, i: int)
    requires SteadySince(events, i) && Clocked(events)
    ensures Run(events).goodSince.Some? && Run(events).goodSince.value <= events[i].clocks.good
  {
    var rest, last := events[..|events| - 1], events[|events| - 1];
    var s := Run(rest);
    SteadyExactly(s, last);
    hide ValidFix, CompleteReport, NoFix, Truthy, Assembled, Steady;
    if i == |events| - 1 {
      assert events[..i] == rest;
      if s.goodSince.Some? {
        var k := GoodMeansSteady(rest);
        assert rest[k] == events[k];
      }
    } else {
      SteadyPrefix(events, i);
      SteadyMeansGood(rest, i);
      assert rest[i] == events[i] && events[..|events| - 1] == rest;
      assert Steady(s, last);
    }
  }

  lemma SteadyPrefix(events: seq<Event>, i: int)
    requires SteadySince(events, i) && Clocked(events) && i < |events| - 1
    ensures SteadySince(events[..|events| - 1], i) && Clocked(events[..|events| - 1])
  {
    hide Run, Fresh, Steady;
    var rest := events[..|events| - 1];
    assert rest[..i] == events[..i];
    forall j | i < j < |rest| ensures Steady(Run(rest[..j]), rest[j]) {
      assert rest[..j] == events[..j];
    }
  }

  predicate Recovered(events: seq<Event>, i: int, later: real) {
    SteadySince(events, i) && later - events[i].clocks.good >= RECOVERY_SECONDS
  }

  /** The recovery is complete: some new epoch is at least five seconds old, and nothing since has broken it. */
  ghost predicate Steadied(events: seq<Event>, later: real) { exists i :: Recovered(events, i, later) }

  /** The fix is still usable and its epoch came at most fifteen seconds ago. */
  ghost predicate StillGood(events: seq<Event>, wall: real, now: real) {
    Usable(Run(events).fix, wall)
    && exists i :: LastFresh(events, i) && events[i].clocks.received <= now && now <= events[i].clocks.received + 15.0
  }

  lemma StillGoodExactly(events: seq<Event>, wall: real, now: real)
    ensures Good(Run(events), wall, now) <==> StillGood(events, wall, now)
  {
    UsableExactly(Run(events).fix, wall);
    hide Usable, ValidFix, Run;
    if Run(events).received.Some? {
      var i := ReceivedMeansFresh(events);
      forall j | LastFresh(events, j) ensures j == i {
        LastFreshUnique(events, i, j);
      }
    } else {
      forall j ensures !LastFresh(events, j) {
        FreshMeansReceived(events, j);
      }
    }
  }

  lemma {:induction false} FreshMeansReceived(events: seq<Event>, i: int)
    ensures LastFresh(events, i) ==> Run(events).received.Some?
  {
    if LastFresh(events, i) {
      KeepsReceived(events, i);
    }
  }

  lemma {:induction false} KeepsReceived(events: seq<Event>, i: int)
    requires 0 <= i < |events| && Fresh(Run(events[..i]), events[i])
    ensures Run(events).received.Some?
  {
    var rest := events[..|events| - 1];
    hide ValidFix, CompleteReport, NoFix, Assembled, NewEpoch;
    if i < |events| - 1 {
      assert rest[..i] == events[..i];
      KeepsReceived(rest, i);
    } else {
      assert events[..i] == rest;
    }
  }

  /**
   Which position is shown: a manual one while it is enabled and persists or until GPS has recovered, GPS while its fix
   is good, otherwise none. GPS has recovered when the fix is good and some new epoch is at least five seconds old since
   which no report was invalid or without fix and no fifteen seconds passed between epochs, whatever partial reports came
   in between.
   */
  lemma {:induction false} YieldsExactlyAfterRecovery(events: seq<Event>, enabled: bool, persist: bool, wall: real, now: real, later: real)
    requires Clocked(events)
    ensures Select(Run(events), enabled, persist, wall, now, later)
         == if enabled && (persist || !(StillGood(events, wall, now) && Steadied(events, later))) then Manual
            else if StillGood(events, wall, now) then Gps else Unavailable
  {
    StillGoodExactly(events, wall, now);
    var s := Run(events);
    if s.goodSince.Some? && later - s.goodSince.value >= RECOVERY_SECONDS {
      var i := GoodMeansSteady(events);
      assert Recovered(events, i, later);
    }
    hide Run, ValidFix, Good, StillGood;
    if i :| Recovered(events, i, later) {
      SteadyMeansGood(events, i);
    }
  }

  // ---- The object ----

  class PositionState {
    var pending: Report
    var fix: Report
    var received: Option<real>
    var goodSince: Option<real>
    var lastEpoch: Option<Value>

    function Contents(): State
      reads this
    {
      State(pending, fix, received, goodSince, lastEpoch)
    }

    constructor ()
      ensures Contents() == INITIAL
    {
      pending, fix, received, goodSince, lastEpoch := map[], map[], None, None, None;
    }

    method Update(r: Report, c: Clocks)
      modifies this
      ensures Contents() == Updated(old(Contents()), r, c)
    {
      hide ValidFix, CompleteReport, NoFix, Truthy;
      if !IsPosition(r) {
        return;
      }
      if Truthy(Field(r, "time")) && Field(r, "time") != Field(pending, "time") {
        pending := map[];
      }
      pending := pending + r;
      var report := pending;
      var valid := ValidFix(report, c.wall);
      if !valid && !CompleteReport(report) && !NoFix(report) {
        return;
      }
      if !valid || received.None? || c.checked - received.value > FIX_MAX_AGE {
        goodSince := None;
      }
      if valid {
        var epoch := Field(report, "time");
        if epoch != lastEpoch {
          received := Some(c.received);
          lastEpoch := epoch;
          if goodSince.None? {
            goodSince := Some(c.good);
          }
        }
      }
      fix := report;
    }

    method Disconnect()
      modifies this
      ensures Contents() == Disconnected(old(Contents()))
    {
      fix, pending, goodSince := map[], map[], None;
    }
  }
}
