/**
 The sliding-window limiter: queues that are expired lazily, against the plain rule "allow when
 fewer than the limits were granted in the last sixty seconds". The clock never goes back.
 */
module RateLimiter {
  const WINDOW := 60.0

  datatype Grant = Grant(sender: string, at: real)

  datatype Call = Call(sender: string, at: real)

  // ---- The plain rule over the complete history of grants ----

  function After(history: seq<Grant>, cutoff: real): seq<real> {
    if history == [] then []
    else After(history[..|history| - 1], cutoff)
         + (if history[|history| - 1].at > cutoff then [history[|history| - 1].at] else [])
  }

  function By(history: seq<Grant>, sender: string): seq<Grant> {
    if history == [] then []
    else By(history[..|history| - 1], sender)
         + (if history[|history| - 1].sender == sender then [history[|history| - 1]] else [])
  }

  predicate Chronological(history: seq<Grant>) {
    forall i, j :: 0 <= i < j < |history| ==> history[i].at <= history[j].at
  }

  predicate Allows(perSender: nat, globalLimit: nat, history: seq<Grant>, sender: string, now: real) {
    |After(history, now - WINDOW)| < globalLimit && |After(By(history, sender), now - WINDOW)| < perSender
  }

  // ---- The queues ----

  predicate Sorted(events: seq<real>) {
    forall i, j :: 0 <= i < j < |events| ==> events[i] <= events[j]
  }

  function Newer(events: seq<real>, cutoff: real): seq<real> {
    if events == [] then []
    else Newer(events[..|events| - 1], cutoff)
         + (if events[|events| - 1] > cutoff then [events[|events| - 1]] else [])
  }

  lemma {:induction false} NewerOfAfter(history: seq<Grant>, earlier: real, cutoff: real)
    requires earlier <= cutoff
    ensures Newer(After(history, earlier), cutoff) == After(history, cutoff)
  {
    if history != [] {
      var rest, last := history[..|history| - 1], history[|history| - 1].at;
      NewerOfAfter(rest, earlier, cutoff);
      if last > earlier {
        assert After(history, earlier)[..|After(history, earlier)| - 1] == After(rest, earlier);
      } else {
        assert After(history, earlier) == After(rest, earlier);
      }
    }
  }

  lemma {:induction false} NewerAllOrNone(events: seq<real>, cutoff: real)
    ensures (forall i :: 0 <= i < |events| ==> events[i] > cutoff) ==> Newer(events, cutoff) == events
    ensures (forall i :: 0 <= i < |events| ==> events[i] <= cutoff) ==> Newer(events, cutoff) == []
  {
    if events != [] {
      var rest := events[..|events| - 1];
      NewerAllOrNone(rest, cutoff);
      assert Newer(events, cutoff) == Newer(rest, cutoff) + (if events[|events| - 1] > cutoff then [events[|events| - 1]] else []);
      hide Newer;
      assert events == rest + [events[|events| - 1]];
    }
  }

  lemma {:induction false} NewerSplit(a: seq<real>, b: seq<real>, cutoff: real)
    ensures Newer(a + b, cutoff) == Newer(a, cutoff) + Newer(b, cutoff)
  {
    if b == [] {
      assert a + b == a;
    } else {
      assert (a + b)[..|a + b| - 1] == a + b[..|b| - 1];
      NewerSplit(a, b[..|b| - 1], cutoff);
    }
  }

  lemma {:induction false} AfterChronological(history: seq<Grant>, cutoff: real)
    requires Chronological(history)
    ensures Sorted(After(history, cutoff))
    ensures forall i :: 0 <= i < |After(history, cutoff)| ==> exists k :: 0 <= k < |history| && After(history, cutoff)[i] == history[k].at
  {
    if history != [] {
      var rest := history[..|history| - 1];
      AfterChronological(rest, cutoff);
      forall i | 0 <= i < |After(history, cutoff)|
        ensures exists k :: 0 <= k < |history| && After(history, cutoff)[i] == history[k].at
      {
        if i < |After(rest, cutoff)| {
          var k :| 0 <= k < |rest| && After(rest, cutoff)[i] == rest[k].at;
          assert history[k].at == After(history, cutoff)[i];
        } else {
          assert history[|history| - 1].at == After(history, cutoff)[i];
        }
      }
    }
  }

  lemma {:induction false} ByChronological(history: seq<Grant>, sender: string)
    requires Chronological(history)
    ensures Chronological(By(history, sender))
    ensures forall i :: 0 <= i < |By(history, sender)| ==> exists k :: 0 <= k < |history| && By(history, sender)[i] == history[k]
  {
    if history != [] {
      var rest := history[..|history| - 1];
      ByChronological(rest, sender);
      forall i | 0 <= i < |By(history, sender)|
        ensures exists k :: 0 <= k < |history| && By(history, sender)[i] == history[k]
      {
        if i < |By(rest, sender)| {
          var k :| 0 <= k < |rest| && By(rest, sender)[i] == rest[k];
          assert history[k] == By(history, sender)[i];
        } else {
          assert history[|history| - 1] == By(history, sender)[i];
        }
      }
    }
  }

  /** Pops expired events from the front only; on a sorted queue that removes exactly the expired ones. */
  method Expire(events: seq<real>, cutoff: real) returns (kept: seq<real>)
    requires Sorted(events)
    ensures kept == Newer(events, cutoff)
  {
    kept := events;
    var k := 0;
    while kept != [] && kept[0] <= cutoff
      invariant 0 <= k <= |events| && kept == events[k..]
      invariant forall i :: 0 <= i < k ==> events[i] <= cutoff
      decreases |kept|
    {
      kept := kept[1..];
      k := k + 1;
    }
    FrontExpired(events, k, cutoff);
  }

  lemma FrontExpired(events: seq<real>, k: nat, cutoff: real)
    requires Sorted(events) && k <= |events|
    requires forall i :: 0 <= i < k ==> events[i] <= cutoff
    requires k < |events| ==> events[k] > cutoff
    ensures events[k..] == Newer(events, cutoff)
  {
    var front, back := events[..k], events[k..];
    assert forall i :: 0 <= i < |front| ==> front[i] <= cutoff;
    forall i | 0 <= i < |back| ensures back[i] > cutoff {
      assert i == 0 || events[k] <= events[k + i];
    }
    FrontDropped(front, back, cutoff);
    assert events == front + back;
  }

  lemma FrontDropped(front: seq<real>, back: seq<real>, cutoff: real)
    requires forall i :: 0 <= i < |front| ==> front[i] <= cutoff
    requires forall i :: 0 <= i < |back| ==> back[i] > cutoff
    ensures Newer(front + back, cutoff) == back
  {
    NewerSplit(front, back, cutoff);
    NewerAllOrNone(front, cutoff);
    NewerAllOrNone(back, cutoff);
  }

  /** What the queues stand for: each holds the grants after the time up to which it was last expired. */
  ghost predicate Represents(history: seq<Grant>, clock: real, globalEvents: seq<real>, globalCut: real,
                             senderEvents: map<string, seq<real>>, senderCut: map<string, real>) {
    && Chronological(history)
    && (forall i :: 0 <= i < |history| ==> history[i].at <= clock && history[i].sender in senderEvents)
    && globalCut <= clock - WINDOW && globalEvents == After(history, globalCut)
    && senderCut.Keys == senderEvents.Keys
    && (forall s :: s in senderEvents ==>
          senderCut[s] <= clock - WINDOW && senderEvents[s] == After(By(history, s), senderCut[s]))
  }

  lemma AfterAppend(history: seq<Grant>, grant: Grant, cutoff: real)
    ensures After(history + [grant], cutoff) == After(history, cutoff) + (if grant.at > cutoff then [grant.at] else [])
  {
    assert (history + [grant])[..|history|] == history;
  }

  lemma GrantRepresented(history: seq<Grant>, now: real, globalEvents: seq<real>, globalCut: real,
                         senderEvents: map<string, seq<real>>, senderCut: map<string, real>, sender: string)
    requires Represents(history, now, globalEvents, globalCut, senderEvents, senderCut)
    requires sender in senderEvents
    ensures Represents(history + [Grant(sender, now)], now, globalEvents + [now], globalCut,
                       senderEvents[sender := senderEvents[sender] + [now]], senderCut)
  {
    hide By, After;
    var grant := Grant(sender, now);
    AfterAppend(history, grant, globalCut);
    ChronologicalAppend(history, grant);
    forall s | s in senderEvents
      ensures After(By(history + [grant], s), senderCut[s])
           == if s == sender then senderEvents[s] + [now] else senderEvents[s]
    {
      SenderAppend(history, grant, s, senderCut[s]);
    }
  }

  lemma ChronologicalAppend(history: seq<Grant>, grant: Grant)
    requires Chronological(history)
    requires forall i :: 0 <= i < |history| ==> history[i].at <= grant.at
    ensures Chronological(history + [grant])
  {
  }

  lemma SenderAppend(history: seq<Grant>, grant: Grant, s: string, cutoff: real)
    ensures After(By(history + [grant], s), cutoff)
         == After(By(history, s), cutoff) + (if s == grant.sender && grant.at > cutoff then [grant.at] else [])
  {
    ByAppend(history, grant, s);
    AfterAppend(By(history, s), grant, cutoff);
  }

  class SlidingWindowLimiter {
    const perSender: nat
    const globalLimit: nat
    var globalEvents: seq<real>
    var senderEvents: map<string, seq<real>>
    /** Every grant so far, the latest clock reading, and how far each queue has been expired. */
    ghost var history: seq<Grant>
    ghost var clock: real
    ghost var globalCut: real
    ghost var senderCut: map<string, real>

    ghost predicate Valid()
      reads this
    {
      Represents(history, clock, globalEvents, globalCut, senderEvents, senderCut)
    }

    constructor (perSender: nat, globalLimit: nat, ghost start: real)
      ensures Valid() && history == [] && clock == start
      ensures this.perSender == perSender && this.globalLimit == globalLimit
    {
      this.perSender, this.globalLimit := perSender, globalLimit;
      globalEvents, senderEvents := [], map[];
      history, clock, globalCut, senderCut := [], start, start - WINDOW, map[];
    }

    /** Grants exactly when the plain rule over the whole history does. */
    method Allow(sender: string, now: real) returns (allowed: bool)
      requires Valid() && clock <= now
      modifies this
      ensures Valid() && clock == now
      ensures allowed == Allows(perSender, globalLimit, old(history), sender, now)
      ensures history == if allowed then old(history) + [Grant(sender, now)] else old(history)
    {
      hide By, After, Newer;
      var cutoff := now - WINDOW;
      var senderQueue := if sender in senderEvents then senderEvents[sender] else [];
      ghost var senderFrom := if sender in senderEvents then senderCut[sender] else cutoff;
      QueuesSorted(history, globalCut, sender, senderFrom);
      if sender !in senderEvents {
        NoneAfter(history, sender, cutoff);
      }
      ExpiredRepresented(history, clock, globalEvents, globalCut, senderEvents, senderCut, sender, now);
      globalEvents := Expire(globalEvents, cutoff);
      NewerOfAfter(history, globalCut, cutoff);
      senderQueue := Expire(senderQueue, cutoff);
      NewerOfAfter(By(history, sender), senderFrom, cutoff);
      clock, globalCut := now, cutoff;
      senderCut := senderCut[sender := cutoff];
      senderEvents := senderEvents[sender := senderQueue];
      if |globalEvents| >= globalLimit || |senderQueue| >= perSender {
        return false;
      }
      GrantRepresented(history, now, globalEvents, globalCut, senderEvents, senderCut, sender);
      globalEvents := globalEvents + [now];
      senderQueue := senderQueue + [now];
      senderEvents := senderEvents[sender := senderQueue];
      history := history + [Grant(sender, now)];
      return true;
    }
  }

  lemma ExpiredRepresented(history: seq<Grant>, clock: real, globalEvents: seq<real>, globalCut: real,
                           senderEvents: map<string, seq<real>>, senderCut: map<string, real>, sender: string, now: real)
    requires Represents(history, clock, globalEvents, globalCut, senderEvents, senderCut) && clock <= now
    ensures var cutoff := now - WINDOW;
      Represents(history, now, After(history, cutoff), cutoff,
                 senderEvents[sender := After(By(history, sender), cutoff)], senderCut[sender := cutoff])
  {
    hide By, After;
  }

  lemma QueuesSorted(history: seq<Grant>, globalCut: real, sender: string, senderCut: real)
    requires Chronological(history)
    ensures Sorted(After(history, globalCut)) && Sorted(After(By(history, sender), senderCut))
  {
    ByChronological(history, sender);
    AfterChronological(history, globalCut);
    AfterChronological(By(history, sender), senderCut);
  }

  lemma {:induction false} NoneBy(history: seq<Grant>, sender: string)
    requires forall i :: 0 <= i < |history| ==> history[i].sender != sender
    ensures By(history, sender) == []
  {
    if history != [] {
      NoneBy(history[..|history| - 1], sender);
    }
  }

  lemma NoneAfter(history: seq<Grant>, sender: string, cutoff: real)
    requires forall i :: 0 <= i < |history| ==> history[i].sender != sender
    ensures After(By(history, sender), cutoff) == []
  {
    NoneBy(history, sender);
  }

  // ---- Whole runs ----

  /** The grants of a run of calls under the plain rule. */
  function Run(perSender: nat, globalLimit: nat, calls: seq<Call>): seq<Grant> {
    if calls == [] then []
    else
      var before, last := Run(perSender, globalLimit, calls[..|calls| - 1]), calls[|calls| - 1];
      if Allows(perSender, globalLimit, before, last.sender, last.at) then before + [Grant(last.sender, last.at)]
      else before
  }

  /** Grants in the half-open window of sixty seconds that ends at `t`. */
  function InWindow(history: seq<Grant>, t: real): nat {
    if history == [] then 0
    else InWindow(history[..|history| - 1], t)
         + (if t - WINDOW < history[|history| - 1].at <= t then 1 else 0)
  }

  lemma {:induction false} WindowWithinAfter(history: seq<Grant>, t: real, cutoff: real)
    requires cutoff <= t - WINDOW
    ensures InWindow(history, t) <= |After(history, cutoff)|
  {
    if history != [] {
      WindowWithinAfter(history[..|history| - 1], t, cutoff);
    }
  }

  lemma ByAppend(history: seq<Grant>, grant: Grant, sender: string)
    ensures By(history + [grant], sender) == if grant.sender == sender then By(history, sender) + [grant] else By(history, sender)
  {
    assert (history + [grant])[..|history|] == history;
  }

  lemma WindowAppend(history: seq<Grant>, grant: Grant, t: real)
    ensures InWindow(history + [grant], t) == InWindow(history, t) + (if t - WINDOW < grant.at <= t then 1 else 0)
  {
    assert (history + [grant])[..|history|] == history;
  }

  lemma GrantKeepsBound(before: seq<Grant>, grant: Grant, t: real, limit: nat)
    requires InWindow(before, t) <= limit && |After(before, grant.at - WINDOW)| < limit
    ensures InWindow(before + [grant], t) <= limit
  {
    WindowAppend(before, grant, t);
    if t >= grant.at {
      WindowWithinAfter(before, t, grant.at - WINDOW);
    }
  }

  /** Over every run, any sixty-second window holds at most the global limit, and the sender's limit per sender. */
  lemma {:induction false} WindowsBounded(perSender: nat, globalLimit: nat, calls: seq<Call>, t: real, sender: string)
    ensures InWindow(Run(perSender, globalLimit, calls), t) <= globalLimit
    ensures InWindow(By(Run(perSender, globalLimit, calls), sender), t) <= perSender
  {
    if calls != [] {
      WindowsBounded(perSender, globalLimit, calls[..|calls| - 1], t, sender);
      var before, last := Run(perSender, globalLimit, calls[..|calls| - 1]), calls[|calls| - 1];
      if Allows(perSender, globalLimit, before, last.sender, last.at) {
        var grant := Grant(last.sender, last.at);
        GrantKeepsBound(before, grant, t, globalLimit);
        ByAppend(before, grant, sender);
        if last.sender == sender {
          GrantKeepsBound(By(before, sender), grant, t, perSender);
        }
      }
    }
  }

  lemma {:induction false} RunStep(perSender: nat, globalLimit: nat, calls: seq<Call>, call: Call)
    ensures Run(perSender, globalLimit, calls + [call])
         == var before := Run(perSender, globalLimit, calls);
            if Allows(perSender, globalLimit, before, call.sender, call.at) then before + [Grant(call.sender, call.at)]
            else before
  {
    assert (calls + [call])[..|calls|] == calls;
  }

  /** The grants, all or one sender's, of the last sixty seconds, by their place in the history. */
  function Recent(history: seq<Grant>, now: real): set<int> {
    set i | 0 <= i < |history| && history[i].at > now - 60.0
  }

  function RecentBy(history: seq<Grant>, sender: string, now: real): set<int> {
    set i | 0 <= i < |history| && history[i].at > now - 60.0 && history[i].sender == sender
  }

  lemma {:induction false} RecentCounted(history: seq<Grant>, now: real)
    ensures |After(history, now - WINDOW)| == |Recent(history, now)|
  {
    if history != [] {
      var rest, last := history[..|history| - 1], history[|history| - 1];
      RecentCounted(rest, now);
      assert Recent(history, now) == Recent(rest, now) + if last.at > now - 60.0 then {|rest|} else {};
    }
  }

  lemma {:induction false} RecentByCounted(history: seq<Grant>, sender: string, now: real)
    ensures |After(By(history, sender), now - WINDOW)| == |RecentBy(history, sender, now)|
  {
    if history != [] {
      var rest, last := history[..|history| - 1], history[|history| - 1];
      RecentByCounted(rest, sender, now);
      assert RecentBy(history, sender, now)
          == RecentBy(rest, sender, now) + if last.at > now - 60.0 && last.sender == sender then {|rest|} else {};
      assert rest + [last] == history;
      ByAppend(rest, last, sender);
      hide By, RecentBy;
      AfterAppend(By(rest, sender), last, now - WINDOW);
    }
  }

  /** A call is granted exactly when fewer than both limits were granted in the sixty seconds before it. */
  lemma AllowsExactly(perSender: nat, globalLimit: nat, history: seq<Grant>, sender: string, now: real)
    ensures Allows(perSender, globalLimit, history, sender, now) <==>
      |Recent(history, now)| < globalLimit && |RecentBy(history, sender, now)| < perSender
  {
    RecentCounted(history, now);
    RecentByCounted(history, sender, now);
    hide After, By, Recent, RecentBy;
  }

  // ---- Windows with both ends ----

  /** Grants in the window of sixty seconds that ends at `t`, both ends counted. */
  function InClosed(history: seq<Grant>, t: real): nat {
    if history == [] then 0
    else InClosed(history[..|history| - 1], t)
         + (if t - WINDOW <= history[|history| - 1].at <= t then 1 else 0)
  }

  lemma {:induction false} ClosedIsTwoWindows(history: seq<Grant>, t: real)
    ensures InClosed(history, t) <= InWindow(history, t) + InWindow(history, t - WINDOW)
  {
    if history != [] {
      ClosedIsTwoWindows(history[..|history| - 1], t);
    }
  }

  /** Over every run, a window with both ends counted holds at most twice the limits. */
  lemma ClosedWindowsBounded(perSender: nat, globalLimit: nat, calls: seq<Call>, t: real, sender: string)
    ensures InClosed(Run(perSender, globalLimit, calls), t) <= 2 * globalLimit
    ensures InClosed(By(Run(perSender, globalLimit, calls), sender), t) <= 2 * perSender
  {
    var history := Run(perSender, globalLimit, calls);
    WindowsBounded(perSender, globalLimit, calls, t, sender);
    WindowsBounded(perSender, globalLimit, calls, t - WINDOW, sender);
    ClosedIsTwoWindows(history, t);
    ClosedIsTwoWindows(By(history, sender), t);
  }

  function Calls(sender: string, at: real, n: nat): seq<Call> { seq(n, _ => Call(sender, at)) }

  function Grants(sender: string, at: real, n: nat): seq<Grant> { seq(n, _ => Grant(sender, at)) }

  /** `k` grants at 0 and `m` at 60. */
  function TwoBursts(sender: string, k: nat, m: nat): seq<Grant> { Grants(sender, 0.0, k) + Grants(sender, 60.0, m) }

  lemma {:induction false} BurstsCounted(sender: string, k: nat, m: nat)
    ensures var h := TwoBursts(sender, k, m);
      && By(h, sender) == h && |After(h, -60.0)| == k + m && |After(h, 0.0)| == m && InClosed(h, 60.0) == k + m
    decreases k + m
  {
    hide By, After, InClosed;
    if m > 0 {
      BurstsCounted(sender, k, m - 1);
      assert TwoBursts(sender, k, m) == TwoBursts(sender, k, m - 1) + [Grant(sender, 60.0)];
      OneCounted(TwoBursts(sender, k, m - 1), Grant(sender, 60.0));
    } else if k > 0 {
      BurstsCounted(sender, k - 1, 0);
      assert TwoBursts(sender, k, 0) == TwoBursts(sender, k - 1, 0) + [Grant(sender, 0.0)];
      OneCounted(TwoBursts(sender, k - 1, 0), Grant(sender, 0.0));
    } else {
      assert TwoBursts(sender, 0, 0) == [];
      NoneCounted(sender);
    }
  }

  lemma NoneCounted(sender: string)
    ensures By([], sender) == [] && After([], -60.0) == [] && After([], 0.0) == [] && InClosed([], 60.0) == 0
  {
  }

  lemma OneCounted(h: seq<Grant>, g: Grant)
    ensures By(h + [g], g.sender) == By(h, g.sender) + [g]
    ensures |After(h + [g], -60.0)| == |After(h, -60.0)| + if g.at > -60.0 then 1 else 0
    ensures |After(h + [g], 0.0)| == |After(h, 0.0)| + if g.at > 0.0 then 1 else 0
    ensures InClosed(h + [g], 60.0) == InClosed(h, 60.0) + if 0.0 <= g.at <= 60.0 then 1 else 0
  {
    ByAppend(h, g, g.sender);
    AfterAppend(h, g, -60.0);
    AfterAppend(h, g, 0.0);
    assert (h + [g])[..|h|] == h;
    hide By, After;
  }

  lemma {:induction false} BurstsGranted(sender: string, limit: nat, k: nat, m: nat)
    requires k <= limit && m <= limit && (m > 0 ==> k == limit)
    ensures Run(limit, limit, Calls(sender, 0.0, k) + Calls(sender, 60.0, m)) == TwoBursts(sender, k, m)
    decreases k + m
  {
    hide By, After, InClosed;
    var calls := Calls(sender, 0.0, k) + Calls(sender, 60.0, m);
    if m > 0 {
      BurstsGranted(sender, limit, k, m - 1);
      BurstsCounted(sender, k, m - 1);
      assert calls == Calls(sender, 0.0, k) + Calls(sender, 60.0, m - 1) + [Call(sender, 60.0)];
      RunStep(limit, limit, Calls(sender, 0.0, k) + Calls(sender, 60.0, m - 1), Call(sender, 60.0));
      assert TwoBursts(sender, k, m) == TwoBursts(sender, k, m - 1) + [Grant(sender, 60.0)];
    } else if k > 0 {
      BurstsGranted(sender, limit, k - 1, 0);
      BurstsCounted(sender, k - 1, 0);
      assert calls == Calls(sender, 0.0, k - 1) + Calls(sender, 60.0, 0) + [Call(sender, 0.0)];
      RunStep(limit, limit, Calls(sender, 0.0, k - 1) + Calls(sender, 60.0, 0), Call(sender, 0.0));
      assert TwoBursts(sender, k, 0) == TwoBursts(sender, k - 1, 0) + [Grant(sender, 0.0)];
    }
  }

  /** And that is reached for every limit: a burst at 0 and a burst sixty seconds later are granted in full. */
  lemma ClosedWindowTight(sender: string, limit: nat)
    ensures var history := Run(limit, limit, Calls(sender, 0.0, limit) + Calls(sender, 60.0, limit));
      InClosed(history, 60.0) == 2 * limit && InClosed(By(history, sender), 60.0) == 2 * limit
  {
    BurstsGranted(sender, limit, limit, limit);
    BurstsCounted(sender, limit, limit);
    hide Run, By, InClosed, TwoBursts;
  }
}
