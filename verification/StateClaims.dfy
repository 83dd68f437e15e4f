/**
 When a claim is answered "new": exactly, for every run of store transactions and whatever the wall clock does
 (pcs_aprs_agent.py). At most one execution within the time to live is the case of a clock that never goes back.
 */
module StateClaims {
  import opened Basics
  import opened StateStore
  import opened StateRuns

  type Identity = (string, string)

  /** The identities a claim still finds after its purge. */
  function Kept(ttl: real, received: map<Identity, Seen>, now: real): map<Identity, Seen> {
    Unexpired(received, now - ttl)
  }

  /** The table of identities after a run; only claims change it. */
  function Received(ttl: real, steps: seq<Step>): map<Identity, Seen> {
    if steps == [] then map[]
    else
      var before, last := Received(ttl, steps[..|steps| - 1]), steps[|steps| - 1];
      if last.Claimed? then AfterClaim(ttl, before, last) else before
  }

  function AfterClaim(ttl: real, received: map<Identity, Seen>, step: Step): map<Identity, Seen>
    requires step.Claimed?
  {
    var kept := Kept(ttl, received, step.at);
    if KeyOf(step) in kept then kept else kept[KeyOf(step) := Seen(step.body, step.at)]
  }

  function KeyOf(step: Step): Identity
    requires step.Claimed?
  {
    (step.sender, step.id)
  }

  lemma {:induction false} ReachedReceived(c: Limits, steps: seq<Step>)
    requires FromFrames(steps)
    ensures Reached(c, steps).received == Received(c.ttl, steps)
  {
    if steps == [] {
      hide Consistent;
    } else {
      var rest, last := steps[..|steps| - 1], steps[|steps| - 1];
      ReachedReceived(c, rest);
      assert Reached(c, steps) == Apply(c, Reached(c, rest), last) by { hide Consistent, Apply; }
      hide Reached;
      if !last.Claimed? {
        hide Apply;
        OtherStepsKeepReceived(c, Reached(c, rest), last);
      }
    }
  }

  // ---- Executions ----

  /** The p-th transaction of a run from the empty store is a claim that is answered "new". */
  predicate Executes(ttl: real, steps: seq<Step>, p: int) {
    && 0 <= p < |steps| && steps[p].Claimed?
    && KeyOf(steps[p]) !in Kept(ttl, Received(ttl, steps[..p]), steps[p].at)
  }

  /** A claim whose reading of the clock lies more than the time to live past the instant: its purge forgets it. */
  predicate Forgets(ttl: real, step: Step, at: real) { step.Claimed? && step.at - ttl > at }

  predicate ForgottenSince(ttl: real, steps: seq<Step>, p: int, at: real) {
    exists q :: 0 <= p < q < |steps| && Forgets(ttl, steps[q], at)
  }

  /** The p-th transaction executed the identity, and no later claim has forgotten it. */
  predicate Alive(ttl: real, steps: seq<Step>, p: int) {
    Executes(ttl, steps, p) && !ForgottenSince(ttl, steps, p, At(steps[p]))
  }

  predicate AliveAs(ttl: real, steps: seq<Step>, p: int, key: Identity, seen: Seen) {
    Alive(ttl, steps, p) && steps[p].Claimed? && key == KeyOf(steps[p]) && seen == Seen(steps[p].body, steps[p].at)
  }

  lemma ExecutesPrefix(ttl: real, steps: seq<Step>, p: int, n: int)
    requires 0 <= p < n <= |steps|
    ensures Executes(ttl, steps[..n], p) <==> Executes(ttl, steps, p)
    ensures steps[..n][p] == steps[p]
  {
    assert steps[..n][..p] == steps[..p];
    hide Received, Kept;
  }

  lemma AlivePrefix(ttl: real, steps: seq<Step>, p: int)
    requires 0 <= p < |steps| - 1
    ensures var rest, last := steps[..|steps| - 1], steps[|steps| - 1];
      Alive(ttl, steps, p) <==> Alive(ttl, rest, p) && !Forgets(ttl, last, At(steps[p]))
  {
    var rest, at := steps[..|steps| - 1], At(steps[p]);
    ExecutesPrefix(ttl, steps, p, |rest|);
    hide Forgets, Executes;
    if ForgottenSince(ttl, rest, p, at) {
      var q :| 0 <= p < q < |rest| && Forgets(ttl, rest[q], at);
      assert Forgets(ttl, steps[q], at);
    }
    if ForgottenSince(ttl, steps, p, at) {
      var q :| 0 <= p < q < |steps| && Forgets(ttl, steps[q], at);
      assert q < |rest| ==> Forgets(ttl, rest[q], at);
    }
  }

  predicate Finds(ttl: real, steps: seq<Step>, received: map<Identity, Seen>) {
    forall k :: k in received ==> exists p :: 0 <= p < |steps| && AliveAs(ttl, steps, p, k, received[k])
  }

  predicate Keeps(ttl: real, steps: seq<Step>, received: map<Identity, Seen>) {
    forall p :: 0 <= p < |steps| && Alive(ttl, steps, p) ==>
      steps[p].Claimed? && KeyOf(steps[p]) in received && received[KeyOf(steps[p])] == Seen(steps[p].body, steps[p].at)
  }

  lemma LastAlive(ttl: real, steps: seq<Step>)
    requires steps != []
    ensures var n := |steps| - 1;
      Alive(ttl, steps, n) <==>
        steps[n].Claimed? && KeyOf(steps[n]) !in Kept(ttl, Received(ttl, steps[..n]), steps[n].at)
  {
    hide Received, Kept, Forgets;
  }

  lemma ClaimFinds(ttl: real, steps: seq<Step>)
    requires steps != [] && steps[|steps| - 1].Claimed?
    requires Finds(ttl, steps[..|steps| - 1], Received(ttl, steps[..|steps| - 1]))
    ensures Finds(ttl, steps, Received(ttl, steps))
  {
    var rest, last, n := steps[..|steps| - 1], steps[|steps| - 1], |steps| - 1;
    var before, after := Received(ttl, rest), Received(ttl, steps);
    assert after == AfterClaim(ttl, before, last);
    LastAlive(ttl, steps);
    hide Received, Alive;
    forall k | k in after ensures exists p :: 0 <= p < |steps| && AliveAs(ttl, steps, p, k, after[k]) {
      if k in Kept(ttl, before, last.at) {
        var p :| 0 <= p < |rest| && AliveAs(ttl, rest, p, k, before[k]);
        AlivePrefix(ttl, steps, p);
        assert AliveAs(ttl, steps, p, k, after[k]);
      } else {
        assert AliveAs(ttl, steps, n, k, after[k]);
      }
    }
  }

  lemma ClaimKeeps(ttl: real, steps: seq<Step>)
    requires steps != [] && steps[|steps| - 1].Claimed?
    requires Keeps(ttl, steps[..|steps| - 1], Received(ttl, steps[..|steps| - 1]))
    ensures Keeps(ttl, steps, Received(ttl, steps))
  {
    var rest, last, n := steps[..|steps| - 1], steps[|steps| - 1], |steps| - 1;
    var before, after := Received(ttl, rest), Received(ttl, steps);
    assert after == AfterClaim(ttl, before, last);
    LastAlive(ttl, steps);
    hide Received, Alive;
    forall p | 0 <= p < |steps| && Alive(ttl, steps, p)
      ensures steps[p].Claimed? && KeyOf(steps[p]) in after && after[KeyOf(steps[p])] == Seen(steps[p].body, steps[p].at) {
      if p < n {
        AlivePrefix(ttl, steps, p);
        assert rest[p] == steps[p];
      }
    }
  }

  lemma OthersKeep(ttl: real, steps: seq<Step>)
    requires steps != [] && !steps[|steps| - 1].Claimed?
    requires Finds(ttl, steps[..|steps| - 1], Received(ttl, steps[..|steps| - 1]))
    requires Keeps(ttl, steps[..|steps| - 1], Received(ttl, steps[..|steps| - 1]))
    ensures Finds(ttl, steps, Received(ttl, steps)) && Keeps(ttl, steps, Received(ttl, steps))
  {
    var rest, n, received := steps[..|steps| - 1], |steps| - 1, Received(ttl, steps);
    assert received == Received(ttl, rest);
    LastAlive(ttl, steps);
    hide Received, Alive;
    forall k | k in received ensures exists p :: 0 <= p < |steps| && AliveAs(ttl, steps, p, k, received[k]) {
      var p :| 0 <= p < |rest| && AliveAs(ttl, rest, p, k, received[k]);
      AlivePrefix(ttl, steps, p);
      assert AliveAs(ttl, steps, p, k, received[k]);
    }
    forall p | 0 <= p < |steps| && Alive(ttl, steps, p)
      ensures steps[p].Claimed? && KeyOf(steps[p]) in received
      ensures received[KeyOf(steps[p])] == Seen(steps[p].body, steps[p].at) {
      AlivePrefix(ttl, steps, p);
      assert rest[p] == steps[p];
    }
  }

  /** The store remembers exactly the executions that no later claim has forgotten. */
  lemma {:induction false} RemembersAlive(ttl: real, steps: seq<Step>)
    ensures Finds(ttl, steps, Received(ttl, steps)) && Keeps(ttl, steps, Received(ttl, steps))
  {
    if steps != [] {
      RemembersAlive(ttl, steps[..|steps| - 1]);
      hide Finds, Keeps;
      if steps[|steps| - 1].Claimed? {
        ClaimFinds(ttl, steps);
        ClaimKeeps(ttl, steps);
      } else {
        OthersKeep(ttl, steps);
      }
    }
  }

  // ---- The verdict ----

  /** The p-th transaction executed the identity, and a claim at `now` still remembers it. */
  predicate Recalls(ttl: real, steps: seq<Step>, p: int, key: Identity, now: real) {
    && Executes(ttl, steps, p) && KeyOf(steps[p]) == key
    && !ForgottenSince(ttl, steps, p, steps[p].at) && now - ttl <= steps[p].at
  }

  lemma RecallsExactly(ttl: real, steps: seq<Step>, key: Identity, now: real)
    ensures var kept := Kept(ttl, Received(ttl, steps), now);
      && (key in kept <==> exists p :: 0 <= p < |steps| && Recalls(ttl, steps, p, key, now))
      && (forall p :: 0 <= p < |steps| && Recalls(ttl, steps, p, key, now) ==>
            key in kept && kept[key] == Seen(steps[p].body, steps[p].at))
  {
    RemembersAlive(ttl, steps);
    var received := Received(ttl, steps);
    assert forall p :: 0 <= p < |steps| && Recalls(ttl, steps, p, key, now) ==> steps[p].Claimed?;
    hide Received, Executes, ForgottenSince;
    if key in Kept(ttl, received, now) {
      var p :| 0 <= p < |steps| && AliveAs(ttl, steps, p, key, received[key]);
      assert Recalls(ttl, steps, p, key, now);
    }
    forall p | 0 <= p < |steps| && Recalls(ttl, steps, p, key, now)
      ensures key in received && received[key] == Seen(steps[p].body, steps[p].at) {
      assert Alive(ttl, steps, p);
    }
  }

  /**
   Whatever the clock has done: a claim is new exactly when every earlier execution of the identity is more than the
   time to live past, by its own reading or by that of some claim in between; it is a duplicate exactly when a
   remembered execution had the same body.
   */
  lemma ClaimExact(c: Limits, steps: seq<Step>, sender: string, id: string, body: string, now: real)
    requires FromFrames(steps)
    ensures var verdict := Claim(Reached(c, steps), c.ttl, sender, id, body, now).1;
      && (verdict == New <==> forall p :: 0 <= p < |steps| ==> !Recalls(c.ttl, steps, p, (sender, id), now))
      && (verdict == Duplicate <==>
            exists p :: 0 <= p < |steps| && Recalls(c.ttl, steps, p, (sender, id), now) && steps[p].body == body)
  {
    ReachedReceived(c, steps);
    RecallsExactly(c.ttl, steps, (sender, id), now);
    hide Reached, Received, Recalls;
  }

  /** A transaction of a run executes exactly when its claim on the tables it meets is answered "new". */
  lemma ExecutesIsNew(c: Limits, steps: seq<Step>, p: int)
    requires FromFrames(steps) && 0 <= p < |steps| && steps[p].Claimed?
    ensures Executes(c.ttl, steps, p)
      <==> Claim(Reached(c, steps[..p]), c.ttl, steps[p].sender, steps[p].id, steps[p].body, steps[p].at).1 == New
  {
    ReachedReceived(c, steps[..p]);
    hide Reached, Received;
  }

  // ---- Repetitions ----

  predicate SameIdentity(steps: seq<Step>, p: int, q: int) {
    && 0 <= p < q < |steps| && steps[p].Claimed? && steps[q].Claimed? && KeyOf(steps[p]) == KeyOf(steps[q])
  }

  /** An execution is only possible once every earlier one of the identity is forgotten, by this claim or one before. */
  lemma EarlierForgotten(ttl: real, steps: seq<Step>, p: int, q: int)
    requires SameIdentity(steps, p, q) && Executes(ttl, steps, p) && Executes(ttl, steps, q)
    ensures exists r :: p < r <= q && Forgets(ttl, steps[r], steps[p].at)
  {
    var past := steps[..q];
    ExecutesPrefix(ttl, steps, p, q);
    RecallsExactly(ttl, past, KeyOf(steps[q]), steps[q].at);
    assert !Recalls(ttl, past, p, KeyOf(steps[q]), steps[q].at);
    hide Received, Executes, Kept;
    if ForgottenSince(ttl, past, p, steps[p].at) {
      var r :| 0 <= p < r < |past| && Forgets(ttl, past[r], steps[p].at);
      assert Forgets(ttl, steps[r], steps[p].at);
    } else {
      assert Forgets(ttl, steps[q], steps[p].at);
    }
  }

  /** The p-th transaction is the latest before the q-th to execute the q-th's identity. */
  predicate LatestBefore(ttl: real, steps: seq<Step>, p: int, q: int) {
    && SameIdentity(steps, p, q) && Executes(ttl, steps, p)
    && forall r :: p < r < q && SameIdentity(steps, r, q) ==> !Executes(ttl, steps, r)
  }

  /** A claim strictly between the two transactions read the clock more than the time to live past the first. */
  predicate ForgottenBetween(ttl: real, steps: seq<Step>, p: int, q: int) {
    exists r :: 0 <= p < r < q <= |steps| && Forgets(ttl, steps[r], At(steps[p]))
  }

  /**
   A claim within the time to live of the latest execution of its identity executes again exactly when a claim in
   between read the clock more than the time to live past that execution.
   */
  lemma RepeatsExactly(ttl: real, steps: seq<Step>, p: int, q: int)
    requires LatestBefore(ttl, steps, p, q) && steps[q].at - steps[p].at <= ttl
    ensures Executes(ttl, steps, q) <==> ForgottenBetween(ttl, steps, p, q)
  {
    if Executes(ttl, steps, q) {
      EarlierForgotten(ttl, steps, p, q);
    }
    if ForgottenBetween(ttl, steps, p, q) {
      var r :| 0 <= p < r < q <= |steps| && Forgets(ttl, steps[r], At(steps[p]));
      forall k | 0 <= k < q ensures !Recalls(ttl, steps[..q], k, KeyOf(steps[q]), steps[q].at) {
        NotRecalled(ttl, steps, p, q, r, k);
      }
      RecallsExactly(ttl, steps[..q], KeyOf(steps[q]), steps[q].at);
      hide Recalls, Received, Kept;
    }
  }

  /** The same of all transactions of a run. */
  ghost predicate RepeatsWhenForgotten(ttl: real, steps: seq<Step>) {
    forall p, q :: LatestBefore(ttl, steps, p, q) && steps[q].at - steps[p].at <= ttl ==>
      (Executes(ttl, steps, q) <==> ForgottenBetween(ttl, steps, p, q))
  }

  lemma AllRepeatsExactly(ttl: real, steps: seq<Step>)
    ensures RepeatsWhenForgotten(ttl, steps)
  {
    forall p, q | LatestBefore(ttl, steps, p, q) && steps[q].at - steps[p].at <= ttl
      ensures Executes(ttl, steps, q) <==> ForgottenBetween(ttl, steps, p, q) {
      RepeatsExactly(ttl, steps, p, q);
    }
  }

  lemma NotRecalled(ttl: real, steps: seq<Step>, p: int, q: int, r: int, k: int)
    requires LatestBefore(ttl, steps, p, q) && p < r < q && Forgets(ttl, steps[r], steps[p].at) && 0 <= k < q
    ensures !Recalls(ttl, steps[..q], k, KeyOf(steps[q]), steps[q].at)
  {
    var past := steps[..q];
    ExecutesPrefix(ttl, steps, k, q);
    if k < p && SameIdentity(steps, k, p) && Executes(ttl, steps, k) {
      EarlierForgotten(ttl, steps, k, p);
      var s :| k < s <= p && Forgets(ttl, steps[s], steps[k].at);
      assert Forgets(ttl, past[s], steps[k].at);
    }
    if k == p {
      assert Forgets(ttl, past[r], steps[k].at);
    }
    assert k > p && SameIdentity(steps, k, q) ==> !Executes(ttl, steps, k);
    hide Executes;
  }

  /** Where an identity is executed twice within the time to live, some claim in between read the clock beyond both. */
  lemma RepeatsNeedStepBack(ttl: real, steps: seq<Step>, p: int, q: int)
    requires SameIdentity(steps, p, q) && Executes(ttl, steps, p) && Executes(ttl, steps, q)
    requires steps[q].at - steps[p].at <= ttl
    ensures exists r :: p < r < q && Forgets(ttl, steps[r], steps[p].at) && steps[r].at > steps[q].at
  {
    EarlierForgotten(ttl, steps, p, q);
    hide Executes;
    var r :| p < r <= q && Forgets(ttl, steps[r], steps[p].at);
    assert r < q && steps[r].at > steps[q].at;
  }

  // ---- A clock that never goes back ----

  /** Two executions of one identity are always more than the time to live apart. */
  predicate AtMostOnce(ttl: real, steps: seq<Step>) {
    forall p, q :: 0 <= p < q < |steps| && SameIdentity(steps, p, q) && Executes(ttl, steps, p) && Executes(ttl, steps, q) ==>
      steps[q].at - steps[p].at > ttl
  }

  /** The readings that claims take never go back. */
  predicate ClaimsForward(steps: seq<Step>) {
    forall p, q :: 0 <= p < q < |steps| && steps[p].Claimed? && steps[q].Claimed? ==> steps[p].at <= steps[q].at
  }

  lemma AtMostOncePerTtl(ttl: real, steps: seq<Step>)
    requires ClaimsForward(steps)
    ensures AtMostOnce(ttl, steps)
  {
    forall p, q | SameIdentity(steps, p, q) && Executes(ttl, steps, p) && Executes(ttl, steps, q)
      ensures steps[q].at - steps[p].at > ttl {
      EarlierForgotten(ttl, steps, p, q);
    }
    hide Executes;
  }

  /** With a clock that goes back it can fail: a purge at a later reading forgets too early. */
  lemma ClockStepBackExecutesTwice()
    ensures var steps := [Claimed("A", "1", "PING", 0.0), Claimed("B", "1", "PING", 61.0), Claimed("A", "1", "PING", 10.0)];
      FromFrames(steps) && Executes(60.0, steps, 0) && Executes(60.0, steps, 2) && SameIdentity(steps, 0, 2)
  {
    var first, second, third := Claimed("A", "1", "PING", 0.0), Claimed("B", "1", "PING", 61.0), Claimed("A", "1", "PING", 10.0);
    var steps := [first, second, third];
    assert steps[..0] == [];
    assert Executes(60.0, steps, 0);
    assert "A" != "B";
    assert Forgets(60.0, steps[1], steps[0].at);
    hide Executes;
    RepeatsExactly(60.0, steps, 0, 2);
  }
}
