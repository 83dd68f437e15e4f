/**
 The message IDs that the store hands out, over every run of transactions: the k-th inserted message has the k-th
 base-36 number, and an ID is refused exactly when its last bearer is still kept (pcs_aprs_agent.py).
 */
module StateIds {
  import opened Basics
  import Ax25
  import PyText
  import opened AprsMessages
  import opened StateStore
  import opened StateRuns

  // ---- Numbers and their text ----

  function Power36(width: nat): nat { if width == 0 then 1 else 36 * Power36(width - 1) }

  /** The number that base-36 digits write, the most significant first. */
  function Value36(digits: string): int {
    if digits == "" then 0
    else
      var d := digits[|digits| - 1];
      Value36(digits[..|digits| - 1]) * 36 + (if d as int < 58 then d as int - 48 else d as int - 55)
  }

  lemma {:induction false} Encode36Reads(value: nat, width: nat)
    requires value < Power36(width)
    ensures Value36(Encode36(value, width)) == value
    ensures forall i :: 0 <= i < width ==> PyText.IsUpperAlnum(Encode36(value, width)[i])
  {
    if width > 0 {
      var s := Encode36(value, width);
      Encode36Reads(value / 36, width - 1);
      assert s[..width - 1] == Encode36(value / 36, width - 1) && s[width - 1] == Base36(value % 36);
    }
  }

  lemma FourDigits()
    ensures Power36(4) == ID_SPACE
  {
    assert Power36(1) == 36 && Power36(2) == 1296 && Power36(3) == 46656;
  }

  /** An ID is four digits or capitals that write its number in base 36. */
  lemma IdTextReads(value: nat)
    requires value < ID_SPACE
    ensures Value36(IdText(value)) == value && |IdText(value)| == 4
    ensures forall i :: 0 <= i < 4 ==> PyText.IsUpperAlnum(IdText(value)[i])
  {
    FourDigits();
    Encode36Reads(value, 4);
  }

  lemma SuccessorRemainder(x: int)
    ensures (x % ID_SPACE + 1) % ID_SPACE == (x + 1) % ID_SPACE
  {
    var p := x / ID_SPACE;
    assert x == p * ID_SPACE + x % ID_SPACE;
    assert x + 1 - (x % ID_SPACE + 1) == p * ID_SPACE;
    assert (p * ID_SPACE) % ID_SPACE == 0;
    SameRemainder(x % ID_SPACE + 1, x + 1);
  }

  lemma SameRemainder(x: int, y: int)
    ensures x % ID_SPACE == y % ID_SPACE <==> (y - x) % ID_SPACE == 0
  {
    var p, q := x / ID_SPACE, y / ID_SPACE;
    assert x == p * ID_SPACE + x % ID_SPACE && y == q * ID_SPACE + y % ID_SPACE;
    var d := y % ID_SPACE - x % ID_SPACE;
    assert y - x == (q - p) * ID_SPACE + d;
  }

  lemma IdTextInjective(a: nat, b: nat)
    requires a < ID_SPACE && b < ID_SPACE && IdText(a) == IdText(b)
    ensures a == b
  {
    hide IdText;
    IdTextReads(a);
    IdTextReads(b);
  }

  /** The ID of the k-th message. */
  function NumberedId(k: nat): string { IdText(k % ID_SPACE) }

  /** Two messages get the same ID exactly when a multiple of 36^4 lies between them. */
  lemma SameIdExactly(i: nat, j: nat)
    ensures NumberedId(i) == NumberedId(j) <==> (j - i) % ID_SPACE == 0
  {
    hide IdText;
    if NumberedId(i) == NumberedId(j) {
      IdTextInjective(i % ID_SPACE, j % ID_SPACE);
    }
    SameRemainder(i, j);
  }

  // ---- One batch ----

  /** The counter after `n` insertions. */
  predicate CountsTo(counter: Option<int>, n: nat) {
    counter == if n == 0 then None else Some((n - 1) % ID_SPACE)
  }

  lemma NextIs(counter: Option<int>, n: nat)
    requires CountsTo(counter, n)
    ensures NextValue(counter) == n % ID_SPACE && CountsTo(Some(NextValue(counter)), n + 1)
  {
    if n > 0 {
      SuccessorRemainder(n - 1);
    }
  }

  function QueuedIds(queued: seq<Outbound>): (r: seq<string>)
    ensures |r| == |queued| && forall i :: 0 <= i < |r| ==> r[i] == queued[i].messageId
  {
    seq(|queued|, i requires 0 <= i < |queued| => queued[i].messageId)
  }

  lemma {:induction false} InsertedInOrder(t: Tables, n: nat, recipient: string, bodies: seq<string>, channel: int, now: real)
    requires CountsTo(t.counter, n) && InsertAll(t, recipient, bodies, channel, now).Ok?
    ensures var (t', queued) := InsertAll(t, recipient, bodies, channel, now).value;
      && CountsTo(t'.counter, n + |bodies|) && |queued| == |bodies|
      && (forall i :: 0 <= i < |queued| ==> queued[i].messageId == NumberedId(n + i))
      && (forall id :: id in t'.outbound ==> id in t.outbound || id in QueuedIds(queued))
    decreases |bodies|
  {
    hide NormalizeReplyBody, IdText;
    if bodies != [] {
      NextIs(t.counter, n);
      hide NextValue, CountsTo;
      var value := NextValue(t.counter);
      var id := IdText(value);
      var body := NormalizeReplyBody(bodies[0], id).value;
      var t1 := t.(counter := Some(value), outbound := t.outbound[id := FreshRow(recipient, body, channel, now)]);
      InsertedInOrder(t1, n + 1, recipient, bodies[1..], channel, now);
      var (t', later) := InsertAll(t1, recipient, bodies[1..], channel, now).value;
      var queued := [Outbound(id, PyText.Upper(recipient), body, 0, channel)] + later;
      assert InsertAll(t, recipient, bodies, channel, now).value == (t', queued);
      hide InsertAll, NumberedId;
      assert queued[0].messageId == id && forall i :: 0 < i < |queued| ==> queued[i] == later[i - 1];
      forall x | x in t'.outbound ensures x in t.outbound || x in QueuedIds(queued) {
        if x in QueuedIds(later) {
          var i :| 0 <= i < |later| && later[i].messageId == x;
          assert QueuedIds(queued)[i + 1] == x;
        } else if x == id {
          assert QueuedIds(queued)[0] == x;
        }
      }
    }
  }

  /** The i-th message of a batch of a store with `n` insertions behind it would get an ID that is still in use. */
  predicate TakenAt(t: Tables, n: nat, i: nat) { i >= ID_SPACE || NumberedId(n + i) in t.outbound }

  /** Whether a body normalises does not depend on which ID it gets. */
  predicate BodyOk(body: string) { NormalizeReplyBody(body, "0000").Ok? }

  lemma BodyAnyId(body: string, value: nat)
    ensures NormalizeReplyBody(body, IdText(value)) == NormalizeReplyBody(body, "0000")
  {
  }

  /** The i-th message is the first that cannot be inserted, and for its ID. */
  predicate FirstTaken(t: Tables, n: nat, bodies: seq<string>, i: nat) {
    && i < |bodies| && TakenAt(t, n, i) && (forall j :: 0 <= j <= i ==> BodyOk(bodies[j]))
    && forall j :: 0 <= j < i ==> !TakenAt(t, n, j)
  }

  lemma TakenShifts(t: Tables, t1: Tables, n: nat, i: nat, row: Row)
    requires i > 0 && t1.outbound == t.outbound[NumberedId(n) := row]
    ensures TakenAt(t1, n + 1, i - 1) <==> TakenAt(t, n, i)
  {
    SameIdExactly(n, n + i);
    hide NumberedId;
    if 0 < i < ID_SPACE {
      assert i % ID_SPACE != 0;
    }
  }

  /** A batch fails for a taken ID exactly at its first message whose ID is still in use, all bodies up to it being good. */
  lemma {:induction false} TakenExactly(t: Tables, n: nat, recipient: string, bodies: seq<string>, channel: int, now: real)
    requires CountsTo(t.counter, n)
    ensures InsertAll(t, recipient, bodies, channel, now) == Err(IdTaken) <==> SomeTaken(t, n, bodies)
    decreases |bodies|
  {
    if bodies != [] {
      NextIs(t.counter, n);
      BodyAnyId(bodies[0], NextValue(t.counter));
      var id := IdText(NextValue(t.counter));
      assert id == NumberedId(n);
      hide NextValue, CountsTo, IdText, NormalizeReplyBody, NumberedId;
      if BodyOk(bodies[0]) && id !in t.outbound {
        var row := FreshRow(recipient, NormalizeReplyBody(bodies[0], id).value, channel, now);
        var t1 := t.(counter := Some(NextValue(t.counter)), outbound := t.outbound[id := row]);
        TakenExactly(t1, n + 1, recipient, bodies[1..], channel, now);
        hide InsertAll, FreshRow;
        FirstTakenShifts(t, t1, n, bodies, row);
      } else if BodyOk(bodies[0]) {
        assert FirstTaken(t, n, bodies, 0);
      } else {
        assert forall i: nat :: !FirstTaken(t, n, bodies, i);
      }
    }
  }

  /** A batch is inserted exactly when every body normalises and no ID is still in use. */
  lemma {:induction false} InsertedExactly(t: Tables, n: nat, recipient: string, bodies: seq<string>, channel: int, now: real)
    requires CountsTo(t.counter, n)
    ensures InsertAll(t, recipient, bodies, channel, now).Ok? <==>
      forall i :: 0 <= i < |bodies| ==> BodyOk(bodies[i]) && !TakenAt(t, n, i)
    decreases |bodies|
  {
    if bodies != [] {
      NextIs(t.counter, n);
      BodyAnyId(bodies[0], NextValue(t.counter));
      var id := IdText(NextValue(t.counter));
      assert id == NumberedId(n);
      hide NextValue, CountsTo, IdText, NormalizeReplyBody, NumberedId;
      if BodyOk(bodies[0]) && id !in t.outbound {
        var row := FreshRow(recipient, NormalizeReplyBody(bodies[0], id).value, channel, now);
        var t1 := t.(counter := Some(NextValue(t.counter)), outbound := t.outbound[id := row]);
        var next := n + 1;
        InsertedExactly(t1, next, recipient, bodies[1..], channel, now);
        hide InsertAll, FreshRow;
        AllShift(t, t1, n, bodies, row);
      } else {
        assert !BodyOk(bodies[0]) || TakenAt(t, n, 0);
      }
    }
  }

  lemma AllShift(t: Tables, t1: Tables, n: nat, bodies: seq<string>, row: Row)
    requires bodies != [] && BodyOk(bodies[0]) && !TakenAt(t, n, 0)
    requires t1.outbound == t.outbound[NumberedId(n) := row]
    ensures var next, rest := n + 1, bodies[1..];
      (forall i :: 0 <= i < |rest| ==> BodyOk(rest[i]) && !TakenAt(t1, next, i))
      <==> forall i :: 0 <= i < |bodies| ==> BodyOk(bodies[i]) && !TakenAt(t, n, i)
  {
    var next, rest := n + 1, bodies[1..];
    forall i: nat | i < |rest| ensures TakenAt(t1, next, i) <==> TakenAt(t, n, i + 1) {
      TakenShifts(t, t1, n, i + 1, row);
    }
    hide TakenAt, BodyOk, NumberedId;
    if forall i :: 0 <= i < |rest| ==> BodyOk(rest[i]) && !TakenAt(t1, next, i) {
      forall i | 0 <= i < |bodies| ensures BodyOk(bodies[i]) && !TakenAt(t, n, i) {
        if i > 0 {
          assert BodyOk(rest[i - 1]) && !TakenAt(t1, next, i - 1);
        }
      }
    }
    if forall i :: 0 <= i < |bodies| ==> BodyOk(bodies[i]) && !TakenAt(t, n, i) {
      forall i | 0 <= i < |rest| ensures BodyOk(rest[i]) && !TakenAt(t1, next, i) {
        assert BodyOk(bodies[i + 1]) && !TakenAt(t, n, i + 1);
      }
    }
  }

  /** Some message of the batch is the first that cannot be inserted for its ID. */
  ghost predicate SomeTaken(t: Tables, n: nat, bodies: seq<string>) {
    exists i: nat :: FirstTaken(t, n, bodies, i)
  }

  lemma FirstTakenShifts(t: Tables, t1: Tables, n: nat, bodies: seq<string>, row: Row)
    requires bodies != [] && BodyOk(bodies[0]) && !TakenAt(t, n, 0)
    requires t1.outbound == t.outbound[NumberedId(n) := row]
    ensures SomeTaken(t1, n + 1, bodies[1..]) <==> SomeTaken(t, n, bodies)
  {
    var next, rest := n + 1, bodies[1..];
    if i: nat :| FirstTaken(t1, next, rest, i) {
      ShiftUp(t, t1, n, bodies, row, i);
    }
    if i: nat :| FirstTaken(t, n, bodies, i) {
      ShiftDown(t, t1, n, bodies, row, i);
    }
  }

  lemma ShiftUp(t: Tables, t1: Tables, n: nat, bodies: seq<string>, row: Row, i: nat)
    requires bodies != [] && BodyOk(bodies[0]) && !TakenAt(t, n, 0)
    requires t1.outbound == t.outbound[NumberedId(n) := row] && FirstTaken(t1, n + 1, bodies[1..], i)
    ensures FirstTaken(t, n, bodies, i + 1)
  {
    forall j: nat | 0 < j <= i + 1 ensures TakenAt(t1, n + 1, j - 1) <==> TakenAt(t, n, j) {
      TakenShifts(t, t1, n, j, row);
    }
    hide TakenAt, BodyOk, NumberedId;
    assert forall j :: 0 < j <= i + 1 ==> bodies[j] == bodies[1..][j - 1];
  }

  lemma ShiftDown(t: Tables, t1: Tables, n: nat, bodies: seq<string>, row: Row, i: nat)
    requires bodies != [] && BodyOk(bodies[0]) && !TakenAt(t, n, 0)
    requires t1.outbound == t.outbound[NumberedId(n) := row] && FirstTaken(t, n, bodies, i)
    ensures i > 0 && FirstTaken(t1, n + 1, bodies[1..], i - 1)
  {
    hide TakenAt, BodyOk, NumberedId;
    assert i > 0;
    TakenShifts(t, t1, n, i, row);
    var next := n + 1;
    forall j: nat | j < i - 1 ensures !TakenAt(t1, next, j) {
      TakenShifts(t, t1, n, j + 1, row);
    }
    assert forall j :: 0 <= j < i ==> bodies[1..][j] == bodies[j + 1];
  }

  // ---- Every run ----

  /** The IDs of the messages that a transaction inserts. */
  function InsertedBy(c: Limits, t: Tables, step: Step): seq<string> {
    if !step.Queued? then []
    else
      match QueueBatch(t, step.recipient, step.bodies, c.maximumPending, step.channel, step.at)
      case Err(_) => []
      case Ok(result) => QueuedIds(result.1)
  }

  /** The IDs of all messages that a run from the empty store inserts, in order. */
  function Inserted(c: Limits, steps: seq<Step>): seq<string>
    requires FromFrames(steps)
  {
    if steps == [] then []
    else Inserted(c, steps[..|steps| - 1]) + InsertedBy(c, Reached(c, steps[..|steps| - 1]), steps[|steps| - 1])
  }

  /** The inserted IDs are numbered, the counter stands at the last one, and every row bears one of them. */
  predicate Numbered(t: Tables, ids: seq<string>) {
    && CountsTo(t.counter, |ids|) && (forall k :: 0 <= k < |ids| ==> ids[k] == NumberedId(k))
    && forall id :: id in t.outbound ==> id in ids
  }

  lemma StepNumbers(c: Limits, t: Tables, ids: seq<string>, step: Step)
    requires Consistent(c, t) && Numbered(t, ids)
    ensures Numbered(Apply(c, t, step), ids + InsertedBy(c, t, step))
  {
    hide Consistent, InsertAll, NumberedId, CountsTo;
    if step.Queued? && QueueBatch(t, step.recipient, step.bodies, c.maximumPending, step.channel, step.at).Ok? {
      InsertedInOrder(t, |ids|, step.recipient, step.bodies, step.channel, step.at);
    } else {
      assert ids + [] == ids;
    }
  }

  /** Over every run the k-th inserted message has the k-th ID, whatever batches failed in between. */
  lemma {:induction false} InsertedNumbered(c: Limits, steps: seq<Step>)
    requires FromFrames(steps)
    ensures Numbered(Reached(c, steps), Inserted(c, steps))
  {
    if steps == [] {
      hide Consistent, NumberedId;
    } else {
      var rest, last := steps[..|steps| - 1], steps[|steps| - 1];
      InsertedNumbered(c, rest);
      assert Reached(c, steps) == Apply(c, Reached(c, rest), last) by { hide Consistent, Apply; }
      hide Reached, Apply, Numbered, InsertedBy;
      StepNumbers(c, Reached(c, rest), Inserted(c, rest), last);
    }
  }

  /** Over every run two messages bear the same ID exactly when a multiple of 36^4 insertions lies between them. */
  lemma IdsRepeatOnlyAfterWrap(c: Limits, steps: seq<Step>, i: nat, j: nat)
    requires FromFrames(steps) && i < |Inserted(c, steps)| && j < |Inserted(c, steps)|
    ensures Inserted(c, steps)[i] == Inserted(c, steps)[j] <==> (j - i) % ID_SPACE == 0
  {
    InsertedNumbered(c, steps);
    SameIdExactly(i, j);
    hide Reached, Inserted, NumberedId;
  }

  /** The batch itself inserted its message 36^4 before the i-th, or an earlier message that many before it is kept. */
  predicate InUse(t: Tables, ids: seq<string>, i: nat) {
    i >= ID_SPACE || (|ids| + i >= ID_SPACE && ids[|ids| + i - ID_SPACE] in t.outbound)
  }

  lemma TakenInNumbered(t: Tables, ids: seq<string>, i: nat)
    requires Numbered(t, ids)
    ensures TakenAt(t, |ids|, i) <==> InUse(t, ids, i)
  {
    hide CountsTo, NumberedId;
    var n := |ids|;
    if i >= ID_SPACE {
    } else if n + i >= ID_SPACE {
      SameIdExactly(n + i - ID_SPACE, n + i);
    } else if NumberedId(n + i) in t.outbound {
      var m :| 0 <= m < n && ids[m] == NumberedId(n + i);
      SameIdExactly(m, n + i);
      SmallNoMultiple(n + i - m);
    }
  }

  lemma SmallNoMultiple(d: int)
    requires 0 < d < ID_SPACE
    ensures d % ID_SPACE != 0
  {
  }

  /**
   Over every run: the i-th message of a next batch finds its ID in use exactly when the message inserted 36^4
   insertions before it is still kept, the batch itself having inserted it when i is that large.
   */
  lemma TakenMeansLastBearerKept(c: Limits, steps: seq<Step>, i: nat)
    requires FromFrames(steps)
    ensures TakenAt(Reached(c, steps), |Inserted(c, steps)|, i) <==> InUse(Reached(c, steps), Inserted(c, steps), i)
  {
    InsertedNumbered(c, steps);
    hide Numbered, Reached, Inserted, TakenAt, InUse;
    TakenInNumbered(Reached(c, steps), Inserted(c, steps), i);
  }

  /** Over every run: a batch is refused for a taken ID exactly for such a message, the batch being otherwise good up to it. */
  lemma RefusedForIdExactly(c: Limits, steps: seq<Step>, step: Step)
    requires FromFrames(steps) && step.Queued?
    ensures var t := Reached(c, steps);
      QueueBatch(t, step.recipient, step.bodies, c.maximumPending, step.channel, step.at) == Err(IdTaken) <==>
        && Ax25.SplitCallsign(step.recipient).Ok? && 0 <= step.channel <= 15 && step.bodies != []
        && |PendingIds(t)| + |step.bodies| <= c.maximumPending
        && SomeTaken(t, |Inserted(c, steps)|, step.bodies)
  {
    InsertedNumbered(c, steps);
    hide Reached, Inserted;
    TakenExactly(Reached(c, steps), |Inserted(c, steps)|, step.recipient, step.bodies, step.channel, step.at);
    hide InsertAll, FirstTaken, Numbered, PendingIds, Ax25.SplitCallsign;
  }

  lemma BodyOkExactly(body: string)
    ensures BodyOk(body) <==> PyText.Squeeze(body) != "" && PyText.Printable(PyText.Squeeze(body))
  {
    NormalizeExact(body, "0000");
    hide NormalizeReplyBody, PyText.Squeeze, PyText.Printable;
  }

  /**
   Over every run: a batch for a callsign on a channel is queued exactly when it is not empty, the pending messages
   leave room for it, every body has printable words and no ID it would get is still in use.
   */
  lemma QueuedExactly(c: Limits, steps: seq<Step>, step: Step)
    requires FromFrames(steps) && step.Queued? && Ax25.Callsign(step.recipient) && 0 <= step.channel <= 15
    ensures var t, n := Reached(c, steps), |Inserted(c, steps)|;
      QueueBatch(t, step.recipient, step.bodies, c.maximumPending, step.channel, step.at).Ok? <==>
        && step.bodies != [] && |PendingIds(t)| + |step.bodies| <= c.maximumPending
        && forall i :: 0 <= i < |step.bodies| ==>
             && PyText.Squeeze(step.bodies[i]) != "" && PyText.Printable(PyText.Squeeze(step.bodies[i]))
             && !TakenAt(t, n, i)
  {
    InsertedNumbered(c, steps);
    Ax25.CallsignCanonical(step.recipient);
    var t, n := Reached(c, steps), |Inserted(c, steps)|;
    hide *;
    BatchExactly(c, t, n, step);
  }

  lemma BatchExactly(c: Limits, t: Tables, n: nat, step: Step)
    requires CountsTo(t.counter, n) && step.Queued? && Ax25.SplitCallsign(step.recipient).Ok? && 0 <= step.channel <= 15
    ensures QueueBatch(t, step.recipient, step.bodies, c.maximumPending, step.channel, step.at).Ok? <==>
      && step.bodies != [] && |PendingIds(t)| + |step.bodies| <= c.maximumPending
      && forall i :: 0 <= i < |step.bodies| ==>
           && PyText.Squeeze(step.bodies[i]) != "" && PyText.Printable(PyText.Squeeze(step.bodies[i]))
           && !TakenAt(t, n, i)
  {
    InsertedExactly(t, n, step.recipient, step.bodies, step.channel, step.at);
    assert QueueBatch(t, step.recipient, step.bodies, c.maximumPending, step.channel, step.at).Ok? <==>
      && step.bodies != [] && |PendingIds(t)| + |step.bodies| <= c.maximumPending
      && InsertAll(t, step.recipient, step.bodies, step.channel, step.at).Ok? by { hide InsertAll, PendingIds, Ax25.SplitCallsign; }
    hide *;
    forall i | 0 <= i < |step.bodies|
      ensures BodyOk(step.bodies[i]) <==>
        PyText.Squeeze(step.bodies[i]) != "" && PyText.Printable(PyText.Squeeze(step.bodies[i])) {
      BodyOkExactly(step.bodies[i]);
    }
  }
}
