/**
 What holds over every sequence of store transactions, in any order and stopping anywhere, whatever the wall clock
 does: the invariant the state check looks for, the bound on sends, when exactly they are spaced, finality of receipts
 and the contents of the mailbox. Claims are in StateClaims, message IDs in StateIds.
 */
module StateRuns {
  import opened Basics
  import opened PyText
  import opened Ax25
  import opened AprsMessages
  import opened StateStore

  datatype Step =
    | Claimed(sender: string, id: string, body: string, at: real)
    | Mailed(mail: Mail)
    | Purged(at: real)
    | Queued(recipient: string, bodies: seq<string>, channel: int, at: real)
    | Sent(messageId: string, at: real)
    | ReceiptSeen(sender: string, receipt: Receipt, at: real)

  function At(step: Step): real {
    if step.Mailed? then step.mail.at else step.at
  }

  // ---- The store invariant ----

  predicate Deliverable(id: string, row: Row) {
    MessageId(id) && Callsign(row.recipient) && NormalizeReplyBody(row.body, id) == Ok(row.body)
  }

  /** The row conditions of the state check, and how attempts, state and schedule hang together. */
  predicate RowOk(retry: seq<nat>, row: Row) {
    && 0 <= row.attempts <= |retry| + 1
    && 0 <= row.channel <= 15
    && (row.state == Pending <==> row.nextAttemptAt.Some?)
    && (row.state == Pending ==> row.attempts <= |retry|)
    && (row.state == Failed ==> row.attempts == |retry| + 1)
    && (row.attempts > 0 <==> row.lastSentAt.Some?)
    && (row.state == Pending && row.attempts > 0 ==>
          row.nextAttemptAt.value == row.lastSentAt.value + retry[row.attempts - 1] as real)
  }

  predicate Consistent(c: Limits, t: Tables) {
    && (forall id :: id in t.outbound ==> RowOk(c.retry, t.outbound[id]) && Deliverable(id, t.outbound[id]))
    && |PendingIds(t)| <= c.maximumPending
  }

  function Apply(c: Limits, t: Tables, step: Step): Tables
    requires Consistent(c, t)
  {
    match step
    case Claimed(sender, id, body, at) => Claim(t, c.ttl, sender, id, body, at).0
    case Mailed(mail) =>
      if MailText(mail.body).Some? then StoreMail(t, mail.(body := MailText(mail.body).value), c.mailboxLimit) else t
    case Purged(at) => Purge(t, c.retention, at)
    case Queued(recipient, bodies, channel, at) =>
      (match QueueBatch(t, recipient, bodies, c.maximumPending, channel, at)
       case Err(_) => t
       case Ok(r) => r.0)
    case Sent(id, at) => NoteSent(t, id, c.retry, at)
    case ReceiptSeen(sender, receipt, at) => ApplyReceipt(t, sender, receipt, at)
  }

  lemma IdTextIsId(value: nat)
    ensures MessageId(IdText(value)) && |IdText(value)| == 4
  {
  }

  /** A prefix of tidy text, right-stripped, is tidy, so normalising twice changes nothing more. */
  lemma NormalizeIdempotent(body: string, id: string)
    requires NormalizeReplyBody(body, id).Ok?
    ensures NormalizeReplyBody(NormalizeReplyBody(body, id).value, id) == NormalizeReplyBody(body, id)
  {
    NormalizedIsTidy(body, id);
    TidyStays(NormalizeReplyBody(body, id).value, id);
  }

  lemma NormalizedIsTidy(body: string, id: string)
    requires NormalizeReplyBody(body, id).Ok?
    ensures var n := NormalizeReplyBody(body, id).value;
      n != "" && Tidy(n) && Printable(n) && |n| <= MAX_APRS_MESSAGE_TEXT - (1 + |id|)
  {
    var squeezed := Squeeze(body);
    var limit := MAX_APRS_MESSAGE_TEXT - (1 + |id|);
    var cut := squeezed[..if |squeezed| < limit then |squeezed| else limit];
    var normalized := RStrip(cut);
    hide Squeeze, RStrip;
    SqueezeIsTidy(body);
    RStripEnds(cut);
    FirstStays(cut);
    hide NormalizeReplyBody;
    CleanSlice(squeezed, 0, |normalized|);
    assert normalized == squeezed[0..|normalized|];
    hide IsSpace, Clean;
    assert forall c :: c in normalized ==> c in squeezed;
  }

  lemma TidyStays(text: string, id: string)
    requires text != "" && Tidy(text) && Printable(text) && |text| <= MAX_APRS_MESSAGE_TEXT - (1 + |id|)
    ensures NormalizeReplyBody(text, id) == Ok(text)
  {
    SqueezeTidy(text);
    assert text[..|text|] == text;
    hide Squeeze, Clean;
    RStripStays(text);
  }

  lemma {:induction false} FirstStays(s: string)
    requires s != "" && !IsSpace(s[0])
    ensures RStrip(s) != "" && RStrip(s)[0] == s[0]
    decreases |s|
  {
    if IsSpace(s[|s| - 1]) {
      FirstStays(s[..|s| - 1]);
    }
  }

  lemma RStripStays(s: string)
    requires s != "" && !IsSpace(s[|s| - 1])
    ensures RStrip(s) == s
  {
  }

  lemma {:induction false} InsertAllKeeps(c: Limits, t: Tables, recipient: string, bodies: seq<string>, channel: int, now: real)
    requires forall id :: id in t.outbound ==> RowOk(c.retry, t.outbound[id]) && Deliverable(id, t.outbound[id])
    requires Callsign(Upper(recipient)) && 0 <= channel <= 15
    requires InsertAll(t, recipient, bodies, channel, now).Ok?
    ensures var t' := InsertAll(t, recipient, bodies, channel, now).value.0;
      && (forall id :: id in t'.outbound ==> RowOk(c.retry, t'.outbound[id]) && Deliverable(id, t'.outbound[id]))
      && |PendingIds(t')| == |PendingIds(t)| + |bodies|
    decreases |bodies|
  {
    hide NormalizeReplyBody, RowOk, Deliverable, IdText, NextValue;
    if bodies != [] {
      var value := NextValue(t.counter);
      var id := IdText(value);
      var body := NormalizeReplyBody(bodies[0], id).value;
      var row := FreshRow(recipient, body, channel, now);
      var t' := t.(counter := Some(value), outbound := t.outbound[id := row]);
      FreshRowOk(c.retry, recipient, bodies[0], value, channel, now);
      assert PendingIds(t') == PendingIds(t) + {id};
      InsertAllKeeps(c, t', recipient, bodies[1..], channel, now);
    }
  }

  lemma FreshRowOk(retry: seq<nat>, recipient: string, body: string, value: nat, channel: int, now: real)
    requires Callsign(Upper(recipient)) && 0 <= channel <= 15 && NormalizeReplyBody(body, IdText(value)).Ok?
    ensures var row := FreshRow(recipient, NormalizeReplyBody(body, IdText(value)).value, channel, now);
      RowOk(retry, row) && Deliverable(IdText(value), row) && row.state == Pending
  {
    hide NormalizeReplyBody, IdText, Callsign;
    IdTextIsId(value);
    NormalizeIdempotent(body, IdText(value));
  }

  /** Every transaction keeps the invariant. Recipients come from decoded frames, so they are callsigns. */
  lemma ApplyKeeps(c: Limits, t: Tables, step: Step)
    requires Consistent(c, t)
    requires step.Queued? ==> Callsign(step.recipient)
    ensures Consistent(c, Apply(c, t, step))
  {
    hide Consistent, QueueBatch, Callsign, Purge, NoteSent, ApplyReceipt;
    match step
    case Queued(recipient, bodies, channel, at) =>
      if QueueBatch(t, recipient, bodies, c.maximumPending, channel, at).Ok? {
        QueueKeeps(c, t, recipient, bodies, channel, at);
      }
    case Sent(id, at) => SentKeeps(c, t, id, at);
    case ReceiptSeen(sender, receipt, at) => ReceiptKeeps(c, t, sender, receipt, at);
    case Purged(at) => PurgeKeeps(c, t, at);
    case Claimed(_, _, _, _) => SameOutbound(c, t, Apply(c, t, step));
    case Mailed(_) => SameOutbound(c, t, Apply(c, t, step));
  }

  lemma SameOutbound(c: Limits, t: Tables, t': Tables)
    requires Consistent(c, t) && t'.outbound == t.outbound
    ensures Consistent(c, t')
  {
    assert PendingIds(t') == PendingIds(t);
  }

  lemma QueueKeeps(c: Limits, t: Tables, recipient: string, bodies: seq<string>, channel: int, at: real)
    requires Consistent(c, t) && Callsign(recipient)
    requires QueueBatch(t, recipient, bodies, c.maximumPending, channel, at).Ok?
    ensures Consistent(c, QueueBatch(t, recipient, bodies, c.maximumPending, channel, at).value.0)
  {
    hide Deliverable, RowOk, InsertAll, Callsign;
    CallsignCanonical(recipient);
    InsertAllKeeps(c, t, recipient, bodies, channel, at);
  }

  lemma PurgeKeeps(c: Limits, t: Tables, at: real)
    requires Consistent(c, t)
    ensures Consistent(c, Purge(t, c.retention, at))
  {
    hide Deliverable, RowOk;
    assert PendingIds(Purge(t, c.retention, at)) == PendingIds(t);
  }

  lemma SubsetSize<T>(a: set<T>, b: set<T>)
    requires a <= b
    ensures |a| <= |b|
  {
    assert b == a + (b - a);
  }

  lemma SentKeeps(c: Limits, t: Tables, id: string, at: real)
    requires Consistent(c, t)
    ensures Consistent(c, NoteSent(t, id, c.retry, at))
  {
    hide NormalizeReplyBody, Callsign;
    var t' := NoteSent(t, id, c.retry, at);
    assert PendingIds(t') <= PendingIds(t);
    SubsetSize(PendingIds(t'), PendingIds(t));
  }

  lemma ReceiptKeeps(c: Limits, t: Tables, sender: string, receipt: Receipt, at: real)
    requires Consistent(c, t)
    ensures Consistent(c, ApplyReceipt(t, sender, receipt, at))
  {
    hide NormalizeReplyBody, Callsign;
    var t' := ApplyReceipt(t, sender, receipt, at);
    assert PendingIds(t') <= PendingIds(t);
    SubsetSize(PendingIds(t'), PendingIds(t));
  }

  predicate FromFrames(steps: seq<Step>) {
    forall i :: 0 <= i < |steps| && steps[i].Queued? ==> Callsign(steps[i].recipient)
  }

  /** The tables after a run of transactions; the invariant of the state check holds at its end. */
  function Run(c: Limits, t: Tables, steps: seq<Step>): (r: Tables)
    requires Consistent(c, t) && FromFrames(steps)
    ensures Consistent(c, r)
  {
    if steps == [] then t
    else
      var before := Run(c, t, steps[..|steps| - 1]);
      ApplyKeeps(c, before, steps[|steps| - 1]);
      Apply(c, before, steps[|steps| - 1])
  }

  lemma EmptyConsistent(c: Limits)
    ensures Consistent(c, EMPTY)
  {
    assert PendingIds(EMPTY) == {};
  }

  /** The tables after a run from the empty store. */
  function Reached(c: Limits, steps: seq<Step>): (t: Tables)
    requires FromFrames(steps)
    ensures Consistent(c, t)
  {
    EmptyConsistent(c);
    Run(c, EMPTY, steps)
  }

  /** The state check's own conditions, in every reachable store. */
  lemma StateCheckPasses(c: Limits, steps: seq<Step>)
    requires FromFrames(steps)
    ensures Consistent(c, Tables(map[], None, map[], []))
    ensures var t := Run(c, Tables(map[], None, map[], []), steps);
      && (forall id :: id in t.outbound ==>
            && t.outbound[id].attempts >= 0 && 0 <= t.outbound[id].channel <= 15
            && (t.outbound[id].nextAttemptAt.Some? <==> t.outbound[id].state == Pending))
      && |PendingIds(t)| <= c.maximumPending
  {
    assert PendingIds(Tables(map[], None, map[], [])) == {};
  }

  // ---- Sending: how often, how far apart ----

  /** The times at which each message was recorded as sent, counted from its latest insertion. */
  type SendTimes = map<string, seq<real>>

  function NewIds(t: Tables, t': Tables): set<string> { t'.outbound.Keys - t.outbound.Keys }

  function Track(c: Limits, t: Tables, h: SendTimes, step: Step): SendTimes
    requires Consistent(c, t)
  {
    match step
    case Queued(_, _, _, _) =>
      h + (map id | id in NewIds(t, Apply(c, t, step)) :: [])
    case Sent(id, at) =>
      if id in t.outbound && t.outbound[id].state == Pending
      then h[id := (if id in h then h[id] else []) + [at]] else h
    case _ => h
  }

  /** A recorded send finds its row never sent yet or due, by the clock reading that the record itself takes. */
  predicate SendsWhenDue(t: Tables, step: Step) {
    step.Sent? && step.messageId in t.outbound && t.outbound[step.messageId].state == Pending ==>
      t.outbound[step.messageId].attempts == 0 || DueAt(t, step.messageId, step.at)
  }

  /** Each send is at least the configured delay after the one before. */
  predicate Spaced(retry: seq<nat>, times: seq<real>) {
    forall k :: 1 <= k < |times| && k <= |retry| ==> times[k] - times[k - 1] >= retry[k - 1] as real
  }

  predicate AllSpaced(c: Limits, h: SendTimes) {
    forall id :: id in h ==> Spaced(c.retry, h[id])
  }

  /** No message is sent more than one time more than there are delays, and its row counts its sends. */
  predicate Counted(c: Limits, t: Tables, h: SendTimes) {
    && (forall id :: id in h ==> |h[id]| <= |c.retry| + 1)
    && (forall id :: id in t.outbound ==> id in h && |h[id]| == t.outbound[id].attempts)
    && (forall id :: id in t.outbound && t.outbound[id].attempts > 0 ==>
          t.outbound[id].lastSentAt == Some(h[id][|h[id]| - 1]))
  }

  lemma SpacedAppend(retry: seq<nat>, times: seq<real>, at: real)
    requires Spaced(retry, times) && |times| <= |retry|
    ensures Spaced(retry, times + [at]) <==> |times| > 0 ==> at - times[|times| - 1] >= retry[|times| - 1] as real
  {
    var all := times + [at];
    assert all[|times|] == at;
    forall k | 1 <= k < |times| ensures all[k] - all[k - 1] >= retry[k - 1] as real {
      assert times[k] - times[k - 1] >= retry[k - 1] as real;
    }
  }

  /** The outbound message mirrors its row. */
  predicate Represents(rows: map<string, Row>, queued: Outbound) {
    && queued.messageId in rows
    && rows[queued.messageId].body == queued.body && rows[queued.messageId].recipient == queued.recipient
    && rows[queued.messageId].channel == queued.channel
  }

  lemma {:induction false} InsertAllAdds(t: Tables, recipient: string, bodies: seq<string>, channel: int, now: real)
    requires InsertAll(t, recipient, bodies, channel, now).Ok?
    ensures var (t', queued) := InsertAll(t, recipient, bodies, channel, now).value;
      && t'.received == t.received && t'.mailbox == t.mailbox
      && (forall id :: id in t.outbound ==> id in t'.outbound && t'.outbound[id] == t.outbound[id])
      && (forall id :: id in t'.outbound && id !in t.outbound ==>
            t'.outbound[id].attempts == 0 && t'.outbound[id].state == Pending && t'.outbound[id].lastSentAt == None)
      && |queued| == |bodies|
      && (forall i :: 0 <= i < |queued| ==>
            && Represents(t'.outbound, queued[i]) && queued[i].messageId !in t.outbound
            && queued[i].recipient == Upper(recipient) && queued[i].channel == channel)
      && (forall i, j :: 0 <= i < j < |queued| ==> queued[i].messageId != queued[j].messageId)
    decreases |bodies|
  {
    hide NormalizeReplyBody, IdText, NextValue;
    if bodies != [] {
      var value := NextValue(t.counter);
      var id := IdText(value);
      var body := NormalizeReplyBody(bodies[0], id).value;
      var t1 := t.(counter := Some(value), outbound := t.outbound[id := FreshRow(recipient, body, channel, now)]);
      InsertAllAdds(t1, recipient, bodies[1..], channel, now);
    }
  }

  /** A queued message: its body is what normalising keeps of the given one, and its row is new, unsent and due at once. */
  predicate Queues(rows: map<string, Row>, q: Outbound, recipient: string, body: string, channel: int, now: real) {
    && q.messageId in rows && |q.messageId| == 4 && NormalizeReplyBody(body, q.messageId) == Ok(q.body)
    && rows[q.messageId] == Row(Upper(recipient), q.body, Pending, 0, now, now, Some(now), None, None, channel)
  }

  /** The i-th message of a batch carries its i-th body, and the batch adds no other rows. */
  lemma {:induction false} InsertAllExact(t: Tables, recipient: string, bodies: seq<string>, channel: int, now: real)
    requires InsertAll(t, recipient, bodies, channel, now).Ok?
    ensures var (t', queued) := InsertAll(t, recipient, bodies, channel, now).value;
      && |queued| == |bodies|
      && (forall i :: 0 <= i < |queued| ==> Queues(t'.outbound, queued[i], recipient, bodies[i], channel, now))
      && t'.outbound.Keys == t.outbound.Keys + set q | q in queued :: q.messageId
    decreases |bodies|
  {
    if bodies != [] {
      var value := NextValue(t.counter);
      var id := IdText(value);
      var body := NormalizeReplyBody(bodies[0], id).value;
      var t1 := t.(counter := Some(value), outbound := t.outbound[id := FreshRow(recipient, body, channel, now)]);
      var first := Outbound(id, Upper(recipient), body, 0, channel);
      assert Queues(t1.outbound, first, recipient, bodies[0], channel, now);
      InsertAllExact(t1, recipient, bodies[1..], channel, now);
      InsertAllAdds(t1, recipient, bodies[1..], channel, now);
      var (t', later) := InsertAll(t1, recipient, bodies[1..], channel, now).value;
      assert InsertAll(t, recipient, bodies, channel, now).value == (t', [first] + later);
      hide InsertAll, NormalizeReplyBody, IdText, NextValue, Represents;
      assert Queues(t'.outbound, first, recipient, bodies[0], channel, now);
      hide Queues;
      KeysOfQueued(t.outbound.Keys, first, later);
    }
  }

  lemma KeysOfQueued(keys: set<string>, first: Outbound, later: seq<Outbound>)
    ensures keys + {first.messageId} + (set q | q in later :: q.messageId)
         == keys + set q | q in [first] + later :: q.messageId
  {
    assert forall q :: q in [first] + later <==> q == first || q in later;
  }

  /** What normalising keeps of a body: the longest tidy beginning of its words that leaves room for the ID. */
  lemma NormalizeExact(body: string, id: string)
    ensures NormalizeReplyBody(body, id).Ok? <==>
      Squeeze(body) != "" && Printable(Squeeze(body)) && |id| < MAX_APRS_MESSAGE_TEXT - 1
    ensures NormalizeReplyBody(body, id).Ok? ==>
      var n, whole, room := NormalizeReplyBody(body, id).value, Squeeze(body), MAX_APRS_MESSAGE_TEXT - (1 + |id|);
      && n <= whole && Tidy(n) && n != "" && |n| <= room
      && (|n| == |whole| || |n| == room || (|n| == room - 1 && whole[|n|] == ' '))
  {
    if NormalizeReplyBody(body, id).Ok? {
      var n, whole, room := NormalizeReplyBody(body, id).value, Squeeze(body), MAX_APRS_MESSAGE_TEXT - (1 + |id|);
      NormalizedIsTidy(body, id);
      SqueezeIsTidy(body);
      var cut := whole[..if |whole| < room then |whole| else room];
      assert n == RStrip(cut);
      RStripEnds(cut);
      hide Squeeze, Printable, NormalizeReplyBody;
      TrimmedByOne(cut);
    }
  }

  lemma TrimmedByOne(s: string)
    requires Clean(s)
    ensures RStrip(s) <= s && (|RStrip(s)| == |s| || (|RStrip(s)| == |s| - 1 && s[|s| - 1] == ' '))
  {
    if s != "" && IsSpace(s[|s| - 1]) {
      var t := s[..|s| - 1];
      assert t != "" ==> !IsSpace(t[|t| - 1]);
    }
  }

  lemma SpacedEmpty(retry: seq<nat>)
    ensures Spaced(retry, [])
  {
  }

  lemma CountKeeps(c: Limits, t: Tables, h: SendTimes, step: Step)
    requires Consistent(c, t) && Counted(c, t, h)
    ensures Counted(c, Apply(c, t, step), Track(c, t, h, step))
  {
    hide *;
    match step
    case Queued(recipient, bodies, channel, at) => CountQueued(c, t, h, step);
    case Sent(id, at) => CountSent(c, t, h, step);
    case _ => CountOther(c, t, h, step);
  }

  lemma CountOther(c: Limits, t: Tables, h: SendTimes, step: Step)
    requires Consistent(c, t) && Counted(c, t, h) && !step.Sent? && !step.Queued?
    ensures Counted(c, Apply(c, t, step), Track(c, t, h, step))
  {
    hide Deliverable, QueueBatch, RowOk, Consistent;
  }

  lemma CountSent(c: Limits, t: Tables, h: SendTimes, step: Step)
    requires Consistent(c, t) && Counted(c, t, h) && step.Sent?
    ensures Counted(c, Apply(c, t, step), Track(c, t, h, step))
  {
    hide Deliverable;
  }

  lemma CountQueued(c: Limits, t: Tables, h: SendTimes, step: Step)
    requires Consistent(c, t) && Counted(c, t, h) && step.Queued?
    ensures Counted(c, Apply(c, t, step), Track(c, t, h, step))
  {
    hide RowOk, InsertAll, Consistent, Represents, Callsign, Upper, Ax25.SplitCallsign, PendingIds;
    if QueueBatch(t, step.recipient, step.bodies, c.maximumPending, step.channel, step.at).Ok? {
      InsertAllAdds(t, step.recipient, step.bodies, step.channel, step.at);
    } else {
      assert Apply(c, t, step) == t && NewIds(t, t) == {};
      assert Track(c, t, h, step) == h;
    }
  }

  /** Whatever has happened before: a transaction leaves the sends spaced exactly when it sends what is due. */
  lemma StepSpacedExactly(c: Limits, t: Tables, h: SendTimes, step: Step)
    requires Consistent(c, t) && Counted(c, t, h) && AllSpaced(c, h)
    ensures AllSpaced(c, Track(c, t, h, step)) <==> SendsWhenDue(t, step)
  {
    if step.Sent? && step.messageId in t.outbound && t.outbound[step.messageId].state == Pending {
      SendSpacedExactly(c, t, h, step);
    } else {
      SpacedEmpty(c.retry);
      hide Consistent, Spaced, QueueBatch, Apply;
    }
  }

  /** A pending message is due one delay after its latest send. */
  lemma PendingSchedule(c: Limits, t: Tables, h: SendTimes, id: string)
    requires Consistent(c, t) && Counted(c, t, h) && id in t.outbound && t.outbound[id].state == Pending
    ensures id in h && |h[id]| == t.outbound[id].attempts <= |c.retry| && t.outbound[id].nextAttemptAt.Some?
    ensures |h[id]| > 0 ==>
      t.outbound[id].nextAttemptAt.value == h[id][|h[id]| - 1] + c.retry[|h[id]| - 1] as real
  {
    hide Deliverable, PendingIds;
    assert RowOk(c.retry, t.outbound[id]);
  }

  lemma SendSpacedExactly(c: Limits, t: Tables, h: SendTimes, step: Step)
    requires Consistent(c, t) && Counted(c, t, h) && AllSpaced(c, h)
    requires step.Sent? && step.messageId in t.outbound && t.outbound[step.messageId].state == Pending
    ensures AllSpaced(c, Track(c, t, h, step)) <==> SendsWhenDue(t, step)
  {
    var id := step.messageId;
    PendingSchedule(c, t, h, id);
    var times := h[id];
    hide Consistent, Counted;
    SpacedAppend(c.retry, times, step.at);
    var after := Track(c, t, h, step);
    assert after[id] == times + [step.at] && forall other :: other in after && other != id ==> after[other] == h[other];
    hide Track, Spaced;
  }

  function TrackRun(c: Limits, t: Tables, h: SendTimes, steps: seq<Step>): SendTimes
    requires Consistent(c, t) && FromFrames(steps)
  {
    if steps == [] then h
    else
      var rest := steps[..|steps| - 1];
      Track(c, Run(c, t, rest), TrackRun(c, t, h, rest), steps[|steps| - 1])
  }

  predicate DueSends(c: Limits, t: Tables, steps: seq<Step>)
    requires Consistent(c, t) && FromFrames(steps)
  {
    steps != [] ==>
      && DueSends(c, t, steps[..|steps| - 1])
      && SendsWhenDue(Run(c, t, steps[..|steps| - 1]), steps[|steps| - 1])
  }

  /** The sends of a run from the empty store. */
  function TrackReached(c: Limits, steps: seq<Step>): SendTimes
    requires FromFrames(steps)
  {
    EmptyConsistent(c);
    TrackRun(c, EMPTY, map[], steps)
  }

  /** After every transaction of the run the sends so far are spaced. */
  predicate SpacedThroughout(c: Limits, steps: seq<Step>)
    requires FromFrames(steps)
  {
    AllSpaced(c, TrackReached(c, steps)) && (steps != [] ==> SpacedThroughout(c, steps[..|steps| - 1]))
  }

  /** Every send of a run from the empty store is a first one or due by its own reading of the clock. */
  predicate SendsDue(c: Limits, steps: seq<Step>)
    requires FromFrames(steps)
  {
    EmptyConsistent(c);
    DueSends(c, EMPTY, steps)
  }

  /** Over every run and whatever the clock does: a message is recorded as sent at most |retry| + 1 times, as its row says. */
  lemma {:induction false} SendsBounded(c: Limits, steps: seq<Step>)
    requires FromFrames(steps)
    ensures Counted(c, Reached(c, steps), TrackReached(c, steps))
  {
    if steps == [] {
      hide Consistent;
    } else {
      var rest, last := steps[..|steps| - 1], steps[|steps| - 1];
      SendsBounded(c, rest);
      LastStep(c, steps);
      hide *;
      CountKeeps(c, Reached(c, rest), TrackReached(c, rest), last);
    }
  }

  lemma LastStep(c: Limits, steps: seq<Step>)
    requires FromFrames(steps) && steps != []
    ensures var rest, last := steps[..|steps| - 1], steps[|steps| - 1];
      && FromFrames(rest)
      && Reached(c, steps) == Apply(c, Reached(c, rest), last)
      && TrackReached(c, steps) == Track(c, Reached(c, rest), TrackReached(c, rest), last)
  {
    hide Consistent, Apply, Track;
  }

  /** Over every run: the sends are spaced all along exactly when each is a first one or due by its own reading. */
  lemma {:induction false} SpacedExactly(c: Limits, steps: seq<Step>)
    requires FromFrames(steps)
    ensures SpacedThroughout(c, steps) <==> SendsDue(c, steps)
  {
    if steps == [] {
      hide Consistent;
    } else {
      var rest, last := steps[..|steps| - 1], steps[|steps| - 1];
      SpacedExactly(c, rest);
      SendsBounded(c, rest);
      LastStep(c, steps);
      LastSend(c, steps);
      assert SpacedThroughout(c, rest) ==> AllSpaced(c, TrackReached(c, rest));
      assert SpacedThroughout(c, steps) <==> AllSpaced(c, TrackReached(c, steps)) && SpacedThroughout(c, rest);
      hide *;
      if SendsDue(c, rest) {
        StepSpacedExactly(c, Reached(c, rest), TrackReached(c, rest), last);
      }
    }
  }

  lemma LastSend(c: Limits, steps: seq<Step>)
    requires FromFrames(steps) && steps != []
    ensures var rest, last := steps[..|steps| - 1], steps[|steps| - 1];
      FromFrames(rest) && (SendsDue(c, steps) <==> SendsDue(c, rest) && SendsWhenDue(Reached(c, rest), last))
  {
    hide Consistent, SendsWhenDue;
  }

  // ---- Receipts are final ----

  predicate Closed(t: Tables, id: string) {
    id in t.outbound && t.outbound[id].state in {Acknowledged, Refused}
  }

  /** A matched receipt from the recipient closes an open message; nothing else ever does. */
  lemma ReceiptCloses(c: Limits, t: Tables, step: Step, id: string)
    requires Consistent(c, t) && id in t.outbound && !Closed(t, id)
    ensures Closed(Apply(c, t, step), id) <==>
      step.ReceiptSeen? && step.receipt.messageId == id && t.outbound[id].recipient == Upper(step.sender)
    ensures Closed(Apply(c, t, step), id) ==> Apply(c, t, step).outbound[id].state == Final(step.receipt.disposition)
  {
    hide Consistent, QueueBatch, Upper;
    if step.Queued? {
      QueueKeepsRows(c, t, step, id);
      hide Apply;
    }
  }

  /** Queueing leaves every earlier row as it was. */
  lemma QueueKeepsRows(c: Limits, t: Tables, step: Step, id: string)
    requires Consistent(c, t) && step.Queued? && id in t.outbound
    ensures id in Apply(c, t, step).outbound && Apply(c, t, step).outbound[id] == t.outbound[id]
  {
    hide Consistent, InsertAll, Represents, Upper;
    if QueueBatch(t, step.recipient, step.bodies, c.maximumPending, step.channel, step.at).Ok? {
      InsertAllAdds(t, step.recipient, step.bodies, step.channel, step.at);
    }
  }

  /** Once closed, a message's row and its send times never change again; it can only be purged. */
  lemma ClosedStays(c: Limits, t: Tables, h: SendTimes, step: Step, id: string)
    requires Consistent(c, t) && Closed(t, id) && id in h
    ensures id in Apply(c, t, step).outbound ==>
      Apply(c, t, step).outbound[id] == t.outbound[id] && id in Track(c, t, h, step) && Track(c, t, h, step)[id] == h[id]
    ensures id !in Apply(c, t, step).outbound ==> step.Purged? && t.outbound[id].updatedAt < step.at - c.retention
  {
    hide Consistent, QueueBatch, Upper;
    if step.Queued? {
      QueueKeepsRows(c, t, step, id);
    }
  }

  lemma {:induction false} RunSplit(c: Limits, t: Tables, a: seq<Step>, b: seq<Step>)
    requires Consistent(c, t) && FromFrames(a) && FromFrames(b)
    ensures FromFrames(a + b)
    ensures Run(c, t, a + b) == Run(c, Run(c, t, a), b)
    decreases |b|
  {
    if b == [] {
      assert a + b == a;
    } else {
      var rest := b[..|b| - 1];
      assert (a + b)[..|a + b| - 1] == a + rest;
      RunSplit(c, t, a, rest);
    }
  }

  /** The message is in the store throughout the run. */
  predicate Kept(c: Limits, t: Tables, steps: seq<Step>, id: string)
    requires Consistent(c, t) && FromFrames(steps)
  {
    id in Run(c, t, steps).outbound && (steps != [] ==> Kept(c, t, steps[..|steps| - 1], id))
  }

  /** As long as it is not purged, a closed message is as it was and has not been sent again. */
  lemma {:induction false} ClosedIsFinal(c: Limits, t: Tables, h: SendTimes, steps: seq<Step>, id: string)
    requires Consistent(c, t) && FromFrames(steps) && Closed(t, id) && id in h
    requires Kept(c, t, steps, id)
    ensures Run(c, t, steps).outbound[id] == t.outbound[id]
    ensures id in TrackRun(c, t, h, steps) && TrackRun(c, t, h, steps)[id] == h[id]
  {
    if steps == [] {
      hide Consistent, Closed;
    } else {
      hide Consistent, Apply, Track, Closed;
      var rest, last := steps[..|steps| - 1], steps[|steps| - 1];
      ClosedIsFinal(c, t, h, rest, id);
      var t1, h1 := Run(c, t, rest), TrackRun(c, t, h, rest);
      assert Run(c, t, steps) == Apply(c, t1, last) && TrackRun(c, t, h, steps) == Track(c, t1, h1, last);
      assert id in Run(c, t, steps).outbound && id in t1.outbound;
      hide Run, TrackRun, Kept, FromFrames;
      SameRowClosed(t, t1, id);
      ClosedStays(c, t1, h1, last, id);
    }
  }

  lemma SameRowClosed(t: Tables, t': Tables, id: string)
    requires Closed(t, id) && id in t'.outbound && t'.outbound[id] == t.outbound[id]
    ensures Closed(t', id)
  {
  }

  // ---- What the other transactions leave alone ----

  lemma OtherStepsKeepReceived(c: Limits, t: Tables, step: Step)
    requires Consistent(c, t) && !step.Claimed?
    ensures Apply(c, t, step).received == t.received
  {
    hide Deliverable, RowOk;
    if step.Queued? {
      if QueueBatch(t, step.recipient, step.bodies, c.maximumPending, step.channel, step.at).Ok? {
        InsertAllAdds(t, step.recipient, step.bodies, step.channel, step.at);
      }
    }
  }

  // ---- Mailbox ----

  /** The accepted mailbox texts of a run, in order. */
  function Accepted(steps: seq<Step>): seq<Mail> {
    if steps == [] then []
    else
      var last := steps[|steps| - 1];
      Accepted(steps[..|steps| - 1])
        + (if last.Mailed? && MailText(last.mail.body).Some? then [last.mail.(body := MailText(last.mail.body).value)] else [])
  }

  lemma OtherStepsKeepMailbox(c: Limits, t: Tables, step: Step)
    requires Consistent(c, t) && !step.Mailed?
    ensures Apply(c, t, step).mailbox == t.mailbox
  {
    hide Consistent, InsertAll;
    if step.Queued? {
      if QueueBatch(t, step.recipient, step.bodies, c.maximumPending, step.channel, step.at).Ok? {
        InsertAllAdds(t, step.recipient, step.bodies, step.channel, step.at);
      }
    }
  }

  /** In every reachable store the mailbox is exactly the newest accepted texts, up to its limit, in order of arrival. */
  lemma {:induction false} MailboxHoldsNewest(c: Limits, steps: seq<Step>, t0: Tables)
    requires t0 == Tables(map[], None, map[], []) && FromFrames(steps) && Consistent(c, t0)
    ensures Run(c, t0, steps).mailbox == Newest(Accepted(steps), c.mailboxLimit)
  {
    if steps != [] {
      var rest, last := steps[..|steps| - 1], steps[|steps| - 1];
      MailboxHoldsNewest(c, rest, t0);
      if last.Mailed? {
        NewestAppend(Accepted(rest), c.mailboxLimit, last.mail.(body := if MailText(last.mail.body).Some? then MailText(last.mail.body).value else ""));
      } else {
        OtherStepsKeepMailbox(c, Run(c, t0, rest), last);
      }
      assert Accepted(rest) + [] == Accepted(rest);
    }
  }

  lemma NewestAppend(mails: seq<Mail>, limit: nat, mail: Mail)
    ensures Newest(Newest(mails, limit) + [mail], limit) == Newest(mails + [mail], limit)
  {
  }
}
