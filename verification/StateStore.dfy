/**
 The agent's durable state: identities already handled, the bounded mailbox and the outbound queue.
 Each method of DedupStore is one SQLite transaction and is proved against a function on the table
 contents; the run lemmas quantify over every sequence of transactions with a clock that never
 goes back, so they cover a crash between any two of them. A body stands for its own digest.
 */
module StateStore {
  import opened Basics
  import opened PyText
  import opened Ax25
  import opened AprsMessages

  const ID_SPACE := 36 * 36 * 36 * 36
  const MAX_MAILBOX_TEXT := MAX_APRS_MESSAGE_TEXT - 4

  datatype Seen = Seen(digest: string, at: real)

  datatype RowState = Pending | Acknowledged | Refused | Failed

  datatype Row = Row(recipient: string, body: string, state: RowState, attempts: int, createdAt: real,
                     updatedAt: real, nextAttemptAt: Option<real>, lastSentAt: Option<real>,
                     completedAt: Option<real>, channel: int)

  datatype Mail = Mail(sender: string, messageId: string, body: string, at: real)

  datatype Tables = Tables(received: map<(string, string), Seen>, counter: Option<int>,
                           outbound: map<string, Row>, mailbox: seq<Mail>)

  const EMPTY := Tables(map[], None, map[], [])

  datatype Limits = Limits(ttl: real, retry: seq<nat>, maximumPending: nat, mailboxLimit: nat, retention: real)

  datatype Verdict = New | Duplicate | Conflict

  datatype QueueError = BadCallsign | BadChannel | EmptyBatch | QueueFull | BadBody | IdTaken

  datatype Outbound = Outbound(messageId: string, recipient: string, body: string, attempts: int, channel: int)

  // ---- Duplicate store ----

  function Unexpired(received: map<(string, string), Seen>, cutoff: real): map<(string, string), Seen> {
    map k | k in received && received[k].at >= cutoff :: received[k]
  }

  function Claim(t: Tables, ttl: real, sender: string, id: string, body: string, now: real): (Tables, Verdict) {
    var kept := Unexpired(t.received, now - ttl);
    if (sender, id) in kept then
      (t.(received := kept), if kept[(sender, id)].digest == body then Duplicate else Conflict)
    else (t.(received := kept[(sender, id) := Seen(body, now)]), New)
  }

  // ---- Outbound queue ----

  function NextValue(counter: Option<int>): nat {
    ((if counter.Some? then counter.value else -1) + 1) % ID_SPACE
  }

  function Base36(n: nat): char
    requires n < 36
  {
    if n < 10 then (48 + n) as char else (55 + n) as char
  }

  /** The last `width` base-36 digits of `value`. */
  function Encode36(value: nat, width: nat): (r: string)
    ensures |r| == width
    ensures forall i :: 0 <= i < width ==> IsAlnum(r[i])
  {
    if width == 0 then "" else Encode36(value / 36, width - 1) + [Base36(value % 36)]
  }

  function IdText(value: nat): string { Encode36(value, 4) }

  function PendingIds(t: Tables): set<string> {
    set id | id in t.outbound && t.outbound[id].state == Pending
  }

  function FreshRow(recipient: string, body: string, channel: int, now: real): Row {
    Row(Upper(recipient), body, Pending, 0, now, now, Some(now), None, None, channel)
  }

  /** Inserts the bodies one after another; any failure undoes the whole transaction. */
  function InsertAll(t: Tables, recipient: string, bodies: seq<string>, channel: int, now: real)
    : Result<(Tables, seq<Outbound>), QueueError>
    decreases |bodies|
  {
    if bodies == [] then Ok((t, []))
    else
      var value := NextValue(t.counter);
      var id := IdText(value);
      match NormalizeReplyBody(bodies[0], id)
      case Err(_) => Err(BadBody)
      case Ok(normalized) =>
        if id in t.outbound then Err(IdTaken)
        else
          var t' := t.(counter := Some(value), outbound := t.outbound[id := FreshRow(recipient, normalized, channel, now)]);
          After([Outbound(id, Upper(recipient), normalized, 0, channel)], InsertAll(t', recipient, bodies[1..], channel, now))
  }

  /** The result when `queued` were inserted before. */
  function After(queued: seq<Outbound>, r: Result<(Tables, seq<Outbound>), QueueError>)
    : Result<(Tables, seq<Outbound>), QueueError>
  {
    match r
    case Err(e) => Err(e)
    case Ok(rest) => Ok((rest.0, queued + rest.1))
  }

  lemma AfterTwice(a: seq<Outbound>, b: seq<Outbound>, r: Result<(Tables, seq<Outbound>), QueueError>)
    ensures After(a, After(b, r)) == After(a + b, r)
  {
    if r.Ok? {
      assert a + (b + r.value.1) == a + b + r.value.1;
    }
  }

  lemma AfterNothing(r: Result<(Tables, seq<Outbound>), QueueError>)
    ensures After([], r) == r
  {
    if r.Ok? {
      assert [] + r.value.1 == r.value.1;
    }
  }

  function QueueBatch(t: Tables, recipient: string, bodies: seq<string>, maximumPending: nat, channel: int, now: real)
    : Result<(Tables, seq<Outbound>), QueueError>
  {
    if SplitCallsign(recipient).Err? then Err(BadCallsign)
    else if !(0 <= channel <= 15) then Err(BadChannel)
    else if bodies == [] then Err(EmptyBatch)
    else if |PendingIds(t)| + |bodies| > maximumPending then Err(QueueFull)
    else InsertAll(t, recipient, bodies, channel, now)
  }

  function SentRow(row: Row, retry: seq<nat>, now: real): Row
    requires row.attempts >= 0
  {
    var attempts := row.attempts + 1;
    if attempts <= |retry| then
      row.(state := Pending, attempts := attempts, updatedAt := now,
           nextAttemptAt := Some(now + retry[attempts - 1] as real), lastSentAt := Some(now), completedAt := None)
    else
      row.(state := Failed, attempts := attempts, updatedAt := now,
           nextAttemptAt := None, lastSentAt := Some(now), completedAt := Some(now))
  }

  predicate Countable(t: Tables) {
    forall id :: id in t.outbound ==> t.outbound[id].attempts >= 0
  }

  function NoteSent(t: Tables, id: string, retry: seq<nat>, now: real): Tables
    requires Countable(t)
  {
    if id !in t.outbound || t.outbound[id].state != Pending then t
    else t.(outbound := t.outbound[id := SentRow(t.outbound[id], retry, now)])
  }

  function Final(disposition: Disposition): RowState {
    match disposition
    case Acked => Acknowledged
    case Rejected => Refused
  }

  function ApplyReceipt(t: Tables, sender: string, receipt: Receipt, now: real): Tables {
    var id := receipt.messageId;
    if id !in t.outbound || t.outbound[id].recipient != Upper(sender) then t
    else if t.outbound[id].state in {Acknowledged, Refused} then t
    else t.(outbound := t.outbound[id := t.outbound[id].(state := Final(receipt.disposition), updatedAt := now,
                                                         nextAttemptAt := None, completedAt := Some(now))])
  }

  function Purge(t: Tables, retention: real, now: real): Tables {
    t.(outbound := map id | id in t.outbound && !(t.outbound[id].state != Pending && t.outbound[id].updatedAt < now - retention)
                   :: t.outbound[id])
  }

  predicate DueAt(t: Tables, id: string, now: real) {
    id in t.outbound && t.outbound[id].state == Pending
    && t.outbound[id].nextAttemptAt.Some? && t.outbound[id].nextAttemptAt.value <= now
  }

  /** The order of the due query: next attempt first, then creation. */
  predicate Precedes(rows: map<string, Row>, a: string, b: string) {
    && a in rows && rows[a].nextAttemptAt.Some?
    && b in rows && rows[b].nextAttemptAt.Some?
    && (rows[a].nextAttemptAt.value < rows[b].nextAttemptAt.value
        || (rows[a].nextAttemptAt.value == rows[b].nextAttemptAt.value && rows[a].createdAt <= rows[b].createdAt))
  }

  /** A page of the due query: distinct due rows in order, nothing earlier left out, full unless all are listed. */
  ghost predicate DuePage(t: Tables, now: real, limit: nat, page: seq<string>) {
    && |page| <= limit
    && (forall i :: 0 <= i < |page| ==> DueAt(t, page[i], now))
    && (forall i, j :: 0 <= i < j < |page| ==> page[i] != page[j] && Precedes(t.outbound, page[i], page[j]))
    && (forall id, i :: DueAt(t, id, now) && id !in page && 0 <= i < |page| ==> Precedes(t.outbound, page[i], id))
    && (|page| < limit ==> forall id :: DueAt(t, id, now) ==> id in page)
  }

  // ---- Mailbox ----

  function MailText(body: string): Option<string> {
    var normalized := Join(Words(body));
    if normalized == "" || |normalized| > MAX_MAILBOX_TEXT || !Printable(normalized) then None else Some(normalized)
  }

  function Newest(mails: seq<Mail>, limit: nat): seq<Mail> {
    if |mails| <= limit then mails else mails[|mails| - limit..]
  }

  function StoreMail(t: Tables, mail: Mail, limit: nat): Tables {
    t.(mailbox := Newest(t.mailbox + [mail], limit))
  }

  // ---- The object ----

  class DedupStore {
    const ttl: real
    var received: map<(string, string), Seen>
    var counter: Option<int>
    var outbound: map<string, Row>
    var mailbox: seq<Mail>

    ghost function Contents(): Tables
      reads this
    {
      Tables(received, counter, outbound, mailbox)
    }

    constructor (ttl: real)
      ensures this.ttl == ttl && Contents() == Tables(map[], None, map[], [])
    {
      this.ttl := ttl;
      received, counter, outbound, mailbox := map[], None, map[], [];
    }

    method ClaimMessage(sender: string, id: string, body: string, now: real) returns (verdict: Verdict)
      modifies this
      ensures (Contents(), verdict) == Claim(old(Contents()), ttl, sender, id, body, now)
    {
      received := Unexpired(received, now - ttl);
      if (sender, id) in received {
        return if received[(sender, id)].digest == body then Duplicate else Conflict;
      }
      received := received[(sender, id) := Seen(body, now)];
      return New;
    }

    method QueueOutboundBatch(recipient: string, bodies: seq<string>, maximumPending: nat, channel: int, now: real)
      returns (r: Result<seq<Outbound>, QueueError>)
      modifies this
      ensures match QueueBatch(old(Contents()), recipient, bodies, maximumPending, channel, now)
              case Err(e) => r == Err(e) && Contents() == old(Contents())
              case Ok(result) => r == Ok(result.1) && Contents() == result.0
    {
      if SplitCallsign(recipient).Err? {
        return Err(BadCallsign);
      }
      if !(0 <= channel <= 15) {
        return Err(BadChannel);
      }
      if bodies == [] {
        return Err(EmptyBatch);
      }
      if |PendingIds(Tables(received, counter, outbound, mailbox))| + |bodies| > maximumPending {
        return Err(QueueFull);
      }
      var savedCounter, savedOutbound := counter, outbound;
      var queued: seq<Outbound> := [];
      ghost var whole := InsertAll(Contents(), recipient, bodies, channel, now);
      var i := 0;
      assert bodies[0..] == bodies;
      AfterNothing(whole);
      while i < |bodies|
        invariant 0 <= i <= |bodies|
        invariant received == old(received) && mailbox == old(mailbox)
        invariant savedCounter == old(counter) && savedOutbound == old(outbound)
        invariant whole == After(queued, InsertAll(Contents(), recipient, bodies[i..], channel, now))
      {
        assert bodies[i..][0] == bodies[i] && bodies[i..][1..] == bodies[i + 1..];
        var value := NextValue(counter);
        var id := IdText(value);
        var normalized := NormalizeReplyBody(bodies[i], id);
        if normalized.Err? {
          counter, outbound := savedCounter, savedOutbound;
          return Err(BadBody);
        }
        if id in outbound {
          counter, outbound := savedCounter, savedOutbound;
          return Err(IdTaken);
        }
        counter := Some(value);
        outbound := outbound[id := FreshRow(recipient, normalized.value, channel, now)];
        var entry := Outbound(id, Upper(recipient), normalized.value, 0, channel);
        AfterTwice(queued, [entry], InsertAll(Contents(), recipient, bodies[i + 1..], channel, now));
        queued := queued + [entry];
        i := i + 1;
      }
      assert bodies[i..] == [];
      assert queued + [] == queued;
      return Ok(queued);
    }

    method NoteOutboundSent(id: string, retry: seq<nat>, now: real) returns (state: Option<RowState>)
      requires Countable(Contents())
      modifies this
      ensures Contents() == NoteSent(old(Contents()), id, retry, now)
      ensures state == if id in old(outbound) && old(outbound)[id].state == Pending then Some(outbound[id].state) else None
    {
      if id !in outbound || outbound[id].state != Pending {
        return None;
      }
      outbound := outbound[id := SentRow(outbound[id], retry, now)];
      return Some(outbound[id].state);
    }

    method ApplyOutboundReceipt(sender: string, receipt: Receipt, now: real)
      modifies this
      ensures Contents() == ApplyReceipt(old(Contents()), sender, receipt, now)
    {
      var id := receipt.messageId;
      if id !in outbound || outbound[id].recipient != Upper(sender) {
        return;
      }
      if outbound[id].state == Acknowledged || outbound[id].state == Refused {
        return;
      }
      outbound := outbound[id := outbound[id].(state := Final(receipt.disposition), updatedAt := now,
                                               nextAttemptAt := None, completedAt := Some(now))];
    }

    method PurgeOutboundHistory(retention: real, now: real)
      modifies this
      ensures Contents() == Purge(old(Contents()), retention, now)
    {
      outbound := map id | id in outbound && !(outbound[id].state != Pending && outbound[id].updatedAt < now - retention)
                  :: outbound[id];
    }

    method StoreMailboxMessage(mail: Mail, limit: nat) returns (stored: bool)
      modifies this
      ensures stored == MailText(mail.body).Some?
      ensures Contents() == if stored then StoreMail(old(Contents()), mail.(body := MailText(mail.body).value), limit)
                            else old(Contents())
    {
      var text := MailText(mail.body);
      if text.None? {
        return false;
      }
      mailbox := mailbox + [mail.(body := text.value)];
      if |mailbox| > limit {
        mailbox := mailbox[|mailbox| - limit..];
      }
      return true;
    }

    /** The due query, by repeatedly taking an earliest row that is still unlisted. */
    method DueOutbound(limit: nat, now: real) returns (page: seq<string>)
      ensures DuePage(Contents(), now, limit, page)
    {
      page := [];
      var rest := set id | id in outbound && outbound[id].state == Pending
                        && outbound[id].nextAttemptAt.Some? && outbound[id].nextAttemptAt.value <= now;
      while |page| < limit && rest != {}
        invariant |page| <= limit
        invariant forall id :: DueAt(Contents(), id, now) <==> id in rest || id in page
        invariant forall id :: id in page ==> id !in rest
        invariant forall i, j :: 0 <= i < j < |page| ==>
                    page[i] != page[j] && Precedes(outbound, page[i], page[j])
        invariant forall id, i :: id in rest && 0 <= i < |page| ==> Precedes(outbound, page[i], id)
        decreases rest
      {
        EarliestExists(Contents(), now, rest);
        var first :| first in rest && forall id :: id in rest ==> Precedes(outbound, first, id);
        page := page + [first];
        rest := rest - {first};
      }
    }
  }

  lemma {:induction false} EarliestExists(t: Tables, now: real, ids: set<string>)
    requires ids != {} && forall id :: id in ids ==> DueAt(t, id, now)
    ensures exists first :: first in ids && forall id :: id in ids ==> Precedes(t.outbound, first, id)
    decreases ids
  {
    var some :| some in ids;
    var rest := ids - {some};
    if rest == {} {
      assert ids == {some};
    } else {
      EarliestExists(t, now, rest);
      var first :| first in rest && forall id :: id in rest ==> Precedes(t.outbound, first, id);
      var pick := if Precedes(t.outbound, some, first) then some else first;
      forall id | id in ids ensures Precedes(t.outbound, pick, id) {
        assert id == some || id in rest;
      }
    }
  }
}
