/**
 What the agent makes of a message and what it answers, told by the words on the air: which texts are messages to this
 station, what their receipts close, what a request asks for, and which frames carry the answer to its sender
 (pcs_aprs_agent.py).
 */
module AprsAnswers {
  import opened Basics
  import opened PyText
  import opened Ax25
  import opened AprsMessages
  import opened ReplySplitter
  import opened StateStore
  import opened StateRuns
  import opened AprsAgent
  import RateLimiter

  // ---- What is heard ----

  /** How a text comes: from whom, by which path, how its addressee is written and what line ends follow it. */
  datatype Air = Air(sender: string, destination: string, hops: seq<Bytes>, name: string, ends: string)

  predicate Carries(air: Air) {
    && Callsign(air.sender) && LineEnds(air.ends)
    && EncodeAddress(air.destination, false).Ok? && EncodeAddress(air.sender, air.hops == []).Ok?
    && Path(air.hops) && |air.hops| <= 8
  }

  predicate Sendable(wire: string) { Ascii(wire) && (wire == "" || wire[|wire| - 1] !in "\r\n") }

  function Carried(air: Air, to: string, wire: string): Bytes
    requires Carries(air) && Callsign(to) && SameLetters(air.name, to) && Sendable(wire)
  {
    AirIsAscii(air, to, wire);
    Routed(air.sender, air.destination, air.hops, EncodeAscii(OnAir(air.name, wire, air.ends)))
  }

  lemma AirIsAscii(air: Air, to: string, wire: string)
    requires Carries(air) && Callsign(to) && SameLetters(air.name, to) && Sendable(wire)
    ensures Ascii(OnAir(air.name, wire, air.ends)) && EncodeAscii(OnAir(air.name, wire, air.ends))[0] == ':' as int
  {
    hide Callsign, EncodeAddress, Path, SameLetters, PadRight;
    AirReads(Frame("", "", []), air.name, to, wire, air.ends);
  }

  /** The configured channels: the TNC's, and the radio's own where it is enabled. */
  predicate Listens(c: Config, ingress: int) {
    ingress == c.kissChannel || (c.rfEnabled && ingress == c.rfChannel)
  }

  lemma AirDecodes(air: Air, to: string, wire: string) returns (frame: Frame)
    requires Carries(air) && Callsign(to) && SameLetters(air.name, to) && Sendable(wire)
    ensures DecodeUiSpec(Carried(air, to, wire)) == Ok(frame) && Unwrap(frame) == Ok(frame)
    ensures ParseMessage(frame) == Some(ReadText(air.sender, to, wire))
  {
    AirIsAscii(air, to, wire);
    var information := EncodeAscii(OnAir(air.name, wire, air.ends));
    assert Carried(air, to, wire) == Routed(air.sender, air.destination, air.hops, information);
    CallsignCanonical(air.sender);
    frame := Frame(Upper(Strip(air.destination)), air.sender, information);
    hide *;
    RoutedDecodes(air.sender, air.destination, air.hops, information);
    NotWrapped(frame);
    AirReads(frame, air.name, to, wire, air.ends);
  }

  /** A text is heard exactly when it comes on a configured channel, is for this station and is from another one. */
  lemma HeardExactly(c: Config, air: Air, to: string, wire: string, ingress: int)
    requires ValidConfig(c) && Carries(air) && Callsign(to) && SameLetters(air.name, to) && Sendable(wire)
    ensures Accept(c, Carried(air, to, wire), ingress)
         == if Listens(c, ingress) && to == c.callsign && air.sender != c.callsign
            then Some(ReadText(air.sender, to, wire)) else None
  {
    var frame := AirDecodes(air, to, wire);
    ReadTextExact(air.sender, to, wire);
    hide Callsign, Carried, Carries, SameLetters, Sendable, DecodeUiSpec, Unwrap, ParseMessage, ReadText, Ends;
  }

  /** A message for this station from another one, on a configured channel. */
  predicate Reaches(c: Config, air: Air, ingress: int) {
    Carries(air) && Listens(c, ingress) && SameLetters(air.name, c.callsign) && air.sender != c.callsign
  }

  lemma TailSendable(body: string, id: string, replyAck: Option<string>)
    requires Ascii(body) && Identified(id, replyAck)
    ensures Sendable(body + Tail(id, replyAck))
  {
    AlnumLast(id);
    if replyAck.Some? {
      AlnumLast(replyAck.value);
    }
  }

  function ReplyAckSteps(sender: string, replyAck: Option<string>, at: real): (steps: seq<Step>)
    ensures |steps| == if replyAck.Some? then 1 else 0
    ensures replyAck.Some? ==> steps[0] == ReceiptSeen(sender, Receipt(Acked, replyAck.value), at)
  {
    if replyAck.Some? then [ReceiptSeen(sender, Receipt(Acked, replyAck.value), at)] else []
  }

  lemma NumberedReceipts(message: Message, r: Readings)
    requires message.messageId.Some?
    ensures ReceiptSteps(message, r) == ReplyAckSteps(message.sender, message.replyAckId, r.replyAckAt)
  {
    hide ParseReceipt;
  }

  lemma NumberedHeard(c: Config, air: Air, body: string, id: string, replyAck: Option<string>, ingress: int)
    requires ValidConfig(c) && Reaches(c, air, ingress) && Ascii(body) && Identified(id, replyAck)
    ensures Sendable(body + Tail(id, replyAck))
    ensures Accept(c, Carried(air, c.callsign, body + Tail(id, replyAck)), ingress)
         == Some(Message(air.sender, c.callsign, body, Some(id), replyAck))
  {
    TailSendable(body, id, replyAck);
    hide Callsign, Carried, Accept, ReadText, Tail, Sendable, Ascii, Identified, SameLetters;
    HeardExactly(c, air, c.callsign, body + Tail(id, replyAck), ingress);
    TailReads(air.sender, c.callsign, body, id, replyAck);
  }

  /**
   Whatever text precedes them: of the two IDs of a message the first is the one acknowledged, by the first frame sent,
   and the second the one recorded as acknowledged by the sender, before anything else. Nothing else is recorded.
   */
  lemma IdsOnAir(c: Config, t: Tables, air: Air, body: string, id: string, replyAck: Option<string>, ingress: int,
                 granted: bool, provided: Option<string>, r: Readings)
    requires ValidConfig(c) && Consistent(c.limits, t) && |r.sentAt| >= 99
    requires Reaches(c, air, ingress) && Ascii(body) && Identified(id, replyAck)
    ensures Sendable(body + Tail(id, replyAck))
    ensures var o := Process(c, t, Carried(air, c.callsign, body + Tail(id, replyAck)), ingress, granted, provided, r);
      && ReplyAckSteps(air.sender, replyAck, r.replyAckAt) <= o.steps
      && (forall i :: 0 <= i < |o.steps| && o.steps[i].ReceiptSeen? ==> i == 0 && replyAck.Some?)
      && (r.accepted > 0 ==>
            o.sends != [] && o.sends[0].channel == ingress && IsAckFor(c, o.sends[0].frame, air.sender, id))
  {
    NumberedHeard(c, air, body, id, replyAck, ingress);
    var raw := Carried(air, c.callsign, body + Tail(id, replyAck));
    hide Carried, Sendable, Reaches, Tail, Identified;
    ExactlyOneAck(c, t, raw, ingress, granted, provided, r, air.sender, id);
    ReceiptsFirst(c, t, raw, ingress, granted, provided, r);
  }

  lemma ReceiptsFirst(c: Config, t: Tables, raw: Bytes, ingress: int, granted: bool, provided: Option<string>, r: Readings)
    requires ValidConfig(c) && Consistent(c.limits, t) && |r.sentAt| >= 99
    requires Accept(c, raw, ingress).Some? && Accept(c, raw, ingress).value.messageId.Some?
    ensures var o, m := Process(c, t, raw, ingress, granted, provided, r), Accept(c, raw, ingress).value;
      && ReplyAckSteps(m.sender, m.replyAckId, r.replyAckAt) <= o.steps
      && (forall i :: 0 <= i < |o.steps| && o.steps[i].ReceiptSeen? ==> i == 0 && m.replyAckId.Some?)
  {
    hide ValidConfig, Consistent, Accept, Handle, ReceiptSteps, AckFrame;
    var m := Accept(c, raw, ingress).value;
    AcceptedSender(c, raw, ingress);
    NumberedReceipts(m, r);
    if r.accepted > 0 && granted {
      HandlesNoReceipt(c, Run(c.limits, t, ReceiptSteps(m, r)), m, ingress, provided, r);
    }
  }

  predicate NoReceipt(steps: seq<Step>) {
    forall i :: 0 <= i < |steps| ==> !steps[i].ReceiptSeen?
  }

  lemma HandlesNoReceipt(c: Config, t: Tables, message: Message, ingress: int, provided: Option<string>, r: Readings)
    requires ValidConfig(c) && Consistent(c.limits, t) && WellFormed(message) && message.messageId.Some?
    requires |r.sentAt| >= 99 && r.accepted > 0
    ensures NoReceipt(Handle(c, t, message, ingress, provided, r).steps)
  {
    hide ValidConfig, Consistent, WellFormed, Claim, Execute, Apply, ReadRequest;
    var claim := ClaimStep(message, r);
    WellFormedParts(message);
    ApplyKeeps(c.limits, t, claim);
    ExecutesNoReceipt(c, Apply(c.limits, t, claim), message, ingress, provided, r);
  }

  lemma ExecutesNoReceipt(c: Config, t: Tables, message: Message, ingress: int, provided: Option<string>, r: Readings)
    requires ValidConfig(c) && Consistent(c.limits, t) && Callsign(message.sender) && message.messageId.Some?
    requires |r.sentAt| >= 99 && r.accepted > 0
    ensures NoReceipt(Execute(c, t, message, ingress, provided, r).steps)
  {
    hide ValidConfig, Consistent, Callsign, QueueAndSend, SplitReplySpec, ReadRequest, Respond, Run;
    var request := ReadRequest(message.body);
    var answer, steps := Respond(request, provided), HandlingSteps(message, request, r);
    if SplitReplySpec(answer).Ok? {
      AtMost99(answer);
      QueuesNoReceipt(c, Run(c.limits, t, steps), message.sender, SplitReplySpec(answer).value, ingress, r);
    }
  }

  lemma QueuesNoReceipt(c: Config, t: Tables, peer: string, bodies: seq<string>, ingress: int, r: Readings)
    requires ValidConfig(c) && Consistent(c.limits, t) && Callsign(peer) && |bodies| <= 99 <= |r.sentAt| && r.accepted > 0
    ensures NoReceipt(QueueAndSend(c, t, peer, bodies, ingress, r).steps)
  {
    hide ValidConfig, Consistent, Callsign, QueueBatch, ReplyFrames, Taken, Ids;
  }

  /** A message without an ID is never answered; it records the receipt that its text is, if it is one. */
  lemma ReceiptOnAir(c: Config, t: Tables, air: Air, wire: string, ingress: int, granted: bool, provided: Option<string>,
                     r: Readings)
    requires ValidConfig(c) && Consistent(c.limits, t) && |r.sentAt| >= 99
    requires Reaches(c, air, ingress) && Sendable(wire)
    requires forall body, id, replyAck :: !Ends(wire, body, id, replyAck)
    ensures var o := Process(c, t, Carried(air, c.callsign, wire), ingress, granted, provided, r);
      && o.sends == [] && !o.raised && o.call == None
      && (forall d, id :: o.steps == [ReceiptSeen(air.sender, Receipt(d, id), r.receiptAt)] <==>
            && MessageId(id) && |wire| == 3 + |id| && wire[3..] == id
            && SameLetters(wire[..3], if d == Acked then "ack" else "rej"))
      && (o.steps == [] || exists d, id :: o.steps == [ReceiptSeen(air.sender, Receipt(d, id), r.receiptAt)])
  {
    HeardExactly(c, air, c.callsign, wire, ingress);
    ReadTextExact(air.sender, c.callsign, wire);
    var raw := Carried(air, c.callsign, wire);
    var m := Accept(c, raw, ingress).value;
    hide Callsign, Carried, Accept, ReadText, Ends, Sendable, SameLetters, ValidConfig, Consistent, ParseReceipt, MessageId;
    var steps := ReceiptSteps(m, r);
    assert steps == if ParseReceipt(wire).Some? then [ReceiptSeen(air.sender, ParseReceipt(wire).value, r.receiptAt)] else [];
    forall d, id ensures
        steps == [ReceiptSeen(air.sender, Receipt(d, id), r.receiptAt)] <==>
            && MessageId(id) && |wire| == 3 + |id| && wire[3..] == id
            && SameLetters(wire[..3], if d == Acked then "ack" else "rej") {
      ReceiptExact(wire, d, id);
    }
    if steps != [] {
      var receipt := ParseReceipt(wire).value;
      assert steps == [ReceiptSeen(air.sender, Receipt(receipt.disposition, receipt.messageId), r.receiptAt)];
    }
  }

  // ---- What a request asks for ----

  /** The first word says MSG, in letters of any case. */
  predicate ForMailbox(words: seq<string>) { words != [] && SameLetters(words[0], "msg") }

  /** The other words make a text that the mailbox takes. */
  predicate Storable(words: seq<string>) {
    |words| >= 2 && |Join(words[1..])| <= 63 && Printable(Join(words[1..]))
  }

  predicate Capitals(text: string, capitals: string) { SameLetters(text, capitals) && HasNoLower(capitals) }

  /** The command that the status provider is given: the words in capitals, S and H alone in full. */
  predicate CommandOf(words: seq<string>, command: string) {
    if |words| == 1 && SameLetters(words[0], "s") then command == "STATUS"
    else if |words| == 1 && SameLetters(words[0], "h") then command == "HELP"
    else Capitals(Join(words), command)
  }

  /** The text that the claim remembers: the words as they are for the mailbox, in capitals otherwise. */
  predicate ClaimText(words: seq<string>, text: string) {
    if ForMailbox(words) then text == Join(words) else Capitals(Join(words), text)
  }

  function MailOf(words: seq<string>): Option<string> {
    if ForMailbox(words) && |words| >= 2 then Some(Join(words[1..])) else None
  }

  lemma WordHasNoBlank(w: string)
    requires Word(w)
    ensures ' ' !in w && Find(w, ' ') == |w|
  {
    assert ' ' !in w;
    assert w[..|w|] == w;
    FindIs(w, ' ', |w|);
  }

  lemma JoinedAt(words: seq<string>)
    requires |words| >= 2 && forall w :: w in words ==> Word(w)
    ensures var s, n := Join(words), |words[0]|;
      && n < |s| && s[..n] == words[0] && s[n] == ' ' && s[n + 1..] == Join(words[1..]) && Find(s, ' ') == n
      && Strip(s[n + 1..]) != ""
  {
    var s, n := Join(words), |words[0]|;
    assert words[0] in words;
    WordHasNoBlank(words[0]);
    assert s[..n] == words[0] && s[n] == ' ' && s[n + 1..] == Join(words[1..]);
    FindIs(s, ' ', n);
    JoinTidy(words[1..]);
    StripTidy(Join(words[1..]));
  }

  /** A text with a blank in it is none of the one-word commands. */
  lemma BlankIsNoCommand(s: string, k: nat)
    requires k < |s| && s[k] == ' '
    ensures !SameLetters(s, "s") && !SameLetters(s, "h") && !SameLetters(s, "msg")
  {
    assert !SameLetter(' ', 's') && !SameLetter(' ', 'h') && !SameLetter(' ', 'm') && !SameLetter(' ', 'g');
  }

  lemma WordsRead(s: string)
    ensures Upper(s) == "S" <==> SameLetters(s, "s")
    ensures Upper(s) == "H" <==> SameLetters(s, "h")
    ensures Upper(s) == "MSG" <==> SameLetters(s, "msg")
    ensures Capitals(s, Upper(s))
  {
    UpperReads(s, "s", "S");
    UpperReads(s, "h", "H");
    UpperReads(s, "msg", "MSG");
    UpperExact(s, Upper(s));
  }

  /** How a body is read as a request, by its words. */
  lemma RequestExact(body: string, words: seq<string>)
    requires Spells(body, words)
    ensures var q := ReadRequest(body);
      && (q.command == "MSG" <==> ForMailbox(words))
      && q.mailboxText == MailOf(words) && ClaimText(words, q.claimBody)
      && (!ForMailbox(words) ==> CommandOf(words, q.command))
  {
    SqueezeSpelled(body, words);
    var s := Join(words);
    WordsRead(s);
    if |words| >= 2 {
      JoinedAt(words);
      WordsRead(words[0]);
      BlankIsNoCommand(s, |words[0]|);
    } else if |words| == 1 {
      assert words[0] in words;
      WordHasNoBlank(s);
    } else {
      assert s == "";
    }
    hide Squeeze, Upper, Find, Strip, SameLetters, HasNoLower, Join, Spells;
  }

  lemma MailTextExact(words: seq<string>)
    requires (forall w :: w in words ==> Word(w)) && MailOf(words).Some?
    ensures MailText(MailOf(words).value) == if Storable(words) then MailOf(words) else None
  {
    var rest := words[1..];
    assert forall w :: w in rest ==> w in words;
    WordsOfJoin(rest);
    JoinTidy(rest);
    hide Words, Join, Printable;
  }

  /** What the request is answered with; `provided` is the provider's answer, None if it failed. */
  predicate Answers(words: seq<string>, provided: Option<string>, answer: string) {
    if ForMailbox(words) then answer == if Storable(words) then "MESSAGE STORED" else "MSG FORMAT: MSG <TEXT>"
    else answer == if provided.Some? then provided.value else "PCS STATUS UNAVAILABLE"
  }

  lemma RespondExact(body: string, words: seq<string>, provided: Option<string>)
    requires Spells(body, words)
    ensures Answers(words, provided, Respond(ReadRequest(body), provided))
  {
    RequestExact(body, words);
    SqueezeSpelled(body, words);
    if MailOf(words).Some? {
      MailTextExact(words);
    }
    hide ReadRequest, Spells, Squeeze, Join, MailText, SameLetters, Word;
  }

  // ---- Whom the limiter lets through ----

  /**
   The limiter is asked exactly for a numbered message whose acknowledgement went out, and grants it exactly when in the
   last sixty seconds fewer messages than both limits were granted.
   */
  lemma GrantedExactly(c: Config, history: seq<RateLimiter.Grant>, raw: Bytes, ingress: int, r: Readings)
    ensures Granted(c, history, raw, ingress, r) <==>
      && r.accepted >= 1 && Accept(c, raw, ingress).Some? && Accept(c, raw, ingress).value.messageId.Some?
      && |RateLimiter.Recent(history, r.mono)| < c.globalLimit
      && |RateLimiter.RecentBy(history, Accept(c, raw, ingress).value.sender, r.mono)| < c.perSender
    ensures GrantsAfter(c, history, raw, ingress, r)
         == if Granted(c, history, raw, ingress, r)
            then history + [RateLimiter.Grant(Accept(c, raw, ingress).value.sender, r.mono)] else history
  {
    hide Accept, RateLimiter.Allows, RateLimiter.Recent, RateLimiter.RecentBy;
    if Asked(c, raw, ingress, r).Some? {
      RateLimiter.AllowsExactly(c.perSender, c.globalLimit, history, Accept(c, raw, ingress).value.sender, r.mono);
    }
  }

  // ---- The frames of an answer ----

  /** Read by its addressee, the frame is the message of this station with that ID and body. */
  predicate Delivers(c: Config, sent: Transmission, channel: int, peer: string, id: string, body: string) {
    && sent.channel == channel && DecodeUiSpec(sent.frame).Ok?
    && DecodeUiSpec(sent.frame).value.source == c.callsign
    && ParseMessage(DecodeUiSpec(sent.frame).value) == Some(Message(c.callsign, peer, body, Some(id), None))
  }

  lemma ReplyFrameDelivers(c: Config, id: string, row: Row)
    requires ValidConfig(c) && Deliverable(id, row)
    ensures Delivers(c, Transmission(row.channel, ReplyFrame(c, id, row)), row.channel, row.recipient, id, row.body)
  {
    hide Callsign, DecodeUiSpec, EncodeUi, ParseMessage, ReplyInformation, NormalizeReplyBody, Upper, Strip;
    ReplyFits(row.recipient, row.body, id);
    var information := ReplyInformation(row.recipient, row.body, id).value;
    StationEncodes(c, information);
    CallsignCanonical(c.callsign);
    ReplyRoundTrip(Frame(c.tocall, c.callsign, information), row.recipient, row.body, id);
  }

  /** A body that normalising leaves as it is, if it accepts it at all. */
  predicate Fits(body: string) { Tidy(body) && |body| <= MAXIMUM_BODY }

  lemma FittingKept(body: string, id: string)
    requires Fits(body) && |id| == 4 && NormalizeReplyBody(body, id).Ok?
    ensures NormalizeReplyBody(body, id) == Ok(body)
  {
    NormalizeExact(body, id);
    SqueezeTidy(body);
    hide Squeeze, NormalizeReplyBody, Tidy;
    NormalizesUnchanged(body, id);
  }

  lemma SplitFits(body: string)
    requires SplitReplySpec(body).Ok?
    ensures 1 <= |SplitReplySpec(body).value| <= 99
    ensures forall i :: 0 <= i < |SplitReplySpec(body).value| ==> Fits(SplitReplySpec(body).value[i])
  {
    AtMost99(body);
    SqueezeIsTidy(body);
    if |Squeeze(body)| > MAXIMUM_BODY {
      FragmentsFaithful(body);
      hide Squeeze, Tidy, SplitReplySpec, Headed, Pieces, Payload;
    }
  }

  /** The messages of a queued batch are unsent rows with just these bodies. */
  lemma QueuedRows(l: Limits, t: Tables, peer: string, bodies: seq<string>, channel: int, at: real)
    requires Consistent(l, t) && Callsign(peer) && forall i :: 0 <= i < |bodies| ==> Fits(bodies[i])
    requires QueueBatch(t, peer, bodies, l.maximumPending, channel, at).Ok?
    ensures var (t', queued) := QueueBatch(t, peer, bodies, l.maximumPending, channel, at).value;
      var ids := Ids(queued);
      && |ids| == |bodies| && Deliverables(t'.outbound, ids)
      && forall i :: 0 <= i < |ids| ==>
           && t'.outbound[ids[i]].recipient == peer && t'.outbound[ids[i]].body == bodies[i]
           && t'.outbound[ids[i]].channel == channel
  {
    QueuedDeliverable(l, t, peer, bodies, channel, at);
    var (t', queued) := QueueBatch(t, peer, bodies, l.maximumPending, channel, at).value;
    assert InsertAll(t, peer, bodies, channel, at) == Ok((t', queued));
    InsertAllExact(t, peer, bodies, channel, at);
    CallsignCanonical(peer);
    hide Consistent, Callsign, QueueBatch, InsertAll, Deliverable, NormalizeReplyBody, Fits, Upper;
    forall i | 0 <= i < |bodies|
      ensures t'.outbound[Ids(queued)[i]].recipient == peer && t'.outbound[Ids(queued)[i]].body == bodies[i]
      ensures t'.outbound[Ids(queued)[i]].channel == channel
    {
      assert Queues(t'.outbound, queued[i], peer, bodies[i], channel, at);
      FittingKept(bodies[i], queued[i].messageId);
    }
  }

  /**
   The bodies are queued in one transaction. If the store refuses them nothing is sent; otherwise they are sent in
   order as far as the TNC takes frames, each in a frame of its own that is recorded as the send of its message. Only an
   ID in use and a frame that is not taken raise.
   */
  predicate Replied(c: Config, t: Tables, peer: string, bodies: seq<string>, ingress: int, r: Readings,
                    steps: seq<Step>, sends: seq<Transmission>, raised: bool)
    requires |bodies| <= |r.sentAt|
  {
    && steps != [] && steps[0] == Queued(peer, bodies, ingress, r.queueAt) && |steps| == 1 + |sends|
    && var queue, room := QueueBatch(t, peer, bodies, c.limits.maximumPending, ingress, r.queueAt), r.accepted - 1;
    && |sends| == (if queue.Err? then 0 else if room < |bodies| then room else |bodies|)
    && raised == (if queue.Err? then queue.error == IdTaken else room < |bodies|)
    && var recorded := steps[1..];
    && forall i :: 0 <= i < |sends| ==>
         && recorded[i].Sent? && recorded[i].at == r.sentAt[i]
         && Delivers(c, sends[i], ingress, peer, recorded[i].messageId, bodies[i])
  }

  lemma FrameDelivers(c: Config, rows: map<string, Row>, ids: seq<string>, i: nat, peer: string, channel: int, body: string)
    requires ValidConfig(c) && Deliverables(rows, ids) && i < |ids|
    requires rows[ids[i]].recipient == peer && rows[ids[i]].body == body && rows[ids[i]].channel == channel
    ensures Delivers(c, ReplyFrames(c, rows, ids)[i], channel, peer, ids[i], body)
  {
    hide ValidConfig, Delivers, Deliverable, ReplyFrame;
    FrameAt(c, rows, ids, i);
    ReplyFrameDelivers(c, ids[i], rows[ids[i]]);
  }

  lemma TakenDeliver(c: Config, t: Tables, peer: string, bodies: seq<string>, ingress: int, r: Readings)
    requires ValidConfig(c) && Consistent(c.limits, t) && Callsign(peer) && |bodies| <= 99 <= |r.sentAt| && r.accepted > 0
    requires forall i :: 0 <= i < |bodies| ==> Fits(bodies[i])
    requires QueueBatch(t, peer, bodies, c.limits.maximumPending, ingress, r.queueAt).Ok?
    ensures var (t', queued) := QueueBatch(t, peer, bodies, c.limits.maximumPending, ingress, r.queueAt).value;
      var taken := Taken(Ids(queued), r.accepted - 1);
      && |Ids(queued)| == |bodies| && Deliverables(t'.outbound, taken)
      && forall i :: 0 <= i < |taken| ==>
           Delivers(c, ReplyFrames(c, t'.outbound, taken)[i], ingress, peer, taken[i], bodies[i])
  {
    QueuedRows(c.limits, t, peer, bodies, ingress, r.queueAt);
    var (t', queued) := QueueBatch(t, peer, bodies, c.limits.maximumPending, ingress, r.queueAt).value;
    var taken := Taken(Ids(queued), r.accepted - 1);
    assert Deliverables(t'.outbound, taken) by { hide Deliverable; }
    hide *;
    forall i | 0 <= i < |taken|
      ensures Delivers(c, ReplyFrames(c, t'.outbound, taken)[i], ingress, peer, taken[i], bodies[i])
    {
      FrameDelivers(c, t'.outbound, taken, i, peer, ingress, bodies[i]);
    }
  }

  lemma QueueReplies(c: Config, t: Tables, peer: string, bodies: seq<string>, ingress: int, r: Readings)
    requires ValidConfig(c) && Consistent(c.limits, t) && Callsign(peer) && |bodies| <= 99 <= |r.sentAt| && r.accepted > 0
    requires forall i :: 0 <= i < |bodies| ==> Fits(bodies[i])
    ensures var o := QueueAndSend(c, t, peer, bodies, ingress, r);
      Replied(c, t, peer, bodies, ingress, r, o.steps, o.sends, o.raised)
  {
    hide ValidConfig, Consistent, Callsign, QueueBatch, Delivers, Deliverables, Fits, Ids, SentSteps, ReplyFrames;
    if QueueBatch(t, peer, bodies, c.limits.maximumPending, ingress, r.queueAt).Ok? {
      QueuedParts(c, t, peer, bodies, ingress, r);
      TakenDeliver(c, t, peer, bodies, ingress, r);
      var (t', queued) := QueueBatch(t, peer, bodies, c.limits.maximumPending, ingress, r.queueAt).value;
      var taken := Taken(Ids(queued), r.accepted - 1);
      var o := QueueAndSend(c, t, peer, bodies, ingress, r);
      assert o.steps[1..] == SentSteps(taken, r.sentAt);
      hide QueueAndSend, Taken;
    }
  }

  // ---- A numbered message from its arrival to its answer ----

  /** No unexpired claim of this ID by this sender stands in the store. */
  predicate Fresh(c: Config, t: Tables, sender: string, id: string, at: real) {
    (sender, id) !in t.received || t.received[(sender, id)].at < at - c.limits.ttl
  }

  lemma ReceiptsKeepClaims(l: Limits, t: Tables, steps: seq<Step>)
    requires Consistent(l, t) && |steps| <= 1 && forall i :: 0 <= i < |steps| ==> steps[i].ReceiptSeen?
    ensures FromFrames(steps) && Run(l, t, steps).received == t.received
  {
    hide Consistent;
    RunNone(l, t);
    if |steps| == 1 {
      RunOne(l, t, steps[0]);
      assert steps == [steps[0]];
    }
  }

  lemma NewExactly(c: Config, t: Tables, sender: string, id: string, body: string, at: real)
    ensures Claim(t, c.limits.ttl, sender, id, body, at).1 == New <==> Fresh(c, t, sender, id, at)
  {
  }

  function MailSteps(sender: string, id: string, words: seq<string>, at: real): (steps: seq<Step>)
    ensures |steps| == if MailOf(words).Some? then 1 else 0
    ensures MailOf(words).Some? ==> steps[0] == Mailed(Mail(sender, id, MailOf(words).value, at))
  {
    if MailOf(words).Some? then [Mailed(Mail(sender, id, MailOf(words).value, at))] else []
  }

  /** What an executed request does: it stores a mailbox text, purges, and replies with its answer. */
  predicate Executed(c: Config, t: Tables, sender: string, id: string, words: seq<string>, answer: string, ingress: int,
                     r: Readings, o: Outcome)
    requires Consistent(c.limits, t) && |r.sentAt| >= 99
  {
    var first := MailSteps(sender, id, words, r.mailAt) + [Purged(r.purgeAt)];
    && first <= o.steps
    && (o.call.None? <==> ForMailbox(words))
    && (o.call.Some? ==> o.call.value.after == 0 && CommandOf(words, o.call.value.command))
    && match SplitReplySpec(answer)
       case Err(_) => o.steps == first && o.sends == [] && !o.raised
       case Ok(bodies) =>
         && |bodies| <= 99
         && Replied(c, Run(c.limits, t, first), sender, bodies, ingress, r, o.steps[|first|..], o.sends, o.raised)
  }

  lemma ExecuteAnswers(c: Config, t: Tables, message: Message, words: seq<string>, ingress: int, provided: Option<string>,
                       r: Readings) returns (answer: string)
    requires ValidConfig(c) && Consistent(c.limits, t) && WellFormed(message) && message.messageId.Some?
    requires |r.sentAt| >= 99 && r.accepted > 0 && Spells(message.body, words)
    ensures Answers(words, provided, answer)
    ensures Executed(c, t, message.sender, message.messageId.value, words, answer, ingress, r,
                     Execute(c, t, message, ingress, provided, r))
  {
    var request := ReadRequest(message.body);
    answer := Respond(request, provided);
    RequestExact(message.body, words);
    RespondExact(message.body, words, provided);
    WellFormedParts(message);
    var first := MailSteps(message.sender, message.messageId.value, words, r.mailAt) + [Purged(r.purgeAt)];
    assert first == HandlingSteps(message, request, r);
    assert CallFor(message) == if ForMailbox(words) then None else Some(Call(request.command, 0));
    hide *;
    ExecutedBy(c, t, message, words, first, answer, ingress, provided, r);
  }

  lemma ExecutedBy(c: Config, t: Tables, message: Message, words: seq<string>, first: seq<Step>, answer: string, ingress: int,
                   provided: Option<string>, r: Readings)
    requires ValidConfig(c) && Consistent(c.limits, t) && Callsign(message.sender) && message.messageId.Some?
    requires |r.sentAt| >= 99 && r.accepted > 0
    requires var request := ReadRequest(message.body);
      && answer == Respond(request, provided) && first == HandlingSteps(message, request, r)
      && (!ForMailbox(words) ==> CommandOf(words, request.command))
      && CallFor(message) == if ForMailbox(words) then None else Some(Call(request.command, 0))
    requires first == MailSteps(message.sender, message.messageId.value, words, r.mailAt) + [Purged(r.purgeAt)]
    ensures Executed(c, t, message.sender, message.messageId.value, words, answer, ingress, r,
                     Execute(c, t, message, ingress, provided, r))
  {
    hide ValidConfig, Consistent, ReadRequest, Respond, MailSteps, CommandOf, ForMailbox, CallFor, Run;
    hide SplitReplySpec, QueueAndSend, Replied, Callsign, HandlingSteps, Fits;
    if SplitReplySpec(answer).Ok? {
      SplitFits(answer);
      AtMost99(answer);
      var o := QueueAndSend(c, Run(c.limits, t, first), message.sender, SplitReplySpec(answer).value, ingress, r);
      QueueReplies(c, Run(c.limits, t, first), message.sender, SplitReplySpec(answer).value, ingress, r);
      assert (first + o.steps)[|first|..] == o.steps;
    }
  }

  lemma HandleAnswers(c: Config, t: Tables, message: Message, words: seq<string>, ingress: int, provided: Option<string>,
                      r: Readings) returns (claimed: string, answer: string, x: Outcome)
    requires ValidConfig(c) && Consistent(c.limits, t) && WellFormed(message) && message.messageId.Some?
    requires |r.sentAt| >= 99 && r.accepted > 0 && Spells(message.body, words)
    ensures ClaimText(words, claimed) && Answers(words, provided, answer)
    ensures var id, o := message.messageId.value, Handle(c, t, message, ingress, provided, r);
      var claim := Claimed(message.sender, id, claimed, r.claimAt);
      && (!Fresh(c, t, message.sender, id, r.claimAt) ==> o == Outcome([claim], [], false, None))
      && (Fresh(c, t, message.sender, id, r.claimAt) ==>
            && Consistent(c.limits, Apply(c.limits, t, claim))
            && Executed(c, Apply(c.limits, t, claim), message.sender, id, words, answer, ingress, r, x)
            && o == Outcome([claim] + x.steps, x.sends, x.raised, Later(x.call, 1)))
  {
    RequestExact(message.body, words);
    var claim := ClaimStep(message, r);
    claimed := claim.body;
    NewExactly(c, t, claim.sender, claim.id, claim.body, claim.at);
    ApplyKeeps(c.limits, t, claim);
    hide ValidConfig, Consistent, WellFormed, Spells, ClaimText, Answers, Executed, Execute, ReadRequest, Claim, Apply, Fresh;
    answer := ExecuteAnswers(c, Apply(c.limits, t, claim), message, words, ingress, provided, r);
    x := Execute(c, Apply(c.limits, t, claim), message, ingress, provided, r);
  }

  /**
   Everything a numbered message causes, by its words. It is acknowledged first. Without the limiter's consent that is
   all. With it the message is claimed; if an unexpired claim of its ID stands, that is all. Otherwise the request is
   executed and answered: the provider's answer, or one of four fixed texts, goes to the sender in frames that it reads
   back as the fragments of just that answer.
   */
  lemma MessageHandled(c: Config, t: Tables, raw: Bytes, ingress: int, granted: bool, provided: Option<string>,
                       r: Readings, words: seq<string>) returns (claimed: string, answer: string, x: Outcome)
    requires ValidConfig(c) && Consistent(c.limits, t) && |r.sentAt| >= 99 && r.accepted > 0
    requires Accept(c, raw, ingress).Some? && Accept(c, raw, ingress).value.messageId.Some?
    requires Spells(Accept(c, raw, ingress).value.body, words)
    ensures ClaimText(words, claimed) && Answers(words, provided, answer)
    ensures var m, o := Accept(c, raw, ingress).value, Process(c, t, raw, ingress, granted, provided, r);
      var peer, id := m.sender, m.messageId.value;
      var receipts := ReplyAckSteps(peer, m.replyAckId, r.replyAckAt);
      var claim := receipts + [Claimed(peer, id, claimed, r.claimAt)];
      && o.sends != [] && o.sends[0].channel == ingress && IsAckFor(c, o.sends[0].frame, peer, id)
      && FromFrames(claim)
      && (!granted ==> o == Outcome(receipts, [o.sends[0]], false, None))
      && (granted && !Fresh(c, t, peer, id, r.claimAt) ==> o == Outcome(claim, [o.sends[0]], false, None))
      && (granted && Fresh(c, t, peer, id, r.claimAt) ==>
            && Executed(c, Run(c.limits, t, claim), peer, id, words, answer, ingress, r, x)
            && o == Outcome(claim + x.steps, [o.sends[0]] + x.sends, x.raised, Later(x.call, |claim|)))
  {
    AcceptedSender(c, raw, ingress);
    var m := Accept(c, raw, ingress).value;
    var peer, id := m.sender, m.messageId.value;
    ExactlyOneAck(c, t, raw, ingress, granted, provided, r, peer, id);
    assert Process(c, t, raw, ingress, granted, provided, r) == ProcessNumbered(c, t, m, ingress, granted, provided, r);
    NumberedReceipts(m, r);
    hide Process, Accept, ValidConfig, Consistent, WellFormed, Spells, ClaimText, Answers, Executed, IsAckFor, AckCount, Fresh;
    claimed, answer, x := NumberedHandled(c, t, m, ingress, granted, provided, r, words);
  }

  lemma NumberedHandled(c: Config, t: Tables, m: Message, ingress: int, granted: bool, provided: Option<string>,
                        r: Readings, words: seq<string>) returns (claimed: string, answer: string, x: Outcome)
    requires ValidConfig(c) && Consistent(c.limits, t) && |r.sentAt| >= 99 && r.accepted > 0
    requires WellFormed(m) && m.messageId.Some? && Spells(m.body, words)
    ensures ClaimText(words, claimed) && Answers(words, provided, answer)
    ensures var o := ProcessNumbered(c, t, m, ingress, granted, provided, r);
      var peer, id := m.sender, m.messageId.value;
      var receipts := ReplyAckSteps(peer, m.replyAckId, r.replyAckAt);
      var claim := receipts + [Claimed(peer, id, claimed, r.claimAt)];
      && o.sends != [] && FromFrames(claim)
      && (!granted ==> o == Outcome(receipts, [o.sends[0]], false, None))
      && (granted && !Fresh(c, t, peer, id, r.claimAt) ==> o == Outcome(claim, [o.sends[0]], false, None))
      && (granted && Fresh(c, t, peer, id, r.claimAt) ==>
            && Executed(c, Run(c.limits, t, claim), peer, id, words, answer, ingress, r, x)
            && o == Outcome(claim + x.steps, [o.sends[0]] + x.sends, x.raised, Later(x.call, |claim|)))
  {
    var peer, id := m.sender, m.messageId.value;
    var receipts := ReplyAckSteps(peer, m.replyAckId, r.replyAckAt);
    NumberedReceipts(m, r);
    ReceiptsKeepClaims(c.limits, t, receipts);
    var t1 := Run(c.limits, t, receipts);
    var ack := Transmission(ingress, AckFrame(c, peer, id));
    var o := ProcessNumbered(c, t, m, ingress, granted, provided, r);
    var h := Handle(c, t1, m, ingress, provided, r);
    assert o == if granted then Following(receipts, ack, h) else Outcome(receipts, [ack], false, None);
    claimed, answer, x := HandleAnswers(c, t1, m, words, ingress, provided, r);
    var first := Claimed(peer, id, claimed, r.claimAt);
    RunAfter(c.limits, t, receipts, first);
    assert Fresh(c, t1, peer, id, r.claimAt) == Fresh(c, t, peer, id, r.claimAt);
    hide *;
    FollowingRefused(receipts, ack, first);
    FollowingClaim(receipts, ack, first, x);
  }

  /** The outcome when receipts and the acknowledgement precede it. */
  function Following(receipts: seq<Step>, ack: Transmission, o: Outcome): Outcome {
    Outcome(receipts + o.steps, [ack] + o.sends, o.raised, Later(o.call, |receipts|))
  }

  lemma FollowingRefused(receipts: seq<Step>, ack: Transmission, claim: Step)
    ensures Following(receipts, ack, Outcome([claim], [], false, None)) == Outcome(receipts + [claim], [ack], false, None)
  {
    assert [ack] + [] == [ack];
  }

  lemma FollowingClaim(receipts: seq<Step>, ack: Transmission, claim: Step, x: Outcome)
    ensures Following(receipts, ack, Outcome([claim] + x.steps, x.sends, x.raised, Later(x.call, 1)))
         == Outcome(receipts + [claim] + x.steps, [ack] + x.sends, x.raised, Later(x.call, |receipts + [claim]|))
  {
    assert receipts + ([claim] + x.steps) == receipts + [claim] + x.steps;
  }

  /** The k-th transaction offers the answer to the store, and the frames after the acknowledgement carry it. */
  predicate Offers(c: Config, t: Tables, peer: string, text: string, ingress: int, r: Readings, o: Outcome)
    requires Consistent(c.limits, t)
  {
    var k := |o.steps| - |o.sends|;
    && 0 <= k < |o.steps| && FromFrames(o.steps[..k]) && o.steps[k] == Queued(peer, [text], ingress, r.queueAt)
    && |o.sends| == (if QueueBatch(Run(c.limits, t, o.steps[..k]), peer, [text], c.limits.maximumPending, ingress, r.queueAt).Ok?
                     then 2 else 1)
    && (|o.sends| == 2 ==>
          o.steps[k + 1].Sent? && Delivers(c, o.sends[1], ingress, peer, o.steps[k + 1].messageId, text))
  }

  /**
   From the air and back: a numbered message that is new and let through is answered, in the frame after its
   acknowledgement, with the squeezed answer as soon as this fits one message and the store has room for it.
   */
  lemma ShortAnswerIsSent(c: Config, t: Tables, air: Air, body: string, id: string, replyAck: Option<string>, ingress: int,
                          provided: Option<string>, r: Readings, words: seq<string>) returns (answer: string)
    requires ValidConfig(c) && Consistent(c.limits, t) && |r.sentAt| >= 99 && r.accepted >= 2
    requires Reaches(c, air, ingress) && Ascii(body) && Identified(id, replyAck) && Spells(body, words)
    requires Fresh(c, t, air.sender, id, r.claimAt)
    ensures Sendable(body + Tail(id, replyAck)) && Answers(words, provided, answer)
    ensures |Squeeze(answer)| <= MAXIMUM_BODY ==>
      Offers(c, t, air.sender, Squeeze(answer), ingress, r,
             Process(c, t, Carried(air, c.callsign, body + Tail(id, replyAck)), ingress, true, provided, r))
  {
    NumberedHeard(c, air, body, id, replyAck, ingress);
    var raw := Carried(air, c.callsign, body + Tail(id, replyAck));
    var claimed: string, x: Outcome;
    hide Carried, Sendable, Reaches, Tail, Identified, Accept, Process, Consistent, ValidConfig, Spells, Fresh, Executed, Ascii;
    hide IsAckFor, ClaimText, Answers, Squeeze, Offers;
    claimed, answer, x := MessageHandled(c, t, raw, ingress, true, provided, r, words);
    var claim := ReplyAckSteps(air.sender, replyAck, r.replyAckAt) + [Claimed(air.sender, id, claimed, r.claimAt)];
    var o := Process(c, t, raw, ingress, true, provided, r);
    if |Squeeze(answer)| <= MAXIMUM_BODY {
      ShortOffered(c, t, claim, air.sender, id, words, answer, ingress, r, x, o);
    }
  }

  lemma ShortOffered(c: Config, t: Tables, claim: seq<Step>, peer: string, id: string, words: seq<string>, answer: string,
                     ingress: int, r: Readings, x: Outcome, o: Outcome)
    requires Consistent(c.limits, t) && |r.sentAt| >= 99 && r.accepted >= 2 && FromFrames(claim)
    requires Executed(c, Run(c.limits, t, claim), peer, id, words, answer, ingress, r, x)
    requires o.steps == claim + x.steps && o.sends != [] && o.sends[1..] == x.sends && |Squeeze(answer)| <= MAXIMUM_BODY
    ensures Offers(c, t, peer, Squeeze(answer), ingress, r, o)
  {
    var first := MailSteps(peer, id, words, r.mailAt) + [Purged(r.purgeAt)];
    var text, t1 := Squeeze(answer), Run(c.limits, t, claim);
    hide *;
    ShortExecuted(c, t1, peer, id, words, answer, ingress, r, x);
    RunSplit(c.limits, t, claim, first);
    SplitAfter(claim, first, x.steps);
    RepliedOffers(c, t, claim + first, peer, text, ingress, r, x.steps[|first|..], x.sends, x.raised, o);
  }

  lemma SplitAfter(a: seq<Step>, b: seq<Step>, all: seq<Step>)
    requires b <= all
    ensures a + all == a + b + all[|b|..]
  {
  }

  lemma ShortExecuted(c: Config, t: Tables, peer: string, id: string, words: seq<string>, answer: string, ingress: int,
                      r: Readings, x: Outcome)
    requires Consistent(c.limits, t) && |r.sentAt| >= 99 && |Squeeze(answer)| <= MAXIMUM_BODY
    requires Executed(c, t, peer, id, words, answer, ingress, r, x)
    ensures var first := MailSteps(peer, id, words, r.mailAt) + [Purged(r.purgeAt)];
      && FromFrames(first) && first <= x.steps
      && Replied(c, Run(c.limits, t, first), peer, [Squeeze(answer)], ingress, r, x.steps[|first|..], x.sends, x.raised)
  {
    hide Consistent, Run, Replied, Squeeze, MailSteps, ForMailbox, CommandOf;
    assert SplitReplySpec(answer) == Ok([Squeeze(answer)]);
  }

  lemma RepliedOffers(c: Config, t: Tables, before: seq<Step>, peer: string, text: string, ingress: int, r: Readings,
                      steps: seq<Step>, sends: seq<Transmission>, raised: bool, o: Outcome)
    requires Consistent(c.limits, t) && FromFrames(before) && |r.sentAt| >= 99 && r.accepted >= 2
    requires Replied(c, Run(c.limits, t, before), peer, [text], ingress, r, steps, sends, raised)
    requires o.steps == before + steps && o.sends != [] && o.sends[1..] == sends
    ensures Offers(c, t, peer, text, ingress, r, o)
  {
    hide Consistent, Run, QueueBatch, Delivers, FromFrames;
    var k := |before|;
    assert |o.steps| - |o.sends| == k;
    assert o.steps[..k] == before && o.steps[k..] == steps;
    if |sends| == 1 {
      var i := 0;
      assert steps[1..][i].Sent? && Delivers(c, sends[i], ingress, peer, steps[1..][i].messageId, [text][i]);
      assert o.sends[1] == sends[i] && o.steps[k + 1] == steps[1..][i];
    }
  }
}
