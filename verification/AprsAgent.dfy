/**
 The agent itself: what one received packet or one retry round does, as a list of store transactions and
 transmissions, up to the frame that the TNC does not accept, and the object that does it. The main result: a numbered
 message gets exactly one acknowledgement on its ingress channel whatever happens to it. Whole runs are in AprsRuns.
 */
module AprsAgent {
  import opened Basics
  import opened PyText
  import opened Ax25
  import opened AprsMessages
  import opened ReplySplitter
  import opened StateStore
  import opened StateRuns
  import RateLimiter

  datatype Config = Config(callsign: string, tocall: string, kissChannel: int, rfEnabled: bool, rfChannel: int,
                           perSender: nat, globalLimit: nat, limits: Limits)

  predicate ValidConfig(c: Config) {
    && Callsign(c.callsign) && CallText(c.tocall)
    && 1 <= c.kissChannel <= 15 && c.rfChannel == 0
    && 60.0 <= c.limits.ttl
  }

  function ReceiveChannels(c: Config): set<int> {
    if c.rfEnabled then {c.kissChannel, c.rfChannel} else {c.kissChannel}
  }

  datatype Transmission = Transmission(channel: int, frame: Bytes)

  /**
   What one call meets: the clock readings it may take, in the order of the operations that take them, and how many
   frames the TNC accepts from it before a send raises.
   */
  datatype Readings = Readings(mono: real, replyAckAt: real, receiptAt: real, claimAt: real, mailAt: real,
                               purgeAt: real, queueAt: real, sentAt: seq<real>, accepted: nat)

  /** A command given to the status provider after that many transactions of the packet. */
  datatype Call = Call(command: string, after: nat)

  datatype Outcome = Outcome(steps: seq<Step>, sends: seq<Transmission>, raised: bool, call: Option<Call>)

  // ---- Receiving ----

  /** The message in a frame that is addressed to this station by another one, on a configured channel. */
  function Accept(c: Config, raw: Bytes, ingress: int): Option<Message> {
    if ingress !in ReceiveChannels(c) then None
    else
      match DecodeUiSpec(raw)
      case Err(_) => None
      case Ok(outer) =>
        match Unwrap(outer)
        case Err(_) => None
        case Ok(frame) =>
          match ParseMessage(frame)
          case None => None
          case Some(message) =>
            if message.addressee != c.callsign || message.sender == c.callsign then None else Some(message)
  }

  lemma AcceptedSender(c: Config, raw: Bytes, ingress: int)
    requires Accept(c, raw, ingress).Some?
    ensures WellFormed(Accept(c, raw, ingress).value)
  {
    hide Callsign, DecodeUiSpec, Unwrap, ParseMessage;
    DecodedFrameNamesCallsigns(raw);
    var outer := DecodeUiSpec(raw).value;
    UnwrappedNamesCallsigns(outer);
    var frame := Unwrap(outer).value;
    ParsedIds(frame);
    CallsignCanonical(frame.source);
  }

  /**
   A numbered message that another station addresses to this one is accepted as just that message, through any path
   of up to eight further addresses.
   */
  lemma AddressedMessageIsAccepted(c: Config, sender: string, destination: string, hops: seq<Bytes>, body: string, id: string,
                                   ingress: int)
    requires ValidConfig(c) && ingress in ReceiveChannels(c) && Callsign(sender) && sender != c.callsign
    requires EncodeAddress(destination, false).Ok? && EncodeAddress(sender, hops == []).Ok? && Path(hops) && |hops| <= 8
    requires MessageId(id) && NormalizeReplyBody(body, id).Ok?
    ensures ReplyInformation(c.callsign, body, id).Ok?
    ensures Accept(c, Routed(sender, destination, hops, ReplyInformation(c.callsign, body, id).value), ingress)
         == Some(Message(sender, c.callsign, NormalizeReplyBody(body, id).value, Some(id), None))
  {
    hide Callsign, Path, EncodeAddress, NormalizeReplyBody, DecodeUiSpec, Unwrap, ParseMessage, Routed, MessageId;
    ReplyFits(c.callsign, body, id);
    var information := ReplyInformation(c.callsign, body, id).value;
    RoutedDecodes(sender, destination, hops, information);
    CallsignCanonical(sender);
    var frame := Frame(Upper(Strip(destination)), sender, information);
    StartsWithColon(c.callsign, body, id);
    hide ReplyInformation;
    NotWrapped(frame);
    ReplyRoundTrip(frame, c.callsign, body, id);
  }

  lemma StartsWithColon(recipient: string, body: string, id: string)
    requires ReplyInformation(recipient, body, id).Ok?
    ensures var r := ReplyInformation(recipient, body, id).value; |r| > 0 && r[0] == ':' as int
  {
    hide NormalizeReplyBody, MessageId, SplitCallsign;
  }

  lemma NotWrapped(frame: Frame)
    requires |frame.information| > 0 && frame.information[0] == ':' as int
    ensures Unwrap(frame) == Ok(frame)
  {
  }

  // ---- Commands ----

  datatype Request = Request(command: string, mailboxText: Option<string>, claimBody: string)

  /** How a message body is read as a command. */
  function ReadRequest(body: string): Request {
    var normalized := Squeeze(body);
    var upperBody := Upper(normalized);
    var k := Find(normalized, ' ');
    var separated := k < |normalized|;
    if separated && Upper(normalized[..k]) == "MSG" then
      Request("MSG", if Strip(normalized[k + 1..]) != "" then Some(normalized[k + 1..]) else None, normalized)
    else if upperBody == "S" then Request("STATUS", None, upperBody)
    else if upperBody == "H" then Request("HELP", None, upperBody)
    else if upperBody == "MSG" then Request("MSG", None, normalized)
    else Request(upperBody, None, upperBody)
  }

  /** The reply to a request; `provided` is what the status provider returned, None if it failed. */
  function Respond(request: Request, provided: Option<string>): string {
    if request.command == "MSG" then
      if request.mailboxText.Some? && MailText(request.mailboxText.value).Some? then "MESSAGE STORED"
      else "MSG FORMAT: MSG <TEXT>"
    else if provided.Some? then provided.value
    else "PCS STATUS UNAVAILABLE"
  }

  // ---- Transmissions ----

  function AckFrame(c: Config, recipient: string, id: string): Bytes
    requires ValidConfig(c) && Callsign(recipient) && MessageId(id)
  {
    AckAlwaysEncodes(recipient, id);
    StationEncodes(c, AckInformation(recipient, id).value);
    EncodeUi(c.callsign, c.tocall, AckInformation(recipient, id).value).value
  }

  lemma StationEncodes(c: Config, information: Bytes)
    requires ValidConfig(c) && |information| <= 256
    ensures EncodeUi(c.callsign, c.tocall, information).Ok?
    ensures DecodeUiSpec(EncodeUi(c.callsign, c.tocall, information).value) == Ok(Frame(c.tocall, c.callsign, information))
  {
    hide Callsign, MatchCallsign, Upper, Strip, DecodeUiSpec;
    CallsignCanonical(c.callsign);
    TocallCanonical(c.tocall);
    UiRoundTrip(c.callsign, c.tocall, information);
  }

  lemma TocallCanonical(tocall: string)
    requires CallText(tocall)
    ensures Callsign(tocall) && Upper(tocall) == tocall && Strip(tocall) == tocall
    ensures MatchCallsign(Upper(Strip(tocall))).Some?
  {
    FormatMatches(tocall, 0);
    hide MatchCallsign;
    CallsignCanonical(tocall);
  }

  predicate Distinct(ids: seq<string>) {
    forall i, j :: 0 <= i < j < |ids| ==> ids[i] != ids[j]
  }

  predicate Deliverables(rows: map<string, Row>, ids: seq<string>) {
    forall i :: 0 <= i < |ids| ==> ids[i] in rows && Deliverable(ids[i], rows[ids[i]])
  }

  function ReplyFrame(c: Config, id: string, row: Row): Bytes
    requires ValidConfig(c) && Deliverable(id, row)
  {
    ReplyFits(row.recipient, row.body, id);
    StationEncodes(c, ReplyInformation(row.recipient, row.body, id).value);
    EncodeUi(c.callsign, c.tocall, ReplyInformation(row.recipient, row.body, id).value).value
  }

  function ReplyFrames(c: Config, rows: map<string, Row>, ids: seq<string>): (r: seq<Transmission>)
    requires ValidConfig(c) && Deliverables(rows, ids)
    ensures |r| == |ids|
    ensures forall i :: 0 <= i < |ids| ==> r[i] == Transmission(rows[ids[i]].channel, ReplyFrame(c, ids[i], rows[ids[i]]))
  {
    if ids == [] then []
    else [Transmission(rows[ids[0]].channel, ReplyFrame(c, ids[0], rows[ids[0]]))] + ReplyFrames(c, rows, ids[1..])
  }

  // ---- What the other station reads ----

  /** Read by its addressee, the frame is a receipt that acknowledges `id`. */
  predicate IsAckFor(c: Config, frame: Bytes, peer: string, id: string) {
    && DecodeUiSpec(frame).Ok?
    && DecodeUiSpec(frame).value.source == c.callsign
    && var message := ParseMessage(DecodeUiSpec(frame).value);
    && message.Some? && message.value.addressee == peer && message.value.messageId == None
    && ParseReceipt(message.value.body) == Some(Receipt(Acked, id))
  }

  lemma AckFrameAcks(c: Config, peer: string, id: string)
    requires ValidConfig(c) && Callsign(peer) && MessageId(id)
    ensures IsAckFor(c, AckFrame(c, peer, id), peer, id)
  {
    hide Callsign, DecodeUiSpec, EncodeUi, ParseMessage, ParseReceipt, AckInformation;
    AckAlwaysEncodes(peer, id);
    var information := AckInformation(peer, id).value;
    StationEncodes(c, information);
    AckRoundTrip(Frame(c.tocall, c.callsign, information), peer, id);
  }

  lemma ReplyFrameNoAck(c: Config, rowId: string, row: Row, peer: string, id: string)
    requires ValidConfig(c) && Deliverable(rowId, row)
    ensures !IsAckFor(c, ReplyFrame(c, rowId, row), peer, id)
  {
    hide Callsign, DecodeUiSpec, EncodeUi, ParseMessage, ParseReceipt, ReplyInformation, NormalizeReplyBody;
    ReplyFits(row.recipient, row.body, rowId);
    var information := ReplyInformation(row.recipient, row.body, rowId).value;
    StationEncodes(c, information);
    ReplyRoundTrip(Frame(c.tocall, c.callsign, information), row.recipient, row.body, rowId);
  }

  // ---- One received packet ----

  function ReceiptSteps(message: Message, r: Readings): (steps: seq<Step>)
    ensures forall i :: 0 <= i < |steps| ==> steps[i].ReceiptSeen?
  {
    (if message.replyAckId.Some? then
       [ReceiptSeen(message.sender, Receipt(Acked, message.replyAckId.value), r.replyAckAt)] else [])
    + (if message.messageId.None? && ParseReceipt(message.body).Some? then
         [ReceiptSeen(message.sender, ParseReceipt(message.body).value, r.receiptAt)] else [])
  }

  function HandlingSteps(message: Message, request: Request, r: Readings): (steps: seq<Step>)
    requires message.messageId.Some?
    ensures forall i :: 0 <= i < |steps| ==> steps[i].Mailed? || steps[i].Purged?
  {
    (if request.mailboxText.Some? then
       [Mailed(Mail(message.sender, message.messageId.value, request.mailboxText.value, r.mailAt))] else [])
    + [Purged(r.purgeAt)]
  }

  function SentSteps(ids: seq<string>, at: seq<real>): (r: seq<Step>)
    requires |ids| <= |at|
    ensures |r| == |ids|
    ensures forall i :: 0 <= i < |ids| ==> r[i] == Sent(ids[i], at[i])
  {
    if ids == [] then [] else [Sent(ids[0], at[0])] + SentSteps(ids[1..], at[1..])
  }

  function Ids(queued: seq<Outbound>): (r: seq<string>)
    ensures |r| == |queued| && forall i :: 0 <= i < |r| ==> r[i] == queued[i].messageId
  {
    if queued == [] then [] else [queued[0].messageId] + Ids(queued[1..])
  }

  /** The messages whose frames the TNC accepts. */
  function Taken(ids: seq<string>, accepted: nat): (r: seq<string>)
    ensures |r| <= |ids| && (|r| < |ids| <==> accepted < |ids|)
    ensures forall i :: 0 <= i < |r| ==> r[i] == ids[i]
  {
    if accepted < |ids| then ids[..accepted] else ids
  }

  /** Queueing a reply's fragments and sending them; any queueing error leaves nothing queued. */
  function QueueAndSend(c: Config, t: Tables, recipient: string, bodies: seq<string>, ingress: int, r: Readings): Outcome
    requires ValidConfig(c) && Consistent(c.limits, t) && Callsign(recipient) && |bodies| <= 99 <= |r.sentAt|
    requires r.accepted > 0
  {
    var queue := Queued(recipient, bodies, ingress, r.queueAt);
    match QueueBatch(t, recipient, bodies, c.limits.maximumPending, ingress, r.queueAt)
    case Err(e) => Outcome([queue], [], e == IdTaken, None)
    case Ok(result) =>
      QueuedDeliverable(c.limits, t, recipient, bodies, ingress, r.queueAt);
      var ids := Ids(result.1);
      var taken := Taken(ids, r.accepted - 1);
      Outcome([queue] + SentSteps(taken, r.sentAt), ReplyFrames(c, result.0.outbound, taken), |taken| < |ids|, None)
  }

  /** The provider is asked for every command but a mailbox text. */
  function CallFor(message: Message): Option<Call> {
    var command := ReadRequest(message.body).command;
    if command == "MSG" then None else Some(Call(command, 0))
  }

  /** The steps and transmissions after a claim was answered "new". */
  function Execute(c: Config, t: Tables, message: Message, ingress: int, provided: Option<string>, r: Readings): Outcome
    requires ValidConfig(c) && Consistent(c.limits, t) && Callsign(message.sender) && message.messageId.Some?
    requires |r.sentAt| >= 99 && r.accepted > 0
  {
    var request := ReadRequest(message.body);
    var steps := HandlingSteps(message, request, r);
    match SplitReplySpec(Respond(request, provided))
    case Err(_) => Outcome(steps, [], false, CallFor(message))
    case Ok(bodies) =>
      AtMost99(Respond(request, provided));
      var queued := QueueAndSend(c, Run(c.limits, t, steps), message.sender, bodies, ingress, r);
      Outcome(steps + queued.steps, queued.sends, queued.raised, CallFor(message))
  }

  lemma QueuedParts(c: Config, t: Tables, recipient: string, bodies: seq<string>, ingress: int, r: Readings)
    requires ValidConfig(c) && Consistent(c.limits, t) && Callsign(recipient) && |bodies| <= 99 <= |r.sentAt|
    requires r.accepted > 0 && QueueBatch(t, recipient, bodies, c.limits.maximumPending, ingress, r.queueAt).Ok?
    ensures var o := QueueAndSend(c, t, recipient, bodies, ingress, r);
      var (t', queued) := QueueBatch(t, recipient, bodies, c.limits.maximumPending, ingress, r.queueAt).value;
      var ids := Ids(queued);
      && |ids| <= |r.sentAt| && Deliverables(t'.outbound, Taken(ids, r.accepted - 1))
      && o.steps == [Queued(recipient, bodies, ingress, r.queueAt)] + SentSteps(Taken(ids, r.accepted - 1), r.sentAt)
      && o.raised == (r.accepted - 1 < |ids|) && o.call == None
      && o.sends == ReplyFrames(c, t'.outbound, Taken(ids, r.accepted - 1))
  {
    hide Consistent, ValidConfig, Callsign, QueueBatch, ReplyFrames, Deliverable, SentSteps;
    QueuedDeliverable(c.limits, t, recipient, bodies, ingress, r.queueAt);
  }

  lemma AtMost99(body: string)
    ensures SplitReplySpec(body).Ok? ==> 1 <= |SplitReplySpec(body).value| <= 99
  {
  }

  lemma QueuedDeliverable(l: Limits, t: Tables, recipient: string, bodies: seq<string>, channel: int, at: real)
    requires Consistent(l, t) && Callsign(recipient)
    requires QueueBatch(t, recipient, bodies, l.maximumPending, channel, at).Ok?
    ensures var (t', queued) := QueueBatch(t, recipient, bodies, l.maximumPending, channel, at).value;
      && |queued| == |bodies| && Deliverables(t'.outbound, Ids(queued)) && Consistent(l, t')
      && (forall i :: 0 <= i < |queued| ==>
            && t'.outbound[Ids(queued)[i]].attempts == 0 && t'.outbound[Ids(queued)[i]].channel == channel)
      && Distinct(Ids(queued))
  {
    hide Deliverable, InsertAll, RowOk, Callsign;
    QueueKeeps(l, t, recipient, bodies, channel, at);
    var (t', queued) := QueueBatch(t, recipient, bodies, l.maximumPending, channel, at).value;
    InsertAllAdds(t, recipient, bodies, channel, at);
    hide *;
    IdsOfQueued(queued, t.outbound, t'.outbound, channel);
  }

  lemma IdsOfQueued(queued: seq<Outbound>, before: map<string, Row>, after: map<string, Row>, channel: int)
    requires forall i :: 0 <= i < |queued| ==>
      Represents(after, queued[i]) && queued[i].messageId !in before && queued[i].channel == channel
    requires forall id :: id in after && id !in before ==> after[id].attempts == 0
    requires forall i, j :: 0 <= i < j < |queued| ==> queued[i].messageId != queued[j].messageId
    ensures forall i :: 0 <= i < |queued| ==>
      && Ids(queued)[i] in after && after[Ids(queued)[i]].attempts == 0 && after[Ids(queued)[i]].channel == channel
    ensures Distinct(Ids(queued))
  {
  }

  /** A message from another station that the parser accepted. */
  predicate WellFormed(message: Message) {
    Callsign(message.sender) && (message.messageId.Some? ==> MessageId(message.messageId.value))
  }

  function ClaimStep(message: Message, r: Readings): Step
    requires message.messageId.Some?
  {
    Claimed(message.sender, message.messageId.value, ReadRequest(message.body).claimBody, r.claimAt)
  }

  /** What follows the limiter's consent: the claim, and everything else if it is answered "new". */
  function Handle(c: Config, t: Tables, message: Message, ingress: int, provided: Option<string>, r: Readings): Outcome
    requires ValidConfig(c) && Consistent(c.limits, t) && WellFormed(message) && message.messageId.Some?
    requires |r.sentAt| >= 99 && r.accepted > 0
  {
    var claim := ClaimStep(message, r);
    if Claim(t, c.limits.ttl, claim.sender, claim.id, claim.body, claim.at).1 != New then
      Outcome([claim], [], false, None)
    else
      ApplyKeeps(c.limits, t, claim);
      var executed := Execute(c, Apply(c.limits, t, claim), message, ingress, provided, r);
      Outcome([claim] + executed.steps, executed.sends, executed.raised, Later(executed.call, 1))
  }

  function ProcessNumbered(c: Config, t: Tables, message: Message, ingress: int, granted: bool, provided: Option<string>,
                           r: Readings): Outcome
    requires ValidConfig(c) && Consistent(c.limits, t) && WellFormed(message) && message.messageId.Some?
    requires |r.sentAt| >= 99
  {
    var receipts := ReceiptSteps(message, r);
    var ack := Transmission(ingress, AckFrame(c, message.sender, message.messageId.value));
    if r.accepted == 0 then Outcome(receipts, [], true, None)
    else if !granted then Outcome(receipts, [ack], false, None)
    else
      var handled := Handle(c, Run(c.limits, t, receipts), message, ingress, provided, r);
      Outcome(receipts + handled.steps, [ack] + handled.sends, handled.raised, Later(handled.call, |receipts|))
  }

  function Later(call: Option<Call>, n: nat): Option<Call> {
    if call.Some? then Some(call.value.(after := call.value.after + n)) else None
  }

  /**
   Everything one received packet causes. `granted` is the limiter's answer, asked only for numbered messages whose
   acknowledgement went out.
   */
  function Process(c: Config, t: Tables, raw: Bytes, ingress: int, granted: bool, provided: Option<string>, r: Readings)
    : Outcome
    requires ValidConfig(c) && Consistent(c.limits, t) && |r.sentAt| >= 99
  {
    match Accept(c, raw, ingress)
    case None => Outcome([], [], false, None)
    case Some(message) =>
      AcceptedSender(c, raw, ingress);
      if message.messageId.None? then Outcome(ReceiptSteps(message, r), [], false, None)
      else ProcessNumbered(c, t, message, ingress, granted, provided, r)
  }

  predicate NumberedFor(c: Config, raw: Bytes, ingress: int, peer: string, id: string) {
    Accept(c, raw, ingress).Some?
    && Accept(c, raw, ingress).value.sender == peer && Accept(c, raw, ingress).value.messageId == Some(id)
  }

  function AckCount(c: Config, sends: seq<Transmission>, channel: int, peer: string, id: string): nat {
    if sends == [] then 0
    else (if sends[0].channel == channel && IsAckFor(c, sends[0].frame, peer, id) then 1 else 0)
         + AckCount(c, sends[1..], channel, peer, id)
  }

  lemma {:induction false} RepliesHoldNoAck(c: Config, rows: map<string, Row>, ids: seq<string>, channel: int, peer: string, id: string)
    requires ValidConfig(c) && Deliverables(rows, ids)
    ensures AckCount(c, ReplyFrames(c, rows, ids), channel, peer, id) == 0
  {
    hide Deliverable, IsAckFor;
    if ids != [] {
      RepliesHoldNoAck(c, rows, ids[1..], channel, peer, id);
      ReplyFrameNoAck(c, ids[0], rows[ids[0]], peer, id);
    }
  }

  lemma ExecuteHoldsNoAck(c: Config, t: Tables, message: Message, ingress: int, provided: Option<string>, r: Readings, peer: string, id: string)
    requires ValidConfig(c) && Consistent(c.limits, t) && Callsign(message.sender) && message.messageId.Some?
    requires |r.sentAt| >= 99 && r.accepted > 0
    ensures AckCount(c, Execute(c, t, message, ingress, provided, r).sends, ingress, peer, id) == 0
  {
    hide Callsign, IsAckFor, Consistent, ReadRequest, Respond, SplitReplySpec, QueueAndSend, Run;
    var request := ReadRequest(message.body);
    var steps := HandlingSteps(message, request, r);
    if SplitReplySpec(Respond(request, provided)).Ok? {
      AtMost99(Respond(request, provided));
      QueueHoldsNoAck(c, Run(c.limits, t, steps), message.sender, SplitReplySpec(Respond(request, provided)).value,
                      ingress, r, peer, id);
    }
  }

  lemma QueueHoldsNoAck(c: Config, t: Tables, recipient: string, bodies: seq<string>, ingress: int, r: Readings,
                        peer: string, id: string)
    requires ValidConfig(c) && Consistent(c.limits, t) && Callsign(recipient) && |bodies| <= 99 <= |r.sentAt|
    requires r.accepted > 0
    ensures AckCount(c, QueueAndSend(c, t, recipient, bodies, ingress, r).sends, ingress, peer, id) == 0
  {
    hide Callsign, IsAckFor, Consistent, QueueBatch;
    if QueueBatch(t, recipient, bodies, c.limits.maximumPending, ingress, r.queueAt).Ok? {
      var (t', queued) := QueueBatch(t, recipient, bodies, c.limits.maximumPending, ingress, r.queueAt).value;
      QueuedDeliverable(c.limits, t, recipient, bodies, ingress, r.queueAt);
      RepliesHoldNoAck(c, t'.outbound, Taken(Ids(queued), r.accepted - 1), ingress, peer, id);
    }
  }

  lemma HandleHoldsNoAck(c: Config, t: Tables, message: Message, ingress: int, provided: Option<string>, r: Readings, peer: string, id: string)
    requires ValidConfig(c) && Consistent(c.limits, t) && WellFormed(message) && message.messageId.Some?
    requires |r.sentAt| >= 99 && r.accepted > 0
    ensures AckCount(c, Handle(c, t, message, ingress, provided, r).sends, ingress, peer, id) == 0
  {
    hide Callsign, MessageId, IsAckFor, Consistent, ReadRequest, Execute, Claim, Apply, ValidConfig;
    var claim := ClaimStep(message, r);
    ApplyKeeps(c.limits, t, claim);
    ExecuteHoldsNoAck(c, Apply(c.limits, t, claim), message, ingress, provided, r, peer, id);
  }

  lemma NumberedAckOnce(c: Config, t: Tables, message: Message, ingress: int, granted: bool, provided: Option<string>,
                        r: Readings)
    requires ValidConfig(c) && Consistent(c.limits, t) && WellFormed(message) && message.messageId.Some?
    requires |r.sentAt| >= 99 && r.accepted > 0
    ensures var sends := ProcessNumbered(c, t, message, ingress, granted, provided, r).sends;
      && sends != [] && sends[0].channel == ingress
      && IsAckFor(c, sends[0].frame, message.sender, message.messageId.value)
      && AckCount(c, sends, ingress, message.sender, message.messageId.value) == 1
  {
    hide IsAckFor, Handle, Consistent, ReceiptSteps, AckFrame, ReadRequest, AckCount, WellFormed, MessageId, Callsign, ValidConfig, Run;
    var peer, id := message.sender, message.messageId.value;
    assert Callsign(peer) && MessageId(id) by { WellFormedParts(message); }
    AckFrameAcks(c, peer, id);
    var ack := Transmission(ingress, AckFrame(c, peer, id));
    AckHead(c, ack, [], ingress, peer, id);
    assert [ack] + [] == [ack];
    if granted {
      var t1 := Run(c.limits, t, ReceiptSteps(message, r));
      HandleHoldsNoAck(c, t1, message, ingress, provided, r, peer, id);
      AckHead(c, ack, Handle(c, t1, message, ingress, provided, r).sends, ingress, peer, id);
    }
  }

  lemma WellFormedParts(message: Message)
    requires WellFormed(message) && message.messageId.Some?
    ensures Callsign(message.sender) && MessageId(message.messageId.value)
  {
  }

  lemma AckHead(c: Config, ack: Transmission, rest: seq<Transmission>, ingress: int, peer: string, id: string)
    requires ack.channel == ingress && IsAckFor(c, ack.frame, peer, id)
    requires AckCount(c, rest, ingress, peer, id) == 0 || rest == []
    ensures AckCount(c, [ack] + rest, ingress, peer, id) == 1
  {
    hide IsAckFor;
    assert ([ack] + rest)[1..] == rest;
  }

  /**
   Each time it arrives, a numbered message gets exactly one acknowledgement, on its ingress channel,
   whether it is new, a duplicate, conflicting or rate-limited, and it is the first thing sent. When the TNC
   does not accept even that frame, nothing more than receipts has been done and the packet raises.
   */
  lemma ExactlyOneAck(c: Config, t: Tables, raw: Bytes, ingress: int, granted: bool, provided: Option<string>, r: Readings,
                      peer: string, id: string)
    requires ValidConfig(c) && Consistent(c.limits, t) && |r.sentAt| >= 99
    requires NumberedFor(c, raw, ingress, peer, id)
    ensures var o := Process(c, t, raw, ingress, granted, provided, r);
      && (r.accepted > 0 ==>
            && o.sends != [] && o.sends[0].channel == ingress && IsAckFor(c, o.sends[0].frame, peer, id)
            && AckCount(c, o.sends, ingress, peer, id) == 1)
      && (r.accepted == 0 ==>
            && o.sends == [] && o.raised && o.call == None
            && forall i :: 0 <= i < |o.steps| ==> o.steps[i].ReceiptSeen?)
  {
    hide IsAckFor, Consistent, Accept, AckCount;
    AcceptedSender(c, raw, ingress);
    if r.accepted == 0 {
      return;
    }
    hide ProcessNumbered;
    NumberedAckOnce(c, t, Accept(c, raw, ingress).value, ingress, granted, provided, r);
  }

  /** Nothing is ever sent for a packet that carries no numbered message for this station. */
  lemma SilentOtherwise(c: Config, t: Tables, raw: Bytes, ingress: int, granted: bool, provided: Option<string>, r: Readings)
    requires ValidConfig(c) && Consistent(c.limits, t) && |r.sentAt| >= 99
    ensures Process(c, t, raw, ingress, granted, provided, r).sends != [] <==>
      r.accepted > 0 && exists peer, id :: NumberedFor(c, raw, ingress, peer, id)
  {
    hide Consistent, Accept, IsAckFor, ProcessNumbered;
    if Accept(c, raw, ingress).Some? && Accept(c, raw, ingress).value.messageId.Some? {
      var message := Accept(c, raw, ingress).value;
      ExactlyOneAck(c, t, raw, ingress, granted, provided, r, message.sender, message.messageId.value);
      assert NumberedFor(c, raw, ingress, message.sender, message.messageId.value);
    }
  }

  // ---- What the limiter is asked ----

  /** The sender the limiter is asked about, if the packet makes the agent ask. */
  function Asked(c: Config, raw: Bytes, ingress: int, r: Readings): Option<string> {
    match Accept(c, raw, ingress)
    case Some(message) => if message.messageId.Some? && r.accepted > 0 then Some(message.sender) else None
    case None => None
  }

  predicate Granted(c: Config, history: seq<RateLimiter.Grant>, raw: Bytes, ingress: int, r: Readings) {
    Asked(c, raw, ingress, r).Some?
    && RateLimiter.Allows(c.perSender, c.globalLimit, history, Asked(c, raw, ingress, r).value, r.mono)
  }

  function GrantsAfter(c: Config, history: seq<RateLimiter.Grant>, raw: Bytes, ingress: int, r: Readings)
    : seq<RateLimiter.Grant>
  {
    if Granted(c, history, raw, ingress, r) then history + [RateLimiter.Grant(Asked(c, raw, ingress, r).value, r.mono)]
    else history
  }

  // ---- Sends one after another ----

  lemma SentLeavesOthers(l: Limits, t: Tables, step: Step, other: string)
    requires Consistent(l, t) && step.Sent? && step.messageId != other && other in t.outbound
    ensures other in Apply(l, t, step).outbound && Apply(l, t, step).outbound[other] == t.outbound[other]
  {
    hide Consistent;
  }

  lemma {:induction false} SentRunKeeps(l: Limits, t: Tables, ids: seq<string>, at: seq<real>, other: string)
    requires Consistent(l, t) && |ids| <= |at| && other !in ids && other in t.outbound
    ensures other in Run(l, t, SentSteps(ids, at)).outbound
    ensures Run(l, t, SentSteps(ids, at)).outbound[other] == t.outbound[other]
    decreases |ids|
  {
    if ids == [] {
      assert SentSteps(ids, at) == [];
      hide *;
      RunNone(l, t);
    } else {
      hide *;
      var i := |ids| - 1;
      var earlier, last := SentSteps(ids[..i], at), Sent(ids[i], at[i]);
      SentPrefix(ids, at, i);
      SentRunKeeps(l, t, ids[..i], at, other);
      assert SentSteps(ids, at)[..i + 1] == SentSteps(ids, at);
      RunAfter(l, t, earlier, last);
      SentLeavesOthers(l, Run(l, t, earlier), last, other);
    }
  }

  lemma RunOne(l: Limits, t: Tables, step: Step)
    requires Consistent(l, t) && (step.Queued? ==> Callsign(step.recipient))
    ensures Run(l, t, [step]) == Apply(l, t, step)
  {
    hide Consistent, Callsign;
    assert [step][..0] == [];
  }

  // ---- The object ----

  lemma RunAfter(l: Limits, t: Tables, steps: seq<Step>, step: Step)
    requires Consistent(l, t) && FromFrames(steps) && (step.Queued? ==> Callsign(step.recipient))
    ensures FromFrames(steps + [step])
    ensures Run(l, t, steps + [step]) == Apply(l, Run(l, t, steps), step)
  {
    hide Consistent, Callsign;
    assert (steps + [step])[..|steps|] == steps;
  }

  lemma ConsistentCountable(l: Limits, t: Tables)
    requires Consistent(l, t)
    ensures Countable(t)
  {
    hide Deliverable;
  }

  lemma RunNone(l: Limits, t: Tables)
    requires Consistent(l, t)
    ensures Run(l, t, []) == t
  {
    hide Consistent;
  }

  lemma FrameAt(c: Config, rows: map<string, Row>, ids: seq<string>, i: nat)
    requires ValidConfig(c) && Deliverables(rows, ids) && i < |ids|
    ensures ids[i] in rows && Deliverable(ids[i], rows[ids[i]]) && i < |ReplyFrames(c, rows, ids)|
    ensures ReplyFrames(c, rows, ids)[i] == Transmission(rows[ids[i]].channel, ReplyFrame(c, ids[i], rows[ids[i]]))
  {
    hide ValidConfig, Deliverable, ReplyFrame;
  }

  lemma AppendOne(start: seq<Transmission>, frames: seq<Transmission>, i: nat, sent: seq<Transmission>, now: seq<Transmission>)
    requires i < |frames| && sent == start + frames[..i] && now == sent + [frames[i]]
    ensures now == start + frames[..i + 1]
  {
  }

  /** When the turn of the i-th message comes, its row is still the original one. */
  lemma TurnOf(l: Limits, t: Tables, ids: seq<string>, at: seq<real>, i: nat)
    requires Consistent(l, t) && |ids| <= |at| && i < |ids| && ids[i] in t.outbound
    requires Distinct(ids)
    ensures FromFrames(SentSteps(ids, at)[..i]) && FromFrames(SentSteps(ids, at)[..i + 1])
    ensures var steps := SentSteps(ids, at);
      && ids[i] in Run(l, t, steps[..i]).outbound
      && Run(l, t, steps[..i]).outbound[ids[i]] == t.outbound[ids[i]]
      && Run(l, t, steps[..i + 1]) == Apply(l, Run(l, t, steps[..i]), Sent(ids[i], at[i]))
  {
    hide Consistent, Run, Apply, FromFrames;
    var steps := SentSteps(ids, at);
    SentPrefix(ids, at, i);
    assert ids[i] !in ids[..i];
    SentRunKeeps(l, t, ids[..i], at, ids[i]);
    hide SentSteps, Distinct;
    RunAfter(l, t, steps[..i], Sent(ids[i], at[i]));
  }

  lemma SentPrefix(ids: seq<string>, at: seq<real>, i: nat)
    requires |ids| <= |at| && i < |ids|
    ensures SentSteps(ids, at)[..i] == SentSteps(ids[..i], at) && FromFrames(SentSteps(ids, at)[..i])
    ensures SentSteps(ids, at)[..i + 1] == SentSteps(ids, at)[..i] + [Sent(ids[i], at[i])]
  {
    var all, first := SentSteps(ids, at), SentSteps(ids[..i], at);
    assert FromFrames(all[..i]) by { hide SentSteps; }
    hide SentSteps, FromFrames;
    assert all[..i + 1] == all[..i] + [all[i]];
    assert forall k :: 0 <= k < i ==> all[..i][k] == first[k];
  }

  /** What the TNC took of a list: its first frames, each with its record. */
  lemma TakenParts(c: Config, rows: map<string, Row>, ids: seq<string>, at: seq<real>, accepted: nat, i: nat)
    requires ValidConfig(c) && Deliverables(rows, ids) && |ids| <= |at|
    requires i <= |ids| && i <= accepted && (i == |ids| || i == accepted)
    ensures Deliverables(rows, Taken(ids, accepted))
    ensures SentSteps(ids, at)[..i] == SentSteps(Taken(ids, accepted), at)
    ensures ReplyFrames(c, rows, ids)[..i] == ReplyFrames(c, rows, Taken(ids, accepted))
  {
    hide ValidConfig, Deliverable, ReplyFrame, SentSteps, ReplyFrames;
    assert Taken(ids, accepted) == ids[..i];
    var all, first := SentSteps(ids, at), SentSteps(ids[..i], at);
    assert forall k :: 0 <= k < i ==> all[..i][k] == first[k];
    var frames, some := ReplyFrames(c, rows, ids), ReplyFrames(c, rows, ids[..i]);
    assert forall k :: 0 <= k < i ==> frames[..i][k] == some[k];
  }

  function Commands(call: Option<Call>): seq<string> {
    if call.Some? then [call.value.command] else []
  }

  class Agent {
    const config: Config
    const store: DedupStore
    const limiter: RateLimiter.SlidingWindowLimiter
    /** Everything the TNC has accepted so far, and the commands given to the provider. */
    var sent: seq<Transmission>
    var asked: seq<string>

    /** The part of the invariant that concerns the store. */
    ghost predicate Ready()
      reads this, store
    {
      ValidConfig(config) && Consistent(config.limits, store.Contents())
    }

    ghost predicate Valid()
      reads this, store, limiter
    {
      && Ready() && store.ttl == config.limits.ttl
      && limiter.Valid() && limiter.perSender == config.perSender && limiter.globalLimit == config.globalLimit
    }

    constructor (config: Config, store: DedupStore, limiter: RateLimiter.SlidingWindowLimiter)
      requires ValidConfig(config) && Consistent(config.limits, store.Contents()) && store.ttl == config.limits.ttl
      requires limiter.Valid() && limiter.perSender == config.perSender && limiter.globalLimit == config.globalLimit
      ensures Valid() && this.config == config && this.store == store && this.limiter == limiter && sent == [] && asked == []
    {
      this.config, this.store, this.limiter, sent, asked := config, store, limiter, [], [];
    }

    method Receive(raw: Bytes, ingress: int) returns (message: Option<Message>)
      ensures message == Accept(config, raw, ingress)
    {
      hide DecodeUiSpec, Unwrap, ParseMessage;
      if ingress !in ReceiveChannels(config) {
        return None;
      }
      var outer := DecodeUi(raw);
      if outer.Err? {
        return None;
      }
      var frame := Unwrap(outer.value);
      if frame.Err? {
        return None;
      }
      message := ParseMessage(frame.value);
      if message.None? || message.value.addressee != config.callsign || message.value.sender == config.callsign {
        return None;
      }
    }

    method RecordReceipts(message: Message, r: Readings)
      requires Ready()
      modifies store
      ensures Ready()
      ensures store.Contents() == Run(config.limits, old(store.Contents()), ReceiptSteps(message, r))
    {
      hide Consistent, ParseReceipt, ValidConfig;
      ghost var before, steps := store.Contents(), [];
      if message.replyAckId.Some? {
        ghost var step := ReceiptSeen(message.sender, Receipt(Acked, message.replyAckId.value), r.replyAckAt);
        RunAfter(config.limits, before, steps, step);
        steps := steps + [step];
        store.ApplyOutboundReceipt(message.sender, Receipt(Acked, message.replyAckId.value), r.replyAckAt);
      }
      if message.messageId.None? && ParseReceipt(message.body).Some? {
        ghost var step := ReceiptSeen(message.sender, ParseReceipt(message.body).value, r.receiptAt);
        RunAfter(config.limits, before, steps, step);
        steps := steps + [step];
        store.ApplyOutboundReceipt(message.sender, ParseReceipt(message.body).value, r.receiptAt);
      }
      assert steps == ReceiptSteps(message, r);
    }

    /** Sends one queued message and records the send. */
    method Transmit(id: string, at: real)
      requires Ready() && id in store.Contents().outbound && Deliverable(id, store.Contents().outbound[id])
      modifies this`sent, store
      ensures Ready()
      ensures store.Contents() == Apply(config.limits, old(store.Contents()), Sent(id, at))
      ensures var row := old(store.Contents()).outbound[id];
        sent == old(sent) + [Transmission(row.channel, ReplyFrame(config, id, row))]
    {
      hide Consistent, ValidConfig, Deliverable, ReplyFrame;
      sent := sent + [Transmission(store.outbound[id].channel, ReplyFrame(config, id, store.outbound[id]))];
      ConsistentCountable(config.limits, store.Contents());
      SentKeeps(config.limits, store.Contents(), id, at);
      var state := store.NoteOutboundSent(id, config.limits.retry, at);
    }

    /** Sends the first of the listed messages in order, each still as it was when the list was made. */
    method TransmitFirst(ids: seq<string>, at: seq<real>, n: nat)
      requires Ready() && n <= |ids| <= |at| && Deliverables(store.Contents().outbound, ids) && Distinct(ids)
      modifies this`sent, store
      ensures Ready() && FromFrames(SentSteps(ids, at)[..n])
      ensures store.Contents() == Run(config.limits, old(store.Contents()), SentSteps(ids, at)[..n])
      ensures sent == old(sent) + ReplyFrames(config, old(store.Contents()).outbound, ids)[..n]
    {
      hide Consistent, ValidConfig, Deliverable, ReplyFrame, Apply, Run;
      ghost var before, rows := store.Contents(), store.Contents().outbound;
      ghost var frames, steps := ReplyFrames(config, rows, ids), SentSteps(ids, at);
      assert ValidConfig(config) && Consistent(config.limits, before);
      RunNone(config.limits, before);
      hide SentSteps, ReplyFrames, Deliverables, Distinct, FromFrames, DedupStore.Contents, Ready;
      for i := 0 to n
        invariant Ready() && FromFrames(steps[..i])
        invariant store.Contents() == Run(config.limits, before, steps[..i])
        invariant sent == old(sent) + frames[..i]
      {
        TurnOf(config.limits, before, ids, at, i);
        FrameAt(config, rows, ids, i);
        ghost var earlier := sent;
        Transmit(ids[i], at[i]);
        AppendOne(old(sent), frames, i, earlier, sent);
      }
    }

    /** Sends the listed messages; the first frame that the TNC does not accept raises before anything is recorded for it. */
    method TransmitAll(ids: seq<string>, at: seq<real>, accepted: nat) returns (raised: bool)
      requires Ready() && |ids| <= |at| && Deliverables(store.Contents().outbound, ids) && Distinct(ids)
      modifies this`sent, store
      ensures Ready() && raised == (accepted < |ids|)
      ensures store.Contents() == Run(config.limits, old(store.Contents()), SentSteps(Taken(ids, accepted), at))
      ensures sent == old(sent) + ReplyFrames(config, old(store.Contents()).outbound, Taken(ids, accepted))
    {
      var n := if accepted < |ids| then accepted else |ids|;
      assert ValidConfig(config) && Consistent(config.limits, store.Contents());
      TakenParts(config, store.Contents().outbound, ids, at, accepted, n);
      hide Ready, Consistent, ValidConfig, Deliverables, Run, ReplyFrames, SentSteps, FromFrames, DedupStore.Contents, Taken;
      TransmitFirst(ids, at, n);
      raised := n < |ids|;
    }

    /** One retry round: sends the page of due messages until a send raises. */
    method RetryDue(dueAt: real, at: seq<real>, accepted: nat) returns (page: seq<string>, raised: bool)
      requires Ready() && |at| >= 10
      modifies this`sent, store
      ensures Ready()
      ensures DuePage(old(store.Contents()), dueAt, 10, page) && raised == (accepted < |page|)
      ensures store.Contents() == Run(config.limits, old(store.Contents()), SentSteps(Taken(page, accepted), at))
      ensures Deliverables(old(store.outbound), Taken(page, accepted))
      ensures sent == old(sent) + ReplyFrames(config, old(store.outbound), Taken(page, accepted))
    {
      hide ValidConfig, Deliverable, ReplyFrame, RowOk;
      page := store.DueOutbound(10, dueAt);
      assert Deliverables(store.outbound, page);
      raised := TransmitAll(page, at, accepted);
    }

    /** What follows a claim answered "new". */
    method ExecuteRequest(message: Message, ingress: int, provided: Option<string>, r: Readings) returns (raised: bool)
      requires Ready() && WellFormed(message) && message.messageId.Some? && |r.sentAt| >= 99 && r.accepted > 0
      modifies this, store
      ensures Ready()
      ensures var o := Execute(config, old(store.Contents()), message, ingress, provided, r);
        && FromFrames(o.steps)
        && store.Contents() == Run(config.limits, old(store.Contents()), o.steps)
        && sent == old(sent) + o.sends && raised == o.raised && asked == old(asked) + Commands(o.call)
    {
      hide Consistent, ValidConfig, ReadRequest, Respond, SplitReplySpec, QueueAndSend, MessageId, Callsign, Run;
      var request := ReadRequest(message.body);
      ghost var before, steps := store.Contents(), HandlingSteps(message, request, r);
      HandleRequest(message, request, r);
      if request.command != "MSG" {
        asked := asked + [request.command];
      }
      var bodies := SplitReply(Respond(request, provided));
      if bodies.Err? {
        return false;
      }
      AtMost99(Respond(request, provided));
      ghost var queued := QueueAndSend(config, store.Contents(), message.sender, bodies.value, ingress, r);
      raised := QueueReply(message.sender, bodies.value, ingress, r);
      RunSplit(config.limits, before, steps, queued.steps);
    }

    method QueueReply(recipient: string, bodies: seq<string>, ingress: int, r: Readings) returns (raised: bool)
      requires Ready() && Callsign(recipient) && |bodies| <= 99 <= |r.sentAt| && r.accepted > 0
      modifies this`sent, store
      ensures Ready()
      ensures var o := QueueAndSend(config, old(store.Contents()), recipient, bodies, ingress, r);
        && FromFrames(o.steps)
        && store.Contents() == Run(config.limits, old(store.Contents()), o.steps)
        && sent == old(sent) + o.sends && raised == o.raised
    {
      hide Consistent, ValidConfig, Callsign, QueueBatch, ReplyFrames, Deliverable, Run;
      ghost var before, queue := store.Contents(), Queued(recipient, bodies, ingress, r.queueAt);
      RunOne(config.limits, before, queue);
      var queued := store.QueueOutboundBatch(recipient, bodies, config.limits.maximumPending, ingress, r.queueAt);
      assert store.Contents() == Run(config.limits, before, [queue]);
      if queued.Err? {
        return queued.error == IdTaken;
      }
      QueuedDeliverable(config.limits, before, recipient, bodies, ingress, r.queueAt);
      ghost var after, ids := store.Contents(), Ids(queued.value);
      ghost var steps := SentSteps(Taken(ids, r.accepted - 1), r.sentAt);
      assert Ready() && Deliverables(after.outbound, ids) && Distinct(ids);
      QueuedParts(config, before, recipient, bodies, ingress, r);
      hide QueueAndSend, Ready, DedupStore.Contents, SentSteps, Apply, Deliverables, Distinct, FromFrames, Taken;
      RunSplit(config.limits, before, [queue], steps);
      raised := TransmitAll(Ids(queued.value), r.sentAt, r.accepted - 1);
    }

    /** One packet from the TNC. The provider's answer and the clock readings are the environment's choice. */
    method ProcessPacket(raw: Bytes, ingress: int, provided: Option<string>, r: Readings) returns (raised: bool)
      requires Valid() && limiter.clock <= r.mono && |r.sentAt| >= 99
      modifies this, store, limiter
      ensures Valid()
      ensures var o := Process(config, old(store.Contents()), raw, ingress,
                               Granted(config, old(limiter.history), raw, ingress, r), provided, r);
        && FromFrames(o.steps)
        && store.Contents() == Run(config.limits, old(store.Contents()), o.steps)
        && sent == old(sent) + o.sends && raised == o.raised && asked == old(asked) + Commands(o.call)
      ensures limiter.history == GrantsAfter(config, old(limiter.history), raw, ingress, r)
    {
      hide Consistent, ValidConfig, Accept, ProcessNumbered, RateLimiter.Allows, RateLimiter.Represents, Run, ReceiptSteps;
      RunNone(config.limits, store.Contents());
      var message := Receive(raw, ingress);
      if message.None? {
        return false;
      }
      AcceptedSender(config, raw, ingress);
      if message.value.messageId.None? {
        RecordReceipts(message.value, r);
        return false;
      }
      raised := ProcessMessage(message.value, ingress, provided, r);
    }

    method ProcessMessage(message: Message, ingress: int, provided: Option<string>, r: Readings) returns (raised: bool)
      requires Valid() && WellFormed(message) && message.messageId.Some?
      requires limiter.clock <= r.mono && |r.sentAt| >= 99
      modifies this, store, limiter
      ensures Valid()
      ensures var granted := r.accepted > 0
                && RateLimiter.Allows(config.perSender, config.globalLimit, old(limiter.history), message.sender, r.mono);
        && limiter.history == (if granted then old(limiter.history) + [RateLimiter.Grant(message.sender, r.mono)]
                               else old(limiter.history))
        && var o := ProcessNumbered(config, old(store.Contents()), message, ingress, granted, provided, r);
        && FromFrames(o.steps)
        && store.Contents() == Run(config.limits, old(store.Contents()), o.steps)
        && sent == old(sent) + o.sends && raised == o.raised && asked == old(asked) + Commands(o.call)
    {
      hide Consistent, ValidConfig, Handle, AckFrame, Callsign, MessageId, RateLimiter.Allows, ReadRequest, Run;
      hide RateLimiter.Represents, ReceiptSteps, WellFormed;
      ghost var before, receipts := store.Contents(), ReceiptSteps(message, r);
      WellFormedParts(message);
      var allowed, refused := Admit(message, ingress, r);
      if !allowed {
        return refused;
      }
      ghost var handled := Handle(config, store.Contents(), message, ingress, provided, r);
      raised := HandleAdmitted(message, ingress, provided, r);
      RunSplit(config.limits, before, receipts, handled.steps);
    }

    /** What follows the limiter's consent. */
    method HandleAdmitted(message: Message, ingress: int, provided: Option<string>, r: Readings) returns (raised: bool)
      requires Ready() && store.ttl == config.limits.ttl
      requires WellFormed(message) && message.messageId.Some? && |r.sentAt| >= 99 && r.accepted > 0
      modifies this, store
      ensures Ready()
      ensures var o := Handle(config, old(store.Contents()), message, ingress, provided, r);
        && FromFrames(o.steps)
        && store.Contents() == Run(config.limits, old(store.Contents()), o.steps)
        && sent == old(sent) + o.sends && raised == o.raised && asked == old(asked) + Commands(o.call)
    {
      hide Consistent, ValidConfig, Claim, Execute, Callsign, MessageId, ReadRequest, Run;
      ghost var before, claim := store.Contents(), ClaimStep(message, r);
      WellFormedParts(message);
      RunOne(config.limits, before, claim);
      ApplyKeeps(config.limits, before, claim);
      var verdict := store.ClaimMessage(message.sender, message.messageId.value, ReadRequest(message.body).claimBody, r.claimAt);
      if verdict != New {
        return false;
      }
      ghost var executed := Execute(config, store.Contents(), message, ingress, provided, r);
      raised := ExecuteRequest(message, ingress, provided, r);
      RunSplit(config.limits, before, [claim], executed.steps);
    }

    /** Records what the message acknowledges, acknowledges it in turn if the TNC lets it, and asks the limiter. */
    method Admit(message: Message, ingress: int, r: Readings) returns (allowed: bool, raised: bool)
      requires Valid() && Callsign(message.sender) && message.messageId.Some? && MessageId(message.messageId.value)
      requires limiter.clock <= r.mono
      modifies this`sent, store, limiter
      ensures Valid() && FromFrames(ReceiptSteps(message, r)) && raised == (r.accepted == 0)
      ensures store.Contents() == Run(config.limits, old(store.Contents()), ReceiptSteps(message, r))
      ensures sent == old(sent) + if raised then []
                                  else [Transmission(ingress, AckFrame(config, message.sender, message.messageId.value))]
      ensures allowed == (!raised
        && RateLimiter.Allows(config.perSender, config.globalLimit, old(limiter.history), message.sender, r.mono))
      ensures limiter.history == (if allowed then old(limiter.history) + [RateLimiter.Grant(message.sender, r.mono)]
                                  else old(limiter.history))
    {
      hide Consistent, ValidConfig, AckFrame, Callsign, MessageId, RateLimiter.Allows, RateLimiter.Represents, Run;
      RecordReceipts(message, r);
      if r.accepted == 0 {
        return false, true;
      }
      raised := false;
      sent := sent + [Transmission(ingress, AckFrame(config, message.sender, message.messageId.value))];
      allowed := limiter.Allow(message.sender, r.mono);
    }

    method HandleRequest(message: Message, request: Request, r: Readings)
      requires Ready() && message.messageId.Some?
      modifies store
      ensures Ready()
      ensures store.Contents() == Run(config.limits, old(store.Contents()), HandlingSteps(message, request, r))
    {
      hide Consistent, ValidConfig, MailText, Purge;
      ghost var before, steps := store.Contents(), [];
      if request.mailboxText.Some? {
        var mail := Mail(message.sender, message.messageId.value, request.mailboxText.value, r.mailAt);
        RunAfter(config.limits, before, steps, Mailed(mail));
        steps := steps + [Mailed(mail)];
        var stored := store.StoreMailboxMessage(mail, config.limits.mailboxLimit);
      }
      RunAfter(config.limits, before, steps, Purged(r.purgeAt));
      store.PurgeOutboundHistory(config.limits.retention, r.purgeAt);
      assert steps + [Purged(r.purgeAt)] == HandlingSteps(message, request, r);
    }
  }
}
