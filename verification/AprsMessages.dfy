/**
 APRS messages, receipts and acknowledgements (APRS Protocol Reference 1.0.1, chapter 14): the
 parser with its trailing message-ID pattern, and the encoders whose output it must read back.
 */
module AprsMessages {
  import opened Basics
  import opened PyText
  import opened Ax25

  const MAX_APRS_MESSAGE_TEXT := 67

  datatype Message = Message(sender: string, addressee: string, body: string,
                             messageId: Option<string>, replyAckId: Option<string>)

  datatype Disposition = Acked | Rejected

  datatype Receipt = Receipt(disposition: Disposition, messageId: string)

  // ---- The message-ID pattern ----

  /** One to five ASCII letters or digits. */
  predicate MessageId(s: string) {
    1 <= |s| <= 5 && forall i :: 0 <= i < |s| ==> IsAlnum(s[i])
  }

  /** What the pattern captures from the text after its opening brace, which it must consume entirely. */
  function MatchIdTail(t: string): Option<(string, Option<string>)> {
    var k := Find(t, '}');
    if !MessageId(t[..k]) then None
    else if k == |t| then Some((t, None))
    else if MessageId(t[k + 1..]) then Some((t[..k], Some(t[k + 1..])))
    else None
  }

  predicate IdStartsAt(s: string, i: nat)
    requires i < |s|
  {
    s[i] == '{' && MatchIdTail(s[i + 1..]).Some?
  }

  /** Leftmost position from `i` on at which the pattern matches to the end, or the length. */
  function SearchId(s: string, i: nat): (k: nat)
    requires i <= |s|
    ensures i <= k <= |s|
    ensures k < |s| ==> IdStartsAt(s, k)
    ensures forall j :: i <= j < k ==> !IdStartsAt(s, j)
    decreases |s| - i
  {
    if i == |s| || IdStartsAt(s, i) then i else SearchId(s, i + 1)
  }

  /** Python `str.rstrip` followed by `upper`, as applied to the nine-character addressee field. */
  function ReadAddressee(field: string): string { Upper(RStrip(field)) }

  /** Splits the text after the addressee into body and trailing IDs. */
  function ReadText(sender: string, addressee: string, wireBody: string): Message {
    var start := SearchId(wireBody, 0);
    if start == |wireBody| then Message(sender, addressee, wireBody, None, None)
    else
      var (id, replyAck) := MatchIdTail(wireBody[start + 1..]).value;
      Message(sender, addressee, wireBody[..start], Some(id), replyAck)
  }

  function ParseInformation(sender: string, info: string): Option<Message> {
    if |info| < 11 || info[0] != ':' || info[10] != ':' then None
    else
      var addressee := ReadAddressee(info[1..10]);
      if addressee == "" || !Callsign(addressee) then None
      else Some(ReadText(sender, addressee, RStripLineEnds(info[11..])))
  }

  function ParseMessage(frame: Frame): Option<Message> {
    match DecodeAscii(frame.information)
    case None => None
    case Some(info) => ParseInformation(Upper(frame.source), info)
  }

  function ParseReceipt(body: string): Option<Receipt> {
    if |body| < 3 || !MessageId(body[3..]) then None
    else if Upper(body[..3]) == "ACK" then Some(Receipt(Acked, body[3..]))
    else if Upper(body[..3]) == "REJ" then Some(Receipt(Rejected, body[3..]))
    else None
  }

  lemma ReceiptWord(w: string)
    ensures Upper(w) == "ACK" <==> SameLetters(w, "ack")
    ensures Upper(w) == "REJ" <==> SameLetters(w, "rej")
  {
    UpperReads(w, "ack", "ACK");
    UpperReads(w, "rej", "REJ");
  }

  /** A body is the receipt of an ID exactly when "ack" or "rej", in letters of any case, stands before that ID. */
  lemma ReceiptExact(body: string, disposition: Disposition, id: string)
    ensures ParseReceipt(body) == Some(Receipt(disposition, id)) <==>
      && MessageId(id) && |body| == 3 + |id| && body[3..] == id
      && SameLetters(body[..3], if disposition == Acked then "ack" else "rej")
  {
    if |body| >= 3 {
      ReceiptWord(body[..3]);
      hide SameLetters, Upper, MessageId;
    }
  }

  // ---- Encoders ----

  function AckText(recipient: string, messageId: string): string {
    ":" + PadRight(recipient, 9) + ":ack" + messageId
  }

  function AckInformation(recipient: string, messageId: string): (r: Result<Bytes, string>)
  {
    if SplitCallsign(recipient).Err? then Err("invalid AX.25 callsign")
    else if !MessageId(messageId) then Err("invalid APRS message ID")
    else if !Ascii(AckText(recipient, messageId)) then Err("ordinal not in range")
    else Ok(EncodeAscii(AckText(recipient, messageId)))
  }

  function NormalizeReplyBody(body: string, messageId: string): Result<string, string> {
    var squeezed := Squeeze(body);
    var maximumBody := MAX_APRS_MESSAGE_TEXT - (1 + |messageId|);
    if squeezed == "" then Err("outbound APRS message body is empty")
    else if !Printable(squeezed) then Err("outbound APRS message body must contain printable ASCII")
    else if maximumBody < 1 then Err("outbound APRS message ID is too long")
    else Ok(RStrip(squeezed[..if |squeezed| < maximumBody then |squeezed| else maximumBody]))
  }

  function ReplyText(recipient: string, body: string, messageId: string): string {
    ":" + PadRight(recipient, 9) + ":" + body + "{" + messageId
  }

  /** Encoding replaces what ASCII cannot carry by a question mark. */
  function EncodeAsciiReplace(s: string): Bytes {
    seq(|s|, i requires 0 <= i < |s| => if s[i] as int < 128 then Octet(s[i]) else 63)
  }

  function ReplyInformation(recipient: string, body: string, messageId: string): Result<Bytes, string> {
    if SplitCallsign(recipient).Err? then Err("invalid AX.25 callsign")
    else if !MessageId(messageId) then Err("invalid APRS message ID")
    else
      match NormalizeReplyBody(body, messageId)
      case Err(e) => Err(e)
      case Ok(normalized) => Ok(EncodeAsciiReplace(ReplyText(recipient, normalized, messageId)))
  }

  // ---- Round trips ----

  lemma AlnumLast(s: string)
    requires MessageId(s)
    ensures !IsSpace(s[|s| - 1]) && '{' !in s && '}' !in s && Ascii(s)
    ensures s[|s| - 1] != '\r' && s[|s| - 1] != '\n'
  {
  }

  /** The IDs as they stand at the end of a message. */
  function Tail(id: string, replyAck: Option<string>): string {
    "{" + id + if replyAck.Some? then "}" + replyAck.value else ""
  }

  predicate Identified(id: string, replyAck: Option<string>) {
    MessageId(id) && (replyAck.Some? ==> MessageId(replyAck.value))
  }

  lemma TailMatches(id: string, replyAck: Option<string>)
    requires Identified(id, replyAck)
    ensures MatchIdTail(Tail(id, replyAck)[1..]) == Some((id, replyAck))
  {
    AlnumLast(id);
    var t := Tail(id, replyAck)[1..];
    if replyAck.Some? {
      assert t == id + "}" + replyAck.value;
      assert t[..|id|] == id && t[|id| + 1..] == replyAck.value;
    } else {
      assert t == id && id[..|id|] == id;
    }
    FindIs(t, '}', |id|);
  }

  lemma MatchedTail(t: string)
    requires MatchIdTail(t).Some?
    ensures var (id, replyAck) := MatchIdTail(t).value; Identified(id, replyAck) && Tail(id, replyAck) == "{" + t
  {
    var k := Find(t, '}');
    hide Find, MessageId;
    if k < |t| {
      assert t == t[..k] + "}" + t[k + 1..];
    } else {
      assert t[..k] == t;
    }
  }

  /** Whatever precedes them, braces included, the IDs at the end are found. */
  lemma SearchFindsTail(body: string, id: string, replyAck: Option<string>)
    requires Identified(id, replyAck)
    ensures SearchId(body + Tail(id, replyAck), 0) == |body|
  {
    var tail := Tail(id, replyAck);
    var s := body + tail;
    TailMatches(id, replyAck);
    assert s[|body| + 1..] == tail[1..];
    assert IdStartsAt(s, |body|);
    hide MatchIdTail, Tail, Identified;
    forall j | 0 <= j < |body| ensures !IdStartsAt(s, j) {
      OpeningBraceBlocks(s[j + 1..], |body| - j - 1);
    }
  }

  /** Any text before IDs is read as the body, and the IDs as they stand: the message's own first. */
  lemma TailReads(sender: string, addressee: string, body: string, id: string, replyAck: Option<string>)
    requires Identified(id, replyAck)
    ensures ReadText(sender, addressee, body + Tail(id, replyAck)) == Message(sender, addressee, body, Some(id), replyAck)
  {
    var wire := body + Tail(id, replyAck);
    SearchFindsTail(body, id, replyAck);
    TailMatches(id, replyAck);
    hide MatchIdTail, Identified;
    assert wire[|body| + 1..] == Tail(id, replyAck)[1..];
    assert wire[..|body|] == body;
    hide Tail;
  }

  /** The text holds IDs at its end. */
  ghost predicate Ends(wire: string, body: string, id: string, replyAck: Option<string>) {
    Identified(id, replyAck) && wire == body + Tail(id, replyAck)
  }

  lemma NoTail(wire: string)
    requires SearchId(wire, 0) == |wire|
    ensures forall body, id, replyAck :: !Ends(wire, body, id, replyAck)
  {
    forall body, id, replyAck ensures !Ends(wire, body, id, replyAck) {
      if Ends(wire, body, id, replyAck) {
        SearchFindsTail(body, id, replyAck);
      }
    }
  }

  /** A message has an ID exactly when its text ends in one, and otherwise the whole text is its body. */
  lemma ReadTextExact(sender: string, addressee: string, wire: string)
    ensures var m := ReadText(sender, addressee, wire);
      && m.sender == sender && m.addressee == addressee
      && (m.messageId.Some? ==> Ends(wire, m.body, m.messageId.value, m.replyAckId))
      && (m.messageId.None? ==> m.body == wire && m.replyAckId == None)
      && (m.messageId.None? ==> forall body, id, replyAck :: !Ends(wire, body, id, replyAck))
  {
    var start := SearchId(wire, 0);
    if start < |wire| {
      MatchedTail(wire[start + 1..]);
      hide MatchIdTail, Identified, Tail;
      assert wire == wire[..start] + ("{" + wire[start + 1..]);
    } else {
      NoTail(wire);
      hide Ends;
    }
  }

  /** A second opening brace further right keeps the pattern from matching. */
  lemma OpeningBraceBlocks(t: string, k: nat)
    requires k < |t| && t[k] == '{'
    ensures MatchIdTail(t).None?
  {
    var f := Find(t, '}');
    if k < f {
      assert t[..f][k] == '{';
    } else if k > f {
      assert t[f + 1..][k - f - 1] == '{';
    }
  }

  lemma NoBraceNoId(s: string)
    requires '{' !in s
    ensures SearchId(s, 0) == |s|
  {
  }

  function Layout(recipient: string, wireBody: string): string {
    ":" + PadRight(recipient, 9) + ":" + wireBody
  }

  /** The text of a message as some station may send it: its addressee in letters of any case, line ends added. */
  function OnAir(name: string, wire: string, ends: string): string {
    ":" + PadRight(name, 9) + ":" + (wire + ends)
  }

  lemma NameReads(name: string, callsign: string)
    requires Callsign(callsign) && SameLetters(name, callsign)
    ensures |PadRight(name, 9)| == 9 && Ascii(PadRight(name, 9)) && ReadAddressee(PadRight(name, 9)) == callsign
  {
    CallsignCharacters(callsign);
    forall i | 0 <= i < |name| ensures !IsSpace(name[i]) && name[i] as int < 128 {
      assert SameLetter(name[i], callsign[i]);
    }
    RStripBlanks(name, 9 - |name|);
    assert SameLetters(name, callsign) && HasNoLower(callsign);
    UpperExact(name, callsign);
    hide Upper, SameLetters, RStrip;
  }

  lemma WireReads(wire: string, ends: string)
    requires wire == "" || wire[|wire| - 1] !in "\r\n"
    requires LineEnds(ends)
    ensures RStripLineEnds(wire + ends) == wire
  {
    RStripLineEndsOf(wire, ends);
  }

  /** How the parser reads such a message, whatever its text. */
  lemma AirReads(frame: Frame, name: string, callsign: string, wire: string, ends: string)
    requires Callsign(callsign) && SameLetters(name, callsign) && LineEnds(ends)
    requires Ascii(wire) && (wire == "" || wire[|wire| - 1] !in "\r\n")
    ensures Ascii(OnAir(name, wire, ends))
    ensures frame.information == EncodeAscii(OnAir(name, wire, ends)) ==>
      ParseMessage(frame) == Some(ReadText(Upper(frame.source), callsign, wire))
  {
    NameReads(name, callsign);
    WireReads(wire, ends);
    var text := OnAir(name, wire, ends);
    assert Ascii(text);
    assert text[1..10] == PadRight(name, 9) && text[11..] == wire + ends;
    CallsignCharacters(callsign);
    AsciiRoundTrip(text);
    hide Callsign, PadRight, ReadAddressee, RStripLineEnds, ReadText, Upper, DecodeAscii;
  }

  lemma AddresseeReads(recipient: string)
    requires Callsign(recipient)
    ensures |PadRight(recipient, 9)| == 9 && Ascii(PadRight(recipient, 9))
  {
    hide *;
    SameAsItself(recipient);
    NameReads(recipient, recipient);
  }

  lemma SameAsItself(s: string)
    ensures SameLetters(s, s)
  {
  }

  lemma NumberedReads(sender: string, recipient: string, body: string, id: string)
    requires MessageId(id)
    ensures ReadText(sender, recipient, body + "{" + id) == Message(sender, recipient, body, Some(id), None)
  {
    assert body + "{" + id == body + Tail(id, None);
    assert Identified(id, None);
    hide *;
    TailReads(sender, recipient, body, id, None);
  }

  lemma NormalizedIsAscii(body: string, id: string)
    requires NormalizeReplyBody(body, id).Ok?
    ensures Ascii(NormalizeReplyBody(body, id).value)
    ensures NormalizeReplyBody(body, id).value <= Squeeze(body)
  {
    var squeezed, normalized := Squeeze(body), NormalizeReplyBody(body, id).value;
    var limit := MAX_APRS_MESSAGE_TEXT - (1 + |id|);
    RStripEnds(squeezed[..if |squeezed| < limit then |squeezed| else limit]);
    forall i | 0 <= i < |normalized| ensures normalized[i] as int < 128 {
      assert squeezed[i] in squeezed;
    }
  }

  lemma LayoutParses(frame: Frame, recipient: string, wireBody: string)
    requires Callsign(recipient) && Ascii(wireBody) && Ascii(Layout(recipient, wireBody))
    requires wireBody != "" && wireBody[|wireBody| - 1] !in "\r\n"
    requires frame.information == EncodeAscii(Layout(recipient, wireBody))
    ensures ParseMessage(frame) == Some(ReadText(Upper(frame.source), recipient, wireBody))
  {
    assert Layout(recipient, wireBody) == OnAir(recipient, wireBody, "") by { assert wireBody + "" == wireBody; }
    SameAsItself(recipient);
    assert LineEnds("");
    hide *;
    AirReads(frame, recipient, recipient, wireBody, "");
  }

  lemma AckIsLayout(recipient: string, id: string)
    requires Callsign(recipient) && MessageId(id)
    ensures Ascii("ack" + id) && Ascii(Layout(recipient, "ack" + id))
    ensures AckInformation(recipient, id) == Ok(EncodeAscii(Layout(recipient, "ack" + id)))
  {
    hide Callsign, PadRight, Upper, Strip;
    AlnumLast(id);
    AddresseeReads(recipient);
    CallsignCanonical(recipient);
    assert Layout(recipient, "ack" + id) == AckText(recipient, id);
  }

  lemma ReplyIsLayout(recipient: string, body: string, id: string)
    requires Callsign(recipient) && MessageId(id) && NormalizeReplyBody(body, id).Ok?
    ensures var wire := NormalizeReplyBody(body, id).value + "{" + id;
      && Ascii(wire) && Ascii(Layout(recipient, wire))
      && ReplyInformation(recipient, body, id) == Ok(EncodeAscii(Layout(recipient, wire)))
  {
    hide Callsign, NormalizeReplyBody, PadRight, Upper, Strip;
    var normalized := NormalizeReplyBody(body, id).value;
    NormalizedIsAscii(body, id);
    AlnumLast(id);
    AddresseeReads(recipient);
    CallsignCanonical(recipient);
    var text := Layout(recipient, normalized + "{" + id);
    assert text == ReplyText(recipient, normalized, id);
    assert EncodeAsciiReplace(text) == EncodeAscii(text);
  }

  /**
   A numbered reply reads back as the same addressee, body and ID and no reply-ack, for every body
   that normalises, including one that contains braces or looks like an ID itself.
   */
  lemma ReplyRoundTrip(frame: Frame, recipient: string, body: string, id: string)
    requires Callsign(recipient) && MessageId(id)
    requires NormalizeReplyBody(body, id).Ok?
    requires ReplyInformation(recipient, body, id) == Ok(frame.information)
    ensures ParseMessage(frame)
         == Some(Message(Upper(frame.source), recipient, NormalizeReplyBody(body, id).value, Some(id), None))
  {
    var normalized := NormalizeReplyBody(body, id).value;
    ReplyIsLayout(recipient, body, id);
    AlnumLast(id);
    LayoutParses(frame, recipient, normalized + "{" + id);
    NumberedReads(Upper(frame.source), recipient, normalized, id);
  }

  lemma AckReads(sender: string, recipient: string, id: string)
    requires MessageId(id)
    ensures ReadText(sender, recipient, "ack" + id) == Message(sender, recipient, "ack" + id, None, None)
    ensures ParseReceipt("ack" + id) == Some(Receipt(Acked, id))
  {
    var wire := "ack" + id;
    AlnumLast(id);
    NoBraceNoId(wire);
    assert wire[3..] == id && wire[..3] == "ack";
    assert Upper("ack") == "ACK";
  }

  /** An acknowledgement reads back as an unnumbered message whose body is the receipt of that ID. */
  lemma {:induction false} AckRoundTrip(frame: Frame, recipient: string, id: string)
    requires Callsign(recipient) && MessageId(id)
    requires AckInformation(recipient, id) == Ok(frame.information)
    ensures ParseMessage(frame) == Some(Message(Upper(frame.source), recipient, "ack" + id, None, None))
    ensures ParseReceipt("ack" + id) == Some(Receipt(Acked, id))
  {
    AckIsLayout(recipient, id);
    AlnumLast(id);
    LayoutParses(frame, recipient, "ack" + id);
    AckReads(Upper(frame.source), recipient, id);
  }

  /** The acknowledgement exists, and is short enough for a UI frame, for every callsign and ID. */
  lemma AckAlwaysEncodes(recipient: string, id: string)
    requires Callsign(recipient) && MessageId(id)
    ensures AckInformation(recipient, id).Ok? && |AckInformation(recipient, id).value| <= 19
  {
    CallsignCharacters(recipient);
    CallsignCanonical(recipient);
    AlnumLast(id);
  }

  /** A reply that normalises always fits the message-text and information fields. */
  lemma ReplyFits(recipient: string, body: string, id: string)
    requires Callsign(recipient) && MessageId(id) && NormalizeReplyBody(body, id).Ok?
    ensures ReplyInformation(recipient, body, id).Ok?
    ensures |ReplyInformation(recipient, body, id).value| <= 11 + MAX_APRS_MESSAGE_TEXT
    ensures 1 <= |NormalizeReplyBody(body, id).value| + 1 + |id| <= MAX_APRS_MESSAGE_TEXT
  {
    CallsignCharacters(recipient);
    CallsignCanonical(recipient);
    var squeezed := Squeeze(body);
    RStripEnds(squeezed[..if |squeezed| < MAX_APRS_MESSAGE_TEXT - (1 + |id|) then |squeezed| else MAX_APRS_MESSAGE_TEXT - (1 + |id|)]);
  }

  lemma InformationIds(sender: string, info: string)
    requires ParseInformation(sender, info).Some?
    ensures var m := ParseInformation(sender, info).value;
      m.sender == sender && (m.messageId.Some? ==> Identified(m.messageId.value, m.replyAckId))
  {
    ReadTextExact(sender, ReadAddressee(info[1..10]), RStripLineEnds(info[11..]));
    hide Callsign, RStripLineEnds, ReadAddressee, ReadText, Identified;
  }

  /** Every ID the parser reports is one the acknowledgement encoder accepts. */
  lemma ParsedIds(frame: Frame)
    requires ParseMessage(frame).Some?
    ensures ParseMessage(frame).value.messageId.Some? ==> MessageId(ParseMessage(frame).value.messageId.value)
    ensures ParseMessage(frame).value.sender == Upper(frame.source)
  {
    var info := DecodeAscii(frame.information).value;
    var m := ParseMessage(frame).value;
    assert ParseInformation(Upper(frame.source), info) == Some(m);
    hide ParseMessage, ParseInformation, MessageId, DecodeAscii, Upper;
    InformationIds(Upper(frame.source), info);
  }
}
