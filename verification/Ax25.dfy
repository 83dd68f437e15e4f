/**
 AX.25 addresses and UI frames (AX.25 v2.2, sections 3.12 and 4.3.3.6) and the third-party wrapper
 Dire Wolf puts around packets from the Internet channel (APRS Protocol Reference 1.0.1, chapter 17).
 */
module Ax25 {
  import opened Basics
  import opened PyText

  const AX25_UI: Byte := 0x03
  const AX25_NO_LAYER_3: Byte := 0xF0

  // ---- Callsigns ----

  predicate CallText(s: string) {
    1 <= |s| <= 6 && forall i :: 0 <= i < |s| ==> IsUpperAlnum(s[i])
  }

  function SsidValue(t: string): Option<nat> {
    if |t| == 1 && '1' <= t[0] <= '9' then Some(t[0] as int - 48)
    else if |t| == 2 && t[0] == '1' && '0' <= t[1] <= '5' then Some(10 + (t[1] as int - 48))
    else None
  }

  function SsidText(n: nat): string
    requires 1 <= n <= 15
  {
    if n < 10 then [(48 + n) as char] else ['1', (38 + n) as char]
  }

  function FormatCallsign(call: string, ssid: nat): string
    requires ssid <= 15
  {
    if ssid == 0 then call else call + "-" + SsidText(ssid)
  }

  /** The callsign pattern anchored at both ends, with the two captured parts. */
  function MatchCallsign(s: string): Option<(string, nat)> {
    var k := Find(s, '-');
    if !CallText(s[..k]) then None
    else if k == |s| then Some((s, 0))
    else
      match SsidValue(s[k + 1..])
      case None => None
      case Some(ssid) => Some((s[..k], ssid))
  }

  predicate Callsign(s: string) { MatchCallsign(s).Some? }

  function SplitCallsign(value: string): Result<(string, nat), string> {
    match MatchCallsign(Upper(Strip(value)))
    case None => Err("invalid AX.25 callsign")
    case Some(parts) => Ok(parts)
  }

  lemma MatchFormat(s: string)
    requires Callsign(s)
    ensures var (call, ssid) := MatchCallsign(s).value;
      CallText(call) && ssid <= 15 && FormatCallsign(call, ssid) == s
  {
    var k := Find(s, '-');
    if k < |s| {
      var t := s[k + 1..];
      var ssid := SsidValue(t).value;
      assert s[k] == '-';
      if |t| == 1 {
        assert SsidText(ssid) == t;
      } else {
        assert (38 + ssid) as char == t[1];
        assert SsidText(ssid) == t;
      }
      assert s == s[..k] + "-" + t;
    }
  }

  lemma FormatMatches(call: string, ssid: nat)
    requires CallText(call) && ssid <= 15
    ensures MatchCallsign(FormatCallsign(call, ssid)) == Some((call, ssid))
  {
    var s := FormatCallsign(call, ssid);
    assert forall i :: 0 <= i < |call| ==> call[i] != '-';
    assert s[..|call|] == call;
    FindIs(s, '-', |call|);
    if ssid > 0 {
      assert s[|call| + 1..] == SsidText(ssid);
    }
  }

  lemma CallsignCharacters(s: string)
    requires Callsign(s)
    ensures 1 <= |s| <= 9
    ensures forall i :: 0 <= i < |s| ==> IsUpperAlnum(s[i]) || s[i] == '-'
  {
    var k := Find(s, '-');
    if k < |s| {
      var t := s[k + 1..];
      assert s == s[..k] + "-" + t;
    } else {
      assert s[..k] == s;
    }
  }

  /** A callsign is upper-case ASCII without blanks, so normalising it changes nothing. */
  lemma CallsignCanonical(s: string)
    requires Callsign(s)
    ensures 1 <= |s| <= 9
    ensures forall i :: 0 <= i < |s| ==> IsUpperAlnum(s[i]) || s[i] == '-'
    ensures Upper(s) == s && Strip(s) == s
    ensures SplitCallsign(s).Ok?
  {
    hide MatchCallsign, Upper, Strip, Tidy;
    CallsignCharacters(s);
    UpperFixed(s);
    BlanklessTidy(s);
    StripTidy(s);
  }

  lemma BlanklessTidy(s: string)
    requires forall i :: 0 <= i < |s| ==> IsUpperAlnum(s[i]) || s[i] == '-'
    ensures Tidy(s)
  {
  }

  // ---- Addresses ----

  function PadRight(s: string, width: nat): (r: string)
    ensures |r| == if |s| < width then width else |s|
    ensures r == s + Blanks(|r| - |s|)
  {
    s + Blanks(if |s| < width then width - |s| else 0)
  }

  function Blanks(n: nat): (r: string)
    ensures |r| == n && forall i :: 0 <= i < n ==> r[i] == ' '
  {
    seq(n, _ => ' ')
  }

  function Shift(c: char): Byte
    requires c as int < 128
  {
    c as int * 2
  }

  function ShiftText(s: string): Bytes
    requires Ascii(s)
  {
    seq(|s|, i requires 0 <= i < |s| => Shift(s[i]))
  }

  function AddressField(call: string, ssid: nat, last: bool): (r: Bytes)
    requires CallText(call) && ssid <= 15
    ensures |r| == 7
  {
    ShiftText(PadRight(call, 6)) + [0x60 + 2 * ssid + (if last then 1 else 0)]
  }

  function EncodeAddress(value: string, last: bool): (r: Result<Bytes, string>)
    ensures r.Ok? ==> |r.value| == 7
  {
    match MatchCallsign(Upper(Strip(value)))
    case None => Err("invalid AX.25 callsign")
    case Some(parts) =>
      MatchFormat(Upper(Strip(value)));
      Ok(AddressField(parts.0, parts.1, last))
  }

  function UnshiftText(raw: Bytes): string {
    seq(|raw|, i requires 0 <= i < |raw| => (raw[i] / 2) as char)
  }

  function DecodeAddress(raw: Bytes): Result<(string, bool), string> {
    if |raw| != 7 then Err("AX.25 address must contain seven bytes")
    else if exists i :: 0 <= i < 6 && raw[i] % 2 == 1 then Err("AX.25 address contains invalid shifted characters")
    else
      var call := RStrip(UnshiftText(raw[..6]));
      if !CallText(call) then Err("AX.25 address contains an invalid callsign")
      else
        var ssid := (raw[6] / 2) % 16;
        Ok((FormatCallsign(call, ssid), raw[6] % 2 == 1))
  }

  /** The three bits above the SSID in the last octet are reserved: whatever they are, the address reads the same. */
  lemma ReservedBitsIgnored(raw: Bytes, octet: Byte)
    requires |raw| == 7 && raw[6] % 32 == octet % 32
    ensures DecodeAddress(raw[6 := octet]) == DecodeAddress(raw)
  {
    var other := raw[6 := octet];
    assert other[..6] == raw[..6];
    assert (exists i :: 0 <= i < 6 && other[i] % 2 == 1) <==> exists i :: 0 <= i < 6 && raw[i] % 2 == 1;
    LowBits(octet);
    LowBits(raw[6]);
    hide UnshiftText, RStrip, CallText, FormatCallsign;
  }

  lemma LowBits(octet: Byte)
    ensures (octet / 2) % 16 == (octet % 32) / 2 && octet % 2 == (octet % 32) % 2
  {
  }

  lemma {:induction false} RStripBlanks(s: string, n: nat)
    requires s != "" ==> !IsSpace(s[|s| - 1])
    ensures RStrip(s + Blanks(n)) == s
    decreases n
  {
    if n == 0 {
      assert s + Blanks(0) == s;
    } else {
      var t := s + Blanks(n);
      assert t[..|t| - 1] == s + Blanks(n - 1);
      RStripBlanks(s, n - 1);
    }
  }

  lemma AddressFieldDecodes(call: string, ssid: nat, last: bool)
    requires CallText(call) && ssid <= 15
    ensures DecodeAddress(AddressField(call, ssid, last)) == Ok((FormatCallsign(call, ssid), last))
  {
    var raw := AddressField(call, ssid, last);
    var padded := PadRight(call, 6);
    assert raw[..6] == ShiftText(padded);
    assert forall i :: 0 <= i < 6 ==> raw[i] == padded[i] as int * 2 && raw[i] % 2 == 0 && raw[i] / 2 == padded[i] as int;
    assert UnshiftText(raw[..6]) == padded;
    assert IsUpperAlnum(call[|call| - 1]);
    RStripBlanks(call, 6 - |call|);
    assert raw[6] == 0x60 + 2 * ssid + (if last then 1 else 0);
    assert raw[6] / 2 == 48 + ssid;
  }

  /** Every address the decoder accepts is a callsign. */
  lemma DecodedIsCallsign(raw: Bytes)
    requires DecodeAddress(raw).Ok?
    ensures Callsign(DecodeAddress(raw).value.0)
  {
    FormatMatches(RStrip(UnshiftText(raw[..6])), (raw[6] / 2) % 16);
  }

  /** Round trip for every spelling the encoder accepts: the decoder returns the normalised callsign. */
  lemma AddressRoundTrip(value: string, last: bool)
    requires EncodeAddress(value, last).Ok?
    ensures DecodeAddress(EncodeAddress(value, last).value) == Ok((Upper(Strip(value)), last))
  {
    var s := Upper(Strip(value));
    MatchFormat(s);
    var (call, ssid) := MatchCallsign(s).value;
    AddressFieldDecodes(call, ssid, last);
  }

  // ---- UI frames ----

  datatype Frame = Frame(destination: string, source: string, information: Bytes)

  /** The addresses of a frame and the offset at which they end. */
  datatype AddressList = AddressList(addresses: seq<string>, end: nat)

  function Prepend(addresses: seq<string>, r: Result<AddressList, string>): Result<AddressList, string> {
    match r
    case Err(e) => Err(e)
    case Ok(list) => Ok(AddressList(addresses + list.addresses, list.end))
  }

  /** The address list starting at `offset` when `count` addresses have been read. */
  function ReadAddresses(raw: Bytes, offset: nat, count: nat): (r: Result<AddressList, string>)
    requires count <= 10
    ensures r.Ok? ==> |r.value.addresses| >= 1 && offset + 7 * |r.value.addresses| == r.value.end <= |raw|
    decreases 10 - count
  {
    if offset + 7 > |raw| || count >= 10 then Err("AX.25 address list is incomplete or excessive")
    else
      match DecodeAddress(raw[offset..offset + 7])
      case Err(e) => Err(e)
      case Ok(pair) =>
        if pair.1 then Ok(AddressList([pair.0], offset + 7))
        else Prepend([pair.0], ReadAddresses(raw, offset + 7, count + 1))
  }

  function DecodeUiSpec(raw: Bytes): Result<Frame, string> {
    if |raw| < 16 then Err("AX.25 frame is too short")
    else
      match ReadAddresses(raw, 0, 0)
      case Err(e) => Err(e)
      case Ok(list) =>
        var AddressList(addresses, offset) := list;
        if |addresses| < 2 || offset + 2 > |raw| then
          Err("AX.25 frame has no source/destination pair or control fields")
        else if raw[offset] != AX25_UI || raw[offset + 1] != AX25_NO_LAYER_3 then
          Err("only AX.25 UI frames with PID F0 are accepted")
        else Ok(Frame(addresses[0], addresses[1], raw[offset + 2..]))
  }

  lemma PrependTwice(a: seq<string>, b: seq<string>, r: Result<AddressList, string>)
    ensures Prepend(a, Prepend(b, r)) == Prepend(a + b, r)
  {
    if r.Ok? {
      assert a + (b + r.value.addresses) == a + b + r.value.addresses;
    }
  }

  lemma PrependNothing(r: Result<AddressList, string>)
    ensures Prepend([], r) == r
  {
    if r.Ok? {
      assert [] + r.value.addresses == r.value.addresses;
    }
  }

  /** One turn of the address loop. */
  lemma ReadStep(raw: Bytes, offset: nat, addresses: seq<string>, decoded: Result<(string, bool), string>)
    requires |addresses| < 10 && offset + 7 <= |raw|
    requires decoded == DecodeAddress(raw[offset..offset + 7])
    ensures decoded.Err? ==> Prepend(addresses, ReadAddresses(raw, offset, |addresses|)) == Err(decoded.error)
    ensures decoded.Ok? && decoded.value.1 ==>
      Prepend(addresses, ReadAddresses(raw, offset, |addresses|))
      == Ok(AddressList(addresses + [decoded.value.0], offset + 7))
    ensures decoded.Ok? && !decoded.value.1 ==>
      Prepend(addresses, ReadAddresses(raw, offset, |addresses|))
      == Prepend(addresses + [decoded.value.0], ReadAddresses(raw, offset + 7, |addresses| + 1))
  {
    if decoded.Ok? && !decoded.value.1 {
      PrependTwice(addresses, [decoded.value.0], ReadAddresses(raw, offset + 7, |addresses| + 1));
    }
  }

  lemma ReadStop(raw: Bytes, offset: nat, addresses: seq<string>)
    requires |addresses| <= 10 && (offset + 7 > |raw| || |addresses| >= 10)
    ensures Prepend(addresses, ReadAddresses(raw, offset, |addresses|))
         == Err("AX.25 address list is incomplete or excessive")
  {
  }

  method ReadAddressList(raw: Bytes) returns (r: Result<AddressList, string>)
    ensures r == ReadAddresses(raw, 0, 0)
  {
    hide ReadAddresses, DecodeAddress, Prepend;
    var addresses: seq<string> := [];
    var offset := 0;
    ghost var whole := ReadAddresses(raw, 0, 0);
    PrependNothing(whole);
    while true
      invariant |addresses| <= 10 && offset == 7 * |addresses| <= |raw|
      invariant whole == Prepend(addresses, ReadAddresses(raw, offset, |addresses|))
      decreases 10 - |addresses|
    {
      if offset + 7 > |raw| || |addresses| >= 10 {
        ReadStop(raw, offset, addresses);
        return Err("AX.25 address list is incomplete or excessive");
      }
      var decoded := DecodeAddress(raw[offset..offset + 7]);
      ReadStep(raw, offset, addresses, decoded);
      if decoded.Err? {
        return Err(decoded.error);
      }
      addresses := addresses + [decoded.value.0];
      offset := offset + 7;
      if decoded.value.1 {
        return Ok(AddressList(addresses, offset));
      }
    }
  }

  method DecodeUi(raw: Bytes) returns (r: Result<Frame, string>)
    ensures r == DecodeUiSpec(raw)
  {
    hide ReadAddresses;
    if |raw| < 16 {
      return Err("AX.25 frame is too short");
    }
    var list := ReadAddressList(raw);
    if list.Err? {
      return Err(list.error);
    }
    var AddressList(addresses, offset) := list.value;
    if |addresses| < 2 || offset + 2 > |raw| {
      return Err("AX.25 frame has no source/destination pair or control fields");
    }
    if raw[offset] != AX25_UI || raw[offset + 1] != AX25_NO_LAYER_3 {
      return Err("only AX.25 UI frames with PID F0 are accepted");
    }
    return Ok(Frame(addresses[0], addresses[1], raw[offset + 2..]));
  }

  function EncodeUi(source: string, destination: string, information: Bytes): Result<Bytes, string> {
    if |information| > 256 then Err("AX.25 information field is too large")
    else
      match EncodeAddress(destination, false)
      case Err(e) => Err(e)
      case Ok(to) =>
        match EncodeAddress(source, true)
        case Err(e) => Err(e)
        case Ok(from) => Ok(to + from + [AX25_UI, AX25_NO_LAYER_3] + information)
  }

  /** A path of further addresses: each decodes, and only the final one carries the end bit. */
  predicate Path(hops: seq<Bytes>) {
    forall i :: 0 <= i < |hops| ==>
      |hops[i]| == 7 && DecodeAddress(hops[i]).Ok? && DecodeAddress(hops[i]).value.1 == (i == |hops| - 1)
  }

  function Routed(source: string, destination: string, hops: seq<Bytes>, information: Bytes): Bytes
    requires EncodeAddress(destination, false).Ok? && EncodeAddress(source, hops == []).Ok?
  {
    EncodeAddress(destination, false).value + EncodeAddress(source, hops == []).value
      + (Flatten(hops) + ([AX25_UI, AX25_NO_LAYER_3] + information))
  }

  lemma {:induction false} ReadPath(raw: Bytes, offset: nat, count: nat, hops: seq<Bytes>, rest: Bytes)
    requires 1 <= |hops| && count <= 10 && Path(hops)
    requires offset <= |raw| && raw[offset..] == Flatten(hops) + rest
    ensures count + |hops| <= 10 ==>
      && ReadAddresses(raw, offset, count).Ok?
      && |ReadAddresses(raw, offset, count).value.addresses| == |hops|
      && ReadAddresses(raw, offset, count).value.addresses[0] == DecodeAddress(hops[0]).value.0
      && (|hops| > 1 ==> ReadAddresses(raw, offset, count).value.addresses[1] == DecodeAddress(hops[1]).value.0)
      && ReadAddresses(raw, offset, count).value.end == |raw| - |rest|
    ensures count + |hops| > 10 ==> ReadAddresses(raw, offset, count).Err?
    decreases |hops|
  {
    hide DecodeAddress;
    assert Flatten(hops) + rest == hops[0] + (Flatten(hops[1..]) + rest);
    assert raw[offset..][..7] == hops[0];
    assert raw[offset..offset + 7] == raw[offset..][..7];
    if count < 10 {
      if |hops| == 1 {
        assert Flatten(hops) == hops[0];
      } else {
        assert raw[offset + 7..] == raw[offset..][7..] == Flatten(hops[1..]) + rest;
        assert forall i :: 0 <= i < |hops| - 1 ==> hops[1..][i] == hops[i + 1];
        ReadPath(raw, offset + 7, count + 1, hops[1..], rest);
      }
    }
  }

  /**
   Up to eight further path addresses never change what is decoded, whatever their use bits; with
   more than eight the frame is rejected.
   */
  lemma RoutedDecodes(source: string, destination: string, hops: seq<Bytes>, information: Bytes)
    requires EncodeAddress(destination, false).Ok? && EncodeAddress(source, hops == []).Ok?
    requires Path(hops)
    ensures |hops| <= 8 ==>
      DecodeUiSpec(Routed(source, destination, hops, information)) == Ok(Frame(Upper(Strip(destination)), Upper(Strip(source)), information))
    ensures |hops| > 8 ==> DecodeUiSpec(Routed(source, destination, hops, information)).Err?
  {
    hide EncodeAddress, DecodeAddress, DecodeUiSpec, Upper, Strip;
    var to, from := EncodeAddress(destination, false).value, EncodeAddress(source, hops == []).value;
    AddressRoundTrip(destination, false);
    AddressRoundTrip(source, hops == []);
    var tail := [AX25_UI, AX25_NO_LAYER_3] + information;
    var all := [to, from] + hops;
    assert all[1..] == [from] + hops && all[1..][1..] == hops;
    assert Flatten(all) == to + (from + Flatten(hops));
    assert Routed(source, destination, hops, information) == Flatten(all) + tail;
    PathDecodes(all, information);
  }

  lemma PathDecodes(all: seq<Bytes>, information: Bytes)
    requires Path(all) && |all| >= 2
    ensures |all| <= 10 ==>
      DecodeUiSpec(Flatten(all) + ([AX25_UI, AX25_NO_LAYER_3] + information))
      == Ok(Frame(DecodeAddress(all[0]).value.0, DecodeAddress(all[1]).value.0, information))
    ensures |all| > 10 ==> DecodeUiSpec(Flatten(all) + ([AX25_UI, AX25_NO_LAYER_3] + information)).Err?
  {
    hide ReadAddresses, DecodeAddress, Flatten;
    var tail := [AX25_UI, AX25_NO_LAYER_3] + information;
    var raw := Flatten(all) + tail;
    assert raw[0..] == raw;
    ReadPath(raw, 0, 0, all, tail);
    if |all| <= 10 {
      var list := ReadAddresses(raw, 0, 0).value;
      assert raw[list.end..] == tail;
      assert raw[list.end] == tail[0] && raw[list.end + 1] == tail[1];
      assert raw[list.end + 2..] == tail[2..] == information;
    }
  }

  /** Encoding then decoding a UI frame returns destination, source and information. */
  lemma UiRoundTrip(source: string, destination: string, information: Bytes)
    requires EncodeUi(source, destination, information).Ok?
    ensures DecodeUiSpec(EncodeUi(source, destination, information).value)
         == Ok(Frame(Upper(Strip(destination)), Upper(Strip(source)), information))
  {
    RoutedDecodes(source, destination, [], information);
    assert Flatten<Byte>([]) + ([AX25_UI, AX25_NO_LAYER_3] + information) == [AX25_UI, AX25_NO_LAYER_3] + information;
    assert EncodeUi(source, destination, information).value == Routed(source, destination, [], information);
  }

  lemma {:induction false} ReadsCallsigns(raw: Bytes, offset: nat, count: nat)
    requires count <= 10 && ReadAddresses(raw, offset, count).Ok?
    ensures forall a :: a in ReadAddresses(raw, offset, count).value.addresses ==> Callsign(a)
    decreases 10 - count
  {
    DecodedIsCallsign(raw[offset..offset + 7]);
    if !DecodeAddress(raw[offset..offset + 7]).value.1 {
      ReadsCallsigns(raw, offset + 7, count + 1);
    }
  }

  /** Whatever bytes arrive, an accepted frame names two well-formed callsigns. */
  lemma DecodedFrameNamesCallsigns(raw: Bytes)
    requires DecodeUiSpec(raw).Ok?
    ensures Callsign(DecodeUiSpec(raw).value.source) && Callsign(DecodeUiSpec(raw).value.destination)
  {
    ReadsCallsigns(raw, 0, 0);
  }

  // ---- Third-party wrapper ----

  function RStripLineEnds(s: string): (r: string)
    ensures r <= s
  {
    if s != "" && (s[|s| - 1] == '\r' || s[|s| - 1] == '\n') then RStripLineEnds(s[..|s| - 1]) else s
  }

  datatype Tnc2 = Tnc2(source: string, destination: string, information: string)

  function ParseTnc2(packet: string): (r: Option<Tnc2>)
    ensures r.Some? && Ascii(packet) ==> Ascii(r.value.information)
  {
    var colon := Find(packet, ':');
    var header := packet[..colon];
    var arrow := Find(header, '>');
    if colon == |packet| || arrow == |header| then None
    else
      var route := header[arrow + 1..];
      Some(Tnc2(header[..arrow], route[..Find(route, ',')], packet[colon + 1..]))
  }

  function Unwrap(frame: Frame): Result<Frame, string> {
    if !(|frame.information| > 0 && frame.information[0] == '}' as int) then Ok(frame)
    else
      match DecodeAscii(frame.information[1..])
      case None => Err("Dire Wolf ICHANNEL wrapper is not ASCII")
      case Some(text) => UnwrapText(RStripLineEnds(text))
  }

  function UnwrapText(packet: string): Result<Frame, string>
    requires Ascii(packet)
  {
    match ParseTnc2(packet)
    case None => Err("Dire Wolf ICHANNEL wrapper has invalid TNC2 framing")
    case Some(tnc2) =>
      if tnc2.information == "" || tnc2.destination == "" then
        Err("Dire Wolf ICHANNEL wrapper has invalid TNC2 framing")
      else if '\r' in packet || '\n' in packet || tnc2.information[0] == '}' then
        Err("Dire Wolf ICHANNEL wrapper contains invalid nested data")
      else
        var from, to := Upper(Strip(tnc2.source)), Upper(Strip(tnc2.destination));
        if SplitCallsign(from).Err? || SplitCallsign(to).Err? then Err("invalid AX.25 callsign")
        else Ok(Frame(to, from, EncodeAscii(tnc2.information)))
  }

  /** The wrapper Dire Wolf puts around a packet: TNC2 text after a closing brace. */
  function WrapText(source: string, destination: string, route: string, information: string): string {
    source + ">" + destination + route + ":" + information
  }

  predicate LineEnds(s: string) {
    forall i :: 0 <= i < |s| ==> s[i] == '\r' || s[i] == '\n'
  }

  /** What the wrapper can carry unharmed. */
  predicate Carried(information: string) {
    && information != "" && information[0] != '}'
    && '\r' !in information && '\n' !in information
  }

  lemma {:induction false} RStripLineEndsOf(s: string, ends: string)
    requires LineEnds(ends)
    ensures RStripLineEnds(s + ends) == RStripLineEnds(s)
    decreases |ends|
  {
    if ends == "" {
      assert s + ends == s;
    } else {
      var t := s + ends;
      assert t[..|t| - 1] == s + ends[..|ends| - 1];
      RStripLineEndsOf(s, ends[..|ends| - 1]);
    }
  }

  lemma {:induction false} RStripLineEndsPrefix(s: string)
    ensures RStripLineEnds(s) != "" ==> RStripLineEnds(s)[|RStripLineEnds(s)| - 1] !in "\r\n"
  {
    if s != "" && (s[|s| - 1] == '\r' || s[|s| - 1] == '\n') {
      RStripLineEndsPrefix(s[..|s| - 1]);
    }
  }

  /**
   Unwrapping a wrapped packet yields the original source, destination and information, for every
   path and every number of trailing line ends, exactly when the information is one the wrapper can
   carry: not empty, not itself a wrapper, and free of line ends.
   */
  lemma WrapRoundTrip(outer: Frame, source: string, destination: string, route: string, information: string, ends: string)
    requires Callsign(source) && Callsign(destination) && LineEnds(ends)
    requires route == "" || route[0] == ','
    requires ':' !in route && '\r' !in route && '\n' !in route
    requires Ascii(WrapText(source, destination, route, information) + ends) && Ascii(information)
    requires outer.information == ['}' as int] + EncodeAscii(WrapText(source, destination, route, information) + ends)
    ensures Unwrap(outer) == Ok(Frame(destination, source, EncodeAscii(information))) <==> Carried(information)
  {
    hide Callsign, UnwrapText, RStripLineEnds;
    var whole := WrapText(source, destination, route, information);
    var head := source + ">" + destination + route + ":";
    AsciiRoundTrip(whole + ends);
    assert outer.information[1..] == EncodeAscii(whole + ends);
    RStripLineEndsOf(whole, ends);
    assert Unwrap(outer) == UnwrapText(RStripLineEnds(whole));
    assert whole == head + information;
    CarriedIsPrefix(head, information);
    var packet := RStripLineEnds(whole);
    var carried := packet[|head|..];
    assert packet == head + carried && carried <= information;
    PacketUnwraps(source, destination, route, carried);
    if Carried(information) {
      LastStays(head, information);
      assert carried == information;
    } else if carried != information {
      assert |carried| < |information|;
    }
  }

  lemma HeaderHas(source: string, destination: string, route: string, information: string, c: char)
    requires Callsign(source) && Callsign(destination) && c !in route
    requires c == '\r' || c == '\n'
    ensures c in source + ">" + destination + route + ":" + information <==> c in information
  {
    CallsignCharacters(source);
    CallsignCharacters(destination);
    assert c !in source && c !in destination;
  }

  lemma PacketUnwraps(source: string, destination: string, route: string, information: string)
    requires Callsign(source) && Callsign(destination)
    requires route == "" || route[0] == ','
    requires ':' !in route && '\r' !in route && '\n' !in route
    requires Ascii(source + ">" + destination + route + ":" + information)
    requires Ascii(information)
    ensures var r := UnwrapText(source + ">" + destination + route + ":" + information);
      && (r.Ok? <==> Carried(information))
      && (r.Ok? ==> r.value == Frame(destination, source, EncodeAscii(information)))
  {
    hide Callsign, ParseTnc2, Upper, Strip, Find;
    var packet := source + ">" + destination + route + ":" + information;
    HeaderParses(source, destination, route, information);
    CallsignCanonical(source);
    CallsignCanonical(destination);
    HeaderHas(source, destination, route, information, '\r');
    HeaderHas(source, destination, route, information, '\n');
    assert ParseTnc2(packet).value == Tnc2(source, destination, information);
    assert UnwrapText(packet).Ok? <==> Carried(information);
  }

  lemma HeaderParses(source: string, destination: string, route: string, information: string)
    requires Callsign(source) && Callsign(destination)
    requires route == "" || route[0] == ','
    requires ':' !in route
    ensures ParseTnc2(source + ">" + destination + route + ":" + information)
         == Some(Tnc2(source, destination, information))
  {
    hide Callsign, Find;
    CallsignCharacters(source);
    CallsignCharacters(destination);
    var head := source + ">" + destination + route;
    var packet := head + ":" + information;
    assert packet == source + ">" + destination + route + ":" + information;
    assert packet[..|head|] == head;
    FindIs(packet, ':', |head|);
    assert head[..|source|] == source;
    FindIs(head, '>', |source|);
    var tail := head[|source| + 1..];
    assert tail == destination + route;
    assert tail[..|destination|] == destination;
    FindIs(tail, ',', |destination|);
  }

  lemma {:induction false} PacketKeepsHeader(head: string, information: string)
    requires head != "" && head[|head| - 1] == ':'
    ensures head <= RStripLineEnds(head + information)
    decreases |information|
  {
    if information == "" {
      assert head + information == head;
    } else {
      var s := head + information;
      assert s[..|s| - 1] == head + information[..|information| - 1];
      PacketKeepsHeader(head, information[..|information| - 1]);
    }
  }

  lemma LastStays(head: string, information: string)
    requires information != "" && '\r' !in information && '\n' !in information
    ensures RStripLineEnds(head + information) == head + information
  {
    assert (head + information)[|head + information| - 1] == information[|information| - 1];
    assert information[|information| - 1] in information;
  }

  lemma CarriedIsPrefix(head: string, information: string)
    requires head != "" && head[|head| - 1] == ':'
    ensures head <= RStripLineEnds(head + information) <= head + information
  {
    PacketKeepsHeader(head, information);
    RStripLineEndsPrefix(head + information);
  }

  /** An accepted frame still names two callsigns after unwrapping. */
  lemma UnwrappedNamesCallsigns(frame: Frame)
    requires Callsign(frame.source) && Callsign(frame.destination)
    requires Unwrap(frame).Ok?
    ensures Callsign(Unwrap(frame).value.source) && Callsign(Unwrap(frame).value.destination)
  {
    if |frame.information| > 0 && frame.information[0] == '}' as int {
      var packet := RStripLineEnds(DecodeAscii(frame.information[1..]).value);
      var tnc2 := ParseTnc2(packet).value;
      UpperStripStable(tnc2.source);
      UpperStripStable(tnc2.destination);
    }
  }

  lemma UpperStripStable(v: string)
    ensures Upper(Strip(Upper(Strip(v)))) == Upper(Strip(v))
  {
    var t := Strip(v);
    var s := Upper(t);
    StripEnds(v);
    assert s != "" ==> IsSpace(s[0]) == IsSpace(t[0]) && IsSpace(s[|s| - 1]) == IsSpace(t[|t| - 1]);
    assert Strip(s) == s;
    UpperFixed(s);
  }
}
