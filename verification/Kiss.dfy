/**
 KISS framing between the agent and its local TNC (Chepponis and Karn, sections "Asynchronous
 Frame Format" and "Transparency"): the incremental decoder as a byte machine, the encoder, and a
 declarative reading of a stream as FEND-delimited segments that the decoder is proved to compute.
 */
module Kiss {
  import opened Basics

  const FEND: Byte := 0xC0
  const FESC: Byte := 0xDB
  const TFEND: Byte := 0xDC
  const TFESC: Byte := 0xDD
  const KISS_DATA: Byte := 0x00

  datatype DecoderState = DecoderState(frame: Bytes, escaped: bool, discarding: bool)

  const CLEAN := DecoderState([], false, false)

  predicate Reachable(maximum: nat, s: DecoderState) {
    |s.frame| <= maximum && (s.discarding ==> s.frame == [] && !s.escaped)
  }

  // ---- The decoder as a transition function ----

  function Flush(s: DecoderState): seq<Bytes> {
    if s.frame != [] && !s.discarding && !s.escaped then [s.frame] else []
  }

  function Append(maximum: nat, frame: Bytes, value: Byte): DecoderState {
    if |frame| + 1 > maximum then DecoderState([], false, true)
    else DecoderState(frame + [value], false, false)
  }

  function StepByte(maximum: nat, s: DecoderState, value: Byte): DecoderState {
    if value == FEND then CLEAN
    else if s.discarding then s
    else if s.escaped then
      if value == TFEND then Append(maximum, s.frame, FEND)
      else if value == TFESC then Append(maximum, s.frame, FESC)
      else DecoderState([], false, true)
    else if value == FESC then s.(escaped := true)
    else Append(maximum, s.frame, value)
  }

  function RunState(maximum: nat, s: DecoderState, data: Bytes): DecoderState
    decreases |data|
  {
    if data == [] then s else RunState(maximum, StepByte(maximum, s, data[0]), data[1..])
  }

  function RunFrames(maximum: nat, s: DecoderState, data: Bytes): seq<Bytes>
    decreases |data|
  {
    if data == [] then []
    else (if data[0] == FEND then Flush(s) else []) + RunFrames(maximum, StepByte(maximum, s, data[0]), data[1..])
  }

  function RunChunks(maximum: nat, s: DecoderState, chunks: seq<Bytes>): (seq<Bytes>, DecoderState)
    decreases |chunks|
  {
    if chunks == [] then ([], s)
    else
      var (rest, last) := RunChunks(maximum, RunState(maximum, s, chunks[0]), chunks[1..]);
      (RunFrames(maximum, s, chunks[0]) + rest, last)
  }

  /** The decoder object. Between calls the buffered frame never exceeds `maximum`. */
  class KissDecoder {
    const maximum: nat
    var frame: Bytes
    var escaped: bool
    var discarding: bool

    ghost function State(): DecoderState
      reads this
    {
      DecoderState(frame, escaped, discarding)
    }

    ghost predicate Valid()
      reads this
    {
      Reachable(maximum, State())
    }

    constructor (maximum: nat)
      ensures Valid() && this.maximum == maximum && State() == CLEAN
    {
      this.maximum := maximum;
      frame, escaped, discarding := [], false, false;
    }

    method Feed(data: Bytes) returns (frames: seq<Bytes>)
      requires Valid()
      modifies this
      ensures Valid()
      ensures State() == RunState(maximum, old(State()), data)
      ensures frames == RunFrames(maximum, old(State()), data)
    {
      frames := [];
      var i := 0;
      assert data[0..] == data;
      RunNothing(maximum, data);
      hide RunState, RunFrames, StepByte, Flush;
      while i < |data|
        invariant 0 <= i <= |data|
        invariant Valid()
        invariant RunState(maximum, State(), data[i..]) == RunState(maximum, old(State()), data)
        invariant frames + RunFrames(maximum, State(), data[i..]) == RunFrames(maximum, old(State()), data)
      {
        RunFirst(maximum, State(), data, i);
        ghost var after := StepByte(maximum, State(), data[i]);
        var complete := Accept(data[i]);
        Associate(frames, complete, RunFrames(maximum, after, data[i + 1..]));
        frames := frames + complete;
        i := i + 1;
      }
    }

    /** The loop body of Feed: one octet, and the frame it completes if it closes one. */
    method Accept(octet: Byte) returns (frames: seq<Bytes>)
      requires Valid()
      modifies this
      ensures Valid()
      ensures State() == StepByte(maximum, old(State()), octet)
      ensures frames == if octet == FEND then Flush(old(State())) else []
    {
      frames := [];
      var value := octet;
      if value == FEND {
        if frame != [] && !discarding && !escaped {
          frames := frames + [frame];
        }
        frame, escaped, discarding := [], false, false;
        return;
      }
      if discarding {
        return;
      }
      if escaped {
        if value == TFEND {
          value := FEND;
        } else if value == TFESC {
          value := FESC;
        } else {
          frame, discarding, escaped := [], true, false;
          return;
        }
        escaped := false;
      } else if value == FESC {
        escaped := true;
        return;
      }
      frame := frame + [value];
      if |frame| > maximum {
        frame, discarding := [], true;
      }
    }
  }

  lemma RunNothing(maximum: nat, data: Bytes)
    ensures data[|data|..] == []
    ensures forall s :: RunState(maximum, s, []) == s && RunFrames(maximum, s, []) == []
  {
  }

  lemma RunFirst(maximum: nat, s: DecoderState, data: Bytes, i: nat)
    requires i < |data|
    ensures var after := StepByte(maximum, s, data[i]);
      && RunState(maximum, s, data[i..]) == RunState(maximum, after, data[i + 1..])
      && RunFrames(maximum, s, data[i..])
         == (if data[i] == FEND then Flush(s) else []) + RunFrames(maximum, after, data[i + 1..])
  {
    hide StepByte, Flush;
    assert data[i..][0] == data[i] && data[i..][1..] == data[i + 1..];
  }

  /** The bound on the buffer holds after every single byte, not only between calls to Feed. */
  lemma {:induction false} BufferBounded(maximum: nat, s: DecoderState, data: Bytes)
    requires Reachable(maximum, s)
    ensures forall k :: 0 <= k <= |data| ==> Reachable(maximum, RunState(maximum, s, data[..k]))
    ensures forall f :: f in RunFrames(maximum, s, data) ==> 0 < |f| <= maximum
    decreases |data|
  {
    if data == [] {
    } else {
      var s' := StepByte(maximum, s, data[0]);
      BufferBounded(maximum, s', data[1..]);
      forall k | 0 <= k <= |data| ensures Reachable(maximum, RunState(maximum, s, data[..k])) {
        if k > 0 {
          assert data[..k][0] == data[0] && data[..k][1..] == data[1..][..k - 1];
        }
      }
    }
  }

  // ---- Composition and chunking ----

  lemma {:induction false} RunCompose(maximum: nat, s: DecoderState, a: Bytes, b: Bytes)
    ensures RunState(maximum, s, a + b) == RunState(maximum, RunState(maximum, s, a), b)
    ensures RunFrames(maximum, s, a + b) == RunFrames(maximum, s, a) + RunFrames(maximum, RunState(maximum, s, a), b)
    decreases |a|
  {
    if a == [] {
      assert a + b == b;
    } else {
      assert (a + b)[0] == a[0] && (a + b)[1..] == a[1..] + b;
      RunCompose(maximum, StepByte(maximum, s, a[0]), a[1..], b);
    }
  }

  /** However the transport splits the stream, the decoder yields the same frames and ends in the same state. */
  lemma {:induction false} ChunkingIrrelevant(maximum: nat, s: DecoderState, chunks: seq<Bytes>)
    ensures RunChunks(maximum, s, chunks)
         == (RunFrames(maximum, s, Flatten(chunks)), RunState(maximum, s, Flatten(chunks)))
    decreases |chunks|
  {
    if chunks == [] {
    } else {
      ChunkingIrrelevant(maximum, RunState(maximum, s, chunks[0]), chunks[1..]);
      RunCompose(maximum, s, chunks[0], Flatten(chunks[1..]));
    }
  }

  // ---- Declarative reading of a stream ----

  /** What a FEND-free segment stands for; None if an escape is cut off or unknown. */
  function Unescape(segment: Bytes): Option<Bytes> {
    if segment == [] then Some([])
    else if segment[0] == FESC then
      if |segment| < 2 || (segment[1] != TFEND && segment[1] != TFESC) then None
      else
        match Unescape(segment[2..])
        case None => None
        case Some(rest) => Some([if segment[1] == TFEND then FEND else FESC] + rest)
    else
      match Unescape(segment[1..])
      case None => None
      case Some(rest) => Some([segment[0]] + rest)
  }

  /** The frames a closed segment delivers after `prefix` has been buffered. */
  function Delivered(maximum: nat, prefix: Bytes, segment: Bytes): seq<Bytes> {
    match Unescape(segment)
    case None => []
    case Some(rest) => if 0 < |prefix + rest| <= maximum then [prefix + rest] else []
  }

  /** Cuts a stream at its FENDs; the last piece is the segment still open. */
  function Segments(data: Bytes): (r: seq<Bytes>)
    ensures |r| > 0
    ensures forall p :: p in r ==> FEND !in p
  {
    if data == [] then [[]]
    else
      var rest := Segments(data[1..]);
      if data[0] == FEND then [[]] + rest
      else [[data[0]] + rest[0]] + rest[1..]
  }

  function DeliveredAll(maximum: nat, closed: seq<Bytes>): seq<Bytes> {
    if closed == [] then [] else Delivered(maximum, [], closed[0]) + DeliveredAll(maximum, closed[1..])
  }

  lemma {:induction false} DiscardSegment(maximum: nat, segment: Bytes)
    requires FEND !in segment
    ensures RunFrames(maximum, DecoderState([], false, true), segment + [FEND]) == []
    ensures RunState(maximum, DecoderState([], false, true), segment + [FEND]) == CLEAN
  {
    if segment == [] {
      assert segment + [FEND] == [FEND];
    } else {
      assert (segment + [FEND])[1..] == segment[1..] + [FEND];
      DiscardSegment(maximum, segment[1..]);
    }
  }

  lemma LoneFend(maximum: nat, s: DecoderState)
    ensures RunFrames(maximum, s, [FEND]) == Flush(s) && RunState(maximum, s, [FEND]) == CLEAN
  {
    assert [FEND][1..] == [];
    assert RunFrames(maximum, CLEAN, []) == [] && RunState(maximum, CLEAN, []) == CLEAN;
    assert Flush(s) + [] == Flush(s);
  }

  /** One segment closed by FEND: the byte machine delivers what its unescaping says. */
  lemma {:induction false} ClosedSegment(maximum: nat, prefix: Bytes, segment: Bytes)
    requires FEND !in segment && |prefix| <= maximum
    ensures RunFrames(maximum, DecoderState(prefix, false, false), segment + [FEND]) == Delivered(maximum, prefix, segment)
    ensures RunState(maximum, DecoderState(prefix, false, false), segment + [FEND]) == CLEAN
    decreases |segment|, 1
  {
    var s := DecoderState(prefix, false, false);
    var closed := segment + [FEND];
    if segment == [] {
      assert closed == [FEND] && prefix + [] == prefix;
    } else if segment[0] != FESC {
      assert closed[1..] == segment[1..] + [FEND];
      AfterLiteral(maximum, prefix, segment[0], segment[1..]);
    } else if |segment| == 1 {
      assert closed == [FESC, FEND];
      assert closed[1..] == [FEND];
      var s1 := s.(escaped := true);
      assert StepByte(maximum, s, FESC) == s1;
      LoneFend(maximum, s1);
    } else {
      var s1 := s.(escaped := true);
      assert closed[1..][0] == segment[1] && closed[1..][1..] == segment[2..] + [FEND];
      if segment[1] == TFEND {
        AfterLiteral(maximum, prefix, FEND, segment[2..]);
      } else if segment[1] == TFESC {
        AfterLiteral(maximum, prefix, FESC, segment[2..]);
      } else {
        DiscardSegment(maximum, segment[2..]);
        assert StepByte(maximum, s1, segment[1]) == DecoderState([], false, true);
      }
    }
  }

  lemma AfterLiteral(maximum: nat, prefix: Bytes, value: Byte, rest: Bytes)
    requires FEND !in rest && |prefix| <= maximum
    ensures RunState(maximum, Append(maximum, prefix, value), rest + [FEND]) == CLEAN
    ensures RunFrames(maximum, Append(maximum, prefix, value), rest + [FEND])
         == match Unescape(rest)
            case None => []
            case Some(tail) => if |prefix + ([value] + tail)| <= maximum then [prefix + ([value] + tail)] else []
    decreases |rest| + 1, 0, 0
  {
    if |prefix| + 1 > maximum {
      DiscardSegment(maximum, rest);
    } else {
      ClosedSegment(maximum, prefix + [value], rest);
      match Unescape(rest)
      case None =>
      case Some(tail) => assert prefix + [value] + tail == prefix + ([value] + tail);
    }
  }

  lemma {:induction false} SegmentsFirst(data: Bytes)
    ensures |Segments(data)| == 1 ==> data == Segments(data)[0]
    ensures |Segments(data)| > 1 ==>
      var first := Segments(data)[0];
      && |first| < |data|
      && data == first + [FEND] + data[|first| + 1..]
      && Segments(data)[1..] == Segments(data[|first| + 1..])
  {
    if data == [] {
    } else if data[0] == FEND {
      assert data == [] + [FEND] + data[1..];
    } else {
      SegmentsFirst(data[1..]);
      var parts, rest := Segments(data), Segments(data[1..]);
      assert parts[0] == [data[0]] + rest[0] && |parts| == |rest| && parts[1..] == rest[1..];
      hide Segments;
      assert data == [data[0]] + data[1..];
      if |rest| > 1 {
        var tail := data[1..][|rest[0]| + 1..];
        assert tail == data[|parts[0]| + 1..];
        Prefixed(data[0], rest[0], tail);
      }
    }
  }

  lemma Prefixed(value: Byte, first: Bytes, tail: Bytes)
    ensures [value] + (first + [FEND] + tail) == ([value] + first) + [FEND] + tail
  {
  }

  lemma {:induction false} OpenSegment(maximum: nat, s: DecoderState, segment: Bytes)
    requires FEND !in segment
    ensures RunFrames(maximum, s, segment) == []
    decreases |segment|
  {
    if segment != [] {
      OpenSegment(maximum, StepByte(maximum, s, segment[0]), segment[1..]);
    }
  }

  /** From a clean decoder, any stream delivers exactly the readings of its closed segments. */
  lemma {:induction false} DecoderReadsSegments(maximum: nat, data: Bytes)
    ensures RunFrames(maximum, CLEAN, data) == DeliveredAll(maximum, Segments(data)[..|Segments(data)| - 1])
    decreases |data|
  {
    var parts := Segments(data);
    SegmentsFirst(data);
    if |parts| == 1 {
      OpenSegment(maximum, CLEAN, data);
    } else {
      var rest := data[|parts[0]| + 1..];
      ClosedSegment(maximum, [], parts[0]);
      RunCompose(maximum, CLEAN, parts[0] + [FEND], rest);
      DecoderReadsSegments(maximum, rest);
      var closed := parts[..|parts| - 1];
      assert closed[0] == parts[0] && closed[1..] == Segments(rest)[..|Segments(rest)| - 1];
    }
  }

  // ---- The encoder ----

  function ReplaceByte(data: Bytes, target: Byte, replacement: Bytes): Bytes {
    if data == [] then []
    else (if data[0] == target then replacement else [data[0]]) + ReplaceByte(data[1..], target, replacement)
  }

  function Escape(raw: Bytes): Bytes {
    ReplaceByte(ReplaceByte(raw, FESC, [FESC, TFESC]), FEND, [FESC, TFEND])
  }

  function Raw(channel: nat, payload: Bytes): Bytes
    requires channel <= 15
  {
    [channel * 16 + KISS_DATA] + payload
  }

  function EncodeKiss(channel: int, payload: Bytes): Result<Bytes, string> {
    if !(0 <= channel <= 15) then Err("KISS channel must be between 0 and 15")
    else Ok([FEND] + Escape(Raw(channel, payload)) + [FEND])
  }

  lemma {:induction false} ReplaceCompose(a: Bytes, b: Bytes, target: Byte, replacement: Bytes)
    ensures ReplaceByte(a + b, target, replacement) == ReplaceByte(a, target, replacement) + ReplaceByte(b, target, replacement)
  {
    if a == [] {
      assert a + b == b;
    } else {
      assert (a + b)[1..] == a[1..] + b;
      ReplaceCompose(a[1..], b, target, replacement);
    }
  }

  /** Escaping is transparent: no FEND survives and unescaping restores every octet. */
  lemma {:induction false} EscapeTransparent(raw: Bytes)
    ensures FEND !in Escape(raw)
    ensures Unescape(Escape(raw)) == Some(raw)
  {
    if raw == [] {
    } else {
      EscapeTransparent(raw[1..]);
      EscapeFirst(raw);
      var code, rest := EscapeByte(raw[0]), Escape(raw[1..]);
      hide Escape;
      assert (code + rest)[|code|..] == rest;
      assert raw == [raw[0]] + raw[1..];
    }
  }

  function EscapeByte(value: Byte): Bytes {
    if value == FESC then [FESC, TFESC] else if value == FEND then [FESC, TFEND] else [value]
  }

  /** The two replacements amount to escaping octet by octet. */
  lemma EscapeFirst(raw: Bytes)
    requires raw != []
    ensures Escape(raw) == EscapeByte(raw[0]) + Escape(raw[1..])
  {
    var head := if raw[0] == FESC then [FESC, TFESC] else [raw[0]];
    var tail := ReplaceByte(raw[1..], FESC, [FESC, TFESC]);
    assert ReplaceByte(raw, FESC, [FESC, TFESC]) == head + tail;
    ReplaceCompose(head, tail, FEND, [FESC, TFEND]);
    assert head[1..] == if raw[0] == FESC then [TFESC] else [];
    assert ReplaceByte([TFESC], FEND, [FESC, TFEND]) == [TFESC];
    assert ReplaceByte(head, FEND, [FESC, TFEND]) == EscapeByte(raw[0]);
  }

  /**
   Self-synchronisation: from any decoder state, an encoded frame first flushes whatever was
   complete, then is delivered last exactly when it fits, and leaves the decoder clean.
   */
  lemma FeedEncoded(maximum: nat, s: DecoderState, channel: nat, payload: Bytes)
    requires channel <= 15
    ensures var wire := EncodeKiss(channel, payload).value;
      && RunState(maximum, s, wire) == CLEAN
      && RunFrames(maximum, s, wire)
         == Flush(s) + (if |payload| + 1 <= maximum then [[channel * 16] + payload] else [])
  {
    var raw := Raw(channel, payload);
    var wire := EncodeKiss(channel, payload).value;
    var tail := Escape(raw) + [FEND];
    EscapeTransparent(raw);
    ClosedSegment(maximum, [], Escape(raw));
    assert [] + raw == raw;
    assert wire[0] == FEND && wire[1..] == tail;
  }

  function EncodeAll(messages: seq<(nat, Bytes)>): Bytes
    requires forall m :: m in messages ==> m.0 <= 15
  {
    if messages == [] then []
    else EncodeKiss(messages[0].0, messages[0].1).value + EncodeAll(messages[1..])
  }

  function Frames(messages: seq<(nat, Bytes)>): seq<Bytes>
    requires forall m :: m in messages ==> m.0 <= 15
  {
    if messages == [] then [] else [Raw(messages[0].0, messages[0].1)] + Frames(messages[1..])
  }

  lemma {:induction false} StreamDecodes(maximum: nat, messages: seq<(nat, Bytes)>)
    requires forall m :: m in messages ==> m.0 <= 15 && |m.1| + 1 <= maximum
    ensures RunFrames(maximum, CLEAN, EncodeAll(messages)) == Frames(messages)
    ensures RunState(maximum, CLEAN, EncodeAll(messages)) == CLEAN
  {
    if messages == [] {
    } else {
      StreamDecodes(maximum, messages[1..]);
      FeedEncoded(maximum, CLEAN, messages[0].0, messages[0].1);
      RunCompose(maximum, CLEAN, EncodeKiss(messages[0].0, messages[0].1).value, EncodeAll(messages[1..]));
    }
  }

  /** A concatenation of encoded frames decodes to exactly that list for every way of splitting it. */
  lemma StreamRoundTrip(maximum: nat, messages: seq<(nat, Bytes)>, chunks: seq<Bytes>)
    requires forall m :: m in messages ==> m.0 <= 15 && |m.1| + 1 <= maximum
    requires Flatten(chunks) == EncodeAll(messages)
    ensures RunChunks(maximum, CLEAN, chunks) == (Frames(messages), CLEAN)
  {
    ChunkingIrrelevant(maximum, CLEAN, chunks);
    StreamDecodes(maximum, messages);
  }
}
