/** The receipt book of the LAN witness: its protocol, its coverage verdict and its replay (pcs_qualify_lan.py). */
module LanReceipts {
  import opened Basics

  const MAX_SAMPLES := 310

  /** The longest sample and the longest gap between samples, in seconds. */
  const MAX_SECONDS := 3.0

  /** A decoded JSON value, as far as the protocol looks at it. */
  datatype Value = Whole(int) | Flag(flag: bool) | Text(string) | Other

  datatype Packet = NotObject | Object(fields: map<string, Value>)

  datatype Request = BeforeOf(number: int) | AfterOf(number: int, ok: bool)

  datatype Reading = Foreign | Malformed | Asks(request: Request)

  datatype Sample = Sample(number: int, before: real, after: real, ok: bool)

  datatype Reply = Reply(number: int, isAfter: bool, receipt: real, done: bool)

  datatype Book = Book(samples: seq<Sample>, pending: Option<real>, invalid: bool, finishAfter: Option<real>)

  const EMPTY := Book([], None, false, None)

  datatype Answer = Answer(book: Book, reply: Option<Reply>)

  // ---- Packets ----

  function Field(packet: Packet, name: string): Option<Value> {
    if packet.Object? && name in packet.fields then Some(packet.fields[name]) else None
  }

  function Read(session: string, packet: Packet): Reading {
    var after := Field(packet, "phase") == Some(Text("after"));
    var before := Field(packet, "phase") == Some(Text("before"));
    var expected := {"version", "session", "seq", "phase"} + (if after then {"ok"} else {});
    if Field(packet, "session") != Some(Text(session)) then Foreign
    else if packet.fields.Keys != expected || packet.fields["version"] != Whole(1) then Malformed
    else
      match packet.fields["seq"]
      case Whole(n) =>
        if !(0 <= n < MAX_SAMPLES) then Malformed
        else if before then Asks(BeforeOf(n))
        else if after && packet.fields["ok"].Flag? then Asks(AfterOf(n, packet.fields["ok"].flag))
        else Malformed
      case _ => Malformed
  }

  /** What the client sends. */
  function Encode(session: string, request: Request): Packet {
    var common := map["version" := Whole(1), "session" := Text(session), "seq" := Whole(request.number)];
    match request
    case BeforeOf(_) => Object(common["phase" := Text("before")])
    case AfterOf(_, ok) => Object(common["phase" := Text("after")]["ok" := Flag(ok)])
  }

  /** The receiver reads back what the client sent exactly when the number is within the protocol's bound. */
  lemma RequestRoundTrip(session: string, request: Request)
    ensures Read(session, Encode(session, request)) == Asks(request) <==> 0 <= request.number < MAX_SAMPLES
    ensures Read(session, Encode(session, request)) == Malformed <==> !(0 <= request.number < MAX_SAMPLES)
  {
    var packet := Encode(session, request);
    assert "before" != "after";
    if request.BeforeOf? {
      assert packet.fields.Keys == {"version", "session", "seq", "phase"};
    } else {
      assert packet.fields.Keys == {"version", "session", "seq", "phase", "ok"};
    }
  }

  // ---- The book ----

  predicate Reached(finishAfter: Option<real>, at: real) {
    finishAfter.Some? && at >= finishAfter.value
  }

  function Handle(b: Book, request: Request, now: real): Answer {
    var n := request.number;
    if 0 <= n < |b.samples| then
      var sample := b.samples[n];
      (match request
       case BeforeOf(_) => Answer(b, Some(Reply(n, false, sample.before, false)))
       case AfterOf(_, ok) =>
         if ok != sample.ok then Answer(b.(invalid := true), None)
         else Answer(b, Some(Reply(n, true, sample.after, Reached(b.finishAfter, sample.after)))))
    else if n != |b.samples| then Answer(b.(invalid := true), None)
    else
      match request
      case BeforeOf(_) =>
        var at := if b.pending.Some? then b.pending.value else now;
        Answer(b.(pending := Some(at)), Some(Reply(n, false, at, false)))
      case AfterOf(_, ok) =>
        if b.pending.None? || !(0.0 <= now - b.pending.value <= MAX_SECONDS) then Answer(b.(invalid := true), None)
        else
          var late := b.samples != [] && b.pending.value - b.samples[|b.samples| - 1].after > MAX_SECONDS;
          Answer(b.(samples := b.samples + [Sample(n, b.pending.value, now, ok)],
                    pending := None, invalid := b.invalid || late),
                 Some(Reply(n, true, now, Reached(b.finishAfter, now))))
  }

  function AnswerTo(session: string, b: Book, packet: Packet, now: real): Answer {
    match Read(session, packet)
    case Foreign => Answer(b, None)
    case Malformed => Answer(b.(invalid := true), None)
    case Asks(request) => Handle(b, request, now)
  }

  // ---- Every run ----

  datatype Worker = Worker(book: Book, finished: bool)

  datatype Event = Datagram(packet: Packet, now: real) | Finish(at: real, now: real)

  function Next(session: string, w: Worker, e: Event): Worker {
    match e
    case Datagram(packet, now) =>
      var answer := AnswerTo(session, w.book, packet, now);
      Worker(answer.book, w.finished || (answer.reply.Some? && answer.reply.value.done))
    case Finish(at, now) =>
      if 0.0 <= at <= now && (w.book.finishAfter == None || w.book.finishAfter == Some(at))
      then w.(book := w.book.(finishAfter := Some(at))) else w
  }

  function Run(session: string, w: Worker, events: seq<Event>): Worker {
    if events == [] then w else Next(session, Run(session, w, events[..|events| - 1]), events[|events| - 1])
  }

  const NEW := Worker(EMPTY, false)

  predicate TooFarApart(earlier: Sample, later: Sample) {
    later.before - earlier.after > MAX_SECONDS
  }

  /** The gap after the i-th sample. */
  predicate GapAfter(samples: seq<Sample>, i: int)
    requires 0 <= i < |samples| - 1
  {
    TooFarApart(samples[i], samples[i + 1])
  }

  predicate Gapless(samples: seq<Sample>) {
    forall i :: 0 <= i < |samples| - 1 ==> !GapAfter(samples, i)
  }

  /** What holds of a sample whatever the clock does. */
  predicate Timed(s: Sample) {
    0.0 <= s.after - s.before <= MAX_SECONDS
  }

  predicate Accepted(samples: seq<Sample>) {
    && |samples| <= MAX_SAMPLES
    && forall i :: 0 <= i < |samples| ==> samples[i].number == i && Timed(samples[i])
  }

  predicate Sound(w: Worker) {
    && Accepted(w.book.samples)
    && (w.book.invalid || Gapless(w.book.samples))
    && (w.finished ==> w.book.finishAfter.Some?
                       && exists i :: 0 <= i < |w.book.samples| && w.book.samples[i].after >= w.book.finishAfter.value)
  }

  /** Reading of the clock at an event. */
  function At(e: Event): real { e.now }

  /** The clock of the run never goes back and is never negative. */
  predicate Clocked(events: seq<Event>) {
    && (forall i :: 0 <= i < |events| ==> At(events[i]) >= 0.0)
    && forall i, j :: 0 <= i < j < |events| ==> At(events[i]) <= At(events[j])
  }

  predicate Ordered(samples: seq<Sample>) {
    && (forall i :: 0 <= i < |samples| ==> 0.0 <= samples[i].before)
    && (forall i, j :: 0 <= i < j < |samples| ==> samples[i].after <= samples[j].before)
  }

  /** Samples and the pending receipt are in the order of the clock, all before `now`. */
  predicate InOrder(b: Book, now: real) {
    && Ordered(b.samples) && 0.0 <= now
    && (forall i :: 0 <= i < |b.samples| ==> b.samples[i].after <= now)
    && (b.pending.Some? ==>
          0.0 <= b.pending.value <= now && forall i :: 0 <= i < |b.samples| ==> b.samples[i].after <= b.pending.value)
  }

  lemma HandleSound(b: Book, finished: bool, request: Request, now: real)
    requires Sound(Worker(b, finished)) && request.number < MAX_SAMPLES
    ensures var a := Handle(b, request, now);
      Sound(Worker(a.book, finished || (a.reply.Some? && a.reply.value.done)))
  {
    var a := Handle(b, request, now);
    var w := Worker(a.book, finished || (a.reply.Some? && a.reply.value.done));
    if w.finished {
      if finished {
        var k :| 0 <= k < |b.samples| && b.samples[k].after >= b.finishAfter.value;
        assert a.book.samples[k] == b.samples[k];
      } else {
        assert a.book.samples[request.number].after == a.reply.value.receipt;
      }
    }
    if |a.book.samples| > |b.samples| && !a.book.invalid {
      forall i | 0 <= i < |a.book.samples| - 1 ensures !GapAfter(a.book.samples, i) {
        if i < |b.samples| - 1 {
          assert !GapAfter(b.samples, i);
        }
      }
    }
  }

  lemma {:induction false} RunSound(session: string, events: seq<Event>)
    ensures Sound(Run(session, NEW, events))
  {
    if events != [] {
      var w, e := Run(session, NEW, events[..|events| - 1]), events[|events| - 1];
      RunSound(session, events[..|events| - 1]);
      hide Run;
      if e.Datagram? && Read(session, e.packet).Asks? {
        ReadBounded(session, e.packet);
        hide Read, Handle;
        HandleSound(w.book, w.finished, Read(session, e.packet).request, e.now);
      }
    }
  }

  lemma ReadBounded(session: string, packet: Packet)
    requires Read(session, packet).Asks?
    ensures 0 <= Read(session, packet).request.number < MAX_SAMPLES
  {
  }

  lemma NextInOrder(session: string, w: Worker, e: Event, before: real)
    requires InOrder(w.book, before) && before <= e.now
    ensures InOrder(Next(session, w, e).book, e.now)
  {
    hide Read;
  }

  lemma {:induction false} RunInOrder(session: string, events: seq<Event>)
    requires Clocked(events)
    ensures InOrder(Run(session, NEW, events).book, if events == [] then 0.0 else At(events[|events| - 1]))
  {
    if events != [] {
      hide Next, InOrder;
      var rest, last := events[..|events| - 1], events[|events| - 1];
      var w, before := Run(session, NEW, rest), if rest == [] then 0.0 else At(rest[|rest| - 1]);
      RunInOrder(session, rest);
      assert Run(session, NEW, events) == Next(session, w, last);
      hide Run;
      NextInOrder(session, w, last, before);
    }
  }

  // ---- Retransmission ----

  /** The receipt the book has given for a request. */
  predicate Given(b: Book, request: Request, receipt: real) {
    match request
    case BeforeOf(n) =>
      || (0 <= n < |b.samples| && b.samples[n].before == receipt)
      || (n == |b.samples| && b.pending == Some(receipt))
    case AfterOf(n, ok) => 0 <= n < |b.samples| && b.samples[n].after == receipt && b.samples[n].ok == ok
  }

  lemma {:induction false} GivenStays(session: string, w: Worker, events: seq<Event>, request: Request, receipt: real)
    requires Given(w.book, request, receipt)
    ensures Given(Run(session, w, events).book, request, receipt)
    ensures w.book.samples <= Run(session, w, events).book.samples
    ensures w.book.invalid ==> Run(session, w, events).book.invalid
  {
    if events != [] {
      GivenStays(session, w, events[..|events| - 1], request, receipt);
      hide Read;
    }
  }

  /**
   A request that was answered once is answered ever after with the same receipt and changes nothing:
   a retransmission cannot extend coverage.
   */
  lemma {:induction false} RetransmissionIdempotent(session: string, w: Worker, packet: Packet, first: real, events: seq<Event>, again: real)
    requires AnswerTo(session, w.book, packet, first).reply.Some?
    ensures var receipt := AnswerTo(session, w.book, packet, first).reply.value.receipt;
      var later := Run(session, Next(session, w, Datagram(packet, first)), events).book;
      var answer := AnswerTo(session, later, packet, again);
      answer.book == later && answer.reply.Some? && answer.reply.value.receipt == receipt
  {
    var answer := AnswerTo(session, w.book, packet, first);
    var request := Read(session, packet).request;
    assert Given(answer.book, request, answer.reply.value.receipt);
    GivenStays(session, Next(session, w, Datagram(packet, first)), events, request, answer.reply.value.receipt);
    hide Read, Run;
  }

  // ---- Coverage ----

  datatype Verdict = Inconclusive | Pass | Fail

  predicate AllOk(samples: seq<Sample>) {
    forall i :: 0 <= i < |samples| ==> samples[i].ok
  }

  function Coverage(b: Book, start: real, end: real): Verdict {
    if b.invalid || b.samples == [] || b.samples[0].before > start || b.samples[|b.samples| - 1].after < end
    then Inconclusive
    else if AllOk(b.samples) then Pass else Fail
  }

  lemma OkExactly(samples: seq<Sample>)
    ensures AllOk(samples) <==> forall sample :: sample in samples ==> sample.ok
  {
    if forall sample :: sample in samples ==> sample.ok {
      forall i | 0 <= i < |samples| ensures samples[i].ok { assert samples[i] in samples; }
    }
  }

  /** The witness is ready exactly with a valid book of two or more samples, all good, the last at most three seconds ago. */
  lemma ReadyExactly(b: Book, now: real)
    ensures Ready(b, now) <==>
      && !b.invalid && |b.samples| > 1 && (forall sample :: sample in b.samples ==> sample.ok)
      && var age := now - b.samples[|b.samples| - 1].after; age >= 0.0 && age <= 3.0
  {
    OkExactly(b.samples);
  }

  /** The witness may be trusted at this instant: two good samples, the last at most three seconds old. */
  predicate Ready(b: Book, now: real) {
    && !b.invalid && |b.samples| >= 2 && AllOk(b.samples)
    && 0.0 <= now - b.samples[|b.samples| - 1].after <= MAX_SECONDS
  }

  /** An instant inside a sample, or in a gap of at most three seconds between consecutive samples. */
  predicate Witnessed(samples: seq<Sample>, t: real) {
    || (exists i :: 0 <= i < |samples| && During(samples, i, t))
    || (exists i :: 0 <= i < |samples| - 1 && Between(samples, i, t))
  }

  predicate During(samples: seq<Sample>, i: int, t: real)
    requires 0 <= i < |samples|
  {
    samples[i].before <= t <= samples[i].after && Timed(samples[i])
  }

  predicate Between(samples: seq<Sample>, i: int, t: real)
    requires 0 <= i < |samples| - 1
  {
    samples[i].after <= t <= samples[i + 1].before && !GapAfter(samples, i)
  }

  lemma {:induction false} HullWitnessed(samples: seq<Sample>, t: real)
    requires samples != [] && Gapless(samples) && forall i :: 0 <= i < |samples| ==> Timed(samples[i])
    requires samples[0].before <= t <= samples[|samples| - 1].after
    ensures Witnessed(samples, t)
  {
    var last := |samples| - 1;
    if samples[last].before <= t {
      assert During(samples, last, t);
    } else if samples[last - 1].after <= t {
      assert !GapAfter(samples, last - 1);
      assert Between(samples, last - 1, t);
    } else {
      var rest := samples[..last];
      assert forall i :: 0 <= i < |rest| - 1 ==> GapAfter(rest, i) == GapAfter(samples, i);
      HullWitnessed(rest, t);
      if i :| 0 <= i < |rest| && During(rest, i, t) {
        assert During(samples, i, t);
      } else {
        var i :| 0 <= i < |rest| - 1 && Between(rest, i, t);
        assert Between(samples, i, t);
      }
    }
  }

  /** A PASS leaves no instant of the window unwitnessed and no failed sample, whatever the receiver's clock did. */
  lemma PassIsWitnessed(w: Worker, start: real, end: real)
    requires Sound(w) && Coverage(w.book, start, end) == Pass
    ensures (forall sample :: sample in w.book.samples ==> sample.ok)
    ensures forall t :: start <= t <= end ==> Witnessed(w.book.samples, t)
  {
    OkExactly(w.book.samples);
    forall t | start <= t <= end ensures Witnessed(w.book.samples, t) {
      HullWitnessed(w.book.samples, t);
    }
  }

  /**
   With a clock that never goes back, a window is inconclusive exactly when the book is invalid or misses an end of it, and
   otherwise failed exactly when some sample did.
   */
  lemma CoverageExact(session: string, events: seq<Event>, start: real, end: real)
    requires Clocked(events) && start <= end
    ensures var b := Run(session, NEW, events).book;
      && (Coverage(b, start, end) != Inconclusive <==> !b.invalid && Witnessed(b.samples, start) && Witnessed(b.samples, end))
      && (Coverage(b, start, end) == Fail <==>
            Coverage(b, start, end) != Inconclusive && exists sample :: sample in b.samples && !sample.ok)
  {
    RunSound(session, events);
    RunInOrder(session, events);
    var b := Run(session, NEW, events).book;
    hide Run;
    FailsExactly(b, start, end);
    WindowExact(b, start, end);
  }

  lemma FailsExactly(b: Book, start: real, end: real)
    ensures Coverage(b, start, end) == Fail <==>
      Coverage(b, start, end) != Inconclusive && exists sample :: sample in b.samples && !sample.ok
  {
    OkExactly(b.samples);
    hide AllOk;
  }

  lemma WindowExact(b: Book, start: real, end: real)
    requires start <= end && (!b.invalid ==> Gapless(b.samples)) && Ordered(b.samples)
    requires forall i :: 0 <= i < |b.samples| ==> Timed(b.samples[i])
    ensures Coverage(b, start, end) != Inconclusive <==> !b.invalid && Witnessed(b.samples, start) && Witnessed(b.samples, end)
  {
    hide Witnessed, AllOk, Timed;
    if Coverage(b, start, end) != Inconclusive {
      HullWitnessed(b.samples, start);
      HullWitnessed(b.samples, end);
    }
    if Witnessed(b.samples, start) {
      WithinHull(b.samples, start);
    }
    if Witnessed(b.samples, end) {
      WithinHull(b.samples, end);
    }
  }

  lemma WithinHull(samples: seq<Sample>, t: real)
    requires Ordered(samples) && (forall i :: 0 <= i < |samples| ==> Timed(samples[i])) && Witnessed(samples, t)
    ensures samples != [] && samples[0].before <= t <= samples[|samples| - 1].after
  {
    assert forall i :: 0 <= i < |samples| ==> samples[0].before <= samples[i].before;
    assert forall i :: 0 <= i < |samples| ==> samples[i].after <= samples[|samples| - 1].after;
    if i :| 0 <= i < |samples| && During(samples, i, t) {
    } else {
      var i :| 0 <= i < |samples| - 1 && Between(samples, i, t);
    }
  }

  /** A receiver that calls itself finished has a last sample that ends at or after the requested end. */
  lemma FinishedReachesEnd(session: string, events: seq<Event>)
    requires Clocked(events) && Run(session, NEW, events).finished
    ensures var b := Run(session, NEW, events).book;
      b.finishAfter.Some? && b.samples != [] && b.samples[|b.samples| - 1].after >= b.finishAfter.value
  {
    RunSound(session, events);
    RunInOrder(session, events);
    hide Run;
    var samples := Run(session, NEW, events).book.samples;
    assert forall i :: 0 <= i < |samples| ==> samples[i].after <= samples[|samples| - 1].after;
  }

  // ---- Replay ----

  /** One recorded row put through a book again, at the instants it carries. */
  function ReplayRow(session: string, b: Book, number: int, row: Sample): Book {
    var begun := AnswerTo(session, b, Encode(session, BeforeOf(number)), row.before).book;
    AnswerTo(session, begun, Encode(session, AfterOf(number, row.ok)), row.after).book
  }

  function Replay(session: string, rows: seq<Sample>): Book {
    if rows == [] then EMPTY
    else ReplayRow(session, Replay(session, rows[..|rows| - 1]), |rows| - 1, rows[|rows| - 1])
  }

  predicate AllTimed(rows: seq<Sample>) {
    forall i :: 0 <= i < |rows| ==> Timed(rows[i])
  }

  lemma TimedStep(rows: seq<Sample>)
    requires rows != []
    ensures AllTimed(rows) <==> AllTimed(rows[..|rows| - 1]) && Timed(rows[|rows| - 1])
  {
    hide Timed;
    var rest := rows[..|rows| - 1];
    if AllTimed(rest) && Timed(rows[|rows| - 1]) {
      forall i | 0 <= i < |rows| ensures Timed(rows[i]) {
        if i < |rest| {
          assert Timed(rest[i]);
        }
      }
    }
  }

  predicate Numbered(rows: seq<Sample>) {
    |rows| <= MAX_SAMPLES && forall i :: 0 <= i < |rows| ==> rows[i].number == i
  }

  /** What one replayed row does to a book that holds `number` samples, or fewer. */
  lemma ReplayRowEffect(session: string, b: Book, number: nat, row: Sample)
    requires number < MAX_SAMPLES && row.number == number && |b.samples| <= number
    ensures var r := ReplayRow(session, b, number, row);
      && r.finishAfter == b.finishAfter
      && (|b.samples| < number ==> r.samples == b.samples)
      && (|b.samples| == number && b.pending == None && Timed(row) ==>
            r == b.(samples := b.samples + [row],
                    invalid := b.invalid || (number > 0 && TooFarApart(b.samples[number - 1], row))))
      && (|b.samples| == number && b.pending == None && !Timed(row) ==> r.samples == b.samples)
      && |r.samples| <= number + 1
      && (b.invalid || |b.samples| < number || (b.pending == None && !Timed(row)) ==> r.invalid)
  {
    RequestRoundTrip(session, BeforeOf(number));
    RequestRoundTrip(session, AfterOf(number, row.ok));
    hide Read, Encode;
  }

  lemma {:induction false} ReplayCountsRows(session: string, rows: seq<Sample>)
    requires Numbered(rows)
    ensures |Replay(session, rows).samples| <= |rows|
  {
    if rows != [] {
      var rest, last := rows[..|rows| - 1], rows[|rows| - 1];
      ReplayCountsRows(session, rest);
      hide ReplayRow;
      ReplayRowEffect(session, Replay(session, rest), |rest|, last);
    }
  }

  lemma {:induction false} AcceptedReplay(session: string, rows: seq<Sample>)
    requires Accepted(rows)
    ensures Replay(session, rows) == Book(rows, None, !Gapless(rows), None)
  {
    if rows != [] {
      hide ReplayRow, Gapless, Timed;
      var rest, last := rows[..|rows| - 1], rows[|rows| - 1];
      AcceptedReplay(session, rest);
      assert Replay(session, rows) == ReplayRow(session, Book(rest, None, !Gapless(rest), None), |rest|, last);
      assert Timed(last) && last.number == |rest| < MAX_SAMPLES;
      hide *;
      assert rest + [last] == rows;
      AcceptedRow(session, rest, last);
    }
  }

  lemma AcceptedRow(session: string, rest: seq<Sample>, last: Sample)
    requires Timed(last) && last.number == |rest| < MAX_SAMPLES
    ensures ReplayRow(session, Book(rest, None, !Gapless(rest), None), |rest|, last)
         == Book(rest + [last], None, !Gapless(rest + [last]), None)
  {
    ReplayRowEffect(session, Book(rest, None, !Gapless(rest), None), |rest|, last);
    GaplessStep(rest + [last]);
    assert (rest + [last])[..|rest|] == rest;
    hide ReplayRow, Gapless, Timed;
  }

  lemma GaplessStep(rows: seq<Sample>)
    requires rows != []
    ensures Gapless(rows) <==> Gapless(rows[..|rows| - 1]) && (|rows| > 1 ==> !GapAfter(rows, |rows| - 2))
  {
    var rest := rows[..|rows| - 1];
    assert forall i :: 0 <= i < |rest| - 1 ==> GapAfter(rest, i) == GapAfter(rows, i);
  }

  lemma LastRow(session: string, rows: seq<Sample>)
    requires rows != [] && Numbered(rows)
    ensures var rest, last := rows[..|rows| - 1], rows[|rows| - 1];
      Numbered(rest) && Replay(session, rows) == ReplayRow(session, Replay(session, rest), |rest|, last)
  {
    hide ReplayRow;
  }

  lemma {:induction false} UntimedReplay(session: string, rows: seq<Sample>)
    requires Numbered(rows) && !AllTimed(rows)
    ensures |Replay(session, rows).samples| < |rows| && Replay(session, rows).invalid
  {
    assert rows != [];
    hide ReplayRow, Timed, AllTimed, Gapless;
    var rest, last := rows[..|rows| - 1], rows[|rows| - 1];
    TimedStep(rows);
    LastRow(session, rows);
    hide Replay;
    if AllTimed(rest) {
      NumberedTimed(rest);
      AcceptedReplay(session, rest);
    } else {
      UntimedReplay(session, rest);
    }
    assert last.number == |rest| < MAX_SAMPLES;
    hide Numbered, Accepted;
    ReplayRowEffect(session, Replay(session, rest), |rest|, last);
  }

  /** Replaying numbered rows rebuilds them exactly when every row lasted between zero and three seconds. */
  lemma ReplayExact(session: string, rows: seq<Sample>)
    requires Numbered(rows)
    ensures Replay(session, rows).samples == rows <==> AllTimed(rows)
    ensures |Replay(session, rows).samples| == |rows| ==> AllTimed(rows)
    ensures AllTimed(rows) || Replay(session, rows).invalid
  {
    hide Replay, AllTimed, Numbered;
    if AllTimed(rows) {
      NumberedTimed(rows);
      AcceptedReplay(session, rows);
    } else {
      UntimedReplay(session, rows);
    }
  }

  lemma NumberedTimed(rows: seq<Sample>)
    requires Numbered(rows)
    ensures Accepted(rows) <==> AllTimed(rows)
  {
    hide Timed;
  }

  /** The history of every run, replayed through a fresh book, is that history; the replay is invalid only for a gap. */
  lemma {:induction false} HistoryReplays(session: string, events: seq<Event>)
    ensures var b := Run(session, NEW, events).book;
      && Replay(session, b.samples) == Book(b.samples, None, !Gapless(b.samples), None)
      && (Replay(session, b.samples).invalid ==> b.invalid)
  {
    RunSound(session, events);
    AcceptedReplay(session, Run(session, NEW, events).book.samples);
  }

  // ---- The parent's copy ----

  datatype Snapshot = Snapshot(session: string, samples: seq<Sample>, invalid: bool, finishAfter: Option<real>, finished: bool)

  predicate SnapshotRow(rows: seq<Sample>, i: int)
    requires 0 <= i < |rows|
  {
    && rows[i].number == i && rows[i].before >= 0.0 && rows[i].after >= 0.0
    && (i > 0 ==> rows[i].before >= rows[i - 1].after)
  }

  function UpdateSpec(session: string, known: Worker, v: Snapshot): Result<Worker, string> {
    if v.session != session || (known.finished && !v.finished) || |v.samples| > MAX_SAMPLES then Err("invalid_receiver_snapshot")
    else if exists i :: 0 <= i < |v.samples| && !SnapshotRow(v.samples, i) then Err("invalid_receiver_sample")
    else
      var refreshed := Replay(session, v.samples);
      if refreshed.samples != v.samples || !(known.book.samples <= refreshed.samples) then Err("receiver_history_changed")
      else if v.finishAfter.Some? && v.finishAfter.value < 0.0 then Err("invalid_receiver_finish")
      else if (known.book.finishAfter.Some? && v.finishAfter != known.book.finishAfter)
              || (v.finished && (v.finishAfter == None || refreshed.samples == []
                                 || refreshed.samples[|refreshed.samples| - 1].after < v.finishAfter.value))
      then Err("invalid_receiver_finish")
      else Ok(Worker(refreshed.(invalid := refreshed.invalid || v.invalid || known.book.invalid,
                                finishAfter := v.finishAfter), v.finished))
  }

  /** What the parent should know of its worker: everything but the half-done sample. */
  function Mirror(w: Worker): Worker { w.(book := w.book.(pending := None)) }

  function Snap(session: string, w: Worker): Snapshot {
    Snapshot(session, w.book.samples, w.book.invalid, w.book.finishAfter, w.finished)
  }

  /** An accepted snapshot only ever adds to what was known, and keeps the book's promises. */
  lemma UpdateOnlyExtends(session: string, known: Worker, v: Snapshot)
    requires UpdateSpec(session, known, v).Ok?
    ensures var w := UpdateSpec(session, known, v).value;
      && known.book.samples <= w.book.samples == v.samples && (known.book.invalid ==> w.book.invalid)
      && (known.book.finishAfter.Some? ==> w.book.finishAfter == known.book.finishAfter)
      && (known.finished ==> w.finished) && Sound(w) && Ordered(w.book.samples)
  {
    hide Replay;
    assert forall i :: 0 <= i < |v.samples| ==> SnapshotRow(v.samples, i);
    forall i | 0 <= i < |v.samples| ensures v.samples[i].number == i {
      assert SnapshotRow(v.samples, i);
    }
    ReplayExact(session, v.samples);
    AcceptedReplay(session, v.samples);
    OrderedByNeighbours(v.samples);
  }

  lemma {:induction false} OrderedByNeighbours(rows: seq<Sample>)
    requires AllTimed(rows) && forall i :: 0 <= i < |rows| ==> SnapshotRow(rows, i)
    ensures Ordered(rows)
  {
    if rows != [] {
      var rest, last := rows[..|rows| - 1], |rows| - 1;
      TimedStep(rows);
      forall i | 0 <= i < |rest| ensures SnapshotRow(rest, i) {
        assert SnapshotRow(rows, i);
      }
      OrderedByNeighbours(rest);
      forall i | 0 <= i < last ensures rows[i].after <= rows[last].before {
        assert SnapshotRow(rows, last);
        if i < last - 1 {
          assert rest[i].after <= rest[last - 1].before && Timed(rows[last - 1]);
        }
      }
      assert SnapshotRow(rows, last);
    }
  }

  lemma {:induction false} RunGrows(session: string, w: Worker, events: seq<Event>)
    ensures var w' := Run(session, w, events);
      && w.book.samples <= w'.book.samples && (w.book.invalid ==> w'.book.invalid) && (w.finished ==> w'.finished)
      && (w.book.finishAfter.Some? ==> w'.book.finishAfter == w.book.finishAfter)
  {
    if events != [] {
      RunGrows(session, w, events[..|events| - 1]);
      hide Read;
    }
  }

  lemma {:induction false} RunAppend(session: string, w: Worker, a: seq<Event>, b: seq<Event>)
    ensures Run(session, w, a + b) == Run(session, Run(session, w, a), b)
  {
    if b == [] {
      assert a + b == a;
    } else {
      var rest := b[..|b| - 1];
      assert (a + b)[..|a + b| - 1] == a + rest;
      RunAppend(session, w, a, rest);
      hide Next;
    }
  }

  /** A parent that copied the worker once accepts every later snapshot of it, and its copy is exact again. */
  lemma HonestSnapshotsAccepted(session: string, past: seq<Event>, since: seq<Event>)
    requires Clocked(past + since)
    ensures var w1, w2 := Run(session, NEW, past), Run(session, NEW, past + since);
      UpdateSpec(session, Mirror(w1), Snap(session, w2)) == Ok(Mirror(w2))
  {
    var w1, w2 := Run(session, NEW, past), Run(session, NEW, past + since);
    RunAppend(session, NEW, past, since);
    RunGrows(session, w1, since);
    RunSound(session, past + since);
    RunInOrder(session, past + since);
    AcceptedReplay(session, w2.book.samples);
    if w2.finished {
      FinishedReachesEnd(session, past + since);
    }
    FinishNonNegative(session, past + since);
    hide Run, Replay, Clocked;
    HonestSnapshotAccepted(session, w1, w2);
  }

  lemma HonestSnapshotAccepted(session: string, w1: Worker, w2: Worker)
    requires Sound(w2) && Ordered(w2.book.samples)
    requires w1.book.samples <= w2.book.samples && (w1.book.invalid ==> w2.book.invalid)
    requires (w1.finished ==> w2.finished) && (w1.book.finishAfter.Some? ==> w2.book.finishAfter == w1.book.finishAfter)
    requires w2.book.finishAfter.Some? ==> w2.book.finishAfter.value >= 0.0
    requires w2.finished ==> w2.book.samples[|w2.book.samples| - 1].after >= w2.book.finishAfter.value
    ensures UpdateSpec(session, Mirror(w1), Snap(session, w2)) == Ok(Mirror(w2))
  {
    AcceptedReplay(session, w2.book.samples);
    SnapshotRows(w2.book.samples);
    hide Replay, Accepted, Ordered, SnapshotRow, Gapless;
  }

  lemma SnapshotRows(rows: seq<Sample>)
    requires Accepted(rows) && Ordered(rows)
    ensures forall i :: 0 <= i < |rows| ==> SnapshotRow(rows, i)
  {
    forall i | 0 <= i < |rows| ensures SnapshotRow(rows, i) {
      assert Timed(rows[i]);
    }
  }

  lemma {:induction false} FinishNonNegative(session: string, events: seq<Event>)
    ensures var f := Run(session, NEW, events).book.finishAfter; f.Some? ==> f.value >= 0.0
  {
    if events != [] {
      FinishNonNegative(session, events[..|events| - 1]);
      hide Read;
    }
  }

  // ---- The objects ----

  class Receipts {
    const session: string
    var samples: seq<Sample>
    var pending: Option<real>
    var invalid: bool
    var finishAfter: Option<real>

    function Contents(): Book
      reads this
    {
      Book(samples, pending, invalid, finishAfter)
    }

    constructor (session: string)
      ensures this.session == session && Contents() == EMPTY
    {
      this.session, samples, pending, invalid, finishAfter := session, [], None, false, None;
    }

    method Receive(packet: Packet, now: real) returns (reply: Option<Reply>)
      modifies this
      ensures AnswerTo(session, old(Contents()), packet, now) == Answer(Contents(), reply)
    {
      hide Read;
      var reading := Read(session, packet);
      if reading.Foreign? {
        return None;
      }
      if reading.Malformed? {
        invalid := true;
        return None;
      }
      ReadBounded(session, packet);
      var number, after := reading.request.number, reading.request.AfterOf?;
      var at: real;
      if number < |samples| {
        if after && reading.request.ok != samples[number].ok {
          invalid := true;
          return None;
        }
        at := if after then samples[number].after else samples[number].before;
      } else if number != |samples| {
        invalid := true;
        return None;
      } else if !after {
        if pending.None? {
          pending := Some(now);
        }
        at := pending.value;
      } else {
        if pending.None? || !(0.0 <= now - pending.value <= MAX_SECONDS) {
          invalid := true;
          return None;
        }
        if samples != [] && pending.value - samples[|samples| - 1].after > MAX_SECONDS {
          invalid := true;
        }
        samples := samples + [Sample(number, pending.value, now, reading.request.ok)];
        pending := None;
        at := now;
      }
      reply := Some(Reply(number, after, at, after && Reached(finishAfter, at)));
    }

    /** Feeds both phases of one recorded row. */
    method ReceiveRow(number: nat, row: Sample)
      modifies this
      ensures Contents() == ReplayRow(session, old(Contents()), number, row)
    {
      hide AnswerTo, Encode;
      var first := Receive(Encode(session, BeforeOf(number)), row.before);
      var second := Receive(Encode(session, AfterOf(number, row.ok)), row.after);
    }
  }

  /** The parent's copy of its worker's book. */
  class Receiver {
    const session: string
    var receipts: Receipts
    var finished: bool

    ghost predicate Valid()
      reads this, receipts
    {
      receipts.session == session
    }

    function Known(): Worker
      reads this, receipts
    {
      Worker(receipts.Contents(), finished)
    }

    constructor (session: string)
      ensures Valid() && fresh(receipts) && this.session == session && Known() == NEW
    {
      this.session, finished := session, false;
      receipts := new Receipts(session);
    }

    /** Takes over a snapshot of the worker; a refused one changes nothing. */
    method Update(value: Snapshot) returns (refusal: Option<string>)
      requires Valid()
      modifies this
      ensures Valid()
      ensures refusal.None? <==> UpdateSpec(session, old(Known()), value).Ok?
      ensures refusal.None? ==> Known() == UpdateSpec(session, old(Known()), value).value && fresh(receipts)
      ensures refusal.Some? ==> Known() == old(Known()) && refusal.value == UpdateSpec(session, old(Known()), value).error
    {
      hide ReplayRow;
      if value.session != session || (finished && !value.finished) || |value.samples| > MAX_SAMPLES {
        return Some("invalid_receiver_snapshot");
      }
      var refreshed := new Receipts(session);
      var i := 0;
      while i < |value.samples|
        invariant 0 <= i <= |value.samples| && fresh(refreshed) && refreshed.session == session
        invariant forall k :: 0 <= k < i ==> SnapshotRow(value.samples, k)
        invariant refreshed.Contents() == Replay(session, value.samples[..i])
        invariant Valid() && unchanged(this) && unchanged(receipts)
      {
        if !SnapshotRow(value.samples, i) {
          return Some("invalid_receiver_sample");
        }
        refreshed.ReceiveRow(i, value.samples[i]);
        assert value.samples[..i + 1][..i] == value.samples[..i];
        i := i + 1;
      }
      assert value.samples[..i] == value.samples;
      hide Replay;
      if refreshed.samples != value.samples || !(receipts.samples <= refreshed.samples) {
        return Some("receiver_history_changed");
      }
      if value.finishAfter.Some? && value.finishAfter.value < 0.0 {
        return Some("invalid_receiver_finish");
      }
      if receipts.finishAfter.Some? && value.finishAfter != receipts.finishAfter {
        return Some("invalid_receiver_finish");
      }
      if value.finished && (value.finishAfter == None || refreshed.samples == []
                            || refreshed.samples[|refreshed.samples| - 1].after < value.finishAfter.value) {
        return Some("invalid_receiver_finish");
      }
      refreshed.invalid := refreshed.invalid || value.invalid || receipts.invalid;
      refreshed.finishAfter := value.finishAfter;
      receipts := refreshed;
      finished := value.finished;
      return None;
    }
  }

  // ---- Correlating the client's file ----

  /** The client's rows could come from an honest exchange without a gap. */
  predicate Exchanged(rows: seq<Sample>) {
    && Accepted(rows) && Gapless(rows) && NonNegative(rows)
    && forall i :: 0 <= i < |rows| - 1 ==> InSequence(rows, i)
  }

  /** The instants are numbers a clock can show. */
  predicate NonNegative(rows: seq<Sample>) {
    forall i :: 0 <= i < |rows| ==> rows[i].before >= 0.0 && rows[i].after >= 0.0
  }

  predicate InSequence(rows: seq<Sample>, i: int)
    requires 0 <= i < |rows| - 1
  {
    rows[i].after <= rows[i + 1].before
  }

  /** The first `n` rows follow one another. */
  predicate SequenceTo(rows: seq<Sample>, n: int)
    requires n <= |rows|
  {
    forall i :: 0 <= i < n - 1 ==> InSequence(rows, i)
  }

  lemma ReplayNone(session: string, rows: seq<Sample>)
    ensures Replay(session, rows[..0]) == EMPTY && Numbered(rows[..0]) && SequenceTo(rows, 0)
  {
  }

  lemma MalformedRow(rows: seq<Sample>, i: nat)
    requires i < |rows| && (rows[i].number != i || rows[i].before < 0.0 || rows[i].after < 0.0)
    ensures !Exchanged(rows)
  {
    hide Gapless, Timed;
  }

  lemma UntimedOrOutOfSequence(session: string, rows: seq<Sample>, i: nat, samples: seq<Sample>)
    requires i < |rows| && Numbered(rows[..i]) && samples == Replay(session, rows[..i]).samples
    requires samples != [] && rows[i].before < samples[|samples| - 1].after
    ensures !Exchanged(rows)
  {
    hide *;
    var first := rows[..i];
    ReplayExact(session, first);
    if AllTimed(first) {
      OutOfSequence(rows, i, samples);
    } else {
      UntimedRow(rows, i);
    }
  }

  lemma OutOfSequence(rows: seq<Sample>, i: nat, samples: seq<Sample>)
    requires i < |rows| && samples == rows[..i] && samples != [] && rows[i].before < samples[|samples| - 1].after
    ensures !Exchanged(rows)
  {
    hide Accepted, Gapless, NonNegative;
    assert !InSequence(rows, i - 1);
  }

  lemma UntimedRow(rows: seq<Sample>, i: nat)
    requires i <= |rows| && !AllTimed(rows[..i])
    ensures !Exchanged(rows)
  {
    hide Timed, Gapless;
    var k :| 0 <= k < i && !Timed(rows[..i][k]);
    assert rows[..i][k] == rows[k];
  }

  lemma ReplaySnoc(session: string, rows: seq<Sample>, row: Sample)
    requires Numbered(rows) && |rows| < MAX_SAMPLES && row.number == |rows|
    ensures Numbered(rows + [row])
    ensures Replay(session, rows + [row]) == ReplayRow(session, Replay(session, rows), |rows|, row)
    ensures Replay(session, rows + [row]).samples == rows + [row] ==> Replay(session, rows).samples == rows
  {
    hide ReplayRow;
    var all, b := rows + [row], Replay(session, rows);
    assert all[..|all| - 1] == rows && all[|all| - 1] == row;
    var r := Replay(session, all);
    assert r == ReplayRow(session, b, |rows|, row);
    ReplayCountsRows(session, rows);
    ReplayExact(session, rows);
    ReplayRowEffect(session, b, |rows|, row);
    hide *;
    if r.samples == all {
      assert |b.samples| == |rows|;
    }
  }

  lemma NextRow(session: string, rows: seq<Sample>, i: nat)
    requires i < |rows| <= MAX_SAMPLES && Numbered(rows[..i]) && rows[i].number == i
    ensures Numbered(rows[..i + 1])
    ensures Replay(session, rows[..i + 1]) == ReplayRow(session, Replay(session, rows[..i]), i, rows[i])
    ensures Replay(session, rows[..i + 1]).samples == rows[..i + 1] ==> Replay(session, rows[..i]).samples == rows[..i]
  {
    hide *;
    assert rows[..i + 1] == rows[..i] + [rows[i]];
    ReplaySnoc(session, rows[..i], rows[i]);
  }

  lemma SequenceStep(rows: seq<Sample>, samples: seq<Sample>, i: nat)
    requires i < |rows| && SequenceTo(rows, i) && samples == rows[..i]
    requires samples == [] || rows[i].before >= samples[|samples| - 1].after
    ensures SequenceTo(rows, i + 1)
  {
  }

  lemma Replayed(session: string, rows: seq<Sample>)
    requires Numbered(rows) && NonNegative(rows) && (Replay(session, rows).samples == rows ==> SequenceTo(rows, |rows|))
    ensures var b := Replay(session, rows);
      && (!b.invalid <==> Exchanged(rows)) && (!b.invalid ==> b == Book(rows, None, false, None))
  {
    ReplayExact(session, rows);
    NumberedTimed(rows);
    if AllTimed(rows) {
      AcceptedReplay(session, rows);
    }
    hide Replay, Timed, Gapless;
  }

  /** Replays the client's rows; stops at a row out of number or out of sequence. */
  method ReplayRows(session: string, rows: seq<Sample>) returns (receipts: Receipts, complete: bool)
    requires |rows| <= MAX_SAMPLES
    ensures !complete ==> !Exchanged(rows)
    ensures complete ==> Numbered(rows) && NonNegative(rows) && receipts.Contents() == Replay(session, rows)
    ensures complete ==> (Replay(session, rows).samples == rows ==> SequenceTo(rows, |rows|))
  {
    hide ReplayRow, Exchanged, Replay, SequenceTo, Numbered;
    receipts := new Receipts(session);
    ReplayNone(session, rows);
    var i := 0;
    while i < |rows|
      invariant 0 <= i <= |rows| && fresh(receipts) && receipts.session == session
      invariant Numbered(rows[..i]) && forall k :: 0 <= k < i ==> rows[k].before >= 0.0 && rows[k].after >= 0.0
      invariant receipts.Contents() == Replay(session, rows[..i])
      invariant receipts.samples == rows[..i] ==> SequenceTo(rows, i)
    {
      if rows[i].number != i || rows[i].before < 0.0 || rows[i].after < 0.0 {
        MalformedRow(rows, i);
        return receipts, false;
      }
      if receipts.samples != [] && rows[i].before < receipts.samples[|receipts.samples| - 1].after {
        UntimedOrOutOfSequence(session, rows, i, receipts.samples);
        return receipts, false;
      }
      NextRow(session, rows, i);
      if receipts.samples == rows[..i] {
        SequenceStep(rows, receipts.samples, i);
      }
      receipts.ReceiveRow(i, rows[i]);
      i := i + 1;
    }
    assert rows[..|rows|] == rows;
    complete := true;
  }

  /**
   Correlates the client's rows with the receipts recorded in the campaign's event log: accepted exactly
   when the rows are an honest, gap-free exchange and are the recorded receipts, with one fault and one
   later recovery in the log; the verdict is the coverage of that window.
   */
  method Correlate(session: string, rows: seq<Sample>, recorded: seq<Sample>, starts: seq<real>, ends: seq<real>)
    returns (verdict: Option<Verdict>)
    ensures verdict.Some? <==>
      2 <= |rows| <= MAX_SAMPLES && Exchanged(rows) && recorded == rows && |starts| == 1 == |ends| && starts[0] < ends[0]
    ensures verdict.Some? ==> verdict.value == Coverage(Book(rows, None, false, None), starts[0], ends[0])
  {
    if !(2 <= |rows| <= MAX_SAMPLES) {
      return None;
    }
    hide Exchanged, Replay, Coverage, SequenceTo, Numbered;
    var receipts, complete := ReplayRows(session, rows);
    if !complete {
      return None;
    }
    Replayed(session, rows);
    if receipts.invalid || recorded != receipts.samples || |starts| != 1 || |ends| != 1 || ends[0] <= starts[0] {
      return None;
    }
    verdict := Some(Coverage(Book(receipts.samples, receipts.pending, receipts.invalid, receipts.finishAfter), starts[0], ends[0]));
  }
}
