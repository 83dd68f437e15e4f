/** The gateway's memory of what it has just published: an ordered cache against a plain list (pcs_meshtastic_gateway.py). */
module EchoCache {
  import opened Basics

  // ---- Keys ----

  /** What is hashed for a message; the digest is taken to be injective. */
  function KeyOf(topic: Bytes, payload: Bytes): Bytes { topic + [0] + payload }

  /** Messages with topics free of NUL, as MQTT wants them, never share a key. */
  lemma KeysDistinct(topic: Bytes, payload: Bytes, topic': Bytes, payload': Bytes)
    requires 0 !in topic && 0 !in topic'
    ensures KeyOf(topic, payload) == KeyOf(topic', payload') <==> topic == topic' && payload == payload'
  {
    var k, k' := KeyOf(topic, payload), KeyOf(topic', payload');
    if k == k' {
      assert k[|topic|] == 0 && k'[|topic'|] == 0;
      assert (forall i :: 0 <= i < |topic| ==> k[i] != 0) && forall i :: 0 <= i < |topic'| ==> k'[i] != 0;
      assert topic == k[..|topic|] && topic' == k'[..|topic'|];
      assert payload == k[|topic| + 1..] && payload' == k'[|topic'| + 1..];
    }
  }

  /** The longer topic is the shorter one, NUL and the beginning of the other payload. */
  ghost predicate Splits(topic: Bytes, payload: Bytes, longer: Bytes, rest: Bytes) {
    exists x: Bytes :: longer == topic + [0] + x && payload == x + [0] + rest
  }

  lemma SplitsCollide(topic: Bytes, payload: Bytes, longer: Bytes, rest: Bytes)
    requires Splits(topic, payload, longer, rest)
    ensures KeyOf(topic, payload) == KeyOf(longer, rest)
  {
    var x: Bytes :| longer == topic + [0] + x && payload == x + [0] + rest;
    assert topic + [0] + (x + [0] + rest) == topic + [0] + x + [0] + rest;
  }

  lemma CollisionSplits(topic: Bytes, payload: Bytes, longer: Bytes, rest: Bytes)
    requires |topic| < |longer| && KeyOf(topic, payload) == KeyOf(longer, rest)
    ensures Splits(topic, payload, longer, rest)
  {
    var k := KeyOf(topic, payload);
    assert longer == k[..|longer|] && topic == k[..|topic|] && k[|topic|] == 0 && k[|longer|] == 0;
    assert payload == k[|topic| + 1..] && rest == k[|longer| + 1..];
    var x := k[|topic| + 1..|longer|];
    assert longer == topic + [0] + x && payload == x + [0] + rest;
  }

  /** Two messages share a key exactly when they are the same or one topic is the other, NUL and a beginning of its payload. */
  lemma KeysCollideExactly(topic: Bytes, payload: Bytes, topic': Bytes, payload': Bytes)
    ensures KeyOf(topic, payload) == KeyOf(topic', payload') <==>
      || (topic == topic' && payload == payload')
      || Splits(topic, payload, topic', payload') || Splits(topic', payload', topic, payload)
  {
    if KeyOf(topic, payload) == KeyOf(topic', payload') {
      if |topic| < |topic'| {
        CollisionSplits(topic, payload, topic', payload');
      } else if |topic'| < |topic| {
        CollisionSplits(topic', payload', topic, payload);
      } else {
        var k := KeyOf(topic, payload);
        assert topic == k[..|topic|] && topic' == k[..|topic|];
        assert payload == k[|topic| + 1..] && payload' == k[|topic| + 1..];
      }
    }
    if Splits(topic, payload, topic', payload') {
      SplitsCollide(topic, payload, topic', payload');
    }
    if Splits(topic', payload', topic, payload) {
      SplitsCollide(topic', payload', topic, payload);
    }
  }

  /** For instance. */
  lemma KeysCollideWithNul()
    ensures KeyOf([65], [66, 0, 67]) == KeyOf([65, 0, 66], [67])
  {
    var x: Bytes := [66];
    assert [65, 0, 66] == [65] + [0] + x && [66, 0, 67] == x + [0] + [67];
    KeysCollideExactly([65], [66, 0, 67], [65, 0, 66], [67]);
  }

  // ---- The naive list ----

  datatype Entry = Entry(key: Bytes, expires: real)

  function Live(entries: seq<Entry>, now: real): seq<Entry> {
    if entries == [] then []
    else (if entries[0].expires > now then [entries[0]] else []) + Live(entries[1..], now)
  }

  function Without(entries: seq<Entry>, key: Bytes): seq<Entry> {
    if entries == [] then []
    else (if entries[0].key != key then [entries[0]] else []) + Without(entries[1..], key)
  }

  function Newest(entries: seq<Entry>, maximum: nat): seq<Entry> {
    if |entries| <= maximum then entries else entries[|entries| - maximum..]
  }

  predicate Holds(entries: seq<Entry>, key: Bytes) { exists i :: 0 <= i < |entries| && entries[i].key == key }

  datatype Settings = Settings(ttl: real, maximum: nat)

  function Remembered(c: Settings, entries: seq<Entry>, key: Bytes, now: real): seq<Entry> {
    Newest(Without(Live(entries, now), key) + [Entry(key, now + c.ttl)], c.maximum)
  }

  function Consumed(entries: seq<Entry>, key: Bytes, now: real): seq<Entry> { Without(Live(entries, now), key) }

  // ---- Order ----

  predicate Ordered(entries: seq<Entry>) {
    forall i, j :: 0 <= i < j < |entries| ==> entries[i].expires <= entries[j].expires
  }

  predicate DistinctKeys(entries: seq<Entry>) {
    forall i, j :: 0 <= i < j < |entries| ==> entries[i].key != entries[j].key
  }

  lemma OrderedFirst(e: Entry, rest: seq<Entry>)
    ensures Ordered([e] + rest) <==> Ordered(rest) && forall x :: x in rest ==> e.expires <= x.expires
  {
    var all := [e] + rest;
    assert all[0] == e && forall i :: 0 <= i < |rest| ==> rest[i] == all[i + 1];
    if Ordered(all) {
      forall i, j | 0 <= i < j < |rest| ensures rest[i].expires <= rest[j].expires {
        assert all[i + 1].expires <= all[j + 1].expires;
      }
      forall x | x in rest ensures e.expires <= x.expires {
        var i :| 0 <= i < |rest| && rest[i] == x;
        assert all[0].expires <= all[i + 1].expires;
      }
    }
  }

  lemma DistinctFirst(e: Entry, rest: seq<Entry>)
    ensures DistinctKeys([e] + rest) <==> DistinctKeys(rest) && forall x :: x in rest ==> e.key != x.key
  {
    var all := [e] + rest;
    assert all[0] == e && forall i :: 0 <= i < |rest| ==> rest[i] == all[i + 1];
    if DistinctKeys(all) {
      forall i, j | 0 <= i < j < |rest| ensures rest[i].key != rest[j].key {
        assert all[i + 1].key != all[j + 1].key;
      }
      forall x | x in rest ensures e.key != x.key {
        var i :| 0 <= i < |rest| && rest[i] == x;
        assert all[0].key != all[i + 1].key;
      }
    }
  }

  lemma FirstAndRest(entries: seq<Entry>)
    requires entries != []
    ensures Ordered(entries) <==> Ordered(entries[1..]) && forall x :: x in entries[1..] ==> entries[0].expires <= x.expires
    ensures DistinctKeys(entries) <==> DistinctKeys(entries[1..]) && forall x :: x in entries[1..] ==> entries[0].key != x.key
    ensures forall x :: x in entries <==> x == entries[0] || x in entries[1..]
  {
    assert entries == [entries[0]] + entries[1..];
    OrderedFirst(entries[0], entries[1..]);
    DistinctFirst(entries[0], entries[1..]);
  }

  /** Each entry that has not expired is kept, in order. */
  lemma {:induction false} LiveKeeps(entries: seq<Entry>, now: real)
    ensures forall e :: e in Live(entries, now) <==> e in entries && e.expires > now
    ensures Ordered(entries) ==> Ordered(Live(entries, now))
    ensures DistinctKeys(entries) ==> DistinctKeys(Live(entries, now))
  {
    if entries != [] {
      var rest := entries[1..];
      LiveKeeps(rest, now);
      FirstAndRest(entries);
      hide Ordered, DistinctKeys;
      if entries[0].expires > now {
        OrderedFirst(entries[0], Live(rest, now));
        DistinctFirst(entries[0], Live(rest, now));
      } else {
        assert [] + Live(rest, now) == Live(rest, now);
      }
    }
  }

  lemma {:induction false} WithoutKeeps(entries: seq<Entry>, key: Bytes)
    ensures forall e :: e in Without(entries, key) <==> e in entries && e.key != key
    ensures Ordered(entries) ==> Ordered(Without(entries, key))
    ensures DistinctKeys(entries) ==> DistinctKeys(Without(entries, key))
  {
    if entries != [] {
      var rest := entries[1..];
      WithoutKeeps(rest, key);
      FirstAndRest(entries);
      hide Ordered, DistinctKeys;
      if entries[0].key != key {
        OrderedFirst(entries[0], Without(rest, key));
        DistinctFirst(entries[0], Without(rest, key));
      } else {
        assert [] + Without(rest, key) == Without(rest, key);
      }
    }
  }

  lemma SuffixKeeps(entries: seq<Entry>, n: nat)
    requires n <= |entries|
    ensures Ordered(entries) ==> Ordered(entries[n..])
    ensures DistinctKeys(entries) ==> DistinctKeys(entries[n..])
    ensures forall t :: ExpiresBy(entries, t) ==> ExpiresBy(entries[n..], t)
  {
    var s := entries[n..];
    assert forall i :: 0 <= i < |s| ==> s[i] == entries[n + i];
    if DistinctKeys(entries) {
      forall i, j | 0 <= i < j < |s| ensures s[i].key != s[j].key {
        assert entries[n + i].key != entries[n + j].key;
      }
    }
    if Ordered(entries) {
      forall i, j | 0 <= i < j < |s| ensures s[i].expires <= s[j].expires {
        assert entries[n + i].expires <= entries[n + j].expires;
      }
    }
  }

  lemma AppendKeeps(entries: seq<Entry>, e: Entry)
    requires Ordered(entries) && DistinctKeys(entries) && ExpiresBy(entries, e.expires) && !Holds(entries, e.key)
    ensures Ordered(entries + [e]) && DistinctKeys(entries + [e]) && ExpiresBy(entries + [e], e.expires)
  {
  }

  predicate ExpiresBy(entries: seq<Entry>, t: real) { forall e :: e in entries ==> e.expires <= t }

  lemma {:induction false} AllLive(entries: seq<Entry>, now: real)
    requires forall i :: 0 <= i < |entries| ==> entries[i].expires > now
    ensures Live(entries, now) == entries
  {
    if entries != [] {
      AllLive(entries[1..], now);
    }
  }

  lemma {:induction false} AbsentStays(entries: seq<Entry>, key: Bytes)
    requires !Holds(entries, key)
    ensures Without(entries, key) == entries
  {
    if entries != [] {
      assert entries[0].key != key;
      forall i | 0 <= i < |entries[1..]| ensures entries[1..][i].key != key {
        assert entries[1..][i] == entries[i + 1];
      }
      AbsentStays(entries[1..], key);
    }
  }

  /** Taking the one entry of a key out of the list. */
  lemma {:induction false} WithoutAt(entries: seq<Entry>, key: Bytes, i: nat)
    requires DistinctKeys(entries) && i < |entries| && entries[i].key == key
    ensures Without(entries, key) == entries[..i] + entries[i + 1..]
  {
    var rest := entries[1..];
    assert forall a, b :: 0 <= a < b < |rest| ==> rest[a] == entries[a + 1] && rest[b] == entries[b + 1];
    if i == 0 {
      assert forall a :: 0 <= a < |rest| ==> rest[a] == entries[a + 1];
      AbsentStays(rest, key);
    } else {
      WithoutAt(rest, key, i - 1);
      assert entries[..i] + entries[i + 1..] == [entries[0]] + (rest[..i - 1] + rest[i..]);
    }
  }

  // ---- The cache ----

  class Cache {
    const settings: Settings
    /** Oldest first. */
    var entries: seq<Entry>
    /** The latest reading of the clock. */
    ghost var clock: real

    ghost predicate Valid()
      reads this
    {
      && Ordered(entries) && DistinctKeys(entries) && |entries| <= settings.maximum
      && ExpiresBy(entries, clock + settings.ttl)
    }

    constructor (settings: Settings, ghost clock: real)
      ensures Valid() && this.settings == settings && this.clock == clock && entries == []
    {
      this.settings, entries := settings, [];
      this.clock := clock;
    }

    /** Looks only at the front: it stops at the first entry that is still alive. */
    method Expire(now: real)
      requires Valid() && now >= clock
      modifies this
      ensures Valid() && clock == now && entries == Live(old(entries), now)
    {
      ghost var first := entries;
      clock := now;
      while entries != []
        invariant Valid() && clock == now && Live(entries, now) == Live(first, now)
        decreases |entries|
      {
        if entries[0].expires > now {
          AllLive(entries, now);
          break;
        }
        entries := entries[1..];
      }
    }

    method Remember(topic: Bytes, payload: Bytes, now: real)
      requires Valid() && now >= clock
      modifies this
      ensures Valid() && clock == now
      ensures entries == Remembered(settings, old(entries), KeyOf(topic, payload), now)
    {
      hide Live, KeyOf, Without, Newest, Ordered, DistinctKeys, ExpiresBy, Holds;
      var key := KeyOf(topic, payload);
      Expire(now);
      var present := TakeOut(key);
      AppendKeeps(entries, Entry(key, now + settings.ttl));
      entries := entries + [Entry(key, now + settings.ttl)];
      EvictOldest();
    }

    method EvictOldest()
      requires Ordered(entries) && DistinctKeys(entries)
      requires ExpiresBy(entries, clock + settings.ttl)
      modifies this`entries
      ensures Valid() && entries == Newest(old(entries), settings.maximum)
    {
      ghost var all, dropped := entries, 0;
      hide Ordered, DistinctKeys, ExpiresBy;
      while |entries| > settings.maximum
        invariant dropped <= |all| && entries == all[dropped..]
        invariant dropped > 0 ==> |entries| >= settings.maximum
        decreases |entries|
      {
        entries := entries[1..];
        dropped := dropped + 1;
      }
      SuffixKeeps(all, dropped);
    }

    /** Whether the message was one of ours; it is then forgotten. */
    method Consume(topic: Bytes, payload: Bytes, now: real) returns (found: bool)
      requires Valid() && now >= clock
      modifies this
      ensures Valid() && clock == now
      ensures entries == Consumed(old(entries), KeyOf(topic, payload), now)
      ensures found <==> Holds(Live(old(entries), now), KeyOf(topic, payload))
    {
      Expire(now);
      found := TakeOut(KeyOf(topic, payload));
    }

    method TakeOut(key: Bytes) returns (found: bool)
      requires Valid()
      modifies this`entries
      ensures Valid() && entries == Without(old(entries), key) && !Holds(entries, key)
      ensures found <==> Holds(old(entries), key)
    {
      WithoutKeeps(entries, key);
      for i := 0 to |entries|
        invariant forall k :: 0 <= k < i ==> entries[k].key != key
        invariant entries == old(entries)
      {
        if entries[i].key == key {
          WithoutAt(entries, key, i);
          entries := entries[..i] + entries[i + 1..];
          return true;
        }
      }
      AbsentStays(entries, key);
      found := false;
    }
  }

  // ---- Every run ----

  datatype Operation = Remember(key: Bytes, now: real) | Consume(key: Bytes, now: real)

  function After(c: Settings, entries: seq<Entry>, o: Operation): seq<Entry> {
    match o
    case Remember(key, now) => Remembered(c, entries, key, now)
    case Consume(key, now) => Consumed(entries, key, now)
  }

  function Run(c: Settings, ops: seq<Operation>): seq<Entry> {
    if ops == [] then [] else After(c, Run(c, ops[..|ops| - 1]), ops[|ops| - 1])
  }

  predicate Succeeds(entries: seq<Entry>, o: Operation) {
    o.Consume? && Holds(Live(entries, o.now), o.key)
  }

  /** How many consumes of the key were answered yes, and how often it was remembered. */
  function Successes(c: Settings, ops: seq<Operation>, key: Bytes): nat {
    if ops == [] then 0
    else
      var rest, last := ops[..|ops| - 1], ops[|ops| - 1];
      Successes(c, rest, key) + if last.key == key && Succeeds(Run(c, rest), last) then 1 else 0
  }

  function Remembers(ops: seq<Operation>, key: Bytes): nat {
    if ops == [] then 0
    else Remembers(ops[..|ops| - 1], key) + if ops[|ops| - 1].Remember? && ops[|ops| - 1].key == key then 1 else 0
  }

  /** Nothing is in the list after an operation that was not there before or is not being remembered. */
  lemma AfterHolds(c: Settings, entries: seq<Entry>, o: Operation, e: Entry)
    requires e in After(c, entries, o)
    ensures (o.Remember? && e == Entry(o.key, o.now + c.ttl)) || (e in entries && e.key != o.key && e.expires > o.now)
  {
    var alive := Live(entries, o.now);
    LiveKeeps(entries, o.now);
    WithoutKeeps(alive, o.key);
    hide Live, Without;
  }

  lemma HoldsMember(entries: seq<Entry>, key: Bytes) returns (e: Entry)
    requires Holds(entries, key)
    ensures e in entries && e.key == key
  {
    var i :| 0 <= i < |entries| && entries[i].key == key;
    e := entries[i];
  }

  lemma HeldBefore(c: Settings, entries: seq<Entry>, o: Operation, key: Bytes)
    requires Holds(After(c, entries, o), key)
    ensures (o.Remember? && o.key == key) || (o.key != key && Holds(entries, key))
  {
    var e := HoldsMember(After(c, entries, o), key);
    AfterHolds(c, entries, o, e);
  }

  lemma LiveHolds(entries: seq<Entry>, now: real, key: Bytes) returns (e: Entry)
    requires Holds(Live(entries, now), key)
    ensures e in entries && e.key == key && e.expires > now && Holds(entries, key)
  {
    e := HoldsMember(Live(entries, now), key);
    LiveKeeps(entries, now);
  }

  /** Each time a message is remembered, at most one of its echoes is swallowed. */
  lemma {:induction false} ConsumesBounded(c: Settings, ops: seq<Operation>, key: Bytes)
    ensures Successes(c, ops, key) + (if Holds(Run(c, ops), key) then 1 else 0) <= Remembers(ops, key)
  {
    if ops != [] {
      var rest, last := ops[..|ops| - 1], ops[|ops| - 1];
      ConsumesBounded(c, rest, key);
      var before := Run(c, rest);
      assert Run(c, ops) == After(c, before, last);
      hide Run, After, Holds, Live;
      if Holds(After(c, before, last), key) {
        HeldBefore(c, before, last, key);
      }
      if last.key == key && Succeeds(before, last) {
        var e := LiveHolds(before, last.now, key);
      }
    }
  }

  /** The key was remembered at `at` and not touched since. */
  predicate LastRemembered(ops: seq<Operation>, key: Bytes, i: int) {
    && 0 <= i < |ops| && ops[i].Remember? && ops[i].key == key
    && forall j :: i < j < |ops| ==> ops[j].key != key
  }

  lemma {:induction false} HeldWasRemembered(c: Settings, ops: seq<Operation>, e: Entry) returns (i: int)
    requires e in Run(c, ops)
    ensures LastRemembered(ops, e.key, i) && e.expires == ops[i].now + c.ttl
  {
    var rest, last := ops[..|ops| - 1], ops[|ops| - 1];
    AfterHolds(c, Run(c, rest), last, e);
    if last.key == e.key {
      i := |ops| - 1;
    } else {
      i := HeldWasRemembered(c, rest, e);
    }
  }

  /** An echo is swallowed only within the time to live of the message it echoes, and only the first. */
  lemma SwallowedIsRecent(c: Settings, ops: seq<Operation>, key: Bytes, now: real) returns (i: int)
    requires Succeeds(Run(c, ops), Consume(key, now))
    ensures LastRemembered(ops, key, i) && now < ops[i].now + c.ttl
  {
    var e := LiveHolds(Run(c, ops), now, key);
    i := HeldWasRemembered(c, ops, e);
  }

  function AllRemembers(ops: seq<Operation>): nat {
    if ops == [] then 0 else AllRemembers(ops[..|ops| - 1]) + if ops[|ops| - 1].Remember? then 1 else 0
  }

  /** The key's entry has at most `newer` entries behind it. */
  predicate NearEnd(entries: seq<Entry>, e: Entry, newer: nat) {
    exists i :: 0 <= i < |entries| && entries[i] == e && |entries| - 1 - i <= newer
  }

  lemma {:induction false} LiveNearEnd(entries: seq<Entry>, e: Entry, newer: nat, now: real)
    requires NearEnd(entries, e, newer) && e.expires > now
    ensures NearEnd(Live(entries, now), e, newer)
  {
    var i :| 0 <= i < |entries| && entries[i] == e && |entries| - 1 - i <= newer;
    var rest, first := entries[1..], if entries[0].expires > now then [entries[0]] else [];
    if i > 0 {
      assert rest[i - 1] == e;
      LiveNearEnd(rest, e, newer, now);
      var k :| 0 <= k < |Live(rest, now)| && Live(rest, now)[k] == e && |Live(rest, now)| - 1 - k <= newer;
      assert (first + Live(rest, now))[|first| + k] == e;
    } else {
      LiveLength(rest, now);
      assert Live(entries, now)[0] == e;
    }
  }

  lemma {:induction false} LiveLength(entries: seq<Entry>, now: real)
    ensures |Live(entries, now)| <= |entries|
  {
    if entries != [] {
      LiveLength(entries[1..], now);
    }
  }

  lemma {:induction false} WithoutNearEnd(entries: seq<Entry>, e: Entry, newer: nat, key: Bytes)
    requires NearEnd(entries, e, newer) && e.key != key
    ensures NearEnd(Without(entries, key), e, newer)
  {
    var i :| 0 <= i < |entries| && entries[i] == e && |entries| - 1 - i <= newer;
    var rest, first := entries[1..], if entries[0].key != key then [entries[0]] else [];
    if i > 0 {
      assert rest[i - 1] == e;
      WithoutNearEnd(rest, e, newer, key);
      var k :| 0 <= k < |Without(rest, key)| && Without(rest, key)[k] == e && |Without(rest, key)| - 1 - k <= newer;
      assert (first + Without(rest, key))[|first| + k] == e;
    } else {
      WithoutLength(rest, key);
      assert Without(entries, key)[0] == e;
    }
  }

  lemma {:induction false} WithoutLength(entries: seq<Entry>, key: Bytes)
    ensures |Without(entries, key)| <= |entries|
  {
    if entries != [] {
      WithoutLength(entries[1..], key);
    }
  }

  lemma NewestNearEnd(entries: seq<Entry>, e: Entry, newer: nat, maximum: nat)
    requires NearEnd(entries, e, newer) && newer < maximum
    ensures NearEnd(Newest(entries, maximum), e, newer)
  {
    var i :| 0 <= i < |entries| && entries[i] == e && |entries| - 1 - i <= newer;
    if |entries| > maximum {
      assert Newest(entries, maximum)[i - (|entries| - maximum)] == e;
    }
  }

  lemma AppendNearEnd(entries: seq<Entry>, e: Entry, newer: nat, x: Entry)
    requires NearEnd(entries, e, newer)
    ensures NearEnd(entries + [x], e, newer + 1)
  {
    var i :| 0 <= i < |entries| && entries[i] == e && |entries| - 1 - i <= newer;
    assert (entries + [x])[i] == e;
  }

  lemma AfterNearEnd(c: Settings, entries: seq<Entry>, o: Operation, e: Entry, newer: nat)
    requires NearEnd(entries, e, newer) && o.key != e.key && o.now < e.expires
    requires newer + (if o.Remember? then 1 else 0) < c.maximum
    ensures NearEnd(After(c, entries, o), e, newer + if o.Remember? then 1 else 0)
  {
    var kept, added := Without(Live(entries, o.now), o.key), Entry(o.key, o.now + c.ttl);
    hide NearEnd, Live, Without, Newest;
    LiveNearEnd(entries, e, newer, o.now);
    WithoutNearEnd(Live(entries, o.now), e, newer, o.key);
    if o.Remember? {
      AppendNearEnd(kept, e, newer, added);
      NewestNearEnd(kept + [added], e, newer + 1, c.maximum);
    }
  }

  lemma JustRemembered(c: Settings, entries: seq<Entry>, key: Bytes, at: real)
    requires c.maximum > 0
    ensures NearEnd(After(c, entries, Remember(key, at)), Entry(key, at + c.ttl), 0)
  {
    var kept, e := Without(Live(entries, at), key), Entry(key, at + c.ttl);
    hide Live, Without;
    assert (kept + [e])[|kept|] == e;
    NewestNearEnd(kept + [e], e, 0, c.maximum);
  }

  lemma RunStep(c: Settings, ops: seq<Operation>, o: Operation)
    ensures Run(c, ops + [o]) == After(c, Run(c, ops), o)
  {
    hide After;
    assert (ops + [o])[..|ops|] == ops;
  }

  /** Fewer than `maximum` later messages cannot push a remembered one out before its time is up. */
  lemma {:induction false} RememberedIsHeld(c: Settings, before: seq<Operation>, key: Bytes, at: real, later: seq<Operation>)
    requires AllRemembers(later) < c.maximum
    requires forall j :: 0 <= j < |later| ==> later[j].key != key && later[j].now < at + c.ttl
    ensures NearEnd(Run(c, before + [Remember(key, at)] + later), Entry(key, at + c.ttl), AllRemembers(later))
    decreases |later|
  {
    var e, start := Entry(key, at + c.ttl), before + [Remember(key, at)];
    if later == [] {
      hide Run, NearEnd;
      assert start + later == start;
      RunStep(c, before, Remember(key, at));
      JustRemembered(c, Run(c, before), key, at);
    } else {
      hide Run, NearEnd;
      var rest, last := later[..|later| - 1], later[|later| - 1];
      RememberedIsHeld(c, before, key, at, rest);
      assert start + later == start + rest + [last];
      RunStep(c, start + rest, last);
      AfterNearEnd(c, Run(c, start + rest), last, e, AllRemembers(rest));
    }
  }

  /** The first echo of a message, within its time to live and before `maximum` other messages, is swallowed. */
  lemma {:induction false} EchoIsSwallowed(c: Settings, before: seq<Operation>, key: Bytes, at: real, later: seq<Operation>, now: real)
    requires AllRemembers(later) < c.maximum && now < at + c.ttl
    requires forall j :: 0 <= j < |later| ==> later[j].key != key && later[j].now < at + c.ttl
    ensures Succeeds(Run(c, before + [Remember(key, at)] + later), Consume(key, now))
  {
    RememberedIsHeld(c, before, key, at, later);
    var entries := Run(c, before + [Remember(key, at)] + later);
    hide Run;
    LiveNearEnd(entries, Entry(key, at + c.ttl), AllRemembers(later), now);
  }
}
