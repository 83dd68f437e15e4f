/** The bandwidth policy as traffic classes: who gets a class, what it may use, and how health reads it back. */
module BandwidthPlan {
  import opened Basics

  // ---- Policy (pcs_bandwidth_config.py) ----

  const MINIMUM_RATE := 1000
  const MAXIMUM_RATE := 10_000_000_000

  /** A parsed rate, in bits per second. */
  type Rate = r: int | MINIMUM_RATE <= r <= MAXIMUM_RATE witness MINIMUM_RATE

  datatype Network = Network(base: nat, prefix: nat)

  datatype Client = Client(unlimited: bool, download: Option<Rate>, upload: Option<Rate>)

  datatype Profile = Profile(totalDown: Option<Rate>, totalUp: Option<Rate>, defaultDown: Rate, defaultUp: Rate)

  datatype Entry = Entry(ip: nat, minor: string, explicit: bool, unlimited: bool, down: Rate, up: Rate)

  predicate ValidNetwork(n: Network) { 24 <= n.prefix <= 30 }

  /** Addresses of the network, including its own and the broadcast address. */
  function Size(n: Network): (r: nat)
    requires ValidNetwork(n)
    ensures 4 <= r <= 256
  {
    match n.prefix
    case 24 => 256
    case 25 => 128
    case 26 => 64
    case 27 => 32
    case 28 => 16
    case 29 => 8
    case _ => 4
  }

  predicate IsHost(n: Network, ip: nat)
    requires ValidNetwork(n)
  {
    n.base < ip < n.base + Size(n) - 1
  }

  function HexDigit(d: nat): char
    requires d < 16
  {
    "0123456789abcdef"[d]
  }

  function Hex(n: nat): (r: string)
    ensures r != ""
  {
    if n < 16 then [HexDigit(n)] else Hex(n / 16) + [HexDigit(n % 16)]
  }

  lemma {:induction false} HexInjective(a: nat, b: nat)
    requires Hex(a) == Hex(b)
    ensures a == b
  {
    var x, y := Hex(a), Hex(b);
    DigitInjective(a % 16, b % 16);
    assert x[|x| - 1] == HexDigit(a % 16) && y[|y| - 1] == HexDigit(b % 16);
    if a < 16 || b < 16 {
      assert |x| == 1;
    } else {
      assert x[..|x| - 1] == Hex(a / 16) && y[..|y| - 1] == Hex(b / 16);
      HexInjective(a / 16, b / 16);
    }
  }

  lemma DigitInjective(a: nat, b: nat)
    requires a < 16 && b < 16
    ensures HexDigit(a) == HexDigit(b) <==> a == b
  {
  }

  /** The minor number of a host: its position in the network, from 0x100. */
  function Minor(n: Network, ip: nat): string
    requires ValidNetwork(n) && IsHost(n, ip)
  {
    Hex(0x100 + (ip - n.base - 1))
  }

  function EntryFor(n: Network, p: Profile, overrides: map<nat, Client>, ip: nat): Entry
    requires ValidNetwork(n) && IsHost(n, ip)
  {
    if ip !in overrides then Entry(ip, Minor(n, ip), false, false, p.defaultDown, p.defaultUp)
    else
      var c := overrides[ip];
      Entry(ip, Minor(n, ip), true, c.unlimited,
            if c.download.Some? then c.download.value else p.defaultDown,
            if c.upload.Some? then c.upload.value else p.defaultUp)
  }

  predicate EntryOk(n: Network, p: Profile, overrides: map<nat, Client>, routers: set<nat>, e: Entry)
    requires ValidNetwork(n)
  {
    IsHost(n, e.ip) && e.ip !in routers && e == EntryFor(n, p, overrides, e.ip)
  }

  predicate Listed(entries: seq<Entry>, ip: nat) { exists i :: 0 <= i < |entries| && entries[i].ip == ip }

  predicate Ascending(entries: seq<Entry>) { forall i, j :: 0 <= i < j < |entries| ==> entries[i].ip < entries[j].ip }

  /** One entry for every host below `end` that is not the router, in the order of the addresses, and no other. */
  predicate CoversBelow(n: Network, p: Profile, overrides: map<nat, Client>, routers: set<nat>, entries: seq<Entry>, end: nat)
    requires ValidNetwork(n)
  {
    && (forall e :: e in entries ==> EntryOk(n, p, overrides, routers, e) && e.ip < end)
    && Ascending(entries)
    && (forall ip: nat | n.base < ip < end :: ip !in routers ==> Listed(entries, ip))
  }

  predicate Covers(n: Network, p: Profile, overrides: map<nat, Client>, routers: set<nat>, entries: seq<Entry>)
    requires ValidNetwork(n)
  {
    CoversBelow(n, p, overrides, routers, entries, n.base + Size(n) - 1)
  }

  lemma CoversNext(n: Network, p: Profile, overrides: map<nat, Client>, routers: set<nat>, entries: seq<Entry>, ip: nat)
    requires ValidNetwork(n) && IsHost(n, ip) && CoversBelow(n, p, overrides, routers, entries, ip)
    ensures ip in routers ==> CoversBelow(n, p, overrides, routers, entries, ip + 1)
    ensures ip !in routers ==> CoversBelow(n, p, overrides, routers, entries + [EntryFor(n, p, overrides, ip)], ip + 1)
  {
    hide EntryFor;
    if ip !in routers {
      var more := entries + [EntryFor(n, p, overrides, ip)];
      assert EntryFor(n, p, overrides, ip).ip == ip by { EntryIp(n, p, overrides, ip); }
      forall a: nat | n.base < a < ip + 1 && a !in routers ensures Listed(more, a) {
        if a == ip {
          assert more[|entries|].ip == a;
        } else {
          assert Listed(entries, a);
          var i :| 0 <= i < |entries| && entries[i].ip == a;
          assert more[i].ip == a;
        }
      }
    }
  }

  lemma EntryIp(n: Network, p: Profile, overrides: map<nat, Client>, ip: nat)
    requires ValidNetwork(n) && IsHost(n, ip)
    ensures EntryFor(n, p, overrides, ip).ip == ip && EntryFor(n, p, overrides, ip).minor == Minor(n, ip)
  {
  }

  method Clients(n: Network, p: Profile, overrides: map<nat, Client>, routers: set<nat>) returns (entries: seq<Entry>)
    requires ValidNetwork(n)
    ensures Covers(n, p, overrides, routers, entries) && |entries| <= 254
  {
    entries := [];
    var index := 0x100;
    assert CoversBelow(n, p, overrides, routers, entries, n.base + 1);
    hide CoversBelow, Minor, Hex;
    for ip := n.base + 1 to n.base + Size(n) - 1
      invariant index == 0x100 + (ip - n.base - 1) && |entries| <= ip - n.base - 1
      invariant CoversBelow(n, p, overrides, routers, entries, ip)
    {
      CoversNext(n, p, overrides, routers, entries, ip);
      if ip !in routers {
        MinorAt(n, ip, index);
        var entry := Entry(ip, Hex(index), false, false, p.defaultDown, p.defaultUp);
        if ip in overrides {
          var c := overrides[ip];
          entry := Entry(ip, Hex(index), true, c.unlimited,
                         if c.download.Some? then c.download.value else p.defaultDown,
                         if c.upload.Some? then c.upload.value else p.defaultUp);
        }
        entries := entries + [entry];
      }
      index := index + 1;
    }
  }

  lemma MinorAt(n: Network, ip: nat, index: nat)
    requires ValidNetwork(n) && IsHost(n, ip) && index == 0x100 + (ip - n.base - 1)
    ensures Minor(n, ip) == Hex(index)
  {
  }

  /** Distinct hosts get distinct minors, none of which is the parent's "1". */
  lemma MinorsDistinct(n: Network, a: nat, b: nat)
    requires ValidNetwork(n) && IsHost(n, a) && IsHost(n, b)
    ensures Minor(n, a) == Minor(n, b) <==> a == b
    ensures Minor(n, a) != "1"
  {
    var x, y := 0x100 + (a - n.base - 1), 0x100 + (b - n.base - 1);
    assert |Hex(x)| >= 2;
    hide Hex, HexDigit;
    if Minor(n, a) == Minor(n, b) {
      HexInjective(x, y);
    }
  }

  // ---- The plan (pcs_bandwidth_engine.py) ----

  datatype Direction = Up | Down

  function Device(d: Direction): string { if d == Up then "pcsbw-up" else "pcsbw-down" }

  function Major(d: Direction): string { if d == Up then "b701" else "b702" }

  function DirectionName(d: Direction): string { if d == Up then "up" else "down" }

  function Total(p: Profile, d: Direction): Rate {
    var total := if d == Up then p.totalUp else p.totalDown;
    if total.Some? then total.value else MAXIMUM_RATE
  }

  function Ceiling(total: Rate, e: Entry, d: Direction): (r: Rate)
    ensures r <= total
  {
    var wanted := if d == Up then e.up else e.down;
    if e.unlimited || total < wanted then total else wanted
  }

  function Guarantee(total: Rate, count: nat, e: Entry, d: Direction): int
    requires count > 0
  {
    var share := total / count;
    var least := if Ceiling(total, e, d) < share then Ceiling(total, e, d) else share;
    if least < 8 then 8 else least
  }

  /** One line of the batch given to tc. */
  datatype Command =
    | AddRoot(device: string, major: string)
    | AddClass(device: string, parent: string, classid: string, rate: int, ceiling: int)
    | AddQueue(device: string, parent: string)

  datatype Rule = Classify(direction: Direction, ip: nat, counter: string, classid: string)

  datatype Plan = Plan(commands: seq<Command>, counters: seq<string>, rules: seq<Rule>)

  function ClassId(d: Direction, minor: string): string { Major(d) + ":" + minor }

  function CounterName(d: Direction, minor: string): string { DirectionName(d) + "_" + minor }

  function ParentCommands(d: Direction, total: Rate): seq<Command> {
    [AddRoot(Device(d), Major(d)), AddClass(Device(d), Major(d) + ":", ClassId(d, "1"), total, total)]
  }

  function LeafCommands(d: Direction, total: Rate, count: nat, e: Entry): seq<Command>
    requires count > 0
  {
    [AddClass(Device(d), ClassId(d, "1"), ClassId(d, e.minor), Guarantee(total, count, e, d), Ceiling(total, e, d)),
     AddQueue(Device(d), ClassId(d, e.minor))]
  }

  function LeavesCommands(d: Direction, total: Rate, count: nat, entries: seq<Entry>): seq<Command>
    requires entries != [] ==> count > 0
  {
    if entries == [] then []
    else LeavesCommands(d, total, count, entries[..|entries| - 1]) + LeafCommands(d, total, count, entries[|entries| - 1])
  }

  function DirectionCommands(d: Direction, total: Rate, entries: seq<Entry>): seq<Command> {
    ParentCommands(d, total) + LeavesCommands(d, total, |entries|, entries)
  }

  function DirectionRules(d: Direction, entries: seq<Entry>): (r: seq<Rule>)
    ensures |r| == |entries|
    ensures forall i :: 0 <= i < |r| ==>
      r[i] == Classify(d, entries[i].ip, CounterName(d, entries[i].minor), ClassId(d, entries[i].minor))
  {
    seq(|entries|, i requires 0 <= i < |entries| =>
      Classify(d, entries[i].ip, CounterName(d, entries[i].minor), ClassId(d, entries[i].minor)))
  }

  method PlanDirection(d: Direction, total: Rate, entries: seq<Entry>)
    returns (plan: Option<(seq<Command>, seq<Rule>)>)
    ensures plan.Some? <==> total >= 8 * |entries|
    ensures plan.Some? ==> plan.value == (DirectionCommands(d, total, entries), DirectionRules(d, entries))
  {
    hide Guarantee, Ceiling, LeafCommands;
    if total < |entries| * 8 {
      return None;
    }
    var commands, rules := ParentCommands(d, total), [];
    for i := 0 to |entries|
      invariant commands == ParentCommands(d, total) + LeavesCommands(d, total, |entries|, entries[..i])
      invariant rules == DirectionRules(d, entries)[..i]
    {
      var entry := entries[i];
      assert entries[..i + 1][..i] == entries[..i];
      commands := commands + LeafCommands(d, total, |entries|, entry);
      rules := rules + [Classify(d, entry.ip, CounterName(d, entry.minor), ClassId(d, entry.minor))];
    }
    assert entries[..|entries|] == entries && DirectionRules(d, entries)[..|entries|] == DirectionRules(d, entries);
    plan := Some((commands, rules));
  }

  method MakePlan(profile: Profile, entries: seq<Entry>) returns (plan: Option<Plan>)
    ensures plan.Some? <==> Total(profile, Up) >= 8 * |entries| && Total(profile, Down) >= 8 * |entries|
    ensures plan.Some? ==>
      && plan.value.commands == DirectionCommands(Up, Total(profile, Up), entries)
                                + DirectionCommands(Down, Total(profile, Down), entries)
      && plan.value.rules == DirectionRules(Up, entries) + DirectionRules(Down, entries)
      && (forall i, d :: 0 <= i < |entries| ==> CounterName(d, entries[i].minor) in plan.value.counters)
  {
    hide DirectionCommands;
    var counters := [];
    for i := 0 to |entries|
      invariant forall k, d :: 0 <= k < i ==> CounterName(d, entries[k].minor) in counters
    {
      counters := counters + [CounterName(Up, entries[i].minor), CounterName(Down, entries[i].minor)];
    }
    var up := PlanDirection(Up, Total(profile, Up), entries);
    if up.None? {
      return None;
    }
    var down := PlanDirection(Down, Total(profile, Down), entries);
    if down.None? {
      return None;
    }
    plan := Some(Plan(up.value.0 + down.value.0, counters, up.value.1 + down.value.1));
  }

  // ---- Allocation ----

  /** Every class is guaranteed at least a byte per second, never more than its ceiling, and no ceiling exceeds the total. */
  lemma AllocationBounds(total: Rate, count: nat, e: Entry, d: Direction)
    requires count > 0 && total >= 8 * count
    ensures 8 <= Guarantee(total, count, e, d) <= Ceiling(total, e, d) <= total
    ensures Guarantee(total, count, e, d) * count <= total
    ensures !e.unlimited ==> Ceiling(total, e, d) <= if d == Up then e.up else e.down
  {
    ShareBounds(total, count);
    MultiplyMonotone(Guarantee(total, count, e, d), total / count, count);
  }

  /**
   The ceiling is the client's rate or the total, whichever is less, and the total for an unlimited client. The guarantee
   is the largest rate below the ceiling of which every client could have as much.
   */
  lemma AllocationExact(total: Rate, count: nat, e: Entry, d: Direction)
    requires count > 0 && total >= 8 * count
    ensures e.unlimited ==> Ceiling(total, e, d) == total
    ensures !e.unlimited ==>
      var rate := if d == Up then e.up else e.down;
      Ceiling(total, e, d) <= total && Ceiling(total, e, d) <= rate && Ceiling(total, e, d) in {total, rate}
    ensures var guarantee, ceiling := Guarantee(total, count, e, d), Ceiling(total, e, d);
      && guarantee <= ceiling && guarantee * count <= total
      && (guarantee == ceiling || (guarantee + 1) * count > total)
  {
    AllocationBounds(total, count, e, d);
    ShareBounds(total, count);
    ShareIsLargest(total, count);
    var share := total / count;
    assert Guarantee(total, count, e, d) == if Ceiling(total, e, d) < share then Ceiling(total, e, d) else share;
  }

  lemma ShareIsLargest(total: int, count: nat)
    requires count > 0
    ensures (total / count + 1) * count > total
  {
    var share := total / count;
    assert total == share * count + total % count;
    assert (share + 1) * count == share * count + count;
  }

  lemma ShareBounds(total: int, count: nat)
    requires count > 0 && total >= 8 * count
    ensures total / count >= 8 && (total / count) * count <= total
  {
    var q := total / count;
    assert total == q * count + total % count;
    if q < 8 {
      MultiplyMonotone(q, 7, count);
      assert false;
    }
  }

  lemma MultiplyMonotone(a: int, b: int, n: nat)
    requires a <= b
    ensures a * n <= b * n
  {
  }

  function GuaranteeSum(total: Rate, count: nat, entries: seq<Entry>, d: Direction): int
    requires entries != [] ==> count > 0
  {
    if entries == [] then 0
    else GuaranteeSum(total, count, entries[..|entries| - 1], d) + Guarantee(total, count, entries[|entries| - 1], d)
  }

  lemma {:induction false} SumBounded(total: Rate, count: nat, entries: seq<Entry>, d: Direction)
    requires (entries != [] ==> count > 0) && total >= 8 * count
    ensures count > 0 ==> GuaranteeSum(total, count, entries, d) <= |entries| * (total / count)
    ensures entries == [] ==> GuaranteeSum(total, count, entries, d) == 0
  {
    if entries != [] {
      var rest, share, last := entries[..|entries| - 1], total / count, entries[|entries| - 1];
      SumBounded(total, count, rest, d);
      GuaranteeAtMostShare(total, count, last, d);
      assert GuaranteeSum(total, count, entries, d) == GuaranteeSum(total, count, rest, d) + Guarantee(total, count, last, d);
      hide *;
      OneMore(|rest|, share);
    }
  }

  lemma OneMore(n: nat, share: int)
    ensures (n + 1) * share == n * share + share
  {
  }

  lemma GuaranteeAtMostShare(total: Rate, count: nat, e: Entry, d: Direction)
    requires count > 0 && total >= 8 * count
    ensures Guarantee(total, count, e, d) <= total / count
  {
    ShareBounds(total, count);
  }

  /** The guarantees of a direction never add up to more than its total. */
  lemma GuaranteesFit(total: Rate, entries: seq<Entry>, d: Direction)
    requires total >= 8 * |entries|
    ensures GuaranteeSum(total, |entries|, entries, d) <= total
  {
    SumBounded(total, |entries|, entries, d);
    if entries != [] {
      ShareBounds(total, |entries|);
    }
  }

  // ---- What tc makes of the plan ----

  /** The rates of a class as the kernel reports them, in bytes per second. */
  datatype Rates = Rates(rate: int, ceiling: int)

  datatype Kernel = Kernel(
    roots: map<string, string>,
    classes: map<(string, string), Rates>,
    queues: set<(string, string)>)

  predicate Accepts(k: Kernel, c: Command) {
    match c
    case AddRoot(device, _) => device !in k.roots
    case AddClass(device, parent, classid, _, _) =>
      && device in k.roots && (parent == k.roots[device] + ":" || (device, parent) in k.classes)
      && (device, classid) !in k.classes
    case AddQueue(device, parent) => (device, parent) in k.classes && (device, parent) !in k.queues
  }

  function Execute(k: Kernel, c: Command): Kernel {
    match c
    case AddRoot(device, major) => k.(roots := k.roots[device := major])
    case AddClass(device, _, classid, rate, ceiling) => k.(classes := k.classes[(device, classid) := Rates(rate / 8, ceiling / 8)])
    case AddQueue(device, parent) => k.(queues := k.queues + {(device, parent)})
  }

  /** A batch stops at the first command that the kernel refuses. */
  function Batch(k: Kernel, commands: seq<Command>): Option<Kernel> {
    if commands == [] then Some(k)
    else
      var before, last := Batch(k, commands[..|commands| - 1]), commands[|commands| - 1];
      if before.Some? && Accepts(before.value, last) then Some(Execute(before.value, last)) else None
  }

  lemma {:induction false} BatchAppend(k: Kernel, a: seq<Command>, b: seq<Command>)
    requires Batch(k, a).Some?
    ensures Batch(k, a + b) == Batch(Batch(k, a).value, b)
    decreases |b|
  {
    if b == [] {
      assert a + b == a;
    } else {
      var rest := b[..|b| - 1];
      assert (a + b)[..|a + b| - 1] == a + rest;
      hide Accepts, Execute;
      BatchAppend(k, a, rest);
    }
  }

  lemma BatchTwo(k: Kernel, first: Command, second: Command)
    requires Accepts(k, first) && Accepts(Execute(k, first), second)
    ensures Batch(k, [first, second]) == Some(Execute(Execute(k, first), second))
  {
    hide Accepts, Execute;
    assert [first, second][..1] == [first] && [first][..0] == [];
    assert Batch(k, []) == Some(k);
    assert Batch(k, [first]) == Some(Execute(k, first));
  }

  function LeafRates(d: Direction, total: Rate, count: nat, e: Entry): Rates
    requires count > 0
  {
    Rates(Guarantee(total, count, e, d) / 8, Ceiling(total, e, d) / 8)
  }

  predicate DistinctMinors(entries: seq<Entry>) {
    && (forall i, j :: 0 <= i < j < |entries| ==> entries[i].minor != entries[j].minor)
    && (forall i :: 0 <= i < |entries| ==> entries[i].minor != "1")
  }

  function Key(d: Direction, minor: string): (string, string) { (Device(d), ClassId(d, minor)) }

  predicate HasMinor(entries: seq<Entry>, minor: string) { exists i :: 0 <= i < |entries| && entries[i].minor == minor }

  /** Nothing of the direction exists yet. */
  ghost predicate Bare(k: Kernel, d: Direction) {
    && Device(d) !in k.roots
    && (forall minor :: Key(d, minor) !in k.classes)
    && (forall minor :: Key(d, minor) !in k.queues)
  }

  /** The direction holds its root, the parent class, one class and one queue for each entry, and no other class. */
  ghost predicate Installed(k: Kernel, d: Direction, total: Rate, count: nat, entries: seq<Entry>)
    requires entries != [] ==> count > 0
  {
    && Device(d) in k.roots && k.roots[Device(d)] == Major(d)
    && Key(d, "1") in k.classes && k.classes[Key(d, "1")] == Rates(total / 8, total / 8)
    && (forall i :: 0 <= i < |entries| ==>
          && Key(d, entries[i].minor) in k.classes && Key(d, entries[i].minor) in k.queues
          && k.classes[Key(d, entries[i].minor)] == LeafRates(d, total, count, entries[i]))
    && (forall minor :: Key(d, minor) in k.classes ==> minor == "1" || HasMinor(entries, minor))
    && (forall minor :: Key(d, minor) in k.queues ==> HasMinor(entries, minor))
  }

  /** The other direction's part of the kernel is as it was. */
  ghost predicate SameFor(k: Kernel, k': Kernel, d: Direction) {
    && (Device(d) in k'.roots <==> Device(d) in k.roots)
    && (Device(d) in k.roots ==> k'.roots[Device(d)] == k.roots[Device(d)])
    && (forall minor :: Key(d, minor) in k'.classes <==> Key(d, minor) in k.classes)
    && (forall minor :: Key(d, minor) in k.classes ==> k'.classes[Key(d, minor)] == k.classes[Key(d, minor)])
    && (forall minor :: Key(d, minor) in k'.queues <==> Key(d, minor) in k.queues)
  }

  lemma KeyInjective(d: Direction, a: string, e: Direction, b: string)
    ensures Key(d, a) == Key(e, b) <==> d == e && a == b
  {
    assert "pcsbw-up"[6] != "pcsbw-down"[6];
    if ClassId(d, a) == ClassId(d, b) {
      assert a == ClassId(d, a)[5..] && b == ClassId(d, b)[5..];
    }
  }

  lemma ParentInstalled(k: Kernel, d: Direction, other: Direction, total: Rate, count: nat)
    requires Bare(k, d) && d != other
    ensures var r := Batch(k, ParentCommands(d, total)); r.Some? && Installed(r.value, d, total, count, []) && SameFor(k, r.value, other)
  {
    hide Key, LeafRates;
    assert Device(d) != Device(other);
    var first, second := AddRoot(Device(d), Major(d)), AddClass(Device(d), Major(d) + ":", ClassId(d, "1"), total, total);
    var k' := Execute(Execute(k, first), second);
    KeyIs(d, "1");
    BatchTwo(k, first, second);
    forall minor ensures (Key(d, minor) in k'.classes <==> minor == "1") && Key(d, minor) !in k'.queues {
      KeyInjective(d, minor, d, "1");
    }
    forall minor ensures (Key(other, minor) in k'.classes <==> Key(other, minor) in k.classes)
                      && (Key(other, minor) in k.classes ==> k'.classes[Key(other, minor)] == k.classes[Key(other, minor)]) {
      KeyInjective(other, minor, d, "1");
    }
  }

  lemma KeyIs(d: Direction, minor: string)
    ensures Key(d, minor) == (Device(d), ClassId(d, minor))
  {
  }

  lemma LeafInstalled(k: Kernel, d: Direction, other: Direction, total: Rate, count: nat, rest: seq<Entry>, e: Entry)
    requires count > 0 && d != other && Installed(k, d, total, count, rest) && !HasMinor(rest, e.minor) && e.minor != "1"
    ensures var r := Batch(k, LeafCommands(d, total, count, e));
      r.Some? && Installed(r.value, d, total, count, rest + [e]) && SameFor(k, r.value, other)
  {
    var first := AddClass(Device(d), ClassId(d, "1"), ClassId(d, e.minor), Guarantee(total, count, e, d), Ceiling(total, e, d));
    var second := AddQueue(Device(d), ClassId(d, e.minor));
    hide Guarantee, Ceiling;
    var rates, all := LeafRates(d, total, count, e), rest + [e];
    KeyIs(d, "1");
    KeyIs(d, e.minor);
    KeyInjective(d, e.minor, d, "1");
    hide Key, ClassId;
    BatchTwo(k, first, second);
    var k' := Execute(Execute(k, first), second);
    assert k'.classes == k.classes[Key(d, e.minor) := rates] && k'.queues == k.queues + {Key(d, e.minor)} && k'.roots == k.roots;
    hide LeafRates, Accepts, Execute, Batch;
    forall minor ensures Key(d, minor) == Key(d, e.minor) <==> minor == e.minor {
      KeyInjective(d, minor, d, e.minor);
    }
    forall minor ensures Key(other, minor) != Key(d, e.minor) {
      KeyInjective(other, minor, d, e.minor);
    }
    LeafAdded(k, k', d, total, count, rest, e);
  }

  lemma LeafAdded(k: Kernel, k': Kernel, d: Direction, total: Rate, count: nat, rest: seq<Entry>, e: Entry)
    requires count > 0 && Installed(k, d, total, count, rest) && !HasMinor(rest, e.minor) && e.minor != "1"
    requires k'.roots == k.roots && k'.queues == k.queues + {Key(d, e.minor)}
    requires k'.classes == k.classes[Key(d, e.minor) := LeafRates(d, total, count, e)]
    requires forall minor :: Key(d, minor) == Key(d, e.minor) <==> minor == e.minor
    ensures Installed(k', d, total, count, rest + [e])
  {
    hide Key, LeafRates;
    var all := rest + [e];
    assert all[|rest|] == e;
    assert HasMinor(all, e.minor);
    forall minor | HasMinor(rest, minor) ensures HasMinor(all, minor) {
      var i :| 0 <= i < |rest| && rest[i].minor == minor;
      assert all[i].minor == minor;
    }
    forall i | 0 <= i < |rest| ensures rest[i].minor != e.minor {
    }
  }

  lemma {:induction false} LeavesInstalled(k: Kernel, d: Direction, other: Direction, total: Rate, count: nat, entries: seq<Entry>)
    requires (entries != [] ==> count > 0) && d != other && Installed(k, d, total, count, []) && DistinctMinors(entries)
    ensures var r := Batch(k, LeavesCommands(d, total, count, entries));
      r.Some? && Installed(r.value, d, total, count, entries) && SameFor(k, r.value, other)
  {
    hide Installed, SameFor, LeafCommands;
    if entries == [] {
      assert SameFor(k, k, other) by { SameForSelf(k, other); }
    } else {
      var rest, last := entries[..|entries| - 1], entries[|entries| - 1];
      LeavesInstalled(k, d, other, total, count, rest);
      var commands := LeavesCommands(d, total, count, rest);
      var before := Batch(k, commands).value;
      assert !HasMinor(rest, last.minor);
      hide Batch;
      LeafInstalled(before, d, other, total, count, rest, last);
      BatchAppend(k, commands, LeafCommands(d, total, count, last));
      assert rest + [last] == entries;
      SameForTransitive(k, before, Batch(before, LeafCommands(d, total, count, last)).value, other);
    }
  }

  lemma SameForSelf(k: Kernel, d: Direction)
    ensures SameFor(k, k, d)
  {
  }

  lemma SameForTransitive(a: Kernel, b: Kernel, c: Kernel, d: Direction)
    requires SameFor(a, b, d) && SameFor(b, c, d)
    ensures SameFor(a, c, d)
  {
    hide Key;
  }

  lemma DirectionInstalled(k: Kernel, d: Direction, other: Direction, total: Rate, entries: seq<Entry>)
    requires Bare(k, d) && d != other && DistinctMinors(entries)
    ensures var r := Batch(k, DirectionCommands(d, total, entries));
      r.Some? && Installed(r.value, d, total, |entries|, entries) && SameFor(k, r.value, other)
  {
    hide Installed, SameFor, Bare, Batch, ParentCommands, LeavesCommands;
    ParentInstalled(k, d, other, total, |entries|);
    var k1 := Batch(k, ParentCommands(d, total)).value;
    LeavesInstalled(k1, d, other, total, |entries|, entries);
    BatchAppend(k, ParentCommands(d, total), LeavesCommands(d, total, |entries|, entries));
    SameForTransitive(k, k1, Batch(k1, LeavesCommands(d, total, |entries|, entries)).value, other);
  }

  lemma SameKeepsBare(k: Kernel, k': Kernel, d: Direction)
    requires Bare(k, d) && SameFor(k, k', d)
    ensures Bare(k', d)
  {
    hide Key;
  }

  lemma SameKeepsInstalled(k: Kernel, k': Kernel, d: Direction, total: Rate, count: nat, entries: seq<Entry>)
    requires (entries != [] ==> count > 0) && Installed(k, d, total, count, entries) && SameFor(k, k', d)
    ensures Installed(k', d, total, count, entries)
  {
    hide Key, LeafRates, HasMinor;
  }

  lemma CoveredMinorsDistinct(n: Network, p: Profile, overrides: map<nat, Client>, routers: set<nat>, entries: seq<Entry>)
    requires ValidNetwork(n) && Covers(n, p, overrides, routers, entries)
    ensures DistinctMinors(entries)
  {
    hide Minor, EntryFor;
    forall i, j | 0 <= i < j < |entries| ensures entries[i].minor != entries[j].minor {
      assert entries[i] in entries && entries[j] in entries;
      EntryIp(n, p, overrides, entries[i].ip);
      EntryIp(n, p, overrides, entries[j].ip);
      MinorsDistinct(n, entries[i].ip, entries[j].ip);
    }
    forall i | 0 <= i < |entries| ensures entries[i].minor != "1" {
      assert entries[i] in entries;
      EntryIp(n, p, overrides, entries[i].ip);
      MinorsDistinct(n, entries[i].ip, entries[i].ip);
    }
  }

  /**
   The kernel takes the whole batch of any plan on fresh devices, and then holds, in each direction, the parent
   class, one class of its own for every host that is not the router, with the planned rates, and nothing else.
   */
  lemma PlanInstalls(k: Kernel, n: Network, p: Profile, overrides: map<nat, Client>, routers: set<nat>, entries: seq<Entry>)
    requires ValidNetwork(n) && Covers(n, p, overrides, routers, entries)
    requires Bare(k, Up) && Bare(k, Down)
    ensures var r := Batch(k, DirectionCommands(Up, Total(p, Up), entries) + DirectionCommands(Down, Total(p, Down), entries));
      && r.Some?
      && Installed(r.value, Up, Total(p, Up), |entries|, entries)
      && Installed(r.value, Down, Total(p, Down), |entries|, entries)
  {
    CoveredMinorsDistinct(n, p, overrides, routers, entries);
    hide *;
    var up, down := DirectionCommands(Up, Total(p, Up), entries), DirectionCommands(Down, Total(p, Down), entries);
    DirectionInstalled(k, Up, Down, Total(p, Up), entries);
    var k1 := Batch(k, up).value;
    SameKeepsBare(k, k1, Down);
    DirectionInstalled(k1, Down, Up, Total(p, Down), entries);
    BatchAppend(k, up, down);
    SameKeepsInstalled(k1, Batch(k1, down).value, Up, Total(p, Up), |entries|, entries);
  }

  // ---- What one address gets ----

  function PowerOfTwo(n: nat): nat { if n == 0 then 1 else 2 * PowerOfTwo(n - 1) }

  /** A usable address: neither the network's own nor its broadcast address. */
  predicate Usable(n: Network, ip: nat)
    requires n.prefix <= 32
  {
    n.base < ip && ip + 1 < n.base + PowerOfTwo(32 - n.prefix)
  }

  lemma UsableExactly(n: Network, ip: nat)
    requires ValidNetwork(n)
    ensures IsHost(n, ip) <==> Usable(n, ip)
  {
    assert PowerOfTwo(2) == 4 && PowerOfTwo(3) == 8 && PowerOfTwo(4) == 16 && PowerOfTwo(5) == 32;
    assert PowerOfTwo(6) == 64 && PowerOfTwo(7) == 128 && PowerOfTwo(8) == 256;
  }

  /** The number that hexadecimal digits write. */
  function HexValue(s: string): int {
    if s == "" then 0
    else
      var c := s[|s| - 1];
      HexValue(s[..|s| - 1]) * 16 + (if '0' <= c <= '9' then c as int - 48 else c as int - 87)
  }

  lemma DigitReads(d: nat)
    requires d < 16
    ensures HexValue([HexDigit(d)]) == d
  {
    assert [HexDigit(d)][..0] == "";
  }

  lemma {:induction false} HexReads(n: nat)
    ensures HexValue(Hex(n)) == n
  {
    DigitReads(n % 16);
    if n >= 16 {
      var s := Hex(n);
      HexReads(n / 16);
      assert [HexDigit(n % 16)][..0] == "";
      assert s[..|s| - 1] == Hex(n / 16) && s[|s| - 1] == HexDigit(n % 16);
      hide Hex, HexDigit;
    }
  }

  /** What the policy lets the address use at most. */
  predicate Allowed(p: Profile, overrides: map<nat, Client>, ip: nat, d: Direction, total: Rate, most: int) {
    var unlimited := ip in overrides && overrides[ip].unlimited;
    var own := if ip !in overrides then None else if d == Up then overrides[ip].upload else overrides[ip].download;
    var wanted := if own.Some? then own.value else if d == Up then p.defaultUp else p.defaultDown;
    if unlimited then most == total else most <= total && most <= wanted && most in {total, wanted}
  }

  /** The device and the handle of a direction, as tc and nft name them. */
  predicate Names(d: Direction, device: string, prefix: string, counter: string) {
    match d
    case Up => device == "pcsbw-up" && prefix == "b701:" && counter == "up_"
    case Down => device == "pcsbw-down" && prefix == "b702:" && counter == "down_"
  }

  /**
   The class of one address: its handle counts the network's addresses from 0x100 in hexadecimal, its ceiling is what the
   policy allows it, its rate the largest up to that of which every address could have as much, both in bytes per second;
   it has a queue of its own and a rule that leads the address's traffic to it.
   */
  ghost predicate Serves(k: Kernel, n: Network, p: Profile, overrides: map<nat, Client>, count: nat, total: Rate,
                          rules: seq<Rule>, ip: nat, d: Direction)
  {
    exists device: string, prefix: string, counter: string, minor: string, least: int, most: int ::
      HasClass(k, n, p, overrides, count, total, rules, ip, d, device, prefix, counter, minor, least, most)
  }

  ghost predicate HasClass(k: Kernel, n: Network, p: Profile, overrides: map<nat, Client>, count: nat, total: Rate,
                         rules: seq<Rule>, ip: nat, d: Direction,
                         device: string, prefix: string, counter: string, minor: string, least: int, most: int)
  {
    && Names(d, device, prefix, counter)
    && HexValue(minor) == 0x100 + (ip - n.base) - 1
    && Allowed(p, overrides, ip, d, total, most)
    && 8 <= least <= most && least * count <= total && (least == most || (least + 1) * count > total)
    && (device, prefix + minor) in k.classes && k.classes[(device, prefix + minor)] == Rates(least / 8, most / 8)
    && (device, prefix + minor) in k.queues
    && Classify(d, ip, counter + minor, prefix + minor) in rules
  }

  lemma EntryClass(k: Kernel, n: Network, p: Profile, overrides: map<nat, Client>, routers: set<nat>, entries: seq<Entry>,
                   d: Direction, i: nat)
    requires ValidNetwork(n) && Covers(n, p, overrides, routers, entries) && i < |entries|
    requires Total(p, d) >= 8 * |entries| && Installed(k, d, Total(p, d), |entries|, entries)
    ensures Serves(k, n, p, overrides, |entries|, Total(p, d), DirectionRules(d, entries), entries[i].ip, d)
  {
    var e, total, count := entries[i], Total(p, d), |entries|;
    assert e in entries && EntryOk(n, p, overrides, routers, e);
    assert DirectionRules(d, entries)[i] == Classify(d, e.ip, CounterName(d, e.minor), ClassId(d, e.minor));
    InstalledClass(k, d, total, entries, i);
    EntryAllowed(n, p, overrides, e.ip, d, total);
    hide *;
    ClassOf(k, n, p, overrides, count, total, DirectionRules(d, entries), e, d);
  }

  lemma ClassOf(k: Kernel, n: Network, p: Profile, overrides: map<nat, Client>, count: nat, total: Rate, rules: seq<Rule>,
                e: Entry, d: Direction)
    requires count > 0 && total >= 8 * count && Classify(d, e.ip, CounterName(d, e.minor), ClassId(d, e.minor)) in rules
    requires Key(d, e.minor) in k.classes && Key(d, e.minor) in k.queues
    requires k.classes[Key(d, e.minor)] == Rates(Guarantee(total, count, e, d) / 8, Ceiling(total, e, d) / 8)
    requires Allowed(p, overrides, e.ip, d, total, Ceiling(total, e, d)) && HexValue(e.minor) == 0x100 + (e.ip - n.base) - 1
    ensures Serves(k, n, p, overrides, count, total, rules, e.ip, d)
  {
    var least: int, most: int := Guarantee(total, count, e, d), Ceiling(total, e, d);
    AllocationExact(total, count, e, d);
    AllocationBounds(total, count, e, d);
    Named(d, e.minor);
    hide Guarantee, Ceiling, HexValue, Allowed, Names, Device, Major, DirectionName, Key, ClassId, CounterName;
    assert HasClass(k, n, p, overrides, count, total, rules, e.ip, d,
                    Device(d), Major(d) + ":", DirectionName(d) + "_", e.minor, least, most);
  }

  lemma Named(d: Direction, minor: string)
    ensures Names(d, Device(d), Major(d) + ":", DirectionName(d) + "_")
    ensures Key(d, minor) == (Device(d), Major(d) + ":" + minor) && ClassId(d, minor) == Major(d) + ":" + minor
    ensures CounterName(d, minor) == DirectionName(d) + "_" + minor
  {
  }

  lemma EntryAllowed(n: Network, p: Profile, overrides: map<nat, Client>, ip: nat, d: Direction, total: Rate)
    requires ValidNetwork(n) && IsHost(n, ip)
    ensures var e := EntryFor(n, p, overrides, ip);
      Allowed(p, overrides, ip, d, total, Ceiling(total, e, d)) && HexValue(e.minor) == 0x100 + (ip - n.base) - 1
  {
    HexReads(0x100 + (ip - n.base - 1));
    hide Hex, HexValue;
  }

  lemma InstalledClass(k: Kernel, d: Direction, total: Rate, entries: seq<Entry>, i: nat)
    requires i < |entries| && Installed(k, d, total, |entries|, entries)
    ensures Key(d, entries[i].minor) in k.classes && Key(d, entries[i].minor) in k.queues
    ensures k.classes[Key(d, entries[i].minor)]
         == Rates(Guarantee(total, |entries|, entries[i], d) / 8, Ceiling(total, entries[i], d) / 8)
  {
    hide Key, Guarantee, Ceiling;
  }

  lemma {:induction false} EntryOfHost(n: Network, p: Profile, overrides: map<nat, Client>, routers: set<nat>, entries: seq<Entry>, ip: nat)
    requires ValidNetwork(n) && Covers(n, p, overrides, routers, entries)
    ensures Usable(n, ip) && ip !in routers <==> Listed(entries, ip)
  {
    UsableExactly(n, ip);
    hide Minor, EntryFor;
    if Listed(entries, ip) {
      var i :| 0 <= i < |entries| && entries[i].ip == ip;
      assert entries[i] in entries;
    }
  }

  lemma DirectionServes(k: Kernel, n: Network, p: Profile, overrides: map<nat, Client>, routers: set<nat>, entries: seq<Entry>,
                        ip: nat, d: Direction)
    requires ValidNetwork(n) && Covers(n, p, overrides, routers, entries)
    requires Total(p, d) >= 8 * |entries| && Installed(k, d, Total(p, d), |entries|, entries)
    ensures Usable(n, ip) && ip !in routers ==>
      Serves(k, n, p, overrides, |entries|, Total(p, d), DirectionRules(d, entries), ip, d)
    ensures !(Usable(n, ip) && ip !in routers) ==>
      forall rule :: rule in DirectionRules(d, entries) ==> rule.ip != ip
  {
    EntryOfHost(n, p, overrides, routers, entries, ip);
    hide Covers, Installed, Serves, Usable, Total;
    if i :| 0 <= i < |entries| && entries[i].ip == ip {
      EntryClass(k, n, p, overrides, routers, entries, d, i);
    }
    if !Listed(entries, ip) {
      forall rule | rule in DirectionRules(d, entries) ensures rule.ip != ip {
        var i :| 0 <= i < |entries| && DirectionRules(d, entries)[i] == rule;
      }
    }
  }

  /**
   What every address gets from a plan that is not refused: a usable one that is not the router's has, in each direction,
   its own class, queue and rule as the policy says; for any other there is no rule.
   */
  lemma EveryAddressServed(k: Kernel, n: Network, p: Profile, overrides: map<nat, Client>, routers: set<nat>, entries: seq<Entry>,
                           ip: nat, d: Direction)
    requires ValidNetwork(n) && Covers(n, p, overrides, routers, entries) && Bare(k, Up) && Bare(k, Down)
    requires Total(p, Up) >= 8 * |entries| && Total(p, Down) >= 8 * |entries|
    ensures var commands := DirectionCommands(Up, Total(p, Up), entries) + DirectionCommands(Down, Total(p, Down), entries);
      var rules, total := DirectionRules(d, entries), if d == Up then p.totalUp else p.totalDown;
      && Batch(k, commands).Some?
      && (Usable(n, ip) && ip !in routers ==>
            Serves(Batch(k, commands).value, n, p, overrides, |entries|, if total.Some? then total.value else 10_000_000_000,
                    rules, ip, d))
      && (!(Usable(n, ip) && ip !in routers) ==> forall rule :: rule in rules ==> rule.ip != ip)
  {
    PlanInstalls(k, n, p, overrides, routers, entries);
    var commands := DirectionCommands(Up, Total(p, Up), entries) + DirectionCommands(Down, Total(p, Down), entries);
    hide Covers, Installed, Bare, DirectionCommands, Batch, Serves, Usable, DirectionRules;
    DirectionServes(Batch(k, commands).value, n, p, overrides, routers, entries, ip, d);
  }

  // ---- Health ----

  /** What health wants of a direction's queues and classes. */
  predicate Served(k: Kernel, d: Direction, total: Rate, entries: seq<Entry>) {
    && Device(d) in k.roots && k.roots[Device(d)] == Major(d)
    && Key(d, "1") in k.classes && k.classes[Key(d, "1")] == Rates(total / 8, total / 8)
    && forall i :: 0 <= i < |entries| ==>
         && Key(d, entries[i].minor) in k.classes && Key(d, entries[i].minor) in k.queues
         && k.classes[Key(d, entries[i].minor)] == LeafRates(d, total, |entries|, entries[i])
  }

  /** The part of the health check that reads a direction's queues and classes back. */
  method CheckRates(k: Kernel, d: Direction, total: Rate, entries: seq<Entry>) returns (errors: seq<string>)
    ensures errors == [] <==> Served(k, d, total, entries)
  {
    errors := [];
    hide Key, LeafRates, Major, Device;
    if Device(d) !in k.roots || k.roots[Device(d)] != Major(d) {
      errors := errors + ["HTB missing"];
    }
    if exists i :: 0 <= i < |entries| && Key(d, entries[i].minor) !in k.classes {
      errors := errors + ["client classes missing"];
    }
    if Key(d, "1") !in k.classes || k.classes[Key(d, "1")] != Rates(total / 8, total / 8) {
      errors := errors + ["aggregate rate changed"];
    }
    ghost var before := errors;
    var i := 0;
    while i < |entries|
      invariant 0 <= i <= |entries|
      invariant errors == before
      invariant forall j :: 0 <= j < i ==>
        Key(d, entries[j].minor) in k.classes && k.classes[Key(d, entries[j].minor)] == LeafRates(d, total, |entries|, entries[j])
    {
      var key := Key(d, entries[i].minor);
      if key !in k.classes || k.classes[key] != LeafRates(d, total, |entries|, entries[i]) {
        errors := errors + ["client rate changed"];
        break;
      }
      i := i + 1;
    }
    if exists i :: 0 <= i < |entries| && Key(d, entries[i].minor) !in k.queues {
      errors := errors + ["fair queues missing"];
    }
  }

  /**
   Planning, installing on fresh devices and reading back: refused exactly when a total cannot give every host a
   byte per second, and otherwise without a single rate error.
   */
  method PlanAndCheck(k: Kernel, n: Network, p: Profile, overrides: map<nat, Client>, routers: set<nat>)
    returns (errors: Option<seq<string>>, ghost entries: seq<Entry>)
    requires ValidNetwork(n) && Bare(k, Up) && Bare(k, Down)
    ensures Covers(n, p, overrides, routers, entries)
    ensures errors.Some? <==> Total(p, Up) >= 8 * |entries| && Total(p, Down) >= 8 * |entries|
    ensures errors.Some? ==> errors.value == []
  {
    hide Covers, Installed, Bare, DirectionCommands, Batch, Served;
    var hosts := Clients(n, p, overrides, routers);
    entries := hosts;
    var plan := MakePlan(p, hosts);
    if plan.None? {
      return None, entries;
    }
    PlanInstalls(k, n, p, overrides, routers, hosts);
    var installed := Batch(k, plan.value.commands).value;
    InstalledServed(installed, Up, Total(p, Up), hosts);
    InstalledServed(installed, Down, Total(p, Down), hosts);
    var up := CheckRates(installed, Up, Total(p, Up), hosts);
    var down := CheckRates(installed, Down, Total(p, Down), hosts);
    errors := Some(up + down);
  }

  lemma InstalledServed(k: Kernel, d: Direction, total: Rate, entries: seq<Entry>)
    requires Installed(k, d, total, |entries|, entries)
    ensures Served(k, d, total, entries)
  {
    hide Key, LeafRates;
  }
}
