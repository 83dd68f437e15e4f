/**
 Creating and removing the bandwidth manager's kernel objects, one operation at a time; a script says of every operation
 whether it works or fails, with or without its effect (pcs_bandwidth_engine.py). No other tool changes the kernel
 meanwhile.
 */
module BandwidthEngine {
  import opened Basics
  import opened BandwidthPlan

  const PREFERENCE := 47801
  const HANDLE := 1

  datatype Link = Link(index: nat, ifb: bool, ours: bool)

  datatype Place = Place(device: string, preference: int, handle: int)

  /** A filter on a device's egress; a basic filter may redirect to another device. */
  datatype Filter = Filter(basic: bool, target: string)

  datatype Host = Host(
    /** The pcs_bandwidth table, and whether it carries the manager's comment. */
    table: Option<bool>,
    /** Interfaces; `ours` stands for the manager's alias. */
    links: map<string, Link>,
    filters: map<Place, Filter>,
    clsact: set<string>,
    /** Devices with an ingress qdisc, and devices with filters on the ingress side of their clsact. */
    ingress: set<string>,
    ingressFilters: set<string>,
    /** Some table offloads flows past the forwarding hooks. */
    flowtable: bool,
    /** The index the kernel gives to the next interface. */
    nextIndex: nat)

  /** The runtime journal on disk. */
  datatype Journal = Journal(createdIfbs: map<string, nat>, attachments: map<Direction, string>, createdClsact: seq<string>)

  const NO_JOURNAL := Journal(map[], map[], [])

  predicate Ours(place: Place, f: Filter, d: Direction) {
    place.preference == PREFERENCE && place.handle == HANDLE && f.basic && f.target == Device(d)
  }

  function SlotOf(device: string): Place { Place(device, PREFERENCE, HANDLE) }

  /** The manager's redirect of a direction stands on a device. */
  predicate Redirected(h: Host, device: string, d: Direction) {
    SlotOf(device) in h.filters && Ours(SlotOf(device), h.filters[SlotOf(device)], d)
  }

  /** No redirect of the manager points at an IFB that does not exist; filters sit on existing interfaces. */
  predicate NoDangling(h: Host) {
    && (forall place :: place in h.filters ==> place.device in h.links)
    && (forall place :: place in h.filters ==>
          && (Ours(place, h.filters[place], Up) ==> Device(Up) in h.links)
          && (Ours(place, h.filters[place], Down) ==> Device(Down) in h.links))
  }

  predicate OwnedLink(h: Host, j: Journal, name: string)
    requires name in h.links
  {
    var link := h.links[name];
    link.ifb && (link.ours || (name in j.createdIfbs && j.createdIfbs[name] == link.index))
  }

  predicate NoRedirects(h: Host) {
    forall place :: place in h.filters ==> !OursAtAll(place, h.filters[place])
  }

  /** Nothing of the manager is left. */
  predicate Removed(h: Host) {
    h.table.None? && NoRedirects(h) && Device(Up) !in h.links && Device(Down) !in h.links
  }

  predicate ManagersDevice(device: string) { device == Device(Up) || device == Device(Down) }

  predicate OursAtAll(place: Place, f: Filter) { Ours(place, f, Up) || Ours(place, f, Down) }

  /** A filter that is neither a redirect of the manager nor on one of its IFBs. */
  predicate ForeignFilter(place: Place, f: Filter) { !ManagersDevice(place.device) && !OursAtAll(place, f) }

  /** Everything that is not the manager's is as it was. */
  predicate ForeignKept(h: Host, j: Journal, h': Host) {
    && (h.table == Some(false) ==> h'.table == h.table)
    && (forall name :: name in h.links && !(ManagersDevice(name) && OwnedLink(h, j, name)) ==>
          name in h'.links && h'.links[name] == h.links[name])
    && (forall place :: place in h.filters && ForeignFilter(place, h.filters[place]) ==>
          place in h'.filters && h'.filters[place] == h.filters[place])
  }

  /** A foreign filter sits in the reserved preference of an attached device. */
  predicate SlotTaken(h: Host, device: string) {
    exists place :: place in h.filters && place.device == device && place.preference == PREFERENCE
                    && !OursAtAll(place, h.filters[place])
  }

  predicate LinkFree(h: Host, j: Journal, d: Direction) { Device(d) in h.links ==> OwnedLink(h, j, Device(d)) }

  predicate SlotFree(h: Host, j: Journal, d: Direction) {
    d in j.attachments && j.attachments[d] in h.links ==> !SlotTaken(h, j.attachments[d])
  }

  /** What cleanup insists on: every object that bears one of the manager's names is the manager's. */
  predicate Cleanable(h: Host, j: Journal) {
    && h.table != Some(false)
    && LinkFree(h, j, Up) && LinkFree(h, j, Down) && SlotFree(h, j, Up) && SlotFree(h, j, Down)
  }

  // ---- Operations and their fates ----

  datatype Fate = Done | Undone | DoneButRaised

  /** What becomes of the n-th operation; operations beyond the script's end work. */
  function FateAt(script: seq<Fate>, n: nat): Fate { if n < |script| then script[n] else Done }

  /** Every operation from the a-th up to the b-th works. */
  predicate Quiet(script: seq<Fate>, a: nat, b: nat) {
    forall n :: a <= n < b ==> FateAt(script, n) == Done
  }

  lemma QuietParts(script: seq<Fate>, a: nat, b: nat, c: nat)
    requires a <= b <= c
    ensures Quiet(script, a, c) <==> Quiet(script, a, b) && Quiet(script, b, c)
  {
  }

  /** The operations that build; `Elsewhere` stands for those that touch nothing modelled here. */
  datatype Operation =
    | MakeLink(d: Direction)
    | RecordIndex(d: Direction)
    | SetAlias(d: Direction)
    | Elsewhere
    | MakeTable
    | RecordClsact(device: string)
    | MakeClsact(device: string)
    | Redirect(device: string, d: Direction)
    | SaveState

  /** The host and the journal after an operation, or nothing if the kernel refuses it. */
  function Effect(op: Operation, h: Host, j: Journal): Option<(Host, Journal)> {
    match op
    case MakeLink(d) => if Device(d) in h.links then None else Some((WithLink(h, d), j))
    case RecordIndex(d) => if Device(d) in h.links then Some((h, Recorded(j, d, h.links[Device(d)].index))) else None
    case SetAlias(d) => if Device(d) in h.links then Some((Aliased(h, d), j)) else None
    case Elsewhere => Some((h, j))
    case MakeTable => if h.table.Some? then None else Some((h.(table := Some(true)), j))
    case RecordClsact(device) => Some((h, j.(createdClsact := j.createdClsact + [device])))
    case MakeClsact(device) => if device in h.links then Some((h.(clsact := h.clsact + {device}), j)) else None
    case Redirect(device, d) =>
      if device !in h.links || device !in h.clsact || SlotOf(device) in h.filters then None
      else Some((WithRedirect(h, device, d), j))
    case SaveState => Some((h, j))
  }

  function WithLink(h: Host, d: Direction): Host {
    h.(links := h.links[Device(d) := Link(h.nextIndex, true, false)], nextIndex := h.nextIndex + 1)
  }

  function Recorded(j: Journal, d: Direction, index: nat): Journal {
    j.(createdIfbs := j.createdIfbs[Device(d) := index])
  }

  datatype Progress = Progress(host: Host, journal: Journal, turn: nat, ok: bool)

  /** What becomes of an operation: a refused one fails without effect. */
  function FateOf(script: seq<Fate>, op: Operation, p: Progress): Fate {
    if Effect(op, p.host, p.journal).None? then Undone else FateAt(script, p.turn)
  }

  function Step(script: seq<Fate>, op: Operation, p: Progress): Progress {
    var fate, effect := FateOf(script, op, p), Effect(op, p.host, p.journal);
    if effect.None? || fate == Undone then p.(turn := p.turn + 1, ok := false)
    else Progress(effect.value.0, effect.value.1, p.turn + 1, fate == Done)
  }

  /** One operation after another, up to the first that fails. */
  function RunOps(script: seq<Fate>, ops: seq<Operation>, p: Progress): Progress {
    if ops == [] || !p.ok then p else RunOps(script, ops[1..], Step(script, ops[0], p))
  }

  function LinkOps(d: Direction): seq<Operation> { [MakeLink(d), RecordIndex(d), SetAlias(d), Elsewhere] }

  function RedirectOps(h: Host, device: string, d: Direction): seq<Operation> {
    (if device in h.clsact then [] else [RecordClsact(device), MakeClsact(device)]) + [Redirect(device, d)]
  }

  /** The manager's objects in order: both IFBs, the classes, the table, and only then the redirects. */
  function BuildOps(h: Host, wan: string, lan: string): seq<Operation> {
    LinkOps(Up) + (LinkOps(Down) + ([Elsewhere, MakeTable]
      + (RedirectOps(h, wan, Up) + (RedirectOps(h, lan, Down) + [SaveState, Elsewhere]))))
  }

  class Engine {
    const script: seq<Fate>
    var host: Host
    var journal: Journal
    /** How many operations there have been. */
    var turn: nat

    predicate Valid()
      reads this
    {
      NoDangling(host)
    }

    ghost function Now(): Progress
      reads this
    {
      Progress(host, journal, turn, true)
    }

    constructor (host: Host, journal: Journal, script: seq<Fate>)
      requires NoDangling(host)
      ensures Valid() && this.host == host && this.journal == journal && this.script == script && turn == 0
    {
      this.host, this.journal, this.script, turn := host, journal, script, 0;
    }

    // ---- Operations that remove, one at a time; every state in between is one of theirs ----

    method DeleteTable() returns (ok: bool)
      requires Valid() && host.table == Some(true)
      modifies this`host, this`turn
      ensures Valid() && turn == old(turn) + 1 && ok == (FateAt(script, old(turn)) == Done)
      ensures host == if FateAt(script, old(turn)) == Undone then old(host) else old(host).(table := None)
    {
      var fate := FateAt(script, turn);
      if fate != Undone {
        host := host.(table := None);
      }
      turn := turn + 1;
      ok := fate == Done;
    }

    /** Removes the manager's own redirect from a device. */
    method DeleteRedirect(device: string, ghost d: Direction) returns (ok: bool)
      requires Valid() && Redirected(host, device, d)
      modifies this`host, this`turn
      ensures Valid() && turn == old(turn) + 1 && ok == (FateAt(script, old(turn)) == Done)
      ensures host == if FateAt(script, old(turn)) == Undone then old(host)
                      else old(host).(filters := old(host).filters - {SlotOf(device)})
    {
      var fate := FateAt(script, turn);
      if fate != Undone {
        host := host.(filters := host.filters - {SlotOf(device)});
      }
      turn := turn + 1;
      ok := fate == Done;
    }

    /** Removes an owned IFB; with it go the filters on it. No redirect may point at any IFB. */
    method DeleteLink(name: string) returns (ok: bool)
      requires Valid() && NoRedirects(host) && name in host.links && OwnedLink(host, journal, name)
      modifies this`host, this`turn
      ensures Valid() && NoRedirects(host) && turn == old(turn) + 1 && ok == (FateAt(script, old(turn)) == Done)
      ensures host == if FateAt(script, old(turn)) == Undone then old(host) else WithoutLink(old(host), name)
    {
      var fate := FateAt(script, turn);
      if fate != Undone {
        host := WithoutLink(host, name);
      }
      turn := turn + 1;
      ok := fate == Done;
    }

    /** Removes a clsact that the manager made and nobody uses, on either side. */
    method DeleteClsact(device: string) returns (ok: bool)
      requires Valid() && device in journal.createdClsact && device !in host.ingressFilters
      requires forall place :: place in host.filters ==> place.device != device
      modifies this`host, this`turn
      ensures Valid() && turn == old(turn) + 1 && ok == (FateAt(script, old(turn)) == Done)
      ensures host == if FateAt(script, old(turn)) == Undone then old(host)
                      else old(host).(clsact := old(host).clsact - {device})
    {
      var fate := FateAt(script, turn);
      if fate != Undone {
        host := host.(clsact := host.clsact - {device});
      }
      turn := turn + 1;
      ok := fate == Done;
    }

    method Save(j: Journal) returns (ok: bool)
      modifies this`journal, this`turn
      ensures turn == old(turn) + 1 && ok == (FateAt(script, old(turn)) == Done)
      ensures journal == if FateAt(script, old(turn)) == Undone then old(journal) else j
    {
      var fate := FateAt(script, turn);
      if fate != Undone {
        journal := j;
      }
      turn := turn + 1;
      ok := fate == Done;
    }

    // ---- cleanup ----

    /** Removes every redirect of the manager from every device that exists. */
    method DropRedirects() returns (ok: bool)
      requires Valid()
      modifies this`host, this`turn
      ensures Valid() && old(turn) <= turn && (ok <==> Quiet(script, old(turn), turn)) && (ok ==> NoRedirects(host))
      ensures OnlyRedirectsDropped(old(host), host)
    {
      var devices := host.links.Keys;
      while devices != {}
        invariant Valid() && host.links == old(host).links && devices <= host.links.Keys
        invariant old(turn) <= turn && Quiet(script, old(turn), turn)
        invariant OnlyRedirectsDropped(old(host), host)
        invariant forall place :: place in host.filters && OursAtAll(place, host.filters[place]) ==> place.device in devices
        decreases devices
      {
        var device :| device in devices;
        if Redirected(host, device, Up) {
          var done := DeleteRedirect(device, Up);
          if !done {
            return false;
          }
        } else if Redirected(host, device, Down) {
          var done := DeleteRedirect(device, Down);
          if !done {
            return false;
          }
        }
        devices := devices - {device};
      }
      ok := true;
    }

    /** The journal's attachments hold no redirect any more and nothing foreign in the reserved preference. */
    method CheckAttachment(d: Direction) returns (ok: bool)
      requires Valid() && NoRedirects(host)
      ensures ok <==> SlotFree(host, journal, d)
    {
      if d in journal.attachments && journal.attachments[d] in host.links {
        var device := journal.attachments[d];
        if exists place :: place in host.filters && place.device == device && place.preference == PREFERENCE {
          return false;
        }
      }
      ok := true;
    }

    method DropLink(d: Direction) returns (ok: bool)
      requires Valid() && NoRedirects(host) && LinkFree(host, journal, d)
      modifies this`host, this`turn
      ensures Valid() && NoRedirects(host) && old(turn) <= turn && (ok <==> Quiet(script, old(turn), turn))
      ensures ok ==> Device(d) !in host.links
      ensures host == old(host) || (Device(d) in old(host).links && host == WithoutLink(old(host), Device(d)))
    {
      if Device(d) !in host.links {
        return true;
      }
      ok := DeleteLink(Device(d));
    }

    method DropClsact() returns (ok: bool)
      requires Valid()
      modifies this`host, this`turn
      ensures Valid() && old(turn) <= turn && (ok <==> Quiet(script, old(turn), turn))
      ensures host == old(host).(clsact := host.clsact)
    {
      for i := 0 to |journal.createdClsact|
        invariant Valid() && old(turn) <= turn && Quiet(script, old(turn), turn)
        invariant host == old(host).(clsact := host.clsact)
      {
        var device := journal.createdClsact[i];
        if device in host.links && device in host.clsact && device !in host.ingressFilters
           && forall place :: place in host.filters ==> place.device != device {
          var done := DeleteClsact(device);
          if !done {
            return false;
          }
        }
      }
      ok := true;
    }
  
    /**
     Removes everything of the manager and nothing else. It succeeds exactly when no operation of it fails and nothing
     foreign holds one of the manager's names.
     */
    method Cleanup() returns (ok: bool)
      requires Valid()
      modifies this
      ensures Valid() && ForeignKept(old(host), old(journal), host)
      ensures old(turn) <= turn
      ensures ok <==> Cleanable(old(host), old(journal)) && Quiet(script, old(turn), turn)
      ensures ok ==> Removed(host) && journal == NO_JOURNAL && SameElsewhere(old(host), host)
    {
      hide NoDangling, NoRedirects, LinkFree, SlotFree;
      if host.table.Some? {
        if !host.table.value {
          return false;
        }
        ok := DeleteTable();
        if !ok {
          return;
        }
      }
      ghost var h1 := host;
      SameLinksSameOwners(old(host), h1, journal);
      if !LinkFree(host, journal, Up) || !LinkFree(host, journal, Down) {
        return false;
      }
      ok := DropRedirects();
      ghost var h2 := host;
      RedirectsKeepForeign(old(host), h1, journal, h2);
      if !ok {
        return;
      }
      ok := CheckAttachment(Up);
      if !ok {
        return;
      }
      ok := CheckAttachment(Down);
      if !ok {
        return;
      }
      ok := DropLink(Up);
      ghost var h3 := host;
      LinkKeepsForeign(old(host), h2, journal, Up, h3);
      if !ok {
        return;
      }
      ok := DropLink(Down);
      LinkKeepsForeign(old(host), h3, journal, Down, host);
      if !ok {
        return;
      }
      ghost var h4 := host;
      ok := DropClsact();
      SameKeepsForeign(old(host), journal, h4, host);
      if !ok {
        return;
      }
      ok := Save(NO_JOURNAL);
    }
  
    // ---- apply ----

    /** One operation that builds. A redirect is only ever made to an IFB that exists. */
    method Perform(op: Operation) returns (ok: bool)
      requires Valid() && (op.Redirect? ==> Device(op.d) in host.links)
      modifies this
      ensures Valid() && Progress(host, journal, turn, ok) == Step(script, op, old(Now()))
    {
      hide Aliased, WithLink, Recorded;
      ok := Effect(op, host, journal).Some? && FateAt(script, turn) == Done;
      if Effect(op, host, journal).Some? && FateAt(script, turn) != Undone {
        EffectKeepsDangling(op, host, journal);
        host, journal := Effect(op, host, journal).value.0, Effect(op, host, journal).value.1;
      }
      turn := turn + 1;
    }

    /** Creates one IFB: its index is journaled before it is given the manager's alias. */
    method BuildLink(d: Direction) returns (ok: bool)
      requires Valid()
      modifies this
      ensures Valid() && Progress(host, journal, turn, ok) == RunOps(script, LinkOps(d), old(Now()))
    {
      hide NoDangling, Step, RunOps, LinkOps;
      RunLink(script, d, Now());
      ok := Perform(MakeLink(d));
      if !ok {
        return;
      }
      ok := Perform(RecordIndex(d));
      if !ok {
        return;
      }
      RunTwo(script, SetAlias(d), Elsewhere, Now());
      ok := Perform(SetAlias(d));
      if !ok {
        return;
      }
      ok := Perform(Elsewhere);
    }

    /** Attaches one direction: a clsact of our making is journaled before it is made. */
    method BuildRedirect(d: Direction, device: string) returns (ok: bool)
      requires Valid() && Device(d) in host.links
      modifies this
      ensures Valid() && Progress(host, journal, turn, ok) == RunOps(script, RedirectOps(old(host), device, d), old(Now()))
    {
      hide NoDangling, RunOps;
      RunRedirect(script, device, d, Now());
      if device !in host.clsact {
        ok := Perform(RecordClsact(device));
        if !ok {
          return;
        }
        ok := Perform(MakeClsact(device));
        if !ok {
          return;
        }
      }
      ok := Perform(Redirect(device, d));
    }

    method Build(wan: string, lan: string) returns (ok: bool)
      requires Valid() && wan != lan && !ManagersDevice(wan) && !ManagersDevice(lan)
      modifies this
      ensures Valid() && Progress(host, journal, turn, ok) == RunOps(script, BuildOps(old(host), wan, lan), old(Now()))
    {
      hide RunOps, BuildOps, LinkOps, RedirectOps, AfterUp, AfterDown, AfterTable, AfterWan, AfterLan, NoDangling;
      BuildInParts(script, wan, lan, Now());
      ok := BuildLink(Up);
      if !ok {
        return;
      }
      ok := BuildLink(Down);
      if !ok {
        return;
      }
      ok := BuildTable();
      if !ok {
        return;
      }
      ok := BuildRedirect(Up, wan);
      if !ok {
        return;
      }
      ok := BuildRedirect(Down, lan);
      if !ok {
        return;
      }
      ok := Finish();
    }

    /** The classes and the table. */
    method BuildTable() returns (ok: bool)
      requires Valid()
      modifies this
      ensures Valid() && Progress(host, journal, turn, ok) == RunOps(script, [Elsewhere, MakeTable], old(Now()))
    {
      hide NoDangling, Step, RunOps;
      RunTwo(script, Elsewhere, MakeTable, Now());
      ok := Perform(Elsewhere);
      if !ok {
        return;
      }
      ok := Perform(MakeTable);
    }

    /** The journal says that the policy is active, and the health check agrees. */
    method Finish() returns (ok: bool)
      requires Valid()
      modifies this
      ensures Valid() && Progress(host, journal, turn, ok) == RunOps(script, [SaveState, Elsewhere], old(Now()))
    {
      hide NoDangling, Step, RunOps;
      RunTwo(script, SaveState, Elsewhere, Now());
      ok := Perform(SaveState);
      if !ok {
        return;
      }
      ok := Perform(Elsewhere);
    }

    /**
     Builds the policy on a host without the manager's objects, or takes everything back. Which of them happens is
     decided by the script: the policy is active exactly when the build works, and after a failed build everything is
     taken back exactly when cleanup is possible in the state it left and no operation fails any more.
     */
    method Install(wan: string, lan: string) returns (result: Applied)
      requires Valid() && wan != lan && !ManagersDevice(wan) && !ManagersDevice(lan) && Removed(host)
      modifies this
      ensures Valid() && (result == Active || result.RolledBack?)
      ensures var built := RunOps(script, BuildOps(old(host), wan, lan), old(Now()));
        && (result == Active <==> built.ok) && (result == Active ==> Now() == built)
        && (result == RolledBack(true) <==>
              !built.ok && Cleanable(built.host, built.journal) && built.turn <= turn && Quiet(script, built.turn, turn))
        && (result.RolledBack? ==> ForeignKept(built.host, built.journal, host) && built.turn <= turn)
      ensures result == RolledBack(true) ==> Removed(host) && journal == NO_JOURNAL
    {
      hide NoDangling, Removed, Cleanable, ForeignKept, BuildOps, RunOps, Quiet;
      var ok := Build(wan, lan);
      if ok {
        return Active;
      }
      ok := Cleanup();
      return RolledBack(ok);
    }

    /**
     Replaces whatever the manager had by the new policy, or takes everything back. At every step no redirect points at
     a missing IFB, and nothing foreign is changed. `base` is the state in which the build starts.
     */
    method Apply(enabled: bool, wan: string, lan: string) returns (result: Applied, ghost base: Progress)
      requires Valid() && wan != lan && !ManagersDevice(wan) && !ManagersDevice(lan)
      modifies this
      ensures Valid() && ForeignKept(old(host), old(journal), host) && old(turn) <= turn
      ensures result == Inactive <==> !enabled && Cleanable(old(host), old(journal)) && Quiet(script, old(turn), turn)
      ensures result == Inactive ==> Removed(host)
      ensures result == Refused && Quiet(script, old(turn), turn) && Cleanable(old(host), old(journal)) ==>
        enabled && Removed(host) && Refusing(host, wan, lan)
      ensures result == Active || result.RolledBack? ==>
        && enabled && Cleanable(old(host), old(journal)) && !Refusing(base.host, wan, lan)
        && old(turn) <= base.turn && Quiet(script, old(turn), base.turn)
        && Removed(base.host) && SameElsewhere(old(host), base.host) && base.journal == Begun(wan, lan) && base.ok
        && var built := RunOps(script, BuildOps(base.host, wan, lan), base);
        && (result == Active <==> built.ok) && (result == Active ==> Now() == built)
        && (result == RolledBack(true) <==>
              !built.ok && Cleanable(built.host, built.journal) && built.turn <= turn && Quiet(script, built.turn, turn))
      ensures result == Active ==> host.table == Some(true) && Redirected(host, wan, Up) && Redirected(host, lan, Down)
      ensures result == RolledBack(true) ==> Removed(host) && journal == NO_JOURNAL
    {
      hide NoDangling, Removed, Cleanable, ForeignKept, BuildOps, RunOps, Quiet, Refusing, Redirected, SameElsewhere, Begun;
      base := Now();
      var ok := Cleanup();
      if !ok {
        return Refused, base;
      }
      ghost var empty, cleaned := host, turn;
      if !enabled {
        ok := Save(NO_JOURNAL);
        QuietNext(script, old(turn), cleaned);
        return if ok then Inactive else Refused, base;
      }
      if Refusing(host, wan, lan) {
        return Refused, base;
      }
      ok := Save(Begun(wan, lan));
      QuietNext(script, old(turn), cleaned);
      if !ok {
        return Refused, base;
      }
      base := Now();
      result := Install(wan, lan);
      BuiltKeepsForeign(script, old(host), old(journal), wan, lan, base, host);
      RunTurns(script, BuildOps(base.host, wan, lan), base);
      ActiveIsBuilt(script, wan, lan, base);
    }
  }

  /** Why the manager will not touch a host: offloaded flows, an ingress qdisc or a filter in its reserved preference. */
  predicate Refusing(h: Host, wan: string, lan: string) {
    h.flowtable || wan in h.ingress || lan in h.ingress || ReservedUsed(h, {wan, lan})
  }

  /** The journal with which a build starts. */
  function Begun(wan: string, lan: string): Journal { Journal(map[], map[Up := wan, Down := lan], []) }

  predicate SameElsewhere(h: Host, h': Host) {
    h'.ingress == h.ingress && h'.ingressFilters == h.ingressFilters && h'.flowtable == h.flowtable && h'.nextIndex == h.nextIndex
  }

  // ---- What a run of operations does ----

  lemma RunNone(script: seq<Fate>, p: Progress)
    ensures RunOps(script, [], p) == p
  {
  }

  lemma RunFirst(script: seq<Fate>, op: Operation, rest: seq<Operation>, p: Progress)
    requires p.ok
    ensures RunOps(script, [op] + rest, p) == RunOps(script, rest, Step(script, op, p))
  {
    hide Step;
    assert ([op] + rest)[1..] == rest;
  }

  lemma RunOne(script: seq<Fate>, op: Operation, p: Progress)
    requires p.ok
    ensures RunOps(script, [op], p) == Step(script, op, p)
  {
    hide *;
    assert [op] + [] == [op];
    RunFirst(script, op, [], p);
    RunNone(script, Step(script, op, p));
  }

  /** A run of one operation and then of others that follow it only if it works. */
  lemma RunThen(script: seq<Fate>, op: Operation, rest: seq<Operation>, p: Progress)
    requires p.ok
    ensures var q := Step(script, op, p); RunOps(script, [op] + rest, p) == if q.ok then RunOps(script, rest, q) else q
  {
    RunFirst(script, op, rest, p);
    hide Step;
    var q := Step(script, op, p);
    if !q.ok {
      Stopped(script, rest, q);
    }
  }

  lemma RunTwo(script: seq<Fate>, x: Operation, y: Operation, p: Progress)
    requires p.ok
    ensures RunOps(script, [x, y], p) == var a := Step(script, x, p); if a.ok then Step(script, y, a) else a
  {
    hide *;
    assert [x] + [y] == [x, y];
    RunThen(script, x, [y], p);
    var a := Step(script, x, p);
    if a.ok {
      RunOne(script, y, a);
    }
  }

  lemma RunThree(script: seq<Fate>, x: Operation, y: Operation, z: Operation, p: Progress)
    requires p.ok
    ensures RunOps(script, [x, y, z], p)
         == var a := Step(script, x, p); if a.ok then RunOps(script, [y, z], a) else a
  {
    hide *;
    assert [x] + [y, z] == [x, y, z];
    RunThen(script, x, [y, z], p);
  }

  lemma RunLink(script: seq<Fate>, d: Direction, p: Progress)
    requires p.ok
    ensures RunOps(script, LinkOps(d), p) ==
      var a := Step(script, MakeLink(d), p);
      if !a.ok then a
      else
        var b := Step(script, RecordIndex(d), a);
        if b.ok then RunOps(script, [SetAlias(d), Elsewhere], b) else b
  {
    assert LinkOps(d) == [MakeLink(d)] + [RecordIndex(d), SetAlias(d), Elsewhere];
    hide *;
    RunThen(script, MakeLink(d), [RecordIndex(d), SetAlias(d), Elsewhere], p);
    var a := Step(script, MakeLink(d), p);
    if a.ok {
      RunThree(script, RecordIndex(d), SetAlias(d), Elsewhere, a);
    }
  }

  lemma RunRedirect(script: seq<Fate>, device: string, d: Direction, p: Progress)
    requires p.ok
    ensures RunOps(script, RedirectOps(p.host, device, d), p) ==
      if device in p.host.clsact then Step(script, Redirect(device, d), p)
      else
        var a := Step(script, RecordClsact(device), p);
        if !a.ok then a
        else
          var b := Step(script, MakeClsact(device), a);
          if b.ok then Step(script, Redirect(device, d), b) else b
  {
    var ops := RedirectOps(p.host, device, d);
    if device in p.host.clsact {
      assert ops == [Redirect(device, d)];
      hide *;
      RunOne(script, Redirect(device, d), p);
    } else {
      assert ops == [RecordClsact(device), MakeClsact(device), Redirect(device, d)];
      hide *;
      RunThree(script, RecordClsact(device), MakeClsact(device), Redirect(device, d), p);
      var a := Step(script, RecordClsact(device), p);
      if a.ok {
        RunTwo(script, MakeClsact(device), Redirect(device, d), a);
      }
    }
  }

  lemma {:induction false} RunAppend(script: seq<Fate>, a: seq<Operation>, b: seq<Operation>, p: Progress)
    ensures RunOps(script, a + b, p) == RunOps(script, b, RunOps(script, a, p))
    decreases |a|
  {
    hide Step;
    if a == [] || !p.ok {
      assert a == [] ==> a + b == b;
    } else {
      assert (a + b)[1..] == a[1..] + b;
      RunAppend(script, a[1..], b, Step(script, a[0], p));
    }
  }

  /** Someone's filter sits in the reserved preference of one of the devices. */
  predicate ReservedUsed(h: Host, devices: set<string>) {
    exists place :: place in h.filters && place.device in devices && place.preference == PREFERENCE
  }

  datatype Applied = Refused | Inactive | Active | RolledBack(clean: bool)

  function Aliased(h: Host, d: Direction): Host
    requires Device(d) in h.links
  {
    h.(links := h.links[Device(d) := h.links[Device(d)].(ours := true)])
  }

  function WithRedirect(h: Host, device: string, d: Direction): Host {
    h.(filters := h.filters[SlotOf(device) := Filter(true, Device(d))])
  }

  lemma DevicesDiffer()
    ensures Device(Up) != Device(Down)
  {
    assert Device(Up)[6] != Device(Down)[6];
  }

  /** A new IFB leaves cleanup possible if the journal knows its index. */
  lemma NewLinkCleanable(h: Host, j: Journal, j': Journal, d: Direction, h': Host)
    requires NoDangling(h) && Cleanable(h, j) && Device(d) !in h.links
    requires h' == h.(links := h'.links, nextIndex := h'.nextIndex) && Device(d) in h'.links && h'.links[Device(d)].ifb
    requires h'.links == h.links[Device(d) := h'.links[Device(d)]]
    requires j'.attachments == j.attachments
    requires forall name :: name in j.createdIfbs && name != Device(d) ==>
      name in j'.createdIfbs && j'.createdIfbs[name] == j.createdIfbs[name]
    ensures Device(d) in j'.createdIfbs && j'.createdIfbs[Device(d)] == h'.links[Device(d)].index ==> Cleanable(h', j')
  {
    DevicesDiffer();
    hide OursAtAll;
  }

  lemma AliasCleanable(h: Host, j: Journal, d: Direction)
    requires Cleanable(h, j) && Device(d) in h.links && h.links[Device(d)].ifb
    ensures Cleanable(Aliased(h, d), j)
  {
    DevicesDiffer();
    hide OursAtAll;
  }

  /** Only the manager's own objects were added or changed. */
  predicate Grown(h: Host, h': Host) {
    && (forall name :: name in h.links && !ManagersDevice(name) ==> name in h'.links && h'.links[name] == h.links[name])
    && (forall place :: place in h.filters ==> place in h'.filters && h'.filters[place] == h.filters[place])
    && (h.table.Some? ==> h'.table == h.table)
  }

  /** The same host with some of the manager's redirects gone. */
  predicate OnlyRedirectsDropped(h: Host, h': Host) {
    && h'.table == h.table && h'.links == h.links && SameElsewhere(h, h')
    && (forall place :: place in h'.filters ==> place in h.filters && h'.filters[place] == h.filters[place])
    && (forall place :: place in h.filters && !OursAtAll(place, h.filters[place]) ==> place in h'.filters)
  }

  function WithoutLink(h: Host, name: string): Host {
    h.(links := h.links - {name},
       filters := map place | place in h.filters && place.device != name :: h.filters[place],
       clsact := h.clsact - {name})
  }

  lemma RedirectsKeepForeign(h: Host, h1: Host, j: Journal, h2: Host)
    requires h1.links == h.links && h1.filters == h.filters && h.table != Some(false)
    requires OnlyRedirectsDropped(h1, h2)
    ensures ForeignKept(h, j, h2)
    ensures forall d :: SlotFree(h2, j, d) <==> SlotFree(h, j, d)
    ensures forall d :: LinkFree(h2, j, d) <==> LinkFree(h, j, d)
  {
  }

  lemma LinkKeepsForeign(h: Host, before: Host, j: Journal, d: Direction, after: Host)
    requires ForeignKept(h, j, before) && h.table != Some(false)
    requires LinkFree(h, j, d)
    requires after == before || after == WithoutLink(before, Device(d))
    ensures ForeignKept(h, j, after)
    ensures forall e :: LinkFree(before, j, e) ==> LinkFree(after, j, e)
  {
  }

  lemma SameLinksSameOwners(h: Host, h': Host, j: Journal)
    requires h'.links == h.links
    ensures forall d :: LinkFree(h', j, d) <==> LinkFree(h, j, d)
  {
  }

  lemma SameKeepsForeign(h: Host, j: Journal, a: Host, b: Host)
    requires ForeignKept(h, j, a) && b.table == a.table && b.links == a.links && b.filters == a.filters
    ensures ForeignKept(h, j, b)
    ensures NoRedirects(a) ==> NoRedirects(b)
  {
  }

  lemma JournalCleanable(h: Host, j: Journal, j': Journal)
    requires Cleanable(h, j) && (j' == j || j' == j.(createdClsact := j'.createdClsact))
    ensures Cleanable(h, j')
  {
    hide SlotTaken;
  }

  lemma HostCleanable(h: Host, h': Host, j: Journal)
    requires Cleanable(h, j) && h'.table == h.table && h'.links == h.links && h'.filters == h.filters
    ensures Cleanable(h', j)
  {
  }

  lemma RedirectCleanable(h: Host, j: Journal, device: string, d: Direction)
    requires Cleanable(h, j)
    ensures Cleanable(WithRedirect(h, device, d), j)
  {
    var h' := WithRedirect(h, device, d);
    assert OursAtAll(SlotOf(device), h'.filters[SlotOf(device)]);
    hide OursAtAll, Device;
    forall other | SlotTaken(h', other) ensures SlotTaken(h, other) {
      var place :| place in h'.filters && place.device == other && place.preference == PREFERENCE
                   && !OursAtAll(place, h'.filters[place]);
      assert place in h.filters && h.filters[place] == h'.filters[place];
    }
  }

  lemma TableCleanable(h: Host, j: Journal)
    requires Cleanable(h, j) && h.table.None?
    ensures Cleanable(h.(table := Some(true)), j) && Grown(h, h.(table := Some(true)))
  {
    hide OursAtAll;
  }

  /** After a cleanup, with the reserved preference free on both devices, any journal without objects can be cleaned. */
  lemma EmptyCleanable(h: Host, j: Journal, wan: string, lan: string)
    requires Removed(h) && !ReservedUsed(h, {wan, lan})
    ensures j == Begun(wan, lan) ==> Cleanable(h, j)
  {
    hide NoRedirects, OursAtAll;
  }

  lemma GrownSelf(h: Host)
    ensures Grown(h, h)
  {
  }

  lemma GrownTransitive(a: Host, b: Host, c: Host)
    requires Grown(a, b) && Grown(b, c)
    ensures Grown(a, c)
  {
    hide ManagersDevice;
  }

  lemma RedirectStays(h: Host, h': Host, device: string, d: Direction)
    requires Grown(h, h') && Redirected(h, device, d)
    ensures Redirected(h', device, d)
  {
    hide Ours;
  }

  lemma GrownKeepsForeign(h: Host, j: Journal, empty: Host, built: Host)
    requires ForeignKept(h, j, empty) && Removed(empty) && Grown(empty, built)
    ensures ForeignKept(h, j, built)
  {
    hide OursAtAll, OwnedLink, NoRedirects;
  }

  lemma RebuiltKeepsForeign(h: Host, j: Journal, empty: Host, built: Host, kept: Journal, after: Host)
    requires ForeignKept(h, j, empty) && Removed(empty) && Grown(empty, built) && ForeignKept(built, kept, after)
    ensures ForeignKept(h, j, after)
  {
    hide OursAtAll, OwnedLink, NoRedirects;
  }

  lemma QuietNext(script: seq<Fate>, a: nat, b: nat)
    requires a <= b
    ensures Quiet(script, a, b + 1) <==> Quiet(script, a, b) && FateAt(script, b) == Done
  {
  }

  // ---- The parts of a build ----

  lemma Stopped(script: seq<Fate>, ops: seq<Operation>, p: Progress)
    requires !p.ok
    ensures RunOps(script, ops, p) == p
  {
  }

  function AfterUp(script: seq<Fate>, p: Progress): Progress { RunOps(script, LinkOps(Up), p) }

  function AfterDown(script: seq<Fate>, p: Progress): Progress { RunOps(script, LinkOps(Down), AfterUp(script, p)) }

  function AfterTable(script: seq<Fate>, p: Progress): Progress { RunOps(script, [Elsewhere, MakeTable], AfterDown(script, p)) }

  function AfterWan(script: seq<Fate>, wan: string, p: Progress): Progress {
    RunOps(script, RedirectOps(p.host, wan, Up), AfterTable(script, p))
  }

  function AfterLan(script: seq<Fate>, wan: string, lan: string, p: Progress): Progress {
    RunOps(script, RedirectOps(p.host, lan, Down), AfterWan(script, wan, p))
  }

  lemma BuildSplits(script: seq<Fate>, wan: string, lan: string, p: Progress)
    ensures RunOps(script, BuildOps(p.host, wan, lan), p)
         == RunOps(script, [SaveState, Elsewhere], AfterLan(script, wan, lan, p))
  {
    var ops5 := [SaveState, Elsewhere];
    var ops4 := RedirectOps(p.host, lan, Down) + ops5;
    var ops3 := RedirectOps(p.host, wan, Up) + ops4;
    var ops2 := [Elsewhere, MakeTable] + ops3;
    var ops1 := LinkOps(Down) + ops2;
    assert BuildOps(p.host, wan, lan) == LinkOps(Up) + ops1;
    hide RunOps, RedirectOps, LinkOps, BuildOps;
    RunAppend(script, LinkOps(Up), ops1, p);
    RunAppend(script, LinkOps(Down), ops2, AfterUp(script, p));
    RunAppend(script, [Elsewhere, MakeTable], ops3, AfterDown(script, p));
    RunAppend(script, RedirectOps(p.host, wan, Up), ops4, AfterTable(script, p));
    RunAppend(script, RedirectOps(p.host, lan, Down), ops5, AfterWan(script, wan, p));
  }

  /** Interfaces stay, and a clsact appears only by the operation that makes it. */
  lemma StepKeeps(script: seq<Fate>, op: Operation, p: Progress, device: string)
    requires op != MakeClsact(device)
    ensures var q := Step(script, op, p);
      p.host.links.Keys <= q.host.links.Keys && (device in q.host.clsact <==> device in p.host.clsact)
  {
    hide FateAt;
  }

  lemma {:induction false} RunKeeps(script: seq<Fate>, ops: seq<Operation>, p: Progress, device: string)
    requires MakeClsact(device) !in ops
    ensures var q := RunOps(script, ops, p);
      p.host.links.Keys <= q.host.links.Keys && (device in q.host.clsact <==> device in p.host.clsact)
    decreases |ops|
  {
    hide Step;
    if ops != [] && p.ok {
      StepKeeps(script, ops[0], p, device);
      RunKeeps(script, ops[1..], Step(script, ops[0], p), device);
    }
  }

  lemma LinkMade(script: seq<Fate>, d: Direction, p: Progress)
    requires p.ok && RunOps(script, LinkOps(d), p).ok
    ensures Device(d) in RunOps(script, LinkOps(d), p).host.links
  {
    RunLink(script, d, p);
    var a := Step(script, MakeLink(d), p);
    assert a.ok ==> Device(d) in a.host.links;
    var b := Step(script, RecordIndex(d), a);
    assert b.ok ==> Device(d) in b.host.links;
    hide Step;
    assert MakeClsact("") !in [SetAlias(d), Elsewhere];
    RunKeeps(script, [SetAlias(d), Elsewhere], b, "");
  }

  lemma RedirectOpsSame(h: Host, h': Host, device: string, d: Direction)
    requires device in h.clsact <==> device in h'.clsact
    ensures RedirectOps(h, device, d) == RedirectOps(h', device, d)
  {
  }

  /** A failed part is where the build ends; the redirects meet both IFBs. */
  lemma BuildInParts(script: seq<Fate>, wan: string, lan: string, p: Progress)
    requires p.ok && wan != lan
    ensures var r := RunOps(script, BuildOps(p.host, wan, lan), p);
      && (!AfterUp(script, p).ok ==> r == AfterUp(script, p))
      && (!AfterDown(script, p).ok ==> r == AfterDown(script, p))
      && (!AfterTable(script, p).ok ==> r == AfterTable(script, p))
      && (!AfterWan(script, wan, p).ok ==> r == AfterWan(script, wan, p))
      && (!AfterLan(script, wan, lan, p).ok ==> r == AfterLan(script, wan, lan, p))
      && r == RunOps(script, [SaveState, Elsewhere], AfterLan(script, wan, lan, p))
    ensures AfterUp(script, p) == RunOps(script, LinkOps(Up), p)
    ensures AfterDown(script, p) == RunOps(script, LinkOps(Down), AfterUp(script, p))
    ensures AfterTable(script, p) == RunOps(script, [Elsewhere, MakeTable], AfterDown(script, p))
    ensures AfterTable(script, p).ok ==>
      && Device(Up) in AfterTable(script, p).host.links
      && AfterWan(script, wan, p) == RunOps(script, RedirectOps(AfterTable(script, p).host, wan, Up), AfterTable(script, p))
    ensures AfterWan(script, wan, p).ok ==>
      && Device(Down) in AfterWan(script, wan, p).host.links
      && AfterLan(script, wan, lan, p)
         == RunOps(script, RedirectOps(AfterWan(script, wan, p).host, lan, Down), AfterWan(script, wan, p))
  {
    BuildSplits(script, wan, lan, p);
    PartsStop(script, wan, lan, p);
    PartsMeet(script, wan, lan, p);
    hide RunOps, LinkOps, RedirectOps, BuildOps;
  }

  lemma PartsStop(script: seq<Fate>, wan: string, lan: string, p: Progress)
    ensures !AfterUp(script, p).ok ==> AfterDown(script, p) == AfterUp(script, p)
    ensures !AfterDown(script, p).ok ==> AfterTable(script, p) == AfterDown(script, p)
    ensures !AfterTable(script, p).ok ==> AfterWan(script, wan, p) == AfterTable(script, p)
    ensures !AfterWan(script, wan, p).ok ==> AfterLan(script, wan, lan, p) == AfterWan(script, wan, p)
    ensures var q := AfterLan(script, wan, lan, p); !q.ok ==> RunOps(script, [SaveState, Elsewhere], q) == q
  {
    hide LinkOps, RedirectOps, Step;
  }

  lemma PartsMeet(script: seq<Fate>, wan: string, lan: string, p: Progress)
    requires p.ok && wan != lan
    ensures AfterTable(script, p).ok ==>
      && Device(Up) in AfterTable(script, p).host.links && Device(Down) in AfterTable(script, p).host.links
      && RedirectOps(AfterTable(script, p).host, wan, Up) == RedirectOps(p.host, wan, Up)
    ensures AfterWan(script, wan, p).ok ==>
      && Device(Down) in AfterWan(script, wan, p).host.links
      && RedirectOps(AfterWan(script, wan, p).host, lan, Down) == RedirectOps(p.host, lan, Down)
  {
    PartsStop(script, wan, lan, p);
    if AfterTable(script, p).ok {
      LinkMade(script, Up, p);
      LinkMade(script, Down, AfterUp(script, p));
      forall device ensures
        var q := AfterTable(script, p);
        AfterUp(script, p).host.links.Keys <= q.host.links.Keys && AfterDown(script, p).host.links.Keys <= q.host.links.Keys
        && (device in q.host.clsact <==> device in p.host.clsact) {
        hide RunOps;
        RunKeeps(script, LinkOps(Up), p, device);
        RunKeeps(script, LinkOps(Down), AfterUp(script, p), device);
        RunKeeps(script, [Elsewhere, MakeTable], AfterDown(script, p), device);
      }
      hide RunOps, LinkOps, AfterTable, AfterDown, AfterUp;
      RedirectOpsSame(AfterTable(script, p).host, p.host, wan, Up);
      assert MakeClsact(lan) !in RedirectOps(p.host, wan, Up);
      RunKeeps(script, RedirectOps(p.host, wan, Up), AfterTable(script, p), lan);
      RedirectOpsSame(AfterWan(script, wan, p).host, p.host, lan, Down);
    }
  }

  lemma EffectKeepsDangling(op: Operation, h: Host, j: Journal)
    requires NoDangling(h) && Effect(op, h, j).Some? && (op.Redirect? ==> Device(op.d) in h.links)
    ensures NoDangling(Effect(op, h, j).value.0)
  {
    if op.Redirect? {
      DevicesDiffer();
    }
  }

  // ---- A build only adds ----

  lemma StepGrows(script: seq<Fate>, op: Operation, p: Progress)
    ensures Grown(p.host, Step(script, op, p).host)
  {
    hide FateAt;
  }

  lemma {:induction false} RunGrows(script: seq<Fate>, ops: seq<Operation>, p: Progress)
    ensures Grown(p.host, RunOps(script, ops, p).host)
    decreases |ops|
  {
    GrownSelf(p.host);
    hide Step, Grown;
    if ops != [] && p.ok {
      var q := Step(script, ops[0], p);
      StepGrows(script, ops[0], p);
      RunGrows(script, ops[1..], q);
      GrownTransitive(p.host, q.host, RunOps(script, ops[1..], q).host);
    }
  }

  /** What the rollback keeps of a build, and what a build keeps, is what was there before. */
  lemma BuiltKeepsForeign(script: seq<Fate>, h: Host, j: Journal, wan: string, lan: string, base: Progress, after: Host)
    requires ForeignKept(h, j, base.host) && Removed(base.host)
    ensures var built := RunOps(script, BuildOps(base.host, wan, lan), base);
      && ForeignKept(h, j, built.host)
      && (ForeignKept(built.host, built.journal, after) ==> ForeignKept(h, j, after))
  {
    hide *;
    var built := RunOps(script, BuildOps(base.host, wan, lan), base);
    RunGrows(script, BuildOps(base.host, wan, lan), base);
    GrownKeepsForeign(h, j, base.host, built.host);
    if ForeignKept(built.host, built.journal, after) {
      RebuiltKeepsForeign(h, j, base.host, built.host, built.journal, after);
    }
  }

  lemma {:induction false} RunTurns(script: seq<Fate>, ops: seq<Operation>, p: Progress)
    ensures var q := RunOps(script, ops, p);
      p.turn <= q.turn && (q.ok ==> q.turn == p.turn + |ops|)
    decreases |ops|
  {
    hide Effect, FateAt;
    if ops != [] && p.ok {
      RunTurns(script, ops[1..], Step(script, ops[0], p));
    }
  }

  // ---- A build that works ----

  lemma TableBuilt(script: seq<Fate>, p: Progress)
    requires RunOps(script, [Elsewhere, MakeTable], p).ok
    ensures RunOps(script, [Elsewhere, MakeTable], p).host.table == Some(true)
  {
    assert !p.ok ==> RunOps(script, [Elsewhere, MakeTable], p) == p;
    RunTwo(script, Elsewhere, MakeTable, p);
    hide RunOps, FateAt;
  }

  lemma RedirectBuilt(script: seq<Fate>, device: string, d: Direction, p: Progress)
    requires RunOps(script, RedirectOps(p.host, device, d), p).ok
    ensures Redirected(RunOps(script, RedirectOps(p.host, device, d), p).host, device, d)
  {
    assert !p.ok ==> RunOps(script, RedirectOps(p.host, device, d), p) == p;
    RunRedirect(script, device, d, p);
    hide RunOps, FateAt, Device, RedirectOps;
  }

  /** A build that works leaves the table and both redirects. */
  lemma ActiveIsBuilt(script: seq<Fate>, wan: string, lan: string, p: Progress)
    requires p.ok && wan != lan
    ensures var r := RunOps(script, BuildOps(p.host, wan, lan), p);
      r.ok ==> r.host.table == Some(true) && Redirected(r.host, wan, Up) && Redirected(r.host, lan, Down)
  {
    var r := RunOps(script, BuildOps(p.host, wan, lan), p);
    if r.ok {
      hide *;
      BuildInParts(script, wan, lan, p);
      var q2, q3, q4, q5 := AfterDown(script, p), AfterTable(script, p), AfterWan(script, wan, p), AfterLan(script, wan, lan, p);
      TableBuilt(script, q2);
      RedirectBuilt(script, wan, Up, q3);
      RedirectBuilt(script, lan, Down, q4);
      RunGrows(script, RedirectOps(q3.host, wan, Up), q3);
      RunGrows(script, RedirectOps(q4.host, lan, Down), q4);
      RunGrows(script, [SaveState, Elsewhere], q5);
      RedirectStays(q4.host, q5.host, wan, Up);
      RedirectStays(q5.host, r.host, wan, Up);
      RedirectStays(q5.host, r.host, lan, Down);
      TableStays(q3.host, q4.host);
      TableStays(q4.host, q5.host);
      TableStays(q5.host, r.host);
    }
  }

  lemma TableStays(h: Host, h': Host)
    requires Grown(h, h') && h.table.Some?
    ensures h'.table == h.table
  {
  }

  // ---- When a failed build can be taken back ----

  /** The operation at which a run fails, and how. */
  datatype Failure = Failure(op: Operation, fate: Fate)

  function FailureOf(script: seq<Fate>, ops: seq<Operation>, p: Progress): (r: Option<Failure>)
    ensures p.ok ==> (r.None? <==> RunOps(script, ops, p).ok)
  {
    if ops == [] || !p.ok then None
    else
      var q := Step(script, ops[0], p);
      if q.ok then FailureOf(script, ops[1..], q) else Some(Failure(ops[0], FateOf(script, ops[0], p)))
  }

  lemma {:induction false} FailureAppend(script: seq<Fate>, a: seq<Operation>, b: seq<Operation>, p: Progress)
    requires p.ok
    ensures FailureOf(script, a + b, p)
         == if RunOps(script, a, p).ok then FailureOf(script, b, RunOps(script, a, p)) else FailureOf(script, a, p)
    decreases |a|
  {
    hide Step;
    if a == [] {
      assert a + b == b;
    } else {
      assert (a + b)[1..] == a[1..] + b;
      if Step(script, a[0], p).ok {
        FailureAppend(script, a[1..], b, Step(script, a[0], p));
      }
    }
  }

  /** The IFB was created, but nothing that would prove it to be the manager's was written down. */
  predicate LinkLost(f: Option<Failure>) {
    f.Some? && ((f.value.op.MakeLink? && f.value.fate == DoneButRaised) || (f.value.op.RecordIndex? && f.value.fate == Undone))
  }

  predicate Harmless(op: Operation) { !op.MakeLink? && !op.RecordIndex? }

  lemma StepClean(script: seq<Fate>, op: Operation, p: Progress)
    requires Harmless(op) && Cleanable(p.host, p.journal)
    ensures var q := Step(script, op, p); Cleanable(q.host, q.journal)
  {
    hide SlotFree, FateAt, Aliased, WithRedirect;
    if Effect(op, p.host, p.journal).Some? {
      match op
      case SetAlias(d) => AliasCleanable(p.host, p.journal, d);
      case RecordClsact(device) => JournalCleanable(p.host, p.journal, Effect(op, p.host, p.journal).value.1);
      case MakeClsact(device) => HostCleanable(p.host, Effect(op, p.host, p.journal).value.0, p.journal);
      case Redirect(device, d) => RedirectCleanable(p.host, p.journal, device, d);
      case MakeTable => TableCleanable(p.host, p.journal);
      case _ =>
    }
  }

  lemma {:induction false} HarmlessRun(script: seq<Fate>, ops: seq<Operation>, p: Progress)
    requires Cleanable(p.host, p.journal) && forall i :: 0 <= i < |ops| ==> Harmless(ops[i])
    ensures var q := RunOps(script, ops, p); Cleanable(q.host, q.journal)
    ensures !LinkLost(FailureOf(script, ops, p))
    decreases |ops|
  {
    if ops != [] && p.ok {
      hide Step, Cleanable;
      StepClean(script, ops[0], p);
      HarmlessRun(script, ops[1..], Step(script, ops[0], p));
    }
  }

  /** The host and journal of one direction before its IFB is made. */
  predicate Ready(p: Progress, d: Direction) {
    && p.ok && NoDangling(p.host) && Cleanable(p.host, p.journal)
    && Device(d) !in p.host.links && Device(d) !in p.journal.createdIfbs
  }

  lemma LostBlocks(h: Host, j: Journal, d: Direction)
    requires Device(d) !in j.createdIfbs
    ensures !Cleanable(WithLink(h, d), j)
  {
    assert !LinkFree(WithLink(h, d), j, d);
    hide LinkFree, WithLink;
  }

  lemma RecordedClean(p: Progress, d: Direction)
    requires Ready(p, d)
    ensures Cleanable(WithLink(p.host, d), Recorded(p.journal, d, p.host.nextIndex))
  {
    NewLinkCleanable(p.host, p.journal, Recorded(p.journal, d, p.host.nextIndex), d, WithLink(p.host, d));
    hide Cleanable, NoDangling;
  }

  /** The first two operations on a link. */
  lemma MakeLinkStep(script: seq<Fate>, d: Direction, p: Progress)
    requires Ready(p, d)
    ensures var q, fate := Step(script, MakeLink(d), p), FateAt(script, p.turn);
      && FateOf(script, MakeLink(d), p) == fate
      && q == Progress(if fate == Undone then p.host else WithLink(p.host, d), p.journal, p.turn + 1, fate == Done)
  {
    hide Cleanable, NoDangling, FateAt, WithLink;
  }

  lemma RecordStep(script: seq<Fate>, d: Direction, p: Progress, q: Progress)
    requires Ready(p, d) && q == Progress(WithLink(p.host, d), p.journal, p.turn + 1, true)
    ensures var r, fate := Step(script, RecordIndex(d), q), FateAt(script, q.turn);
      && FateOf(script, RecordIndex(d), q) == fate
      && r == Progress(q.host, if fate == Undone then p.journal else Recorded(p.journal, d, p.host.nextIndex), q.turn + 1,
                       fate == Done)
  {
    hide Cleanable, NoDangling, FateAt, Recorded;
  }

  lemma LinkFailure(script: seq<Fate>, d: Direction, p: Progress)
    requires p.ok
    ensures FailureOf(script, LinkOps(d), p) ==
      var a := Step(script, MakeLink(d), p);
      if !a.ok then Some(Failure(MakeLink(d), FateOf(script, MakeLink(d), p)))
      else
        var b := Step(script, RecordIndex(d), a);
        if b.ok then FailureOf(script, [SetAlias(d), Elsewhere], b)
        else Some(Failure(RecordIndex(d), FateOf(script, RecordIndex(d), a)))
  {
    hide Step, FateOf;
    var ops := LinkOps(d);
    assert ops[1..][1..] == [SetAlias(d), Elsewhere] && ops[1..][0] == RecordIndex(d) && ops[0] == MakeLink(d);
    var a := Step(script, MakeLink(d), p);
    if a.ok {
      assert FailureOf(script, ops, p) == FailureOf(script, ops[1..], a);
    }
  }

  /** However the making of an IFB ends: cleanup is possible exactly unless the IFB is lost. */
  lemma LinkExactly(script: seq<Fate>, d: Direction, p: Progress)
    requires Ready(p, d)
    ensures var q := RunOps(script, LinkOps(d), p);
      Cleanable(q.host, q.journal) <==> !LinkLost(FailureOf(script, LinkOps(d), p))
  {
    RunLink(script, d, p);
    LinkFailure(script, d, p);
    MakeLinkStep(script, d, p);
    LostBlocks(p.host, p.journal, d);
    RecordedClean(p, d);
    var a := Step(script, MakeLink(d), p);
    assert Cleanable(p.host, p.journal);
    if a.ok {
      RecordStep(script, d, p, a);
      var b := Step(script, RecordIndex(d), a);
      if b.ok {
        HarmlessRun(script, [SetAlias(d), Elsewhere], b);
      }
    }
    hide Cleanable, RunOps, FailureOf, Step, FateAt, WithLink, Recorded, NoDangling, LinkOps, FateOf;
  }

  /** A link of the other direction is not touched. */
  lemma LinkLeavesOther(script: seq<Fate>, d: Direction, p: Progress, e: Direction)
    requires Ready(p, d) && Ready(p, e) && d != e && RunOps(script, LinkOps(d), p).ok
    ensures Ready(RunOps(script, LinkOps(d), p), e)
  {
    LinkExactly(script, d, p);
    assert FailureOf(script, LinkOps(d), p).None?;
    DevicesDiffer();
    RunLink(script, d, p);
    MakeLinkStep(script, d, p);
    var a := Step(script, MakeLink(d), p);
    RecordStep(script, d, p, a);
    var b := Step(script, RecordIndex(d), a);
    RunTwo(script, SetAlias(d), Elsewhere, b);
    hide Cleanable, RunOps, FailureOf, LinkOps;
  }

  lemma RedirectsHarmless(h: Host, wan: string, lan: string)
    ensures var rest := [Elsewhere, MakeTable] + (RedirectOps(h, wan, Up) + (RedirectOps(h, lan, Down) + [SaveState, Elsewhere]));
      forall i :: 0 <= i < |rest| ==> Harmless(rest[i])
  {
  }

  lemma StartReady(h: Host, wan: string, lan: string, turn: nat, d: Direction)
    requires NoDangling(h) && Removed(h) && !ReservedUsed(h, {wan, lan})
    ensures Ready(Progress(h, Begun(wan, lan), turn, true), d)
  {
    EmptyCleanable(h, Begun(wan, lan), wan, lan);
    hide Cleanable, ReservedUsed, NoRedirects, NoDangling;
  }

  /**
   A failed build on a cleaned host can be taken back exactly unless it failed while an IFB existed whose index was not
   yet written down: its creation was reported as failed, or its index could not be read and journaled.
   */
  lemma RollbackExactly(script: seq<Fate>, h: Host, wan: string, lan: string, turn: nat)
    requires NoDangling(h) && Removed(h) && !ReservedUsed(h, {wan, lan})
    ensures var p := Progress(h, Begun(wan, lan), turn, true);
      var built := RunOps(script, BuildOps(h, wan, lan), p);
      Cleanable(built.host, built.journal) <==> !LinkLost(FailureOf(script, BuildOps(h, wan, lan), p))
  {
    var p := Progress(h, Begun(wan, lan), turn, true);
    var rest := [Elsewhere, MakeTable] + (RedirectOps(h, wan, Up) + (RedirectOps(h, lan, Down) + [SaveState, Elsewhere]));
    assert BuildOps(h, wan, lan) == LinkOps(Up) + (LinkOps(Down) + rest);
    RedirectsHarmless(h, wan, lan);
    hide *;
    StartReady(h, wan, lan, turn, Up);
    StartReady(h, wan, lan, turn, Down);
    BuildExactly(script, rest, p);
  }

  lemma BuildExactly(script: seq<Fate>, rest: seq<Operation>, p: Progress)
    requires Ready(p, Up) && Ready(p, Down) && forall i :: 0 <= i < |rest| ==> Harmless(rest[i])
    ensures var ops := LinkOps(Up) + (LinkOps(Down) + rest);
      var q := RunOps(script, ops, p);
      Cleanable(q.host, q.journal) <==> !LinkLost(FailureOf(script, ops, p))
  {
    assert p.ok;
    hide *;
    RunAppend(script, LinkOps(Up), LinkOps(Down) + rest, p);
    FailureAppend(script, LinkOps(Up), LinkOps(Down) + rest, p);
    LinkExactly(script, Up, p);
    var q := RunOps(script, LinkOps(Up), p);
    if q.ok {
      LinkLeavesOther(script, Up, p, Down);
      RunAppend(script, LinkOps(Down), rest, q);
      FailureAppend(script, LinkOps(Down), rest, q);
      LinkExactly(script, Down, q);
      var r := RunOps(script, LinkOps(Down), q);
      if r.ok {
        NotLost(FailureOf(script, LinkOps(Down), q));
        HarmlessRun(script, rest, r);
      } else {
        Stopped(script, rest, r);
      }
    } else {
      Stopped(script, LinkOps(Down) + rest, q);
    }
  }

  lemma NotLost(f: Option<Failure>)
    requires f.None?
    ensures !LinkLost(f)
  {
  }

  /**
   A run of apply that loses an IFB, from any cleaned host: the IFB is created, writing its index down fails, and the
   rollback takes it for someone else's although nothing fails any more.
   */
  lemma LostLinkBlocksRollback(script: seq<Fate>, h: Host, wan: string, lan: string, turn: nat)
    requires NoDangling(h) && Removed(h) && !ReservedUsed(h, {wan, lan})
    requires FateAt(script, turn) == Done && FateAt(script, turn + 1) == Undone
    ensures var built := RunOps(script, BuildOps(h, wan, lan), Progress(h, Begun(wan, lan), turn, true));
      && built == Progress(WithLink(h, Up), Begun(wan, lan), turn + 2, false)
      && !Cleanable(built.host, built.journal)
  {
    var p := Progress(h, Begun(wan, lan), turn, true);
    StartReady(h, wan, lan, turn, Up);
    MakeLinkStep(script, Up, p);
    var a := Step(script, MakeLink(Up), p);
    RecordStep(script, Up, p, a);
    RunLink(script, Up, p);
    LostBlocks(h, p.journal, Up);
    var rest := [Elsewhere, MakeTable] + (RedirectOps(h, wan, Up) + (RedirectOps(h, lan, Down) + [SaveState, Elsewhere]));
    assert BuildOps(h, wan, lan) == LinkOps(Up) + (LinkOps(Down) + rest);
    RunAppend(script, LinkOps(Up), LinkOps(Down) + rest, p);
    Stopped(script, LinkOps(Down) + rest, RunOps(script, LinkOps(Up), p));
    hide Cleanable, RunOps, LinkOps, NoDangling, Step, RedirectOps, WithLink, Removed;
  }

  // ---- When a build works ----

  lemma StepWorks(script: seq<Fate>, op: Operation, p: Progress)
    ensures var q := Step(script, op, p); q.ok <==> Effect(op, p.host, p.journal).Some? && FateAt(script, p.turn) == Done
    ensures Step(script, op, p).turn == p.turn + 1
  {
    hide Effect, FateAt;
  }

  lemma LinkWorks(script: seq<Fate>, d: Direction, p: Progress)
    requires Ready(p, d)
    ensures RunOps(script, LinkOps(d), p).ok <==> Quiet(script, p.turn, p.turn + 4)
  {
    RunLink(script, d, p);
    MakeLinkStep(script, d, p);
    var a := Step(script, MakeLink(d), p);
    if a.ok {
      RecordStep(script, d, p, a);
      var b := Step(script, RecordIndex(d), a);
      if b.ok {
        RunTwo(script, SetAlias(d), Elsewhere, b);
      }
    }
    hide Cleanable, RunOps, LinkOps, NoDangling;
  }

  lemma TwoWork(script: seq<Fate>, y: Operation, p: Progress)
    requires p.ok && (y == Elsewhere || (y == MakeTable && p.host.table.None?))
    ensures RunOps(script, [Elsewhere, y], p).ok <==> Quiet(script, p.turn, p.turn + 2)
    ensures RunOps(script, [SaveState, y], p).ok <==> Quiet(script, p.turn, p.turn + 2)
  {
    RunTwo(script, Elsewhere, y, p);
    RunTwo(script, SaveState, y, p);
    hide RunOps;
  }

  lemma RedirectWorks(script: seq<Fate>, device: string, d: Direction, p: Progress)
    requires p.ok && SlotOf(device) !in p.host.filters
    ensures RunOps(script, RedirectOps(p.host, device, d), p).ok <==>
      device in p.host.links && Quiet(script, p.turn, p.turn + |RedirectOps(p.host, device, d)|)
  {
    RunRedirect(script, device, d, p);
    hide RunOps;
  }

  /** The operation does not concern an interface that is not the manager's. */
  predicate Elsewhither(op: Operation, device: string) { !(op.Redirect? && op.device == device) }

  lemma StepSame(script: seq<Fate>, op: Operation, p: Progress, device: string)
    requires Elsewhither(op, device) && !ManagersDevice(device)
    ensures var q := Step(script, op, p);
      && (device in q.host.links <==> device in p.host.links) && (SlotOf(device) in q.host.filters <==> SlotOf(device) in p.host.filters)
      && (!op.MakeTable? ==> q.host.table == p.host.table)
  {
    DirectionDevices();
    hide FateAt, Device;
  }

  lemma DirectionDevices()
    ensures forall d :: ManagersDevice(Device(d))
  {
  }

  lemma {:induction false} RunSame(script: seq<Fate>, ops: seq<Operation>, p: Progress, device: string)
    requires !ManagersDevice(device) && forall i :: 0 <= i < |ops| ==> Elsewhither(ops[i], device)
    ensures var q := RunOps(script, ops, p);
      && (device in q.host.links <==> device in p.host.links) && (SlotOf(device) in q.host.filters <==> SlotOf(device) in p.host.filters)
      && ((forall i :: 0 <= i < |ops| ==> !ops[i].MakeTable?) ==> q.host.table == p.host.table)
    decreases |ops|
  {
    hide Step, Elsewhither, ManagersDevice;
    if ops != [] && p.ok {
      StepSame(script, ops[0], p, device);
      RunSame(script, ops[1..], Step(script, ops[0], p), device);
    }
  }

  /** Both IFBs and the table work exactly when no operation fails, and leave the interface as it was. */
  lemma TableWorks(script: seq<Fate>, p: Progress, device: string)
    requires Ready(p, Up) && Ready(p, Down) && p.host.table.None? && !ManagersDevice(device)
    ensures var q := AfterTable(script, p);
      && (q.ok <==> Quiet(script, p.turn, p.turn + 10)) && (q.ok ==> q.turn == p.turn + 10)
      && (device in q.host.links <==> device in p.host.links) && (SlotOf(device) in q.host.filters <==> SlotOf(device) in p.host.filters)
  {
    assert p.ok && |LinkOps(Up)| == 4 && |LinkOps(Down)| == 4;
    hide Step, Effect, Cleanable, NoDangling, Ready, ManagersDevice, Quiet, RunOps;
    var q1, q2 := AfterUp(script, p), AfterDown(script, p);
    LinkWorks(script, Up, p);
    RunSame(script, LinkOps(Up), p, device);
    RunSame(script, LinkOps(Down), q1, device);
    RunSame(script, [Elsewhere, MakeTable], q2, device);
    RunTurns(script, LinkOps(Up), p);
    RunTurns(script, LinkOps(Down), q1);
    RunTurns(script, [Elsewhere, MakeTable], q2);
    QuietParts(script, p.turn, p.turn + 4, p.turn + 8);
    QuietParts(script, p.turn, p.turn + 8, p.turn + 10);
    if q1.ok {
      LinkLeavesOther(script, Up, p, Down);
      LinkWorks(script, Down, q1);
      if q2.ok {
        TwoWork(script, MakeTable, q2);
      } else {
        Stopped(script, [Elsewhere, MakeTable], q2);
      }
    } else {
      Stopped(script, LinkOps(Down), q1);
      Stopped(script, [Elsewhere, MakeTable], q1);
    }
  }

  lemma RedirectsWork(script: seq<Fate>, wan: string, lan: string, p: Progress, m: nat, n: nat)
    requires p.ok && wan != lan && !ManagersDevice(lan)
    requires SlotOf(wan) !in p.host.filters && SlotOf(lan) !in p.host.filters
    requires m == |RedirectOps(p.host, wan, Up)| && n == |RedirectOps(p.host, lan, Down)|
    requires forall i :: 0 <= i < m ==> Elsewhither(RedirectOps(p.host, wan, Up)[i], lan)
    requires var q := AfterTable(script, p);
      && (q.ok <==> Quiet(script, p.turn, p.turn + 10)) && (q.ok ==> q.turn == p.turn + 10)
      && forall device :: device == wan || device == lan ==>
           (device in q.host.links <==> device in p.host.links) && (SlotOf(device) in q.host.filters <==> SlotOf(device) in p.host.filters)
    ensures RunOps(script, BuildOps(p.host, wan, lan), p).ok <==>
      wan in p.host.links && lan in p.host.links && Quiet(script, p.turn, p.turn + (10 + m + n + 2))
  {
    hide *;
    BuildInParts(script, wan, lan, p);
    PartsMeet(script, wan, lan, p);
    var q3, q4, q5 := AfterTable(script, p), AfterWan(script, wan, p), AfterLan(script, wan, lan, p);
    QuietParts(script, p.turn, p.turn + 10, p.turn + 10 + m + n + 2);
    QuietParts(script, p.turn + 10, p.turn + 10 + m, p.turn + 10 + m + n + 2);
    QuietParts(script, p.turn + 10 + m, p.turn + 10 + m + n, p.turn + 10 + m + n + 2);
    if q3.ok {
      RedirectWorks(script, wan, Up, q3);
      RunTurns(script, RedirectOps(p.host, wan, Up), q3);
      RunSame(script, RedirectOps(p.host, wan, Up), q3, lan);
      if q4.ok {
        RedirectWorks(script, lan, Down, q4);
        RunTurns(script, RedirectOps(p.host, lan, Down), q4);
        if q5.ok {
          TwoWork(script, Elsewhere, q5);
        }
      }
    }
  }

  /** A build on a cleaned host works exactly when no operation of it fails and both interfaces exist. */
  lemma BuildWorksExactly(script: seq<Fate>, h: Host, wan: string, lan: string, turn: nat)
    requires NoDangling(h) && Removed(h) && !ReservedUsed(h, {wan, lan})
    requires wan != lan && !ManagersDevice(wan) && !ManagersDevice(lan)
    ensures var p := Progress(h, Begun(wan, lan), turn, true);
      var ops := BuildOps(h, wan, lan);
      RunOps(script, ops, p).ok <==> wan in h.links && lan in h.links && Quiet(script, turn, turn + |ops|)
  {
    var p := Progress(h, Begun(wan, lan), turn, true);
    var r := RunOps(script, BuildOps(h, wan, lan), p);
    var m, n := |RedirectOps(h, wan, Up)|, |RedirectOps(h, lan, Down)|;
    assert |BuildOps(h, wan, lan)| == 10 + m + n + 2;
    assert SlotOf(wan) !in h.filters && SlotOf(lan) !in h.filters by { hide Removed, NoDangling; }
    assert h.table.None?;
    assert forall i :: 0 <= i < m ==> Elsewhither(RedirectOps(h, wan, Up)[i], lan);
    hide *;
    StartReady(h, wan, lan, turn, Up);
    StartReady(h, wan, lan, turn, Down);
    TableWorks(script, p, wan);
    TableWorks(script, p, lan);
    RedirectsWork(script, wan, lan, p, m, n);
  }
}
