/**
 The lease's own code, operation by operation: arming a fault, removing it, and cleaning up at boot
 (pcs_qualify_fault.py, pcs_qualify_safety.py). Any operation may fail, with or without its effect. What the object does
 is always a run of the fault ledger, one step per operation, so everything proved of the ledger holds of it; other
 processes are at rest meanwhile.
 */
module FaultLease {
  import opened Basics
  import opened FaultLedger

  datatype Fate = Done | Undone | DoneButRaised

  datatype Removal = Removed | NotOurs | RemovalFailed

  datatype Arming = Armed | Refused | Withdrawn(removal: Removal)

  /** The process is about to perform the operation, and holds the lock exactly if the operation is done under it. */
  predicate Stage(w: World, pid: nat, p: Process) {
    pid in w.processes && w.processes[pid] == p && w.holder == if Locked(p) then Some(pid) else None
  }

  /** The operation that writes the lease. */
  predicate WritesLease(p: Process, lease: Lease) {
    || (p.ArmPrepare? && lease == Lease(p.session, false)) || (p.ArmActivate? && lease == Lease(p.session, true))
    || (p.InjectPrepare? && lease == Lease(p.session, false)) || (p.InjectActivate? && lease == Lease(p.session, true))
  }

  function AfterLease(p: Process): Process {
    match p
    case ArmPrepare(s, o) => ArmTimer(s, o)
    case ArmActivate(s, o) => Leased(s, o)
    case InjectPrepare(s, o) => InjectApply(s, o)
    case InjectActivate(s, _) => Process.Injected(s)
    case _ => p
  }

  function AfterMarker(p: Process): Process {
    match p
    case UndoMarker(s) => UndoActive(s)
    case DropMarker(e) => DropActive(e)
    case _ => p
  }

  function AfterUnlink(p: Process): Process {
    match p
    case DropActive(e) => Restored(e)
    case _ => Gone
  }

  /** Deleting a table by handle, in a restore or at boot. */
  predicate Deletes(p: Process, session: Session, handle: nat) {
    (p.CleanDelete? && p.recorded == session && p.handle == handle) || (p.OrphanDelete? && p.named == session && p.handle == handle)
  }

  function AfterDelete(p: Process): Process {
    match p
    case CleanDelete(e, s, _) => CleanVerify(e, s)
    case OrphanDelete(s, _) => OrphanVerify(s)
    case _ => p
  }

  predicate Inspects(p: Process, session: Session) {
    (p.CleanInspect? && p.recorded == session) || p == OrphanInspect(session)
  }

  /** Where a cleanup of a session's table ends when it succeeds. */
  function AfterCleanup(p: Process): Process {
    match p
    case CleanInspect(e, _) => DropWan(e)
    case _ => Gone
  }

  /** A step of injecting for the session, from the lease on. */
  predicate OfSession(p: Process, session: Session) { (Injecting(p) || p.Injected?) && p.session == session }

  predicate IsCheck(p: Process) {
    p.Requested? || p.ArmLock? || p.ArmCheck? || p.ArmTimer? || p.Leased? || p.InjectCheck? || p.InjectInspect?
  }

  /** What a check wants of the files and the table. */
  predicate Passable(files: World, p: Process) {
    match p
    case Requested(_, _) => files.table.None? && files.wan.None?
    case ArmCheck(_, _) => files.active.None? && files.marker.None? && files.wan.None?
    case InjectCheck(s, _) => files.active == Some(Lease(s, true))
    case InjectInspect(s, o) => files.table.Some? && files.table.value.comment == Owned(o, s)
    case _ => true
  }

  function AfterCheck(p: Process): Process {
    match p
    case Requested(s, o) => ArmLock(s, o)
    case ArmLock(s, o) => ArmCheck(s, o)
    case ArmCheck(s, o) => ArmPrepare(s, o)
    case ArmTimer(s, o) => ArmMark(s, o)
    case Leased(s, o) => InjectCheck(s, o)
    case InjectCheck(s, o) => InjectRecord(s, o)
    case InjectInspect(s, o) => InjectActivate(s, o)
    case _ => p
  }

  class Runtime {
    var active: Option<Lease>
    var marker: Option<Session>
    var wan: Option<Session>
    var table: Option<Table>

    /** The ledger's world, the run that has led to it, and the process that this object is. */
    ghost const pid: nat
    ghost var world: World
    ghost var path: seq<Step>

    function Files(): World
      reads this
    {
      World(active, marker, wan, table, map[], None, map[], [])
    }

    /** The files and the table are those of a reachable world of the ledger. */
    ghost predicate Valid()
      reads this
    {
      && Reach(path) == Some(world) && Inv(world)
      && world.active == active && world.marker == marker && world.wan == wan && world.table == table
    }

    ghost predicate At(p: Process)
      reads this
    {
      Valid() && Stage(world, pid, p)
    }

    /** A process that begins in any reachable world in which nobody holds the lock. */
    constructor (active: Option<Lease>, marker: Option<Session>, wan: Option<Session>, table: Option<Table>,
                 ghost past: seq<Step>, ghost pid: nat, ghost begin: Process)
      requires Reach(past).Some? && Reach(past).value.holder.None? && pid !in Reach(past).value.processes && Begins(begin)
      requires var w := Reach(past).value; w.active == active && w.marker == marker && w.wan == wan && w.table == table
      ensures At(begin) && this.pid == pid && path == past + [Spawn(pid, begin)]
      ensures this.active == active && this.marker == marker && this.wan == wan && this.table == table
    {
      this.active, this.marker, this.wan, this.table := active, marker, wan, table;
      this.pid, path, world := pid, past + [Spawn(pid, begin)], Become(Reach(past).value, pid, begin);
      new;
      ReachNext(past, Reach(past).value, Spawn(pid, begin));
      ReachKeeps(path);
    }

    // ---- Steps of the ledger ----

    ghost method Proceeds(unused: nat)
      requires Reach(path) == Some(world) && pid in world.processes && CanAdvance(world, world.processes[pid], unused)
      modifies this`world, this`path
      ensures world == Proceed(old(world), pid, unused) && Reach(path) == Some(world) && Inv(world)
      ensures path == old(path) + [Advance(pid, unused)]
    {
      hide Reach, CanAdvance, Proceed, Inv;
      ReachNext(path, world, Advance(pid, unused));
      world, path := Proceed(world, pid, unused), path + [Advance(pid, unused)];
      ReachKeeps(path);
    }

    /** The next operation raises without an effect. */
    ghost method Fails()
      requires Valid() && pid in world.processes
      modifies this`world, this`path
      ensures Valid() && world == Failed(old(world), pid) && path == old(path) + [Fail(pid)]
    {
      hide Reach, Inv;
      FailureKeepsFiles(world, pid);
      ReachNext(path, world, Fail(pid));
      hide Failed;
      world, path := Failed(world, pid), path + [Fail(pid)];
      ReachKeeps(path);
    }

    /** The process ends where it is, in either of two places. */
    ghost method Ends(p: Process, q: Process)
      requires At(p) || At(q)
      modifies this`world, this`path
      ensures At(Gone) && path == old(path) + [Crash(pid)]
    {
      hide Reach, Inv;
      ReachNext(path, world, Crash(pid));
      world, path := Crashed(world, pid), path + [Crash(pid)];
      ReachKeeps(path);
    }

    // ---- Looks at the ledger that change nothing in it ----

    /** A restore waits for the lock and then reads the lease. */
    ghost method ReadsLease(e: Option<Session>)
      requires At(RestoreLock(e))
      modifies this`world, this`path
      ensures if e.Some? && !ActiveIs(Files(), e.value) then At(Restored(e)) else At(CleanRead(e))
      ensures old(path) <= path
    {
      hide Reach, Inv, InjectNext, ArmNext, OrphanNext;
      Proceeds(0);
      assert At(RestoreRead(e));
      ReadsOwnLease(e);
    }

    ghost method ReadsOwnLease(e: Option<Session>)
      requires At(RestoreRead(e))
      modifies this`world, this`path
      ensures if e.Some? && !ActiveIs(Files(), e.value) then At(Restored(e)) else At(CleanRead(e))
      ensures old(path) <= path
    {
      hide Reach, Inv, InjectNext, ArmNext, OrphanNext;
      Proceeds(0);
    }

    ghost method ReadsRecord(e: Option<Session>)
      requires At(CleanRead(e))
      modifies this`world, this`path
      ensures if wan.Some? then At(CleanInspect(e, wan.value)) else At(DropMarker(e))
      ensures old(path) <= path
    {
      hide Reach, Inv, InjectNext, ArmNext, OrphanNext;
      Proceeds(0);
    }

    /** The table is looked at before it is deleted. */
    ghost method LooksAtTable(p: Process, session: Session)
      requires At(p) && Inspects(p, session)
      requires table.Some? ==> table.value.comment.Owned? && table.value.comment.session == session
      modifies this`world, this`path
      ensures if table.Some? then At(AfterInspection(p, table.value.handle)) else At(AfterCleanup(p))
      ensures old(path) <= path
    {
      hide Reach, Inv, InjectNext, ArmNext;
      Proceeds(0);
    }

    /** And again afterwards. */
    ghost method SeesTableGone(p: Process)
      requires At(p) && (p.CleanVerify? || p.OrphanVerify?) && table.None?
      modifies this`world, this`path
      ensures At(if p.CleanVerify? then DropWan(p.expected) else Gone) && old(path) <= path
    {
      hide Reach, Inv, InjectNext, ArmNext;
      Proceeds(0);
    }

    /** Steps of arming and injecting that change no file: taking the lock, and the checks. */
    ghost method Passes(p: Process)
      requires At(p) && IsCheck(p) && Passable(Files(), p)
      modifies this`world, this`path
      ensures At(AfterCheck(p)) && old(path) <= path && world.known == old(world).known
    {
      hide Reach, Inv, RestoreNext, OrphanNext;
      Proceeds(0);
    }

    // ---- One operation each ----

    method WriteActive(lease: Lease, ghost p: Process) returns (ok: bool)
      requires At(p) && WritesLease(p, lease)
      modifies this`active, this`world, this`path
      ensures ok ==> At(AfterLease(p)) && active == Some(lease)
      ensures !ok ==> (At(p) && active == old(active)) || (At(AfterLease(p)) && active == Some(lease))
      ensures world.known == old(world).known
      ensures old(path) <= path
    {
      hide Reach, Inv, RestoreNext, OrphanNext;
      var fate: Fate := *;
      if fate != Undone {
        active := Some(lease);
        Proceeds(0);
      }
      ok := fate == Done;
    }

    method WriteMarker(session: Session, ghost owner: Owner) returns (ok: bool)
      requires At(ArmMark(session, owner))
      modifies this`marker, this`world, this`path
      ensures (ok ==> At(ArmActivate(session, owner)) && marker == Some(session))
      ensures !ok ==> At(ArmMark(session, owner)) || At(ArmActivate(session, owner))
      ensures world.known == old(world).known
      ensures old(path) <= path
    {
      hide Reach, Inv, RestoreNext, OrphanNext, InjectNext;
      var fate: Fate := *;
      if fate != Undone {
        marker := Some(session);
        Proceeds(0);
      }
      ok := fate == Done;
    }

    /** The record of ownership comes before the effect, and only under the lease. */
    method WriteWan(session: Session, ghost owner: Owner) returns (ok: bool)
      requires At(InjectRecord(session, owner)) && ActiveIs(Files(), session)
      modifies this`wan, this`world, this`path
      ensures (ok ==> At(InjectPrepare(session, owner)) && wan == Some(session))
      ensures !ok ==> At(InjectRecord(session, owner)) || At(InjectPrepare(session, owner))
      ensures world.known == old(world).known
      ensures (wan == Some(session) || wan == old(wan)) && old(path) <= path
    {
      hide Reach, Inv, RestoreNext, OrphanNext, ArmNext;
      var fate: Fate := *;
      if fate != Undone {
        wan := Some(session);
        Proceeds(0);
      }
      ok := fate == Done;
    }

    /** nft creates the table exclusively under a handle never used before; an existing table makes it fail. */
    method CreateTable(owner: Owner, session: Session, handle: nat) returns (ok: bool)
      requires At(InjectApply(session, owner)) && wan == Some(session) && handle !in world.known
      modifies this`table, this`world, this`path
      ensures ok ==> At(InjectInspect(session, owner)) && old(table).None? && table == Some(Table(handle, Owned(owner, session)))
      ensures !ok ==> At(InjectApply(session, owner)) || At(InjectInspect(session, owner))
      ensures table == old(table) || table == Some(Table(handle, Owned(owner, session)))
      ensures old(path) <= path
    {
      hide Reach, Inv, RestoreNext, OrphanNext, ArmNext;
      var fate: Fate := *;
      if table.Some? {
        fate := Undone;
      }
      if fate != Undone {
        table := Some(Table(handle, Owned(owner, session)));
        Proceeds(handle);
      }
      ok := fate == Done;
    }

    /** Deletes by handle; only a table that carries an owner's comment may be named. */
    method DeleteTable(session: Session, handle: nat, ghost p: Process) returns (ok: bool)
      requires At(p) && Deletes(p, session, handle)
      requires OwnedTable(Files()) && table.value.handle == handle && table.value.comment.session == session
      modifies this`table, this`world, this`path
      ensures (ok ==> At(AfterDelete(p)) && table.None?) && (!ok ==> At(p) || At(AfterDelete(p)))
      ensures (table.None? || table == old(table)) && old(path) <= path
    {
      hide Reach, Inv, InjectNext, ArmNext;
      var fate: Fate := *;
      if fate != Undone {
        table := None;
        Proceeds(0);
      }
      ok := fate == Done;
    }

    /** The record goes only after the table. */
    method UnlinkWan(ghost e: Option<Session>) returns (ok: bool)
      requires At(DropWan(e)) && !OwnedTable(Files())
      modifies this`wan, this`world, this`path
      ensures (ok ==> At(DropMarker(e)) && wan.None?) && (!ok ==> At(DropWan(e)) || At(DropMarker(e)))
      ensures (wan.None? || wan == old(wan)) && old(path) <= path
    {
      hide Reach, Inv, InjectNext, OrphanNext, ArmNext;
      var fate: Fate := *;
      if fate != Undone {
        wan := None;
        Proceeds(0);
      }
      ok := fate == Done;
    }

    method UnlinkMarker(ghost p: Process) returns (ok: bool)
      requires At(p) && (p.UndoMarker? || p.DropMarker?)
      modifies this`marker, this`world, this`path
      ensures (ok ==> At(AfterMarker(p)) && marker.None?) && (!ok ==> At(p) || At(AfterMarker(p)))
      ensures (marker.None? || marker == old(marker)) && old(path) <= path
    {
      hide Reach, Inv, InjectNext, OrphanNext;
      var fate: Fate := *;
      if fate != Undone {
        marker := None;
        Proceeds(0);
      }
      ok := fate == Done;
    }

    /** The lease goes last. */
    method UnlinkActive(ghost p: Process) returns (ok: bool)
      requires At(p) && (p.UndoActive? || p.DropActive?) && wan.None? && marker.None?
      modifies this`active, this`world, this`path
      ensures (ok ==> At(AfterUnlink(p)) && active.None?) && (!ok ==> At(p) || At(AfterUnlink(p)))
      ensures (active.None? || active == old(active)) && old(path) <= path
    {
      hide Reach, Inv, InjectNext, OrphanNext;
      var fate: Fate := *;
      if fate != Undone {
        active := None;
        Proceeds(0);
      }
      ok := fate == Done;
    }

    method Attempt() returns (ok: bool) {
      ok := *;
    }

    // ---- Removing a fault ----

    /** Deletes the table if it is the session's; afterwards its absence is checked. */
    method Cleanup(session: Session, ghost p: Process) returns (ok: bool)
      requires At(p) && Inspects(p, session)
      modifies this`table, this`world, this`path
      ensures (ok ==> At(AfterCleanup(p)) && table.None?) && (!ok ==> At(Gone)) && old(path) <= path
      ensures table == old(table) || (table.None? && old(table).Some? && old(table).value.comment.Owned?
                                      && old(table).value.comment.session == session)
    {
      hide At;
      if table.None? {
        LooksAtTable(p, session);
        return true;
      }
      if !table.value.comment.Owned? || table.value.comment.session != session {
        Ends(p, p);
        return false;
      }
      ghost var q := AfterInspection(p, table.value.handle);
      LooksAtTable(p, session);
      ok := DeleteTable(session, table.value.handle, q);
      if !ok {
        Ends(q, AfterDelete(q));
        return;
      }
      SeesTableGone(AfterDelete(q));
      ok := table.None?;
    }

    /** The record stays until the table is known to be gone. */
    method CleanupRecord(ghost e: Option<Session>) returns (ok: bool)
      requires At(CleanRead(e))
      modifies this`table, this`wan, this`world, this`path
      ensures (ok ==> At(DropMarker(e)) && wan.None? && !OwnedTable(Files())) && (!ok ==> At(Gone)) && old(path) <= path
      ensures table == old(table) || (table.None? && OwnedTable(old(Files())))
    {
      hide At;
      LedgerIsNested(CleanRead(e));
      ReadsRecord(e);
      if wan.None? {
        return true;
      }
      ok := Cleanup(wan.value, CleanInspect(e, wan.value));
      if !ok {
        return;
      }
      ok := UnlinkWan(e);
      if !ok {
        Ends(DropWan(e), DropMarker(e));
      }
    }

    /** One attempt to remove, under the lock: only the lease of the expected session is touched. */
    method Remove(expected: Option<Session>) returns (removal: Removal)
      requires At(RestoreLock(expected))
      modifies this`active, this`marker, this`wan, this`table, this`world, this`path
      ensures (removal == RemovalFailed ==> At(Gone)) && (removal != RemovalFailed ==> At(Restored(expected)))
      ensures removal == Removed ==> AllClean(Files())
      ensures removal == NotOurs <==> expected.Some? && !ActiveIs(old(Files()), expected.value)
      ensures removal == NotOurs ==> Files() == old(Files()) && Clean(Files(), expected.value)
      ensures (table == old(table) || OwnedTable(old(Files()))) && old(path) <= path
    {
      hide At;
      LedgerIsNested(RestoreLock(expected));
      ReadsLease(expected);
      if expected.Some? && (active.None? || active.value.session != expected.value) {
        return NotOurs;
      }
      var ok := CleanupRecord(expected);
      if !ok {
        return RemovalFailed;
      }
      ok := UnlinkMarker(DropMarker(expected));
      if !ok {
        Ends(DropMarker(expected), DropActive(expected));
        return RemovalFailed;
      }
      ok := UnlinkActive(DropActive(expected));
      if !ok {
        Ends(DropActive(expected), Restored(expected));
        return RemovalFailed;
      }
      removal := Removed;
    }

    // ---- Arming a fault ----

    /** What the files say is nested as the ledger proves. */
    lemma LedgerIsNested(p: Process)
      requires At(p)
      ensures Nested(Files())
    {
      hide Reach, Exclusive, AllKnow, OnlyOwned, TableKnown;
    }

    /** The lease is written before the timer, the marker after the timer is confirmed; a failure takes both back. */
    method Arm(session: Session, ghost owner: Owner) returns (ok: bool)
      requires At(ArmLock(session, owner))
      modifies this`active, this`marker, this`world, this`path
      ensures ok ==> At(Leased(session, owner)) && active == Some(Lease(session, true)) && marker == Some(session) && wan.None?
      ensures ok ==> world.known == old(world).known
      ensures (!ok ==> At(Gone) || At(Restored(Some(session)))) && old(path) <= path
      ensures (old(active).Some? || old(marker).Some? || old(wan).Some?) ==> !ok && Files() == old(Files())
    {
      hide At;
      Passes(ArmLock(session, owner));
      if active.Some? || marker.Some? || wan.Some? {
        Ends(ArmCheck(session, owner), ArmCheck(session, owner));
        return false;
      }
      Passes(ArmCheck(session, owner));
      ok := WriteActive(Lease(session, false), ArmPrepare(session, owner));
      if !ok {
        Ends(ArmPrepare(session, owner), ArmTimer(session, owner));
        return;
      }
      ok := ArmTimed(session, owner);
    }

    /** The part of arming that a failure takes back. */
    method ArmTimed(session: Session, ghost owner: Owner) returns (ok: bool)
      requires At(ArmTimer(session, owner)) && wan.None?
      modifies this`active, this`marker, this`world, this`path
      ensures ok ==> At(Leased(session, owner)) && active == Some(Lease(session, true)) && marker == Some(session)
      ensures ok ==> world.known == old(world).known
      ensures (!ok ==> At(Gone) || At(Restored(Some(session)))) && old(path) <= path
    {
      hide At;
      ok := Attempt();
      if ok {
        Passes(ArmTimer(session, owner));
        ok := WriteMarker(session, owner);
      }
      if ok {
        ok := WriteActive(Lease(session, true), ArmActivate(session, owner));
      }
      if !ok {
        ghost var p := TakesBack(session, owner);
        var unlinked := UnlinkMarker(p);
        if !unlinked {
          Ends(p, AfterMarker(p));
          return;
        }
        unlinked := UnlinkActive(AfterMarker(p));
        if !unlinked {
          Ends(AfterMarker(p), AfterUnlink(AfterMarker(p)));
        }
      }
    }

    /** The process turns to undoing its lease; where the lease is already in force that is a restore of its session. */
    ghost method TakesBack(session: Session, owner: Owner) returns (p: Process)
      requires wan.None?
      requires At(ArmTimer(session, owner)) || At(ArmMark(session, owner)) || At(ArmActivate(session, owner))
        || (At(Leased(session, owner)) && ActiveIs(Files(), session))
      modifies this`world, this`path
      ensures At(p) && (p == UndoMarker(session) || p == DropMarker(Some(session))) && old(path) <= path
    {
      hide Reach, Inv, InjectNext, ArmNext, OrphanNext;
      if world.processes[pid].Leased? {
        Fails();
        ReadsLease(Some(session));
        ReadsRecord(Some(session));
        p := DropMarker(Some(session));
      } else {
        Fails();
        p := UndoMarker(session);
      }
    }

    /** What happens under the lease: verify, record, create, inspect. A failure leaves the process to restore its session. */
    method Inject(session: Session, owner: Owner, handle: nat, timely: bool, verified: bool) returns (ok: bool)
      requires At(Leased(session, owner)) && handle !in world.known
      modifies this`active, this`wan, this`table, this`world, this`path
      ensures ok ==> At(Process.Injected(session)) && Injection(Files(), session, owner) && timely && verified
      ensures (!ok ==> At(RestoreLock(Some(session)))) && old(path) <= path
    {
      ghost var s, o := session, owner;
      hide At;
      Passes(Leased(s, o));
      if active.None? || active.value.session != session || !active.value.active || !timely || !verified {
        TurnsToRestore(InjectCheck(s, o), InjectCheck(s, o), s);
        return false;
      }
      Passes(InjectCheck(s, o));
      ok := WriteWan(session, owner);
      if !ok {
        TurnsToRestore(InjectRecord(s, o), InjectPrepare(s, o), s);
        return;
      }
      ok := InjectUnder(session, owner, handle);
    }

    /** The effect and its inspection, the record being written. */
    method InjectUnder(session: Session, owner: Owner, handle: nat) returns (ok: bool)
      requires At(InjectPrepare(session, owner)) && wan == Some(session) && handle !in world.known
      modifies this`active, this`table, this`world, this`path
      ensures ok ==> At(Process.Injected(session)) && Injection(Files(), session, owner)
      ensures (!ok ==> At(RestoreLock(Some(session)))) && old(path) <= path
    {
      ghost var s, o := session, owner;
      hide At;
      ok := WriteActive(Lease(session, false), InjectPrepare(s, o));
      if !ok {
        TurnsToRestore(InjectPrepare(s, o), InjectApply(s, o), s);
        return;
      }
      ok := CreateTable(owner, session, handle);
      if !ok {
        TurnsToRestore(InjectApply(s, o), InjectInspect(s, o), s);
        return;
      }
      Passes(InjectInspect(s, o));
      ok := WriteActive(Lease(session, true), InjectActivate(s, o));
      if !ok {
        TurnsToRestore(InjectActivate(s, o), Process.Injected(s), s);
      }
    }

    /** An exception under the lease: the process gives up the lock and turns to restoring its session. */
    ghost method TurnsToRestore(p: Process, q: Process, session: Session)
      requires At(p) || At(q)
      requires OfSession(p, session) && OfSession(q, session)
      modifies this`world, this`path
      ensures At(RestoreLock(Some(session))) && old(path) <= path
    {
      hide Reach, Inv;
      FailsToRestore(world, pid, if At(p) then p else q, session);
      hide Failed, Locked, Injecting;
      Fails();
    }

    /** Arms the fault or takes everything of the session back; nothing happens when the place is taken. */
    method ArmPlan(session: Session, owner: Owner, handle: nat, timely: bool, verified: bool) returns (arming: Arming)
      requires At(Requested(session, owner)) && handle !in world.known
      modifies this`active, this`marker, this`wan, this`table, this`world, this`path
      ensures old(path) <= path
      ensures arming != Armed ==> At(Gone) || At(Restored(Some(session)))
      ensures arming == Armed ==> At(Process.Injected(session)) && Injection(Files(), session, owner) && timely && verified
      ensures arming.Withdrawn? && arming.removal != RemovalFailed ==> Clean(Files(), session)
      ensures old(table).Some? || old(wan).Some? ==> arming == Refused && Files() == old(Files())
    {
      hide At, Valid;
      if table.Some? || wan.Some? {
        Ends(Requested(session, owner), Requested(session, owner));
        return Refused;
      }
      Passes(Requested(session, owner));
      var ok := Arm(session, owner);
      if !ok {
        return Refused;
      }
      ok := Inject(session, owner, handle, timely, verified);
      if ok {
        return Armed;
      }
      var removal := Remove(Some(session));
      if removal == Removed {
        AllIsClean(Files(), session);
      }
      return Withdrawn(removal);
    }

    /** At boot the ledger is gone: only the exact comment of a leftover table says whose it is. */
    method CleanupOrphan() returns (ok: bool)
      requires At(OrphanRead)
      modifies this`table, this`world, this`path
      ensures At(Gone) && old(path) <= path
      ensures ok ==> table.None? && (active.None? && marker.None? && wan.None? ==> AllClean(Files()))
      ensures old(table).Some? && !OwnedTable(old(Files())) ==> !ok
      ensures table == old(table) || OwnedTable(old(Files()))
    {
      if table.Some? && !table.value.comment.Owned? {
        Ends(OrphanRead, OrphanRead);
        return false;
      }
      ReadsOrphan();
      if table.None? {
        return true;
      }
      hide At;
      ok := Cleanup(table.value.comment.session, OrphanInspect(table.value.comment.session));
    }

    ghost method ReadsOrphan()
      requires At(OrphanRead) && (table.Some? ==> table.value.comment.Owned?)
      modifies this`world, this`path
      ensures At(if table.Some? then OrphanInspect(table.value.comment.session) else Gone) && old(path) <= path
    {
      hide Reach, Inv, ArmNext, InjectNext, RestoreNext;
      Proceeds(0);
    }
  }

  /** The fault is in place: table, record and active lease all name the session. */
  predicate Injection(w: World, session: Session, owner: Owner) {
    && w.table.Some? && w.table.value.comment == Owned(owner, session)
    && w.wan == Some(session) && w.active == Some(Lease(session, true))
  }

  /** After the first look at the session's own table. */
  function AfterInspection(p: Process, handle: nat): Process {
    match p
    case CleanInspect(e, s) => CleanDelete(e, s, handle)
    case OrphanInspect(s) => OrphanDelete(s, handle)
    case _ => p
  }

  lemma ReachNext(steps: seq<Step>, w: World, step: Step)
    requires Reach(steps) == Some(w) && Enabled(w, step)
    ensures Reach(steps + [step]) == Some(Next(w, step))
  {
    hide Enabled, Next;
    assert (steps + [step])[..|steps|] == steps;
  }

  lemma FailsToRestore(w: World, pid: nat, p: Process, session: Session)
    requires Stage(w, pid, p) && OfSession(p, session)
    ensures Stage(Failed(w, pid), pid, RestoreLock(Some(session)))
  {
  }

  lemma FailureKeepsFiles(w: World, pid: nat)
    requires pid in w.processes
    ensures var w' := Failed(w, pid);
      w'.active == w.active && w'.marker == w.marker && w'.wan == w.wan && w'.table == w.table
  {
  }
}
