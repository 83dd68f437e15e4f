/**
 The fault lease: durable files, the kernel table and the processes that arm, expire and restore a fault,
 interleaved operation by operation, with a failure or a crash allowed anywhere (pcs_qualify_fault.py,
 pcs_qualify_safety.py, pcs_qualify_wan.py). One boot; an nft transaction is one step.
 */
module FaultLedger {
  import opened Basics

  type Session = string

  datatype Owner = Wan | Cellular | Manual

  datatype Comment = Owned(owner: Owner, session: Session) | Foreign

  datatype Table = Table(handle: nat, comment: Comment)

  /** What the lease file says of the lease, besides its deadline. */
  datatype Lease = Lease(session: Session, active: bool)

  /** A process, by the operation it performs next. */
  datatype Process =
    | Requested(session: Session, owner: Owner)
    | ArmLock(session: Session, owner: Owner)
    | ArmCheck(session: Session, owner: Owner)
    | ArmPrepare(session: Session, owner: Owner)
    | ArmTimer(session: Session, owner: Owner)
    | ArmMark(session: Session, owner: Owner)
    | ArmActivate(session: Session, owner: Owner)
    | UndoMarker(session: Session)
    | UndoActive(session: Session)
    | Leased(session: Session, owner: Owner)
    | InjectCheck(session: Session, owner: Owner)
    | InjectRecord(session: Session, owner: Owner)
    | InjectPrepare(session: Session, owner: Owner)
    | InjectApply(session: Session, owner: Owner)
    | InjectInspect(session: Session, owner: Owner)
    | InjectActivate(session: Session, owner: Owner)
    | Injected(session: Session)
    | RestoreLock(expected: Option<Session>)
    | RestoreRead(expected: Option<Session>)
    | CleanRead(expected: Option<Session>)
    | CleanInspect(expected: Option<Session>, recorded: Session)
    | CleanDelete(expected: Option<Session>, recorded: Session, handle: nat)
    | CleanVerify(expected: Option<Session>, recorded: Session)
    | DropWan(expected: Option<Session>)
    | DropMarker(expected: Option<Session>)
    | DropActive(expected: Option<Session>)
    | Restored(expected: Option<Session>)
    | OrphanRead
    | OrphanInspect(named: Session)
    | OrphanDelete(named: Session, handle: nat)
    | OrphanVerify(named: Session)
    | Gone

  datatype World = World(
    active: Option<Lease>,
    marker: Option<Session>,
    wan: Option<Session>,
    table: Option<Table>,
    /** Every table the kernel ever had, by handle; handles are never reused. */
    known: map<nat, Comment>,
    /** The holder of mutation.lock. */
    holder: Option<nat>,
    processes: map<nat, Process>,
    /** The tables that the harness deleted. */
    deleted: seq<Comment>)

  const EMPTY := World(None, None, None, None, map[], None, map[], [])

  datatype Step =
    | Spawn(pid: nat, process: Process)
    | Advance(pid: nat, unused: nat)
    | Fail(pid: nat)
    | Crash(pid: nat)
    | ForeignCreate(unused: nat)
    | ForeignDelete

  predicate ActiveIs(w: World, s: Session) { w.active.Some? && w.active.value.session == s }

  predicate Begins(p: Process) { p.Requested? || p.RestoreLock? || p == OrphanRead }

  /** The operations performed while holding mutation.lock. */
  predicate Locked(p: Process) {
    || p.ArmCheck? || p.ArmPrepare? || p.ArmTimer? || p.ArmMark? || p.ArmActivate? || p.UndoMarker? || p.UndoActive?
    || p.InjectCheck? || p.InjectRecord? || p.InjectPrepare? || p.InjectApply? || p.InjectInspect? || p.InjectActivate?
    || p.RestoreRead? || p.CleanRead? || p.CleanInspect? || p.CleanDelete? || p.CleanVerify?
    || p.DropWan? || p.DropMarker? || p.DropActive?
  }

  /** Whether the next operation of a process can succeed; it can always fail instead. */
  predicate CanAdvance(w: World, p: Process, unused: nat) {
    match p
    case Requested(_, _) => w.table.None? && w.wan.None?
    case ArmLock(_, _) => w.holder.None?
    case ArmCheck(_, _) => w.active.None? && w.marker.None? && w.wan.None?
    case Leased(_, _) => w.holder.None?
    case InjectCheck(s, _) => ActiveIs(w, s) && w.active.value.active
    case InjectApply(_, _) => w.table.None? && unused !in w.known
    case InjectInspect(s, o) => w.table.Some? && w.table.value.comment == Owned(o, s)
    case RestoreLock(_) => w.holder.None?
    case CleanInspect(_, s) => w.table.Some? ==> w.table.value.comment.Owned? && w.table.value.comment.session == s
    case CleanDelete(_, _, h) => w.table.Some? && w.table.value.handle == h
    case CleanVerify(_, _) => w.table.None?
    case OrphanRead => w.table.Some? ==> w.table.value.comment.Owned?
    case OrphanInspect(s) => w.table.Some? ==> w.table.value.comment.Owned? && w.table.value.comment.session == s
    case OrphanDelete(_, h) => w.table.Some? && w.table.value.handle == h
    case OrphanVerify(_) => w.table.None?
    case Injected(_) => false
    case Restored(_) => false
    case Gone => false
    case _ => true
  }

  predicate Enabled(w: World, step: Step) {
    match step
    case Spawn(pid, p) => pid !in w.processes && Begins(p)
    case Advance(pid, unused) => pid in w.processes && CanAdvance(w, w.processes[pid], unused)
    case Fail(pid) => pid in w.processes
    case Crash(pid) => pid in w.processes
    case ForeignCreate(unused) => w.table.None? && unused !in w.known
    case ForeignDelete => w.table.Some?
  }

  function Become(w: World, pid: nat, p: Process): World {
    w.(processes := w.processes[pid := p])
  }

  function Take(w: World, pid: nat, p: Process): World { Become(w, pid, p).(holder := Some(pid)) }

  function Release(w: World, pid: nat, p: Process): World { Become(w, pid, p).(holder := None) }

  function Create(w: World, handle: nat, comment: Comment): World {
    w.(table := Some(Table(handle, comment)), known := w.known[handle := comment])
  }

  function DeleteTable(w: World): World
    requires w.table.Some?
  {
    w.(table := None, deleted := w.deleted + [w.table.value.comment])
  }

  predicate Arming(p: Process) {
    || p.Requested? || p.ArmLock? || p.ArmCheck? || p.ArmPrepare? || p.ArmTimer? || p.ArmMark? || p.ArmActivate?
    || p.UndoMarker? || p.UndoActive?
  }

  predicate Injecting(p: Process) {
    || p.Leased? || p.InjectCheck? || p.InjectRecord? || p.InjectPrepare? || p.InjectApply? || p.InjectInspect?
    || p.InjectActivate?
  }

  predicate Restoring(p: Process) {
    || p.RestoreLock? || p.RestoreRead? || p.CleanRead? || p.CleanInspect? || p.CleanDelete? || p.CleanVerify?
    || p.DropWan? || p.DropMarker? || p.DropActive?
  }

  /** arm: the lease is written before the timer is registered, the marker after it is confirmed. */
  function ArmNext(w: World, pid: nat, p: Process): (r: World)
    requires Arming(p)
    ensures pid in r.processes && !r.processes[pid].Restored?
  {
    match p
    case Requested(s, o) => Become(w, pid, ArmLock(s, o))
    case ArmLock(s, o) => Take(w, pid, ArmCheck(s, o))
    case ArmCheck(s, o) => Become(w, pid, ArmPrepare(s, o))
    case ArmPrepare(s, o) => Become(w, pid, ArmTimer(s, o)).(active := Some(Lease(s, false)))
    case ArmTimer(s, o) => Become(w, pid, ArmMark(s, o))
    case ArmMark(s, o) => Become(w, pid, ArmActivate(s, o)).(marker := Some(s))
    case ArmActivate(s, o) => Release(w, pid, Leased(s, o)).(active := Some(Lease(s, true)))
    case UndoMarker(s) => Become(w, pid, UndoActive(s)).(marker := None)
    case UndoActive(_) => Release(w, pid, Gone).(active := None)
  }

  /** _arm_plan: durable ownership before the effect. */
  function InjectNext(w: World, pid: nat, p: Process, unused: nat): (r: World)
    requires Injecting(p)
    ensures pid in r.processes && !r.processes[pid].Restored?
  {
    match p
    case Leased(s, o) => Take(w, pid, InjectCheck(s, o))
    case InjectCheck(s, o) => Become(w, pid, InjectRecord(s, o))
    case InjectRecord(s, o) => Become(w, pid, InjectPrepare(s, o)).(wan := Some(s))
    case InjectPrepare(s, o) => Become(w, pid, InjectApply(s, o)).(active := Some(Lease(s, false)))
    case InjectApply(s, o) => Create(Become(w, pid, InjectInspect(s, o)), unused, Owned(o, s))
    case InjectInspect(s, o) => Become(w, pid, InjectActivate(s, o))
    case InjectActivate(s, _) => Release(w, pid, Injected(s)).(active := Some(Lease(s, true)))
  }

  /** restore and cleanup_record: first the effect, then its record, then the marker and the lease. */
  function RestoreNext(w: World, pid: nat, p: Process): World
    requires Restoring(p) && (p.CleanDelete? ==> w.table.Some?)
  {
    match p
    case RestoreLock(e) => Take(w, pid, RestoreRead(e))
    case RestoreRead(e) =>
      if e.Some? && !ActiveIs(w, e.value) then Release(w, pid, Restored(e)) else Become(w, pid, CleanRead(e))
    case CleanRead(e) =>
      Become(w, pid, if w.wan.Some? then CleanInspect(e, w.wan.value) else DropMarker(e))
    case CleanInspect(e, s) =>
      Become(w, pid, if w.table.Some? then CleanDelete(e, s, w.table.value.handle) else DropWan(e))
    case CleanDelete(e, s, _) => DeleteTable(Become(w, pid, CleanVerify(e, s)))
    case CleanVerify(e, _) => Become(w, pid, DropWan(e))
    case DropWan(e) => Become(w, pid, DropMarker(e)).(wan := None)
    case DropMarker(e) => Become(w, pid, DropActive(e)).(marker := None)
    case DropActive(e) => Release(w, pid, Restored(e)).(active := None)
  }

  /** cleanup_orphan: without the lock and without a record; only the table's own comment is authority. */
  function OrphanNext(w: World, pid: nat, p: Process): (r: World)
    requires p == OrphanRead || p.OrphanInspect? || p.OrphanDelete? || p.OrphanVerify?
    requires (p == OrphanRead && w.table.Some? ==> w.table.value.comment.Owned?) && (p.OrphanDelete? ==> w.table.Some?)
    ensures pid in r.processes && !r.processes[pid].Restored?
  {
    match p
    case OrphanRead => Become(w, pid, if w.table.Some? then OrphanInspect(w.table.value.comment.session) else Gone)
    case OrphanInspect(s) => Become(w, pid, if w.table.Some? then OrphanDelete(s, w.table.value.handle) else Gone)
    case OrphanDelete(s, _) => DeleteTable(Become(w, pid, OrphanVerify(s)))
    case OrphanVerify(_) => Become(w, pid, Gone)
  }

  function Proceed(w: World, pid: nat, unused: nat): World
    requires pid in w.processes && CanAdvance(w, w.processes[pid], unused)
  {
    var p := w.processes[pid];
    if Arming(p) then ArmNext(w, pid, p)
    else if Injecting(p) then InjectNext(w, pid, p, unused)
    else if Restoring(p) then RestoreNext(w, pid, p)
    else OrphanNext(w, pid, p)
  }

  /** What an exception at the next operation leads to: an armed campaign turns to restoring its own session. */
  function Failed(w: World, pid: nat): World
    requires pid in w.processes
  {
    var p := w.processes[pid];
    if p.ArmTimer? || p.ArmMark? || p.ArmActivate? then Become(w, pid, UndoMarker(p.session))
    else if p.Leased? || p.Injected? then Become(w, pid, RestoreLock(Some(p.session)))
    else if p.InjectCheck? || p.InjectRecord? || p.InjectPrepare? || p.InjectApply? || p.InjectInspect? || p.InjectActivate?
    then Release(w, pid, RestoreLock(Some(p.session)))
    else if p.Restored? then w
    else Crashed(w, pid)
  }

  /** A process that ends releases its lock and leaves every file as it is. */
  function Crashed(w: World, pid: nat): World
    requires pid in w.processes
  {
    if w.holder == Some(pid) then Release(w, pid, Gone) else Become(w, pid, Gone)
  }

  function Next(w: World, step: Step): World
    requires Enabled(w, step)
  {
    match step
    case Spawn(pid, p) => Become(w, pid, p)
    case Advance(pid, unused) => Proceed(w, pid, unused)
    case Fail(pid) => Failed(w, pid)
    case Crash(pid) => Crashed(w, pid)
    case ForeignCreate(unused) => Create(w, unused, Foreign)
    case ForeignDelete => w.(table := None)
  }

  function Reach(steps: seq<Step>): Option<World> {
    if steps == [] then Some(EMPTY)
    else
      var before, last := Reach(steps[..|steps| - 1]), steps[|steps| - 1];
      if before.Some? && Enabled(before.value, last) then Some(Next(before.value, last)) else None
  }

  // ---- The invariant ----

  predicate OwnedTable(w: World) { w.table.Some? && w.table.value.comment.Owned? }

  /** Table, record, lease: each exists only under the next, and names the same session. */
  predicate Nested(w: World) {
    && (OwnedTable(w) ==> w.wan == Some(w.table.value.comment.session))
    && (w.wan.Some? ==> ActiveIs(w, w.wan.value))
    && (w.marker.Some? ==> ActiveIs(w, w.marker.value))
  }

  predicate Expects(w: World, e: Option<Session>) { e.Some? ==> ActiveIs(w, e.value) }

  predicate HandleOwned(w: World, handle: nat, s: Session) {
    handle in w.known && w.known[handle].Owned? && w.known[handle].session == s
  }

  /** What a process knows when it is about to perform its next operation. */
  predicate Knows(w: World, p: Process) {
    match p
    case ArmPrepare(_, _) => w.active.None? && w.marker.None? && w.wan.None?
    case ArmTimer(s, _) => ActiveIs(w, s) && w.wan.None?
    case ArmMark(s, _) => ActiveIs(w, s) && w.wan.None?
    case ArmActivate(s, _) => ActiveIs(w, s) && w.wan.None?
    case UndoMarker(s) => ActiveIs(w, s) && w.wan.None?
    case UndoActive(s) => ActiveIs(w, s) && w.wan.None? && w.marker.None?
    case InjectRecord(s, _) => ActiveIs(w, s)
    case InjectPrepare(s, _) => ActiveIs(w, s) && w.wan == Some(s)
    case InjectApply(s, _) => ActiveIs(w, s) && w.wan == Some(s)
    case InjectInspect(s, _) => ActiveIs(w, s) && w.wan == Some(s)
    case InjectActivate(s, _) => ActiveIs(w, s) && w.wan == Some(s)
    case CleanRead(e) => Expects(w, e)
    case CleanInspect(e, s) => Expects(w, e) && w.wan == Some(s)
    case CleanDelete(e, s, h) => Expects(w, e) && w.wan == Some(s) && HandleOwned(w, h, s)
    case CleanVerify(e, s) => Expects(w, e) && w.wan == Some(s)
    case DropWan(e) => Expects(w, e) && !OwnedTable(w)
    case DropMarker(e) => Expects(w, e) && w.wan.None?
    case DropActive(e) => Expects(w, e) && w.wan.None? && w.marker.None?
    case OrphanDelete(s, h) => HandleOwned(w, h, s)
    case _ => true
  }

  predicate TableKnown(w: World) {
    w.table.Some? ==> w.table.value.handle in w.known && w.known[w.table.value.handle] == w.table.value.comment
  }

  predicate Exclusive(w: World) {
    forall pid :: pid in w.processes && Locked(w.processes[pid]) ==> w.holder == Some(pid)
  }

  predicate AllKnow(w: World) {
    forall pid :: pid in w.processes ==> Knows(w, w.processes[pid])
  }

  predicate OnlyOwned(comments: seq<Comment>) {
    forall c :: c in comments ==> c.Owned?
  }

  predicate Inv(w: World) {
    Nested(w) && TableKnown(w) && Exclusive(w) && AllKnow(w) && OnlyOwned(w.deleted)
  }

  predicate SameFiles(w: World, w': World) {
    w'.active == w.active && w'.marker == w.marker && w'.wan == w.wan
  }

  predicate Remembers(w: World, w': World) {
    forall h :: h in w.known ==> h in w'.known && w'.known[h] == w.known[h]
  }

  /**
   What one step of a process may do: only the holder of the lock changes files or creates an owned table,
   and only an owned table is deleted.
   */
  predicate Disciplined(w: World, w': World, pid: nat) {
    && pid in w'.processes && w'.processes == w.processes[pid := w'.processes[pid]]
    && (w'.known == w.known
        || (w'.table.Some? && w'.table.value.handle !in w.known
            && w'.known == w.known[w'.table.value.handle := w'.table.value.comment]))
    && (w.holder == w'.holder || ((w.holder == None || w.holder == Some(pid)) && (w'.holder == None || w'.holder == Some(pid))))
    && (w.holder == Some(pid) || (SameFiles(w, w') && (OwnedTable(w') ==> OwnedTable(w))))
    && (w'.deleted == w.deleted
        || (w.table.Some? && w.table.value.comment.Owned? && w'.deleted == w.deleted + [w.table.value.comment]))
  }

  lemma UnlockedKnows(w: World, w': World, p: Process)
    requires Knows(w, p) && Remembers(w, w')
    requires !Locked(p) || (SameFiles(w, w') && (OwnedTable(w') ==> OwnedTable(w)))
    ensures Knows(w', p)
  {
  }

  lemma DisciplinedKeeps(w: World, w': World, pid: nat)
    requires Inv(w) && Disciplined(w, w', pid)
    requires Nested(w') && TableKnown(w') && Knows(w', w'.processes[pid])
    requires Locked(w'.processes[pid]) ==> w'.holder == Some(pid)
    ensures Inv(w')
  {
    assert Remembers(w, w');
    hide Nested, TableKnown, Knows, Locked, SameFiles, OwnedTable, Remembers;
    forall q | q in w'.processes ensures Knows(w', w'.processes[q]) {
      if q != pid {
        assert Knows(w, w.processes[q]);
        UnlockedKnows(w, w', w.processes[q]);
      }
    }
  }

  /** A step that the discipline allows and that leaves the process knowing what its next operation needs. */
  predicate Sane(w: World, w': World, pid: nat) {
    && Disciplined(w, w', pid) && Nested(w') && TableKnown(w') && Knows(w', w'.processes[pid])
    && (Locked(w'.processes[pid]) ==> w'.holder == Some(pid))
  }

  predicate Ready(w: World, pid: nat) {
    && Nested(w) && TableKnown(w) && pid in w.processes && Knows(w, w.processes[pid])
    && (Locked(w.processes[pid]) ==> w.holder == Some(pid))
  }

  /** Operations that only read, wait or take the lock. */
  lemma LookSane(w: World, pid: nat, unused: nat)
    requires Ready(w, pid) && CanAdvance(w, w.processes[pid], unused)
    requires var p := w.processes[pid];
      p.Requested? || p.ArmLock? || p.ArmTimer? || p.Leased? || p.InjectCheck? || p.InjectInspect?
      || p.RestoreLock? || p.RestoreRead?
    ensures Sane(w, Proceed(w, pid, unused), pid)
  {
    hide Nested, TableKnown;
    NestedSame(w, Proceed(w, pid, unused));
  }

  lemma LookFilesSane(w: World, pid: nat, unused: nat)
    requires Ready(w, pid) && CanAdvance(w, w.processes[pid], unused)
    requires var p := w.processes[pid];
      p.ArmCheck? || p.CleanRead? || p.CleanVerify? || p.OrphanRead? || p.OrphanVerify?
    ensures Sane(w, Proceed(w, pid, unused), pid)
  {
    hide Nested, TableKnown;
    NestedSame(w, Proceed(w, pid, unused));
  }

  lemma InspectSane(w: World, pid: nat, unused: nat)
    requires Ready(w, pid) && CanAdvance(w, w.processes[pid], unused)
    requires w.processes[pid].CleanInspect? || w.processes[pid].OrphanInspect?
    ensures Sane(w, Proceed(w, pid, unused), pid)
  {
    hide Nested;
    NestedSame(w, Proceed(w, pid, unused));
  }

  lemma WriteSane(w: World, pid: nat, unused: nat)
    requires Ready(w, pid) && CanAdvance(w, w.processes[pid], unused)
    requires var p := w.processes[pid];
      p.ArmPrepare? || p.ArmMark? || p.ArmActivate? || p.InjectRecord? || p.InjectPrepare? || p.InjectActivate?
    ensures Sane(w, Proceed(w, pid, unused), pid)
  {
  }

  lemma UnlinkSane(w: World, pid: nat, unused: nat)
    requires Ready(w, pid) && CanAdvance(w, w.processes[pid], unused)
    requires var p := w.processes[pid];
      p.UndoMarker? || p.UndoActive? || p.DropWan? || p.DropMarker? || p.DropActive?
    ensures Sane(w, Proceed(w, pid, unused), pid)
  {
  }

  lemma KernelSane(w: World, pid: nat, unused: nat)
    requires Ready(w, pid) && CanAdvance(w, w.processes[pid], unused)
    requires var p := w.processes[pid]; p.InjectApply? || p.CleanDelete? || p.OrphanDelete?
    ensures Sane(w, Proceed(w, pid, unused), pid)
  {
  }

  lemma CrashSane(w: World, pid: nat)
    requires Ready(w, pid)
    ensures Sane(w, Crashed(w, pid), pid)
  {
    hide Nested, TableKnown;
    NestedSame(w, Crashed(w, pid));
  }

  lemma FailSane(w: World, pid: nat)
    requires Ready(w, pid)
    ensures Sane(w, Failed(w, pid), pid)
  {
    hide Nested, TableKnown;
    CrashSane(w, pid);
    if Failed(w, pid) != Crashed(w, pid) {
      NestedSame(w, Failed(w, pid));
    }
  }

  lemma SpawnKeeps(w: World, pid: nat, p: Process)
    requires Inv(w) && pid !in w.processes && Begins(p)
    ensures Inv(Become(w, pid, p))
  {
    hide Nested, TableKnown, OnlyOwned;
    assert Sane(w, Become(w, pid, p), pid) by {
      NestedSame(w, Become(w, pid, p));
    }
    hide *;
    SaneKeeps(w, Become(w, pid, p), pid);
  }

  lemma NestedSame(w: World, w': World)
    requires Nested(w) && TableKnown(w) && SameFiles(w, w') && w'.table == w.table && w'.known == w.known
    ensures Nested(w') && TableKnown(w')
  {
  }

  lemma ForeignKeeps(w: World, w': World)
    requires Inv(w) && SameFiles(w, w') && Remembers(w, w') && TableKnown(w') && !OwnedTable(w')
    requires w'.processes == w.processes && w'.holder == w.holder && w'.deleted == w.deleted
    ensures Inv(w')
  {
    hide Knows, Locked, TableKnown;
    forall q | q in w'.processes ensures Knows(w', w'.processes[q]) {
      UnlockedKnows(w, w', w.processes[q]);
    }
  }

  lemma StepKeeps(w: World, step: Step)
    requires Inv(w) && Enabled(w, step)
    ensures Inv(Next(w, step))
  {
    hide Nested, Knows, Locked, OnlyOwned;
    match step
    case Spawn(pid, p) => SpawnKeeps(w, pid, p);
    case Advance(pid, unused) => AdvanceKeeps(w, pid, unused);
    case Fail(pid) =>
      FailSane(w, pid);
      SaneKeeps(w, Failed(w, pid), pid);
    case Crash(pid) =>
      CrashSane(w, pid);
      SaneKeeps(w, Crashed(w, pid), pid);
    case ForeignCreate(unused) => ForeignKeeps(w, Create(w, unused, Foreign));
    case ForeignDelete => ForeignKeeps(w, w.(table := None));
  }

  lemma AdvanceKeeps(w: World, pid: nat, unused: nat)
    requires Inv(w) && pid in w.processes && CanAdvance(w, w.processes[pid], unused)
    ensures Inv(Proceed(w, pid, unused))
  {
    var w' := Proceed(w, pid, unused);
    hide Nested, Knows, TableKnown, OnlyOwned, Sane, Proceed, Disciplined;
    assert Ready(w, pid);
    match w.processes[pid] {
      case ArmCheck(_, _) | CleanRead(_) | CleanVerify(_, _) | OrphanRead | OrphanVerify(_) => LookFilesSane(w, pid, unused);
      case CleanInspect(_, _) | OrphanInspect(_) => InspectSane(w, pid, unused);
      case ArmPrepare(_, _) | ArmMark(_, _) | ArmActivate(_, _) | InjectRecord(_, _) | InjectPrepare(_, _)
      | InjectActivate(_, _) => WriteSane(w, pid, unused);
      case UndoMarker(_) | UndoActive(_) | DropWan(_) | DropMarker(_) | DropActive(_) => UnlinkSane(w, pid, unused);
      case InjectApply(_, _) | CleanDelete(_, _, _) | OrphanDelete(_, _) => KernelSane(w, pid, unused);
      case _ => LookSane(w, pid, unused);
    }
    hide *;
    SaneKeeps(w, w', pid);
  }

  lemma SaneKeeps(w: World, w': World, pid: nat)
    requires Inv(w) && Sane(w, w', pid)
    ensures Inv(w')
  {
    hide Inv, Disciplined, Nested, TableKnown, Knows, Locked;
    DisciplinedKeeps(w, w', pid);
  }

  // ---- What holds in every reachable state ----

  lemma {:induction false} ReachKeeps(steps: seq<Step>)
    requires Reach(steps).Some?
    ensures Inv(Reach(steps).value)
  {
    if steps != [] {
      ReachKeeps(steps[..|steps| - 1]);
      hide Inv, Enabled, Next;
      StepKeeps(Reach(steps[..|steps| - 1]).value, steps[|steps| - 1]);
    }
  }

  /**
   Whatever fails or crashes, and however processes interleave: a harness table exists only while wan.json
   names its session, and wan.json and the marker only while active.json names the same session.
   */
  lemma LedgerNested(steps: seq<Step>)
    requires Reach(steps).Some?
    ensures var w := Reach(steps).value;
      && (w.table.Some? && w.table.value.comment.Owned? ==> w.wan == Some(w.table.value.comment.session))
      && (w.wan.Some? ==> w.active.Some? && w.active.value.session == w.wan.value)
      && (w.marker.Some? ==> w.active.Some? && w.active.value.session == w.marker.value)
  {
    ReachKeeps(steps);
  }

  /** Nothing in the kernel or the files belongs to the session. */
  predicate Clean(w: World, s: Session) {
    && !ActiveIs(w, s) && w.wan != Some(s) && w.marker != Some(s)
    && !(w.table.Some? && w.table.value.comment.Owned? && w.table.value.comment.session == s)
  }

  predicate AllClean(w: World) {
    w.active.None? && w.marker.None? && w.wan.None? && !(w.table.Some? && w.table.value.comment.Owned?)
  }

  /** When a restore returns, its session has left nothing; a restore without a session leaves nothing of any. */
  lemma RestoreReturnsClean(steps: seq<Step>, w: World, pid: nat, unused: nat, w': World)
    requires Reach(steps) == Some(w) && Enabled(w, Advance(pid, unused)) && w' == Next(w, Advance(pid, unused))
    requires pid in w'.processes && w'.processes[pid].Restored?
    ensures match w'.processes[pid].expected case Some(s) => Clean(w', s) case None => AllClean(w')
  {
    ReachKeeps(steps);
    hide Reach, Clean, AllClean;
    assert Knows(w, w.processes[pid]) && Nested(w);
    hide Inv, Knows, Nested;
    ReturnStep(w, pid, unused, w');
    hide Proceed, CanAdvance;
    if w.processes[pid].DropActive? {
      LastUnlinkCleans(w, w', w.processes[pid].expected);
      if w.processes[pid].expected.Some? {
        AllIsClean(w', w.processes[pid].expected.value);
      }
    } else {
      OthersLeaseIsClean(w, w', w.processes[pid].expected.value);
    }
  }

  /** A restore returns either after its last unlink or because the lease is not its own. */
  lemma ReturnStep(w: World, pid: nat, unused: nat, w': World)
    requires pid in w.processes && CanAdvance(w, w.processes[pid], unused) && w' == Proceed(w, pid, unused)
    requires w'.processes[pid].Restored?
    ensures w'.table == w.table
    ensures var p := w.processes[pid];
      || (p.DropActive? && w'.processes[pid].expected == p.expected
          && w'.active.None? && w'.marker == w.marker && w'.wan == w.wan)
      || (p.RestoreRead? && w'.processes[pid].expected == p.expected && p.expected.Some?
          && !ActiveIs(w, p.expected.value) && SameFiles(w, w'))
  {
    hide ArmNext, InjectNext, OrphanNext;
  }

  lemma LastUnlinkCleans(w: World, w': World, e: Option<Session>)
    requires Nested(w) && Knows(w, DropActive(e))
    requires w'.active.None? && w'.marker == w.marker && w'.wan == w.wan && w'.table == w.table
    ensures AllClean(w')
  {
  }

  lemma AllIsClean(w: World, s: Session)
    requires AllClean(w)
    ensures Clean(w, s)
  {
  }

  lemma OthersLeaseIsClean(w: World, w': World, s: Session)
    requires Nested(w) && !ActiveIs(w, s) && SameFiles(w, w') && w'.table == w.table
    ensures Clean(w', s)
  {
  }

  /** The session that a restore was started for. */
  function ExpectedBy(p: Process): Option<Session> {
    match p
    case RestoreLock(e) => e
    case RestoreRead(e) => e
    case CleanRead(e) => e
    case CleanInspect(e, _) => e
    case CleanDelete(e, _, _) => e
    case CleanVerify(e, _) => e
    case DropWan(e) => e
    case DropMarker(e) => e
    case DropActive(e) => e
    case _ => None
  }

  /** An expiry of a session that the lease does not name changes no file and no table, at any of its steps. */
  lemma StaleExpiryChangesNothing(steps: seq<Step>, pid: nat, step: Step)
    requires Reach(steps).Some? && Enabled(Reach(steps).value, step)
    requires pid in Reach(steps).value.processes && (step.Advance? || step.Fail? || step.Crash?) && step.pid == pid
    requires var w := Reach(steps).value;
      var e := ExpectedBy(w.processes[pid]); e.Some? && !ActiveIs(w, e.value)
    ensures var w, w' := Reach(steps).value, Next(Reach(steps).value, step);
      SameFiles(w, w') && w'.table == w.table
  {
    ReachKeeps(steps);
    var w := Reach(steps).value;
    assert Knows(w, w.processes[pid]);
    hide Reach, Exclusive, AllKnow, OnlyOwned, TableKnown, Nested;
  }

  /** A table without an exact owner comment is touched by nobody but its own maker; deletions hit only owned tables. */
  lemma ForeignNeverDeleted(steps: seq<Step>, step: Step)
    requires Reach(steps).Some? && Enabled(Reach(steps).value, step)
    ensures forall c :: c in Reach(steps).value.deleted ==> c.Owned?
    ensures var w, w' := Reach(steps).value, Next(Reach(steps).value, step);
      w.table.Some? && w.table.value.comment == Foreign && step != ForeignDelete ==> w'.table == w.table
  {
    ReachKeeps(steps);
    var w := Reach(steps).value;
    if step.Advance? {
      assert Knows(w, w.processes[step.pid]);
    }
    hide Reach, Exclusive, AllKnow, Nested;
  }

  // ---- A restore that is left alone ----

  /** The process advances `n` times with nothing in between. */
  function Solo(w: World, pid: nat, n: nat): Option<World> {
    if n == 0 then Some(w)
    else
      var before := Solo(w, pid, n - 1);
      if before.Some? && Enabled(before.value, Advance(pid, 0)) then Some(Next(before.value, Advance(pid, 0))) else None
  }

  predicate Blocked(w: World) {
    w.wan.Some? && w.table.Some? && w.table.value.comment == Foreign
  }

  /** Where a restore for the expected session ends when it is left alone. */
  predicate RestoredAlone(w: World, pid: nat, e: Option<Session>, end: World) {
    && pid in end.processes
    && (!Expects(w, e) ==> end.processes[pid] == Restored(e) && SameFiles(w, end) && end.table == w.table)
    && (Expects(w, e) && !Blocked(w) ==> end.processes[pid] == Restored(e) && AllClean(end))
    && (Expects(w, e) && Blocked(w) ==> end.processes[pid].CleanInspect? && !Enabled(end, Advance(pid, 0))
                                        && SameFiles(w, end) && end.table == w.table)
  }

  /**
   From every reachable state in which the lock is free, a restore left alone, be it for all sessions or for one: if
   the lease is another session's it returns at once; otherwise it removes everything, exactly unless a foreign table
   has taken the place of a recorded one: then it stops before changing anything.
   */
  lemma RestoreAlone(steps: seq<Step>, pid: nat, e: Option<Session>) returns (n: nat)
    requires Reach(steps).Some? && Reach(steps).value.holder.None? && pid !in Reach(steps).value.processes
    ensures var w := Reach(steps).value;
      var end := Solo(Become(w, pid, RestoreLock(e)), pid, n);
      end.Some? && RestoredAlone(w, pid, e, end.value)
  {
    ReachKeeps(steps);
    hide *;
    n := RestoreFrom(Reach(steps).value, pid, e);
  }

  lemma RestoreFrom(w: World, pid: nat, e: Option<Session>) returns (n: nat)
    requires Inv(w) && w.holder.None? && pid !in w.processes
    ensures var end := Solo(Become(w, pid, RestoreLock(e)), pid, n); end.Some? && RestoredAlone(w, pid, e, end.value)
  {
    assert Nested(w);
    hide Inv, AllClean, Solo;
    var w0 := Become(w, pid, RestoreLock(e));
    if !Expects(w, e) {
      n := StaleReturns(w, w0, pid, e);
    } else {
      var w3 := ReadRecord(w, w0, pid, e);
      if w.wan.None? {
        n := RestoreTail(w0, pid, 3, w3, e);
      } else if Blocked(w) {
        n := 3;
      } else {
        n := RestoreEffect(w0, pid, w3, e);
      }
    }
  }

  lemma StaleReturns(w: World, w0: World, pid: nat, e: Option<Session>) returns (n: nat)
    requires w.holder.None? && w0 == Become(w, pid, RestoreLock(e)) && !Expects(w, e)
    ensures var end := Solo(w0, pid, n); end.Some? && RestoredAlone(w, pid, e, end.value)
  {
    hide Solo, ArmNext, InjectNext, OrphanNext, AllClean, Blocked;
    SoloStep(w0, pid, 0, w0);
    SoloStep(w0, pid, 1, Proceed(w0, pid, 0));
    n := 2;
  }

  /** The restore has the lock, the lease is as expected, and it has read the record. */
  lemma ReadRecord(w: World, w0: World, pid: nat, e: Option<Session>) returns (w3: World)
    requires w.holder.None? && w0 == Become(w, pid, RestoreLock(e)) && Expects(w, e)
    ensures Solo(w0, pid, 3) == Some(w3) && pid in w3.processes
    ensures w3.processes[pid] == if w.wan.Some? then CleanInspect(e, w.wan.value) else DropMarker(e)
    ensures SameFiles(w, w3) && w3.table == w.table
  {
    var w2 := ReadLease(w, w0, pid, e);
    hide Solo, ArmNext, InjectNext, OrphanNext;
    SoloStep(w0, pid, 2, w2);
    w3 := Proceed(w2, pid, 0);
  }

  lemma ReadLease(w: World, w0: World, pid: nat, e: Option<Session>) returns (w2: World)
    requires w.holder.None? && w0 == Become(w, pid, RestoreLock(e)) && Expects(w, e)
    ensures Solo(w0, pid, 2) == Some(w2) && pid in w2.processes && w2.processes[pid] == CleanRead(e)
    ensures SameFiles(w, w2) && w2.table == w.table
  {
    hide Solo, ArmNext, InjectNext, OrphanNext;
    SoloStep(w0, pid, 0, w0);
    var w1 := Proceed(w0, pid, 0);
    SoloStep(w0, pid, 1, w1);
    w2 := Proceed(w1, pid, 0);
  }

  lemma SoloStep(w0: World, pid: nat, n: nat, w: World)
    requires (n == 0 && w == w0) || Solo(w0, pid, n) == Some(w)
    requires Enabled(w, Advance(pid, 0))
    ensures Solo(w0, pid, n + 1) == Some(Proceed(w, pid, 0))
  {
    hide Proceed, CanAdvance;
  }

  lemma RestoreEffect(w0: World, pid: nat, w: World, e: Option<Session>) returns (n: nat)
    requires Solo(w0, pid, 3) == Some(w) && pid in w.processes && w.wan.Some?
    requires w.processes[pid] == CleanInspect(e, w.wan.value)
    requires w.table.Some? ==> w.table.value.comment.Owned? && w.table.value.comment.session == w.wan.value
    ensures var end := Solo(w0, pid, n);
      end.Some? && pid in end.value.processes && end.value.processes[pid] == Restored(e) && AllClean(end.value)
  {
    hide Solo, ArmNext, InjectNext, OrphanNext;
    SoloStep(w0, pid, 3, w);
    var w4 := Proceed(w, pid, 0);
    if w.table.None? {
      n := RestoreWan(w0, pid, 4, w4, e);
    } else {
      SoloStep(w0, pid, 4, w4);
      var w5 := Proceed(w4, pid, 0);
      SoloStep(w0, pid, 5, w5);
      n := RestoreWan(w0, pid, 6, Proceed(w5, pid, 0), e);
    }
  }

  lemma RestoreWan(w0: World, pid: nat, k: nat, w: World, e: Option<Session>) returns (n: nat)
    requires Solo(w0, pid, k) == Some(w) && pid in w.processes && w.processes[pid] == DropWan(e) && w.table.None?
    ensures var end := Solo(w0, pid, n);
      end.Some? && pid in end.value.processes && end.value.processes[pid] == Restored(e) && AllClean(end.value)
  {
    hide Solo, ArmNext, InjectNext, OrphanNext;
    SoloStep(w0, pid, k, w);
    n := RestoreTail(w0, pid, k + 1, Proceed(w, pid, 0), e);
  }

  lemma RestoreTail(w0: World, pid: nat, k: nat, w: World, e: Option<Session>) returns (n: nat)
    requires Solo(w0, pid, k) == Some(w) && pid in w.processes && w.processes[pid] == DropMarker(e)
    requires w.wan.None? && !OwnedTable(w)
    ensures var end := Solo(w0, pid, n);
      end.Some? && pid in end.value.processes && end.value.processes[pid] == Restored(e) && AllClean(end.value)
  {
    hide Solo, ArmNext, InjectNext, OrphanNext;
    SoloStep(w0, pid, k, w);
    SoloStep(w0, pid, k + 1, Proceed(w, pid, 0));
    n := k + 2;
  }

  // ---- Arming that is left alone ----

  /** Files, table and lock as they should be while a process is at work; its own place is given. */
  predicate Stands(w: World, pid: nat, p: Process, active: Option<Lease>, marker: Option<Session>, wan: Option<Session>) {
    && pid in w.processes && w.processes[pid] == p && w.active == active && w.marker == marker && w.wan == wan
    && w.table.None? && w.known == map[] && w.holder == if Locked(p) then Some(pid) else None
  }

  lemma LeaseAlone(w0: World, pid: nat, s: Session, o: Owner) returns (w: World)
    requires Stands(w0, pid, Requested(s, o), None, None, None)
    ensures Solo(w0, pid, 7) == Some(w) && Stands(w, pid, Leased(s, o), Some(Lease(s, true)), Some(s), None)
  {
    hide Solo, InjectNext, RestoreNext, OrphanNext;
    SoloStep(w0, pid, 0, w0);
    var w1 := Proceed(w0, pid, 0);
    SoloStep(w0, pid, 1, w1);
    var w2 := Proceed(w1, pid, 0);
    SoloStep(w0, pid, 2, w2);
    var w3 := Proceed(w2, pid, 0);
    SoloStep(w0, pid, 3, w3);
    var w4 := Proceed(w3, pid, 0);
    assert Stands(w4, pid, ArmTimer(s, o), Some(Lease(s, false)), None, None);
    w := MarkAlone(w0, pid, w4, s, o);
  }

  lemma MarkAlone(w0: World, pid: nat, start: World, s: Session, o: Owner) returns (w: World)
    requires Solo(w0, pid, 4) == Some(start) && Stands(start, pid, ArmTimer(s, o), Some(Lease(s, false)), None, None)
    ensures Solo(w0, pid, 7) == Some(w) && Stands(w, pid, Leased(s, o), Some(Lease(s, true)), Some(s), None)
  {
    hide Solo, InjectNext, RestoreNext, OrphanNext;
    SoloStep(w0, pid, 4, start);
    var w1 := Proceed(start, pid, 0);
    SoloStep(w0, pid, 5, w1);
    var w2 := Proceed(w1, pid, 0);
    SoloStep(w0, pid, 6, w2);
    w := Proceed(w2, pid, 0);
  }

  lemma InjectAlone(w0: World, pid: nat, k: nat, start: World, s: Session, o: Owner) returns (w: World)
    requires Solo(w0, pid, k) == Some(start) && Stands(start, pid, Leased(s, o), Some(Lease(s, true)), Some(s), None)
    ensures Solo(w0, pid, k + 7) == Some(w) && pid in w.processes && w.processes[pid] == Injected(s)
    ensures w.table == Some(Table(0, Owned(o, s))) && w.wan == Some(s) && w.active == Some(Lease(s, true)) && w.holder.None?
  {
    hide Solo, ArmNext, RestoreNext, OrphanNext;
    SoloStep(w0, pid, k, start);
    var w1 := Proceed(start, pid, 0);
    SoloStep(w0, pid, k + 1, w1);
    var w2 := Proceed(w1, pid, 0);
    SoloStep(w0, pid, k + 2, w2);
    var w3 := Proceed(w2, pid, 0);
    SoloStep(w0, pid, k + 3, w3);
    var w4 := Proceed(w3, pid, 0);
    assert w4.processes[pid] == InjectApply(s, o) && w4.table.None? && w4.known == map[] && w4.wan == Some(s)
        && w4.active == Some(Lease(s, false)) && w4.holder == Some(pid);
    w := EffectAlone(w0, pid, k + 4, w4, s, o);
  }

  lemma EffectAlone(w0: World, pid: nat, k: nat, start: World, s: Session, o: Owner) returns (w: World)
    requires Solo(w0, pid, k) == Some(start) && pid in start.processes && start.processes[pid] == InjectApply(s, o)
    requires start.table.None? && start.known == map[] && start.wan == Some(s)
    ensures Solo(w0, pid, k + 3) == Some(w) && pid in w.processes && w.processes[pid] == Injected(s)
    ensures w.table == Some(Table(0, Owned(o, s))) && w.wan == Some(s) && w.active == Some(Lease(s, true)) && w.holder.None?
  {
    hide Solo, ArmNext, RestoreNext, OrphanNext;
    SoloStep(w0, pid, k, start);
    var w1 := Proceed(start, pid, 0);
    SoloStep(w0, pid, k + 1, w1);
    var w2 := Proceed(w1, pid, 0);
    SoloStep(w0, pid, k + 2, w2);
    w := Proceed(w2, pid, 0);
  }

  /** A campaign that is left alone on an empty host does arm its fault: the table is there, recorded and leased. */
  lemma ArmAlone(pid: nat, s: Session, o: Owner) returns (w: World)
    ensures Solo(Become(EMPTY, pid, Requested(s, o)), pid, 14) == Some(w)
    ensures w.table == Some(Table(0, Owned(o, s))) && w.wan == Some(s) && w.active == Some(Lease(s, true)) && w.holder.None?
    ensures pid in w.processes && w.processes[pid] == Injected(s)
  {
    hide Solo;
    var w0 := Become(EMPTY, pid, Requested(s, o));
    var leased := LeaseAlone(w0, pid, s, o);
    w := InjectAlone(w0, pid, 7, leased, s, o);
  }
}
