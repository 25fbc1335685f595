/** All threads, all pools: a step relation in which every critical section of a connection pool,
    every queue operation and every write-lock operation is one atomic step. Calls interleave freely;
    a thread may have several calls open at once, as it has when it nests one inside another. */
module PoolProtocol {
  import opened Pools

  type Db = string
  type Path = string
  type Thread = nat
  type CallId = nat

  /** A system's database: the file it lives in and its pool configuration. */
  datatype Site = Site(path: Path, config: Config)

  datatype Outcome = Completed | BodyError | PoolTimeout | CreateError

  /** Where a call of `SystemDatabase.get_connection` stands. */
  datatype Pc =
    | WantLock                                // about to acquire the path's write lock
    | TryIdle                                 // about to take from the queue without waiting
    | Growing(waited: bool)                   // about to check for capacity
    | Creating                                // slot reserved, connection being created
    | Abandoning                              // creation failed, slot still reserved
    | Waiting                                 // blocked on the queue
    | Holding(conn: Conn)                     // connection obtained, not yet flagged
    | Using(conn: Conn)                       // the caller's block is running
    | Returning(conn: Conn, outcome: Outcome) // entering return_connection
    | Clearing(conn: Conn, outcome: Outcome)  // rolled back, flag still set
    | Checking(conn: Conn, outcome: Outcome)  // about to check that it is alive
    | Retiring(conn: Conn, outcome: Outcome)  // dead and closed, still counted
    | Refilling(outcome: Outcome)             // slot kept for a replacement
    | Unreserving(outcome: Outcome)           // no replacement, slot still kept
    | Failing(conn: Conn, outcome: Outcome)   // the error path of return_connection
    | Leaving(outcome: Outcome)               // about to release the write lock
    | Done(outcome: Outcome)

  datatype Call = Call(thread: Thread, db: Db, write: bool, forTransaction: bool, pc: Pc)

  datatype Hold = Hold(owner: Thread, depth: nat)

  /** `lost` counts connections dropped on the error path of `return_connection`. */
  datatype System = System(
    pools: map<Db, Pool>,
    lost: map<Db, nat>,
    locks: map<Path, Hold>,
    calls: map<CallId, Call>)

  datatype Action =
    | Begin(thread: Thread, db: Db, write: bool, forTransaction: bool)
    | Lock
    | Take | QueueEmpty
    | CheckCapacity
    | Created(conn: Conn) | CreationFails | Abandon
    | WaitTimesOut
    | Mark
    | Finish(failed: bool)
    | ReadFlag(rollback: Reply)
    | Clear
    | Check(check: Reply, close: Reply)
    | Drop
    | Refilled(conn: Conn) | RefillFails | Unreserve
    | FailOut
    | Leave

  // ---------------------------------------------------------------- classifying program points

  predicate HasConn(pc: Pc) {
    pc.Holding? || pc.Using? || pc.Returning? || pc.Clearing? || pc.Checking? || pc.Retiring? || pc.Failing?
  }

  predicate CheckedOut(pc: Pc) {
    HasConn(pc) && !pc.Retiring?
  }

  predicate Reserved(pc: Pc) {
    pc.Creating? || pc.Abandoning? || pc.Refilling? || pc.Unreserving?
  }

  /** The call accounts for one of the connections the counter counts. */
  predicate Owes(pc: Pc) {
    HasConn(pc) || Reserved(pc)
  }

  /** The only points at which a call's connection may be flagged. */
  predicate MayBeFlagged(pc: Pc) {
    pc.Using? || pc.Returning? || pc.Clearing? || pc.Failing?
  }

  /** The call is inside `return_connection`. */
  predicate GivingBack(pc: Pc) {
    pc.Returning? || pc.Clearing? || pc.Checking? || pc.Retiring? || pc.Refilling? || pc.Unreserving? || pc.Failing?
  }

  predicate HoldsLock(call: Call) {
    call.write && !call.pc.WantLock? && !call.pc.Done?
  }

  // ---------------------------------------------------------------- the step relation

  datatype Move = NoMove | Move(pool: Pool, pc: Pc, lost: nat)

  /** What one action of a call does to its pool and to itself, if it is enabled. A new connection's
      id differs from those of the live connections of the pool; ids of dead ones may return. */
  function Local(config: Config, live: set<Conn>, p: Pool, call: Call, a: Action): (m: Move)
  {
    var pc := call.pc;
    match a
    case Take =>
      if (pc.TryIdle? || pc.Waiting?) && p.idle != [] then Move(TakeIdle(p), Holding(p.idle[0]), 0) else NoMove
    case QueueEmpty =>
      if pc.TryIdle? && p.idle == [] then Move(p, Growing(false), 0) else NoMove
    case CheckCapacity =>
      if !pc.Growing? then NoMove
      else if CanGrow(p, config) then Move(Reserve(p), Creating, 0)
      else if pc.waited then Move(p, Leaving(PoolTimeout), 0)
      else Move(p, Waiting, 0)
    case Created(c) =>
      if pc.Creating? && c !in live then Move(p, Holding(c), 0) else NoMove
    case CreationFails =>
      if pc.Creating? then Move(p, Abandoning, 0) else NoMove
    case Abandon =>
      if pc.Abandoning? then Move(Release(p), Leaving(CreateError), 0) else NoMove
    case WaitTimesOut =>
      if pc.Waiting? then Move(p, Growing(true), 0) else NoMove
    case Mark =>
      if pc.Holding? then Move(Flag(p, pc.conn, call.forTransaction), Using(pc.conn), 0) else NoMove
    case Finish(failed) =>
      if pc.Using? then Move(p, Returning(pc.conn, if failed then BodyError else Completed), 0) else NoMove
    case ReadFlag(rollback) =>
      if !pc.Returning? then NoMove
      else if pc.conn !in p.flagged then Move(p, Checking(pc.conn, pc.outcome), 0)
      else if rollback == Ok || rollback == OperationalError then Move(p, Clearing(pc.conn, pc.outcome), 0)
      else Move(p, Failing(pc.conn, pc.outcome), 0)
    case Clear =>
      if pc.Clearing? then Move(Unflag(p, pc.conn), Checking(pc.conn, pc.outcome), 0) else NoMove
    case Check(check, close) =>
      if !pc.Checking? then NoMove
      else if check == Ok then Move(PutIdle(p, pc.conn), Leaving(pc.outcome), 0)
      else if check == OtherError || close == OtherError then Move(p, Failing(pc.conn, pc.outcome), 0)
      else Move(p, Retiring(pc.conn, pc.outcome), 0)
    case Drop =>
      if !pc.Retiring? then NoMove
      else Move(Retire(p, config), if NeedsRefill(p, config) then Refilling(pc.outcome) else Leaving(pc.outcome), 0)
    case Refilled(c) =>
      if pc.Refilling? && c !in live then Move(PutIdle(p, c), Leaving(pc.outcome), 0) else NoMove
    case RefillFails =>
      if pc.Refilling? then Move(p, Unreserving(pc.outcome), 0) else NoMove
    case Unreserve =>
      if pc.Unreserving? then Move(Release(p), Leaving(pc.outcome), 0) else NoMove
    case FailOut =>
      if pc.Failing? then Move(Unflag(p, pc.conn), Leaving(pc.outcome), 1) else NoMove
    case Begin(_, _, _, _) => NoMove
    case Lock => NoMove
    case Leave => NoMove
  }

  /** The connections of a pool that some variable still refers to. */
  function Live(calls: map<CallId, Call>, db: Db, p: Pool): (live: set<Conn>)
  {
    (set c | c in p.idle) + (set id | id in calls && calls[id].db == db && HasConn(calls[id].pc) :: calls[id].pc.conn)
  }

  ghost predicate WellTyped(sites: map<Db, Site>, s: System) {
    && s.pools.Keys == sites.Keys && s.lost.Keys == sites.Keys
    && forall id :: id in s.calls ==>
         && s.calls[id].db in sites
         && (s.calls[id].pc.WantLock? ==> s.calls[id].write)
         && (GivingBack(s.calls[id].pc) ==> s.calls[id].pc.outcome.Completed? || s.calls[id].pc.outcome.BodyError?)
  }

  /** A thread enters a new call. */
  ghost predicate BeginStep(sites: map<Db, Site>, s: System, s': System, id: CallId, a: Action)
    requires a.Begin?
  {
    && id !in s.calls && a.db in sites
    && s' == s.(calls := s.calls[id := Call(a.thread, a.db, a.write, a.forTransaction, if a.write then WantLock else TryIdle)])
  }

  /** The write lock of the call's path is free or already its thread's own. */
  ghost predicate LockStep(sites: map<Db, Site>, s: System, s': System, id: CallId)
    requires WellTyped(sites, s)
  {
    && id in s.calls && s.calls[id].pc.WantLock?
    && (var path, me := sites[s.calls[id].db].path, s.calls[id].thread;
        && (path in s.locks ==> s.locks[path].owner == me)
        && s' == s.(locks := s.locks[path := Hold(me, if path in s.locks then s.locks[path].depth + 1 else 1)],
                    calls := s.calls[id := s.calls[id].(pc := TryIdle)]))
  }

  ghost predicate LeaveStep(sites: map<Db, Site>, s: System, s': System, id: CallId)
    requires WellTyped(sites, s)
  {
    && id in s.calls && s.calls[id].pc.Leaving?
    && (var call := s.calls[id];
        var path := sites[call.db].path;
        && (call.write ==> path in s.locks)
        && s' == s.(locks := if call.write then Unlock(s.locks, path) else s.locks,
                    calls := s.calls[id := call.(pc := Done(call.pc.outcome))]))
  }

  function MoveOf(sites: map<Db, Site>, s: System, id: CallId, a: Action): (m: Move)
    requires WellTyped(sites, s) && id in s.calls
  {
    var call := s.calls[id];
    var p := s.pools[call.db];
    Local(sites[call.db].config, Live(s.calls, call.db, p), p, call, a)
  }

  function After(s: System, id: CallId, m: Move): (s': System)
    requires m.Move? && id in s.calls && s.calls[id].db in s.lost
  {
    var call := s.calls[id];
    s.(pools := s.pools[call.db := m.pool],
       lost := s.lost[call.db := s.lost[call.db] + m.lost],
       calls := s.calls[id := call.(pc := m.pc)])
  }

  ghost predicate Step(sites: map<Db, Site>, s: System, s': System, id: CallId, a: Action)
  {
    WellTyped(sites, s)
    && match a
       case Begin(_, _, _, _) => BeginStep(sites, s, s', id, a)
       case Lock => LockStep(sites, s, s', id)
       case Leave => LeaveStep(sites, s, s', id)
       case _ => id in s.calls && MoveOf(sites, s, id, a).Move? && s' == After(s, id, MoveOf(sites, s, id, a))
  }

  function Unlock(locks: map<Path, Hold>, path: Path): map<Path, Hold>
    requires path in locks
  {
    if locks[path].depth <= 1 then locks - {path}
    else locks[path := locks[path].(depth := locks[path].depth - 1)]
  }

  // ---------------------------------------------------------------- pool invariant

  function Owing(calls: map<CallId, Call>, db: Db): (ids: set<CallId>)
  {
    set id | id in calls && calls[id].db == db && Owes(calls[id].pc)
  }

  ghost predicate PoolInv(config: Config, calls: map<CallId, Call>, db: Db, p: Pool, lost: nat) {
    && p.count == |p.idle| + |Owing(calls, db)| + lost
    && p.count <= Cap(config)
    && ConnsApart(calls, db, p)
    && FlagsHeld(calls, db, p)
  }

  /** Every live connection is in exactly one place. */
  ghost predicate ConnsApart(calls: map<CallId, Call>, db: Db, p: Pool) {
    && (forall i, j :: 0 <= i < j < |p.idle| ==> p.idle[i] != p.idle[j])
    && (forall id :: id in calls && calls[id].db == db && HasConn(calls[id].pc) ==> calls[id].pc.conn !in p.idle)
    && (forall id, other :: id in calls && other in calls && id != other
          && calls[id].db == db && HasConn(calls[id].pc) && calls[other].db == db && HasConn(calls[other].pc)
          ==> calls[id].pc.conn != calls[other].pc.conn)
  }

  /** A flagged connection is in the hands of a call that is using or returning it. */
  ghost predicate FlagsHeld(calls: map<CallId, Call>, db: Db, p: Pool) {
    forall c :: c in p.flagged ==> exists id :: FlagOwner(calls, db, c, id)
  }

  predicate FlagOwner(calls: map<CallId, Call>, db: Db, c: Conn, id: CallId) {
    id in calls && calls[id].db == db && MayBeFlagged(calls[id].pc) && calls[id].pc.conn == c
  }

  lemma OwingAfter(calls: map<CallId, Call>, db: Db, id: CallId, call: Call)
    requires id in calls ==> calls[id].db == call.db
    ensures call.db != db ==> Owing(calls[id := call], db) == Owing(calls, db)
    ensures call.db == db ==>
      |Owing(calls[id := call], db)|
        == |Owing(calls, db)|
           - (if id in calls && Owes(calls[id].pc) then 1 else 0) + (if Owes(call.pc) then 1 else 0)
  {
    hide Owing, Owes;
    var before, after := Owing(calls, db), Owing(calls[id := call], db);
    OwingMember(calls, db, id);
    forall i ensures i in after <==> if i == id then call.db == db && Owes(call.pc) else i in before {
      OwingMember(calls, db, i);
      OwingMember(calls[id := call], db, i);
    }
    SizeAround(before, id);
    if call.db != db {
      assert after == before;
    } else if Owes(call.pc) {
      assert after == before + {id};
    } else {
      assert after == before - {id};
    }
  }

  lemma OwingMember(calls: map<CallId, Call>, db: Db, id: CallId)
    ensures id in Owing(calls, db) <==> id in calls && calls[id].db == db && Owes(calls[id].pc)
  {
  }

  lemma SizeAround(ids: set<CallId>, id: CallId)
    ensures |ids + {id}| == |ids| + (if id in ids then 0 else 1)
    ensures |ids - {id}| == |ids| - (if id in ids then 1 else 0)
  {
    if id in ids {
      assert ids + {id} == ids;
    } else {
      assert ids - {id} == ids;
    }
  }

  /** One local action keeps the books of its pool. */
  lemma LocalBooks(config: Config, live: set<Conn>, p: Pool, call: Call, a: Action)
    requires Local(config, live, p, call, a).Move?
    ensures var m := Local(config, live, p, call, a);
            && m.pool.count - |m.pool.idle| - m.lost - (if Owes(m.pc) then 1 else 0)
               == p.count - |p.idle| - (if Owes(call.pc) then 1 else 0)
            && (p.count <= Cap(config) ==> m.pool.count <= Cap(config))
  {
  }

  /** What one local action can do with connections: keep the call's own, take the first idle one or a new one,
      put the own one or a new one at the end of the queue, or drop the own one. */
  lemma LocalMovesConn(config: Config, live: set<Conn>, p: Pool, call: Call, a: Action)
    requires Local(config, live, p, call, a).Move?
    ensures var m := Local(config, live, p, call, a);
            if HasConn(m.pc) && HasConn(call.pc) then
              m.pc.conn == call.pc.conn && m.pool.idle == p.idle
            else if HasConn(m.pc) then
              || (m.pc.conn !in live && m.pool.idle == p.idle)
              || (p.idle != [] && m.pc.conn == p.idle[0] && m.pool.idle == p.idle[1..])
            else
              || m.pool.idle == p.idle
              || (HasConn(call.pc) && m.pool.idle == p.idle + [call.pc.conn])
              || (|m.pool.idle| == |p.idle| + 1 && m.pool.idle == p.idle + [m.pool.idle[|p.idle|]] && m.pool.idle[|p.idle|] !in live)
  {
  }

  lemma LocalKeepsApart(config: Config, calls: map<CallId, Call>, db: Db, p: Pool, id: CallId, a: Action)
    requires ConnsApart(calls, db, p) && id in calls && calls[id].db == db
    requires Local(config, Live(calls, db, p), p, calls[id], a).Move?
    ensures var m := Local(config, Live(calls, db, p), p, calls[id], a);
            ConnsApart(calls[id := calls[id].(pc := m.pc)], db, m.pool)
  {
    LocalMovesConn(config, Live(calls, db, p), p, calls[id], a);
    hide Local, HasConn;
  }

  lemma LocalKeepsFlags(config: Config, calls: map<CallId, Call>, db: Db, p: Pool, id: CallId, a: Action)
    requires ConnsApart(calls, db, p) && FlagsHeld(calls, db, p) && id in calls && calls[id].db == db
    requires Local(config, Live(calls, db, p), p, calls[id], a).Move?
    ensures var m := Local(config, Live(calls, db, p), p, calls[id], a);
            FlagsHeld(calls[id := calls[id].(pc := m.pc)], db, m.pool)
  {
    var m := Local(config, Live(calls, db, p), p, calls[id], a);
    var call := calls[id];
    var calls' := calls[id := call.(pc := m.pc)];
    forall c | c in m.pool.flagged ensures exists owner :: FlagOwner(calls', db, c, owner) {
      if c in p.flagged {
        var owner :| FlagOwner(calls, db, c, owner);
        if owner != id {
          assert FlagOwner(calls', db, c, owner);
        } else {
          assert FlagOwner(calls', db, c, id);
        }
      } else {
        assert FlagOwner(calls', db, c, id);
      }
    }
  }

  lemma OtherPoolUntouched(config: Config, calls: map<CallId, Call>, db: Db, p: Pool, lost: nat, id: CallId, call: Call)
    requires PoolInv(config, calls, db, p, lost)
    requires id in calls ==> calls[id].db == call.db
    requires call.db != db || (id !in calls && !Owes(call.pc))
          || (id in calls && !Owes(calls[id].pc) && !Owes(call.pc))
    ensures PoolInv(config, calls[id := call], db, p, lost)
  {
    OwingAfter(calls, db, id, call);
    var calls' := calls[id := call];
    forall c | c in p.flagged ensures exists owner :: FlagOwner(calls', db, c, owner) {
      var owner :| FlagOwner(calls, db, c, owner);
      assert FlagOwner(calls', db, c, owner);
    }
  }

  // ---------------------------------------------------------------- write-lock invariant

  function Holders(sites: map<Db, Site>, calls: map<CallId, Call>, path: Path): (ids: set<CallId>)
    requires forall id :: id in calls ==> calls[id].db in sites
  {
    set id | id in calls && sites[calls[id].db].path == path && HoldsLock(calls[id])
  }

  /** The lock's depth is the number of calls inside it, and they all belong to its owner. */
  ghost predicate LockInv(sites: map<Db, Site>, calls: map<CallId, Call>, locks: map<Path, Hold>, path: Path)
    requires forall id :: id in calls ==> calls[id].db in sites
  {
    var holders := Holders(sites, calls, path);
    if path in locks then
      && locks[path].depth == |holders| >= 1
      && forall id :: id in holders ==> calls[id].thread == locks[path].owner
    else holders == {}
  }

  lemma HoldersAfter(sites: map<Db, Site>, calls: map<CallId, Call>, path: Path, id: CallId, call: Call)
    requires forall i :: i in calls ==> calls[i].db in sites
    requires call.db in sites && (id in calls ==> calls[id].db == call.db)
    ensures var before, after := Holders(sites, calls, path), Holders(sites, calls[id := call], path);
            if sites[call.db].path != path then after == before
            else if HoldsLock(call) then after == before + {id}
            else after == before - {id}
  {
  }

  ghost predicate PoolsOk(sites: map<Db, Site>, s: System)
    requires WellTyped(sites, s)
  {
    forall db :: db in sites ==> PoolInv(sites[db].config, s.calls, db, s.pools[db], s.lost[db])
  }

  ghost predicate LocksOk(sites: map<Db, Site>, calls: map<CallId, Call>, locks: map<Path, Hold>)
    requires forall id :: id in calls ==> calls[id].db in sites
  {
    forall path :: LockInv(sites, calls, locks, path)
  }

  ghost predicate Inv(sites: map<Db, Site>, s: System) {
    WellTyped(sites, s) && PoolsOk(sites, s) && LocksOk(sites, s.calls, s.locks)
  }

  lemma LocksUnaffected(sites: map<Db, Site>, calls: map<CallId, Call>, locks: map<Path, Hold>, id: CallId, call: Call)
    requires forall i :: i in calls ==> calls[i].db in sites
    requires LocksOk(sites, calls, locks) && call.db in sites
    requires if id in calls then calls[id].(pc := call.pc) == call && HoldsLock(calls[id]) == HoldsLock(call)
             else !HoldsLock(call)
    ensures LocksOk(sites, calls[id := call], locks)
  {
    var calls' := calls[id := call];
    forall path: Path ensures LockInv(sites, calls', locks, path) {
      HoldersAfter(sites, calls, path, id, call);
      assert LockInv(sites, calls, locks, path);
      assert Holders(sites, calls', path) == Holders(sites, calls, path);
    }
  }

  lemma LockTaken(sites: map<Db, Site>, calls: map<CallId, Call>, locks: map<Path, Hold>, id: CallId, locks': map<Path, Hold>)
    requires forall i :: i in calls ==> calls[i].db in sites
    requires LocksOk(sites, calls, locks)
    requires id in calls && calls[id].pc.WantLock? && calls[id].write
    requires var path, me := sites[calls[id].db].path, calls[id].thread;
             && (path in locks ==> locks[path].owner == me)
             && locks' == locks[path := Hold(me, if path in locks then locks[path].depth + 1 else 1)]
    ensures LocksOk(sites, calls[id := calls[id].(pc := TryIdle)], locks')
  {
    hide LockInv;
    var calls' := calls[id := calls[id].(pc := TryIdle)];
    forall path: Path ensures LockInv(sites, calls', locks', path) {
      assert LockInv(sites, calls, locks, path);
      LockTakenOn(sites, calls, locks, id, locks', path);
    }
  }

  lemma LockTakenOn(sites: map<Db, Site>, calls: map<CallId, Call>, locks: map<Path, Hold>, id: CallId, locks': map<Path, Hold>, path: Path)
    requires forall i :: i in calls ==> calls[i].db in sites
    requires LockInv(sites, calls, locks, path)
    requires id in calls && calls[id].pc.WantLock? && calls[id].write
    requires var own, me := sites[calls[id].db].path, calls[id].thread;
             && (own in locks ==> locks[own].owner == me)
             && locks' == locks[own := Hold(me, if own in locks then locks[own].depth + 1 else 1)]
    ensures LockInv(sites, calls[id := calls[id].(pc := TryIdle)], locks', path)
  {
    HoldersAfter(sites, calls, path, id, calls[id].(pc := TryIdle));
    var before := Holders(sites, calls, path);
    assert id !in before;
    assert |before + {id}| == |before| + 1;
  }

  lemma LockReleased(sites: map<Db, Site>, calls: map<CallId, Call>, locks: map<Path, Hold>, id: CallId, outcome: Outcome)
    requires forall i :: i in calls ==> calls[i].db in sites
    requires LocksOk(sites, calls, locks)
    requires id in calls && calls[id].pc.Leaving? && calls[id].write
    ensures sites[calls[id].db].path in locks
    ensures LocksOk(sites, calls[id := calls[id].(pc := Done(outcome))], Unlock(locks, sites[calls[id].db].path))
  {
    var call' := calls[id].(pc := Done(outcome));
    var mine := sites[calls[id].db].path;
    assert LockInv(sites, calls, locks, mine);
    assert id in Holders(sites, calls, mine);
    var calls', locks' := calls[id := call'], Unlock(locks, mine);
    forall path: Path ensures LockInv(sites, calls', locks', path) {
      HoldersAfter(sites, calls, path, id, call');
      assert LockInv(sites, calls, locks, path);
      if path == mine {
        var before := Holders(sites, calls, path);
        assert |before - {id}| == |before| - 1;
        if |before| == 1 {
          assert before - {id} == {};
        }
      }
    }
  }

  lemma LocalKeepsPool(config: Config, calls: map<CallId, Call>, db: Db, p: Pool, lost: nat, id: CallId, a: Action)
    requires PoolInv(config, calls, db, p, lost) && id in calls && calls[id].db == db
    requires Local(config, Live(calls, db, p), p, calls[id], a).Move?
    ensures var m := Local(config, Live(calls, db, p), p, calls[id], a);
            PoolInv(config, calls[id := calls[id].(pc := m.pc)], db, m.pool, lost + m.lost)
  {
    var m := Local(config, Live(calls, db, p), p, calls[id], a);
    LocalBooks(config, Live(calls, db, p), p, calls[id], a);
    OwingAfter(calls, db, id, calls[id].(pc := m.pc));
    LocalKeepsApart(config, calls, db, p, id, a);
    LocalKeepsFlags(config, calls, db, p, id, a);
    hide Local, ConnsApart, FlagsHeld, Owing, Owes, Cap, Live;
  }

  lemma PoolAfterLocal(sites: map<Db, Site>, s: System, id: CallId, a: Action, db: Db)
    requires WellTyped(sites, s) && PoolsOk(sites, s) && id in s.calls && db in sites
    requires MoveOf(sites, s, id, a).Move?
    ensures var s' := After(s, id, MoveOf(sites, s, id, a));
            PoolInv(sites[db].config, s'.calls, db, s'.pools[db], s'.lost[db])
  {
    hide Local, PoolInv, Live;
    var m := MoveOf(sites, s, id, a);
    assert PoolInv(sites[db].config, s.calls, db, s.pools[db], s.lost[db]);
    hide PoolsOk;
    if db == s.calls[id].db {
      LocalKeepsPool(sites[db].config, s.calls, db, s.pools[db], s.lost[db], id, a);
    } else {
      OtherPoolUntouched(sites[db].config, s.calls, db, s.pools[db], s.lost[db], id, s.calls[id].(pc := m.pc));
    }
  }

  lemma LocalPoint(config: Config, live: set<Conn>, p: Pool, call: Call, a: Action)
    requires GivingBack(call.pc) ==> call.pc.outcome.Completed? || call.pc.outcome.BodyError?
    requires Local(config, live, p, call, a).Move?
    ensures var m := Local(config, live, p, call, a);
            && !m.pc.WantLock?
            && (GivingBack(m.pc) ==> m.pc.outcome.Completed? || m.pc.outcome.BodyError?)
            && HoldsLock(call.(pc := m.pc)) == HoldsLock(call)
  {
  }

  lemma LocalKeepsInv(sites: map<Db, Site>, s: System, id: CallId, a: Action)
    requires Inv(sites, s) && id in s.calls && MoveOf(sites, s, id, a).Move?
    requires !s.calls[id].pc.WantLock? || !a.Lock?
    ensures Inv(sites, After(s, id, MoveOf(sites, s, id, a)))
  {
    hide Local, PoolInv, LocksOk, Live, HoldsLock, GivingBack;
    var m := MoveOf(sites, s, id, a);
    var s' := After(s, id, m);
    var call := s.calls[id];
    LocalPoint(sites[call.db].config, Live(s.calls, call.db, s.pools[call.db]), s.pools[call.db], call, a);
    assert WellTyped(sites, s');
    forall db | db in sites ensures PoolInv(sites[db].config, s'.calls, db, s'.pools[db], s'.lost[db]) {
      PoolAfterLocal(sites, s, id, a, db);
    }
    LocksUnaffected(sites, s.calls, s.locks, id, call.(pc := m.pc));
  }

  lemma PoolsUnaffected(sites: map<Db, Site>, s: System, s': System, id: CallId, call: Call)
    requires WellTyped(sites, s) && WellTyped(sites, s') && PoolsOk(sites, s)
    requires id in s.calls ==> s.calls[id].db == call.db && !Owes(s.calls[id].pc)
    requires !Owes(call.pc)
    requires s'.pools == s.pools && s'.lost == s.lost && s'.calls == s.calls[id := call]
    ensures PoolsOk(sites, s')
  {
    hide PoolInv, Owes;
    forall db | db in sites ensures PoolInv(sites[db].config, s'.calls, db, s'.pools[db], s'.lost[db]) {
      OtherPoolUntouched(sites[db].config, s.calls, db, s.pools[db], s.lost[db], id, call);
    }
  }

  lemma BeginKeepsInv(sites: map<Db, Site>, s: System, s': System, id: CallId, a: Action)
    requires Inv(sites, s) && a.Begin? && BeginStep(sites, s, s', id, a)
    ensures Inv(sites, s')
  {
    hide PoolsOk, LocksOk;
    PoolsUnaffected(sites, s, s', id, s'.calls[id]);
    LocksUnaffected(sites, s.calls, s.locks, id, s'.calls[id]);
  }

  lemma LockKeepsInv(sites: map<Db, Site>, s: System, s': System, id: CallId)
    requires Inv(sites, s) && LockStep(sites, s, s', id)
    ensures Inv(sites, s')
  {
    hide PoolsOk, LocksOk;
    PoolsUnaffected(sites, s, s', id, s'.calls[id]);
    LockTaken(sites, s.calls, s.locks, id, s'.locks);
  }

  lemma LeaveKeepsInv(sites: map<Db, Site>, s: System, s': System, id: CallId)
    requires Inv(sites, s) && LeaveStep(sites, s, s', id)
    ensures Inv(sites, s')
  {
    hide PoolsOk, LocksOk, Unlock;
    PoolsUnaffected(sites, s, s', id, s'.calls[id]);
    if s.calls[id].write {
      LockReleased(sites, s.calls, s.locks, id, s.calls[id].pc.outcome);
    } else {
      LocksUnaffected(sites, s.calls, s.locks, id, s'.calls[id]);
    }
  }

  /** Every step of every call keeps the whole invariant. */
  lemma StepKeepsInv(sites: map<Db, Site>, s: System, s': System, id: CallId, a: Action)
    requires Inv(sites, s) && Step(sites, s, s', id, a)
    ensures Inv(sites, s')
  {
    hide Inv, MoveOf, BeginStep, LockStep, LeaveStep, After;
    match a
    case Begin(_, _, _, _) => BeginKeepsInv(sites, s, s', id, a);
    case Lock => LockKeepsInv(sites, s, s', id);
    case Leave => LeaveKeepsInv(sites, s, s', id);
    case _ => LocalKeepsInv(sites, s, id, a);
  }
}
