/** What holds over whole runs of the pool protocol: accounting, time-outs, write serialisation, and what becomes
    of every connection. */
module PoolRuns {
  import opened Pools
  import opened PoolProtocol

  /** Every pool has just been initialised and no call is open. */
  ghost predicate Initialised(sites: map<Db, Site>, s: System) {
    && s.pools.Keys == sites.Keys && s.lost.Keys == sites.Keys
    && s.calls == map[] && s.locks == map[]
    && forall db :: db in sites ==>
         && s.lost[db] == 0
         && s.pools[db].flagged == {}
         && s.pools[db].count == |s.pools[db].idle| == Initial(sites[db].config)
         && forall i, j :: 0 <= i < j < |s.pools[db].idle| ==> s.pools[db].idle[i] != s.pools[db].idle[j]
  }

  datatype Event = Event(id: CallId, action: Action)

  /** A run: the states visited, one event between each two. */
  ghost predicate Run(sites: map<Db, Site>, states: seq<System>, events: seq<Event>) {
    && |states| == |events| + 1
    && Initialised(sites, states[0])
    && forall i :: 0 <= i < |events| ==> Step(sites, states[i], states[i + 1], events[i].id, events[i].action)
  }

  /** s is a state of some run that starts in `start`. */
  ghost predicate Reachable(sites: map<Db, Site>, start: System, s: System) {
    exists states: seq<System>, events: seq<Event> ::
      Run(sites, states, events) && states[0] == start && states[|states| - 1] == s
  }

  lemma InitialInv(sites: map<Db, Site>, s: System)
    requires Initialised(sites, s)
    ensures Inv(sites, s)
  {
    forall db | db in sites ensures PoolInv(sites[db].config, s.calls, db, s.pools[db], s.lost[db]) {
      assert Owing(s.calls, db) == {};
    }
    forall path: Path ensures LockInv(sites, s.calls, s.locks, path) {
      assert Holders(sites, s.calls, path) == {};
    }
  }

  lemma {:induction false} RunKeepsInv(sites: map<Db, Site>, states: seq<System>, events: seq<Event>, i: nat)
    requires Run(sites, states, events) && i < |states|
    ensures Inv(sites, states[i])
  {
    hide Inv, Step, Initialised;
    if i == 0 {
      InitialInv(sites, states[0]);
    } else {
      RunKeepsInv(sites, states, events, i - 1);
      StepKeepsInv(sites, states[i - 1], states[i], events[i - 1].id, events[i - 1].action);
    }
  }

  lemma ReachableInv(sites: map<Db, Site>, start: System, s: System)
    requires Reachable(sites, start, s)
    ensures Inv(sites, s)
  {
    hide Step, Initialised, Inv;
    var states: seq<System>, events: seq<Event> :|
      Run(sites, states, events) && states[0] == start && states[|states| - 1] == s;
    RunKeepsInv(sites, states, events, |states| - 1);
  }

  function At(calls: map<CallId, Call>, db: Db, where: Pc -> bool): (ids: set<CallId>)
  {
    set id | id in calls && calls[id].db == db && where(calls[id].pc)
  }

  /** Pool accounting: in every reachable state the counter is the idle connections, plus those checked
      out, plus slots reserved for creation, plus dead ones being retired, plus those lost on the return
      error path; and it never passes the cap. */
  lemma PoolAccounting(sites: map<Db, Site>, start: System, s: System, db: Db)
    requires Reachable(sites, start, s) && db in sites
    ensures db in s.pools && db in s.lost
    ensures s.pools[db].count
              == |s.pools[db].idle|
                 + |At(s.calls, db, CheckedOut)| + |At(s.calls, db, Reserved)| + |At(s.calls, db, (pc: Pc) => pc.Retiring?)|
                 + s.lost[db]
    ensures s.pools[db].count <= Cap(sites[db].config)
  {
    ReachableInv(sites, start, s);
    hide Reachable, LocksOk;
    assert PoolInv(sites[db].config, s.calls, db, s.pools[db], s.lost[db]);
    hide ConnsApart, FlagsHeld, Cap;
    OwingSplits(s.calls, db);
  }

  lemma OwingSplits(calls: map<CallId, Call>, db: Db)
    ensures |Owing(calls, db)|
         == |At(calls, db, CheckedOut)| + |At(calls, db, Reserved)| + |At(calls, db, (pc: Pc) => pc.Retiring?)|
  {
    var out, reserved, retiring := At(calls, db, CheckedOut), At(calls, db, Reserved), At(calls, db, (pc: Pc) => pc.Retiring?);
    forall pc ensures OneClass(pc) {
    }
    hide CheckedOut, Reserved, Owes;
    forall id ensures id in Owing(calls, db) <==> id in out || id in reserved || id in retiring {
      assert id in calls ==> OneClass(calls[id].pc);
    }
    assert Owing(calls, db) == (out + reserved) + retiring;
    forall id ensures !(id in out && id in reserved) && !(id in out && id in retiring) && !(id in reserved && id in retiring) {
      assert id in calls ==> OneClass(calls[id].pc);
    }
    assert out !! reserved && out + reserved !! retiring;
  }

  /** A call that accounts for a connection does so in exactly one way. */
  predicate OneClass(pc: Pc) {
    && (Owes(pc) <==> CheckedOut(pc) || Reserved(pc) || pc.Retiring?)
    && !(CheckedOut(pc) && Reserved(pc)) && !(CheckedOut(pc) && pc.Retiring?) && !(Reserved(pc) && pc.Retiring?)
  }

  ghost predicate NeverExceeds(sites: map<Db, Site>, start: System, db: Db, bound: int) {
    forall s :: Reachable(sites, start, s) && db in s.pools ==> s.pools[db].count <= bound
  }

  /** The counter stays within max_connections in every reachable state exactly when the configuration
      does not ask for more initial connections than that. */
  lemma MaximumRespected(sites: map<Db, Site>, start: System, db: Db)
    requires Initialised(sites, start) && db in sites
    ensures NeverExceeds(sites, start, db, sites[db].config.maxConnections)
       <==> Initial(sites[db].config) <= sites[db].config.maxConnections
  {
    var config := sites[db].config;
    if Initial(config) <= config.maxConnections {
      forall s | Reachable(sites, start, s) && db in s.pools
        ensures s.pools[db].count <= config.maxConnections
      {
        PoolAccounting(sites, start, s, db);
      }
    } else {
      var states := [start];
      assert Run(sites, states, []) && states[|states| - 1] == start;
      assert Reachable(sites, start, start);
    }
  }

  /** The counter moves exactly like this: up when a slot is reserved below the maximum; down when a slot is given up
      after a failed creation, or when a dead connection is dropped above the minimum. */
  lemma CounterMoves(config: Config, live: set<Conn>, p: Pool, call: Call, a: Action)
    requires Local(config, live, p, call, a).Move?
    ensures Local(config, live, p, call, a).pool.count
         == if a.CheckCapacity? && p.count < config.maxConnections then p.count + 1
            else if a.Abandon? || a.Unreserve? || (a.Drop? && p.count > config.minConnections) then p.count - 1
            else p.count
  {
  }

  /** The step gives up the slot of a connection of db that could not be created. */
  predicate GivesUpSlot(s: System, e: Event, db: Db) {
    (e.action.Abandon? || e.action.Unreserve?) && OnDb(s, e.id, db)
  }

  /** How many steps of the run so far gave up a slot of db. */
  function SlotsGivenUp(states: seq<System>, events: seq<Event>, db: Db, i: nat): (n: nat)
    requires i <= |events| < |states|
  {
    if i == 0 then 0 else SlotsGivenUp(states, events, db, i - 1) + (if GivesUpSlot(states[i - 1], events[i - 1], db) then 1 else 0)
  }

  lemma StepKeepsMinimum(sites: map<Db, Site>, s: System, s': System, e: Event, db: Db, lacking: nat)
    requires Step(sites, s, s', e.id, e.action) && db in sites && db in s.pools
    requires s.pools[db].count >= sites[db].config.minConnections - lacking
    ensures db in s'.pools
    ensures s'.pools[db].count >= sites[db].config.minConnections - lacking - (if GivesUpSlot(s, e, db) then 1 else 0)
  {
    hide Local, Live, GivingBack;
    var a := e.action;
    if !a.Begin? && !a.Lock? && !a.Leave? && s.calls[e.id].db == db {
      CounterMoves(sites[db].config, Live(s.calls, db, s.pools[db]), s.pools[db], s.calls[e.id], a);
    }
  }

  /** Over any run the counter is below the configured minimum by no more than the number of slots given up because a
      connection could not be created. */
  lemma {:induction false} MinimumKept(sites: map<Db, Site>, states: seq<System>, events: seq<Event>, i: nat, db: Db)
    requires Run(sites, states, events) && i <= |events| < |states| && db in sites
    ensures db in states[i].pools
    ensures states[i].pools[db].count >= sites[db].config.minConnections - SlotsGivenUp(states, events, db, i)
  {
    hide Step, GivesUpSlot;
    if i > 0 {
      hide Initialised;
      MinimumKept(sites, states, events, i - 1, db);
      RunSteps(sites, states, events, i - 1);
      StepKeepsMinimum(sites, states[i - 1], states[i], events[i - 1], db, SlotsGivenUp(states, events, db, i - 1));
    }
  }

  /** No idle connection is flagged as being in a transaction, and the connections of a pool are all
      different: idle ones from each other and from those in the hands of calls. */
  lemma IdleNeverFlagged(sites: map<Db, Site>, start: System, s: System, db: Db)
    requires Reachable(sites, start, s) && db in sites
    ensures db in s.pools
    ensures forall k :: 0 <= k < |s.pools[db].idle| ==> s.pools[db].idle[k] !in s.pools[db].flagged
    ensures ConnsApart(s.calls, db, s.pools[db])
  {
    ReachableInv(sites, start, s);
    hide Reachable, LocksOk;
    assert PoolInv(sites[db].config, s.calls, db, s.pools[db], s.lost[db]);
    hide PoolsOk;
    forall c | c in s.pools[db].flagged ensures c !in s.pools[db].idle {
      var owner :| FlagOwner(s.calls, db, c, owner);
    }
  }

  predicate TimedOutCall(pc: Pc) {
    pc == Leaving(PoolTimeout) || pc == Done(PoolTimeout)
  }

  /** The step at which a call gives up waiting: its last capacity check, and the pool is full. */
  ghost predicate SawFull(sites: map<Db, Site>, s: System, id: CallId) {
    && id in s.calls && s.calls[id].pc == Growing(true)
    && s.calls[id].db in sites && s.calls[id].db in s.pools
    && s.pools[s.calls[id].db].count >= sites[s.calls[id].db].config.maxConnections
  }

  lemma LocalTimeout(config: Config, live: set<Conn>, p: Pool, call: Call, a: Action)
    requires Local(config, live, p, call, a).Move?
    requires GivingBack(call.pc) ==> call.pc.outcome.Completed? || call.pc.outcome.BodyError?
    requires TimedOutCall(Local(config, live, p, call, a).pc)
    ensures call.pc == Growing(true) && p.count >= config.maxConnections
  {
  }

  lemma TimeoutStep(sites: map<Db, Site>, s: System, s': System, id: CallId, actor: CallId, a: Action)
    requires Step(sites, s, s', actor, a)
    requires id in s'.calls && TimedOutCall(s'.calls[id].pc)
    ensures id in s.calls && (TimedOutCall(s.calls[id].pc) || SawFull(sites, s, id))
  {
    hide Local, Live;
    if !a.Begin? && !a.Lock? && !a.Leave? && id == actor {
      var call := s.calls[id];
      var p := s.pools[call.db];
      LocalTimeout(sites[call.db].config, Live(s.calls, call.db, p), p, call, a);
    }
  }

  /** A call ends in a pool timeout only if the last capacity check of its own run found the pool full;
      at that moment, when the configuration is sensible, the counter is exactly the maximum. */
  lemma {:induction false} TimeoutMeansFull(sites: map<Db, Site>, states: seq<System>, events: seq<Event>, i: nat, id: CallId)
    returns (j: nat)
    requires Run(sites, states, events) && i < |states|
    requires id in states[i].calls && TimedOutCall(states[i].calls[id].pc)
    ensures j < i && SawFull(sites, states[j], id)
    ensures forall k :: j < k <= i ==> id in states[k].calls && TimedOutCall(states[k].calls[id].pc)
    ensures var config := sites[states[j].calls[id].db].config;
            Initial(config) <= config.maxConnections
            ==> states[j].pools[states[j].calls[id].db].count == config.maxConnections
  {
    hide Step, TimedOutCall;
    assert i > 0 by {
      assert states[0].calls == map[];
    }
    assert Step(sites, states[i - 1], states[i], events[i - 1].id, events[i - 1].action);
    TimeoutStep(sites, states[i - 1], states[i], id, events[i - 1].id, events[i - 1].action);
    if TimedOutCall(states[i - 1].calls[id].pc) {
      j := TimeoutMeansFull(sites, states, events, i - 1, id);
    } else {
      j := i - 1;
      RunKeepsInv(sites, states, events, j);
      var db := states[j].calls[id].db;
      assert PoolInv(sites[db].config, states[j].calls, db, states[j].pools[db], states[j].lost[db]);
    }
  }

  /** Write serialisation: over all pools that share a path, all calls holding a connection for writing
      belong to one thread, the owner of the path's lock. Calls still queued on the lock, and calls that
      have ended, hold no connection. */
  lemma OneWriterPerPath(sites: map<Db, Site>, start: System, s: System, a: CallId, b: CallId)
    requires Reachable(sites, start, s)
    requires a in s.calls && b in s.calls
    ensures s.calls[a].db in sites && s.calls[b].db in sites
    ensures s.calls[a].pc.WantLock? || s.calls[a].pc.Done? ==> !Owes(s.calls[a].pc)
    ensures var path := sites[s.calls[a].db].path;
            s.calls[a].write && HasConn(s.calls[a].pc) ==>
              && path in s.locks && s.locks[path].owner == s.calls[a].thread
              && (path == sites[s.calls[b].db].path && s.calls[b].write && HasConn(s.calls[b].pc)
                  ==> s.calls[a].thread == s.calls[b].thread)
  {
    hide Reachable, PoolsOk, LocksOk, GivingBack;
    ReachableInv(sites, start, s);
    HeldByOwner(sites, s.calls, s.locks, a);
    HeldByOwner(sites, s.calls, s.locks, b);
  }

  lemma HeldByOwner(sites: map<Db, Site>, calls: map<CallId, Call>, locks: map<Path, Hold>, id: CallId)
    requires forall i :: i in calls ==> calls[i].db in sites
    requires LocksOk(sites, calls, locks) && id in calls
    ensures HoldsLock(calls[id]) ==>
              sites[calls[id].db].path in locks
              && locks[sites[calls[id].db].path].owner == calls[id].thread
  {
    var path := sites[calls[id].db].path;
    assert LockInv(sites, calls, locks, path);
    if HoldsLock(calls[id]) {
      assert id in Holders(sites, calls, path);
    }
  }

  /** A call gives its connection up in exactly three ways: back into the queue, retired because it is
      dead, or counted as lost on the error path. */
  lemma ConnectionGivenBack(config: Config, live: set<Conn>, p: Pool, call: Call, a: Action)
    requires Local(config, live, p, call, a).Move?
    requires HasConn(call.pc)
    ensures var m := Local(config, live, p, call, a);
            if HasConn(m.pc) then m.pc.conn == call.pc.conn && m.lost == 0
            else
              || (m.pool.idle == p.idle + [call.pc.conn] && m.lost == 0)
              || (call.pc.Retiring? && m.pool == Retire(p, config) && m.lost == 0)
              || (call.pc.Failing? && m.lost == 1)
  {
  }

  /** How the step from one state to the next takes connection c from a call of database db: to the end of the queue,
      out of the pool because it is dead, or into the count of the lost. */
  ghost predicate GivenUp(sites: map<Db, Site>, s: System, s': System, db: Db, c: Conn) {
    && db in sites && db in s.pools && db in s'.pools && db in s.lost && db in s'.lost
    && (|| (s'.pools[db].idle == s.pools[db].idle + [c] && s'.lost[db] == s.lost[db])
        || (s'.pools[db] == Retire(s.pools[db], sites[db].config) && s'.lost[db] == s.lost[db])
        || s'.lost[db] == s.lost[db] + 1)
  }

  ghost predicate HoldsConn(s: System, id: CallId, c: Conn) {
    id in s.calls && HasConn(s.calls[id].pc) && s.calls[id].pc.conn == c
  }

  /** A step leaves a call in being and on its database. */
  lemma StepKeepsCall(sites: map<Db, Site>, s: System, s': System, actor: CallId, a: Action, id: CallId, db: Db)
    requires Step(sites, s, s', actor, a) && OnDb(s, id, db)
    ensures OnDb(s', id, db)
  {
    hide MoveOf, WellTyped, Unlock;
  }

  /** A step either leaves a call its connection or is one of the call's own that gives it up. */
  lemma StepGivesUp(sites: map<Db, Site>, s: System, s': System, actor: CallId, a: Action, id: CallId, db: Db, c: Conn)
    requires Step(sites, s, s', actor, a) && OnDb(s, id, db) && HoldsConn(s, id, c) && !HoldsConn(s', id, c)
    ensures actor == id && GivenUp(sites, s, s', db, c)
  {
    hide Local, Live;
    if !a.Begin? && !a.Lock? && !a.Leave? && id == actor {
      var call := s.calls[id];
      var p := s.pools[db];
      ConnectionGivenBack(sites[db].config, Live(s.calls, db, p), p, call, a);
    }
  }

  lemma RunSteps(sites: map<Db, Site>, states: seq<System>, events: seq<Event>, k: nat)
    requires Run(sites, states, events) && k + 1 < |states|
    ensures |states| == |events| + 1
    ensures Step(sites, states[k], states[k + 1], events[k].id, events[k].action)
  {
    hide Step, Initialised;
  }

  /** Over any run: when a call that once held a connection no longer does, there is the step of its own at which
      the connection went back into the queue, was retired as dead, or was counted as lost. */
  lemma {:induction false} HeldUntilGivenUp(sites: map<Db, Site>, states: seq<System>, events: seq<Event>, j: nat, i: nat,
                                            id: CallId, db: Db, c: Conn)
    returns (k: nat)
    requires Run(sites, states, events) && j < i < |states| == |events| + 1
    requires OnDb(states[j], id, db) && HoldsConn(states[j], id, c) && !HoldsConn(states[i], id, c)
    ensures j <= k < i && events[k].id == id
    ensures HoldsConn(states[k], id, c) && !HoldsConn(states[k + 1], id, c)
    ensures GivenUp(sites, states[k], states[k + 1], db, c)
    decreases i
  {
    hide Run, Step, GivenUp, HoldsConn, OnDb;
    if HoldsConn(states[i - 1], id, c) {
      k := i - 1;
      RunSteps(sites, states, events, k);
      StaysOnDb(sites, states, events, j, k, id, db);
      StepGivesUp(sites, states[k], states[k + 1], events[k].id, events[k].action, id, db, c);
    } else {
      k := HeldUntilGivenUp(sites, states, events, j, i - 1, id, db, c);
    }
  }

  predicate OnDb(s: System, id: CallId, db: Db) {
    id in s.calls && s.calls[id].db == db
  }

  lemma {:induction false} StaysOnDb(sites: map<Db, Site>, states: seq<System>, events: seq<Event>, j: nat, i: nat, id: CallId, db: Db)
    requires Run(sites, states, events) && j <= i < |states| && OnDb(states[j], id, db)
    ensures OnDb(states[i], id, db)
    decreases i
  {
    hide Run, Step, OnDb;
    if j < i {
      RunSteps(sites, states, events, i - 1);
      StaysOnDb(sites, states, events, j, i - 1, id, db);
      StepKeepsCall(sites, states[i - 1], states[i], events[i - 1].id, events[i - 1].action, id, db);
    }
  }

  /** The call's block has ended, by an exception or not, and the call is on its way out or over. */
  predicate Ended(s: System, id: CallId, failed: bool) {
    id in s.calls
    && (var pc := s.calls[id].pc;
        (GivingBack(pc) || pc.Leaving? || pc.Done?) && pc.outcome == (if failed then BodyError else Completed))
  }

  lemma LocalEnds(config: Config, live: set<Conn>, p: Pool, call: Call, a: Action, failed: bool)
    requires Local(config, live, p, call, a).Move?
    ensures var pc, before := Local(config, live, p, call, a).pc, call.pc;
            (GivingBack(pc) || pc.Leaving? || pc.Done?) && pc.outcome == (if failed then BodyError else Completed)
            ==> || (before.Using? && a == Finish(failed))
                || ((GivingBack(before) || before.Leaving? || before.Done?) && before.outcome == pc.outcome)
  {
  }

  lemma StepEnds(sites: map<Db, Site>, s: System, s': System, e: Event, id: CallId, failed: bool)
    requires Step(sites, s, s', e.id, e.action) && Ended(s', id, failed)
    ensures Ended(s, id, failed) || (e.id == id && e.action == Finish(failed))
  {
    hide Local, Live, GivingBack;
    var a := e.action;
    if !a.Begin? && !a.Lock? && !a.Leave? && id == e.id {
      var call := s.calls[id];
      var p := s.pools[call.db];
      LocalEnds(sites[call.db].config, Live(s.calls, call.db, p), p, call, a, failed);
    } else if (a.Begin? || a.Lock?) && id == e.id {
      BegunIsNotEnded(s'.calls[id].pc);
    }
  }

  lemma BegunIsNotEnded(pc: Pc)
    requires pc.WantLock? || pc.TryIdle?
    ensures !(GivingBack(pc) || pc.Leaving? || pc.Done?)
  {
  }

  lemma NoneEnded(sites: map<Db, Site>, states: seq<System>, events: seq<Event>, id: CallId, failed: bool)
    requires Run(sites, states, events)
    ensures !Ended(states[0], id, failed)
  {
    hide Step;
  }

  /** Over any run: a call leaves with an error of its block, or without one, only if its block ended that way. */
  lemma {:induction false} OutcomeIsTheBlocks(sites: map<Db, Site>, states: seq<System>, events: seq<Event>, i: nat, id: CallId, failed: bool)
    returns (k: nat)
    requires Run(sites, states, events) && i < |states| == |events| + 1 && Ended(states[i], id, failed)
    ensures k < i && events[k] == Event(id, Finish(failed))
  {
    hide Step, Ended;
    NoneEnded(sites, states, events, id, failed);
    hide Initialised;
    assert i > 0;
    RunSteps(sites, states, events, i - 1);
    StepEnds(sites, states[i - 1], states[i], events[i - 1], id, failed);
    if Ended(states[i - 1], id, failed) {
      k := OutcomeIsTheBlocks(sites, states, events, i - 1, id, failed);
    } else {
      k := i - 1;
    }
  }

  /** The call has not waited yet and is about to make a connection. */
  predicate GrowsAtOnce(s: System, id: CallId) {
    id in s.calls && s.calls[id].pc == Growing(false)
  }

  predicate SawEmpty(s: System, id: CallId) {
    id in s.calls && s.calls[id].db in s.pools && s.pools[s.calls[id].db].idle == []
  }

  lemma StepGrows(sites: map<Db, Site>, s: System, s': System, e: Event, id: CallId)
    requires Step(sites, s, s', e.id, e.action) && GrowsAtOnce(s', id)
    ensures GrowsAtOnce(s, id) || (e.id == id && SawEmpty(s, id))
  {
    hide Local, Live, GivingBack;
    var a := e.action;
    if !a.Begin? && !a.Lock? && !a.Leave? && id == e.id {
      var call := s.calls[id];
      var p := s.pools[call.db];
      LocalGrows(sites[call.db].config, Live(s.calls, call.db, p), p, call, a);
    }
  }

  lemma LocalGrows(config: Config, live: set<Conn>, p: Pool, call: Call, a: Action)
    requires Local(config, live, p, call, a).Move? && Local(config, live, p, call, a).pc == Growing(false)
    ensures call.pc == Growing(false) || p.idle == []
  {
  }

  lemma NoneGrows(sites: map<Db, Site>, states: seq<System>, events: seq<Event>, id: CallId)
    requires Run(sites, states, events)
    ensures !GrowsAtOnce(states[0], id)
  {
    hide Step;
  }

  /** Over any run: a call tries to make a connection without waiting only behind a step of its own that found no idle
      connection in the queue. */
  lemma {:induction false} GrowsOnlyWhenEmpty(sites: map<Db, Site>, states: seq<System>, events: seq<Event>, i: nat, id: CallId)
    returns (k: nat)
    requires Run(sites, states, events) && i < |states| == |events| + 1 && GrowsAtOnce(states[i], id)
    ensures k < i && events[k].id == id && SawEmpty(states[k], id)
    ensures forall j :: k < j <= i ==> GrowsAtOnce(states[j], id)
  {
    hide Step, GrowsAtOnce, SawEmpty;
    NoneGrows(sites, states, events, id);
    hide Initialised;
    assert i > 0;
    RunSteps(sites, states, events, i - 1);
    StepGrows(sites, states[i - 1], states[i], events[i - 1], id);
    if GrowsAtOnce(states[i - 1], id) {
      k := GrowsOnlyWhenEmpty(sites, states, events, i - 1, id);
    } else {
      k := i - 1;
    }
  }

  /** Once every call has ended, whatever way each ended, no write lock is held, no connection is
      flagged, and every connection not lost is back in its queue. */
  lemma QuiescentPoolsAreWhole(sites: map<Db, Site>, start: System, s: System, db: Db)
    requires Reachable(sites, start, s) && db in sites
    requires forall id :: id in s.calls ==> s.calls[id].pc.Done?
    ensures s.locks == map[]
    ensures db in s.pools && db in s.lost
    ensures s.pools[db].flagged == {}
    ensures s.pools[db].count == |s.pools[db].idle| + s.lost[db]
  {
    hide Reachable, LocksOk, GivingBack, PoolInv;
    ReachableInv(sites, start, s);
    NoLocksLeft(sites, s.calls, s.locks);
    NothingOwed(sites[db].config, s.calls, db, s.pools[db], s.lost[db]);
  }

  lemma NothingOwed(config: Config, calls: map<CallId, Call>, db: Db, p: Pool, lost: nat)
    requires PoolInv(config, calls, db, p, lost)
    requires forall id :: id in calls ==> calls[id].pc.Done?
    ensures p.flagged == {} && p.count == |p.idle| + lost
  {
    assert Owing(calls, db) == {};
    forall c ensures c !in p.flagged {
      assert forall id :: !FlagOwner(calls, db, c, id);
    }
  }

  lemma NoLocksLeft(sites: map<Db, Site>, calls: map<CallId, Call>, locks: map<Path, Hold>)
    requires forall i :: i in calls ==> calls[i].db in sites && calls[i].pc.Done?
    requires LocksOk(sites, calls, locks)
    ensures locks == map[]
  {
    forall path: Path ensures path !in locks {
      assert LockInv(sites, calls, locks, path);
      assert Holders(sites, calls, path) == {};
    }
  }
}
