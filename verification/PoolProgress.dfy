/** No call of the pool protocol is ever stuck: whatever the others have done, it can go on to its end by itself. */
module PoolProgress {
  import opened Pools
  import opened PoolProtocol
  import opened PoolCalls

  /** An action a call can take next when every call into SQLite is answered Ok and nothing is created. */
  function NextAction(p: Pool, pc: Pc): (a: Action)
  {
    match pc
    case WantLock => Lock
    case TryIdle => if p.idle != [] then Take else QueueEmpty
    case Growing(_) => CheckCapacity
    case Creating => CreationFails
    case Abandoning => Abandon
    case Waiting => if p.idle != [] then Take else WaitTimesOut
    case Holding(_) => Mark
    case Using(_) => Finish(false)
    case Returning(_, _) => ReadFlag(Ok)
    case Clearing(_, _) => Clear
    case Checking(_, _) => Check(Ok, Ok)
    case Retiring(_, _) => Drop
    case Refilling(_) => RefillFails
    case Unreserving(_) => Unreserve
    case Failing(_, _) => FailOut
    case Leaving(_) => Leave
    case Done(_) => Leave
  }

  /** How far a call is from its end. */
  function Rank(pc: Pc): (n: nat)
  {
    match pc
    case WantLock => 13
    case TryIdle => 12
    case Growing(waited) => if waited then 4 else 11
    case Waiting => 10
    case Holding(_) => 9
    case Using(_) => 8
    case Returning(_, _) => 7
    case Clearing(_, _) => 6
    case Checking(_, _) => 5
    case Retiring(_, _) => 4
    case Creating => 3
    case Refilling(_) => 3
    case Abandoning => 2
    case Unreserving(_) => 2
    case Failing(_, _) => 2
    case Leaving(_) => 1
    case Done(_) => 0
  }

  lemma LocalAdvances(config: Config, live: set<Conn>, p: Pool, call: Call)
    requires !call.pc.WantLock? && !call.pc.Leaving? && !call.pc.Done?
    ensures var a, m := NextAction(p, call.pc), Local(config, live, p, call, NextAction(p, call.pc));
            && m.Move? && Rank(m.pc) < Rank(call.pc) && !a.Begin? && !a.Lock? && !a.Leave?
            && !m.pc.WantLock?
  {
  }

  /** The call is not kept out by a write lock that another thread holds. */
  predicate MayEnter(sites: map<Db, Site>, s: System, id: CallId) {
    id in s.calls && (s.calls[id].pc.WantLock? ==>
      s.calls[id].db in sites
      && (var path := sites[s.calls[id].db].path; path in s.locks ==> s.locks[path].owner == s.calls[id].thread))
  }

  lemma LockOnLeaving(sites: map<Db, Site>, s: System, id: CallId)
    requires Inv(sites, s) && id in s.calls && s.calls[id].pc.Leaving? && s.calls[id].write
    ensures sites[s.calls[id].db].path in s.locks
  {
    hide PoolsOk, LockInv;
    LockReleased(sites, s.calls, s.locks, id, s.calls[id].pc.outcome);
  }

  lemma Advances(sites: map<Db, Site>, s: System, id: CallId) returns (a: Action, s': System)
    requires Inv(sites, s) && MayEnter(sites, s, id) && !s.calls[id].pc.Done?
    ensures Step(sites, s, s', id, a) && id in s'.calls && Rank(s'.calls[id].pc) < Rank(s.calls[id].pc)
    ensures MayEnter(sites, s', id)
  {
    hide PoolsOk, LocksOk, Local, Live, GivingBack;
    var call := s.calls[id];
    var p := s.pools[call.db];
    a := NextAction(p, call.pc);
    if call.pc.WantLock? {
      var path, me := sites[call.db].path, call.thread;
      s' := s.(locks := s.locks[path := Hold(me, if path in s.locks then s.locks[path].depth + 1 else 1)],
               calls := s.calls[id := call.(pc := TryIdle)]);
    } else if call.pc.Leaving? {
      if call.write {
        LockOnLeaving(sites, s, id);
      }
      s' := s.(locks := if call.write then Unlock(s.locks, sites[call.db].path) else s.locks,
               calls := s.calls[id := call.(pc := Done(call.pc.outcome))]);
    } else {
      LocalAdvances(sites[call.db].config, Live(s.calls, call.db, p), p, call);
      s' := After(s, id, MoveOf(sites, s, id, a));
    }
  }

  lemma EnteringIsACall(sites: map<Db, Site>, s: System, id: CallId)
    requires MayEnter(sites, s, id)
    ensures id in s.calls
  {
  }

  /** In every state the protocol can be in, a call that no other thread's write lock keeps out can reach its end by
      steps of its own alone: no call waits for another, except on a write lock. */
  lemma {:induction false} NoCallIsStuck(sites: map<Db, Site>, s: System, id: CallId) returns (actions: seq<Action>, end: System)
    requires Inv(sites, s) && MayEnter(sites, s, id)
    ensures Solo(sites, s, id, actions, end) && id in end.calls && end.calls[id].pc.Done?
    ensures |actions| <= Rank(s.calls[id].pc)
    decreases Rank(s.calls[id].pc)
  {
    hide Step, Inv, MayEnter;
    assert id in s.calls by {
      EnteringIsACall(sites, s, id);
    }
    if s.calls[id].pc.Done? {
      actions, end := [], s;
    } else {
      var a, mid := Advances(sites, s, id);
      StepKeepsInv(sites, s, mid, id, a);
      hide Solo;
      var rest;
      rest, end := NoCallIsStuck(sites, mid, id);
      actions := [a] + rest;
      assert actions[1..] == rest;
      SoloStep(sites, s, mid, id, actions, end);
    }
  }

  /** A waiting call takes the oldest connection as soon as one is idle. */
  lemma WaiterIsServed(sites: map<Db, Site>, s: System, id: CallId) returns (s': System)
    requires WellTyped(sites, s) && id in s.calls && s.calls[id].pc.Waiting? && s.pools[s.calls[id].db].idle != []
    ensures Step(sites, s, s', id, Take)
    ensures id in s'.calls && s'.calls[id].pc == Holding(s.pools[s.calls[id].db].idle[0])
    ensures s.calls[id].db in s'.pools && s'.pools[s.calls[id].db].idle == s.pools[s.calls[id].db].idle[1..]
  {
    var m, db := MoveOf(sites, s, id, Take), s.calls[id].db;
    assert m == Move(TakeIdle(s.pools[db]), Holding(s.pools[db].idle[0]), 0);
    AfterTyped(sites, s, id, Take);
    s' := After(s, id, m);
    hide Step, MoveOf;
  }
}
