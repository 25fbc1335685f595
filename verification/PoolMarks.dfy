/** The transaction marks of the pools, over whole runs: which connections carry one, and that none taken for a
    transaction is used again before it has been rolled back. */
module PoolMarks {
  import opened Pools
  import opened PoolProtocol
  import opened PoolRuns

  // ---------------------------------------------------------------- one acquisition

  /** After an acquisition the connection handed out is marked exactly when it was asked for a transaction, and no
      other mark has changed. */
  lemma AcquiredMark(p: Pool, config: Config, forTransaction: bool, opening: Opening)
    ensures var (taken, result) := Acquire(p, config, forTransaction, opening);
            forall c :: c in taken.flagged <==> c in p.flagged || (result == Got(c) && forTransaction)
  {
  }

  // ---------------------------------------------------------------- the marks as an invariant

  /** The points from the marking of a connection to the clearing of its mark. */
  predicate InUse(pc: Pc) {
    pc.Using? || pc.Returning? || pc.Clearing?
  }

  /** Seen from one call: its connection, while in use, is marked exactly when it was asked for a transaction. */
  predicate MarkTells(call: Call, p: Pool) {
    && (InUse(call.pc) ==> (call.pc.conn in p.flagged <==> call.forTransaction))
    && (call.pc.Clearing? ==> call.forTransaction)
  }

  ghost predicate MarksTell(calls: map<CallId, Call>, db: Db, p: Pool) {
    forall id :: id in calls && calls[id].db == db ==> MarkTells(calls[id], p)
  }

  ghost predicate AllMarksTell(sites: map<Db, Site>, s: System)
    requires WellTyped(sites, s)
  {
    forall db :: db in sites ==> MarksTell(s.calls, db, s.pools[db])
  }

  /** A local action leaves its call's mark right and changes no other mark. */
  lemma LocalMarks(config: Config, live: set<Conn>, p: Pool, call: Call, a: Action)
    requires Local(config, live, p, call, a).Move?
    requires MarkTells(call, p) && (call.pc.Holding? ==> call.pc.conn !in p.flagged)
    ensures var m := Local(config, live, p, call, a);
            && MarkTells(call.(pc := m.pc), m.pool)
            && forall c :: !(HasConn(call.pc) && call.pc.conn == c) ==> (c in m.pool.flagged <==> c in p.flagged)
  {
  }

  /** Marks of other connections do not matter to a call. */
  lemma OtherMarks(call: Call, p: Pool, p': Pool)
    requires MarkTells(call, p)
    requires HasConn(call.pc) ==> (call.pc.conn in p.flagged <==> call.pc.conn in p'.flagged)
    ensures MarkTells(call, p')
  {
  }

  /** A connection not yet marked carries no mark left over from an earlier call. */
  lemma HeldUnmarked(calls: map<CallId, Call>, db: Db, p: Pool, id: CallId)
    requires ConnsApart(calls, db, p) && FlagsHeld(calls, db, p)
    requires id in calls && calls[id].db == db && HasConn(calls[id].pc) && !MayBeFlagged(calls[id].pc)
    ensures calls[id].pc.conn !in p.flagged
  {
  }

  lemma LocalKeepsMarks(config: Config, calls: map<CallId, Call>, db: Db, p: Pool, id: CallId, a: Action)
    requires ConnsApart(calls, db, p) && FlagsHeld(calls, db, p) && MarksTell(calls, db, p)
    requires id in calls && calls[id].db == db
    requires Local(config, Live(calls, db, p), p, calls[id], a).Move?
    ensures var m := Local(config, Live(calls, db, p), p, calls[id], a);
            MarksTell(calls[id := calls[id].(pc := m.pc)], db, m.pool)
  {
    if calls[id].pc.Holding? {
      HeldUnmarked(calls, db, p, id);
    }
    LocalMarks(config, Live(calls, db, p), p, calls[id], a);
    hide Local, Live, FlagsHeld, MarkTells;
    var m := Local(config, Live(calls, db, p), p, calls[id], a);
    var calls' := calls[id := calls[id].(pc := m.pc)];
    forall other | other in calls' && calls'[other].db == db ensures MarkTells(calls'[other], m.pool) {
      if other != id {
        assert MarkTells(calls[other], p);
        OtherMarks(calls[other], p, m.pool);
      }
    }
  }

  lemma PoolSound(sites: map<Db, Site>, s: System, db: Db)
    requires Inv(sites, s) && db in sites
    ensures db in s.pools && ConnsApart(s.calls, db, s.pools[db]) && FlagsHeld(s.calls, db, s.pools[db])
  {
    hide LocksOk;
    assert PoolInv(sites[db].config, s.calls, db, s.pools[db], s.lost[db]);
  }

  /** A call that holds nothing has no mark to tell. */
  lemma MarksWithCall(calls: map<CallId, Call>, db: Db, p: Pool, id: CallId, call: Call)
    requires MarksTell(calls, db, p) && (call.db == db ==> !InUse(call.pc))
    ensures MarksTell(calls[id := call], db, p)
  {
  }

  lemma StepKeepsMarks(sites: map<Db, Site>, s: System, s': System, id: CallId, a: Action)
    requires Inv(sites, s) && AllMarksTell(sites, s) && Step(sites, s, s', id, a) && WellTyped(sites, s')
    ensures AllMarksTell(sites, s')
  {
    hide Local, Live, PoolsOk, LocksOk, MarksTell, GivingBack, Unlock;
    forall db | db in sites ensures MarksTell(s'.calls, db, s'.pools[db]) {
      assert MarksTell(s.calls, db, s.pools[db]);
      if !a.Begin? && !a.Lock? && !a.Leave? && db == s.calls[id].db {
        PoolSound(sites, s, db);
        LocalKeepsMarks(sites[db].config, s.calls, db, s.pools[db], id, a);
      } else {
        MarksWithCall(s.calls, db, s.pools[db], id, s'.calls[id]);
      }
    }
  }

  lemma {:induction false} RunKeepsMarks(sites: map<Db, Site>, states: seq<System>, events: seq<Event>, i: nat)
    requires Run(sites, states, events) && i < |states|
    ensures Inv(sites, states[i]) && AllMarksTell(sites, states[i])
  {
    hide Step, PoolsOk, LocksOk;
    RunKeepsInv(sites, states, events, i);
    if i > 0 {
      hide WellTyped, AllMarksTell;
      RunKeepsMarks(sites, states, events, i - 1);
      RunSteps(sites, states, events, i - 1);
      StepKeepsMarks(sites, states[i - 1], states[i], events[i - 1].id, events[i - 1].action);
    }
  }

  /** At any moment of a run: a connection being used or returned is marked exactly when it was taken for a
      transaction; only such a one is ever rolled back; and one held before or behind that is not marked. */
  lemma MarkedIffForTransaction(sites: map<Db, Site>, states: seq<System>, events: seq<Event>, i: nat, id: CallId)
    requires Run(sites, states, events) && i < |states|
    requires id in states[i].calls && HasConn(states[i].calls[id].pc)
    ensures states[i].calls[id].db in states[i].pools
    ensures var call := states[i].calls[id];
            var marked := call.pc.conn in states[i].pools[call.db].flagged;
            && (call.pc.Using? || call.pc.Returning? ==> (marked <==> call.forTransaction))
            && (call.pc.Clearing? ==> marked && call.forTransaction)
            && (call.pc.Holding? || call.pc.Checking? || call.pc.Retiring? ==> !marked)
  {
    hide Run, PoolsOk, LocksOk;
    RunKeepsMarks(sites, states, events, i);
    var s := states[i];
    var db := s.calls[id].db;
    assert MarksTell(s.calls, db, s.pools[db]) && MarkTells(s.calls[id], s.pools[db]);
    PoolSound(sites, s, db);
    hide Inv, ConnsApart, FlagsHeld;
    if !MayBeFlagged(s.calls[id].pc) {
      HeldUnmarked(s.calls, db, s.pools[db], id);
    }
  }

  // ---------------------------------------------------------------- rolled back before it is used again

  /** A call for a transaction is behind the roll-back of its connection c and has not let go of it yet. */
  predicate Cleared(s: System, id: CallId, c: Conn) {
    && id in s.calls && s.calls[id].forTransaction
    && (s.calls[id].pc.Clearing? || s.calls[id].pc.Checking? || s.calls[id].pc.Retiring?) && s.calls[id].pc.conn == c
  }

  /** The call reads its connection's mark, and SQLite answers the roll-back. */
  predicate RolledBack(s: System, e: Event, id: CallId, c: Conn) {
    && e.id == id && id in s.calls && s.calls[id].pc.Returning? && s.calls[id].pc.conn == c
    && e.action.ReadFlag? && (e.action.rollback == Ok || e.action.rollback == OperationalError)
  }

  lemma LocalRollsBack(config: Config, live: set<Conn>, p: Pool, call: Call, a: Action)
    requires Local(config, live, p, call, a).Move?
    requires call.forTransaction && MarkTells(call, p)
    ensures var m := Local(config, live, p, call, a);
            m.pc.Clearing? || m.pc.Checking? || m.pc.Retiring? ==>
              && HasConn(call.pc) && call.pc.conn == m.pc.conn
              && (|| call.pc.Clearing? || call.pc.Checking? || call.pc.Retiring?
                  || (call.pc.Returning? && a.ReadFlag? && (a.rollback == Ok || a.rollback == OperationalError)))
  {
  }

  lemma StepRollsBack(sites: map<Db, Site>, s: System, s': System, e: Event, id: CallId, c: Conn)
    requires WellTyped(sites, s) && AllMarksTell(sites, s) && Step(sites, s, s', e.id, e.action)
    requires Cleared(s', id, c)
    ensures Cleared(s, id, c) || RolledBack(s, e, id, c)
  {
    hide Local, Live, MarkTells;
    if id == e.id && !e.action.Begin? && !e.action.Lock? && !e.action.Leave? {
      var call := s.calls[id];
      assert MarksTell(s.calls, call.db, s.pools[call.db]) && MarkTells(call, s.pools[call.db]);
      LocalRollsBack(sites[call.db].config, Live(s.calls, call.db, s.pools[call.db]), s.pools[call.db], call, e.action);
    }
  }

  lemma NoCallYet(sites: map<Db, Site>, states: seq<System>, events: seq<Event>, id: CallId, c: Conn)
    requires Run(sites, states, events)
    ensures !Cleared(states[0], id, c)
  {
    hide Step;
  }

  lemma RunRollsBack(sites: map<Db, Site>, states: seq<System>, events: seq<Event>, i: nat, id: CallId, c: Conn)
    requires Run(sites, states, events) && i < |states| == |events| + 1 && Cleared(states[i], id, c)
    ensures i > 0 && (Cleared(states[i - 1], id, c) || RolledBack(states[i - 1], events[i - 1], id, c))
  {
    hide Step, RolledBack, AllMarksTell, PoolsOk, LocksOk, WellTyped;
    NoCallYet(sites, states, events, id, c);
    hide Cleared, Initialised;
    RunSteps(sites, states, events, i - 1);
    RunKeepsMarks(sites, states, events, i - 1);
    hide Run;
    StepRollsBack(sites, states[i - 1], states[i], events[i - 1], id, c);
  }

  /** Over any run: a connection taken for a transaction gets to the check that can put it back into the queue only
      behind a step of its call at which SQLite answered its roll-back, done or with an operational error. */
  lemma {:induction false} RolledBackBeforeReuse(sites: map<Db, Site>, states: seq<System>, events: seq<Event>, i: nat, id: CallId, c: Conn)
    returns (k: nat)
    requires Run(sites, states, events) && i < |states| == |events| + 1
    requires Cleared(states[i], id, c)
    ensures k < i && RolledBack(states[k], events[k], id, c)
    ensures forall j :: k < j <= i ==> Cleared(states[j], id, c)
  {
    RunRollsBack(sites, states, events, i, id, c);
    hide Run, RolledBack, Cleared;
    if Cleared(states[i - 1], id, c) {
      k := RolledBackBeforeReuse(sites, states, events, i - 1, id, c);
    } else {
      k := i - 1;
    }
  }
}
