/** The pool's two calls, as the class runs them without interference, are runs of the step relation. */
module PoolCalls {
  import opened Pools
  import opened PoolProtocol

  /** The live connections of a pool, from the point of view of one call and what all other calls hold. */
  function LiveFor(others: set<Conn>, p: Pool, pc: Pc): (live: set<Conn>)
  {
    (set c | c in p.idle) + others + (if HasConn(pc) then {pc.conn} else {})
  }

  /** A call's own actions performed one after another while the other calls stand still; NoMove when one of
      them is not enabled. `lost` adds up. */
  function Alone(config: Config, others: set<Conn>, p: Pool, call: Call, actions: seq<Action>): (m: Move)
    decreases |actions|
  {
    if actions == [] then Move(p, call.pc, 0)
    else
      var m := Local(config, LiveFor(others, p, call.pc), p, call, actions[0]);
      if m.NoMove? then NoMove
      else
        var rest := Alone(config, others, m.pool, call.(pc := m.pc), actions[1..]);
        if rest.NoMove? then NoMove else rest.(lost := m.lost + rest.lost)
  }

  lemma AloneStep(config: Config, others: set<Conn>, p: Pool, call: Call, a: Action, rest: seq<Action>)
    ensures var m := Local(config, LiveFor(others, p, call.pc), p, call, a);
            Alone(config, others, p, call, [a] + rest)
              == if m.NoMove? then NoMove
                 else
                   var after := Alone(config, others, m.pool, call.(pc := m.pc), rest);
                   if after.NoMove? then NoMove else after.(lost := m.lost + after.lost)
  {
    assert ([a] + rest)[1..] == rest;
  }

  lemma AloneLast(config: Config, others: set<Conn>, p: Pool, call: Call, a: Action)
    ensures Alone(config, others, p, call, [a]) == Local(config, LiveFor(others, p, call.pc), p, call, a)
    ensures Alone(config, others, p, call, []) == Move(p, call.pc, 0)
  {
    assert [a][1..] == [];
  }

  /** The connection the system opens has an id that no idle connection and no other call's connection has. */
  predicate IsFresh(opening: Opening, others: set<Conn>, p: Pool) {
    opening.Opened? ==> opening.conn !in others && opening.conn !in p.idle
  }

  lemma FreshIsNew(opening: Opening, others: set<Conn>, p: Pool, pc: Pc)
    requires IsFresh(opening, others, p) && !HasConn(pc)
    ensures opening.Opened? ==> opening.conn !in LiveFor(others, p, pc)
  {
  }

  lemma FreshUnflagged(opening: Opening, others: set<Conn>, p: Pool, c: Conn)
    requires IsFresh(opening, others, p)
    ensures IsFresh(opening, others, Unflag(p, c))
  {
  }

  function AcquireActions(p: Pool, config: Config, opening: Opening): (actions: seq<Action>)
  {
    if p.idle != [] then [Take] + [Mark]
    else if !CanGrow(p, config) then [QueueEmpty] + ([CheckCapacity] + ([WaitTimesOut] + [CheckCapacity]))
    else if opening.Opened? then [QueueEmpty] + ([CheckCapacity] + ([Created(opening.conn)] + [Mark]))
    else [QueueEmpty] + ([CheckCapacity] + ([CreationFails] + [Abandon]))
  }

  /** `get_connection` with the other calls standing still: same pool, same outcome. */
  lemma AcquireAlone(config: Config, others: set<Conn>, p: Pool, call: Call, opening: Opening)
    requires call.pc.TryIdle? && IsFresh(opening, others, p)
    ensures var (p', result) := Acquire(p, config, call.forTransaction, opening);
            Alone(config, others, p, call, AcquireActions(p, config, opening))
              == Move(p', match result
                          case Got(c) => Using(c)
                          case TimedOut => Leaving(PoolTimeout)
                          case CreateFailed => Leaving(CreateError), 0)
  {
    if p.idle != [] {
      hide Alone;
      AloneStep(config, others, p, call, Take, [Mark]);
      AloneLast(config, others, TakeIdle(p), call.(pc := Holding(p.idle[0])), Mark);
    } else if !CanGrow(p, config) {
      AcquireWaits(config, others, p, call);
    } else if opening.Opened? {
      AcquireOpens(config, others, p, call, opening.conn);
    } else {
      AcquireFails(config, others, p, call);
    }
  }

  lemma AcquireWaits(config: Config, others: set<Conn>, p: Pool, call: Call)
    requires call.pc.TryIdle? && p.idle == [] && !CanGrow(p, config)
    ensures Alone(config, others, p, call, [QueueEmpty] + ([CheckCapacity] + ([WaitTimesOut] + [CheckCapacity])))
         == Move(p, Leaving(PoolTimeout), 0)
  {
    hide Alone, LiveFor;
    AloneStep(config, others, p, call, QueueEmpty, [CheckCapacity] + ([WaitTimesOut] + [CheckCapacity]));
    AloneStep(config, others, p, call.(pc := Growing(false)), CheckCapacity, [WaitTimesOut] + [CheckCapacity]);
    AloneStep(config, others, p, call.(pc := Waiting), WaitTimesOut, [CheckCapacity]);
    AloneLast(config, others, p, call.(pc := Growing(true)), CheckCapacity);
  }

  lemma AcquireOpens(config: Config, others: set<Conn>, p: Pool, call: Call, c: Conn)
    requires call.pc.TryIdle? && p.idle == [] && CanGrow(p, config) && c !in others
    ensures Alone(config, others, p, call, [QueueEmpty] + ([CheckCapacity] + ([Created(c)] + [Mark])))
         == Move(Flag(Reserve(p), c, call.forTransaction), Using(c), 0)
  {
    var last := [Created(c)] + [Mark];
    assert c !in LiveFor(others, Reserve(p), Creating);
    hide Alone, LiveFor;
    AloneStep(config, others, p, call, QueueEmpty, [CheckCapacity] + last);
    AloneStep(config, others, p, call.(pc := Growing(false)), CheckCapacity, last);
    AloneStep(config, others, Reserve(p), call.(pc := Creating), Created(c), [Mark]);
    AloneLast(config, others, Reserve(p), call.(pc := Holding(c)), Mark);
  }

  lemma AcquireFails(config: Config, others: set<Conn>, p: Pool, call: Call)
    requires call.pc.TryIdle? && p.idle == [] && CanGrow(p, config)
    ensures Alone(config, others, p, call, [QueueEmpty] + ([CheckCapacity] + ([CreationFails] + [Abandon])))
         == Move(p, Leaving(CreateError), 0)
  {
    hide Alone, LiveFor;
    var last := [CreationFails] + [Abandon];
    AloneStep(config, others, p, call, QueueEmpty, [CheckCapacity] + last);
    AloneStep(config, others, p, call.(pc := Growing(false)), CheckCapacity, last);
    AloneStep(config, others, Reserve(p), call.(pc := Creating), CreationFails, [Abandon]);
    AloneLast(config, others, Reserve(p), call.(pc := Abandoning), Abandon);
    assert Release(Reserve(p)) == p;
  }

  /** The steps of `return_connection` after its validity check. */
  function DisposeActions(p: Pool, config: Config, check: Reply, close: Reply, opening: Opening): (actions: seq<Action>)
  {
    if check == Ok then []
    else if check == OtherError || close == OtherError then [FailOut]
    else if !NeedsRefill(p, config) then [Drop]
    else if opening.Opened? then [Drop] + [Refilled(opening.conn)]
    else [Drop] + ([RefillFails] + [Unreserve])
  }

  function GiveBackActions(p: Pool, config: Config, c: Conn, rollback: Reply, check: Reply, close: Reply, opening: Opening): (actions: seq<Action>)
  {
    var dispose := [Check(check, close)] + DisposeActions(p, config, check, close, opening);
    if c !in p.flagged then [ReadFlag(rollback)] + dispose
    else if rollback == SqlError || rollback == OtherError then [ReadFlag(rollback)] + [FailOut]
    else [ReadFlag(rollback)] + ([Clear] + dispose)
  }

  lemma DisposeAlone(config: Config, others: set<Conn>, p: Pool, call: Call, check: Reply, close: Reply, opening: Opening)
    requires call.pc.Checking? && call.pc.conn !in p.flagged && IsFresh(opening, others, p)
    ensures var m := Alone(config, others, p, call, [Check(check, close)] + DisposeActions(p, config, check, close, opening));
            m == Move(GiveBack(p, config, call.pc.conn, Ok, check, close, opening), Leaving(call.pc.outcome),
                      if check != Ok && (check == OtherError || close == OtherError) then 1 else 0)
  {
    hide Alone, LiveFor, IsFresh;
    var c, outcome := call.pc.conn, call.pc.outcome;
    assert Unflag(p, c) == p;
    AloneStep(config, others, p, call, Check(check, close), DisposeActions(p, config, check, close, opening));
    if check == Ok {
      AloneLast(config, others, PutIdle(p, c), call.(pc := Leaving(outcome)), Leave);
    } else if check == OtherError || close == OtherError {
      AloneLast(config, others, p, call.(pc := Failing(c, outcome)), FailOut);
    } else {
      RetireAlone(config, others, p, call.(pc := Retiring(c, outcome)), opening);
    }
  }

  /** A dead connection is dropped and, where needed, replaced. */
  lemma RetireAlone(config: Config, others: set<Conn>, p: Pool, call: Call, opening: Opening)
    requires call.pc.Retiring? && IsFresh(opening, others, p)
    ensures Alone(config, others, p, call,
                  if !NeedsRefill(p, config) then [Drop]
                  else if opening.Opened? then [Drop] + [Refilled(opening.conn)]
                  else [Drop] + ([RefillFails] + [Unreserve]))
         == Move(if !NeedsRefill(p, config) then Release(p) else if opening.Opened? then PutIdle(p, opening.conn) else Release(p),
                 Leaving(call.pc.outcome), 0)
  {
    hide Alone, LiveFor, IsFresh;
    var refilling := call.(pc := Refilling(call.pc.outcome));
    if !NeedsRefill(p, config) {
      AloneLast(config, others, p, call, Drop);
    } else if opening.Opened? {
      FreshIsNew(opening, others, p, refilling.pc);
      AloneStep(config, others, p, call, Drop, [Refilled(opening.conn)]);
      AloneLast(config, others, p, refilling, Refilled(opening.conn));
    } else {
      AloneStep(config, others, p, call, Drop, [RefillFails] + [Unreserve]);
      AloneStep(config, others, p, refilling, RefillFails, [Unreserve]);
      AloneLast(config, others, p, call.(pc := Unreserving(call.pc.outcome)), Unreserve);
    }
  }

  lemma DisposeIgnoresFlags(p: Pool, config: Config, c: Conn, check: Reply, close: Reply, opening: Opening)
    ensures DisposeActions(Unflag(p, c), config, check, close, opening) == DisposeActions(p, config, check, close, opening)
    ensures GiveBack(Unflag(p, c), config, c, Ok, check, close, opening) == GiveBack(p, config, c, Ok, check, close, opening)
  {
    assert Unflag(Unflag(p, c), c) == Unflag(p, c);
  }

  lemma GiveBackSplits(p: Pool, config: Config, c: Conn, rollback: Reply, check: Reply, close: Reply, opening: Opening)
    ensures GiveBack(p, config, c, rollback, check, close, opening)
         == if c in p.flagged && (rollback == SqlError || rollback == OtherError) then Unflag(p, c)
            else GiveBack(p, config, c, Ok, check, close, opening)
    ensures c !in Unflag(p, c).flagged
  {
  }

  /** The first steps of giving a connection back. */
  lemma ReturnSteps(config: Config, live: set<Conn>, p: Pool, call: Call, rollback: Reply)
    ensures var c := if call.pc.Returning? || call.pc.Clearing? || call.pc.Failing? then call.pc.conn else 0;
            && (call.pc.Returning? ==>
                  Local(config, live, p, call, ReadFlag(rollback))
                  == Move(p, if c !in p.flagged then Checking(c, call.pc.outcome)
                             else if rollback == SqlError || rollback == OtherError then Failing(c, call.pc.outcome)
                             else Clearing(c, call.pc.outcome), 0))
            && (call.pc.Clearing? ==>
                  Local(config, live, p, call, Clear) == Move(Unflag(p, c), Checking(c, call.pc.outcome), 0))
            && (call.pc.Failing? ==>
                  Local(config, live, p, call, FailOut) == Move(Unflag(p, c), Leaving(call.pc.outcome), 1))
  {
  }

  /** `return_connection` with the other calls standing still; exactly its error path loses the connection. */
  lemma GiveBackAlone(config: Config, others: set<Conn>, p: Pool, call: Call, rollback: Reply, check: Reply, close: Reply, opening: Opening)
    requires call.pc.Returning? && IsFresh(opening, others, p)
    ensures var c := call.pc.conn;
            var failed := c in p.flagged && (rollback == SqlError || rollback == OtherError);
            Alone(config, others, p, call, GiveBackActions(p, config, c, rollback, check, close, opening))
              == Move(GiveBack(p, config, c, rollback, check, close, opening), Leaving(call.pc.outcome),
                      if failed || (check != Ok && (check == OtherError || close == OtherError)) then 1 else 0)
  {
    hide Alone, DisposeActions, LiveFor, IsFresh, GiveBack, Unflag, Local;
    GiveBackSplits(p, config, call.pc.conn, rollback, check, close, opening);
    assert IsFresh(opening, others, Unflag(p, call.pc.conn)) by {
      FreshUnflagged(opening, others, p, call.pc.conn);
    }
    var c := call.pc.conn;
    var dispose := [Check(check, close)] + DisposeActions(p, config, check, close, opening);
    var checking := call.(pc := Checking(c, call.pc.outcome));
    ReturnSteps(config, LiveFor(others, p, call.pc), p, call, rollback);
    if c !in p.flagged {
      AloneStep(config, others, p, call, ReadFlag(rollback), dispose);
      DisposeAlone(config, others, p, checking, check, close, opening);
    } else if rollback == SqlError || rollback == OtherError {
      AloneStep(config, others, p, call, ReadFlag(rollback), [FailOut]);
      var failing := call.(pc := Failing(c, call.pc.outcome));
      ReturnSteps(config, LiveFor(others, p, failing.pc), p, failing, rollback);
      AloneLast(config, others, p, failing, FailOut);
    } else {
      var clearing := call.(pc := Clearing(c, call.pc.outcome));
      ReturnSteps(config, LiveFor(others, p, clearing.pc), p, clearing, rollback);
      AloneStep(config, others, p, call, ReadFlag(rollback), [Clear] + dispose);
      AloneStep(config, others, p, clearing, Clear, dispose);
      DisposeAlone(config, others, Unflag(p, c), checking, check, close, opening);
      DisposeIgnoresFlags(p, config, c, check, close, opening);
    }
  }

  // ---------------------------------------------------------------- whole calls as runs of the protocol

  /** The connections the other calls on a database hold. */
  function Others(calls: map<CallId, Call>, db: Db, id: CallId): (held: set<Conn>)
  {
    set i | i in calls && i != id && calls[i].db == db && HasConn(calls[i].pc) :: calls[i].pc.conn
  }

  /** Steps of the protocol, all of one call, lead from s to s'. */
  ghost predicate Solo(sites: map<Db, Site>, s: System, id: CallId, actions: seq<Action>, s': System)
    decreases |actions|
  {
    if actions == [] then s' == s
    else exists mid :: Step(sites, s, mid, id, actions[0]) && Solo(sites, mid, id, actions[1..], s')
  }

  lemma LiveSplits(calls: map<CallId, Call>, id: CallId, p: Pool)
    requires id in calls
    ensures Live(calls, calls[id].db, p) == LiveFor(Others(calls, calls[id].db, id), p, calls[id].pc)
  {
    var db := calls[id].db;
    var l, r := Live(calls, db, p), LiveFor(Others(calls, db, id), p, calls[id].pc);
    forall c | c in l ensures c in r {
      if c !in p.idle {
        var i :| i in calls && calls[i].db == db && HasConn(calls[i].pc) && calls[i].pc.conn == c;
        assert i != id ==> c in Others(calls, db, id);
      }
    }
    forall c | c in r ensures c in l {
      if HasConn(calls[id].pc) && c == calls[id].pc.conn {
        assert id in calls;
      } else if c in Others(calls, db, id) {
        var i :| i in calls && i != id && calls[i].db == db && HasConn(calls[i].pc) && calls[i].pc.conn == c;
      }
    }
  }

  lemma AfterTyped(sites: map<Db, Site>, s: System, id: CallId, a: Action)
    requires WellTyped(sites, s) && id in s.calls && MoveOf(sites, s, id, a).Move?
    ensures WellTyped(sites, After(s, id, MoveOf(sites, s, id, a)))
    ensures Step(sites, s, After(s, id, MoveOf(sites, s, id, a)), id, a)
  {
    var call := s.calls[id];
    var p := s.pools[call.db];
    LocalPoint(sites[call.db].config, Live(s.calls, call.db, p), p, call, a);
    assert !a.Begin? && !a.Lock? && !a.Leave?;
    hide Local, Live, GivingBack;
  }

  lemma OthersStay(s: System, id: CallId, m: Move)
    requires m.Move? && id in s.calls && s.calls[id].db in s.lost
    ensures Others(After(s, id, m).calls, s.calls[id].db, id) == Others(s.calls, s.calls[id].db, id)
  {
    var db, before, after := s.calls[id].db, s.calls, After(s, id, m).calls;
    assert forall i :: i != id ==> (i in before <==> i in after);
    assert forall i :: i in before && i != id ==> after[i] == before[i];
    hide After, HasConn;
    forall c ensures c in Others(before, db, id) <==> c in Others(after, db, id) {
      if c in Others(before, db, id) {
        var i :| i in before && i != id && before[i].db == db && HasConn(before[i].pc) && before[i].pc.conn == c;
        assert i in after;
      }
      if c in Others(after, db, id) {
        var i :| i in after && i != id && after[i].db == db && HasConn(after[i].pc) && after[i].pc.conn == c;
        assert i in before;
      }
    }
  }

  lemma AfterTwice(s: System, id: CallId, m: Move, n: Move)
    requires m.Move? && n.Move? && id in s.calls && s.calls[id].db in s.lost
    ensures var mid := After(s, id, m);
            && id in mid.calls && mid.calls[id] == s.calls[id].(pc := m.pc) && mid.calls[id].db in mid.lost
            && (mid.calls[id].db in mid.pools && mid.pools[mid.calls[id].db] == m.pool)
            && After(mid, id, n) == After(s, id, n.(lost := m.lost + n.lost))
  {
  }

  lemma AfterNothing(s: System, id: CallId)
    requires id in s.calls && s.calls[id].db in s.lost && s.calls[id].db in s.pools
    ensures After(s, id, Move(s.pools[s.calls[id].db], s.calls[id].pc, 0)) == s
  {
  }

  lemma SoloStep(sites: map<Db, Site>, s: System, mid: System, id: CallId, actions: seq<Action>, s': System)
    requires actions != [] && Step(sites, s, mid, id, actions[0]) && Solo(sites, mid, id, actions[1..], s')
    ensures Solo(sites, s, id, actions, s')
  {
    hide Step;
  }

  /** What a call can do with the others standing still. */
  function AloneMove(sites: map<Db, Site>, s: System, id: CallId, actions: seq<Action>): (m: Move)
    requires WellTyped(sites, s) && id in s.calls
  {
    var call := s.calls[id];
    Alone(sites[call.db].config, Others(s.calls, call.db, id), s.pools[call.db], call, actions)
  }

  lemma AloneUnfolds(sites: map<Db, Site>, s: System, id: CallId, actions: seq<Action>)
    requires WellTyped(sites, s) && id in s.calls && actions != [] && AloneMove(sites, s, id, actions).Move?
    ensures var first := MoveOf(sites, s, id, actions[0]);
            && first.Move? && WellTyped(sites, After(s, id, first)) && id in After(s, id, first).calls
            && Step(sites, s, After(s, id, first), id, actions[0])
            && var rest := AloneMove(sites, After(s, id, first), id, actions[1..]);
               rest.Move? && AloneMove(sites, s, id, actions) == rest.(lost := first.lost + rest.lost)
  {
    var call := s.calls[id];
    LiveSplits(s.calls, id, s.pools[call.db]);
    var first := MoveOf(sites, s, id, actions[0]);
    hide Local, Others, LiveFor, Live;
    AfterTyped(sites, s, id, actions[0]);
    OthersStay(s, id, first);
    AfterTwice(s, id, first, first);
    hide After, Step, WellTyped;
  }

  lemma AloneComposes(sites: map<Db, Site>, s: System, id: CallId, actions: seq<Action>)
    requires WellTyped(sites, s) && id in s.calls && actions != [] && AloneMove(sites, s, id, actions).Move?
    ensures MoveOf(sites, s, id, actions[0]).Move? && s.calls[id].db in s.lost
    ensures var mid := After(s, id, MoveOf(sites, s, id, actions[0]));
            && WellTyped(sites, mid) && id in mid.calls && Step(sites, s, mid, id, actions[0])
            && AloneMove(sites, mid, id, actions[1..]).Move? && mid.calls[id].db in mid.lost
            && After(mid, id, AloneMove(sites, mid, id, actions[1..])) == After(s, id, AloneMove(sites, s, id, actions))
  {
    assert s.calls[id].db in s.lost;
    hide AloneMove, MoveOf, Step, After, WellTyped;
    AloneUnfolds(sites, s, id, actions);
    var first := MoveOf(sites, s, id, actions[0]);
    AfterTwice(s, id, first, AloneMove(sites, After(s, id, first), id, actions[1..]));
  }

  /** Actions that a call can perform with the others standing still are steps of the protocol. */
  lemma {:induction false} AloneIsARun(sites: map<Db, Site>, s: System, id: CallId, actions: seq<Action>)
    requires WellTyped(sites, s) && id in s.calls && AloneMove(sites, s, id, actions).Move?
    ensures s.calls[id].db in s.lost
    ensures Solo(sites, s, id, actions, After(s, id, AloneMove(sites, s, id, actions)))
    decreases |actions|
  {
    assert s.calls[id].db in s.lost;
    hide Alone, After, Step, MoveOf, AloneMove, WellTyped;
    if actions == [] {
      NothingIsARun(sites, s, id, actions);
    } else {
      AloneComposes(sites, s, id, actions);
      hide Solo;
      var mid := After(s, id, MoveOf(sites, s, id, actions[0]));
      AloneIsARun(sites, mid, id, actions[1..]);
      SoloStep(sites, s, mid, id, actions, After(s, id, AloneMove(sites, s, id, actions)));
    }
  }

  lemma NothingIsARun(sites: map<Db, Site>, s: System, id: CallId, actions: seq<Action>)
    requires WellTyped(sites, s) && id in s.calls && actions == []
    ensures After(s, id, AloneMove(sites, s, id, actions)) == s
  {
    AfterNothing(s, id);
  }

  /** A whole `get_connection` of a call, from its first look at the queue to its outcome, is a run of the protocol
      in any state: same pool, same outcome, no other call touched. */
  lemma AcquireIsARun(sites: map<Db, Site>, s: System, id: CallId, opening: Opening)
    requires WellTyped(sites, s) && id in s.calls && s.calls[id].pc.TryIdle?
    requires IsFresh(opening, Others(s.calls, s.calls[id].db, id), s.pools[s.calls[id].db])
    ensures var call := s.calls[id];
            var config, p := sites[call.db].config, s.pools[call.db];
            var (p', result) := Acquire(p, config, call.forTransaction, opening);
            Solo(sites, s, id, AcquireActions(p, config, opening),
                 After(s, id, Move(p', match result
                                       case Got(c) => Using(c)
                                       case TimedOut => Leaving(PoolTimeout)
                                       case CreateFailed => Leaving(CreateError), 0)))
  {
    var call := s.calls[id];
    var config, p, others := sites[call.db].config, s.pools[call.db], Others(s.calls, call.db, id);
    hide Alone, Solo, AcquireActions, Acquire, Others;
    AcquireAlone(config, others, p, call, opening);
    AloneIsARun(sites, s, id, AcquireActions(p, config, opening));
  }

  /** A whole `return_connection` of a call is a run of the protocol in any state, and exactly its error path loses
      the connection. */
  lemma GiveBackIsARun(sites: map<Db, Site>, s: System, id: CallId, rollback: Reply, check: Reply, close: Reply, opening: Opening)
    requires WellTyped(sites, s) && id in s.calls && s.calls[id].pc.Returning?
    requires IsFresh(opening, Others(s.calls, s.calls[id].db, id), s.pools[s.calls[id].db])
    ensures var call := s.calls[id];
            var config, p, c := sites[call.db].config, s.pools[call.db], call.pc.conn;
            var failed := c in p.flagged && (rollback == SqlError || rollback == OtherError);
            Solo(sites, s, id, GiveBackActions(p, config, c, rollback, check, close, opening),
                 After(s, id, Move(GiveBack(p, config, c, rollback, check, close, opening), Leaving(call.pc.outcome),
                                   if failed || (check != Ok && (check == OtherError || close == OtherError)) then 1 else 0)))
  {
    var call := s.calls[id];
    var config, p, others := sites[call.db].config, s.pools[call.db], Others(s.calls, call.db, id);
    hide Alone, Solo, GiveBackActions, GiveBack, Others;
    GiveBackAlone(config, others, p, call, rollback, check, close, opening);
    AloneIsARun(sites, s, id, GiveBackActions(p, config, call.pc.conn, rollback, check, close, opening));
  }
}
