/** One connection pool: its shared fields, the critical sections that change them, and the calls
    that string those sections together. */
module Pools {

  type Conn = nat

  datatype Config = Config(minConnections: int, maxConnections: int)

  /** The pool's shared state: the idle queue, the connection counter and the ids flagged as being in
      a transaction. */
  datatype Pool = Pool(idle: seq<Conn>, count: int, flagged: set<Conn>)

  /** How many connections `initialize` makes. */
  function Initial(config: Config): (n: nat)
  {
    if config.minConnections < 0 then 0 else config.minConnections
  }

  /** The most the counter can ever be: the configured maximum, or the initial size when the
      configuration asks for more connections up front than it allows. */
  function Cap(config: Config): (n: int)
    ensures n >= config.maxConnections && n >= Initial(config)
    ensures n == config.maxConnections || n == Initial(config)
  {
    if config.maxConnections >= Initial(config) then config.maxConnections else Initial(config)
  }

  // ---------------------------------------------------------------- atomic sections, as functions

  function TakeIdle(p: Pool): (p': Pool)
    requires p.idle != []
  {
    p.(idle := p.idle[1..])
  }

  function PutIdle(p: Pool, c: Conn): (p': Pool)
  {
    p.(idle := p.idle + [c])
  }

  predicate CanGrow(p: Pool, config: Config) {
    p.count < config.maxConnections
  }

  function Reserve(p: Pool): (p': Pool)
  {
    p.(count := p.count + 1)
  }

  function Release(p: Pool): (p': Pool)
  {
    p.(count := p.count - 1)
  }

  function Flag(p: Pool, c: Conn, forTransaction: bool): (p': Pool)
  {
    if forTransaction then p.(flagged := p.flagged + {c}) else p
  }

  function Unflag(p: Pool, c: Conn): (p': Pool)
  {
    p.(flagged := p.flagged - {c})
  }

  /** Dropping a dead connection leaves the pool below its minimum. */
  predicate NeedsRefill(p: Pool, config: Config) {
    p.count - 1 < config.minConnections
  }

  /** Give up a dead connection's slot, or keep it reserved for the replacement. */
  function Retire(p: Pool, config: Config): (p': Pool)
  {
    if NeedsRefill(p, config) then Reserve(Release(p)) else Release(p)
  }

  // ---------------------------------------------------------------- whole calls, run without interference

  /** What a call may be told by SQLite. */
  datatype Reply = Ok | OperationalError | SqlError | OtherError

  datatype Opening = Opened(conn: Conn) | Refused

  datatype Acquired = Got(conn: Conn) | TimedOut | CreateFailed

  /** `get_connection` when no other thread touches the pool. */
  function Acquire(p: Pool, config: Config, forTransaction: bool, opening: Opening): (r: (Pool, Acquired))
  {
    if p.idle != [] then (Flag(TakeIdle(p), p.idle[0], forTransaction), Got(p.idle[0]))
    else if CanGrow(p, config) then
      if opening.Opened? then (Flag(Reserve(p), opening.conn, forTransaction), Got(opening.conn))
      else (p, CreateFailed)
    else (p, TimedOut)
  }

  /** `return_connection`: the replies to rollback, the validity check and close, then the opening of
      a replacement. */
  function GiveBack(p: Pool, config: Config, c: Conn, rollback: Reply, check: Reply, close: Reply, opening: Opening): (p': Pool)
  {
    var cleared := Unflag(p, c);
    if c in p.flagged && (rollback == SqlError || rollback == OtherError) then cleared
    else if check == Ok then PutIdle(cleared, c)
    else if check == OtherError || close == OtherError then cleared
    else if !NeedsRefill(cleared, config) then Release(cleared)
    else if opening.Opened? then PutIdle(cleared, opening.conn)
    else Release(cleared)
  }

  /** The connections made before the first failure. */
  function Made(openings: seq<Opening>): (conns: seq<Conn>)
    ensures |conns| <= |openings|
    ensures forall i :: 0 <= i < |conns| ==> openings[i].Opened? && conns[i] == openings[i].conn
    ensures |conns| < |openings| ==> !openings[|conns|].Opened?
  {
    if openings == [] || !openings[0].Opened? then [] else [openings[0].conn] + Made(openings[1..])
  }

  lemma MadeIs(openings: seq<Opening>, k: nat)
    requires k <= |openings| && (forall j :: 0 <= j < k ==> openings[j].Opened?)
    requires k < |openings| ==> !openings[k].Opened?
    ensures |Made(openings)| == k
  {
  }

  function FlaggedIn(states: map<Conn, bool>): (flagged: set<Conn>)
  {
    set c | c in states && states[c]
  }

  lemma UnflaggedAlready(p: Pool, c: Conn)
    requires c !in p.flagged
    ensures Unflag(p, c) == p
  {
  }

  class ConnectionPool {
    const config: Config
    var pool: seq<Conn>
    var connectionCount: int
    var transactionStates: map<Conn, bool>

    /** The shared state as a value. */
    function Snapshot(): (p: Pool)
      reads this
    {
      Pool(pool, connectionCount, FlaggedIn(transactionStates))
    }

    predicate Valid()
      reads this
    {
      forall c :: c in transactionStates ==> transactionStates[c]
    }

    constructor (config: Config)
      ensures this.config == config && Valid()
      ensures Snapshot() == Pool([], 0, {})
    {
      this.config := config;
      pool := [];
      connectionCount := 0;
      transactionStates := map[];
    }

    /** One connection after another, up to the first that cannot be made, which makes the call raise. */
    method Initialize(openings: seq<Opening>) returns (raised: bool)
      requires Valid() && |openings| == Initial(config)
      modifies this
      ensures Valid()
      ensures raised <==> exists i :: 0 <= i < |openings| && !openings[i].Opened?
      ensures Snapshot() == Pool(old(pool) + Made(openings), old(connectionCount) + |Made(openings)|, old(Snapshot()).flagged)
      ensures !raised ==> |Made(openings)| == Initial(config)
    {
      ghost var made := Made(openings);
      for i := 0 to Initial(config)
        invariant Valid()
        invariant i <= |made|
        invariant pool == old(pool) + made[..i]
        invariant connectionCount == old(connectionCount) + i
        invariant transactionStates == old(transactionStates)
      {
        if !openings[i].Opened? {
          MadeIs(openings, i);
          return true;
        }
        pool := pool + [openings[i].conn];
        connectionCount := connectionCount + 1;
      }
      return false;
    }

    method MarkTransaction(c: Conn)
      requires Valid()
      modifies this`transactionStates
      ensures Valid() && Snapshot() == Flag(old(Snapshot()), c, true)
    {
      transactionStates := transactionStates[c := true];
    }

    method GrowLocked(opening: Opening) returns (full: bool, conn: Opening)
      requires Valid()
      modifies this`connectionCount
      ensures Valid()
      ensures full <==> !CanGrow(old(Snapshot()), config)
      ensures !full ==> conn == opening
      ensures Snapshot() == if !full && opening.Opened? then Reserve(old(Snapshot())) else old(Snapshot())
    {
      if connectionCount >= config.maxConnections {
        return true, Refused;
      }
      connectionCount := connectionCount + 1;
      if opening.Refused? {
        connectionCount := connectionCount - 1;
      }
      return false, opening;
    }

    method GetConnection(forTransaction: bool, opening: Opening) returns (result: Acquired)
      requires Valid()
      modifies this
      ensures Valid()
      ensures (Snapshot(), result) == Acquire(old(Snapshot()), config, forTransaction, opening)
    {
      if pool != [] {
        var c := pool[0];
        pool := pool[1..];
        if forTransaction {
          MarkTransaction(c);
        }
        return Got(c);
      }
      var full, conn := GrowLocked(opening);
      if !full {
        if conn.Refused? {
          return CreateFailed;
        }
        if forTransaction {
          MarkTransaction(conn.conn);
        }
        return Got(conn.conn);
      }
      full, conn := GrowLocked(opening);
      return TimedOut;
    }

    method ClearFlag(c: Conn)
      requires Valid()
      modifies this`transactionStates
      ensures Valid() && Snapshot() == Unflag(old(Snapshot()), c)
    {
      transactionStates := transactionStates - {c};
    }

    method ReturnConnection(c: Conn, rollback: Reply, check: Reply, close: Reply, opening: Opening)
      requires Valid()
      modifies this
      ensures Valid()
      ensures Snapshot() == GiveBack(old(Snapshot()), config, c, rollback, check, close, opening)
    {
      assert c in transactionStates && transactionStates[c] <==> c in Snapshot().flagged;
      assert c !in transactionStates ==> transactionStates - {c} == transactionStates;
      hide FlaggedIn;
      if c in transactionStates && transactionStates[c] {
        if rollback == SqlError || rollback == OtherError {
          ClearFlag(c);
          return;
        }
        ClearFlag(c);
      } else {
        UnflaggedAlready(Snapshot(), c);
      }
      if check == Ok {
        pool := pool + [c];
        return;
      }
      if check == OtherError || close == OtherError {
        ClearFlag(c);
        UnflaggedAlready(Unflag(old(Snapshot()), c), c);
        return;
      }
      var needRefill := false;
      connectionCount := connectionCount - 1;
      if connectionCount < config.minConnections {
        connectionCount := connectionCount + 1;
        needRefill := true;
      }
      if needRefill {
        if opening.Opened? {
          pool := pool + [opening.conn];
        } else {
          connectionCount := connectionCount - 1;
        }
      }
    }

    method CloseAll()
      requires Valid()
      modifies this
      ensures Valid()
      ensures Snapshot() == Pool([], old(connectionCount) - |old(pool)|, old(Snapshot()).flagged)
    {
      while pool != []
        invariant Valid()
        invariant connectionCount - |pool| == old(connectionCount) - |old(pool)|
        invariant transactionStates == old(transactionStates)
        decreases |pool|
      {
        pool := pool[1..];
        connectionCount := connectionCount - 1;
      }
    }
  }

  /** Taking a connection and giving it back healthy leaves the counter and the flags as they were and
      only moves that connection to the end of the queue, or adds the one newly opened. */
  lemma AcquireThenGiveBack(p: Pool, config: Config, forTransaction: bool, opening: Opening, rollback: Reply, close: Reply)
    requires p.flagged !! (set c | c in p.idle)
    requires opening.Opened? ==> opening.conn !in p.flagged && opening.conn !in p.idle
    requires rollback == Ok || rollback == OperationalError
    ensures var (taken, result) := Acquire(p, config, forTransaction, opening);
            result.Got? ==>
              var back := GiveBack(taken, config, result.conn, rollback, Ok, close, opening);
              && back.flagged == p.flagged
              && if p.idle != [] then back.idle == p.idle[1..] + [p.idle[0]] && back.count == p.count
                 else back.idle == [opening.conn] && back.count == p.count + 1
  {
    var (taken, result) := Acquire(p, config, forTransaction, opening);
    if result.Got? {
      assert p.idle != [] ==> p.idle[0] in p.idle;
      assert taken.flagged - {result.conn} == p.flagged;
    }
  }
}
