/** `execute_query` for a write with managed transactions: begin, execute, commit, roll back and retry.
    Every SQLite call is one atomic step that may fail. */
module WriteRetry {
  import opened Binary

  type Conn = nat

  /** Answer of one SQLite call: done, "database is locked", another sqlite3 error, or an exception that
      is not an sqlite3 error. */
  datatype Answer = Ok | Locked | SqlError | OtherError

  /** One connection: whether a transaction is open on it, and how many executions of this call's
      statement it holds uncommitted. */
  datatype Link = Link(open: bool, pending: nat)

  /** `committed` counts how often this call's statement has become durable. */
  datatype Store = Store(committed: nat, links: map<Conn, Link>)

  datatype Acquired = Got(conn: Conn) | PoolTimeout | CreateError

  /** A SQLite call that is repeated while the database is locked: the clock before the first try, the successive
      answers, and the clock when each arrives, in milliseconds. An answer may take any time to arrive. */
  datatype Attempts = Attempts(began: int, replies: nat -> Answer, clock: nat -> int)

  /** Everything one pass of the retry loop can meet. */
  datatype Pass = Pass(acquired: Acquired, begin: Attempts, execute: Attempts, commit: Answer, rollback: Answer, giveBack: Answer)

  datatype Result = Returned | Raised(error: Error)
  datatype Error = Database | NotDatabase

  const LOCK_BUDGET := 10000
  const LOCK_PAUSE := 100

  /** The clock does not run backwards, and each pause lasts at least as long as asked. */
  ghost predicate Paced(a: Attempts) {
    a.clock(0) >= a.began && forall i: nat :: a.clock(i + 1) >= a.clock(i) + LOCK_PAUSE
  }

  // ---------------------------------------------------------------- repeating a locked call

  /** What the loop around a SQLite call ends with, from its i-th try on. */
  ghost function Outlast(a: Attempts, i: nat): (r: Answer)
    requires Paced(a) && a.clock(i) - a.began >= LOCK_PAUSE * i
    ensures r == Ok ==> exists k: nat :: k >= i && a.replies(k) == Ok && forall m: nat :: i <= m < k ==> a.replies(m) == Locked
    ensures r == Locked ==> exists k: nat :: k >= i && a.clock(k) - a.began > LOCK_BUDGET && forall m: nat :: i <= m <= k ==> a.replies(m) == Locked
    decreases LOCK_BUDGET / LOCK_PAUSE + 2 - i
  {
    if a.replies(i) != Locked then a.replies(i)
    else if a.clock(i) - a.began > LOCK_BUDGET then Locked
    else
      assert a.clock(i + 1) >= a.clock(i) + LOCK_PAUSE;
      Outlast(a, i + 1)
  }

  /** The loop ends after at most 102 tries, with the answer of the first try that was not refused for
      a lock, or with the lock error once the budget is spent, which may be as early as the first refusal. */
  method RepeatWhileLocked(a: Attempts) returns (r: Answer, ghost tries: nat)
    requires Paced(a)
    ensures r == Outlast(a, 0)
    ensures tries <= 102
  {
    var start := a.began;
    var i := 0;
    while true
      invariant i <= LOCK_BUDGET / LOCK_PAUSE + 1
      invariant a.clock(i) - start >= LOCK_PAUSE * i
      invariant Outlast(a, i) == Outlast(a, 0)
      decreases LOCK_BUDGET / LOCK_PAUSE + 2 - i
    {
      var reply := a.replies(i);
      if reply != Locked {
        return reply, i + 1;
      }
      if a.clock(i) - start > LOCK_BUDGET {
        return Locked, i + 1;
      }
      assert a.clock(i + 1) >= a.clock(i) + LOCK_PAUSE;
      i := i + 1;
    }
  }

  lemma {:induction false} OutlastFrom(a: Attempts, i: nat, k: nat)
    requires Paced(a) && a.clock(i) - a.began >= LOCK_PAUSE * i && i <= k
    requires forall m: nat :: m < k ==> a.replies(m) == Locked && a.clock(m) - a.began <= 10000
    requires a.replies(k) != Locked || a.clock(k) - a.began > 10000
    ensures Outlast(a, i) == a.replies(k)
    decreases k - i
  {
    if i < k {
      assert a.clock(i + 1) >= a.clock(i) + LOCK_PAUSE;
      OutlastFrom(a, i + 1, k);
    }
  }

  /** A call refused for a lock is tried again as long as no more than ten seconds have passed since before the first
      try: what counts is the answer of the first try that is not refused or comes later than that. */
  lemma OutlastIs(a: Attempts, k: nat)
    requires Paced(a)
    requires forall m: nat :: m < k ==> a.replies(m) == Locked && a.clock(m) - a.began <= 10000
    requires a.replies(k) != Locked || a.clock(k) - a.began > 10000
    ensures Outlast(a, 0) == a.replies(k)
  {
    OutlastFrom(a, 0, k);
  }

  /** The bound on the tries is attained: answers that come at once are asked for 102 times, the last of them ten
      seconds and one pause after the first. */
  lemma LastTryCounts(a: Attempts)
    requires a.began == 0 && forall i: nat :: a.clock(i) == 100 * i && a.replies(i) == (if i <= 100 then Locked else Ok)
    ensures Paced(a) && Outlast(a, 0) == Ok
  {
    assert Paced(a);
    OutlastIs(a, 101);
  }

  /** A first refusal that SQLite took longer than the budget to give is the last. */
  lemma LateRefusalIsFinal(a: Attempts)
    requires Paced(a) && a.replies(0) == Locked && a.clock(0) - a.began > 10000
    ensures Outlast(a, 0) == Locked
  {
  }

  // ---------------------------------------------------------------- one pass

  function LinkOf(s: Store, c: Conn): (l: Link)
  {
    if c in s.links then s.links[c] else Link(false, 0)
  }

  function Put(s: Store, c: Conn, l: Link): (s': Store)
  {
    s.(links := s.links[c := l])
  }

  /** BEGIN IMMEDIATE: fails on a connection that already has an open transaction. */
  function Begin(s: Store, c: Conn, reply: Answer): (r: (Store, Answer))
  {
    var l := LinkOf(s, c);
    if reply != Ok then (s, reply)
    else if l.open then (s, SqlError)
    else (Put(s, c, l.(open := true)), Ok)
  }

  function Execute(s: Store, c: Conn, reply: Answer): (r: (Store, Answer))
  {
    var l := LinkOf(s, c);
    if reply != Ok then (s, reply) else (Put(s, c, l.(pending := l.pending + 1)), Ok)
  }

  function Commit(s: Store, c: Conn, reply: Answer): (r: (Store, Answer))
  {
    if reply != Ok then (s, reply)
    else (Put(s.(committed := s.committed + LinkOf(s, c).pending), c, Link(false, 0)), Ok)
  }

  function Rollback(s: Store, c: Conn, reply: Answer): (r: (Store, Answer))
  {
    if reply != Ok then (s, reply) else (Put(s, c, Link(false, 0)), Ok)
  }

  predicate IsDatabaseError(r: Answer) {
    r == Locked || r == SqlError
  }

  /** What a pass ends with: done, an sqlite3 error the retry loop catches, or any other exception. */
  datatype PassEnd = Done | Retryable | Fatal

  function EndOf(error: Answer): (e: PassEnd)
  {
    if IsDatabaseError(error) then Retryable else Fatal
  }

  /** The body of the `with` block once a connection is held. */
  ghost function Body(s: Store, c: Conn, p: Pass): (r: (Store, PassEnd))
    requires Paced(p.begin) && Paced(p.execute)
  {
    var (s1, begun) := Begin(s, c, Outlast(p.begin, 0));
    var (s2, executed) := if begun == Ok then Execute(s1, c, Outlast(p.execute, 0)) else (s1, begun);
    var (s3, ended) := if executed == Ok then Commit(s2, c, p.commit) else (s2, executed);
    if ended == Ok then (s3, Done)
    else
      var (s4, rolled) := Rollback(s3, c, p.rollback);
      (s4, EndOf(if rolled == Ok then ended else rolled))
  }

  ghost function RunPass(s: Store, p: Pass): (r: (Store, PassEnd))
    requires Paced(p.begin) && Paced(p.execute)
  {
    match p.acquired
    case PoolTimeout => (s, Fatal)
    case CreateError => (s, Retryable)
    case Got(c) =>
      var (s1, end) := Body(s, c, p);
      (Rollback(s1, c, p.giveBack).0, end)
  }

  // ---------------------------------------------------------------- the retry loop

  ghost predicate PacedWorld(world: nat -> Pass) {
    forall i: nat :: Paced(world(i).begin) && Paced(world(i).execute)
  }

  datatype Outcome = Outcome(store: Store, result: Result, slept: real)

  /** The retry loop from pass `i` of `attempts`, having slept `slept` seconds so far. */
  ghost function RunFrom(s: Store, world: nat -> Pass, attempts: int, delay: real, i: nat, slept: real): (o: Outcome)
    requires PacedWorld(world)
    decreases attempts - i
  {
    if i >= attempts then Outcome(s, Returned, slept)
    else
      assert Paced(world(i).begin);
      var (s1, end) := RunPass(s, world(i));
      match end
      case Done => Outcome(s1, Returned, slept)
      case Fatal => Outcome(s1, Raised(NotDatabase), slept)
      case Retryable =>
        if i == attempts - 1 then Outcome(s1, Raised(Database), slept)
        else if delay < 0.0 then Outcome(s1, Raised(NotDatabase), slept)
        else RunFrom(s1, world, attempts, delay, i + 1, slept + delay * Pow2(i) as real)
  }

  class WriteSession {
    var committed: nat
    var links: map<Conn, Link>

    function Value(): (s: Store)
      reads this
    {
      Store(committed, links)
    }

    method BeginImmediate(c: Conn, reply: Answer) returns (r: Answer)
      modifies this`links
      ensures (Value(), r) == Begin(old(Value()), c, reply)
    {
      if reply != Ok { return reply; }
      var l := LinkOf(Value(), c);
      if l.open { return SqlError; }
      links := links[c := l.(open := true)];
      return Ok;
    }

    method ExecuteStatement(c: Conn, reply: Answer) returns (r: Answer)
      modifies this`links
      ensures (Value(), r) == Execute(old(Value()), c, reply)
    {
      if reply != Ok { return reply; }
      var l := LinkOf(Value(), c);
      links := links[c := l.(pending := l.pending + 1)];
      return Ok;
    }

    method CommitTransaction(c: Conn, reply: Answer) returns (r: Answer)
      modifies this
      ensures (Value(), r) == Commit(old(Value()), c, reply)
    {
      if reply != Ok { return reply; }
      committed := committed + LinkOf(Value(), c).pending;
      links := links[c := Link(false, 0)];
      return Ok;
    }

    method RollbackTransaction(c: Conn, reply: Answer) returns (r: Answer)
      modifies this`links
      ensures (Value(), r) == Rollback(old(Value()), c, reply)
    {
      if reply != Ok { return reply; }
      links := links[c := Link(false, 0)];
      return Ok;
    }

    method Attempt(p: Pass) returns (end: PassEnd)
      requires Paced(p.begin) && Paced(p.execute)
      modifies this
      ensures (Value(), end) == RunPass(old(Value()), p)
    {
      if p.acquired.PoolTimeout? { return Fatal; }
      if p.acquired.CreateError? { return Retryable; }
      var c := p.acquired.conn;
      var reply, _ := RepeatWhileLocked(p.begin);
      var status := BeginImmediate(c, reply);
      if status == Ok {
        var answer, _ := RepeatWhileLocked(p.execute);
        status := ExecuteStatement(c, answer);
      }
      if status == Ok {
        status := CommitTransaction(c, p.commit);
      }
      if status == Ok {
        end := Done;
      } else {
        var rolled := RollbackTransaction(c, p.rollback);
        end := EndOf(if rolled == Ok then status else rolled);
      }
      var _ := RollbackTransaction(c, p.giveBack);
    }

    method ExecuteQuery(world: nat -> Pass, attempts: int, delay: real) returns (result: Result, slept: real)
      requires PacedWorld(world)
      modifies this
      ensures Outcome(Value(), result, slept) == RunFrom(old(Value()), world, attempts, delay, 0, 0.0)
    {
      slept := 0.0;
      var attempt := 0;
      while attempt < attempts
        invariant attempt >= 0
        invariant RunFrom(Value(), world, attempts, delay, attempt, slept)
               == RunFrom(old(Value()), world, attempts, delay, 0, 0.0)
      {
        assert Paced(world(attempt).begin);
        var end := Attempt(world(attempt));
        match end
        case Done => return Returned, slept;
        case Fatal => return Raised(NotDatabase), slept;
        case Retryable =>
          if attempt == attempts - 1 {
            return Raised(Database), slept;
          }
          if delay < 0.0 {
            return Raised(NotDatabase), slept;
          }
          slept := slept + delay * Pow2(attempt) as real;
          attempt := attempt + 1;
      }
      return Returned, slept;
    }
  }

  // ---------------------------------------------------------------- exactly once

  /** No connection holds an execution of the statement outside an open transaction. */
  ghost predicate Clean(s: Store) {
    forall c :: c in s.links && s.links[c].pending > 0 ==> s.links[c].open
  }

  /** One pass commits the statement once if it ends well and not at all otherwise, and never leaves it
      pending where a later BEGIN could succeed. */
  lemma PassCommitsOnce(s: Store, p: Pass)
    requires Clean(s) && Paced(p.begin) && Paced(p.execute)
    ensures var (s', end) := RunPass(s, p);
            && Clean(s')
            && s'.committed == s.committed + (if end.Done? then 1 else 0)
  {
  }

  lemma {:induction false} CommittedFrom(s: Store, world: nat -> Pass, attempts: int, delay: real, i: nat, slept: real)
    requires PacedWorld(world) && Clean(s)
    ensures var o := RunFrom(s, world, attempts, delay, i, slept);
            o.store.committed == s.committed + (if o.result.Returned? && i < attempts then 1 else 0)
    decreases attempts - i
  {
    if i < attempts {
      assert Paced(world(i).begin);
      PassCommitsOnce(s, world(i));
      var (s1, end) := RunPass(s, world(i));
      if end.Retryable? && i != attempts - 1 && delay >= 0.0 {
        CommittedFrom(s1, world, attempts, delay, i + 1, slept + delay * Pow2(i) as real);
      }
    }
  }

  /** Exactly-once write: whatever fails along the way, a normal return with at least one attempt
      allowed means the statement was committed exactly once; a raised error, or no attempt at all,
      means it was not committed. */
  lemma ExactlyOnceWrite(s: Store, world: nat -> Pass, attempts: int, delay: real)
    requires PacedWorld(world) && Clean(s)
    ensures var o := RunFrom(s, world, attempts, delay, 0, 0.0);
            o.store.committed - s.committed == if o.result.Returned? && attempts >= 1 then 1 else 0
  {
    CommittedFrom(s, world, attempts, delay, 0, 0.0);
  }

  /** The back-off still possible from pass i on: delay * (2^(attempts-1) - 2^i). */
  function Wait(attempts: int, delay: real, i: nat): (w: real)
    requires i < attempts
  {
    delay * (Pow2(attempts - 1) - Pow2(i)) as real
  }

  lemma WaitSplits(attempts: int, delay: real, i: nat)
    requires i < attempts && delay >= 0.0
    ensures Wait(attempts, delay, i) >= 0.0
    ensures i + 1 < attempts ==> Wait(attempts, delay, i) == delay * Pow2(i) as real + Wait(attempts, delay, i + 1)
    ensures i == attempts - 1 ==> Wait(attempts, delay, i) == 0.0
    ensures delay * Pow2(i) as real >= 0.0
  {
    Pow2Grows(i, attempts - 1);
  }

  lemma {:induction false} BackoffFrom(s: Store, world: nat -> Pass, attempts: int, delay: real, i: nat, slept: real)
    requires PacedWorld(world) && i < attempts && delay >= 0.0
    ensures var o := RunFrom(s, world, attempts, delay, i, slept);
            && slept <= o.slept <= slept + Wait(attempts, delay, i)
            && (o.result == Raised(Database) ==> o.slept == slept + Wait(attempts, delay, i))
    decreases attempts - i
  {
    hide RunPass, Wait, Pow2;
    WaitSplits(attempts, delay, i);
    assert Paced(world(i).begin);
    var (s1, end) := RunPass(s, world(i));
    if end.Retryable? && i != attempts - 1 {
      BackoffFrom(s1, world, attempts, delay, i + 1, slept + delay * Pow2(i) as real);
    }
  }

  /** The total back-off over n attempts is at most delay * (2^(n-1) - 1), and is exactly that when the
      last attempt's database error is what is raised. */
  lemma BackoffBound(s: Store, world: nat -> Pass, attempts: int, delay: real)
    requires PacedWorld(world) && attempts >= 1 && delay >= 0.0
    ensures var o := RunFrom(s, world, attempts, delay, 0, 0.0);
            && 0.0 <= o.slept <= delay * (Pow2(attempts - 1) - 1) as real
            && (o.result == Raised(Database) ==> o.slept == delay * (Pow2(attempts - 1) - 1) as real)
  {
    BackoffFrom(s, world, attempts, delay, 0, 0.0);
  }

  // ---------------------------------------------------------------- which way a query ends, told by the answers

  /** The connections with an open transaction. */
  function OpenLinks(s: Store): (open: set<Conn>)
  {
    set c | c in s.links && s.links[c].open
  }

  /** The first answer other than Ok that a pass meets once it has its connection, or Ok when there is none. BEGIN is
      an error on a connection whose transaction is still open. */
  ghost function FirstFailure(p: Pass, open: bool): (r: Answer)
    requires Paced(p.begin) && Paced(p.execute)
  {
    if Outlast(p.begin, 0) != Ok then Outlast(p.begin, 0)
    else if open then SqlError
    else if Outlast(p.execute, 0) != Ok then Outlast(p.execute, 0)
    else p.commit
  }

  /** The failure the retry loop gets to see: that of the roll-back when the roll-back fails too. */
  ghost function Failure(p: Pass, open: bool): (r: Answer)
    requires Paced(p.begin) && Paced(p.execute)
  {
    if FirstFailure(p, open) != Ok && p.rollback != Ok then p.rollback else FirstFailure(p, open)
  }

  ghost predicate InUseBy(p: Pass, open: set<Conn>) {
    p.acquired.Got? && p.acquired.conn in open
  }

  /** All calls of the pass answer Ok. */
  ghost predicate Succeeds(p: Pass, open: set<Conn>)
    requires Paced(p.begin) && Paced(p.execute)
  {
    p.acquired.Got? && Failure(p, InUseBy(p, open)) == Ok
  }

  /** The pass ends with an sqlite3 error, "database is locked" or any other. */
  ghost predicate MeetsSqlite(p: Pass, open: set<Conn>)
    requires Paced(p.begin) && Paced(p.execute)
  {
    || p.acquired.CreateError?
    || (p.acquired.Got? && (Failure(p, InUseBy(p, open)) == Locked || Failure(p, InUseBy(p, open)) == SqlError))
  }

  /** The pass ends with a pool timeout or another exception that is not an sqlite3 error. */
  ghost predicate MeetsOther(p: Pass, open: set<Conn>)
    requires Paced(p.begin) && Paced(p.execute)
  {
    p.acquired.PoolTimeout? || (p.acquired.Got? && Failure(p, InUseBy(p, open)) == OtherError)
  }

  /** The connections left open by a pass: its own stays open when BEGIN was answered and neither the commit nor one
      of the two roll-backs was. */
  ghost function OpenAfter(p: Pass, open: set<Conn>): (after: set<Conn>)
    requires Paced(p.begin) && Paced(p.execute)
  {
    if !p.acquired.Got? then open
    else if Succeeds(p, open) || p.rollback == Ok || p.giveBack == Ok then open - {p.acquired.conn}
    else if Outlast(p.begin, 0) == Ok then open + {p.acquired.conn}
    else open
  }

  /** The connections open before pass i when all passes before it are made. */
  ghost function OpenBefore(open: set<Conn>, world: nat -> Pass, i: nat): (before: set<Conn>)
    requires PacedWorld(world)
  {
    if i == 0 then open
    else
      assert Paced(world(i - 1).begin);
      OpenAfter(world(i - 1), OpenBefore(open, world, i - 1))
  }

  lemma PassEndsBy(s: Store, p: Pass)
    requires Paced(p.begin) && Paced(p.execute)
    ensures var end := RunPass(s, p).1;
            && (end.Done? <==> Succeeds(p, OpenLinks(s)))
            && (end.Retryable? <==> MeetsSqlite(p, OpenLinks(s)))
            && (end.Fatal? <==> MeetsOther(p, OpenLinks(s)))
  {
    hide Outlast, Paced, Put;
  }

  lemma PassLeavesOpen(s: Store, p: Pass)
    requires Paced(p.begin) && Paced(p.execute)
    ensures OpenLinks(RunPass(s, p).0) == OpenAfter(p, OpenLinks(s))
  {
    hide Outlast, Paced, EndOf;
  }

  /** The pass numbered k, made after all before it. */
  ghost predicate SucceedsAt(open: set<Conn>, world: nat -> Pass, k: nat)
    requires PacedWorld(world)
  {
    assert Paced(world(k).begin);
    Succeeds(world(k), OpenBefore(open, world, k))
  }

  ghost predicate MeetsSqliteAt(open: set<Conn>, world: nat -> Pass, k: nat)
    requires PacedWorld(world)
  {
    assert Paced(world(k).begin);
    MeetsSqlite(world(k), OpenBefore(open, world, k))
  }

  ghost predicate MeetsOtherAt(open: set<Conn>, world: nat -> Pass, k: nat)
    requires PacedWorld(world)
  {
    assert Paced(world(k).begin);
    MeetsOther(world(k), OpenBefore(open, world, k))
  }

  /** Pass k is made when pass i is: all in between end with an sqlite3 error, and the delay is one that can be slept. */
  ghost predicate Reaches(open: set<Conn>, world: nat -> Pass, delay: real, i: nat, k: nat)
    requires PacedWorld(world)
  {
    && i <= k && (i < k ==> delay >= 0.0)
    && forall j: nat :: i <= j < k ==> MeetsSqliteAt(open, world, j)
  }

  lemma PassAt(s: Store, open: set<Conn>, world: nat -> Pass, i: nat)
    requires PacedWorld(world) && OpenLinks(s) == OpenBefore(open, world, i)
    ensures Paced(world(i).begin) && Paced(world(i).execute)
    ensures var (s', end) := RunPass(s, world(i));
            && (end.Done? <==> SucceedsAt(open, world, i))
            && (end.Retryable? <==> MeetsSqliteAt(open, world, i))
            && (end.Fatal? <==> MeetsOtherAt(open, world, i))
            && OpenLinks(s') == OpenBefore(open, world, i + 1)
  {
    assert Paced(world(i).begin);
    PassEndsBy(s, world(i));
    PassLeavesOpen(s, world(i));
    hide RunPass, OpenLinks, Succeeds, MeetsSqlite, MeetsOther, OpenAfter;
  }

  /** A pass that is made succeeds, or there is none to make. */
  ghost predicate ReturnsFrom(open: set<Conn>, world: nat -> Pass, attempts: int, delay: real, i: nat)
    requires PacedWorld(world)
  {
    i >= attempts || exists k: nat :: k < attempts && Reaches(open, world, delay, i, k) && SucceedsAt(open, world, k)
  }

  /** A pass that is made ends with another exception, or the first is to be followed by a negative sleep. */
  ghost predicate StopsFrom(open: set<Conn>, world: nat -> Pass, attempts: int, delay: real, i: nat)
    requires PacedWorld(world)
  {
    || (exists k: nat :: k < attempts && Reaches(open, world, delay, i, k) && MeetsOtherAt(open, world, k))
    || (delay < 0.0 && i + 1 < attempts && MeetsSqliteAt(open, world, i))
  }

  /** All passes are made and all end with an sqlite3 error. */
  ghost predicate FailsFrom(open: set<Conn>, world: nat -> Pass, attempts: int, delay: real, i: nat)
    requires PacedWorld(world)
  {
    i < attempts && Reaches(open, world, delay, i, attempts - 1) && MeetsSqliteAt(open, world, attempts - 1)
  }

  lemma ReachesNext(open: set<Conn>, world: nat -> Pass, delay: real, i: nat)
    requires PacedWorld(world) && MeetsSqliteAt(open, world, i) && delay >= 0.0
    ensures forall k: nat :: i < k ==> Reaches(open, world, delay, i, k) == Reaches(open, world, delay, i + 1, k)
  {
    hide MeetsSqliteAt;
  }

  lemma AfterSqlite(open: set<Conn>, world: nat -> Pass, attempts: int, delay: real, i: nat)
    requires PacedWorld(world) && i + 1 < attempts && delay >= 0.0
    requires MeetsSqliteAt(open, world, i) && !SucceedsAt(open, world, i) && !MeetsOtherAt(open, world, i)
    ensures ReturnsFrom(open, world, attempts, delay, i) == ReturnsFrom(open, world, attempts, delay, i + 1)
    ensures StopsFrom(open, world, attempts, delay, i) == StopsFrom(open, world, attempts, delay, i + 1)
    ensures FailsFrom(open, world, attempts, delay, i) == FailsFrom(open, world, attempts, delay, i + 1)
  {
    ReachesNext(open, world, delay, i);
    var next := i + 1;
    assert forall k: nat :: Reaches(open, world, delay, i, k) ==> k >= i;
    assert forall k: nat :: Reaches(open, world, delay, next, k) ==> k > i;
    hide Reaches, SucceedsAt, MeetsSqliteAt, MeetsOtherAt, PacedWorld;
  }

  /** The pass the loop ends at decides. */
  lemma AtLast(open: set<Conn>, world: nat -> Pass, attempts: int, delay: real, i: nat)
    requires PacedWorld(world) && i < attempts
    requires !MeetsSqliteAt(open, world, i) || i == attempts - 1 || delay < 0.0
    ensures ReturnsFrom(open, world, attempts, delay, i) <==> SucceedsAt(open, world, i)
    ensures StopsFrom(open, world, attempts, delay, i)
       <==> MeetsOtherAt(open, world, i) || (i + 1 < attempts && MeetsSqliteAt(open, world, i))
    ensures FailsFrom(open, world, attempts, delay, i) <==> i + 1 == attempts && MeetsSqliteAt(open, world, i)
  {
    hide SucceedsAt, MeetsSqliteAt, MeetsOtherAt, PacedWorld;
    assert Reaches(open, world, delay, i, i);
    assert forall k: nat :: k < attempts && Reaches(open, world, delay, i, k) ==> k == i;
  }

  lemma {:induction false} EndsFrom(s: Store, open: set<Conn>, world: nat -> Pass, attempts: int, delay: real, i: nat, slept: real)
    requires PacedWorld(world) && OpenLinks(s) == OpenBefore(open, world, i)
    ensures var result := RunFrom(s, world, attempts, delay, i, slept).result;
            && (result == Returned <==> ReturnsFrom(open, world, attempts, delay, i))
            && (result == Raised(NotDatabase) <==> StopsFrom(open, world, attempts, delay, i))
            && (result == Raised(Database) <==> FailsFrom(open, world, attempts, delay, i))
    decreases attempts - i
  {
    if i < attempts {
      PassAt(s, open, world, i);
      var (s', end) := RunPass(s, world(i));
      hide RunPass, OpenLinks, OpenBefore, SucceedsAt, MeetsSqliteAt, MeetsOtherAt, PacedWorld, ReturnsFrom, StopsFrom, FailsFrom;
      if end.Retryable? && i != attempts - 1 && delay >= 0.0 {
        AfterSqlite(open, world, attempts, delay, i);
        EndsFrom(s', open, world, attempts, delay, i + 1, slept + delay * Pow2(i) as real);
      } else {
        AtLast(open, world, attempts, delay, i);
      }
    } else {
      NoneLeft(open, world, attempts, delay, i);
    }
  }

  lemma NoneLeft(open: set<Conn>, world: nat -> Pass, attempts: int, delay: real, i: nat)
    requires PacedWorld(world) && i >= attempts
    ensures ReturnsFrom(open, world, attempts, delay, i)
    ensures !StopsFrom(open, world, attempts, delay, i) && !FailsFrom(open, world, attempts, delay, i)
  {
    hide SucceedsAt, MeetsSqliteAt, MeetsOtherAt, PacedWorld;
  }

  /** Exactly how a query ends, from the answers of the passes alone, whatever store it starts from: it returns when a
      pass that is made succeeds or none is allowed; it raises another exception when a pass that is made meets a pool
      timeout or one that is not an sqlite3 error, or the delay to sleep is negative; and it raises a database error when
      every pass meets an sqlite3 error. A pass is made when all before it met sqlite3 errors. */
  lemma QueryEndsIff(s: Store, world: nat -> Pass, attempts: int, delay: real)
    requires PacedWorld(world)
    ensures var result, open := RunFrom(s, world, attempts, delay, 0, 0.0).result, OpenLinks(s);
            && (result == Returned
                <==> attempts <= 0
                     || exists k: nat :: k < attempts && Reaches(open, world, delay, 0, k) && SucceedsAt(open, world, k))
            && (result == Raised(NotDatabase)
                <==> || (exists k: nat :: k < attempts && Reaches(open, world, delay, 0, k) && MeetsOtherAt(open, world, k))
                     || (delay < 0.0 && attempts > 1 && MeetsSqliteAt(open, world, 0)))
            && (result == Raised(Database)
                <==> attempts > 0 && Reaches(open, world, delay, 0, attempts - 1) && MeetsSqliteAt(open, world, attempts - 1))
  {
    hide RunFrom, SucceedsAt, MeetsSqliteAt, MeetsOtherAt, Reaches, PacedWorld;
    EndsFrom(s, OpenLinks(s), world, attempts, delay, 0, 0.0);
  }

  /** What is slept between pass i and pass k. */
  function Pauses(delay: real, i: nat, k: nat): (w: real)
  {
    delay * (Pow2(k) - Pow2(i)) as real
  }

  lemma PausesSplit(delay: real, i: nat, k: nat)
    ensures Pauses(delay, i, k) == delay * Pow2(i) as real + Pauses(delay, i + 1, k)
    ensures Pauses(delay, k, k) == 0.0
  {
    var one, all := Pow2(i) as real, Pow2(k) as real;
    assert Pow2(i + 1) as real == one + one;
    assert delay * (all - one) == delay * one + delay * (all - (one + one));
  }

  /** One pass of the loop that is followed by another. */
  lemma PassAgain(s: Store, world: nat -> Pass, attempts: int, delay: real, i: nat, slept: real)
    requires PacedWorld(world) && i + 1 < attempts && delay >= 0.0
    requires Paced(world(i).begin) && Paced(world(i).execute) && RunPass(s, world(i)).1.Retryable?
    ensures RunFrom(s, world, attempts, delay, i, slept)
         == RunFrom(RunPass(s, world(i)).0, world, attempts, delay, i + 1, slept + delay * Pow2(i) as real)
  {
    hide RunPass, Pow2, Paced;
  }

  /** One that is not. */
  lemma PassLast(s: Store, world: nat -> Pass, attempts: int, delay: real, i: nat, slept: real)
    requires PacedWorld(world) && i < attempts
    requires Paced(world(i).begin) && Paced(world(i).execute) && (RunPass(s, world(i)).1.Retryable? ==> i == attempts - 1)
    ensures RunFrom(s, world, attempts, delay, i, slept).slept == slept
  {
    hide RunPass, Pow2, Paced;
  }

  lemma {:induction false} SleptFrom(s: Store, open: set<Conn>, world: nat -> Pass, attempts: int, delay: real, i: nat, slept: real, k: nat)
    requires PacedWorld(world) && OpenLinks(s) == OpenBefore(open, world, i)
    requires Reaches(open, world, delay, i, k) && k < attempts && (MeetsSqliteAt(open, world, k) ==> k == attempts - 1)
    ensures RunFrom(s, world, attempts, delay, i, slept).slept == slept + Pauses(delay, i, k)
    decreases attempts - i
  {
    hide RunFrom, RunPass, OpenLinks, OpenBefore, SucceedsAt, MeetsSqliteAt, MeetsOtherAt, PacedWorld, Pauses, Pow2, Paced;
    PassAt(s, open, world, i);
    PausesSplit(delay, i, k);
    if i < k {
      var pause := delay * Pow2(i) as real;
      PassAgain(s, world, attempts, delay, i, slept);
      SleptFrom(RunPass(s, world(i)).0, open, world, attempts, delay, i + 1, slept + pause, k);
      assert Pauses(delay, i, k) == pause + Pauses(delay, i + 1, k);
    } else {
      PassLast(s, world, attempts, delay, i, slept);
      assert i == k && Pauses(delay, i, k) == 0.0;
    }
  }

  /** When pass k is the last one made, a query has slept exactly delay * (2^k - 1) in all. */
  lemma SleptExactly(s: Store, world: nat -> Pass, attempts: int, delay: real, k: nat)
    requires PacedWorld(world) && Reaches(OpenLinks(s), world, delay, 0, k) && k < attempts
    requires MeetsSqliteAt(OpenLinks(s), world, k) ==> k == attempts - 1
    ensures RunFrom(s, world, attempts, delay, 0, 0.0).slept == delay * (Pow2(k) - 1) as real
  {
    hide RunFrom, MeetsSqliteAt, Reaches, PacedWorld;
    SleptFrom(s, OpenLinks(s), world, attempts, delay, 0, 0.0, k);
  }

  /** The pass gets a connection, is refused for a lock or another sqlite3 error at one of its calls, and is rolled back. */
  ghost predicate RefusedOnce(p: Pass)
    requires Paced(p.begin) && Paced(p.execute)
  {
    && p.acquired.Got? && p.rollback == Ok
    && var (begun, executed) := (Outlast(p.begin, 0), Outlast(p.execute, 0));
       || begun == Locked || begun == SqlError
       || (begun == Ok && (executed == Locked || executed == SqlError))
       || (begun == Ok && executed == Ok && (p.commit == Locked || p.commit == SqlError))
  }

  lemma RefusedIsSqlite(p: Pass)
    requires Paced(p.begin) && Paced(p.execute) && RefusedOnce(p)
    ensures MeetsSqlite(p, {}) && OpenAfter(p, {}) == {}
  {
    hide Outlast, Paced;
  }

  ghost predicate RefusedBefore(world: nat -> Pass, k: nat)
    requires PacedWorld(world)
  {
    assert forall j: nat :: Paced(world(j).begin) && Paced(world(j).execute);
    forall j: nat :: j < k ==> RefusedOnce(world(j))
  }

  lemma RefusedNext(world: nat -> Pass, k: nat)
    requires PacedWorld(world) && RefusedBefore(world, k + 1) && OpenBefore({}, world, k) == {}
    ensures OpenBefore({}, world, k + 1) == {} && MeetsSqliteAt({}, world, k)
  {
    assert Paced(world(k).begin);
    RefusedIsSqlite(world(k));
    hide RefusedOnce, MeetsSqlite, OpenAfter, Outlast, Paced;
  }

  lemma {:induction false} RefusedSoFar(world: nat -> Pass, k: nat)
    requires PacedWorld(world) && RefusedBefore(world, k)
    ensures OpenBefore({}, world, k) == {}
    ensures forall j: nat :: j < k ==> MeetsSqliteAt({}, world, j)
  {
    hide RefusedOnce, OpenAfter, MeetsSqliteAt, Outlast, Paced;
    if k > 0 {
      assert RefusedBefore(world, k - 1);
      hide RefusedBefore, PacedWorld;
      RefusedSoFar(world, k - 1);
      RefusedNext(world, k - 1);
    }
  }

  /** Started with no transaction open: as long as every pass before is refused with an sqlite3 error and rolled back, a
      later pass within the budget all of whose calls are answered Ok makes the query return. */
  lemma RetriedUntilDone(s: Store, world: nat -> Pass, attempts: int, delay: real, k: nat)
    requires PacedWorld(world) && OpenLinks(s) == {} && delay >= 0.0 && k < attempts
    requires RefusedBefore(world, k)
    requires Paced(world(k).begin) && world(k).acquired.Got? && Outlast(world(k).begin, 0) == Ok
    requires Paced(world(k).execute) && Outlast(world(k).execute, 0) == Ok && world(k).commit == Ok
    ensures RunFrom(s, world, attempts, delay, 0, 0.0).result == Returned
  {
    hide RunFrom, RefusedOnce;
    RefusedSoFar(world, k);
    assert SucceedsAt({}, world, k);
    hide MeetsSqliteAt;
    assert Reaches({}, world, delay, 0, k);
    hide PacedWorld, Reaches, SucceedsAt;
    QueryEndsIff(s, world, attempts, delay);
  }
}
