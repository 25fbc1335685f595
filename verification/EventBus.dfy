/** The event bus: a queue with one processor thread, started and stopped by any number of callers.
    Every section under the bus lock, every queue operation and every test of a flag is one step. */
module EventBus {
  import opened Collections
  import opened Wrappers

  type Event = string
  type Callback = nat
  type Thread = nat
  type Stopper = nat

  /** Where a processor thread stands. */
  datatype Processor =
    | LoopTest                  // about to read `running` for the loop
    | Recheck                   // about to read it again
    | Looking                   // about to look at the queue
    | Taking                    // saw a non-empty queue, about to take from it
    | Handling(event: Event)
    | Dead

  /** Where a call of `stop` stands once it has flipped the flag. */
  datatype Stopping = Joining(thread: Option<Thread>) | Finishing

  /** `published` and `handled` record the history. */
  datatype State = State(
    started: bool,
    running: bool,
    current: Option<Thread>,    // the thread last created
    threads: map<Thread, Processor>,
    stops: map<Stopper, Stopping>,
    queue: seq<Event>,
    published: seq<Event>,
    handled: seq<Event>)

  const INITIAL := State(false, false, None, map[], map[], [], [], [])

  datatype Action =
    | Publish(event: Event)
    | Start(thread: Thread, fails: bool)
    | BeginStop(stopper: Stopper)
    | EndJoin(stopper: Stopper)
    | EndStop(stopper: Stopper)
    | Process(thread: Thread)

  /** A publishable event names a topic. */
  predicate Accepted(event: Event) {
    event != ""
  }

  predicate CurrentDead(s: State) {
    s.current.None? || (s.current.value in s.threads && s.threads[s.current.value].Dead?)
  }

  // ---------------------------------------------------------------- the steps

  function PublishStep(s: State, event: Event): (s': State)
  {
    if Accepted(event) then s.(queue := s.queue + [event], published := s.published + [event]) else s
  }

  /** `start` does nothing when already started, while the flag is up, or while the last thread lives.
      `fails` is the system refusing the new thread after the flag has been set. */
  function StartStep(s: State, thread: Thread, fails: bool): (s': State)
  {
    if s.started then s
    else if !s.running && CurrentDead(s) then
      s.(running := true, started := !fails, current := Some(thread),
         threads := s.threads[thread := if fails then Dead else LoopTest])
    else s
  }

  function BeginStopStep(s: State, stopper: Stopper): (s': State)
  {
    if !s.started then s else s.(running := false, stops := s.stops[stopper := Joining(s.current)])
  }

  /** The join ends when the thread is dead or, at any moment, by its time-out. */
  function EndJoinStep(s: State, stopper: Stopper): (s': State)
  {
    s.(stops := s.stops[stopper := Finishing])
  }

  function EndStopStep(s: State, stopper: Stopper): (s': State)
  {
    s.(started := false, stops := s.stops - {stopper})
  }

  function ProcessStep(s: State, t: Thread): (s': State)
    requires t in s.threads
  {
    match s.threads[t]
    case LoopTest => s.(threads := s.threads[t := if s.running then Recheck else Dead])
    case Recheck => s.(threads := s.threads[t := if s.running then Looking else Dead])
    case Looking => s.(threads := s.threads[t := if s.queue != [] then Taking else LoopTest])
    case Taking =>
      if s.queue == [] then s
      else s.(threads := s.threads[t := Handling(s.queue[0])], queue := s.queue[1..])
    case Handling(e) => s.(threads := s.threads[t := LoopTest], handled := s.handled + [e])
    case Dead => s
  }

  ghost predicate Step(s: State, s': State, a: Action)
  {
    match a
    case Publish(event) => s' == PublishStep(s, event)
    case Start(thread, fails) => thread !in s.threads && s' == StartStep(s, thread, fails)
    case BeginStop(stopper) => stopper !in s.stops && s' == BeginStopStep(s, stopper)
    case EndJoin(stopper) => stopper in s.stops && s.stops[stopper].Joining? && s' == EndJoinStep(s, stopper)
    case EndStop(stopper) => stopper in s.stops && s.stops[stopper].Finishing? && s' == EndStopStep(s, stopper)
    case Process(thread) => thread in s.threads && s' == ProcessStep(s, thread)
  }

  /** A run: the states visited from a new bus, one action between each two. */
  ghost predicate Run(states: seq<State>, actions: seq<Action>) {
    && |states| == |actions| + 1
    && states[0] == INITIAL
    && forall i :: 0 <= i < |actions| ==> Step(states[i], states[i + 1], actions[i])
  }

  // ---------------------------------------------------------------- the bus object

  class Bus {
    var started: bool
    var running: bool
    var thread: Option<Thread>
    var eventQueue: seq<Event>
    var subscribers: map<Event, seq<Callback>>
    ghost var threads: map<Thread, Processor>
    ghost var stops: map<Stopper, Stopping>
    ghost var published: seq<Event>
    ghost var handled: seq<Event>

    ghost function Value(): (s: State)
      reads this
    {
      State(started, running, thread, threads, stops, eventQueue, published, handled)
    }

    constructor ()
      ensures Value() == INITIAL && subscribers == map[]
    {
      started, running, thread, eventQueue, subscribers := false, false, None, [], map[];
      threads, stops, published, handled := map[], map[], [], [];
    }

    method Subscribe(topic: Event, callback: Callback)
      modifies this`subscribers
      ensures subscribers == old(subscribers)[topic := Callbacks(old(subscribers), topic) + [callback]]
    {
      if topic !in subscribers {
        subscribers := subscribers[topic := []];
      }
      subscribers := subscribers[topic := subscribers[topic] + [callback]];
    }

    method Unsubscribe(topic: Event, callback: Callback) returns (found: bool)
      modifies this`subscribers
      ensures found <==> callback in Callbacks(old(subscribers), topic)
      ensures subscribers == if found then old(subscribers)[topic := Without(Callbacks(old(subscribers), topic), callback)]
                             else old(subscribers)
    {
      if topic !in subscribers || callback !in subscribers[topic] {
        return false;
      }
      var callbacks := subscribers[topic];
      var i := 0;
      while callbacks[i] != callback
        invariant 0 <= i < |callbacks|
        invariant callback !in callbacks[..i] && callback in callbacks[i..]
        decreases |callbacks| - i
      {
        i := i + 1;
      }
      WithoutAt(callbacks, callback, i);
      subscribers := subscribers[topic := callbacks[..i] + callbacks[i + 1..]];
      return true;
    }

    method PublishEvent(event: Event)
      modifies this`eventQueue, this`published
      ensures Value() == PublishStep(old(Value()), event)
    {
      if event == "" {
        return;
      }
      eventQueue := eventQueue + [event];
      published := published + [event];
    }

    /** `alive` is what the last thread says of itself, `made` the thread the system provides. */
    method StartBus(alive: bool, made: Thread, fails: bool)
      requires alive <==> !CurrentDead(Value())
      modifies this`running, this`started, this`thread, this`threads
      ensures Value() == StartStep(old(Value()), made, fails)
    {
      if started {
        return;
      }
      if !running && (thread.None? || !alive) {
        running := true;
        thread := Some(made);
        threads := threads[made := if fails then Dead else LoopTest];
        if !fails {
          started := true;
        }
      }
    }

    method BeginStopBus(ghost stopper: Stopper)
      modifies this`running, this`stops
      ensures Value() == BeginStopStep(old(Value()), stopper)
    {
      if !started {
        return;
      }
      running := false;
      stops := stops[stopper := Joining(thread)];
    }

    method EndStopBus(ghost stopper: Stopper)
      modifies this`started, this`stops
      ensures Value() == EndStopStep(old(Value()), stopper)
    {
      started := false;
      stops := stops - {stopper};
    }
  }

  function Callbacks(subscribers: map<Event, seq<Callback>>, topic: Event): (cs: seq<Callback>)
  {
    if topic in subscribers then subscribers[topic] else []
  }

  /** Subscribing and then unsubscribing a callback leaves the topic with the same callbacks, each as
      often as before; and in the same order if it was not subscribed already. */
  lemma {:induction false} UnsubscribeUndoesSubscribe(cs: seq<Callback>, c: Callback)
    ensures multiset(Without(cs + [c], c)) == multiset(cs)
    ensures c !in cs ==> Without(cs + [c], c) == cs
  {
    if cs == [] {
      assert cs + [c] == [c];
    } else {
      assert (cs + [c])[1..] == cs[1..] + [c];
      assert cs == [cs[0]] + cs[1..];
      if cs[0] != c {
        UnsubscribeUndoesSubscribe(cs[1..], c);
      }
    }
  }

  // ---------------------------------------------------------------- one consumer, no event lost or repeated

  /** The event a live thread has taken and not finished with. */
  function InHand(s: State): (events: seq<Event>)
  {
    if s.current.Some? && s.current.value in s.threads && s.threads[s.current.value].Handling?
    then [s.threads[s.current.value].event] else []
  }

  ghost predicate Inv(s: State) {
    && (s.current.Some? ==> s.current.value in s.threads)
    && (forall t :: t in s.threads && !s.threads[t].Dead? ==> s.current == Some(t))
    && (s.current.Some? && s.threads[s.current.value].Taking? ==> s.queue != [])
    && Logged(s)
  }

  ghost predicate Logged(s: State) {
    s.published == s.handled + InHand(s) + s.queue
  }

  lemma ProcessKeepsLog(s: State, t: Thread)
    requires Inv(s) && t in s.threads
    ensures var s' := ProcessStep(s, t);
            Logged(s')
  {
    var s' := ProcessStep(s, t);
    match s.threads[t]
    case Taking =>
      assert s.queue == [s.queue[0]] + s.queue[1..];
      assert InHand(s) == [] && InHand(s') == [s.queue[0]];
      assert s.handled + [] + s.queue == s.handled + [s.queue[0]] + s.queue[1..];
    case Handling(e) =>
      assert InHand(s) == [e] && InHand(s') == [];
      assert s'.handled + [] == s.handled + [e];
    case _ =>
      assert InHand(s') == InHand(s);
  }

  lemma ProcessKeepsInv(s: State, t: Thread)
    requires Inv(s) && t in s.threads
    ensures Inv(ProcessStep(s, t))
  {
    ProcessKeepsLog(s, t);
    hide Logged;
  }

  lemma StepKeepsInv(s: State, s': State, a: Action)
    requires Inv(s) && Step(s, s', a)
    ensures Inv(s')
  {
    hide ProcessStep;
    match a
    case Publish(event) =>
      assert s'.published == s.published + (if Accepted(event) then [event] else []);
    case Process(thread) =>
      ProcessKeepsInv(s, thread);
    case _ =>
      assert InHand(s') == InHand(s);
  }

  lemma {:induction false} RunKeepsInv(states: seq<State>, actions: seq<Action>, i: nat)
    requires Run(states, actions) && i < |states|
    ensures Inv(states[i])
  {
    if i > 0 {
      RunKeepsInv(states, actions, i - 1);
      StepKeepsInv(states[i - 1], states[i], actions[i - 1]);
    }
  }

  /** At most one processor thread is ever alive, through any number of starts and stops, including
      stops that give up waiting; and a thread about to take from the queue never finds it empty. */
  lemma OneProcessor(states: seq<State>, actions: seq<Action>, i: nat, t: Thread, u: Thread)
    requires Run(states, actions) && i < |states|
    requires t in states[i].threads && !states[i].threads[t].Dead?
    ensures u in states[i].threads && !states[i].threads[u].Dead? ==> u == t
    ensures states[i].threads[t].Taking? ==> states[i].queue != []
  {
    RunKeepsInv(states, actions, i);
  }

  /** The events published are always those handled, then at most one in hand, then those queued: events
      are handled in the order published, none twice and none lost, across restarts. */
  lemma DeliveredInOrder(states: seq<State>, actions: seq<Action>, i: nat)
    requires Run(states, actions) && i < |states|
    ensures states[i].published == states[i].handled + InHand(states[i]) + states[i].queue
    ensures |InHand(states[i])| <= 1
    ensures states[i].handled <= states[i].published
  {
    RunKeepsInv(states, actions, i);
  }

  /** The events the callers published: those of the publishing actions that name a topic, in order. */
  function PublishedBy(actions: seq<Action>): (events: seq<Event>)
  {
    if actions == [] then []
    else
      var front, last := actions[..|actions| - 1], actions[|actions| - 1];
      if last.Publish? && last.event != "" then PublishedBy(front) + [last.event] else PublishedBy(front)
  }

  lemma StepPublishes(s: State, s': State, a: Action)
    requires Step(s, s', a)
    ensures s'.published == if a.Publish? && a.event != "" then s.published + [a.event] else s.published
  {
  }

  lemma {:induction false} PublishedIs(states: seq<State>, actions: seq<Action>, i: nat)
    requires Run(states, actions) && i < |states|
    ensures states[i].published == PublishedBy(actions[..i])
  {
    if i > 0 {
      PublishedIs(states, actions, i - 1);
      assert Step(states[i - 1], states[i], actions[i - 1]);
      StepPublishes(states[i - 1], states[i], actions[i - 1]);
      hide Step, Run;
      assert actions[..i][..i - 1] == actions[..i - 1];
    }
  }

  /** Every event ever published with a topic is handled, in hand or queued, once and in the order of the publishing,
      through any number of starts and stops. */
  lemma EveryEventAccountedFor(states: seq<State>, actions: seq<Action>, i: nat)
    requires Run(states, actions) && i < |states|
    ensures PublishedBy(actions[..i]) == states[i].handled + InHand(states[i]) + states[i].queue
  {
    hide Run;
    PublishedIs(states, actions, i);
    DeliveredInOrder(states, actions, i);
  }

  // ---------------------------------------------------------------- progress of the processor

  /** k steps of one thread, nothing else happening. */
  function ProcessAlone(s: State, t: Thread, k: nat): (s': State)
    requires t in s.threads
    ensures t in s'.threads
  {
    if k == 0 then s else ProcessStep(ProcessAlone(s, t, k - 1), t)
  }

  lemma {:induction false} AloneSums(s: State, t: Thread, j: nat, k: nat)
    requires t in s.threads
    ensures ProcessAlone(s, t, j + k) == ProcessAlone(ProcessAlone(s, t, j), t, k)
  {
    hide ProcessStep;
    if k > 0 {
      AloneSums(s, t, j, k - 1);
    }
  }

  lemma AloneNext(s: State, t: Thread, s1: State, s2: State, k: nat)
    requires t in s.threads && t in s1.threads && ProcessAlone(s, t, k) == s1 && ProcessStep(s1, t) == s2
    ensures ProcessAlone(s, t, k + 1) == s2
  {
    hide ProcessStep;
  }

  /** The states a thread goes through in one round of its loop. */
  function InRound(s: State, t: Thread, k: nat): (s': State)
    requires s.queue != []
  {
    match k
    case 0 => s.(threads := s.threads[t := LoopTest])
    case 1 => s.(threads := s.threads[t := Recheck])
    case 2 => s.(threads := s.threads[t := Looking])
    case 3 => s.(threads := s.threads[t := Taking])
    case 4 => s.(threads := s.threads[t := Handling(s.queue[0])], queue := s.queue[1..])
    case _ => s.(threads := s.threads[t := LoopTest], queue := s.queue[1..], handled := s.handled + [s.queue[0]])
  }

  lemma MovedTwice(threads: map<Thread, Processor>, t: Thread, p: Processor, q: Processor)
    ensures threads[t := p][t := q] == threads[t := q]
  {
  }

  lemma RoundStep(s: State, t: Thread, k: nat)
    requires s.running && s.queue != [] && k < 5
    ensures t in InRound(s, t, k).threads && ProcessStep(InRound(s, t, k), t) == InRound(s, t, k + 1)
  {
    MovedTwice(s.threads, t, InRound(s, t, k).threads[t], InRound(s, t, k + 1).threads[t]);
    if k < 2 {
      assert k == 0 || k == 1;
    } else if k == 2 {
      assert InRound(s, t, k).threads[t] == Looking;
    } else if k == 3 {
      assert InRound(s, t, k).threads[t] == Taking;
    } else {
      assert InRound(s, t, k).threads[t] == Handling(s.queue[0]);
    }
  }

  lemma {:induction false} RoundAlone(s: State, t: Thread, k: nat)
    requires t in s.threads && s.threads[t].LoopTest? && s.running && s.queue != [] && k <= 5
    ensures ProcessAlone(s, t, k) == InRound(s, t, k)
  {
    if k > 0 {
      hide ProcessStep, InRound, ProcessAlone;
      RoundAlone(s, t, k - 1);
      RoundStep(s, t, k - 1);
      AloneNext(s, t, InRound(s, t, k - 1), InRound(s, t, k), k - 1);
    } else {
      assert s.threads[t := LoopTest] == s.threads;
    }
  }

  /** One round of the loop handles the event at the head of the queue. */
  lemma OneRound(s: State, t: Thread)
    requires t in s.threads && s.threads[t].LoopTest? && s.running && s.queue != []
    ensures ProcessAlone(s, t, 5) == s.(queue := s.queue[1..], handled := s.handled + [s.queue[0]])
  {
    hide ProcessAlone, ProcessStep;
    RoundAlone(s, t, 5);
    assert s.threads[t := LoopTest] == s.threads;
  }

  /** While the flag is up, a thread left to itself handles everything that is queued, in order. */
  lemma {:induction false} QueueDrains(s: State, t: Thread)
    requires t in s.threads && s.threads[t].LoopTest? && s.running
    ensures ProcessAlone(s, t, 5 * |s.queue|) == s.(queue := [], handled := s.handled + s.queue)
    decreases |s.queue|
  {
    if s.queue != [] {
      OneRound(s, t);
      var next := s.(queue := s.queue[1..], handled := s.handled + [s.queue[0]]);
      hide ProcessAlone, ProcessStep;
      assert next.threads[t].LoopTest? && next.running && |next.queue| == |s.queue| - 1;
      QueueDrains(next, t);
      AloneSums(s, t, 5, 5 * |next.queue|);
      assert s.handled + [s.queue[0]] + s.queue[1..] == s.handled + s.queue;
    } else {
      assert s.handled + [] == s.handled;
    }
  }

  /** The steps a thread can still take once the flag is down. */
  function StepsLeft(p: Processor): (n: nat)
  {
    match p
    case LoopTest => 1
    case Recheck => 1
    case Looking => 4
    case Taking => 3
    case Handling(_) => 2
    case Dead => 0
  }

  /** The events it can still handle. */
  function EventsLeft(p: Processor): (n: nat)
  {
    if p.Looking? || p.Taking? || p.Handling? then 1 else 0
  }

  lemma LoweredStep(s: State, t: Thread)
    requires Inv(s) && t in s.threads && !s.running
    ensures var s' := ProcessStep(s, t);
            && t in s'.threads && !s'.running
            && (s.threads[t].Dead? || StepsLeft(s'.threads[t]) < StepsLeft(s.threads[t]))
            && (s.threads[t].Dead? ==> s'.threads[t].Dead?)
            && |s'.handled| + EventsLeft(s'.threads[t]) <= |s.handled| + EventsLeft(s.threads[t])
  {
  }

  lemma {:induction false} LoweredAlone(s: State, t: Thread, k: nat)
    requires Inv(s) && t in s.threads && !s.running
    ensures var s' := ProcessAlone(s, t, k);
            && Inv(s') && !s'.running
            && (s'.threads[t].Dead? || StepsLeft(s'.threads[t]) + k <= StepsLeft(s.threads[t]))
            && |s'.handled| + EventsLeft(s'.threads[t]) <= |s.handled| + EventsLeft(s.threads[t])
  {
    hide ProcessStep, StepsLeft, EventsLeft, Inv;
    if k > 0 {
      LoweredAlone(s, t, k - 1);
      LoweredStep(ProcessAlone(s, t, k - 1), t);
      ProcessKeepsInv(ProcessAlone(s, t, k - 1), t);
    }
  }

  /** Once the flag is down, a thread left to itself is dead after four steps and has handled at most one event more. */
  lemma LoweredFlagEndsThread(s: State, t: Thread)
    requires Inv(s) && t in s.threads && !s.running
    ensures ProcessAlone(s, t, 4).threads[t].Dead?
    ensures |ProcessAlone(s, t, 4).handled| <= |s.handled| + 1
  {
    hide ProcessAlone, ProcessStep, Inv;
    LoweredAlone(s, t, 4);
  }

  // ---------------------------------------------------------------- when the bus can still be stopped

  /** The flag is up although the bus counts as not started. */
  predicate Wedged(s: State) {
    s.running && !s.started
  }

  /** Once wedged, a bus stays wedged: no later call of start or stop changes it and its thread, if it
      has one, never ends. */
  lemma {:induction false} WedgedForever(states: seq<State>, actions: seq<Action>, i: nat, j: nat)
    requires |states| == |actions| + 1 && i <= j < |states|
    requires forall k :: 0 <= k < |actions| ==> Step(states[k], states[k + 1], actions[k])
    requires Wedged(states[i])
    ensures Wedged(states[j]) && states[j].current == states[i].current
    ensures forall t :: t in states[i].threads && !states[i].threads[t].Dead?
              ==> t in states[j].threads && !states[j].threads[t].Dead?
    decreases j
  {
    if i < j {
      WedgedForever(states, actions, i, j - 1);
      assert Step(states[j - 1], states[j], actions[j - 1]);
    }
  }

  /** An action that wedges a bus: the system refuses a thread, or a stop ends while the flag is up again
      because a start came between. */
  predicate Wedges(s: State, a: Action) {
    || (a.Start? && a.fails && !s.started && !s.running && CurrentDead(s))
    || (a.EndStop? && s.running)
  }

  /** Exactly how a bus becomes wedged. */
  lemma WedgedBy(s: State, s': State, a: Action)
    requires Step(s, s', a) && !Wedged(s)
    ensures Wedged(s') <==> Wedges(s, a)
  {
  }

  /** Over a whole run: a bus is wedged exactly when some earlier action wedged it. Nothing else does, and nothing mends it. */
  lemma {:induction false} WedgedIff(states: seq<State>, actions: seq<Action>, i: nat)
    requires Run(states, actions) && i < |states|
    ensures Wedged(states[i]) <==> exists j :: 0 <= j < i && Wedges(states[j], actions[j])
  {
    if i > 0 {
      WedgedIff(states, actions, i - 1);
      assert Step(states[i - 1], states[i], actions[i - 1]);
      if Wedged(states[i - 1]) {
        WedgedForever(states, actions, i - 1, i);
      } else {
        WedgedBy(states[i - 1], states[i], actions[i - 1]);
      }
    }
  }

  // ---------------------------------------------------------------- the same, told by the callers' history

  /** A start that takes effect: it raises the flag. */
  predicate Raises(s: State, a: Action) {
    a.Start? && !s.started && !s.running && CurrentDead(s)
  }

  /** A stop that takes effect begins: it lowers the flag. */
  predicate Lowers(s: State, a: Action) {
    a.BeginStop? && s.started
  }

  /** At step r a start took effect, and no stop began in the steps after it up to j. */
  ghost predicate LastRaised(states: seq<State>, actions: seq<Action>, r: nat, j: nat) {
    && r < j <= |actions| < |states| && Raises(states[r], actions[r])
    && forall q :: r < q < j ==> !Lowers(states[q], actions[q])
  }

  lemma FlagMoves(s: State, s': State, a: Action)
    requires Step(s, s', a)
    ensures s'.running <==> Raises(s, a) || (s.running && !Lowers(s, a))
    ensures Raises(s, a) ==> !Lowers(s, a)
  {
  }

  /** A start that takes effect leaves the bus started with a new thread about to test the flag, and all other threads
      as they were; if the system refuses the thread the flag is up, the bus not started and no thread alive. */
  lemma StartMakesProcessor(s: State, s': State, a: Action)
    requires Inv(s) && Step(s, s', a) && Raises(s, a)
    ensures s'.running && s'.current == Some(a.thread) && a.thread !in s.threads
    ensures s'.started <==> !a.fails
    ensures a.thread in s'.threads && s'.threads[a.thread] == (if a.fails then Dead else LoopTest)
    ensures forall t :: t in s.threads ==> t in s'.threads && s'.threads[t] == s.threads[t] == Dead
    ensures s'.queue == s.queue && s'.handled == s.handled
  {
  }

  /** The flag is up exactly when the last action that moved it was a start. */
  lemma {:induction false} RunningIff(states: seq<State>, actions: seq<Action>, j: nat)
    requires Run(states, actions) && j < |states|
    ensures states[j].running <==> exists r: nat :: LastRaised(states, actions, r, j)
  {
    if j > 0 {
      RunningIff(states, actions, j - 1);
      assert |actions| < |states| && Step(states[j - 1], states[j], actions[j - 1]);
      hide Run, Step, Raises, Lowers;
      FlagMoves(states[j - 1], states[j], actions[j - 1]);
      forall r: nat | LastRaised(states, actions, r, j) ensures states[j].running {
        if r < j - 1 {
          assert LastRaised(states, actions, r, j - 1);
        }
      }
      if states[j].running {
        if states[j - 1].running && !Lowers(states[j - 1], actions[j - 1]) {
          var r: nat :| LastRaised(states, actions, r, j - 1);
          assert LastRaised(states, actions, r, j);
        } else {
          assert LastRaised(states, actions, j - 1, j);
        }
      }
    }
  }

  /** A stop in progress at step j began at step b. */
  ghost predicate BeganAt(states: seq<State>, actions: seq<Action>, b: nat, j: nat, x: Stopper) {
    b < j <= |actions| < |states| && Lowers(states[b], actions[b]) && actions[b].stopper == x
  }

  lemma {:induction false} StopBegan(states: seq<State>, actions: seq<Action>, j: nat, x: Stopper) returns (b: nat)
    requires Run(states, actions) && j < |states| && x in states[j].stops
    ensures BeganAt(states, actions, b, j, x)
  {
    assert j > 0 by {
      assert states[0].stops == map[];
    }
    assert Step(states[j - 1], states[j], actions[j - 1]);
    if x in states[j - 1].stops {
      b := StopBegan(states, actions, j - 1, x);
    } else {
      b := j - 1;
    }
  }

  /** The stop that ends at step j began at step b, before the start that took effect at step r; and no stop has
      begun since that start. */
  ghost predicate StopSpansStart(states: seq<State>, actions: seq<Action>, b: nat, r: nat, j: nat) {
    && j < |actions| && actions[j].EndStop?
    && b < r && BeganAt(states, actions, b, j, actions[j].stopper)
    && LastRaised(states, actions, r, j)
  }

  ghost predicate RefusedAt(states: seq<State>, actions: seq<Action>, j: nat) {
    j < |actions| < |states| && Raises(states[j], actions[j]) && actions[j].fails
  }

  /** What the callers did to a wedged bus: exactly that the system refused a thread to a start, or that a stop
      begun before a start ended after it with no other stop begun in between. */
  lemma WedgedHistoryIff(states: seq<State>, actions: seq<Action>, i: nat)
    requires Run(states, actions) && i < |states|
    ensures Wedged(states[i])
       <==> || (exists j: nat :: j < i && RefusedAt(states, actions, j))
            || (exists b: nat, r: nat, j: nat :: j < i && StopSpansStart(states, actions, b, r, j))
  {
    WedgedIff(states, actions, i);
    if Wedged(states[i]) {
      var j :| 0 <= j < i && Wedges(states[j], actions[j]);
      if actions[j].EndStop? {
        RunningIff(states, actions, j);
        var r: nat :| LastRaised(states, actions, r, j);
        assert Step(states[j], states[j + 1], actions[j]);
        var b := StopBegan(states, actions, j, actions[j].stopper);
        RaisedAfter(states, actions, b, r, j);
        assert StopSpansStart(states, actions, b, r, j);
      } else {
        assert RefusedAt(states, actions, j);
      }
    } else {
      if j: nat :| j < i && RefusedAt(states, actions, j) {
        assert Wedges(states[j], actions[j]);
        assert false;
      }
      if b: nat, r: nat, j: nat :| j < i && StopSpansStart(states, actions, b, r, j) {
        RunningIff(states, actions, j);
        assert Wedges(states[j], actions[j]);
        assert false;
      }
    }
  }

  lemma RaisedAfter(states: seq<State>, actions: seq<Action>, b: nat, r: nat, j: nat)
    requires LastRaised(states, actions, r, j) && b < j && Lowers(states[b], actions[b])
    ensures b < r
  {
  }

  /** No two stops overlap and no thread is refused. */
  ghost predicate Orderly(states: seq<State>, actions: seq<Action>) {
    && (forall i :: 0 <= i < |states| ==> |states[i].stops| <= 1)
    && (forall i :: 0 <= i < |actions| ==> actions[i].Start? ==> !actions[i].fails)
  }

  ghost predicate OrderlyState(s: State) {
    && (s.running ==> s.started)
    && (s.stops != map[] ==> s.started && !s.running)
  }

  lemma OrderlyStep(s: State, s': State, a: Action)
    requires OrderlyState(s) && Step(s, s', a) && |s.stops| <= 1
    requires a.Start? ==> !a.fails
    ensures OrderlyState(s')
  {
    if a.EndStop? {
      var stopper := a.stopper;
      if s'.stops != map[] {
        var other :| other in s'.stops;
        assert {stopper, other} <= s.stops.Keys;
        TwoKeys(s.stops.Keys, stopper, other);
      }
    }
  }

  lemma TwoKeys(keys: set<Stopper>, a: Stopper, b: Stopper)
    requires a in keys && b in keys && a != b
    ensures |keys| >= 2
  {
    assert |keys - {a}| == |keys| - 1;
    assert b in keys - {a};
  }

  /** Callers that never let two stops overlap can always stop the bus: it is never wedged. */
  lemma {:induction false} OrderlyNeverWedged(states: seq<State>, actions: seq<Action>, i: nat)
    requires Run(states, actions) && Orderly(states, actions) && i < |states|
    ensures OrderlyState(states[i]) && !Wedged(states[i])
  {
    if i > 0 {
      OrderlyNeverWedged(states, actions, i - 1);
      OrderlyStep(states[i - 1], states[i], actions[i - 1]);
    }
  }

  /** A bus is started; two stops begin; its thread ends; the first stop ends; the bus is started again;
      the second stop ends. */
  function WedgingAction(k: nat): (a: Action)
  {
    [Start(0, false), BeginStop(1), BeginStop(2), Process(0), EndJoin(1), EndStop(1), Start(3, false), EndJoin(2), EndStop(2)][k % 9]
  }

  function WedgingState(k: nat): (s: State)
  {
    var waiting := Joining(Some(0));
    if k == 0 then INITIAL
    else if k == 1 then State(true, true, Some(0), map[0 := LoopTest], map[], [], [], [])
    else if k == 2 then State(true, false, Some(0), map[0 := LoopTest], map[1 := waiting], [], [], [])
    else if k == 3 then State(true, false, Some(0), map[0 := LoopTest], map[1 := waiting, 2 := waiting], [], [], [])
    else if k == 4 then State(true, false, Some(0), map[0 := Dead], map[1 := waiting, 2 := waiting], [], [], [])
    else if k == 5 then State(true, false, Some(0), map[0 := Dead], map[1 := Finishing, 2 := waiting], [], [], [])
    else if k == 6 then State(false, false, Some(0), map[0 := Dead], map[2 := waiting], [], [], [])
    else if k == 7 then State(true, true, Some(3), map[0 := Dead, 3 := LoopTest], map[2 := waiting], [], [], [])
    else if k == 8 then State(true, true, Some(3), map[0 := Dead, 3 := LoopTest], map[2 := Finishing], [], [], [])
    else State(false, true, Some(3), map[0 := Dead, 3 := LoopTest], map[], [], [], [])
  }

  lemma WedgingStep(k: nat)
    requires k < 9
    ensures Step(WedgingState(k), WedgingState(k + 1), WedgingAction(k))
  {
    hide Step, WedgingState, WedgingAction;
    if k < 4 {
      FirstWedgingSteps(k);
    } else {
      LastWedgingSteps(k);
    }
  }

  lemma FirstWedgingSteps(k: nat)
    requires k < 4
    ensures Step(WedgingState(k), WedgingState(k + 1), WedgingAction(k))
  {
  }

  lemma LastWedgingSteps(k: nat)
    requires 4 <= k < 9
    ensures Step(WedgingState(k), WedgingState(k + 1), WedgingAction(k))
  {
  }

  /** Two overlapping stops around a start are enough to wedge the bus. */
  lemma OverlappingStopsWedge()
    ensures exists states, actions :: Run(states, actions) && Wedged(states[|states| - 1])
  {
    var states := seq(10, (k: nat) => WedgingState(k));
    var actions := seq(9, (k: nat) => WedgingAction(k));
    forall k | 0 <= k < 9 ensures Step(states[k], states[k + 1], actions[k]) {
      WedgingStep(k);
    }
    hide Step, WedgingAction;
    assert states[0] == INITIAL && Wedged(states[9]);
    assert Run(states, actions) && Wedged(states[|states| - 1]);
  }
}
