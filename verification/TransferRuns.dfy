/** Runs of the block transfer manager over many request ids: what one transfer's record depends on,
    how often a transfer is handed out, and what the arrival order can and cannot change. */
module TransferRuns {
  import Binary
  import PythonInts
  import opened Frames
  import opened BlockTransfer
  import opened Wrappers

  datatype Step =
    | RegisterStep(id: string, sequence: int, total: int, data: seq<Item>, now: real)
    | AssembleStep(id: string)
    | ClearStep(id: string)
    | CleanupStep(now: real, maxAge: real)

  function Apply(table: Table, step: Step): (table': Table)
    requires WellFormed(table)
    ensures WellFormed(table')
  {
    match step
    case RegisterStep(id, sequence, total, data, now) =>
      RegisterKeepsTable(table, id, sequence, total, data, now);
      Register(table, id, sequence, total, data, now)
    case AssembleStep(id) => Assemble(table, id).0
    case ClearStep(id) => table - {id}
    case CleanupStep(now, maxAge) => Cleanup(table, now, maxAge)
  }

  function Run(table: Table, steps: seq<Step>): (table': Table)
    requires WellFormed(table)
    ensures WellFormed(table')
  {
    if |steps| == 0 then table else Apply(Run(table, steps[..|steps| - 1]), steps[|steps| - 1])
  }

  // ---------------------------------------------------------------- non-interference

  /** The steps that can touch the record of `id`: its own, and the clean-ups. */
  predicate Concerns(step: Step, id: string) {
    step.CleanupStep? || step.id == id
  }

  function Only(steps: seq<Step>, id: string): (own: seq<Step>)
    ensures forall step :: step in own ==> Concerns(step, id)
    ensures |own| <= |steps|
  {
    if |steps| == 0 then []
    else
      var last := steps[|steps| - 1];
      Only(steps[..|steps| - 1], id) + (if Concerns(last, id) then [last] else [])
  }

  ghost predicate SameRecord(a: Table, b: Table, id: string) {
    (id in a <==> id in b) && (id in a ==> a[id] == b[id])
  }

  lemma StepIsLocal(a: Table, b: Table, step: Step, id: string)
    requires WellFormed(a) && WellFormed(b) && SameRecord(a, b, id)
    ensures Concerns(step, id) ==> SameRecord(Apply(a, step), Apply(b, step), id)
    ensures !Concerns(step, id) ==> SameRecord(Apply(a, step), b, id)
  {
    hide WellFormed, Consistent, Receive, Assembled;
  }

  /** Non-interference: in any run, the record of one id is what replaying only that id's steps and
      the clean-ups produces. */
  lemma {:induction false} RecordDependsOnOwnSteps(table: Table, steps: seq<Step>, id: string)
    requires WellFormed(table)
    ensures SameRecord(Run(table, steps), Run(table, Only(steps, id)), id)
  {
    if |steps| > 0 {
      var front, last := steps[..|steps| - 1], steps[|steps| - 1];
      RecordDependsOnOwnSteps(table, front, id);
      var own := Only(front, id);
      StepIsLocal(Run(table, front), Run(table, own), last, id);
      if Concerns(last, id) {
        assert (own + [last])[..|own|] == own;
      } else {
        assert own + [] == own;
      }
    }
  }

  /** In every reachable state each record's counter is its number of filled slots and it is complete
      exactly when all are filled. */
  lemma ReachableRecordsConsistent(steps: seq<Step>, id: string)
    requires id in Run(map[], steps)
    ensures var t := Run(map[], steps)[id];
            && t.received == Filled(t.blocks)
            && (t.complete <==> forall k :: 0 <= k < t.total ==> t.blocks[k].Some?)
            && (t.complete <==> t.received == t.total)
  {
    assert WellFormed(Run(map[], steps));
    FilledAll(Run(map[], steps)[id].blocks);
  }

  // ---------------------------------------------------------------- handed out at most once

  /** The step starts a new record for `id`. */
  predicate Opens(table: Table, step: Step, id: string) {
    step.RegisterStep? && step.id == id && id !in table && !Rejected(id, step.sequence, step.total)
  }

  /** The step hands out the assembled data of `id`. */
  predicate HandsOut(table: Table, step: Step, id: string) {
    step.AssembleStep? && step.id == id && Assemble(table, id).1.Some?
  }

  /** The step discards a record for `id` without handing it out. */
  predicate Discards(table: Table, step: Step, id: string) {
    id in table && ((step.ClearStep? && step.id == id) || (step.CleanupStep? && Stale(table[id], step.now, step.maxAge)))
  }

  function Count(table: Table, steps: seq<Step>, happens: (Table, Step) -> bool): (n: nat)
    requires WellFormed(table)
    ensures n <= |steps|
  {
    if |steps| == 0 then 0
    else
      var front, last := steps[..|steps| - 1], steps[|steps| - 1];
      Count(table, front, happens) + (if happens(Run(table, front), last) then 1 else 0)
  }

  function Opened(steps: seq<Step>, id: string): nat {
    Count(map[], steps, (table, step) => Opens(table, step, id))
  }

  function HandedOut(steps: seq<Step>, id: string): nat {
    Count(map[], steps, (table, step) => HandsOut(table, step, id))
  }

  function Discarded(steps: seq<Step>, id: string): nat {
    Count(map[], steps, (table, step) => Discards(table, step, id))
  }

  /** Conservation: every record opened for an id has been handed out once, discarded once, or is
      still pending. So a completed transfer is never handed out twice. */
  lemma {:induction false} HandedOutAtMostOnce(steps: seq<Step>, id: string)
    ensures HandedOut(steps, id) + Discarded(steps, id) + (if id in Run(map[], steps) then 1 else 0)
         == Opened(steps, id)
    ensures HandedOut(steps, id) <= Opened(steps, id)
  {
    if |steps| > 0 {
      var front, last := steps[..|steps| - 1], steps[|steps| - 1];
      HandedOutAtMostOnce(front, id);
      PresenceChange(Run(map[], front), last, id);
    }
  }

  lemma PresenceChange(table: Table, step: Step, id: string)
    requires WellFormed(table)
    ensures id in table ==>
      (id in Apply(table, step) <==> !HandsOut(table, step, id) && !Discards(table, step, id))
      && !(HandsOut(table, step, id) && Discards(table, step, id))
      && !Opens(table, step, id)
    ensures id !in table ==>
      (id in Apply(table, step) <==> Opens(table, step, id))
      && !HandsOut(table, step, id) && !Discards(table, step, id)
  {
    hide WellFormed, Consistent, Receive, Assembled;
  }

  // ---------------------------------------------------------------- arrival order

  /** One block as it arrives: `total` and `now` may differ between resends. */
  datatype Arrival = Arrival(sequence: int, total: int, data: seq<Item>, now: real)

  function Arrive(id: string, arrivals: seq<Arrival>): (steps: seq<Step>)
    ensures |steps| == |arrivals|
  {
    seq(|arrivals|, i requires 0 <= i < |arrivals| =>
      RegisterStep(id, arrivals[i].sequence, arrivals[i].total, arrivals[i].data, arrivals[i].now))
  }

  /** Arrivals of a transfer of n blocks numbered from `low`, 0 or 1: the first announces n, and every number
      is one of the n. */
  predicate Numbered(arrivals: seq<Arrival>, low: nat, n: nat) {
    && |arrivals| > 0 && n >= 1 && low <= 1 && arrivals[0].total == n
    && forall i :: 0 <= i < |arrivals| ==> low <= arrivals[i].sequence < low + n && arrivals[i].total >= 1
  }

  /** The slot of block k of n, which depends on whether block 0 came first of all. */
  function SlotOf(arrivals: seq<Arrival>, n: nat, k: nat): (slot: nat)
    requires |arrivals| > 0 && n >= 1
  {
    if arrivals[0].sequence == 0 then k else if k == 0 then n - 1 else k - 1
  }

  /** The block that takes slot i of n. */
  function BlockIn(arrivals: seq<Arrival>, low: nat, n: nat, i: nat): (k: nat)
    requires Numbered(arrivals, low, n) && i < n
    ensures low <= k < low + n && SlotOf(arrivals, n, k) == i
  {
    if low == 1 then i + 1 else if arrivals[0].sequence == 0 then i else (i + 1) % n
  }

  /** The data of the first arrival numbered k. */
  function Winner(arrivals: seq<Arrival>, k: nat): (w: Option<seq<Item>>)
  {
    if |arrivals| == 0 then None
    else
      var earlier := Winner(arrivals[..|arrivals| - 1], k);
      var last := arrivals[|arrivals| - 1];
      if earlier.Some? then earlier else if last.sequence == k then Some(last.data) else None
  }

  /** Block 1 has arrived and its leading word counts objects. */
  predicate Marked(arrivals: seq<Arrival>) {
    var first := Winner(arrivals, 1);
    first.Some? && CountsObjects(first.value)
  }

  /** What block k's slot holds after the arrivals, given what had arrived when its winner came. */
  function Stored(arrivals: seq<Arrival>, k: nat): (s: Option<seq<Item>>)
  {
    if |arrivals| == 0 then None
    else
      var front, last := arrivals[..|arrivals| - 1], arrivals[|arrivals| - 1];
      var earlier := Stored(front, k);
      if earlier.Some? then earlier
      else if last.sequence == k then Some(if Marked(front) || (k == 1 && CountsObjects(last.data)) then last.data else Strip(last.data))
      else None
  }

  /** What block k's slot would hold had block 1 come first. */
  function Canonical(arrivals: seq<Arrival>, k: nat): (s: Option<seq<Item>>)
  {
    var w := Winner(arrivals, k);
    if w.None? then None else Some(if Marked(arrivals) then w.value else Strip(w.value))
  }

  /** Block k's first arrival came before block 1's. */
  predicate Overtakes(arrivals: seq<Arrival>, k: nat)
  {
    |arrivals| > 0
    && (var front := arrivals[..|arrivals| - 1];
        Overtakes(front, k) || (Winner(front, k).None? && Winner(front, 1).None? && k != 1 && arrivals[|arrivals| - 1].sequence == k))
  }

  ghost predicate Describes(t: Transfer, arrivals: seq<Arrival>, low: nat, n: nat)
    requires Numbered(arrivals, low, n)
  {
    && t.total == n && |t.blocks| == n
    && (t.zeroBased <==> arrivals[0].sequence == 0)
    && (t.precip <==> Marked(arrivals))
    && forall k :: low <= k < low + n ==> t.blocks[SlotOf(arrivals, n, k)] == Stored(arrivals, k)
  }

  lemma {:induction false} StoredIffWinner(arrivals: seq<Arrival>, k: nat)
    ensures Stored(arrivals, k).Some? <==> Winner(arrivals, k).Some?
  {
    if |arrivals| > 0 {
      StoredIffWinner(arrivals[..|arrivals| - 1], k);
    }
  }

  lemma ReceiveDescribed(t: Transfer, front: seq<Arrival>, last: Arrival, low: nat, n: nat)
    requires Numbered(front, low, n) && Numbered(front + [last], low, n) && Describes(t, front, low, n)
    requires low <= last.sequence < low + n
    ensures Describes(Receive(t, last.sequence, last.data), front + [last], low, n)
  {
    var all := front + [last];
    assert all[..|all| - 1] == front && all[0] == front[0];
    var t' := Receive(t, last.sequence, last.data);
    StoredIffWinner(front, last.sequence);
    StoredIffWinner(front, 1);
    assert Slot(t, last.sequence) == SlotOf(front, n, last.sequence);
    forall k | low <= k < low + n ensures t'.blocks[SlotOf(all, n, k)] == Stored(all, k) {
      assert k != last.sequence ==> SlotOf(front, n, k) != SlotOf(front, n, last.sequence);
    }
  }

  lemma FirstDescribed(arrivals: seq<Arrival>, low: nat, n: nat)
    requires Numbered(arrivals, low, n) && |arrivals| == 1
    ensures var a := arrivals[0];
            Describes(Receive(FreshTransfer(a.sequence, n, a.now), a.sequence, a.data), arrivals, low, n)
  {
    var a := arrivals[0];
    assert Winner(arrivals[..0], 1).None?;
    var started := FreshTransfer(a.sequence, n, a.now);
    assert Slot(started, a.sequence) == SlotOf(arrivals, n, a.sequence);
  }

  /** Arrivals are registered one after the other. */
  lemma LastRegisters(id: string, front: seq<Arrival>, last: Arrival)
    ensures WellFormed(Run(map[], Arrive(id, front)))
    ensures Run(map[], Arrive(id, front + [last]))
         == Register(Run(map[], Arrive(id, front)), id, last.sequence, last.total, last.data, last.now)
    ensures Run(map[], Arrive(id, [])) == map[]
  {
    var steps := Arrive(id, front + [last]);
    hide WellFormed, Register;
    assert steps[..|steps| - 1] == Arrive(id, front);
  }

  /** The record after any non-empty sequence of arrivals, whatever the numbering and whichever came first. */
  lemma {:induction false} RecordAfterArrivals(id: string, arrivals: seq<Arrival>, low: nat, n: nat)
    requires id != "" && Numbered(arrivals, low, n)
    ensures var table := Run(map[], Arrive(id, arrivals));
            id in table && Describes(table[id], arrivals, low, n)
  {
    hide Describes, Run, Arrive, Receive, Slot, Filled;
    var front, last := arrivals[..|arrivals| - 1], arrivals[|arrivals| - 1];
    assert arrivals == front + [last];
    LastRegisters(id, front, last);
    if |front| == 0 {
      FirstDescribed(arrivals, low, n);
    } else {
      RecordAfterArrivals(id, front, low, n);
      var t := Run(map[], Arrive(id, front))[id];
      assert Consistent(t);
      ReceiveDescribed(t, front, last, low, n);
    }
  }

  lemma {:induction false} MarkedStays(front: seq<Arrival>, last: Arrival, k: nat)
    ensures Winner(front, k).Some? ==> Winner(front + [last], k) == Winner(front, k)
    ensures Winner(front, 1).Some? ==> Marked(front + [last]) == Marked(front)
  {
    assert (front + [last])[..|front|] == front;
  }

  /** A slot holds its canonical content exactly when block 1's word count did not come too late for
      it: block 1 carries no count, or did not come after block k, or block k is too short to strip. */
  lemma {:induction false} SlotIsCanonical(arrivals: seq<Arrival>, k: nat)
    requires Winner(arrivals, k).Some?
    ensures Stored(arrivals, k) == Canonical(arrivals, k)
       <==> !Marked(arrivals) || !Overtakes(arrivals, k) || |Winner(arrivals, k).value| <= 2
  {
    var front, last := arrivals[..|arrivals| - 1], arrivals[|arrivals| - 1];
    assert arrivals == front + [last];
    StoredIffWinner(front, k);
    if Winner(front, k).Some? {
      SlotIsCanonical(front, k);
      MarkedStays(front, last, k);
      if Winner(front, 1).None? {
        OvertakesUnlessFirst(front, k);
        StoredUnmarked(front, k);
      }
    } else {
      NotYetOvertaking(front, k);
    }
  }

  lemma {:induction false} NotYetOvertaking(arrivals: seq<Arrival>, k: nat)
    requires Winner(arrivals, k).None?
    ensures !Overtakes(arrivals, k)
  {
    if |arrivals| > 0 {
      NotYetOvertaking(arrivals[..|arrivals| - 1], k);
    }
  }

  lemma {:induction false} OvertakesUnlessFirst(arrivals: seq<Arrival>, k: nat)
    requires Winner(arrivals, k).Some? && Winner(arrivals, 1).None?
    ensures Overtakes(arrivals, k)
  {
    var front := arrivals[..|arrivals| - 1];
    if Winner(front, k).Some? {
      OvertakesUnlessFirst(front, k);
    }
  }

  lemma {:induction false} StoredUnmarked(arrivals: seq<Arrival>, k: nat)
    requires Winner(arrivals, k).Some? && Winner(arrivals, 1).None?
    ensures Stored(arrivals, k) == Some(Strip(Winner(arrivals, k).value))
  {
    var front := arrivals[..|arrivals| - 1];
    StoredIffWinner(front, k);
    if Winner(front, k).Some? {
      StoredUnmarked(front, k);
    }
  }

  /** The guard on a transfer's arrivals under which their order does not matter. */
  predicate OrderSafe(arrivals: seq<Arrival>) {
    |arrivals| > 0 && (arrivals[0].sequence == 1 || !Marked(arrivals))
  }

  lemma {:induction false} FirstIsNotOvertaken(arrivals: seq<Arrival>, k: nat)
    requires |arrivals| > 0 && arrivals[0].sequence == 1
    ensures Winner(arrivals, 1).Some? && !Overtakes(arrivals, k)
  {
    var front := arrivals[..|arrivals| - 1];
    if |front| > 0 {
      FirstIsNotOvertaken(front, k);
    }
  }

  /** All n blocks have arrived. */
  predicate AllArrived(arrivals: seq<Arrival>, low: nat, n: nat) {
    forall k :: low <= k < low + n ==> Winner(arrivals, k).Some?
  }

  /** The slots in order, each with what it holds. */
  function Slots(arrivals: seq<Arrival>, low: nat, n: nat): (blocks: seq<Option<seq<Item>>>)
    requires Numbered(arrivals, low, n)
    ensures |blocks| == n
  {
    seq(n, i requires 0 <= i < n => Stored(arrivals, BlockIn(arrivals, low, n, i)))
  }

  /** The blocks in sequence order, each as if block 1 had come first. */
  function CanonicalBlocks(arrivals: seq<Arrival>, low: nat, n: nat): (blocks: seq<Option<seq<Item>>>)
    ensures |blocks| == n
  {
    seq(n, i requires 0 <= i < n => Canonical(arrivals, low + i))
  }

  /** No slot of the record is empty exactly when all blocks have arrived. */
  lemma FullIffAllArrived(t: Transfer, arrivals: seq<Arrival>, low: nat, n: nat)
    requires Numbered(arrivals, low, n) && Describes(t, arrivals, low, n)
    ensures (forall i :: 0 <= i < n ==> t.blocks[i].Some?) <==> AllArrived(arrivals, low, n)
  {
    hide Stored, Winner;
    forall k | low <= k < low + n ensures t.blocks[SlotOf(arrivals, n, k)].Some? <==> Winner(arrivals, k).Some? {
      StoredIffWinner(arrivals, k);
    }
    if AllArrived(arrivals, low, n) {
      forall i | 0 <= i < n ensures t.blocks[i].Some? {
        assert Winner(arrivals, BlockIn(arrivals, low, n, i)).Some?;
      }
    }
    if forall i :: 0 <= i < n ==> t.blocks[i].Some? {
      forall k | low <= k < low + n ensures Winner(arrivals, k).Some? {
        assert t.blocks[SlotOf(arrivals, n, k)].Some?;
      }
    }
  }

  /** What is handed out after any arrivals: nothing before all blocks are there, then the slots in order. */
  lemma AssembledBySlot(id: string, arrivals: seq<Arrival>, low: nat, n: nat)
    requires id != "" && Numbered(arrivals, low, n)
    ensures var out := Assemble(Run(map[], Arrive(id, arrivals)), id).1;
            if AllArrived(arrivals, low, n) then out == Some(Process(Flatten(Slots(arrivals, low, n)))) else out == None
  {
    RecordAfterArrivals(id, arrivals, low, n);
    var table := Run(map[], Arrive(id, arrivals));
    var t := table[id];
    assert WellFormed(table) && Consistent(t);
    FullIffAllArrived(t, arrivals, low, n);
    hide Run, Arrive, WellFormed, AllArrived, Stored, Process, Flatten, Filled;
    forall i | 0 <= i < n ensures t.blocks[i] == Stored(arrivals, BlockIn(arrivals, low, n, i)) {
    }
    assert t.blocks == Slots(arrivals, low, n);
  }

  // ---------------------------------------------------------------- what a registration answers

  lemma SameSlot(t: Transfer, sequence: nat, data: seq<Item>)
    requires |t.blocks| == t.total && t.total >= 1
    ensures Slot(Receive(t, sequence, data), sequence) == Slot(t, sequence)
  {
  }

  /** In any well-formed table: a registration answers true exactly when its block is accepted, has a slot, and leaves
      no slot of its transfer empty. */
  lemma AnsweredIffFull(table: Table, id: string, sequence: int, total: int, data: seq<Item>, now: real)
    requires WellFormed(table)
    ensures WellFormed(Register(table, id, sequence, total, data, now))
    ensures Registered(table, id, sequence, total, data, now)
       <==> && !Rejected(id, sequence, total)
            && (var t := Register(table, id, sequence, total, data, now)[id];
                Slot(t, sequence) < t.total && forall k :: 0 <= k < t.total ==> t.blocks[k].Some?)
  {
    RegisterKeepsTable(table, id, sequence, total, data, now);
    if !Rejected(id, sequence, total) {
      SameSlot(if id in table then table[id] else FreshTransfer(sequence, total, now), sequence, data);
      assert Consistent(Register(table, id, sequence, total, data, now)[id]);
      hide Receive, Slot, FreshTransfer, Filled;
    }
  }

  /** Over any arrivals, resends included: the answer to the last registration is true exactly when all blocks of the
      transfer have then arrived. */
  lemma AnsweredWhenAllArrived(id: string, front: seq<Arrival>, last: Arrival, low: nat, n: nat)
    requires id != "" && Numbered(front + [last], low, n)
    ensures Registered(Run(map[], Arrive(id, front)), id, last.sequence, last.total, last.data, last.now)
       <==> AllArrived(front + [last], low, n)
  {
    hide Run, Arrive, Register, Registered, WellFormed;
    var all := front + [last];
    assert all[|all| - 1] == last;
    LastRegisters(id, front, last);
    AnsweredIffFull(Run(map[], Arrive(id, front)), id, last.sequence, last.total, last.data, last.now);
    RecordAfterArrivals(id, all, low, n);
    var t := Run(map[], Arrive(id, all))[id];
    assert Slot(t, last.sequence) == SlotOf(all, n, last.sequence) < n;
    FullIffAllArrived(t, all, low, n);
  }

  /** A registration without an id, with a negative number or with no blocks is answered false and changes nothing. */
  lemma MalformedAnsweredFalse(table: Table, id: string, sequence: int, total: int, data: seq<Item>, now: real)
    requires WellFormed(table)
    requires id == "" || sequence < 0 || total <= 0
    ensures !Registered(table, id, sequence, total, data, now)
    ensures Register(table, id, sequence, total, data, now) == table
  {
  }

  /** A registration whose number lies behind the last slot is answered false and changes nothing. */
  lemma OutOfRangeAnsweredFalse(id: string, arrivals: seq<Arrival>, low: nat, n: nat, sequence: int, total: int, data: seq<Item>, now: real)
    requires id != "" && Numbered(arrivals, low, n)
    requires sequence >= (if arrivals[0].sequence == 0 then n else n + 1)
    ensures var table := Run(map[], Arrive(id, arrivals));
            && !Registered(table, id, sequence, total, data, now)
            && Register(table, id, sequence, total, data, now) == table
  {
    hide Run, Arrive, Stored, Winner, Filled;
    RecordAfterArrivals(id, arrivals, low, n);
    var table := Run(map[], Arrive(id, arrivals));
    assert WellFormed(table);
    assert table[id := table[id]] == table;
  }

  /** The slots are in sequence order: slot i is that of block low + i. */
  predicate InSequence(arrivals: seq<Arrival>, low: nat, n: nat)
    requires Numbered(arrivals, low, n)
  {
    forall i :: 0 <= i < n ==> BlockIn(arrivals, low, n, i) == low + i
  }

  /** A transfer numbered from 1 always fills its slots in sequence order. One numbered from 0 does if and only
      if block 0 arrives first of all or is the only block; otherwise block k takes slot k - 1, and block 0 the last. */
  lemma InSequenceIff(arrivals: seq<Arrival>, low: nat, n: nat)
    requires Numbered(arrivals, low, n)
    ensures InSequence(arrivals, low, n) <==> low == 1 || arrivals[0].sequence == 0 || n == 1
    ensures low == 0 ==> forall k :: 0 <= k < n ==>
              SlotOf(arrivals, n, k) == if arrivals[0].sequence == 0 then k else (k + n - 1) % n
  {
    if low == 0 && arrivals[0].sequence != 0 {
      if n > 1 {
        assert BlockIn(arrivals, low, n, 0) == 1 by {
          RotatedBack(0, n);
        }
      }
      forall k | 0 <= k < n ensures SlotOf(arrivals, n, k) == (k + n - 1) % n {
        RotatedBack(k, n);
      }
    }
  }

  lemma RotatedBack(k: nat, n: nat)
    requires k < n
    ensures (k + n - 1) % n == if k == 0 then n - 1 else k - 1
    ensures k + 1 < n ==> (k + 1) % n == k + 1
  {
    if k > 0 {
      PythonInts.DivUnique(k + n - 1, n, 1, k - 1);
    } else {
      PythonInts.DivUnique(n - 1, n, 0, n - 1);
    }
    if k + 1 < n {
      PythonInts.DivUnique(k + 1, n, 0, k + 1);
    }
  }

  /** Block 1 then block 0 of a two-block transfer numbered from 0 is handed out as block 1 followed by block 0. */
  lemma ZeroSecondSwaps(id: string)
    requires id != ""
    ensures var arrivals := [Arrival(1, 2, [Word(100), Word(1), Word(11)], 0.0), Arrival(0, 2, [Word(100), Word(0), Word(10)], 0.0)];
            Assemble(Run(map[], Arrive(id, arrivals)), id).1 == Some([Word(11), Word(10)])
  {
    var one, zero := Arrival(1, 2, [Word(100), Word(1), Word(11)], 0.0), Arrival(0, 2, [Word(100), Word(0), Word(10)], 0.0);
    assert Strip(one.data) == [Word(11)] && Strip(zero.data) == [Word(10)] && !CountsObjects(one.data);
    assert [Word(11)] + [Word(10)] == [Word(11), Word(10)];
    hide Run, Arrive, Assemble, Stored, Strip;
    TwoStored(one, zero);
    TwoArrivals(id, [one, zero], 0, [Word(11)], [Word(10)]);
  }

  /** What two arrivals with different numbers leave in their slots. */
  lemma TwoStored(x: Arrival, y: Arrival)
    requires x.sequence != y.sequence && x.sequence >= 0 && y.sequence >= 0
    ensures Stored([x, y], x.sequence) == Some(if x.sequence == 1 && CountsObjects(x.data) then x.data else Strip(x.data))
    ensures Stored([x, y], y.sequence)
         == Some(if (x.sequence == 1 && CountsObjects(x.data)) || (y.sequence == 1 && CountsObjects(y.data)) then y.data else Strip(y.data))
  {
    assert [x, y][..1] == [x] && [x][..0] == [];
    assert Marked([]) == false;
    assert Winner([x], 1) == if x.sequence == 1 then Some(x.data) else None;
    assert Stored([x], x.sequence) == Some(if x.sequence == 1 && CountsObjects(x.data) then x.data else Strip(x.data));
    assert Stored([x], y.sequence) == None;
  }

  lemma TwoSlots(arrivals: seq<Arrival>, low: nat, first: seq<Item>, second: seq<Item>)
    requires Numbered(arrivals, low, 2) && AllWords(first + second)
    requires Stored(arrivals, BlockIn(arrivals, low, 2, 0)) == Some(first)
    requires Stored(arrivals, BlockIn(arrivals, low, 2, 1)) == Some(second)
    ensures Process(Flatten(Slots(arrivals, low, 2))) == first + second
  {
    var slots := Slots(arrivals, low, 2);
    assert slots == [Some(first), Some(second)];
    assert slots[..1] == [Some(first)] && [Some(first)][..0] == [];
    assert Flatten([Some(first)]) == [] + first == first;
    hide Stored, BlockIn;
    WordsPassThrough(first + second);
  }

  /** Order-safe arrivals leave every block as if block 1 had come first. */
  lemma SafeIsCanonical(arrivals: seq<Arrival>, k: nat)
    requires OrderSafe(arrivals)
    ensures Stored(arrivals, k) == Canonical(arrivals, k)
  {
    StoredIffWinner(arrivals, k);
    if Winner(arrivals, k).Some? {
      SlotIsCanonical(arrivals, k);
      if arrivals[0].sequence == 1 {
        FirstIsNotOvertaken(arrivals, k);
      }
    }
  }

  /** Once every block of an order-safe transfer with its slots in sequence has arrived, in any order and with
      any resends, the manager hands out the first copies in sequence order. */
  lemma AssembledInSequence(id: string, arrivals: seq<Arrival>, low: nat, n: nat)
    requires id != "" && Numbered(arrivals, low, n) && OrderSafe(arrivals) && InSequence(arrivals, low, n)
    ensures var out := Assemble(Run(map[], Arrive(id, arrivals)), id).1;
            if AllArrived(arrivals, low, n) then out == Some(Process(Flatten(CanonicalBlocks(arrivals, low, n))))
            else out == None
  {
    hide Run, Arrive, Assemble, Stored, Canonical, OrderSafe, Numbered, AllArrived, Flatten, Process;
    AssembledBySlot(id, arrivals, low, n);
    forall i | 0 <= i < n ensures Slots(arrivals, low, n)[i] == CanonicalBlocks(arrivals, low, n)[i] {
      SafeIsCanonical(arrivals, low + i);
    }
    assert Slots(arrivals, low, n) == CanonicalBlocks(arrivals, low, n);
  }

  lemma CanonicalSame(a: seq<Arrival>, b: seq<Arrival>, k: nat)
    requires Winner(a, 1) == Winner(b, 1) && Winner(a, k) == Winner(b, k)
    ensures Canonical(a, k) == Canonical(b, k)
  {
    hide Winner;
  }

  lemma CanonicalFromWinners(a: seq<Arrival>, b: seq<Arrival>, low: nat, n: nat)
    requires Winner(a, 1) == Winner(b, 1) && forall k :: low <= k < low + n ==> Winner(a, k) == Winner(b, k)
    ensures CanonicalBlocks(a, low, n) == CanonicalBlocks(b, low, n)
    ensures AllArrived(a, low, n) == AllArrived(b, low, n)
  {
    hide Winner, Canonical;
    forall i | 0 <= i < n ensures CanonicalBlocks(a, low, n)[i] == CanonicalBlocks(b, low, n)[i] {
      assert Winner(a, low + i) == Winner(b, low + i);
      CanonicalSame(a, b, low + i);
    }
  }

  lemma {:induction false} NoSuchBlock(arrivals: seq<Arrival>, k: nat)
    requires forall i :: 0 <= i < |arrivals| ==> arrivals[i].sequence != k
    ensures Winner(arrivals, k).None?
  {
    if |arrivals| > 0 {
      NoSuchBlock(arrivals[..|arrivals| - 1], k);
    }
  }

  /** Arrival-order independence: two order-safe arrival histories, each with its slots in sequence, in which the
      same copy of every block comes first assemble to the same data. */
  lemma ArrivalOrderIrrelevant(id: string, a: seq<Arrival>, b: seq<Arrival>, low: nat, n: nat)
    requires id != "" && Numbered(a, low, n) && Numbered(b, low, n) && OrderSafe(a) && OrderSafe(b)
    requires InSequence(a, low, n) && InSequence(b, low, n)
    requires forall k :: low <= k < low + n ==> Winner(a, k) == Winner(b, k)
    ensures Assemble(Run(map[], Arrive(id, a)), id).1 == Assemble(Run(map[], Arrive(id, b)), id).1
  {
    hide Winner, Run, Arrive, Assemble, Canonical, OrderSafe, InSequence;
    AssembledInSequence(id, a, low, n);
    AssembledInSequence(id, b, low, n);
    if low == 0 && n == 1 {
      NoSuchBlock(a, 1);
      NoSuchBlock(b, 1);
    } else {
      assert low <= 1 < low + n;
    }
    CanonicalFromWinners(a, b, low, n);
  }

  // ---------------------------------------------------------------- the age of a transfer

  lemma {:induction false} StampedAtFirst(id: string, arrivals: seq<Arrival>, low: nat, n: nat)
    requires id != "" && Numbered(arrivals, low, n)
    ensures var table := Run(map[], Arrive(id, arrivals));
            id in table && table[id].stamp == arrivals[0].now
  {
    hide WellFormed, Slot, Payload, Run, Arrive;
    var front, last := arrivals[..|arrivals| - 1], arrivals[|arrivals| - 1];
    assert arrivals == front + [last];
    LastRegisters(id, front, last);
    if |front| > 0 {
      StampedAtFirst(id, front, low, n);
    }
  }

  /** A clean-up throws a transfer away exactly when more than the age limit has passed since its first block arrived;
      later blocks and resends do not make it younger. */
  lemma StaleSinceFirst(id: string, arrivals: seq<Arrival>, low: nat, n: nat, now: real, maxAge: real)
    requires id != "" && Numbered(arrivals, low, n)
    ensures var table := Run(map[], Arrive(id, arrivals));
            && id in table
            && (id in Cleanup(table, now, maxAge) <==> now - arrivals[0].now <= maxAge)
            && (id in Cleanup(table, now, maxAge) ==> Cleanup(table, now, maxAge)[id] == table[id])
  {
    StampedAtFirst(id, arrivals, low, n);
    hide Run, Arrive;
  }

  /** The steps of one id alone, without the clean-ups. */
  function Own(steps: seq<Step>, id: string): (own: seq<Step>)
  {
    if |steps| == 0 then []
    else
      var last := steps[|steps| - 1];
      Own(steps[..|steps| - 1], id) + (if !last.CleanupStep? && last.id == id then [last] else [])
  }

  /** No clean-up of the run finds the record of id stale. */
  predicate Spared(steps: seq<Step>, id: string) {
    forall k :: 0 <= k < |steps| && steps[k].CleanupStep? ==>
      var table := Run(map[], steps[..k]);
      id in table ==> !Stale(table[id], steps[k].now, steps[k].maxAge)
  }

  lemma {:induction false} SparedRecord(steps: seq<Step>, id: string)
    requires Spared(steps, id)
    ensures SameRecord(Run(map[], steps), Run(map[], Own(steps, id)), id)
  {
    if |steps| > 0 {
      var front, last, own := steps[..|steps| - 1], steps[|steps| - 1], Own(steps[..|steps| - 1], id);
      assert forall k :: 0 <= k < |front| ==> front[k] == steps[k] && front[..k] == steps[..k];
      SparedRecord(front, id);
      if last.CleanupStep? {
        assert steps[|steps| - 1].CleanupStep?;
        assert own + [] == own;
      } else {
        StepIsLocal(Run(map[], front), Run(map[], own), last, id);
        if last.id == id {
          assert (own + [last])[..|own|] == own;
        } else {
          assert own + [] == own;
        }
      }
    }
  }

  /** The same inside any run: however the blocks of one transfer interleave with the steps of other transfers and
      with clean-ups that do not find it stale, the data handed out is that of its own arrivals alone. */
  lemma InterleavedTransfer(id: string, arrivals: seq<Arrival>, steps: seq<Step>)
    requires Own(steps, id) == Arrive(id, arrivals) && Spared(steps, id)
    ensures Assemble(Run(map[], steps), id).1 == Assemble(Run(map[], Arrive(id, arrivals)), id).1
  {
    SparedRecord(steps, id);
  }

  lemma AnswerDependsOnRecord(a: Table, b: Table, id: string, sequence: int, total: int, data: seq<Item>, now: real)
    requires WellFormed(a) && WellFormed(b) && SameRecord(a, b, id)
    ensures Registered(a, id, sequence, total, data, now) == Registered(b, id, sequence, total, data, now)
  {
    hide WellFormed, Consistent, Receive, Slot;
  }

  /** So does the answer: true exactly when all blocks of the transfer have arrived, whatever came between them. */
  lemma AnsweredInterleaved(id: string, front: seq<Arrival>, last: Arrival, steps: seq<Step>, low: nat, n: nat)
    requires id != "" && Numbered(front + [last], low, n)
    requires Own(steps, id) == Arrive(id, front) && Spared(steps, id)
    ensures Registered(Run(map[], steps), id, last.sequence, last.total, last.data, last.now)
       <==> AllArrived(front + [last], low, n)
  {
    hide Arrive, Spared, Own, Numbered, AllArrived, Registered, Run, SameRecord;
    SparedRecord(steps, id);
    AnsweredWhenAllArrived(id, front, last, low, n);
    AnswerDependsOnRecord(Run(map[], steps), Run(map[], Arrive(id, front)), id, last.sequence, last.total, last.data, last.now);
  }

  predicate AllWords(items: seq<Item>) {
    forall i :: 0 <= i < |items| ==> items[i].Word?
  }

  /** For integer words no frame processing applies: the assembled data is the plain concatenation. */
  lemma {:induction false} WordsPassThrough(items: seq<Item>)
    requires AllWords(items)
    ensures Process(items) == items
  {
    if |items| > 0 {
      WordsPassThrough(items[..|items| - 1]);
      assert items == items[..|items| - 1] + [items[|items| - 1]];
    }
  }

  /** Every arriving block is a list of integer words. */
  predicate WordArrivals(arrivals: seq<Arrival>) {
    forall i :: 0 <= i < |arrivals| ==> AllWords(arrivals[i].data)
  }

  lemma {:induction false} WordWinners(arrivals: seq<Arrival>, k: nat)
    requires WordArrivals(arrivals)
    ensures Winner(arrivals, k).Some? ==> AllWords(Winner(arrivals, k).value)
    ensures Stored(arrivals, k).Some? ==> AllWords(Stored(arrivals, k).value)
  {
    if |arrivals| > 0 {
      WordWinners(arrivals[..|arrivals| - 1], k);
    }
  }

  predicate WordBlocks(blocks: seq<Option<seq<Item>>>) {
    forall i :: 0 <= i < |blocks| ==> blocks[i].Some? && AllWords(blocks[i].value)
  }

  lemma {:induction false} FlattenWords(blocks: seq<Option<seq<Item>>>)
    requires WordBlocks(blocks)
    ensures AllWords(Flatten(blocks))
  {
    if |blocks| > 0 {
      FlattenWords(blocks[..|blocks| - 1]);
    }
  }

  /** Blocks of which each equals its counterpart or is shorter concatenate to the same data only if all are equal. */
  lemma {:induction false} FlattenShorter(a: seq<Option<seq<Item>>>, b: seq<Option<seq<Item>>>)
    requires |a| == |b|
    requires forall i :: 0 <= i < |a| ==> a[i].Some? && b[i].Some? && (a[i] == b[i] || |a[i].value| < |b[i].value|)
    ensures |Flatten(a)| <= |Flatten(b)|
    ensures |Flatten(a)| == |Flatten(b)| ==> a == b
  {
    if |a| > 0 {
      var n := |a| - 1;
      FlattenShorter(a[..n], b[..n]);
      assert a == a[..n] + [a[n]] && b == b[..n] + [b[n]];
    }
  }

  /** A block of more than two words that came before block 1 whose count came too late for it. */
  predicate Overtaken(arrivals: seq<Arrival>, k: nat) {
    && Marked(arrivals) && Overtakes(arrivals, k)
    && Winner(arrivals, k).Some? && |Winner(arrivals, k).value| > 2
  }

  /** Exactly when integer words are handed out as in sequence order with block 1 first: when no block of more
      than two words overtook a block 1 that starts with a count. Each that did has lost its first two words. */
  lemma HandedOutInOrderIff(id: string, arrivals: seq<Arrival>, low: nat, n: nat)
    requires id != "" && Numbered(arrivals, low, n) && InSequence(arrivals, low, n) && WordArrivals(arrivals)
    requires AllArrived(arrivals, low, n)
    ensures Assemble(Run(map[], Arrive(id, arrivals)), id).1 == Some(Flatten(CanonicalBlocks(arrivals, low, n)))
       <==> forall k :: low <= k < low + n ==> !Overtaken(arrivals, k)
  {
    hide Run, Arrive, Assemble, Overtaken, Numbered, WordArrivals, AllArrived, Flatten, Process, InSequence, Slots, CanonicalBlocks, WordBlocks;
    var held, wanted := Slots(arrivals, low, n), CanonicalBlocks(arrivals, low, n);
    AssembledBySlot(id, arrivals, low, n);
    SlotsCompared(arrivals, low, n);
    ShorterDecides(held, wanted);
  }

  lemma SlotsCompared(arrivals: seq<Arrival>, low: nat, n: nat)
    requires Numbered(arrivals, low, n) && InSequence(arrivals, low, n) && WordArrivals(arrivals) && AllArrived(arrivals, low, n)
    ensures var held, wanted := Slots(arrivals, low, n), CanonicalBlocks(arrivals, low, n);
            && WordBlocks(held)
            && (forall i :: 0 <= i < n ==> wanted[i].Some? && (held[i] == wanted[i] || |held[i].value| < |wanted[i].value|))
            && (held == wanted <==> forall k :: low <= k < low + n ==> !Overtaken(arrivals, k))
  {
    var held, wanted := Slots(arrivals, low, n), CanonicalBlocks(arrivals, low, n);
    hide Stored, Canonical, Overtaken, Numbered, WordArrivals, AllWords, Winner;
    forall i | 0 <= i < n
      ensures held[i].Some? && AllWords(held[i].value) && wanted[i].Some?
      ensures held[i] == wanted[i] <==> !Overtaken(arrivals, low + i)
      ensures held[i] == wanted[i] || |held[i].value| < |wanted[i].value|
    {
      assert BlockIn(arrivals, low, n, i) == low + i && Winner(arrivals, low + i).Some?;
      SlotCompared(arrivals, low + i);
    }
    hide AllArrived, InSequence, Slots, CanonicalBlocks;
    if held == wanted {
      forall k | low <= k < low + n ensures !Overtaken(arrivals, k) {
        assert held[k - low] == wanted[k - low];
      }
    } else {
      var i :| 0 <= i < n && held[i] != wanted[i];
      assert Overtaken(arrivals, low + i);
    }
  }

  lemma ShorterDecides(held: seq<Option<seq<Item>>>, wanted: seq<Option<seq<Item>>>)
    requires |held| == |wanted| && WordBlocks(held)
    requires forall i :: 0 <= i < |held| ==> wanted[i].Some? && (held[i] == wanted[i] || |held[i].value| < |wanted[i].value|)
    ensures Process(Flatten(held)) == Flatten(wanted) <==> held == wanted
  {
    hide AllWords, Flatten, Process;
    FlattenWords(held);
    WordsPassThrough(Flatten(held));
    FlattenShorter(held, wanted);
  }

  lemma SlotCompared(arrivals: seq<Arrival>, k: nat)
    requires Winner(arrivals, k).Some? && WordArrivals(arrivals)
    ensures var held, wanted := Stored(arrivals, k), Canonical(arrivals, k);
            && held.Some? && AllWords(held.value) && wanted.Some?
            && (held == wanted <==> !Overtaken(arrivals, k))
            && (held == wanted || |held.value| < |wanted.value|)
  {
    hide Overtakes, AllWords, WordArrivals;
    StoredIffWinner(arrivals, k);
    WordWinners(arrivals, k);
    SlotIsCanonical(arrivals, k);
    StoredEither(arrivals, k);
    hide Stored, Winner;
  }

  /** A slot holds its block's first copy, whole or stripped; whole only once block 1 has shown a count. */
  lemma {:induction false} StoredEither(arrivals: seq<Arrival>, k: nat)
    requires Winner(arrivals, k).Some?
    ensures Stored(arrivals, k) == Some(Strip(Winner(arrivals, k).value))
         || (Stored(arrivals, k) == Some(Winner(arrivals, k).value) && Marked(arrivals))
  {
    var front, last := arrivals[..|arrivals| - 1], arrivals[|arrivals| - 1];
    assert arrivals == front + [last];
    StoredIffWinner(front, k);
    MarkedStays(front, last, k);
    if Winner(front, k).Some? {
      StoredEither(front, k);
    }
  }

  /** A text item holding concatenated frames is handed out as those frames. */
  lemma FramesRecovered(words: seq<string>, commands: seq<bool>)
    requires |words| == |commands| && |words| >= 2
    requires forall i :: 0 <= i < |words| ==> |words[i]| == 16 && Binary.AllBits(words[i])
    ensures ProcessItem(Text(Concat(FrameWords(words, commands)))) == Texts(FrameWords(words, commands))
  {
    FrameRoundTrip(words, commands);
    var frames := FrameWords(words, commands);
    forall i | 0 <= i < |words| ensures ValidFrame(frames[i]) {
      FramedWordIsValid(words[i], commands[i]);
    }
    ScanConcat(frames);
  }

  /** An order that is not safe, for any data: block 2 arriving before a block 1 that starts with a count
      is handed out without its first two words. */
  lemma LateCountLosesWords(id: string, first: seq<Item>, second: seq<Item>)
    requires id != "" && AllWords(first) && AllWords(second) && |second| > 2
    requires |first| > 0 && 0 < first[0].value < 100
    ensures var one, two := Arrival(1, 2, first, 0.0), Arrival(2, 2, second, 0.0);
            && Assemble(Run(map[], Arrive(id, [one, two])), id).1 == Some(first + second)
            && Assemble(Run(map[], Arrive(id, [two, one])), id).1 == Some(first + second[2..])
            && first + second != first + second[2..]
  {
    var one, two := Arrival(1, 2, first, 0.0), Arrival(2, 2, second, 0.0);
    CountFirst(id, first, second);
    CountLast(id, first, second);
    hide Run, Arrive, Assemble, AllWords;
    assert |first + second| != |first + second[2..]|;
  }

  lemma CountFirst(id: string, first: seq<Item>, second: seq<Item>)
    requires id != "" && AllWords(first) && AllWords(second) && CountsObjects(first)
    ensures Assemble(Run(map[], Arrive(id, [Arrival(1, 2, first, 0.0), Arrival(2, 2, second, 0.0)])), id).1 == Some(first + second)
  {
    var one, two := Arrival(1, 2, first, 0.0), Arrival(2, 2, second, 0.0);
    hide Run, Arrive, Assemble, Stored, CountsObjects;
    TwoStored(one, two);
    TwoArrivals(id, [one, two], 1, first, second);
  }

  lemma CountLast(id: string, first: seq<Item>, second: seq<Item>)
    requires id != "" && AllWords(first) && AllWords(second) && CountsObjects(first) && |second| > 2
    ensures Assemble(Run(map[], Arrive(id, [Arrival(2, 2, second, 0.0), Arrival(1, 2, first, 0.0)])), id).1
         == Some(first + second[2..])
  {
    var one, two := Arrival(1, 2, first, 0.0), Arrival(2, 2, second, 0.0);
    hide Run, Arrive, Assemble, Stored, CountsObjects;
    TwoStored(two, one);
    TwoArrivals(id, [two, one], 1, first, second[2..]);
  }

  lemma TwoArrivals(id: string, arrivals: seq<Arrival>, low: nat, first: seq<Item>, second: seq<Item>)
    requires id != "" && Numbered(arrivals, low, 2) && AllWords(first + second)
    requires Stored(arrivals, BlockIn(arrivals, low, 2, 0)) == Some(first)
    requires Stored(arrivals, BlockIn(arrivals, low, 2, 1)) == Some(second)
    ensures Assemble(Run(map[], Arrive(id, arrivals)), id).1 == Some(first + second)
  {
    hide Run, Arrive, Assemble, Stored, Process, Flatten;
    forall k | low <= k < low + 2 ensures Winner(arrivals, k).Some? {
      assert k == BlockIn(arrivals, low, 2, 0) || k == BlockIn(arrivals, low, 2, 1);
      StoredIffWinner(arrivals, k);
    }
    AssembledBySlot(id, arrivals, low, 2);
    TwoSlots(arrivals, low, first, second);
  }

  /** In a transfer guessed one-based, a block numbered 0 takes the last slot, so it is the same slot
      as block n and whichever comes second is dropped. */
  lemma BlockZeroTakesLastSlot(t: Transfer, data: seq<Item>, other: seq<Item>)
    requires Consistent(t) && !t.zeroBased && t.blocks[t.total - 1].None?
    ensures var t' := Receive(t, 0, data);
            && t'.blocks == t.blocks[t.total - 1 := Some(Payload(t, 0, data))]
            && Receive(t', t.total, other) == t'
  {
  }
}
