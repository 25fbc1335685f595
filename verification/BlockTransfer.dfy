/** Reassembly of multi-block transfers: a table of pending transfers keyed by request id. */
module BlockTransfer {
  import opened Frames
  import opened Wrappers

  /** A data item of a block: an integer word, or text that may hold frames. */
  datatype Item = Word(value: int) | Text(text: string)

  /** One pending transfer. `precip` is the record's data type being set. */
  datatype Transfer = Transfer(
    blocks: seq<Option<seq<Item>>>,
    total: nat,
    received: nat,
    stamp: real,
    complete: bool,
    precip: bool,
    zeroBased: bool)

  type Table = map<string, Transfer>

  // ---------------------------------------------------------------- specification of one call

  function FreshTransfer(sequence: int, total: nat, now: real): (t: Transfer)
  {
    Transfer(seq(total, _ => None), total, 0, now, false, false, sequence == 0)
  }

  /** The slot a sequence number addresses; -1 counts from the end, so it is the last slot. */
  function Slot(t: Transfer, sequence: nat): (slot: int)
  {
    var adjusted := if t.zeroBased then sequence else sequence - 1;
    if adjusted == -1 then t.total - 1 else adjusted
  }

  /** The leading word of a block looks like an object count. */
  predicate CountsObjects(data: seq<Item>) {
    |data| > 0 && data[0].Word? && 0 < data[0].value < 100
  }

  /** A block without its two words of sequence metadata. */
  function Strip(data: seq<Item>): (rest: seq<Item>)
  {
    if |data| > 2 then data[2..] else data
  }

  function Payload(t: Transfer, sequence: nat, data: seq<Item>): (payload: seq<Item>)
  {
    if |data| > 0 && sequence == 1 then
      if CountsObjects(data) then data else Strip(data)
    else if t.precip then data
    else Strip(data)
  }

  function Store(t: Transfer, sequence: nat, data: seq<Item>): (t': Transfer)
    requires |t.blocks| == t.total && 0 <= Slot(t, sequence) < t.total
  {
    t.(blocks := t.blocks[Slot(t, sequence) := Some(Payload(t, sequence, data))],
       received := t.received + 1,
       complete := t.received + 1 == t.total,
       precip := t.precip || (sequence == 1 && CountsObjects(data)))
  }

  /** The effect of one block on the record of its own transfer. */
  function Receive(t: Transfer, sequence: nat, data: seq<Item>): (t': Transfer)
    requires |t.blocks| == t.total && t.total >= 1
    ensures |t'.blocks| == t'.total == t.total
  {
    if Slot(t, sequence) >= t.total then t
    else if t.blocks[Slot(t, sequence)].Some? then t
    else Store(t, sequence, data)
  }

  predicate Rejected(id: string, sequence: int, total: int) {
    id == "" || sequence < 0 || total < 1
  }

  ghost predicate WellFormed(table: Table) {
    forall id :: id in table ==> Consistent(table[id])
  }

  function Filled(blocks: seq<Option<seq<Item>>>): (n: nat)
    ensures n <= |blocks|
  {
    if |blocks| == 0 then 0
    else Filled(blocks[..|blocks| - 1]) + (if blocks[|blocks| - 1].Some? then 1 else 0)
  }

  /** What every pending record satisfies: the counter is the number of filled slots, and the record
      is complete exactly when no slot is empty. */
  ghost predicate Consistent(t: Transfer) {
    && t.total >= 1
    && |t.blocks| == t.total
    && t.received == Filled(t.blocks)
    && (t.complete <==> forall k :: 0 <= k < t.total ==> t.blocks[k].Some?)
  }

  function Register(table: Table, id: string, sequence: int, total: int, data: seq<Item>, now: real): (table': Table)
    requires WellFormed(table)
  {
    if Rejected(id, sequence, total) then table
    else
      var t := if id in table then table[id] else FreshTransfer(sequence, total, now);
      table[id := Receive(t, sequence, data)]
  }

  /** What `register_block` answers. */
  function Registered(table: Table, id: string, sequence: int, total: int, data: seq<Item>, now: real): (done: bool)
    requires WellFormed(table)
  {
    !Rejected(id, sequence, total)
    && (var t := if id in table then table[id] else FreshTransfer(sequence, total, now);
        Slot(t, sequence) < t.total && Receive(t, sequence, data).complete)
  }

  function Flatten(blocks: seq<Option<seq<Item>>>): (items: seq<Item>)
  {
    if |blocks| == 0 then []
    else
      var front := Flatten(blocks[..|blocks| - 1]);
      var last := blocks[|blocks| - 1];
      if last.Some? then front + last.value else front
  }

  function Texts(frames: seq<string>): (items: seq<Item>)
    ensures |items| == |frames|
  {
    seq(|frames|, i requires 0 <= i < |frames| => Text(frames[i]))
  }

  /** What one raw item contributes to the assembled data. */
  function ProcessItem(item: Item): (items: seq<Item>)
  {
    if item.Word? then [item]
    else if |item.text| == 20 && HasSync(item.text) then [item]
    else if |item.text| > 20 then
      var frames := Split(item.text);
      if frames != [] then Texts(ValidateFrames(frames)) else [item]
    else [item]
  }

  function Process(items: seq<Item>): (processed: seq<Item>)
  {
    if |items| == 0 then [] else Process(items[..|items| - 1]) + ProcessItem(items[|items| - 1])
  }

  function Assembled(t: Transfer): (items: seq<Item>)
  {
    Process(Flatten(t.blocks))
  }

  function Assemble(table: Table, id: string): (out: (Table, Option<seq<Item>>))
  {
    if id in table && table[id].complete then (table - {id}, Some(Assembled(table[id])))
    else (table, None)
  }

  predicate Stale(t: Transfer, now: real, maxAge: real) {
    now - t.stamp > maxAge
  }

  function Cleanup(table: Table, now: real, maxAge: real): (table': Table)
  {
    map id | id in table && !Stale(table[id], now, maxAge) :: table[id]
  }

  // ---------------------------------------------------------------- the manager

  class BlockTransferManager {
    var pendingTransfers: Table

    constructor ()
      ensures pendingTransfers == map[]
    {
      pendingTransfers := map[];
    }

    method RegisterBlock(id: string, sequence: int, total: int, data: seq<Item>, now: real) returns (done: bool)
      requires WellFormed(pendingTransfers)
      modifies this
      ensures WellFormed(pendingTransfers)
      ensures pendingTransfers == Register(old(pendingTransfers), id, sequence, total, data, now)
      ensures done == Registered(old(pendingTransfers), id, sequence, total, data, now)
    {
      RegisterKeepsTable(pendingTransfers, id, sequence, total, data, now);
      if id == "" { return false; }
      if sequence < 0 { return false; }
      if total < 1 { return false; }
      if id !in pendingTransfers {
        FreshIsConsistent(sequence, total, now);
        pendingTransfers := pendingTransfers[id := FreshTransfer(sequence, total, now)];
      }
      var transfer;
      transfer, done := StoreBlock(pendingTransfers[id], sequence, data);
      pendingTransfers := pendingTransfers[id := transfer];
      assert pendingTransfers == Register(old(pendingTransfers), id, sequence, total, data, now);
    }

    method GetAssembledData(id: string) returns (data: Option<seq<Item>>)
      requires WellFormed(pendingTransfers)
      modifies this
      ensures WellFormed(pendingTransfers)
      ensures (pendingTransfers, data) == Assemble(old(pendingTransfers), id)
    {
      if id !in pendingTransfers || !pendingTransfers[id].complete {
        return None;
      }
      var blocks := pendingTransfers[id].blocks;
      var raw: seq<Item> := [];
      for i := 0 to |blocks|
        invariant raw == Flatten(blocks[..i])
      {
        assert blocks[..i + 1][..i] == blocks[..i];
        if blocks[i].Some? && blocks[i].value != [] {
          raw := raw + blocks[i].value;
        }
      }
      assert blocks[..|blocks|] == blocks;
      var processed := ProcessAll(raw);
      pendingTransfers := pendingTransfers - {id};
      data := Some(processed);
    }

    method CleanupStaleTransfers(now: real, maxAge: real) returns (removed: nat)
      requires WellFormed(pendingTransfers)
      modifies this
      ensures WellFormed(pendingTransfers)
      ensures pendingTransfers == Cleanup(old(pendingTransfers), now, maxAge)
      ensures removed == |old(pendingTransfers)| - |pendingTransfers|
    {
      hide Consistent;
      var stale := StaleTransfers(pendingTransfers, now, maxAge);
      removed := |stale|;
      RemovalSize(pendingTransfers, stale);
      pendingTransfers := pendingTransfers - stale;
    }

    method ClearTransfer(id: string) returns (found: bool)
      requires WellFormed(pendingTransfers)
      modifies this
      ensures WellFormed(pendingTransfers)
      ensures pendingTransfers == old(pendingTransfers) - {id}
      ensures found <==> id in old(pendingTransfers)
    {
      if id !in pendingTransfers {
        assert pendingTransfers - {id} == pendingTransfers;
        return false;
      }
      pendingTransfers := pendingTransfers - {id};
      return true;
    }
  }

  /** The body of `register_block` once the record exists. */
  method StoreBlock(record: Transfer, sequence: nat, data: seq<Item>) returns (transfer: Transfer, done: bool)
    requires |record.blocks| == record.total && record.total >= 1
    ensures transfer == Receive(record, sequence, data)
    ensures done == (Slot(record, sequence) < record.total && transfer.complete)
  {
    transfer := record;
    var adjusted := if transfer.zeroBased then sequence else sequence - 1;
    if adjusted >= transfer.total {
      return transfer, false;
    }
    var index := if adjusted < 0 then adjusted + |transfer.blocks| else adjusted;
    if transfer.blocks[index].Some? {
      return transfer, transfer.complete;
    }
    var actual: seq<Item>;
    var precip := false;
    if |data| > 0 && sequence == 1 {
      if data[0].Word? && data[0].value > 0 && data[0].value < 100 {
        transfer := transfer.(precip := true);
        actual := data;
        precip := true;
      } else {
        actual := if |data| > 2 then data[2..] else data;
      }
    } else if transfer.precip {
      actual := data;
    } else {
      actual := if |data| > 2 then data[2..] else data;
    }
    if precip && !transfer.precip {
      transfer := transfer.(precip := true);
    }
    transfer := transfer.(blocks := transfer.blocks[index := Some(actual)]);
    transfer := transfer.(received := transfer.received + 1);
    transfer := transfer.(complete := transfer.received == transfer.total);
    done := transfer.complete;
  }

  method StaleTransfers(pending: Table, now: real, maxAge: real) returns (stale: set<string>)
    ensures stale == set id | id in pending && Stale(pending[id], now, maxAge)
  {
    var ids := pending.Keys;
    stale := {};
    while ids != {}
      invariant ids <= pending.Keys
      invariant stale == set id | id in pending && id !in ids && Stale(pending[id], now, maxAge)
      decreases ids
    {
      var id :| id in ids;
      ids := ids - {id};
      if now - pending[id].stamp > maxAge {
        stale := stale + {id};
      }
    }
  }

  lemma RemovalSize(table: Table, gone: set<string>)
    requires gone <= table.Keys
    ensures |table - gone| == |table| - |gone|
  {
    assert (table - gone).Keys == table.Keys - gone;
    assert |table.Keys - gone| == |table.Keys| - |gone|;
  }

  method ProcessAll(raw: seq<Item>) returns (processed: seq<Item>)
    ensures processed == Process(raw)
  {
    processed := [];
    for i := 0 to |raw|
      invariant processed == Process(raw[..i])
    {
      assert raw[..i + 1][..i] == raw[..i];
      match raw[i]
      case Word(_) =>
        processed := processed + [raw[i]];
      case Text(s) =>
        if |s| == 20 && HasSync(s) {
          processed := processed + [raw[i]];
        } else if |s| > 20 {
          var frames := SplitOversizedFrames(s);
          if frames != [] {
            var valid := Validate1553bFrames(frames);
            processed := processed + Texts(valid);
          } else {
            processed := processed + [raw[i]];
          }
        } else {
          processed := processed + [raw[i]];
        }
    }
    assert raw[..|raw|] == raw;
  }

  // ---------------------------------------------------------------- the record invariant

  lemma {:induction false} FilledUpdate(blocks: seq<Option<seq<Item>>>, k: nat, data: seq<Item>)
    requires k < |blocks| && blocks[k].None?
    ensures Filled(blocks[k := Some(data)]) == Filled(blocks) + 1
  {
    var n := |blocks| - 1;
    var after := blocks[k := Some(data)];
    if k < n {
      assert after[..n] == blocks[..n][k := Some(data)];
      FilledUpdate(blocks[..n], k, data);
    } else {
      assert after[..n] == blocks[..n];
    }
  }

  lemma {:induction false} FilledAll(blocks: seq<Option<seq<Item>>>)
    ensures Filled(blocks) == |blocks| <==> forall k :: 0 <= k < |blocks| ==> blocks[k].Some?
  {
    if |blocks| > 0 {
      var n := |blocks| - 1;
      FilledAll(blocks[..n]);
      assert blocks == blocks[..n] + [blocks[n]];
    }
  }

  lemma {:induction false} FilledEmpty(n: nat)
    ensures Filled(seq(n, _ => None)) == 0
  {
    if n > 0 {
      assert seq(n, _ => Option<seq<Item>>.None)[..n - 1] == seq(n - 1, _ => Option<seq<Item>>.None);
      FilledEmpty(n - 1);
    }
  }

  lemma FreshIsConsistent(sequence: int, total: nat, now: real)
    requires total >= 1
    ensures Consistent(FreshTransfer(sequence, total, now))
  {
    FilledEmpty(total);
    assert FreshTransfer(sequence, total, now).blocks[0].None?;
  }

  lemma ReceiveKeepsRecord(t: Transfer, sequence: nat, data: seq<Item>)
    requires Consistent(t)
    ensures Consistent(Receive(t, sequence, data))
  {
    var slot := Slot(t, sequence);
    if slot < t.total && t.blocks[slot].None? {
      FilledUpdate(t.blocks, slot, Payload(t, sequence, data));
      FilledAll(Store(t, sequence, data).blocks);
    }
  }

  lemma RegisterKeepsTable(table: Table, id: string, sequence: int, total: int, data: seq<Item>, now: real)
    requires WellFormed(table)
    ensures WellFormed(Register(table, id, sequence, total, data, now))
  {
    if !Rejected(id, sequence, total) {
      if id !in table {
        FreshIsConsistent(sequence, total, now);
        ReceiveKeepsRecord(FreshTransfer(sequence, total, now), sequence, data);
      } else {
        ReceiveKeepsRecord(table[id], sequence, data);
      }
    }
  }
}
