/** The bounded queue as a ring in a table whose size is a power of two. */
module BoundedQueues {
  import opened Bits

  datatype Slot<T> = Vacant | Item(value: T)

  /** Which conditions a change of the queue signals. */
  datatype Signals = Signals(notFull: bool, notEmpty: bool)

  /** The signals owed when a queue for `room` items goes from `n` to `m` items. */
  function Owed(room: int, n: nat, m: nat): Signals {
    Signals(n == room && m < room, n == 0 && m > 0)
  }

  // ----- places in the ring -----

  function Wrap(i: nat, size: nat): nat {
    if i < size then i else i - size
  }

  lemma MaskWraps(i: nat, bits: nat)
    requires i < 2 * Pow2(bits)
    ensures And(i, Pow2(bits) - 1) == Wrap(i, Pow2(bits)) < Pow2(bits)
  {
    AndMask(i, bits);
    RemainderIs(i, Pow2(bits), if i < Pow2(bits) then 0 else 1, Wrap(i, Pow2(bits)));
  }

  /** `n` slots on from `tail`, all the way round if need be, hold items. */
  predicate Holds<T>(table: seq<Slot<T>>, tail: nat, n: nat)
    requires tail < |table| && n <= |table|
    decreases n
  {
    n > 0 ==> table[tail].Item? && Holds(table, Wrap(tail + 1, |table|), n - 1)
  }

  function Row<T>(table: seq<Slot<T>>, tail: nat, n: nat): (row: seq<T>)
    requires tail < |table| && n <= |table| && Holds(table, tail, n)
    ensures |row| == n
    decreases n
  {
    if n == 0 then [] else [table[tail].value] + Row(table, Wrap(tail + 1, |table|), n - 1)
  }

  lemma {:induction false} RowPut<T>(table: seq<Slot<T>>, tail: nat, n: nat, x: T)
    requires tail < |table| && n < |table| && Holds(table, tail, n)
    ensures var after := table[Wrap(tail + n, |table|) := Item(x)];
      Holds(after, tail, n + 1) && Row(after, tail, n + 1) == Row(table, tail, n) + [x]
    decreases n
  {
    var size := |table|;
    var after := table[Wrap(tail + n, size) := Item(x)];
    if n == 0 {
      assert Row(after, tail, 1) == [x] + Row(after, Wrap(tail + 1, size), 0);
    } else {
      var next := Wrap(tail + 1, size);
      RowPut(table, next, n - 1, x);
      assert Wrap(next + (n - 1), size) == Wrap(tail + n, size);
      assert after[tail] == table[tail];
    }
  }

  /** What lies outside the row does not matter to it. */
  lemma {:induction false} RowElsewhere<T>(table: seq<Slot<T>>, tail: nat, n: nat, at: nat, slot: Slot<T>)
    requires tail < |table| && n <= |table| && Holds(table, tail, n)
    requires at < |table| && Wrap(at + |table| - tail, |table|) >= n
    ensures Holds(table[at := slot], tail, n) && Row(table[at := slot], tail, n) == Row(table, tail, n)
    decreases n
  {
    if n > 0 {
      RowElsewhere(table, Wrap(tail + 1, |table|), n - 1, at, slot);
    }
  }

  lemma RowTake<T>(table: seq<Slot<T>>, tail: nat, n: nat)
    requires tail < |table| && 0 < n < |table| && Holds(table, tail, n)
    ensures var next, after := Wrap(tail + 1, |table|), table[tail := Vacant];
      && Holds(after, next, n - 1)
      && Row(table, tail, n) == [table[tail].value] + Row(after, next, n - 1)
  {
    RowElsewhere(table, Wrap(tail + 1, |table|), n - 1, tail, Vacant);
  }

  /** Nothing but the `n` slots on from `tail` is in use. */
  ghost predicate VacantElsewhere<T>(table: seq<Slot<T>>, tail: nat, n: nat)
    requires tail < |table|
  {
    forall i :: 0 <= i < |table| && table[i].Item? ==> Wrap(i + |table| - tail, |table|) < n
  }

  lemma VacantPut<T>(table: seq<Slot<T>>, tail: nat, n: nat, x: T)
    requires tail < |table| && n + 1 < |table| && VacantElsewhere(table, tail, n)
    ensures VacantElsewhere(table[Wrap(tail + n, |table|) := Item(x)], tail, n + 1)
  {
  }

  lemma VacantTake<T>(table: seq<Slot<T>>, tail: nat, n: nat)
    requires tail < |table| && 0 < n < |table| && VacantElsewhere(table, tail, n)
    ensures VacantElsewhere(table[tail := Vacant], Wrap(tail + 1, |table|), n - 1)
  {
  }

  /** A ring after an item is stored at the head, which then has come round to
      the tail, or the row is one item longer. */
  lemma RingPut<T>(table: seq<Slot<T>>, tail: nat, head: nat, x: T) returns (after: seq<Slot<T>>, n: nat, more: nat)
    requires tail < |table| && head < |table| && Holds(table, tail, Wrap(head + |table| - tail, |table|))
    ensures after == table[head := Item(x)] && n == Wrap(head + |table| - tail, |table|)
    ensures more == Wrap(Wrap(head + 1, |table|) + |table| - tail, |table|)
    ensures if n == |table| - 1 then more == 0 else more == n + 1
    ensures n < |table| - 1 ==> Holds(after, tail, more) && Row(after, tail, more) == Row(table, tail, n) + [x]
    ensures n < |table| - 1 && VacantElsewhere(table, tail, n) ==> VacantElsewhere(after, tail, more)
  {
    after, n := table[head := Item(x)], Wrap(head + |table| - tail, |table|);
    more := Wrap(Wrap(head + 1, |table|) + |table| - tail, |table|);
    if n < |table| - 1 {
      RowPut(table, tail, n, x);
      if VacantElsewhere(table, tail, n) {
        VacantPut(table, tail, n, x);
      }
    }
  }

  /** A ring after the item at the tail is taken. */
  lemma RingTake<T>(table: seq<Slot<T>>, tail: nat, head: nat) returns (after: seq<Slot<T>>, n: nat, less: nat)
    requires tail < |table| && head < |table| && tail != head
    requires Holds(table, tail, Wrap(head + |table| - tail, |table|))
    ensures after == table[tail := Vacant] && n == Wrap(head + |table| - tail, |table|)
    ensures less == Wrap(head + |table| - Wrap(tail + 1, |table|), |table|)
    ensures n > 0 && table[tail].Item? && Holds(after, Wrap(tail + 1, |table|), less)
    ensures Row(table, tail, n) == [table[tail].value] + Row(after, Wrap(tail + 1, |table|), less)
    ensures VacantElsewhere(table, tail, n) ==> VacantElsewhere(after, Wrap(tail + 1, |table|), less)
  {
    after, n := table[tail := Vacant], Wrap(head + |table| - tail, |table|);
    less := Wrap(head + |table| - Wrap(tail + 1, |table|), |table|);
    RowTake(table, tail, n);
    if VacantElsewhere(table, tail, n) {
      VacantTake(table, tail, n);
    }
  }

  /** The items of a table in the order of its slots. */
  function Collected<T>(table: seq<Slot<T>>): seq<T> {
    if table == [] then []
    else
      var last := |table| - 1;
      if table[last].Item? then Collected(table[..last]) + [table[last].value] else Collected(table[..last])
  }

  lemma {:induction false} CollectedVacant<T>(table: seq<Slot<T>>, more: nat)
    requires more <= |table| && forall i :: more <= i < |table| ==> table[i].Vacant?
    ensures Collected(table) == Collected(table[..more])
    decreases |table|
  {
    if more == |table| {
      assert table[..more] == table;
    } else {
      var last := |table| - 1;
      CollectedVacant(table[..last], more);
      assert table[..last][..more] == table[..more];
    }
  }

  lemma {:induction false} CollectedRun<T>(table: seq<Slot<T>>, from: nat, n: nat)
    requires n > 0 && from + n <= |table| && Holds(table, from, n)
    ensures Collected(table[..from + n]) == Collected(table[..from]) + Row(table, from, n)
    decreases n
  {
    var before, next := table[..from], Wrap(from + 1, |table|);
    var first := table[..from + 1];
    assert first[..from] == before && first[from] == table[from];
    assert Collected(first) == Collected(before) + [table[from].value];
    if n > 1 {
      CollectedRun(table, from + 1, n - 1);
      assert from + 1 + (n - 1) == from + n;
      assert Collected(table[..from + n]) == Collected(before) + [table[from].value] + Row(table, from + 1, n - 1);
    } else {
      assert Row(table, next, 0) == [];
      assert Row(table, from, 1) == [table[from].value];
    }
  }

  /** A row that may go round the end of the table, in the order of the slots. */
  function BySlot<T>(row: seq<T>, tail: nat, size: nat): seq<T>
    requires tail <= size
  {
    if tail + |row| <= size then row else row[size - tail..] + row[..size - tail]
  }

  lemma {:induction false} RowSplit<T>(table: seq<Slot<T>>, tail: nat, n: nat, k: nat)
    requires tail < |table| && k <= n < |table| && Holds(table, tail, n)
    ensures var next := Wrap(tail + k, |table|);
      && Holds(table, tail, k) && Holds(table, next, n - k)
      && Row(table, tail, n)[..k] == Row(table, tail, k) && Row(table, tail, n)[k..] == Row(table, next, n - k)
    decreases k
  {
    if k > 0 {
      var next := Wrap(tail + 1, |table|);
      RowSplit(table, next, n - 1, k - 1);
      assert Wrap(next + (k - 1), |table|) == Wrap(tail + k, |table|);
      var row, rest := Row(table, tail, n), Row(table, next, n - 1);
      assert row[..k] == [table[tail].value] + rest[..k - 1] && row[k..] == rest[k - 1..];
    }
  }

  lemma CollectedStraight<T>(table: seq<Slot<T>>, tail: nat, n: nat)
    requires 0 < n && tail + n <= |table| && n < |table| && Holds(table, tail, n) && VacantElsewhere(table, tail, n)
    ensures Collected(table) == Row(table, tail, n)
  {
    assert Collected(table) == Collected(table[..tail + n]) by {
      CollectedVacant(table, tail + n);
    }
    assert Collected(table[..tail + n]) == Collected(table[..tail]) + Row(table, tail, n) by {
      CollectedRun(table, tail, n);
    }
    assert Collected(table[..tail]) == [] by {
      CollectedVacant(table[..tail], 0);
    }
  }

  lemma CollectedIsRow<T>(table: seq<Slot<T>>, tail: nat, n: nat)
    requires tail < |table| && n < |table| && Holds(table, tail, n) && VacantElsewhere(table, tail, n)
    ensures Collected(table) == BySlot(Row(table, tail, n), tail, |table|)
  {
    var size := |table|;
    if n == 0 {
      CollectedVacant(table, 0);
    } else if tail + n <= size {
      CollectedStraight(table, tail, n);
    } else {
      CollectedRound(table, tail, n);
    }
  }

  lemma CollectedRound<T>(table: seq<Slot<T>>, tail: nat, n: nat)
    requires tail < |table| < tail + n && n < |table| && Holds(table, tail, n) && VacantElsewhere(table, tail, n)
    ensures Collected(table) == BySlot(Row(table, tail, n), tail, |table|)
  {
    var k := |table| - tail;
    RowSplit(table, tail, n, k);
    assert Collected(table) == Collected(table[..tail]) + Row(table, tail, k) by {
      assert table[..|table|] == table;
      CollectedRun(table, tail, k);
    }
    assert Collected(table[..tail]) == Collected(table[..n - k]) by {
      CollectedVacant(table[..tail], n - k);
      assert table[..tail][..n - k] == table[..n - k];
    }
    assert Collected(table[..n - k]) == Row(table, 0, n - k) by {
      CollectedRun(table, 0, n - k);
      assert table[..0] == [];
    }
  }

  // ----- the queue -----

  /** One shifted left, as the size is compared: 32 bits wide and signed before
      it is widened, so that the last shift comes out enormous. */
  function ShiftedOne(i: nat): nat
    requires i < 32
  {
    if i < 31 then Pow2(i) else 0xFFFF_FFFF_8000_0000
  }

  /** The power to which a size is rounded up. The largest shift compares as
      larger than any size, so 2^31 is silently the most there is. */
  method RoundUp(n: nat) returns (i: nat)
    requires 0 < n < 0x1_0000_0000
    ensures i <= 31 && (n <= Pow2(i) || (i == 31 && n > 0x8000_0000))
    ensures i > 0 ==> n > Pow2(i - 1)
  {
    i := 0;
    while i < 32 && n > ShiftedOne(i)
      invariant i <= 31 && (i > 0 ==> n > Pow2(i - 1))
    {
      i := i + 1;
    }
    Pow2Of31();
  }

  class Queue<T> {
    const numElements: nat
    const numMask: nat
    ghost const bits: nat
    const itemTable: array<Slot<T>>
    var head: nat
    var tail: nat
    var full: bool
    var empty: bool

    /** How many items the queue takes; one slot always stays vacant. */
    function Room(): int
    {
      numElements - 1
    }

    ghost function Used(): nat
      reads this`head, this`tail
      requires head < numElements && tail < numElements
    {
      Wrap(head + numElements - tail, numElements)
    }

    /** All of the invariant but the two flags. */
    ghost predicate Shaped()
      reads this`head, this`tail, itemTable
    {
      && bits <= 31 && numElements == Pow2(bits) && numMask == numElements - 1
      && itemTable.Length == numElements && numElements <= 0x8000_0000
      && head < numElements && tail < numElements
      && Holds(itemTable[..], tail, Used())
    }

    ghost predicate Valid()
      reads this, itemTable
    {
      Shaped() && empty == (Contents() == []) && full == (|Contents()| == Room() > 0)
    }

    /** The items, the next one to come out first. */
    ghost function Contents(): (row: seq<T>)
      reads this`head, this`tail, itemTable
      requires Shaped()
    {
      Row(itemTable[..], tail, Used())
    }

    /** No slot in use but those of the contents. */
    ghost predicate Tidy()
      reads this`head, this`tail, itemTable
      requires Shaped()
    {
      VacantElsewhere(itemTable[..], tail, Used())
    }

    constructor (power: nat)
      requires power <= 31
      ensures Valid() && Contents() == [] && Tidy() && numElements == Pow2(power) && fresh(itemTable)
    {
      Pow2Grows(power, 31);
      numElements, numMask, bits := Pow2(power), Pow2(power) - 1, power;
      head, tail, full, empty := 0, 0, false, true;
      itemTable := new Slot<T>[Pow2(power)](_ => Vacant);
      new;
      Pow2Of31();
    }

    /** Sets the flags from head and tail, and tells which conditions to signal. */
    method ConditionUpdate() returns (signals: Signals)
      requires Shaped()
      modifies this`full, this`empty
      ensures Valid()
      ensures signals == Signals(old(full) && !full, old(empty) && !empty)
    {
      var oldFull, oldEmpty := full, empty;
      var next := Next(head);
      if head == tail {
        empty, full := true, false;
      } else if next == tail {
        empty, full := false, true;
      } else {
        empty, full := false, false;
      }
      signals := Signals(oldFull != full && !full, oldEmpty != empty && !empty);
    }

    /** The part of an enqueue between waiting and unlocking. */
    method Insert(x: T) returns (signals: Signals)
      requires Valid() && !full
      modifies this`head, this`full, this`empty, itemTable
      ensures Valid()
      ensures Contents() == if Room() > 0 then old(Contents()) + [x] else []
      ensures signals == Owed(Room(), old(|Contents()|), |Contents()|)
      ensures Room() > 0 && old(Tidy()) ==> Tidy()
    {
      StoreAtHead(x);
      signals := ConditionUpdate();
    }

    /** The next slot, as head and tail advance. */
    method Next(i: nat) returns (next: nat)
      requires Shaped() && i < numElements
      ensures next == Wrap(i + 1, numElements)
    {
      next := Word(i + 1);
      next := And(next, numMask);
      MaskWraps(i + 1, bits);
    }

    method StoreAtHead(x: T)
      requires Valid() && !full
      modifies this`head, itemTable
      ensures Shaped() && Contents() == if Room() > 0 then old(Contents()) + [x] else []
      ensures Room() > 0 && old(Tidy()) ==> Tidy()
    {
      ghost var after, n, more := RingPut(itemTable[..], tail, head, x);
      var next := Next(head);
      itemTable[head] := Item(x);
      head := next;
      assert itemTable[..] == after && Used() == more;
    }

    /** The part of a dequeue between waiting and unlocking. */
    method Take() returns (x: T, signals: Signals)
      requires Valid() && !empty
      modifies this`tail, this`full, this`empty, itemTable
      ensures Valid() && old(Contents()) == [x] + Contents()
      ensures signals == Owed(Room(), old(|Contents()|), |Contents()|)
      ensures old(Tidy()) ==> Tidy()
    {
      x := TakeFromTail();
      signals := ConditionUpdate();
    }

    method TakeFromTail() returns (x: T)
      requires Valid() && !empty
      modifies this`tail, itemTable
      ensures Shaped() && old(Contents()) == [x] + Contents()
      ensures old(Tidy()) ==> Tidy()
    {
      ghost var after, n, less := RingTake(itemTable[..], tail, head);
      x := itemTable[tail].value;
      var next := Next(tail);
      itemTable[tail] := Vacant;
      tail := next;
      assert itemTable[..] == after && Used() == less;
    }

    /** Empties the queue; on request it frees what is in the table, slot by slot. */
    method Clear(freeItems: bool) returns (signals: Signals, freed: seq<T>)
      requires Valid()
      modifies this`head, this`tail, this`full, this`empty, itemTable
      ensures Valid() && Contents() == []
      ensures signals == if old(full) then Signals(true, false) else Signals(false, false)
      ensures freeItems ==> Tidy()
      ensures old(Tidy()) ==> freed == if freeItems then BySlot(old(Contents()), old(tail), numElements) else []
    {
      freed := [];
      if freeItems {
        freed := FreeItems();
        if old(Tidy()) {
          CollectedIsRow(old(itemTable[..]), old(tail), old(Used()));
        }
      }
      head, tail := 0, 0;
      signals := ConditionUpdate();
    }

    method FreeItems() returns (freed: seq<T>)
      requires itemTable.Length == numElements
      modifies itemTable
      ensures freed == Collected(old(itemTable[..])) && forall i :: 0 <= i < numElements ==> itemTable[i].Vacant?
    {
      ghost var table := itemTable[..];
      freed := [];
      for i := 0 to numElements
        invariant freed == Collected(table[..i])
        invariant forall j :: 0 <= j < i ==> itemTable[j].Vacant?
        invariant forall j :: i <= j < numElements ==> itemTable[j] == table[j]
      {
        assert table[..i + 1][..i] == table[..i];
        if itemTable[i].Item? {
          freed := freed + [itemTable[i].value];
          itemTable[i] := Vacant;
        }
      }
      assert table[..numElements] == table;
    }

    method UsedCount() returns (used: nat)
      requires Valid()
      ensures used == |Contents()|
    {
      MaskWraps(head + numElements - tail, bits);
      used := And(Word(head + numElements - tail), numMask);
    }
  }

  method QueueCreate<T>(numElements: nat) returns (queue: Queue?<T>)
    requires numElements < 0x1_0000_0000
    ensures (queue == null) == (numElements == 0)
    ensures queue != null ==> queue.Valid() && queue.Contents() == [] && queue.Tidy()
    ensures queue != null && numElements <= 0x8000_0000 ==> numElements <= queue.numElements < 2 * numElements
    ensures queue != null && numElements > 0x8000_0000 ==> queue.numElements == 0x8000_0000
  {
    if numElements == 0 {
      return null;
    }
    var i := RoundUp(numElements);
    queue := new Queue<T>(i);
    Pow2Of31();
  }

  method QueueUsed<T>(queue: Queue?<T>) returns (used: nat)
    requires queue != null ==> queue.Valid()
    ensures used == if queue == null then 0 else |queue.Contents()|
  {
    if queue == null {
      return 0;
    }
    used := queue.UsedCount();
  }
}
