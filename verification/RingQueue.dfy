/** The ring buffer between one producer and one consumer (circular_queue.hpp): push and pop as atomic
    steps in any interleaving, and the same two operations run one after the other. */
module RingQueue {
  import opened MemConfig
  import opened Bits

  /** The masked successor of an index. */
  function NextIndex(i: nat, capacity: nat): nat
    requires capacity > 0
  {
    BitAnd(i + 1, capacity - 1)
  }

  /** What the compile-time test buys: the mask counts modulo the capacity. */
  lemma {:induction false} MaskCountsModulo(i: nat, capacity: nat)
    requires capacity > 0 && BitAnd(capacity, capacity - 1) == 0
    ensures NextIndex(i, capacity) == (i + 1) % capacity < capacity
  {
    PowerOfTwoTest(capacity);
    var n: nat :| Pow2(n) == capacity;
    MaskIsRemainder(i + 1, n);
  }

  // ---- Steps ----

  datatype Consumer<T> = CIdle | CLoaded(head: nat) | CHasItem(head: nat) | CRead(head: nat, item: T)

  /** Where the producer is in push, and the consumer in pop. */
  datatype Producer<T> = PIdle | PLoaded(tail: nat, item: T) | PHasRoom(tail: nat, item: T) | PWritten(tail: nat, item: T)

  /** The queue's shared variables, both threads, and, for the record, everything pushed and popped. */
  datatype Ring<T> = Ring(buffer: seq<T>, head: nat, tail: nat, producer: Producer<T>, consumer: Consumer<T>,
                          pushed: seq<T>, popped: seq<T>)

  datatype Step<T> =
    | StartPush(item: T) | CheckRoom | WriteCell | StoreTail
    | StartPop | CheckItem | ReadCell | StoreHead

  predicate Enabled<T>(s: Ring<T>, step: Step<T>) {
    match step
    case StartPush(_) => s.producer.PIdle?
    case CheckRoom => s.producer.PLoaded?
    case WriteCell => s.producer.PHasRoom? && s.producer.tail < |s.buffer|
    case StoreTail => s.producer.PWritten?
    case StartPop => s.consumer.CIdle?
    case CheckItem => s.consumer.CLoaded?
    case ReadCell => s.consumer.CHasItem? && s.consumer.head < |s.buffer|
    case StoreHead => s.consumer.CRead?
  }

  /** One atomic load or store, and the code up to the next one. */
  function Next<T>(s: Ring<T>, step: Step<T>): Ring<T>
    requires Enabled(s, step) && |s.buffer| > 0
  {
    match step
    case StartPush(item) => s.(producer := PLoaded(s.tail, item))
    case CheckRoom =>
      s.(producer := if NextIndex(s.producer.tail, |s.buffer|) == s.head then PIdle
                     else PHasRoom(s.producer.tail, s.producer.item))
    case WriteCell =>
      s.(buffer := s.buffer[s.producer.tail := s.producer.item], producer := PWritten(s.producer.tail, s.producer.item))
    case StoreTail =>
      s.(tail := NextIndex(s.producer.tail, |s.buffer|), producer := PIdle, pushed := s.pushed + [s.producer.item])
    case StartPop => s.(consumer := CLoaded(s.head))
    case CheckItem => s.(consumer := if s.consumer.head == s.tail then CIdle else CHasItem(s.consumer.head))
    case ReadCell => s.(consumer := CRead(s.consumer.head, s.buffer[s.consumer.head]))
    case StoreHead =>
      s.(head := NextIndex(s.consumer.head, |s.buffer|), consumer := CIdle, popped := s.popped + [s.consumer.item])
  }

  ghost predicate StepsTo<T>(s: Ring<T>, step: Step<T>, s': Ring<T>) {
    Enabled(s, step) && |s.buffer| > 0 && s' == Next(s, step)
  }

  /** A run from the empty queue. */
  ghost predicate IsRun<T>(buffer: seq<T>, states: seq<Ring<T>>, steps: seq<Step<T>>) {
    && |buffer| > 0 && BitAnd(|buffer|, |buffer| - 1) == 0
    && |states| == |steps| + 1 && states[0] == Ring(buffer, 0, 0, PIdle, CIdle, [], [])
    && forall i :: 0 <= i < |steps| ==> StepsTo(states[i], steps[i], states[i + 1])
  }

  // ---- What every step keeps ----

  function InFlight<T>(s: Ring<T>): int {
    |s.pushed| - |s.popped|
  }

  /** The cell that holds item k. */
  function CellOf(k: nat, capacity: nat): nat
    requires capacity > 0
  {
    k % capacity
  }

  ghost predicate Counters<T>(s: Ring<T>) {
    && |s.buffer| > 0 && BitAnd(|s.buffer|, |s.buffer| - 1) == 0
    && s.tail == CellOf(|s.pushed|, |s.buffer|) && s.head == CellOf(|s.popped|, |s.buffer|)
    && 0 <= InFlight(s) < |s.buffer|
  }

  /** Items come out as they went in, and those in flight lie unread in their cells. */
  ghost predicate Contents<T>(s: Ring<T>)
    requires |s.buffer| > 0
  {
    && s.popped <= s.pushed
    && forall k :: |s.popped| <= k < |s.pushed| ==> s.buffer[CellOf(k, |s.buffer|)] == s.pushed[k]
  }

  ghost predicate ProducerKnows<T>(s: Ring<T>)
    requires |s.buffer| > 0 && s.tail < |s.buffer|
  {
    match s.producer
    case PIdle => true
    case PLoaded(tail, _) => tail == s.tail
    case PHasRoom(tail, _) => tail == s.tail && InFlight(s) < |s.buffer| - 1
    case PWritten(tail, item) => tail == s.tail && InFlight(s) < |s.buffer| - 1 && s.buffer[tail] == item
  }

  ghost predicate ConsumerKnows<T>(s: Ring<T>) {
    match s.consumer
    case CIdle => true
    case CLoaded(head) => head == s.head
    case CHasItem(head) => head == s.head && InFlight(s) > 0
    case CRead(head, item) => head == s.head && InFlight(s) > 0 && item == s.pushed[|s.popped|]
  }

  ghost predicate Inv<T>(s: Ring<T>) {
    Counters(s) && Contents(s) && ProducerKnows(s) && ConsumerKnows(s)
  }

  lemma {:induction false} CellAfter(k: nat, d: nat, capacity: nat)
    requires capacity > 0 && d <= capacity
    ensures var c := CellOf(k, capacity);
            c < capacity && CellOf(k + d, capacity) == if c + d < capacity then c + d else c + d - capacity
  {
    var q, r := k / capacity, k % capacity;
    assert k == q * capacity + r;
    if r + d < capacity {
      RemainderIs(k + d, capacity, q, r + d);
    } else {
      MulStep(q, capacity);
      RemainderIs(k + d, capacity, q + 1, r + d - capacity);
    }
  }

  /** Indices less than the capacity apart share a cell only if they are equal. */
  lemma {:induction false} CellsDiffer(j: nat, k: nat, capacity: nat)
    requires capacity > 0 && j <= k < j + capacity
    ensures CellOf(j, capacity) == CellOf(k, capacity) <==> j == k
  {
    CellAfter(j, k - j, capacity);
    hide CellOf;
  }

  lemma {:induction false} NextCell(k: nat, capacity: nat)
    requires capacity > 0 && BitAnd(capacity, capacity - 1) == 0
    ensures NextIndex(CellOf(k, capacity), capacity) == CellOf(k + 1, capacity)
  {
    var r := CellOf(k, capacity);
    CellAfter(k, 1, capacity);
    hide CellOf, NextIndex;
    MaskCountsModulo(r, capacity);
    if r + 1 < capacity {
      RemainderIs(r + 1, capacity, 0, r + 1);
    } else {
      RemainderIs(r + 1, capacity, 1, 0);
    }
  }

  /** The producer finds the queue full exactly if all cells but one are in flight at that moment. */
  lemma {:induction false} FullTest<T>(s: Ring<T>)
    requires Inv(s)
    ensures NextIndex(s.tail, |s.buffer|) == s.head <==> InFlight(s) == |s.buffer| - 1
  {
    var c := |s.buffer|;
    NextCell(|s.pushed|, c);
    CellAfter(|s.popped|, InFlight(s) + 1, c);
  }

  /** The consumer finds it empty exactly if nothing is in flight at that moment. */
  lemma {:induction false} EmptyTest<T>(s: Ring<T>)
    requires Inv(s)
    ensures s.head == s.tail <==> InFlight(s) == 0
  {
    CellsDiffer(|s.popped|, |s.pushed|, |s.buffer|);
  }

  /** The cell the producer writes is not that of any unread item. */
  lemma {:induction false} WritesFreeCell<T>(s: Ring<T>, k: nat)
    requires Inv(s) && Enabled(s, WriteCell) && |s.popped| <= k < |s.pushed|
    ensures s.producer.tail != CellOf(k, |s.buffer|)
    ensures Next(s, WriteCell).buffer[CellOf(k, |s.buffer|)] == s.buffer[CellOf(k, |s.buffer|)] == s.pushed[k]
  {
    CellsDiffer(k, |s.pushed|, |s.buffer|);
  }

  lemma {:induction false} WriteKeepsInv<T>(s: Ring<T>)
    requires Inv(s) && Enabled(s, WriteCell)
    ensures Inv(Next(s, WriteCell))
  {
    var s' := Next(s, WriteCell);
    assert Contents(s') by {
      forall k | |s'.popped| <= k < |s'.pushed|
        ensures s'.buffer[CellOf(k, |s'.buffer|)] == s'.pushed[k]
      {
        WritesFreeCell(s, k);
      }
    }
  }

  lemma {:induction false} StoreTailKeepsInv<T>(s: Ring<T>)
    requires Inv(s) && Enabled(s, StoreTail)
    ensures Inv(Next(s, StoreTail))
  {
    NextCell(|s.pushed|, |s.buffer|);
  }

  lemma {:induction false} StoreHeadKeepsInv<T>(s: Ring<T>)
    requires Inv(s) && Enabled(s, StoreHead)
    ensures Inv(Next(s, StoreHead))
  {
    NextCell(|s.popped|, |s.buffer|);
  }

  /** Every atomic step of either thread keeps the invariant. */
  lemma {:induction false} StepKeepsInv<T>(s: Ring<T>, step: Step<T>)
    requires Inv(s) && Enabled(s, step)
    ensures Inv(Next(s, step))
  {
    match step
    case StartPush(_) =>
    case CheckRoom => FullTest(s);
    case WriteCell => WriteKeepsInv(s);
    case StoreTail => StoreTailKeepsInv(s);
    case StartPop =>
    case CheckItem => EmptyTest(s);
    case ReadCell =>
    case StoreHead => StoreHeadKeepsInv(s);
  }

  lemma {:induction false} StartIsInv<T>(buffer: seq<T>)
    requires |buffer| > 0 && BitAnd(|buffer|, |buffer| - 1) == 0
    ensures Inv(Ring(buffer, 0, 0, PIdle, CIdle, [], []))
  {
  }

  lemma {:induction false} RunKeepsInv<T>(buffer: seq<T>, states: seq<Ring<T>>, steps: seq<Step<T>>, i: nat)
    requires IsRun(buffer, states, steps) && i < |states|
    ensures Inv(states[i])
  {
    hide Inv, Next, Enabled;
    if i == 0 {
      StartIsInv(buffer);
    } else {
      RunKeepsInv(buffer, states, steps, i - 1);
      assert StepsTo(states[i - 1], steps[i - 1], states[i]);
      StepKeepsInv(states[i - 1], steps[i - 1]);
    }
  }

  /** In every interleaving: the items popped are the first items pushed, in order, and at most
      capacity - 1 are in flight. */
  lemma {:induction false} FirstInFirstOut<T>(buffer: seq<T>, states: seq<Ring<T>>, steps: seq<Step<T>>, i: nat)
    requires IsRun(buffer, states, steps) && i < |states|
    ensures states[i].popped <= states[i].pushed
    ensures 0 <= InFlight(states[i]) <= |states[i].buffer| - 1
  {
    RunKeepsInv(buffer, states, steps, i);
  }

  /** A push or a pop that gives up leaves the queue as it is, and only gives up when the queue is full
      or empty at its second load. */
  lemma {:induction false} GivingUp<T>(buffer: seq<T>, states: seq<Ring<T>>, steps: seq<Step<T>>, i: nat)
    requires IsRun(buffer, states, steps) && i < |steps|
    ensures steps[i].CheckRoom? && states[i + 1].producer.PIdle? ==>
              InFlight(states[i]) == |states[i].buffer| - 1 && states[i + 1] == states[i].(producer := PIdle)
    ensures steps[i].CheckItem? && states[i + 1].consumer.CIdle? ==>
              InFlight(states[i]) == 0 && states[i + 1] == states[i].(consumer := CIdle)
  {
    RunKeepsInv(buffer, states, steps, i);
    assert StepsTo(states[i], steps[i], states[i + 1]);
    if steps[i].CheckRoom? {
      FullTest(states[i]);
    } else if steps[i].CheckItem? {
      EmptyTest(states[i]);
    }
  }

  // ---- The queue in memory, one operation after the other ----

  class CircularQueue<T(0)> {
    const buffer: array<T>
    var head: nat
    var tail: nat
    ghost var pushed: seq<T>
    ghost var popped: seq<T>

    ghost function State(): Ring<T>
      reads this, buffer
    {
      Ring(buffer[..], head, tail, PIdle, CIdle, pushed, popped)
    }

    ghost predicate Valid()
      reads this, buffer
    {
      Inv(State())
    }

    /** What the queue holds. */
    ghost function Items(): seq<T>
      requires Valid()
      reads this, buffer
    {
      pushed[|popped|..]
    }

    constructor (capacity: nat)
      requires capacity > 0 && BitAnd(capacity, capacity - 1) == 0
      ensures Valid() && Items() == [] && buffer.Length == capacity && fresh(buffer)
    {
      buffer := new T[capacity];
      head, tail, pushed, popped := 0, 0, [], [];
      new;
      StartIsInv(buffer[..]);
    }

    /** False exactly if the queue is full: it holds capacity - 1 items at most. */
    method Push(value: T) returns (ok: bool)
      requires Valid()
      modifies this`tail, this`pushed, buffer
      ensures Valid() && (ok <==> |old(Items())| < buffer.Length - 1)
      ensures Items() == if ok then old(Items()) + [value] else old(Items())
    {
      ghost var s := State();
      FullTest(s);
      StepKeepsInv(s, StartPush(value));
      ghost var s1 := Next(s, StartPush(value));
      var currentTail := tail;
      var nextTail := NextIndex(currentTail, buffer.Length);
      if nextTail == head {
        return false;
      }
      StepKeepsInv(s1, CheckRoom);
      ghost var s2 := Next(s1, CheckRoom);
      StepKeepsInv(s2, WriteCell);
      ghost var s3 := Next(s2, WriteCell);
      buffer[currentTail] := value;
      assert buffer[..] == s3.buffer;
      StepKeepsInv(s3, StoreTail);
      tail := nextTail;
      pushed := pushed + [value];
      assert State() == Next(s3, StoreTail);
      return true;
    }

    /** None exactly if the queue is empty. */
    method Pop() returns (value: Option<T>)
      requires Valid()
      modifies this`head, this`popped
      ensures Valid() && (value == None <==> old(Items()) == [])
      ensures value.Some? ==> old(Items()) == [value.value] + Items()
      ensures value == None ==> Items() == old(Items())
    {
      ghost var s := State();
      EmptyTest(s);
      StepKeepsInv(s, StartPop);
      ghost var s1 := Next(s, StartPop);
      var currentHead := head;
      if currentHead == tail {
        return None;
      }
      StepKeepsInv(s1, CheckItem);
      ghost var s2 := Next(s1, CheckItem);
      StepKeepsInv(s2, ReadCell);
      ghost var s3 := Next(s2, ReadCell);
      StepKeepsInv(s3, StoreHead);
      var item := buffer[currentHead];
      head := NextIndex(currentHead, buffer.Length);
      popped := popped + [item];
      assert State() == Next(s3, StoreHead);
      return Some(item);
    }
  }
}
