/**
  The single-producer single-consumer ring.  Every load, every store and every access to the buffer
  is a step of its own, so the steps of one push and one pop interleave in any way.

  A thread loads the index it owns exactly.  Its load of the other thread's index may be stale: it
  returns any value stored so far that is not older than the last one it saw.
 */
module SpscQueues {
  import opened Types

  /** One position further, wrapping around at the end of the buffer. */
  function Increment(i: nat, cap: nat): nat {
    if i + 1 == cap then 0 else i + 1
  }

  datatype Producer<T> =
    | Idle
    | Starting(value: T, at: nat)
    | Writing(value: T, at: nat)
    | Storing(value: T, at: nat)

  datatype Consumer<T> =
    | Waiting
    | Checking(at: nat)
    | Reading(at: nat)
    | Releasing(at: nat, out: T)

  /**
    `head`, `tail` and `buffer` are the shared memory.  The rest is history: the values whose push or
    pop has been made visible by a store, and how many pops the producer, and pushes the consumer,
    has seen.
   */
  datatype State<T> = State(
    buffer: seq<T>,
    head: nat,
    tail: nat,
    producer: Producer<T>,
    consumer: Consumer<T>,
    pushed: seq<T>,
    popped: seq<T>,
    popsSeen: nat,
    pushesSeen: nat)

  datatype Step<T> =
    | LoadOwnTail(value: T)
    | LoadHead(seen: nat)
    | WriteSlot
    | StoreTail
    | LoadOwnHead
    | LoadTail(seen: nat)
    | ReadSlot
    | StoreHead

  /** The buffer has one slot more than the queue may hold. */
  ghost predicate Init<T>(s: State<T>, capacity: nat) {
    && |s.buffer| == capacity + 1
    && s.head == s.tail == 0
    && s.producer == Idle && s.consumer == Waiting
    && s.pushed == [] && s.popped == []
    && s.popsSeen == s.pushesSeen == 0
  }

  /** The slot of the k-th value. */
  function Slot(k: nat, cap: nat): nat {
    if k == 0 then 0 else Increment(Slot(k - 1, cap), cap)
  }

  predicate Enabled<T>(s: State<T>, step: Step<T>) {
    match step
    case LoadOwnTail(_) => s.producer.Idle?
    case LoadHead(seen) => s.producer.Starting? && s.popsSeen <= seen <= |s.popped|
    case WriteSlot => s.producer.Writing? && s.producer.at < |s.buffer|
    case StoreTail => s.producer.Storing?
    case LoadOwnHead => s.consumer.Waiting?
    case LoadTail(seen) => s.consumer.Checking? && s.pushesSeen <= seen <= |s.pushed|
    case ReadSlot => s.consumer.Reading? && s.consumer.at < |s.buffer|
    case StoreHead => s.consumer.Releasing?
  }

  function Next<T>(s: State<T>, step: Step<T>): State<T>
    requires Enabled(s, step)
  {
    var cap := |s.buffer|;
    match step
    case LoadOwnTail(value) => s.(producer := Starting(value, s.tail))
    case LoadHead(seen) =>
      var p := s.producer;
      if Increment(p.at, cap) == Slot(seen, cap) then s.(producer := Idle, popsSeen := seen)
      else s.(producer := Writing(p.value, p.at), popsSeen := seen)
    case WriteSlot =>
      var p := s.producer;
      s.(buffer := s.buffer[p.at := p.value], producer := Storing(p.value, p.at))
    case StoreTail =>
      var p := s.producer;
      s.(tail := Increment(p.at, cap), producer := Idle, pushed := s.pushed + [p.value])
    case LoadOwnHead => s.(consumer := Checking(s.head))
    case LoadTail(seen) =>
      var c := s.consumer;
      if c.at == Slot(seen, cap) then s.(consumer := Waiting, pushesSeen := seen)
      else s.(consumer := Reading(c.at), pushesSeen := seen)
    case ReadSlot =>
      s.(consumer := Releasing(s.consumer.at, s.buffer[s.consumer.at]))
    case StoreHead =>
      var c := s.consumer;
      s.(head := Increment(c.at, cap), consumer := Waiting, popped := s.popped + [c.out])
  }

  // ---- positions ------------------------------------------------------------------------------------

  lemma {:induction false} SlotInside(k: nat, cap: nat)
    requires cap > 0
    ensures Slot(k, cap) < cap
  {
    if k > 0 {
      SlotInside(k - 1, cap);
    }
  }

  lemma {:induction false} SlotAhead(k: nat, d: nat, cap: nat)
    requires d < cap
    ensures Slot(k + d, cap) == if Slot(k, cap) + d < cap then Slot(k, cap) + d else Slot(k, cap) + d - cap
  {
    SlotInside(k, cap);
    if d > 0 {
      SlotAhead(k, d - 1, cap);
      assert k + d - 1 == k + (d - 1);
    }
  }

  /** Two counts less than a buffer apart are in the same slot only when they are equal. */
  lemma SlotsDiffer(i: nat, j: nat, cap: nat)
    requires i <= j < i + cap
    ensures Slot(i, cap) == Slot(j, cap) <==> i == j
  {
    SlotInside(i, cap);
    SlotAhead(i, j - i, cap);
  }

  /** A whole buffer further is the same slot. */
  lemma SlotAround(i: nat, cap: nat)
    requires cap > 0
    ensures Slot(i + cap, cap) == Slot(i, cap)
  {
    SlotInside(i, cap);
    SlotAhead(i, cap - 1, cap);
    assert i + cap - 1 == i + (cap - 1);
  }

  // ---- the invariant --------------------------------------------------------------------------------

  ghost predicate ProducerOk<T>(s: State<T>) {
    var p := s.producer;
    && (!p.Idle? ==> p.at == s.tail)
    && (p.Writing? || p.Storing? ==> |s.pushed| + 1 - s.popsSeen < |s.buffer|)
    && (p.Storing? ==> p.at < |s.buffer| && s.buffer[p.at] == p.value)
  }

  ghost predicate ConsumerOk<T>(s: State<T>) {
    var c := s.consumer;
    && (!c.Waiting? ==> c.at == s.head)
    && (c.Reading? || c.Releasing? ==> |s.popped| < s.pushesSeen)
    && (c.Releasing? ==> |s.popped| < |s.pushed| && c.out == s.pushed[|s.popped|])
  }

  ghost predicate Held<T>(s: State<T>, k: nat) {
    k < |s.pushed| && Slot(k, |s.buffer|) < |s.buffer| && s.buffer[Slot(k, |s.buffer|)] == s.pushed[k]
  }

  ghost predicate Ok<T>(s: State<T>) {
    && |s.buffer| > 0
    && s.head == Slot(|s.popped|, |s.buffer|)
    && s.tail == Slot(|s.pushed|, |s.buffer|)
    && s.popped <= s.pushed
    && s.popsSeen <= |s.popped| <= s.pushesSeen <= |s.pushed|
    && |s.pushed| - s.popsSeen < |s.buffer|
    && (forall k {:trigger Held(s, k)} :: |s.popped| <= k < |s.pushed| ==> Held(s, k))
    && ProducerOk(s)
    && ConsumerOk(s)
  }

  lemma InitOk<T>(s: State<T>, capacity: nat)
    requires Init(s, capacity)
    ensures Ok(s)
  {
  }

  // ---- every step keeps the invariant ---------------------------------------------------------------

  lemma LoadHeadKeeps<T>(s: State<T>, seen: nat)
    requires Ok(s) && Enabled(s, LoadHead(seen))
    ensures Ok(Next(s, LoadHead(seen)))
    ensures Next(s, LoadHead(seen)).producer.Idle? <==> |s.pushed| - seen == |s.buffer| - 1
  {
    var cap := |s.buffer|;
    assert Increment(s.tail, cap) == Slot(|s.pushed| + 1, cap);
    if |s.pushed| - seen == cap - 1 {
      SlotAround(seen, cap);
      assert seen + cap == |s.pushed| + 1;
    } else {
      SlotsDiffer(seen, |s.pushed| + 1, cap);
    }
    var s' := Next(s, LoadHead(seen));
    forall k | |s'.popped| <= k < |s'.pushed|
      ensures Held(s', k)
    {
      assert Held(s, k);
    }
  }

  lemma WriteSlotKeeps<T>(s: State<T>)
    requires Ok(s) && Enabled(s, WriteSlot)
    ensures Ok(Next(s, WriteSlot))
  {
    var s' := Next(s, WriteSlot);
    forall k | |s'.popped| <= k < |s'.pushed|
      ensures Held(s', k)
    {
      assert Held(s, k);
      SlotsDiffer(k, |s.pushed|, |s.buffer|);
    }
  }

  lemma StoreTailKeeps<T>(s: State<T>)
    requires Ok(s) && Enabled(s, StoreTail)
    ensures Ok(Next(s, StoreTail))
  {
    var s' := Next(s, StoreTail);
    forall k | |s'.popped| <= k < |s'.pushed|
      ensures Held(s', k)
    {
      if k < |s.pushed| {
        assert Held(s, k);
      }
    }
  }

  lemma LoadTailKeeps<T>(s: State<T>, seen: nat)
    requires Ok(s) && Enabled(s, LoadTail(seen))
    ensures Ok(Next(s, LoadTail(seen)))
    ensures Next(s, LoadTail(seen)).consumer.Waiting? <==> seen == |s.popped|
  {
    SlotsDiffer(|s.popped|, seen, |s.buffer|);
    var s' := Next(s, LoadTail(seen));
    forall k | |s'.popped| <= k < |s'.pushed|
      ensures Held(s', k)
    {
      assert Held(s, k);
    }
  }

  lemma ConsumerKeeps<T>(s: State<T>, step: Step<T>)
    requires Ok(s) && Enabled(s, step) && (step.LoadOwnTail? || step.LoadOwnHead? || step.ReadSlot? || step.StoreHead?)
    ensures Ok(Next(s, step))
  {
    var s' := Next(s, step);
    if step.ReadSlot? {
      assert Held(s, |s.popped|);
    }
    forall k | |s'.popped| <= k < |s'.pushed|
      ensures Held(s', k)
    {
      assert Held(s, k);
    }
  }

  lemma NextKeeps<T>(s: State<T>, step: Step<T>)
    requires Ok(s) && Enabled(s, step)
    ensures Ok(Next(s, step))
  {
    match step {
      case LoadHead(seen) => LoadHeadKeeps(s, seen);
      case WriteSlot => WriteSlotKeeps(s);
      case StoreTail => StoreTailKeeps(s);
      case LoadTail(seen) => LoadTailKeeps(s, seen);
      case _ => ConsumerKeeps(s, step);
    }
  }

  // ---- what the invariant means ---------------------------------------------------------------------

  /** s' is reached from s by the steps, each enabled when it is taken. */
  ghost predicate Runs<T>(s: State<T>, steps: seq<Step<T>>, s': State<T>)
    decreases |steps|
  {
    if steps == [] then s' == s
    else Enabled(s, steps[0]) && Runs(Next(s, steps[0]), steps[1..], s')
  }

  lemma {:induction false} RunsKeep<T>(s: State<T>, steps: seq<Step<T>>, s': State<T>)
    requires Ok(s) && Runs(s, steps, s')
    ensures Ok(s') && |s'.buffer| == |s.buffer|
    decreases |steps|
  {
    if steps != [] {
      NextKeeps(s, steps[0]);
      RunsKeep(Next(s, steps[0]), steps[1..], s');
    }
  }

  // ---- what the callers asked for -------------------------------------------------------------------

  /** The values of the push calls that go through, in order, told from the steps alone.  A call starts with
      its value and goes through when it stores the index; a call that is refused is followed by the start
      of the next one.  `current` is the value of the call that is under way. */
  function PushCalls<T>(steps: seq<Step<T>>, current: Option<T>): seq<T> {
    if steps == [] then [] else
    match steps[0]
    case LoadOwnTail(value) => PushCalls(steps[1..], Some(value))
    case StoreTail => (if current.Some? then [current.value] else []) + PushCalls(steps[1..], None)
    case _ => PushCalls(steps[1..], current)
  }

  /** The number of pop calls that go through. */
  function PopCalls<T>(steps: seq<Step<T>>): nat {
    if steps == [] then 0 else (if steps[0].StoreHead? then 1 else 0) + PopCalls(steps[1..])
  }

  function Current<T>(p: Producer<T>): Option<T> {
    if p.Idle? then None else Some(p.value)
  }

  /** A call that has been refused, or that has gone through, is not under way any more. */
  lemma {:induction false} NoCurrent<T>(s: State<T>, steps: seq<Step<T>>, s': State<T>, current: Option<T>)
    requires s.producer.Idle? && Runs(s, steps, s')
    ensures PushCalls(steps, current) == PushCalls(steps, None)
    decreases |steps|
  {
    if steps != [] && !steps[0].LoadOwnTail? {
      NoCurrent(Next(s, steps[0]), steps[1..], s', current);
    }
  }

  /** What a run pushes and pops is what the calls in it ask for. */
  lemma {:induction false} RunsServe<T>(s: State<T>, steps: seq<Step<T>>, s': State<T>)
    requires Runs(s, steps, s')
    ensures s'.pushed == s.pushed + PushCalls(steps, Current(s.producer))
    ensures |s'.popped| == |s.popped| + PopCalls(steps)
    decreases |steps|
  {
    if steps != [] {
      var next := Next(s, steps[0]);
      RunsServe(next, steps[1..], s');
      if next.producer.Idle? {
        NoCurrent(next, steps[1..], s', Current(s.producer));
      }
    }
  }

  /** In every interleaving: what has been pushed are the values of the push calls that went through, in
      order; what was popped, one value by each pop call that went through, is a prefix of them, and the value
      that a pop has read is the next one; at most `capacity` values are queued, and the slot being written
      is never the slot being read. */
  lemma EveryInterleaving<T>(s0: State<T>, capacity: nat, steps: seq<Step<T>>, s: State<T>)
    requires Init(s0, capacity) && Runs(s0, steps, s)
    ensures s.pushed == PushCalls(steps, None)
    ensures s.popped <= PushCalls(steps, None) && |s.popped| == PopCalls(steps)
    ensures s.consumer.Releasing? ==>
      |s.popped| < |PushCalls(steps, None)| && s.consumer.out == PushCalls(steps, None)[|s.popped|]
    ensures |s.pushed| - |s.popped| <= capacity
    ensures s.producer.Writing? && s.consumer.Reading? ==> s.producer.at != s.consumer.at
    ensures s.producer.Writing? ==> s.producer.at < |s.buffer|
    ensures s.consumer.Reading? ==> s.consumer.at < |s.buffer|
  {
    InitOk(s0, capacity);
    RunsKeep(s0, steps, s);
    RunsServe(s0, steps, s);
    SlotInside(|s.pushed|, |s.buffer|);
    SlotInside(|s.popped|, |s.buffer|);
    if s.producer.Writing? && s.consumer.Reading? {
      SlotsDiffer(|s.popped|, |s.pushed|, |s.buffer|);
    }
  }

  /** No data race: before the producer writes a slot it has seen the store that released the slot's
      previous value, and before the consumer reads a slot it has seen the store that published it. */
  lemma SeenBeforeAccess<T>(s0: State<T>, capacity: nat, steps: seq<Step<T>>, s: State<T>)
    requires Init(s0, capacity) && Runs(s0, steps, s)
    ensures s.producer.Writing? && |s.pushed| >= |s.buffer| ==>
      var previous := |s.pushed| - |s.buffer|;
      previous < s.popsSeen && Slot(previous, |s.buffer|) == s.producer.at
    ensures s.consumer.Reading? ==> |s.popped| < s.pushesSeen && Slot(|s.popped|, |s.buffer|) == s.consumer.at
  {
    InitOk(s0, capacity);
    RunsKeep(s0, steps, s);
    if |s.pushed| >= |s.buffer| {
      SlotAround(|s.pushed| - |s.buffer|, |s.buffer|);
    }
  }

  /** A push is refused exactly when, by what the producer has just seen, `capacity` values are queued;
      a pop is refused exactly when the consumer has seen no value that it has not popped. */
  lemma RefusedExactlyWhen<T>(s0: State<T>, capacity: nat, steps: seq<Step<T>>, s: State<T>, seen: nat)
    requires Init(s0, capacity) && Runs(s0, steps, s)
    ensures Enabled(s, LoadHead(seen)) ==>
      (Next(s, LoadHead(seen)).producer.Idle? <==> |s.pushed| - seen == capacity)
    ensures Enabled(s, LoadTail(seen)) ==>
      (Next(s, LoadTail(seen)).consumer.Waiting? <==> seen == |s.popped|)
  {
    InitOk(s0, capacity);
    RunsKeep(s0, steps, s);
    if Enabled(s, LoadHead(seen)) {
      LoadHeadKeeps(s, seen);
    }
    if Enabled(s, LoadTail(seen)) {
      LoadTailKeeps(s, seen);
    }
  }

  /** The number of values between two positions. */
  function ReadAvailable(head: nat, tail: nat, cap: nat): int {
    if tail >= head then tail - head else (cap - head) + tail
  }

  /** The slots of two positions less than a lap apart. */
  lemma AvailableBetween(from: nat, to: nat, cap: nat)
    requires from <= to < from + cap
    ensures ReadAvailable(Slot(from, cap), Slot(to, cap), cap) == to - from
  {
    SlotAhead(from, to - from, cap);
    SlotInside(from, cap);
  }

  lemma Counters<T>(s: State<T>)
    requires Ok(s)
    ensures s.head == Slot(|s.popped|, |s.buffer|) && s.tail == Slot(|s.pushed|, |s.buffer|)
    ensures s.popsSeen <= |s.popped| <= s.pushesSeen <= |s.pushed| < s.popsSeen + |s.buffer|
  {
  }

  /** Asked by the consumer, whose own index is exact while the other may be stale, the answer is the number
      of values queued by what it has seen. */
  lemma ConsumerCounts<T>(s0: State<T>, capacity: nat, steps: seq<Step<T>>, s: State<T>, seen: nat)
    requires Init(s0, capacity) && Runs(s0, steps, s) && s.pushesSeen <= seen <= |s.pushed|
    ensures ReadAvailable(s.head, Slot(seen, |s.buffer|), |s.buffer|) == seen - |s.popped|
  {
    hide Ok, Slot, ReadAvailable;
    InitOk(s0, capacity);
    RunsKeep(s0, steps, s);
    Counters(s);
    AvailableBetween(|s.popped|, seen, |s.buffer|);
  }

  /** So it is asked by the producer. */
  lemma ProducerCounts<T>(s0: State<T>, capacity: nat, steps: seq<Step<T>>, s: State<T>, seen: nat)
    requires Init(s0, capacity) && Runs(s0, steps, s) && s.popsSeen <= seen <= |s.popped|
    ensures ReadAvailable(Slot(seen, |s.buffer|), s.tail, |s.buffer|) == |s.pushed| - seen
  {
    hide Ok, Slot, ReadAvailable;
    InitOk(s0, capacity);
    RunsKeep(s0, steps, s);
    Counters(s);
    AvailableBetween(seen, |s.pushed|, |s.buffer|);
  }

  // ---- the queue itself -----------------------------------------------------------------------------

  /** The slot i places after a slot. */
  function After(at: nat, i: nat, cap: nat): nat {
    if at + i < cap then at + i else at + i - cap
  }

  /** The queue with the calls taken one at a time: a bounded first-in-first-out sequence. */
  class SpscQueue<T(0)> {
    const capacity: nat
    const buffer: array<T>
    var head: nat
    var tail: nat
    ghost var contents: seq<T>

    ghost predicate Valid()
      reads this, buffer
    {
      && capacity == buffer.Length && head < capacity && tail < capacity
      && |contents| < capacity
      && tail == After(head, |contents|, capacity)
      && forall i :: 0 <= i < |contents| ==> contents[i] == buffer[After(head, i, capacity)]
    }

    constructor (size: nat)
      ensures Valid() && fresh(buffer) && contents == [] && capacity == size + 1
    {
      capacity := size + 1;
      buffer := new T[size + 1];
      head, tail := 0, 0;
      contents := [];
    }

    method Push(value: T) returns (ok: bool)
      requires Valid()
      modifies this`tail, this`contents, buffer
      ensures Valid()
      ensures ok <==> |old(contents)| < capacity - 1
      ensures contents == if ok then old(contents) + [value] else old(contents)
    {
      var currentTail := tail;
      var nextTail := Increment(currentTail, capacity);
      if nextTail == head {
        return false;
      }
      buffer[currentTail] := value;
      tail := nextTail;
      contents := contents + [value];
      return true;
    }

    /** The caller's variable is passed in and handed back; it is left alone when nothing is popped. */
    method Pop(before: T) returns (ok: bool, out: T)
      requires Valid()
      modifies this`head, this`contents
      ensures Valid()
      ensures ok <==> old(contents) != []
      ensures ok ==> old(contents) == [out] + contents
      ensures !ok ==> contents == old(contents) && out == before
    {
      var currentHead := head;
      if currentHead == tail {
        return false, before;
      }
      out := buffer[currentHead];
      head := Increment(currentHead, capacity);
      contents := contents[1..];
      ok := true;
    }

    method ReadAvailableNow() returns (n: nat)
      requires Valid()
      ensures n == |contents|
    {
      var currentHead, currentTail := head, tail;
      n := ReadAvailable(currentHead, currentTail, capacity);
    }
  }
}
