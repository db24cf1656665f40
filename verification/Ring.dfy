/**
 The single-producer single-consumer ring as a state machine. Each load or store of `head_` and `tail_`, each
 slot write and each slot read is one step, and the steps of the two threads interleave in any way.
 */
module Ring {
  import opened Types
  import opened Bits

  /** Where the producer stands inside emplace. */
  datatype Producer<T> =
    | Idle
    | LoadHead(item: T)
    | WriteSlot(item: T)
    | StoreTail(item: T)
    | SaveTail

  /** Where the consumer stands inside pop. */
  datatype Consumer<T> =
    | Waiting
    | LoadTail
    | ReadSlot
    | StoreHead(item: T)
    | SaveHead

  /**
   `headSeen`, `tailMine` are the producer's cached indices, `tailSeen`, `headMine` the consumer's. `accepted`
   and `popped` record what went through; `refused` counts the items turned away.
   */
  datatype State<T> = State(
    head: nat, tail: nat, headSeen: nat, tailMine: nat, tailSeen: nat, headMine: nat,
    buffer: seq<T>, producer: Producer<T>, consumer: Consumer<T>,
    accepted: seq<T>, popped: seq<T>, refused: nat)

  datatype Action<T> = Emplace(item: T) | Produce | Pop | Consume

  /** Index arithmetic: unbounded, or on 64-bit counters. */
  datatype Arith = Unbounded | Wrapping {
    function Inc(x: nat): nat {
      if Unbounded? then x + 1 else (x + 1) % TWO_64
    }

    /** `tail - head` */
    function Gap(tail: nat, head: nat): int {
      if Unbounded? then tail - head else (tail - head) % TWO_64
    }
  }

  function Cap<T>(s: State<T>): nat {
    |s.buffer|
  }

  /** The capacity is a power of two that an index counter can hold. */
  ghost predicate Sized<T>(s: State<T>) {
    0 < |s.buffer| < TWO_64 && exists k: nat :: |s.buffer| == Pow2(k)
  }

  /** `i & (Capacity - 1)` */
  function Slot<T>(s: State<T>, i: nat): (r: nat)
    requires Cap(s) > 0
    ensures r < Cap(s)
  {
    AndAtMost(i, Cap(s) - 1);
    And(i, Cap(s) - 1)
  }

  lemma {:induction false} AndAtMost(x: nat, y: nat)
    ensures And(x, y) <= y
  {
    if x > 0 && y > 0 {
      AndAtMost(x / 2, y / 2);
    }
  }

  function Init<T>(buffer: seq<T>): State<T> {
    State(0, 0, 0, 0, 0, 0, buffer, Idle, Waiting, [], [], 0)
  }

  /** A call may begin when the thread is between calls; its other steps follow one another. */
  predicate Enabled<T>(s: State<T>, a: Action<T>) {
    match a
    case Emplace(_) => s.producer.Idle?
    case Produce => !s.producer.Idle?
    case Pop => s.consumer.Waiting?
    case Consume => !s.consumer.Waiting?
  }

  function BeginEmplace<T>(ar: Arith, s: State<T>, item: T): State<T> {
    if ar.Gap(s.tailMine, s.headSeen) >= Cap(s) then s.(producer := LoadHead(item)) else s.(producer := WriteSlot(item))
  }

  function ProducerStep<T>(ar: Arith, s: State<T>): State<T>
    requires Cap(s) > 0 && !s.producer.Idle?
  {
    match s.producer
    case LoadHead(item) =>
      var s1 := s.(headSeen := s.head);
      if ar.Gap(s.tailMine, s.head) >= Cap(s) then s1.(producer := Idle, refused := s.refused + 1)
      else s1.(producer := WriteSlot(item))
    case WriteSlot(item) =>
      s.(buffer := s.buffer[Slot(s, s.tailMine) := item], producer := StoreTail(item))
    case StoreTail(item) =>
      s.(tail := ar.Inc(s.tailMine), accepted := s.accepted + [item], producer := SaveTail)
    case SaveTail =>
      s.(tailMine := ar.Inc(s.tailMine), producer := Idle)
  }

  function BeginPop<T>(s: State<T>): State<T> {
    if s.headMine == s.tailSeen then s.(consumer := LoadTail) else s.(consumer := ReadSlot)
  }

  function ConsumerStep<T>(ar: Arith, s: State<T>): State<T>
    requires Cap(s) > 0 && !s.consumer.Waiting?
  {
    match s.consumer
    case LoadTail =>
      var s1 := s.(tailSeen := s.tail);
      if s.headMine == s.tail then s1.(consumer := Waiting) else s1.(consumer := ReadSlot)
    case ReadSlot =>
      s.(consumer := StoreHead(s.buffer[Slot(s, s.headMine)]))
    case StoreHead(item) =>
      s.(head := ar.Inc(s.headMine), popped := s.popped + [item], consumer := SaveHead)
    case SaveHead =>
      s.(headMine := ar.Inc(s.headMine), consumer := Waiting)
  }

  function Step<T>(ar: Arith, s: State<T>, a: Action<T>): (r: State<T>)
    requires Cap(s) > 0 && Enabled(s, a)
    ensures Cap(r) == Cap(s)
  {
    match a
    case Emplace(item) => BeginEmplace(ar, s, item)
    case Produce => ProducerStep(ar, s)
    case Pop => BeginPop(s)
    case Consume => ConsumerStep(ar, s)
  }

  /** An interleaving: steps that are not enabled do not happen. */
  function Run<T>(ar: Arith, s: State<T>, steps: seq<Action<T>>): (r: State<T>)
    requires Cap(s) > 0
    ensures Cap(r) == Cap(s)
    decreases |steps|
  {
    if steps == [] then s
    else Run(ar, if Enabled(s, steps[0]) then Step(ar, s, steps[0]) else s, steps[1..])
  }

  // ---- the invariant, on unbounded indices ----

  /**
   headSeen <= head <= tailSeen <= tail <= headSeen + Capacity, and each thread's own index up to date between calls.
   */
  ghost predicate Indices<T>(s: State<T>) {
    && s.headSeen <= s.head <= s.tailSeen <= s.tail <= s.headSeen + Cap(s)
    && s.tail == s.tailMine + (if s.producer.SaveTail? then 1 else 0)
    && s.head == s.headMine + (if s.consumer.SaveHead? then 1 else 0)
    && (s.producer.WriteSlot? || s.producer.StoreTail? ==> s.tailMine < s.headSeen + Cap(s))
    && (s.producer.LoadHead? ==> s.tailMine >= s.headSeen + Cap(s))
    && (s.consumer.ReadSlot? || s.consumer.StoreHead? ==> s.headMine < s.tailSeen)
    && (s.consumer.LoadTail? ==> s.headMine == s.tailSeen)
  }

  /** What has been popped is what was accepted, in order; the rest is in the slots. */
  ghost predicate Contents<T>(s: State<T>)
    requires Cap(s) > 0
  {
    && |s.accepted| == s.tail && s.head <= s.tail
    && s.popped == s.accepted[..s.head]
    && (forall i: nat :: s.head <= i < s.tail ==> Held(s, i))
    && (s.producer.StoreTail? ==> s.buffer[Slot(s, s.tailMine)] == s.producer.item)
    && (s.consumer.StoreHead? ==> s.headMine < s.tail && s.consumer.item == s.accepted[s.headMine])
  }

  ghost predicate Held<T>(s: State<T>, i: nat)
    requires Cap(s) > 0 && i < |s.accepted|
  {
    s.buffer[Slot(s, i)] == s.accepted[i]
  }

  ghost predicate Inv<T>(s: State<T>) {
    Sized(s) && Indices(s) && Contents(s)
  }

  lemma SlotIsMod<T>(s: State<T>, i: nat)
    requires Sized(s)
    ensures Slot(s, i) == i % Cap(s)
  {
    var k: nat :| Cap(s) == Pow2(k);
    AndMask(i, k);
  }

  /** Indices less than a lap apart use different slots. */
  lemma SlotsApart<T>(s: State<T>, i: nat, j: nat)
    requires Sized(s) && i < j < i + Cap(s)
    ensures Slot(s, i) != Slot(s, j)
  {
    var n := Cap(s);
    SlotIsMod(s, i);
    SlotIsMod(s, j);
    DivMod(i, n);
    DivMod(j, n);
    NoLap(j / n - i / n, n, j - i);
    assert (j / n - i / n) * n == j / n * n - i / n * n;
  }

  lemma NoLap(q: int, n: nat, d: nat)
    requires 0 < d < n
    ensures q * n != d
  {
    if q <= 0 {
      assert q * n <= 0;
    } else {
      assert q * n >= n;
    }
  }

  // ---- every step keeps the invariant ----

  lemma InitInv<T>(buffer: seq<T>)
    requires Sized(Init(buffer))
    ensures Inv(Init(buffer))
  {
  }

  /** The slot about to be written holds no item that is still to be read. */
  lemma WriteIsSafe<T>(s: State<T>, i: nat)
    requires Inv(s) && s.producer.WriteSlot? && s.head <= i < s.tail
    ensures Slot(s, i) != Slot(s, s.tailMine)
  {
    SlotsApart(s, i, s.tailMine);
  }

  lemma WriteInv<T>(s: State<T>)
    requires Inv(s) && s.producer.WriteSlot?
    ensures Inv(ProducerStep(Unbounded, s))
  {
    var s' := ProducerStep(Unbounded, s);
    forall i: nat | s.head <= i < s.tail
      ensures Held(s', i)
    {
      assert Held(s, i);
      WriteIsSafe(s, i);
    }
  }

  lemma StoreTailInv<T>(s: State<T>)
    requires Inv(s) && s.producer.StoreTail?
    ensures Inv(ProducerStep(Unbounded, s))
  {
    var s' := ProducerStep(Unbounded, s);
    forall i: nat | s'.head <= i < s'.tail
      ensures Held(s', i)
    {
      assert i < s.tail ==> Held(s, i);
    }
  }

  lemma ProducerInv<T>(s: State<T>)
    requires Inv(s) && !s.producer.Idle?
    ensures Inv(ProducerStep(Unbounded, s))
  {
    if s.producer.WriteSlot? {
      WriteInv(s);
    } else if s.producer.StoreTail? {
      StoreTailInv(s);
    } else {
      var s' := ProducerStep(Unbounded, s);
      forall i: nat | s.head <= i < s.tail
        ensures Held(s', i)
      {
        assert Held(s, i);
      }
    }
  }

  lemma ConsumerInv<T>(s: State<T>)
    requires Inv(s) && !s.consumer.Waiting?
    ensures Inv(ConsumerStep(Unbounded, s))
  {
    hide Wrapped;
    var s' := ConsumerStep(Unbounded, s);
    forall i: nat | s'.head <= i < s'.tail
      ensures Held(s', i)
    {
      assert Held(s, i);
    }
    if s.consumer.ReadSlot? {
      assert Held(s, s.headMine);
    } else if s.consumer.StoreHead? {
      assert s.accepted[..s.head] + [s.accepted[s.head]] == s.accepted[..s.head + 1];
    }
  }

  lemma StepInv<T>(s: State<T>, a: Action<T>)
    requires Inv(s) && Enabled(s, a)
    ensures Inv(Step(Unbounded, s, a))
  {
    match a
    case Produce => ProducerInv(s);
    case Consume => ConsumerInv(s);
    case _ =>
      var s' := Step(Unbounded, s, a);
      forall i: nat | s.head <= i < s.tail
        ensures Held(s', i)
      {
        assert Held(s, i);
      }
  }

  lemma {:induction false} RunInv<T>(s: State<T>, steps: seq<Action<T>>)
    requires Inv(s)
    ensures Inv(Run(Unbounded, s, steps))
    decreases |steps|
  {
    if steps != [] {
      if Enabled(s, steps[0]) {
        StepInv(s, steps[0]);
        RunInv(Step(Unbounded, s, steps[0]), steps[1..]);
      } else {
        RunInv(s, steps[1..]);
      }
    }
  }

  // ---- what the invariant says ----

  /** In every interleaving: popped is a prefix of accepted, the rest waits in order, never more than the capacity. */
  lemma FirstInFirstOut<T>(buffer: seq<T>, steps: seq<Action<T>>)
    requires Sized(Init(buffer))
    ensures var s := Run(Unbounded, Init(buffer), steps);
            && s.popped <= s.accepted
            && |s.accepted| - |s.popped| <= Cap(s)
            && (forall i: nat :: |s.popped| <= i < |s.accepted| ==> s.buffer[Slot(s, i)] == s.accepted[i])
            && s.headSeen <= s.head <= s.tailSeen <= s.tail <= s.headSeen + Cap(s)
  {
    InitInv(buffer);
    RunInv(Init(buffer), steps);
    var s := Run(Unbounded, Init(buffer), steps);
    forall i: nat | |s.popped| <= i < |s.accepted|
      ensures s.buffer[Slot(s, i)] == s.accepted[i]
    {
      assert Held(s, i);
    }
  }

  /** The two threads never touch the same slot at once. */
  lemma NoSharedSlot<T>(s: State<T>)
    requires Inv(s) && s.producer.WriteSlot? && s.consumer.ReadSlot?
    ensures Slot(s, s.tailMine) != Slot(s, s.headMine)
  {
    WriteIsSafe(s, s.headMine);
  }

  /** An item is turned away only when the ring is full, and then nothing else changes but the cached index. */
  lemma RefusedWhenFull<T>(s: State<T>)
    requires Inv(s) && !s.producer.Idle?
    ensures var s' := ProducerStep(Unbounded, s);
            s'.refused > s.refused <==> s.producer.LoadHead? && |s.accepted| - |s.popped| == Cap(s)
  {
  }

  /** A pop comes back empty-handed only when everything accepted has been popped. */
  lemma EmptyWhenDrained<T>(s: State<T>)
    requires Inv(s) && s.consumer.LoadTail?
    ensures ConsumerStep(Unbounded, s).consumer.Waiting? <==> s.popped == s.accepted
  {
    assert s.accepted[..|s.accepted|] == s.accepted;
  }

  // ---- 64-bit counters ----

  /** The same state with its counters cut to 64 bits. */
  function Wrapped<T>(s: State<T>): State<T> {
    State(s.head % TWO_64, s.tail % TWO_64, s.headSeen % TWO_64, s.tailMine % TWO_64, s.tailSeen % TWO_64,
          s.headMine % TWO_64, s.buffer, s.producer, s.consumer, s.accepted, s.popped, s.refused)
  }

  lemma GapWraps(a: nat, b: nat, n: nat)
    requires b <= a <= b + n && n < TWO_64
    ensures Wrapping.Gap(a % TWO_64, b % TWO_64) == a - b
    ensures a % TWO_64 == b % TWO_64 <==> a == b
  {
    DivMod(a, TWO_64);
    DivMod(b, TWO_64);
    var d := a % TWO_64 - b % TWO_64;
    var q := a / TWO_64 - b / TWO_64;
    assert a - b == q * 0x1_0000_0000_0000_0000 + d;
  }

  lemma IncWraps(a: nat)
    ensures Wrapping.Inc(a % TWO_64) == (a + 1) % TWO_64
  {
    DivMod(a, TWO_64);
  }

  /** A power of two below 2^64 divides it, so cutting an index to 64 bits does not move its slot. */
  lemma SlotWraps<T>(s: State<T>, i: nat)
    requires Sized(s)
    ensures Slot(s, i % TWO_64) == Slot(s, i)
  {
    var n := Cap(s);
    var k: nat :| n == Pow2(k);
    Pow2Values();
    if k >= 64 {
      Pow2Monotone(64, k);
    }
    Pow2Add(64 - k, k);
    var m := Pow2(64 - k);
    SlotIsMod(s, i);
    SlotIsMod(s, i % TWO_64);
    DivMod(i, TWO_64);
    DivMod(i % TWO_64, n);
    RegroupMod(i, i / TWO_64, m, n, i % TWO_64);
  }

  lemma RegroupMod(i: nat, q: nat, m: nat, n: nat, r: nat)
    requires n > 0 && i == q * (m * n) + r
    ensures i % n == r % n
  {
    DivMod(r, n);
    assert q * (m * n) == q * m * n;
    assert (q * m + r / n) * n == q * m * n + r / n * n;
    DivModUnique(i, n, q * m + r / n, r % n);
  }

  lemma BeginEmplaceWraps<T>(s: State<T>, item: T)
    requires Inv(s) && s.producer.Idle?
    ensures Wrapped(BeginEmplace(Unbounded, s, item)) == BeginEmplace(Wrapping, Wrapped(s), item)
  {
    GapWraps(s.tailMine, s.headSeen, Cap(s));
  }

  lemma ProducerStepWraps<T>(s: State<T>)
    requires Inv(s) && !s.producer.Idle?
    ensures Wrapped(ProducerStep(Unbounded, s)) == ProducerStep(Wrapping, Wrapped(s))
  {
    if s.producer.LoadHead? {
      GapWraps(s.tailMine, s.head, Cap(s));
    }
    IncWraps(s.tailMine);
    SlotWraps(s, s.tailMine);
  }

  lemma BeginPopWraps<T>(s: State<T>)
    requires Inv(s) && s.consumer.Waiting?
    ensures Wrapped(BeginPop(s)) == BeginPop(Wrapped(s))
  {
    GapWraps(s.tailSeen, s.headMine, Cap(s));
  }

  lemma ConsumerStepWraps<T>(s: State<T>)
    requires Inv(s) && !s.consumer.Waiting?
    ensures Wrapped(ConsumerStep(Unbounded, s)) == ConsumerStep(Wrapping, Wrapped(s))
  {
    if s.consumer.LoadTail? {
      GapWraps(s.tail, s.headMine, Cap(s));
    }
    IncWraps(s.headMine);
    SlotWraps(s, s.headMine);
  }

  lemma StepWraps<T>(s: State<T>, a: Action<T>)
    requires Inv(s) && Enabled(s, a)
    ensures Wrapped(Step(Unbounded, s, a)) == Step(Wrapping, Wrapped(s), a)
  {
    hide ProducerStep, ConsumerStep, BeginPop, BeginEmplace;
    match a
    case Emplace(item) => BeginEmplaceWraps(s, item);
    case Produce => ProducerStepWraps(s);
    case Pop => BeginPopWraps(s);
    case Consume => ConsumerStepWraps(s);
  }

  /**
   On 64-bit counters that wrap around the ring takes the same decisions, touches the same slots and passes the
   same items as on unbounded ones, in every interleaving of any length.
   */
  lemma {:induction false} WrappingIsInvisible<T>(s: State<T>, steps: seq<Action<T>>)
    requires Inv(s)
    ensures Run(Wrapping, Wrapped(s), steps) == Wrapped(Run(Unbounded, s, steps))
    decreases |steps|
  {
    if steps != [] {
      if Enabled(s, steps[0]) {
        StepInv(s, steps[0]);
        StepWraps(s, steps[0]);
        WrappingIsInvisible(Step(Unbounded, s, steps[0]), steps[1..]);
      } else {
        WrappingIsInvisible(s, steps[1..]);
      }
    }
  }
}
