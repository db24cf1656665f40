/** The queue as the source writes it, one call at a time: each method is its thread's run of ring steps. */
module SpscQueues {
  import opened Types
  import opened Bits
  import opened Ring

  // ---- a whole call, without steps of the other thread in between ----

  function ProducerLeft<T>(p: Producer<T>): nat {
    match p
    case Idle => 0
    case SaveTail => 1
    case StoreTail(_) => 2
    case WriteSlot(_) => 3
    case LoadHead(_) => 4
  }

  function ConsumerLeft<T>(c: Consumer<T>): nat {
    match c
    case Waiting => 0
    case SaveHead => 1
    case StoreHead(_) => 2
    case ReadSlot => 3
    case LoadTail => 4
  }

  function FinishEmplace<T>(ar: Arith, s: State<T>): State<T>
    requires Cap(s) > 0
    decreases ProducerLeft(s.producer)
  {
    if s.producer.Idle? then s else FinishEmplace(ar, ProducerStep(ar, s))
  }

  function FinishPop<T>(ar: Arith, s: State<T>): State<T>
    requires Cap(s) > 0
    decreases ConsumerLeft(s.consumer)
  {
    if s.consumer.Waiting? then s else FinishPop(ar, ConsumerStep(ar, s))
  }

  function WholeEmplace<T>(ar: Arith, s: State<T>, item: T): State<T>
    requires Cap(s) > 0
  {
    FinishEmplace(ar, BeginEmplace(ar, s, item))
  }

  function WholePop<T>(ar: Arith, s: State<T>): State<T>
    requires Cap(s) > 0
  {
    FinishPop(ar, BeginPop(s))
  }

  ghost predicate Quiet<T>(s: State<T>) {
    Inv(s) && s.producer.Idle? && s.consumer.Waiting?
  }

  lemma {:induction false} FinishEmplaceWraps<T>(s: State<T>)
    requires Inv(s)
    ensures Inv(FinishEmplace(Unbounded, s)) && FinishEmplace(Unbounded, s).producer.Idle?
    ensures FinishEmplace(Unbounded, s).consumer == s.consumer
    ensures Wrapped(FinishEmplace(Unbounded, s)) == FinishEmplace(Wrapping, Wrapped(s))
    decreases ProducerLeft(s.producer)
  {
    hide Indices, Contents;
    if !s.producer.Idle? {
      ProducerInv(s);
      ProducerStepWraps(s);
      FinishEmplaceWraps(ProducerStep(Unbounded, s));
    }
  }

  lemma {:induction false} FinishPopWraps<T>(s: State<T>)
    requires Inv(s)
    ensures Inv(FinishPop(Unbounded, s)) && FinishPop(Unbounded, s).consumer.Waiting?
    ensures FinishPop(Unbounded, s).producer == s.producer
    ensures Wrapped(FinishPop(Unbounded, s)) == FinishPop(Wrapping, Wrapped(s))
    decreases ConsumerLeft(s.consumer)
  {
    hide Indices, Contents;
    if !s.consumer.Waiting? {
      ConsumerInv(s);
      ConsumerStepWraps(s);
      FinishPopWraps(ConsumerStep(Unbounded, s));
    }
  }

  function InRing<T>(s: State<T>): seq<T> {
    if s.head <= |s.accepted| then s.accepted[s.head..] else []
  }

  /** A call of emplace on its own appends the item, or refuses it when the queue is full. */
  lemma WholeEmplaceQueues<T>(s: State<T>, item: T)
    requires Quiet(s)
    ensures var s' := WholeEmplace(Unbounded, s, item);
            && Quiet(s') && Wrapped(s') == WholeEmplace(Wrapping, Wrapped(s), item)
            && (if |InRing(s)| < Cap(s) then InRing(s') == InRing(s) + [item] && s'.refused == s.refused
                else InRing(s') == InRing(s) && s'.refused == s.refused + 1)
  {
    StepInv(s, Emplace(item));
    BeginEmplaceWraps(s, item);
    FinishEmplaceWraps(BeginEmplace(Unbounded, s, item));
    EmplaceParts(Unbounded, s, item);
  }

  /** What a call of emplace comes to. */
  lemma EmplaceParts<T>(ar: Arith, s: State<T>, item: T)
    requires Cap(s) > 0
    ensures WholeEmplace(ar, s, item) ==
            var full := ar.Gap(s.tailMine, s.headSeen) >= Cap(s);
            var seen := if full then s.head else s.headSeen;
            if full && ar.Gap(s.tailMine, s.head) >= Cap(s)
            then s.(headSeen := seen, producer := Idle, refused := s.refused + 1)
            else s.(headSeen := seen, buffer := s.buffer[Slot(s, s.tailMine) := item], tail := ar.Inc(s.tailMine),
                    tailMine := ar.Inc(s.tailMine), accepted := s.accepted + [item], producer := Idle)
  {
    var b := BeginEmplace(ar, s, item);
    var w := if b.producer.LoadHead? then ProducerStep(ar, b) else b;
    if !w.producer.Idle? {
      var st := ProducerStep(ar, w);
      var sv := ProducerStep(ar, st);
      var dn := ProducerStep(ar, sv);
      assert FinishEmplace(ar, w) == FinishEmplace(ar, st) == FinishEmplace(ar, sv) == FinishEmplace(ar, dn) == dn;
    }
    assert FinishEmplace(ar, b) == FinishEmplace(ar, w);
  }

  lemma PopParts<T>(ar: Arith, s: State<T>)
    requires Cap(s) > 0
    ensures WholePop(ar, s) ==
            var empty := s.headMine == s.tailSeen;
            var seen := if empty then s.tail else s.tailSeen;
            if empty && s.headMine == s.tail then s.(tailSeen := seen, consumer := Waiting)
            else s.(tailSeen := seen, head := ar.Inc(s.headMine), headMine := ar.Inc(s.headMine),
                    popped := s.popped + [s.buffer[Slot(s, s.headMine)]], consumer := Waiting)
  {
    var b := BeginPop(s);
    var w := if b.consumer.LoadTail? then ConsumerStep(ar, b) else b;
    if !w.consumer.Waiting? {
      var st := ConsumerStep(ar, w);
      var sv := ConsumerStep(ar, st);
      var dn := ConsumerStep(ar, sv);
      assert FinishPop(ar, w) == FinishPop(ar, st) == FinishPop(ar, sv) == FinishPop(ar, dn) == dn;
    }
    assert FinishPop(ar, b) == FinishPop(ar, w);
  }

  /** A call of pop on its own takes the oldest item, or finds nothing when the queue is empty. */
  lemma WholePopTakes<T>(s: State<T>)
    requires Quiet(s)
    ensures var s' := WholePop(Unbounded, s);
            && Quiet(s') && Wrapped(s') == WholePop(Wrapping, Wrapped(s)) && s'.refused == s.refused
            && (if InRing(s) == [] then InRing(s') == [] && s'.popped == s.popped
                else InRing(s') == InRing(s)[1..] && s'.popped == s.popped + [InRing(s)[0]])
            && |s'.popped| == |s.popped| + (if InRing(s) == [] then 0 else 1)
  {
    StepInv(s, Pop);
    BeginPopWraps(s);
    FinishPopWraps(BeginPop(s));
    PopParts(Unbounded, s);
    if InRing(s) != [] {
      assert Held(s, s.head);
    }
  }

  class SPSCQueue<T(0)> {
    const buffer: array<T>
    var head: uint64
    var tail: uint64
    var headCached: uint64
    var tailCached: uint64
    var tailCachedConsumer: uint64
    var headCachedConsumer: uint64
    /** The same queue on unbounded indices. */
    ghost var twin: State<T>

    /** The fields as a state of the ring. */
    ghost function Machine(): State<T>
      reads this, buffer
    {
      State(head, tail, headCached, tailCached, tailCachedConsumer, headCachedConsumer, buffer[..],
            Idle, Waiting, twin.accepted, twin.popped, twin.refused)
    }

    ghost predicate Valid()
      reads this, buffer
    {
      Quiet(twin) && Machine() == Wrapped(twin)
    }

    ghost function Contents(): seq<T>
      reads this
    {
      InRing(twin)
    }

    constructor (k: nat)
      requires k < 64
      ensures Valid() && fresh(buffer) && buffer.Length == Pow2(k) && Contents() == []
      ensures twin.accepted == twin.popped == [] && twin.refused == 0
    {
      var b := new T[Pow2(k)];
      buffer := b;
      head, tail, headCached, tailCached, tailCachedConsumer, headCachedConsumer := 0, 0, 0, 0, 0, 0;
      twin := Init(b[..]);
      new;
      Pow2Values();
      Pow2Monotone(k, 63);
      assert Pow2(64) == 2 * Pow2(63);
      InitInv(b[..]);
    }

    lemma Shape()
      requires Valid()
      ensures 0 < buffer.Length < TWO_64 && Cap(Machine()) == buffer.Length == Cap(twin)
    {
    }

    method Emplace(item: T) returns (ok: bool)
      requires Valid()
      modifies this, buffer
      ensures Valid()
      ensures ok == (|old(Contents())| < buffer.Length)
      ensures Contents() == if ok then old(Contents()) + [item] else old(Contents())
      ensures twin == WholeEmplace(Unbounded, old(twin), item)
    {
      hide Indices, Ring.Contents, WholeEmplace, InRing;
      Shape();
      WholeEmplaceQueues(twin, item);
      EmplaceParts(Wrapping, Machine(), item);
      ghost var m := Machine();
      ghost var done := WholeEmplace(Wrapping, m, item);
      twin := WholeEmplace(Unbounded, twin, item);
      var t := tailCached;
      if (t - headCached) % TWO_64 >= buffer.Length {
        headCached := head;
        if (t - headCached) % TWO_64 >= buffer.Length {
          assert Machine() == done;
          return false;
        }
      }
      AndAtMost(t, buffer.Length - 1);
      buffer[And(t, buffer.Length - 1)] := item;
      tail := (t + 1) % TWO_64;
      tailCached := (t + 1) % TWO_64;
      assert Machine() == done;
      ok := true;
    }

    method Pop() returns (ok: bool, item: T)
      requires Valid()
      modifies this
      ensures Valid() && ok == (old(Contents()) != [])
      ensures ok ==> item == old(Contents())[0] && Contents() == old(Contents())[1..]
      ensures !ok ==> Contents() == []
      ensures twin == WholePop(Unbounded, old(twin))
    {
      hide Indices, Ring.Contents, WholePop, InRing;
      Shape();
      WholePopTakes(twin);
      PopParts(Wrapping, Machine());
      ghost var m := Machine();
      ghost var done := WholePop(Wrapping, m);
      twin := WholePop(Unbounded, twin);
      var h := headCachedConsumer;
      ok, item := false, *;
      if h == tailCachedConsumer {
        tailCachedConsumer := tail;
        if h == tailCachedConsumer {
          assert Machine() == done;
          return;
        }
      }
      AndAtMost(h, buffer.Length - 1);
      item := buffer[And(h, buffer.Length - 1)];
      head := (h + 1) % TWO_64;
      headCachedConsumer := (h + 1) % TWO_64;
      assert Machine() == done;
      assert done.popped == m.popped + [item] && done.popped[|m.popped|] == item;
      ok := true;
    }
  }
}
