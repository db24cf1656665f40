/** The flat pool of order slots with its intrusive free list. */
module Pool {
  import opened Types

  /** The free list: `free` are the slots linked from `head` through `next`, in order. */
  ghost predicate FreeChain(slots: seq<Order>, head: uint32, free: seq<nat>) {
    && head == (if free == [] then NULL_IDX else free[0])
    && (forall i :: 0 <= i < |free| ==> FreeNode(slots, free, i))
    && Distinct(free)
  }

  ghost predicate FreeNode(slots: seq<Order>, free: seq<nat>, i: nat)
    requires i < |free|
  {
    free[i] < |slots| && slots[free[i]].next == LinkAt(free, i + 1)
  }

  ghost predicate Distinct(q: seq<nat>) {
    forall i, j :: 0 <= i < j < |q| ==> Apart(q, i, j)
  }

  ghost predicate Apart(q: seq<nat>, i: nat, j: nat)
    requires i < |q| && j < |q|
  {
    q[i] != q[j]
  }

  lemma DistinctPairs(q: seq<nat>)
    requires Distinct(q)
    ensures forall i, j :: 0 <= i < j < |q| ==> q[i] != q[j]
  {
    forall i, j | 0 <= i < j < |q|
      ensures q[i] != q[j]
    {
      assert Apart(q, i, j);
    }
  }

  /** The link a list stores for its i-th element: NULL_IDX off either end. */
  function LinkAt(q: seq<nat>, i: int): nat {
    if 0 <= i < |q| then q[i] else NULL_IDX
  }

  lemma FreeChainFrame(slots: seq<Order>, slots': seq<Order>, head: uint32, free: seq<nat>)
    requires FreeChain(slots, head, free) && |slots'| == |slots|
    requires forall i :: 0 <= i < |free| && free[i] < |slots| ==> slots'[free[i]].next == slots[free[i]].next
    ensures FreeChain(slots', head, free)
  {
    forall i | 0 <= i < |free|
      ensures FreeNode(slots', free, i)
    {
      assert FreeNode(slots, free, i);
    }
  }

  /** Popping the head, whatever is then written to its slot. */
  lemma PopChain(slots: seq<Order>, head: uint32, free: seq<nat>, o: Order)
    requires FreeChain(slots, head, free) && |slots| <= NULL_IDX && free != []
    ensures free[0] < |slots| && slots[free[0]].next == LinkAt(free, 1)
    ensures FreeChain(slots[free[0] := o], slots[free[0]].next, free[1..])
  {
    DistinctPairs(free);
    assert FreeNode(slots, free, 0);
    var slots', free' := slots[free[0] := o], free[1..];
    forall i | 0 <= i < |free'|
      ensures FreeNode(slots', free', i)
    {
      assert FreeNode(slots, free, i + 1);
    }
  }

  lemma PushChain(slots: seq<Order>, head: uint32, free: seq<nat>, x: uint32)
    requires FreeChain(slots, head, free) && x < |slots| && (x as nat) !in free
    ensures FreeChain(slots[x := slots[x].(next := head)], x, [x as nat] + free)
  {
    DistinctPairs(free);
    var slots', free' := slots[x := slots[x].(next := head)], [x as nat] + free;
    forall i | 0 <= i < |free'|
      ensures FreeNode(slots', free', i)
    {
      if i > 0 {
        assert FreeNode(slots, free, i - 1) && free[i - 1] in free;
      }
    }
  }

  /** The list built over all slots in index order. */
  lemma FullChain(slots: seq<Order>, free: seq<nat>)
    requires 1 <= |slots| == |free| <= NULL_IDX
    requires forall i :: 0 <= i < |free| ==> free[i] == i
    requires forall i :: 0 <= i < |slots| ==> slots[i].next == (if i == |slots| - 1 then NULL_IDX else i + 1)
    ensures FreeChain(slots, 0, free)
  {
    forall i | 0 <= i < |free|
      ensures FreeNode(slots, free, i)
    {
    }
  }

  class OrderPool {
    const slots: array<Order>
    var freeHead: uint32
    ghost var free: seq<nat>

    ghost predicate Valid()
      reads this, slots
    {
      && 1 <= slots.Length <= NULL_IDX
      && FreeChain(slots[..], freeHead, free)
    }

    constructor (capacity: uint32)
      requires 1 <= capacity
      ensures Valid() && fresh(slots) && slots.Length == capacity
      ensures |free| == capacity && forall i :: 0 <= i < |free| ==> free[i] == i
    {
      var s := new Order[capacity](_ => Order(0, 0, 0, 0, 0, Buy));
      slots := s;
      freeHead := 0;
      free := seq(capacity, i => i);
      new;
      for i := 0 to capacity - 1
        invariant slots == s && s.Length == capacity && freeHead == 0
        invariant |free| == capacity && forall j :: 0 <= j < |free| ==> free[j] == j
        invariant forall j :: 0 <= j < i ==> s[j].next == j + 1
      {
        s[i] := s[i].(next := i + 1);
      }
      s[capacity - 1] := s[capacity - 1].(next := NULL_IDX);
      FullChain(s[..], free);
    }

    /** Pops the free list; NULL_IDX when the pool is exhausted. */
    method Allocate() returns (idx: uint32)
      requires Valid()
      modifies this, slots
      ensures Valid()
      ensures old(free) == [] ==>
                idx == NULL_IDX && free == [] && slots[..] == old(slots[..]) && freeHead == old(freeHead)
      ensures old(free) != [] ==>
                && idx == old(free)[0] && idx < slots.Length && free == old(free)[1..]
                && freeHead == old(slots[..])[idx].next
                && slots[..] == old(slots[..])[idx := old(slots[..])[idx].(next := NULL_IDX, prev := NULL_IDX)]
    {
      assert free != [] ==> FreeNode(slots[..], free, 0);
      if freeHead == NULL_IDX {
        return NULL_IDX;
      }
      idx := freeHead;
      PopChain(slots[..], freeHead, free, slots[idx].(next := NULL_IDX, prev := NULL_IDX));
      freeHead := slots[idx].next;
      slots[idx] := slots[idx].(next := NULL_IDX);
      slots[idx] := slots[idx].(prev := NULL_IDX);
      free := free[1..];
      assert slots[..] == old(slots[..])[idx := old(slots[..])[idx].(next := NULL_IDX, prev := NULL_IDX)];
    }

    /** Pushes a slot that is not free onto the free list. */
    method Deallocate(idx: uint32)
      requires Valid() && idx < slots.Length && idx !in free
      modifies this, slots
      ensures Valid() && free == [idx as nat] + old(free) && freeHead == idx
      ensures slots[..] == old(slots[..])[idx := old(slots[..])[idx].(next := old(freeHead))]
    {
      PushChain(slots[..], freeHead, free, idx);
      slots[idx] := slots[idx].(next := freeHead);
      freeHead := idx;
      free := [idx as nat] + free;
    }
  }
}
