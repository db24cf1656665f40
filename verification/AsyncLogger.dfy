/** The logger's methods as one thread runs them; module Loggers interleaves them with the worker thread. */
module AsyncLoggers {
  import opened Types
  import opened Bits
  import opened Ring
  import opened SpscQueues

  class AsyncLogger {
    const queue: SPSCQueue<Trade>
    var running: bool
    var dropped: nat
    /** The rows of the log file. */
    var rows: seq<Trade>

    ghost predicate Valid()
      reads this, queue, queue.buffer
    {
      queue.Valid()
    }

    /** Trades on their way to the file, oldest first. */
    ghost function Pending(): seq<Trade>
      reads this, queue
    {
      queue.Contents()
    }

    constructor (k: nat)
      requires k < 64
      ensures Valid() && fresh(queue) && fresh(queue.buffer) && queue.buffer.Length == Pow2(k)
      ensures !running && dropped == 0 && rows == [] && Pending() == []
    {
      queue := new SPSCQueue<Trade>(k);
      running, dropped, rows := false, 0, [];
    }

    method EnqueueTrade(t: Trade)
      requires Valid()
      modifies this`dropped, queue, queue.buffer
      ensures Valid()
      ensures if |old(Pending())| < queue.buffer.Length
              then Pending() == old(Pending()) + [t] && dropped == old(dropped)
              else Pending() == old(Pending()) && dropped == old(dropped) + 1
    {
      var ok := queue.Emplace(t);
      if !ok {
        dropped := dropped + 1;
      }
    }

    /** Empty the queue into the file. */
    method Drain() returns (any: bool)
      requires Valid()
      modifies this`rows, queue
      ensures Valid() && Pending() == []
      ensures rows == old(rows) + old(Pending()) && any == (old(Pending()) != [])
    {
      hide Quiet, Wrapped, WholePop, InRing;
      any := false;
      ghost var all, done := Pending(), 0;
      var ok, t := queue.Pop();
      while ok
        invariant Valid()
        invariant done <= |all| && rows == old(rows) + all[..done] && any == (done > 0)
        invariant if ok then done < |all| && t == all[done] && Pending() == all[done + 1..]
                  else done == |all| && Pending() == []
        decreases |all| - done
      {
        assert all[..done] + [t] == all[..done + 1];
        rows := rows + [t];
        any := true;
        done := done + 1;
        ok, t := queue.Pop();
      }
      assert all[..done] == all;
    }

    /** A second start while running does nothing; a start opens the file anew. */
    method Start()
      requires Valid()
      modifies this`running, this`rows
      ensures Valid() && running
      ensures rows == if old(running) then old(rows) else []
    {
      if running {
        return;
      }
      running := true;
      rows := [];
    }

    /** With the worker gone, stop leaves nothing behind: what was pending is in the file, in order. */
    method Stop()
      requires Valid()
      modifies this`running, this`rows, queue
      ensures Valid() && !running
      ensures old(running) ==> Pending() == [] && rows == old(rows) + old(Pending())
      ensures !old(running) ==> Pending() == old(Pending()) && rows == old(rows)
    {
      if !running {
        return;
      }
      running := false;
      var any := Drain();
    }
  }
}
