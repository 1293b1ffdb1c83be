/** The circular command queue of app/base/at/at_queue.c, which refines a bounded FIFO. */
module AtQueue {
  import opened AtTrace

  /** The place of the k-th command behind the head. */
  function Slot(head: nat, k: nat): (i: nat)
    requires head < QUEUE && k < QUEUE
    ensures i < QUEUE
  {
    if head + k < QUEUE then head + k else head + k - QUEUE
  }

  /** The source advances an index with a remainder. */
  lemma Advanced(i: nat)
    requires i < QUEUE
    ensures (i + 1) % QUEUE == Slot(i, 1)
  {
  }

  class Queue {
    var head: int
    var tail: int
    const cmds: array<Cmd>

    constructor ()
      ensures Valid() && Contents() == [] && fresh(cmds)
    {
      head, tail := 0, 0;
      cmds := new Cmd[QUEUE](_ => Cmd(Plain(0), ""));
    }

    ghost predicate Valid()
      reads this
    {
      cmds.Length == QUEUE && 0 <= head < QUEUE && 0 <= tail < QUEUE
    }

    function Len(): (n: nat)
      requires Valid()
      reads this
      ensures n < QUEUE
    {
      if tail >= head then tail - head else tail - head + QUEUE
    }

    /** The queued commands, oldest first. */
    ghost function Contents(): (c: seq<Cmd>)
      requires Valid()
      reads this, cmds
      ensures |c| == Len()
    {
      seq(Len(), k requires 0 <= k < QUEUE && cmds.Length == QUEUE && 0 <= head < QUEUE reads this, cmds => cmds[Slot(head, k)])
    }

    /** `at_is_empty`. */
    method IsEmpty() returns (b: bool)
      requires Valid()
      ensures b <==> Contents() == []
    {
      b := head == tail;
    }

    /** `at_is_full`: one cell always stays free. */
    method IsFull() returns (b: bool)
      requires Valid()
      ensures b <==> |Contents()| == QUEUE - 1
    {
      Advanced(tail);
      b := head == (tail + 1) % QUEUE;
    }

    /** `at_enqueue`. */
    method Enqueue(cmd: Cmd) returns (ok: bool)
      requires Valid()
      modifies this`tail, cmds
      ensures Valid() && ok == (|old(Contents())| < 9)
      ensures Contents() == if ok then old(Contents()) + [cmd] else old(Contents())
    {
      var full := IsFull();
      if full {
        return false;
      }
      ghost var before, n := Contents(), Len();
      Advanced(tail);
      assert tail == Slot(head, n);
      cmds[tail] := cmd;
      tail := (tail + 1) % QUEUE;
      assert Len() == n + 1;
      forall k | 0 <= k < n + 1 ensures Contents()[k] == (before + [cmd])[k] { }
      ok := true;
    }

    /** `at_dequeue`. */
    method Dequeue() returns (ok: bool, cmd: Cmd)
      requires Valid()
      modifies this`head
      ensures Valid() && ok == (old(Contents()) != [])
      ensures ok ==> cmd == old(Contents())[0] && Contents() == old(Contents())[1..]
      ensures !ok ==> Contents() == old(Contents())
    {
      var empty := IsEmpty();
      if empty {
        return false, Cmd(Plain(0), "");
      }
      ghost var before := Contents();
      cmd := cmds[head];
      ghost var h, n := head, Len();
      Advanced(head);
      head := (head + 1) % QUEUE;
      assert Len() == n - 1;
      forall k | 0 <= k < n - 1 ensures Contents()[k] == before[k + 1] {
        assert Slot(head, k) == Slot(h, k + 1);
      }
      ok := true;
    }

    /** `at_clear_queue`. */
    method Clear()
      requires Valid()
      modifies this, cmds
      ensures Valid() && Contents() == [] && forall k :: 0 <= k < cmds.Length ==> cmds[k] == Cmd(Plain(0), "")
    {
      head, tail := 0, 0;
      forall k | 0 <= k < cmds.Length { cmds[k] := Cmd(Plain(0), ""); }
    }
  }
}
