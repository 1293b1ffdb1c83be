/** The observable behaviour of the AT command engine as a trace of events, an abstract machine that
    says which traces are allowed, and what every allowed trace satisfies. */
module AtTrace {
  import opened Basics

  /** The identifiers of app/base/at/at_cmd.h that the engine distinguishes. */
  datatype Id = Csq | Cops | Clcc | Wifi | WifiSsid | WifiAuth | WifiMac | WifiMaxSta | WifiStatus | WifiStaInfo | Test | Plain(nat)

  datatype Cmd = Cmd(id: Id, str: string)

  /** The command buffers hold 100 characters, of which a command may use 99. */
  const SIZE := 100

  const QUEUE := 10

  datatype Event =
    | Accept(high: bool, cmd: Cmd)   // a command enters a queue
    | Send(high: bool, cmd: Cmd)     // a command leaves its queue and goes to the modem
    | Drop(high: bool, cmd: Cmd)     // a command leaves its queue because it is too long
    | Resend(cmd: Cmd)
    | Result                         // the modem reports OK or an error
    | Clear                          // both queues are emptied for sleep
    | Operational                    // the initial commands are done

  datatype State = State(high: seq<Cmd>, normal: seq<Cmd>, outstanding: Option<Cmd>, norm: bool)

  const START := State([], [], None, false)

  function Pop(s: State, high: bool, cmd: Cmd): Option<State> {
    if high then
      if s.high != [] && s.high[0] == cmd then Some(s.(high := s.high[1..])) else None
    else
      if s.high == [] && s.normal != [] && s.normal[0] == cmd then Some(s.(normal := s.normal[1..])) else None
  }

  function Next(s: State, e: Event): Option<State> {
    match e
    case Accept(high, cmd) =>
      if |if high then s.high else s.normal| >= QUEUE - 1 then None
      else if high then Some(s.(high := s.high + [cmd]))
      else Some(s.(normal := s.normal + [cmd]))
    case Send(high, cmd) =>
      if s.outstanding.Some? || |cmd.str| >= SIZE || Pop(s, high, cmd).None? then None
      else Some(Pop(s, high, cmd).value.(outstanding := Some(cmd)))
    case Drop(high, cmd) =>
      if s.outstanding.Some? || |cmd.str| < SIZE then None else Pop(s, high, cmd)
    case Resend(cmd) => if s.outstanding == Some(cmd) then Some(s) else None
    case Result => Some(s.(outstanding := None))
    case Clear => Some(s.(high := [], normal := []))
    case Operational => if s.norm || s.outstanding.Some? then None else Some(s.(norm := true))
  }

  function Run(log: seq<Event>): Option<State> {
    if log == [] then Some(START)
    else
      var before := Run(log[..|log| - 1]);
      if before.None? then None else Next(before.value, log[|log| - 1])
  }

  lemma RunNext(log: seq<Event>, e: Event)
    ensures Run(log + [e]) == if Run(log).None? then None else Next(Run(log).value, e)
  {
    assert (log + [e])[..|log|] == log;
  }

  lemma {:induction false} RunPrefix(log: seq<Event>, n: nat)
    requires Run(log).Some? && n <= |log|
    ensures Run(log[..n]).Some?
    decreases |log|
  {
    if n < |log| {
      RunPrefix(log[..|log| - 1], n);
      assert log[..|log| - 1][..n] == log[..n];
    } else {
      assert log[..n] == log;
    }
  }

  /** Every event of an allowed trace is a step of the abstract machine. */
  lemma StepAt(log: seq<Event>, j: nat)
    requires Run(log).Some? && j < |log|
    ensures Run(log[..j]).Some? && Next(Run(log[..j]).value, log[j]).Some?
  {
    RunPrefix(log, j + 1);
    RunPrefix(log, j);
    assert log[..j + 1][..j] == log[..j];
  }

  // --- at most one command is outstanding ---

  /** The event that made the outstanding command outstanding, if it has had no result yet. */
  ghost predicate Pending(log: seq<Event>, i: nat, cmd: Cmd) {
    && i < |log| && log[i].Send? && log[i].cmd == cmd
    && forall k :: i < k < |log| ==> !log[k].Send? && !log[k].Result?
  }

  lemma OutstandingNext(s: State, e: Event)
    requires Next(s, e).Some?
    ensures Next(s, e).value.outstanding ==
      if e.Send? then Some(e.cmd) else if e.Result? then None else s.outstanding
  {
  }

  /** Every command that was sent has had a result. */
  ghost predicate Answered(log: seq<Event>) {
    forall i :: 0 <= i < |log| && log[i].Send? ==> exists k :: i < k < |log| && log[k].Result?
  }

  lemma PendingNext(log: seq<Event>, e: Event, i: nat, cmd: Cmd)
    requires Pending(log, i, cmd) && !e.Send? && !e.Result?
    ensures Pending(log + [e], i, cmd)
  {
  }

  lemma AnsweredNext(log: seq<Event>, e: Event)
    requires e.Result? || (Answered(log) && !e.Send?)
    ensures Answered(log + [e])
  {
    var l := log + [e];
    forall i | 0 <= i < |l| && l[i].Send? ensures exists k :: i < k < |l| && l[k].Result? {
      if e.Result? {
        assert l[|log|].Result?;
      } else {
        var k :| i < k < |log| && log[k].Result?;
        assert l[k].Result?;
      }
    }
  }

  lemma {:induction false} OutstandingWasSent(log: seq<Event>)
    requires Run(log).Some?
    ensures match Run(log).value.outstanding
            case Some(cmd) => exists i :: Pending(log, i, cmd)
            case None => Answered(log)
    decreases |log|
  {
    if log != [] {
      var init, last := log[..|log| - 1], log[|log| - 1];
      OutstandingWasSent(init);
      OutstandingNext(Run(init).value, last);
      hide Next, Answered;
      assert log == init + [last];
      var s := Run(init).value;
      if last.Send? {
        assert Pending(log, |init|, last.cmd);
      } else if last.Result? || s.outstanding.None? {
        AnsweredNext(init, last);
      } else {
        var i :| Pending(init, i, s.outstanding.value);
        PendingNext(init, last, i, s.outstanding.value);
      }
    }
  }

  /** Between two commands that are sent there is a result. */
  lemma ResultBetweenSends(log: seq<Event>, i: nat, j: nat)
    requires Run(log).Some? && i < j < |log| && log[i].Send? && log[j].Send?
    ensures exists k :: i < k < j && log[k].Result?
  {
    StepAt(log, j);
    hide Run;
    OutstandingWasSent(log[..j]);
    assert log[..j][i].Send?;
    var k :| i < k < |log[..j]| && log[..j][k].Result?;
    assert log[k].Result?;
  }

  /** Only the command that was sent last is retransmitted, and only while it has no result. */
  lemma OnlyOutstandingResent(log: seq<Event>, j: nat)
    requires Run(log).Some? && j < |log| && log[j].Resend?
    ensures exists i :: Pending(log[..j], i, log[j].cmd)
  {
    StepAt(log, j);
    hide Run;
    OutstandingWasSent(log[..j]);
  }

  // --- each queue is first in, first out ---

  /** The commands that entered a queue since it was last emptied. */
  function Accepted(log: seq<Event>, high: bool): seq<Cmd> {
    if log == [] then []
    else
      var before, e := Accepted(log[..|log| - 1], high), log[|log| - 1];
      if e.Clear? then [] else if e.Accept? && e.high == high then before + [e.cmd] else before
  }

  /** The commands of a queue that were sent, or dropped as too long, since it was last emptied. */
  function Taken(log: seq<Event>, high: bool): seq<Cmd> {
    if log == [] then []
    else
      var before, e := Taken(log[..|log| - 1], high), log[|log| - 1];
      if e.Clear? then []
      else if (e.Send? || e.Drop?) && e.high == high then before + [e.cmd] else before
  }

  /** One event, seen by one queue. */
  lemma QueueNext(s: State, e: Event, high: bool)
    requires Next(s, e).Some?
    ensures var q, r := if high then s.high else s.normal,
                        if high then Next(s, e).value.high else Next(s, e).value.normal;
      if e.Clear? then r == []
      else if e.Accept? && e.high == high then r == q + [e.cmd]
      else if (e.Send? || e.Drop?) && e.high == high then q != [] && q == [e.cmd] + r
      else r == q
  {
  }

  /** What was taken from a queue, followed by what is in it, is what was accepted, in order. */
  lemma {:induction false} FirstInFirstOut(log: seq<Event>, high: bool)
    requires Run(log).Some?
    ensures var s := Run(log).value; Accepted(log, high) == Taken(log, high) + if high then s.high else s.normal
    decreases |log|
  {
    if log != [] {
      FirstInFirstOut(log[..|log| - 1], high);
      QueueNext(Run(log[..|log| - 1]).value, log[|log| - 1], high);
      hide Next;
    }
  }

  /** A normal command is taken only when every high command accepted before has been taken. */
  lemma HighFirst(log: seq<Event>, j: nat)
    requires Run(log).Some? && j < |log| && (log[j].Send? || log[j].Drop?) && !log[j].high
    ensures Taken(log[..j], true) == Accepted(log[..j], true)
  {
    StepAt(log, j);
    FirstInFirstOut(log[..j], true);
  }

  ghost predicate AllShort(cmds: seq<Cmd>) {
    forall c :: c in cmds ==> |c.str| < SIZE
  }

  lemma ShortNext(s: State, e: Event)
    requires Next(s, e).Some? && AllShort(s.high) && AllShort(s.normal) && (e.Accept? ==> |e.cmd.str| < SIZE)
    ensures var t := Next(s, e).value; !e.Drop? && AllShort(t.high) && AllShort(t.normal)
  {
  }

  /** With commands of fewer than 100 characters nothing is dropped. */
  lemma {:induction false} NothingDropped(log: seq<Event>)
    requires Run(log).Some? && forall k :: 0 <= k < |log| && log[k].Accept? ==> |log[k].cmd.str| < 100
    ensures forall k :: 0 <= k < |log| ==> !log[k].Drop?
    ensures var s := Run(log).value; AllShort(s.high) && AllShort(s.normal)
    decreases |log|
  {
    if log != [] {
      var init, e := log[..|log| - 1], log[|log| - 1];
      assert forall k :: 0 <= k < |init| ==> init[k] == log[k];
      NothingDropped(init);
      ShortNext(Run(init).value, e);
      hide Next, AllShort;
      assert forall k :: 0 <= k < |log| ==> log[k] == if k < |init| then init[k] else e;
    }
  }

  // --- the phases ---

  lemma {:induction false} NormStays(log: seq<Event>, i: nat)
    requires Run(log).Some? && i < |log| && log[i].Operational?
    ensures Run(log).value.norm
    decreases |log|
  {
    if i < |log| - 1 {
      NormStays(log[..|log| - 1], i);
    }
  }

  /** The engine becomes operational at most once: it never goes back to its initial phase. */
  lemma OperationalOnce(log: seq<Event>, i: nat, j: nat)
    requires Run(log).Some? && i < |log| && j < |log| && log[i].Operational? && log[j].Operational?
    ensures i == j
  {
    var a, b := if i < j then i else j, if i < j then j else i;
    if a < b {
      RunPrefix(log, b);
      NormStays(log[..b], a);
      StepAt(log, b);
    }
  }
}
