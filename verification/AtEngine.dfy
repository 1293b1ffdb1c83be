/** The AT command engine of app/base/at/at_task.c: an event-driven state machine over two circular
    queues. Every event handler is proved to extend the trace by steps that `AtTrace` allows. Timers
    appear only as events that may come at any time. */
module AtEngine {
  import opened Basics
  import opened AtTrace
  import opened AtQueue

  datatype Stat = Off | Reset | InitIdle | InitSending | InitRetry | NormIdle | NormSending | NormRetry {
    predicate Busy() { InitSending? || InitRetry? || NormSending? || NormRetry? }

    predicate Norm() { NormIdle? || NormSending? || NormRetry? }

    predicate On() { !Off? && !Reset? }
  }

  const INIT_STEPS := 31

  /** The first ten of the commands that initialize the module. */
  function FirstCmd(k: nat): (c: Cmd)
    requires k < 10
    ensures 0 < |c.str| < SIZE
  {
    match k
    case 0 => Cmd(Plain(0), "ATE0\r\n")
    case 1 => Cmd(Plain(18), "AT+QGPSCFG=\"outport\",\"linuxsmd\"\r\n")
    case 2 => Cmd(Plain(18), "AT+QGPSCFG=\"gpsnmeatype\",3\r\n")
    case 3 => Cmd(Plain(18), "AT+QGPSCFG=\"glonassnmeatype\",0\r\n")
    case 4 => Cmd(Plain(19), "AT+QGPS=1,30,50,0,1\r\n")
    case 5 => Cmd(Plain(19), "AT+QGPS?\r\n")
    case 6 => Cmd(Plain(1), "ATI\r\n")
    case 7 => Cmd(Plain(4), "AT+EGMR=0,7\r\n")
    case 8 => Cmd(Plain(5), "AT+QIMI\r\n")
    case _ => Cmd(Plain(7), "AT+QNWINFO\r\n")
  }

  /** The next ten. */
  function SecondCmd(k: nat): (c: Cmd)
    requires k < 10
    ensures 0 < |c.str| < SIZE
  {
    match k
    case 0 => Cmd(Cops, "AT+COPS=0\r\n")
    case 1 => Cmd(Csq, "AT+CSQ\r\n")
    case 2 => Cmd(Plain(14), "AT+QCCID\r\n")
    case 3 => Cmd(Clcc, "AT+CLCC\r\n")
    case 4 => Cmd(Cops, "AT+COPS?\r\n")
    case 5 => Cmd(Plain(15), "AT+QDAI=1,0,0,4,0\r\n")
    case 6 => Cmd(Plain(16), "AT+QAUDMOD=2\r\n")
    case 7 => Cmd(Plain(17), "AT+QCFG=\"tone/incoming\",1\r\n")
    case 8 => Cmd(Plain(11), "AT+CNMI=2,1,2,0,1\r\n")
    case _ => Cmd(Plain(31), "AT+CFUN?\r\n")
  }

  /** The last eleven. */
  function LastCmd(k: nat): (c: Cmd)
    requires k < 11
    ensures 0 < |c.str| < SIZE
  {
    match k
    case 0 => Cmd(WifiSsid, "AT+QWSSID?\r\n")
    case 1 => Cmd(WifiAuth, "AT+QWAUTH?\r\n")
    case 2 => Cmd(WifiMac, "AT+QWSETMAC?\r\n")
    case 3 => Cmd(WifiMaxSta, "AT+QWMAXSTA?\r\n")
    case 4 => Cmd(Wifi, "AT+QWIFI=1,0,0\r\n")
    case 5 => Cmd(Wifi, "AT+QWIFI?\r\n")
    case 6 => Cmd(Plain(12), "AT+CPMS=\"ME\",\"ME\",\"ME\"\r\n")
    case 7 => Cmd(Plain(13), "AT+CMGD=1,4\r\n")
    case 8 => Cmd(Plain(33), "AT+CNUM\r\n")
    case 9 => Cmd(Plain(35), "AT+QCFG=\"qoos\",0\r\n")
    case _ => Cmd(Plain(36), "AT+CGDCONT?\r\n")
  }

  /** The commands that initialize the module. */
  function InitCmd(k: nat): (c: Cmd)
    requires k < INIT_STEPS
    ensures 0 < |c.str| < SIZE
  {
    if k < 10 then FirstCmd(k) else if k < 20 then SecondCmd(k - 10) else LastCmd(k - 20)
  }

  const POLL_STEPS := 17

  /** The commands that are polled in turn. */
  function PollCmd(k: nat): (c: Cmd)
    requires k < POLL_STEPS
    ensures 0 < |c.str| < SIZE
  {
    match k
    case 0 => Cmd(Csq, "AT+CSQ\r\n")
    case 1 => Cmd(Plain(7), "AT+QNWINFO\r\n")
    case 2 => Cmd(Cops, "AT+COPS?\r\n")
    case 3 => Cmd(Plain(14), "AT+QCCID\r\n")
    case 4 => Cmd(Clcc, "AT+CLCC\r\n")
    case 5 => Cmd(Plain(31), "AT+CFUN?\r\n")
    case 6 => Cmd(Plain(19), "AT+QGPS?\r\n")
    case 7 => Cmd(Wifi, "AT+QWIFI?\r\n")
    case 8 => Cmd(WifiMaxSta, "AT+QWMAXSTA?\r\n")
    case 9 => Cmd(WifiSsid, "AT+QWSSID?\r\n")
    case 10 => Cmd(WifiAuth, "AT+QWAUTH?\r\n")
    case 11 => Cmd(WifiStatus, "AT+QWSTATUS?\r\n")
    case 12 => Cmd(WifiStaInfo, "AT+QWSTAINFO?\r\n")
    case 13 => Cmd(Plain(35), "AT+QCFG=\"qoos\"\r\n")
    case 14 => Cmd(Plain(4), "AT+EGMR=0,7\r\n")
    case 15 => Cmd(Plain(5), "AT+QIMI\r\n")
    case _ => Cmd(Plain(36), "AT+CGDCONT?\r\n")
  }

  /** The initial commands that are skipped while the hotspot is disabled. */
  predicate WifiSetting(id: Id) {
    id == Wifi || id == WifiSsid || id == WifiAuth || id == WifiMac || id == WifiMaxSta
  }

  /** The polled commands that are skipped while the hotspot is disabled. */
  predicate WifiCheck(id: Id) {
    id == WifiSsid || id == WifiAuth || id == WifiMaxSta || id == WifiStatus || id == WifiStaInfo
  }

  /** The next initial command that is due. */
  function InitDue(step: nat, wifi: bool): (due: nat)
    ensures due >= step && (due < INIT_STEPS && !wifi ==> !WifiSetting(InitCmd(due).id))
    decreases INIT_STEPS - step
  {
    if !wifi && step < INIT_STEPS && WifiSetting(InitCmd(step).id) then InitDue(step + 1, wifi) else step
  }

  class Engine {
    var stat: Stat
    const high: Queue
    const normal: Queue
    var cur: Cmd
    var locked: bool
    var initStep: nat
    var pollStep: nat
    ghost var log: seq<Event>

    /** Before `at_task_init`. */
    constructor ()
      ensures Valid() && log == [] && stat == Off
      ensures initStep == 0 && pollStep == 0 && !locked && high.Contents() == normal.Contents() == []
      ensures fresh(high) && fresh(high.cmds) && fresh(normal) && fresh(normal.cmds)
    {
      stat, cur, locked, initStep, pollStep, log := Off, Cmd(Plain(0), ""), false, 0, 0, [];
      high := new Queue();
      normal := new Queue();
    }

    /** The state of the abstract machine that the fields represent. */
    ghost function Abstract(): State
      requires Shape()
      reads this, high, high.cmds, normal, normal.cmds
    {
      State(high.Contents(), normal.Contents(), if stat.Busy() then Some(cur) else None, stat.Norm())
    }

    ghost predicate Shape()
      reads this, high, normal
    {
      high != normal && high.cmds != normal.cmds && high.Valid() && normal.Valid()
    }

    ghost predicate Valid()
      reads this, high, high.cmds, normal, normal.cmds
    {
      && Shape()
      && Run(log) == Some(Abstract())
      && NonEmpty(high.Contents()) && NonEmpty(normal.Contents())
      && (stat.Busy() ==> cur.str != "")
      && initStep <= INIT_STEPS && pollStep < POLL_STEPS
    }

    /** The end of `at_task_init`. */
    method Start()
      requires Valid() && stat == Off
      modifies this`stat
      ensures Valid() && stat == InitIdle
    {
      stat := InitIdle;
    }

    /** `at_send_enable`. */
    method SendEnable(cmd: Cmd, isHigh: bool)
      requires Valid() && |cmd.str| <= SIZE
      modifies this`log, high, high.cmds, normal, normal.cmds
      ensures Valid()
      ensures var queue := if isHigh then old(high.Contents()) else old(normal.Contents());
              var accepted := cmd.str != "" && stat.On() && !locked && |queue| < 9;
              && log == old(log) + (if accepted then [Accept(isHigh, cmd)] else [])
              && (if isHigh then high.Contents() == queue + (if accepted then [cmd] else []) && normal.Contents() == old(normal.Contents())
                  else normal.Contents() == queue + (if accepted then [cmd] else []) && high.Contents() == old(high.Contents()))
    {
      hide Run, InitCmd, PollCmd, NonEmpty, Queue.Contents, Queue.Len;
      AppendNonEmpty(high.Contents(), cmd);
      AppendNonEmpty(normal.Contents(), cmd);
      if cmd.str == "" || !stat.On() || locked {
        return;
      }
      RunNext(log, Accept(isHigh, cmd));
      if isHigh {
        var ok := high.Enqueue(cmd);
        if ok {
          log := log + [Accept(isHigh, cmd)];
        }
      } else {
        var ok := normal.Enqueue(cmd);
        if ok {
          log := log + [Accept(isHigh, cmd)];
        }
      }
    }

    /** The command that `at_send_proc` would take, if any. */
    ghost function Front(): Option<Event>
      requires Shape()
      reads this, high, high.cmds, normal, normal.cmds
    {
      FrontOf(high.Contents(), normal.Contents())
    }

    /** The part of `at_send_proc` that takes a command: from the normal queue only if the high one is empty. */
    method Take() returns (ok: bool, cmd: Cmd)
      requires Shape()
      modifies high, normal
      ensures Shape() && ok == old(Front()).Some?
      ensures var h, n := old(high.Contents()), old(normal.Contents());
        && (h != [] ==> cmd == h[0] && high.Contents() == h[1..] && normal.Contents() == n)
        && (h == [] ==> high.Contents() == h && (n != [] ==> cmd == n[0]) && normal.Contents() == if n == [] then n else n[1..])
    {
      hide Queue.Contents, Queue.Len, FrontOf;
      FrontExists(high.Contents(), normal.Contents());
      var empty := high.IsEmpty();
      if !empty {
        ok, cmd := high.Dequeue();
        return;
      }
      empty := normal.IsEmpty();
      if empty {
        return false, Cmd(Plain(0), "");
      }
      ok, cmd := normal.Dequeue();
    }

    /** `at_send_proc`. */
    method OnSend()
      requires Valid()
      modifies this`log, this`stat, this`cur, high, normal
      ensures Valid() && SentFrom(old(stat), old(Front()), old(cur), stat, cur)
      ensures log == old(log) + if old(stat == InitIdle || stat == NormIdle) && old(Front()).Some? then [old(Front()).value] else []
    {
      hide Run, InitCmd, PollCmd, Next, FrontOf, NonEmpty, Queue.Contents, Queue.Len;
      if stat != InitIdle && stat != NormIdle {
        return;
      }
      ghost var front := Front();
      FrontNext(high.Contents(), normal.Contents(), stat.Norm());
      if front.Some? {
        RunNext(log, front.value);
      }
      var ok, cmd := Take();
      if !ok {
        return;
      }
      log := log + [front.value];
      if |cmd.str| > SIZE - 1 {
        return;
      }
      cur := cmd;
      stat := if stat == InitIdle then InitSending else NormSending;
    }

    /** `at_send_retry_proc`. */
    method OnRetry()
      requires Valid()
      modifies this`log, this`stat
      ensures Valid() && stat.Norm() == old(stat.Norm())
      ensures log == old(log) + if old(stat.Busy()) then [Resend(cur)] else []
      ensures stat == match old(stat) {
          case InitSending => InitRetry
          case NormSending => NormRetry
          case s => s
        }
    {
      hide Run, InitCmd, PollCmd, Queue.Contents, Queue.Len;
      if |cur.str| == 0 {
        return;
      }
      match stat {
        case InitSending =>
          stat := InitRetry;
        case InitRetry =>
          stat := InitRetry;
        case NormSending =>
          stat := NormRetry;
        case NormRetry =>
          stat := NormRetry;
        case _ =>
          return;
      }
      RunNext(log, Resend(cur));
      log := log + [Resend(cur)];
    }

    /** `at_port_recv_result`. */
    method OnResult()
      requires Valid()
      modifies this`log, this`stat, this`cur, high, normal
      ensures Valid() && SentFrom(AfterResult(old(stat)), old(Front()), old(cur), stat, cur)
      ensures log == old(log) + [Result] + if old(stat.On()) && old(Front()).Some? then [old(Front()).value] else []
    {
      hide Run, InitCmd, PollCmd, FrontOf, NonEmpty, Queue.Contents, Queue.Len;
      RunNext(log, Result);
      match stat {
        case InitSending =>
          stat := InitIdle;
        case InitRetry =>
          stat := InitIdle;
        case NormSending =>
          stat := NormIdle;
        case NormRetry =>
          stat := NormIdle;
        case _ =>
      }
      log := log + [Result];
      OnSend();
    }

    /** `at_sleep_proc`; closing are the commands that switch the hotspot, the link and the receiver off. */
    method Sleep(closing: seq<Cmd>)
      requires Valid() && forall k :: 0 <= k < |closing| ==> |closing[k].str| <= SIZE
      modifies this`log, this`locked, high, high.cmds, normal, normal.cmds
      ensures Valid() && locked
      ensures old(locked) ==>
        log == old(log) && high.Contents() == old(high.Contents()) && normal.Contents() == old(normal.Contents())
      ensures !old(locked) ==>
        var queued := if stat.On() then Queued(closing) else [];
        log == old(log) + [Clear] + HighAccepts(queued) && high.Contents() == queued && normal.Contents() == []
    {
      hide Run, InitCmd, PollCmd, NonEmpty, HighAccepts, Queued, Queue.Contents, Queue.Len;
      AppendNonEmpty(high.Contents(), cur);
      if locked {
        return;
      }
      RunNext(log, Clear);
      high.Clear();
      normal.Clear();
      log := log + [Clear];
      Close(closing);
      locked := true;
    }

    /** The calls in `at_sleep_proc` that queue the closing commands. */
    method Close(closing: seq<Cmd>)
      requires Valid() && !locked && high.Contents() == []
      requires forall k :: 0 <= k < |closing| ==> |closing[k].str| <= SIZE
      modifies this`log, high, high.cmds, normal, normal.cmds
      ensures Valid() && normal.Contents() == old(normal.Contents())
      ensures var queued := if stat.On() then Queued(closing) else [];
        log == old(log) + HighAccepts(queued) && high.Contents() == queued
    {
      hide Run, HighAccepts, Queued, InitCmd, PollCmd, NonEmpty, Queue.Contents, Queue.Len;
      HighAcceptsNothing();
      QueuedNothing();
      for k := 0 to |closing|
        invariant Valid() && normal.Contents() == old(normal.Contents())
        invariant high.Contents() == if stat.On() then Queued(closing[..k]) else []
        invariant log == old(log) + HighAccepts(high.Contents())
      {
        ghost var before := high.Contents();
        SendEnable(closing[k], true);
        QueuedNext(closing, k);
        HighAcceptsNext(before, closing[k]);
      }
      assert closing[..|closing|] == closing;
    }

    /** `at_wakeup_proc`. */
    method Wakeup()
      requires Valid()
      modifies this`locked
      ensures Valid() && !locked
    {
      locked := false;
    }

    /** The loop of `at_init_cmd_proc` that passes over the settings of the hotspot. */
    method SkipSettings()
      requires initStep <= INIT_STEPS
      modifies this`initStep
      ensures initStep == InitDue(old(initStep), false) <= INIT_STEPS
    {
      hide InitCmd;
      while initStep < INIT_STEPS && WifiSetting(InitCmd(initStep).id)
        invariant initStep <= INIT_STEPS && InitDue(initStep, false) == InitDue(old(initStep), false)
      {
        initStep := initStep + 1;
      }
    }

    /** `at_init_cmd_proc`. Some commands are built from the configuration: built is the result. */
    method OnInit(wifi: bool, built: Cmd)
      requires Valid() && 0 < |built.str| <= SIZE
      modifies this`log, this`stat, this`initStep, high, high.cmds, normal, normal.cmds
      ensures Valid() && (old(stat.Norm()) ==> stat.Norm())
      ensures old(stat) != InitIdle ==> stat == old(stat) && log == old(log) && initStep == old(initStep)
      ensures old(stat) == InitIdle ==>
        var due := InitDue(old(initStep), wifi);
        if due < INIT_STEPS then
          && stat == InitIdle && initStep == due + 1
          && log == old(log) + if !locked && |old(normal.Contents())| < 9 then [InitAccept(due, built)] else []
        else stat == NormIdle && initStep == 0 && log == old(log) + [Operational]
    {
      hide Run, InitCmd, PollCmd, NonEmpty, Queue.Contents, Queue.Len;
      if stat != InitIdle {
        return;
      }
      if !wifi {
        SkipSettings();
      }
      if initStep < INIT_STEPS {
        var cmd := InitCmd(initStep);
        if cmd.id == Cops || cmd.id == WifiSsid || cmd.id == WifiAuth || cmd.id == WifiMaxSta {
          cmd := built;
        }
        SendEnable(cmd, false);
        initStep := initStep + 1;
      } else {
        RunNext(log, Operational);
        stat := NormIdle;
        initStep := 0;
        log := log + [Operational];
      }
    }

    /** The loop of `at_poll_cmd_proc` that passes over the checks of the hotspot. */
    method SkipChecks()
      requires pollStep < POLL_STEPS
      modifies this`pollStep
      ensures pollStep == PollDue(old(pollStep), false)
    {
      hide PollCmd;
      while WifiCheck(PollCmd(pollStep).id)
        invariant pollStep < POLL_STEPS && PollDue(pollStep, false) == PollDue(old(pollStep), false)
        decreases SkipsLeft(pollStep)
      {
        SkipsEnd(pollStep);
        pollStep := (pollStep + 1) % POLL_STEPS;
      }
    }

    /** `at_poll_cmd_proc`; during a call another command, built, takes the place of the polled one. */
    method OnPoll(wifi: bool, inCall: bool, built: Cmd)
      requires Valid() && 0 < |built.str| <= SIZE
      modifies this`log, this`pollStep, high, high.cmds, normal, normal.cmds
      ensures Valid()
      ensures !stat.Norm() ==> log == old(log) && pollStep == old(pollStep)
      ensures stat.Norm() ==>
        var due := PollDue(old(pollStep), wifi);
        && pollStep == (due + 1) % POLL_STEPS
        && var cmd := if inCall then built else PollCmd(due);
           log == old(log) + if !locked && |old(normal.Contents())| < 9 then [Accept(false, cmd)] else []
    {
      hide Run, InitCmd, PollCmd, NonEmpty, Next, Queue.Contents, Queue.Len, PollDue;
      NothingSkipped(pollStep);
      if !stat.Norm() {
        return;
      }
      if !wifi {
        SkipChecks();
      }
      SendEnable(if inCall then built else PollCmd(pollStep), false);
      pollStep := (pollStep + 1) % POLL_STEPS;
    }
  }

  /** No command is empty. */
  ghost predicate NonEmpty(cmds: seq<Cmd>) {
    forall c :: c in cmds ==> c.str != ""
  }

  lemma AppendNonEmpty(cmds: seq<Cmd>, cmd: Cmd)
    requires NonEmpty(cmds)
    ensures cmd.str != "" ==> NonEmpty(cmds + [cmd])
    ensures NonEmpty([])
  {
  }

  /** The event by which a command leaves the queues: up to 99 characters are sent. */
  ghost function FrontOf(h: seq<Cmd>, n: seq<Cmd>): (e: Option<Event>)
    ensures e.Some? ==> (e.value.Send? || e.value.Drop?) && (e.value.Send? <==> |e.value.cmd.str| < 100)
  {
    if h != [] then Some(if |h[0].str| < SIZE then Send(true, h[0]) else Drop(true, h[0]))
    else if n != [] then Some(if |n[0].str| < SIZE then Send(false, n[0]) else Drop(false, n[0]))
    else None
  }

  /** The phase and the current command after `at_send_proc` in phase s: an idle engine sends. */
  ghost predicate SentFrom(s: Stat, front: Option<Event>, cmd: Cmd, s': Stat, cmd': Cmd) {
    if (s.InitIdle? || s.NormIdle?) && front.Some? && front.value.Send? then
      cmd' == front.value.cmd && s' == if s.InitIdle? then InitSending else NormSending
    else
      s' == s && cmd' == cmd
  }

  /** The phase in which a result leaves the engine. */
  function AfterResult(s: Stat): Stat {
    match s
    case InitSending | InitRetry => InitIdle
    case NormSending | NormRetry => NormIdle
    case _ => s
  }

  lemma FrontExists(h: seq<Cmd>, n: seq<Cmd>)
    ensures FrontOf(h, n).Some? <==> h != [] || n != []
  {
  }

  /** That event is allowed while no command is outstanding. */
  lemma FrontNext(h: seq<Cmd>, n: seq<Cmd>, norm: bool)
    requires NonEmpty(h) && NonEmpty(n)
    ensures FrontOf(h, n).Some? <==> h != [] || n != []
    ensures FrontOf(h, n).Some? ==>
      var cmd := if h != [] then h[0] else n[0];
      var h', n' := if h != [] then h[1..] else h, if h != [] then n else n[1..];
      && Next(State(h, n, None, norm), FrontOf(h, n).value)
         == Some(State(h', n', if |cmd.str| < SIZE then Some(cmd) else None, norm))
      && cmd.str != "" && NonEmpty(h') && NonEmpty(n')
      && FrontOf(h, n).value.cmd == cmd && (FrontOf(h, n).value.Send? <==> |cmd.str| < SIZE)
  {
  }

  function HighAccepts(cmds: seq<Cmd>): (events: seq<Event>)
    ensures |events| == |cmds|
  {
    seq(|cmds|, k requires 0 <= k < |cmds| => Accept(true, cmds[k]))
  }

  /** The commands of a list that an empty queue takes in: those that are not empty, while there is room. */
  function Queued(cmds: seq<Cmd>): seq<Cmd> {
    if cmds == [] then []
    else
      var q, last := Queued(cmds[..|cmds| - 1]), cmds[|cmds| - 1];
      if last.str != "" && |q| < 9 then q + [last] else q
  }

  /** Nine commands or fewer, none of them empty, are all queued. */
  lemma {:induction false} AllQueued(cmds: seq<Cmd>)
    requires |cmds| <= 9 && forall k :: 0 <= k < |cmds| ==> cmds[k].str != ""
    ensures Queued(cmds) == cmds
    decreases |cmds|
  {
    if cmds != [] {
      AllQueued(cmds[..|cmds| - 1]);
    }
  }

  lemma QueuedNothing()
    ensures Queued([]) == []
  {
  }

  lemma QueuedNext(cmds: seq<Cmd>, k: nat)
    requires k < |cmds|
    ensures var q := Queued(cmds[..k]);
      Queued(cmds[..k + 1]) == if cmds[k].str != "" && |q| < 9 then q + [cmds[k]] else q
  {
    assert cmds[..k + 1][..k] == cmds[..k];
  }

  lemma HighAcceptsNext(cmds: seq<Cmd>, cmd: Cmd)
    ensures HighAccepts(cmds + [cmd]) == HighAccepts(cmds) + [Accept(true, cmd)]
  {
  }

  lemma HighAcceptsNothing()
    ensures HighAccepts([]) == []
  {
  }

  function InitAccept(due: nat, built: Cmd): Event
    requires due < INIT_STEPS
  {
    var id := InitCmd(due).id;
    Accept(false, if id == Cops || id == WifiSsid || id == WifiAuth || id == WifiMaxSta then built else InitCmd(due))
  }

  /** The commands that may be skipped stand together in the table. */
  function SkipsLeft(k: nat): nat
    requires k < POLL_STEPS
  {
    if 8 <= k <= 12 then 13 - k else 0
  }

  lemma SkipsEnd(k: nat)
    requires k < POLL_STEPS && WifiCheck(PollCmd(k).id)
    ensures 8 <= k <= 12
  {
  }

  /** The next command of the round that is polled. */
  function PollDue(step: nat, wifi: bool): (due: nat)
    requires step < POLL_STEPS
    ensures due < POLL_STEPS && (wifi || !WifiCheck(PollCmd(due).id))
    decreases SkipsLeft(step)
  {
    if !wifi && WifiCheck(PollCmd(step).id) then
      SkipsEnd(step);
      PollDue((step + 1) % POLL_STEPS, wifi)
    else step
  }

  lemma NothingSkipped(step: nat)
    requires step < POLL_STEPS
    ensures PollDue(step, true) == step
  {
  }
}
