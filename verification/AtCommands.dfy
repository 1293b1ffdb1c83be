/** Which commands the AT engine of app/base/at/at_task.c sends: the texts of its two tables, and what it passes
    over while the hotspot is disabled. */
module AtCommands {
  import opened AtTrace
  import opened AtEngine

  const INIT_TEXTS := [
    "ATE0\r\n", "AT+QGPSCFG=\"outport\",\"linuxsmd\"\r\n", "AT+QGPSCFG=\"gpsnmeatype\",3\r\n",
     "AT+QGPSCFG=\"glonassnmeatype\",0\r\n", "AT+QGPS=1,30,50,0,1\r\n", "AT+QGPS?\r\n", "ATI\r\n",
     "AT+EGMR=0,7\r\n", "AT+QIMI\r\n", "AT+QNWINFO\r\n", "AT+COPS=0\r\n", "AT+CSQ\r\n", "AT+QCCID\r\n",
     "AT+CLCC\r\n", "AT+COPS?\r\n", "AT+QDAI=1,0,0,4,0\r\n", "AT+QAUDMOD=2\r\n",
     "AT+QCFG=\"tone/incoming\",1\r\n", "AT+CNMI=2,1,2,0,1\r\n", "AT+CFUN?\r\n", "AT+QWSSID?\r\n",
     "AT+QWAUTH?\r\n", "AT+QWSETMAC?\r\n", "AT+QWMAXSTA?\r\n", "AT+QWIFI=1,0,0\r\n", "AT+QWIFI?\r\n",
     "AT+CPMS=\"ME\",\"ME\",\"ME\"\r\n", "AT+CMGD=1,4\r\n", "AT+CNUM\r\n", "AT+QCFG=\"qoos\",0\r\n",
     "AT+CGDCONT?\r\n"]

  const POLL_TEXTS := [
    "AT+CSQ\r\n", "AT+QNWINFO\r\n", "AT+COPS?\r\n", "AT+QCCID\r\n", "AT+CLCC\r\n", "AT+CFUN?\r\n",
     "AT+QGPS?\r\n", "AT+QWIFI?\r\n", "AT+QWMAXSTA?\r\n", "AT+QWSSID?\r\n", "AT+QWAUTH?\r\n", "AT+QWSTATUS?\r\n",
     "AT+QWSTAINFO?\r\n", "AT+QCFG=\"qoos\"\r\n", "AT+EGMR=0,7\r\n", "AT+QIMI\r\n", "AT+CGDCONT?\r\n"]

  /** The identifiers of the first table, in order: the entries 0 to 9. */
  lemma FirstNumbers(k: nat)
    requires k < 10
    ensures InitCmd(k).id == [Plain(0), Plain(18), Plain(18), Plain(18), Plain(19), Plain(19), Plain(1), Plain(4),
                              Plain(5), Plain(7)][k]
  {
  }

  /** The entries 10 to 19. */
  lemma SecondNumbers(k: nat)
    requires k < 10
    ensures InitCmd(10 + k).id == [Cops, Csq, Plain(14), Clcc, Cops, Plain(15), Plain(16), Plain(17), Plain(11),
                                   Plain(31)][k]
  {
  }

  /** The entries 20 to 30. */
  lemma LastNumbers(k: nat)
    requires k < 11
    ensures InitCmd(20 + k).id == [WifiSsid, WifiAuth, WifiMac, WifiMaxSta, Wifi, Wifi, Plain(12), Plain(13), Plain(33),
                                   Plain(35), Plain(36)][k]
  {
  }

  /** The identifiers of the second table, in order. */
  lemma PollNumbers(k: nat)
    requires k < 17
    ensures PollCmd(k).id == [Csq, Plain(7), Cops, Plain(14), Clcc, Plain(31), Plain(19), Wifi, WifiMaxSta, WifiSsid,
                              WifiAuth, WifiStatus, WifiStaInfo, Plain(35), Plain(4), Plain(5), Plain(36)][k]
  {
  }

  /** The texts of the two tables, in order. */
  lemma TableTexts(k: nat)
    ensures INIT_STEPS == |INIT_TEXTS| == 31 && POLL_STEPS == |POLL_TEXTS| == 17
    ensures k < 31 ==> InitCmd(k).str == INIT_TEXTS[k]
    ensures k < 17 ==> PollCmd(k).str == POLL_TEXTS[k]
  {
  }

  /** Which entries the hotspot concerns, and which initial ones are built from the configuration. */
  lemma TableIds(k: nat)
    ensures k < 31 ==> (WifiSetting(InitCmd(k).id) <==> 20 <= k < 26)
    ensures k < 17 ==> (WifiCheck(PollCmd(k).id) <==> 8 <= k < 13)
    ensures k < 31 ==> forall built: Cmd ::
      InitAccept(k, built) == Accept(false, if k in {10, 14, 20, 21, 23} then built else InitCmd(k))
  {
  }

  /** With the hotspot off, the initial commands 20 to 25, which configure it, are passed over, and no others;
      with it on, none is. */
  lemma {:induction false} InitDueIs(k: nat)
    requires k <= 31
    ensures InitDue(k, true) == k && InitDue(k, false) == if 20 <= k < 26 then 26 else k
    decreases 31 - k
  {
    if k < 31 {
      TableIds(k);
      hide InitCmd, WifiSetting;
      InitDueIs(k + 1);
    }
  }

  /** With the hotspot off, the polled commands 8 to 12, which check it, are passed over, and no others; with
      it on, none is. */
  lemma {:induction false} PollDueIs(k: nat)
    requires k < 17
    ensures PollDue(k, true) == k && PollDue(k, false) == if 8 <= k < 13 then 13 else k
    decreases 17 - k
  {
    TableIds(k);
    hide PollCmd, WifiCheck;
    if k < 16 {
      TableIds(k + 1);
      PollDueIs(k + 1);
    }
  }

  /** The events by which the initial commands from a step on are queued, one after the other. */
  function InitAccepts(step: nat, wifi: bool, built: Cmd): seq<Event>
    decreases INIT_STEPS - step
  {
    var due := InitDue(step, wifi);
    if due >= INIT_STEPS then [] else [InitAccept(due, built)] + InitAccepts(due + 1, wifi, built)
  }

  /** The events for the entries from one to another of the table. */
  function Entries(from: nat, to: nat, built: Cmd): (e: seq<Event>)
    requires from <= to <= 31
    ensures |e| == to - from
  {
    seq(to - from, k requires 0 <= k < to - from => InitAccept(from + k, built))
  }

  /** The initial phase queues the whole table, or all but the settings of the hotspot, once and in order. */
  lemma InitialCommands(built: Cmd)
    ensures InitAccepts(0, true, built) == Entries(0, 31, built)
    ensures InitAccepts(0, false, built) == Entries(0, 20, built) + Entries(26, 31, built)
  {
    hide *;
    InitRest(0, 31, true, built);
    InitRest(26, 5, false, built);
    InitRest(0, 20, false, built);
    InitAcceptsNext(31, true, built);
    InitAcceptsNext(31, false, built);
    InitAcceptsNext(20, false, built);
    assert Entries(26, 31, built) + [] == Entries(26, 31, built) && Entries(0, 31, built) + [] == Entries(0, 31, built);
  }

  lemma InitAcceptsNext(k: nat, wifi: bool, built: Cmd)
    requires k <= 31
    ensures InitAccepts(k, wifi, built) ==
      if k == 31 then []
      else if !wifi && 20 <= k < 26 then InitAccepts(26, false, built)
      else [InitAccept(k, built)] + InitAccepts(k + 1, wifi, built)
  {
    InitDueIs(k);
    InitDueIs(26);
    hide InitDue, InitAccept;
  }

  lemma EntriesNext(first: nat, last: nat, built: Cmd)
    requires first <= last <= 31
    ensures Entries(first, last, built) ==
      if first == last then [] else [InitAccept(first, built)] + Entries(first + 1, last, built)
  {
    hide InitAccept;
  }

  lemma Joined(a: seq<Event>, b: seq<Event>, c: seq<Event>)
    ensures (a + b) + c == a + (b + c) && [] + c == c
  {
  }

  /** A stretch of the table of which nothing is passed over. */
  lemma {:induction false} InitRest(first: nat, n: nat, wifi: bool, built: Cmd)
    requires first + n <= 31 && (wifi || first + n <= 20 || first >= 26)
    ensures InitAccepts(first, wifi, built) == Entries(first, first + n, built) + InitAccepts(first + n, wifi, built)
    decreases n
  {
    hide InitAccepts, Entries, InitAccept, InitDue, InitCmd;
    EntriesNext(first, first + n, built);
    if n == 0 {
      Joined([], [], InitAccepts(first, wifi, built));
    } else {
      InitAcceptsNext(first, wifi, built);
      InitRest(first + 1, n - 1, wifi, built);
      Joined([InitAccept(first, built)], Entries(first + 1, first + n, built), InitAccepts(first + n, wifi, built));
    }
  }
}
