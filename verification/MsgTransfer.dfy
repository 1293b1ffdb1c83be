/** Messages from end to end: encoded segment by segment with the checksum threaded through, sent, received
    in chunks of any sizes that the buffer takes, and delivered. */
module MsgTransfer {
  import opened Basics
  import opened Dccp
  import opened DccpSession
  import opened MsgParse
  import opened MsgRx

  /** A message as its sender hands it over. */
  datatype Message = Message(first: Bytes, middles: seq<Bytes>, last: Bytes)

  function Payload(m: Message): Bytes {
    m.first + Joined(m.middles) + m.last
  }

  function Payloads(messages: seq<Message>): (p: seq<Bytes>)
    ensures |p| == |messages| && forall i :: 0 <= i < |p| ==> p[i] == Payload(messages[i])
  {
    seq(|messages|, i requires 0 <= i < |messages| => Payload(messages[i]))
  }

  /** The bytes that the middle segments from k on and the last one add. */
  function Tail(m: Message, k: nat, cs: byte): Bytes
    requires k <= |m.middles|
  {
    MiddleBytes(m.middles[k..], cs) + SegmentBytes(Last, m.last, RunningChecksum(m.middles[k..], cs))
  }

  lemma TailOfFirst(m: Message)
    ensures SegmentBytes(First, m.first, 0) + Tail(m, 0, SegmentChecksum(First, m.first, 0)) == Frame(Payload(m))
  {
    hide SegmentBytes, MiddleBytes, RunningChecksum, Checksum, Frame;
    var cs := Checksum(0, m.first);
    assert m.middles[0..] == m.middles;
    MiddleChecksum(m.middles, cs);
    ChecksumConcat(0, m.first, Joined(m.middles));
    SegmentsFormFrame(m.first, m.middles, m.last);
  }

  lemma TailNext(m: Message, k: nat, cs: byte)
    requires k < |m.middles|
    ensures Tail(m, k, cs) == SegmentBytes(Middle, m.middles[k], cs) + Tail(m, k + 1, SegmentChecksum(Middle, m.middles[k], cs))
  {
    hide SegmentBytes, SegmentChecksum;
    assert m.middles[k..][0] == m.middles[k] && m.middles[k..][1..] == m.middles[k + 1..];
  }

  lemma TailLast(m: Message, cs: byte)
    ensures Tail(m, |m.middles|, cs) == SegmentBytes(Last, m.last, cs)
  {
    assert m.middles[|m.middles|..] == [];
  }

  /** One call of `msg_encode` behind what has been encoded so far. */
  method Append(segment: Bytes, flag: Segment, cs0: byte, omsg: array<byte>, at: nat) returns (ok: bool, cs: byte, end: nat)
    requires at <= omsg.Length && (flag == First ==> at < omsg.Length)
    modifies omsg
    ensures ok <==> at + |SegmentBytes(flag, segment, cs0)| <= omsg.Length
    ensures ok ==> end == at + |SegmentBytes(flag, segment, cs0)| && cs == SegmentChecksum(flag, segment, cs0)
    ensures ok ==> omsg[..end] == old(omsg[..at]) + SegmentBytes(flag, segment, cs0)
  {
    hide SegmentBytes, SegmentChecksum;
    var ret;
    ghost var before := omsg[..at];
    ret, cs := MsgEncode(segment, omsg, at, omsg.Length - at, flag, cs0);
    ok, end := ret >= 0, at;
    if ok {
      end := at + ret;
      assert omsg[..at] == before && omsg[..end] == omsg[..at] + omsg[at..end];
    }
  }

  /** A message encoded into a buffer: its frame, or failure exactly when the frame does not fit. */
  method EncodeMessage(m: Message, room: nat) returns (ok: bool, wire: Bytes)
    requires room > 0
    ensures ok <==> |Frame(Payload(m))| <= room
    ensures ok ==> wire == Frame(Payload(m))
  {
    hide SegmentBytes, SegmentChecksum, Tail, Frame, Payload;
    var omsg := new byte[room](_ => 0);
    TailOfFirst(m);
    var cs: byte;
    var at: nat;
    wire := [];
    ok, cs, at := Append(m.first, First, 0, omsg, 0);
    if !ok {
      return;
    }
    for k := 0 to |m.middles|
      invariant at <= room && omsg[..at] + Tail(m, k, cs) == Frame(Payload(m))
    {
      TailNext(m, k, cs);
      ghost var before, cs0 := omsg[..at], cs;
      ok, cs, at := Append(m.middles[k], Middle, cs, omsg, at);
      if !ok {
        return;
      }
      Reassociate(before, SegmentBytes(Middle, m.middles[k], cs0), Tail(m, k + 1, cs));
    }
    TailLast(m, cs);
    ok, cs, at := Append(m.last, Last, cs, omsg, at);
    if ok {
      wire := omsg[..at];
    }
  }

  lemma Reassociate(a: Bytes, b: Bytes, c: Bytes)
    ensures a + (b + c) == (a + b) + c
  {
  }

  /** The frames of all messages, one after the other. */
  method EncodeAll(messages: seq<Message>, room: nat) returns (wire: Bytes)
    requires room > 0 && forall i :: 0 <= i < |messages| ==> |Frame(Payload(messages[i]))| <= room
    ensures wire == Frames(Payloads(messages))
  {
    hide Frame, Payload;
    wire := [];
    var k := |messages|;
    assert Payloads(messages[k..]) == [];
    while k > 0
      invariant 0 <= k <= |messages| && wire == Frames(Payloads(messages[k..]))
    {
      k := k - 1;
      var ok, frame := EncodeMessage(messages[k], room);
      ghost var p := Payloads(messages[k..]);
      assert messages[k..][0] == messages[k] && p[0] == Payload(messages[k]);
      assert p[1..] == Payloads(messages[k + 1..]);
      wire := frame + wire;
    }
    assert messages[0..] == messages;
  }

  /** Bytes received in chunks of any sizes the buffer takes, when no cut would exceed its limit. */
  method ReceiveStream(rx: Rx, wire: Bytes) returns (log: seq<Bytes>)
    requires rx.Valid() && rx.State() == Idle && WithinLimit(Idle, wire, rx.size) && rx.size > 0
    modifies rx, rx.data
    ensures rx.Valid() && log == Run(Idle, wire).delivered && rx.State() == Run(Idle, wire).state
  {
    hide Run, ReceiveChunk, WithinLimit;
    log := [];
    var pos := 0;
    RunNothing(Idle);
    assert wire[..0] == [];
    while pos < |wire|
      invariant 0 <= pos <= |wire| && rx.Valid()
      invariant log == Run(Idle, wire[..pos]).delivered && rx.State() == Run(Idle, wire[..pos]).state
    {
      StreamRoom(wire, pos, rx.size);
      assert rx.used == if rx.State().Idle? then 0 else |rx.State().body| + 1;
      var free := rx.size - rx.used;
      var n :| 1 <= n <= (if free < |wire| - pos then free else |wire| - pos);
      ghost var before := rx.State();
      var more := rx.Receive(wire[pos..pos + n]);
      StreamRoom(wire, pos + n, rx.size);
      StreamNext(wire, pos, n, rx.size);
      log := log + more;
      pos := pos + n;
    }
    assert wire[..|wire|] == wire;
  }

  lemma StreamRoom(wire: Bytes, pos: nat, size: int)
    requires WithinLimit(Idle, wire, size) && pos <= |wire|
    ensures Room(Run(Idle, wire[..pos]).state, size)
  {
  }

  lemma StreamNext(wire: Bytes, pos: nat, n: nat, size: int)
    requires pos + n <= |wire| && Room(Run(Idle, wire[..pos + n]).state, size)
    ensures var s := Run(Idle, wire[..pos]); var r := ReceiveChunk(s.state, wire[pos..pos + n], size);
      Run(Idle, wire[..pos + n]) == Result(r.state, s.delivered + r.delivered)
  {
    hide Run;
    RunConcat(Idle, wire[..pos], wire[pos..pos + n]);
    assert wire[..pos + n] == wire[..pos] + wire[pos..pos + n];
  }

  /** Messages whose frames fit the sender's buffer and the limit of the receiver arrive exactly once, in
      order and unchanged, whatever the segments and whatever the chunks. */
  method Transfer(messages: seq<Message>, rx: Rx, room: nat) returns (log: seq<Bytes>)
    requires rx.Valid() && rx.State() == Idle && rx.size > 0 && room > 0
    requires forall i :: 0 <= i < |messages| ==> |Frame(Payload(messages[i]))| <= room
    requires AllShort(Payloads(messages), rx.size)
    modifies rx, rx.data
    ensures log == Payloads(messages) && rx.Valid() && rx.State() == Idle
  {
    hide Frame, Payload, Run, WithinLimit;
    ghost var payloads := Payloads(messages);
    var wire := EncodeAll(messages, room);
    FramesWithinLimit(Idle, payloads, rx.size);
    RunFrames(Idle, payloads);
    if payloads == [] {
      RunNothing(Idle);
    }
    log := ReceiveStream(rx, wire);
  }
}
