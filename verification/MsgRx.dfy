/** The receive buffer of include/msg_parse.h and the streaming decoder of mid/msg/msg_parse.c, which
    removes the byte stuffing in place, proved against the bufferless receiver. */
module MsgRx {
  import opened Basics
  import opened Dccp
  import opened DccpSession
  import MsgParse

  /** The byte that body[i] stands for and the number of bytes read, unless an unknown escape stands there. */
  function Unstuffed(body: Bytes, i: nat): Option<(byte, nat)>
    requires i < |body|
  {
    if body[i] != ESC then Some((body[i], 1))
    else if i + 1 < |body| && body[i + 1] == 0x01 then Some((ESC, 2))
    else if i + 1 < |body| && body[i + 1] == 0x02 then Some((MARKER, 2))
    else None
  }

  /** The branches of the loop of `msg_reverse`, which may look at the closing marker behind the body. */
  method Unstuff(data: array<byte>, p: nat, ghost body: Bytes, ghost i: nat) returns (ok: bool, b: byte, n: nat)
    requires i < |body| && p + 1 < data.Length && data[p] == body[i]
    requires data[p + 1] == if i + 1 < |body| then body[i + 1] else MARKER
    ensures match Unstuffed(body, i)
      case None => !ok
      case Some(r) => ok && b == r.0 && n == r.1
  {
    ok := true;
    if data[p] != ESC {
      b, n := data[p], 1;
    } else {
      n := 2;
      if data[p + 1] == 0x01 {
        b := ESC;
      } else if data[p + 1] == 0x02 {
        b := MARKER;
      } else {
        ok, b := false, 0;
      }
    }
  }

  /** `msg_reverse` on data[at..at + len]; the byte behind is the closing marker. */
  method Reverse(data: array<byte>, at: nat, len: int) returns (ret: int)
    requires len > 0 ==> at + len < data.Length && data[at + len] == MARKER
    modifies data
    ensures len <= 0 ==> ret == -1
    ensures len > 0 ==> match Unescape([], old(data[at..at + len]))
      case None => ret == -1
      case Some(u) => ret == |u| && |u| <= len && data[at..at + |u|] == u
    ensures forall k :: 0 <= k < data.Length && !(at <= k < at + len) ==> data[k] == old(data[k])
  {
    if len <= 0 { return -1; }
    ret := ReverseLoop(data, at, len, data[at..at + len]);
    assert ret >= 0 ==> data[at..at + ret] == Unescape([], old(data[at..at + len])).value;
  }

  /** The loop of `msg_reverse`, from the two indices at 0. */
  method ReverseLoop(data: array<byte>, at: nat, len: nat, ghost body: Bytes) returns (ret: int)
    requires |body| == len && at + len < data.Length && data[at + len] == MARKER
    requires forall k :: 0 <= k < len ==> data[at + k] == body[k]
    modifies data
    ensures match Unescape([], body)
      case None => ret == -1
      case Some(u) => ret == |u| <= len && forall k :: 0 <= k < |u| ==> data[at + k] == u[k]
    ensures forall k :: 0 <= k < data.Length && !(at <= k < at + len) ==> data[k] == old(data[k])
  {
    var i, j := 0, 0;
    ghost var acc: Bytes := [];
    assert body[0..] == body;
    UnescapeNothing();
    hide Unescape, Unstuffed;
    while i < len
      invariant 0 <= j <= i <= len && |acc| == j
      invariant Unescape(acc, body[i..]) == Unescape([], body)
      invariant forall k :: 0 <= k < j ==> data[at + k] == acc[k]
      invariant forall k :: i <= k < len ==> data[at + k] == body[k]
      invariant forall k :: 0 <= k < data.Length && !(at <= k < at + len) ==> data[k] == old(data[k])
    {
      UnescapeStep(acc, body, i);
      assert i + 1 < len ==> data[at + (i + 1)] == body[i + 1];
      var ok, b, n := Unstuff(data, at + i, body, i);
      if !ok { return -1; }
      UnstuffedWithin(body, i);
      i := i + n;
      data[at + j] := b;
      j := j + 1;
      acc := acc + [b];
    }
    assert body[i..] == [];
    ret := j;
  }

  lemma UnescapeNothing()
    ensures forall acc :: Unescape(acc, []) == Some(acc)
  {
  }

  lemma UnstuffedWithin(body: Bytes, i: nat)
    requires i < |body|
    ensures Unstuffed(body, i).Some? ==> 1 <= Unstuffed(body, i).value.1 <= |body| - i
  {
  }

  /** One round of the loop of `msg_reverse`. */
  lemma UnescapeStep(acc: Bytes, body: Bytes, i: nat)
    requires i < |body|
    ensures match Unstuffed(body, i)
      case None => Unescape(acc, body[i..]) == None
      case Some(r) =>
        r.1 <= |body| - i && Unescape(acc, body[i..]) == Unescape(acc + [r.0], body[i + r.1..])
  {
    var s := body[i..];
    assert s[1..] == body[i + 1..];
    if i + 1 < |body| { assert s[2..] == body[i + 2..]; }
  }

  /** `msg_check`: returns whether the frame is right, and the length without stuffing. */
  method Check(data: array<byte>, at: nat, len: int) returns (ok: bool, newLen: int)
    requires len > 0 && at + len < data.Length && data[at + len] == MARKER
    modifies data
    ensures match Content(old(data[at..at + len]))
      case None => !ok
      case Some(payload) => ok && newLen == |payload| + 1 && newLen <= len && data[at..at + |payload|] == payload
    ensures forall k :: 0 <= k < data.Length && !(at <= k < at + len) ==> data[k] == old(data[k])
  {
    hide Unescape, Checksum;
    newLen := Reverse(data, at, len);
    if newLen < 1 { return false, newLen; }
    var cs := MsgParse.MsgChecksum(data[at..at + newLen - 1], 0);
    MsgParse.ChecksumNothing(0);
    ghost var u := data[at..at + newLen];
    assert u[..|u| - 1] == data[at..at + newLen - 1];
    if cs != data[at + newLen - 1] { return false, newLen; }
    ok := true;
  }

  /** `msg_find_dccp` over data[at..at + len], where the buffer holds the input. */
  method FindDccp(data: array<byte>, at: nat, len: nat, ghost input: Bytes) returns (ret: int)
    requires at + len <= |input| <= data.Length && forall k :: at <= k < at + len ==> data[k] == input[k]
    ensures -1 <= ret < len
    ensures ret == -1 ==> MarkerFree(input[at..at + len])
    ensures ret >= 0 ==> input[at + ret] == MARKER && MarkerFree(input[at..at + ret])
  {
    for i := 0 to len
      invariant forall k :: at <= k < at + i ==> input[k] != MARKER
    {
      if data[at + i] == MARKER { return i; }
    }
    ret := -1;
  }

  /** `MSG_RX`. */
  class Rx {
    var used: int
    const size: nat
    const data: array<byte>

    /** `msg_init_rx`. */
    constructor (size: nat)
      ensures Valid() && State() == Idle && this.size == size && fresh(data)
    {
      this.size := size;
      data := new byte[size](_ => 0);
      used := 0;
    }

    /** Between two calls the buffer is empty or holds one unfinished frame, below the limit. */
    ghost predicate Valid()
      reads this, data
    {
      && 0 <= used <= size == data.Length
      && (used > 0 ==> data[0] == MARKER && MarkerFree(data[1..used]) && Room(Pending(data[1..used]), size))
    }

    ghost function State(): Receiver
      requires Valid()
      reads this, data
    {
      if used == 0 then Idle else Pending(data[1..used])
    }

    /** `msg_decodex`; the calls of the message handler are returned as a log. */
    method Decodex() returns (log: seq<Bytes>)
      requires 0 <= used <= size == data.Length
      modifies this, data
      ensures Valid()
      ensures var r := Run(Idle, old(data[..used]));
        log == r.delivered && State() == Settle(r.state, size)
    {
      hide *;
      ghost var input := data[..used];
      var startPos;
      log, startPos := Scan();
      Keep(startPos, input);
    }

    /** The end of `msg_decodex`: an unfinished frame moves to the front of the buffer, unless it is too
        long. */
    method Keep(startPos: int, ghost input: Bytes)
      requires 0 <= used == |input| <= size == data.Length && Unfinished(input, startPos)
      modifies this, data
      ensures Valid() && State() == Settle(Open(input, startPos), size)
    {
      hide Settle, Room, Run, MarkerFree, Open;
      SettleOpen(input, startPos, size);
      if startPos == -1 || used - startPos >= size - 16 {
        used := 0;
      } else {
        var len := used - startPos;
        if startPos != 0 {
          MoveToFront(startPos, len, input);
        }
        used := len;
        assert data[1..used] == input[startPos + 1..];
      }
    }

    /** The bytes from the last unmatched marker on, if there is one, are in the buffer. */
    ghost predicate Unfinished(input: Bytes, startPos: int)
      reads data
    {
      && -1 <= startPos && |input| <= data.Length
      && (startPos >= 0 ==>
        && startPos < |input| && input[startPos] == MARKER && MarkerFree(input[startPos + 1..])
        && forall k :: startPos <= k < |input| ==> data[k] == input[k])
    }

    /** The state of the scan after rPos bytes: what was delivered, where the last unmatched marker
        is, and that the bytes still needed have not been touched. */
    ghost predicate Scanning(input: Bytes, rPos: int, startPos: int, log: seq<Bytes>)
      reads data
    {
      && 0 <= rPos <= |input| <= data.Length && -1 <= startPos < rPos
      && Run(Idle, input[..rPos]).delivered == log && Scanned(input, rPos, startPos)
      && (startPos >= 0 ==> input[startPos] == MARKER && MarkerFree(input[startPos + 1..rPos]))
      && forall k :: (if startPos >= 0 then startPos else rPos) <= k < |input| ==> data[k] == input[k]
    }

    /** The loop of `msg_decodex`; it ends with r_pos at the end of the used part. */
    method Scan() returns (log: seq<Bytes>, startPos: int)
      requires 0 <= used <= size == data.Length
      modifies data
      ensures var input := old(data[..used]);
        Run(Idle, input) == Result(Open(input, startPos), log) && Unfinished(input, startPos)
    {
      ghost var input := data[..used];
      log := [];
      startPos := -1;
      var rPos := 0;
      NothingScanned(input);
      hide Run, Scanned;
      assert Scanning(input, rPos, startPos, log);
      while rPos < used
        invariant Scanning(input, rPos, startPos, log)
      {
        hide Scanning;
        log, rPos, startPos := ScanStep(input, rPos, startPos, log);
      }
      assert input[..|input|] == input;
      ScannedAll(input, startPos);
    }

    /** One round of that loop. */
    method ScanStep(ghost input: Bytes, rPos0: int, startPos0: int, log0: seq<Bytes>)
      returns (log: seq<Bytes>, rPos: int, startPos: int)
      requires |input| == used && Scanning(input, rPos0, startPos0, log0) && rPos0 < used
      modifies data
      ensures Scanning(input, rPos, startPos, log) && rPos > rPos0
    {
      hide Run, Content, Scanned, MarkerFree;
      log, rPos, startPos := log0, rPos0, startPos0;
      var ret := FindDccp(data, rPos, used - rPos, input);
      if ret < 0 {
        ScanRest(input, rPos, startPos);
        rPos := used;
      } else {
        var endPos := rPos + ret;
        NoMarkerYet(input, endPos + 1);
        if startPos == -1 {
          ScanStart(input, rPos, ret);
          startPos := endPos;
          rPos := startPos + 1;
        } else {
          ScanEnd(input, rPos, startPos, ret);
          rPos := endPos + 1;
          var ok, payload := TryFrame(startPos, endPos, input);
          if ok {
            log := log + [payload];
            startPos := -1;
          } else {
            startPos := endPos;
          }
        }
      }
    }

    /** The test of a closed frame; the payload is what the message handler is called with. */
    method TryFrame(startPos: nat, endPos: nat, ghost input: Bytes) returns (ok: bool, payload: Bytes)
      requires startPos < endPos < |input| <= data.Length && input[endPos] == MARKER
      requires forall k :: startPos <= k < |input| ==> data[k] == input[k]
      modifies data
      ensures match Content(input[startPos + 1..endPos])
        case None => !ok
        case Some(p) => ok && payload == p
      ensures forall k :: endPos <= k < |input| ==> data[k] == input[k]
    {
      EmptyBodyInvalid();
      hide Content;
      payload := [];
      var len := endPos - startPos - 1;
      assert data[startPos + 1..startPos + 1 + len] == input[startPos + 1..endPos];
      if len <= 0 {
        ok := false;
      } else {
        ok, len := Check(data, startPos + 1, len);
        if ok {
          payload := data[startPos + 1..startPos + 1 + (len - 1)];
        }
      }
    }

    /** The copying loop at the end of `msg_decodex`. */
    method MoveToFront(startPos: nat, len: nat, ghost input: Bytes)
      requires startPos + len == |input| <= data.Length
      requires forall k :: startPos <= k < |input| ==> data[k] == input[k]
      modifies data
      ensures forall k :: 0 <= k < len ==> data[k] == input[startPos + k]
    {
      for i := 0 to len
        invariant forall k :: 0 <= k < i ==> data[k] == input[startPos + k]
        invariant forall k :: startPos + i <= k < |input| ==> data[k] == input[k]
      {
        data[i] := data[i + startPos];
      }
    }

    /** What the caller does per chunk: `recv` behind the used part, then decode. */
    method Receive(chunk: Bytes) returns (log: seq<Bytes>)
      requires Valid() && used + |chunk| <= size
      modifies this, data
      ensures Valid()
      ensures var r := ReceiveChunk(old(State()), chunk, size);
        log == r.delivered && State() == r.state
    {
      ghost var kept := data[..used];
      ghost var state := State();
      for i := 0 to |chunk|
        invariant used == old(used) && forall k :: 0 <= k < used ==> data[k] == kept[k]
        invariant forall k :: used <= k < used + i ==> data[k] == chunk[k - used]
      {
        data[used + i] := chunk[i];
      }
      used := used + |chunk|;
      assert data[..used] == kept + chunk;
      KeptState(kept, state);
      RunConcat(Idle, kept, chunk);
      log := Decodex();
    }

    /** A chunk fits exactly if there is room for it behind the bytes that the buffer keeps. */
    lemma FitsExactly(chunk: Bytes)
      requires Valid()
      ensures Fits(State(), [chunk], size) <==> used + |chunk| <= data.Length
    {
    }

    /** A run of the receiver over any number of chunks that fit. */
    method ReceiveAll(chunks: seq<Bytes>) returns (log: seq<Bytes>)
      requires Valid() && Fits(State(), chunks, size)
      modifies this, data
      ensures Valid()
      ensures var r := Session(old(State()), chunks, size);
        log == r.delivered && State() == r.state
    {
      hide ReceiveChunk;
      log := [];
      ghost var start := State();
      for i := 0 to |chunks|
        invariant Valid() && Fits(State(), chunks[i..], size)
        invariant Session(start, chunks, size).state == Session(State(), chunks[i..], size).state
        invariant Session(start, chunks, size).delivered == log + Session(State(), chunks[i..], size).delivered
      {
        assert chunks[i..][0] == chunks[i] && chunks[i..][1..] == chunks[i + 1..];
        assert used == if State().Idle? then 0 else |State().body| + 1;
        var more := Receive(chunks[i]);
        log := log + more;
      }
      assert chunks[|chunks|..] == [];
    }
  }

  lemma KeptState(kept: Bytes, state: Receiver)
    requires if state.Idle? then kept == [] else kept == [MARKER] + state.body && MarkerFree(state.body)
    ensures Run(Idle, kept) == Result(state, [])
  {
    if state.Pending? {
      RunOne(Idle, MARKER);
      RunConcat(Idle, [MARKER], state.body);
      RunMarkerFree(Pending([]), state.body);
      assert [] + state.body == state.body;
    }
  }

  // --- the scanning state of the decoder ---

  /** What startPos means after reading rPos bytes. */
  ghost predicate Scanned(input: Bytes, rPos: nat, startPos: int)
    requires rPos <= |input| && startPos < rPos
  {
    Run(Idle, input[..rPos]).state == if startPos < 0 then Idle else Pending(input[startPos + 1..rPos])
  }

  lemma NothingScanned(input: Bytes)
    ensures Scanned(input, 0, -1) && Run(Idle, input[..0]).delivered == []
  {
  }

  /** The receiver after the input, if its last unmatched marker is at startPos. */
  function Open(input: Bytes, startPos: int): Receiver {
    if 0 <= startPos < |input| then Pending(input[startPos + 1..]) else Idle
  }

  lemma ScannedAll(input: Bytes, startPos: int)
    requires -1 <= startPos < |input| && Scanned(input, |input|, startPos)
    ensures Run(Idle, input).state == Open(input, startPos)
    ensures startPos >= 0 ==> input[startPos + 1..|input|] == input[startPos + 1..]
  {
    hide Run;
    assert input[..|input|] == input;
  }

  lemma SettleOpen(input: Bytes, startPos: int, size: int)
    requires -1 <= startPos < |input| || startPos == -1
    ensures Settle(Open(input, startPos), size) ==
      if startPos == -1 || |input| - startPos >= size - 16 then Idle else Pending(input[startPos + 1..])
    ensures 0 <= startPos && |input| - startPos < size - 16 ==> Room(Pending(input[startPos + 1..]), size)
  {
  }

  lemma ScanMarkerFree(input: Bytes, rPos: nat, startPos: int, n: nat)
    requires rPos + n <= |input| && -1 <= startPos < rPos && Scanned(input, rPos, startPos)
    requires MarkerFree(input[rPos..rPos + n])
    ensures Scanned(input, rPos + n, startPos)
    ensures Run(Idle, input[..rPos + n]).delivered == Run(Idle, input[..rPos]).delivered
  {
    hide Run;
    var more := input[rPos..rPos + n];
    assert input[..rPos + n] == input[..rPos] + more;
    RunConcat(Idle, input[..rPos], more);
    RunMarkerFree(Run(Idle, input[..rPos]).state, more);
    if startPos >= 0 {
      assert input[startPos + 1..rPos] + more == input[startPos + 1..rPos + n];
    }
  }

  lemma ScanRest(input: Bytes, rPos: nat, startPos: int)
    requires rPos <= |input| && -1 <= startPos < rPos && Scanned(input, rPos, startPos)
    requires MarkerFree(input[rPos..rPos + (|input| - rPos)])
    requires startPos >= 0 ==> MarkerFree(input[startPos + 1..rPos])
    ensures Scanned(input, |input|, startPos)
    ensures Run(Idle, input[..|input|]).delivered == Run(Idle, input[..rPos]).delivered
    ensures startPos >= 0 ==> MarkerFree(input[startPos + 1..|input|])
  {
    hide Run, Scanned;
    ScanMarkerFree(input, rPos, startPos, |input| - rPos);
    if startPos >= 0 {
      assert input[startPos + 1..|input|] == input[startPos + 1..rPos] + input[rPos..rPos + (|input| - rPos)];
    }
  }

  lemma NoMarkerYet(input: Bytes, rPos: nat)
    requires rPos <= |input|
    ensures MarkerFree(input[rPos..rPos])
  {
  }

  lemma ScanMarker(input: Bytes, p: nat)
    requires p < |input| && input[p] == MARKER
    ensures var s := Run(Idle, input[..p]); var t := Step(s.state, MARKER);
      Run(Idle, input[..p + 1]) == Result(t.state, s.delivered + t.delivered)
  {
    assert input[..p + 1][..p] == input[..p];
  }

  lemma ScanStart(input: Bytes, rPos: nat, ret: nat)
    requires rPos + ret < |input| && Scanned(input, rPos, -1)
    requires MarkerFree(input[rPos..rPos + ret]) && input[rPos + ret] == MARKER
    ensures Scanned(input, rPos + ret + 1, rPos + ret)
    ensures Run(Idle, input[..rPos + ret + 1]).delivered == Run(Idle, input[..rPos]).delivered
  {
    ScanMarkerFree(input, rPos, -1, ret);
    ScanMarker(input, rPos + ret);
  }

  lemma ScanEnd(input: Bytes, rPos: nat, startPos: nat, ret: nat)
    requires rPos + ret < |input| && startPos < rPos && Scanned(input, rPos, startPos)
    requires MarkerFree(input[rPos..rPos + ret]) && input[rPos + ret] == MARKER
    ensures var before := Run(Idle, input[..rPos]).delivered;
      match Content(input[startPos + 1..rPos + ret])
      case None =>
        Scanned(input, rPos + ret + 1, rPos + ret) && Run(Idle, input[..rPos + ret + 1]).delivered == before
      case Some(payload) =>
        Scanned(input, rPos + ret + 1, -1) && Run(Idle, input[..rPos + ret + 1]).delivered == before + [payload]
  {
    hide Run, Content, Step;
    ScanMarkerFree(input, rPos, startPos, ret);
    ScanMarker(input, rPos + ret);
    StepMarker(input[startPos + 1..rPos + ret]);
    assert input[rPos + ret + 1..rPos + ret + 1] == [];
  }

  lemma StepMarker(body: Bytes)
    ensures match Content(body)
      case None => Step(Pending(body), MARKER) == Result(Pending([]), [])
      case Some(payload) => Step(Pending(body), MARKER) == Result(Idle, [payload])
  {
    hide Content;
  }
}
