/** The receiver behind a buffer of limited size that is filled chunk by chunk: after each chunk an
    unfinished frame that has grown too long is dropped. */
module DccpSession {
  import opened Basics
  import opened Dccp

  /** The unfinished frame, with its marker, stays below the limit of the source. */
  predicate Room(state: Receiver, size: int) {
    state.Idle? || |state.body| + 1 < size - 16
  }

  function Settle(state: Receiver, size: int): Receiver {
    if Room(state, size) then state else Idle
  }

  function ReceiveChunk(state: Receiver, chunk: Bytes, size: int): Result {
    var r := Run(state, chunk);
    Result(Settle(r.state, size), r.delivered)
  }

  function Session(state: Receiver, chunks: seq<Bytes>, size: int): Result
    decreases |chunks|
  {
    if chunks == [] then Result(state, [])
    else
      var first := ReceiveChunk(state, chunks[0], size);
      var rest := Session(first.state, chunks[1..], size);
      Result(rest.state, first.delivered + rest.delivered)
  }

  function Concat(chunks: seq<Bytes>): Bytes {
    if chunks == [] then [] else chunks[0] + Concat(chunks[1..])
  }

  /** No cut of s would find an unfinished frame over the limit. */
  ghost predicate WithinLimit(state: Receiver, s: Bytes, size: int) {
    forall k: nat :: k <= |s| ==> Room(Run(state, s[..k]).state, size)
  }

  lemma WithinLimitSplit(state: Receiver, s: Bytes, t: Bytes, size: int)
    ensures WithinLimit(state, s + t, size)
       <==> WithinLimit(state, s, size) && WithinLimit(Run(state, s).state, t, size)
  {
    hide Run, Room;
    forall k: nat | k <= |s| ensures (s + t)[..k] == s[..k] { }
    forall k: nat | k <= |t|
      ensures Run(state, (s + t)[..|s| + k]).state == Run(Run(state, s).state, t[..k]).state
    {
      RunConcat(state, s, t[..k]);
      assert (s + t)[..|s| + k] == s + t[..k];
    }
    if WithinLimit(state, s, size) && WithinLimit(Run(state, s).state, t, size) {
      forall k: nat | k <= |s + t| ensures Room(Run(state, (s + t)[..k]).state, size) {
        if k > |s| {
          var j: nat := k - |s|;
          assert (s + t)[..k] == (s + t)[..|s| + j];
          assert Room(Run(Run(state, s).state, t[..j]).state, size);
        } else {
          assert Room(Run(state, s[..k]).state, size);
        }
      }
    }
    if WithinLimit(state, s + t, size) {
      forall k: nat | k <= |s| ensures Room(Run(state, s[..k]).state, size) {
        assert (s + t)[..k] == s[..k];
      }
      forall k: nat | k <= |t| ensures Room(Run(Run(state, s).state, t[..k]).state, size) {
        assert Room(Run(state, (s + t)[..|s| + k]).state, size);
      }
    }
  }

  /** How the stream is cut into chunks does not matter while it stays within the limit. */
  lemma {:induction false} ChunkingIrrelevant(state: Receiver, chunks: seq<Bytes>, size: int)
    requires WithinLimit(state, Concat(chunks), size)
    ensures Session(state, chunks, size) == Run(state, Concat(chunks))
    decreases |chunks|
  {
    hide Run, Room, WithinLimit;
    if chunks == [] {
      RunNothing(state);
    } else {
      var first, rest := chunks[0], Concat(chunks[1..]);
      WithinLimitSplit(state, first, rest, size);
      WithinLimitEnd(state, first, size);
      ChunkingIrrelevant(Run(state, first).state, chunks[1..], size);
      RunConcat(state, first, rest);
    }
  }

  lemma RunNothing(state: Receiver)
    ensures Run(state, []) == Result(state, [])
  {
  }

  lemma WithinLimitEnd(state: Receiver, s: Bytes, size: int)
    requires WithinLimit(state, s, size)
    ensures Room(state, size) && Room(Run(state, s).state, size)
  {
    assert s[..|s|] == s && s[..0] == [];
  }

  lemma FrameWithinLimit(state: Receiver, payload: Bytes, size: int)
    requires Room(state, size) && |Frame(payload)| <= size - 16
    ensures WithinLimit(state, Frame(payload), size)
  {
    var frame, body := Frame(payload), Body(payload);
    ContentOfBody(payload);
    RunOne(state, MARKER);
    var entered := Step(state, MARKER).state;
    hide Body, Content;
    forall k: nat | k <= |frame| ensures Room(Run(state, frame[..k]).state, size) {
      if k == 0 {
        assert frame[..0] == [];
      } else if k < |frame| {
        assert frame[..k] == [MARKER] + body[..k - 1];
        RunConcat(state, [MARKER], body[..k - 1]);
        RunMarkerFree(entered, body[..k - 1]);
      } else {
        assert frame[..k] == ([MARKER] + body) + [MARKER];
        RunConcat(state, [MARKER], body);
        RunMarkerFree(entered, body);
        RunConcat(state, [MARKER] + body, [MARKER]);
        RunOne(Run(entered, body).state, MARKER);
      }
    }
  }

  ghost predicate AllShort(payloads: seq<Bytes>, size: int) {
    forall i :: 0 <= i < |payloads| ==> |Frame(payloads[i])| <= size - 16
  }

  lemma {:induction false} FramesWithinLimit(state: Receiver, payloads: seq<Bytes>, size: int)
    requires Room(state, size) && AllShort(payloads, size)
    ensures WithinLimit(state, Frames(payloads), size)
    decreases |payloads|
  {
    hide Frame, Room;
    if payloads == [] {
      NothingWithinLimit(state, size);
    } else {
      hide Run, WithinLimit;
      var first := Frame(payloads[0]);
      FrameWithinLimit(state, payloads[0], size);
      WithinLimitEnd(state, first, size);
      FramesWithinLimit(Run(state, first).state, payloads[1..], size);
      WithinLimitSplit(state, first, Frames(payloads[1..]), size);
    }
  }

  lemma NothingWithinLimit(state: Receiver, size: int)
    requires Room(state, size)
    ensures WithinLimit(state, [], size)
  {
    RunNothing(state);
  }

  /** Frames of at most size - 16 bytes each, cut into chunks in any way, are delivered exactly once,
      in order and unchanged. */
  lemma DeliveredExactlyOnce(payloads: seq<Bytes>, chunks: seq<Bytes>, size: int)
    requires Concat(chunks) == Frames(payloads) && AllShort(payloads, size)
    ensures Session(Idle, chunks, size) == Result(Idle, payloads)
  {
    FramesWithinLimit(Idle, payloads, size);
    ChunkingIrrelevant(Idle, chunks, size);
    RunFrames(Idle, payloads);
    if payloads == [] { RunNothing(Idle); }
  }

  // --- the limit is exact ---

  /** Each chunk fits behind what is kept of the ones before it, as the caller's `recv` ensures. */
  ghost predicate Fits(state: Receiver, chunks: seq<Bytes>, size: int)
    decreases |chunks|
  {
    chunks != [] ==>
      && (if state.Idle? then 0 else |state.body| + 1) + |chunks[0]| <= size
      && Fits(ReceiveChunk(state, chunks[0], size).state, chunks[1..], size)
  }

  /** The bytes of s one by one, and then more chunks. */
  function OneByOne(s: Bytes, more: seq<Bytes>): seq<Bytes> {
    if s == [] then more else [[s[0]]] + OneByOne(s[1..], more)
  }

  lemma {:induction false} OneByOneConcat(s: Bytes, more: seq<Bytes>)
    ensures Concat(OneByOne(s, more)) == s + Concat(more)
    decreases |s|
  {
    if s == [] {
      assert s + Concat(more) == Concat(more);
    } else {
      OneByOneConcat(s[1..], more);
      ConcatFirst([s[0]], OneByOne(s[1..], more));
      hide Concat;
      assert s + Concat(more) == [s[0]] + (s[1..] + Concat(more));
    }
  }

  lemma ConcatFirst(chunk: Bytes, more: seq<Bytes>)
    ensures Concat([chunk] + more) == chunk + Concat(more)
  {
    assert ([chunk] + more)[1..] == more;
  }

  /** An idle receiver passes over bytes that are no markers. */
  lemma {:induction false} IdleSkips(s: Bytes, more: seq<Bytes>, size: int)
    requires MarkerFree(s) && size > 0
    ensures Session(Idle, OneByOne(s, more), size) == Session(Idle, more, size)
    ensures Fits(Idle, more, size) ==> Fits(Idle, OneByOne(s, more), size)
    decreases |s|
  {
    hide Session, Fits;
    if s != [] {
      IdleSkips(s[1..], more, size);
      RunOne(Idle, s[0]);
      hide Run;
      FirstChunk([s[0]], OneByOne(s[1..], more), size);
    }
  }

  /** As much of a long frame as the buffer takes, its other bytes one by one, and its closing marker last. */
  function FatalCut(body: Bytes, size: int): seq<Bytes>
    requires size > 0
  {
    var k := if size <= |body| then size - 1 else |body|;
    [[MARKER] + body[..k]] + OneByOne(body[k..], [[MARKER]])
  }

  /** The start of the frame is dropped as too long, and without it the rest means nothing. */
  lemma CutLost(body: Bytes, size: int)
    requires MarkerFree(body) && size > 0 && |body| + 2 > size - 16
    ensures var chunks := FatalCut(body, size);
      && Concat(chunks) == [MARKER] + body + [MARKER]
      && Fits(Idle, chunks, size) && Session(Idle, chunks, size).delivered == []
  {
    hide Fits, Session, Concat, ReceiveChunk, OneByOne;
    var k := if size <= |body| then size - 1 else |body|;
    LostInParts(body[..k], body[k..], size);
    assert [MARKER] + body[..k] + body[k..] + [MARKER] == [MARKER] + body + [MARKER];
  }

  lemma LostInParts(start: Bytes, rest: Bytes, size: int)
    requires MarkerFree(start) && MarkerFree(rest) && size - 16 <= |start| + 1 <= size && size > 0
    ensures var chunks := [[MARKER] + start] + OneByOne(rest, [[MARKER]]);
      && Concat(chunks) == [MARKER] + start + rest + [MARKER]
      && Fits(Idle, chunks, size) && Session(Idle, chunks, size).delivered == []
  {
    hide Fits, Session, Concat, ReceiveChunk, OneByOne;
    FirstPartDropped(start, size);
    IdleSkips(rest, [[MARKER]], size);
    OneByOneConcat(rest, [[MARKER]]);
    MarkerAlone([MARKER], size);
    FirstChunk([MARKER] + start, OneByOne(rest, [[MARKER]]), size);
    ConcatFirst([MARKER] + start, OneByOne(rest, [[MARKER]]));
  }

  lemma FirstPartDropped(body: Bytes, size: int)
    requires MarkerFree(body) && |body| + 1 >= size - 16
    ensures ReceiveChunk(Idle, [MARKER] + body, size) == Result(Idle, [])
  {
    RunOne(Idle, MARKER);
    RunConcat(Idle, [MARKER], body);
    RunMarkerFree(Pending([]), body);
    assert [] + body == body;
  }

  lemma MarkerAlone(s: Bytes, size: int)
    requires s == [MARKER] && size > 0
    ensures Session(Idle, [s], size).delivered == [] && Fits(Idle, [s], size) && Concat([s]) == s
  {
    RunOne(Idle, MARKER);
    hide Run;
    assert [s][1..] == [];
  }

  lemma FirstChunk(chunk: Bytes, more: seq<Bytes>, size: int)
    requires |chunk| <= size && ReceiveChunk(Idle, chunk, size) == Result(Idle, [])
    ensures Session(Idle, [chunk] + more, size) == Session(Idle, more, size)
    ensures Fits(Idle, more, size) ==> Fits(Idle, [chunk] + more, size)
  {
    hide ReceiveChunk;
    assert ([chunk] + more)[1..] == more;
  }

  /** A frame survives being received in these chunks, if the buffer can take them. */
  ghost predicate Survives(payload: Bytes, chunks: seq<Bytes>, size: int) {
    Concat(chunks) == Frame(payload) && Fits(Idle, chunks, size) ==> Session(Idle, chunks, size).delivered == [payload]
  }

  lemma LongFrameLost(payload: Bytes, size: int)
    requires |Frame(payload)| > size - 16 && size > 0
    ensures !Survives(payload, FatalCut(Body(payload), size), size)
  {
    ContentOfBody(payload);
    hide Body, Content, Fits, Session, Concat, FatalCut;
    CutLost(Body(payload), size);
  }

  lemma ShortFrameSurvives(payload: Bytes, chunks: seq<Bytes>, size: int)
    requires |Frame(payload)| <= size - 16
    ensures Survives(payload, chunks, size)
  {
    hide Frame, Session, Concat, Fits;
    if Concat(chunks) == Frame(payload) {
      assert [payload][1..] == [];
      assert Frames([payload]) == Frame(payload) + [];
      DeliveredExactlyOnce([payload], chunks, size);
    }
  }

  /** A single frame survives every way of cutting it that a buffer can take exactly if it has at most
      size - 16 bytes. */
  lemma FrameLimitExact(payload: Bytes, size: int)
    requires size > 0
    ensures |Frame(payload)| <= size - 16 <==> forall chunks :: Survives(payload, chunks, size)
  {
    if |Frame(payload)| <= size - 16 {
      hide Survives, Frame;
      forall chunks ensures Survives(payload, chunks, size) {
        ShortFrameSurvives(payload, chunks, size);
      }
    } else {
      hide Survives, Frame, FatalCut, Body;
      LongFrameLost(payload, size);
    }
  }

  /** After any garbage that stays within the limit, whatever the chunks: at most the first frame is
      lost, and that exactly when the bytes after the last marker of the garbage pass the checksum. */
  lemma DeliveredAfterGarbage(garbage: Bytes, payloads: seq<Bytes>, chunks: seq<Bytes>, size: int)
    requires Concat(chunks) == garbage + Frames(payloads)
    requires WithinLimit(Idle, garbage, size) && AllShort(payloads, size)
    ensures var g := Run(Idle, garbage);
      Session(Idle, chunks, size).delivered == g.delivered +
        if payloads != [] && LosesNext(g.state) then [Content(g.state.body).value] + payloads[1..] else payloads
  {
    hide Run, Room, WithinLimit, Frames, Content;
    var g := Run(Idle, garbage);
    WithinLimitEnd(Idle, garbage, size);
    FramesWithinLimit(g.state, payloads, size);
    WithinLimitSplit(Idle, garbage, Frames(payloads), size);
    ChunkingIrrelevant(Idle, chunks, size);
    RunConcat(Idle, garbage, Frames(payloads));
    Resynchronise(g.state, payloads);
  }
}
