/** DCCP framing as seen on the wire: byte stuffing, frames, and the receiver as a machine that
    reads one byte at a time and has no buffer. */
module Dccp {
  import opened Basics

  const MARKER: byte := 0x7E
  const ESC: byte := 0x7D

  // --- stuffing and checksum ---

  function Escape(b: byte): Bytes {
    if b == MARKER then [ESC, 0x02] else if b == ESC then [ESC, 0x01] else [b]
  }

  function EscapeAll(s: Bytes): Bytes {
    if s == [] then [] else EscapeAll(s[..|s| - 1]) + Escape(s[|s| - 1])
  }

  /** The bytes acc followed by s with its stuffing removed. */
  function Unescape(acc: Bytes, s: Bytes): Option<Bytes>
    decreases |s|
  {
    if s == [] then Some(acc)
    else if s[0] != ESC then Unescape(acc + [s[0]], s[1..])
    else if |s| >= 2 && s[1] == 0x01 then Unescape(acc + [ESC], s[2..])
    else if |s| >= 2 && s[1] == 0x02 then Unescape(acc + [MARKER], s[2..])
    else None
  }

  function XorBits(a: bv8, b: bv8): bv8 {
    a ^ b
  }

  function Xor(a: byte, b: byte): byte {
    XorBits(a as bv8, b as bv8) as byte
  }

  function Checksum(cs: byte, s: Bytes): byte {
    if s == [] then cs else Xor(Checksum(cs, s[..|s| - 1]), s[|s| - 1])
  }

  lemma {:induction false} ChecksumConcat(cs: byte, s: Bytes, t: Bytes)
    ensures Checksum(cs, s + t) == Checksum(Checksum(cs, s), t)
  {
    hide Xor;
    if t == [] {
      assert s + t == s;
    } else {
      ChecksumConcat(cs, s, t[..|t| - 1]);
      assert (s + t)[..|s + t| - 1] == s + t[..|t| - 1];
    }
  }

  lemma EscapeAllSnoc(s: Bytes, b: byte)
    ensures EscapeAll(s + [b]) == EscapeAll(s) + Escape(b)
  {
    hide Escape;
    assert (s + [b])[..|s|] == s;
  }

  lemma {:induction false} EscapeAllConcat(s: Bytes, t: Bytes)
    ensures EscapeAll(s + t) == EscapeAll(s) + EscapeAll(t)
    decreases |t|
  {
    hide Escape;
    if t == [] {
      assert s + t == s;
    } else {
      hide EscapeAll;
      var init, b := t[..|t| - 1], t[|t| - 1];
      assert t == init + [b] && s + t == (s + init) + [b];
      EscapeAllConcat(s, init);
      EscapeAllSnoc(s + init, b);
      EscapeAllSnoc(init, b);
      assert (EscapeAll(s) + EscapeAll(init)) + Escape(b) == EscapeAll(s) + (EscapeAll(init) + Escape(b));
    }
  }

  lemma EscapeAllOne(b: byte)
    ensures EscapeAll([b]) == Escape(b)
  {
    assert [b][..0] == [];
  }

  ghost predicate MarkerFree(s: Bytes) {
    MARKER !in s
  }

  lemma {:induction false} EscapeAllMarkerFree(s: Bytes)
    ensures MarkerFree(EscapeAll(s)) && |s| <= |EscapeAll(s)|
  {
    if s != [] {
      EscapeAllMarkerFree(s[..|s| - 1]);
    }
  }

  /** Removing the stuffing undoes it, in any context. */
  lemma {:induction false} UnescapeEscapeAll(acc: Bytes, s: Bytes, rest: Bytes)
    ensures Unescape(acc, EscapeAll(s) + rest) == Unescape(acc + s, rest)
    decreases |s|
  {
    if s == [] {
      assert EscapeAll(s) + rest == rest && acc + s == acc;
    } else {
      var init, last := s[..|s| - 1], s[|s| - 1];
      assert EscapeAll(s) + rest == EscapeAll(init) + (Escape(last) + rest);
      UnescapeEscapeAll(acc, init, Escape(last) + rest);
      UnescapeOne(acc + init, last, rest);
      assert acc + init + [last] == acc + s;
    }
  }

  lemma UnescapeOne(acc: Bytes, b: byte, rest: Bytes)
    ensures Unescape(acc, Escape(b) + rest) == Unescape(acc + [b], rest)
  {
    var s := Escape(b) + rest;
    if b == MARKER || b == ESC {
      assert s[2..] == rest;
    } else {
      assert s[1..] == rest;
    }
  }

  // --- frames ---

  /** What lies between the two markers of a frame. */
  function Body(payload: Bytes): Bytes {
    EscapeAll(payload + [Checksum(0, payload)])
  }

  function Frame(payload: Bytes): Bytes {
    [MARKER] + Body(payload) + [MARKER]
  }

  function Frames(payloads: seq<Bytes>): Bytes {
    if payloads == [] then [] else Frame(payloads[0]) + Frames(payloads[1..])
  }

  /** The payload of a body, if its stuffing is well formed and its checksum matches. */
  function Content(body: Bytes): Option<Bytes> {
    match Unescape([], body)
    case None => None
    case Some(u) =>
      if |u| >= 1 && u[|u| - 1] == Checksum(0, u[..|u| - 1]) then Some(u[..|u| - 1]) else None
  }

  lemma ContentOfBody(payload: Bytes)
    ensures Content(Body(payload)) == Some(payload) && MarkerFree(Body(payload)) && |Body(payload)| >= 1
  {
    var u := payload + [Checksum(0, payload)];
    UnescapeEscapeAll([], u, []);
    assert EscapeAll(u) + [] == EscapeAll(u) && [] + u == u;
    assert u[..|u| - 1] == payload;
    EscapeAllMarkerFree(u);
  }

  // --- the receiver, one byte at a time ---

  /** Idle outside frames; Pending holds the bytes since the last marker. */
  datatype Receiver = Idle | Pending(body: Bytes)

  datatype Result = Result(state: Receiver, delivered: seq<Bytes>)

  function Step(state: Receiver, b: byte): Result {
    match state
    case Idle => Result(if b == MARKER then Pending([]) else Idle, [])
    case Pending(body) =>
      if b != MARKER then Result(Pending(body + [b]), [])
      else match Content(body)
        case Some(payload) => Result(Idle, [payload])
        case None => Result(Pending([]), [])
  }

  function Run(state: Receiver, s: Bytes): Result {
    if s == [] then Result(state, [])
    else
      var before := Run(state, s[..|s| - 1]);
      var last := Step(before.state, s[|s| - 1]);
      Result(last.state, before.delivered + last.delivered)
  }

  lemma RunSnoc(state: Receiver, s: Bytes, b: byte)
    ensures var before := Run(state, s); var last := Step(before.state, b);
      Run(state, s + [b]) == Result(last.state, before.delivered + last.delivered)
  {
    hide Step;
    assert (s + [b])[..|s|] == s;
  }

  lemma {:induction false} RunConcat(state: Receiver, s: Bytes, t: Bytes)
    ensures Run(state, s + t).state == Run(Run(state, s).state, t).state
    ensures Run(state, s + t).delivered == Run(state, s).delivered + Run(Run(state, s).state, t).delivered
    decreases |t|
  {
    hide Step;
    if t == [] {
      assert s + t == s;
    } else {
      hide Run;
      var init, b := t[..|t| - 1], t[|t| - 1];
      assert t == init + [b] && s + t == (s + init) + [b];
      RunConcat(state, s, init);
      RunSnoc(state, s + init, b);
      RunSnoc(Run(state, s).state, init, b);
    }
  }

  lemma {:induction false} RunMarkerFree(state: Receiver, s: Bytes)
    requires MarkerFree(s)
    ensures Run(state, s) == Result(if state.Idle? then Idle else Pending(state.body + s), [])
  {
    if s == [] {
      if state.Pending? { assert state.body + s == state.body; }
    } else {
      var init := s[..|s| - 1];
      RunMarkerFree(state, init);
      if state.Pending? { assert state.body + init + [s[|s| - 1]] == state.body + s; }
    }
  }

  lemma RunOne(state: Receiver, b: byte)
    ensures Run(state, [b]) == Step(state, b)
  {
    assert [b][..0] == [];
  }

  /** A frame met outside a frame, or right after a stray marker, is delivered. */
  lemma RunFrame(state: Receiver, payload: Bytes)
    requires state == Idle || (state.Pending? && Content(state.body) == None)
    ensures Run(state, Frame(payload)) == Result(Idle, [payload])
  {
    var body := Body(payload);
    ContentOfBody(payload);
    RunOne(state, MARKER);
    RunConcat(state, [MARKER], body);
    RunMarkerFree(Pending([]), body);
    assert [] + body == body;
    RunConcat(state, [MARKER] + body, [MARKER]);
    RunOne(Pending(body), MARKER);
  }

  /** A frame met while the pending bytes happen to form a valid frame is swallowed: its first
      marker closes those bytes, and its last marker opens an empty frame. */
  lemma RunFrameAfterChance(state: Receiver, payload: Bytes)
    requires state.Pending? && Content(state.body).Some?
    ensures Run(state, Frame(payload)) == Result(Pending([]), [Content(state.body).value])
  {
    var body := Body(payload);
    ContentOfBody(payload);
    RunOne(state, MARKER);
    RunConcat(state, [MARKER], body);
    RunMarkerFree(Idle, body);
    RunConcat(state, [MARKER] + body, [MARKER]);
    RunOne(Idle, MARKER);
  }

  lemma EmptyBodyInvalid()
    ensures Content([]) == None
  {
  }

  lemma {:induction false} RunFrames(state: Receiver, payloads: seq<Bytes>)
    requires state == Idle || (state.Pending? && Content(state.body) == None)
    ensures Run(state, Frames(payloads)).delivered == payloads
    ensures Run(state, Frames(payloads)).state == if payloads == [] then state else Idle
    decreases |payloads|
  {
    hide Frame, Content, Step;
    if payloads != [] {
      hide Run;
      RunFrame(state, payloads[0]);
      RunFrames(Idle, payloads[1..]);
      RunConcat(state, Frame(payloads[0]), Frames(payloads[1..]));
      assert [payloads[0]] + payloads[1..] == payloads;
    }
  }

  /** Whether the next frame is lost: exactly when the bytes since the last marker pass as a frame. */
  ghost predicate LosesNext(state: Receiver) {
    state.Pending? && Content(state.body).Some?
  }

  /** Resynchronisation, from any state left behind by garbage: every frame is delivered, or the
      pending garbage is delivered in place of the first frame and every later frame is delivered. */
  lemma Resynchronise(state: Receiver, payloads: seq<Bytes>)
    ensures Run(state, Frames(payloads)).delivered ==
      if payloads != [] && LosesNext(state) then [Content(state.body).value] + payloads[1..] else payloads
  {
    if payloads != [] && LosesNext(state) {
      RunFrameAfterChance(state, payloads[0]);
      EmptyBodyInvalid();
      RunFrames(Pending([]), payloads[1..]);
      RunConcat(state, Frame(payloads[0]), Frames(payloads[1..]));
    } else if payloads != [] {
      RunFrames(state, payloads);
    }
  }
}
