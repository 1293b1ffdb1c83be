/** The encoder of mid/msg/msg_parse.c over byte buffers. */
module MsgParse {
  import opened Basics
  import opened Dccp

  datatype Segment = First | Middle | Last

  // --- encoder ---

  /** The bytes s stand in the buffer from a place on. */
  ghost predicate Holds(buf: array<byte>, at: nat, s: Bytes)
    reads buf
  {
    at + |s| <= buf.Length && forall k :: at <= k < at + |s| ==> buf[k] == s[k - at]
  }

  lemma HoldsBoth(buf: array<byte>, at: nat, s: Bytes, t: Bytes)
    requires Holds(buf, at, s) && Holds(buf, at + |s|, t)
    ensures Holds(buf, at, s + t)
  {
  }

  lemma HoldsSlice(buf: array<byte>, at: nat, s: Bytes)
    requires Holds(buf, at, s)
    ensures at + |s| <= buf.Length && buf[at..at + |s|] == s
  {
  }

  /** `msg_convert`, writing dst[at..at + room]; a negative room is an empty one. */
  method Convert(src: Bytes, dst: array<byte>, at: nat, room: int) returns (ret: int)
    requires room > 0 ==> at + room <= dst.Length
    modifies dst
    ensures src == [] || |EscapeAll(src)| <= room ==> ret == |EscapeAll(src)|
    ensures src != [] && |EscapeAll(src)| > room ==> ret == -1
    ensures ret > 0 ==> Holds(dst, at, EscapeAll(src))
    ensures forall k :: 0 <= k < dst.Length && !(at <= k < at + room) ==> dst[k] == old(dst[k])
  {
    EscapeNothing();
    hide Escape, EscapeAll;
    var i, j := 0, 0;
    ghost var done: Bytes := [];
    assert src[..0] == [];
    while i < |src| && j < room
      invariant 0 <= i <= |src| && i <= j == |done| && (i == 0 ==> j == 0) && (j > 0 ==> j <= room && Holds(dst, at, done))
      invariant done == EscapeAll(src[..i])
      invariant forall k :: 0 <= k < dst.Length && !(at <= k < at + room) ==> dst[k] == old(dst[k])
    {
      EscapePrefix(src, i);
      var n := PutEscaped(src[i], dst, at + j, at + room);
      if n == -1 { return -1; }
      if j > 0 {
        HoldsBoth(dst, at, done, Escape(src[i]));
      }
      done := done + Escape(src[i]);
      i, j := i + 1, j + n;
    }
    assert src[..|src|] == src;
    if i != |src| {
      EscapePrefix(src, i);
      ret := -1;
    } else {
      ret := j;
    }
  }

  /** The three branches of the loop of `msg_convert`; -1 when the pair does not fit. */
  method PutEscaped(b: byte, dst: array<byte>, j: nat, limit: nat) returns (n: int)
    requires j < limit <= dst.Length
    modifies dst
    ensures n == if |Escape(b)| <= limit - j then |Escape(b)| else -1
    ensures n > 0 ==> Holds(dst, j, Escape(b))
    ensures forall k :: 0 <= k < dst.Length && !(j <= k < limit) ==> dst[k] == old(dst[k])
  {
    if b == MARKER {
      if j + 1 < limit {
        dst[j] := ESC;
        dst[j + 1] := 0x02;
        n := 2;
      } else {
        n := -1;
      }
    } else if b == ESC {
      if j + 1 < limit {
        dst[j] := ESC;
        dst[j + 1] := 0x01;
        n := 2;
      } else {
        n := -1;
      }
    } else {
      dst[j] := b;
      n := 1;
    }
  }

  lemma EscapeNothing()
    ensures EscapeAll([]) == []
    ensures forall b :: 1 <= |Escape(b)| <= 2
  {
  }

  lemma EscapePrefix(src: Bytes, i: nat)
    requires i < |src|
    ensures EscapeAll(src[..i + 1]) == EscapeAll(src[..i]) + Escape(src[i])
    ensures |EscapeAll(src[..i])| < |EscapeAll(src[..i + 1])| <= |EscapeAll(src)|
  {
    assert src[..i + 1][..i] == src[..i];
    EscapeAllConcat(src[..i + 1], src[i + 1..]);
    assert src[..i + 1] + src[i + 1..] == src;
  }

  /** `msg_checksum`: an empty buffer gives 0 whatever the initial value. */
  method MsgChecksum(buf: Bytes, cs: byte) returns (checksum: byte)
    ensures checksum == if buf == [] then 0 else Checksum(cs, buf)
  {
    hide Xor;
    if |buf| <= 0 { return 0; }
    checksum := cs;
    for i := 0 to |buf|
      invariant checksum == Checksum(cs, buf[..i])
    {
      assert buf[..i + 1][..i] == buf[..i];
      checksum := Xor(checksum, buf[i]);
    }
    assert buf[..|buf|] == buf;
  }

  /** The running checksum after a segment; the first segment starts from 0. */
  function SegmentChecksum(flag: Segment, imsg: Bytes, baseCs: byte): byte {
    Checksum(if flag == First then 0 else baseCs, imsg)
  }

  /** The bytes a segment contributes to the frame. */
  function SegmentBytes(flag: Segment, imsg: Bytes, baseCs: byte): Bytes {
    (if flag == First then [MARKER] else [])
    + EscapeAll(imsg)
    + (if flag == Last then Escape(SegmentChecksum(flag, imsg, baseCs)) + [MARKER] else [])
  }

  /** `msg_encode` into omsg[at..at + olen]; returns the length written and the running checksum. */
  method MsgEncode(imsg: Bytes, omsg: array<byte>, at: nat, olen: nat, flag: Segment, baseCs: byte)
    returns (ret: int, cs: byte)
    requires at + olen <= omsg.Length && (flag == First ==> olen >= 1)
    modifies omsg
    ensures ret == if |SegmentBytes(flag, imsg, baseCs)| <= olen then |SegmentBytes(flag, imsg, baseCs)| else -1
    ensures ret >= 0 ==> omsg[at..at + ret] == SegmentBytes(flag, imsg, baseCs)
    ensures ret >= 0 ==> cs == SegmentChecksum(flag, imsg, baseCs)
    ensures forall k :: 0 <= k < omsg.Length && !(at <= k < at + olen) ==> omsg[k] == old(omsg[k])
  {
    hide *;
    cs := baseCs;
    var offset, dataLen := 0, 0;
    if flag == First {
      cs := 0;
      offset := 1;
      omsg[at] := MARKER;
    }
    ghost var start := Opening(flag);
    OpeningHeld(omsg, at, flag);
    EscapeNothing();
    ChecksumNothing(cs);
    if |imsg| > 0 {
      dataLen := Convert(imsg, omsg, at + offset, olen - offset);
      if dataLen == -1 {
        SegmentTooLong(flag, imsg, baseCs);
        return -1, cs;
      }
      OpeningHeld(omsg, at, flag);
      cs := MsgChecksum(imsg, cs);
    }
    EscapeAllMarkerFree(imsg);
    FrontHeld(omsg, at, flag, imsg);
    SegmentParts(flag, imsg, baseCs);
    dataLen := dataLen + offset;
    if flag == Last {
      ret := PutLast(cs, omsg, at, dataLen, olen, start + EscapeAll(imsg));
    } else {
      ret := dataLen;
    }
    if ret >= 0 {
      HoldsSlice(omsg, at, SegmentBytes(flag, imsg, baseCs));
    }
  }

  /** The marker that opens a first segment. */
  function Opening(flag: Segment): (s: Bytes)
    ensures |s| == if flag == First then 1 else 0
  {
    if flag == First then [MARKER] else []
  }

  lemma OpeningHeld(buf: array<byte>, at: nat, flag: Segment)
    requires at <= buf.Length && (flag == First ==> at < buf.Length && buf[at] == MARKER)
    ensures Holds(buf, at, Opening(flag))
  {
  }

  lemma FrontHeld(buf: array<byte>, at: nat, flag: Segment, imsg: Bytes)
    requires Holds(buf, at, Opening(flag)) && (imsg != [] ==> Holds(buf, at + |Opening(flag)|, EscapeAll(imsg)))
    ensures Holds(buf, at, Opening(flag) + EscapeAll(imsg))
  {
    if imsg != [] {
      hide EscapeAll;
      HoldsBoth(buf, at, Opening(flag), EscapeAll(imsg));
    } else {
      assert Opening(flag) + EscapeAll(imsg) == Opening(flag);
    }
  }

  lemma SegmentParts(flag: Segment, imsg: Bytes, baseCs: byte)
    ensures var front := Opening(flag) + EscapeAll(imsg);
      SegmentBytes(flag, imsg, baseCs) ==
        if flag == Last then front + (Escape(SegmentChecksum(flag, imsg, baseCs)) + [MARKER]) else front
    ensures SegmentChecksum(flag, imsg, baseCs) == Checksum(if flag == First then 0 else baseCs, imsg)
  {
    hide EscapeAll, Escape, Checksum;
  }

  lemma SegmentTooLong(flag: Segment, imsg: Bytes, baseCs: byte)
    ensures |SegmentBytes(flag, imsg, baseCs)| >= |Opening(flag)| + |EscapeAll(imsg)|
  {
    hide EscapeAll, Escape, Checksum;
  }

  /** The trailer of a last segment: the stuffed checksum and the closing marker. */
  method PutLast(cs: byte, omsg: array<byte>, at: nat, dataLen: nat, olen: nat, ghost front: Bytes) returns (ret: int)
    requires |front| == dataLen <= olen && at + olen <= omsg.Length && Holds(omsg, at, front)
    modifies omsg
    ensures ret == if dataLen + |Escape(cs)| + 1 <= olen then dataLen + |Escape(cs)| + 1 else -1
    ensures ret >= 0 ==> Holds(omsg, at, front + (Escape(cs) + [MARKER]))
    ensures forall k :: 0 <= k < omsg.Length && !(at <= k < at + olen) ==> omsg[k] == old(omsg[k])
  {
    hide EscapeAll, Escape;
    EscapeNothing();
    EscapeAllOne(cs);
    var n := Convert([cs], omsg, at + dataLen, olen - dataLen - 1);
    if n == -1 { return -1; }
    omsg[at + dataLen + n] := MARKER;
    ret := dataLen + n + 1;
    HoldsBoth(omsg, at + dataLen, Escape(cs), [MARKER]);
    HoldsBoth(omsg, at, front, Escape(cs) + [MARKER]);
  }

  lemma ChecksumNothing(cs: byte)
    ensures Checksum(cs, []) == cs
  {
  }

  /** A message sent as a first segment, any number of middle segments and a last segment. */
  function MiddleBytes(middles: seq<Bytes>, cs: byte): Bytes {
    if middles == [] then []
    else SegmentBytes(Middle, middles[0], cs) + MiddleBytes(middles[1..], SegmentChecksum(Middle, middles[0], cs))
  }

  function Joined(parts: seq<Bytes>): Bytes {
    if parts == [] then [] else parts[0] + Joined(parts[1..])
  }

  lemma {:induction false} MiddlesAreEscaped(middles: seq<Bytes>, cs: byte)
    ensures MiddleBytes(middles, cs) == EscapeAll(Joined(middles))
    decreases |middles|
  {
    if middles == [] {
      EscapeNothing();
    } else {
      var first, rest := middles[0], middles[1..];
      hide EscapeAll, Checksum, SegmentBytes, Escape;
      MiddlesAreEscaped(rest, Checksum(cs, first));
      EscapeAllConcat(first, Joined(rest));
      MiddleIsEscaped(first, cs);
    }
  }

  lemma MiddleIsEscaped(imsg: Bytes, cs: byte)
    ensures SegmentBytes(Middle, imsg, cs) == EscapeAll(imsg)
  {
  }

  /** However a payload is cut into segments, the bytes sent are the frame of the whole payload. */
  lemma SegmentsFormFrame(first: Bytes, middles: seq<Bytes>, last: Bytes)
    ensures var payload := first + Joined(middles) + last;
      SegmentBytes(First, first, 0)
      + MiddleBytes(middles, Checksum(0, first))
      + SegmentBytes(Last, last, Checksum(0, first + Joined(middles)))
      == Frame(payload)
  {
    var middle := Joined(middles);
    var payload := first + middle + last;
    var cs := Checksum(0, payload);
    MiddlesAreEscaped(middles, Checksum(0, first));
    ChecksumConcat(0, first + middle, last);
    BodyOfParts(first, middle, last);
    OuterSegments(first, last, Checksum(0, first + middle));
    hide EscapeAll, Checksum, Escape, Body, MiddleBytes, SegmentBytes;
    Regroup([MARKER], EscapeAll(first), EscapeAll(middle), EscapeAll(last), Escape(cs), [MARKER]);
  }

  lemma OuterSegments(first: Bytes, last: Bytes, cs: byte)
    ensures SegmentBytes(First, first, 0) == [MARKER] + EscapeAll(first)
    ensures SegmentBytes(Last, last, cs) == EscapeAll(last) + (Escape(Checksum(cs, last)) + [MARKER])
  {
    hide EscapeAll, Checksum, Escape;
  }

  lemma BodyOfParts(a: Bytes, b: Bytes, c: Bytes)
    ensures Body(a + b + c) == EscapeAll(a) + EscapeAll(b) + EscapeAll(c) + Escape(Checksum(0, a + b + c))
  {
    hide EscapeAll, Checksum, Escape;
    EscapeAllConcat(a, b);
    EscapeAllConcat(a + b, c);
    EscapeAllConcat(a + b + c, [Checksum(0, a + b + c)]);
    EscapeAllOne(Checksum(0, a + b + c));
  }

  lemma Regroup(m: Bytes, a: Bytes, b: Bytes, c: Bytes, e: Bytes, m': Bytes)
    ensures (m + a) + b + (c + (e + m')) == m + (a + b + c + e) + m'
  {
  }

  /** The running checksum really is threaded as SegmentsFormFrame assumes. */
  lemma {:induction false} MiddleChecksum(middles: seq<Bytes>, cs: byte)
    ensures RunningChecksum(middles, cs) == Checksum(cs, Joined(middles))
    decreases |middles|
  {
    if middles != [] {
      MiddleChecksum(middles[1..], Checksum(cs, middles[0]));
      ChecksumConcat(cs, middles[0], Joined(middles[1..]));
    }
  }

  function RunningChecksum(middles: seq<Bytes>, cs: byte): byte
    decreases |middles|
  {
    if middles == [] then cs else RunningChecksum(middles[1..], SegmentChecksum(Middle, middles[0], cs))
  }
}
