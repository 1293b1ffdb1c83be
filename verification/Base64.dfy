/** The base64 codec of mid/base64/base64.c: RFC 4648, section 4, except that the encoder drops leading
    zero bytes. */
module Base64 {
  import opened Basics

  // --- the alphabet ---

  /** `alphabet64`. */
  function Letter(v: nat): (c: char)
    requires v < 64
  {
    if v < 26 then 'A' + v as char
    else if v < 52 then 'a' + (v - 26) as char
    else if v < 62 then '0' + (v - 52) as char
    else if v == 62 then '+' else '/'
  }

  /** `map64`, with 255 for characters outside the alphabet. */
  function Sextet(c: char): nat {
    if 'A' <= c <= 'Z' then (c - 'A') as nat
    else if 'a' <= c <= 'z' then 26 + (c - 'a') as nat
    else if '0' <= c <= '9' then 52 + (c - '0') as nat
    else if c == '+' then 62
    else if c == '/' then 63
    else 255
  }

  lemma SextetOfLetter(v: nat)
    requires v < 64
    ensures Sextet(Letter(v)) == v && Letter(v) != '=' && Letter(v) != '\0'
  {
  }

  /** The alphabet of table 1 of RFC 4648: its corners, between which it runs through consecutive characters. */
  lemma Alphabet(v: nat)
    ensures Letter(0) == 'A' && Letter(25) == 'Z' && Letter(26) == 'a' && Letter(51) == 'z'
    ensures Letter(52) == '0' && Letter(61) == '9' && Letter(62) == '+' && Letter(63) == '/'
    ensures v < 61 && v != 25 && v != 51 ==> Letter(v + 1) as int == Letter(v) as int + 1
  {
  }

  /** The characters with a value are those of the alphabet. */
  lemma SextetsOfAlphabet(c: char)
    ensures Sextet(c) < 64 ==> Letter(Sextet(c)) == c
    ensures Sextet(c) < 64 || Sextet(c) == 255
  {
  }

  // --- encoding ---

  function StripZeros(b: Bytes): (r: Bytes)
    ensures |r| <= |b| && (r != [] ==> r[0] != 0)
  {
    if b == [] || b[0] != 0 then b else StripZeros(b[1..])
  }

  /** The 24-bit group of up to three bytes. */
  function Group(b: Bytes): nat
    requires 0 < |b| <= 3
  {
    0x1_0000 * b[0] as nat + (if |b| > 1 then 0x100 * b[1] as nat else 0) + (if |b| > 2 then b[2] as nat else 0)
  }

  /** The sextets of a group, most significant first. */
  function Sextets(g: nat): (v: seq<nat>)
    ensures |v| == 4 && forall i :: 0 <= i < 4 ==> v[i] < 64
  {
    [g / 0x4_0000 % 64, g / 0x1000 % 64, g / 0x40 % 64, g % 64]
  }

  function Letters(v: seq<nat>): (s: string)
    requires forall i :: 0 <= i < |v| ==> v[i] < 64
    ensures |s| == |v| && forall i :: 0 <= i < |v| ==> s[i] == Letter(v[i])
  {
    seq(|v|, i requires 0 <= i < |v| => Letter(v[i]))
  }

  function EncodeGroup(b: Bytes): (s: string)
    requires 0 < |b| <= 3
    ensures |s| == 4
  {
    Letters(Sextets(Group(b))[..|b| + 1]) + seq(3 - |b|, _ => '=')
  }

  function Encode(b: Bytes): string {
    if b == [] then [] else if |b| <= 3 then EncodeGroup(b) else EncodeGroup(b[..3]) + Encode(b[3..])
  }

  /** The test vectors of RFC 4648, section 10. */
  lemma TestVectors()
    ensures Encode([]) == "" && Encode([0x66]) == "Zg==" && Encode([0x66, 0x6F]) == "Zm8="
    ensures Encode([0x66, 0x6F, 0x6F]) == "Zm9v" && Encode([0x66, 0x6F, 0x6F, 0x62]) == "Zm9vYg=="
    ensures Encode([0x66, 0x6F, 0x6F, 0x62, 0x61]) == "Zm9vYmE="
    ensures Encode([0x66, 0x6F, 0x6F, 0x62, 0x61, 0x72]) == "Zm9vYmFy"
  {
    EncodeNothing();
    hide Encode;
    EncodeOne([0x66], "Zg==", 25, 32, 0, 0);
    EncodeOne([0x66, 0x6F], "Zm8=", 25, 38, 60, 0);
    EncodeOne([0x66, 0x6F, 0x6F], "Zm9v", 25, 38, 61, 47);
    EncodeOne([0x62], "Yg==", 24, 32, 0, 0);
    EncodeOne([0x62, 0x61], "YmE=", 24, 38, 4, 0);
    EncodeOne([0x62, 0x61, 0x72], "YmFy", 24, 38, 5, 50);
    EncodeTwo([0x66, 0x6F, 0x6F], [0x62], [0x66, 0x6F, 0x6F, 0x62], "Zm9v", "Yg==");
    assert "Zm9v" + "Yg==" == "Zm9vYg==";
    EncodeTwo([0x66, 0x6F, 0x6F], [0x62, 0x61], [0x66, 0x6F, 0x6F, 0x62, 0x61], "Zm9v", "YmE=");
    assert "Zm9v" + "YmE=" == "Zm9vYmE=";
    EncodeTwo([0x66, 0x6F, 0x6F], [0x62, 0x61, 0x72], [0x66, 0x6F, 0x6F, 0x62, 0x61, 0x72], "Zm9v", "YmFy");
    assert "Zm9v" + "YmFy" == "Zm9vYmFy";
  }

  lemma EncodeNothing()
    ensures Encode([]) == ""
  {
  }

  lemma EncodeOne(b: Bytes, s: string, v0: nat, v1: nat, v2: nat, v3: nat)
    requires 0 < |b| <= 3 && v0 < 64 && v1 < 64 && v2 < 64 && v3 < 64
    requires Group(b) == 0x4_0000 * v0 + 0x1000 * v1 + 0x40 * v2 + v3
    requires s == [Letter(v0), Letter(v1), if |b| > 1 then Letter(v2) else '=', if |b| > 2 then Letter(v3) else '=']
    ensures Encode(b) == s
  {
    hide Letter, Group, EncodeGroup;
    GroupIs(b, v0, v1, v2, v3);
  }

  lemma EncodeTwo(a: Bytes, b: Bytes, c: Bytes, s: string, t: string)
    requires |a| == 3 && 0 < |b| <= 3 && c == a + b && Encode(a) == s && Encode(b) == t
    ensures Encode(c) == s + t
  {
    hide EncodeGroup;
    assert c[..3] == a && c[3..] == b;
  }

  /** The letters of a group, from its sextets. */
  lemma GroupIs(b: Bytes, v0: nat, v1: nat, v2: nat, v3: nat)
    requires 0 < |b| <= 3 && v0 < 64 && v1 < 64 && v2 < 64 && v3 < 64
    requires Group(b) == 0x4_0000 * v0 + 0x1000 * v1 + 0x40 * v2 + v3
    ensures EncodeGroup(b) ==
      [Letter(v0), Letter(v1), if |b| > 1 then Letter(v2) else '=', if |b| > 2 then Letter(v3) else '=']
  {
    SextetsAre(Group(b), v0, v1, v2, v3);
    hide Letter, Sextets, Group;
  }

  lemma SextetsAre(g: nat, v0: nat, v1: nat, v2: nat, v3: nat)
    requires v0 < 64 && v1 < 64 && v2 < 64 && v3 < 64
    requires g == 0x4_0000 * v0 + 0x1000 * v1 + 0x40 * v2 + v3
    ensures Sextets(g) == [v0, v1, v2, v3]
  {
    var q1 := 0x1000 * v0 + 0x40 * v1 + v2;
    var q2 := 0x40 * v0 + v1;
    By64(q1, v3);
    By64(q2, v2);
    By64(v0, v1);
    By4096(q2, 0x40 * v2 + v3);
    By262144(v0, 0x1000 * v1 + 0x40 * v2 + v3);
    assert g == 0x40 * q1 + v3 && q1 == 0x40 * q2 + v2;
  }

  lemma By64(q: nat, r: nat)
    requires r < 0x40
    ensures (0x40 * q + r) / 0x40 == q && (0x40 * q + r) % 0x40 == r
  {
  }

  lemma By4096(q: nat, r: nat)
    requires r < 0x1000
    ensures (0x1000 * q + r) / 0x1000 == q
  {
  }

  lemma By262144(q: nat, r: nat)
    requires r < 0x4_0000
    ensures (0x4_0000 * q + r) / 0x4_0000 == q
  {
  }

  // --- decoding ---

  /** The characters before the first '=' or the end of the string. */
  function Usable(s: string): (u: string)
    ensures |u| <= |s|
  {
    if s == [] || s[0] == '\0' || s[0] == '=' then [] else [s[0]] + Usable(s[1..])
  }

  predicate AllLetters(s: string) {
    forall i :: 0 <= i < |s| ==> Sextet(s[i]) < 64
  }

  /** The number that up to four sextets make up, as a 24-bit group. */
  function Weighed(v: seq<nat>): nat
    requires |v| <= 4
  {
    (if |v| > 0 then 0x4_0000 * v[0] else 0) + (if |v| > 1 then 0x1000 * v[1] else 0)
    + (if |v| > 2 then 0x40 * v[2] else 0) + (if |v| > 3 then v[3] else 0)
  }

  function Values(s: string): (v: seq<nat>)
    ensures |v| == |s|
  {
    seq(|s|, i requires 0 <= i < |s| => Sextet(s[i]))
  }

  function GroupBytes(g: nat): (b: Bytes)
    ensures |b| == 3
  {
    [(g / 0x1_0000 % 256) as byte, (g / 0x100 % 256) as byte, (g % 256) as byte]
  }

  function DecodeGroup(s: string): (b: Bytes)
    requires 0 < |s| <= 4 && AllLetters(s)
    ensures |b| == |s| - 1
  {
    GroupBytes(Weighed(Values(s)))[..|s| - 1]
  }

  function Decode(s: string): Bytes
    requires AllLetters(s)
  {
    if s == [] then [] else if |s| <= 4 then DecodeGroup(s) else DecodeGroup(s[..4]) + Decode(s[4..])
  }

  // --- the round trip ---

  lemma LettersDecode(v: seq<nat>)
    requires forall i :: 0 <= i < |v| ==> v[i] < 64
    ensures AllLetters(Letters(v)) && Values(Letters(v)) == v && Usable(Letters(v)) == Letters(v)
  {
    hide Usable, Sextet, Letter;
    var s := Letters(v);
    forall i | 0 <= i < |v| ensures Sextet(s[i]) == v[i] && s[i] != '=' && s[i] != '\0' {
      SextetOfLetter(v[i]);
    }
    UsableWhole(s);
  }

  lemma SextetsWeigh(g: nat)
    requires g < 0x100_0000
    ensures var v := Sextets(g);
      g == 0x4_0000 * v[0] + 0x1000 * v[1] + 0x40 * v[2] + v[3]
  {
    var q1 := g / 64;
    var q2 := q1 / 64;
    var q3 := q2 / 64;
    assert g / 0x1000 == q2 && g / 0x4_0000 == q3;
    assert q3 < 64;
  }

  /** Three sextets are enough for two bytes, and two for one. */
  lemma ShortGroup(g: nat)
    requires g < 0x100_0000
    ensures g % 0x100 == 0 ==> Sextets(g)[3] == 0
    ensures g % 0x1_0000 == 0 ==> Sextets(g)[2] == 0 && Sextets(g)[3] == 0
  {
    hide Sextets;
    if g % 0x100 == 0 {
      LastSextet(g, g / 0x100);
    }
    if g % 0x1_0000 == 0 {
      LastSextets(g, g / 0x1_0000);
    }
  }

  lemma LastSextet(g: nat, h: nat)
    requires g == 0x100 * h
    ensures Sextets(g)[3] == 0
  {
  }

  lemma LastSextets(g: nat, h: nat)
    requires g == 0x1_0000 * h
    ensures Sextets(g)[2] == 0 && Sextets(g)[3] == 0
  {
    assert g / 0x40 == 0x400 * h;
    assert 0x400 * h == 64 * (16 * h);
    assert g == 64 * (0x400 * h);
  }

  lemma {:induction false} UsableWhole(s: string)
    requires forall i :: 0 <= i < |s| ==> s[i] != '=' && s[i] != '\0'
    ensures Usable(s) == s
  {
    if s != [] {
      UsableWhole(s[1..]);
    }
  }

  lemma {:induction false} UsableStops(s: string, rest: string)
    requires Usable(s) == s
    ensures Usable(s + rest) == s + Usable(rest)
  {
    if s == [] {
      assert s + rest == rest;
    } else {
      assert (s + rest)[1..] == s[1..] + rest;
      assert s[0] != '=' && s[0] != '\0';
      UsableStops(s[1..], rest);
    }
  }

  lemma GroupOfBytes(b: Bytes)
    requires 0 < |b| <= 3
    ensures var g := Group(b);
      && g < 0x100_0000 && GroupBytes(g)[..|b|] == b
      && (|b| <= 2 ==> g % 0x100 == 0) && (|b| == 1 ==> g % 0x1_0000 == 0)
  {
    var b0, b1, b2 := b[0] as nat, if |b| > 1 then b[1] as nat else 0, if |b| > 2 then b[2] as nat else 0;
    var h := 0x100 * b0 + b1;
    By256(h, b2);
    By256(b0, b1);
    assert Group(b) == 0x100 * h + b2;
    By65536(b0, 0x100 * b1 + b2);
    assert 0x100 * h + b2 == 0x1_0000 * b0 + (0x100 * b1 + b2);
    assert b0 % 256 == b0;
  }

  lemma By256(q: nat, r: nat)
    requires r < 256
    ensures (0x100 * q + r) / 0x100 == q && (0x100 * q + r) % 0x100 == r
  {
  }

  lemma By65536(q: nat, r: nat)
    requires r < 0x1_0000
    ensures (0x1_0000 * q + r) / 0x1_0000 == q && (0x1_0000 * q + r) % 0x1_0000 == r
  {
  }

  lemma GroupRoundTrip(b: Bytes)
    requires 0 < |b| <= 3
    ensures var s := Letters(Sextets(Group(b))[..|b| + 1]);
      AllLetters(s) && Usable(s) == s && |s| == |b| + 1 && DecodeGroup(s) == b
  {
    hide Letters, Usable, Group, GroupBytes, AllLetters, Values;
    var g, n := Group(b), |b| + 1;
    var v := Sextets(g);
    GroupOfBytes(b);
    LettersDecode(v[..n]);
    SextetsWeigh(g);
    ShortGroup(g);
    hide Sextets;
    assert Weighed(v[..n]) == g;
  }

  lemma UsablePadding(n: nat)
    ensures Usable(seq(n, _ => '=')) == []
  {
  }

  /** Decoding the encoding of any bytes gives them back. */
  lemma {:induction false} RoundTrip(b: Bytes)
    ensures var u := Usable(Encode(b)); AllLetters(u) && Decode(u) == b
    decreases |b|
  {
    hide Sextets, Letters, Group, DecodeGroup, Sextet, Usable;
    if b == [] {
      UsablePadding(0);
      assert Encode(b) == seq(0, _ => '=');
    } else if |b| <= 3 {
      GroupRoundTrip(b);
      UsablePadding(3 - |b|);
      var first := Letters(Sextets(Group(b))[..|b| + 1]);
      UsableStops(first, seq(3 - |b|, _ => '='));
      assert first + [] == first;
    } else {
      var first := Letters(Sextets(Group(b[..3]))[..4]);
      GroupRoundTrip(b[..3]);
      assert EncodeGroup(b[..3]) == first;
      UsableStops(first, Encode(b[3..]));
      RoundTrip(b[3..]);
      DecodeFirst(first, Usable(Encode(b[3..])));
    }
  }

  lemma DecodeFirst(first: string, rest: string)
    requires |first| == 4 && AllLetters(first) && AllLetters(rest)
    ensures AllLetters(first + rest) && Decode(first + rest) == DecodeGroup(first) + Decode(rest)
  {
    hide DecodeGroup;
    var s := first + rest;
    assert AllLetters(s);
    if rest == [] {
      assert s == first;
    } else {
      assert s[..4] == first && s[4..] == rest;
    }
  }

  // --- the source ---

  function Weight(j: int): nat
    requires 0 <= j <= 2
  {
    if j == 2 then 0x1_0000 else if j == 1 then 0x100 else 1
  }

  /** What `encode64` writes: the letters as far as there is room for them, then the padding, for which the
      source does not check the room. */
  function Written(b: Bytes, room: int): string {
    Taken(LettersOf(b), room) + PaddingOf(b)
  }

  function Taken(s: string, room: int): string {
    if room <= 0 then [] else if room < |s| then s[..room] else s
  }

  /** The letters of the encoding. */
  function LettersOf(b: Bytes): (s: string)
    ensures b != [] ==> s != []
  {
    if b == [] then []
    else if |b| <= 3 then Letters(Sextets(Group(b))[..|b| + 1])
    else Letters(Sextets(Group(b[..3]))) + LettersOf(b[3..])
  }

  /** The padding of the encoding. */
  function PaddingOf(b: Bytes): (s: string)
    ensures |s| <= 2
  {
    if b == [] then [] else if |b| <= 3 then seq(3 - |b|, _ => '=') else PaddingOf(b[3..])
  }

  lemma {:induction false} LettersThenPadding(b: Bytes)
    ensures Encode(b) == LettersOf(b) + PaddingOf(b)
    decreases |b|
  {
    hide Letters, Sextets, Group;
    if |b| > 3 {
      LettersThenPadding(b[3..]);
      assert Sextets(Group(b[..3]))[..4] == Sextets(Group(b[..3]));
    }
  }

  /** With room for all letters the whole encoding is written. */
  lemma WrittenWhole(b: Bytes, room: int)
    requires |LettersOf(b)| <= room
    ensures Written(b, room) == Encode(b)
  {
    LettersThenPadding(b);
  }

  /** `encode64` keeps within the first `outlen` characters of its buffer exactly if the encoding and its
      terminating NUL fit there; otherwise it writes up to three characters past them. */
  lemma StaysWithin(b: Bytes, outlen: nat)
    ensures |Written(b, outlen)| < outlen <==> |Encode(b)| < outlen
    ensures |Written(b, outlen)| < outlen + 3
  {
    LettersThenPadding(b);
    hide Encode, LettersOf, PaddingOf;
  }

  /** The first group is written, then the rest into the room that is left. */
  lemma WrittenStep(b: Bytes, room: int)
    requires |b| > 3
    ensures Written(b, room) == Written(b[..3], room) + Written(b[3..], room - |Written(b[..3], room)|)
  {
    hide *;
    PartsOfStep(b);
    var s, t := LettersOf(b[..3]), LettersOf(b[3..]);
    TakenOfTwo(s, t, room);
    var first := Taken(s, room);
    WrittenIs(b, room);
    WrittenIs(b[..3], room);
    assert first + [] == first;
    WrittenIs(b[3..], room - |first|);
    Regrouped(first, Taken(t, room - |first|), PaddingOf(b));
  }

  lemma WrittenIs(b: Bytes, room: int)
    ensures Written(b, room) == Taken(LettersOf(b), room) + PaddingOf(b)
  {
  }

  lemma Regrouped(a: string, b: string, c: string)
    ensures a + (b + c) == a + b + c
  {
  }

  lemma PartsOfStep(b: Bytes)
    requires |b| > 3
    ensures LettersOf(b) == LettersOf(b[..3]) + LettersOf(b[3..])
    ensures PaddingOf(b[..3]) == [] && PaddingOf(b) == PaddingOf(b[3..])
  {
    hide Letters, Sextets, Group;
    assert Sextets(Group(b[..3]))[..4] == Sextets(Group(b[..3]));
  }

  lemma TakenOfTwo(s: string, t: string, room: int)
    ensures Taken(s + t, room) == Taken(s, room) + Taken(t, room - |Taken(s, room)|)
  {
  }

  /** The first loop of a round of `encode64`: a group of up to three bytes. The fields that the source
      combines with a bitwise or do not overlap. */
  method ReadGroup(input: Bytes, cp: nat) returns (shiftbuf: nat, next: nat)
    requires cp < |input|
    ensures next == (if |input| - cp <= 3 then |input| else cp + 3) && shiftbuf == Group(input[cp..next])
  {
    var j := 2;
    shiftbuf, next := 0, cp;
    while j >= 0 && next < |input|
      invariant -1 <= j <= 2 && next == cp + 2 - j <= |input|
      invariant shiftbuf == if j == 2 then 0 else Group(input[cp..next])
    {
      shiftbuf := shiftbuf + input[next] as nat * Weight(j);
      GroupGrows(input[cp..next], input[next]);
      assert input[cp..next + 1] == input[cp..next] + [input[next]];
      j := j - 1;
      next := next + 1;
    }
  }

  /** The second loop: up to n letters, while there is room. */
  method WriteLetters(shiftbuf: nat, n: nat, outbuf: array<char>, op0: nat, outlen: int) returns (op: nat)
    requires n <= 4 && op0 + |Taken(Letters(Sextets(shiftbuf)[..n]), outlen - op0)| <= outbuf.Length
    modifies outbuf
    ensures op == op0 + |Taken(Letters(Sextets(shiftbuf)[..n]), outlen - op0)|
    ensures forall k :: op0 <= k < op ==> outbuf[k] == Letters(Sextets(shiftbuf)[..n])[k - op0]
    ensures forall k :: 0 <= k < outbuf.Length && (k < op0 || op <= k) ==> outbuf[k] == old(outbuf[k])
  {
    hide Letters, Letter, Sextets;
    ghost var letters := Letters(Sextets(shiftbuf)[..n]);
    var i, divisor := 4 - n, 0x4_0000;
    op := op0;
    while i < 4 && op < outlen
      invariant 4 - n <= i <= 4 && op0 <= op == op0 + i - (4 - n) && (op > op0 ==> op <= outlen)
      invariant divisor == Divisor(op - op0)
      invariant forall k :: op0 <= k < op ==> outbuf[k] == letters[k - op0]
      invariant forall k :: 0 <= k < outbuf.Length && (k < op0 || op <= k) ==> outbuf[k] == old(outbuf[k])
    {
      NextSextet(shiftbuf, op - op0);
      outbuf[op] := Letter(shiftbuf / divisor % 64);
      if divisor > 1 {
        divisor := divisor / 64;
      }
      op := op + 1;
      i := i + 1;
    }
  }

  function Divisor(k: nat): nat {
    if k == 0 then 0x4_0000 else if k == 1 then 0x1000 else if k == 2 then 0x40 else 1
  }

  lemma NextSextet(g: nat, k: nat)
    requires k < 4
    ensures g / Divisor(k) % 64 == Sextets(g)[k]
  {
  }

  /** One round of the outer loop of `encode64`. */
  method EncodeNext(input: Bytes, cp: nat, outbuf: array<char>, op0: nat, outlen: int) returns (next: nat, op: nat)
    requires cp < |input|
    requires op0 + |Written(input[cp..if |input| - cp <= 3 then |input| else cp + 3], outlen - op0)| < outbuf.Length
    modifies outbuf
    ensures next == if |input| - cp <= 3 then |input| else cp + 3
    ensures var w := Written(input[cp..next], outlen - op0);
      && op == op0 + |w| < outbuf.Length && outbuf[op] == '\0'
      && (forall k :: op0 <= k < op ==> outbuf[k] == w[k - op0])
    ensures forall k :: 0 <= k < outbuf.Length && (k < op0 || op < k) ==> outbuf[k] == old(outbuf[k])
  {
    hide Letters, Sextets, Group;
    var shiftbuf;
    shiftbuf, next := ReadGroup(input, cp);
    var n := next - cp + 1;
    op := WriteLetters(shiftbuf, n, outbuf, op0, outlen);
    ghost var first := op;
    var j := 4 - n;
    while j > 0
      invariant 0 <= j <= 4 - n && op == first + (4 - n - j)
      invariant forall k :: op0 <= k < first ==> outbuf[k] == Letters(Sextets(shiftbuf)[..n])[k - op0]
      invariant forall k :: first <= k < op ==> outbuf[k] == '='
      invariant forall k :: 0 <= k < outbuf.Length && (k < op0 || op <= k) ==> outbuf[k] == old(outbuf[k])
    {
      outbuf[op] := '=';
      op := op + 1;
      j := j - 1;
    }
    outbuf[op] := '\0';
  }

  lemma GroupGrows(b: Bytes, x: byte)
    requires |b| <= 2
    ensures Group(b + [x]) == (if b == [] then 0 else Group(b)) + x as nat * Weight(2 - |b|)
  {
  }

  /** The outer loop of `encode64`. */
  method EncodeGroups(input: Bytes, outbuf: array<char>, outlen: int)
    requires |Written(input, outlen)| < outbuf.Length && outbuf[0] == '\0'
    modifies outbuf
    ensures var w := Written(input, outlen);
      && (forall k :: 0 <= k < |w| ==> outbuf[k] == w[k]) && outbuf[|w|] == '\0'
      && forall k :: |w| < k < outbuf.Length ==> outbuf[k] == old(outbuf[k])
  {
    hide *;
    ghost var done: string, rest := [], Written(input, outlen);
    ghost var w := rest;
    var cp, op := 0, 0;
    assert input[0..] == input;
    while cp < |input|
      invariant 0 <= cp <= |input| && rest == Written(input[cp..], outlen - op)
      invariant 0 <= op == |done| && w == done + rest && op + |rest| < outbuf.Length && outbuf[op] == '\0'
      invariant forall k :: 0 <= k < op ==> outbuf[k] == done[k]
      invariant forall k :: op < k < outbuf.Length ==> outbuf[k] == old(outbuf[k])
    {
      WrittenNext(input, cp, outlen - op);
      ghost var op0, cp0 := op, cp;
      cp, op := EncodeNext(input, cp, outbuf, op, outlen);
      ghost var first := Written(input[cp0..cp], outlen - op0);
      rest := Written(input[cp..], outlen - op);
      Regrouped(done, first, rest);
      done := done + first;
    }
    WrittenNothing(outlen - op);
    assert input[cp..] == [];
    assert w == done;
  }

  /** The first loop of `encode64`. */
  method SkipZeros(inbuf: Bytes) returns (i: nat)
    ensures i <= |inbuf| && inbuf[i..] == StripZeros(inbuf)
  {
    i := 0;
    while i < |inbuf| && inbuf[i] == 0
      invariant i <= |inbuf| && StripZeros(inbuf) == StripZeros(inbuf[i..])
    {
      assert inbuf[i..][1..] == inbuf[i + 1..];
      i := i + 1;
    }
  }

  /** `encode64`: what is written stands at the start of the buffer, terminated by NUL, and the buffer must
      hold that much. */
  method Encode64(inbuf: Bytes, outbuf: array<char>, outlen: int)
    requires |Written(StripZeros(inbuf), outlen)| < outbuf.Length
    modifies outbuf
    ensures var w := Written(StripZeros(inbuf), outlen);
      outbuf[..] == w + ['\0'] + old(outbuf[|w| + 1..])
  {
    hide *;
    outbuf[0] := '\0';
    var i := SkipZeros(inbuf);
    EncodeGroups(inbuf[i..], outbuf, outlen);
  }

  lemma WrittenNothing(room: int)
    ensures Written([], room) == []
  {
  }

  lemma WrittenNext(input: Bytes, cp: nat, room: int)
    requires cp < |input|
    ensures var next := if |input| - cp <= 3 then |input| else cp + 3;
      Written(input[cp..], room) == Written(input[cp..next], room) + Written(input[next..], room - |Written(input[cp..next], room)|)
  {
    hide Written;
    var rest := input[cp..];
    if |rest| <= 3 {
      assert input[cp..|input|] == rest && input[|input|..] == [];
      WrittenNothing(room - |Written(rest, room)|);
    } else {
      assert input[cp..cp + 3] == rest[..3] && input[cp + 3..] == rest[3..];
      WrittenStep(rest, room);
    }
  }

  predicate Stop(c: char) {
    c == '\0' || c == '='
  }

  /** u is what stands before the first stop in s. */
  ghost predicate Cut(s: string, u: string) {
    && |u| <= |s|
    && (forall k :: 0 <= k < |u| ==> u[k] == s[k] && !Stop(s[k]))
    && (|u| < |s| ==> Stop(s[|u|]))
  }

  lemma {:induction false} UsableIsCut(s: string)
    ensures Cut(s, Usable(s))
  {
    if s != [] && !Stop(s[0]) {
      UsableIsCut(s[1..]);
      assert s == [s[0]] + s[1..];
    }
  }

  /** The characters that the inner loop of `decode64` reads. */
  function Chunk(u: string, cp: nat): (c: string)
    requires cp < |u|
    ensures 0 < |c| <= 4 && cp + |c| <= |u|
    ensures |c| < 4 ==> cp + |c| == |u|
    ensures forall k :: 0 <= k < |c| ==> c[k] == u[cp + k]
  {
    if |u| - cp <= 4 then u[cp..] else u[cp..cp + 4]
  }

  /** The inner loop of `decode64`: up to four characters; the result is the weighted sum of their values. */
  method Collect(s: string, cp: nat, ghost u: string) returns (ok: bool, shiftbuf: nat, i: nat)
    requires Cut(s, u) && cp < |u|
    ensures ok <==> AllLetters(Chunk(u, cp))
    ensures ok ==> i == |Chunk(u, cp)| && shiftbuf == Weighed(Values(Chunk(u, cp)))
  {
    hide Chunk, Sextet;
    ghost var chunk := Chunk(u, cp);
    shiftbuf, i := 0, 0;
    var weight := 0x4_0000;
    while i < 4 && cp + i < |s| && !Stop(s[cp + i])
      invariant i <= |chunk|
      invariant forall k :: 0 <= k < i ==> Sextet(chunk[k]) < 64
      invariant shiftbuf == Weighed(Values(chunk[..i]))
      invariant weight == if i == 0 then 0x4_0000 else if i == 1 then 0x1000 else if i == 2 then 0x40 else 1
    {
      var c := Sextet(s[cp + i]);
      assert s[cp + i] == chunk[i];
      if c == 255 {
        return false, shiftbuf, i;
      }
      SmallSextet(s[cp + i]);
      ValuesNext(chunk, i);
      shiftbuf := shiftbuf + c * weight;
      if weight > 1 {
        weight := weight / 64;
      }
      i := i + 1;
    }
    assert chunk[..i] == chunk;
    ok := true;
  }

  lemma SmallSextet(c: char)
    ensures Sextet(c) < 64 || Sextet(c) == 255
  {
  }

  lemma ValuesNext(s: string, i: nat)
    requires i < |s|
    ensures Values(s[..i + 1]) == Values(s[..i]) + [Sextet(s[i])]
  {
    hide Sextet;
  }

  /** `decode64`: it succeeds exactly if all usable characters are letters and the bytes fit, and whatever
      happens it does not write past the given length. */
  method Decode64(s: string, buflen: nat) returns (ret: int, out: Bytes)
    ensures |out| <= buflen
    ensures ret == 0 <==> AllLetters(Usable(s)) && |Decode(Usable(s))| <= buflen
    ensures ret == 0 ==> out == Decode(Usable(s))
    ensures ret == 0 || ret == -1
  {
    hide *;
    UsableIsCut(s);
    ghost var u := Usable(s);
    DecodeStart(u);
    var cp := 0;
    out := [];
    while cp < |s| && !Stop(s[cp])
      invariant 0 <= cp <= |u| && |out| <= buflen && Decoded(u, cp, out)
      decreases |s| - cp
    {
      BeforeStop(s, u, cp);
      var ok, shiftbuf, i := Collect(s, cp, u);
      if !ok {
        BadChunk(u, cp);
        return -1, out;
      }
      DecodeStep(u, cp, out);
      var group := GroupBytes(shiftbuf)[..i - 1];
      if |out| + (i - 1) > buflen {
        return -1, out;
      }
      out := out + group;
      cp := cp + i;
    }
    DecodeEnd(s, u, cp, out);
    ret := 0;
  }

  /** The first cp of the usable characters are letters, and out is what they decode to. */
  ghost predicate Decoded(u: string, cp: nat, out: Bytes) {
    && cp <= |u| && AllLetters(u[..cp])
    && (AllLetters(u) ==> AllLetters(u[cp..]) && Decode(u) == out + Decode(u[cp..]))
  }

  lemma DecodeStart(u: string)
    ensures Decoded(u, 0, [])
  {
    hide Decode, Sextet;
    assert u[0..] == u;
  }

  /** The round that meets a stop is the last. */
  lemma BeforeStop(s: string, u: string, cp: nat)
    requires Cut(s, u) && cp <= |u| && cp < |s|
    ensures cp < |u| <==> !Stop(s[cp])
  {
  }

  lemma BadChunk(u: string, cp: nat)
    requires cp < |u| && !AllLetters(Chunk(u, cp))
    ensures !AllLetters(u)
  {
    hide Sextet, Chunk;
  }

  /** One group of the decoding. */
  lemma DecodeStep(u: string, cp: nat, out: Bytes)
    requires cp < |u| && Decoded(u, cp, out) && AllLetters(Chunk(u, cp))
    ensures var c := Chunk(u, cp);
      var group := GroupBytes(Weighed(Values(c)))[..|c| - 1];
      && |group| == |c| - 1 && Decoded(u, cp + |c|, out + group)
      && (AllLetters(u) ==> |Decode(u)| >= |out + group|)
  {
    hide Decode, Sextet, AllLetters, Chunk, Values, Weighed, GroupBytes;
    var c := Chunk(u, cp);
    LettersGrow(u, cp);
    if AllLetters(u) {
      DecodeRest(u, cp);
      assert out + (DecodeGroup(c) + Decode(u[cp + |c|..])) == out + DecodeGroup(c) + Decode(u[cp + |c|..]);
    }
  }

  lemma LettersGrow(u: string, cp: nat)
    requires cp < |u| && AllLetters(u[..cp]) && AllLetters(Chunk(u, cp))
    ensures AllLetters(u[..cp + |Chunk(u, cp)|])
  {
    hide Sextet, Chunk;
    var n := cp + |Chunk(u, cp)|;
    forall k | 0 <= k < n ensures Sextet(u[..n][k]) < 64 {
      if k < cp {
        assert u[..n][k] == u[..cp][k];
      } else {
        assert u[..n][k] == Chunk(u, cp)[k - cp];
      }
    }
  }

  lemma DecodeRest(u: string, cp: nat)
    requires cp < |u| && AllLetters(u)
    ensures var c := Chunk(u, cp);
      && AllLetters(c) && AllLetters(u[cp..]) && AllLetters(u[cp + |c|..])
      && Decode(u[cp..]) == DecodeGroup(c) + Decode(u[cp + |c|..])
  {
    hide DecodeGroup, Sextet;
    var rest := u[cp..];
    if |rest| > 4 {
      assert rest[4..] == u[cp + 4..] && rest[..4] == u[cp..cp + 4];
    }
  }

  lemma DecodeEnd(s: string, u: string, cp: nat, out: Bytes)
    requires Cut(s, u) && Decoded(u, cp, out) && (cp < |s| ==> Stop(s[cp]))
    ensures AllLetters(u) && Decode(u) == out
  {
    assert u[..|u|] == u && u[|u|..] == [];
  }

  /** A string ends at its first NUL. */
  lemma {:induction false} UsableToNul(s: string, rest: string)
    ensures Usable(s + ['\0'] + rest) == Usable(s)
  {
    var t := s + ['\0'] + rest;
    if s != [] {
      assert t[1..] == s[1..] + ['\0'] + rest;
      UsableToNul(s[1..], rest);
    }
  }

  /** What the two functions promise together: decoding an encoding gives the bytes without their leading
      zeros, provided that there is room for the letters and for the bytes. */
  method EncodeThenDecode(inbuf: Bytes, outbuf: array<char>, outlen: int, buflen: nat) returns (ret: int, out: Bytes)
    requires |LettersOf(StripZeros(inbuf))| <= outlen && |Encode(StripZeros(inbuf))| < outbuf.Length
    modifies outbuf
    ensures ret == if |StripZeros(inbuf)| <= buflen then 0 else -1
    ensures ret == 0 ==> out == StripZeros(inbuf)
  {
    hide Encode, Decode, StripZeros, Usable, LettersOf;
    var b := StripZeros(inbuf);
    WrittenWhole(b, outlen);
    Encode64(inbuf, outbuf, outlen);
    UsableToNul(Encode(b), old(outbuf[|Encode(b)| + 1..]));
    RoundTrip(b);
    ret, out := Decode64(outbuf[..], buflen);
  }
}
