/** The record that the reliable data store of mid/rds/rds.c keeps in a file: a version, the length of
    the data, the data, and an MD5 digest of all of these. */
module RdsRecord {
  import opened Basics
  import opened WordArith
  import opened Md5Spec

  datatype File = Absent | File(content: Bytes)

  datatype Error = InvalidPara | FileNotExist | InvalidFile

  datatype Result = Ok(version: Bytes, data: Bytes) | Err(error: Error)

  const HEADER := 36
  const DIGEST := 16

  /** The file system reports sizes as C ints. */
  const MAX_SIZE := 0x8000_0000

  function Header(version: Bytes, len: word): (h: Bytes)
    requires |version| == 32
    ensures |h| == HEADER
  {
    version + LittleBytes(len)
  }

  predicate Storable(version: Bytes, data: Bytes) {
    |version| == 32 && 0 < |data| && HEADER + DIGEST + |data| < MAX_SIZE
  }

  /** What a completed `rds_write` leaves in the file. */
  ghost function Record(version: Bytes, data: Bytes): (r: Bytes)
    requires Storable(version, data)
    ensures |r| == HEADER + DIGEST + |data|
  {
    var body := Header(version, |data| as word) + data;
    body + Digest(body)
  }

  /** The version that a reader is given: the text before the first NUL, of at most 31 characters. */
  function VersionText(version: Bytes): Bytes
    requires |version| == 32
  {
    Text(version[..31])
  }

  function Text(s: Bytes): Bytes {
    if s == [] || s[0] == 0 then [] else [s[0]] + Text(s[1..])
  }

  lemma {:induction false} TextIs(s: Bytes)
    ensures var t := Text(s); t <= s && 0 !in t && (|t| == |s| || s[|t|] == 0)
  {
    if s != [] && s[0] != 0 {
      TextIs(s[1..]);
      assert s == [s[0]] + s[1..];
    }
  }

  /** It is a C string: what stands before the first NUL, or 31 bytes if there is none before. */
  lemma VersionTextIs(version: Bytes)
    requires |version| == 32
    ensures var t := VersionText(version);
      |t| <= 31 && t <= version && 0 !in t && (|t| == 31 || version[|t|] == 0)
  {
    TextIs(version[..31]);
  }

  /** Two version fields compare unequal exactly if they differ in a byte before which they agree and
      neither has ended. */
  lemma VersionsDiffer(v: Bytes, w: Bytes)
    requires |v| == |w| == 32
    ensures VersionText(v) != VersionText(w) <==>
      exists k :: 0 <= k < 31 && v[k] != w[k] && v[..k] == w[..k] && 0 !in v[..k]
  {
    hide VersionText;
    VersionTextIs(v);
    VersionTextIs(w);
    var t, u := VersionText(v), VersionText(w);
    if t != u {
      var k := FirstDifference(v, w, t, u);
      assert v[..k] == w[..k];
    }
    if k :| 0 <= k < 31 && v[k] != w[k] && v[..k] == w[..k] && 0 !in v[..k] {
      TextsDiffer(v, w, t, u, k);
    }
  }

  lemma FirstDifference(v: Bytes, w: Bytes, t: Bytes, u: Bytes) returns (k: nat)
    requires |v| == |w| == 32 && t != u && |t| <= 31 && |u| <= 31
    requires t <= v && 0 !in t && (|t| == 31 || v[|t|] == 0)
    requires u <= w && 0 !in u && (|u| == 31 || w[|u|] == 0)
    ensures k < 31 && v[k] != w[k] && (forall j :: 0 <= j < k ==> v[j] == w[j]) && 0 !in v[..k]
  {
    k := 0;
    while k < |t| && k < |u| && t[k] == u[k]
      invariant k <= |t| && k <= |u| && forall j :: 0 <= j < k ==> t[j] == u[j]
    {
      k := k + 1;
    }
    assert v[..k] == t[..k];
    if k == |t| && k == |u| {
      assert false;
    } else if k == |t| {
      assert w[k] == u[k] && u[k] in u;
    } else if k == |u| {
      assert v[k] == t[k] && t[k] in t;
    }
  }

  lemma TextsDiffer(v: Bytes, w: Bytes, t: Bytes, u: Bytes, k: nat)
    requires |v| == |w| == 32 && k < 31 && v[k] != w[k] && v[..k] == w[..k] && 0 !in v[..k]
    requires |t| <= 31 && t <= v && 0 !in t && (|t| == 31 || v[|t|] == 0)
    requires |u| <= 31 && u <= w && 0 !in u && (|u| == 31 || w[|u|] == 0)
    ensures t != u
  {
    assert forall j :: 0 <= j < k ==> v[..k][j] == v[j] != 0 && w[..k][j] == w[j];
    assert |t| >= k && |u| >= k;
    if |t| > k && |u| > k {
      assert t[k] == v[k] && u[k] == w[k];
    }
  }

  function LenField(content: Bytes): word
    requires |content| >= HEADER
  {
    LittleWord(content[32..36])
  }

  /** `rds_read`, for a buffer of the given capacity. */
  ghost function Read(file: File, capacity: nat): Result
    requires file.File? ==> |file.content| < MAX_SIZE
  {
    if file.Absent? then Err(FileNotExist)
    else
      var c := file.content;
      if |c| <= HEADER + DIGEST then Err(InvalidFile)
      else if |c| != HEADER + DIGEST + LenField(c) as int then Err(InvalidFile)
      else if capacity < |c| - HEADER - DIGEST then Err(InvalidPara)
      else if Digest(c[..|c| - DIGEST]) != c[|c| - DIGEST..] then Err(InvalidFile)
      else Ok(VersionText(c[..32]), c[HEADER..|c| - DIGEST])
  }

  lemma RecordFields(version: Bytes, data: Bytes)
    requires Storable(version, data)
    ensures var r := Record(version, data);
            && r[..32] == version && LenField(r) == |data| as word
            && r[HEADER..HEADER + |data|] == data
            && Digest(r[..|r| - DIGEST]) == r[|r| - DIGEST..]
  {
    hide Digest, LittleBytes;
    var r, body := Record(version, data), Header(version, |data| as word) + data;
    WordOfBytes(|data| as word);
    assert r[32..36] == LittleBytes(|data| as word);
    assert r[..|r| - DIGEST] == body;
  }

  /** Where everything stands in the file: the version, the length in four bytes, least significant first, the
      data, and the digest of all before it. */
  lemma RecordLayout(version: Bytes, data: Bytes)
    requires Storable(version, data)
    ensures var r, n := Record(version, data), |data|;
      && |r| == 52 + n && r[..32] == version && r[36..36 + n] == data && r[36 + n..] == Digest(r[..36 + n])
      && r[32] as nat + 0x100 * r[33] as nat + 0x1_0000 * r[34] as nat + 0x100_0000 * r[35] as nat == n
  {
    hide Digest;
    RecordFields(version, data);
  }

  /** A completed record reads back as the data it was made from. */
  lemma ReadRecord(version: Bytes, data: Bytes, capacity: nat)
    requires Storable(version, data)
    ensures Read(File(Record(version, data)), capacity) ==
      if |data| <= capacity then Ok(VersionText(version), data) else Err(InvalidPara)
  {
    hide Digest, Record, LenField, VersionText;
    RecordFields(version, data);
  }

  /** Nothing but a completed record is ever accepted: with room enough, reading succeeds exactly on records. */
  lemma AcceptsExactlyRecords(content: Bytes, text: Bytes, data: Bytes, capacity: nat)
    requires |content| < MAX_SIZE
    ensures Read(File(content), capacity) == Ok(text, data)
       <==> |data| <= capacity && exists v :: Storable(v, data) && VersionText(v) == text && content == Record(v, data)
  {
    hide Digest, Record, LenField, VersionText;
    if Read(File(content), capacity) == Ok(text, data) {
      AcceptedIsRecord(content, data);
      assert Storable(content[..32], data);
    }
    if v :| Storable(v, data) && VersionText(v) == text && content == Record(v, data) {
      ReadRecord(v, data, capacity);
    }
  }

  lemma AcceptedIsRecord(content: Bytes, data: Bytes)
    requires HEADER + DIGEST < |content| < MAX_SIZE
    requires |content| == HEADER + DIGEST + LenField(content) as int
    requires Digest(content[..|content| - DIGEST]) == content[|content| - DIGEST..]
    requires data == content[HEADER..|content| - DIGEST]
    ensures Storable(content[..32], data) && content == Record(content[..32], data)
  {
    hide Digest, LittleWord, LittleBytes;
    var v := content[..32];
    BytesOfWord(content[32..36]);
    assert |data| as word == LenField(content);
    assert Header(v, LenField(content)) == content[..36];
    assert content[..36] + data == content[..|content| - DIGEST];
  }

  lemma BytesOfWord(b: Bytes)
    requires |b| == 4
    ensures LittleBytes(LittleWord(b)) == b
  {
    var w := LittleWord(b) as int;
    var b0, b1, b2, b3 := b[0] as int, b[1] as int, b[2] as int, b[3] as int;
    DigitsOf(b0, b1, b2, b3);
    assert w == b0 + 0x100 * (b1 + 0x100 * (b2 + 0x100 * b3));
  }

  lemma DigitsOf(b0: nat, b1: nat, b2: nat, b3: nat)
    requires b0 < 0x100 && b1 < 0x100 && b2 < 0x100 && b3 < 0x100
    ensures var w := b0 + 0x100 * (b1 + 0x100 * (b2 + 0x100 * b3));
      w % 0x100 == b0 && w / 0x100 % 0x100 == b1 && w / 0x1_0000 % 0x100 == b2 && w / 0x100_0000 == b3
  {
  }

  /** A file that was cut short by an interruption is rejected by its size, before any digest is computed. */
  lemma PrefixRejected(version: Bytes, data: Bytes, n: nat, capacity: nat)
    requires Storable(version, data) && n < |Record(version, data)|
    ensures Read(File(Record(version, data)[..n]), capacity) == Err(InvalidFile)
  {
    hide Digest, Record;
    var r := Record(version, data);
    RecordFields(version, data);
    if n > HEADER + DIGEST {
      assert r[..n][32..36] == r[32..36];
    }
  }
}
