/** The reliable data store of mid/rds/rds.c on top of mid/file/file.c. An entry with backup has two
    files. An update replaces the master by writing a new file and renaming it, then copies it over
    the backup in place; a read falls back to the backup and repairs the master from it.

    Power may fail at any file operation: `power` is the number of operations the device still gets
    to carry out, and an operation started without power has no effect. While `faults` is set, write
    errors may come at any time as well. */
module Rds {
  import opened Basics
  import opened WordArith
  import opened BlockChain
  import opened Md5Spec
  import opened RdsRecord
  import Md5

  ghost predicate Sized(f: File) {
    f.File? ==> |f.content| < MAX_SIZE
  }

  ghost predicate ValidFile(f: File) {
    Sized(f) && Read(f, MAX_SIZE).Ok?
  }

  /** A file that holds one of the values, or that no reader accepts. */
  ghost predicate Good(f: File, values: set<Bytes>) {
    Sized(f) && (Read(f, MAX_SIZE).Ok? ==> Read(f, MAX_SIZE).data in values)
  }

  /** At least one copy is readable, and whatever is readable is one of the values. */
  ghost predicate Safe(master: File, backup: File, values: set<Bytes>) {
    Good(master, values) && Good(backup, values) && (ValidFile(master) || ValidFile(backup))
  }

  lemma RecordIsGood(version: Bytes, data: Bytes, values: set<Bytes>)
    requires Storable(version, data) && data in values
    ensures ValidFile(File(Record(version, data))) && Good(File(Record(version, data)), values)
  {
    hide Read, Record;
    ReadRecord(version, data, MAX_SIZE);
  }

  lemma CapacityOnly(f: File, capacity: nat)
    requires Sized(f)
    ensures ValidFile(f) ==>
      (Read(f, capacity) == if |Read(f, MAX_SIZE).data| <= capacity then Read(f, MAX_SIZE) else Err(InvalidPara))
    ensures !ValidFile(f) ==> Read(f, capacity).Err?
    ensures Read(f, capacity).Ok? ==> f.File?
  {
    hide Digest, VersionText;
  }

  /** A part of a readable file is readable only when it is all of it. */
  lemma PartialCopy(f: File, n: nat)
    requires ValidFile(f) && f.File? && n <= |f.content|
    ensures n == |f.content| || Read(File(f.content[..n]), MAX_SIZE).Err?
    ensures f.content[..|f.content|] == f.content
  {
    hide Read, Record;
    var r := Read(f, MAX_SIZE);
    AcceptsExactlyRecords(f.content, r.version, r.data, MAX_SIZE);
    var v :| Storable(v, r.data) && VersionText(v) == r.version && f.content == Record(v, r.data);
    if n < |f.content| {
      PrefixRejected(v, r.data, n, MAX_SIZE);
    }
  }

  /** The copy that an interrupted `file_copy` leaves behind. */
  ghost predicate CopiedPart(from: File, to: File) {
    from.File? && to.File? && to.content <= from.content
  }

  /** What `file_copy` can make of a destination: it is not touched, or it holds a part of the source. */
  ghost predicate CopyOutcome(from: File, was: File, now: File) {
    now == was || CopiedPart(from, now)
  }

  lemma CopiedPartIsGood(from: File, to: File, values: set<Bytes>)
    requires ValidFile(from) && Good(from, values) && CopiedPart(from, to)
    ensures Good(to, values)
  {
    hide Read;
    PartialCopy(from, |to.content|);
    assert to.content == from.content[..|to.content|];
  }

  datatype Outcome = Written | Refused(error: Error) | Failed

  class Store {
    var master: File
    var backup: File
    var temp: File
    var power: nat
    var faults: bool

    /** A device that has never stored anything. */
    constructor ()
      ensures master == Absent && backup == Absent && temp == Absent && power == 0 && !faults
    {
      master, backup, temp, power, faults := Absent, Absent, Absent, 0, false;
    }

    ghost predicate SafeFor(values: set<Bytes>)
      reads this
    {
      Safe(master, backup, values)
    }

    // --- file operations ---

    /** `open` of the new file with O_TRUNC. */
    method OpenTemp()
      modifies this`temp, this`power
      ensures power == if old(power) > 0 then old(power) - 1 else 0
      ensures power > 0 ==> temp == File([])
      ensures old(power) == 0 ==> temp == old(temp)
    {
      if power > 0 {
        temp := File([]);
        power := power - 1;
      }
    }

    /** `dev_write` to the new file: all of it, or a part and an error. */
    method WriteTemp(b: Bytes) returns (ok: bool)
      modifies this`temp, this`power
      ensures power == if old(power) > 0 && old(temp).File? then old(power) - 1 else old(power)
      ensures ok ==> old(temp.File?) && temp == File(old(temp).content + b)
      ensures old(temp.File?) && old(power) > 0 && !faults ==> ok
    {
      ok := *;
      ok := ok || !faults;
      if power == 0 || temp.Absent? {
        ok := false;
      } else {
        power := power - 1;
        var n :| 0 <= n <= |b|;
        temp := File(temp.content + if ok then b else b[..n]);
      }
    }

    /** `rename` of the new file to the master. */
    method RenameTemp()
      modifies this`master, this`temp, this`power
      ensures power == if old(power) > 0 then old(power) - 1 else 0
      ensures if old(power) > 0 then master == old(temp) else master == old(master)
    {
      if power > 0 {
        power := power - 1;
        master, temp := temp, Absent;
      }
    }

    /** One growing step of the file that is being copied. */
    method Append(toMaster: bool, b: Bytes)
      requires (if toMaster then master else backup).File?
      modifies this`master, this`backup, this`power
      ensures power == if old(power) > 0 then old(power) - 1 else 0
      ensures if toMaster then backup == old(backup) else master == old(master)
      ensures var was, now := if toMaster then old(master) else old(backup), if toMaster then master else backup;
              now == if old(power) > 0 then File(was.content + b) else was
    {
      if power > 0 {
        power := power - 1;
        if toMaster {
          master := File(master.content + b);
        } else {
          backup := File(backup.content + b);
        }
      }
    }

    /** `file_copy` between the two files: the destination is truncated and grows chunk by chunk. */
    method FileCopy(toMaster: bool) returns (ok: bool)
      modifies this`master, this`backup, this`power
      ensures power <= old(power)
      ensures if toMaster then backup == old(backup) else master == old(master)
      ensures var from, was, now := if toMaster then backup else master,
                                    if toMaster then old(master) else old(backup),
                                    if toMaster then master else backup;
              && CopyOutcome(from, was, now)
              && (old(power) == 0 ==> now == was)
              && (from.File? && old(power) == 1 ==> now == File([]))
              && (ok && power > 0 ==> from.File? && now == from)
              && (from.File? && power > 0 && !faults ==> ok)
              && (from.File? ==> power >= old(power) - 1 - |from.content|)
    {
      var from := if toMaster then backup else master;
      if from.Absent? || power == 0 {
        return false;
      }
      power := power - 1;
      if toMaster {
        master := File([]);
      } else {
        backup := File([]);
      }
      var size := 0;
      while size < |from.content|
        invariant old(power) - 1 - size <= power < old(power) && size <= |from.content|
        invariant if toMaster then backup == old(backup) else master == old(master)
        invariant var now := if toMaster then master else backup;
                  && CopiedPart(from, now) && (power > 0 ==> now.content == from.content[..size])
                  && (old(power) == 1 ==> now.content == [])
      {
        var error: bool := *;
        if (error && faults) || power == 0 {
          return false;
        }
        var n :| 1 <= n <= |from.content| - size;
        Append(toMaster, from.content[size..size + n]);
        assert from.content[..size] + from.content[size..size + n] == from.content[..size + n];
        size := size + n;
      }
      ok := true;
    }

    // --- the store ---

    /** `rds_write` with `file_update_atomic`: the master changes only as a whole. */
    method Write(version: Bytes, data: Bytes) returns (ok: bool)
      requires Storable(version, data)
      modifies this`master, this`temp, this`power
      ensures power <= old(power)
      ensures master == old(master) || (old(power) > 0 && master == File(Record(version, data)))
      ensures ok && power > 0 ==> master == File(Record(version, data))
      ensures power > 0 && !faults ==> ok
      ensures old(power) > 5 && !faults ==> ok && power == old(power) - 5
    {
      hide Digest, Header, LittleBytes;
      var header := Header(version, |data| as word);
      OpenTemp();
      ok := WriteTemp(header);
      if !ok {
        return;
      }
      ok := WriteTemp(data);
      if !ok {
        return;
      }
      var digest := Md5.DigestOfPieces([header, data]);
      JoinedTwo(header, data);
      ok := WriteTemp(digest);
      if !ok {
        return;
      }
      assert power > 0 ==> temp == File(Record(version, data));
      RenameTemp();
    }

    /** `rds_update_once` for an entry with backup. */
    method UpdateOnce(version: Bytes, data: Bytes, ghost values: set<Bytes>) returns (r: Outcome)
      requires data != [] ==> Storable(version, data)
      requires Good(master, values) && Good(backup, values)
      modifies this`master, this`backup, this`temp, this`power
      ensures power <= old(power)
      ensures Good(master, values + {data}) && Good(backup, values + {data})
      ensures old(SafeFor(values)) ==> SafeFor(values + {data})
      ensures r.Refused? <==> data == []
      ensures data == [] ==> master == old(master) && backup == old(backup)
      ensures r == Written && power > 0 ==> SafeFor({data}) && ValidFile(master) && backup == master
      ensures r == Written && power > 0 ==> data != [] && master == File(Record(version, data))
      ensures data != [] && power > 0 && !faults ==> r == Written
      ensures data != [] && old(power) > 6 + HEADER + DIGEST + |data| && !faults ==> r == Written && power > 0
    {
      hide Read, Record, Storable;
      if data == [] {
        return Refused(InvalidPara);
      }
      RecordIsGood(version, data, values + {data});
      RecordIsGood(version, data, {data});
      var ok := Write(version, data);
      if !ok {
        return Failed;
      }
      label written:
      ok := FileCopy(false);
      if backup != old@written(backup) {
        CopiedPartIsGood(master, backup, values + {data});
      }
      r := if ok then Written else Failed;
    }

    /** `rds_read` of one of the files. */
    method ReadFile(file: File, capacity: nat) returns (r: Result)
      requires Sized(file)
      ensures r == Read(file, capacity)
    {
      hide Digest, LittleWord, VersionText;
      if file.Absent? {
        return Err(FileNotExist);
      }
      var size := |file.content|;
      if size <= HEADER + DIGEST {
        return Err(InvalidFile);
      }
      var header := file.content[..HEADER];
      var len := LenField(header) as int;
      assert header[32..36] == file.content[32..36];
      if size != HEADER + DIGEST + len {
        return Err(InvalidFile);
      }
      if capacity < len {
        return Err(InvalidPara);
      }
      var data := file.content[HEADER..HEADER + len];
      var digest := Md5.DigestOfPieces([header, data]);
      JoinedTwo(header, data);
      assert header + data == file.content[..size - DIGEST];
      if digest != file.content[HEADER + len..] {
        return Err(InvalidFile);
      }
      assert header[..32] == file.content[..32];
      return Ok(VersionText(header[..32]), data);
    }

    /** `rds_get`: the backup is asked when the master cannot be read, and then repairs it. */
    method Get(capacity: nat, ghost values: set<Bytes>) returns (r: Result)
      requires Good(master, values) && Good(backup, values)
      modifies this`master, this`backup, this`power
      ensures power <= old(power) && backup == old(backup)
      ensures r == if Read(old(master), capacity).Ok? then Read(old(master), capacity) else Read(backup, capacity)
      ensures Good(master, values) && (old(SafeFor(values)) ==> SafeFor(values))
      ensures r.Ok? ==> r.data in values && |r.data| <= capacity
      ensures old(SafeFor(values)) && (forall v :: v in values ==> |v| <= capacity) ==> r.Ok?
      ensures r.Err? || Read(old(master), capacity).Ok? ==> master == old(master)
      ensures r.Ok? && Read(old(master), capacity).Err? && power > 0 && !faults ==> master == backup
      ensures old(power) > MAX_SIZE && !faults ==> power > 0
    {
      hide Read;
      CapacityOnly(master, capacity);
      CapacityOnly(backup, capacity);
      r := ReadFile(master, capacity);
      if r.Ok? {
        return;
      }
      r := ReadFile(backup, capacity);
      if r.Err? {
        return;
      }
      var copied := FileCopy(true);
      if master != old(master) {
        CopiedPartIsGood(backup, master, values);
      }
    }
  }

  lemma JoinedTwo(a: Bytes, b: Bytes)
    ensures Joined([a, b]) == a + b
  {
    assert [a, b][..1] == [a] && [a][..0] == [];
    assert Joined([a]) == Joined([]) + a;
  }
}
