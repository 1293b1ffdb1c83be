/** The packed parameter store of app/base/cfg/cfg_para.c: items laid out one after the other in a buffer,
    which is saved as a whole in the reliable data store. */
module CfgPara {
  import opened Basics
  import opened WordArith
  import opened RdsRecord
  import opened Rds

  datatype Kind = UInt | UShort | UChar | Str | Double | Invalid

  datatype Member = Member(kind: Kind, len: word)

  const BUF_LEN := 5120
  const MAX_PARA_LEN := 512

  const WRAP := 0x1_0000_0000

  /** Lengths are added up in 32 bits. */
  function Wrapped(n: nat): nat {
    n % WRAP
  }

  lemma WrappedIs(n: nat)
    ensures Wrapped(n) == n % 0x1_0000_0000
  {
  }

  /** `cfg_para_check`. */
  predicate MemberOk(m: Member) {
    match m.kind
    case UInt => m.len == 4
    case UShort => m.len == 2
    case UChar => m.len == 1
    case Double => m.len == 8
    case Str => m.len > 1
    case Invalid => false
  }

  /** An accepted member takes as many bits as its C type has; a string takes at least two bytes. */
  lemma MemberSizes(m: Member)
    ensures MemberOk(m) <==>
      || (m.kind == UInt && 8 * m.len as nat == 32) || (m.kind == UShort && 8 * m.len as nat == 16)
      || (m.kind == UChar && 8 * m.len as nat == 8) || (m.kind == Double && 8 * m.len as nat == 64)
      || (m.kind == Str && m.len >= 2)
  {
  }

  /** The members before the first invalid one; there are at most six. */
  function Live(members: seq<Member>): (l: seq<Member>)
    ensures |l| <= |members|
  {
    if members == [] || members[0].kind == Invalid then [] else [members[0]] + Live(members[1..])
  }

  function SumLen(members: seq<Member>): nat {
    if members == [] then 0 else SumLen(members[..|members| - 1]) + members[|members| - 1].len as nat
  }

  type Table = seq<seq<Member>>

  function ItemLen(t: Table, i: nat): nat
    requires i < |t|
  {
    SumLen(Live(t[i]))
  }

  predicate ItemOk(t: Table, i: nat)
    requires i < |t|
  {
    forall j :: 0 <= j < |Live(t[i])| ==> MemberOk(Live(t[i])[j])
  }

  predicate TableOk(t: Table) {
    forall i :: 0 <= i < |t| ==> ItemOk(t, i)
  }

  /** Where item i begins: after all items before it. */
  function Offset(t: Table, i: nat): nat
    requires i <= |t|
  {
    if i == 0 then 0 else Offset(t, i - 1) + ItemLen(t, i - 1)
  }

  function Total(t: Table): nat {
    Offset(t, |t|)
  }

  lemma OffsetNext(t: Table, i: nat)
    requires i < |t|
    ensures Offset(t, i + 1) == Offset(t, i) + ItemLen(t, i)
  {
  }

  /** The slot of an item lies before the total. */
  lemma SlotInside(t: Table, i: nat)
    requires i < |t|
    ensures Offset(t, i) <= Offset(t, i + 1) == Offset(t, i) + ItemLen(t, i) <= Total(t)
  {
    OffsetMonotone(t, i + 1, |t|);
  }

  lemma {:induction false} OffsetMonotone(t: Table, i: nat, j: nat)
    requires i <= j <= |t|
    ensures Offset(t, i) <= Offset(t, j)
  {
    if i < j {
      OffsetMonotone(t, i, j - 1);
    }
  }

  /** The value of an item in a buffer with this layout. */
  function SlotOf(t: Table, content: Bytes, i: nat): Bytes
    requires i < |t| && Total(t) <= |content|
  {
    SlotInside(t, i);
    content[Offset(t, i)..Offset(t, i + 1)]
  }

  /** The slots of different items do not overlap, follow each other without gaps, and end at the total. */
  lemma SlotsDisjoint(t: Table, i: nat, j: nat)
    requires i < j < |t|
    ensures Offset(t, i) + ItemLen(t, i) == Offset(t, i + 1) <= Offset(t, j)
    ensures Offset(t, j) + ItemLen(t, j) <= Total(t)
  {
    OffsetMonotone(t, i + 1, j);
    OffsetMonotone(t, j + 1, |t|);
  }

  lemma SlotApart(t: Table, i: nat, j: nat)
    requires i < |t| && j < |t| && i != j
    ensures Offset(t, i + 1) <= Offset(t, j) || Offset(t, j + 1) <= Offset(t, i)
  {
    if i < j {
      OffsetMonotone(t, i + 1, j);
    } else {
      OffsetMonotone(t, j + 1, i);
    }
  }

  /** The lengths are added up in 32 bits, so the size check looks at the total modulo 2^32. What it accepts
      fits into the buffer exactly if the total did not wrap around. */
  lemma AcceptedFits(t: Table)
    requires Wrapped(Total(t)) <= BUF_LEN
    ensures Total(t) <= BUF_LEN <==> Total(t) < WRAP
  {
  }

  /** Two strings of 2^31 bytes pass all checks. */
  lemma WrappedTableAccepted()
    ensures exists t :: TableOk(t) && Wrapped(Total(t)) <= BUF_LEN && Total(t) > BUF_LEN
  {
    var m := Member(Str, 0x8000_0000);
    var t := [[m], [m]];
    OneMember(m);
    TwoItems(t);
    assert TableOk(t) && Total(t) == WRAP;
  }

  lemma OneMember(m: Member)
    requires MemberOk(m)
    ensures Live([m]) == [m] && SumLen([m]) == m.len as nat
  {
    assert [m][1..] == [] && [m][..0] == [];
  }

  lemma TwoItems(t: Table)
    requires |t| == 2
    ensures Total(t) == ItemLen(t, 0) + ItemLen(t, 1)
  {
    hide ItemLen;
    OffsetNothing(t);
    OffsetNext(t, 0);
    OffsetNext(t, 1);
  }

  // the error codes of include/cfg_api.h
  const INVALID_PARAMETER := 0x0200_0001
  const CHECK_FAILED := 0x0200_0005
  const OVERFLOW := 0x0200_0006

  class Config {
    const table: Table
    const offsets: array<word>
    const lens: array<word>
    const buf: array<byte>

    constructor (t: Table)
      requires t != [] && forall i :: 0 <= i < |t| ==> |t[i]| <= 6
      ensures table == t && Shape() && buf.Length == 5120 && fresh(offsets) && fresh(lens) && fresh(buf)
    {
      table := t;
      offsets := new word[|t|](_ => 0);
      lens := new word[|t|](_ => 0);
      buf := new byte[BUF_LEN](_ => 0);
    }

    ghost predicate Shape() {
      && table != [] && offsets.Length == lens.Length == |table| && buf.Length == BUF_LEN
      && offsets != lens && buf != offsets as object && buf != lens as object
    }

    /** The layout that `cfg_init_para` computes, of a table that fits into the buffer. */
    ghost predicate Valid()
      reads offsets, lens
    {
      && Shape() && Total(table) <= BUF_LEN
      && forall i :: 0 <= i < |table| ==> offsets[i] as nat == Offset(table, i) && lens[i] as nat == ItemLen(table, i)
    }

    ghost function Value(id: nat): (v: Bytes)
      requires Valid() && id < |table|
      reads offsets, lens, buf
    {
      SlotInside(table, id);
      buf[Offset(table, id)..Offset(table, id + 1)]
    }

    /** The inner loop of `cfg_init_para`: the checked length of one item. */
    method ItemSize(i: nat) returns (ok: bool, size: word)
      requires i < |table|
      ensures ok <==> ItemOk(table, i)
      ensures ok ==> size as nat == Wrapped(ItemLen(table, i))
    {
      hide MemberOk, Wrapped, Plus, SumLen, Live;
      SumNothing();
      var members := table[i];
      size := 0;
      var j := 0;
      LivePrefix(members);
      while j < |members| && members[j].kind != Invalid
        invariant 0 <= j <= |Live(members)| && size as nat == Wrapped(SumLen(Live(members)[..j]))
        invariant forall k :: 0 <= k < j ==> MemberOk(Live(members)[k])
      {
        if !MemberOk(members[j]) {
          return false, size;
        }
        SumNext(Live(members), j);
        WordWraps(members[j].len);
        PlusWraps(size, members[j].len, SumLen(Live(members)[..j]), members[j].len as nat);
        size := Plus(size, members[j].len);
        j := j + 1;
      }
      assert Live(members)[..j] == Live(members);
      ok := true;
    }

    /** `cfg_init_para`. */
    method Init() returns (ret: int)
      requires Shape()
      modifies offsets, lens, buf
      ensures ret == 0 <==> TableOk(table) && Total(table) % 0x1_0000_0000 <= 5120
      ensures ret == 0x0200_0005 <==> !TableOk(table)
      ensures ret in {0, 0x0200_0005, 0x0200_0006}
      ensures ret == 0 && Total(table) < WRAP ==> Valid()
    {
      hide ItemOk, ItemLen, Offset, Plus, Wrapped;
      OffsetNothing(table);
      forall k | 0 <= k < BUF_LEN { buf[k] := 0; }
      var offset: word := 0;
      WordWraps(offset);
      for i := 0 to |table|
        invariant offset as nat == Wrapped(Offset(table, i))
        invariant forall k :: 0 <= k < i ==> ItemOk(table, k)
        invariant forall k :: 0 <= k < i ==>
          offsets[k] as nat == Wrapped(Offset(table, k)) && lens[k] as nat == Wrapped(ItemLen(table, k))
      {
        var ok, size := ItemSize(i);
        if !ok {
          return CHECK_FAILED;
        }
        OffsetNext(table, i);
        PlusWraps(offset, size, Offset(table, i), ItemLen(table, i));
        offsets[i] := offset;
        lens[i] := size;
        offset := Plus(offset, size);
      }
      var last := |table| - 1;
      OffsetNext(table, last);
      PlusWraps(offsets[last], lens[last], Offset(table, last), ItemLen(table, last));
      WrappedIs(Total(table));
      if Plus(offsets[last], lens[last]) as int > BUF_LEN {
        return OVERFLOW;
      }
      LaidOut();
      ret := 0;
    }

    /** Without a wrap-around the stored numbers are the layout. */
    lemma LaidOut()
      requires Shape() && Wrapped(Total(table)) <= BUF_LEN
      requires forall k :: 0 <= k < |table| ==>
        offsets[k] as nat == Wrapped(Offset(table, k)) && lens[k] as nat == Wrapped(ItemLen(table, k))
      ensures Total(table) < WRAP ==> Valid()
    {
      hide ItemLen, Offset;
      AcceptedFits(table);
      forall k | 0 <= k < |table| ensures Offset(table, k) <= Total(table) && ItemLen(table, k) <= Total(table) {
        SlotInside(table, k);
      }
    }

    /** `cfg_get_para`. */
    method Get(id: nat, capacity: nat) returns (ret: int, data: Bytes)
      requires Valid()
      ensures ret == 0 <==> id < |table| && ItemLen(table, id) <= capacity
      ensures ret == 0 ==> data == Value(id)
      ensures ret != 0 ==> ret == 0x0200_0001 && data == []
    {
      hide Offset, ItemLen, Total;
      if id >= |table| || capacity < lens[id] as nat {
        return INVALID_PARAMETER, [];
      }
      SlotInside(table, id);
      data := buf[offsets[id] as nat..offsets[id] as nat + lens[id] as nat];
      ret := 0;
    }

    /** The buffer after a value was put into the slot of an item. */
    ghost function Put(base: Bytes, id: nat, data: Bytes): (after: Bytes)
      requires Shape() && Total(table) <= BUF_LEN && |base| == BUF_LEN
      ensures |after| == BUF_LEN
    {
      if id < |table| && |data| == ItemLen(table, id) then
        SlotInside(table, id);
        base[..Offset(table, id)] + data + base[Offset(table, id + 1)..]
      else base
    }

    /** Putting a value changes the slot of that item only. */
    lemma PutSlots(base: Bytes, id: nat, data: Bytes, j: nat)
      requires Shape() && Total(table) <= BUF_LEN && |base| == BUF_LEN
      requires id < |table| && |data| == ItemLen(table, id) && j < |table|
      ensures Offset(table, j) <= Offset(table, j + 1) <= BUF_LEN
      ensures Put(base, id, data)[Offset(table, j)..Offset(table, j + 1)]
           == if j == id then data else base[Offset(table, j)..Offset(table, j + 1)]
    {
      hide Offset, ItemLen, Total;
      SlotInside(table, id);
      SlotInside(table, j);
      if j != id {
        SlotApart(table, id, j);
      }
    }

    /** `cfg_set_para_im`. */
    method SetNow(id: nat, data: Bytes) returns (ret: int)
      requires Valid()
      modifies buf
      ensures Valid()
      ensures ret == 0 <==> id < |table| && |data| == ItemLen(table, id)
      ensures ret in {0, 0x0200_0001}
      ensures buf[..] == Put(old(buf[..]), id, data)
      ensures ret == 0 ==> Value(id) == data
      ensures forall j :: 0 <= j < |table| && (ret != 0 || j != id) ==> Value(j) == old(Value(j))
    {
      hide Offset, ItemLen, Total;
      if id >= |table| || |data| != lens[id] as int {
        return INVALID_PARAMETER;
      }
      SlotInside(table, id);
      ghost var base := buf[..];
      var at := offsets[id] as int;
      forall k | 0 <= k < |data| { buf[at + k] := data[k]; }
      ret := 0;
      PutIs(base, id, data, at);
      hide Put;
      forall j: nat | j < |table| ensures Value(j) == if j == id then data else old(Value(j)) {
        PutSlots(base, id, data, j);
      }
    }

    lemma PutIs(base: Bytes, id: nat, data: Bytes, at: nat)
      requires Valid() && |base| == BUF_LEN && id < |table| && |data| == ItemLen(table, id) && at == Offset(table, id)
      requires forall k :: 0 <= k < BUF_LEN ==> buf[k] == if at <= k < at + |data| then data[k - at] else base[k]
      ensures buf[..] == Put(base, id, data)
    {
      hide Offset, ItemLen, Total;
      SlotInside(table, id);
    }

    /** `cfg_save_para`. */
    method Save(store: Store, version: Bytes, ghost values: set<Bytes>) returns (r: Outcome)
      requires Valid() && |version| == 32 && Good(store.master, values) && Good(store.backup, values)
      modifies store
      ensures Valid() && unchanged(buf)
      ensures r == Written && store.power > 0 ==>
        store.SafeFor({buf[..]}) && store.master == File(Record(version, buf[..]))
      ensures store.power > 0 && !store.faults ==> r == Written
      ensures store.faults == old(store.faults)
    {
      hide Good, Read, Record;
      r := store.UpdateOnce(version, buf[..], values);
    }

    /** The first part of `cfg_set_by_id`: an item longer than the buffer for its old value cannot be set. */
    method SetValue(id: nat, data: Bytes) returns (ret: int)
      requires Valid()
      modifies buf
      ensures Valid()
      ensures ret == 0 <==> id < |table| && |data| == ItemLen(table, id) <= 512
      ensures ret in {0, 0x0200_0001}
      ensures buf[..] == if ret == 0 then Put(old(buf[..]), id, data) else old(buf[..])
      ensures ret == 0 ==> Value(id) == data
      ensures forall j :: 0 <= j < |table| && (ret != 0 || j != id) ==> Value(j) == old(Value(j))
    {
      hide Put;
      if id >= |table| {
        return INVALID_PARAMETER;
      }
      var oldpara;
      ret, oldpara := Get(id, MAX_PARA_LEN);
      SlotLen(id);
      if ret != 0 || |oldpara| != |data| {
        return INVALID_PARAMETER;
      }
      ret := SetNow(id, data);
    }

    /** `cfg_set_by_id`. */
    method SetById(id: nat, data: Bytes, silent: bool, store: Store, version: Bytes, ghost values: set<Bytes>)
      returns (ret: int, saved: bool)
      requires Valid()
      requires |version| == 32 && Good(store.master, values) && Good(store.backup, values)
      modifies buf, store
      ensures Valid()
      ensures ret == 0 <==> id < |table| && |data| == ItemLen(table, id) <= 512
      ensures ret in {0, 0x0200_0001}
      ensures ret == 0 ==> Value(id) == data
      ensures forall j :: 0 <= j < |table| && (ret != 0 || j != id) ==> Value(j) == old(Value(j))
      ensures saved ==> ret == 0 && !silent
      ensures silent || ret != 0 ==> unchanged(store)
      ensures saved && store.power > 0 ==>
        store.SafeFor({buf[..]}) && store.master == File(Record(version, buf[..]))
      ensures ret == 0 && !silent && store.power > 0 && !store.faults ==> saved
    {
      hide Good, Read, Safe, Put, Record;
      saved := false;
      ret := SetValue(id, data);
      if ret != 0 || silent {
        return;
      }
      var r := Save(store, version, values);
      saved := r == Written;
    }

    lemma SlotLen(id: nat)
      requires Valid() && id < |table|
      ensures |Value(id)| == ItemLen(table, id)
    {
      hide Offset, ItemLen, Total;
      SlotInside(table, id);
    }

    /** `cfg_restore_para`; defaults is what `cfg_set_default_para` sets, and newId and newData are the
        item that `cfg_upgrade_new_para` sets when the stored version is another one. If nothing could be
        read, the version compared is whatever the local array holds. */
    method Restore(store: Store, defaults: Bytes, version: Bytes, newId: nat, newData: Bytes, garbage: Bytes,
                   ghost values: set<Bytes>)
      returns (normal: bool)
      requires Valid() && |defaults| == BUF_LEN && |version| == 32
      requires Good(store.master, values) && Good(store.backup, values)
      requires forall v :: v in values ==> |v| == BUF_LEN
      modifies buf, store
      ensures Valid() && (old(store.SafeFor(values)) ==> normal)
      ensures normal <==> old(Stored(store.master, store.backup)).Ok?
      ensures var stored := old(Stored(store.master, store.backup));
        var base := if normal then stored.data else defaults;
        var seen := if normal then stored.version else garbage;
        && |base| == BUF_LEN && (normal ==> base in values)
        && buf[..] == (if seen != VersionText(version) && Settable(newId, newData) then Put(base, newId, newData) else base)
      ensures !normal && store.power > 0 && !store.faults ==> store.SafeFor({defaults})
    {
      hide Good, Read, Put, VersionText, Record;
      var r := store.Get(BUF_LEN, values);
      normal := r.Ok?;
      var content := if normal then r.data else defaults;
      forall k | 0 <= k < |content| { buf[k] := content[k]; }
      assert buf[..] == content;
      if !normal {
        var saved := Save(store, version, values);
      }
      if VersionText(version) != if normal then r.version else garbage {
        var ret := SetValue(newId, newData);
      }
    }

    /** What `cfg_set_by_id` accepts. */
    predicate Settable(id: nat, data: Bytes) {
      id < |table| && |data| == ItemLen(table, id) <= 512
    }
  }

  /** What a reader is given. */
  ghost function Stored(master: File, backup: File): Result
    requires Sized(master) && Sized(backup)
  {
    if Read(master, BUF_LEN).Ok? then Read(master, BUF_LEN) else Read(backup, BUF_LEN)
  }

  lemma OffsetNothing(t: Table)
    ensures Offset(t, 0) == 0
  {
  }

  lemma WordWraps(a: word)
    ensures Wrapped(a as nat) == a as nat
  {
  }

  lemma PlusWraps(a: word, b: word, x: nat, y: nat)
    requires a as nat == Wrapped(x) && b as nat == Wrapped(y)
    ensures Plus(a, b) as nat == Wrapped(x + y)
  {
    var i, j := x / WRAP, y / WRAP;
    assert x + y == a as nat + b as nat + WRAP * (i + j);
    RemainderOf(i + j, a as nat + b as nat);
  }

  lemma RemainderOf(q: nat, r: nat)
    ensures (r + WRAP * q) % WRAP == r % WRAP
  {
  }

  lemma SumNothing()
    ensures SumLen([]) == 0 && Wrapped(0) == 0
  {
  }

  lemma SumNext(live: seq<Member>, j: nat)
    requires j < |live|
    ensures SumLen(live[..j + 1]) == SumLen(live[..j]) + live[j].len as nat
  {
    assert live[..j + 1][..j] == live[..j];
  }

  lemma {:induction false} LivePrefix(members: seq<Member>)
    ensures forall k :: 0 <= k < |Live(members)| ==> Live(members)[k] == members[k] && members[k].kind != Invalid
    ensures |Live(members)| < |members| ==> members[|Live(members)|].kind == Invalid
  {
    if members != [] && members[0].kind != Invalid {
      LivePrefix(members[1..]);
    }
  }

  /** A restart on the version that saved the buffer restores it as it is. */
  method RestartSame(config: Config, store: Store, content: Bytes, defaults: Bytes, version: Bytes, newId: nat,
                     newData: Bytes, garbage: Bytes)
    requires config.Valid() && |content| == |defaults| == BUF_LEN && |version| == 32
    requires store.SafeFor({content}) && store.master == File(Record(version, content))
    modifies config.buf, store
    ensures config.Valid() && config.buf[..] == content
  {
    ReadRecord(version, content, BUF_LEN);
    hide Good, Record, VersionText;
    var normal := config.Restore(store, defaults, version, newId, newData, garbage, {content});
  }

  /** A restart on another version, whose version field differs from the stored one before either has ended,
      restores the buffer with the item that is new in this version set, and nothing else changed. */
  method RestartUpgraded(config: Config, store: Store, content: Bytes, defaults: Bytes, stored: Bytes, version: Bytes,
                         k: nat, newId: nat, newData: Bytes, garbage: Bytes)
    requires config.Valid() && |content| == |defaults| == BUF_LEN && |stored| == |version| == 32
    requires k < 31 && stored[k] != version[k] && stored[..k] == version[..k] && 0 !in stored[..k]
    requires store.SafeFor({content}) && store.master == File(Record(stored, content))
    requires newId < |config.table| && |newData| == ItemLen(config.table, newId) <= 512
    modifies config.buf, store
    ensures config.Valid() && config.Value(newId) == newData
    ensures forall j :: 0 <= j < |config.table| && j != newId ==> config.Value(j) == SlotOf(config.table, content, j)
  {
    ReadRecord(stored, content, BUF_LEN);
    VersionsDiffer(stored, version);
    hide Good, Record, VersionText, Read, Safe, Offset, ItemLen, Total, Config.Put;
    var normal := config.Restore(store, defaults, version, newId, newData, garbage, {content});
    forall j: nat | j < |config.table|
      ensures config.Value(j) == if j == newId then newData else SlotOf(config.table, content, j)
    {
      config.PutSlots(content, newId, newData, j);
    }
  }

  /** After a set whose save succeeded, a restart on the same version restores every item. */
  method SetThenRestart(running: Config, restarted: Config, id: nat, data: Bytes, store: Store, version: Bytes,
                        defaults: Bytes, power: nat, newId: nat, newData: Bytes, garbage: Bytes, ghost values: set<Bytes>)
    returns (ret: int, saved: bool)
    requires running.Valid() && restarted.Valid() && running.table == restarted.table
    requires running.buf !in {restarted.buf as object, running.offsets, running.lens, restarted.offsets, restarted.lens}
    requires restarted.buf !in {running.offsets as object, running.lens, restarted.offsets, restarted.lens}
    requires |version| == 32 && |defaults| == BUF_LEN
    requires Good(store.master, values) && Good(store.backup, values)
    modifies running.buf, restarted.buf, store
    ensures running.Valid() && restarted.Valid()
    ensures saved ==> forall j :: 0 <= j < |running.table| ==>
      restarted.Value(j) == running.Value(j) == if j == id then data else old(running.Value(j))
  {
    hide Good, Safe, Read, Record, VersionText, Offset, ItemLen, Total, Config.Put, Config.Value;
    ret, saved := running.SetById(id, data, false, store, version, values);
    if store.power == 0 || !saved {
      return ret, false;
    }
    store.power := power;
    RestartSame(restarted, store, running.buf[..], defaults, version, newId, newData, garbage);
    SameValues(restarted, running);
  }

  lemma SameValues(a: Config, b: Config)
    requires a.Valid() && b.Valid() && a.table == b.table && a.buf[..] == b.buf[..]
    ensures forall j :: 0 <= j < |a.table| ==> a.Value(j) == b.Value(j)
  {
    hide Offset, ItemLen, Total;
    forall j: nat | j < |a.table| ensures a.Value(j) == b.Value(j) {
      SlotInside(a.table, j);
      assert a.Value(j) == a.buf[..][Offset(a.table, j)..Offset(a.table, j + 1)];
    }
  }
}
