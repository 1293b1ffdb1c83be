/** Whole runs of the reliable data store: updates and reads with power failures at any file operation,
    and corruption of one copy while the store is idle and both copies are readable. */
module RdsRuns {
  import opened Basics
  import opened RdsRecord
  import opened Rds

  /** One thing that happens to the store; power is how many file operations it may last, and faults
      says whether write errors may come. */
  datatype Event =
    | Update(version: Bytes, data: Bytes, power: nat, faults: bool)
    | Get(power: nat, faults: bool)
    | Corrupt(hitsMaster: bool, garbage: File)
    | UpdateHit(version: Bytes, data: Bytes, power: nat, faults: bool, hitsMaster: bool, garbage: File, after: nat)

  /** What the application saw of it. */
  datatype Entry = Completed(data: Bytes) | Interrupted(data: Bytes) | Got(result: Result) | Damaged

  /** An operation without write errors and with power for every file operation it can take. */
  predicate Undisturbed(e: Event) {
    match e
    case Update(_, _, power, faults) => power > MAX_SIZE + 6 && !faults
    case Get(power, faults) => power > MAX_SIZE && !faults
    case _ => false
  }

  /** The entries that an event can lead to: an undisturbed update is always completed. */
  predicate Recorded(e: Event, entry: Entry) {
    match e
    case Update(_, data, _, _) => entry == Completed(data) || (entry == Interrupted(data) && !Undisturbed(e))
    case Get(_, _) => entry.Got?
    case Corrupt(_, _) => entry == Damaged
    case UpdateHit(_, data, _, _, _, _, _) => entry == Completed(data) || entry == Interrupted(data)
  }

  /** How an event leaves the two copies: an undisturbed update writes its record to both, an undisturbed
      read leaves a readable master, and a corruption one unreadable copy. */
  ghost predicate Leaves(e: Event, store: Store)
    reads store
  {
    match e
    case Update(version, data, _, _) =>
      Undisturbed(e) && Storable(version, data) ==> store.master == store.backup == File(Record(version, data))
    case Get(_, _) => Undisturbed(e) ==> ValidFile(store.master)
    case Corrupt(_, garbage) => ValidFile(garbage) || !ValidFile(store.master) || !ValidFile(store.backup)
    case _ => true
  }

  /** How an entry changes the set of values that a read may return. */
  function After(before: set<Bytes>, e: Entry): set<Bytes> {
    if e.Completed? then {e.data} else if e.Interrupted? then before + {e.data} else before
  }

  /** The last value whose update completed, and the values of later updates that did not. */
  function Current(history: seq<Entry>): set<Bytes> {
    if history == [] then {} else After(Current(history[..|history| - 1]), history[|history| - 1])
  }

  ghost predicate Faithful(history: seq<Entry>) {
    forall k :: 0 <= k < |history| && history[k].Got? ==>
      history[k].result.Ok? && history[k].result.data in Current(history[..k])
  }

  lemma CurrentNext(history: seq<Entry>, e: Entry)
    ensures Current(history + [e]) == After(Current(history), e)
  {
    assert (history + [e])[..|history|] == history;
  }

  lemma FaithfulNext(history: seq<Entry>, e: Entry)
    requires Faithful(history) && (e.Got? ==> e.result.Ok? && e.result.data in Current(history))
    ensures Faithful(history + [e])
  {
    var h := history + [e];
    forall k | 0 <= k < |h| && h[k].Got? ensures h[k].result.Ok? && h[k].result.data in Current(h[..k]) {
      assert h[..k] == history[..k];
      assert history[..|history|] == history;
    }
  }

  ghost predicate Fits(values: set<Bytes>, capacity: nat) {
    forall v :: v in values ==> |v| <= capacity
  }

  lemma FitsMore(values: set<Bytes>, data: Bytes, capacity: nat)
    requires Fits(values, capacity) && |data| <= capacity
    ensures Fits(values + {data}, capacity) && Fits({data}, capacity)
  {
  }

  /** What holds of the store between two events. */
  ghost predicate Intact(store: Store, history: seq<Entry>, capacity: nat)
    reads store
  {
    store.SafeFor(Current(history)) && Fits(Current(history), capacity) && Faithful(history)
  }

  method RunUpdate(store: Store, version: Bytes, data: Bytes, power: nat, faults: bool, ghost history: seq<Entry>,
                   capacity: nat)
    returns (ghost next: seq<Entry>)
    requires Intact(store, history, capacity) && Storable(version, data) && |data| <= capacity
    modifies store
    ensures Intact(store, next, capacity) && history <= next && |next| == |history| + 1
    ensures var e := Update(version, data, power, faults); Recorded(e, next[|history|]) && Leaves(e, store)
  {
    hide Good, Current, Faithful, ValidFile, Fits, Record;
    ghost var before := Current(history);
    store.power, store.faults := power, faults;
    var r := store.UpdateOnce(version, data, before);
    FitsMore(before, data, capacity);
    ghost var e := if r == Written && store.power > 0 then Completed(data) else Interrupted(data);
    CurrentNext(history, e);
    FaithfulNext(history, e);
    next := history + [e];
  }

  method RunGet(store: Store, power: nat, faults: bool, ghost history: seq<Entry>, capacity: nat)
    returns (ghost next: seq<Entry>)
    requires Intact(store, history, capacity)
    modifies store
    ensures Intact(store, next, capacity) && history <= next && |next| == |history| + 1
    ensures Recorded(Get(power, faults), next[|history|]) && Leaves(Get(power, faults), store)
  {
    hide Read, Current, Faithful;
    store.power, store.faults := power, faults;
    CapacityOnly(store.master, capacity);
    CapacityOnly(store.backup, capacity);
    var r := store.Get(capacity, Current(history));
    CurrentNext(history, Got(r));
    FaithfulNext(history, Got(r));
    next := history + [Got(r)];
  }

  method RunCorrupt(store: Store, hitsMaster: bool, garbage: File, ghost history: seq<Entry>, capacity: nat)
    returns (ghost next: seq<Entry>)
    requires Intact(store, history, capacity) && Sized(garbage)
    modifies store
    ensures Intact(store, next, capacity) && history <= next && |next| == |history| + 1
    ensures var e := Corrupt(hitsMaster, garbage); Recorded(e, next[|history|]) && Leaves(e, store)
  {
    hide Read, Current, Faithful;
    var struck := Strike(store, hitsMaster, garbage);
    CurrentNext(history, Damaged);
    FaithfulNext(history, Damaged);
    next := history + [Damaged];
  }

  // --- corruption in the middle of an update ---

  /** Between the rename and the copy of an update, losing the backup does no harm, and neither does losing
      the master altogether; only a master that is still there but damaged does. */
  predicate Harmless(hitsMaster: bool, garbage: File) {
    !hitsMaster || garbage.Absent?
  }

  /** Exactly then the copy that follows leaves something readable whatever it gets done. */
  lemma CorruptionDuringUpdate(hitsMaster: bool, garbage: File, master: File, backup: File)
    requires ValidFile(master) && ValidFile(backup) && Sized(garbage) && !ValidFile(garbage)
    ensures var from, to := if hitsMaster then garbage else master, if hitsMaster then backup else garbage;
      (forall now :: CopyOutcome(from, to, now) ==> ValidFile(from) || ValidFile(now)) <==> Harmless(hitsMaster, garbage)
  {
    hide Read;
    if hitsMaster && garbage.File? {
      EmptyIsInvalid();
      assert CopyOutcome(garbage, backup, File([]));
    }
  }

  lemma EmptyIsInvalid()
    ensures !ValidFile(File([]))
  {
  }

  lemma HarmlessHit(hitsMaster: bool, garbage: File, from: File, to: File, now: File, values: set<Bytes>)
    requires Harmless(hitsMaster, garbage) && Sized(garbage) && !ValidFile(garbage) && CopyOutcome(from, to, now)
    requires if hitsMaster then from == garbage && ValidFile(to) && Good(to, values)
             else to == garbage && ValidFile(from) && Good(from, values)
    ensures Safe(from, now, values)
  {
    hide Read;
    if !hitsMaster && now != to {
      CopiedPartIsGood(from, now, values);
    }
  }

  /** `rds_update_once` with a corruption after `rds_write` has returned and before `file_copy`; after is
      how many file operations are left then. */
  method UpdateHit(store: Store, version: Bytes, data: Bytes, hitsMaster: bool, garbage: File, after: nat,
                   ghost values: set<Bytes>)
    returns (r: Outcome, struck: bool)
    requires Storable(version, data) && Sized(garbage) && store.SafeFor(values)
    modifies store
    ensures Harmless(hitsMaster, garbage) ==> store.SafeFor(values + {data})
    ensures struck && !Harmless(hitsMaster, garbage) && after == 1 ==> !ValidFile(store.master) && !ValidFile(store.backup)
    ensures struck ==> old(ValidFile(store.backup)) && !ValidFile(garbage)
    ensures r == Written && !struck && store.power > 0 ==> store.SafeFor({data})
  {
    hide Read, Record, Storable;
    struck := false;
    RecordIsGood(version, data, values + {data});
    RecordIsGood(version, data, {data});
    var ok := store.Write(version, data);
    if !ok {
      return Failed, false;
    }
    struck := Strike(store, hitsMaster, garbage);
    if struck {
      store.power := after;
    }
    label hit:
    ok := store.FileCopy(false);
    if struck {
      EmptyIsInvalid();
      if Harmless(hitsMaster, garbage) {
        HarmlessHit(hitsMaster, garbage, old@hit(store.master), old@hit(store.backup), store.backup, values + {data});
      }
    } else if store.backup != old@hit(store.backup) {
      CopiedPartIsGood(store.master, store.backup, values + {data});
    }
    r := if ok then Written else Failed;
  }

  /** One copy becomes unreadable, if both are readable. */
  method Strike(store: Store, hitsMaster: bool, garbage: File) returns (struck: bool)
    requires Sized(garbage) && Sized(store.master) && Sized(store.backup)
    modifies store`master, store`backup
    ensures struck <==> old(ValidFile(store.master)) && old(ValidFile(store.backup)) && !ValidFile(garbage)
    ensures store.master == if struck && hitsMaster then garbage else old(store.master)
    ensures store.backup == if struck && !hitsMaster then garbage else old(store.backup)
  {
    hide Read;
    var m := store.ReadFile(store.master, MAX_SIZE);
    var b := store.ReadFile(store.backup, MAX_SIZE);
    var g := store.ReadFile(garbage, MAX_SIZE);
    struck := m.Ok? && b.Ok? && g.Err?;
    if struck && hitsMaster {
      store.master := garbage;
    } else if struck {
      store.backup := garbage;
    }
  }

  method RunHit(store: Store, version: Bytes, data: Bytes, power: nat, faults: bool, hitsMaster: bool, garbage: File,
                after: nat, ghost history: seq<Entry>, capacity: nat)
    returns (ghost next: seq<Entry>)
    requires Intact(store, history, capacity) && Storable(version, data) && |data| <= capacity
    requires Sized(garbage) && Harmless(hitsMaster, garbage)
    modifies store
    ensures Intact(store, next, capacity) && history <= next && |next| == |history| + 1
    ensures var e := Event.UpdateHit(version, data, power, faults, hitsMaster, garbage, after);
      Recorded(e, next[|history|]) && Leaves(e, store)
  {
    hide Good, Storable, Current, Faithful, ValidFile, Fits, Harmless;
    ghost var before := Current(history);
    store.power, store.faults := power, faults;
    var r, struck := UpdateHit(store, version, data, hitsMaster, garbage, after, before);
    FitsMore(before, data, capacity);
    ghost var e := if r == Written && !struck && store.power > 0 then Completed(data) else Interrupted(data);
    CurrentNext(history, e);
    FaithfulNext(history, e);
    next := history + [e];
  }

  ghost predicate Acceptable(e: Event, capacity: nat) {
    match e
    case Update(version, data, _, _) => Storable(version, data) && |data| <= capacity
    case Get(_, _) => true
    case Corrupt(_, garbage) => Sized(garbage)
    case UpdateHit(version, data, _, _, hitsMaster, garbage, _) =>
      Storable(version, data) && |data| <= capacity && Sized(garbage) && Harmless(hitsMaster, garbage)
  }

  /** Over any run one copy stays readable, and every read returns the last completed value or the
      value of a later update that was interrupted. One copy at a time may be corrupted while both are
      readable: any way while the store is idle, and in the harmless ways in the middle of an update. */
  method Run(store: Store, events: seq<Event>, ghost first: Bytes, capacity: nat) returns (ghost history: seq<Entry>)
    requires store.SafeFor({first}) && |first| <= capacity
    requires forall k :: 0 <= k < |events| ==> Acceptable(events[k], capacity)
    modifies store
    ensures history != [] && history[0] == Completed(first) && |history| == |events| + 1
    ensures forall k :: 0 <= k < |events| ==> Recorded(events[k], history[k + 1])
    ensures events != [] ==> Leaves(events[|events| - 1], store)
    ensures Faithful(history) && store.SafeFor(Current(history))
  {
    hide Safe, Good, Current, Faithful, Recorded, Leaves;
    history := [] + [Completed(first)];
    CurrentNext([], Completed(first));
    FirstIsFaithful(first);
    for k := 0 to |events|
      invariant Intact(store, history, capacity)
      invariant |history| == k + 1 && history[0] == Completed(first)
      invariant forall j :: 0 <= j < k ==> Recorded(events[j], history[j + 1])
      invariant k > 0 ==> Leaves(events[k - 1], store)
    {
      match events[k] {
        case Update(version, data, power, faults) =>
          history := RunUpdate(store, version, data, power, faults, history, capacity);
        case Get(power, faults) =>
          history := RunGet(store, power, faults, history, capacity);
        case Corrupt(hitsMaster, garbage) =>
          history := RunCorrupt(store, hitsMaster, garbage, history, capacity);
        case UpdateHit(version, data, power, faults, hitsMaster, garbage, after) =>
          history := RunHit(store, version, data, power, faults, hitsMaster, garbage, after, history, capacity);
      }
    }
  }

  lemma FirstIsFaithful(first: Bytes)
    ensures Faithful([] + [Completed(first)])
  {
  }
}
