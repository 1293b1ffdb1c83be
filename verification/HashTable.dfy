/** The chained hash table of mid/hash/hashtable.c. The first `loadlimit` cells are the buckets; the
    cells after them hold whatever collides. Chains are linked through cell numbers. */
module HashTable {
  import opened Basics
  import opened WordArith

  /** A cell; next is the number of the following cell, or -1. */
  datatype Entry = Entry(h: word, k: word, v: word, used: bool, next: int)

  const EMPTY := Entry(0, 0, 0, false, -1)

  function ShiftLeft(x: word, n: nat): word
    requires n < 32
  {
    Value(Bits(x) << n)
  }

  function ShiftRight(x: word, n: nat): word
    requires n < 32
  {
    Value(Bits(x) >> n)
  }

  /** `hash`. */
  function Hash(k: word): word {
    var i := Plus(k, Not(ShiftLeft(k, 9)));
    var j := Xor(i, Or(ShiftRight(i, 14), ShiftLeft(i, 18)));
    var l := Plus(j, ShiftLeft(j, 4));
    Xor(l, Or(ShiftRight(l, 10), ShiftLeft(l, 22)))
  }

  // --- chains ---

  /** The value that a walk along the chain finds for a key. */
  ghost function Find(cells: seq<Entry>, chain: seq<nat>, k: word): Option<word> {
    if chain == [] || chain[0] >= |cells| then None
    else if cells[chain[0]].k == k then Some(cells[chain[0]].v)
    else Find(cells, chain[1..], k)
  }

  /** The chain of bucket b: it starts there, goes on through overflow cells, and ends. */
  ghost predicate Chained(cells: seq<Entry>, limit: nat, b: nat, chain: seq<nat>) {
    && (forall i :: 0 <= i < |chain| ==> InChain(cells, limit, b, chain, i))
  }

  ghost predicate InChain(cells: seq<Entry>, limit: nat, b: nat, chain: seq<nat>, i: nat)
    requires i < |chain|
  {
    && chain[i] < |cells| && (if i == 0 then chain[i] == b else chain[i] >= limit)
    && cells[chain[i]].used
    && cells[chain[i]].h == Hash(cells[chain[i]].k) && limit > 0 && cells[chain[i]].h as nat % limit == b
    && cells[chain[i]].next == if i + 1 < |chain| then chain[i + 1] else -1
  }

  /** No cell is in two places. */
  ghost predicate Disjoint(chains: seq<seq<nat>>) {
    forall b, i, c, j ::
      (0 <= b < |chains| && 0 <= i < |chains[b]| && 0 <= c < |chains| && 0 <= j < |chains[c]|
      && chains[b][i] == chains[c][j]) ==> b == c && i == j
  }

  ghost predicate WellFormed(cells: seq<Entry>, limit: nat, chains: seq<seq<nat>>) {
    && 0 < limit <= |cells| && |chains| == limit
    && (forall b :: 0 <= b < limit ==> Chained(cells, limit, b, chains[b]))
    && (forall b :: 0 <= b < limit && cells[b].used ==> chains[b] != [])
    && Disjoint(chains)
    && (forall c :: 0 <= c < |cells| && !cells[c].used ==> cells[c] == EMPTY)
  }

  function Bucket(k: word, limit: nat): (b: nat)
    requires limit > 0
    ensures b < limit
  {
    Hash(k) as nat % limit
  }

  /** The table stores the map: a walk from the bucket of a key finds its value. */
  ghost predicate Represents(cells: seq<Entry>, limit: nat, chains: seq<seq<nat>>, m: map<word, word>)
    requires |chains| == limit > 0
  {
    forall k :: Find(cells, chains[Bucket(k, limit)], k) == if k in m then Some(m[k]) else None
  }

  /** What a walk finds depends on the keys and values of its cells only. */
  lemma {:induction false} FindSame(cells: seq<Entry>, after: seq<Entry>, chain: seq<nat>, k: word)
    requires forall i :: 0 <= i < |chain| ==> chain[i] < |cells| && chain[i] < |after|
    requires forall i :: 0 <= i < |chain| ==>
      after[chain[i]].k == cells[chain[i]].k && after[chain[i]].v == cells[chain[i]].v
    ensures Find(cells, chain, k) == Find(after, chain, k)
    decreases |chain|
  {
    if chain != [] {
      FindSame(cells, after, chain[1..], k);
    }
  }

  /** A cell at the end of a chain is found only when nothing before it is. */
  lemma {:induction false} FindLast(cells: seq<Entry>, chain: seq<nat>, c: nat, k: word)
    requires c < |cells| && forall i :: 0 <= i < |chain| ==> chain[i] < |cells|
    ensures Find(cells, chain + [c], k) ==
      if Find(cells, chain, k).Some? then Find(cells, chain, k)
      else if cells[c].k == k then Some(cells[c].v) else None
    decreases |chain|
  {
    if chain == [] {
      assert (chain + [c])[1..] == [];
    } else {
      FindLast(cells, chain[1..], c, k);
      assert (chain + [c])[1..] == chain[1..] + [c];
    }
  }

  /** The map after a successful insertion: the first value of a key stays. */
  function Inserted(m: map<word, word>, k: word, v: word): map<word, word> {
    if k in m then m else m[k := v]
  }

  /** Putting a new cell c at the end of the chain of bucket b. */
  ghost predicate Extends(cells: seq<Entry>, after: seq<Entry>, limit: nat, chains: seq<seq<nat>>, k: word, v: word, c: nat)
    requires |chains| == limit > 0
  {
    var b := Bucket(k, limit);
    var chain := chains[b];
    && c < |cells| == |after| && !cells[c].used
    && (if chain == [] then c == b else c >= limit)
    && after[c] == Entry(Hash(k), k, v, true, -1)
    && (chain != [] ==> chain[|chain| - 1] < |cells| && after[chain[|chain| - 1]] == cells[chain[|chain| - 1]].(next := c))
    && forall d :: 0 <= d < |cells| && d != c && (chain == [] || d != chain[|chain| - 1]) ==> after[d] == cells[d]
  }

  lemma ExtendedChain(cells: seq<Entry>, after: seq<Entry>, limit: nat, chains: seq<seq<nat>>, k: word, v: word, c: nat)
    requires WellFormed(cells, limit, chains) && Extends(cells, after, limit, chains, k, v, c)
    ensures var b := Bucket(k, limit); Chained(after, limit, b, chains[b] + [c])
  {
    hide Hash, Disjoint;
    var b := Bucket(k, limit);
    var chain := chains[b];
    forall i | 0 <= i <= |chain| ensures InChain(after, limit, b, chain + [c], i) {
      if i < |chain| {
        assert InChain(cells, limit, b, chain, i);
        if i + 1 < |chain| {
          assert InChain(cells, limit, b, chain, i + 1) && InChain(cells, limit, b, chain, |chain| - 1);
          NextTells(cells, limit, b, chain, i);
        }
      }
    }
  }

  lemma NextTells(cells: seq<Entry>, limit: nat, b: nat, chain: seq<nat>, i: nat)
    requires i + 1 < |chain| && InChain(cells, limit, b, chain, i) && InChain(cells, limit, b, chain, |chain| - 1)
    ensures chain[i] != chain[|chain| - 1]
  {
    hide Hash;
  }

  lemma OtherChain(cells: seq<Entry>, after: seq<Entry>, limit: nat, chains: seq<seq<nat>>, k: word, v: word, c: nat, o: nat)
    requires WellFormed(cells, limit, chains) && Extends(cells, after, limit, chains, k, v, c)
    requires o < limit && o != Bucket(k, limit)
    ensures Chained(after, limit, o, chains[o])
    ensures forall i :: 0 <= i < |chains[o]| ==> chains[o][i] < |cells| && after[chains[o][i]] == cells[chains[o][i]]
  {
    hide Hash;
    var b := Bucket(k, limit);
    forall i | 0 <= i < |chains[o]| ensures InChain(after, limit, o, chains[o], i) && after[chains[o][i]] == cells[chains[o][i]] {
      assert InChain(cells, limit, o, chains[o], i);
      if chains[b] != [] {
        assert chains[o][i] != chains[b][|chains[b]| - 1];
      }
    }
  }

  lemma ExtendedDisjoint(cells: seq<Entry>, limit: nat, chains: seq<seq<nat>>, b: nat, c: nat)
    requires WellFormed(cells, limit, chains) && b < limit && c < |cells| && !cells[c].used
    ensures Disjoint(chains[b := chains[b] + [c]])
  {
    hide Hash;
    var next := chains[b := chains[b] + [c]];
    forall o, i | 0 <= o < |chains| && 0 <= i < |chains[o]| ensures chains[o][i] != c {
      assert InChain(cells, limit, o, chains[o], i);
    }
  }

  lemma ExtendedCells(cells: seq<Entry>, after: seq<Entry>, limit: nat, chains: seq<seq<nat>>, k: word, v: word, c: nat)
    requires WellFormed(cells, limit, chains) && Extends(cells, after, limit, chains, k, v, c)
    ensures forall d :: 0 <= d < |after| && !after[d].used ==> after[d] == EMPTY
    ensures var b := Bucket(k, limit);
      forall d :: 0 <= d < limit && after[d].used ==> chains[b := chains[b] + [c]][d] != []
  {
    hide Hash, Disjoint;
    var b := Bucket(k, limit);
    if chains[b] != [] {
      assert InChain(cells, limit, b, chains[b], |chains[b]| - 1);
    }
  }

  /** Insertion keeps the chains whole and apart. */
  lemma ExtendedWellFormed(cells: seq<Entry>, after: seq<Entry>, limit: nat, chains: seq<seq<nat>>, k: word, v: word, c: nat)
    requires WellFormed(cells, limit, chains) && Extends(cells, after, limit, chains, k, v, c)
    ensures var b := Bucket(k, limit); WellFormed(after, limit, chains[b := chains[b] + [c]])
  {
    hide Hash, Chained, Disjoint;
    var b := Bucket(k, limit);
    ExtendedChain(cells, after, limit, chains, k, v, c);
    ExtendedDisjoint(cells, limit, chains, b, c);
    ExtendedCells(cells, after, limit, chains, k, v, c);
    forall o | 0 <= o < limit && o != b ensures Chained(after, limit, o, chains[o]) {
      OtherChain(cells, after, limit, chains, k, v, c, o);
    }
  }

  /** The table after an insertion represents the map with the new key. */
  lemma ExtendedRepresents(cells: seq<Entry>, after: seq<Entry>, limit: nat, chains: seq<seq<nat>>, k: word, v: word, c: nat,
                           m: map<word, word>)
    requires WellFormed(cells, limit, chains) && Represents(cells, limit, chains, m)
    requires Extends(cells, after, limit, chains, k, v, c)
    requires WellFormed(after, limit, chains[Bucket(k, limit) := chains[Bucket(k, limit)] + [c]])
    ensures Represents(after, limit, chains[Bucket(k, limit) := chains[Bucket(k, limit)] + [c]], Inserted(m, k, v))
  {
    hide Hash, Disjoint;
    var b := Bucket(k, limit);
    var next, m' := chains[b := chains[b] + [c]], Inserted(m, k, v);
    forall key ensures Find(after, next[Bucket(key, limit)], key) == if key in m' then Some(m'[key]) else None {
      var o := Bucket(key, limit);
      if o != b {
        OtherChain(cells, after, limit, chains, k, v, c, o);
        FindSame(cells, after, chains[o], key);
      } else {
        KeysStay(cells, after, limit, chains, k, v, c);
        FindSame(cells, after, chains[b], key);
        FindLast(after, chains[b], c, key);
      }
    }
  }

  lemma KeysStay(cells: seq<Entry>, after: seq<Entry>, limit: nat, chains: seq<seq<nat>>, k: word, v: word, c: nat)
    requires WellFormed(cells, limit, chains) && Extends(cells, after, limit, chains, k, v, c)
    ensures var chain := chains[Bucket(k, limit)];
      forall i :: 0 <= i < |chain| ==>
        chain[i] < |cells| && after[chain[i]].k == cells[chain[i]].k && after[chain[i]].v == cells[chain[i]].v
  {
    hide Hash;
    var b := Bucket(k, limit);
    forall i | 0 <= i < |chains[b]| ensures chains[b][i] < |cells| && chains[b][i] != c {
      assert InChain(cells, limit, b, chains[b], i);
    }
  }

  // --- the table ---

  class Table {
    var table: array<Entry>
    var loadlimit: word
    var entrycount: word
    ghost var chains: seq<seq<nat>>
    ghost var m: map<word, word>  // the first value inserted for each key

    /** A table before `hashtable_init`. */
    constructor () {
      table := new Entry[0];
    }

    ghost predicate Valid()
      reads this, table
    {
      && entrycount <= loadlimit
      && WellFormed(table[..], loadlimit as nat, chains)
      && Represents(table[..], loadlimit as nat, chains, m)
    }

    /** `hashtable_init`. Every limit is accepted, though only one between 1 and the size gives a table that
        can be used. */
    method Init(limit: word, e: array?<Entry>, size: word) returns (r: int)
      requires e != null ==> e.Length == size as nat
      modifies this, e
      ensures r == if e == null || size > 0x4000_0000 then -1 else 0
      ensures r != 0 ==> unchanged(this) && (e != null ==> unchanged(e))
      ensures r == 0 ==> table == e && loadlimit == limit && entrycount == 0 && m == map[]
      ensures r == 0 ==> forall c :: 0 <= c < table.Length ==> table[c] == EMPTY
      ensures r == 0 ==> (Valid() <==> 0 < limit <= size)
    {
      if size > 0x4000_0000 {
        return -1;
      }
      if e == null {
        return -1;
      }
      table := e;
      forall c | 0 <= c < e.Length {
        e[c] := EMPTY;
      }
      loadlimit, entrycount := limit, 0;
      chains := seq(limit as nat, _ => []);
      m := map[];
      r := 0;
    }

    /** Whether a cell before the last of its chain holds the key: the last one is not compared. */
    ghost predicate Duplicate(k: word)
      requires Valid()
      reads this, table
    {
      var chain := chains[Bucket(k, loadlimit as nat)];
      exists i :: 0 <= i < |chain| - 1 && chain[i] < table.Length && table[chain[i]].k == k
    }

    /** Whether the bucket of the key and every overflow cell are in use. */
    ghost predicate Crowded(k: word)
      requires Valid()
      reads this, table
    {
      && table[Bucket(k, loadlimit as nat)].used
      && forall d :: loadlimit as nat <= d < table.Length ==> table[d].used
    }

    /** The loop of `hashtable_insert` along the chain: whether one of the cells before the last holds the
        key, and the last cell. */
    method Walk(k: word) returns (duplicate: bool, last: nat)
      requires Valid() && chains[Bucket(k, loadlimit as nat)] != []
      ensures last < table.Length
      ensures var chain := chains[Bucket(k, loadlimit as nat)];
        && (duplicate <==> Duplicate(k))
        && (!duplicate ==> last == chain[|chain| - 1])
    {
      hide Hash, Disjoint, Represents;
      var b := Bucket(k, loadlimit as nat);
      ghost var chain := chains[b];
      assert InChain(table[..], loadlimit as nat, b, chain, 0);
      var e := b;
      ghost var i := 0;
      while table[e].next != -1
        invariant 0 <= i < |chain| && e == chain[i] && e < table.Length
        invariant InChain(table[..], loadlimit as nat, b, chain, i)
        invariant forall j :: 0 <= j < i ==> chain[j] < table.Length && table[chain[j]].k != k
        decreases |chain| - i
      {
        if k == table[e].k {
          return true, e;
        }
        assert i + 1 < |chain|;
        assert InChain(table[..], loadlimit as nat, b, chain, i + 1);
        e := table[e].next;
        i := i + 1;
      }
      return false, e;
    }

    /** The loop of `hashtable_insert` that looks for an unused overflow cell. */
    method FindUnused() returns (c: nat)
      requires loadlimit as nat <= table.Length
      ensures loadlimit as nat <= c <= table.Length && (c < table.Length ==> !table[c].used)
      ensures forall d :: loadlimit as nat <= d < c ==> table[d].used
    {
      c := loadlimit as nat;
      while c < table.Length && table[c].used
        invariant loadlimit as nat <= c <= table.Length
        invariant forall d :: loadlimit as nat <= d < c ==> table[d].used
      {
        c := c + 1;
      }
    }

    /** The end of a successful insertion. */
    ghost method Record(before: seq<Entry>, k: word, v: word, c: nat)
      requires WellFormed(before, loadlimit as nat, chains) && Represents(before, loadlimit as nat, chains, m)
      requires Extends(before, table[..], loadlimit as nat, chains, k, v, c) && entrycount <= loadlimit
      modifies this`chains, this`m
      ensures Valid() && m == Inserted(old(m), k, v)
    {
      hide Hash, WellFormed, Represents, Extends;
      SizeOfChains(before, loadlimit as nat, chains);
      var b := Bucket(k, loadlimit as nat);
      ExtendedWellFormed(before, table[..], loadlimit as nat, chains, k, v, c);
      ExtendedRepresents(before, table[..], loadlimit as nat, chains, k, v, c, m);
      m := Inserted(m, k, v);
      chains := chains[b := chains[b] + [c]];
    }

    /** `hashtable_insert`. */
    method Insert(k: word, v: word) returns (r: int)
      requires Valid() || (loadlimit == 0 && entrycount == 0)
      modifies this`entrycount, this`chains, this`m, table
      ensures old(Valid()) ==> Valid()
      ensures r in {0, -1, -2, -3} && (r == -1 <==> old(entrycount) == loadlimit)
      ensures r == 0 ==> m == Inserted(old(m), k, v)
      ensures r == -2 <==> old(entrycount) < loadlimit && old(Duplicate(k))
      ensures r == -2 ==> k in m
      ensures r == -3 <==> old(entrycount) < loadlimit && old(!Duplicate(k) && Crowded(k))
      ensures r != 0 ==> m == old(m) && table[..] == old(table[..])
      ensures entrycount == if r == -1 then old(entrycount) else old(entrycount) + 1
    {
      hide Hash, Disjoint, Represents;
      if entrycount == loadlimit {
        return -1;
      }
      entrycount := entrycount + 1;
      var index := Bucket(k, loadlimit as nat);
      ghost var before := table[..];
      if !table[index].used {
        BucketUnused(table[..], loadlimit as nat, chains, index);
        table[index] := Entry(Hash(k), k, v, true, table[index].next);
        Record(before, k, v, index);
      } else {
        var duplicate, last := Walk(k);
        if duplicate {
          DuplicateIsStored(table[..], loadlimit as nat, chains, m, k);
          return -2;
        }
        var c := FindUnused();
        if c >= table.Length {
          return -3;
        }
        LastIsUsed(table[..], loadlimit as nat, chains, index);
        table[last] := table[last].(next := c);
        table[c] := Entry(Hash(k), k, v, true, table[c].next);
        Record(before, k, v, c);
      }
      r := 0;
    }

    /** The loop of `hashtable_search`. */
    method Follow(k: word) returns (r: Option<word>)
      requires Valid()
      ensures var b := Bucket(k, loadlimit as nat);
        r == if table[b].used then Find(table[..], chains[b], k) else if k == 0 && Hash(k) == 0 then Some(0) else None
    {
      hide Hash, Disjoint, Represents;
      var limit := loadlimit as nat;
      var b := Bucket(k, limit);
      ghost var chain := chains[b];
      var e: int := b;
      ghost var i := 0;
      if !table[b].used {
        BucketUnused(table[..], limit, chains, b);
      } else {
        assert InChain(table[..], limit, b, chain, 0);
      }
      while e != -1
        invariant -1 <= e < table.Length && 0 <= i <= |chain|
        invariant chain == [] ==> i == 0 && (e == b || e == -1) && table[b] == EMPTY
        invariant chain != [] ==> table[b].used && e == if i < |chain| then chain[i] else -1
        invariant chain == [] && e == -1 ==> k != 0 || Hash(k) != 0
        invariant Find(table[..], chain, k) == Find(table[..], chain[i..], k)
        decreases |chain| - i, e != -1
      {
        if Hash(k) == table[e].h && k == table[e].k {
          return Some(table[e].v);
        }
        e := table[e].next;
        if chain != [] {
          assert InChain(table[..], limit, b, chain, i);
          assert chain[i..][1..] == chain[i + 1..];
          if i + 1 < |chain| {
            assert InChain(table[..], limit, b, chain, i + 1);
          }
          i := i + 1;
        }
      }
      return None;
    }

    /** `hashtable_search`. Key 0 is the one key that also matches a cell that was never used. */
    method Search(k: word) returns (r: Option<word>)
      requires Valid()
      ensures k != 0 ==> r == if k in m then Some(m[k]) else None
      ensures k == 0 ==> r == if !table[0].used then Some(0) else if 0 in m then Some(m[0]) else None
    {
      assert loadlimit > 0 && loadlimit as nat <= table.Length;
      hide Hash, WellFormed, Represents, Find, Bucket;
      BucketOfZero(loadlimit as nat);
      r := Follow(k);
      NotStored(table[..], loadlimit as nat, chains, m, k);
    }
  }

  lemma NotStored(cells: seq<Entry>, limit: nat, chains: seq<seq<nat>>, m: map<word, word>, k: word)
    requires WellFormed(cells, limit, chains) && Represents(cells, limit, chains, m)
    ensures Find(cells, chains[Bucket(k, limit)], k) == if k in m then Some(m[k]) else None
    ensures !cells[Bucket(k, limit)].used ==> k !in m
  {
    hide Hash, Disjoint;
    if !cells[Bucket(k, limit)].used {
      BucketUnused(cells, limit, chains, Bucket(k, limit));
    }
  }

  lemma SizeOfChains(cells: seq<Entry>, limit: nat, chains: seq<seq<nat>>)
    requires WellFormed(cells, limit, chains)
    ensures |chains| == limit && limit > 0
  {
  }

  lemma BucketUnused(cells: seq<Entry>, limit: nat, chains: seq<seq<nat>>, b: nat)
    requires WellFormed(cells, limit, chains) && b < limit && !cells[b].used
    ensures chains[b] == [] && cells[b] == EMPTY
  {
    if chains[b] != [] {
      FirstIsUsed(cells, limit, chains, b);
    }
  }

  lemma FirstIsUsed(cells: seq<Entry>, limit: nat, chains: seq<seq<nat>>, b: nat)
    requires WellFormed(cells, limit, chains) && b < limit && chains[b] != []
    ensures cells[b].used
  {
    hide Hash, Disjoint;
    assert InChain(cells, limit, b, chains[b], 0);
  }

  lemma LastIsUsed(cells: seq<Entry>, limit: nat, chains: seq<seq<nat>>, b: nat)
    requires WellFormed(cells, limit, chains) && b < limit && cells[b].used
    ensures chains[b] != [] && chains[b][|chains[b]| - 1] < |cells| && cells[chains[b][|chains[b]| - 1]].used
  {
    hide Hash, Disjoint;
    assert InChain(cells, limit, b, chains[b], |chains[b]| - 1);
  }

  lemma DuplicateIsStored(cells: seq<Entry>, limit: nat, chains: seq<seq<nat>>, m: map<word, word>, k: word)
    requires WellFormed(cells, limit, chains) && Represents(cells, limit, chains, m)
    requires exists i :: 0 <= i < |chains[Bucket(k, limit)]| && chains[Bucket(k, limit)][i] < |cells|
               && cells[chains[Bucket(k, limit)][i]].k == k
    ensures k in m
  {
    hide Hash, Disjoint;
    var chain := chains[Bucket(k, limit)];
    var i :| 0 <= i < |chain| && chain[i] < |cells| && cells[chain[i]].k == k;
    forall j | 0 <= j < |chain| ensures chain[j] < |cells| {
      assert InChain(cells, limit, Bucket(k, limit), chain, j);
    }
    FoundInChain(cells, chain, k, i);
  }

  lemma {:induction false} FoundInChain(cells: seq<Entry>, chain: seq<nat>, k: word, i: nat)
    requires i < |chain| && (forall j :: 0 <= j < |chain| ==> chain[j] < |cells|) && cells[chain[i]].k == k
    ensures Find(cells, chain, k).Some?
    decreases |chain|
  {
    if i > 0 {
      FoundInChain(cells, chain[1..], k, i - 1);
    }
  }

  const ONES: word := 0xFFFF_FFFF

  lemma BitConstants()
    ensures Bits(0) == 0 && Bits(ONES) == 0xFFFF_FFFF && Value(0) == 0 && Value(0xFFFF_FFFF) == ONES
  {
  }

  lemma ShiftsOfZero()
    ensures ShiftLeft(0, 9) == 0 && ShiftLeft(0, 4) == 0 && ShiftRight(0, 10) == 0 && ShiftLeft(0, 22) == 0
    ensures Not(0) == ONES && Or(0, 0) == 0 && Xor(0, 0) == 0
  {
    BitConstants();
    hide Bits, Value;
  }

  lemma ShiftsOfOnes()
    ensures Or(ShiftRight(ONES, 14), ShiftLeft(ONES, 18)) == ONES && Xor(ONES, ONES) == 0
  {
    BitConstants();
    BitsOfValue(Bits(ONES) >> 14);
    BitsOfValue(Bits(ONES) << 18);
    hide Bits, Value;
  }

  /** Key 0 hashes to 0, which is what an unused cell holds. */
  lemma HashZero()
    ensures Hash(0) == 0
  {
    hide Not, Or, Xor, ShiftLeft, ShiftRight;
    ShiftsOfZero();
    ShiftsOfOnes();
  }

  /** The hash of one key, step by step. */
  lemma HashOfOneKey()
    ensures Hash(0x12345678) == 0xF778BA7B
  {
    Scrambled();
    Folded();
    hide Not, Or, Xor, ShiftLeft, ShiftRight, Plus;
  }

  lemma Scrambled()
    ensures Plus(0x12345678, Not(ShiftLeft(0x12345678, 9))) == 0xA9876677
    ensures Xor(0xA9876677, Or(ShiftRight(0xA9876677, 14), ShiftLeft(0xA9876677, 18))) == 0x3059C06A
  {
    assert ShiftLeft(0x12345678, 9) == 0x68ACF000 && Not(0x68ACF000) == 0x97530FFF;
    assert ShiftRight(0xA9876677, 14) == 0x0002A61D && ShiftLeft(0xA9876677, 18) == 0x99DC0000;
    assert Or(0x0002A61D, 0x99DC0000) == 0x99DEA61D && Xor(0xA9876677, 0x99DEA61D) == 0x3059C06A;
    hide Not, Or, Xor, ShiftLeft, ShiftRight;
  }

  lemma Folded()
    ensures Plus(0x3059C06A, ShiftLeft(0x3059C06A, 4)) == 0x35F5C70A
    ensures Xor(0x35F5C70A, Or(ShiftRight(0x35F5C70A, 10), ShiftLeft(0x35F5C70A, 22))) == 0xF778BA7B
  {
    assert ShiftLeft(0x3059C06A, 4) == 0x059C06A0;
    assert ShiftRight(0x35F5C70A, 10) == 0x000D7D71 && ShiftLeft(0x35F5C70A, 22) == 0xC2800000;
    assert Or(0x000D7D71, 0xC2800000) == 0xC28D7D71 && Xor(0x35F5C70A, 0xC28D7D71) == 0xF778BA7B;
    hide Not, Or, Xor, ShiftLeft, ShiftRight;
  }

  lemma BucketOfZero(limit: nat)
    requires limit > 0
    ensures Hash(0) == 0 && Bucket(0, limit) == 0
  {
    HashZero();
  }
}
