/** The in-memory table: a sorted map of versions with a running size estimate. */
module MemTables {
  import opened Wrappers
  import opened Keys
  import opened SortedEntries
  import opened SortedMaps
  import opened Tables

  /** Key bytes, value bytes and a fixed 49 bytes of bookkeeping. */
  function EntrySize(key: Key, entry: Version): (s: nat) {
    |key| + |entry.value| + (8 + 1 + 40)
  }

  /** An entry without key and value counts 49, and every byte of either counts one. */
  lemma EntrySizeLaw(key: Key, entry: Version, b: Byte)
    ensures EntrySize([], entry.(value := [])) == 49
    ensures EntrySize(key + [b], entry) == EntrySize(key, entry) + 1
    ensures EntrySize(key, entry.(value := entry.value + [b])) == EntrySize(key, entry) + 1
  {
  }

  /** The exact size of a table: the sum over its entries. */
  ghost function TotalSize(t: Table): nat {
    if t == map[] then 0
    else
      var k :| k in t;
      EntrySize(k, t[k]) + TotalSize(t - {k})
  }

  lemma {:induction false} TotalSizeTakeOut(t: Table, k: Key)
    requires k in t
    ensures TotalSize(t) == EntrySize(k, t[k]) + TotalSize(t - {k})
    decreases |t|
  {
    var x :| x in t && TotalSize(t) == EntrySize(x, t[x]) + TotalSize(t - {x});
    if x != k {
      TotalSizeTakeOut(t - {x}, k);
      TotalSizeTakeOut(t - {k}, x);
      assert t - {x} - {k} == t - {k} - {x};
    }
  }

  lemma TotalSizeUpdate(t: Table, k: Key, v: Version)
    ensures TotalSize(t[k := v]) + (if k in t then EntrySize(k, t[k]) else 0) == TotalSize(t) + EntrySize(k, v)
  {
    TotalSizeTakeOut(t[k := v], k);
    assert t[k := v] - {k} == t - {k};
    if k in t {
      TotalSizeTakeOut(t, k);
    } else {
      assert t - {k} == t;
    }
  }

  class MemTable {
    const data: SortedMap<Version>
    const sizeLimit: int
    var currentSize: int
    /** Total size, just before the delete, of the entries that deletes have hit since the last clear. */
    ghost var overcount: nat
    ghost var hits: nat

    ghost function Table(): Table
      reads data`tree
    {
      data.Map()
    }

    ghost function Repr(): set<object>
      reads data`nodes
    {
      {this, data} + data.nodes
    }

    /**
     The running size is the exact size less what deletes of present keys took off twice;
     it is exact precisely when no such delete has happened.
     */
    ghost predicate Valid()
      reads this, data, data.nodes
    {
      data.Valid() && currentSize == TotalSize(Table()) - overcount && (hits == 0 <==> overcount == 0)
    }

    constructor (sizeLimit: int)
      ensures Valid() && fresh(Repr()) && Table() == map[] && this.sizeLimit == sizeLimit
      ensures currentSize == 0 && hits == 0
    {
      this.sizeLimit := sizeLimit;
      data := new SortedMap<Version>();
      currentSize, overcount, hits := 0, 0, 0;
    }

    method Put(key: Key, value: Bytes, deleted: bool, now: nat)
      requires Valid()
      modifies this`currentSize, data, data.nodes
      ensures Valid() && fresh(Repr() - old(Repr()))
      ensures Table() == old(Table())[key := Version(value, now, deleted)]
    {
      hide SortedMap.Valid, SortedMap.Map, TotalSize;
      ghost var before := Table();
      var existingEntry := data.Get(key);
      if existingEntry.Some? {
        currentSize := currentSize - EntrySize(key, existingEntry.value);
      }
      var entry := Version(value, now, deleted);
      data.Set(key, entry);
      currentSize := currentSize + EntrySize(key, entry);
      TotalSizeUpdate(before, key, entry);
    }

    method Delete(key: Key, now: nat)
      requires Valid()
      modifies this, data, data.nodes
      ensures Valid() && fresh(Repr() - old(Repr()))
      ensures Table() == old(Table())[key := Version([], now, true)]
      ensures overcount == old(overcount) + (if key in old(Table()) then EntrySize(key, old(Table())[key]) else 0)
      ensures hits == old(hits) + (if key in old(Table()) then 1 else 0)
    {
      ghost var before := Table();
      var existingEntry := data.Get(key);
      if existingEntry.Some? {
        currentSize := currentSize - EntrySize(key, existingEntry.value);
        overcount, hits := overcount + EntrySize(key, existingEntry.value), hits + 1;
      }
      Put(key, [], true, now);
    }

    method Get(key: Key) returns (r: Option<Bytes>)
      requires Valid()
      ensures r == if key in Live(Table()) then Some(Live(Table())[key]) else None
    {
      var entry := data.Get(key);
      r := if entry == None || entry.value.deleted then None else Some(entry.value.value);
    }

    method GetEntry(key: Key) returns (r: Option<Version>)
      requires Valid()
      ensures r == if key in Table() then Some(Table()[key]) else None
    {
      r := data.Get(key);
    }

    method IsFull() returns (full: bool)
      requires Valid()
      ensures full <==> TotalSize(Table()) - overcount >= sizeLimit
    {
      full := currentSize >= sizeLimit;
    }

    method GetAllSorted() returns (r: seq<Record>)
      requires Valid()
      ensures Sorted(r) && MapOf(r) == Table()
    {
      r := data.Entries();
    }

    method GetRange(lo: Key, hi: Key) returns (r: seq<Record>)
      requires Valid()
      ensures Sorted(r) && MapOf(r) == Restrict(Table(), lo, hi)
    {
      r := data.Range(lo, hi);
    }

    method Clear()
      requires Valid()
      modifies this, data
      ensures Valid() && Table() == map[] && currentSize == 0 && hits == 0
    {
      data.Clear();
      currentSize, overcount, hits := 0, 0, 0;
    }
  }
}
