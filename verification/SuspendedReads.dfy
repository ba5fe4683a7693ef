/**
 Reads that are suspended between one table and the next, or between one pair and the next,
 while the store goes on.  What a read needs it takes at its start; its answer is that of the
 moment at which it began, as long as nobody closes its readers.
 */
module SuspendedReads {
  import opened Wrappers
  import opened Keys
  import opened Compactions
  import opened LSMStores
  import opened MergeIterators
  import opened ReadableStores
  import opened SortedEntries
  import opened SSTableLayout
  import opened SSTableReaders
  import opened StoreMachine
  import opened TableFiles
  import opened Tables

  /** A lookup in progress. */
  class PointRead {
    const key: Key
    const snapshot: seq<SSTableState>
    var position: nat
    /** Known once a layer has told. */
    var answer: Option<Option<Bytes>>
    ghost const view: map<Key, Bytes>
    ghost const contents: seq<Content>
    ghost const tables: seq<TableFile>

    ghost predicate Valid()
      reads this
    {
      AllServe(snapshot, contents, tables) && position <= |snapshot| &&
      if answer.Some? then answer.value == Lookup(view, key)
      else Lookup(view, key) == Lookup(Live(Combined(tables)), key) && forall i :: 0 <= i < position ==> key !in tables[i].table
    }

    /** Up to its first wait a read looks into the memory tables and notes the readers. */
    constructor Begin(store: LSMStore, key: Key)
      requires store.Valid()
      ensures Valid() && this.key == key && view == View(store.state)
      ensures snapshot == store.sstables && contents == store.contents && position == 0
    {
      hide View, AllServe, Combined, Live, LSMStore.Valid;
      store.ReadersServe();
      var found := store.LookInMemory(key);
      this.key, snapshot, position, answer := key, store.sstables, 0, found;
      view, contents, tables := View(store.state), store.contents, store.state.tables;
    }

    /** It looks into one more table; without a table left the key is nowhere. */
    method Resume() returns (r: Result<()>)
      requires Valid() && answer == None
      modifies this`position, this`answer
      ensures Valid()
      ensures r.Ok? ==> answer.Some? || position == old(position) + 1
      ensures r.Err? ==> answer == None && position == old(position)
      ensures old(position) < |snapshot| && !old(snapshot[position].reader.closed) && AllCovered(contents[old(position)].entries) ==> r.Ok?
      ensures old(position) == |snapshot| ==> r.Ok? && answer.Some?
    {
      hide Serves, Combined, Live, AllCovered;
      if position == |snapshot| {
        FoundNowhere(tables, key);
        answer := Some(None);
        return Ok(());
      }
      assert Serves(snapshot[position], contents[position], tables[position]);
      var found := GetFromTable(snapshot[position], key, contents[position], tables[position]);
      if found.Err? {
        return Err(found.reason);
      }
      if found.value.Some? {
        FoundAt(tables, position, key);
        answer := Some(ValueOf(found.value.value));
      } else {
        position := position + 1;
      }
      r := Ok(());
    }
  }

  /** A range read in progress: first the sources are found, then pairs come one at a time. */
  class RangeRead {
    const lo: Key
    const hi: Key
    const memory: seq<seq<Record>>
    const snapshot: seq<SSTableState>
    var merger: MergeIterator?
    ghost const view: map<Key, Bytes>
    ghost const top: Table
    ghost const contents: seq<Content>
    ghost const tables: seq<TableFile>

    ghost predicate Ready()
      reads this
    {
      AllServe(snapshot, contents, tables) && Gathered(memory, top, lo, hi) && view == Live(Combined(tables) + top)
    }

    /** What is still to come. */
    ghost function Remaining(): seq<Pair<Bytes>>
      requires merger != null && merger.Valid()
      reads this, merger, merger.heap
    {
      Listing(Visible(merger.Pending(), false))
    }

    constructor Begin(store: LSMStore, lo: Key, hi: Key)
      requires store.Valid() && !Less(hi, lo)
      ensures Ready() && merger == null && this.lo == lo && this.hi == hi && view == View(store.state)
      ensures snapshot == store.sstables && contents == store.contents && tables == store.state.tables
    {
      hide View, AllServe, Combined, Live, Gathered, LSMStore.Valid;
      var sources := store.TakeMemory(lo, hi);
      store.ReadersServe();
      ViewIsLive(store.state);
      this.lo, this.hi, memory, snapshot, merger := lo, hi, sources, store.sstables, null;
      view, top := View(store.state), ImmutableTable(store.state) + store.state.active;
      contents, tables := store.contents, store.state.tables;
    }

    /** The tables are read; this is when their readers have to be open. */
    method Open(ghost readers: set<SSTableReader>) returns (r: Result<()>)
      requires Ready() && merger == null
      modifies this`merger
      ensures Ready() && (AllOpen(snapshot, readers) && CoveredFiles(tables) ==> r.Ok?)
      ensures r.Ok? ==>
        merger != null && fresh(merger) && fresh(merger.heap) && merger.Valid() && !merger.includeTombstones &&
        Remaining() == Listing(Restrict(view, lo, hi))
      ensures r.Err? ==> merger == null
    {
      hide AllServe, AllOpen, CoveredFiles, Combined, Live, Restrict, MergeIterator.Valid;
      var all := GatherTables(snapshot, memory, lo, hi, contents, tables, readers, top);
      if all.Err? {
        return Err(all.reason);
      }
      VisibleIsLive(Restrict(Combined(tables) + top, lo, hi));
      RestrictLive(Combined(tables) + top, lo, hi);
      merger := new MergeIterator(all.value, false);
      r := Ok(());
    }

    /** The next pair, whenever it is asked for. */
    method Next() returns (r: Option<Pair<Bytes>>)
      requires merger != null && merger.Valid() && !merger.includeTombstones
      modifies merger, merger.heap
      ensures merger == old(merger) && merger.Valid()
      ensures r == None <==> old(Remaining()) == []
      ensures r.Some? ==> old(Remaining())[0] == r.value && Remaining() == old(Remaining())[1..]
      ensures r == None ==> Remaining() == []
    {
      hide Visible;
      ghost var before := merger.Pending();
      r := merger.Next();
      RemainingAfter(before, merger.Pending(), r);
    }
  }

  lemma RemainingAfter(before: Table, after: Table, r: Option<Pair<Bytes>>)
    requires r == None ==> Visible(before, false) == map[] && after == map[]
    requires r.Some? ==>
      r.value.key in Visible(before, false) && Visible(before, false)[r.value.key] == r.value.value &&
      Visible(after, false) == Visible(before, false) - {r.value.key} && forall x :: x in after ==> Less(r.value.key, x)
    ensures var all, rest := Listing(Visible(before, false)), Listing(Visible(after, false));
      (r == None <==> all == []) && (r == None ==> rest == []) && (r.Some? ==> all[0] == r.value && rest == all[1..])
  {
    var all, rest := Listing(Visible(before, false)), Listing(Visible(after, false));
    EmptyMapList(all);
    EmptyMapList(rest);
    if r.Some? {
      forall x | x in Visible(before, false) - {r.value.key}
        ensures Less(r.value.key, x)
      {
        assert x in Visible(after, false);
      }
      LeastIsFirst(all, r.value);
      SortedListUnique(rest, all[1..]);
    }
  }
}
