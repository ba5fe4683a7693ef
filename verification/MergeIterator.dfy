/**
 The k-way merge over sorted sources, newest first: one heap entry per source that still
 has records, the least key first and, for equal keys, the newest source first.
 */
module MergeIterators {
  import opened Wrappers
  import opened Keys
  import opened SortedEntries
  import opened Tables
  import opened MinHeaps

  datatype HeapEntry = HeapEntry(key: Key, version: Version, sourceIndex: nat)

  function CompareHeapEntries(a: HeapEntry, b: HeapEntry): int {
    if Less(a.key, b.key) then -1
    else if Less(b.key, a.key) then 1
    else a.sourceIndex - b.sourceIndex
  }

  lemma CompareHeapEntriesLawful()
    ensures Lawful(CompareHeapEntries)
  {
    forall a: HeapEntry, b: HeapEntry
      ensures CompareHeapEntries(a, b) <= 0 || CompareHeapEntries(b, a) <= 0
      ensures CompareHeapEntries(a, b) < 0 <==> !(CompareHeapEntries(b, a) <= 0)
    {
      CompareLaws(a.key, b.key);
    }
    forall a: HeapEntry, b: HeapEntry, c: HeapEntry | CompareHeapEntries(a, b) <= 0 && CompareHeapEntries(b, c) <= 0
      ensures CompareHeapEntries(a, c) <= 0
    {
      CompareLaws(a.key, b.key);
      CompareLaws(b.key, c.key);
      CompareLaws(a.key, c.key);
      OrderCycle(a.key, b.key, c.key);
      OrderCycle(b.key, c.key, a.key);
      OrderCycle(c.key, a.key, b.key);
    }
  }

  /** The tables of the sources' unread records. */
  ghost function TablesOf(sources: seq<seq<Record>>): seq<Table> {
    seq(|sources|, i requires 0 <= i < |sources| => MapOf(sources[i]))
  }

  ghost function TotalLength(sources: seq<seq<Record>>): nat {
    if sources == [] then 0 else |sources[0]| + TotalLength(sources[1..])
  }

  lemma {:induction false} TotalLengthUpdate(s: seq<seq<Record>>, i: nat, x: seq<Record>)
    requires i < |s|
    ensures TotalLength(s[i := x]) + |s[i]| == TotalLength(s) + |x|
  {
    if i > 0 {
      assert s[i := x][1..] == s[1..][i - 1 := x];
      TotalLengthUpdate(s[1..], i - 1, x);
    }
  }

  lemma {:induction false} TotalLengthLess(s: seq<seq<Record>>, t: seq<seq<Record>>)
    requires |s| == |t| && forall i :: 0 <= i < |s| ==> |t[i]| <= |s[i]|
    ensures TotalLength(t) <= TotalLength(s)
    ensures TotalLength(t) == TotalLength(s) ==> forall i :: 0 <= i < |s| ==> |t[i]| == |s[i]|
  {
    if s != [] {
      TotalLengthLess(s[1..], t[1..]);
      if TotalLength(t) == TotalLength(s) {
        assert forall i :: 0 < i < |s| ==> s[i] == s[1..][i - 1] && t[i] == t[1..][i - 1];
      }
    }
  }

  lemma MultisetPlus<T>(s: set<T>, x: T)
    requires x !in s
    ensures multiset(s + {x}) == multiset(s) + multiset{x}
  {
  }

  lemma MultisetMinus<T>(s: set<T>, x: T)
    requires x in s
    ensures multiset(s - {x}) == multiset(s) - multiset{x}
  {
  }

  /** Taking a key out changes the visible view only if the key is visible. */
  lemma VisibleWithout(t: Table, k: Key, tombstones: bool)
    requires k in t
    ensures Visible(t - {k}, tombstones) == Visible(t, tombstones) - {k}
    ensures t[k].deleted && !tombstones ==> Visible(t - {k}, tombstones) == Visible(t, tombstones)
  {
  }

  // ----- The reading position of every source -----

  /** For each source: how many records its `next` has handed out, and whether the last one is in the heap. */
  datatype Cursor = Cursor(taken: nat, inHeap: bool)

  ghost predicate WellPlaced(sources: seq<seq<Record>>, cs: seq<Cursor>) {
    |cs| == |sources| &&
    (forall i :: 0 <= i < |sources| ==> Sorted(sources[i])) &&
    (forall i :: 0 <= i < |sources| ==> cs[i].taken <= |sources[i]| && (cs[i].inHeap ==> cs[i].taken > 0))
  }

  /** The heap entry of a source: the record its `next` returned last. */
  ghost function Head(sources: seq<seq<Record>>, cs: seq<Cursor>, i: nat): HeapEntry
    requires WellPlaced(sources, cs) && i < |sources| && cs[i].inHeap
  {
    var r := sources[i][cs[i].taken - 1];
    HeapEntry(r.key, r.value, i)
  }

  ghost function Heads(sources: seq<seq<Record>>, cs: seq<Cursor>): set<HeapEntry>
    requires WellPlaced(sources, cs)
  {
    set i | 0 <= i < |sources| && cs[i].inHeap :: Head(sources, cs, i)
  }

  /** The records of each source not yet merged, its heap entry included. */
  ghost function Unread(sources: seq<seq<Record>>, cs: seq<Cursor>): (u: seq<seq<Record>>)
    requires WellPlaced(sources, cs)
    ensures |u| == |sources|
  {
    seq(|sources|, i requires 0 <= i < |sources| => sources[i][cs[i].taken - (if cs[i].inHeap then 1 else 0)..])
  }

  /** Nothing has to be fetched from a source: its next record is in the heap, or it is exhausted. */
  ghost predicate Settled(source: seq<Record>, c: Cursor) {
    c.inHeap || c.taken >= |source|
  }

  /** Fetching the next record into the heap adds one head and leaves the unread records as they are. */
  lemma FetchHead(sources: seq<seq<Record>>, cs: seq<Cursor>, i: nat)
    requires WellPlaced(sources, cs) && i < |sources| && !Settled(sources[i], cs[i])
    ensures var cs' := cs[i := Cursor(cs[i].taken + 1, true)]; var r := sources[i][cs[i].taken];
      WellPlaced(sources, cs') && Unread(sources, cs') == Unread(sources, cs) &&
      HeapEntry(r.key, r.value, i) !in Heads(sources, cs) &&
      Heads(sources, cs') == Heads(sources, cs) + {HeapEntry(r.key, r.value, i)}
  {
    var cs' := cs[i := Cursor(cs[i].taken + 1, true)];
    var e := Head(sources, cs', i);
    forall x
      ensures x in Heads(sources, cs') <==> x in Heads(sources, cs) || x == e
    {
      if x in Heads(sources, cs) {
        var j :| 0 <= j < |sources| && cs[j].inHeap && Head(sources, cs, j) == x;
        assert Head(sources, cs', j) == x;
      }
      if x in Heads(sources, cs') {
        var j :| 0 <= j < |sources| && cs'[j].inHeap && Head(sources, cs', j) == x;
        assert j != i ==> Head(sources, cs, j) == x;
      }
    }
  }

  /** Taking a head out of the heap removes the first unread record of its source. */
  lemma TakeHead(sources: seq<seq<Record>>, cs: seq<Cursor>, i: nat)
    requires WellPlaced(sources, cs) && i < |sources| && cs[i].inHeap
    ensures var cs' := cs[i := Cursor(cs[i].taken, false)]; var u := Unread(sources, cs)[i];
      WellPlaced(sources, cs') && Heads(sources, cs') == Heads(sources, cs) - {Head(sources, cs, i)} &&
      u != [] && Head(sources, cs, i) == HeapEntry(u[0].key, u[0].value, i) &&
      Unread(sources, cs') == Unread(sources, cs)[i := u[1..]]
  {
    var cs' := cs[i := Cursor(cs[i].taken, false)];
    var e := Head(sources, cs, i);
    forall x
      ensures x in Heads(sources, cs') <==> x in Heads(sources, cs) && x != e
    {
      if x in Heads(sources, cs) {
        var j :| 0 <= j < |sources| && cs[j].inHeap && Head(sources, cs, j) == x;
        assert j != i ==> Head(sources, cs', j) == x;
      }
      if x in Heads(sources, cs') {
        var j :| 0 <= j < |sources| && cs'[j].inHeap && Head(sources, cs', j) == x;
        assert Head(sources, cs, j) == x;
      }
    }
  }

  // ----- One round of the merge -----

  /** What a round takes from a source whose next key is `k`. */
  ghost function Skip(u: seq<Record>, k: Key): seq<Record> {
    if u != [] && u[0].key == k then u[1..] else u
  }

  /** `k` is the least next key of all sources, and source `w` is the newest that has it next. */
  ghost predicate Winner(us: seq<seq<Record>>, k: Key, w: nat) {
    w < |us| && us[w] != [] && us[w][0].key == k &&
    (forall i :: 0 <= i < |us| ==> Sorted(us[i]) && (us[i] != [] ==> AtMost(k, us[i][0].key))) &&
    (forall i :: 0 <= i < w && us[i] != [] ==> us[i][0].key != k)
  }

  lemma SkipMap(u: seq<Record>, k: Key)
    requires Sorted(u) && (u != [] ==> AtMost(k, u[0].key))
    ensures MapOf(Skip(u, k)) == MapOf(u) - {k}
    ensures k in MapOf(u) <==> u != [] && u[0].key == k
    ensures k in MapOf(u) ==> MapOf(u)[k] == u[0].value
    ensures forall x :: x in MapOf(Skip(u, k)) ==> Less(k, x)
  {
    if u != [] {
      MapWithoutFirst(u);
      LessIrreflexive(k);
      forall x | x in MapOf(u)
        ensures x == u[0].key || Less(u[0].key, x)
      {
        assert x != u[0].key ==> x in MapOf(u[1..]);
      }
      forall x | x in MapOf(u) && Less(k, u[0].key)
        ensures Less(k, x)
      {
        if x != u[0].key { LessTransitive(k, u[0].key, x); }
      }
      if u[0].key != k {
        assert k !in MapOf(u);
        assert MapOf(u) - {k} == MapOf(u);
      }
    }
  }

  /** A round removes exactly the winning key, whose newest version is the winner's. */
  lemma RoundEffect(us: seq<seq<Record>>, us': seq<seq<Record>>, k: Key, w: nat)
    requires Winner(us, k, w)
    requires |us'| == |us| && forall i :: 0 <= i < |us| ==> us'[i] == Skip(us[i], k)
    ensures var t := Overlay(TablesOf(us));
      k in t && t[k] == us[w][0].value && Overlay(TablesOf(us')) == t - {k} &&
      forall x :: x in t && x != k ==> Less(k, x)
  {
    var ts, ts' := TablesOf(us), TablesOf(us');
    forall i | 0 <= i < |us|
      ensures ts'[i] == ts[i] - {k} && (i < w ==> k !in ts[i])
    {
      SkipMap(us[i], k);
    }
    SkipMap(us[w], k);
    OverlayFirst(ts, w, k);
    OverlayWithout(ts, ts', k);
    forall x | x in Overlay(ts) && x != k
      ensures Less(k, x)
    {
      OverlayKey(ts', x);
      var i :| 0 <= i < |ts'| && x in ts'[i];
      SkipMap(us[i], k);
    }
  }

  /** What a round does to what is pending. */
  lemma RoundDone(us: seq<seq<Record>>, us': seq<seq<Record>>, k: Key, w: nat)
    requires Winner(us, k, w)
    requires |us'| == |us| && forall i :: 0 <= i < |us| ==> us'[i] == Skip(us[i], k)
    ensures var t, t' := Overlay(TablesOf(us)), Overlay(TablesOf(us'));
      k in t && t[k] == us[w][0].value && t' == t - {k} && forall x :: x in t' ==> Less(k, x)
    ensures TotalLength(us') < TotalLength(us)
  {
    RoundEffect(us, us', k, w);
    TotalLengthLess(us, us');
    assert us'[w] == Skip(us[w], k);
  }

  lemma {:induction false} OverlayKey(layers: seq<Table>, k: Key)
    requires k in Overlay(layers)
    ensures exists i :: 0 <= i < |layers| && k in layers[i]
  {
    if forall i :: 0 <= i < |layers| ==> k !in layers[i] {
      OverlayAbsent(layers, k);
    }
  }

  class MergeIterator {
    const sources: seq<seq<Record>>
    const includeTombstones: bool
    const heap: MinHeap<HeapEntry>
    var cursors: seq<Cursor>
    var initialized: bool

    /** The heap holds exactly the heads of the sources that have one. */
    ghost predicate Consistent()
      reads this, heap
    {
      WellPlaced(sources, cursors) && heap.Valid() && heap.compare == CompareHeapEntries &&
      multiset(heap.heap) == multiset(Heads(sources, cursors))
    }

    ghost predicate Valid()
      reads this, heap
    {
      Consistent() &&
      forall i :: 0 <= i < |sources| ==> if initialized then Settled(sources[i], cursors[i]) else !cursors[i].inHeap
    }

    /** What is still to be merged: the newest unread version of every key. */
    ghost function Pending(): Table
      requires WellPlaced(sources, cursors)
      reads this
    {
      Overlay(TablesOf(Unread(sources, cursors)))
    }

    constructor (sources: seq<seq<Record>>, includeTombstones: bool)
      requires forall i :: 0 <= i < |sources| ==> Sorted(sources[i])
      ensures Valid() && fresh(heap) && !initialized
      ensures this.sources == sources && this.includeTombstones == includeTombstones
      ensures Pending() == Overlay(TablesOf(sources))
    {
      this.sources, this.includeTombstones := sources, includeTombstones;
      CompareHeapEntriesLawful();
      heap := new MinHeap(CompareHeapEntries);
      cursors := seq(|sources|, _ => Cursor(0, false));
      initialized := false;
      new;
      assert Heads(this.sources, cursors) == {};
      assert Unread(this.sources, cursors) == sources;
    }

    /** Fetch the next record of a source into the heap, if there is one. */
    method AdvanceSource(i: nat)
      requires Consistent() && i < |sources| && !cursors[i].inHeap
      modifies this`cursors, heap
      ensures Consistent() && Settled(sources[i], cursors[i])
      ensures Unread(sources, cursors) == Unread(sources, old(cursors))
      ensures forall j :: 0 <= j < |sources| && j != i ==> cursors[j] == old(cursors)[j]
    {
      if cursors[i].taken >= |sources[i]| {
        return;
      }
      FetchHead(sources, cursors, i);
      ghost var heads := Heads(sources, cursors);
      var record := sources[i][cursors[i].taken];
      var entry := HeapEntry(record.key, record.value, i);
      cursors := cursors[i := Cursor(cursors[i].taken + 1, true)];
      assert WellPlaced(sources, cursors) && Heads(sources, cursors) == heads + {entry};
      MultisetPlus(heads, entry);
      heap.Insert(entry);
    }

    method InitializeHeap()
      requires Valid()
      modifies this, heap
      ensures Valid() && initialized
      ensures Unread(sources, cursors) == Unread(sources, old(cursors))
    {
      if initialized { return; }
      for i := 0 to |sources|
        invariant Consistent() && Unread(sources, cursors) == Unread(sources, old(cursors))
        invariant forall j :: 0 <= j < i ==> Settled(sources[j], cursors[j])
        invariant forall j :: i <= j < |sources| ==> !cursors[j].inHeap
      {
        AdvanceSource(i);
      }
      initialized := true;
    }

    /** Take the least head out of the heap. */
    method TakeLeast() returns (e: HeapEntry)
      requires Consistent() && heap.heap != []
      modifies this`cursors, heap
      ensures Consistent() && e == old(heap.heap)[0] && e.sourceIndex < |sources|
      ensures old(cursors)[e.sourceIndex].inHeap && e == Head(sources, old(cursors), e.sourceIndex)
      ensures cursors == old(cursors)[e.sourceIndex := Cursor(old(cursors)[e.sourceIndex].taken, false)]
      ensures Unread(sources, old(cursors))[e.sourceIndex] != []
      ensures Unread(sources, cursors) ==
        Unread(sources, old(cursors))[e.sourceIndex := Unread(sources, old(cursors))[e.sourceIndex][1..]]
      ensures |heap.heap| == |old(heap.heap)| - 1
    {
      ghost var top := heap.heap[0];
      assert top in multiset(heap.heap);
      TakeHead(sources, cursors, top.sourceIndex);
      var min := heap.ExtractMin();
      e := min.value;
      ghost var heads := Heads(sources, cursors);
      assert |multiset(old(heap.heap))| == |multiset(heap.heap)| + 1;
      MultisetMinus(heads, e);
      cursors := cursors[e.sourceIndex := Cursor(cursors[e.sourceIndex].taken, false)];
    }

    /** The least head wins the round: no unread key is smaller, no newer source has it next. */
    lemma LeastHeadWins(us: seq<seq<Record>>, e: HeapEntry)
      requires Valid() && initialized && heap.heap != [] && e == heap.heap[0] && us == Unread(sources, cursors)
      ensures Winner(us, e.key, e.sourceIndex) && us[e.sourceIndex][0].value == e.version
    {
      assert e in multiset(heap.heap);
      TakeHead(sources, cursors, e.sourceIndex);
      forall i | 0 <= i < |us| && us[i] != []
        ensures AtMost(e.key, us[i][0].key) && (i < e.sourceIndex ==> us[i][0].key != e.key)
      {
        assert Settled(sources[i], cursors[i]);
        var h := Head(sources, cursors, i);
        HeadInHeap(i);
        var j :| 0 <= j < |heap.heap| && heap.heap[j] == h;
        RootIsLeast(heap.compare, heap.heap, j);
        CompareLaws(e.key, h.key);
      }
    }

    /** Each source has been skipped past `k`, or has not been touched yet. */
    ghost predicate PartlySkipped(us: seq<seq<Record>>, k: Key, w: nat)
      reads this
    {
      WellPlaced(sources, cursors) && |us| == |sources| && w < |us| &&
      (forall i :: 0 <= i < |us| ==> Unread(sources, cursors)[i] == us[i] || Unread(sources, cursors)[i] == Skip(us[i], k)) &&
      Unread(sources, cursors)[w] == Skip(us[w], k) &&
      (forall i :: 0 <= i < |us| && i != w ==> Settled(sources[i], cursors[i])) && !cursors[w].inHeap
    }

    /** When the heap's least key is another one, no source has the winning key next any more. */
    lemma NoDuplicateLeft(us: seq<seq<Record>>, k: Key, w: nat, i: nat)
      requires Consistent() && Winner(us, k, w) && PartlySkipped(us, k, w) && i < |us|
      requires heap.heap == [] || heap.heap[0].key != k
      ensures Unread(sources, cursors)[i] == Skip(us[i], k)
    {
      if i != w && us[i] != [] && us[i][0].key == k && Unread(sources, cursors)[i] == us[i] {
        assert Settled(sources[i], cursors[i]);
        var h := Head(sources, cursors, i);
        HeadInHeap(i);
        var j :| 0 <= j < |heap.heap| && heap.heap[j] == h;
        RootIsLeast(heap.compare, heap.heap, j);
        var top := heap.heap[0];
        assert top in multiset(heap.heap);
        TakeHead(sources, cursors, top.sourceIndex);
        LaterKeys(us[top.sourceIndex], k);
        CompareLaws(top.key, k);
        OrderCycle(k, top.key, k);
        OrderCycle(top.key, k, top.key);
      }
    }

    static lemma LaterKeys(u: seq<Record>, k: Key)
      requires Sorted(u) && (u != [] ==> AtMost(k, u[0].key))
      ensures Skip(u, k) != [] ==> Less(k, Skip(u, k)[0].key)
    {
    }

    /** Drop one older version of the winning key. */
    method DropDuplicate(k: Key, ghost w: nat, ghost us: seq<seq<Record>>)
      requires Consistent() && Winner(us, k, w) && PartlySkipped(us, k, w)
      requires heap.heap != [] && heap.heap[0].key == k
      modifies this`cursors, heap
      ensures Consistent() && PartlySkipped(us, k, w)
      ensures TotalLength(Unread(sources, cursors)) < TotalLength(Unread(sources, old(cursors)))
    {
      ghost var u := Unread(sources, cursors);
      var duplicate := TakeLeast();
      ghost var d := duplicate.sourceIndex;
      LaterKeys(us[d], k);
      LessIrreflexive(k);
      assert u[d] == us[d];
      TotalLengthUpdate(u, d, u[d][1..]);
      AdvanceSource(duplicate.sourceIndex);
    }

    /** Drop the older versions of the winning key. */
    method DropDuplicates(k: Key, ghost w: nat, ghost us: seq<seq<Record>>)
      requires Consistent() && Winner(us, k, w) && PartlySkipped(us, k, w)
      modifies this`cursors, heap
      ensures Consistent() && PartlySkipped(us, k, w)
      ensures forall i :: 0 <= i < |us| ==> Unread(sources, cursors)[i] == Skip(us[i], k)
    {
      while |heap.heap| > 0 && heap.heap[0].key == k
        invariant Consistent() && PartlySkipped(us, k, w)
        decreases TotalLength(Unread(sources, cursors))
      {
        DropDuplicate(k, w, us);
      }
      forall i | 0 <= i < |us| ensures Unread(sources, cursors)[i] == Skip(us[i], k) { NoDuplicateLeft(us, k, w, i); }
    }

    /**
     One resumption of `iterate`: up to its next yield, or to its end.  It yields the least
     key that is visible among what was pending, with its newest value; the pending keys that
     are gone afterwards are that key and smaller ones that are not visible.
     */
    method Next() returns (r: Option<Pair<Bytes>>)
      requires Valid()
      modifies this, heap
      ensures Valid() && initialized
      ensures r == None ==> Visible(old(Pending()), includeTombstones) == map[] && Pending() == map[]
      ensures r.Some? ==>
        var t := Visible(old(Pending()), includeTombstones);
        r.value.key in t && t[r.value.key] == r.value.value &&
        Visible(Pending(), includeTombstones) == t - {r.value.key} &&
        forall x :: x in Pending() ==> Less(r.value.key, x)
      ensures r.Some? ==> TotalLength(Unread(sources, cursors)) < TotalLength(Unread(sources, old(cursors)))
    {
      InitializeHeap();
      ghost var start := Pending();
      while |heap.heap| > 0
        invariant Valid() && initialized
        invariant Visible(Pending(), includeTombstones) == Visible(start, includeTombstones)
        invariant TotalLength(Unread(sources, cursors)) <= TotalLength(Unread(sources, old(cursors)))
        decreases TotalLength(Unread(sources, cursors))
      {
        ghost var before := Pending();
        var winner := Round();
        VisibleWithout(before, winner.key, includeTombstones);
        if winner.version.deleted && !includeTombstones {
          continue;
        }
        return Some(Pair(winner.key, winner.version.value));
      }
      NothingUnread();
      r := None;
    }

    /** One round: the winner leaves the heap, its older versions are dropped, all sources move on. */
    method Round() returns (winner: HeapEntry)
      requires Valid() && initialized && heap.heap != []
      modifies this`cursors, heap
      ensures Valid()
      ensures winner.key in old(Pending()) && old(Pending())[winner.key] == winner.version
      ensures Pending() == old(Pending()) - {winner.key}
      ensures forall x :: x in Pending() ==> Less(winner.key, x)
      ensures TotalLength(Unread(sources, cursors)) < TotalLength(Unread(sources, old(cursors)))
    {
      ghost var us := Unread(sources, cursors);
      LeastHeadWins(us, heap.heap[0]);
      winner := TakeLeast();
      FinishRound(winner, us);
      RoundDone(us, Unread(sources, cursors), winner.key, winner.sourceIndex);
    }

    /** Once the winner is out of the heap: older versions go, and the winner's source moves on. */
    method FinishRound(winner: HeapEntry, ghost us: seq<seq<Record>>)
      requires Consistent() && initialized && winner.sourceIndex < |sources|
      requires Winner(us, winner.key, winner.sourceIndex) && PartlySkipped(us, winner.key, winner.sourceIndex)
      modifies this`cursors, heap
      ensures Valid() && |us| == |sources|
      ensures forall i :: 0 <= i < |us| ==> Unread(sources, cursors)[i] == Skip(us[i], winner.key)
    {
      DropDuplicates(winner.key, winner.sourceIndex, us);
      AdvanceSource(winner.sourceIndex);
    }

    lemma NothingUnread()
      requires Valid() && initialized && heap.heap == []
      ensures Pending() == map[]
    {
      forall i | 0 <= i < |sources|
        ensures Unread(sources, cursors)[i] == []
      {
        assert Settled(sources[i], cursors[i]);
        if cursors[i].inHeap {
          HeadInHeap(i);
          assert false;
        }
      }
      var ts := TablesOf(Unread(sources, cursors));
      forall k
        ensures k !in Overlay(ts)
      {
        OverlayAbsent(ts, k);
      }
    }

    lemma HeadInHeap(i: nat)
      requires Consistent() && i < |sources| && cursors[i].inHeap
      ensures Head(sources, cursors, i) in heap.heap
    {
      assert Head(sources, cursors, i) in multiset(Heads(sources, cursors));
      assert Head(sources, cursors, i) in multiset(heap.heap);
    }

    /** `iterate` resumed: the next pair of the list of all visible ones, or none at its end. */
    method Resume(ghost all: seq<Pair<Bytes>>, ghost n: nat) returns (pair: Option<Pair<Bytes>>)
      requires Valid() && Sorted(all) && n <= |all| && MapOf(all[n..]) == Visible(Pending(), includeTombstones)
      modifies this, heap
      ensures Valid()
      ensures pair == if n < |all| then Some(all[n]) else None
      ensures n < |all| ==> MapOf(all[n + 1..]) == Visible(Pending(), includeTombstones)
    {
      ghost var before := Pending();
      EmptyMapList(all[n..]);
      pair := Next();
      if pair.Some? {
        TakeLeastPair(all, n, before, pair.value, Pending(), includeTombstones);
      }
    }

    /**
     Run the merge into a list, as `for await` does, stopping once the count has reached the
     limit.  The count is looked at after a pair is out, so a limit of 0 acts like 1.
     */
    method Collect(limit: Option<nat>) returns (out: seq<Pair<Bytes>>)
      requires Valid()
      modifies this, heap
      ensures Valid()
      ensures out == FirstOf(limit, Listing(Visible(old(Pending()), includeTombstones)))
    {
      out := CollectAll(limit, Listing(Visible(Pending(), includeTombstones)));
    }

    method CollectAll(limit: Option<nat>, ghost all: seq<Pair<Bytes>>) returns (out: seq<Pair<Bytes>>)
      requires Valid() && Sorted(all) && MapOf(all) == Visible(Pending(), includeTombstones)
      modifies this, heap
      ensures Valid() && out == FirstOf(limit, all)
    {
      ghost var n := 0;
      assert all[0..] == all;
      out := [];
      while true
        invariant Valid() && n == |out| <= |all| && out == all[..n]
        invariant MapOf(all[n..]) == Visible(Pending(), includeTombstones)
        invariant limit.Some? ==> n == 0 || n < limit.value
        decreases |all| - n
      {
        var pair := Resume(all, n);
        if pair == None {
          AllTaken(limit, all, n);
          return;
        }
        TakeOneMore(all, n);
        n := n + 1;
        out := out + [pair.value];
        if limit.Some? && |out| >= limit.value {
          LimitReached(limit, all, n);
          return;
        }
      }
    }
  }

  /** The least visible pair comes next in the list. */
  lemma TakeLeastPair(all: seq<Pair<Bytes>>, n: nat, t: Table, p: Pair<Bytes>, t': Table, tombstones: bool)
    requires Sorted(all) && n <= |all| && MapOf(all[n..]) == Visible(t, tombstones)
    requires p.key in Visible(t, tombstones) && Visible(t, tombstones)[p.key] == p.value
    requires Visible(t', tombstones) == Visible(t, tombstones) - {p.key} && forall x :: x in t' ==> Less(p.key, x)
    ensures n < |all| && all[n] == p && MapOf(all[n + 1..]) == Visible(t', tombstones)
  {
    assert Sorted(all[n..]);
    forall x | x in MapOf(all[n..]) - {p.key}
      ensures Less(p.key, x)
    {
      assert x in Visible(t', tombstones);
    }
    LeastIsFirst(all[n..], p);
    TakeOneMore(all, n);
  }

  lemma TakeOneMore<T>(s: seq<T>, n: nat)
    requires n < |s|
    ensures s[n..][1..] == s[n + 1..] && s[n..][0] == s[n] && s[..n] + [s[n]] == s[..n + 1]
  {
  }

  lemma LimitReached<T>(limit: Option<nat>, s: seq<T>, n: nat)
    requires limit.Some? && 0 < n <= |s| && n >= limit.value && (n == 1 || n - 1 < limit.value)
    ensures FirstOf(limit, s) == s[..n]
  {
    assert s[..|s|] == s;
  }

  lemma AllTaken<T>(limit: Option<nat>, s: seq<T>, n: nat)
    requires n == |s| && (limit.Some? ==> n == 0 || n < limit.value)
    ensures FirstOf(limit, s) == s && s[..n] == s
  {
  }

  ghost function FirstOf<T>(limit: Option<nat>, s: seq<T>): seq<T> {
    if limit == None then s
    else
      var n := if limit.value == 0 then 1 else limit.value;
      if n < |s| then s[..n] else s
  }

  /** No limit gives all; a limit gives that many from the front, at least one, as far as there are any. */
  lemma FirstOfIsPrefix<T>(limit: Option<nat>, s: seq<T>)
    ensures FirstOf(limit, s) <= s && (limit == None ==> FirstOf(limit, s) == s)
    ensures limit.Some? ==> |FirstOf(limit, s)| == if limit.value >= |s| then |s| else if limit.value == 0 then 1 else limit.value
  {
  }
}
