/** How a table file is laid out, and what its sparse index and its read windows guarantee. */
module SSTableLayout {
  import opened Wrappers
  import opened Keys
  import opened Buffers
  import opened SortedEntries
  import opened Tables
  import opened BloomFilters
  import opened SSTableFormat

  /** What a file depends on besides its entries. */
  datatype Settings = Settings(fileNumber: nat, interval: nat, numBits: nat, numHashes: nat, createdAt: nat)

  // ----- The sparse index -----

  predicate Sampled(i: nat, interval: nat) {
    interval != 0 && i % interval == 0
  }

  /** Every `interval`-th key with the offset of its entry. */
  ghost function IndexOf(es: seq<Record>, interval: nat): seq<IndexEntry> {
    if es == [] then []
    else
      var init, last := es[..|es| - 1], es[|es| - 1];
      IndexOf(init, interval) + (if Sampled(|init|, interval) then [IndexEntry(last.key, |DataBytes(init)|)] else [])
  }

  ghost predicate SortedIndex(index: seq<IndexEntry>) {
    forall i, j :: 0 <= i < j < |index| ==> Less(index[i].key, index[j].key)
  }

  /** The index is sorted, no longer than the entries, and points into the data. */
  lemma {:induction false} IndexIsSorted(es: seq<Record>, interval: nat)
    requires Sorted(es)
    ensures SortedIndex(IndexOf(es, interval)) && |IndexOf(es, interval)| <= |es|
    ensures forall i, k :: 0 <= i < |IndexOf(es, interval)| && SortedEntries.AllBelow(es, k) ==> Less(IndexOf(es, interval)[i].key, k)
    ensures forall i :: 0 <= i < |IndexOf(es, interval)| ==> IndexOf(es, interval)[i].offset <= |DataBytes(es)|
    ensures forall i :: 0 <= i < |IndexOf(es, interval)| ==> exists j :: 0 <= j < |es| && es[j].key == IndexOf(es, interval)[i].key
  {
    if es != [] {
      var init, last := es[..|es| - 1], es[|es| - 1];
      IndexIsSorted(init, interval);
      assert SortedEntries.AllBelow(init, last.key);
      forall i | 0 <= i < |IndexOf(es, interval)|
        ensures exists j :: 0 <= j < |es| && es[j].key == IndexOf(es, interval)[i].key
      {
        if i < |IndexOf(init, interval)| {
          var j :| 0 <= j < |init| && init[j].key == IndexOf(init, interval)[i].key;
          assert es[j].key == IndexOf(es, interval)[i].key;
        }
      }
      forall i, k | 0 <= i < |IndexOf(es, interval)| && SortedEntries.AllBelow(es, k)
        ensures Less(IndexOf(es, interval)[i].key, k)
      {
        assert SortedEntries.AllBelow(init, k) && Less(es[|es| - 1].key, k);
      }
    }
  }

  lemma IndexFits(es: seq<Record>, interval: nat)
    requires Sorted(es) && |DataBytes(es)| < TWO_TO_64 && forall i :: 0 <= i < |es| ==> EntryFits(es[i])
    ensures forall e :: e in IndexOf(es, interval) ==> IndexEntryFits(e)
  {
    IndexIsSorted(es, interval);
    var index := IndexOf(es, interval);
    forall i | 0 <= i < |index|
      ensures IndexEntryFits(index[i])
    {
      var j :| 0 <= j < |es| && es[j].key == index[i].key;
      assert EntryFits(es[j]);
    }
  }

  /** Where the scan for a key begins: at the last indexed entry that is not above it. */
  ghost function StartOffset(index: seq<IndexEntry>, key: Key, dataOffset: nat): nat {
    if index == [] then dataOffset
    else if AtMost(index[|index| - 1].key, key) then index[|index| - 1].offset
    else StartOffset(index[..|index| - 1], key, dataOffset)
  }

  /** The entry at which the scan for a key begins. */
  ghost function StartIndex(es: seq<Record>, interval: nat, key: Key): (j: nat)
    ensures j <= |es| && (es != [] ==> j < |es|)
  {
    if es == [] then 0
    else if Sampled(|es| - 1, interval) && AtMost(es[|es| - 1].key, key) then |es| - 1
    else StartIndex(es[..|es| - 1], interval, key)
  }

  /** It is the last sampled entry that is not above the key, or else the first entry. */
  lemma {:induction false} StartIndexIsLastSample(es: seq<Record>, interval: nat, key: Key)
    ensures var j := StartIndex(es, interval, key);
      (j == 0 || (Sampled(j, interval) && AtMost(es[j].key, key))) &&
      forall i :: j < i < |es| && Sampled(i, interval) ==> !AtMost(es[i].key, key)
  {
    if es != [] {
      StartIndexIsLastSample(es[..|es| - 1], interval, key);
    }
  }

  /** The scan begins at that entry, and every entry before it has a smaller key. */
  lemma {:induction false} StartIsEarlyEnough(es: seq<Record>, interval: nat, key: Key)
    requires Sorted(es)
    ensures var j := StartIndex(es, interval, key);
      StartOffset(IndexOf(es, interval), key, 0) == |DataBytes(es[..j])| && SortedEntries.AllBelow(es[..j], key)
  {
    var j := StartIndex(es, interval, key);
    if es == [] {
      assert es[..0] == [];
    } else {
      var n, last := |es| - 1, es[|es| - 1];
      StartStep(es, interval, key);
      if Sampled(n, interval) && AtMost(last.key, key) {
        BelowLast(es, key);
      } else {
        StartIsEarlyEnough(es[..n], interval, key);
        assert es[..n][..j] == es[..j];
        if n == 0 {
          assert es[..n] == es[..j] == [];
        }
      }
    }
  }

  lemma BelowLast(es: seq<Record>, key: Key)
    requires Sorted(es) && es != [] && AtMost(es[|es| - 1].key, key)
    ensures SortedEntries.AllBelow(es[..|es| - 1], key)
  {
    var last := es[|es| - 1].key;
    forall i | 0 <= i < |es| - 1 ensures Less(es[i].key, key) {
      if last != key { LessTransitive(es[i].key, last, key); }
    }
  }

  lemma StartStep(es: seq<Record>, interval: nat, key: Key)
    requires es != []
    ensures var n := |es| - 1;
      StartOffset(IndexOf(es, interval), key, 0) ==
      (if Sampled(n, interval) && AtMost(es[n].key, key) then |DataBytes(es[..n])| else StartOffset(IndexOf(es[..n], interval), key, 0))
  {
    var n := |es| - 1;
    var index := IndexOf(es[..n], interval);
    if Sampled(n, interval) {
      assert IndexOf(es, interval)[..|index|] == index;
    } else {
      assert IndexOf(es, interval) == index;
    }
  }

  /** The index samples the entries at regular distances: its m-th entry is for entry m * interval. */
  lemma {:induction false} IndexSamples(es: seq<Record>, interval: nat, m: nat, j: nat)
    requires interval > 0 && j == m * interval && j < |es|
    ensures m < |IndexOf(es, interval)|
    ensures IndexOf(es, interval)[m] == IndexEntry(es[j].key, |DataBytes(es[..j])|)
  {
    var n := |es| - 1;
    if j == n {
      IndexCount(es[..n], interval, m);
      Divides(m, interval, n);
    } else {
      IndexSamples(es[..n], interval, m, j);
      assert es[..n][..j] == es[..j];
    }
  }

  lemma IndexCount(es: seq<Record>, interval: nat, m: nat)
    requires interval > 0 && |es| == m * interval
    ensures |IndexOf(es, interval)| == m
  {
    IndexLength(es, interval);
    Ceiling(m, interval);
  }

  lemma Divides(m: nat, k: nat, n: nat)
    requires k > 0 && n == m * k
    ensures n % k == 0 && n / k == m
  {
    assert n == m * k + 0;
    DivisionUnique(n, k, m, 0);
  }

  lemma DivisionUnique(n: nat, k: nat, q: nat, r: nat)
    requires k > 0 && n == q * k + r && r < k
    ensures n / k == q && n % k == r
  {
    var d := n / k - q;
    assert n == (n / k) * k + n % k;
    assert d * k == r - n % k;
    if d > 0 {
      AtLeastOnce(d, k);
      assert false;
    }
    if d < 0 {
      AtLeastOnce(-d, k);
      assert false;
    }
  }

  lemma AtLeastOnce(d: int, k: int)
    requires d >= 1 && k > 0
    ensures d * k >= k && (-d) * k <= -k
  {
  }

  lemma Ceiling(m: nat, k: nat)
    requires k > 0
    ensures (m * k + k - 1) / k == m
  {
    DivisionUnique(m * k + k - 1, k, m, k - 1);
  }

  lemma CeilingStep(n: nat, k: nat)
    requires k > 0
    ensures (n + 1 + k - 1) / k == (n + k - 1) / k + (if n % k == 0 then 1 else 0)
  {
    var q: nat, r: nat := n / k, n % k;
    assert n == q * k + r && (q + 1) * k == q * k + k;
    DivisionUnique(n + k, k, q + 1, r);
    if r > 0 {
      DivisionUnique(n + k - 1, k, q + 1, r - 1);
    } else {
      Ceiling(q, k);
    }
  }

  /** One index entry for every started interval. */
  lemma {:induction false} IndexLength(es: seq<Record>, interval: nat)
    requires interval > 0
    ensures |IndexOf(es, interval)| == (|es| + interval - 1) / interval
  {
    if es == [] {
      DivisionUnique(interval - 1, interval, 0, interval - 1);
    } else {
      IndexLength(es[..|es| - 1], interval);
      CeilingStep(|es| - 1, interval);
    }
  }

  // ----- The file -----

  ghost function KeysOf(es: seq<Record>): seq<Key> {
    seq(|es|, i requires 0 <= i < |es| => es[i].key)
  }

  ghost function Filled(f: Filter, es: seq<Record>): Filter {
    if es == [] then f else Added(Filled(f, es[..|es| - 1]), es[|es| - 1].key)
  }

  lemma {:induction false} FilledIsAddedAll(f: Filter, es: seq<Record>)
    ensures Filled(f, es) == AddedAll(f, KeysOf(es))
  {
    if es != [] {
      FilledIsAddedAll(f, es[..|es| - 1]);
      assert KeysOf(es)[..|es| - 1] == KeysOf(es[..|es| - 1]);
    }
  }

  ghost function FilterOf(es: seq<Record>, s: Settings): Filter {
    Filled(Empty(s.numBits, s.numHashes), es)
  }

  /** The filter of a file is whole, of the given size, and may hold every key of the file. */
  lemma FilterHoldsKeys(es: seq<Record>, s: Settings)
    requires s.numBits > 0
    ensures var f := FilterOf(es, s);
      Whole(f) && f.numBits == s.numBits && f.numHashes == s.numHashes && forall i :: 0 <= i < |es| ==> MayHold(f, es[i].key)
  {
    var f := Empty(s.numBits, s.numHashes);
    FilledIsAddedAll(f, es);
    NoFalseNegatives(f, KeysOf(es));
    forall i | 0 <= i < |es|
      ensures MayHold(FilterOf(es, s), es[i].key)
    {
      assert KeysOf(es)[i] in KeysOf(es);
    }
  }

  /** The data and the index. */
  ghost function BodyBytes(es: seq<Record>, s: Settings): Bytes {
    var index := IndexOf(es, s.interval);
    DataBytes(es) + Encode(|index|, 4) + IndexBytes(index)
  }

  ghost function MetadataOf(es: seq<Record>, s: Settings): Metadata
    requires es != []
  {
    var firstKey, lastKey := es[0].key, es[|es| - 1].key;
    var bloomOffset := |BodyBytes(es, s)|;
    Metadata(s.fileNumber, |es|, firstKey, lastKey,
             bloomOffset + |FilterBytes(FilterOf(es, s))| + CalculateFooterSize(firstKey, lastKey),
             s.createdAt, |DataBytes(es)|, 0, Some(bloomOffset))
  }

  ghost function FileBytes(es: seq<Record>, s: Settings): Bytes
    requires es != []
  {
    BodyBytes(es, s) + FilterBytes(FilterOf(es, s)) + FooterBytes(MetadataOf(es, s))
  }

  /** Every number fits its field. */
  ghost predicate FileFits(es: seq<Record>, s: Settings) {
    es != [] && (forall i :: 0 <= i < |es| ==> EntryFits(es[i])) && MetadataFits(MetadataOf(es, s)) &&
    0 < s.numBits < 0x1_0000_0000 && s.numHashes < 0x1_0000_0000
  }

  // ----- The read window -----

  /** The most one read of a file may ask for. */
  const IO_MAX: nat := 0x7FFF_FFFF

  /** What `readEntryAt` takes for the length of the value: the four bytes behind the key's length. */
  ghost function ClaimedLength(r: Record): nat {
    Decode(EntryBytes(r)[2..6])
  }

  /** The window sized by the claimed length covers the entry, and can be read at once. */
  ghost predicate Covered(r: Record) {
    |r.value.value| <= ClaimedLength(r) && 15 + |r.key| + ClaimedLength(r) <= IO_MAX
  }

  ghost predicate AllCovered(es: seq<Record>) {
    forall i :: 0 <= i < |es| ==> Covered(es[i])
  }

  /** A window that starts with as much of the entry as it has room for yields the entry exactly if it covers it. */
  lemma WindowDecodes(r: Record, window: Bytes)
    requires EntryFits(r) && |window| == 15 + |r.key| + ClaimedLength(r)
    requires window <= EntryBytes(r) || EntryBytes(r) <= window
    ensures DeserializeEntry(window, 0).Ok? <==> |r.value.value| <= ClaimedLength(r)
    ensures DeserializeEntry(window, 0).Ok? ==> DeserializeEntry(window, 0).value == (r, |EntryBytes(r)|)
  {
    if |r.value.value| <= ClaimedLength(r) {
      assert At(window, 0, EntryBytes(r));
      EntryRoundTrip(window, 0, r);
    } else {
      assert window == EntryBytes(r)[..|window|];
      EntryCutOff(r, |window|);
    }
  }

  /** A key that starts with a printable ASCII byte makes the window large enough for any shorter value. */
  lemma PrintableIsCovered(r: Record)
    requires EntryFits(r) && r.key != [] && 0x20 <= r.key[0] <= 0x7E && |r.value.value| < 0x2000_0000
    ensures Covered(r)
  {
    var four := EntryBytes(r)[2..6];
    EntryLengths(r);
    assert four[0] == EntryBytes(r)[2..2 + |r.key|][0] == r.key[0];
    LeadingByte(four);
    PowersOf256();
    assert Pow256(3) == 0x100_0000 by { assert Pow256(4) == 256 * Pow256(3); }
  }

  /** The claimed length can be too small: the key of one zero byte hides a value of 300 bytes. */
  lemma ZeroKeyIsNotCovered()
    ensures var r := Pair([0], Version(seq(300, _ => 0x61), 0, false)); EntryFits(r) && !Covered(r)
  {
    var v: Bytes := seq(300, _ => 0x61);
    var r: Record := Pair([0], Version(v, 0, false));
    EncodedOne();
    EncodedThreeHundred();
    assert EntryBytes(r)[2..6] == [0, 0, 0, 1];
    DecodedOne();
  }

  /** A key whose first byte is 0x80 or more asks for more than one read may: such an entry is never covered. */
  lemma HighKeyIsNeverCovered(r: Record)
    requires r.key != [] && r.key[0] >= 0x80
    ensures !Covered(r)
  {
    var four := EntryBytes(r)[2..6];
    assert four[0] == EntryBytes(r)[2] == r.key[0];
    LeadingByte(four);
    PowersOf256();
    assert Pow256(3) == 0x100_0000 by { assert Pow256(4) == 256 * Pow256(3); }
  }

  /** The read window depends on the key and the value alone. */
  lemma CoveredIsStampless(r: Record, now: nat, deleted: bool)
    ensures Covered(r) <==> Covered(Pair(r.key, Version(r.value.value, now, deleted)))
  {
    var s := Pair(r.key, Version(r.value.value, now, deleted));
    var head := Encode(|r.key|, 2) + r.key + Encode(|r.value.value|, 4);
    assert EntryBytes(r)[2..6] == head[2..6] && EntryBytes(s)[2..6] == head[2..6];
  }

  lemma EncodedOne()
    ensures Encode(1, 2) == [0, 1]
  {
    assert Encode(0, 1) == Encode(0, 0) + [0];
    assert Encode(1, 2) == Encode(0, 1) + [1];
  }

  lemma EncodedThreeHundred()
    ensures Encode(300, 4) == [0, 0, 1, 44]
  {
    assert Encode(0, 1) == Encode(0, 0) + [0];
    assert Encode(0, 2) == Encode(0, 1) + [0];
    assert Encode(1, 3) == Encode(0, 2) + [1];
    assert Encode(300, 4) == Encode(1, 3) + [44];
  }

  lemma DecodedOne()
    ensures Decode([0, 0, 0, 1]) == 1
  {
    var d: Bytes := [0, 0, 0, 1];
    assert d[..3] == [0, 0, 0] && d[..3][..2] == [0, 0] && d[..3][..2][..1] == [0];
    assert Decode([0]) == 0 by { var z: Bytes := [0]; assert z[..0] == []; }
    assert Decode([0, 0]) == 0 by { var z: Bytes := [0, 0]; assert z[..1] == [0]; }
    assert Decode([0, 0, 0]) == 0 by { var z: Bytes := [0, 0, 0]; assert z[..2] == [0, 0]; }
  }

  // ----- What a scan has to read -----

  /** The scan for a key reads this entry: all before it have smaller keys. */
  ghost predicate ScannedFor(es: seq<Record>, interval: nat, key: Key, i: nat) {
    StartIndex(es, interval, key) <= i < |es| && SortedEntries.AllBelow(es[..i], key)
  }

  ghost predicate AllScannedCovered(es: seq<Record>, interval: nat, key: Key) {
    forall i: nat :: ScannedFor(es, interval, key, i) ==> Covered(es[i])
  }

  /** A lookup succeeds: its key is out of range, or every entry it reads is covered. */
  ghost predicate LookupCovered(es: seq<Record>, interval: nat, key: Key)
    requires es != []
  {
    InRange(key, es[0].key, es[|es| - 1].key) ==> AllScannedCovered(es, interval, key)
  }

  /** The scan of a range reads this entry: none that it has read before was past the range. */
  ghost predicate ScannedWithin(es: seq<Record>, interval: nat, lo: Key, hi: Key, i: nat) {
    StartIndex(es, interval, lo) <= i < |es| &&
    forall j :: StartIndex(es, interval, lo) <= j < i ==> Less(es[j].key, lo) || !Less(hi, es[j].key)
  }

  ghost predicate AllWithinCovered(es: seq<Record>, interval: nat, lo: Key, hi: Key) {
    forall i: nat :: ScannedWithin(es, interval, lo, hi, i) ==> Covered(es[i])
  }

  ghost predicate RangeCovered(es: seq<Record>, interval: nat, lo: Key, hi: Key)
    requires es != []
  {
    !Less(es[|es| - 1].key, lo) && !Less(hi, es[0].key) ==>
      AllWithinCovered(es, interval, lo, hi)
  }

  /** An entry that is not covered is never found: every lookup of its key fails. */
  lemma UncoveredIsNeverFound(es: seq<Record>, interval: nat, i: nat)
    requires Sorted(es) && i < |es| && !Covered(es[i])
    ensures !LookupCovered(es, interval, es[i].key)
  {
    hide Covered;
    var key := es[i].key;
    StartIsEarlyEnough(es, interval, key);
    var start := StartIndex(es, interval, key);
    if i < start {
      assert es[..start][i] == es[i];
      LessIrreflexive(key);
    }
    assert ScannedFor(es, interval, key, i);
  }
}
