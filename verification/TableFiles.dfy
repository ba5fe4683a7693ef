/** Table files on disk: building one from a sorted list, and opening it again. */
module TableFiles {
  import opened Wrappers
  import opened Keys
  import opened SortedEntries
  import opened Tables
  import opened SSTableFormat
  import opened SSTableLayout
  import opened SSTableReaders
  import opened SSTableWriters

  /** What a table file was built from. */
  datatype Content = Content(entries: seq<Record>, settings: Settings)

  ghost predicate Built(c: Content) {
    Sorted(c.entries) && FileFits(c.entries, c.settings)
  }

  /** The files under their numbers. */
  class Disk {
    var files: map<nat, Bytes>

    constructor ()
      ensures files == map[]
    {
      files := map[];
    }
  }

  /** How tables are sized: the index interval, and the size of the Bloom filter. */
  datatype Tuning = Tuning(interval: nat, numBits: nat, numHashes: nat)

  predicate ValidTuning(t: Tuning) {
    0 < t.numBits < 0x1_0000_0000 && t.numHashes < 0x1_0000_0000
  }

  function SettingsFor(number: nat, t: Tuning, now: nat): Settings {
    Settings(number, t.interval, t.numBits, t.numHashes, now)
  }

  /** The file of some content is on disk under the number its metadata gives. */
  ghost predicate OnDisk(files: map<nat, Bytes>, m: Metadata, c: Content) {
    Built(c) && m == MetadataOf(c.entries, c.settings) && m.fileNumber in files && files[m.fileNumber] == FileBytes(c.entries, c.settings)
  }

  /** A reader has that file open, whether or not it is still on disk. */
  ghost predicate Opened(r: SSTableReader, c: Content) {
    ServesFile(r.state, c.entries, c.settings)
  }

  /** The writer accepts every entry of a sorted list. */
  method AddAll(writer: SSTableWriter, entries: seq<Record>)
    requires writer.Valid() && !writer.built && writer.entries == [] && Sorted(entries)
    modifies writer
    ensures writer.Valid() && !writer.built && writer.entries == entries
  {
    for i := 0 to |entries|
      invariant writer.Valid() && !writer.built && writer.entries == entries[..i]
    {
      assert i > 0 ==> Less(entries[i - 1].key, entries[i].key);
      var r := writer.Add(entries[i]);
      assert entries[..i + 1] == entries[..i] + [entries[i]];
    }
    assert entries[..|entries|] == entries;
  }

  /** Build a table file from a sorted list; it fails only if there is none, or a number does not fit. */
  method BuildTable(disk: Disk, entries: seq<Record>, number: nat, tuning: Tuning, now: nat) returns (r: Result<Metadata>)
    requires Sorted(entries) && ValidTuning(tuning)
    modifies disk
    ensures r.Ok? <==> entries != [] && FileFits(entries, SettingsFor(number, tuning, now))
    ensures r.Err? ==> disk.files == old(disk.files)
    ensures r.Ok? ==> r.value.fileNumber == number && OnDisk(disk.files, r.value, Content(entries, SettingsFor(number, tuning, now)))
    ensures r.Ok? ==> disk.files == old(disk.files)[number := FileBytes(entries, SettingsFor(number, tuning, now))]
  {
    var writer := new SSTableWriter(number, tuning.interval);
    AddAll(writer, entries);
    assert writer.TheSettings(tuning.numBits, tuning.numHashes, now) == SettingsFor(number, tuning, now);
    var built := writer.Build(tuning.numBits, tuning.numHashes, now);
    if built.Err? {
      return Err(built.reason);
    }
    disk.files := disk.files[number := built.value.0];
    r := Ok(built.value.1);
  }

  /** Open the file of a table. */
  method OpenFile(disk: Disk, m: Metadata, ghost c: Content) returns (r: Result<SSTableReader>)
    ensures r.Ok? ==> fresh(r.value) && !r.value.closed
    ensures OnDisk(disk.files, m, c) ==> r.Ok? && Opened(r.value, c)
  {
    if m.fileNumber !in disk.files {
      return Err("no such file");
    }
    r := SSTableReader.OpenFile(disk.files[m.fileNumber], c.entries, c.settings);
  }
}
