/** What some values look like as bytes, in every format: lengths, numbers and codes as they stand in files and on the wire. */
module ByteForms {
  import opened Keys
  import opened Buffers
  import opened LogEntries
  import opened Tables
  import opened SortedEntries
  import Wrappers
  import BloomFilters
  import Crc32
  import Framing
  import PairFormat
  import ReplicationProtocol
  import SSTableFormat
  import WalFormat

  /** A number below 256 is its last byte, behind zeros. */
  lemma {:induction false} Small(n: nat, k: nat)
    requires n < 256 && k > 0
    ensures Encode(n, k) == seq(k - 1, _ => 0) + [n as Byte]
  {
    if k == 1 {
      assert Encode(n / 256, 0) == [];
    } else {
      Small(0, k - 1);
      assert n / 256 == 0;
      assert Encode(n, k) == Encode(0, k - 1) + [n as Byte];
      assert seq(k - 2, _ => 0 as Byte) + [0 as Byte] == seq(k - 1, _ => 0 as Byte);
    }
  }

  lemma Numbers(n: nat)
    requires n < 256
    ensures Encode(n, 2) == [0, n as Byte] && Encode(n, 4) == [0, 0, 0, n as Byte]
    ensures Encode(n, 8) == [0, 0, 0, 0, 0, 0, 0, n as Byte]
  {
    Small(n, 2);
    Small(n, 4);
    Small(n, 8);
  }

  /** Big-endian: the most significant byte comes first. */
  lemma FourBytes(a: Byte, b: Byte, c: Byte, d: Byte)
    ensures Encode(((a as nat * 256 + b as nat) * 256 + c as nat) * 256 + d as nat, 4) == [a, b, c, d]
  {
    var x, y, z := a as nat * 256 + b as nat, (a as nat * 256 + b as nat) * 256 + c as nat, ((a as nat * 256 + b as nat) * 256 + c as nat) * 256 + d as nat;
    assert z / 256 == y && y / 256 == x && x / 256 == a as nat;
    assert Encode(a as nat, 1) == Encode(0, 0) + [a] == [a];
    assert Encode(x, 2) == Encode(a as nat, 1) + [b];
    assert Encode(y, 3) == Encode(x, 2) + [c];
    assert Encode(z, 4) == Encode(y, 3) + [d];
  }

  // ----- Log entries -----

  const K: Key := [0x6B]
  const V: Bytes := [0x76]

  lemma PutPayload()
    ensures PayloadBytes(Put(K, V)) == [0, 1, 0x6B, 0, 0, 0, 1, 0x76]
  {
    Numbers(1);
  }

  lemma DeletePayload()
    ensures PayloadBytes(Delete(K)) == [0, 1, 0x6B]
  {
    Numbers(1);
  }

  lemma BatchPayload(ks: seq<Key>, vs: seq<Bytes>)
    requires ks == [K, [0x6C]] && vs == [V, []]
    ensures PayloadBytes(BatchPut(ks, vs)) ==
      [0, 0, 0, 2] + (([0, 1] + K + [0, 0, 0, 1] + V) + (([0, 1] + [0x6C] + [0, 0, 0, 0] + []) + []))
  {
    hide Encode;
    Numbers(0);
    Numbers(1);
    Numbers(2);
    assert PairsBytes(ks[1..][1..], vs[1..][1..]) == [];
    assert PairsBytes(ks[1..], vs[1..]) == PairFormat.PairBytes([0x6C], []) + PairsBytes(ks[1..][1..], vs[1..][1..]);
    assert PairsBytes(ks, vs) == PairFormat.PairBytes(K, V) + PairsBytes(ks[1..], vs[1..]);
  }

  /** Codes 1, 2 and 3; in a record they stand behind the number and the time, eight bytes each. */
  lemma EntryData(op: Operation)
    requires Fits(op)
    ensures OperationCode(op) == match op case Put(_, _) => 1 case Delete(_) => 2 case BatchPut(_, _) => 3
    ensures WalFormat.DataBytes(LogEntry(5, 9, op)) ==
      [0, 0, 0, 0, 0, 0, 0, 5, 0, 0, 0, 0, 0, 0, 0, 9, OperationCode(op)] + PayloadBytes(op)
  {
    hide PayloadBytes, OperationCode, Fits;
    Numbers(5);
    Numbers(9);
    Codes(op);
  }

  /** No other code is an operation. */
  lemma UnknownCodes(code: nat, payload: Bytes)
    ensures code == 0 || code > 3 ==> DecodePayload(code, payload).Err?
  {
  }

  lemma Codes(op: Operation)
    ensures OperationCode(op) == match op case Put(_, _) => 1 case Delete(_) => 2 case BatchPut(_, _) => 3
  {
  }

  lemma FrameOf(body: Bytes)
    requires |body| < 256
    ensures Framing.Frame(body) == [0, 0, 0, |body| as Byte] + body
  {
    Numbers(|body|);
  }

  /** A log record: its length, the checksum of what follows that, and the data. */
  lemma PutRecord()
    ensures var data: Bytes := [0, 0, 0, 0, 0, 0, 0, 5, 0, 0, 0, 0, 0, 0, 0, 9, 1] + [0, 1, 0x6B, 0, 0, 0, 1, 0x76];
      WalFormat.RecordBytes(LogEntry(5, 9, Put(K, V))) == [0, 0, 0, 29] + (Encode(Crc32.Checksum(data), 4) + data)
  {
    hide Crc32.Checksum, PayloadBytes, WalFormat.DataBytes, Framing.Frame, Encode;
    var e := LogEntry(5, 9, Put(K, V));
    EntryData(Put(K, V));
    PutPayload();
    FrameOf(WalFormat.BodyBytes(e));
  }

  // ----- Replication -----

  /** A frame: its length without the four bytes of it, the opcode, and an entry's data or a status and a number. */
  lemma ReplicateFrame()
    ensures ReplicationProtocol.MessageBytes(ReplicationProtocol.Replicate(LogEntry(5, 9, Delete(K)))) ==
      [0, 0, 0, 21] + ([0x10] + ([0, 0, 0, 0, 0, 0, 0, 5, 0, 0, 0, 0, 0, 0, 0, 9, 2] + [0, 1, 0x6B]))
  {
    hide PayloadBytes, WalFormat.DataBytes, Framing.Frame;
    var m := ReplicationProtocol.Replicate(LogEntry(5, 9, Delete(K)));
    EntryData(Delete(K));
    DeletePayload();
    FrameOf(ReplicationProtocol.Body(m));
  }

  lemma AckFrame(status: Byte)
    ensures ReplicationProtocol.MessageBytes(ReplicationProtocol.Ack(status, 5)) ==
      [0, 0, 0, 10] + ([0x11] + [status] + [0, 0, 0, 0, 0, 0, 0, 5])
    ensures ReplicationProtocol.ACK_OK == 0 && ReplicationProtocol.ACK_ERROR == 1
  {
    hide Framing.Frame;
    Numbers(5);
    FrameOf(ReplicationProtocol.Body(ReplicationProtocol.Ack(status, 5)));
  }

  // ----- Table files -----

  /** Key and value with their lengths, the time, and a flag for a tombstone. */
  lemma TableEntry(deleted: bool)
    ensures SSTableFormat.EntryBytes(Pair(K, Version(V, 9, deleted))) ==
      ([0, 1] + K + [0, 0, 0, 1] + V) + [0, 0, 0, 0, 0, 0, 0, 9] + [if deleted then 1 else 0]
  {
    hide Encode;
    Numbers(1);
    Numbers(9);
  }

  lemma TableIndexEntry()
    ensures SSTableFormat.IndexEntryBytes(SSTableFormat.IndexEntry(K, 17)) == [0, 1, 0x6B, 0, 0, 0, 0, 0, 0, 0, 17]
  {
    Numbers(1);
    Numbers(17);
  }

  /** The file's number and entry count, three offsets, the outer keys, the time, version 2, the footer's size, and the magic number. */
  lemma TableFooter(m: SSTableFormat.Metadata)
    requires m.fileNumber == 7 && m.entryCount == 2 && m.dataOffset == 0 && m.indexOffset == 34 && m.bloomFilterOffset == Wrappers.Some(49)
    requires m.firstKey == K && m.lastKey == [0x6C] && m.createdAt == 9
    ensures SSTableFormat.FooterBytes(m) ==
      [0, 0, 0, 7] + [0, 0, 0, 2] + [0, 0, 0, 0, 0, 0, 0, 0] + [0, 0, 0, 0, 0, 0, 0, 34] + [0, 0, 0, 0, 0, 0, 0, 49] +
      ([0, 1] + K + [0, 1] + [0x6C]) + ([0, 0, 0, 0, 0, 0, 0, 9] + [0, 2] + [0, 0, 0, 56] + [0x53, 0x53, 0x54, 0x4C])
  {
    hide Encode;
    Numbers(7);
    Numbers(2);
    Numbers(0);
    Numbers(34);
    Numbers(49);
    Numbers(1);
    Numbers(9);
    Numbers(56);
    FourBytes(0x53, 0x53, 0x54, 0x4C);
  }

  // ----- Bloom filters -----

  /** The number of bits, the number of hashes, and the bits, the lowest of each byte first: the key sets bit 12. */
  lemma FilterOfOneKey(f: BloomFilters.Filter)
    requires f == BloomFilters.Added(BloomFilters.Empty(16, 1), [0x61])
    ensures BloomFilters.FilterBytes(f) == [0, 0, 0, 16, 0, 0, 0, 1, 0, 16]
  {
    Numbers(16);
    Numbers(1);
    OnlyBitTwelve(f);
    BitsAsBytes(f);
  }

  lemma OnlyBitTwelve(f: BloomFilters.Filter)
    requires f == BloomFilters.Added(BloomFilters.Empty(16, 1), [0x61])
    ensures f.bits == [0, 16] && f.numBits == 16 && f.numHashes == 1
  {
    BloomFilters.KnownHashes();
    hide BloomFilters.Fnv1a, BloomFilters.Djb2;
    var e := BloomFilters.Empty(16, 1);
    assert e.bits == [0, 0];
    assert BloomFilters.Position(16, [0x61], 0) == 12;
    assert BloomFilters.MarkFirst(e, [0x61], 0) == e;
    assert BloomFilters.WithBit(0, 4) == 16;
  }

  lemma BitsAsBytes(f: BloomFilters.Filter)
    requires f.bits == [0, 16] && f.numBits == 16
    ensures BloomFilters.InField(BloomFilters.BitsBytes(f.bits), BloomFilters.ByteSize(f.numBits)) == [0, 16]
  {
  }
}
