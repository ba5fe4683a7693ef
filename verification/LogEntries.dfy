/**
 Log operations and the byte form of their payloads, which the write-ahead log and the
 replication protocol share.
 */
module LogEntries {
  import opened Wrappers
  import opened Keys
  import opened Buffers
  import opened PairFormat
  import opened Sequences

  datatype Operation =
    | Put(key: Key, value: Bytes)
    | Delete(key: Key)
    | BatchPut(keys: seq<Key>, values: seq<Bytes>)

  datatype LogEntry = LogEntry(sequenceId: nat, timestamp: nat, operation: Operation)

  function Operations(entries: seq<LogEntry>): seq<Operation> {
    seq(|entries|, i requires 0 <= i < |entries| => entries[i].operation)
  }

  /** The lengths fit their fields, and a batch has as many values as keys. */
  predicate Fits(op: Operation) {
    match op
    case Put(k, v) => |k| < 0x1_0000 && |v| < 0x1_0000_0000
    case Delete(k) => |k| < 0x1_0000
    case BatchPut(ks, vs) =>
      |ks| == |vs| < 0x1_0000_0000 &&
      (forall i :: 0 <= i < |ks| ==> |ks[i]| < 0x1_0000) && (forall i :: 0 <= i < |vs| ==> |vs[i]| < 0x1_0000_0000)
  }

  function OperationCode(op: Operation): Byte {
    match op
    case Put(_, _) => 1
    case Delete(_) => 2
    case BatchPut(_, _) => 3
  }

  function PairsBytes(ks: seq<Key>, vs: seq<Bytes>): Bytes
    requires |ks| == |vs|
  {
    if ks == [] then [] else PairBytes(ks[0], vs[0]) + PairsBytes(ks[1..], vs[1..])
  }

  /** The payload format. */
  function PayloadBytes(op: Operation): Bytes
    requires Fits(op)
  {
    match op
    case Put(k, v) => PairBytes(k, v)
    case Delete(k) => Encode(|k|, 2) + k
    case BatchPut(ks, vs) => Encode(|ks|, 4) + PairsBytes(ks, vs)
  }

  // ----- Writing -----

  lemma PairsBytesLength(ks: seq<Key>, vs: seq<Bytes>, i: nat)
    requires |ks| == |vs| && i < |ks|
    ensures |PairsBytes(ks[..i + 1], vs[..i + 1])| == |PairsBytes(ks[..i], vs[..i])| + 6 + |ks[i]| + |vs[i]|
    ensures PairsBytes(ks[..i + 1], vs[..i + 1]) == PairsBytes(ks[..i], vs[..i]) + PairBytes(ks[i], vs[i])
  {
    PairsBytesConcat(ks[..i], vs[..i], [ks[i]], [vs[i]]);
    assert ks[..i + 1] == ks[..i] + [ks[i]] && vs[..i + 1] == vs[..i] + [vs[i]];
    assert PairsBytes([ks[i]], [vs[i]]) == PairBytes(ks[i], vs[i]) + PairsBytes([], []);
  }

  lemma {:induction false} PairsBytesConcat(ks: seq<Key>, vs: seq<Bytes>, ks': seq<Key>, vs': seq<Bytes>)
    requires |ks| == |vs| && |ks'| == |vs'|
    ensures PairsBytes(ks + ks', vs + vs') == PairsBytes(ks, vs) + PairsBytes(ks', vs')
  {
    if ks == [] {
      assert ks + ks' == ks' && vs + vs' == vs';
    } else {
      PairsBytesConcat(ks[1..], vs[1..], ks', vs');
      TailOfConcat(ks, ks');
      TailOfConcat(vs, vs');
      Associative(PairBytes(ks[0], vs[0]), PairsBytes(ks[1..], vs[1..]), PairsBytes(ks', vs'));
    }
  }

  lemma {:induction false} PairsBytesMonotone(ks: seq<Key>, vs: seq<Bytes>, i: nat)
    requires |ks| == |vs| && i <= |ks|
    ensures |PairsBytes(ks[..i], vs[..i])| <= |PairsBytes(ks, vs)|
  {
    PairsBytesConcat(ks[..i], vs[..i], ks[i..], vs[i..]);
    assert ks == ks[..i] + ks[i..] && vs == vs[..i] + vs[i..];
  }

  /** The payload, written into a buffer of the computed size at a moving offset. */
  method SerializePayload(op: Operation) returns (payload: Bytes)
    requires Fits(op)
    ensures payload == PayloadBytes(op)
  {
    match op
    case Put(k, v) =>
      var buffer := new Byte[2 + |k| + 4 + |v|];
      var offset := WritePair(buffer, k, v, 0);
      payload := buffer[..offset];
    case Delete(k) =>
      var buffer := new Byte[2 + |k|];
      WriteUInt(buffer, |k|, 0, 2);
      CopyInto(buffer, k, 2);
      payload := buffer[..2 + |k|];
    case BatchPut(ks, vs) =>
      payload := SerializeBatch(ks, vs);
  }

  method BatchSize(ks: seq<Key>, vs: seq<Bytes>) returns (size: nat)
    requires |ks| == |vs|
    ensures size == 4 + |PairsBytes(ks, vs)|
  {
    size := 4;
    for i := 0 to |ks|
      invariant size == 4 + |PairsBytes(ks[..i], vs[..i])|
    {
      PairsBytesLength(ks, vs, i);
      size := size + (2 + |ks[i]| + 4 + |vs[i]|);
    }
    assert ks[..|ks|] == ks && vs[..|vs|] == vs;
  }

  method SerializeBatch(ks: seq<Key>, vs: seq<Bytes>) returns (payload: Bytes)
    requires |ks| == |vs|
    ensures payload == Encode(|ks|, 4) + PairsBytes(ks, vs)
  {
    hide PairBytes, Encode;
    var size := BatchSize(ks, vs);
    var buffer := new Byte[size];
    WriteUInt(buffer, |ks|, 0, 4);
    var offset := 4;
    for i := 0 to |ks|
      invariant offset == 4 + |PairsBytes(ks[..i], vs[..i])| <= size
      invariant buffer[..offset] == Encode(|ks|, 4) + PairsBytes(ks[..i], vs[..i])
    {
      PairsBytesLength(ks, vs, i);
      PairsBytesMonotone(ks, vs, i + 1);
      offset := WritePair(buffer, ks[i], vs[i], offset);
    }
    assert ks[..|ks|] == ks && vs[..|vs|] == vs;
    payload := buffer[..offset];
  }

  // ----- Reading -----

  function ReadPairs(payload: Bytes, offset: nat, count: nat): Result<(seq<Key>, seq<Bytes>)>
    decreases count
  {
    if count == 0 then Ok(([], []))
    else
      var (k, v, next) :- ReadPair(payload, offset);
      var (ks, vs) :- ReadPairs(payload, next, count - 1);
      Ok(([k] + ks, [v] + vs))
  }

  function DecodePayload(code: nat, payload: Bytes): Result<Operation> {
    if code == 1 then
      var (k, v, _) :- ReadPair(payload, 0);
      Ok(Put(k, v))
    else if code == 2 then
      var keyLen :- ReadUInt(payload, 0, 2);
      Ok(Delete(Slice(payload, 2, 2 + keyLen)))
    else if code == 3 then
      var count :- ReadUInt(payload, 0, 4);
      var (ks, vs) :- ReadPairs(payload, 4, count);
      Ok(BatchPut(ks, vs))
    else Err("Unknown code")
  }

  function After(ks: seq<Key>, vs: seq<Bytes>, rest: Result<(seq<Key>, seq<Bytes>)>): Result<(seq<Key>, seq<Bytes>)> {
    var (ks', vs') :- rest;
    Ok((ks + ks', vs + vs'))
  }

  lemma AfterOne(ks: seq<Key>, vs: seq<Bytes>, k: Key, v: Bytes, rest: Result<(seq<Key>, seq<Bytes>)>)
    ensures After(ks, vs, After([k], [v], rest)) == After(ks + [k], vs + [v], rest)
    ensures After([], [], rest) == rest
    ensures After(ks, vs, Ok(([], []))) == Ok((ks, vs))
  {
    if rest.Ok? {
      assert ks + ([k] + rest.value.0) == ks + [k] + rest.value.0;
      assert vs + ([v] + rest.value.1) == vs + [v] + rest.value.1;
      assert [] + rest.value.0 == rest.value.0 && [] + rest.value.1 == rest.value.1;
    }
    assert ks + [] == ks && vs + [] == vs;
  }

  /** The loop that reads a batch. */
  method DeserializeBatch(payload: Bytes, count: nat) returns (r: Result<(seq<Key>, seq<Bytes>)>)
    ensures r == ReadPairs(payload, 4, count)
  {
    ghost var result := ReadPairs(payload, 4, count);
    var offset: nat, i: nat := 4, 0;
    var keys: seq<Key>, values: seq<Bytes> := [], [];
    AfterOne([], [], [], [], result);
    while i < count
      invariant i <= count && result == After(keys, values, ReadPairs(payload, offset, count - i))
    {
      var pair := ReadPair(payload, offset);
      if pair.Err? {
        return Err(pair.reason);
      }
      var (k, v, next) := pair.value;
      AfterOne(keys, values, k, v, ReadPairs(payload, next, count - i - 1));
      keys, values, offset, i := keys + [k], values + [v], next, i + 1;
    }
    AfterOne(keys, values, [], [], result);
    r := Ok((keys, values));
  }

  // ----- Round trips -----

  lemma FitsTail(ks: seq<Key>, vs: seq<Bytes>)
    requires Fits(BatchPut(ks, vs)) && ks != []
    ensures Fits(BatchPut(ks[1..], vs[1..])) && |ks[0]| < 0x1_0000 && |vs[0]| < 0x1_0000_0000
  {
  }

  lemma ReadPairsStep(b: Bytes, off: nat, count: nat, k: Key, v: Bytes, next: nat, ks: seq<Key>, vs: seq<Bytes>)
    requires count > 0 && ReadPair(b, off) == Ok((k, v, next)) && ReadPairs(b, next, count - 1) == Ok((ks, vs))
    ensures ReadPairs(b, off, count) == Ok(([k] + ks, [v] + vs))
  {
  }

  lemma {:induction false} ReadPairsBack(b: Bytes, off: nat, ks: seq<Key>, vs: seq<Bytes>)
    requires Fits(BatchPut(ks, vs)) && At(b, off, PairsBytes(ks, vs))
    ensures ReadPairs(b, off, |ks|) == Ok((ks, vs))
    decreases |ks|
  {
    if ks != [] {
      var k, v, ks', vs' := ks[0], vs[0], ks[1..], vs[1..];
      FitsTail(ks, vs);
      var next := ReadPairThere(b, off, k, v, PairsBytes(ks', vs'));
      ReadPairsBack(b, next, ks', vs');
      ReadPairsStep(b, off, |ks|, k, v, next, ks', vs');
      HeadAndTail(ks);
      HeadAndTail(vs);
    }
  }

  /** Every operation whose lengths fit comes back from its payload, batches of any length included. */
  lemma PayloadRoundTrip(op: Operation)
    requires Fits(op)
    ensures DecodePayload(OperationCode(op) as nat, PayloadBytes(op)) == Ok(op)
  {
    PowersOf256();
    var b := PayloadBytes(op);
    assert At(b, 0, b);
    match op
    case Put(k, v) => ReadPairBack(b, 0, k, v);
    case Delete(k) =>
      AtConcat(b, 0, Encode(|k|, 2), k);
      ReadBack(b, 0, |k|, 2);
    case BatchPut(ks, vs) =>
      AtConcat(b, 0, Encode(|ks|, 4), PairsBytes(ks, vs));
      ReadBack(b, 0, |ks|, 4);
      ReadPairsBack(b, 4, ks, vs);
  }
}
