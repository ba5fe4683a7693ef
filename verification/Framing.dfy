/**
 Length-prefixed records in a file: the loop that reads them back, and what it finds in a
 file that is cut short or whose records are damaged.  What makes a record acceptable, and
 what is read from it, is a parameter.
 */
module Framing {
  import opened Wrappers
  import opened Keys
  import opened Buffers

  /** A record: the length of its body in four bytes, then the body. */
  function Frame(body: Bytes): Bytes {
    Encode(|body|, 4) + body
  }

  ghost function Stream(bodies: seq<Bytes>): Bytes {
    if bodies == [] then [] else Stream(bodies[..|bodies| - 1]) + Frame(bodies[|bodies| - 1])
  }

  /** What is read from an offset on: the loop stops at the first record it cannot accept. */
  ghost function ReadFrom<T>(accept: Bytes -> Option<T>, file: Bytes, offset: nat): seq<T>
    decreases |file| - offset
  {
    if offset + 4 > |file| then []
    else
      var next := offset + 4 + Decode(file[offset..offset + 4]);
      if next > |file| || accept(file[offset + 4..next]).None? then []
      else [accept(file[offset + 4..next]).value] + ReadFrom(accept, file, next)
  }

  method ReadRecords<T>(accept: Bytes -> Option<T>, file: Bytes) returns (entries: seq<T>)
    ensures entries == ReadFrom(accept, file, 0)
  {
    entries := [];
    var offset := 0;
    while offset < |file|
      invariant ReadFrom(accept, file, 0) == entries + ReadFrom(accept, file, offset)
      decreases |file| - offset
    {
      if |file| - offset < 4 { break; }
      var length := Decode(file[offset..offset + 4]);
      offset := offset + 4;
      if offset + length > |file| { return; }
      var entryBuffer := file[offset..offset + length];
      offset := offset + length;
      var entry := accept(entryBuffer);
      if entry.None? { return; }
      assert entries + ([entry.value] + ReadFrom(accept, file, offset)) == entries + [entry.value] + ReadFrom(accept, file, offset);
      entries := entries + [entry.value];
    }
  }

  /** The bodies fit their length fields and are accepted as the given items. */
  ghost predicate Readable<T>(accept: Bytes -> Option<T>, bodies: seq<Bytes>, items: seq<T>) {
    |bodies| == |items| &&
    forall i :: 0 <= i < |bodies| ==> |bodies[i]| < 0x1_0000_0000 && accept(bodies[i]) == Some(items[i])
  }

  /** One record, whatever stands around it. */
  lemma ReadOne<T>(accept: Bytes -> Option<T>, file: Bytes, offset: nat, body: Bytes)
    requires At(file, offset, Frame(body)) && |body| < 0x1_0000_0000
    ensures accept(body).None? ==> ReadFrom(accept, file, offset) == []
    ensures accept(body).Some? ==>
      ReadFrom(accept, file, offset) == [accept(body).value] + ReadFrom(accept, file, offset + |Frame(body)|)
  {
    PowersOf256();
    NumberRoundTrip(|body|, 4);
    AtConcat(file, offset, Encode(|body|, 4), body);
  }

  lemma ReadNext<T>(accept: Bytes -> Option<T>, file: Bytes, before: Bytes, body: Bytes, item: T)
    requires before + Frame(body) <= file && |body| < 0x1_0000_0000 && accept(body) == Some(item)
    ensures ReadFrom(accept, file, |before|) == [item] + ReadFrom(accept, file, |before + Frame(body)|)
  {
    assert At(file, |before|, Frame(body)) by {
      assert file[|before|..|before + Frame(body)|] == (before + Frame(body))[|before|..];
    }
    ReadOne(accept, file, |before|, body);
  }

  lemma Regroup<T>(a: seq<T>, x: T, b: seq<T>, whole: seq<T>)
    requires whole != [] && a == whole[..|whole| - 1] && x == whole[|whole| - 1]
    ensures a + ([x] + b) == whole + b
  {
  }

  /** Reading passes over a prefix of good records. */
  lemma {:induction false} ReadPrefix<T>(accept: Bytes -> Option<T>, bodies: seq<Bytes>, items: seq<T>, file: Bytes)
    requires Readable(accept, bodies, items) && Stream(bodies) <= file
    ensures ReadFrom(accept, file, 0) == items + ReadFrom(accept, file, |Stream(bodies)|)
    decreases |bodies|
  {
    if bodies != [] {
      var n := |bodies| - 1;
      var s := Stream(bodies[..n]);
      assert Stream(bodies) == s + Frame(bodies[n]);
      ReadPrefix(accept, bodies[..n], items[..n], file) by {
        assert s == Stream(bodies)[..|s|];
      }
      ReadNext(accept, file, s, bodies[n], items[n]);
      Regroup(items[..n], items[n], ReadFrom(accept, file, |Stream(bodies)|), items);
    }
  }

  lemma {:induction false} StreamPrefix(bodies: seq<Bytes>, k: nat)
    requires k <= |bodies|
    ensures Stream(bodies[..k]) <= Stream(bodies)
    ensures k < |bodies| ==> At(Stream(bodies), |Stream(bodies[..k])|, Frame(bodies[k]))
    ensures k < |bodies| ==> Stream(bodies[..k + 1]) == Stream(bodies[..k]) + Frame(bodies[k])
    decreases |bodies|
  {
    if k < |bodies| {
      var n := |bodies| - 1;
      assert bodies[..k + 1][..k] == bodies[..k];
      if k < n {
        StreamPrefix(bodies[..n], k);
        assert bodies[..n][..k] == bodies[..k];
      }
      assert Stream(bodies) == Stream(bodies[..n]) + Frame(bodies[n]);
    } else {
      assert bodies[..k] == bodies;
    }
  }

  /** How many records lie wholly within the first `n` bytes. */
  ghost function WholeRecords(bodies: seq<Bytes>, n: nat): nat {
    if bodies == [] then 0
    else if |Stream(bodies)| <= n then |bodies|
    else WholeRecords(bodies[..|bodies| - 1], n)
  }

  lemma {:induction false} WholeRecordsIsGreatest(bodies: seq<Bytes>, n: nat)
    ensures var k := WholeRecords(bodies, n); k <= |bodies| && |Stream(bodies[..k])| <= n
    ensures var k := WholeRecords(bodies, n); k < |bodies| ==> n < |Stream(bodies[..k + 1])|
    decreases |bodies|
  {
    if bodies != [] {
      var m := |bodies| - 1;
      if |Stream(bodies)| <= n {
        assert bodies[..|bodies|] == bodies;
      } else {
        WholeRecordsIsGreatest(bodies[..m], n);
        var k := WholeRecords(bodies[..m], n);
        assert bodies[..m][..k] == bodies[..k];
        if k == m {
          assert bodies[..k + 1] == bodies;
        } else {
          assert bodies[..m][..k + 1] == bodies[..k + 1];
        }
      }
    }
  }

  /** Of a record that is cut off, nothing is read. */
  lemma ReadCutRecord<T>(accept: Bytes -> Option<T>, before: Bytes, body: Bytes, part: Bytes)
    requires part < Frame(body) && |body| < 0x1_0000_0000
    ensures ReadFrom(accept, before + part, |before|) == []
  {
    var file := before + part;
    if |part| >= 4 {
      PowersOf256();
      NumberRoundTrip(|body|, 4);
      assert file[|before|..|before| + 4] == Frame(body)[..4] == Encode(|body|, 4);
    }
  }

  lemma CutWithin(whole: Bytes, s: Bytes, f: Bytes, n: nat)
    requires s + f <= whole && |s| <= n < |s| + |f|
    ensures whole[..n] == s + f[..n - |s|] && f[..n - |s|] < f
  {
    assert whole[..|s + f|] == s + f;
  }

  /** A cut anywhere loses exactly the records it does not leave whole. */
  lemma ReadTruncated<T>(accept: Bytes -> Option<T>, bodies: seq<Bytes>, items: seq<T>, n: nat)
    requires Readable(accept, bodies, items) && n <= |Stream(bodies)|
    ensures WholeRecords(bodies, n) <= |items|
    ensures ReadFrom(accept, Stream(bodies)[..n], 0) == items[..WholeRecords(bodies, n)]
  {
    var k := WholeRecords(bodies, n);
    WholeRecordsIsGreatest(bodies, n);
    StreamPrefix(bodies, k);
    var s := Stream(bodies[..k]);
    if k < |bodies| {
      StreamPrefix(bodies, k + 1);
      CutWithin(Stream(bodies), s, Frame(bodies[k]), n);
      var part := Frame(bodies[k])[..n - |s|];
      ReadCutRecord(accept, s, bodies[k], part);
      ReadPrefix(accept, bodies[..k], items[..k], s + part);
    } else {
      assert bodies[..k] == bodies && items[..k] == items && Stream(bodies)[..n] == Stream(bodies);
      ReadWhole(accept, bodies, items);
    }
  }

  /** A record that is not accepted hides everything behind it, and nothing before it. */
  lemma ReadDamaged<T>(accept: Bytes -> Option<T>, bodies: seq<Bytes>, items: seq<T>, bad: Bytes, rest: Bytes)
    requires Readable(accept, bodies, items) && |bad| < 0x1_0000_0000 && accept(bad).None?
    ensures ReadFrom(accept, Stream(bodies) + Frame(bad) + rest, 0) == items
  {
    var file := Stream(bodies) + Frame(bad) + rest;
    ReadPrefix(accept, bodies, items, file);
    AtMiddle(Stream(bodies), Frame(bad), rest);
    ReadOne(accept, file, |Stream(bodies)|, bad);
  }

  lemma ReadWhole<T>(accept: Bytes -> Option<T>, bodies: seq<Bytes>, items: seq<T>)
    requires Readable(accept, bodies, items)
    ensures ReadFrom(accept, Stream(bodies), 0) == items
  {
    ReadPrefix(accept, bodies, items, Stream(bodies));
  }
}
