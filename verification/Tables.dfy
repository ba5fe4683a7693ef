/**
 What every layer of the store holds: versions of values, and how layers shadow each other.
 A layer is a map from keys to versions; a stack of layers is listed newest first.
 */
module Tables {
  import opened Keys
  import opened Sequences
  import opened SortedEntries

  /** A stored value or, if `deleted`, a tombstone. */
  datatype Version = Version(value: Bytes, timestamp: nat, deleted: bool)

  type Table = map<Key, Version>
  type Record = Pair<Version>

  /** The newest version of every key. */
  ghost function Overlay(layers: seq<Table>): Table {
    if layers == [] then map[] else Overlay(layers[1..]) + layers[0]
  }

  /** What a reader sees: the live values, tombstones left out. */
  ghost function Live(t: Table): map<Key, Bytes> {
    map k | k in t && !t[k].deleted :: t[k].value
  }

  /** What the merge emits: tombstones count as bindings only if they are asked for. */
  ghost function Visible(t: Table, includeTombstones: bool): map<Key, Bytes> {
    map k | k in t && (includeTombstones || !t[k].deleted) :: t[k].value
  }

  lemma VisibleIsLive(t: Table)
    ensures Visible(t, false) == Live(t)
  {
  }

  lemma {:induction false} OverlayConcat(a: seq<Table>, b: seq<Table>)
    ensures Overlay(a + b) == Overlay(b) + Overlay(a)
  {
    if a == [] {
      assert a + b == b;
    } else {
      TailOfConcat(a, b);
      OverlayConcat(a[1..], b);
      MapPlusAssociative(Overlay(b), Overlay(a[1..]), a[0]);
    }
  }

  lemma MapPlusAssociative<K, V>(a: map<K, V>, b: map<K, V>, c: map<K, V>)
    ensures (a + b) + c == a + (b + c)
  {
  }

  lemma OverlayPush(t: Table, layers: seq<Table>)
    ensures Overlay([t] + layers) == Overlay(layers) + t
  {
    assert ([t] + layers)[1..] == layers;
  }

  /** The overlay binds a key to the version in the first layer that has it. */
  lemma {:induction false} OverlayFirst(layers: seq<Table>, i: nat, k: Key)
    requires i < |layers| && k in layers[i] && forall j :: 0 <= j < i ==> k !in layers[j]
    ensures k in Overlay(layers) && Overlay(layers)[k] == layers[i][k]
  {
    if i > 0 {
      OverlayFirst(layers[1..], i - 1, k);
    }
  }

  /** What the overlay holds comes from one of the layers. */
  lemma {:induction false} OverlayFrom(layers: seq<Table>, k: Key) returns (i: nat)
    requires k in Overlay(layers)
    ensures i < |layers| && k in layers[i] && layers[i][k] == Overlay(layers)[k]
  {
    if k in layers[0] {
      i := 0;
    } else {
      var h := OverlayFrom(layers[1..], k);
      i := h + 1;
    }
  }

  lemma {:induction false} OverlayAbsent(layers: seq<Table>, k: Key)
    requires forall j :: 0 <= j < |layers| ==> k !in layers[j]
    ensures k !in Overlay(layers)
  {
    if layers != [] {
      OverlayAbsent(layers[1..], k);
    }
  }

  /** Taking one key out of every layer takes it out of the overlay. */
  lemma {:induction false} OverlayWithout(layers: seq<Table>, layers': seq<Table>, k: Key)
    requires |layers'| == |layers| && forall i :: 0 <= i < |layers| ==> layers'[i] == layers[i] - {k}
    ensures Overlay(layers') == Overlay(layers) - {k}
  {
    if layers != [] {
      OverlayWithout(layers[1..], layers'[1..], k);
      assert layers'[0] == layers[0] - {k};
    }
  }

  /** A layer on top decides the live view only through what it shadows. */
  lemma LiveUnder(top: Table, a: Table, b: Table)
    requires Live(a) == Live(b)
    ensures Live(a + top) == Live(b + top)
  {
    assert Live(a + top).Keys == Live(b + top).Keys by {
      forall k
        ensures k in Live(a + top) <==> k in Live(b + top)
      {
        if k !in top {
          assert k in Live(a) <==> k in Live(b);
        }
      }
    }
    forall k | k in Live(a + top)
      ensures Live(a + top)[k] == Live(b + top)[k]
    {
      if k !in top {
        assert k in Live(a) && Live(a)[k] == Live(b)[k];
      }
    }
  }
}
