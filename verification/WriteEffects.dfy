/**
 What a write does: to the plain map that stands for the store, to a table of versions, and
 on replay from the log, where pairs with an empty key are skipped.
 */
module WriteEffects {
  import opened Keys
  import opened LogEntries
  import opened Sequences
  import opened Tables

  // ----- On the plain map -----

  /** The pairs one after the other, as far as both lists go. */
  function PutAll(ks: seq<Key>, vs: seq<Bytes>, m: map<Key, Bytes>): map<Key, Bytes> {
    if ks == [] || vs == [] then m else PutAll(ks[1..], vs[1..], m[ks[0] := vs[0]])
  }

  function Effect(op: Operation, m: map<Key, Bytes>): map<Key, Bytes> {
    match op
    case Put(k, v) => m[k := v]
    case Delete(k) => m - {k}
    case BatchPut(ks, vs) => PutAll(ks, vs, m)
  }

  function Effects(ops: seq<Operation>, m: map<Key, Bytes>): map<Key, Bytes> {
    if ops == [] then m else Effect(ops[|ops| - 1], Effects(ops[..|ops| - 1], m))
  }

  lemma {:induction false} EffectsConcat(a: seq<Operation>, b: seq<Operation>, m: map<Key, Bytes>)
    ensures Effects(a + b, m) == Effects(b, Effects(a, m))
  {
    if b == [] {
      assert a + b == a;
    } else {
      assert (a + b)[..|a + b| - 1] == a + b[..|b| - 1];
      EffectsConcat(a, b[..|b| - 1], m);
    }
  }

  lemma EffectsOne(op: Operation, m: map<Key, Bytes>)
    ensures Effects([op], m) == Effect(op, m)
  {
    assert [op][..0] == [];
  }

  // ----- Doing it twice -----

  ghost function Touched(op: Operation): set<Key> {
    match op
    case Put(k, _) => {k}
    case Delete(k) => {k}
    case BatchPut(ks, vs) => set i | 0 <= i < |ks| && i < |vs| :: ks[i]
  }

  ghost function AllTouched(ops: seq<Operation>): set<Key> {
    if ops == [] then {} else AllTouched(ops[..|ops| - 1]) + Touched(ops[|ops| - 1])
  }

  lemma TouchedTail(ks: seq<Key>, vs: seq<Bytes>)
    requires ks != [] && vs != []
    ensures Touched(BatchPut(ks, vs)) == {ks[0]} + Touched(BatchPut(ks[1..], vs[1..]))
  {
    var rest := Touched(BatchPut(ks[1..], vs[1..]));
    forall k
      ensures k in Touched(BatchPut(ks, vs)) <==> k in {ks[0]} + rest
    {
      if k in Touched(BatchPut(ks, vs)) && k != ks[0] {
        var i :| 0 <= i < |ks| && i < |vs| && ks[i] == k;
        assert ks[1..][i - 1] == k;
      }
      if k in rest {
        var i :| 0 <= i < |ks[1..]| && i < |vs[1..]| && ks[1..][i] == k;
        assert ks[i + 1] == k;
      }
    }
  }

  /** Maps that agree outside what is touched agree afterwards, except where they are not compared. */
  lemma {:induction false} PutAllLocal(ks: seq<Key>, vs: seq<Bytes>, a: map<Key, Bytes>, b: map<Key, Bytes>, x: set<Key>)
    requires a - (Touched(BatchPut(ks, vs)) + x) == b - (Touched(BatchPut(ks, vs)) + x)
    ensures PutAll(ks, vs, a) - x == PutAll(ks, vs, b) - x
    ensures PutAll(ks, vs, a) - Touched(BatchPut(ks, vs)) == a - Touched(BatchPut(ks, vs))
  {
    var t := Touched(BatchPut(ks, vs));
    if ks == [] || vs == [] {
      assert t == {} && t + x == x;
    } else {
      TouchedTail(ks, vs);
      var r := Touched(BatchPut(ks[1..], vs[1..]));
      var a', b' := a[ks[0] := vs[0]], b[ks[0] := vs[0]];
      UpdateLocal(a, b, ks[0], vs[0], r + x);
      assert t + x == {ks[0]} + (r + x);
      PutAllLocal(ks[1..], vs[1..], a', b', x);
      var p := PutAll(ks[1..], vs[1..], a');
      RemoveMore(p, a', r, {ks[0]});
      assert r + {ks[0]} == t;
      assert a' - t == a - t;
    }
  }

  lemma UpdateLocal(a: map<Key, Bytes>, b: map<Key, Bytes>, k: Key, v: Bytes, y: set<Key>)
    requires a - ({k} + y) == b - ({k} + y)
    ensures a[k := v] - y == b[k := v] - y
  {
    var a', b' := a[k := v] - y, b[k := v] - y;
    forall x
      ensures (x in a' <==> x in b') && (x in a' ==> a'[x] == b'[x])
    {
      if x != k {
        assert (x in a' <==> x in a - ({k} + y)) && (x in b' <==> x in b - ({k} + y));
      }
    }
    assert a'.Keys == b'.Keys;
  }

  lemma RemoveMore(a: map<Key, Bytes>, b: map<Key, Bytes>, x: set<Key>, y: set<Key>)
    requires a - x == b - x
    ensures a - (x + y) == b - (x + y)
  {
    assert a - (x + y) == (a - x) - y && b - (x + y) == (b - x) - y;
  }

  lemma EffectLocal(op: Operation, a: map<Key, Bytes>, b: map<Key, Bytes>, x: set<Key>)
    requires a - (Touched(op) + x) == b - (Touched(op) + x)
    ensures Effect(op, a) - x == Effect(op, b) - x && Effect(op, a) - Touched(op) == a - Touched(op)
  {
    match op
    case Put(k, v) =>
      UpdateLocal(a, b, k, v, x);
    case Delete(k) =>
      assert (a - {k}) - x == a - ({k} + x) && (b - {k}) - x == b - ({k} + x);
    case BatchPut(ks, vs) =>
      PutAllLocal(ks, vs, a, b, x);
  }

  lemma {:induction false} EffectsLocal(ops: seq<Operation>, a: map<Key, Bytes>, b: map<Key, Bytes>, x: set<Key>)
    requires a - (AllTouched(ops) + x) == b - (AllTouched(ops) + x)
    ensures Effects(ops, a) - x == Effects(ops, b) - x && Effects(ops, a) - AllTouched(ops) == a - AllTouched(ops)
  {
    if ops != [] {
      var init, op := ops[..|ops| - 1], ops[|ops| - 1];
      assert AllTouched(ops) + x == AllTouched(init) + (Touched(op) + x);
      EffectsLocal(init, a, b, Touched(op) + x);
      EffectLocal(op, Effects(init, a), Effects(init, b), x);
      RemoveMore(Effects(init, a), a, AllTouched(init), Touched(op));
      RemoveMore(Effects(ops, a), Effects(init, a), Touched(op), AllTouched(init));
      assert Touched(op) + AllTouched(init) == AllTouched(ops);
    } else {
      assert {} + x == x;
    }
  }

  /** Writing the same again changes nothing. */
  lemma EffectsTwice(ops: seq<Operation>, m: map<Key, Bytes>)
    ensures Effects(ops, Effects(ops, m)) == Effects(ops, m)
  {
    EffectsLocal(ops, m, m, {});
    var m' := Effects(ops, m);
    assert AllTouched(ops) + {} == AllTouched(ops);
    EffectsLocal(ops, m', m, {});
    assert Effects(ops, m') - {} == Effects(ops, m') && m' - {} == m';
  }

  // ----- On a table of versions -----

  function StoreAll(ks: seq<Key>, vs: seq<Bytes>, t: Table, now: nat): Table {
    if ks == [] || vs == [] then t else StoreAll(ks[1..], vs[1..], t[ks[0] := Version(vs[0], now, false)], now)
  }

  function Stored(op: Operation, t: Table, now: nat): Table {
    match op
    case Put(k, v) => t[k := Version(v, now, false)]
    case Delete(k) => t[k := Version([], now, true)]
    case BatchPut(ks, vs) => StoreAll(ks, vs, t, now)
  }

  lemma LivePut(base: Table, t: Table, k: Key, v: Bytes, now: nat)
    ensures Live(base + t[k := Version(v, now, false)]) == Live(base + t)[k := v]
  {
  }

  lemma {:induction false} LiveStoreAll(ks: seq<Key>, vs: seq<Bytes>, base: Table, t: Table, now: nat)
    ensures Live(base + StoreAll(ks, vs, t, now)) == PutAll(ks, vs, Live(base + t))
  {
    if ks != [] && vs != [] {
      LivePut(base, t, ks[0], vs[0], now);
      LiveStoreAll(ks[1..], vs[1..], base, t[ks[0] := Version(vs[0], now, false)], now);
    }
  }

  /** What readers see of a table on top of others changes just as the plain map does. */
  lemma LiveStored(op: Operation, base: Table, t: Table, now: nat)
    ensures Live(base + Stored(op, t, now)) == Effect(op, Live(base + t))
  {
    match op
    case Put(k, v) => LivePut(base, t, k, v, now);
    case Delete(k) => assert Live(base + t[k := Version([], now, true)]) == Live(base + t) - {k};
    case BatchPut(ks, vs) => LiveStoreAll(ks, vs, base, t, now);
  }

  /** The table holds what these writes do, whatever lies below it. */
  ghost predicate Represents(t: Table, ops: seq<Operation>) {
    forall base: Table {:trigger Live(base + t)} :: Live(base + t) == Effects(ops, Live(base))
  }

  lemma RepresentsNothing()
    ensures Represents(map[], [])
  {
    forall base: Table
      ensures Live(base + map[]) == Effects([], Live(base))
    {
      assert base + map[] == base;
    }
  }

  lemma RepresentsOneMore(t: Table, ops: seq<Operation>, op: Operation, now: nat)
    requires Represents(t, ops)
    ensures Represents(Stored(op, t, now), ops + [op])
  {
    forall base: Table
      ensures Live(base + Stored(op, t, now)) == Effects(ops + [op], Live(base))
    {
      LiveStored(op, base, t, now);
      assert Live(base + t) == Effects(ops, Live(base));
      EffectsConcat(ops, [op], Live(base));
      EffectsOne(op, Effects(ops, Live(base)));
    }
  }

  // ----- On replay -----

  function NonEmptyKeys(ks: seq<Key>, vs: seq<Bytes>): (seq<Key>, seq<Bytes>) {
    if ks == [] || vs == [] then ([], [])
    else
      var (ks', vs') := NonEmptyKeys(ks[1..], vs[1..]);
      if ks[0] == [] then (ks', vs') else ([ks[0]] + ks', [vs[0]] + vs')
  }

  /** What of a logged write is carried out on replay. */
  function Replayable(op: Operation): Operation {
    match op
    case Put(k, _) => if k == [] then BatchPut([], []) else op
    case Delete(k) => if k == [] then BatchPut([], []) else op
    case BatchPut(ks, vs) => var (ks', vs') := NonEmptyKeys(ks, vs); BatchPut(ks', vs')
  }

  predicate NoEmptyKey(op: Operation) {
    match op
    case Put(k, _) => k != []
    case Delete(k) => k != []
    case BatchPut(ks, vs) => forall i :: 0 <= i < |ks| && i < |vs| ==> ks[i] != []
  }

  lemma {:induction false} PutAllNonEmpty(ks: seq<Key>, vs: seq<Bytes>, m: map<Key, Bytes>)
    requires NoEmptyKey(BatchPut(ks, vs))
    ensures var (ks', vs') := NonEmptyKeys(ks, vs); PutAll(ks', vs', m) == PutAll(ks, vs, m)
  {
    if ks != [] && vs != [] {
      assert ks[0] != [];
      assert NoEmptyKey(BatchPut(ks[1..], vs[1..])) by {
        forall i | 0 <= i < |ks[1..]| && i < |vs[1..]| ensures ks[1..][i] != [] { assert ks[1..][i] == ks[i + 1]; }
      }
      PutAllNonEmpty(ks[1..], vs[1..], m[ks[0] := vs[0]]);
      var (ks', vs') := NonEmptyKeys(ks[1..], vs[1..]);
      assert ([ks[0]] + ks')[1..] == ks' && ([vs[0]] + vs')[1..] == vs';
    }
  }

  lemma {:induction false} StoreAllNonEmpty(ks: seq<Key>, vs: seq<Bytes>, t: Table, now: nat)
    requires NoEmptyKey(BatchPut(ks, vs))
    ensures var (ks', vs') := NonEmptyKeys(ks, vs); StoreAll(ks', vs', t, now) == StoreAll(ks, vs, t, now)
  {
    if ks != [] && vs != [] {
      assert ks[0] != [];
      assert NoEmptyKey(BatchPut(ks[1..], vs[1..])) by {
        forall i | 0 <= i < |ks[1..]| && i < |vs[1..]| ensures ks[1..][i] != [] { assert ks[1..][i] == ks[i + 1]; }
      }
      StoreAllNonEmpty(ks[1..], vs[1..], t[ks[0] := Version(vs[0], now, false)], now);
      var (ks', vs') := NonEmptyKeys(ks[1..], vs[1..]);
      assert ([ks[0]] + ks')[1..] == ks' && ([vs[0]] + vs')[1..] == vs';
    }
  }

  lemma {:induction false} PutAllBinds(ks: seq<Key>, vs: seq<Bytes>, m: map<Key, Bytes>, k: Key)
    ensures k in PutAll(ks, vs, m) <==> k in m || k in Touched(BatchPut(ks, vs))
  {
    if ks != [] && vs != [] {
      TouchedTail(ks, vs);
      PutAllBinds(ks[1..], vs[1..], m[ks[0] := vs[0]], k);
    }
  }

  /** A batch binds a key to the last of its values for it, and leaves other keys alone. */
  lemma {:induction false} PutAllLast(ks: seq<Key>, vs: seq<Bytes>, m: map<Key, Bytes>, i: nat)
    requires |ks| == |vs| && i < |ks| && forall j :: i < j < |ks| ==> ks[j] != ks[i]
    ensures ks[i] in PutAll(ks, vs, m) && PutAll(ks, vs, m)[ks[i]] == vs[i]
  {
    if i == 0 {
      PutAllElsewhere(ks[1..], vs[1..], m[ks[0] := vs[0]], ks[0]);
    } else {
      PutAllLast(ks[1..], vs[1..], m[ks[0] := vs[0]], i - 1);
    }
  }

  lemma {:induction false} PutAllElsewhere(ks: seq<Key>, vs: seq<Bytes>, m: map<Key, Bytes>, k: Key)
    requires k !in ks
    ensures k in PutAll(ks, vs, m) <==> k in m
    ensures k in m ==> PutAll(ks, vs, m)[k] == m[k]
  {
    if ks != [] && vs != [] {
      PutAllElsewhere(ks[1..], vs[1..], m[ks[0] := vs[0]], k);
    }
  }

  lemma {:induction false} NonEmptyKeysTouchNoEmpty(ks: seq<Key>, vs: seq<Bytes>)
    ensures var (ks', vs') := NonEmptyKeys(ks, vs); [] !in ks' && |ks'| == |vs'|
  {
    if ks != [] && vs != [] {
      NonEmptyKeysTouchNoEmpty(ks[1..], vs[1..]);
    }
  }

  /** Replay does what the write did, on every map, exactly if no key is empty. */
  lemma ReplayAgrees(op: Operation)
    ensures (forall m {:trigger Effect(op, m)} :: Effect(Replayable(op), m) == Effect(op, m)) <==> NoEmptyKey(op)
  {
    if NoEmptyKey(op) {
      forall m
        ensures Effect(Replayable(op), m) == Effect(op, m)
      {
        if op.BatchPut? { PutAllNonEmpty(op.keys, op.values, m); }
      }
    } else {
      EmptyKeyDiffers(op);
    }
  }

  lemma EmptyKeyDiffers(op: Operation)
    requires !NoEmptyKey(op)
    ensures exists m {:trigger Effect(op, m)} :: Effect(Replayable(op), m) != Effect(op, m)
  {
    match op
    case Put(k, v) =>
      var m: map<Key, Bytes> := map[];
      assert [] in Effect(op, m) && [] !in Effect(Replayable(op), m);
    case Delete(k) =>
      var m: map<Key, Bytes> := map[[] := []];
      assert [] !in Effect(op, m) && [] in Effect(Replayable(op), m);
    case BatchPut(ks, vs) =>
      var m: map<Key, Bytes> := map[];
      PutAllBinds(ks, vs, m, []);
      NonEmptyKeysTouchNoEmpty(ks, vs);
      var (ks', vs') := NonEmptyKeys(ks, vs);
      PutAllBinds(ks', vs', m, []);
      assert [] in Effect(op, m) && [] !in Effect(Replayable(op), m);
  }

  ghost predicate Clean(ops: seq<Operation>) {
    forall i :: 0 <= i < |ops| ==> NoEmptyKey(ops[i])
  }

  /** The memory table that replaying a log builds up on another one. */
  function ReplayAll(ops: seq<Operation>, t: Table, now: nat): Table {
    if ops == [] then t else Stored(Replayable(ops[|ops| - 1]), ReplayAll(ops[..|ops| - 1], t, now), now)
  }

  /** Replaying clean writes does what they did. */
  lemma {:induction false} ReplayRepresents(ops: seq<Operation>, now: nat)
    requires Clean(ops)
    ensures Represents(ReplayAll(ops, map[], now), ops)
  {
    if ops == [] {
      RepresentsNothing();
    } else {
      var init, op := ops[..|ops| - 1], ops[|ops| - 1];
      ReplayRepresents(init, now);
      RepresentsReplayed(ReplayAll(init, map[], now), init, op, now);
      InitAndLast(ops);
    }
  }

  lemma RepresentsReplayed(t: Table, ops: seq<Operation>, op: Operation, now: nat)
    requires Represents(t, ops) && NoEmptyKey(op)
    ensures Represents(Stored(Replayable(op), t, now), ops + [op])
  {
    forall base: Table
      ensures Live(base + Stored(Replayable(op), t, now)) == Effects(ops + [op], Live(base))
    {
      LiveStored(Replayable(op), base, t, now);
      ReplayAgrees(op);
      assert Live(base + t) == Effects(ops, Live(base));
      assert Effect(Replayable(op), Live(base + t)) == Effect(op, Live(base + t));
      EffectsConcat(ops, [op], Live(base));
      EffectsOne(op, Effects(ops, Live(base)));
    }
  }
}
