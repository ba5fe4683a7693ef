/** Lists of key/value pairs in key order, and the maps they stand for. */
module SortedEntries {
  import opened Keys

  datatype Pair<+V> = Pair(key: Key, value: V)

  ghost predicate Sorted<V>(s: seq<Pair<V>>) {
    forall i, j :: 0 <= i < j < |s| ==> Less(s[i].key, s[j].key)
  }

  ghost predicate AllBelow<V>(s: seq<Pair<V>>, k: Key) {
    forall i :: 0 <= i < |s| ==> Less(s[i].key, k)
  }

  ghost predicate AllAbove<V>(k: Key, s: seq<Pair<V>>) {
    forall i :: 0 <= i < |s| ==> Less(k, s[i].key)
  }

  /** The map a list of pairs stands for; a later pair wins. */
  ghost function MapOf<V>(s: seq<Pair<V>>): map<Key, V> {
    if s == [] then map[] else MapOf(s[..|s| - 1])[s[|s| - 1].key := s[|s| - 1].value]
  }

  lemma {:induction false} MapOfConcat<V>(a: seq<Pair<V>>, b: seq<Pair<V>>)
    ensures MapOf(a + b) == MapOf(a) + MapOf(b)
  {
    if b == [] {
      assert a + b == a;
    } else {
      var b' := b[..|b| - 1];
      assert (a + b)[..|a + b| - 1] == a + b';
      MapOfConcat(a, b');
    }
  }

  lemma MapOfOne<V>(p: Pair<V>)
    ensures MapOf([p]) == map[p.key := p.value]
  {
    assert [p][..0] == [];
  }

  lemma MapOfAppend<V>(a: seq<Pair<V>>, p: Pair<V>)
    ensures MapOf(a + [p]) == MapOf(a)[p.key := p.value]
  {
    assert (a + [p])[..|a + [p]| - 1] == a;
  }

  lemma {:induction false} MapOfHas<V>(s: seq<Pair<V>>, k: Key)
    ensures k in MapOf(s) <==> exists i :: 0 <= i < |s| && s[i].key == k
  {
    if s != [] {
      var t := s[..|s| - 1];
      MapOfHas(t, k);
      if k in MapOf(t) {
        var i :| 0 <= i < |t| && t[i].key == k;
        assert s[i].key == k;
      }
      assert s[|s| - 1].key in MapOf(s);
    }
  }

  lemma SortedUnique<V>(s: seq<Pair<V>>, i: nat, j: nat)
    requires Sorted(s) && i < |s| && j < |s| && s[i].key == s[j].key
    ensures i == j
  {
    LessIrreflexive(s[i].key);
  }

  /** In a sorted list, each pair is the map's binding of its key. */
  lemma {:induction false} MapOfAt<V>(s: seq<Pair<V>>, i: nat)
    requires Sorted(s) && i < |s|
    ensures s[i].key in MapOf(s) && MapOf(s)[s[i].key] == s[i].value
  {
    if i < |s| - 1 {
      MapOfAt(s[..|s| - 1], i);
      LessIrreflexive(s[i].key);
    }
  }

  lemma MapOfMiddle<V>(a: seq<Pair<V>>, p: Pair<V>, b: seq<Pair<V>>)
    requires Sorted(a + [p] + b)
    ensures p.key in MapOf(a + [p] + b) && MapOf(a + [p] + b)[p.key] == p.value
  {
    assert (a + [p] + b)[|a|] == p;
    MapOfAt(a + [p] + b, |a|);
  }

  lemma SortedSplit<V>(a: seq<Pair<V>>, p: Pair<V>, b: seq<Pair<V>>)
    requires Sorted(a + [p] + b)
    ensures Sorted(a) && Sorted(b) && Sorted(a + b) && AllBelow(a, p.key) && AllAbove(p.key, b)
  {
    var s, t := a + [p] + b, a + b;
    assert forall i :: 0 <= i < |a| ==> s[i] == a[i];
    forall i | 0 <= i < |b|
      ensures s[|a| + 1 + i] == b[i]
    {
    }
    assert s[|a|] == p;
    forall i | 0 <= i < |b|
      ensures Less(p.key, b[i].key)
    {
      assert s[|a| + 1 + i] == b[i];
    }
    forall i, j | 0 <= i < j < |t|
      ensures Less(t[i].key, t[j].key)
    {
      assert t[i] == s[if i < |a| then i else i + 1] && t[j] == s[if j < |a| then j else j + 1];
    }
    assert b == t[|a|..];
  }

  lemma SortedInsert<V>(a: seq<Pair<V>>, p: Pair<V>, b: seq<Pair<V>>)
    requires Sorted(a + b) && AllBelow(a, p.key) && AllAbove(p.key, b)
    ensures Sorted(a + [p] + b)
  {
    var s, t := a + [p] + b, a + b;
    forall i, j | 0 <= i < j < |s|
      ensures Less(s[i].key, s[j].key)
    {
      if i != |a| && j != |a| {
        assert s[i] == t[if i < |a| then i else i - 1] && s[j] == t[if j < |a| then j else j - 1];
      }
    }
  }

  lemma SortedAppend<V>(a: seq<Pair<V>>, p: Pair<V>)
    requires Sorted(a) && AllBelow(a, p.key)
    ensures Sorted(a + [p])
  {
    assert a + [] == a && a + [p] + [] == a + [p];
    SortedInsert(a, p, []);
  }

  lemma KeyNotBelow<V>(a: seq<Pair<V>>, k: Key)
    requires AllBelow(a, k) || AllAbove(k, a)
    ensures k !in MapOf(a)
  {
    MapOfHas(a, k);
    LessIrreflexive(k);
  }

  /** Putting a pair between the smaller and the larger keys binds exactly that key. */
  lemma MapOfInsert<V>(a: seq<Pair<V>>, p: Pair<V>, b: seq<Pair<V>>)
    requires AllBelow(a, p.key) && AllAbove(p.key, b)
    ensures p.key !in MapOf(a + b)
    ensures MapOf(a + [p] + b) == MapOf(a + b)[p.key := p.value]
  {
    KeyNotBelow(a, p.key);
    KeyNotBelow(b, p.key);
    MapOfConcat(a, b);
    MapOfConcat(a + [p], b);
    MapOfConcat(a, [p]);
    MapOfOne(p);
  }

  /** Changing the value of one pair rebinds its key; taking the pair out unbinds it. */
  lemma MapOfReplace<V>(a: seq<Pair<V>>, p: Pair<V>, v: V, b: seq<Pair<V>>)
    requires Sorted(a + [p] + b)
    ensures Sorted(a + [Pair(p.key, v)] + b)
    ensures MapOf(a + [Pair(p.key, v)] + b) == MapOf(a + [p] + b)[p.key := v]
    ensures Sorted(a + b) && MapOf(a + b) == MapOf(a + [p] + b) - {p.key}
    ensures p.key in MapOf(a + [p] + b)
  {
    SortedSplit(a, p, b);
    SortedInsert(a, Pair(p.key, v), b);
    MapOfInsert(a, p, b);
    MapOfInsert(a, Pair(p.key, v), b);
    RemoveInserted(MapOf(a + b), p.key, p.value);
  }

  lemma RemoveInserted<V>(m: map<Key, V>, k: Key, v: V)
    requires k !in m
    ensures m[k := v] - {k} == m
  {
    assert (m[k := v] - {k}).Keys == m.Keys;
  }

  /** A sorted list is determined by the map it stands for. */
  lemma {:induction false} SortedListUnique<V>(s: seq<Pair<V>>, t: seq<Pair<V>>)
    requires Sorted(s) && Sorted(t) && MapOf(s) == MapOf(t)
    ensures s == t
  {
    if s == [] || t == [] {
      if s != [] { MapOfAt(s, 0); }
      if t != [] { MapOfAt(t, 0); }
    } else {
      var a, b := s[|s| - 1], t[|t| - 1];
      LastIsGreatest(s, b.key);
      LastIsGreatest(t, a.key);
      if a.key != b.key {
        LessTransitive(a.key, b.key, a.key);
        LessIrreflexive(a.key);
      }
      MapWithoutLast(s);
      MapWithoutLast(t);
      SortedListUnique(s[..|s| - 1], t[..|t| - 1]);
      assert s == s[..|s| - 1] + [a] && t == t[..|t| - 1] + [b];
    }
  }

  lemma LastIsGreatest<V>(s: seq<Pair<V>>, k: Key)
    requires Sorted(s) && s != []
    ensures s[|s| - 1].key in MapOf(s)
    ensures k in MapOf(s) ==> AtMost(k, s[|s| - 1].key)
  {
    MapOfHas(s, k);
  }

  lemma MapWithoutLast<V>(s: seq<Pair<V>>)
    requires Sorted(s) && s != []
    ensures MapOf(s[..|s| - 1]) == MapOf(s) - {s[|s| - 1].key}
  {
    var t, p := s[..|s| - 1], s[|s| - 1];
    KeyNotBelow(t, p.key);
    assert (MapOf(t)[p.key := p.value] - {p.key}).Keys == MapOf(t).Keys;
  }

  // ----- Ranges -----

  predicate InRange(k: Key, lo: Key, hi: Key) {
    AtMost(lo, k) && AtMost(k, hi)
  }

  /** The pairs whose keys lie in [lo, hi], in order. */
  ghost function RangeOf<V>(s: seq<Pair<V>>, lo: Key, hi: Key): seq<Pair<V>> {
    if s == [] then []
    else RangeOf(s[..|s| - 1], lo, hi) + (if InRange(s[|s| - 1].key, lo, hi) then [s[|s| - 1]] else [])
  }

  lemma {:induction false} RangeOfConcat<V>(a: seq<Pair<V>>, b: seq<Pair<V>>, lo: Key, hi: Key)
    ensures RangeOf(a + b, lo, hi) == RangeOf(a, lo, hi) + RangeOf(b, lo, hi)
  {
    if b == [] {
      assert a + b == a;
    } else {
      assert (a + b)[..|a + b| - 1] == a + b[..|b| - 1];
      RangeOfConcat(a, b[..|b| - 1], lo, hi);
    }
  }

  lemma {:induction false} RangeOfNone<V>(s: seq<Pair<V>>, lo: Key, hi: Key)
    requires forall i :: 0 <= i < |s| ==> !InRange(s[i].key, lo, hi)
    ensures RangeOf(s, lo, hi) == []
  {
    if s != [] {
      RangeOfNone(s[..|s| - 1], lo, hi);
    }
  }

  /** Nothing below a key at most `lo`, and nothing above a key at least `hi`, is in the range. */
  lemma RangeOfOutside<V>(s: seq<Pair<V>>, k: Key, lo: Key, hi: Key)
    requires (AllBelow(s, k) && AtMost(k, lo)) || (AllAbove(k, s) && AtMost(hi, k))
    ensures RangeOf(s, lo, hi) == []
  {
    forall i | 0 <= i < |s|
      ensures !InRange(s[i].key, lo, hi)
    {
      var x := s[i].key;
      LessIrreflexive(x);
      OrderCycle(lo, x, k);
      OrderCycle(hi, k, x);
    }
    RangeOfNone(s, lo, hi);
  }

  ghost function Restrict<V>(m: map<Key, V>, lo: Key, hi: Key): map<Key, V> {
    map k | k in m && InRange(k, lo, hi) :: m[k]
  }

  lemma RestrictUpdate<V>(m: map<Key, V>, k: Key, v: V, lo: Key, hi: Key)
    requires k !in m
    ensures Restrict(m[k := v], lo, hi) ==
      if InRange(k, lo, hi) then Restrict(m, lo, hi)[k := v] else Restrict(m, lo, hi)
  {
  }

  /** The range of a sorted list is sorted and holds exactly the bindings whose keys lie in the range. */
  lemma {:induction false} RangeOfMap<V>(s: seq<Pair<V>>, lo: Key, hi: Key)
    requires Sorted(s)
    ensures Sorted(RangeOf(s, lo, hi))
    ensures MapOf(RangeOf(s, lo, hi)) == Restrict(MapOf(s), lo, hi)
  {
    if s != [] {
      var t, p := s[..|s| - 1], s[|s| - 1];
      RangeOfMap(t, lo, hi);
      var r := RangeOf(t, lo, hi);
      RangeOfBelow(t, lo, hi, p.key);
      KeyNotBelow(t, p.key);
      RestrictUpdate(MapOf(t), p.key, p.value, lo, hi);
      if InRange(p.key, lo, hi) {
        SortedAppend(r, p);
        MapOfAppend(r, p);
      } else {
        assert RangeOf(s, lo, hi) == r;
      }
    }
  }

  lemma {:induction false} RangeOfBelow<V>(s: seq<Pair<V>>, lo: Key, hi: Key, k: Key)
    requires AllBelow(s, k)
    ensures AllBelow(RangeOf(s, lo, hi), k)
  {
    if s != [] {
      RangeOfBelow(s[..|s| - 1], lo, hi, k);
    }
  }

  /** Without its first record a sorted list loses exactly that record's key. */
  lemma MapWithoutFirst<V>(s: seq<Pair<V>>)
    requires Sorted(s) && s != []
    ensures MapOf(s[1..]) == MapOf(s) - {s[0].key} && s[0].key in MapOf(s) && MapOf(s)[s[0].key] == s[0].value
    ensures forall k :: k in MapOf(s[1..]) ==> Less(s[0].key, k)
  {
    var p, t := s[0], s[1..];
    assert s == [] + [p] + t && t == [] + t;
    MapOfReplace([], p, p.value, t);
    MapOfMiddle([], p, t);
    forall k | k in MapOf(t)
      ensures Less(p.key, k)
    {
      MapOfHas(t, k);
      var i :| 0 <= i < |t| && t[i].key == k;
      assert t[i] == s[i + 1];
    }
  }

  lemma EmptyMapList<V>(s: seq<Pair<V>>)
    ensures s != [] ==> MapOf(s) != map[]
  {
    if s != [] {
      assert s[|s| - 1].key in MapOf(s);
    }
  }

  /** The binding below which no other key of the map lies comes first in the list. */
  lemma LeastIsFirst<V>(s: seq<Pair<V>>, p: Pair<V>)
    requires Sorted(s) && p.key in MapOf(s) && MapOf(s)[p.key] == p.value
    requires forall x :: x in MapOf(s) - {p.key} ==> Less(p.key, x)
    ensures s != [] && s[0] == p && MapOf(s[1..]) == MapOf(s) - {p.key}
  {
    MapWithoutFirst(s);
    if s[0].key != p.key {
      assert s[0].key in MapOf(s) - {p.key} && p.key in MapOf(s[1..]);
      LessTransitive(p.key, s[0].key, p.key);
      LessIrreflexive(p.key);
    }
  }

  // ----- The sorted list of a map -----

  lemma {:induction false} GreatestKey<V>(m: map<Key, V>)
    requires m != map[]
    ensures exists k :: k in m && forall x :: x in m ==> AtMost(x, k)
    decreases |m|
  {
    var a :| a in m;
    var m' := m - {a};
    assert m.Keys == m'.Keys + {a};
    if m' == map[] {
      assert forall x :: x in m ==> AtMost(x, a);
    } else {
      GreatestKey(m');
      var b :| b in m' && forall x :: x in m' ==> AtMost(x, b);
      GreaterOfTwo(m, a, b);
    }
  }

  lemma GreaterOfTwo<V>(m: map<Key, V>, a: Key, b: Key)
    requires a in m && b in m && forall x :: x in m && x != a ==> AtMost(x, b)
    ensures exists k :: k in m && forall x :: x in m ==> AtMost(x, k)
  {
    LessTotal(a, b);
    var k := if Less(b, a) then a else b;
    forall x | x in m
      ensures AtMost(x, k)
    {
      if Less(b, a) && x != a && x != b { LessTransitive(x, b, a); }
    }
  }

  /** All bindings of a map, in key order. */
  ghost function Listing<V>(m: map<Key, V>): (s: seq<Pair<V>>)
    ensures Sorted(s) && MapOf(s) == m
    decreases |m|
  {
    if m == map[] then []
    else
      GreatestKey(m);
      var k :| k in m && forall x :: x in m ==> AtMost(x, k);
      var t := Listing(m - {k});
      ListingAppend(m, t, k);
      t + [Pair(k, m[k])]
  }

  lemma ListingAppend<V>(m: map<Key, V>, t: seq<Pair<V>>, k: Key)
    requires k in m && (forall x :: x in m ==> AtMost(x, k)) && Sorted(t) && MapOf(t) == m - {k}
    ensures Sorted(t + [Pair(k, m[k])]) && MapOf(t + [Pair(k, m[k])]) == m
  {
    forall i | 0 <= i < |t|
      ensures Less(t[i].key, k)
    {
      MapOfAt(t, i);
    }
    SortedAppend(t, Pair(k, m[k]));
    MapOfAppend(t, Pair(k, m[k]));
    assert (m - {k})[k := m[k]] == m;
  }
}
