/** Option and Result values: errors are data. */
module Wrappers {
  datatype Option<+T> = None | Some(value: T)

  datatype Result<+T> = Ok(value: T) | Err(reason: string) {
    predicate IsFailure() {
      Err?
    }

    function PropagateFailure<U>(): Result<U>
      requires Err?
    {
      Err(reason)
    }

    function Extract(): T
      requires Ok?
    {
      value
    }
  }
}

/** Keys and values are byte strings.  Keys are compared byte by byte, a proper prefix first. */
module Keys {
  newtype Byte = x: int | 0 <= x < 256
  type Bytes = seq<Byte>
  type Key = Bytes

  predicate Less(a: Key, b: Key) {
    b != [] && (a == [] || a[0] < b[0] || (a[0] == b[0] && Less(a[1..], b[1..])))
  }

  predicate AtMost(a: Key, b: Key) {
    a == b || Less(a, b)
  }

  /** The three-way comparison, made of two string comparisons. */
  function CompareKeys(a: Key, b: Key): (c: int) {
    if Less(a, b) then -1 else if Less(b, a) then 1 else 0
  }

  /** At the first place where they differ, `a` has ended or has the smaller byte. */
  ghost predicate Precedes(a: Key, b: Key) {
    exists i: nat :: PrecedesAt(a, b, i)
  }

  ghost predicate PrecedesAt(a: Key, b: Key, i: nat) {
    i <= |a| && i < |b| && a[..i] == b[..i] && (i == |a| || a[i] < b[i])
  }

  lemma PrecedesHead(a: Key, b: Key, i: nat)
    requires PrecedesAt(a, b, i) && i > 0
    ensures a != [] && b != [] && a[0] == b[0]
  {
    assert a[0] == a[..i][0] && b[0] == b[..i][0];
  }

  /** The order is that of strings: byte by byte from the front, a proper prefix first. */
  lemma {:induction false} LessIsFirstDifference(a: Key, b: Key)
    ensures Less(a, b) <==> Precedes(a, b)
  {
    forall i: nat | PrecedesAt(a, b, i) && i > 0
      ensures a != [] && b != [] && a[0] == b[0]
    {
      PrecedesHead(a, b, i);
    }
    if a != [] && b != [] && a[0] == b[0] {
      LessIsFirstDifference(a[1..], b[1..]);
      if Precedes(a[1..], b[1..]) {
        var i: nat :| PrecedesAt(a[1..], b[1..], i);
        assert a[..i + 1] == [a[0]] + a[1..][..i] && b[..i + 1] == [b[0]] + b[1..][..i];
        assert PrecedesAt(a, b, i + 1);
      }
      if Precedes(a, b) {
        var i: nat :| PrecedesAt(a, b, i);
        assert a[1..][..i - 1] == a[..i][1..] && b[1..][..i - 1] == b[..i][1..];
        assert PrecedesAt(a[1..], b[1..], i - 1);
      }
    } else if Less(a, b) {
      assert PrecedesAt(a, b, 0);
    }
  }

  lemma {:induction false} LessIrreflexive(a: Key)
    ensures !Less(a, a)
  {
    if a != [] {
      LessIrreflexive(a[1..]);
    }
  }

  lemma {:induction false} LessTransitive(a: Key, b: Key, c: Key)
    requires Less(a, b) && Less(b, c)
    ensures Less(a, c)
  {
    if a != [] && a[0] == b[0] && b[0] == c[0] {
      LessTransitive(a[1..], b[1..], c[1..]);
    }
  }

  lemma {:induction false} LessTotal(a: Key, b: Key)
    ensures Less(a, b) || a == b || Less(b, a)
  {
    if a != [] && b != [] && a[0] == b[0] {
      LessTotal(a[1..], b[1..]);
      assert a == [a[0]] + a[1..] && b == [b[0]] + b[1..];
    }
  }

  /** a <= b < c <= a cannot be. */
  lemma OrderCycle(a: Key, b: Key, c: Key)
    ensures !(AtMost(a, b) && Less(b, c) && AtMost(c, a))
  {
    if AtMost(a, b) && Less(b, c) && AtMost(c, a) {
      if a != b { LessTransitive(a, b, c); }
      if c != a { LessTransitive(c, a, c); }
      LessIrreflexive(c);
    }
  }

  /** The three-way comparison, over the places where the keys first differ. */
  lemma CompareLaws(a: Key, b: Key)
    ensures CompareKeys(a, b) < 0 <==> Precedes(a, b)
    ensures CompareKeys(a, b) > 0 <==> Precedes(b, a)
    ensures CompareKeys(a, b) == 0 <==> a == b
    ensures CompareKeys(a, b) <= 0 <==> AtMost(a, b)
    ensures CompareKeys(a, b) >= 0 <==> AtMost(b, a)
  {
    hide Precedes;
    LessIsFirstDifference(a, b);
    LessIsFirstDifference(b, a);
    LessTotal(a, b);
    OrderCycle(a, a, b);
    OrderCycle(a, b, b);
    OrderCycle(b, a, b);
    LessIrreflexive(a);
    if Less(a, b) && Less(b, a) { LessTransitive(a, b, a); }
  }
}

/** Regrouping of sequences. */
module Sequences {
  lemma Associative<T>(a: seq<T>, b: seq<T>, c: seq<T>)
    ensures a + (b + c) == a + b + c
  {
  }

  lemma TailOfConcat<T>(a: seq<T>, b: seq<T>)
    requires a != []
    ensures (a + b)[0] == a[0] && (a + b)[1..] == a[1..] + b
  {
  }

  lemma HeadAndTail<T>(s: seq<T>)
    requires s != []
    ensures s == [s[0]] + s[1..]
  {
  }

  lemma InitAndLast<T>(s: seq<T>)
    requires s != []
    ensures s == s[..|s| - 1] + [s[|s| - 1]]
  {
  }
}
