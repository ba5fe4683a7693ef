/** The list of table files, newest first, and the number for the next one. */
module Manifests {
  import opened Wrappers
  import opened Sequences
  import opened SSTableFormat

  // ----- Lists of numbered things -----

  ghost predicate StrictlyDescending<T>(num: T -> nat, s: seq<T>) {
    forall i, j :: 0 <= i < j < |s| ==> num(s[i]) > num(s[j])
  }

  ghost predicate AllNumbersBelow<T>(num: T -> nat, s: seq<T>, bound: nat) {
    forall i :: 0 <= i < |s| ==> num(s[i]) < bound
  }

  /** Behind everything with a number at least as high. */
  function Insert<T>(num: T -> nat, x: T, s: seq<T>): seq<T> {
    if s == [] || num(x) > num(s[0]) then [x] + s else [s[0]] + Insert(num, x, s[1..])
  }

  /** The list by descending numbers, in the given order where they are equal. */
  function Sort<T>(num: T -> nat, s: seq<T>): seq<T> {
    if s == [] then [] else Insert(num, s[|s| - 1], Sort(num, s[..|s| - 1]))
  }

  function Without<T>(num: T -> nat, s: seq<T>, removed: set<nat>): seq<T> {
    if s == [] then []
    else Without(num, s[..|s| - 1], removed) + (if num(s[|s| - 1]) in removed then [] else [s[|s| - 1]])
  }

  function Greatest<T>(num: T -> nat, s: seq<T>, least: int): int {
    if s == [] then least
    else
      var m := Greatest(num, s[..|s| - 1], least);
      if num(s[|s| - 1]) > m then num(s[|s| - 1]) else m
  }

  lemma {:induction false} InsertAtEnd<T>(num: T -> nat, x: T, s: seq<T>)
    requires forall i :: 0 <= i < |s| ==> num(s[i]) >= num(x)
    ensures Insert(num, x, s) == s + [x]
  {
    if s != [] {
      InsertAtEnd(num, x, s[1..]);
      HeadAndTail(s);
      Associative([s[0]], s[1..], [x]);
    }
  }

  /** A descending list stays as it is. */
  lemma {:induction false} SortDescending<T>(num: T -> nat, s: seq<T>)
    requires StrictlyDescending(num, s)
    ensures Sort(num, s) == s
  {
    if s != [] {
      SortDescending(num, s[..|s| - 1]);
      InsertAtEnd(num, s[|s| - 1], s[..|s| - 1]);
      InitAndLast(s);
    }
  }

  /** A new highest number goes to the front. */
  lemma SortNewest<T>(num: T -> nat, s: seq<T>, x: T)
    requires StrictlyDescending(num, s) && AllNumbersBelow(num, s, num(x))
    ensures Sort(num, s + [x]) == [x] + s && StrictlyDescending(num, [x] + s)
  {
    assert (s + [x])[..|s|] == s;
    SortDescending(num, s);
  }

  lemma {:induction false} WithoutMembers<T>(num: T -> nat, s: seq<T>, removed: set<nat>, x: T)
    ensures x in Without(num, s, removed) <==> x in s && num(x) !in removed
  {
    if s != [] {
      WithoutMembers(num, s[..|s| - 1], removed, x);
      InitAndLast(s);
    }
  }

  lemma {:induction false} WithoutDescending<T>(num: T -> nat, s: seq<T>, removed: set<nat>)
    requires StrictlyDescending(num, s)
    ensures StrictlyDescending(num, Without(num, s, removed))
  {
    if s != [] {
      var init, last := s[..|s| - 1], s[|s| - 1];
      WithoutDescending(num, init, removed);
      var rest := Without(num, init, removed);
      forall i | 0 <= i < |rest|
        ensures num(rest[i]) > num(last)
      {
        WithoutMembers(num, init, removed, rest[i]);
        var j :| 0 <= j < |init| && init[j] == rest[i];
        assert num(s[j]) > num(s[|s| - 1]);
      }
    }
  }

  /** What is left keeps its order and stays below the same bound. */
  lemma WithoutKeeps<T>(num: T -> nat, s: seq<T>, removed: set<nat>, bound: nat)
    requires StrictlyDescending(num, s) && AllNumbersBelow(num, s, bound)
    ensures StrictlyDescending(num, Without(num, s, removed)) && AllNumbersBelow(num, Without(num, s, removed), bound)
  {
    WithoutDescending(num, s, removed);
    var rest := Without(num, s, removed);
    forall i | 0 <= i < |rest|
      ensures num(rest[i]) < bound
    {
      WithoutMembers(num, s, removed, rest[i]);
    }
  }

  lemma {:induction false} WithoutNone<T>(num: T -> nat, s: seq<T>, removed: set<nat>)
    requires forall x :: x in s ==> num(x) !in removed
    ensures Without(num, s, removed) == s
  {
    if s != [] {
      WithoutNone(num, s[..|s| - 1], removed);
      InitAndLast(s);
    }
  }

  lemma {:induction false} WithoutAll<T>(num: T -> nat, s: seq<T>, removed: set<nat>)
    requires forall x :: x in s ==> num(x) in removed
    ensures Without(num, s, removed) == []
  {
    if s != [] {
      WithoutAll(num, s[..|s| - 1], removed);
    }
  }

  lemma {:induction false} WithoutConcat<T>(num: T -> nat, a: seq<T>, b: seq<T>, removed: set<nat>)
    ensures Without(num, a + b, removed) == Without(num, a, removed) + Without(num, b, removed)
  {
    if b == [] {
      assert a + b == a;
    } else {
      WithoutConcat(num, a, b[..|b| - 1], removed);
      assert (a + b)[..|a + b| - 1] == a + b[..|b| - 1];
    }
  }

  lemma {:induction false} GreatestBelow<T>(num: T -> nat, s: seq<T>, next: nat)
    requires AllNumbersBelow(num, s, next)
    ensures Greatest(num, s, next - 1) == next - 1
  {
    if s != [] {
      GreatestBelow(num, s[..|s| - 1], next);
    }
  }

  // ----- The manifest -----

  function FileNumber(m: Metadata): nat {
    m.fileNumber
  }

  function Numbers(fileNumbers: seq<nat>): set<nat> {
    set n | n in fileNumbers
  }

  lemma {:induction false} GreatestAtLeast<T>(num: T -> nat, s: seq<T>, least: int)
    ensures Greatest(num, s, least) >= least
  {
    if s != [] {
      GreatestAtLeast(num, s[..|s| - 1], least);
    }
  }

  /** The list after an edit. */
  function Edited(list: seq<Metadata>, added: seq<Metadata>, removed: set<nat>): seq<Metadata> {
    Sort(FileNumber, Without(FileNumber, list, removed) + added)
  }

  /** The next number: the one the edit gives, or one above every listed number, but never lower than before. */
  function NextNumber(list: seq<Metadata>, next: Option<nat>, before: nat): nat {
    GreatestAtLeast(FileNumber, list, before - 1);
    if next.Some? then next.value else Greatest(FileNumber, list, before - 1) + 1
  }

  method EditList(list: seq<Metadata>, added: seq<Metadata>, removed: seq<nat>) returns (edited: seq<Metadata>)
    ensures edited == Edited(list, added, Numbers(removed))
  {
    var kept := list;
    if |removed| > 0 {
      kept := Without(FileNumber, list, Numbers(removed));
    } else {
      WithoutNone(FileNumber, list, Numbers(removed));
    }
    edited := Sort(FileNumber, kept + added);
  }

  lemma EditedNewest(list: seq<Metadata>, m: Metadata)
    requires StrictlyDescending(FileNumber, list) && AllNumbersBelow(FileNumber, list, m.fileNumber)
    ensures Edited(list, [m], {}) == [m] + list && StrictlyDescending(FileNumber, [m] + list)
    ensures AllNumbersBelow(FileNumber, [m] + list, m.fileNumber + 1)
  {
    hide Without, Sort;
    WithoutNone(FileNumber, list, {});
    SortNewest(FileNumber, list, m);
  }

  lemma EditedRemoval(list: seq<Metadata>, removed: set<nat>, next: nat)
    requires StrictlyDescending(FileNumber, list) && AllNumbersBelow(FileNumber, list, next)
    ensures var rest := Without(FileNumber, list, removed);
      Edited(list, [], removed) == rest && StrictlyDescending(FileNumber, rest) && AllNumbersBelow(FileNumber, rest, next) &&
      NextNumber(rest, None, next) == next
  {
    var rest := Without(FileNumber, list, removed);
    WithoutKeeps(FileNumber, list, removed, next);
    SortDescending(FileNumber, rest);
    GreatestBelow(FileNumber, rest, next);
    assert rest + [] == rest;
  }

  class Manifest {
    var sstables: seq<Metadata>
    var nextFileNumber: nat
    var lastFlushedSequence: nat
    var version: nat

    /** Numbers descend strictly, so list order is age order, and the next number is above all of them. */
    ghost predicate Valid()
      reads this
    {
      StrictlyDescending(FileNumber, sstables) && AllNumbersBelow(FileNumber, sstables, nextFileNumber)
    }

    constructor ()
      ensures Valid() && sstables == [] && nextFileNumber == 1
    {
      sstables, nextFileNumber, lastFlushedSequence, version := [], 1, 0, 0;
    }

    method GetNextFileNumber() returns (n: nat)
      ensures n == nextFileNumber
    {
      n := nextFileNumber;
    }

    /** One edit: removals, then additions, then the list is sorted again. */
    method ApplyEdit(added: seq<Metadata>, removed: seq<nat>, next: Option<nat>, sequence: Option<nat>)
      modifies this
      ensures sstables == Edited(old(sstables), added, Numbers(removed))
      ensures nextFileNumber == NextNumber(sstables, next, old(nextFileNumber))
      ensures lastFlushedSequence == if sequence.Some? then sequence.value else old(lastFlushedSequence)
      ensures version == old(version) + 1
    {
      var list := EditList(sstables, added, removed);
      var number := NextNumber(list, next, nextFileNumber);
      sstables := list;
      nextFileNumber := number;
      lastFlushedSequence := if sequence.Some? then sequence.value else lastFlushedSequence;
      version := version + 1;
    }

    /** A table that was built under the next number goes to the front, and the next number moves on. */
    method AddSSTable(metadata: Metadata)
      modifies this
      ensures sstables == Edited(old(sstables), [metadata], {}) && nextFileNumber == metadata.fileNumber + 1
      ensures old(Valid()) && metadata.fileNumber >= old(nextFileNumber) ==>
        Valid() && sstables == [metadata] + old(sstables) && nextFileNumber > old(nextFileNumber)
    {
      if Valid() && metadata.fileNumber >= nextFileNumber {
        EditedNewest(sstables, metadata);
      }
      assert Numbers([]) == {};
      ApplyEdit([metadata], [], Some(metadata.fileNumber + 1), None);
    }

    /** The others keep their order, and the next number stays. */
    method RemoveSSTables(fileNumbers: seq<nat>)
      requires Valid()
      modifies this
      ensures Valid() && sstables == Without(FileNumber, old(sstables), Numbers(fileNumbers))
      ensures nextFileNumber == old(nextFileNumber)
    {
      EditedRemoval(sstables, Numbers(fileNumbers), nextFileNumber);
      ApplyEdit([], fileNumbers, None, None);
    }
  }
}
