/**
 The CRC-32 of the write-ahead log (section 8 of RFC 1952), bit by bit as the log computes
 it, and why it detects every change within four consecutive bytes.
 */
module Crc32 {
  import opened Keys

  // ----- Folding and iterating, for any step -----

  function Fold<S>(step: (S, Byte) -> S, s: S, data: Bytes): S {
    if data == [] then s else step(Fold(step, s, data[..|data| - 1]), data[|data| - 1])
  }

  function Iterate<S>(f: S -> S, s: S, n: nat): S {
    if n == 0 then s else f(Iterate(f, s, n - 1))
  }

  lemma {:induction false} FoldConcat<S>(step: (S, Byte) -> S, s: S, a: Bytes, b: Bytes)
    ensures Fold(step, s, a + b) == Fold(step, Fold(step, s, a), b)
  {
    if b == [] {
      assert a + b == a;
    } else {
      assert (a + b)[..|a + b| - 1] == a + b[..|b| - 1];
      FoldConcat(step, s, a, b[..|b| - 1]);
    }
  }

  ghost predicate Undoable<S(!new)>(step: (S, Byte) -> S) {
    forall s, t, b {:trigger step(s, b), step(t, b)} :: step(s, b) == step(t, b) ==> s == t
  }

  /** With a step that can be undone, different states stay different whatever bytes follow. */
  lemma {:induction false} FoldInjective<S(!new)>(step: (S, Byte) -> S, s: S, t: S, data: Bytes)
    requires Undoable(step) && Fold(step, s, data) == Fold(step, t, data)
    ensures s == t
  {
    if data != [] {
      var init, last := data[..|data| - 1], data[|data| - 1];
      assert step(Fold(step, s, init), last) == step(Fold(step, t, init), last);
      FoldInjective(step, s, t, init);
    }
  }

  // ----- The checksum -----

  /** One of the eight shifts per byte. */
  function Shift(crc: bv32): bv32 {
    (crc >> 1) ^ (0xEDB88320 & (0 - (crc & 1)))
  }

  function Mix(crc: bv32): bv32 {
    Iterate(Shift, crc, 8)
  }

  function Absorb(crc: bv32, b: Byte): bv32 {
    Mix(Xor(crc, Widen(b)))
  }

  function Xor(x: bv32, y: bv32): bv32 {
    x ^ y
  }

  function Widen(b: Byte): bv32 {
    Extend(Bits(b))
  }

  function Bits(b: Byte): bv8 {
    b as bv8
  }

  function Extend(b: bv8): bv32 {
    b as bv32
  }

  function Register(data: Bytes): bv32 {
    !Fold(Absorb, 0xFFFF_FFFF, data)
  }

  /** The register read as an unsigned number. */
  function Checksum(data: Bytes): (n: nat)
    ensures n < 0x1_0000_0000
  {
    Number(Register(data))
  }

  function Number(crc: bv32): (n: nat)
    ensures n < 0x1_0000_0000
  {
    crc as nat
  }

  lemma NumberInjective(a: bv32, b: bv32)
    requires Number(a) == Number(b)
    ensures a == b
  {
    assert (a as nat) as bv32 == a && (b as nat) as bv32 == b;
  }

  method CalculateChecksum(buffer: Bytes) returns (sum: nat)
    ensures sum == Checksum(buffer)
  {
    var crc: bv32 := 0xFFFF_FFFF;
    var i := 0;
    while i < |buffer|
      invariant i <= |buffer| && crc == Fold(Absorb, 0xFFFF_FFFF, buffer[..i])
    {
      crc := AbsorbByte(crc, buffer[i]);
      assert buffer[..i + 1][..i] == buffer[..i];
      i := i + 1;
    }
    assert buffer[..|buffer|] == buffer;
    sum := Number(!crc);
  }

  /** The inner loop: one byte. */
  method AbsorbByte(state: bv32, b: Byte) returns (crc: bv32)
    ensures crc == Absorb(state, b)
  {
    crc := Xor(state, Widen(b));
    var j := 0;
    while j < 8
      invariant j <= 8 && crc == Iterate(Shift, Xor(state, Widen(b)), j)
    {
      crc := Shift(crc);
      j := j + 1;
    }
  }

  // ----- Each step can be undone -----

  lemma ShiftInjective(x: bv32, y: bv32)
    requires Shift(x) == Shift(y)
    ensures x == y
  {
  }

  ghost predicate Injective<S(!new)>(f: S -> S) {
    forall a, b {:trigger f(a), f(b)} :: f(a) == f(b) ==> a == b
  }

  lemma ShiftIsInjective()
    ensures Injective(Shift)
  {
    forall a, b | Shift(a) == Shift(b) ensures a == b { ShiftInjective(a, b); }
  }

  lemma {:induction false} IterateInjective<S(!new)>(f: S -> S, x: S, y: S, n: nat)
    requires Injective(f) && Iterate(f, x, n) == Iterate(f, y, n)
    ensures x == y
  {
    if n > 0 {
      IterateInjective(f, x, y, n - 1);
    }
  }

  lemma MixInjective(x: bv32, y: bv32)
    requires Mix(x) == Mix(y)
    ensures x == y
  {
    ShiftIsInjective();
    IterateInjective(Shift, x, y, 8);
  }

  lemma AbsorbInjective(s: bv32, t: bv32, b: Byte)
    requires Absorb(s, b) == Absorb(t, b)
    ensures s == t
  {
    assert Xor(s, Widen(b)) == Xor(t, Widen(b)) by {
      MixInjective(Xor(s, Widen(b)), Xor(t, Widen(b)));
    }
  }

  lemma AbsorbUndoable()
    ensures Undoable(Absorb)
  {
    forall s, t, b | Absorb(s, b) == Absorb(t, b) ensures s == t { AbsorbInjective(s, t, b); }
  }

  // ----- Four bytes enter the register like one 32-bit word -----

  function UpOne(y: bv32): bv32 { y << 1 }

  predicate TopFree(y: bv32) { y & 0x8000_0000 == 0 }

  /** Adding an item shifted up before a step is adding the item itself after it. */
  ghost predicate CarriesOver<S(!new)>(f: S -> S, add: (S, S) -> S, up: S -> S, free: S -> bool) {
    forall x, y {:trigger add(x, up(y))} {:trigger add(f(x), y)} :: free(y) ==> f(add(x, up(y))) == add(f(x), y)
  }

  ghost predicate Roomy<S>(up: S -> S, free: S -> bool, y: S, n: nat)
    decreases n
  {
    n == 0 || (free(y) && Roomy(up, free, up(y), n - 1))
  }

  lemma {:induction false} IterateCarriesOver<S(!new)>(f: S -> S, add: (S, S) -> S, up: S -> S, free: S -> bool, x: S, y: S, n: nat)
    requires CarriesOver(f, add, up, free) && Roomy(up, free, y, n)
    ensures Iterate(f, add(x, Iterate(up, y, n)), n) == add(Iterate(f, x, n), y)
  {
    if n > 0 {
      IterateCarriesOver(f, add, up, free, x, up(y), n - 1);
      IterateUnfold(up, y, n - 1);
      assert f(add(Iterate(f, x, n - 1), up(y))) == add(f(Iterate(f, x, n - 1)), y);
    }
  }

  lemma {:induction false} IterateUnfold<S>(f: S -> S, x: S, n: nat)
    ensures Iterate(f, f(x), n) == Iterate(f, x, n + 1)
  {
    if n > 0 {
      IterateUnfold(f, x, n - 1);
    }
  }

  lemma ShiftStep(x: bv32, y: bv32)
    requires y & 0x8000_0000 == 0
    ensures Shift(x ^ (y << 1)) == Shift(x) ^ y
  {
  }

  lemma ShiftCarriesOver()
    ensures CarriesOver(Shift, Xor, UpOne, TopFree)
  {
    forall x, y | TopFree(y) ensures Shift(Xor(x, UpOne(y))) == Xor(Shift(x), y) { ShiftStep(x, y); }
  }

  function UpEight(y: bv32): bv32 {
    Iterate(UpOne, y, 8)
  }

  /** The topmost byte is clear. */
  predicate LowThree(y: bv32) {
    y & 0xFF00_0000 == 0
  }

  lemma LowThreeRoomy(y: bv32)
    requires LowThree(y)
    ensures Roomy(UpOne, TopFree, y, 8)
  {
  }

  /** A byte absorbed after a byte could as well have been there, eight places up, before it. */
  lemma MixAdds(x: bv32, y: bv32)
    requires LowThree(y)
    ensures Mix(Xor(x, UpEight(y))) == Xor(Mix(x), y)
  {
    assert Iterate(Shift, Xor(x, Iterate(UpOne, y, 8)), 8) == Xor(Iterate(Shift, x, 8), y) by {
      LowThreeRoomy(y);
      ShiftCarriesOver();
      IterateCarriesOver(Shift, Xor, UpOne, TopFree, x, y, 8);
    }
  }

  function UpByte(y: bv32): bv32 {
    y << 8
  }

  lemma UpEightIsUpByte(y: bv32)
    ensures UpEight(y) == UpByte(y)
  {
  }

  lemma MixCarriesOver()
    ensures CarriesOver(Mix, Xor, UpByte, LowThree)
  {
    forall x, y | LowThree(y)
      ensures Mix(Xor(x, UpByte(y))) == Xor(Mix(x), y)
    {
      assert UpEight(y) == UpByte(y) by { UpEightIsUpByte(y); }
      MixAdds(x, y);
    }
  }

  /** A step mixes the state with the byte added to it. */
  ghost predicate StepIs<S(!new)>(step: (S, Byte) -> S, mix: S -> S, add: (S, S) -> S, widen: Byte -> S, s: S, b: Byte) {
    step(s, b) == mix(add(s, widen(b)))
  }

  /** Four bytes combined into one item, on top of the state. */
  function OnTop<S>(add: (S, S) -> S, up: S -> S, widen: Byte -> S, s: S, w: Bytes): S
    requires |w| == 4
  {
    add(add(add(add(s, widen(w[0])), up(widen(w[1]))), up(up(widen(w[2])))), up(up(up(widen(w[3])))))
  }

  /** A byte leaves room for two more places of eight bits. */
  ghost predicate ByteFits<S>(up: S -> S, free: S -> bool, widen: Byte -> S, b: Byte) {
    free(widen(b)) && free(up(widen(b))) && free(up(up(widen(b))))
  }

  lemma FoldFour<S>(step: (S, Byte) -> S, s: S, w: Bytes)
    requires |w| == 4
    ensures Fold(step, s, w) == step(step(step(step(s, w[0]), w[1]), w[2]), w[3])
  {
    assert w[..3][..2] == w[..2] && w[..2][..1] == w[..1] && w[..1][..0] == [];
    assert Fold(step, s, w[..1]) == step(s, w[0]);
    assert Fold(step, s, w[..2]) == step(step(s, w[0]), w[1]);
    assert Fold(step, s, w[..3]) == step(step(step(s, w[0]), w[1]), w[2]);
  }

  /** Four items absorbed one after the other are absorbed as one combined item. */
  lemma FourSteps<S(!new)>(mix: S -> S, add: (S, S) -> S, up: S -> S, free: S -> bool, s: S, a: S, b: S, c: S, d: S)
    requires CarriesOver(mix, add, up, free)
    requires free(b) && free(c) && free(up(c)) && free(d) && free(up(d)) && free(up(up(d)))
    ensures mix(add(mix(add(mix(add(mix(add(s, a)), b)), c)), d)) ==
      mix(mix(mix(mix(add(add(add(add(s, a), up(b)), up(up(c))), up(up(up(d))))))))
  {
    var x1 := add(s, a);
    var x2 := add(x1, up(b));
    assert mix(x2) == add(mix(x1), b);
    var x3 := add(x2, up(up(c)));
    assert mix(x3) == add(mix(x2), up(c));
    assert mix(mix(x3)) == add(mix(mix(x2)), c);
    var x4 := add(x3, up(up(up(d))));
    assert mix(x4) == add(mix(x3), up(up(d)));
    assert mix(mix(x4)) == add(mix(mix(x3)), up(d));
  }

  lemma FourBytes<S(!new)>(step: (S, Byte) -> S, mix: S -> S, add: (S, S) -> S, up: S -> S, free: S -> bool, widen: Byte -> S, s: S, w: Bytes)
    requires |w| == 4 && (forall t, b :: StepIs(step, mix, add, widen, t, b)) && CarriesOver(mix, add, up, free) && (forall b :: ByteFits(up, free, widen, b))
    ensures Fold(step, s, w) == mix(mix(mix(mix(OnTop(add, up, widen, s, w)))))
  {
    FoldFour(step, s, w);
    var a, b, c, d := widen(w[0]), widen(w[1]), widen(w[2]), widen(w[3]);
    assert ByteFits(up, free, widen, w[1]) && ByteFits(up, free, widen, w[2]) && ByteFits(up, free, widen, w[3]);
    var s1 := step(s, w[0]);
    var s2 := step(s1, w[1]);
    var s3 := step(s2, w[2]);
    assert StepIs(step, mix, add, widen, s, w[0]) && StepIs(step, mix, add, widen, s1, w[1]);
    assert StepIs(step, mix, add, widen, s2, w[2]) && StepIs(step, mix, add, widen, s3, w[3]);
    FourSteps(mix, add, up, free, s, a, b, c, d);
  }

  /** Two different windows of four bytes are absorbed as different items. */
  lemma WindowItems<S(!new)>(step: (S, Byte) -> S, mix: S -> S, add: (S, S) -> S, up: S -> S, free: S -> bool, widen: Byte -> S, s: S, v: Bytes, w: Bytes)
    requires |v| == 4 && |w| == 4
    requires (forall t, b :: StepIs(step, mix, add, widen, t, b)) && (forall b :: ByteFits(up, free, widen, b))
    requires CarriesOver(mix, add, up, free) && Injective(mix) && Fold(step, s, v) == Fold(step, s, w)
    ensures OnTop(add, up, widen, s, v) == OnTop(add, up, widen, s, w)
  {
    FourBytes(step, mix, add, up, free, widen, s, v);
    FourBytes(step, mix, add, up, free, widen, s, w);
  }

  // ----- The same for the bits of CRC-32 -----

  lemma EightBitsAreLow(b: bv8)
    ensures var w := Extend(b); LowThree(w) && LowThree(UpByte(w)) && LowThree(UpByte(UpByte(w)))
  {
  }

  lemma NextByte(b: bv8)
    requires b as nat < 255
    ensures (b + 1) as nat == b as nat + 1
  {
  }

  /** Eight bits hold every byte. */
  lemma {:induction false} EightBitsFor(n: nat) returns (b: bv8)
    requires n < 256
    ensures b as nat == n && n as bv8 == b
  {
    if n == 0 {
      b := 0;
    } else {
      var c := EightBitsFor(n - 1);
      NextByte(c);
      b := c + 1;
    }
    assert (b as nat) as bv8 == b;
  }

  /** Bytes are widened from eight bits each, and different bytes from different bits. */
  ghost predicate Faithful(widen: Byte -> bv32, bits: Byte -> bv8) {
    (forall b :: widen(b) == Extend(bits(b))) && (forall a, b {:trigger bits(a), bits(b)} :: bits(a) == bits(b) ==> a == b)
  }

  lemma WidenIsFaithful()
    ensures Faithful(Widen, Bits)
  {
    forall a: Byte, b: Byte | Bits(a) == Bits(b)
      ensures a == b
    {
      var x := EightBitsFor(a as nat);
      var y := EightBitsFor(b as nat);
    }
  }

  lemma WordTellsApart(s: bv32, a: bv8, b: bv8, c: bv8, d: bv8, a': bv8, b': bv8, c': bv8, d': bv8)
    requires Xor(Xor(Xor(Xor(s, Extend(a)), UpByte(Extend(b))), UpByte(UpByte(Extend(c)))), UpByte(UpByte(UpByte(Extend(d))))) ==
      Xor(Xor(Xor(Xor(s, Extend(a')), UpByte(Extend(b'))), UpByte(UpByte(Extend(c')))), UpByte(UpByte(UpByte(Extend(d')))))
    ensures a == a' && b == b' && c == c' && d == d'
  {
  }

  lemma WordsTellApart(widen: Byte -> bv32, bits: Byte -> bv8, s: bv32, v: Bytes, w: Bytes)
    requires |v| == 4 && |w| == 4 && Faithful(widen, bits) && OnTop(Xor, UpByte, widen, s, v) == OnTop(Xor, UpByte, widen, s, w)
    ensures v == w
  {
    WordTellsApart(s, bits(v[0]), bits(v[1]), bits(v[2]), bits(v[3]), bits(w[0]), bits(w[1]), bits(w[2]), bits(w[3]));
  }

  lemma AllBytesFit(widen: Byte -> bv32, bits: Byte -> bv8, b: Byte)
    requires Faithful(widen, bits)
    ensures ByteFits(UpByte, LowThree, widen, b)
  {
    EightBitsAreLow(bits(b));
  }

  lemma MixIsInjective()
    ensures Injective(Mix)
  {
    forall a, b | Mix(a) == Mix(b) ensures a == b { MixInjective(a, b); }
  }

  /** From the same state, different windows of four bytes lead to different states. */
  lemma WindowInjective(s: bv32, v: Bytes, w: Bytes)
    requires |v| == 4 && |w| == 4 && Fold(Absorb, s, v) == Fold(Absorb, s, w)
    ensures v == w
  {
    forall t, b ensures StepIs(Absorb, Mix, Xor, Widen, t, b) { }
    WidenIsFaithful();
    forall b ensures ByteFits(UpByte, LowThree, Widen, b) { AllBytesFit(Widen, Bits, b); }
    MixCarriesOver();
    MixIsInjective();
    WindowItems(Absorb, Mix, Xor, UpByte, LowThree, Widen, s, v, w);
    WordsTellApart(Widen, Bits, s, v, w);
  }

  lemma ShortWindowInjective(s: bv32, v: Bytes, w: Bytes)
    requires |v| == |w| <= 4 && Fold(Absorb, s, v) == Fold(Absorb, s, w)
    ensures v == w
  {
    var pad: Bytes := seq(4 - |v|, _ => 0);
    FoldConcat(Absorb, s, v, pad);
    FoldConcat(Absorb, s, w, pad);
    WindowInjective(s, v + pad, w + pad);
    assert v == (v + pad)[..|v|] && w == (w + pad)[..|w|];
  }

  lemma RegisterDetectsWindow(a: Bytes, v: Bytes, w: Bytes, c: Bytes)
    requires |v| == |w| <= 4 && v != w
    ensures Register(a + v + c) != Register(a + w + c)
  {
    var s := Fold(Absorb, 0xFFFF_FFFF, a);
    FoldConcat(Absorb, 0xFFFF_FFFF, a + v, c);
    FoldConcat(Absorb, 0xFFFF_FFFF, a + w, c);
    FoldConcat(Absorb, 0xFFFF_FFFF, a, v);
    FoldConcat(Absorb, 0xFFFF_FFFF, a, w);
    var sv, sw := Fold(Absorb, s, v), Fold(Absorb, s, w);
    if sv == sw {
      ShortWindowInjective(s, v, w);
    }
    DifferentEnds(sv, sw, c);
  }

  /** Every change confined to four consecutive bytes changes the checksum. */
  lemma DetectsWindow(a: Bytes, v: Bytes, w: Bytes, c: Bytes)
    requires |v| == |w| <= 4 && v != w
    ensures Checksum(a + v + c) != Checksum(a + w + c)
  {
    var x, y := Register(a + v + c), Register(a + w + c);
    assert x != y by { RegisterDetectsWindow(a, v, w, c); }
    if Number(x) == Number(y) {
      NumberInjective(x, y);
    }
  }

  lemma DifferentEnds(s: bv32, t: bv32, c: Bytes)
    requires s != t
    ensures !Fold(Absorb, s, c) != !Fold(Absorb, t, c)
  {
    AbsorbUndoable();
    if Fold(Absorb, s, c) == Fold(Absorb, t, c) {
      FoldInjective(Absorb, s, t, c);
    }
  }

  // ----- The table form, as section 8 of RFC 1952 gives it -----

  function HalfStep(c: bv32): bv32 {
    if c & 1 == 1 then 0xEDB88320 ^ (c >> 1) else c >> 1
  }

  /** An entry of the table of all 8-bit messages. */
  function TableEntry(n: bv32): bv32 {
    Iterate(HalfStep, n, 8)
  }

  function LowByte(x: bv32): bv32 {
    x & 0xFF
  }

  function DownByte(x: bv32): bv32 {
    x >> 8
  }

  function Update(c: bv32, b: Byte): bv32 {
    Xor(TableEntry(LowByte(Xor(c, Widen(b)))), DownByte(c))
  }

  function TableCrc(data: Bytes): bv32 {
    Xor(Fold(Update, 0xFFFF_FFFF, data), 0xFFFF_FFFF)
  }

  lemma ShiftIsHalfStep(c: bv32)
    ensures Shift(c) == HalfStep(c)
  {
  }

  lemma {:induction false} IterateSame<S(!new)>(f: S -> S, g: S -> S, x: S, n: nat)
    requires forall y :: f(y) == g(y)
    ensures Iterate(f, x, n) == Iterate(g, x, n)
  {
    if n > 0 {
      IterateSame(f, g, x, n - 1);
    }
  }

  lemma EightShiftsAreTheTable(n: bv32)
    ensures Mix(n) == TableEntry(n)
  {
    forall y ensures Shift(y) == HalfStep(y) { ShiftIsHalfStep(y); }
    IterateSame(Shift, HalfStep, n, 8);
  }

  lemma LowAndRest(x: bv32)
    ensures x == Xor(LowByte(x), UpByte(DownByte(x))) && LowThree(DownByte(x))
  {
  }

  lemma RestIsTheState(c: bv32, b: bv8)
    ensures DownByte(Xor(c, Extend(b))) == DownByte(c)
  {
  }

  /** One byte through the eight shifts is one step through the table. */
  lemma AbsorbIsUpdate(c: bv32, b: Byte)
    ensures Absorb(c, b) == Update(c, b)
  {
    var x := Xor(c, Widen(b));
    var low, rest := LowByte(x), DownByte(x);
    assert rest == DownByte(c) by { RestIsTheState(c, Bits(b)); }
    assert x == Xor(low, UpEight(rest)) && LowThree(rest) by {
      LowAndRest(x);
      UpEightIsUpByte(rest);
    }
    MixAdds(low, rest);
    EightShiftsAreTheTable(low);
  }

  lemma {:induction false} FoldSame(s: bv32, data: Bytes)
    ensures Fold(Absorb, s, data) == Fold(Update, s, data)
  {
    if data != [] {
      FoldSame(s, data[..|data| - 1]);
      AbsorbIsUpdate(Fold(Update, s, data[..|data| - 1]), data[|data| - 1]);
    }
  }

  lemma NotIsXor(x: bv32)
    ensures !x == Xor(x, 0xFFFF_FFFF)
  {
  }

  /** The log's checksum is that of the standard. */
  lemma ChecksumIsTableCrc(data: Bytes)
    ensures Checksum(data) == Number(TableCrc(data))
  {
    FoldSame(0xFFFF_FFFF, data);
    NotIsXor(Fold(Absorb, 0xFFFF_FFFF, data));
  }

  // ----- The check value -----

  lemma MixUnrolled(x: bv32)
    ensures Mix(x) == Shift(Shift(Shift(Shift(Shift(Shift(Shift(Shift(x))))))))
  {
    assert Iterate(Shift, x, 1) == Shift(x);
    assert Iterate(Shift, x, 2) == Shift(Shift(x));
    assert Iterate(Shift, x, 4) == Shift(Shift(Iterate(Shift, x, 2)));
    assert Iterate(Shift, x, 6) == Shift(Shift(Iterate(Shift, x, 4)));
    assert Iterate(Shift, x, 8) == Shift(Shift(Iterate(Shift, x, 6)));
  }

  lemma KnownMixes()
    ensures Mix(0xFFFFFFCE) == 0x7C231048
    ensures Mix(0x7C23107A) == 0xB0ACBB32
    ensures Mix(0xB0ACBB01) == 0x77B79C2D
    ensures Mix(0x77B79C19) == 0x641C1F5C
    ensures Mix(0x641C1F69) == 0x340AC5E3
    ensures Mix(0x340AC5D5) == 0xF68D2C9E
    ensures Mix(0xF68D2CA9) == 0xAFFC9660
    ensures Mix(0xAFFC9658) == 0x651F2550
    ensures Mix(0x651F2569) == 0x340BC6D9
  {
    MixUnrolled(0xFFFFFFCE);
    MixUnrolled(0x7C23107A);
    MixUnrolled(0xB0ACBB01);
    MixUnrolled(0x77B79C19);
    MixUnrolled(0x641C1F69);
    MixUnrolled(0x340AC5D5);
    MixUnrolled(0xF68D2CA9);
    MixUnrolled(0xAFFC9658);
    MixUnrolled(0x651F2569);
  }

  lemma Digits()
    ensures Widen(0x31) == 0x31 && Widen(0x32) == 0x32 && Widen(0x33) == 0x33 && Widen(0x34) == 0x34 && Widen(0x35) == 0x35
    ensures Widen(0x36) == 0x36 && Widen(0x37) == 0x37 && Widen(0x38) == 0x38 && Widen(0x39) == 0x39
  {
  }

  lemma KnownXors()
    ensures Xor(0xFFFFFFFF, 0x31) == 0xFFFFFFCE
    ensures Xor(0x7C231048, 0x32) == 0x7C23107A
    ensures Xor(0xB0ACBB32, 0x33) == 0xB0ACBB01
    ensures Xor(0x77B79C2D, 0x34) == 0x77B79C19
    ensures Xor(0x641C1F5C, 0x35) == 0x641C1F69
    ensures Xor(0x340AC5E3, 0x36) == 0x340AC5D5
    ensures Xor(0xF68D2C9E, 0x37) == 0xF68D2CA9
    ensures Xor(0xAFFC9660, 0x38) == 0xAFFC9658
    ensures Xor(0x651F2550, 0x39) == 0x651F2569
  {
  }

  lemma OneMoreByte(data: Bytes, b: Byte, s: bv32)
    ensures Fold(Absorb, s, data + [b]) == Absorb(Fold(Absorb, s, data), b)
  {
    assert (data + [b])[..|data|] == data;
  }

  /** The digits from 1 to 9 have the checksum 0xCBF43926, the value that is published for checking implementations. */
  lemma CheckValue()
    ensures Checksum([0x31] + [0x32] + [0x33] + [0x34] + [0x35] + [0x36] + [0x37] + [0x38] + [0x39]) == 0xCBF43926
  {
    hide Mix, Widen, Xor;
    KnownMixes();
    Digits();
    KnownXors();
    var s: bv32 := 0xFFFF_FFFF;
    var d0: Bytes := [];
    var d1 := d0 + [0x31];
    OneMoreByte(d0, 0x31, s);
    assert Fold(Absorb, s, d1) == 0x7C231048;
    var d2 := d1 + [0x32];
    OneMoreByte(d1, 0x32, s);
    assert Fold(Absorb, s, d2) == 0xB0ACBB32;
    var d3 := d2 + [0x33];
    OneMoreByte(d2, 0x33, s);
    assert Fold(Absorb, s, d3) == 0x77B79C2D;
    var d4 := d3 + [0x34];
    OneMoreByte(d3, 0x34, s);
    assert Fold(Absorb, s, d4) == 0x641C1F5C;
    var d5 := d4 + [0x35];
    OneMoreByte(d4, 0x35, s);
    assert Fold(Absorb, s, d5) == 0x340AC5E3;
    var d6 := d5 + [0x36];
    OneMoreByte(d5, 0x36, s);
    assert Fold(Absorb, s, d6) == 0xF68D2C9E;
    var d7 := d6 + [0x37];
    OneMoreByte(d6, 0x37, s);
    assert Fold(Absorb, s, d7) == 0xAFFC9660;
    var d8 := d7 + [0x38];
    OneMoreByte(d7, 0x38, s);
    assert Fold(Absorb, s, d8) == 0x651F2550;
    var d9 := d8 + [0x39];
    OneMoreByte(d8, 0x39, s);
    assert Fold(Absorb, s, d9) == 0x340BC6D9;
    assert d9 == [0x31] + [0x32] + [0x33] + [0x34] + [0x35] + [0x36] + [0x37] + [0x38] + [0x39];
    assert !(0x340BC6D9 as bv32) == 0xCBF43926;
  }
}
