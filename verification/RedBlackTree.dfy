/**
 The shape of a red-black tree as a value, and the theory of its fix-up loops.

 A tree under repair is a pair of a path and a focus: the path says how to get from the
 root down to the focus and what hangs off on the way.  `Plug` puts the two together
 again.  The nodes are the objects of the heap structure that `SortedMap` maintains;
 only their identities and their constant keys matter here.
 */
module RedBlackTree {
  import opened Keys
  import opened SortedEntries

  datatype Color = Red | Black

  class RBNode<V> {
    const key: Key
    var value: V
    var color: Color
    var left: RBNode?<V>
    var right: RBNode?<V>
    var parent: RBNode?<V>

    constructor (key: Key, value: V)
      ensures this.key == key && this.value == value && color == Red
      ensures left == null && right == null && parent == null
    {
      this.key, this.value, color := key, value, Red;
      left, right, parent := null, null, null;
    }
  }

  datatype Tree<V> =
    | Leaf
    | Bin(color: Color, left: Tree<V>, node: RBNode<V>, value: V, right: Tree<V>)

  /** Which child of its parent the focus is. */
  datatype Side = L | R

  datatype Path<V> =
    | Top
    | Step(up: Path<V>, side: Side, color: Color, node: RBNode<V>, value: V, other: Tree<V>)

  /** A node with `t` on the given side and `other` on the opposite side. */
  ghost function Join<V>(side: Side, c: Color, t: Tree<V>, n: RBNode<V>, v: V, other: Tree<V>): Tree<V> {
    if side == L then Bin(c, t, n, v, other) else Bin(c, other, n, v, t)
  }

  ghost function Child<V>(side: Side, t: Tree<V>): Tree<V>
    requires t.Bin?
  {
    if side == L then t.left else t.right
  }

  ghost function Opposite(side: Side): Side {
    if side == L then R else L
  }

  ghost function Plug<V>(p: Path<V>, t: Tree<V>): Tree<V> {
    match p
    case Top => t
    case Step(up, side, c, n, v, other) => Plug(up, Join(side, c, t, n, v, other))
  }

  lemma {:induction false} PlugIsBin<V>(p: Path<V>, t: Tree<V>)
    requires t.Bin?
    ensures Plug(p, t).Bin?
  {
    if p.Step? {
      PlugIsBin(p.up, Join(p.side, p.color, t, p.node, p.value, p.other));
    }
  }

  ghost function Depth<V>(p: Path<V>): nat {
    if p.Top? then 0 else 1 + Depth(p.up)
  }

  // ----- Contents -----

  ghost function InOrder<V>(t: Tree<V>): seq<Pair<V>> {
    match t
    case Leaf => []
    case Bin(_, l, n, v, r) => InOrder(l) + [Pair(n.key, v)] + InOrder(r)
  }

  /** What comes before and after the focus in key order. */
  ghost function Before<V>(p: Path<V>): seq<Pair<V>> {
    match p
    case Top => []
    case Step(up, side, _, n, v, other) =>
      if side == L then Before(up) else Before(up) + InOrder(other) + [Pair(n.key, v)]
  }

  ghost function After<V>(p: Path<V>): seq<Pair<V>> {
    match p
    case Top => []
    case Step(up, side, _, n, v, other) =>
      if side == L then [Pair(n.key, v)] + InOrder(other) + After(up) else After(up)
  }

  lemma {:induction false} InOrderPlug<V>(p: Path<V>, t: Tree<V>)
    ensures InOrder(Plug(p, t)) == Before(p) + InOrder(t) + After(p)
  {
    match p
    case Top =>
    case Step(up, side, c, n, v, other) =>
      InOrderPlug(up, Join(side, c, t, n, v, other));
      if side == L {
        Regroup(Before(up), InOrder(t), [Pair(n.key, v)], InOrder(other), After(up));
      } else {
        Regroup(Before(up), InOrder(other), [Pair(n.key, v)], InOrder(t), After(up));
      }
  }

  lemma SameOrder<V>(p: Path<V>, t: Tree<V>, t': Tree<V>)
    requires InOrder(t) == InOrder(t')
    ensures InOrder(Plug(p, t)) == InOrder(Plug(p, t'))
  {
    InOrderPlug(p, t);
    InOrderPlug(p, t');
  }

  lemma Regroup<T>(a: seq<T>, b: seq<T>, c: seq<T>, d: seq<T>, e: seq<T>)
    ensures a + (b + c + d) + e == a + b + (c + d + e)
    ensures a + (b + c + d) + e == (a + b + c) + d + e
  {
  }

  // ----- Red-black invariants -----

  ghost predicate IsRed<V>(t: Tree<V>) {
    t.Bin? && t.color == Red
  }

  ghost function BlackHeight<V>(t: Tree<V>): nat {
    match t
    case Leaf => 0
    case Bin(c, l, _, _, _) => BlackHeight(l) + (if c == Black then 1 else 0)
  }

  /** Equal black heights everywhere, and no red node with a red child. */
  ghost predicate Balanced<V>(t: Tree<V>) {
    match t
    case Leaf => true
    case Bin(c, l, _, _, r) =>
      Balanced(l) && Balanced(r) && BlackHeight(l) == BlackHeight(r) &&
      (c == Red ==> !IsRed(l) && !IsRed(r))
  }

  ghost predicate RedBlack<V>(t: Tree<V>) {
    Balanced(t) && !IsRed(t)
  }

  /** A balanced tree of black height `h`, red-rooted or not, completes the path to a red-black tree. */
  ghost predicate Fits<V>(p: Path<V>, h: nat, red: bool) {
    match p
    case Top => !red
    case Step(up, _, c, _, _, other) =>
      Balanced(other) && BlackHeight(other) == h && (c == Red ==> !red && !IsRed(other)) &&
      Fits(up, h + (if c == Black then 1 else 0), c == Red)
  }

  /** Red-blackness of the whole tree, seen from the focus. */
  lemma {:induction false} RedBlackPlug<V>(p: Path<V>, t: Tree<V>)
    ensures RedBlack(Plug(p, t)) <==> Balanced(t) && Fits(p, BlackHeight(t), IsRed(t))
  {
    match p
    case Top =>
    case Step(up, side, c, n, v, other) => RedBlackPlug(up, Join(side, c, t, n, v, other));
  }

  lemma FitsBlack<V>(p: Path<V>, h: nat)
    requires Fits(p, h, true)
    ensures Fits(p, h, false)
  {
  }

  // ----- Height -----

  ghost function Height<V>(t: Tree<V>): nat {
    match t
    case Leaf => 0
    case Bin(_, l, _, _, r) => 1 + if Height(l) < Height(r) then Height(r) else Height(l)
  }

  ghost function Pow2(n: nat): nat {
    if n == 0 then 1 else 2 * Pow2(n - 1)
  }

  lemma {:induction false} HeightBounds<V>(t: Tree<V>)
    requires Balanced(t)
    ensures Height(t) <= 2 * BlackHeight(t) + (if IsRed(t) then 1 else 0)
    ensures Pow2(BlackHeight(t)) <= |InOrder(t)| + 1
  {
    if t.Bin? {
      HeightBounds(t.left);
      HeightBounds(t.right);
    }
  }

  lemma {:induction false} Pow2Monotone(a: nat, b: nat)
    requires a <= b
    ensures Pow2(a) <= Pow2(b)
  {
    if a < b {
      Pow2Monotone(a, b - 1);
    }
  }

  lemma {:induction false} Pow2Double(a: nat)
    ensures Pow2(2 * a) == Pow2(a) * Pow2(a)
  {
    if a > 0 {
      Pow2Double(a - 1);
      var q := Pow2(a - 1);
      assert Pow2(2 * a) == 2 * Pow2(2 * a - 1) == 4 * Pow2(2 * (a - 1));
      assert (2 * q) * (2 * q) == 4 * (q * q);
    }
  }

  /** The height is at most 2 * log2(n + 1): lookups, inserts and deletes stay logarithmic. */
  lemma LogarithmicHeight<V>(t: Tree<V>)
    requires RedBlack(t)
    ensures Pow2(Height(t)) <= (|InOrder(t)| + 1) * (|InOrder(t)| + 1)
  {
    var h, n := BlackHeight(t), |InOrder(t)| + 1;
    HeightBounds(t);
    Pow2Monotone(Height(t), 2 * h);
    Pow2Double(h);
    assert Pow2(h) * Pow2(h) <= n * n by {
      SquareMonotone(Pow2(h), n);
    }
  }

  lemma SquareMonotone(a: nat, b: nat)
    requires a <= b
    ensures a * a <= b * b
  {
    assert b * b == a * a + (b - a) * (b + a);
  }

  // ----- Recolouring and rotations of the focus -----

  ghost function Paint<V>(t: Tree<V>, c: Color): Tree<V> {
    if t.Leaf? then t else t.(color := c)
  }

  /** Rotation moving the root down to the given side: L is `rotateLeft`, R is `rotateRight`. */
  ghost function Rotate<V>(side: Side, t: Tree<V>): Tree<V> {
    if t.Bin? && Child(Opposite(side), t).Bin? then
      var y := Child(Opposite(side), t);
      Join(side, y.color, Join(side, t.color, Child(side, t), t.node, t.value, Child(side, y)),
        y.node, y.value, Child(Opposite(side), y))
    else t
  }

  lemma RotateKeepsOrder<V>(side: Side, t: Tree<V>)
    ensures InOrder(Rotate(side, t)) == InOrder(t)
  {
    if t.Bin? && Child(Opposite(side), t).Bin? {
      var y := Child(Opposite(side), t);
      var lo, hi := if side == L then t else y, if side == L then y else t;
      var a, b, c := InOrder(lo.left), InOrder(if side == L then y.left else y.right), InOrder(hi.right);
      var x, z := [Pair(lo.node.key, lo.value)], [Pair(hi.node.key, hi.value)];
      assert (a + x + b) + z + c == a + x + (b + z + c);
    }
  }

  // ----- Insertion: one red-red violation moves up -----

  /** The focus is a red-rooted balanced tree that would fit here if its root were black. */
  ghost predicate InsertState<V>(p: Path<V>, t: Tree<V>) {
    IsRed(t) && Balanced(t) && Fits(p, BlackHeight(t), false)
  }

  ghost predicate UnderRed<V>(p: Path<V>) {
    !p.Top? && p.color == Red
  }

  /** A red node is never the root of the rest, so a violation always has a black grandparent. */
  lemma GrandparentExists<V>(p: Path<V>, t: Tree<V>)
    requires InsertState(p, t) && UnderRed(p)
    ensures !p.up.Top? && p.up.color == Black
  {
    assert Fits(p.up, BlackHeight(t), true);
  }

  /** The subtrees one and two steps above the focus. */
  ghost function Up1<V>(p: Path<V>, t: Tree<V>): Tree<V>
    requires !p.Top?
  {
    Join(p.side, p.color, t, p.node, p.value, p.other)
  }

  ghost function Up2<V>(p: Path<V>, t: Tree<V>): Tree<V>
    requires !p.Top? && !p.up.Top?
  {
    Up1(p.up, Up1(p, t))
  }

  /** Case 1, red uncle: parent and uncle turn black and the grandparent red; it is the next focus. */
  ghost function PushedUp<V>(p: Path<V>, t: Tree<V>): Tree<V>
    requires !p.Top? && !p.up.Top?
  {
    Paint(Up1(p.up.(other := Paint(p.up.other, Black)), Paint(Up1(p, t), Black)), Red)
  }

  lemma PushUpKeeps<V>(p: Path<V>, t: Tree<V>)
    requires InsertState(p, t) && UnderRed(p) && !p.up.Top? && IsRed(p.up.other)
    ensures InsertState(p.up.up, PushedUp(p, t))
    ensures InOrder(PushedUp(p, t)) == InOrder(Up2(p, t))
  {
    assert Fits(p.up, BlackHeight(t), true);
  }

  /** Case 2, black uncle and the violation on the inner side: a rotation turns it to the outer side. */
  ghost function InnerPath<V>(p: Path<V>, t: Tree<V>): Path<V>
    requires !p.Top? && t.Bin?
  {
    Step(p.up, Opposite(p.side), t.color, t.node, t.value, Child(p.side, t))
  }

  ghost function InnerFocus<V>(p: Path<V>, t: Tree<V>): Tree<V>
    requires !p.Top? && t.Bin?
  {
    Join(p.side, p.color, Child(Opposite(p.side), t), p.node, p.value, p.other)
  }

  lemma RotateInnerKeeps<V>(p: Path<V>, t: Tree<V>)
    requires InsertState(p, t) && UnderRed(p)
    ensures InsertState(InnerPath(p, t), InnerFocus(p, t)) && UnderRed(InnerPath(p, t))
    ensures Up1(InnerPath(p, t), InnerFocus(p, t)) == Rotate(Opposite(p.side), Up1(p, t))
  {
    assert Fits(p.up, BlackHeight(t), true);
  }

  /** Case 3, black uncle and the violation on the outer side: one rotation ends it. */
  ghost function PaintedForRotation<V>(p: Path<V>, t: Tree<V>): Tree<V>
    requires !p.Top? && !p.up.Top?
  {
    Paint(Up1(p.up, Paint(Up1(p, t), Black)), Red)
  }

  ghost function OuterPath<V>(p: Path<V>): Path<V>
    requires !p.Top? && !p.up.Top?
  {
    Step(p.up.up, p.side, Black, p.node, p.value,
      Join(Opposite(p.side), Red, p.up.other, p.up.node, p.up.value, p.other))
  }

  lemma RotateOuterKeeps<V>(p: Path<V>, t: Tree<V>)
    requires InsertState(p, t) && UnderRed(p) && !p.up.Top? && !IsRed(p.up.other) && p.side == p.up.side
    ensures InsertState(OuterPath(p), t)
    ensures Up1(OuterPath(p), t) == Rotate(Opposite(p.side), PaintedForRotation(p, t))
  {
    assert Fits(p.up, BlackHeight(t), true);
  }

  /** With no violation left, painting the root black makes a red-black tree. */
  lemma InsertDone<V>(p: Path<V>, t: Tree<V>)
    requires InsertState(p, t) && !UnderRed(p)
    ensures RedBlack(Paint(Plug(p, t), Black))
  {
    RedBlackPlug(p, t);
    assert !p.Top? ==> Fits(p, BlackHeight(t), true);
  }

  // ----- Deletion: one missing black moves up -----

  /** The focus is one black short of what the path expects; only its root may be wrongly red. */
  ghost predicate DeleteState<V>(p: Path<V>, t: Tree<V>) {
    Balanced(Paint(t, Black)) && Fits(p, BlackHeight(t) + 1, false)
  }

  /** The sibling of a subtree that is one black short exists. */
  lemma SiblingExists<V>(p: Path<V>, t: Tree<V>)
    requires DeleteState(p, t) && !p.Top?
    ensures p.other.Bin? && Balanced(p.other) && BlackHeight(p.other) == BlackHeight(t) + 1
    ensures IsRed(p.other) ==> p.color == Black
  {
  }

  /** The same tree with the focus at the sibling. */
  ghost function AtSibling<V>(p: Path<V>, t: Tree<V>): Path<V>
    requires !p.Top?
  {
    Step(p.up, Opposite(p.side), p.color, p.node, p.value, t)
  }

  lemma OtherSameOrder<V>(p: Path<V>, c: Color, s: Tree<V>, t: Tree<V>)
    requires !p.Top? && InOrder(s) == InOrder(p.other)
    ensures InOrder(Plug(p.(color := c, other := s), t)) == InOrder(Plug(p, t))
  {
    SameOrder(p.up, Up1(p.(color := c, other := s), t), Up1(p, t));
  }

  /** Red sibling: recoloured and rotated, the focus has a black sibling and a red parent. */
  ghost function RecoloredSibling<V>(p: Path<V>): Path<V>
    requires !p.Top? && p.other.Bin?
  {
    p.(color := Red, other := Paint(p.other, Black))
  }

  ghost function UnderRotatedSibling<V>(p: Path<V>): Path<V>
    requires !p.Top? && p.other.Bin?
  {
    Step(Step(p.up, p.side, Black, p.other.node, p.other.value, Child(Opposite(p.side), p.other)),
      p.side, Red, p.node, p.value, Child(p.side, p.other))
  }

  lemma RotateSiblingKeeps<V>(p: Path<V>, t: Tree<V>)
    requires DeleteState(p, t) && !p.Top? && IsRed(p.other)
    ensures var q := UnderRotatedSibling(p);
      DeleteState(q, t) && !IsRed(q.other) && InOrder(Plug(q, t)) == InOrder(Plug(p, t)) &&
      Up1(q.up, Up1(q, t)) == Rotate(p.side, Up1(RecoloredSibling(p), t))
  {
    var w := Up1(RecoloredSibling(p), t);
    RotateKeepsOrder(p.side, w);
    SameOrder(p.up, w, Rotate(p.side, w));
    OtherSameOrder(p, Red, Paint(p.other, Black), t);
  }

  /** Black sibling with black children: painting it red moves the missing black to the parent. */
  lemma PaintSiblingKeeps<V>(p: Path<V>, t: Tree<V>)
    requires DeleteState(p, t) && !IsRed(t) && !p.Top? && p.other.Bin? && !IsRed(p.other)
    requires !IsRed(p.other.left) && !IsRed(p.other.right)
    ensures var q := p.(other := Paint(p.other, Red));
      DeleteState(p.up, Up1(q, t)) && InOrder(Plug(q, t)) == InOrder(Plug(p, t))
  {
    if p.color == Red {
      FitsBlack(p.up, BlackHeight(t) + 1);
    }
    OtherSameOrder(p, p.color, Paint(p.other, Red), t);
  }

  /** Black sibling whose inner child alone is red: a rotation moves the red to the outer child. */
  ghost function PaintedChild<V>(s: Tree<V>, side: Side, c: Color, child: Color): Tree<V>
    requires s.Bin?
  {
    Join(side, c, Paint(Child(side, s), child), s.node, s.value, Child(Opposite(side), s))
  }

  ghost function RedOutward<V>(side: Side, s: Tree<V>): Tree<V>
    requires s.Bin?
  {
    Rotate(Opposite(side), PaintedChild(s, side, Red, Black))
  }

  lemma RedOutwardKeeps<V>(p: Path<V>, t: Tree<V>)
    requires DeleteState(p, t) && !p.Top? && p.other.Bin? && !IsRed(p.other)
    requires IsRed(Child(p.side, p.other)) && !IsRed(Child(Opposite(p.side), p.other))
    ensures var s := RedOutward(p.side, p.other);
      DeleteState(p.(other := s), t) && s.Bin? && s.color == Black && IsRed(Child(Opposite(p.side), s)) &&
      InOrder(Plug(p.(other := s), t)) == InOrder(Plug(p, t))
  {
    var inner := Child(p.side, p.other);
    assert Balanced(inner) && Balanced(inner.left) && Balanced(inner.right);
    assert Balanced(Paint(inner, Black));
    RotateKeepsOrder(Opposite(p.side), PaintedChild(p.other, p.side, Red, Black));
    OtherSameOrder(p, p.color, RedOutward(p.side, p.other), t);
  }

  /** Black sibling whose outer child is red: the last rotation restores every black height. */
  ghost function BeforeLastRotation<V>(p: Path<V>, t: Tree<V>): Tree<V>
    requires !p.Top? && p.other.Bin?
  {
    Up1(p.(color := Black, other := PaintedChild(p.other, Opposite(p.side), p.color, Black)), t)
  }

  lemma LastRotationEnds<V>(p: Path<V>, t: Tree<V>)
    requires DeleteState(p, t) && !IsRed(t) && !p.Top? && p.other.Bin? && !IsRed(p.other)
    requires IsRed(Child(Opposite(p.side), p.other))
    ensures var w := Plug(p.up, Rotate(p.side, BeforeLastRotation(p, t)));
      RedBlack(w) && InOrder(w) == InOrder(Plug(p, t))
  {
    LastRotationBalanced(p, t);
    var b := BeforeLastRotation(p, t);
    assert InOrder(PaintedChild(p.other, Opposite(p.side), p.color, Black)) == InOrder(p.other);
    RotateKeepsOrder(p.side, b);
    SameOrder(p.up, Up1(p, t), Rotate(p.side, b));
  }

  lemma LastRotationBalanced<V>(p: Path<V>, t: Tree<V>)
    requires DeleteState(p, t) && !IsRed(t) && !p.Top? && p.other.Bin? && !IsRed(p.other)
    requires IsRed(Child(Opposite(p.side), p.other))
    ensures RedBlack(Plug(p.up, Rotate(p.side, BeforeLastRotation(p, t))))
  {
    var outer := Child(Opposite(p.side), p.other);
    assert Balanced(outer) && Balanced(outer.left) && Balanced(outer.right);
    assert Balanced(Paint(outer, Black)) && Paint(t, Black) == t;
    assert Balanced(Join(p.side, Black, t, p.node, p.value, Child(p.side, p.other)));
    RedBlackPlug(p.up, Rotate(p.side, BeforeLastRotation(p, t)));
  }

  lemma DeleteDone<V>(p: Path<V>, t: Tree<V>)
    requires DeleteState(p, t) && (p.Top? || IsRed(t))
    ensures RedBlack(Plug(p, Paint(t, Black)))
  {
    RedBlackPlug(p, Paint(t, Black));
  }

  // ----- Deletion of a node with two children: its successor takes its place -----

  /** A path from an inner node on, continued from a base path. */
  ghost function Extend<V>(base: Path<V>, e: Path<V>): Path<V> {
    match e
    case Top => base
    case Step(up, side, c, n, v, other) => Step(Extend(base, up), side, c, n, v, other)
  }

  ghost predicate AllLeft<V>(e: Path<V>) {
    e.Top? || (e.side == L && AllLeft(e.up))
  }

  lemma {:induction false} PlugExtend<V>(base: Path<V>, e: Path<V>, t: Tree<V>)
    ensures Plug(Extend(base, e), t) == Plug(base, Plug(e, t))
  {
    if e.Step? {
      PlugExtend(base, e.up, Up1(e, t));
    }
  }

  lemma {:induction false} PlugStepIsBin<V>(e: Path<V>, t: Tree<V>)
    requires e.Step?
    ensures Plug(e, t).Bin?
  {
    PlugIsBin(e.up, Up1(e, t));
  }

  lemma {:induction false} AllLeftBefore<V>(e: Path<V>)
    requires AllLeft(e)
    ensures Before(e) == []
  {
    if e.Step? {
      AllLeftBefore(e.up);
    }
  }

  /** Which node sits at the top of the continuation does not matter for the balance. */
  lemma {:induction false} FitsRename<V>(p: Path<V>, c: Color, l: Tree<V>, z: RBNode<V>, zv: V, y: RBNode<V>, yv: V, e: Path<V>, h: nat, red: bool)
    ensures Fits(Extend(Step(p, R, c, z, zv, l), e), h, red) == Fits(Extend(Step(p, R, c, y, yv, l), e), h, red)
  {
    if e.Step? {
      FitsRename(p, c, l, z, zv, y, yv, e.up, h + (if e.color == Black then 1 else 0), e.color == Red);
    }
  }

  /** Splicing out a node with one child: the child is one black short if the node was black. */
  lemma SpliceBalance<V>(p: Path<V>, t: Tree<V>, side: Side)
    requires t.Bin? && Child(side, t) == Leaf && Balanced(t) && Fits(p, BlackHeight(t), IsRed(t))
    ensures t.color == Black ==> DeleteState(p, Child(Opposite(side), t))
    ensures t.color == Red ==> RedBlack(Plug(p, Child(Opposite(side), t)))
  {
    var r := Child(Opposite(side), t);
    if t.color == Red {
      FitsBlack(p, BlackHeight(t));
      RedBlackPlug(p, r);
    }
  }

  /** The whole tree before and after the successor `s` of the focus root takes its place. */
  lemma SuccessorBalance<V>(p: Path<V>, c: Color, l: Tree<V>, z: RBNode<V>, zv: V, e: Path<V>, s: Tree<V>)
    requires s.Bin? && s.left == Leaf && RedBlack(Plug(p, Bin(c, l, z, zv, Plug(e, s))))
    ensures var q := Extend(Step(p, R, c, s.node, s.value, l), e);
      (s.color == Black ==> DeleteState(q, s.right)) && (s.color == Red ==> RedBlack(Plug(q, s.right)))
  {
    var q0 := Extend(Step(p, R, c, z, zv, l), e);
    var q := Extend(Step(p, R, c, s.node, s.value, l), e);
    PlugExtend(Step(p, R, c, z, zv, l), e, s);
    RedBlackPlug(q0, s);
    FitsRename(p, c, l, z, zv, s.node, s.value, e, BlackHeight(s), IsRed(s));
    SpliceBalance(q, s, L);
  }

  lemma SuccessorOrder<V>(p: Path<V>, c: Color, l: Tree<V>, z: RBNode<V>, zv: V, e: Path<V>, s: Tree<V>)
    requires s.Bin? && s.left == Leaf && AllLeft(e)
    ensures InOrder(Bin(c, l, s.node, s.value, Plug(e, s.right))) == InOrder(l) + InOrder(Plug(e, s))
  {
    hide Plug, AllLeft, Before, After;
    AllLeftBefore(e);
    InOrderPlug(e, s);
    InOrderPlug(e, s.right);
    var a, y, b, d := InOrder(l), [Pair(s.node.key, s.value)], InOrder(s.right), After(e);
    assert InOrder(Plug(e, s)) == [] + ([] + y + b) + d == y + (b + d);
    assert InOrder(Plug(e, s.right)) == [] + b + d == b + d;
    assert a + (y + (b + d)) == a + y + (b + d);
  }
}
