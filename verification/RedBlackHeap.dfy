/**
 How linked nodes represent a tree: a snapshot of the mutable fields of a set of nodes, and
 when such a snapshot has the links, parent links, colours and values of a given tree.
 Everything here is about snapshots, which are values, so that each pointer operation of
 `SortedMap` is justified by a lemma about the snapshots before and after it.
 */
module RedBlackHeap {
  import opened RedBlackTree

  datatype Cell<V> = Cell(value: V, color: Color, left: RBNode?<V>, right: RBNode?<V>, parent: RBNode?<V>)

  type Memory<V> = map<RBNode<V>, Cell<V>>

  ghost function Snapshot<V>(nodes: set<RBNode<V>>): Memory<V>
    reads nodes
  {
    map n | n in nodes :: Cell(n.value, n.color, n.left, n.right, n.parent)
  }

  ghost function Root<V>(t: Tree<V>): RBNode?<V> {
    if t.Leaf? then null else t.node
  }

  ghost function ParentOf<V>(p: Path<V>): RBNode?<V> {
    if p.Top? then null else p.node
  }

  ghost function Nodes<V>(t: Tree<V>): set<RBNode<V>> {
    match t
    case Leaf => {}
    case Bin(_, l, n, _, r) => Nodes(l) + {n} + Nodes(r)
  }

  ghost function PathNodes<V>(p: Path<V>): set<RBNode<V>> {
    match p
    case Top => {}
    case Step(up, _, _, n, _, other) => PathNodes(up) + {n} + Nodes(other)
  }

  /** No node occurs twice. */
  ghost predicate Distinct<V>(t: Tree<V>) {
    match t
    case Leaf => true
    case Bin(_, l, n, _, r) =>
      Distinct(l) && Distinct(r) && n !in Nodes(l) && n !in Nodes(r) && Nodes(l) !! Nodes(r)
  }

  ghost predicate DistinctPath<V>(p: Path<V>) {
    match p
    case Top => true
    case Step(up, _, _, n, _, other) =>
      DistinctPath(up) && Distinct(other) && n !in PathNodes(up) && n !in Nodes(other) &&
      Nodes(other) !! PathNodes(up)
  }

  ghost predicate Represents<V>(m: Memory<V>, t: Tree<V>, parent: RBNode?<V>) {
    match t
    case Leaf => true
    case Bin(c, l, n, v, r) =>
      n in m && m[n] == Cell(v, c, Root(l), Root(r), parent) && Represents(m, l, n) && Represents(m, r, n)
  }

  /** The cell of a path's last node, given the node that hangs at the focus. */
  ghost function StepCell<V>(p: Path<V>, child: RBNode?<V>): Cell<V>
    requires p.Step?
  {
    if p.side == L then Cell(p.value, p.color, child, Root(p.other), ParentOf(p.up))
    else Cell(p.value, p.color, Root(p.other), child, ParentOf(p.up))
  }

  ghost predicate RepresentsPath<V>(m: Memory<V>, p: Path<V>, child: RBNode?<V>) {
    match p
    case Top => true
    case Step(up, _, _, n, _, other) =>
      n in m && m[n] == StepCell(p, child) && Represents(m, other, n) && RepresentsPath(m, up, n)
  }

  /** What the `root` field must be when `child` hangs at the focus. */
  ghost function PathRoot<V>(p: Path<V>, child: RBNode?<V>): RBNode?<V> {
    match p
    case Top => child
    case Step(up, _, _, n, _, _) => PathRoot(up, n)
  }

  lemma {:induction false} PathRootOnPath<V>(p: Path<V>, child: RBNode?<V>)
    ensures p.Step? ==> PathRoot(p, child) != null && PathRoot(p, child) in PathNodes(p)
  {
    if p.Step? {
      PathRootOnPath(p.up, p.node);
    }
  }

  /** A path and a focus over exactly the given nodes, as the snapshot and the root field have them. */
  ghost predicate Shaped<V>(m: Memory<V>, root: RBNode?<V>, p: Path<V>, t: Tree<V>) {
    m.Keys == PathNodes(p) + Nodes(t) &&
    DistinctPath(p) && Distinct(t) && PathNodes(p) !! Nodes(t) &&
    RepresentsPath(m, p, Root(t)) && Represents(m, t, ParentOf(p)) && root == PathRoot(p, Root(t))
  }

  /** Moving the focus up or down one step is a change of view only. */
  lemma MoveFocus<V>(m: Memory<V>, root: RBNode?<V>, p: Path<V>, t: Tree<V>)
    requires p.Step?
    ensures Shaped(m, root, p, t) <==>
      Shaped(m, root, p.up, Join(p.side, p.color, t, p.node, p.value, p.other))
  {
    var j := Join(p.side, p.color, t, p.node, p.value, p.other);
    assert PathNodes(p) + Nodes(t) == PathNodes(p.up) + Nodes(j);
  }

  /** So is moving it to the sibling. */
  lemma MoveToSibling<V>(m: Memory<V>, root: RBNode?<V>, p: Path<V>, t: Tree<V>)
    requires p.Step?
    ensures Shaped(m, root, p, t) <==> Shaped(m, root, AtSibling(p, t), p.other)
  {
    MoveFocus(m, root, p, t);
    MoveFocus(m, root, AtSibling(p, t), p.other);
  }

  lemma {:induction false} PlugShaped<V>(m: Memory<V>, root: RBNode?<V>, p: Path<V>, t: Tree<V>)
    ensures Shaped(m, root, p, t) <==> Shaped(m, root, Top, Plug(p, t))
  {
    if p.Step? {
      MoveFocus(m, root, p, t);
      PlugShaped(m, root, p.up, Join(p.side, p.color, t, p.node, p.value, p.other));
    }
  }

  lemma {:induction false} RepresentsFrame<V>(m: Memory<V>, m': Memory<V>, t: Tree<V>, parent: RBNode?<V>)
    requires Represents(m, t, parent)
    requires forall n :: n in Nodes(t) && n in m ==> n in m' && m'[n] == m[n]
    ensures Represents(m', t, parent)
  {
    if t.Bin? {
      RepresentsFrame(m, m', t.left, t.node);
      RepresentsFrame(m, m', t.right, t.node);
    }
  }

  /** Only the last node of a path knows what hangs at the focus. */
  lemma {:induction false} RepresentsPathFrame<V>(m: Memory<V>, m': Memory<V>, p: Path<V>, child: RBNode?<V>, child': RBNode?<V>)
    requires RepresentsPath(m, p, child) && DistinctPath(p)
    requires p.Step? ==> p.node in m' && m'[p.node] == StepCell(p, child')
    requires forall n :: n in PathNodes(p) && n in m && n != ParentOf(p) ==> n in m' && m'[n] == m[n]
    ensures RepresentsPath(m', p, child')
  {
    if p.Step? {
      RepresentsFrame(m, m', p.other, p.node);
      if p.up.Step? {
        assert p.up.node in PathNodes(p.up);
      }
      RepresentsPathFrame(m, m', p.up, p.node, p.node);
    }
  }

  /** Hanging a tree below another parent changes the parent link of its root and nothing else. */
  lemma Reparent<V>(m: Memory<V>, m': Memory<V>, t: Tree<V>, parent: RBNode?<V>, parent': RBNode?<V>)
    requires Represents(m, t, parent) && Distinct(t)
    requires t.Bin? ==> t.node in m' && m'[t.node] == m[t.node].(parent := parent')
    requires forall n :: n in Nodes(t) && n in m && n != Root(t) ==> n in m' && m'[n] == m[n]
    ensures Represents(m', t, parent')
  {
    if t.Bin? {
      RepresentsFrame(m, m', t.left, t.node);
      RepresentsFrame(m, m', t.right, t.node);
    }
  }

  // ----- What each pointer operation does to the shape -----

  ghost function WithChild<V>(c: Cell<V>, side: Side, child: RBNode?<V>): Cell<V> {
    if side == L then c.(left := child) else c.(right := child)
  }

  /** Everything but the focus is as before, with `child'` hung at the focus. */
  ghost predicate PathRelinked<V>(m: Memory<V>, m': Memory<V>, p: Path<V>, child': RBNode?<V>) {
    (p.Step? ==> p.node in m && p.node in m' && m'[p.node] == WithChild(m[p.node], p.side, child')) &&
    forall n :: n in PathNodes(p) && n != ParentOf(p) && n in m ==> n in m' && m'[n] == m[n]
  }

  lemma PathStays<V>(m: Memory<V>, m': Memory<V>, p: Path<V>, child: RBNode?<V>, child': RBNode?<V>)
    requires RepresentsPath(m, p, child) && DistinctPath(p) && PathRelinked(m, m', p, child')
    ensures RepresentsPath(m', p, child')
  {
    RepresentsPathFrame(m, m', p, child, child');
  }

  lemma RootInNodes<V>(t: Tree<V>)
    ensures t.Bin? ==> Root(t) in Nodes(t)
  {
  }

  /** Assigning the colour or the value of the focus node changes the focus tree accordingly. */
  lemma RelabelShaped<V>(m: Memory<V>, m': Memory<V>, root: RBNode?<V>, p: Path<V>, t: Tree<V>, c: Color, v: V)
    requires Shaped(m, root, p, t) && t.Bin?
    requires t.node in m && m' == m[t.node := m[t.node].(color := c, value := v)]
    ensures Shaped(m', root, p, t.(color := c, value := v))
  {
    RepresentsFrame(m, m', t.left, t.node);
    RepresentsFrame(m, m', t.right, t.node);
    if p.Step? {
      assert p.node in PathNodes(p);
    }
    RepresentsPathFrame(m, m', p, t.node, t.node);
  }

  /** Hanging a fresh red node where the path ends in nothing. */
  lemma AttachShaped<V>(m: Memory<V>, m': Memory<V>, root: RBNode?<V>, p: Path<V>, z: RBNode<V>, v: V)
    requires Shaped(m, root, p, Leaf) && z !in m
    requires m'.Keys == m.Keys + {z} && m'[z] == Cell(v, Red, null, null, ParentOf(p))
    requires PathRelinked(m, m', p, z)
    ensures Shaped(m', if p.Top? then z else root, p, Bin(Red, Leaf, z, v, Leaf))
  {
    PathStays(m, m', p, null, z);
  }

  /**
   What a rotation assigns: `x` goes down to the given side, its child `y` comes up in its
   place, and `y`'s inner child `b` changes sides.
   */
  ghost predicate RotatedLinks<V>(m: Memory<V>, m': Memory<V>, side: Side,
      x: RBNode<V>, y: RBNode<V>, b: RBNode?<V>, parent: RBNode?<V>)
    requires x in m && y in m
  {
    m'.Keys == m.Keys &&
    m'[x] == WithChild(m[x], Opposite(side), b).(parent := y) &&
    m'[y] == WithChild(m[y], side, x).(parent := parent) &&
    (b != null && b in m ==> m'[b] == m[b].(parent := x)) &&
    (parent != null && parent in m ==>
      m'[parent] == WithChild(m[parent], if m[parent].left == x then L else R, y)) &&
    forall n :: n in m && n != x && n != y && n != b && n != parent ==> m'[n] == m[n]
  }

  /** The fields of the focus and of the nodes next to it. */
  lemma ShapedMembers<V>(m: Memory<V>, root: RBNode?<V>, p: Path<V>, t: Tree<V>)
    requires Shaped(m, root, p, t)
    ensures t.Bin? ==>
      t.node in m && m[t.node] == Cell(t.value, t.color, Root(t.left), Root(t.right), ParentOf(p)) &&
      t.node != ParentOf(p)
    ensures p.Step? ==>
      p.node in m && m[p.node] == StepCell(p, Root(t)) && Root(p.other) != p.node &&
      (Root(t) != null ==> Root(p.other) != Root(t))
    ensures p.Top? <==> root == Root(t)
  {
    RootInNodes(t);
    PathRootOnPath(p, Root(t));
    if p.Step? {
      RootInNodes(p.other);
    }
  }

  /** The fields of a child of the focus. */
  lemma ChildMembers<V>(m: Memory<V>, root: RBNode?<V>, p: Path<V>, t: Tree<V>, side: Side)
    requires Shaped(m, root, p, t) && t.Bin? && Child(side, t).Bin?
    ensures var y := Child(side, t);
      y.node in m && m[y.node] == Cell(y.value, y.color, Root(y.left), Root(y.right), t.node) &&
      y.node != t.node && y.node != ParentOf(p) && Root(y.left) != t.node && Root(y.right) != t.node &&
      Root(y.left) != y.node && Root(y.right) != y.node &&
      (y.left.Bin? ==> y.left.node in m && y.left.node != ParentOf(p)) &&
      (y.right.Bin? ==> y.right.node in m && y.right.node != ParentOf(p))
  {
    var y := Child(side, t);
    assert Represents(m, y, t.node) && Distinct(y);
    RootInNodes(y.left);
    RootInNodes(y.right);
    if p.Step? {
      assert p.node in PathNodes(p);
    }
  }

  lemma RotateNodes<V>(t: Tree<V>, side: Side)
    requires Distinct(t) && t.Bin? && Child(Opposite(side), t).Bin?
    ensures Distinct(Rotate(side, t)) && Nodes(Rotate(side, t)) == Nodes(t)
  {
    assert Distinct(Child(Opposite(side), t));
  }

  /** The assignments of a rotation leave a rotated focus. */
  lemma RotateFocus<V>(m: Memory<V>, m': Memory<V>, t: Tree<V>, parent: RBNode?<V>, side: Side)
    requires Represents(m, t, parent) && Distinct(t) && t.Bin? && Child(Opposite(side), t).Bin?
    requires var y := Child(Opposite(side), t); var b := Child(side, y);
      t.node in m' && y.node in m' &&
      m'[t.node] == WithChild(m[t.node], Opposite(side), Root(b)).(parent := y.node) &&
      y.node in m && m'[y.node] == WithChild(m[y.node], side, t.node).(parent := parent) &&
      (b.Bin? ==> b.node in m && b.node in m' && m'[b.node] == m[b.node].(parent := t.node)) &&
      forall n :: n in Nodes(t) && n != t.node && n != y.node && n != Root(b) && n in m ==> n in m' && m'[n] == m[n]
    ensures Represents(m', Rotate(side, t), parent)
  {
    var y := Child(Opposite(side), t);
    var a, b, c := Child(side, t), Child(side, y), Child(Opposite(side), y);
    assert Represents(m, y, t.node) && Distinct(y);
    RootInNodes(b);
    RepresentsFrame(m, m', a, t.node);
    RepresentsFrame(m, m', c, y.node);
    Reparent(m, m', b, y.node, t.node);
  }

  lemma RotateShaped<V>(m: Memory<V>, m': Memory<V>, root: RBNode?<V>, p: Path<V>, t: Tree<V>, side: Side)
    requires Shaped(m, root, p, t) && t.Bin? && Child(Opposite(side), t).Bin?
    requires t.node in m && Child(Opposite(side), t).node in m
    requires RotatedLinks(m, m', side, t.node, Child(Opposite(side), t).node,
      Root(Child(side, Child(Opposite(side), t))), ParentOf(p))
    ensures Shaped(m', if p.Top? then Child(Opposite(side), t).node else root, p, Rotate(side, t))
  {
    var y := Child(Opposite(side), t);
    ShapedMembers(m, root, p, t);
    ChildMembers(m, root, p, t, Opposite(side));
    RootInNodes(Child(side, y));
    PathStays(m, m', p, t.node, y.node);
    RotateFocus(m, m', t, ParentOf(p), side);
    RotateNodes(t, side);
  }

  lemma {:induction false} MoveDown<V>(m: Memory<V>, root: RBNode?<V>, base: Path<V>, e: Path<V>, t: Tree<V>)
    ensures Shaped(m, root, base, Plug(e, t)) <==> Shaped(m, root, Extend(base, e), t)
  {
    if e.Step? {
      MoveFocus(m, root, Extend(base, e), t);
      MoveDown(m, root, base, e.up, Up1(e, t));
    }
  }

  /** Splicing out the focus root, whose child on the given side is missing. */
  lemma SpliceShaped<V>(m: Memory<V>, m': Memory<V>, root: RBNode?<V>, p: Path<V>, t: Tree<V>, side: Side)
    requires Shaped(m, root, p, t) && t.Bin? && Child(side, t) == Leaf
    requires m'.Keys == m.Keys - {t.node}
    requires var r := Child(Opposite(side), t);
      PathRelinked(m, m', p, Root(r)) &&
      (r.Bin? ==> r.node in m' && m'[r.node] == m[r.node].(parent := ParentOf(p))) &&
      forall n :: n in Nodes(r) && n != Root(r) && n in m ==> n in m' && m'[n] == m[n]
    ensures Shaped(m', if p.Top? then Root(Child(Opposite(side), t)) else root, p, Child(Opposite(side), t))
  {
    var r := Child(Opposite(side), t);
    PathStays(m, m', p, t.node, Root(r));
    Reparent(m, m', r, t.node, ParentOf(p));
  }

  /** Another node taking the place of the focus root. */
  lemma ReplaceShaped<V>(m: Memory<V>, m': Memory<V>, root: RBNode?<V>, p: Path<V>, t: Tree<V>, y: RBNode<V>, yv: V)
    requires Shaped(m, root, p, t) && t.Bin? && y !in m
    requires m'.Keys == m.Keys - {t.node} + {y}
    requires m'[y] == Cell(yv, t.color, Root(t.left), Root(t.right), ParentOf(p)) && PathRelinked(m, m', p, y)
    requires t.left.Bin? ==> t.left.node in m && t.left.node in m' && m'[t.left.node] == m[t.left.node].(parent := y)
    requires t.right.Bin? ==> t.right.node in m && t.right.node in m' && m'[t.right.node] == m[t.right.node].(parent := y)
    requires forall n :: n in Nodes(t) && n != t.node && n != Root(t.left) && n != Root(t.right) && n in m ==>
      n in m' && m'[n] == m[n]
    ensures Shaped(m', if p.Top? then y else root, p, t.(node := y, value := yv))
  {
    hide PathNodes;
    PathStays(m, m', p, t.node, y);
    RootInNodes(t.left);
    RootInNodes(t.right);
    Reparent(m, m', t.left, t.node, y);
    Reparent(m, m', t.right, t.node, y);
  }

  /** What `transplant(u, v)` assigns, apart from the root field. */
  ghost predicate TransplantLinks<V>(m: Memory<V>, m': Memory<V>, u: RBNode<V>, v: RBNode?<V>, parent: RBNode?<V>) {
    m'.Keys == m.Keys &&
    (parent != null && parent in m ==>
      m'[parent] == WithChild(m[parent], if m[parent].left == u then L else R, v)) &&
    (v != null && v in m ==> m'[v] == m[v].(parent := parent)) &&
    forall n :: n in m && n != parent && n != v ==> m'[n] == m[n]
  }

  /** What is assigned when `y` takes over the parent, the left child `l` and the colour of `z`. */
  ghost predicate TookPlace<V>(m: Memory<V>, m': Memory<V>, z: RBNode<V>, y: RBNode<V>, l: RBNode<V>, parent: RBNode?<V>)
    requires z in m && y in m && l in m
  {
    m'.Keys == m.Keys &&
    m'[y] == Cell(m[y].value, m[z].color, l, m[y].right, parent) &&
    m'[l] == m[l].(parent := y) &&
    (parent != null && parent in m ==>
      m'[parent] == WithChild(m[parent], if m[parent].left == z then L else R, y)) &&
    forall n :: n in m && n != parent && n != y && n != l ==> m'[n] == m[n]
  }

  /**
   The node at the root of `t` is still linked in, and its successor `y` is already linked
   to what will be its right subtree; `m1` is the shape without `y`.
   */
  ghost predicate SuccessorReady<V>(m: Memory<V>, m1: Memory<V>, root: RBNode?<V>, p: Path<V>, t: Tree<V>, y: RBNode<V>, yv: V) {
    t.Bin? && t.left.Bin? && Shaped(m1, root, p, t) && y !in m1 && m.Keys == m1.Keys + {y} &&
    t.node in m && m[t.node].left == Root(t.left) && m[t.node].color == t.color && m[t.node].parent == ParentOf(p) &&
    m[y].right == Root(t.right) && m[y].value == yv &&
    (t.right.Bin? ==> t.right.node in m1 && m[t.right.node] == m1[t.right.node].(parent := y)) &&
    forall n :: n in m1 && n != t.node && n != Root(t.right) ==> m[n] == m1[n]
  }

  lemma SuccessorMembers<V>(m: Memory<V>, m1: Memory<V>, root: RBNode?<V>, p: Path<V>, t: Tree<V>, y: RBNode<V>, yv: V)
    requires SuccessorReady(m, m1, root, p, t, y, yv)
    ensures t.left.node in m && y in m && y != t.node && y != t.left.node && t.left.node != t.node
    ensures p.Step? ==> p.node in m && p.node != t.node && p.node != y && p.node != t.left.node
  {
    ShapedMembers(m1, root, p, t);
    ChildMembers(m1, root, p, t, L);
  }

  lemma TookPlaceShaped<V>(m: Memory<V>, m': Memory<V>, m1: Memory<V>, root: RBNode?<V>, p: Path<V>, t: Tree<V>, y: RBNode<V>, yv: V)
    requires SuccessorReady(m, m1, root, p, t, y, yv) && y in m && t.left.node in m
    requires TookPlace(m, m', t.node, y, t.left.node, ParentOf(p))
    ensures Shaped(m' - {t.node}, if p.Top? then y else root, p, t.(node := y, value := yv))
  {
    hide RepresentsPath, DistinctPath, Represents;
    ShapedMembers(m1, root, p, t);
    ChildMembers(m1, root, p, t, L);
    if t.right.Bin? {
      ChildMembers(m1, root, p, t, R);
    }
    DistinctChildren(t);
    ReplaceShaped(m1, m' - {t.node}, root, p, t, y, yv);
  }

  lemma DistinctChildren<V>(t: Tree<V>)
    requires Distinct(t) && t.Bin? && t.left.Bin?
    ensures Root(t.right) != t.left.node
  {
    RootInNodes(t.left);
    RootInNodes(t.right);
  }

  lemma SplicedShaped<V>(m: Memory<V>, m': Memory<V>, root: RBNode?<V>, p: Path<V>, t: Tree<V>, side: Side)
    requires Shaped(m, root, p, t) && t.Bin? && Child(side, t) == Leaf
    requires TransplantLinks(m, m', t.node, Root(Child(Opposite(side), t)), ParentOf(p))
    ensures Shaped(m' - {t.node}, if p.Top? then Root(Child(Opposite(side), t)) else root, p, Child(Opposite(side), t))
  {
    var r := Child(Opposite(side), t);
    ShapedMembers(m, root, p, t);
    if r.Bin? {
      ChildMembers(m, root, p, t, Opposite(side));
    }
    SpliceShaped(m, m' - {t.node}, root, p, t, side);
  }

  /**
   A successor that is the right child itself: with it left out of the shape, the node is
   ready to be replaced, though nothing has been assigned yet.
   */
  ghost function WithoutRightChild<V>(m: Memory<V>, z: RBNode<V>, y: RBNode<V>, yr: RBNode?<V>): Memory<V>
    requires z in m
  {
    var m1 := m[z := m[z].(right := yr)];
    (if yr != null && yr in m1 then m1[yr := m1[yr].(parent := z)] else m1) - {y}
  }

  lemma RightChildReady<V>(m: Memory<V>, root: RBNode?<V>, p: Path<V>, t: Tree<V>)
    requires Shaped(m, root, p, t) && t.Bin? && t.left.Bin? && t.right.Bin? && t.right.left == Leaf
    ensures t.node in m && var s := t.right;
      SuccessorReady(m, WithoutRightChild(m, t.node, s.node, Root(s.right)), root, p, t.(right := s.right), s.node, s.value)
  {
    var s := t.right;
    ShapedMembers(m, root, p, t);
    ChildMembers(m, root, p, t, R);
    var m1 := WithoutRightChild(m, t.node, s.node, Root(s.right));
    var w := Step(p, R, t.color, t.node, t.value, t.left);
    MoveFocus(m, root, w, s);
    if s.right.Bin? {
      ChildMembers(m, root, w, s, R);
    }
    SpliceShaped(m, m1, root, w, s, L);
    MoveFocus(m1, root, w, s.right);
  }

  /** The same tree with the focus at an inner node of the right subtree. */
  ghost function Below<V>(p: Path<V>, t: Tree<V>, e: Path<V>): Path<V>
    requires t.Bin?
  {
    Extend(Step(p, R, t.color, t.node, t.value, t.left), e)
  }

  lemma MoveBelow<V>(m: Memory<V>, root: RBNode?<V>, p: Path<V>, t: Tree<V>, e: Path<V>, s: Tree<V>)
    requires t.Bin? && t.right == Plug(e, s)
    ensures Shaped(m, root, p, t) <==> Shaped(m, root, Below(p, t, e), s)
  {
    var w := Step(p, R, t.color, t.node, t.value, t.left);
    MoveFocus(m, root, w, t.right);
    MoveDown(m, root, w, e, s);
  }

  lemma {:induction false} BaseOnPath<V>(base: Path<V>, e: Path<V>)
    requires base.Step?
    ensures base.node in PathNodes(Extend(base, e))
  {
    if e.Step? {
      BaseOnPath(base, e.up);
    }
  }

  /** The successor hangs directly below the node only if nothing lies between them. */
  lemma DirectSuccessor<V>(m: Memory<V>, root: RBNode?<V>, p: Path<V>, t: Tree<V>, e: Path<V>, s: Tree<V>)
    requires t.Bin? && Shaped(m, root, Below(p, t, e), s)
    ensures ParentOf(Below(p, t, e)) == t.node <==> e.Top?
  {
    if e.Step? {
      BaseOnPath(Step(p, R, t.color, t.node, t.value, t.left), e.up);
    }
  }

  /** A deeper successor: spliced out and linked to the right subtree, the node is ready to be replaced. */
  lemma DeepReady<V>(m: Memory<V>, m1: Memory<V>, root: RBNode?<V>, p: Path<V>, t: Tree<V>, y: RBNode<V>, yv: V)
    requires Shaped(m1, root, p, t) && t.Bin? && t.left.Bin? && t.right.Bin? && y !in m1
    requires t.right.node in m1 && m.Keys == m1.Keys + {y} && m[y].right == t.right.node && m[y].value == yv
    requires m[t.right.node] == m1[t.right.node].(parent := y)
    requires forall n :: n in m1 && n != t.right.node ==> m[n] == m1[n]
    ensures SuccessorReady(m, m1, root, p, t, y, yv)
  {
    ShapedMembers(m1, root, p, t);
    ChildMembers(m1, root, p, t, R);
  }

  /** The tree with its root `t.node` taken out, in a state the deletion fix-up can finish. */
  ghost predicate RootTakenOut<V>(p: Path<V>, t: Tree<V>, originalColor: Color, p': Path<V>, t': Tree<V>)
    requires t.Bin?
  {
    InOrder(Plug(p', t')) == Before(p) + (InOrder(t.left) + InOrder(t.right)) + After(p) &&
    if originalColor == Black then DeleteState(p', t') else RedBlack(Plug(p', t'))
  }

  lemma TakenOutBySplice<V>(p: Path<V>, t: Tree<V>, side: Side)
    requires t.Bin? && Child(side, t) == Leaf && RedBlack(Plug(p, t))
    ensures RootTakenOut(p, t, t.color, p, Child(Opposite(side), t))
  {
    RedBlackPlug(p, t);
    SpliceBalance(p, t, side);
    InOrderPlug(p, Child(Opposite(side), t));
    assert InOrder(t.left) + InOrder(t.right) == InOrder(Child(Opposite(side), t));
  }

  lemma TakenOutBySuccessor<V>(m: Memory<V>, root: RBNode?<V>, p: Path<V>, t: Tree<V>, e: Path<V>, s: Tree<V>)
    requires t.Bin? && RedBlack(Plug(p, t)) && t.right == Plug(e, s) && AllLeft(e) && s.Bin? && s.left == Leaf
    requires Shaped(m, root, p, Bin(t.color, t.left, s.node, s.value, Plug(e, s.right)))
    ensures var t1 := Bin(t.color, t.left, s.node, s.value, Plug(e, s.right));
      Shaped(m, root, Below(p, t1, e), s.right) && RootTakenOut(p, t, s.color, Below(p, t1, e), s.right)
  {
    hide Shaped, DeleteState, RedBlack;
    var t1 := Bin(t.color, t.left, s.node, s.value, Plug(e, s.right));
    MoveBelow(m, root, p, t1, e, s.right);
    SuccessorBalance(p, t.color, t.left, t.node, t.value, e, s);
    SuccessorOrder(p, t.color, t.left, t.node, t.value, e, s);
    PlugExtend(Step(p, R, t1.color, t1.node, t1.value, t1.left), e, s.right);
    InOrderPlug(p, t1);
  }
}
