/**
 The ordered map of the memtable: a red-black tree of linked nodes, updated in place.
 The ghost fields `nodes` and `tree` record which nodes make up the tree and its shape.
 */
module SortedMaps {
  import opened Wrappers
  import opened Keys
  import opened SortedEntries
  import opened RedBlackTree
  import opened RedBlackHeap

  class SortedMap<V> {
    var root: RBNode?<V>
    var count: nat
    ghost var nodes: set<RBNode<V>>
    ghost var tree: Tree<V>

    ghost function Memory(): Memory<V>
      reads this`nodes, nodes
    {
      Snapshot(nodes)
    }

    /** The linked nodes form the path and the focus. */
    ghost predicate Holds(p: Path<V>, t: Tree<V>)
      reads this`root, this`nodes, nodes
    {
      Shaped(Memory(), root, p, t)
    }

    ghost predicate Valid()
      reads this, nodes
    {
      Holds(Top, tree) && RedBlack(tree) && Sorted(InOrder(tree)) && count == |InOrder(tree)|
    }

    method SetColor(node: RBNode<V>, c: Color, ghost p: Path<V>, ghost t: Tree<V>)
      requires Holds(p, t) && t.Bin? && t.node == node
      modifies node`color
      ensures Holds(p, Paint(t, c))
    {
      ghost var m := Memory();
      ShapedMembers(m, root, p, t);
      node.color := c;
      assert Memory() == m[node := m[node].(color := c, value := t.value)];
      RelabelShaped(m, Memory(), root, p, t, c, t.value);
    }

    method SetValue(node: RBNode<V>, v: V, ghost p: Path<V>, ghost t: Tree<V>)
      requires Holds(p, t) && t.Bin? && t.node == node
      modifies node`value
      ensures Holds(p, t.(value := v))
    {
      ghost var m := Memory();
      ShapedMembers(m, root, p, t);
      node.value := v;
      assert Memory() == m[node := m[node].(color := t.color, value := v)];
      RelabelShaped(m, Memory(), root, p, t, t.color, v);
    }

    /** The assignments of `rotateLeft`, for a node that has a right child. */
    method RotateLeftLinks(ghost ns: set<RBNode<V>>, node: RBNode<V>, ghost y: RBNode<V>, ghost b: RBNode?<V>, ghost parent: RBNode?<V>)
      requires node in ns && node.right == y && node.parent == parent && y in ns && y.left == b
      requires (b != null ==> b in ns) && (parent != null ==> parent in ns)
      requires node != y && b != node && b != y && parent != node && parent != y && (parent != null ==> parent != b)
      modifies this`root, ns
      ensures RotatedLinks(old(Snapshot(ns)), Snapshot(ns), L, node, y, b, parent)
      ensures root == if parent == null then y else old(root)
    {
      var rightChild := node.right;
      node.right := rightChild.left;
      if rightChild.left != null {
        rightChild.left.parent := node;
      }
      rightChild.parent := node.parent;
      if node.parent == null {
        root := rightChild;
      } else if node == node.parent.left {
        node.parent.left := rightChild;
      } else {
        node.parent.right := rightChild;
      }
      rightChild.left := node;
      node.parent := rightChild;
    }

    /** The assignments of `rotateRight`, for a node that has a left child. */
    method RotateRightLinks(ghost ns: set<RBNode<V>>, node: RBNode<V>, ghost y: RBNode<V>, ghost b: RBNode?<V>, ghost parent: RBNode?<V>)
      requires node in ns && node.left == y && node.parent == parent && y in ns && y.right == b
      requires parent != null ==> (parent.left == node) != (parent.right == node)
      requires (b != null ==> b in ns) && (parent != null ==> parent in ns)
      requires node != y && b != node && b != y && parent != node && parent != y && (parent != null ==> parent != b)
      modifies this`root, ns
      ensures RotatedLinks(old(Snapshot(ns)), Snapshot(ns), R, node, y, b, parent)
      ensures root == if parent == null then y else old(root)
    {
      var leftChild := node.left;
      node.left := leftChild.right;
      if leftChild.right != null {
        leftChild.right.parent := node;
      }
      leftChild.parent := node.parent;
      if node.parent == null {
        root := leftChild;
      } else if node == node.parent.right {
        node.parent.right := leftChild;
      } else {
        node.parent.left := leftChild;
      }
      leftChild.right := node;
      node.parent := leftChild;
    }

    method RotateLeft(node: RBNode<V>, ghost p: Path<V>, ghost t: Tree<V>)
      requires Holds(p, t) && t.Bin? && t.node == node
      modifies this`root, nodes
      ensures Holds(p, Rotate(L, t))
    {
      ghost var m := Memory();
      ShapedMembers(m, root, p, t);
      if node.right == null { return; }
      ChildMembers(m, root, p, t, R);
      RotateLeftLinks(nodes, node, t.right.node, Root(t.right.left), ParentOf(p));
      RotateShaped(m, Memory(), old(root), p, t, L);
    }

    method RotateRight(node: RBNode<V>, ghost p: Path<V>, ghost t: Tree<V>)
      requires Holds(p, t) && t.Bin? && t.node == node
      modifies this`root, nodes
      ensures Holds(p, Rotate(R, t))
    {
      ghost var m := Memory();
      ShapedMembers(m, root, p, t);
      if node.left == null { return; }
      ChildMembers(m, root, p, t, L);
      RotateRightLinks(nodes, node, t.left.node, Root(t.left.right), ParentOf(p));
      RotateShaped(m, Memory(), old(root), p, t, R);
    }

    lemma FocusAt(node: RBNode<V>, p: Path<V>, t: Tree<V>)
      requires Holds(p, t) && t.Bin? && t.node == node
      ensures node.parent == ParentOf(p) && (p.Top? <==> root == node)
      ensures p.Step? ==> p.node.color == p.color && p.node.parent == ParentOf(p.up)
      ensures p.Step? ==> (p.side == L <==> p.node.left == node) && (p.side == R <==> p.node.right == node)
      ensures p.Step? ==> (p.side == L ==> p.node.right == Root(p.other)) && (p.side == R ==> p.node.left == Root(p.other))
    {
      ShapedMembers(Memory(), root, p, t);
    }

    /** Case 1 of `fixInsert`: parent and uncle turn black, the grandparent red. */
    method PushRedUp(parent: RBNode<V>, uncle: RBNode<V>, grandparent: RBNode<V>, ghost p: Path<V>, ghost t: Tree<V>)
      requires Holds(p, t) && !p.Top? && !p.up.Top? && p.up.other.Bin?
      requires parent == p.node && grandparent == p.up.node && uncle == p.up.other.node
      modifies nodes
      ensures Holds(p.up.up, PushedUp(p, t))
    {
      ghost var g, pt := p.up, Paint(Up1(p, t), Black);
      MoveFocus(Memory(), root, p, t);
      SetColor(parent, Black, g, Up1(p, t));
      MoveFocus(Memory(), root, g, pt);
      ghost var toUncle := Step(g.up, Opposite(g.side), g.color, g.node, g.value, pt);
      MoveFocus(Memory(), root, toUncle, g.other);
      SetColor(uncle, Black, toUncle, g.other);
      MoveFocus(Memory(), root, toUncle, Paint(g.other, Black));
      SetColor(grandparent, Red, g.up, Up1(g.(other := Paint(g.other, Black)), pt));
    }

    /** Recolouring of case 3 of `fixInsert`: the parent turns black, the grandparent red. */
    method PaintForRotation(parent: RBNode<V>, grandparent: RBNode<V>, ghost p: Path<V>, ghost t: Tree<V>)
      requires Holds(p, t) && !p.Top? && !p.up.Top? && parent == p.node && grandparent == p.up.node
      modifies nodes
      ensures Holds(p.up.up, PaintedForRotation(p, t))
    {
      MoveFocus(Memory(), root, p, t);
      SetColor(parent, Black, p.up, Up1(p, t));
      MoveFocus(Memory(), root, p.up, Paint(Up1(p, t), Black));
      SetColor(grandparent, Red, p.up.up, Up1(p.up, Paint(Up1(p, t), Black)));
    }

    static lemma InnerRotated(m: Memory<V>, r: RBNode?<V>, p: Path<V>, t: Tree<V>)
      requires InsertState(p, t) && UnderRed(p) && Shaped(m, r, p.up, Rotate(Opposite(p.side), Up1(p, t)))
      ensures Shaped(m, r, InnerPath(p, t), InnerFocus(p, t))
      ensures InsertState(InnerPath(p, t), InnerFocus(p, t)) && UnderRed(InnerPath(p, t))
      ensures InOrder(Plug(InnerPath(p, t), InnerFocus(p, t))) == InOrder(Plug(p, t))
    {
      RotateInnerKeeps(p, t);
      MoveFocus(m, r, InnerPath(p, t), InnerFocus(p, t));
      RotateKeepsOrder(Opposite(p.side), Up1(p, t));
      SameOrder(p.up, Up1(p, t), Rotate(Opposite(p.side), Up1(p, t)));
    }

    static lemma OuterRotated(m: Memory<V>, r: RBNode?<V>, p: Path<V>, t: Tree<V>)
      requires InsertState(p, t) && UnderRed(p) && !p.up.Top? && !IsRed(p.up.other) && p.side == p.up.side
      requires Shaped(m, r, p.up.up, Rotate(Opposite(p.side), PaintedForRotation(p, t)))
      ensures Shaped(m, r, OuterPath(p), t) && InsertState(OuterPath(p), t)
      ensures InOrder(Plug(OuterPath(p), t)) == InOrder(Plug(p, t))
    {
      RotateOuterKeeps(p, t);
      MoveFocus(m, r, OuterPath(p), t);
      var g := PaintedForRotation(p, t);
      RotateKeepsOrder(Opposite(p.side), g);
      SameOrder(p.up.up, Up2(p, t), Rotate(Opposite(p.side), g));
    }

    /** Cases 2 and 3 of `fixInsert` below the left child of the grandparent. */
    method FixInsertLeft(node: RBNode<V>, ghost p: Path<V>, ghost t: Tree<V>)
      returns (current: RBNode<V>, ghost p': Path<V>, ghost t': Tree<V>)
      requires Holds(p, t) && t.Bin? && t.node == node && InsertState(p, t)
      requires UnderRed(p) && !p.up.Top? && p.up.side == L && !IsRed(p.up.other)
      modifies this`root, nodes
      ensures Holds(p', t') && t'.Bin? && t'.node == current && InsertState(p', t')
      ensures InOrder(Plug(p', t')) == InOrder(Plug(p, t)) && Depth(p') < Depth(p)
    {
      hide Shaped, RedBlack, InsertState, InOrder;
      current, p', t' := node, p, t;
      FocusAt(node, p, t);
      if current == current.parent.right {
        current := current.parent;
        MoveFocus(Memory(), root, p, t);
        RotateLeft(current, p.up, Up1(p, t));
        p', t' := InnerPath(p, t), InnerFocus(p, t);
        InnerRotated(Memory(), root, p, t);
      }
      FocusAt(current, p', t');
      var parent, grandparent := current.parent, current.parent.parent;
      PaintForRotation(parent, grandparent, p', t');
      RotateRight(grandparent, p'.up.up, PaintedForRotation(p', t'));
      OuterRotated(Memory(), root, p', t');
      p' := OuterPath(p');
    }

    /** Cases 2 and 3 of `fixInsert` below the right child of the grandparent. */
    method FixInsertRight(node: RBNode<V>, ghost p: Path<V>, ghost t: Tree<V>)
      returns (current: RBNode<V>, ghost p': Path<V>, ghost t': Tree<V>)
      requires Holds(p, t) && t.Bin? && t.node == node && InsertState(p, t)
      requires UnderRed(p) && !p.up.Top? && p.up.side == R && !IsRed(p.up.other)
      modifies this`root, nodes
      ensures Holds(p', t') && t'.Bin? && t'.node == current && InsertState(p', t')
      ensures InOrder(Plug(p', t')) == InOrder(Plug(p, t)) && Depth(p') < Depth(p)
    {
      hide Shaped, RedBlack, InsertState, InOrder;
      current, p', t' := node, p, t;
      FocusAt(node, p, t);
      if current == current.parent.left {
        current := current.parent;
        MoveFocus(Memory(), root, p, t);
        RotateRight(current, p.up, Up1(p, t));
        p', t' := InnerPath(p, t), InnerFocus(p, t);
        InnerRotated(Memory(), root, p, t);
      }
      FocusAt(current, p', t');
      var parent, grandparent := current.parent, current.parent.parent;
      PaintForRotation(parent, grandparent, p', t');
      RotateLeft(grandparent, p'.up.up, PaintedForRotation(p', t'));
      OuterRotated(Memory(), root, p', t');
      p' := OuterPath(p');
    }

    /** One round of the loop of `fixInsert`. */
    method FixInsertStep(node: RBNode<V>, ghost p: Path<V>, ghost t: Tree<V>)
      returns (current: RBNode<V>, ghost p': Path<V>, ghost t': Tree<V>)
      requires Holds(p, t) && t.Bin? && t.node == node && InsertState(p, t) && UnderRed(p)
      modifies this`root, nodes
      ensures Holds(p', t') && t'.Bin? && t'.node == current && InsertState(p', t')
      ensures InOrder(Plug(p', t')) == InOrder(Plug(p, t)) && Depth(p') < Depth(p)
    {
      current, p', t' := node, p, t;
      FocusAt(node, p, t);
      var parent := node.parent;
      var grandparent := parent.parent;
      GrandparentExists(p, t);
      FocusUncle(Memory(), root, p, t);
      if grandparent == null { return; }
      var onLeft := parent == grandparent.left;
      var uncle := if onLeft then grandparent.right else grandparent.left;
      if uncle != null && uncle.color == Red {
        PushRedUp(parent, uncle, grandparent, p, t);
        PushUpKeeps(p, t);
        SameOrder(p.up.up, Up2(p, t), PushedUp(p, t));
        current, p', t' := grandparent, p.up.up, PushedUp(p, t);
      } else if onLeft {
        current, p', t' := FixInsertLeft(node, p, t);
      } else {
        current, p', t' := FixInsertRight(node, p, t);
      }
    }

    static lemma FocusUncle(m: Memory<V>, r: RBNode?<V>, p: Path<V>, t: Tree<V>)
      requires Shaped(m, r, p, t) && !p.Top? && !p.up.Top?
      ensures p.up.node in m && (m[p.up.node].left == p.node <==> p.up.side == L)
      ensures (if p.up.side == L then m[p.up.node].right else m[p.up.node].left) == Root(p.up.other)
      ensures p.up.other.Bin? ==> p.up.other.node in m && m[p.up.other.node].color == p.up.other.color
    {
      MoveFocus(m, r, p, t);
      ShapedMembers(m, r, p.up, Up1(p, t));
      assert Represents(m, p.up.other, p.up.node);
    }

    method FixInsert(node: RBNode<V>, ghost p0: Path<V>, ghost t0: Tree<V>)
      requires Holds(p0, t0) && t0.Bin? && t0.node == node && InsertState(p0, t0)
      modifies this`root, this`tree, nodes
      ensures Holds(Top, tree) && RedBlack(tree) && InOrder(tree) == InOrder(Plug(p0, t0))
    {
      var current := node;
      ghost var p, t := p0, t0;
      FocusAt(current, p, t);
      while current != root && current.parent != null && current.parent.color == Red
        invariant Holds(p, t) && t.Bin? && t.node == current && InsertState(p, t)
        invariant current.parent == ParentOf(p) && (p.Step? ==> p.node.color == p.color)
        invariant p.Top? <==> root == current
        invariant InOrder(Plug(p, t)) == InOrder(Plug(p0, t0))
        decreases Depth(p)
      {
        current, p, t := FixInsertStep(current, p, t);
        FocusAt(current, p, t);
      }
      FinishInsert(p, t);
    }

    /** The last assignment of `fixInsert`: the root turns black. */
    method FinishInsert(ghost p: Path<V>, ghost t: Tree<V>)
      requires Holds(p, t) && InsertState(p, t) && !UnderRed(p)
      modifies this`tree, nodes
      ensures Holds(Top, tree) && RedBlack(tree) && InOrder(tree) == InOrder(Plug(p, t))
    {
      InsertDone(p, t);
      PlugShaped(Memory(), root, p, t);
      PlugIsBin(p, t);
      ghost var whole := Plug(p, t);
      SetColor(root, Black, Top, whole);
      tree := Paint(whole, Black);
    }

    /** The parent of the focus, and its sibling with its children. */
    lemma FocusSibling(p: Path<V>, t: Tree<V>)
      requires Holds(p, t) && DeleteState(p, t) && p.Step?
      ensures p.node in nodes && p.node.color == p.color && p.node.parent == ParentOf(p.up)
      ensures p.other.Bin? && p.other.node in nodes && p.other.node.color == p.other.color
      ensures p.side == L ==> p.node.left == Root(t) && p.node.right == p.other.node
      ensures p.side == R ==> p.node.right == Root(t) && p.node.left == p.other.node
      ensures p.other.node.left == Root(p.other.left) && p.other.node.right == Root(p.other.right)
      ensures p.other.left.Bin? ==> p.other.left.node in nodes && p.other.left.node.color == p.other.left.color
      ensures p.other.right.Bin? ==> p.other.right.node in nodes && p.other.right.node.color == p.other.right.color
    {
      SiblingExists(p, t);
      ShapedMembers(Memory(), root, p, t);
      MoveToSibling(Memory(), root, p, t);
      ghost var q, s := AtSibling(p, t), p.other;
      ShapedMembers(Memory(), root, q, s);
      if s.left.Bin? { ChildMembers(Memory(), root, q, s, L); }
      if s.right.Bin? { ChildMembers(Memory(), root, q, s, R); }
    }

    lemma HeldRoot(t: Tree<V>)
      requires Holds(Top, t)
      ensures root == Root(t)
    {
    }

    method PaintSibling(sibling: RBNode<V>, c: Color, ghost p: Path<V>, ghost t: Tree<V>)
      requires Holds(p, t) && p.Step? && p.other.Bin? && p.other.node == sibling
      modifies sibling`color
      ensures Holds(p.(other := Paint(p.other, c)), t)
    {
      MoveToSibling(Memory(), root, p, t);
      SetColor(sibling, c, AtSibling(p, t), p.other);
      MoveToSibling(Memory(), root, p.(other := Paint(p.other, c)), t);
    }

    method PaintParent(parent: RBNode<V>, c: Color, ghost p: Path<V>, ghost t: Tree<V>)
      requires Holds(p, t) && p.Step? && p.node == parent
      modifies parent`color
      ensures Holds(p.(color := c), t)
    {
      MoveFocus(Memory(), root, p, t);
      SetColor(parent, c, p.up, Up1(p, t));
      MoveFocus(Memory(), root, p.(color := c), t);
    }

    /** Paint the sibling, and its child on the given side black. */
    method PaintNephew(sibling: RBNode<V>, nephew: RBNode<V>, c: Color, side: Side, ghost p: Path<V>, ghost t: Tree<V>)
      requires Holds(p, t) && p.Step? && p.other.Bin? && p.other.node == sibling
      requires Child(side, p.other).Bin? && Child(side, p.other).node == nephew
      modifies nodes
      ensures Holds(p.(other := PaintedChild(p.other, side, c, Black)), t)
    {
      ghost var s := p.other;
      ghost var q := Step(AtSibling(p, t), side, s.color, s.node, s.value, Child(Opposite(side), s));
      MoveToSibling(Memory(), root, p, t);
      MoveFocus(Memory(), root, q, Child(side, s));
      SetColor(nephew, Black, q, Child(side, s));
      MoveFocus(Memory(), root, q, Paint(Child(side, s), Black));
      ghost var p1 := p.(other := PaintedChild(s, side, s.color, Black));
      MoveToSibling(Memory(), root, p1, t);
      PaintSibling(sibling, c, p1, t);
    }

    /** What one round of the loop of `fixDelete` leaves behind. */
    ghost predicate DeleteRound(p: Path<V>, t: Tree<V>, done: bool, node: RBNode?<V>, parent: RBNode?<V>, p': Path<V>, t': Tree<V>)
      reads this`root, this`nodes, nodes
    {
      Holds(p', t') && node == Root(t') && InOrder(Plug(p', t')) == InOrder(Plug(p, t)) &&
      if done then p' == Top && RedBlack(t')
      else parent == ParentOf(p') && DeleteState(p', t') && (IsRed(t') || Depth(p') < Depth(p))
    }

    /** Red sibling of a left child: recolour and rotate left. */
    method LowerRedSiblingLeft(sibling: RBNode<V>, parent: RBNode<V>, ghost p: Path<V>, ghost t: Tree<V>)
      requires Holds(p, t) && DeleteState(p, t) && p.Step? && p.side == L && IsRed(p.other)
      requires parent == p.node && sibling == p.other.node
      modifies this`root, nodes
      ensures Holds(UnderRotatedSibling(p), t)
    {
      ghost var q := UnderRotatedSibling(p);
      RotateSiblingKeeps(p, t);
      PaintSibling(sibling, Black, p, t);
      PaintParent(parent, Red, p.(other := Paint(p.other, Black)), t);
      MoveFocus(Memory(), root, RecoloredSibling(p), t);
      RotateLeft(parent, p.up, Up1(RecoloredSibling(p), t));
      MoveFocus(Memory(), root, q.up, Up1(q, t));
      MoveFocus(Memory(), root, q, t);
    }

    /** Black sibling of a left child with a red inner child: recolour and rotate the sibling right. */
    method TurnRedOutwardLeft(sibling: RBNode<V>, inner: RBNode<V>, ghost p: Path<V>, ghost t: Tree<V>)
      requires Holds(p, t) && p.Step? && p.side == L && p.other.Bin? && p.other.node == sibling
      requires p.other.left.Bin? && p.other.left.node == inner
      modifies this`root, nodes
      ensures Holds(p.(other := RedOutward(L, p.other)), t)
    {
      PaintNephew(sibling, inner, Red, L, p, t);
      ghost var q := p.(other := PaintedChild(p.other, L, Red, Black));
      MoveToSibling(Memory(), root, q, t);
      RotateRight(sibling, AtSibling(q, t), q.other);
      MoveToSibling(Memory(), root, p.(other := RedOutward(L, p.other)), t);
    }

    /** Black sibling of a left child with a red outer child: recolour and rotate the parent left. */
    method RotateParentLeft(sibling: RBNode<V>, outer: RBNode<V>, parent: RBNode<V>, ghost p: Path<V>, ghost t: Tree<V>)
      requires Holds(p, t) && p.Step? && p.side == L && p.other.Bin? && p.other.node == sibling && p.node == parent
      requires p.other.right.Bin? && p.other.right.node == outer && parent.color == p.color
      modifies this`root, nodes
      ensures Holds(Top, Plug(p.up, Rotate(L, BeforeLastRotation(p, t))))
    {
      PaintNephew(sibling, outer, parent.color, R, p, t);
      ghost var q := p.(other := PaintedChild(p.other, R, p.color, Black));
      PaintParent(parent, Black, q, t);
      MoveFocus(Memory(), root, q.(color := Black), t);
      RotateLeft(parent, p.up, BeforeLastRotation(p, t));
      PlugShaped(Memory(), root, p.up, Rotate(L, BeforeLastRotation(p, t)));
    }

    /** One round of the loop of `fixDelete` for a left child. */
    method FixDeleteLeft(parent: RBNode<V>, ghost p: Path<V>, ghost t: Tree<V>)
      returns (done: bool, node': RBNode?<V>, parent': RBNode?<V>, ghost p': Path<V>, ghost t': Tree<V>)
      requires Holds(p, t) && DeleteState(p, t) && !IsRed(t) && p.Step? && p.side == L && parent == p.node
      modifies this`root, nodes
      ensures DeleteRound(p, t, done, node', parent', p', t')
    {
      ghost var q := p;
      var sibling := parent.right;
      FocusSibling(p, t);
      if sibling != null && sibling.color == Red {
        RotateSiblingKeeps(p, t);
        LowerRedSiblingLeft(sibling, parent, p, t);
        sibling := parent.right;
        q := UnderRotatedSibling(p);
      }
      FocusSibling(q, t);
      done, node', parent', p', t' := BlackSiblingLeft(sibling, parent, q, t);
    }

    /** The rest of the round, with a black sibling. */
    method BlackSiblingLeft(sibling0: RBNode?<V>, parent: RBNode<V>, ghost p: Path<V>, ghost t: Tree<V>)
      returns (done: bool, node': RBNode?<V>, parent': RBNode?<V>, ghost p': Path<V>, ghost t': Tree<V>)
      requires Holds(p, t) && DeleteState(p, t) && !IsRed(t) && p.Step? && p.side == L && parent == p.node
      requires sibling0 == Root(p.other) && !IsRed(p.other)
      modifies this`root, nodes
      ensures DeleteRound(p, t, done, node', parent', p', t')
      ensures !done ==> p' == p.up && t'.Bin? && t'.color == p.color
    {
      hide Shaped, DeleteState, RedBlack, InOrder;
      var sibling := sibling0;
      FocusSibling(p, t);
      if sibling == null { return false, null, parent, p, t; }
      if (sibling.left == null || sibling.left.color == Black) && (sibling.right == null || sibling.right.color == Black) {
        ghost var q := p.(other := Paint(p.other, Red));
        PaintSiblingKeeps(p, t);
        PaintSibling(sibling, Red, p, t);
        MoveFocus(Memory(), root, q, t);
        return false, parent, parent.parent, p.up, Up1(q, t);
      }
      ghost var q := p;
      if sibling.right == null || sibling.right.color == Black {
        RedOutwardKeeps(p, t);
        TurnRedOutwardLeft(sibling, sibling.left, p, t);
        sibling := parent.right;
        q := p.(other := RedOutward(L, p.other));
        FocusSibling(q, t);
      }
      LastRotationEnds(q, t);
      RotateParentLeft(sibling, sibling.right, parent, q, t);
      HeldRoot(Plug(q.up, Rotate(L, BeforeLastRotation(q, t))));
      return true, root, null, Top, Plug(q.up, Rotate(L, BeforeLastRotation(q, t)));
    }

    /** Red sibling of a right child: recolour and rotate right. */
    method LowerRedSiblingRight(sibling: RBNode<V>, parent: RBNode<V>, ghost p: Path<V>, ghost t: Tree<V>)
      requires Holds(p, t) && DeleteState(p, t) && p.Step? && p.side == R && IsRed(p.other)
      requires parent == p.node && sibling == p.other.node
      modifies this`root, nodes
      ensures Holds(UnderRotatedSibling(p), t)
    {
      ghost var q := UnderRotatedSibling(p);
      RotateSiblingKeeps(p, t);
      PaintSibling(sibling, Black, p, t);
      PaintParent(parent, Red, p.(other := Paint(p.other, Black)), t);
      MoveFocus(Memory(), root, RecoloredSibling(p), t);
      RotateRight(parent, p.up, Up1(RecoloredSibling(p), t));
      MoveFocus(Memory(), root, q.up, Up1(q, t));
      MoveFocus(Memory(), root, q, t);
    }

    /** Black sibling of a right child with a red inner child: recolour and rotate the sibling left. */
    method TurnRedOutwardRight(sibling: RBNode<V>, inner: RBNode<V>, ghost p: Path<V>, ghost t: Tree<V>)
      requires Holds(p, t) && p.Step? && p.side == R && p.other.Bin? && p.other.node == sibling
      requires p.other.right.Bin? && p.other.right.node == inner
      modifies this`root, nodes
      ensures Holds(p.(other := RedOutward(R, p.other)), t)
    {
      PaintNephew(sibling, inner, Red, R, p, t);
      ghost var q := p.(other := PaintedChild(p.other, R, Red, Black));
      MoveToSibling(Memory(), root, q, t);
      RotateLeft(sibling, AtSibling(q, t), q.other);
      MoveToSibling(Memory(), root, p.(other := RedOutward(R, p.other)), t);
    }

    /** Black sibling of a right child with a red outer child: recolour and rotate the parent right. */
    method RotateParentRight(sibling: RBNode<V>, outer: RBNode<V>, parent: RBNode<V>, ghost p: Path<V>, ghost t: Tree<V>)
      requires Holds(p, t) && p.Step? && p.side == R && p.other.Bin? && p.other.node == sibling && p.node == parent
      requires p.other.left.Bin? && p.other.left.node == outer && parent.color == p.color
      modifies this`root, nodes
      ensures Holds(Top, Plug(p.up, Rotate(R, BeforeLastRotation(p, t))))
    {
      PaintNephew(sibling, outer, parent.color, L, p, t);
      ghost var q := p.(other := PaintedChild(p.other, L, p.color, Black));
      PaintParent(parent, Black, q, t);
      MoveFocus(Memory(), root, q.(color := Black), t);
      RotateRight(parent, p.up, BeforeLastRotation(p, t));
      PlugShaped(Memory(), root, p.up, Rotate(R, BeforeLastRotation(p, t)));
    }

    /** One round of the loop of `fixDelete` for a right child. */
    method FixDeleteRight(parent: RBNode<V>, ghost p: Path<V>, ghost t: Tree<V>)
      returns (done: bool, node': RBNode?<V>, parent': RBNode?<V>, ghost p': Path<V>, ghost t': Tree<V>)
      requires Holds(p, t) && DeleteState(p, t) && !IsRed(t) && p.Step? && p.side == R && parent == p.node
      modifies this`root, nodes
      ensures DeleteRound(p, t, done, node', parent', p', t')
    {
      ghost var q := p;
      var sibling := parent.left;
      FocusSibling(p, t);
      if sibling != null && sibling.color == Red {
        RotateSiblingKeeps(p, t);
        LowerRedSiblingRight(sibling, parent, p, t);
        sibling := parent.left;
        q := UnderRotatedSibling(p);
      }
      FocusSibling(q, t);
      done, node', parent', p', t' := BlackSiblingRight(sibling, parent, q, t);
    }

    /** The rest of the round, with a black sibling. */
    method BlackSiblingRight(sibling0: RBNode?<V>, parent: RBNode<V>, ghost p: Path<V>, ghost t: Tree<V>)
      returns (done: bool, node': RBNode?<V>, parent': RBNode?<V>, ghost p': Path<V>, ghost t': Tree<V>)
      requires Holds(p, t) && DeleteState(p, t) && !IsRed(t) && p.Step? && p.side == R && parent == p.node
      requires sibling0 == Root(p.other) && !IsRed(p.other)
      modifies this`root, nodes
      ensures DeleteRound(p, t, done, node', parent', p', t')
      ensures !done ==> p' == p.up && t'.Bin? && t'.color == p.color
    {
      hide Shaped, DeleteState, RedBlack, InOrder;
      var sibling := sibling0;
      FocusSibling(p, t);
      if sibling == null { return false, null, parent, p, t; }
      if (sibling.right == null || sibling.right.color == Black) && (sibling.left == null || sibling.left.color == Black) {
        ghost var q := p.(other := Paint(p.other, Red));
        PaintSiblingKeeps(p, t);
        PaintSibling(sibling, Red, p, t);
        MoveFocus(Memory(), root, q, t);
        return false, parent, parent.parent, p.up, Up1(q, t);
      }
      ghost var q := p;
      if sibling.left == null || sibling.left.color == Black {
        RedOutwardKeeps(p, t);
        TurnRedOutwardRight(sibling, sibling.right, p, t);
        sibling := parent.left;
        q := p.(other := RedOutward(R, p.other));
        FocusSibling(q, t);
      }
      LastRotationEnds(q, t);
      RotateParentRight(sibling, sibling.left, parent, q, t);
      HeldRoot(Plug(q.up, Rotate(R, BeforeLastRotation(q, t))));
      return true, root, null, Top, Plug(q.up, Rotate(R, BeforeLastRotation(q, t)));
    }

    /** The key, if present, is in the focus: everything before it is smaller, everything after it greater. */
    ghost predicate Around(key: Key, p: Path<V>, t: Tree<V>)
      reads this`root, this`nodes, this`tree, nodes
    {
      Holds(p, t) && Plug(p, t) == tree && AllBelow(Before(p), key) && AllAbove(key, After(p)) &&
      (p.Step? ==> (p.side == L <==> Less(key, p.node.key)))
    }

    /** One step down towards the key keeps it around. */
    lemma Descend(key: Key, p: Path<V>, t: Tree<V>)
      requires Valid() && Around(key, p, t) && t.Bin? && key != t.node.key
      ensures var side := if Less(key, t.node.key) then L else R;
        Around(key, Step(p, side, t.color, t.node, t.value, Child(Opposite(side), t)), Child(side, t))
    {
      var side := if Less(key, t.node.key) then L else R;
      MoveFocus(Memory(), root, Step(p, side, t.color, t.node, t.value, Child(Opposite(side), t)), Child(side, t));
      InOrderPlug(p, t);
      LessTotal(key, t.node.key);
      SplitAround(key, Before(p), InOrder(t.left), Pair(t.node.key, t.value), InOrder(t.right), After(p));
    }

    static lemma SplitAround(key: Key, a: seq<Pair<V>>, l: seq<Pair<V>>, x: Pair<V>, r: seq<Pair<V>>, b: seq<Pair<V>>)
      requires Sorted(a + (l + [x] + r) + b) && AllBelow(a, key) && AllAbove(key, b)
      ensures Less(key, x.key) ==> AllAbove(key, [x] + r + b)
      ensures Less(x.key, key) ==> AllBelow(a + l + [x], key)
    {
      assert l + [x] + r == (a + (l + [x] + r) + b)[|a|..|a| + |l + [x] + r|];
      SortedSplit(l, x, r);
      if Less(key, x.key) {
        forall i | 0 <= i < |r| ensures Less(key, r[i].key) { LessTransitive(key, x.key, r[i].key); }
      }
      if Less(x.key, key) {
        forall i | 0 <= i < |l| ensures Less(l[i].key, key) { LessTransitive(l[i].key, x.key, key); }
      }
    }

    /** The map this tree stands for. */
    ghost function Map(): map<Key, V>
      reads this`tree
    {
      MapOf(InOrder(tree))
    }

    /** The walk down from the root that both lookup and insertion start with. */
    method Search(key: Key) returns (current: RBNode?<V>, parent: RBNode?<V>, ghost p: Path<V>, ghost t: Tree<V>)
      requires Valid()
      ensures Around(key, p, t) && current == Root(t) && parent == ParentOf(p)
      ensures current != null ==> current in nodes && current.key == key && current.value == t.value
      ensures root != null && current == null ==> parent != null
      ensures current == null <==> key !in Map()
      ensures current != null ==> Map()[key] == t.value
    {
      current, parent, p, t := root, null, Top, tree;
      while current != null
        invariant Around(key, p, t) && current == Root(t) && parent == ParentOf(p)
        invariant root != null && current == null ==> parent != null
        decreases t
      {
        ShapedMembers(Memory(), root, p, t);
        var cmp := CompareKeys(key, current.key);
        LessTotal(key, current.key);
        LessIrreflexive(key);
        if cmp == 0 { break; }
        Descend(key, p, t);
        parent := current;
        if cmp < 0 {
          current := current.left;
          p, t := Step(p, L, t.color, t.node, t.value, t.right), t.left;
        } else {
          current := current.right;
          p, t := Step(p, R, t.color, t.node, t.value, t.left), t.right;
        }
      }
      MapAtFocus(key, p, t);
    }

    static lemma MapAtFocus(key: Key, p: Path<V>, t: Tree<V>)
      requires AllBelow(Before(p), key) && AllAbove(key, After(p)) && Sorted(InOrder(Plug(p, t)))
      requires t.Bin? ==> t.node.key == key
      ensures key in MapOf(InOrder(Plug(p, t))) <==> t.Bin?
      ensures t.Bin? ==> MapOf(InOrder(Plug(p, t)))[key] == t.value
    {
      InOrderPlug(p, t);
      if t.Leaf? {
        KeyNotBelow(Before(p), key);
        KeyNotBelow(After(p), key);
        MapOfConcat(Before(p) + [], After(p));
        assert Before(p) + [] == Before(p);
      } else {
        Regroup2(Before(p), InOrder(t.left), [Pair(key, t.value)], InOrder(t.right), After(p));
        MapOfMiddle(Before(p) + InOrder(t.left), Pair(key, t.value), InOrder(t.right) + After(p));
      }
    }

    constructor ()
      ensures Valid() && Map() == map[] && fresh(nodes)
    {
      root, count, nodes, tree := null, 0, {}, Leaf;
    }

    method Clear()
      modifies this
      ensures Valid() && Map() == map[] && nodes == {}
    {
      root, count, nodes, tree := null, 0, {}, Leaf;
    }

    method Get(key: Key) returns (r: Option<V>)
      requires Valid()
      ensures r == if key in Map() then Some(Map()[key]) else None
    {
      var node, _, _, _ := Search(key);
      r := if node == null then None else Some(node.value);
    }

    method Set(key: Key, value: V)
      requires Valid()
      modifies this, nodes
      ensures Valid() && fresh(nodes - old(nodes))
      ensures Map() == old(Map())[key := value]
    {
      hide Valid, Around;
      var newNode := new RBNode(key, value);
      if root == null {
        InsertFirst(newNode);
        return;
      }
      var current, parent, p, t := Search(key);
      if current != null {
        UpdateAt(current, key, value, p, t);
      } else {
        InsertAt(newNode, parent, p);
      }
    }

    /** The first node of an empty tree is its black root. */
    method InsertFirst(newNode: RBNode<V>)
      requires Valid() && root == null
      requires newNode.color == Red && newNode.left == null && newNode.right == null && newNode.parent == null
      modifies this, newNode`color
      ensures Valid() && nodes == {newNode} && Map() == old(Map())[newNode.key := newNode.value]
    {
      assert tree == Leaf && Map() == map[];
      root := newNode;
      root.color := Black;
      count := count + 1;
      nodes, tree := {newNode}, Bin(Black, Leaf, newNode, newNode.value, Leaf);
      assert InOrder(tree) == [Pair(newNode.key, newNode.value)];
      MapOfOne(Pair(newNode.key, newNode.value));
      assert Map() == map[newNode.key := newNode.value];
      assert Represents(Memory(), tree, null) && Distinct(tree) && Memory().Keys == Nodes(tree);
    }

    /** The key exists: its node gets the new value. */
    method UpdateAt(current: RBNode<V>, key: Key, value: V, ghost p: Path<V>, ghost t: Tree<V>)
      requires Valid() && Around(key, p, t) && t.Bin? && current == t.node && current.key == key
      modifies this`tree, current`value
      ensures Valid() && Map() == old(Map())[key := value]
    {
      hide Shaped, RedBlack, InOrder, MapOf, Sorted, Before, After;
      ReplacedValue(key, value, p, t);
      SetValue(current, value, p, t);
      PlugShaped(Memory(), root, p, t.(value := value));
      tree := Plug(p, t.(value := value));
    }

    /** The key is new: a red node is hung below `parent`, and the balance is restored. */
    method InsertAt(newNode: RBNode<V>, parent: RBNode<V>, ghost p: Path<V>)
      requires Valid() && Around(newNode.key, p, Leaf) && p.Step? && parent == p.node && newNode !in nodes
      requires newNode.color == Red && newNode.left == null && newNode.right == null && newNode.parent == null
      modifies this, nodes, newNode
      ensures Valid() && nodes == old(nodes) + {newNode}
      ensures Map() == old(Map())[newNode.key := old(newNode.value)]
    {
      hide Shaped, RedBlack, InsertState, InOrder, MapOf, Sorted;
      ghost var key, value := newNode.key, newNode.value;
      InsertedLeaf(newNode, value, p);
      ShapedMembers(Memory(), root, p, Leaf);
      AttachNode(newNode, parent, value, p);
      FixInsert(newNode, p, Bin(Red, Leaf, newNode, value, Leaf));
    }

    method AttachNode(newNode: RBNode<V>, parent: RBNode<V>, ghost value: V, ghost p: Path<V>)
      requires Holds(p, Leaf) && p.Step? && parent == p.node && newNode !in nodes
      requires p.side == L <==> Less(newNode.key, parent.key)
      requires newNode.color == Red && newNode.left == null && newNode.right == null && newNode.value == value
      modifies this`nodes, this`count, parent`left, parent`right, newNode`parent
      ensures nodes == old(nodes) + {newNode} && count == old(count) + 1
      ensures Holds(p, Bin(Red, Leaf, newNode, value, Leaf))
    {
      hide Shaped;
      ghost var m := Memory();
      ShapedMembers(m, root, p, Leaf);
      newNode.parent := parent;
      if CompareKeys(newNode.key, parent.key) < 0 {
        parent.left := newNode;
      } else {
        parent.right := newNode;
      }
      count := count + 1;
      nodes := nodes + {newNode};
      AttachShaped(m, Memory(), root, p, newNode, value);
    }

    /** Giving the focus node another value binds its key to that value. */
    static lemma ReplacedValue(key: Key, value: V, p: Path<V>, t: Tree<V>)
      requires t.Bin? && t.node.key == key && RedBlack(Plug(p, t)) && Sorted(InOrder(Plug(p, t)))
      requires AllBelow(Before(p), key) && AllAbove(key, After(p))
      ensures var w := Plug(p, t.(value := value));
        RedBlack(w) && Sorted(InOrder(w)) && |InOrder(w)| == |InOrder(Plug(p, t))| &&
        MapOf(InOrder(w)) == MapOf(InOrder(Plug(p, t)))[key := value]
    {
      RedBlackPlug(p, t);
      RedBlackPlug(p, t.(value := value));
      InOrderPlug(p, t);
      InOrderPlug(p, t.(value := value));
      Regroup2(Before(p), InOrder(t.left), [Pair(key, t.value)], InOrder(t.right), After(p));
      Regroup2(Before(p), InOrder(t.left), [Pair(key, value)], InOrder(t.right), After(p));
      MapOfReplace(Before(p) + InOrder(t.left), Pair(key, t.value), value, InOrder(t.right) + After(p));
    }

    static lemma Regroup2<T>(a: seq<T>, b: seq<T>, c: seq<T>, d: seq<T>, e: seq<T>)
      ensures a + (b + c + d) + e == (a + b) + c + (d + e)
    {
    }

    /** A red node hung where the search ended starts the insertion fix-up and binds its key. */
    static lemma InsertedLeaf(z: RBNode<V>, value: V, p: Path<V>)
      requires RedBlack(Plug(p, Leaf)) && Sorted(InOrder(Plug(p, Leaf)))
      requires AllBelow(Before(p), z.key) && AllAbove(z.key, After(p))
      ensures var t := Bin(Red, Leaf, z, value, Leaf); var w := Plug(p, t);
        InsertState(p, t) && Sorted(InOrder(w)) && |InOrder(w)| == |InOrder(Plug(p, Leaf))| + 1 &&
        MapOf(InOrder(w)) == MapOf(InOrder(Plug(p, Leaf)))[z.key := value]
    {
      var t := Bin(Red, Leaf, z, value, Leaf);
      RedBlackPlug(p, Leaf);
      InOrderPlug(p, Leaf);
      InOrderPlug(p, t);
      assert InOrder(t) == [Pair(z.key, value)];
      assert Before(p) + [] + After(p) == Before(p) + After(p);
      SortedInsert(Before(p), Pair(z.key, value), After(p));
      MapOfInsert(Before(p), Pair(z.key, value), After(p));
    }

    /** One round of the loop of `fixDelete`. */
    method FixDeleteStep(node: RBNode?<V>, parent: RBNode<V>, ghost p: Path<V>, ghost t: Tree<V>)
      returns (done: bool, node': RBNode?<V>, parent': RBNode?<V>, ghost p': Path<V>, ghost t': Tree<V>)
      requires Holds(p, t) && DeleteState(p, t) && !IsRed(t) && p.Step? && parent == p.node && node == Root(t)
      modifies this`root, nodes
      ensures DeleteRound(p, t, done, node', parent', p', t')
      ensures p'.Top? <==> root == node'
      ensures node' != null ==> node'.color == t'.color
    {
      FocusSibling(p, t);
      if node == parent.left {
        done, node', parent', p', t' := FixDeleteLeft(parent, p, t);
      } else {
        done, node', parent', p', t' := FixDeleteRight(parent, p, t);
      }
      ShapedMembers(Memory(), root, p', t');
    }

    method FixDelete(node0: RBNode?<V>, parent0: RBNode?<V>, ghost p0: Path<V>, ghost t0: Tree<V>)
      requires Holds(p0, t0) && node0 == Root(t0) && parent0 == ParentOf(p0) && DeleteState(p0, t0)
      modifies this`root, this`tree, nodes
      ensures Holds(Top, tree) && RedBlack(tree) && InOrder(tree) == InOrder(Plug(p0, t0))
    {
      var node, parent, done := node0, parent0, false;
      ghost var p, t := p0, t0;
      ShapedMembers(Memory(), root, p, t);
      while node != root && (node == null || node.color == Black)
        invariant Holds(p, t) && node == Root(t) && (p.Top? <==> root == node)
        invariant node != null ==> node.color == t.color
        invariant parent == ParentOf(p) && DeleteState(p, t)
        invariant InOrder(Plug(p, t)) == InOrder(Plug(p0, t0))
        decreases if IsRed(t) then 0 else 1 + Depth(p)
      {
        if parent == null { break; }
        done, node, parent, p, t := FixDeleteStep(node, parent, p, t);
        if done { break; }
      }
      FinishDelete(node, p, t);
    }

    /** The last assignment of `fixDelete`: the node the loop ends at turns black. */
    method FinishDelete(node: RBNode?<V>, ghost p: Path<V>, ghost t: Tree<V>)
      requires Holds(p, t) && node == Root(t)
      requires (p == Top && RedBlack(t)) || (DeleteState(p, t) && (p.Top? || IsRed(t)))
      modifies this`tree, nodes
      ensures Holds(Top, tree) && RedBlack(tree) && InOrder(tree) == InOrder(Plug(p, t))
    {
      if !(p == Top && RedBlack(t)) {
        DeleteDone(p, t);
      }
      if node != null {
        RootInNodes(t);
        SetColor(node, Black, p, t);
      }
      PlugShaped(Memory(), root, p, Paint(t, Black));
      SameOrder(p, t, Paint(t, Black));
      tree := Plug(p, Paint(t, Black));
    }

    method Transplant(u: RBNode<V>, v: RBNode?<V>, ghost ns: set<RBNode<V>>, ghost parent: RBNode?<V>)
      requires u in ns && u.parent == parent && (parent != null ==> parent in ns) && (v != null ==> v in ns)
      requires parent != u && (v != null ==> v != u && v != parent)
      modifies this`root, ns
      ensures TransplantLinks(old(Snapshot(ns)), Snapshot(ns), u, v, parent) && unchanged(u)
      ensures root == if parent == null then v else old(root)
    {
      if u.parent == null {
        root := v;
      } else if u == u.parent.left {
        u.parent.left := v;
      } else {
        u.parent.right := v;
      }
      if v != null {
        v.parent := u.parent;
      }
    }

    /** A node with a missing child on the given side is replaced by its other child. */
    method SpliceOut(node: RBNode<V>, child: RBNode?<V>, side: Side, ghost p: Path<V>, ghost t: Tree<V>)
      requires Holds(p, t) && t.Bin? && t.node == node && Child(side, t) == Leaf && Root(Child(Opposite(side), t)) == child
      modifies this`root, this`nodes, nodes
      ensures nodes == old(nodes) - {node} && Holds(p, Child(Opposite(side), t)) && unchanged(node)
      ensures root == if p.Top? then child else old(root)
    {
      hide Shaped, TransplantLinks;
      ghost var m, ns, r := Memory(), nodes, Child(Opposite(side), t);
      ShapedMembers(m, root, p, t);
      if r.Bin? {
        ChildMembers(m, root, p, t, Opposite(side));
      }
      Transplant(node, child, nodes, ParentOf(p));
      SplicedShaped(m, Snapshot(ns), old(root), p, t, side);
      nodes := nodes - {node};
      assert Memory() == Snapshot(ns) - {node};
    }

    method Minimum(node: RBNode<V>, ghost base: Path<V>, ghost t: Tree<V>)
      returns (current: RBNode<V>, ghost e: Path<V>, ghost s: Tree<V>)
      requires Holds(base, t) && t.Bin? && t.node == node
      ensures Holds(Extend(base, e), s) && Plug(e, s) == t && AllLeft(e)
      ensures s.Bin? && s.node == current && s.left == Leaf
    {
      current, e, s := node, Top, t;
      ShapedMembers(Memory(), root, base, t);
      while current.left != null
        invariant Holds(Extend(base, e), s) && Plug(e, s) == t && AllLeft(e)
        invariant s.Bin? && s.node == current && current.left == Root(s.left)
        decreases s
      {
        current := current.left;
        e, s := Step(e, L, s.color, s.node, s.value, s.right), s.left;
        MoveFocus(Memory(), root, Extend(base, e), s);
        ShapedMembers(Memory(), root, Extend(base, e), s);
      }
    }

    method TakeLinks(node: RBNode<V>, y: RBNode<V>, ghost ns: set<RBNode<V>>, ghost parent: RBNode?<V>, ghost l: RBNode<V>)
      requires node in ns && y in ns && l in ns && node.parent == parent && node.left == l
      requires parent != null ==> parent in ns && parent != node && parent != y && parent != l
      requires y != node && y != l && l != node
      modifies this`root, ns
      ensures TookPlace(old(Snapshot(ns)), Snapshot(ns), node, y, l, parent)
      ensures root == if parent == null then y else old(root)
    {
      Transplant(node, y, ns, parent);
      y.left := node.left;
      y.left.parent := y;
      y.color := node.color;
    }

    /** The successor takes the place of the node: its parent, left child and colour. */
    method TakePlace(node: RBNode<V>, y: RBNode<V>, ghost m1: Memory<V>, ghost p: Path<V>, ghost t: Tree<V>, ghost yv: V)
      requires SuccessorReady(Memory(), m1, root, p, t, y, yv) && node == t.node
      modifies this`root, this`nodes, nodes
      ensures nodes == old(nodes) - {node} && Holds(p, t.(node := y, value := yv))
    {
      hide Shaped, TookPlace;
      ghost var m, ns := Memory(), nodes;
      SuccessorMembers(m, m1, root, p, t, y, yv);
      TakeLinks(node, y, nodes, ParentOf(p), t.left.node);
      TookPlaceShaped(m, Snapshot(ns), m1, old(root), p, t, y, yv);
      nodes := nodes - {node};
      assert Memory() == Snapshot(ns) - {node};
    }

    /** The successor, deeper in the right subtree, is spliced out and linked to that subtree. */
    method DetachSuccessor(node: RBNode<V>, y: RBNode<V>, ghost p: Path<V>, ghost t: Tree<V>, ghost e: Path<V>, ghost s: Tree<V>)
      returns (ghost m1: Memory<V>)
      requires t.Bin? && Holds(Below(p, t, e), s) && t.left.Bin? && t.node == node && t.right == Plug(e, s) && e.Step?
      requires s.Bin? && s.left == Leaf && s.node == y && y.right == Root(s.right) && y.value == s.value
      modifies this`root, this`nodes, nodes
      ensures nodes == old(nodes)
      ensures SuccessorReady(Memory(), m1, root, p, t.(right := Plug(e, s.right)), y, s.value)
    {
      hide Shaped, SuccessorReady, Represents;
      ShapedMembers(Memory(), root, Below(p, t, e), s);
      SpliceOut(y, y.right, L, Below(p, t, e), s);
      m1 := Memory();
      ghost var t1 := t.(right := Plug(e, s.right));
      MoveBelow(m1, root, p, t1, e, s.right);
      PlugStepIsBin(e, s.right);
      ShapedMembers(m1, root, p, t1);
      ChildMembers(m1, root, p, t1, R);
      LinkSuccessor(node, y, m1, p, t1, s.value);
    }

    method LinkSuccessor(node: RBNode<V>, y: RBNode<V>, ghost m1: Memory<V>, ghost p: Path<V>, ghost t: Tree<V>, ghost yv: V)
      requires m1 == Memory() && Holds(p, t) && t.Bin? && t.left.Bin? && t.right.Bin? && y !in nodes
      requires node == t.node && node in nodes && node.right == t.right.node && t.right.node in nodes && y.value == yv
      modifies this`nodes, y`right, nodes
      ensures nodes == old(nodes) + {y}
      ensures SuccessorReady(Memory(), m1, root, p, t, y, yv)
    {
      y.right := node.right;
      y.right.parent := y;
      nodes := nodes + {y};
      DeepReady(Memory(), m1, root, p, t, y, yv);
    }

    /** The two-children case of `deleteNode`. */
    method ReplaceBySuccessor(node: RBNode<V>, ghost p: Path<V>, ghost t: Tree<V>)
      returns (fixupNode: RBNode?<V>, fixupParent: RBNode?<V>, originalColor: Color, ghost e: Path<V>, ghost s: Tree<V>)
      requires Holds(p, t) && t.Bin? && t.left.Bin? && t.right.Bin? && t.node == node
      modifies this`root, this`nodes, nodes
      ensures t.right == Plug(e, s) && AllLeft(e) && s.Bin? && s.left == Leaf
      ensures nodes == old(nodes) - {node}
      ensures Holds(p, Bin(t.color, t.left, s.node, s.value, Plug(e, s.right)))
      ensures fixupNode == Root(s.right) && originalColor == s.color
      ensures fixupParent == if e.Step? then e.node else s.node
    {
      ShapedMembers(Memory(), root, p, t);
      var y;
      MoveFocus(Memory(), root, Step(p, R, t.color, node, t.value, t.left), t.right);
      y, e, s := Minimum(node.right, Step(p, R, t.color, node, t.value, t.left), t.right);
      ShapedMembers(Memory(), root, Below(p, t, e), s);
      originalColor := y.color;
      fixupNode := y.right;
      DirectSuccessor(Memory(), root, p, t, e, s);
      ghost var m1;
      if y.parent == node {
        fixupParent := y;
        m1 := WithoutRightChild(Memory(), node, y, Root(s.right));
        RightChildReady(Memory(), root, p, t);
      } else {
        fixupParent := y.parent;
        m1 := DetachSuccessor(node, y, p, t, e, s);
      }
      TakePlace(node, y, m1, p, t.(right := Plug(e, s.right)), s.value);
    }

    /** The node is taken out; the fix-up is still to come if a black node went missing. */
    method TakeOut(node: RBNode<V>, ghost p: Path<V>, ghost t: Tree<V>)
      returns (fixupNode: RBNode?<V>, fixupParent: RBNode?<V>, originalColor: Color, ghost p': Path<V>, ghost t': Tree<V>)
      requires Holds(p, t) && t.Bin? && t.node == node && RedBlack(Plug(p, t))
      modifies this`root, this`nodes, nodes
      ensures nodes == old(nodes) - {node} && Holds(p', t')
      ensures fixupNode == Root(t') && fixupParent == ParentOf(p') && RootTakenOut(p, t, originalColor, p', t')
    {
      ShapedMembers(Memory(), root, p, t);
      originalColor := node.color;
      if node.left == null {
        fixupNode, fixupParent := node.right, node.parent;
        SpliceOut(node, node.right, L, p, t);
        p', t' := p, t.right;
        TakenOutBySplice(p, t, L);
      } else if node.right == null {
        fixupNode, fixupParent := node.left, node.parent;
        SpliceOut(node, node.left, R, p, t);
        p', t' := p, t.left;
        TakenOutBySplice(p, t, R);
      } else {
        ghost var e, s;
        fixupNode, fixupParent, originalColor, e, s := ReplaceBySuccessor(node, p, t);
        TakenOutBySuccessor(Memory(), root, p, t, e, s);
        p', t' := Below(p, Bin(t.color, t.left, s.node, s.value, Plug(e, s.right)), e), s.right;
      }
    }

    method DeleteNode(node: RBNode<V>, ghost p: Path<V>, ghost t: Tree<V>)
      requires Holds(p, t) && t.Bin? && t.node == node && RedBlack(Plug(p, t))
      modifies this`root, this`nodes, this`tree, nodes
      ensures nodes == old(nodes) - {node} && Holds(Top, tree) && RedBlack(tree)
      ensures InOrder(tree) == Before(p) + (InOrder(t.left) + InOrder(t.right)) + After(p)
    {
      hide Shaped, RedBlack, InOrder;
      var fixupNode, fixupParent, originalColor, p', t' := TakeOut(node, p, t);
      if originalColor == Black {
        FixDelete(fixupNode, fixupParent, p', t');
      } else {
        PlugShaped(Memory(), root, p', t');
        tree := Plug(p', t');
      }
    }

    method Delete(key: Key) returns (found: bool)
      requires Valid()
      modifies this, nodes
      ensures Valid() && nodes <= old(nodes)
      ensures found == (key in old(Map())) && Map() == old(Map()) - {key}
    {
      hide Shaped, RedBlack, InOrder, MapOf, Sorted;
      var node, _, p, t := Search(key);
      if node == null {
        return false;
      }
      RemovedNode(p, t);
      DeleteNode(node, p, t);
      count := count - 1;
      return true;
    }

    static lemma RemovedNode(p: Path<V>, t: Tree<V>)
      requires t.Bin? && Sorted(InOrder(Plug(p, t)))
      ensures var w := Before(p) + (InOrder(t.left) + InOrder(t.right)) + After(p);
        Sorted(w) && |w| == |InOrder(Plug(p, t))| - 1 && MapOf(w) == MapOf(InOrder(Plug(p, t))) - {t.node.key}
    {
      hide Plug, MapOf, Before, After;
      InOrderPlug(p, t);
      var a, l, x, r, b := Before(p), InOrder(t.left), Pair(t.node.key, t.value), InOrder(t.right), After(p);
      Regroup2(a, l, [x], r, b);
      assert a + (l + r) + b == (a + l) + (r + b);
      MapOfReplace(a + l, x, t.value, r + b);
    }

    // ----- Traversals -----

    method InOrderTraversal(node: RBNode?<V>, acc: seq<Pair<V>>, ghost t: Tree<V>, ghost parent: RBNode?<V>)
      returns (result: seq<Pair<V>>)
      requires Represents(Memory(), t, parent) && node == Root(t)
      ensures result == acc + InOrder(t)
      decreases t
    {
      if node == null { return acc; }
      result := InOrderTraversal(node.left, acc, t.left, node);
      result := result + [Pair(node.key, node.value)];
      result := InOrderTraversal(node.right, result, t.right, node);
    }

    /** All pairs in key order. */
    method Entries() returns (result: seq<Pair<V>>)
      requires Valid()
      ensures Sorted(result) && MapOf(result) == Map() && |result| == count
    {
      result := InOrderTraversal(root, [], tree, null);
      assert result == InOrder(tree);
    }

    method RangeTraversal(node: RBNode?<V>, lo: Key, hi: Key, acc: seq<Pair<V>>, ghost t: Tree<V>, ghost parent: RBNode?<V>)
      returns (result: seq<Pair<V>>)
      requires Represents(Memory(), t, parent) && node == Root(t) && Sorted(InOrder(t))
      ensures result == acc + RangeOf(InOrder(t), lo, hi)
      decreases t
    {
      if node == null { return acc; }
      var cmpStart, cmpEnd := CompareKeys(node.key, lo), CompareKeys(node.key, hi);
      PrunedRange(InOrder(t.left), Pair(t.node.key, t.value), InOrder(t.right), lo, hi);
      ghost var inLeft, inRight := RangeOf(InOrder(t.left), lo, hi), RangeOf(InOrder(t.right), lo, hi);
      result := acc;
      if cmpStart > 0 {
        result := RangeTraversal(node.left, lo, hi, result, t.left, node);
      }
      assert result == acc + inLeft;
      if cmpStart >= 0 && cmpEnd <= 0 {
        result := result + [Pair(node.key, node.value)];
      }
      ghost var mid := if InRange(node.key, lo, hi) then [Pair(node.key, node.value)] else [];
      assert result == acc + inLeft + mid;
      if cmpEnd < 0 {
        result := RangeTraversal(node.right, lo, hi, result, t.right, node);
      }
      assert result == acc + inLeft + mid + inRight;
      Append3(acc, inLeft, mid, inRight);
    }

    static lemma Append3<T>(a: seq<T>, b: seq<T>, c: seq<T>, d: seq<T>)
      ensures a + b + c + d == a + (b + c + d)
    {
    }

    /** Each pruned subtree has nothing in the range. */
    static lemma PrunedRange(l: seq<Pair<V>>, x: Pair<V>, r: seq<Pair<V>>, lo: Key, hi: Key)
      requires Sorted(l + [x] + r)
      ensures Sorted(l) && Sorted(r)
      ensures RangeOf(l + [x] + r, lo, hi) ==
        RangeOf(l, lo, hi) + (if InRange(x.key, lo, hi) then [x] else []) + RangeOf(r, lo, hi)
      ensures CompareKeys(x.key, lo) <= 0 ==> RangeOf(l, lo, hi) == []
      ensures CompareKeys(x.key, hi) >= 0 ==> RangeOf(r, lo, hi) == []
      ensures InRange(x.key, lo, hi) <==> CompareKeys(x.key, lo) >= 0 && CompareKeys(x.key, hi) <= 0
    {
      SortedSplit(l, x, r);
      RangeOfConcat(l + [x], r, lo, hi);
      RangeOfConcat(l, [x], lo, hi);
      assert RangeOf([x][..0], lo, hi) == [];
      CompareLaws(x.key, lo);
      CompareLaws(x.key, hi);
      if AtMost(x.key, lo) { RangeOfOutside(l, x.key, lo, hi); }
      if AtMost(hi, x.key) { RangeOfOutside(r, x.key, lo, hi); }
    }

    /** The pairs whose keys lie in [lo, hi], in key order. */
    method Range(lo: Key, hi: Key) returns (result: seq<Pair<V>>)
      requires Valid()
      ensures Sorted(result) && MapOf(result) == Restrict(Map(), lo, hi)
    {
      result := RangeTraversal(root, lo, hi, [], tree, null);
      assert result == RangeOf(InOrder(tree), lo, hi);
      RangeOfMap(InOrder(tree), lo, hi);
    }
  }
}
