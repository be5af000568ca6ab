/** adx_rbtree.c on linked nodes: rotations, insert, delete and search. */
module RbTree {
  import opened RbShape
  import opened RbLinks
  import opened RbOrder
  import opened Powers

  class RbTree<K(!new,==)> {
    const cmp: (K, K) -> int
    var root: RbNode?<K>
    ghost var Repr: set<RbNode<K>>
    ghost var shape: Shape<K>

    constructor (cmp: (K, K) -> int)
      requires TotalOrder(cmp)
      ensures Valid() && Order() == [] && Repr == {} && this.cmp == cmp
    {
      this.cmp := cmp;
      root, Repr, shape := null, {}, Leaf;
    }

    ghost predicate Valid()
      reads this, Repr
    {
      At(Top, shape) && RedBlack(shape) && Ordered(cmp, Items(shape)) && TotalOrder(cmp)
    }

    /** The nodes in key order. */
    ghost function Order(): seq<RbNode<K>>
      reads this
    {
      Items(shape)
    }

    ghost function Fields(): (m: Store<K>)
      reads this`Repr, Repr
      ensures m.Keys == Repr
    {
      map n | n in Repr :: Links(n.left, n.right, n.parent, n.color)
    }

    /** The nodes of the tree are exactly the subtree t inside the frames c. */
    ghost predicate At(c: Frames<K>, t: Shape<K>)
      reads this`root, this`Repr, Repr
    {
      RepAt(Fields(), root, c, t)
    }

    lemma Up(c: Frames<K>, t: Shape<K>)
      requires At(c, t) && !c.Top?
      ensures At(c.up, Close(c, t))
    {
      Rise(Fields(), root, c, t);
    }

    lemma UpAll(c: Frames<K>, t: Shape<K>)
      requires At(c, t)
      ensures At(Top, Plug(c, t))
    {
      RiseToTop(Fields(), root, c, t);
    }

    lemma NotHead(c: Frames<K>, t: Shape<K>)
      requires At(c, t)
      ensures root == Root(t) <==> c.Top?
    {
      if !c.Top? {
        HeadOnPath(Fields(), c, root, Root(t));
      }
    }

    lemma Down(s: Side, c: Frames<K>, t: Shape<K>)
      requires At(c, t) && t.Node?
      ensures At(Frame(s, c, t.item, t.color, Far(s, t)), Near(s, t))
    {
      Sink(Fields(), root, c, t);
    }

    /** The fields of the node at hand, and what lies around it. */
    lemma Look(c: Frames<K>, t: Shape<K>)
      requires At(c, t)
      ensures t.Node? ==> t.item in Repr && t.item.parent == Parent(c) && t.item.color == t.color
      ensures t.Node? ==> t.item.left == Root(t.left) && t.item.right == Root(t.right)
      ensures !c.Top? ==> c.item in Repr && c.item.color == c.color && c.item.parent == Parent(c.up)
      ensures !c.Top? ==> c.item.left == (if c.InLeft? then Root(t) else Root(c.left))
      ensures !c.Top? ==> c.item.right == (if c.InLeft? then Root(c.right) else Root(t))
      ensures !c.Top? && t.Node? ==> Root(Sibling(c)) != t.item
      ensures c.Top? ==> root == Root(t)
    {
      if t.Node? {
        assert Fields()[t.item].color == t.color;
      }
      if !c.Top? {
        assert Fields()[c.item].color == c.color;
      }
    }

    /** The writes of adx_rbtree_rotate_left. */
    method RotateLeftLinks(node: RbNode<K>)
      requires node.right != null && node.right != node && node.parent != node && node.parent != node.right
      requires node.right.left != null ==> node.right.left !in {node, node.right} && node.right.left != node.parent
      modifies this`root, node, node.right, node.right.left, node.parent
      ensures node.left == old(node.left) && node.right == old(node.right.left)
      ensures node.parent == old(node.right) && node.color == old(node.color)
      ensures old(node.right).left == node && old(node.right).right == old(node.right.right)
      ensures old(node.right).parent == old(node.parent) && old(node.right).color == old(node.right.color)
      ensures var b := old(node.right.left); b != null ==>
        b.left == old(b.left) && b.right == old(b.right) && b.parent == node && b.color == old(b.color)
      ensures root == if old(node.parent) == null then old(node.right) else old(root)
      ensures var p := old(node.parent); p != null ==>
        && p.parent == old(p.parent) && p.color == old(p.color)
        && p.left == (if old(p.left) == node then old(node.right) else old(p.left))
        && p.right == (if old(p.left) == node then old(p.right) else old(node.right))
    {
      var right := node.right;
      var parent := node.parent;
      node.right := right.left;
      if right.left != null {
        right.left.parent := node;
      }
      right.left := node;
      right.parent := parent;
      if parent != null {
        if node == parent.left {
          parent.left := right;
        } else {
          parent.right := right;
        }
      } else {
        root := right;
      }
      node.parent := right;
    }

    method RotateLeft(node: RbNode<K>, ghost c: Frames<K>, ghost t: Shape<K>)
      requires At(c, t) && t.Node? && t.item == node && t.right.Node?
      modifies this`root, Repr
      ensures At(c, LeftRotated(t))
    {
      hide TreeRep, PathRep, Nodes, PathNodes, RepAt;
      Here(Fields(), root, c, t);
      Sink(Fields(), root, c, t);
      Here(Fields(), root, RightFrame(c, t), t.right);
      if !c.Top? {
        GrandchildrenApart(Fields(), root, c, t);
      }
      RotateLeftLinks(node);
      Turn(Left, old(Fields()), Fields(), old(root), root, c, t);
    }

    /** The writes of adx_rbtree_rotate_right. */
    method RotateRightLinks(node: RbNode<K>)
      requires node.left != null && node.left != node && node.parent != node && node.parent != node.left
      requires node.left.right != null ==> node.left.right !in {node, node.left} && node.left.right != node.parent
      modifies this`root, node, node.left, node.left.right, node.parent
      ensures node.right == old(node.right) && node.left == old(node.left.right)
      ensures node.parent == old(node.left) && node.color == old(node.color)
      ensures old(node.left).right == node && old(node.left).left == old(node.left.left)
      ensures old(node.left).parent == old(node.parent) && old(node.left).color == old(node.left.color)
      ensures var b := old(node.left.right); b != null ==>
        b.left == old(b.left) && b.right == old(b.right) && b.parent == node && b.color == old(b.color)
      ensures root == if old(node.parent) == null then old(node.left) else old(root)
      ensures var p := old(node.parent); p != null ==>
        && p.parent == old(p.parent) && p.color == old(p.color)
        && p.right == (if old(p.right) == node then old(node.left) else old(p.right))
        && p.left == (if old(p.right) == node then old(p.left) else old(node.left))
    {
      var left := node.left;
      var parent := node.parent;
      node.left := left.right;
      if left.right != null {
        left.right.parent := node;
      }
      left.right := node;
      left.parent := parent;
      if parent != null {
        if node == parent.right {
          parent.right := left;
        } else {
          parent.left := left;
        }
      } else {
        root := left;
      }
      node.parent := left;
    }

    method RotateRight(node: RbNode<K>, ghost c: Frames<K>, ghost t: Shape<K>)
      requires At(c, t) && t.Node? && t.item == node && t.left.Node?
      modifies this`root, Repr
      ensures At(c, RightRotated(t))
    {
      hide TreeRep, PathRep, Nodes, PathNodes, RepAt;
      Here(Fields(), root, c, t);
      Sink(Fields(), root, c, t);
      Here(Fields(), root, LeftFrame(c, t), t.left);
      if !c.Top? {
        GrandchildrenApart(Fields(), root, c, t);
      }
      RotateRightLinks(node);
      Turn(Right, old(Fields()), Fields(), old(root), root, c, t);
    }

    /** rb_set_red, rb_set_black and adx_rbtree_set_color. */
    method SetColor(node: RbNode<K>, color: Color, ghost c: Frames<K>, ghost t: Shape<K>)
      requires At(c, t) && t.Node? && t.item == node
      modifies Repr`color
      ensures At(c, Painted(t, color))
    {
      Here(Fields(), root, c, t);
      hide TreeRep, PathRep, Nodes, PathNodes, RepAt;
      node.color := color;
      Paint(old(Fields()), Fields(), root, c, t, color);
    }

    /** Parent and uncle black, grandparent red. */
    method Recolor(uncle: RbNode<K>, parent: RbNode<K>, gparent: RbNode<K>,
                   ghost s: Side, ghost c: Frames<K>, ghost g: Shape<K>)
      requires At(c, g) && g.Node? && g.item == gparent && Root(Near(s, g)) == parent && Root(Far(s, g)) == uncle
      modifies Repr`color
      ensures At(c, Recolored(g))
    {
      hide RepAt, At;
      Down(s.Other(), c, g);
      SetColor(uncle, Black, Frame(s.Other(), c, g.item, g.color, Near(s, g)), Far(s, g));
      Up(Frame(s.Other(), c, g.item, g.color, Near(s, g)), Painted(Far(s, g), Black));
      ghost var g1 := Make(s, Near(s, g), g.item, g.color, Painted(Far(s, g), Black));
      Down(s, c, g1);
      SetColor(parent, Black, Frame(s, c, g.item, g.color, Far(s, g1)), Near(s, g));
      Up(Frame(s, c, g.item, g.color, Far(s, g1)), Painted(Near(s, g), Black));
      SetColor(gparent, Red, c, Make(s, Painted(Near(s, g), Black), g.item, g.color, Far(s, g1)));
    }

    /** Parent black, grandparent red, turn the grandparent; the parent is its left child. */
    method RaiseLeft(parent: RbNode<K>, gparent: RbNode<K>, ghost c: Frames<K>, ghost g: Shape<K>)
      requires At(c, g) && g.Node? && g.item == gparent && Root(g.left) == parent
      modifies this`root, Repr
      ensures At(c, Raised(Left, g))
    {
      hide RepAt, At;
      Down(Left, c, g);
      SetColor(parent, Black, Frame(Left, c, g.item, g.color, g.right), g.left);
      Up(Frame(Left, c, g.item, g.color, g.right), Painted(g.left, Black));
      ghost var g1 := Make(Left, Painted(g.left, Black), g.item, g.color, g.right);
      SetColor(gparent, Red, c, g1);
      RotateRight(gparent, c, Painted(g1, Red));
    }

    method RaiseRight(parent: RbNode<K>, gparent: RbNode<K>, ghost c: Frames<K>, ghost g: Shape<K>)
      requires At(c, g) && g.Node? && g.item == gparent && Root(g.right) == parent
      modifies this`root, Repr
      ensures At(c, Raised(Right, g))
    {
      hide RepAt, At;
      Down(Right, c, g);
      SetColor(parent, Black, Frame(Right, c, g.item, g.color, g.left), g.right);
      Up(Frame(Right, c, g.item, g.color, g.left), Painted(g.right, Black));
      ghost var g1 := Make(Right, Painted(g.right, Black), g.item, g.color, g.left);
      SetColor(gparent, Red, c, g1);
      RotateLeft(gparent, c, Painted(g1, Red));
    }

    /** What the insert loop keeps: all keys in order, and one red node that may be at fault. */
    ghost predicate Inserting(node: RbNode<K>, c: Frames<K>, t: Shape<K>, h: nat, all: seq<RbNode<K>>)
      reads this, Repr
    {
      At(c, t) && Root(t) == node && InsertOk(c, t, h) && Flat(c, t) == all
    }

    /** A node that is the right child of a red left child changes places with its parent. */
    method TurnInnerLeft(node: RbNode<K>, parent: RbNode<K>,
                         ghost c: Frames<K>, ghost t: Shape<K>, ghost h: nat)
      returns (ghost c': Frames<K>, ghost t': Shape<K>)
      requires Inserting(node, c, t, h, Flat(c, t)) && c.InRight? && c.color.Red? && parent == c.item
      modifies this`root, Repr
      ensures Inserting(parent, c', t', h, Flat(c, t)) && c'.InLeft? && c'.color.Red?
      ensures c'.item == node && c'.up == c.up
    {
      hide RepAt, At, Flat, Rb, PathOk;
      ghost var r := LeftRotated(Close(c, t));
      Look(c, t);
      Up(c, t);
      RotateLeft(parent, c.up, Close(c, t));
      InnerOk(Left, c, t, h);
      Down(Left, c.up, r);
      c', t' := LeftFrame(c.up, r), r.left;
    }

    /** A red left child of a red left child: the parent is lifted over the grandparent. */
    method LiftOuterLeft(node: RbNode<K>, parent: RbNode<K>, gparent: RbNode<K>,
                         ghost c: Frames<K>, ghost t: Shape<K>, ghost h: nat)
      returns (ghost c': Frames<K>)
      requires Inserting(node, c, t, h, Flat(c, t)) && c.InLeft? && c.color.Red? && c.up.InLeft?
      requires !IsRed(c.up.right) && parent == c.item && gparent == c.up.item
      modifies this`root, Repr
      ensures Inserting(node, c', t, h, Flat(c, t)) && Depth(c') < Depth(c)
    {
      hide RepAt, At, Flat, Rb, PathOk;
      ghost var r := Raised(Left, Grand(c, t));
      Up(c, t);
      Up(c.up, Close(c, t));
      RaiseOk(Left, c, t, h);
      RaiseLeft(parent, gparent, c.up.up, Grand(c, t));
      Down(Left, c.up.up, r);
      c' := LeftFrame(c.up.up, r);
      FlatClose(c', t);
    }

    /** One round of the insert loop for a red parent that is a left child. */
    method InsertUnderLeft(node: RbNode<K>, parent: RbNode<K>, gparent: RbNode<K>,
                           ghost c: Frames<K>, ghost t: Shape<K>, ghost h: nat)
      returns (next: RbNode<K>, ghost c': Frames<K>, ghost t': Shape<K>, ghost h': nat)
      requires Inserting(node, c, t, h, Flat(c, t)) && !c.Top? && c.color.Red? && c.up.InLeft?
      requires parent == c.item && gparent == c.up.item
      modifies this`root, Repr
      ensures Inserting(next, c', t', h', Flat(c, t)) && Depth(c') < Depth(c)
    {
      hide RepAt, At, Flat, Rb, PathOk;
      ghost var cc, g := c.up.up, Grand(c, t);
      Look(c, t);
      Up(c, t);
      Up(c.up, Close(c, t));
      Look(cc, g);
      Down(Right, cc, g);
      Look(RightFrame(cc, g), g.right);
      var uncle := gparent.right;
      if uncle != null && uncle.color.Red? {
        Recolor(uncle, parent, gparent, Left, cc, g);
        RecolorOk(c, t, h);
        return gparent, cc, Recolored(g), h + 1;
      }
      h' := h;
      if parent.right == node {
        c', t' := TurnInnerLeft(node, parent, c, t, h);
        next := parent;
        c' := LiftOuterLeft(next, node, gparent, c', t', h);
      } else {
        next, t' := node, t;
        c' := LiftOuterLeft(next, parent, gparent, c, t, h);
      }
    }

    /** A node that is the left child of a red right child changes places with its parent. */
    method TurnInnerRight(node: RbNode<K>, parent: RbNode<K>,
                          ghost c: Frames<K>, ghost t: Shape<K>, ghost h: nat)
      returns (ghost c': Frames<K>, ghost t': Shape<K>)
      requires Inserting(node, c, t, h, Flat(c, t)) && c.InLeft? && c.color.Red? && parent == c.item
      modifies this`root, Repr
      ensures Inserting(parent, c', t', h, Flat(c, t)) && c'.InRight? && c'.color.Red?
      ensures c'.item == node && c'.up == c.up
    {
      hide RepAt, At, Flat, Rb, PathOk;
      ghost var r := RightRotated(Close(c, t));
      Look(c, t);
      Up(c, t);
      RotateRight(parent, c.up, Close(c, t));
      InnerOk(Right, c, t, h);
      Down(Right, c.up, r);
      c', t' := RightFrame(c.up, r), r.right;
    }

    /** A red right child of a red right child: the parent is lifted over the grandparent. */
    method LiftOuterRight(node: RbNode<K>, parent: RbNode<K>, gparent: RbNode<K>,
                          ghost c: Frames<K>, ghost t: Shape<K>, ghost h: nat)
      returns (ghost c': Frames<K>)
      requires Inserting(node, c, t, h, Flat(c, t)) && c.InRight? && c.color.Red? && c.up.InRight?
      requires !IsRed(c.up.left) && parent == c.item && gparent == c.up.item
      modifies this`root, Repr
      ensures Inserting(node, c', t, h, Flat(c, t)) && Depth(c') < Depth(c)
    {
      hide RepAt, At, Flat, Rb, PathOk;
      ghost var r := Raised(Right, Grand(c, t));
      Up(c, t);
      Up(c.up, Close(c, t));
      RaiseOk(Right, c, t, h);
      RaiseRight(parent, gparent, c.up.up, Grand(c, t));
      Down(Right, c.up.up, r);
      c' := RightFrame(c.up.up, r);
      FlatClose(c', t);
    }

    /** One round of the insert loop for a red parent that is a right child. */
    method InsertUnderRight(node: RbNode<K>, parent: RbNode<K>, gparent: RbNode<K>,
                            ghost c: Frames<K>, ghost t: Shape<K>, ghost h: nat)
      returns (next: RbNode<K>, ghost c': Frames<K>, ghost t': Shape<K>, ghost h': nat)
      requires Inserting(node, c, t, h, Flat(c, t)) && !c.Top? && c.color.Red? && c.up.InRight?
      requires parent == c.item && gparent == c.up.item
      modifies this`root, Repr
      ensures Inserting(next, c', t', h', Flat(c, t)) && Depth(c') < Depth(c)
    {
      hide RepAt, At, Flat, Rb, PathOk;
      ghost var cc, g := c.up.up, Grand(c, t);
      Look(c, t);
      Up(c, t);
      Up(c.up, Close(c, t));
      Look(cc, g);
      Down(Left, cc, g);
      Look(LeftFrame(cc, g), g.left);
      var uncle := gparent.left;
      if uncle != null && uncle.color.Red? {
        Recolor(uncle, parent, gparent, Right, cc, g);
        RecolorOk(c, t, h);
        return gparent, cc, Recolored(g), h + 1;
      }
      h' := h;
      if parent.left == node {
        c', t' := TurnInnerRight(node, parent, c, t, h);
        next := parent;
        c' := LiftOuterRight(next, node, gparent, c', t', h);
      } else {
        next, t' := node, t;
        c' := LiftOuterRight(next, parent, gparent, c, t, h);
      }
    }

    method InsertColor(start: RbNode<K>, ghost c0: Frames<K>, ghost t0: Shape<K>, ghost h0: nat)
      returns (ghost t: Shape<K>)
      requires Inserting(start, c0, t0, h0, Flat(c0, t0))
      modifies this`root, Repr
      ensures At(Top, t) && RedBlack(t) && Items(t) == Flat(c0, t0)
    {
      hide RepAt, At, Flat, Rb, PathOk;
      var node := start;
      ghost var c, h := c0, h0;
      t := t0;
      Look(c, t);
      while node.parent != null && node.parent.color.Red?
        invariant Inserting(node, c, t, h, Flat(c0, t0))
        invariant t.Node? && node.parent == Parent(c) && (c.Top? || c.item.color == c.color)
        decreases Depth(c)
      {
        var parent := node.parent;
        RedFrame(c, h);
        Up(c, t);
        Look(c.up, Close(c, t));
        var gparent := parent.parent;
        if parent == gparent.left {
          node, c, t, h := InsertUnderLeft(node, parent, gparent, c, t, h);
        } else {
          node, c, t, h := InsertUnderRight(node, parent, gparent, c, t, h);
        }
        Look(c, t);
      }
      FinishInsert(c, t, h);
      UpAll(c, t);
      t := Plug(c, t);
      Look(Top, t);
      SetColor(root, Black, Top, t);
      t := Painted(t, Black);
    }


    /** adx_rbtree_string_find, adx_rbtree_number_find; steps counts the nodes visited. */
    method Find(key: K) returns (r: RbNode?<K>, ghost steps: nat)
      requires Valid()
      ensures r != null ==> r in Order() && r.key == key
      ensures r == null ==> key !in KeysOf(Order())
      ensures Pow2(steps) <= (|Order()| + 1) * (|Order()| + 1)
    {
      hide RepAt, At, Flat, Rb, Ordered, Fits;
      LogarithmicHeight(shape);
      var p := root;
      ghost var c, t: Shape<K> := Top, shape;
      steps := 0;
      Look(c, t);
      EmptyFits(cmp, key);
      FlatPlug(c, t);
      while p != null
        invariant At(c, t) && Root(t) == p && Fits(cmp, c, key) && Flat(c, t) == Order()
        invariant steps + Height(t) <= Height(shape)
        decreases Height(t)
      {
        Look(c, t);
        Descend(cmp, c, t, key);
        var order := cmp(key, p.key);
        if order < 0 {
          Down(Left, c, t);
          p := p.left;
          c, t := LeftFrame(c, t), t.left;
        } else if order > 0 {
          Down(Right, c, t);
          p := p.right;
          c, t := RightFrame(c, t), t.right;
        } else {
          InFlat(c, t);
          r, steps := p, steps + 1;
          Pow2Monotone(steps, Height(shape));
          return;
        }
        steps := steps + 1;
      }
      NotThere(cmp, c, key);
      r := null;
      Pow2Monotone(steps, Height(shape));
    }

    /** adx_rbtree_link_node, and the link that leads to the new node. */
    method LinkNode(node: RbNode<K>, parent: RbNode?<K>, onLeft: bool, ghost c: Frames<K>)
      requires At(c, Leaf) && node !in Repr && parent == Parent(c) && (!c.Top? ==> onLeft == c.InLeft?)
      modifies this`root, this`Repr, Repr, node
      ensures At(c, Node(Leaf, node, Red, Leaf)) && Repr == old(Repr) + {node}
    {
      Look(c, Leaf);
      hide RepAt, PathRep, TreeRep, Nodes, PathNodes;
      node.parent, node.color := parent, Red;
      node.left, node.right := null, null;
      if parent == null {
        root := node;
      } else if onLeft {
        parent.left := node;
      } else {
        parent.right := node;
      }
      Repr := Repr + {node};
      Attach(old(Fields()), Fields(), old(root), root, c, node);
    }

    method AddAt(node: RbNode<K>, parent: RbNode?<K>, onLeft: bool, ghost c: Frames<K>)
      requires At(c, Leaf) && Valid() && Plug(c, Leaf) == shape && Fits(cmp, c, node.key)
      requires node !in Repr && parent == Parent(c) && (!c.Top? ==> onLeft == c.InLeft?)
      modifies this`root, this`Repr, this`shape, Repr, node
      ensures Valid() && Repr == old(Repr) + {node} && Order() == Before(c) + [node] + After(c)
    {
      hide RepAt, At, Flat, Rb, PathOk, Ordered, Fits, Before, After;
      FlatPlug(c, Leaf);
      FitsIsNew(cmp, c, node);
      ghost var h := SplitRedBlack(c, Leaf);
      NewNodeOk(c, node, h);
      LinkNode(node, parent, onLeft, c);
      shape := InsertColor(node, c, Node(Leaf, node, Red, Leaf), h);
    }

    /** adx_rbtree_string_add, adx_rbtree_number_add: null both for a duplicate and for the first node. */
    method Add(node: RbNode<K>) returns (r: RbNode?<K>, ghost i: nat)
      requires Valid() && node !in Repr
      modifies this`root, this`Repr, this`shape, Repr, node
      ensures Valid()
      ensures node.key in KeysOf(old(Order())) ==>
                r == null && Order() == old(Order()) && Repr == old(Repr) && unchanged(node)
      ensures node.key !in KeysOf(old(Order())) ==>
                && Repr == old(Repr) + {node} && i <= |old(Order())|
                && Order() == old(Order())[..i] + [node] + old(Order())[i..]
                && (r == null <==> old(Order()) == [])
                && (r != null ==> (i > 0 && r == old(Order())[i - 1]) || (i < |old(Order())| && r == old(Order())[i]))
    {
      hide RepAt, At, Flat, Rb, PathOk, Ordered, Fits;
      var p, onLeft := root, true;
      r, i := null, 0;
      ghost var c, t: Shape<K> := Top, shape;
      Look(c, t);
      EmptyFits(cmp, node.key);
      FlatPlug(c, t);
      while p != null
        invariant At(c, t) && Root(t) == p && Fits(cmp, c, node.key) && Flat(c, t) == Order()
        invariant Plug(c, t) == shape && r == Parent(c) && (!c.Top? ==> onLeft == c.InLeft?)
        modifies {}
        decreases t
      {
        Look(c, t);
        Descend(cmp, c, t, node.key);
        r := p;
        var order := cmp(node.key, p.key);
        if order < 0 {
          Down(Left, c, t);
          p, onLeft := p.left, true;
          c, t := LeftFrame(c, t), t.left;
        } else if order > 0 {
          Down(Right, c, t);
          p, onLeft := p.right, false;
          c, t := RightFrame(c, t), t.right;
        } else {
          InFlat(c, t);
          r := null;
          return;
        }
      }
      NotThere(cmp, c, node.key);
      AddAt(node, r, onLeft, c);
      i := |Before(c)|;
      SplitAt(c);
      if !c.Top? {
        ParentIsNext(c);
      }
    }

    /** after is before without node, which stood at i. */
    ghost predicate Removed(before: seq<RbNode<K>>, i: nat, node: RbNode<K>, after: seq<RbNode<K>>) {
      i < |before| && before[i] == node && after == Without(before, i)
    }

    /** What the delete loop keeps: all remaining keys in order, one black node owed. */
    ghost predicate Deleting(node: RbNode?<K>, c: Frames<K>, t: Shape<K>, h: nat, all: seq<RbNode<K>>)
      reads this, Repr
    {
      At(c, t) && Root(t) == node && DeleteOk(c, t, h) && Flat(c, t) == all
    }

    ghost predicate Whole(t: Shape<K>, all: seq<RbNode<K>>)
      reads this, Repr
    {
      At(Top, t) && RedBlack(t) && Items(t) == all
    }

    /** The sibling takes the parent's colour, parent and far nephew black, turn the parent. */
    method SettleLeft(parent: RbNode<K>, other: RbNode<K>, ghost c: Frames<K>, ghost p: Shape<K>)
      requires At(c, p) && p.Node? && p.item == parent && Root(p.right) == other && p.right.right.Node?
      modifies this`root, Repr
      ensures At(c, Settled(Left, p))
    {
      hide RepAt, At;
      ghost var b := p.right;
      ghost var b1 := Painted(b, p.color);
      ghost var b2 := Make(Left, b.left, b.item, p.color, Painted(b.right, Black));
      ghost var p1 := Make(Left, p.left, p.item, p.color, b1);
      ghost var p2 := Make(Left, p.left, p.item, Black, b1);
      Look(c, p);
      Down(Right, c, p);
      Look(Frame(Right, c, p.item, p.color, p.left), b);
      SetColor(other, parent.color, Frame(Right, c, p.item, p.color, p.left), b);
      Up(Frame(Right, c, p.item, p.color, p.left), b1);
      SetColor(parent, Black, c, p1);
      Down(Right, c, p2);
      ghost var c2 := Frame(Right, c, p.item, Black, p.left);
      Down(Right, c2, b1);
      Look(c2, b1);
      SetColor(other.right, Black, Frame(Right, c2, b1.item, b1.color, b1.left), b1.right);
      Up(Frame(Right, c2, b1.item, b1.color, b1.left), Painted(b1.right, Black));
      Up(c2, b2);
      RotateLeft(parent, c, Make(Left, p.left, p.item, Black, b2));
    }

    /** The right sibling of a node that lacks a black one is black. */
    method BlackSiblingRight(node: RbNode?<K>, parent: RbNode<K>, other: RbNode<K>,
                             ghost c: Frames<K>, ghost t: Shape<K>, ghost h: nat)
      returns (settled: bool, ghost c': Frames<K>, ghost t': Shape<K>, ghost h': nat)
      requires Deleting(node, c, t, h, Flat(c, t)) && !IsRed(t) && c.InLeft? && parent == c.item
      requires Root(c.right) == other && !IsRed(c.right)
      modifies this`root, Repr
      ensures settled ==> Whole(t', Flat(c, t))
      ensures !settled ==> Deleting(parent, c', t', h', Flat(c, t)) && c' == c.up && t'.Node? && t'.color == c.color
    {
      hide RepAt, At, Flat, Rb, PathOk;
      ghost var b, b1, p1 := c.right, Painted(c.right, Red), Close(c, t);
      ghost var cb := Frame(Right, c.up, c.item, c.color, t);
      Up(c, t);
      Look(c.up, p1);
      Down(Right, c.up, p1);
      Look(cb, b);
      Down(Left, cb, b);
      Look(LeftFrame(cb, b), b.left);
      Down(Right, cb, b);
      Look(RightFrame(cb, b), b.right);
      if (other.left == null || other.left.color.Black?) && (other.right == null || other.right.color.Black?) {
        SetColor(other, Red, cb, b);
        Up(cb, b1);
        BlackNephewsOk(Left, c, t, h);
        c', t', h' := c.up, Make(Left, t, c.item, c.color, b1), if c.color.Black? then h + 1 else h;
        return false, c', t', h';
      }
      c', h' := c, h;
      if other.right == null || other.right.color.Black? {
        RaiseLeft(other.left, other, cb, b);
        NearNephewOk(Left, c, t, h);
        b := Raised(Left, b);
        c' := Frame(Left, c.up, c.item, c.color, b);
        Up(cb, b);
      }
      p1 := Close(c', t);
      Look(c.up, p1);
      FarNephewOk(Left, c', t, h);
      SettleLeft(parent, parent.right, c.up, p1);
      settled, t' := true, Plug(c.up, Settled(Left, p1));
      UpAll(c.up, Settled(Left, p1));
      FlatPlug(c.up, Settled(Left, p1));
    }

    /** One round of the delete loop at a left child. */
    method DeleteUnderLeft(node: RbNode?<K>, parent: RbNode<K>,
                           ghost c: Frames<K>, ghost t: Shape<K>, ghost h: nat)
      returns (settled: bool, ghost c': Frames<K>, ghost t': Shape<K>, ghost h': nat)
      requires Deleting(node, c, t, h, Flat(c, t)) && !IsRed(t) && c.InLeft? && parent == c.item
      modifies this`root, Repr
      ensures settled ==> Whole(t', Flat(c, t))
      ensures !settled ==> Deleting(parent, c', t', h', Flat(c, t)) && t'.Node?
      ensures !settled ==> Depth(c') + (if IsRed(t') then 0 else 1) < Depth(c) + 1
    {
      hide RepAt, At, Flat, Rb, PathOk;
      HasSibling(c, t, h);
      Up(c, t);
      Look(c, t);
      Down(Right, c.up, Close(c, t));
      Look(Frame(Right, c.up, c.item, c.color, t), c.right);
      var other := parent.right;
      ghost var c1 := c;
      if other.color.Red? {
        RaiseRight(other, parent, c.up, Close(c, t));
        RedSiblingOk(Left, c, t, h);
        ghost var r := Raised(Right, Close(c, t));
        Down(Left, c.up, r);
        Down(Left, LeftFrame(c.up, r), r.left);
        c1 := LeftFrame(LeftFrame(c.up, r), r.left);
        FlatClose(c1, t);
        FlatClose(c1.up, r.left);
        HasSibling(c1, t, h);
        Look(c1, t);
        other := parent.right;
      }
      settled, c', t', h' := BlackSiblingRight(node, parent, other, c1, t, h);
    }

    /** The sibling takes the parent's colour, parent and far nephew black, turn the parent. */
    method SettleRight(parent: RbNode<K>, other: RbNode<K>, ghost c: Frames<K>, ghost p: Shape<K>)
      requires At(c, p) && p.Node? && p.item == parent && Root(p.left) == other && p.left.left.Node?
      modifies this`root, Repr
      ensures At(c, Settled(Right, p))
    {
      hide RepAt, At;
      ghost var b := p.left;
      ghost var b1 := Painted(b, p.color);
      ghost var b2 := Make(Right, b.right, b.item, p.color, Painted(b.left, Black));
      ghost var p1 := Make(Right, p.right, p.item, p.color, b1);
      ghost var p2 := Make(Right, p.right, p.item, Black, b1);
      Look(c, p);
      Down(Left, c, p);
      Look(Frame(Left, c, p.item, p.color, p.right), b);
      SetColor(other, parent.color, Frame(Left, c, p.item, p.color, p.right), b);
      Up(Frame(Left, c, p.item, p.color, p.right), b1);
      SetColor(parent, Black, c, p1);
      Down(Left, c, p2);
      ghost var c2 := Frame(Left, c, p.item, Black, p.right);
      Down(Left, c2, b1);
      Look(c2, b1);
      SetColor(other.left, Black, Frame(Left, c2, b1.item, b1.color, b1.right), b1.left);
      Up(Frame(Left, c2, b1.item, b1.color, b1.right), Painted(b1.left, Black));
      Up(c2, b2);
      RotateRight(parent, c, Make(Right, p.right, p.item, Black, b2));
    }

    /** The left sibling of a node that lacks a black one is black. */
    method BlackSiblingLeft(node: RbNode?<K>, parent: RbNode<K>, other: RbNode<K>,
                            ghost c: Frames<K>, ghost t: Shape<K>, ghost h: nat)
      returns (settled: bool, ghost c': Frames<K>, ghost t': Shape<K>, ghost h': nat)
      requires Deleting(node, c, t, h, Flat(c, t)) && !IsRed(t) && c.InRight? && parent == c.item
      requires Root(c.left) == other && !IsRed(c.left)
      modifies this`root, Repr
      ensures settled ==> Whole(t', Flat(c, t))
      ensures !settled ==> Deleting(parent, c', t', h', Flat(c, t)) && c' == c.up && t'.Node? && t'.color == c.color
    {
      hide RepAt, At, Flat, Rb, PathOk;
      ghost var b, b1, p1 := c.left, Painted(c.left, Red), Close(c, t);
      ghost var cb := Frame(Left, c.up, c.item, c.color, t);
      Up(c, t);
      Look(c.up, p1);
      Down(Left, c.up, p1);
      Look(cb, b);
      Down(Left, cb, b);
      Look(LeftFrame(cb, b), b.left);
      Down(Right, cb, b);
      Look(RightFrame(cb, b), b.right);
      if (other.left == null || other.left.color.Black?) && (other.right == null || other.right.color.Black?) {
        SetColor(other, Red, cb, b);
        Up(cb, b1);
        BlackNephewsOk(Right, c, t, h);
        c', t', h' := c.up, Make(Right, t, c.item, c.color, b1), if c.color.Black? then h + 1 else h;
        return false, c', t', h';
      }
      c', h' := c, h;
      if other.left == null || other.left.color.Black? {
        RaiseRight(other.right, other, cb, b);
        NearNephewOk(Right, c, t, h);
        b := Raised(Right, b);
        c' := Frame(Right, c.up, c.item, c.color, b);
        Up(cb, b);
      }
      p1 := Close(c', t);
      Look(c.up, p1);
      FarNephewOk(Right, c', t, h);
      SettleRight(parent, parent.left, c.up, p1);
      settled, t' := true, Plug(c.up, Settled(Right, p1));
      UpAll(c.up, Settled(Right, p1));
      FlatPlug(c.up, Settled(Right, p1));
    }

    /** One round of the delete loop at a right child. */
    method DeleteUnderRight(node: RbNode?<K>, parent: RbNode<K>,
                            ghost c: Frames<K>, ghost t: Shape<K>, ghost h: nat)
      returns (settled: bool, ghost c': Frames<K>, ghost t': Shape<K>, ghost h': nat)
      requires Deleting(node, c, t, h, Flat(c, t)) && !IsRed(t) && c.InRight? && parent == c.item
      modifies this`root, Repr
      ensures settled ==> Whole(t', Flat(c, t))
      ensures !settled ==> Deleting(parent, c', t', h', Flat(c, t)) && t'.Node?
      ensures !settled ==> Depth(c') + (if IsRed(t') then 0 else 1) < Depth(c) + 1
    {
      hide RepAt, At, Flat, Rb, PathOk;
      HasSibling(c, t, h);
      Up(c, t);
      Look(c, t);
      Down(Left, c.up, Close(c, t));
      Look(Frame(Left, c.up, c.item, c.color, t), c.left);
      var other := parent.left;
      ghost var c1 := c;
      if other.color.Red? {
        RaiseLeft(other, parent, c.up, Close(c, t));
        RedSiblingOk(Right, c, t, h);
        ghost var r := Raised(Left, Close(c, t));
        Down(Right, c.up, r);
        Down(Right, RightFrame(c.up, r), r.right);
        c1 := RightFrame(RightFrame(c.up, r), r.right);
        FlatClose(c1, t);
        FlatClose(c1.up, r.right);
        HasSibling(c1, t, h);
        Look(c1, t);
        other := parent.left;
      }
      settled, c', t', h' := BlackSiblingLeft(node, parent, other, c1, t, h);
    }

    method DeleteColor(start: RbNode?<K>, startParent: RbNode?<K>, ghost c0: Frames<K>, ghost t0: Shape<K>, ghost h0: nat)
      returns (ghost t: Shape<K>)
      requires Deleting(start, c0, t0, h0, Flat(c0, t0)) && startParent == Parent(c0)
      modifies this`root, Repr
      ensures Whole(t, Flat(c0, t0))
    {
      hide RepAt, At, Flat, Rb, PathOk, RedBlack, DeleteOk;
      var node, parent, settled := start, startParent, false;
      ghost var c, h := c0, h0;
      t := t0;
      Look(c, t);
      NotHead(c, t);
      while (node == null || node.color.Black?) && node != root
        invariant Deleting(node, c, t, h, Flat(c0, t0)) && parent == Parent(c)
        invariant (node != null ==> node.color == t.color) && (node == root <==> c.Top?)
        decreases Depth(c) + (if IsRed(t) then 0 else 1)
      {
        HasSibling(c, t, h);
        Look(c, t);
        if parent.left == node {
          settled, c, t, h := DeleteUnderLeft(node, parent, c, t, h);
        } else {
          settled, c, t, h := DeleteUnderRight(node, parent, c, t, h);
        }
        if settled {
          node := root;
          break;
        }
        node := parent;
        Look(c, t);
        NotHead(c, t);
        parent := node.parent;
      }
      if settled {
        c := Top;
        Look(c, t);
        BlackAlready(t);
      } else {
        FinishDelete(c, t, h);
      }
      PaintKeepsItems(t, Black);
      SameFlat(c, t, Painted(t, Black));
      FlatPlug(c, Painted(t, Black));
      if node != null {
        SetColor(node, Black, c, t);
      }
      UpAll(c, Painted(t, Black));
      t := Plug(c, Painted(t, Black));
    }

    /** The parent's link to node, or the head, leads to other from now on. */
    method RelinkParent(parent: RbNode?<K>, node: RbNode<K>, other: RbNode?<K>)
      requires parent != node
      modifies this`root, parent
      ensures root == if parent == null then other else old(root)
      ensures parent != null ==>
        && parent.parent == old(parent.parent) && parent.color == old(parent.color)
        && parent.left == (if old(parent.left) == node then other else old(parent.left))
        && parent.right == (if old(parent.left) == node then old(parent.right) else other)
    {
      if parent != null {
        if parent.left == node {
          parent.left := other;
        } else {
          parent.right := other;
        }
      } else {
        root := other;
      }
    }

    /** A node with at most one child leaves the tree to that child. */
    method Unlink(node: RbNode<K>, child: RbNode?<K>, ghost c: Frames<K>, ghost t: Shape<K>, ghost ct: Shape<K>)
      requires At(c, t) && Root(t) == node && Root(ct) == child
      requires (t.left.Leaf? && ct == t.right) || (t.right.Leaf? && ct == t.left)
      modifies this`root, this`Repr, Repr - {node}
      ensures At(c, ct) && Repr == old(Repr) - {node}
    {
      Here(Fields(), root, c, t);
      Look(c, t);
      hide RepAt, PathRep, TreeRep, Nodes, PathNodes;
      var parent := node.parent;
      if child != null {
        child.parent := parent;
      }
      RelinkParent(parent, node, child);
      Repr := Repr - {node};
      Splice(old(Fields()), Fields(), old(root), root, c, t, ct);
    }

    /** node takes over the links of old; its own right child stays if it was old's child. */
    method TakePlaceLinks(node: RbNode<K>, old_: RbNode<K>, apart: bool)
      requires old_.left != null && old_.right != null && node != old_ && node != old_.left && node != old_.parent
      requires old_ != old_.left && old_ != old_.right && old_ != old_.parent && old_.left != old_.right
      requires old_.parent != old_.left && old_.parent != old_.right && (apart ==> node != old_.right)
      modifies this`root, old_.parent, node, old_.left, old_.right
      ensures root == if old(old_.parent) == null then node else old(root)
      ensures var p := old(old_.parent); p != null ==>
        && p.parent == old(p.parent) && p.color == old(p.color)
        && p.left == (if old(p.left) == old_ then node else old(p.left))
        && p.right == (if old(p.left) == old_ then old(p.right) else node)
      ensures node.parent == old(old_.parent) && node.color == old(old_.color) && node.left == old(old_.left)
      ensures node.right == if apart then old(old_.right) else old(node.right)
      ensures old_.left == old(old_.left) && old_.left.parent == node && old_.left.color == old(old_.left.color)
      ensures old_.left.left == old(old_.left.left) && old_.left.right == old(old_.left.right)
      ensures apart ==>
        && old_.right == old(old_.right) && old_.right.parent == node && old_.right.color == old(old_.right.color)
        && old_.right.left == old(old_.right.left) && old_.right.right == old(old_.right.right)
    {
      RelinkParent(old_.parent, old_, node);
      if apart {
        node.right := old_.right;
        old_.right.parent := node;
      }
      node.parent, node.color := old_.parent, old_.color;
      node.left := old_.left;
      old_.left.parent := node;
    }

    /** A node already unlinked from below takes the place of old_. */
    method TakePlace(node: RbNode<K>, old_: RbNode<K>, ghost c: Frames<K>, ghost t: Shape<K>)
      requires At(c, t) && Root(t) == old_ && t.left.Node? && t.right.Node? && node !in Repr
      modifies this`root, this`Repr, Repr, node
      ensures At(c, t.(item := node)) && Repr == old(Repr) - {old_} + {node}
    {
      Here(Fields(), root, c, t);
      Look(c, t);
      hide RepAt, PathRep, TreeRep, Nodes, PathNodes;
      TakePlaceLinks(node, old_, true);
      Repr := Repr - {old_} + {node};
      Replace(old(Fields()), Fields(), old(root), root, c, t, node);
    }

    /** The right child of old_, without a left child of its own, takes its place. */
    method TakeParentsPlace(node: RbNode<K>, old_: RbNode<K>, ghost c: Frames<K>, ghost t: Shape<K>)
      requires At(c, t) && Root(t) == old_ && t.left.Node? && Root(t.right) == node && t.right.left.Leaf?
      modifies this`root, this`Repr, Repr
      ensures At(c, Node(t.left, node, t.color, t.right.right)) && Repr == old(Repr) - {old_}
    {
      Here(Fields(), root, c, t);
      Look(c, t);
      Down(Right, c, t);
      Look(RightFrame(c, t), t.right);
      hide RepAt, PathRep, TreeRep, Nodes, PathNodes;
      TakePlaceLinks(node, old_, false);
      Repr := Repr - {old_};
      ReplaceByChild(old(Fields()), Fields(), old(root), root, c, t);
    }

    /** Fix-up after a node of the given colour left the place of t to child. */
    method Finish(color: Color, child: RbNode?<K>, parent: RbNode?<K>, ghost c: Frames<K>, ghost t: Shape<K>, ghost h: nat)
      requires At(c, t) && Root(t) == child && Parent(c) == parent
      requires if color.Black? then DeleteOk(c, t, h) else RedBlack(Plug(c, t))
      requires TotalOrder(cmp) && Ordered(cmp, Flat(c, t))
      modifies this`root, this`shape, Repr
      ensures Valid() && Order() == Flat(c, t)
    {
      hide RepAt, At, Flat, Rb, PathOk, RedBlack, DeleteOk, Ordered;
      FlatPlug(c, t);
      if color.Black? {
        shape := DeleteColor(child, parent, c, t, h);
      } else {
        UpAll(c, t);
        shape := Plug(c, t);
      }
    }

    /** A node with at most one child. */
    method DeleteOuter(node: RbNode<K>, child: RbNode?<K>, ghost c: Frames<K>, ghost t: Shape<K>, ghost ct: Shape<K>)
      requires Valid() && At(c, t) && Root(t) == node && Plug(c, t) == shape && Root(ct) == child
      requires (t.left.Leaf? && ct == t.right) || (t.right.Leaf? && ct == t.left)
      modifies this`root, this`Repr, this`shape, Repr
      ensures Valid() && Repr == old(Repr) - {node}
      ensures exists i: nat :: Removed(old(Order()), i, node, Order())
    {
      hide RepAt, At, Flat, Rb, PathOk, RedBlack, DeleteOk, Ordered;
      Look(c, t);
      FlatPlug(c, t);
      RemoveItems(c, t, ct);
      ghost var i := |Before(c)| + |Items(t.left)|;
      OrderedWithout(cmp, Order(), i);
      ghost var h := SplitRedBlack(c, t);
      RemoveOk(c, t, ct, h);
      var parent, color := node.parent, node.color;
      Unlink(node, child, c, t, ct);
      Finish(color, child, parent, c, ct, if color.Black? then h - 1 else h);
      assert Removed(old(Order()), i, node, Order());
    }

    /** The leftmost node below the right child, and the frames that lead to it. */
    method Successor(node: RbNode<K>, ghost c: Frames<K>, ghost t: Shape<K>)
      returns (next: RbNode<K>, ghost q: Frames<K>, ghost s: Shape<K>)
      requires At(c, t) && Root(t) == node && t.right.Node?
      ensures At(Join(q, RightFrame(c, t)), s) && Root(s) == next && Plug(q, s) == t.right && Before(q) == []
      ensures s.left.Leaf? && (next.parent == node <==> q.Top?) && next != node
    {
      hide RepAt, At;
      ghost var base := RightFrame(c, t);
      Look(c, t);
      Down(Right, c, t);
      next := node.right;
      q, s := Top, t.right;
      Look(base, s);
      while next.left != null
        invariant At(Join(q, base), s) && s.Node? && s.item == next && Plug(q, s) == t.right && Before(q) == []
        invariant next.left == Root(s.left) && next.parent == Parent(Join(q, base))
        decreases s
      {
        next := next.left;
        Down(Left, Join(q, base), s);
        q, s := LeftFrame(q, s), s.left;
        Look(Join(q, base), s);
      }
      Apart(q, base, s);
    }

    lemma Apart(q: Frames<K>, base: Frames<K>, s: Shape<K>)
      requires At(Join(q, base), s) && !base.Top?
      ensures !q.Top? ==> Parent(Join(q, base)) != base.item
      ensures s.Node? ==> s.item != base.item
    {
      BaseOnPath(q, base);
      if !q.Top? {
        BaseOnPath(q.up, base);
      }
    }

    /** The successor, found below on q, comes up in place of node. */
    method Promote(next: RbNode<K>, node: RbNode<K>, ghost c: Frames<K>, ghost t: Shape<K>, ghost q: Frames<K>, ghost s: Shape<K>)
      returns (parent: RbNode<K>)
      requires At(c, t) && Root(t) == node && t.left.Node? && t.right.Node? && next != node
      requires At(Join(q, RightFrame(c, t)), s) && Root(s) == next && s.left.Leaf? && Plug(q, s) == t.right
      requires next.parent == node <==> q.Top?
      modifies this`root, this`Repr, Repr
      ensures Repr == old(Repr) - {node}
      ensures var path := Join(q, RightFrame(c, t.(item := next))); At(path, s.right) && parent == Parent(path)
    {
      hide RepAt, At;
      ghost var base := RightFrame(c, t);
      ghost var t' := Node(t.left, next, t.color, Plug(q, s.right));
      Look(Join(q, base), s);
      Look(c, t);
      parent := next.parent;
      if parent == node {
        TakeParentsPlace(next, node, c, t);
        parent := next;
      } else {
        PlugIsNode(q, s.right);
        Unlink(next, next.right, Join(q, base), s, s.right);
        Rise'(base, q, s.right);
        TakePlace(next, node, c, Node(t.left, node, t.color, Plug(q, s.right)));
      }
      Sink'(c, t', q, s.right);
    }

    /** A node with two children: its successor takes its place. */
    method DeleteInner(node: RbNode<K>, ghost c: Frames<K>, ghost t: Shape<K>)
      requires Valid() && At(c, t) && Root(t) == node && Plug(c, t) == shape && t.left.Node? && t.right.Node?
      modifies this`root, this`Repr, this`shape, Repr
      ensures Valid() && Repr == old(Repr) - {node}
      ensures exists i: nat :: Removed(old(Order()), i, node, Order())
    {
      hide RepAt, At, Flat, Rb, PathOk, RedBlack, DeleteOk, Ordered;
      var next, parent;
      ghost var q, s;
      next, q, s := Successor(node, c, t);
      ghost var base, base' := RightFrame(c, t), RightFrame(c, t.(item := next));
      ghost var i := |Before(c)| + |Items(t.left)|;
      Look(Join(q, base), s);
      PlugJoin(q, base, s);
      ghost var h := SplitRedBlack(Join(q, base), s);
      FlatPlug(c, t);
      SuccessorItems(c, t, q, s);
      OrderedWithout(cmp, Order(), i);
      var child, color := next.right, next.color;
      parent := Promote(next, node, c, t, q, s);
      ghost var path := Join(q, base');
      PathOkItem(q, base, next, h);
      RemoveOk(path, s, s.right, h);
      FlatJoin(q, base', s.right);
      FlatClose(base', Plug(q, s.right));
      Finish(color, child, parent, path, s.right, if color.Black? then h - 1 else h);
      assert Removed(old(Order()), i, node, Order());
    }

    lemma Rise'(base: Frames<K>, q: Frames<K>, t: Shape<K>)
      requires At(Join(q, base), t)
      ensures At(base, Plug(q, t)) && (!base.Top? ==> At(base.up, Close(base, Plug(q, t))))
    {
      RiseTo(Fields(), root, base, q, t);
      if !base.Top? {
        Rise(Fields(), root, base, Plug(q, t));
      }
    }

    lemma Sink'(c: Frames<K>, t: Shape<K>, q: Frames<K>, s: Shape<K>)
      requires At(c, t) && t.Node? && t.right == Plug(q, s)
      ensures At(Join(q, RightFrame(c, t)), s)
    {
      Sink(Fields(), root, c, t);
      SinkTo(Fields(), root, RightFrame(c, t), q, s);
    }

    /** adx_rbtree_delete. */
    method Delete(node: RbNode<K>)
      requires Valid() && node in Repr
      modifies this`root, this`Repr, this`shape, Repr
      ensures Valid() && Repr == old(Repr) - {node}
      ensures exists i: nat :: Removed(old(Order()), i, node, Order())
    {
      ghost var c, t := RbLinks.Find(shape, node);
      PlugJoin(c, Top, t);
      SinkTo(Fields(), root, Top, c, t);
      assert At(c, t) by { JoinTop(c); }
      hide RepAt, At, RedBlack, Ordered;
      Look(c, t);
      if node.left == null {
        DeleteOuter(node, node.right, c, t, t.right);
      } else if node.right == null {
        DeleteOuter(node, node.left, c, t, t.left);
      } else {
        DeleteInner(node, c, t);
      }
    }
  }
}
