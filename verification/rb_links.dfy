/** The links of a red-black tree as one value, and what they spell out. */
module RbLinks {
  import opened RbShape

  class RbNode<K> {
    const key: K
    var left: RbNode?<K>
    var right: RbNode?<K>
    var parent: RbNode?<K>
    var color: Color

    constructor (key: K)
      ensures this.key == key
    {
      this.key := key;
      left, right, parent, color := null, null, null, Red;
    }
  }

  /** The fields of one node. */
  datatype Links<K> = Links(left: RbNode?<K>, right: RbNode?<K>, parent: RbNode?<K>, color: Color)

  type Shape<K> = Tree<RbNode<K>>
  type Frames<K> = Path<RbNode<K>>
  type Store<K> = map<RbNode<K>, Links<K>>

  function Root<K>(t: Shape<K>): RbNode?<K> {
    if t.Leaf? then null else t.item
  }

  function Parent<K>(c: Frames<K>): RbNode?<K> {
    if c.Top? then null else c.item
  }

  ghost function Nodes<K>(t: Shape<K>): set<RbNode<K>> {
    if t.Leaf? then {} else Nodes(t.left) + {t.item} + Nodes(t.right)
  }

  ghost function PathNodes<K>(c: Frames<K>): set<RbNode<K>> {
    match c
    case Top => {}
    case InLeft(up, n, _, r) => PathNodes(up) + {n} + Nodes(r)
    case InRight(up, l, n, _) => PathNodes(up) + {n} + Nodes(l)
  }

  /** The links below parent spell out t, and no node occurs twice. */
  ghost predicate TreeRep<K>(m: Store<K>, t: Shape<K>, parent: RbNode?<K>) {
    match t
    case Leaf => true
    case Node(l, n, col, r) =>
      && n in m && m[n] == Links(Root(l), Root(r), parent, col)
      && n !in Nodes(l) && n !in Nodes(r) && Nodes(l) !! Nodes(r)
      && TreeRep(m, l, n) && TreeRep(m, r, n)
  }

  /** The links from head down to hole spell out the frames of c. */
  ghost predicate PathRep<K>(m: Store<K>, c: Frames<K>, head: RbNode?<K>, hole: RbNode?<K>) {
    match c
    case Top => head == hole
    case InLeft(up, n, col, r) =>
      && n in m && m[n] == Links(hole, Root(r), Parent(up), col)
      && n !in PathNodes(up) && n !in Nodes(r) && PathNodes(up) !! Nodes(r)
      && TreeRep(m, r, n) && PathRep(m, up, head, n)
    case InRight(up, l, n, col) =>
      && n in m && m[n] == Links(Root(l), hole, Parent(up), col)
      && n !in PathNodes(up) && n !in Nodes(l) && PathNodes(up) !! Nodes(l)
      && TreeRep(m, l, n) && PathRep(m, up, head, n)
  }

  /** The head and the links are exactly the subtree t inside the frames c. */
  ghost predicate RepAt<K>(m: Store<K>, head: RbNode?<K>, c: Frames<K>, t: Shape<K>) {
    && PathRep(m, c, head, Root(t)) && TreeRep(m, t, Parent(c))
    && PathNodes(c) !! Nodes(t) && PathNodes(c) + Nodes(t) == m.Keys
  }

  ghost predicate Agree<K>(m: Store<K>, m': Store<K>, s: set<RbNode<K>>) {
    forall n | n in s :: n in m && n in m' && m[n] == m'[n]
  }

  lemma {:induction false} SameTree<K>(m: Store<K>, m': Store<K>, t: Shape<K>, p: RbNode?<K>)
    requires TreeRep(m, t, p) && Agree(m, m', Nodes(t))
    ensures TreeRep(m', t, p)
  {
    if t.Node? {
      SameTree(m, m', t.left, t.item);
      SameTree(m, m', t.right, t.item);
    }
  }

  lemma {:induction false} SamePath<K>(m: Store<K>, m': Store<K>, c: Frames<K>, head: RbNode?<K>, hole: RbNode?<K>)
    requires PathRep(m, c, head, hole) && Agree(m, m', PathNodes(c))
    ensures PathRep(m', c, head, hole)
  {
    if !c.Top? {
      SameTree(m, m', if c.InLeft? then c.right else c.left, c.item);
      SamePath(m, m', c.up, head, c.item);
    }
  }

  /** Moving a subtree under another parent rewrites one field of its root. */
  lemma MoveTree<K>(m: Store<K>, m': Store<K>, t: Shape<K>, p: RbNode?<K>, p': RbNode?<K>)
    requires TreeRep(m, t, p) && Agree(m, m', Nodes(t) - {Root(t)})
    requires t.Node? ==> t.item in m' && m'[t.item] == m[t.item].(parent := p')
    ensures TreeRep(m', t, p')
  {
    if t.Node? {
      SameTree(m, m', t.left, t.item);
      SameTree(m, m', t.right, t.item);
    }
  }

  /** The innermost frame (or the head) made to lead to another subtree. */
  function Aimed<K>(c: Frames<K>, links: Links<K>, hole: RbNode?<K>): Links<K> {
    if c.InLeft? then links.(left := hole) else links.(right := hole)
  }

  lemma MovePath<K>(m: Store<K>, m': Store<K>, c: Frames<K>, head: RbNode?<K>, head': RbNode?<K>,
                    hole: RbNode?<K>, hole': RbNode?<K>)
    requires PathRep(m, c, head, hole) && Agree(m, m', PathNodes(c) - {Parent(c)})
    requires if c.Top? then head' == hole' else head' == head
    requires !c.Top? ==> c.item in m' && m'[c.item] == Aimed(c, m[c.item], hole')
    ensures PathRep(m', c, head', hole')
  {
    if !c.Top? {
      SameTree(m, m', if c.InLeft? then c.right else c.left, c.item);
      SamePath(m, m', c.up, head, c.item);
    }
  }

  /** Seen from the parent, the links are the same. */
  lemma Rise<K>(m: Store<K>, head: RbNode?<K>, c: Frames<K>, t: Shape<K>)
    requires RepAt(m, head, c, t) && !c.Top?
    ensures RepAt(m, head, c.up, Close(c, t))
  {}

  function LeftFrame<K>(c: Frames<K>, t: Shape<K>): Frames<K>
    requires t.Node?
  {
    InLeft(c, t.item, t.color, t.right)
  }

  function RightFrame<K>(c: Frames<K>, t: Shape<K>): Frames<K>
    requires t.Node?
  {
    InRight(c, t.left, t.item, t.color)
  }

  lemma Sink<K>(m: Store<K>, head: RbNode?<K>, c: Frames<K>, t: Shape<K>)
    requires RepAt(m, head, c, t) && t.Node?
    ensures RepAt(m, head, LeftFrame(c, t), t.left)
    ensures RepAt(m, head, RightFrame(c, t), t.right)
  {}

  lemma Grow<K>(m: Store<K>, t: Shape<K>, p: RbNode?<K>)
    requires t.Node? && t.item in m && m[t.item] == Links(Root(t.left), Root(t.right), p, t.color)
    requires t.item !in Nodes(t.left) && t.item !in Nodes(t.right) && Nodes(t.left) !! Nodes(t.right)
    requires TreeRep(m, t.left, t.item) && TreeRep(m, t.right, t.item)
    ensures TreeRep(m, t, p)
  {}

  lemma Parts<K>(m: Store<K>, t: Shape<K>, p: RbNode?<K>)
    requires TreeRep(m, t, p) && t.Node?
    ensures t.item in m && m[t.item] == Links(Root(t.left), Root(t.right), p, t.color)
    ensures t.item !in Nodes(t.left) && t.item !in Nodes(t.right) && Nodes(t.left) !! Nodes(t.right)
    ensures TreeRep(m, t.left, t.item) && TreeRep(m, t.right, t.item)
    ensures Nodes(t) == Nodes(t.left) + {t.item} + Nodes(t.right)
  {}

  /** The links at one node, and that its frame, itself and its subtrees are apart. */
  lemma Here<K>(m: Store<K>, head: RbNode?<K>, c: Frames<K>, t: Shape<K>)
    requires RepAt(m, head, c, t) && t.Node?
    ensures t.item in m && m[t.item] == Links(Root(t.left), Root(t.right), Parent(c), t.color)
    ensures t.left.Node? ==> t.left.item in m && t.left.item != t.item
    ensures t.right.Node? ==> t.right.item in m && t.right.item != t.item
    ensures t.left.Node? && t.right.Node? ==> t.left.item != t.right.item
    ensures Hole(m, head, c, t.item)
    ensures !c.Top? ==> (t.left.Node? ==> t.left.item != c.item) && (t.right.Node? ==> t.right.item != c.item)
  {}

  lemma GrandchildrenApart<K>(m: Store<K>, head: RbNode?<K>, c: Frames<K>, t: Shape<K>)
    requires RepAt(m, head, c, t) && t.Node? && !c.Top?
    ensures t.left.Node? && t.left.right.Node? ==> t.left.right.item != c.item
    ensures t.right.Node? && t.right.left.Node? ==> t.right.left.item != c.item
  {
    hide TreeRep, PathRep;
    assert c.item in PathNodes(c) && c.item !in Nodes(t);
    NodesOf(t);
    RootIn(t.left);
    RootIn(t.right);
  }

  lemma RootIn<K>(t: Shape<K>)
    ensures t.Node? && t.left.Node? ==> t.left.item in Nodes(t)
    ensures t.Node? && t.right.Node? ==> t.right.item in Nodes(t)
  {}

  /** The frame at hand leads to hole on its own side and elsewhere on the other. */
  ghost predicate Hole<K>(m: Store<K>, head: RbNode?<K>, c: Frames<K>, hole: RbNode?<K>) {
    match c
    case Top => head == hole
    case InLeft(_, n, _, _) => n in m && n != hole && m[n].left == hole && (hole != null ==> m[n].right != hole)
    case InRight(_, _, n, _) => n in m && n != hole && m[n].right == hole && (hole != null ==> m[n].left != hole)
  }

  // ---- rotation towards side s, at a node x whose far child y comes up ----

  function WithFar<K>(s: Side, links: Links<K>, child: RbNode?<K>): Links<K> {
    if s.Left? then links.(right := child) else links.(left := child)
  }

  function WithNear<K>(s: Side, links: Links<K>, child: RbNode?<K>): Links<K> {
    WithFar(s.Other(), links, child)
  }

  lemma TurnTree<K>(s: Side, m: Store<K>, m': Store<K>, t: Shape<K>, p: RbNode?<K>)
    requires TreeRep(m, t, p) && t.Node? && Far(s, t).Node?
    requires var x, y, b := t.item, Far(s, t).item, Near(s, Far(s, t));
      && x in m && x in m' && m'[x] == WithFar(s, m[x], Root(b)).(parent := y)
      && y in m && y in m' && m'[y] == WithNear(s, m[y], x).(parent := p)
      && (b.Node? ==> b.item in m && b.item in m' && m'[b.item] == m[b.item].(parent := x))
      && Agree(m, m', Nodes(t) - {x, y, Root(b)})
    ensures TreeRep(m', Turned(s, t), p)
    ensures Nodes(Turned(s, t)) == Nodes(t)
  {
    var x, y, a, b, d := t.item, Far(s, t).item, Near(s, t), Near(s, Far(s, t)), Far(s, Far(s, t));
    assert b.Leaf? || b.item in Nodes(b);
    hide TreeRep;
    Parts(m, t, p);
    Parts(m, Far(s, t), x);
    assert TreeRep(m', a, x) by { SameTree(m, m', a, x); }
    assert TreeRep(m', d, y) by { SameTree(m, m', d, y); }
    assert TreeRep(m', b, x) by { MoveTree(m, m', b, y, x); }
    assert Nodes(Turned(s, t)) == Nodes(t);
    assert TreeRep(m', Turned(s, t), p) by {
      Grow(m', Near(s, Turned(s, t)), y);
      Grow(m', Turned(s, t), p);
    }
  }

  lemma Turn<K>(s: Side, m: Store<K>, m': Store<K>, head: RbNode?<K>, head': RbNode?<K>, c: Frames<K>, t: Shape<K>)
    requires RepAt(m, head, c, t) && t.Node? && Far(s, t).Node?
    requires m.Keys == m'.Keys
    requires var x, y, b := t.item, Far(s, t).item, Near(s, Far(s, t));
      && x in m && m'[x] == WithFar(s, m[x], Root(b)).(parent := y)
      && y in m && m'[y] == WithNear(s, m[y], x).(parent := Parent(c))
      && (b.Node? ==> b.item in m && m'[b.item] == m[b.item].(parent := x))
      && (!c.Top? ==> c.item in m && m'[c.item] == Aimed(c, m[c.item], y))
      && head' == (if c.Top? then y else head)
      && Agree(m, m', m.Keys - {x, y, Root(b), Parent(c)})
    ensures RepAt(m', head', c, Turned(s, t))
  {
    var y := Far(s, t);
    assert Nodes(y) == Nodes(Near(s, y)) + {y.item} + Nodes(Far(s, y));
    assert Nodes(t) == Nodes(Near(s, t)) + {t.item} + Nodes(y);
    assert Near(s, y).Leaf? || Near(s, y).item in Nodes(Near(s, y));
    assert c.Top? || c.item in PathNodes(c);
    hide TreeRep, PathRep, Nodes, PathNodes;
    MovePath(m, m', c, head, head', t.item, y.item);
    TurnTree(s, m, m', t, Parent(c));
  }

  // ---- one colour ----

  lemma Paint<K>(m: Store<K>, m': Store<K>, head: RbNode?<K>, c: Frames<K>, t: Shape<K>, color: Color)
    requires RepAt(m, head, c, t) && t.Node? && m'.Keys == m.Keys
    requires t.item in m && m'[t.item] == m[t.item].(color := color) && Agree(m, m', m.Keys - {t.item})
    ensures RepAt(m', head, c, Painted(t, color))
  {
    SamePath(m, m', c, head, t.item);
    SameTree(m, m', t.left, t.item);
    SameTree(m, m', t.right, t.item);
  }

  /** Closing every frame. */
  lemma {:induction false} RiseToTop<K>(m: Store<K>, head: RbNode?<K>, c: Frames<K>, t: Shape<K>)
    requires RepAt(m, head, c, t)
    ensures RepAt(m, head, Top, Plug(c, t))
    decreases c
  {
    if !c.Top? {
      Rise(m, head, c, t);
      RiseToTop(m, head, c.up, Close(c, t));
    }
  }

  lemma {:induction false} RiseTo<K>(m: Store<K>, head: RbNode?<K>, base: Frames<K>, q: Frames<K>, t: Shape<K>)
    requires RepAt(m, head, Join(q, base), t)
    ensures RepAt(m, head, base, Plug(q, t))
    decreases q
  {
    if !q.Top? {
      Rise(m, head, Join(q, base), t);
      RiseTo(m, head, base, q.up, Close(q, t));
    }
  }

  lemma {:induction false} SinkTo<K>(m: Store<K>, head: RbNode?<K>, base: Frames<K>, q: Frames<K>, t: Shape<K>)
    requires RepAt(m, head, base, Plug(q, t))
    ensures RepAt(m, head, Join(q, base), t)
    decreases q
  {
    if !q.Top? {
      SinkTo(m, head, base, q.up, Close(q, t));
      Sink(m, head, Join(q.up, base), Close(q, t));
    }
  }

  /** The place of a node. */
  lemma {:induction false} Find<K>(t: Shape<K>, n: RbNode<K>) returns (c: Frames<K>, s: Shape<K>)
    requires n in Nodes(t)
    ensures s.Node? && s.item == n && Plug(c, s) == t
  {
    if n == t.item {
      return Top, t;
    } else if n in Nodes(t.left) {
      c, s := Find(t.left, n);
      PlugJoin(c, LeftFrame(Top, t), s);
      c := Join(c, LeftFrame(Top, t));
    } else {
      c, s := Find(t.right, n);
      PlugJoin(c, RightFrame(Top, t), s);
      c := Join(c, RightFrame(Top, t));
    }
  }

  // ---- nodes that come and go ----

  /** adx_rbtree_link_node at an empty place. */
  lemma Attach<K>(m: Store<K>, m': Store<K>, head: RbNode?<K>, head': RbNode?<K>, c: Frames<K>, n: RbNode<K>)
    requires RepAt(m, head, c, Leaf) && n !in m && m'.Keys == m.Keys + {n}
    requires m'[n] == Links(null, null, Parent(c), Red)
    requires head' == if c.Top? then n else head
    requires !c.Top? ==> c.item in m && m'[c.item] == Aimed(c, m[c.item], n)
    requires Agree(m, m', m.Keys - {Parent(c)})
    ensures RepAt(m', head', c, Node(Leaf, n, Red, Leaf))
  {
    assert Nodes(Node(Leaf, n, Red, Leaf)) == {n};
    MovePath(m, m', c, head, head', null, n);
  }

  /** A node with at most one child makes way for that child. */
  lemma Splice<K>(m: Store<K>, m': Store<K>, head: RbNode?<K>, head': RbNode?<K>, c: Frames<K>, t: Shape<K>, child: Shape<K>)
    requires RepAt(m, head, c, t) && t.Node?
    requires (t.left.Leaf? && child == t.right) || (t.right.Leaf? && child == t.left)
    requires m'.Keys == m.Keys - {t.item} && head' == if c.Top? then Root(child) else head
    requires !c.Top? ==> c.item in m && m'[c.item] == Aimed(c, m[c.item], Root(child))
    requires child.Node? ==> child.item in m && child.item != t.item && m'[child.item] == m[child.item].(parent := Parent(c))
    requires Agree(m, m', m.Keys - {t.item, Root(child), Parent(c)})
    ensures RepAt(m', head', c, child)
  {
    assert Nodes(t) == Nodes(child) + {t.item};
    assert c.Top? || c.item in PathNodes(c);
    assert child.Leaf? || child.item in Nodes(child);
    Parts(m, t, Parent(c));
    hide TreeRep, PathRep, Nodes, PathNodes;
    MovePath(m, m', c, head, head', t.item, Root(child));
    MoveTree(m, m', child, t.item, Parent(c));
  }

  /** What changes when the root of a subtree is replaced: its children and its parent. */
  lemma OnlyNeighbours<K>(m: Store<K>, m': Store<K>, head: RbNode?<K>, c: Frames<K>, t: Shape<K>)
    requires RepAt(m, head, c, t) && t.Node?
    requires Agree(m, m', m.Keys - {t.item, Root(t.left), Root(t.right), Parent(c)})
    ensures Agree(m, m', PathNodes(c) - {Parent(c)})
    ensures Agree(m, m', Nodes(t.left) - {Root(t.left)}) && Agree(m, m', Nodes(t.right) - {Root(t.right)})
    ensures TreeRep(m, t.left, t.item) && TreeRep(m, t.right, t.item) && PathRep(m, c, head, t.item)
    ensures Nodes(t) == Nodes(t.left) + {t.item} + Nodes(t.right) && Nodes(t.left) !! Nodes(t.right)
    ensures t.item !in Nodes(t.left) && t.item !in Nodes(t.right)
  {
    var l, r := t.left, t.right;
    assert c.Top? || c.item in PathNodes(c);
    assert (l.Leaf? || l.item in Nodes(l)) && (r.Leaf? || r.item in Nodes(r));
    Parts(m, t, Parent(c));
    hide TreeRep, PathRep, Nodes, PathNodes;
  }

  /** A node outside the tree takes the place of one inside. */
  lemma Replace<K>(m: Store<K>, m': Store<K>, head: RbNode?<K>, head': RbNode?<K>, c: Frames<K>, t: Shape<K>, y: RbNode<K>)
    requires RepAt(m, head, c, t) && t.Node? && y !in m && m'.Keys == m.Keys - {t.item} + {y}
    requires m'[y] == Links(Root(t.left), Root(t.right), Parent(c), t.color)
    requires head' == if c.Top? then y else head
    requires !c.Top? ==> c.item in m && c.item != t.item && m'[c.item] == Aimed(c, m[c.item], y)
    requires forall s <- [t.left, t.right] | s.Node? ::
               s.item in m && s.item != t.item && m'[s.item] == m[s.item].(parent := y)
    requires Agree(m, m', m.Keys - {t.item, Root(t.left), Root(t.right), Parent(c)})
    ensures RepAt(m', head', c, t.(item := y))
  {
    hide TreeRep, PathRep, Nodes, PathNodes, Agree, Aimed;
    var l, r := t.left, t.right;
    assert l in [l, r] && r in [l, r];
    OnlyNeighbours(m, m', head, c, t);
    NodesOf(t.(item := y));
    MovePath(m, m', c, head, head', t.item, y);
    MoveTree(m, m', l, t.item, y);
    MoveTree(m, m', r, t.item, y);
    Grow(m', t.(item := y), Parent(c));
  }

  lemma NodesOf<K>(t: Shape<K>)
    requires t.Node?
    ensures Nodes(t) == Nodes(t.left) + {t.item} + Nodes(t.right)
  {}

  /** A right child without a left child of its own takes its parent's place. */
  lemma ReplaceByChild<K>(m: Store<K>, m': Store<K>, head: RbNode?<K>, head': RbNode?<K>, c: Frames<K>, t: Shape<K>)
    requires RepAt(m, head, c, t) && t.Node? && t.left.Node? && t.right.Node? && t.right.left.Leaf?
    requires m'.Keys == m.Keys - {t.item} && t.right.item in m' && t.left.item in m'
    requires m'[t.right.item] == Links(Root(t.left), Root(t.right.right), Parent(c), t.color)
    requires head' == if c.Top? then t.right.item else head
    requires !c.Top? ==> c.item in m && c.item != t.item && m'[c.item] == Aimed(c, m[c.item], t.right.item)
    requires t.left.item in m && m'[t.left.item] == m[t.left.item].(parent := t.right.item)
    requires Agree(m, m', m.Keys - {t.item, t.left.item, t.right.item, Parent(c)})
    ensures RepAt(m', head', c, Node(t.left, t.right.item, t.color, t.right.right))
  {
    hide TreeRep, PathRep, Nodes, PathNodes, Agree, Aimed;
    var l, y, r := t.left, t.right.item, t.right.right;
    var t' := Node(l, y, t.color, r);
    OnlyNeighboursByChild(m, m', head, c, t);
    NodesOf(t);
    NodesOf(t.right);
    NodesOf(t');
    MovePath(m, m', c, head, head', t.item, y);
    MoveTree(m, m', l, t.item, y);
    SameTree(m, m', r, y);
    Grow(m', t', Parent(c));
  }

  lemma OnlyNeighboursByChild<K>(m: Store<K>, m': Store<K>, head: RbNode?<K>, c: Frames<K>, t: Shape<K>)
    requires RepAt(m, head, c, t) && t.Node? && t.left.Node? && t.right.Node? && t.right.left.Leaf?
    requires Agree(m, m', m.Keys - {t.item, t.left.item, t.right.item, Parent(c)})
    ensures Agree(m, m', PathNodes(c) - {Parent(c)})
    ensures Agree(m, m', Nodes(t.left) - {t.left.item}) && Agree(m, m', Nodes(t.right.right))
    ensures TreeRep(m, t.left, t.item) && TreeRep(m, t.right.right, t.right.item) && PathRep(m, c, head, t.item)
    ensures Nodes(t.left) !! Nodes(t.right) && t.item !in Nodes(t.left) && t.item !in Nodes(t.right)
    ensures Nodes(t.right.left) == {} && t.right.item !in Nodes(t.right.right)
  {
    assert c.Top? || c.item in PathNodes(c);
    assert t.left.item in Nodes(t.left);
    Parts(m, t, Parent(c));
    Parts(m, t.right, t.item);
    hide TreeRep, PathRep, Nodes, PathNodes;
  }

  /** Below the top, the node at hand is not the head. */
  lemma {:induction false} HeadOnPath<K>(m: Store<K>, c: Frames<K>, head: RbNode?<K>, hole: RbNode?<K>)
    requires PathRep(m, c, head, hole) && !c.Top?
    ensures head != null && head in PathNodes(c)
  {
    if !c.up.Top? {
      HeadOnPath(m, c.up, head, c.item);
    }
  }

  /** The base of a longer path is among its nodes, apart from the newest frame. */
  lemma {:induction false} BaseOnPath<K>(q: Frames<K>, base: Frames<K>)
    requires !base.Top?
    ensures base.item in PathNodes(Join(q, base))
  {
    if !q.Top? {
      BaseOnPath(q.up, base);
    }
  }
}
