/** The values a red-black tree of adx_rbtree.c stands for: its shape, seen
    either whole (Tree) or from one node (Path, the way back to the head). */
module RbShape {
  datatype Color = Red | Black

  datatype Tree<N> =
    | Leaf
    | Node(left: Tree<N>, item: N, color: Color, right: Tree<N>)

  /** Everything outside one subtree: the frames from its parent up to the head. */
  datatype Path<N> =
    | Top
    | InLeft(up: Path<N>, item: N, color: Color, right: Tree<N>)
    | InRight(up: Path<N>, left: Tree<N>, item: N, color: Color)

  /** The nodes in key order. */
  function Items<N>(t: Tree<N>): seq<N> {
    if t.Leaf? then [] else Items(t.left) + [t.item] + Items(t.right)
  }

  function Before<N>(c: Path<N>): seq<N> {
    match c
    case Top => []
    case InLeft(up, _, _, _) => Before(up)
    case InRight(up, l, n, _) => Before(up) + Items(l) + [n]
  }

  function After<N>(c: Path<N>): seq<N> {
    match c
    case Top => []
    case InLeft(up, n, _, r) => [n] + Items(r) + After(up)
    case InRight(up, _, _, _) => After(up)
  }

  /** All nodes in key order, seen from the subtree t at c. */
  function Flat<N>(c: Path<N>, t: Tree<N>): seq<N> {
    Before(c) + Items(t) + After(c)
  }

  /** One frame closed over the subtree below it. */
  function Close<N>(c: Path<N>, t: Tree<N>): Tree<N>
    requires !c.Top?
  {
    if c.InLeft? then Node(t, c.item, c.color, c.right) else Node(c.left, c.item, c.color, t)
  }

  function Plug<N>(c: Path<N>, t: Tree<N>): Tree<N> {
    if c.Top? then t else Plug(c.up, Close(c, t))
  }

  function Depth<N>(c: Path<N>): nat {
    if c.Top? then 0 else 1 + Depth(c.up)
  }

  predicate IsRed<N>(t: Tree<N>) {
    t.Node? && t.color.Red?
  }

  /** No red node has a red child, and every way down meets h black nodes. */
  predicate Rb<N>(t: Tree<N>, h: nat) {
    match t
    case Leaf => h == 0
    case Node(l, _, Black, r) => h > 0 && Rb(l, h - 1) && Rb(r, h - 1)
    case Node(l, _, Red, r) => !IsRed(l) && !IsRed(r) && Rb(l, h) && Rb(r, h)
  }

  function BlackHeight<N>(t: Tree<N>): nat {
    if t.Leaf? then 0 else BlackHeight(t.left) + (if t.color.Black? then 1 else 0)
  }

  predicate RedBlack<N>(t: Tree<N>) {
    !IsRed(t) && Rb(t, BlackHeight(t))
  }

  /** The parent at the hole exists and is black. */
  predicate BlackAbove<N>(c: Path<N>) {
    !c.Top? && c.color.Black?
  }

  function Lift(color: Color, h: nat): nat {
    if color.Black? then h + 1 else h
  }

  /** The frames are red-black around a hole that owes h black nodes. */
  predicate PathOk<N>(c: Path<N>, h: nat) {
    match c
    case Top => true
    case InLeft(up, _, col, r) =>
      Rb(r, h) && (col.Red? ==> !IsRed(r) && BlackAbove(up)) && PathOk(up, Lift(col, h))
    case InRight(up, l, _, col) =>
      Rb(l, h) && (col.Red? ==> !IsRed(l) && BlackAbove(up)) && PathOk(up, Lift(col, h))
  }

  lemma {:induction false} FlatPlug<N>(c: Path<N>, t: Tree<N>)
    ensures Items(Plug(c, t)) == Flat(c, t)
  {
    if !c.Top? {
      FlatPlug(c.up, Close(c, t));
      FlatClose(c, t);
    }
  }

  lemma FlatClose<N>(c: Path<N>, t: Tree<N>)
    requires !c.Top?
    ensures Flat(c, t) == Flat(c.up, Close(c, t))
  {
    if c.InLeft? {
      assert Flat(c.up, Close(c, t)) == Before(c.up) + (Items(t) + [c.item] + Items(c.right)) + After(c.up);
    } else {
      assert Flat(c.up, Close(c, t)) == Before(c.up) + (Items(c.left) + [c.item] + Items(t)) + After(c.up);
    }
  }

  lemma {:induction false} HeightIsUnique<N>(t: Tree<N>, h: nat)
    requires Rb(t, h)
    ensures h == BlackHeight(t)
  {
    if t.Node? {
      HeightIsUnique(t.left, if t.color.Black? then h - 1 else h);
    }
  }

  /** A valid subtree in valid frames makes a valid tree. */
  lemma {:induction false} PlugRedBlack<N>(c: Path<N>, t: Tree<N>, h: nat)
    requires PathOk(c, h) && Rb(t, h)
    requires IsRed(t) ==> BlackAbove(c)
    ensures RedBlack(Plug(c, t))
  {
    if c.Top? {
      HeightIsUnique(t, h);
    } else {
      PlugRedBlack(c.up, Close(c, t), Lift(c.color, h));
    }
  }

  /** Any place in a valid tree: valid below, valid frames around. */
  lemma {:induction false} SplitRedBlack<N>(c: Path<N>, t: Tree<N>) returns (h: nat)
    requires RedBlack(Plug(c, t))
    ensures PathOk(c, h) && Rb(t, h)
    ensures IsRed(t) ==> BlackAbove(c)
  {
    if c.Top? {
      h := BlackHeight(t);
    } else {
      var h' := SplitRedBlack(c.up, Close(c, t));
      h := if c.color.Black? then h' - 1 else h';
    }
  }

  /** The frames of q on top of those of base. */
  function Join<N>(q: Path<N>, base: Path<N>): Path<N> {
    match q
    case Top => base
    case InLeft(up, n, col, r) => InLeft(Join(up, base), n, col, r)
    case InRight(up, l, n, col) => InRight(Join(up, base), l, n, col)
  }

  lemma {:induction false} JoinTop<N>(c: Path<N>)
    ensures Join(c, Top) == c
  {
    if !c.Top? {
      JoinTop(c.up);
    }
  }

  lemma {:induction false} PlugJoin<N>(q: Path<N>, base: Path<N>, t: Tree<N>)
    ensures Plug(Join(q, base), t) == Plug(base, Plug(q, t))
  {
    if !q.Top? {
      PlugJoin(q.up, base, Close(q, t));
    }
  }

  function LeftRotated<N>(t: Tree<N>): Tree<N>
    requires t.Node? && t.right.Node?
  {
    Node(Node(t.left, t.item, t.color, t.right.left), t.right.item, t.right.color, t.right.right)
  }

  function RightRotated<N>(t: Tree<N>): Tree<N>
    requires t.Node? && t.left.Node?
  {
    Node(t.left.left, t.left.item, t.left.color, Node(t.left.right, t.item, t.color, t.right))
  }

  // ---- one side and its mirror image ----

  datatype Side = Left | Right {
    function Other(): Side {
      if Left? then Right else Left
    }
  }

  function Near<N>(s: Side, t: Tree<N>): Tree<N>
    requires t.Node?
  {
    if s.Left? then t.left else t.right
  }

  function Far<N>(s: Side, t: Tree<N>): Tree<N>
    requires t.Node?
  {
    Near(s.Other(), t)
  }

  function Make<N>(s: Side, near: Tree<N>, n: N, color: Color, far: Tree<N>): Tree<N> {
    if s.Left? then Node(near, n, color, far) else Node(far, n, color, near)
  }

  /** The frame around a near child, given the far one. */
  function Frame<N>(s: Side, up: Path<N>, n: N, color: Color, far: Tree<N>): Path<N> {
    if s.Left? then InLeft(up, n, color, far) else InRight(up, far, n, color)
  }

  function SideOf<N>(c: Path<N>): Side
    requires !c.Top?
  {
    if c.InLeft? then Left else Right
  }

  /** The other child of the innermost frame. */
  function Sibling<N>(c: Path<N>): Tree<N>
    requires !c.Top?
  {
    if c.InLeft? then c.right else c.left
  }

  /** Rotation towards side s: the far child comes up. */
  function Turned<N>(s: Side, t: Tree<N>): Tree<N>
    requires t.Node? && Far(s, t).Node?
  {
    if s.Left? then LeftRotated(t) else RightRotated(t)
  }

  function Painted<N>(t: Tree<N>, color: Color): Tree<N> {
    if t.Leaf? then t else t.(color := color)
  }

  lemma Regroup<N>(a: seq<N>, x: seq<N>, b: seq<N>, y: seq<N>, d: seq<N>)
    ensures (a + x + b) + y + d == a + x + (b + y + d)
  {}

  lemma TurnKeepsItems<N>(s: Side, t: Tree<N>)
    requires t.Node? && Far(s, t).Node?
    ensures Items(Turned(s, t)) == Items(t)
  {
    var y := Far(s, t);
    if s.Left? {
      Regroup(Items(t.left), [t.item], Items(y.left), [y.item], Items(y.right));
    } else {
      Regroup(Items(y.left), [y.item], Items(y.right), [t.item], Items(t.right));
    }
  }

  lemma PaintKeepsItems<N>(t: Tree<N>, color: Color)
    ensures Items(Painted(t, color)) == Items(t)
  {}

  lemma SameFlat<N>(c: Path<N>, t: Tree<N>, t': Tree<N>)
    requires Items(t) == Items(t')
    ensures Flat(c, t) == Flat(c, t')
  {}

  /** The subtree of the grandparent. */
  function Grand<N>(c: Path<N>, t: Tree<N>): Tree<N>
    requires !c.Top? && !c.up.Top?
  {
    Close(c.up, Close(c, t))
  }

  lemma FlatGrand<N>(c: Path<N>, t: Tree<N>)
    requires !c.Top? && !c.up.Top?
    ensures Flat(c.up.up, Grand(c, t)) == Flat(c, t)
  {
    FlatClose(c, t);
    FlatClose(c.up, Close(c, t));
  }

  // ---- insert fix-up ----

  /** A red node with no fault below it, in frames that are otherwise fine. */
  predicate InsertOk<N>(c: Path<N>, t: Tree<N>, h: nat) {
    IsRed(t) && Rb(t, h) && PathOk(c, h)
  }

  lemma NewNodeOk<N>(c: Path<N>, n: N, h: nat)
    requires PathOk(c, h) && Rb<N>(Leaf, h)
    ensures InsertOk(c, Node(Leaf, n, Red, Leaf), h)
  {}

  /** A red frame has a black one above it. */
  lemma RedFrame<N>(c: Path<N>, h: nat)
    requires PathOk(c, h) && !c.Top? && c.color.Red?
    ensures !c.up.Top? && c.up.color.Black?
    ensures PathOk(c.up, h) && PathOk(c.up.up, h + 1)
    ensures Rb(Sibling(c), h) && !IsRed(Sibling(c)) && Rb(Sibling(c.up), h)
  {}

  /** Parent and uncle black, grandparent red (seen from the grandparent). */
  function Recolored<N>(g: Tree<N>): Tree<N>
    requires g.Node?
  {
    Node(Painted(g.left, Black), g.item, Red, Painted(g.right, Black))
  }

  lemma RecolorOk<N>(c: Path<N>, t: Tree<N>, h: nat)
    requires InsertOk(c, t, h) && !c.Top? && c.color.Red? && !c.up.Top? && IsRed(Sibling(c.up))
    ensures InsertOk(c.up.up, Recolored(Grand(c, t)), h + 1)
    ensures Flat(c.up.up, Recolored(Grand(c, t))) == Flat(c, t)
  {
    RedFrame(c, h);
    FlatGrand(c, t);
    var g := Grand(c, t);
    PaintKeepsItems(g.left, Black);
    PaintKeepsItems(g.right, Black);
  }

  /** A node between its parent and grandparent: turn the parent, then go on from it. */
  lemma InnerOk<N>(s: Side, c: Path<N>, t: Tree<N>, h: nat)
    requires InsertOk(c, t, h) && !c.Top? && c.color.Red? && SideOf(c) == s.Other()
    ensures var p := Close(c, t); var r := Turned(s, p);
      && Far(s, p) == t && Near(s, r).Node? && r.color.Red?
      && InsertOk(Frame(s, c.up, r.item, Red, Far(s, r)), Near(s, r), h)
      && Flat(Frame(s, c.up, r.item, Red, Far(s, r)), Near(s, r)) == Flat(c, t)
  {
    RedFrame(c, h);
    FlatClose(c, t);
    var r := Turned(s, Close(c, t));
    TurnKeepsItems(s, Close(c, t));
    FlatClose(Frame(s, c.up, r.item, Red, Far(s, r)), Near(s, r));
  }

  /** Parent black, grandparent red, then the turn that lifts the parent. */
  function Raised<N>(s: Side, g: Tree<N>): Tree<N>
    requires g.Node? && Near(s, g).Node?
  {
    Turned(s.Other(), Make(s, Painted(Near(s, g), Black), g.item, Red, Far(s, g)))
  }

  lemma RaiseOk<N>(s: Side, c: Path<N>, t: Tree<N>, h: nat)
    requires InsertOk(c, t, h) && !c.Top? && c.color.Red? && !c.up.Top?
    requires SideOf(c) == s && SideOf(c.up) == s && !IsRed(Sibling(c.up))
    ensures var g := Grand(c, t);
      && Near(s, g).Node?
      && var r := Raised(s, g);
      && Near(s, r) == t && r.color.Black?
      && InsertOk(Frame(s, c.up.up, r.item, Black, Far(s, r)), t, h)
      && Flat(c.up.up, r) == Flat(c, t)
  {
    RedFrame(c, h);
    FlatGrand(c, t);
    var g := Grand(c, t);
    PaintKeepsItems(Near(s, g), Black);
    TurnKeepsItems(s.Other(), Make(s, Painted(Near(s, g), Black), g.item, Red, Far(s, g)));
  }

  /** The last step: the head black. */
  lemma FinishInsert<N>(c: Path<N>, t: Tree<N>, h: nat)
    requires InsertOk(c, t, h) && (c.Top? || c.color.Black?)
    ensures Plug(c, t).Node? && RedBlack(Painted(Plug(c, t), Black))
    ensures Items(Painted(Plug(c, t), Black)) == Flat(c, t)
  {
    FlatPlug(c, t);
    PaintKeepsItems(Plug(c, t), Black);
    if c.Top? {
      assert Rb(Painted(t, Black), h + 1);
      HeightIsUnique(Painted(t, Black), h + 1);
    } else {
      PlugRedBlack(c, t, h);
      PlugIsNode(c, t);
      assert Painted(Plug(c, t), Black) == Plug(c, t);
    }
  }

  lemma {:induction false} PlugIsNode<N>(c: Path<N>, t: Tree<N>)
    requires t.Node? || !c.Top?
    ensures Plug(c, t).Node?
  {
    if !c.Top? {
      PlugIsNode(c.up, Close(c, t));
    }
  }

  // ---- delete fix-up ----

  /** The frames expect one black node more than t has; a red t can make up for it. */
  predicate DeleteOk<N>(c: Path<N>, t: Tree<N>, h: nat) {
    PathOk(c, h + 1) && if IsRed(t) then Rb(Painted(t, Black), h + 1) else Rb(t, h)
  }

  /** The sibling of a node that lacks one black node is there. */
  lemma HasSibling<N>(c: Path<N>, t: Tree<N>, h: nat)
    requires DeleteOk(c, t, h) && !c.Top?
    ensures Sibling(c).Node? && Rb(Sibling(c), h + 1)
    ensures IsRed(Sibling(c)) ==> c.color.Black? && Sibling(c).left.Node? && Sibling(c).right.Node?
                                  && !IsRed(Sibling(c).left) && !IsRed(Sibling(c).right)
  {
    var b := Sibling(c);
    assert Rb(b, h + 1);
    if IsRed(b) {
      assert Rb(b.left, h + 1) && Rb(b.right, h + 1);
    }
  }

  /** Red sibling: it is lifted over the parent. */
  lemma RedSiblingOk<N>(s: Side, c: Path<N>, t: Tree<N>, h: nat)
    requires DeleteOk(c, t, h) && !IsRed(t) && !c.Top? && SideOf(c) == s && IsRed(Sibling(c))
    ensures var p := Close(c, t);
      && Far(s, p).Node?
      && var r := Raised(s.Other(), p);
      && var low := Near(s, r);
      && low.Node? && Near(s, low) == t && low.color.Red? && r.color.Black?
      && DeleteOk(Frame(s, Frame(s, c.up, r.item, Black, Far(s, r)), low.item, Red, Far(s, low)), t, h)
      && !IsRed(Far(s, low))
      && Flat(c.up, r) == Flat(c, t)
  {
    FlatClose(c, t);
    var p := Close(c, t);
    PaintKeepsItems(Far(s, p), Black);
    TurnKeepsItems(s, Make(s, t, p.item, Red, Painted(Far(s, p), Black)));
  }

  /** Black sibling with no red child: sibling red, go on from the parent. */
  lemma BlackNephewsOk<N>(s: Side, c: Path<N>, t: Tree<N>, h: nat)
    requires DeleteOk(c, t, h) && !IsRed(t) && !c.Top? && SideOf(c) == s
    requires Sibling(c).Node? && !IsRed(Sibling(c)) && !IsRed(Sibling(c).left) && !IsRed(Sibling(c).right)
    ensures var p := Make(s, t, c.item, c.color, Painted(Sibling(c), Red));
      && DeleteOk(c.up, p, if c.color.Black? then h + 1 else h)
      && Flat(c.up, p) == Flat(c, t)
  {
    FlatClose(c, t);
    PaintKeepsItems(Sibling(c), Red);
  }

  /** Near nephew red, far one not: the nephew is lifted over the sibling. */
  lemma NearNephewOk<N>(s: Side, c: Path<N>, t: Tree<N>, h: nat)
    requires DeleteOk(c, t, h) && !IsRed(t) && !c.Top? && SideOf(c) == s
    requires Sibling(c).Node? && !IsRed(Sibling(c)) && !IsRed(Far(s, Sibling(c))) && IsRed(Near(s, Sibling(c)))
    ensures var b := Raised(s, Sibling(c));
      && DeleteOk(Frame(s, c.up, c.item, c.color, b), t, h)
      && !IsRed(b) && IsRed(Far(s, b))
      && Flat(Frame(s, c.up, c.item, c.color, b), t) == Flat(c, t)
  {
    var b := Sibling(c);
    var n := Near(s, b);
    assert Rb(b, h + 1) && Rb(n, h) && Rb(Far(s, b), h);
    assert Rb(Near(s, n), h) && Rb(Far(s, n), h);
    assert Rb(Make(s, Far(s, n), b.item, Red, Far(s, b)), h);
    assert Rb(Raised(s, b), h + 1);
    PaintKeepsItems(Near(s, b), Black);
    TurnKeepsItems(s.Other(), Make(s, Painted(Near(s, b), Black), b.item, Red, Far(s, b)));
  }

  /** Far nephew red: sibling takes the parent's colour, parent and nephew black, turn. */
  function Settled<N>(s: Side, p: Tree<N>): Tree<N>
    requires p.Node? && Far(s, p).Node?
  {
    var b := Far(s, p);
    Turned(s, Make(s, Near(s, p), p.item, Black, Make(s, Near(s, b), b.item, p.color, Painted(Far(s, b), Black))))
  }

  lemma FarNephewOk<N>(s: Side, c: Path<N>, t: Tree<N>, h: nat)
    requires DeleteOk(c, t, h) && !IsRed(t) && !c.Top? && SideOf(c) == s
    requires Sibling(c).Node? && !IsRed(Sibling(c)) && IsRed(Far(s, Sibling(c)))
    ensures var p := Close(c, t);
      && Far(s, p).Node?
      && RedBlack(Plug(c.up, Settled(s, p)))
      && Flat(c.up, Settled(s, p)) == Flat(c, t)
  {
    FlatClose(c, t);
    var p := Close(c, t);
    var b := Far(s, p);
    PaintKeepsItems(Far(s, b), Black);
    TurnKeepsItems(s, Make(s, t, p.item, Black, Make(s, Near(s, b), b.item, p.color, Painted(Far(s, b), Black))));
    assert Rb(b, h + 1) && Rb(Near(s, b), h) && Rb(Far(s, b), h);
    assert Rb(Make(s, t, p.item, Black, Near(s, b)), h + 1);
    assert Rb(Painted(Far(s, b), Black), h + 1);
    assert Rb(Settled(s, p), Lift(c.color, h + 1));
    PlugRedBlack(c.up, Settled(s, p), Lift(c.color, h + 1));
  }

  /** The last step: the node at hand, if there is one, black. */
  lemma FinishDelete<N>(c: Path<N>, t: Tree<N>, h: nat)
    requires DeleteOk(c, t, h) && (IsRed(t) || c.Top?)
    ensures RedBlack(Plug(c, Painted(t, Black)))
  {
    PlugRedBlack(c, Painted(t, Black), if IsRed(t) then h + 1 else h);
  }

  lemma BlackAlready<N>(t: Tree<N>)
    requires RedBlack(t)
    ensures Painted(t, Black) == t == Plug(Top, t) && Flat(Top, t) == Items(t)
  {}

  function Without<T>(s: seq<T>, i: nat): seq<T>
    requires i < |s|
  {
    s[..i] + s[i + 1..]
  }

  /** Taking out a node that has at most one child. */
  lemma RemoveOk<N>(c: Path<N>, t: Tree<N>, child: Tree<N>, h: nat)
    requires PathOk(c, h) && Rb(t, h) && (IsRed(t) ==> BlackAbove(c)) && t.Node?
    requires (t.left.Leaf? && child == t.right) || (t.right.Leaf? && child == t.left)
    ensures t.color.Black? ==> h > 0 && DeleteOk(c, child, h - 1)
    ensures t.color.Red? ==> RedBlack(Plug(c, child))
  {
    if t.color.Red? {
      PlugRedBlack(c, child, h);
    }
  }

  lemma Widen<T>(a: seq<T>, l: seq<T>, x: seq<T>, r: seq<T>, b: seq<T>)
    ensures a + (l + x + r) + b == (a + l) + x + (r + b)
    ensures a + (l + r) + b == (a + l) + (r + b)
  {}

  lemma WithoutMiddle<T>(a: seq<T>, x: T, b: seq<T>)
    ensures |a| < |a + [x] + b| && (a + [x] + b)[|a|] == x
    ensures Without(a + [x] + b, |a|) == a + b
  {}

  lemma WithoutInside<T>(a: seq<T>, l: seq<T>, o: T, r: seq<T>, b: seq<T>)
    ensures var s := a + (l + [o] + r) + b;
      && |a| + |l| < |s| && s[|a| + |l|] == o
      && Without(s, |a| + |l|) == (a + l) + (r + b)
  {
    Widen(a, l, [o], r, b);
    WithoutMiddle(a + l, o, r + b);
  }

  lemma RemoveItems<N>(c: Path<N>, t: Tree<N>, child: Tree<N>)
    requires t.Node?
    requires (t.left.Leaf? && child == t.right) || (t.right.Leaf? && child == t.left)
    ensures var i := |Before(c)| + |Items(t.left)|;
      && i < |Flat(c, t)| && Flat(c, t)[i] == t.item && Flat(c, child) == Without(Flat(c, t), i)
  {
    WithoutInside(Before(c), Items(t.left), t.item, Items(t.right), After(c));
    Widen(Before(c), Items(t.left), [], Items(t.right), After(c));
    assert Items(child) == Items(t.left) + Items(t.right);
  }

  lemma FlatJoin<N>(q: Path<N>, base: Path<N>, t: Tree<N>)
    ensures Flat(Join(q, base), t) == Flat(base, Plug(q, t))
  {
    FlatPlug(Join(q, base), t);
    PlugJoin(q, base, t);
    FlatPlug(base, Plug(q, t));
  }

  /** Frames are as good with another node in one of them. */
  lemma {:induction false} PathOkItem<N>(q: Path<N>, base: Path<N>, y: N, h: nat)
    requires !base.Top? && PathOk(Join(q, base), h)
    ensures PathOk(Join(q, base.(item := y)), h)
    ensures BlackAbove(Join(q, base)) ==> BlackAbove(Join(q, base.(item := y)))
  {
    if !q.Top? {
      PathOkItem(q.up, base, y, Lift(q.color, h));
    }
  }

  lemma LeftmostItems<N>(q: Path<N>, s: Tree<N>)
    requires s.Node? && s.left.Leaf? && Before(q) == []
    ensures Items(Plug(q, s)) == [s.item] + Items(Plug(q, s.right))
  {
    FlatPlug(q, s);
    FlatPlug(q, s.right);
    assert Items(s) == [s.item] + Items(s.right);
  }

  lemma InsideOut<T>(a: seq<T>, l: seq<T>, y: T, r: seq<T>, b: seq<T>)
    ensures a + (l + [y] + r) + b == (a + l) + (([y] + r) + b)
  {}

  /** The leftmost node s.item below t.right comes up in place of t.item. */
  lemma SuccessorItems<N>(c: Path<N>, t: Tree<N>, q: Path<N>, s: Tree<N>)
    requires t.Node? && s.Node? && s.left.Leaf? && Plug(q, s) == t.right && Before(q) == []
    ensures var i := |Before(c)| + |Items(t.left)|;
      && i < |Flat(c, t)| && Flat(c, t)[i] == t.item
      && Flat(c, Node(t.left, s.item, t.color, Plug(q, s.right))) == Without(Flat(c, t), i)
  {
    LeftmostItems(q, s);
    var r := Items(Plug(q, s.right));
    WithoutInside(Before(c), Items(t.left), t.item, [s.item] + r, After(c));
    InsideOut(Before(c), Items(t.left), s.item, r, After(c));
  }
}
