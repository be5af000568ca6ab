/** Key order in a red-black tree, and how deep a search can go. */
module RbOrder {
  import opened RbShape
  import opened RbLinks
  import opened Powers

  /** What strcmp and the integer comparison of adx_rbtree.c have in common. */
  ghost predicate TotalOrder<K(!new)>(cmp: (K, K) -> int) {
    && (forall a, b :: cmp(a, b) == 0 <==> a == b)
    && (forall a, b :: cmp(a, b) < 0 <==> cmp(b, a) > 0)
    && (forall a, b, c :: cmp(a, b) < 0 && cmp(b, c) < 0 ==> cmp(a, c) < 0)
  }

  ghost predicate Ordered<K>(cmp: (K, K) -> int, s: seq<RbNode<K>>) {
    forall i, j :: 0 <= i < j < |s| ==> cmp(s[i].key, s[j].key) < 0
  }

  ghost predicate Below<K>(cmp: (K, K) -> int, s: seq<RbNode<K>>, key: K) {
    forall n <- s :: cmp(n.key, key) < 0
  }

  ghost predicate Above<K>(cmp: (K, K) -> int, s: seq<RbNode<K>>, key: K) {
    forall n <- s :: cmp(key, n.key) < 0
  }

  /** key belongs in the hole of c. */
  ghost predicate Fits<K>(cmp: (K, K) -> int, c: Frames<K>, key: K) {
    Below(cmp, Before(c), key) && Above(cmp, After(c), key)
  }

  ghost function KeysOf<K>(s: seq<RbNode<K>>): set<K> {
    set n | n in s :: n.key
  }

  lemma Around<K>(cmp: (K, K) -> int, a: seq<RbNode<K>>, x: RbNode<K>, b: seq<RbNode<K>>)
    requires Ordered(cmp, a + [x] + b)
    ensures Below(cmp, a, x.key) && Above(cmp, b, x.key)
  {
    var s := a + [x] + b;
    assert s[|a|] == x;
    forall n | n in a ensures cmp(n.key, x.key) < 0 {
      var i :| 0 <= i < |a| && a[i] == n;
      assert s[i] == n;
    }
    forall n | n in b ensures cmp(x.key, n.key) < 0 {
      var i :| 0 <= i < |b| && b[i] == n;
      assert s[|a| + 1 + i] == n;
    }
  }

  lemma BelowTrans<K(!new)>(cmp: (K, K) -> int, s: seq<RbNode<K>>, k: K, k': K)
    requires TotalOrder(cmp) && cmp(k, k') < 0
    ensures Below(cmp, s, k) ==> Below(cmp, s, k')
    ensures Above(cmp, s, k') ==> Above(cmp, s, k)
  {}

  /** Where the search goes next. */
  lemma Descend<K(!new)>(cmp: (K, K) -> int, c: Frames<K>, t: Shape<K>, key: K)
    requires TotalOrder(cmp) && t.Node? && Fits(cmp, c, key) && Ordered(cmp, Flat(c, t))
    ensures cmp(key, t.item.key) < 0 ==> Fits(cmp, LeftFrame(c, t), key)
    ensures cmp(key, t.item.key) > 0 ==> Fits(cmp, RightFrame(c, t), key)
    ensures Flat(LeftFrame(c, t), t.left) == Flat(c, t) == Flat(RightFrame(c, t), t.right)
  {
    FlatClose(LeftFrame(c, t), t.left);
    FlatClose(RightFrame(c, t), t.right);
    var a, b := Before(c) + Items(t.left), Items(t.right) + After(c);
    assert Flat(c, t) == a + [t.item] + b;
    Around(cmp, a, t.item, b);
    if cmp(key, t.item.key) < 0 {
      BelowTrans(cmp, b, key, t.item.key);
      forall n | n in After(LeftFrame(c, t)) ensures cmp(key, n.key) < 0 {
        assert n == t.item || n in b;
      }
    }
    if cmp(key, t.item.key) > 0 {
      BelowTrans(cmp, a, t.item.key, key);
      forall n | n in Before(RightFrame(c, t)) ensures cmp(n.key, key) < 0 {
        assert n == t.item || n in a;
      }
    }
  }

  lemma OrderedInsert<K>(cmp: (K, K) -> int, a: seq<RbNode<K>>, x: RbNode<K>, b: seq<RbNode<K>>)
    requires Ordered(cmp, a + b) && Below(cmp, a, x.key) && Above(cmp, b, x.key)
    ensures Ordered(cmp, a + [x] + b)
  {
    var s, u := a + [x] + b, a + b;
    forall i, j | 0 <= i < j < |s| ensures cmp(s[i].key, s[j].key) < 0 {
      var i', j' := if i < |a| then i else i - 1, if j < |a| then j else j - 1;
      if i == |a| {
        assert s[j] == b[j'- |a|];
      } else if j == |a| {
        assert s[i] == a[i];
      } else {
        assert s[i] == u[i'] && s[j] == u[j'];
      }
    }
  }

  /** A key that fits an empty place is new, and stays in order when put there. */
  lemma FitsIsNew<K(!new)>(cmp: (K, K) -> int, c: Frames<K>, x: RbNode<K>)
    requires TotalOrder(cmp) && Fits(cmp, c, x.key) && Ordered(cmp, Flat(c, Leaf))
    ensures forall n: RbNode<K> <- Flat(c, Leaf) :: n.key != x.key
    ensures Flat(c, Node(Leaf, x, Red, Leaf)) == Before(c) + [x] + After(c)
    ensures Ordered(cmp, Before(c) + [x] + After(c))
  {
    assert Flat(c, Leaf) == Before(c) + After(c);
    OrderedInsert(cmp, Before(c), x, After(c));
  }

  lemma EmptyFits<K>(cmp: (K, K) -> int, key: K)
    ensures Fits(cmp, Top, key)
  {}

  lemma InFlat<K>(c: Frames<K>, t: Shape<K>)
    requires t.Node?
    ensures t.item in Flat(c, t)
  {
    assert Flat(c, t)[|Before(c)| + |Items(t.left)|] == t.item;
  }

  /** A search that ends at an empty place has not missed its key. */
  lemma NotThere<K(!new)>(cmp: (K, K) -> int, c: Frames<K>, key: K)
    requires TotalOrder(cmp) && Fits(cmp, c, key)
    ensures key !in KeysOf(Flat(c, Leaf))
  {
    forall n: RbNode<K> | n in Flat(c, Leaf) ensures n.key != key {
      assert n in Before(c) || n in After(c);
    }
  }

  /** The parent of an empty place is next to it in key order. */
  lemma ParentIsNext<K>(c: Frames<K>)
    requires !c.Top?
    ensures c.InLeft? ==> |After(c)| > 0 && After(c)[0] == c.item
    ensures c.InRight? ==> |Before(c)| > 0 && Before(c)[|Before(c)| - 1] == c.item
  {}

  lemma SplitAt<K>(c: Frames<K>)
    ensures Flat(c, Leaf)[..|Before(c)|] == Before(c) && Flat(c, Leaf)[|Before(c)|..] == After(c)
    ensures Flat(c, Leaf) == Before(c) + After(c)
  {
    assert Flat(c, Leaf) == Before(c) + After(c);
  }

  lemma OrderedWithout<K>(cmp: (K, K) -> int, s: seq<RbNode<K>>, i: nat)
    requires i < |s| && Ordered(cmp, s)
    ensures Ordered(cmp, Without(s, i))
  {
    var u := Without(s, i);
    forall j, k | 0 <= j < k < |u| ensures cmp(u[j].key, u[k].key) < 0 {
      assert u[j] == s[if j < i then j else j + 1] && u[k] == s[if k < i then k else k + 1];
    }
  }

  // ---- depth ----

  function Height<N>(t: Tree<N>): nat {
    if t.Leaf? then 0 else 1 + (if Height(t.left) > Height(t.right) then Height(t.left) else Height(t.right))
  }

  lemma {:induction false} HeightBound<N>(t: Tree<N>, h: nat)
    requires Rb(t, h)
    ensures Height(t) <= 2 * h + (if IsRed(t) then 1 else 0)
    ensures Pow2(h) <= |Items(t)| + 1
  {
    if t.Node? {
      var h' := if t.color.Black? then h - 1 else h;
      HeightBound(t.left, h');
      HeightBound(t.right, h');
    }
  }

  lemma SquareMonotone(a: nat, b: nat)
    requires a <= b
    ensures a * a <= b * b
  {}

  /** A tree of n nodes is at most 2 * log2(n + 1) high. */
  lemma LogarithmicHeight<N>(t: Tree<N>)
    requires RedBlack(t)
    ensures Pow2(Height(t)) <= (|Items(t)| + 1) * (|Items(t)| + 1)
  {
    var h := BlackHeight(t);
    HeightBound(t, h);
    Pow2Monotone(Height(t), h + h);
    Pow2Add(h, h);
    SquareMonotone(Pow2(h), |Items(t)| + 1);
  }
}
