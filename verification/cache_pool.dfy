/** The multi-index cache: nodes of a memory pool, each with a child list and three search trees. */
module CachePool {
  import opened Common

  /** adx_cache_value_t */
  datatype Value = Str(s: string) | Num(n: int) | Arr(i: int) | Null | Error

  /** A node by its position in the pool; nodes are never given back. The trees are the sets of rbtree
      entries, seen as maps from keys to nodes. */
  type Id = nat

  datatype Node = Node(key: Value, val: Value, parent: Option<Id>, childTotal: int, childList: seq<Id>,
                       treeString: map<string, Id>, treeNumber: map<int, Id>, treeArray: map<int, Id>)

  type Nodes = seq<Node>

  function Fresh(key: Value, val: Value, parent: Option<Id>): Node {
    Node(key, val, parent, 0, [], map[], map[], map[])
  }

  // ---- the indexes of a node agree ----

  /** Children come after their parent, and know it; their keys and values are of the storable kinds. */
  ghost predicate Family(nodes: Nodes, n: Id)
    requires n < |nodes|
  {
    && Distinct(nodes[n].childList)
    && forall c :: c in nodes[n].childList ==>
         && n < c < |nodes| && nodes[c].parent == Some(n)
         && (nodes[c].key.Str? || nodes[c].key.Num? || nodes[c].key.Arr?)
         && (nodes[c].val.Str? || nodes[c].val.Num? || nodes[c].val.Null?)
  }

  /** The array tree holds the children of the list, in the order they were added. */
  ghost predicate ArrayAgrees(nodes: Nodes, n: Id)
    requires n < |nodes|
  {
    var x := nodes[n];
    && x.childTotal == |x.childList|
    && (forall i :: i in x.treeArray <==> 0 <= i < x.childTotal)
    && (forall i :: 0 <= i < x.childTotal ==> x.treeArray[i] in x.childList)
    && (forall i, j :: 0 <= i < j < x.childTotal ==> x.treeArray[i] < x.treeArray[j])
    && forall c :: c in x.childList ==> exists i :: 0 <= i < x.childTotal && x.treeArray[i] == c
  }

  /** The keyed trees hold exactly the children with such keys, and no two children share one. */
  ghost predicate StringsAgree(nodes: Nodes, n: Id)
    requires n < |nodes|
  {
    var x := nodes[n];
    && (forall c :: c in x.childList && c < |nodes| && nodes[c].key.Str? ==>
          nodes[c].key.s in x.treeString && x.treeString[nodes[c].key.s] == c)
    && forall s :: s in x.treeString ==>
         x.treeString[s] in x.childList && x.treeString[s] < |nodes| && nodes[x.treeString[s]].key == Str(s)
  }

  ghost predicate NumbersAgree(nodes: Nodes, n: Id)
    requires n < |nodes|
  {
    var x := nodes[n];
    && (forall c :: c in x.childList && c < |nodes| && nodes[c].key.Num? ==>
          nodes[c].key.n in x.treeNumber && x.treeNumber[nodes[c].key.n] == c)
    && forall k :: k in x.treeNumber ==>
         x.treeNumber[k] in x.childList && x.treeNumber[k] < |nodes| && nodes[x.treeNumber[k]].key == Num(k)
  }

  ghost predicate Agrees(nodes: Nodes, n: Id)
    requires n < |nodes|
  {
    Family(nodes, n) && ArrayAgrees(nodes, n) && StringsAgree(nodes, n) && NumbersAgree(nodes, n)
  }

  ghost predicate Valid(nodes: Nodes) {
    && (forall n :: 0 <= n < |nodes| ==> Agrees(nodes, n))
    && forall n :: 0 <= n < |nodes| && nodes[n].parent.Some? ==> nodes[n].parent.value < n
  }

  // ---- find ----

  function Find(nodes: Nodes, n: Id, key: Value): Option<Id>
    requires n < |nodes|
  {
    var x := nodes[n];
    match key
    case Str(s) => if s in x.treeString then Some(x.treeString[s]) else None
    case Num(k) => if k in x.treeNumber then Some(x.treeNumber[k]) else None
    case Arr(i) => if i in x.treeArray then Some(x.treeArray[i]) else None
    case _ => None
  }

  /** A linear scan of the child list for a string or number key. */
  function Scan(nodes: Nodes, list: seq<Id>, key: Value): Option<Id>
    requires forall i :: 0 <= i < |list| ==> list[i] < |nodes|
  {
    if list == [] then None
    else if nodes[list[0]].key == key then Some(list[0])
    else Scan(nodes, list[1..], key)
  }

  lemma {:induction false} ScanFinds(nodes: Nodes, list: seq<Id>, key: Value)
    requires forall i :: 0 <= i < |list| ==> list[i] < |nodes|
    ensures Scan(nodes, list, key) == None <==> forall c :: c in list ==> nodes[c].key != key
    ensures Scan(nodes, list, key).Some? ==>
              Scan(nodes, list, key).value in list && nodes[Scan(nodes, list, key).value].key == key
    decreases |list|
  {
    if list != [] {
      assert forall c :: c in list <==> c == list[0] || c in list[1..];
      ScanFinds(nodes, list[1..], key);
    }
  }

  /** Finding in the trees is scanning the list; by position it gives the child added at that position. */
  lemma FindIsScan(nodes: Nodes, n: Id, key: Value)
    requires Valid(nodes) && n < |nodes|
    ensures forall i :: 0 <= i < |nodes[n].childList| ==> nodes[n].childList[i] < |nodes|
    ensures key.Str? || key.Num? ==> Find(nodes, n, key) == Scan(nodes, nodes[n].childList, key)
    ensures key.Arr? ==> (Find(nodes, n, key).Some? <==> 0 <= key.i < |nodes[n].childList|)
    ensures key.Arr? && Find(nodes, n, key).Some? ==>
              Find(nodes, n, key).value in nodes[n].childList && |AddedBefore(nodes, n, Find(nodes, n, key).value)| == key.i
  {
    assert Agrees(nodes, n);
    assert forall i :: 0 <= i < |nodes[n].childList| ==> nodes[n].childList[i] in nodes[n].childList;
    if key.Str? || key.Num? {
      ScanFinds(nodes, nodes[n].childList, key);
    }
    if key.Arr? && 0 <= key.i < |nodes[n].childList| {
      ByPosition(nodes, n, key.i);
    }
    hide Family, ArrayAgrees, AddedBefore, Distinct;
  }

  lemma ByPosition(nodes: Nodes, n: Id, i: nat)
    requires n < |nodes| && ArrayAgrees(nodes, n) && i < |nodes[n].childList|
    ensures i in nodes[n].treeArray && nodes[n].treeArray[i] in nodes[n].childList
    ensures |AddedBefore(nodes, n, nodes[n].treeArray[i])| == i
  {
    FirstOnes(nodes[n].treeArray, i);
    EarlierOnes(nodes, n, i);
    hide AddedBefore, Firsts;
  }

  lemma EarlierOnes(nodes: Nodes, n: Id, i: nat)
    requires n < |nodes| && ArrayAgrees(nodes, n) && i < |nodes[n].childList|
    ensures AddedBefore(nodes, n, nodes[n].treeArray[i]) == Firsts(nodes[n].treeArray, i)
  {
    var t := nodes[n].treeArray;
    forall d | d in nodes[n].childList && d < t[i] ensures d in Firsts(t, i) {
      var j :| 0 <= j < nodes[n].childTotal && t[j] == d;
      assert j < i;
    }
  }

  /** The siblings that were added before this child: ids are given out in the order of adding. */
  function AddedBefore(nodes: Nodes, n: Id, child: Id): set<Id>
    requires n < |nodes|
  {
    set d | d in nodes[n].childList && d < child
  }

  function Firsts(t: map<int, Id>, k: nat): set<Id>
    requires forall i :: 0 <= i < k ==> i in t
  {
    set j | 0 <= j < k :: t[j]
  }

  lemma {:induction false} FirstOnes(t: map<int, Id>, k: nat)
    requires forall i :: 0 <= i < k ==> i in t
    requires forall i, j :: 0 <= i < j < k ==> t[i] < t[j]
    ensures |Firsts(t, k)| == k
  {
    if k == 0 {
      assert Firsts(t, k) == {};
    } else {
      FirstOnes(t, k - 1);
      FirstsMore(t, k);
    }
  }

  lemma FirstsMore(t: map<int, Id>, k: nat)
    requires k > 0 && (forall i :: 0 <= i < k ==> i in t)
    requires forall i, j :: 0 <= i < j < k ==> t[i] < t[j]
    ensures Firsts(t, k) == Firsts(t, k - 1) + {t[k - 1]} && t[k - 1] !in Firsts(t, k - 1)
  {
    assert forall j :: 0 <= j < k - 1 ==> t[j] < t[k - 1];
  }

  // ---- add ----

  /** The new child at the end of the list and in its trees. */
  function Linked(x: Node, c: Id, key: Value): Node {
    x.(childTotal := x.childTotal + 1, childList := x.childList + [c], treeArray := x.treeArray[x.childTotal := c],
       treeString := if key.Str? then x.treeString[key.s := c] else x.treeString,
       treeNumber := if key.Num? then x.treeNumber[key.n := c] else x.treeNumber)
  }

  /** The child with this key, if there may be only one. */
  function Existing(nodes: Nodes, n: Id, key: Value): Option<Id>
    requires n < |nodes|
  {
    if key.Str? || key.Num? then Find(nodes, n, key) else None
  }

  predicate Storable(key: Value, val: Value) {
    (key.Str? || key.Num? || key.Arr?) && (val.Str? || val.Num? || val.Null?)
  }

  function Added(nodes: Nodes, n: Id, key: Value, val: Value): Nodes
    requires n < |nodes|
  {
    nodes[n := Linked(nodes[n], |nodes|, key)] + [Fresh(key, val, Some(n))]
  }

  lemma AddedFamily(nodes: Nodes, n: Id, key: Value, val: Value, m: Id)
    requires n < |nodes| && Storable(key, val) && m <= |nodes|
    requires m < |nodes| ==> Agrees(nodes, m)
    ensures Family(Added(nodes, n, key, val), m)
  {
    if m < |nodes| {
      var list := nodes[m].childList;
      assert forall i :: 0 <= i < |list| ==> list[i] in list;
    }
  }

  lemma AddedArray(nodes: Nodes, n: Id, key: Value, val: Value, m: Id)
    requires n < |nodes| && Storable(key, val) && m <= |nodes|
    requires m < |nodes| ==> Agrees(nodes, m)
    ensures ArrayAgrees(Added(nodes, n, key, val), m)
  {
    hide StringsAgree, NumbersAgree, Distinct;
    if m == n {
      OneMoreInArray(nodes[n], |nodes|, key);
      hide Linked;
    }
  }

  /** A child with a larger id than all others at the end. */
  lemma OneMoreInArray(x: Node, c: Id, key: Value)
    requires x.childTotal == |x.childList| && forall d :: d in x.childList ==> d < c
    requires forall i :: i in x.treeArray <==> 0 <= i < x.childTotal
    requires forall i :: 0 <= i < x.childTotal ==> x.treeArray[i] in x.childList
    requires forall i, j :: 0 <= i < j < x.childTotal ==> x.treeArray[i] < x.treeArray[j]
    requires forall d :: d in x.childList ==> exists i :: 0 <= i < x.childTotal && x.treeArray[i] == d
    ensures var y := Linked(x, c, key);
            && y.childTotal == |y.childList|
            && (forall i :: i in y.treeArray <==> 0 <= i < y.childTotal)
            && (forall i :: 0 <= i < y.childTotal ==> y.treeArray[i] in y.childList)
            && (forall i, j :: 0 <= i < j < y.childTotal ==> y.treeArray[i] < y.treeArray[j])
            && forall d :: d in y.childList ==> exists i :: 0 <= i < y.childTotal && y.treeArray[i] == d
  {
    var y := Linked(x, c, key);
    forall d | d in y.childList ensures exists i :: 0 <= i < y.childTotal && y.treeArray[i] == d {
      if d == c {
        assert y.treeArray[x.childTotal] == d;
      } else {
        var i :| 0 <= i < x.childTotal && x.treeArray[i] == d;
        assert y.treeArray[i] == d;
      }
    }
  }

  lemma AddedStrings(nodes: Nodes, n: Id, key: Value, val: Value, m: Id)
    requires n < |nodes| && Storable(key, val) && Existing(nodes, n, key) == None && m <= |nodes|
    requires m < |nodes| ==> Agrees(nodes, m)
    ensures StringsAgree(Added(nodes, n, key, val), m)
  {
    hide ArrayAgrees, NumbersAgree, Distinct;
  }

  lemma AddedNumbers(nodes: Nodes, n: Id, key: Value, val: Value, m: Id)
    requires n < |nodes| && Storable(key, val) && Existing(nodes, n, key) == None && m <= |nodes|
    requires m < |nodes| ==> Agrees(nodes, m)
    ensures NumbersAgree(Added(nodes, n, key, val), m)
  {
    hide ArrayAgrees, StringsAgree, Distinct;
  }

  /** Adding a child whose key is new keeps all indexes in step. */
  lemma AddedValid(nodes: Nodes, n: Id, key: Value, val: Value)
    requires Valid(nodes) && n < |nodes| && Storable(key, val) && Existing(nodes, n, key) == None
    ensures Valid(Added(nodes, n, key, val))
  {
    var after := Added(nodes, n, key, val);
    hide Family, ArrayAgrees, StringsAgree, NumbersAgree;
    forall m | 0 <= m < |after| ensures Agrees(after, m) {
      AddedFamily(nodes, n, key, val, m);
      AddedArray(nodes, n, key, val, m);
      AddedStrings(nodes, n, key, val, m);
      AddedNumbers(nodes, n, key, val, m);
    }
  }

  /** What one more child is: a leaf with this key and value, last in the list, found under its position and its
      key, while every other node keeps key, value and place and every other key finds what it did. */
  ghost predicate NewChild(a: Nodes, b: Nodes, n: Id, key: Value, val: Value)
    requires n < |a|
  {
    var c, last := |a|, |a[n].childList|;
    && |b| == c + 1 && b[c].key == key && b[c].val == val && b[c].parent == Some(n) && b[c].childList == []
    && b[n].childList == a[n].childList + [c] && b[n].childTotal == last + 1
    && Find(b, n, Arr(last)) == Some(c) && (key.Str? || key.Num? ==> Find(b, n, key) == Some(c))
    && (forall m :: 0 <= m < c ==> b[m].key == a[m].key && b[m].val == a[m].val && b[m].parent == a[m].parent)
    && (forall m :: 0 <= m < c && m != n ==> b[m] == a[m])
    && (forall k :: k != Arr(last) && (k != key || key.Arr?) ==> Find(b, n, k) == Find(a, n, k))
    && forall k :: Find(b, c, k) == None
  }

  lemma AddedIsNewChild(nodes: Nodes, n: Id, key: Value, val: Value)
    requires Valid(nodes) && n < |nodes| && Storable(key, val) && Existing(nodes, n, key) == None
    ensures NewChild(nodes, Added(nodes, n, key, val), n, key, val)
  {
    assert Agrees(nodes, n);
    assert nodes[n].childTotal == |nodes[n].childList|;
    hide Valid, Agrees, Family, ArrayAgrees, StringsAgree, NumbersAgree;
  }

  // ---- the pool and its operations ----

  class Pool {
    var nodes: Nodes

    ghost predicate Ok()
      reads this
    {
      Valid(nodes)
    }

    constructor ()
      ensures Ok() && nodes == []
    {
      nodes := [];
    }

    /** adx_cache_create, for a node that is no child yet */
    method Create() returns (n: Id)
      requires Ok()
      modifies this
      ensures Ok() && n == |old(nodes)| && nodes == Apply(old(nodes), Make)
      ensures |nodes| == n + 1 && nodes[..n] == old(nodes) && nodes[n].parent == None && nodes[n].childList == []
      ensures forall k :: Find(nodes, n, k) == None
    {
      n := |nodes|;
      FreshValid(nodes);
      nodes := nodes + [Fresh(Null, Null, None)];
    }

    /** adx_cache_add; None stands for NULL. */
    method Add(cache: Id, key: Value, val: Value) returns (node: Option<Id>)
      requires Ok() && cache < |nodes|
      modifies this
      ensures Ok()
      ensures nodes == Apply(old(nodes), Put(cache, key, val))
      ensures node == if key.Error? || val.Error? then None
                      else if Existing(old(nodes), cache, key).Some? then Existing(old(nodes), cache, key)
                      else if !Storable(key, val) then None
                      else Some(|old(nodes)|)
      ensures if key.Error? || key.Null? || val.Error? || val.Arr? || (!key.Arr? && Find(old(nodes), cache, key).Some?)
              then nodes == old(nodes) else NewChild(old(nodes), nodes, cache, key, val)
    {
      hide Valid, Find, NewChild;
      if key.Error? || val.Error? {
        return None;
      }
      if key.Str? || key.Num? {
        node := Find(nodes, cache, key);
        if node.Some? {
          return;
        }
      }
      match key {
        case Str(_) =>
        case Num(_) =>
        case Arr(_) =>
        case _ => return None;
      }
      match val {
        case Str(_) =>
        case Num(_) =>
        case Null =>
        case _ => return None;
      }
      AddedValid(nodes, cache, key, val);
      AddedIsNewChild(nodes, cache, key, val);
      var c := |nodes|;
      var x := nodes[cache];
      x := x.(childList := x.childList + [c]);
      x := x.(treeArray := x.treeArray[x.childTotal := c], childTotal := x.childTotal + 1);
      if key.Str? {
        x := x.(treeString := x.treeString[key.s := c]);
      } else if key.Num? {
        x := x.(treeNumber := x.treeNumber[key.n := c]);
      }
      assert x == Linked(nodes[cache], c, key);
      hide Linked;
      nodes := nodes[cache := x] + [Fresh(key, val, Some(cache))];
      node := Some(c);
    }

    /** A child list put into another order, as by a sort; the trees stay. */
    method Reorder(cache: Id, list: seq<Id>)
      requires Ok() && cache < |nodes| && |list| == |nodes[cache].childList| && Distinct(list)
      requires forall c :: c in list <==> c in nodes[cache].childList
      modifies this
      ensures Ok() && nodes == Apply(old(nodes), Arrange(cache, list))
      ensures |nodes| == |old(nodes)| && nodes[cache].childList == list
      ensures forall m :: 0 <= m < |nodes| ==> m == cache || nodes[m] == old(nodes)[m]
      ensures nodes[cache].(childList := old(nodes)[cache].childList) == old(nodes)[cache]
    {
      ReorderedValid(nodes, cache, list);
      nodes := nodes[cache := nodes[cache].(childList := list)];
    }

    /** adx_cache_find_array_loop: the length itself and what is below zero are not brought into range. */
    method FindArrayLoop(cache: Id, index: int) returns (r: Option<Id>)
      requires Ok() && cache < |nodes|
      ensures var total := nodes[cache].childTotal;
              r == if total == 0 || index == total || index < 0 then None else Find(nodes, cache, Arr(index % total))
    {
      hide Valid;
      var total := nodes[cache].childTotal;
      Positions(nodes, cache, index);
      if total <= 0 {
        return None;
      }
      var i := index;
      if i > total {
        i := i % total;
      }
      assert i == index % total || i == total || i == index < 0;
      r := Find(nodes, cache, Arr(i));
    }
  }

  /** A pool with one empty cache, as the loaders start. */
  method NewCache() returns (pool: Pool, root: Id)
    ensures fresh(pool) && pool.Ok() && root == 0 && pool.nodes == Apply([], Make)
  {
    pool := new Pool();
    root := pool.Create();
  }

  // ---- any run of operations ----

  datatype Op = Make | Put(cache: Id, key: Value, val: Value) | Arrange(cache: Id, list: seq<Id>)

  ghost predicate Fits(nodes: Nodes, op: Op) {
    match op
    case Make => true
    case Put(n, _, _) => n < |nodes|
    case Arrange(n, list) =>
      n < |nodes| && |list| == |nodes[n].childList| && Distinct(list) && forall c :: c in list <==> c in nodes[n].childList
  }

  /** What Create, Add and Reorder leave. */
  ghost function Apply(nodes: Nodes, op: Op): Nodes
    requires Fits(nodes, op)
  {
    match op
    case Make => nodes + [Fresh(Null, Null, None)]
    case Put(n, key, val) =>
      if Storable(key, val) && Existing(nodes, n, key) == None then Added(nodes, n, key, val) else nodes
    case Arrange(n, list) => nodes[n := nodes[n].(childList := list)]
  }

  ghost predicate Possible(nodes: Nodes, ops: seq<Op>)
    decreases |ops|
  {
    ops == [] || (Fits(nodes, ops[0]) && Possible(Apply(nodes, ops[0]), ops[1..]))
  }

  ghost function Run(nodes: Nodes, ops: seq<Op>): Nodes
    requires Possible(nodes, ops)
    decreases |ops|
  {
    if ops == [] then nodes else Run(Apply(nodes, ops[0]), ops[1..])
  }

  /** Over any run of adds and sorts the indexes of every node agree. */
  lemma {:induction false} RunValid(nodes: Nodes, ops: seq<Op>)
    requires Valid(nodes) && Possible(nodes, ops)
    ensures Valid(Run(nodes, ops))
    decreases |ops|
  {
    hide Valid, Apply;
    if ops != [] {
      OneStepValid(nodes, ops[0]);
      RunValid(Apply(nodes, ops[0]), ops[1..]);
    }
  }

  lemma OneStepValid(nodes: Nodes, op: Op)
    requires Valid(nodes) && Fits(nodes, op)
    ensures Valid(Apply(nodes, op))
  {
    hide Valid;
    match op {
      case Make => FreshValid(nodes);
      case Put(n, key, val) =>
        if Storable(key, val) && Existing(nodes, n, key) == None {
          AddedValid(nodes, n, key, val);
        }
      case Arrange(n, list) => ReorderedValid(nodes, n, list);
    }
  }

  /** So from an empty pool finding is scanning, and a position gives the child with as many siblings before it. */
  lemma EveryRunAgrees(ops: seq<Op>, n: Id, key: Value)
    requires Possible([], ops) && n < |Run([], ops)|
    ensures var nodes := Run([], ops);
            && Valid(nodes)
            && (forall i :: 0 <= i < |nodes[n].childList| ==> nodes[n].childList[i] < |nodes|)
            && (key.Str? || key.Num? ==> Find(nodes, n, key) == Scan(nodes, nodes[n].childList, key))
            && (key.Arr? && 0 <= key.i < |nodes[n].childList| ==>
                  Find(nodes, n, key).Some? && |AddedBefore(nodes, n, Find(nodes, n, key).value)| == key.i)
  {
    RunValid([], ops);
    FindIsScan(Run([], ops), n, key);
    hide Valid, Find, Scan;
  }

  /** Key and value of the children of a node, by position. */
  ghost function Carried(nodes: Nodes, n: Id): seq<(Value, Value)> {
    if n >= |nodes| then []
    else seq(|nodes[n].childList|, i => ChildAt(nodes, n, i))
  }

  ghost function ChildAt(nodes: Nodes, n: Id, i: int): (Value, Value)
    requires n < |nodes|
  {
    var c := Find(nodes, n, Arr(i));
    if c.Some? && c.value < |nodes| then (nodes[c.value].key, nodes[c.value].val) else (Error, Error)
  }

  /** The puts on this node that made the pool larger, in order. */
  ghost function Puts(nodes: Nodes, ops: seq<Op>, n: Id): seq<(Value, Value)>
    requires Possible(nodes, ops)
    decreases |ops|
  {
    if ops == [] then []
    else
      var after := Apply(nodes, ops[0]);
      (if ops[0].Put? && ops[0].cache == n && |after| > |nodes| then [(ops[0].key, ops[0].val)] else []) +
      Puts(after, ops[1..], n)
  }

  lemma OnePut(nodes: Nodes, op: Op, n: Id)
    requires Valid(nodes) && Fits(nodes, op)
    ensures Carried(Apply(nodes, op), n) == Carried(nodes, n) +
            if op.Put? && op.cache == n && |Apply(nodes, op)| > |nodes| then [(op.key, op.val)] else []
  {
    var after := Apply(nodes, op);
    match op {
      case Make =>
        if n < |nodes| {
          SameChildren(nodes, after, n);
        }
      case Put(m, key, val) =>
        if Storable(key, val) && Existing(nodes, m, key) == None {
          AddedIsNewChild(nodes, m, key, val);
          if n == m {
            OneMoreChild(nodes, after, n, key, val);
          } else if n < |nodes| {
            SameChildren(nodes, after, n);
          }
        }
      case Arrange(m, list) =>
        if n < |nodes| {
          SameChildren(nodes, after, n);
        }
    }
    hide Valid, NewChild, Apply;
  }

  /** Children keep their positions, keys and values. */
  lemma SameChildren(a: Nodes, b: Nodes, n: Id)
    requires Valid(a) && n < |a| <= |b| && |b[n].childList| == |a[n].childList| && b[n].treeArray == a[n].treeArray
    requires forall m :: 0 <= m < |a| ==> b[m].key == a[m].key && b[m].val == a[m].val
    ensures Carried(b, n) == Carried(a, n)
  {
    forall i | 0 <= i < |a[n].childList| ensures ChildAt(b, n, i) == ChildAt(a, n, i) {
      ChildThere(a, n, i);
    }
    hide Valid, ChildAt;
  }

  lemma ChildThere(nodes: Nodes, n: Id, i: nat)
    requires Valid(nodes) && n < |nodes| && i < |nodes[n].childList|
    ensures Find(nodes, n, Arr(i)).Some? && Find(nodes, n, Arr(i)).value < |nodes|
  {
    assert Agrees(nodes, n);
  }

  lemma OneMoreChild(a: Nodes, b: Nodes, n: Id, key: Value, val: Value)
    requires Valid(a) && n < |a| && NewChild(a, b, n, key, val)
    ensures Carried(b, n) == Carried(a, n) + [(key, val)]
  {
    var last := |a[n].childList|;
    forall i | 0 <= i < last ensures ChildAt(b, n, i) == ChildAt(a, n, i) {
      ChildThere(a, n, i);
      assert Arr(i) != Arr(last);
      assert Find(b, n, Arr(i)) == Find(a, n, Arr(i));
    }
    assert ChildAt(b, n, last) == (key, val);
    hide Valid, ChildAt, NewChild;
  }

  /** Over any run the child at position i carries key and value of the i-th put on its node that added a child. */
  lemma {:induction false} RunCarries(nodes: Nodes, ops: seq<Op>, n: Id)
    requires Valid(nodes) && Possible(nodes, ops)
    ensures Carried(Run(nodes, ops), n) == Carried(nodes, n) + Puts(nodes, ops, n)
    decreases |ops|
  {
    hide Valid, Apply, Carried, Fits;
    if ops == [] {
      assert Carried(nodes, n) + [] == Carried(nodes, n);
    } else {
      OnePut(nodes, ops[0], n);
      OneStepValid(nodes, ops[0]);
      var after := Apply(nodes, ops[0]);
      RunCarries(after, ops[1..], n);
      var one := if ops[0].Put? && ops[0].cache == n && |after| > |nodes| then [(ops[0].key, ops[0].val)] else [];
      Sum(Carried(nodes, n), one, Puts(after, ops[1..], n));
    }
  }

  lemma Positions(nodes: Nodes, n: Id, index: int)
    requires Valid(nodes) && n < |nodes|
    ensures nodes[n].childTotal >= 0 && (Find(nodes, n, Arr(index)).Some? <==> 0 <= index < nodes[n].childTotal)
  {
    assert Agrees(nodes, n);
  }

  lemma FreshValid(nodes: Nodes)
    requires Valid(nodes)
    ensures Valid(nodes + [Fresh(Null, Null, None)])
  {
    var after := nodes + [Fresh(Null, Null, None)];
    forall m | 0 <= m < |after| ensures Agrees(after, m) {
      if m < |nodes| {
        assert Agrees(nodes, m);
      }
    }
  }

  lemma ReorderedValid(nodes: Nodes, n: Id, list: seq<Id>)
    requires Valid(nodes) && n < |nodes| && |list| == |nodes[n].childList| && Distinct(list)
    requires forall c :: c in list <==> c in nodes[n].childList
    ensures Valid(nodes[n := nodes[n].(childList := list)])
  {
    var after := nodes[n := nodes[n].(childList := list)];
    forall m | 0 <= m < |after| ensures Agrees(after, m) {
      ReorderedAgrees(nodes, n, list, m);
    }
    hide Agrees;
  }

  lemma ReorderedAgrees(nodes: Nodes, n: Id, list: seq<Id>, m: Id)
    requires n < |nodes| && |list| == |nodes[n].childList| && Distinct(list) && m < |nodes|
    requires forall c :: c in list <==> c in nodes[n].childList
    requires Agrees(nodes, m)
    ensures Agrees(nodes[n := nodes[n].(childList := list)], m)
  {
    hide Family, ArrayAgrees, StringsAgree, NumbersAgree, Distinct;
    ReorderedFamily(nodes, n, list, m);
    ReorderedArray(nodes, n, list, m);
    ReorderedKeys(nodes, n, list, m);
  }

  lemma ReorderedFamily(nodes: Nodes, n: Id, list: seq<Id>, m: Id)
    requires n < |nodes| && |list| == |nodes[n].childList| && Distinct(list) && m < |nodes|
    requires forall c :: c in list <==> c in nodes[n].childList
    requires Family(nodes, m)
    ensures Family(nodes[n := nodes[n].(childList := list)], m)
  {}

  lemma ReorderedArray(nodes: Nodes, n: Id, list: seq<Id>, m: Id)
    requires n < |nodes| && |list| == |nodes[n].childList| && Distinct(list) && m < |nodes|
    requires forall c :: c in list <==> c in nodes[n].childList
    requires ArrayAgrees(nodes, m)
    ensures ArrayAgrees(nodes[n := nodes[n].(childList := list)], m)
  {
    hide Distinct;
  }

  lemma ReorderedKeys(nodes: Nodes, n: Id, list: seq<Id>, m: Id)
    requires n < |nodes| && |list| == |nodes[n].childList| && Distinct(list) && m < |nodes|
    requires forall c :: c in list <==> c in nodes[n].childList
    requires StringsAgree(nodes, m) && NumbersAgree(nodes, m)
    ensures StringsAgree(nodes[n := nodes[n].(childList := list)], m)
    ensures NumbersAgree(nodes[n := nodes[n].(childList := list)], m)
  {
    hide Distinct;
  }
}
