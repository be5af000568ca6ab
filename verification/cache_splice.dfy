/** adx_cache_splice: the left-biased union of two subtrees of one pool. */
module CacheSplice {
  import opened Common
  import opened CachePool

  // ---- subtrees, by parents ----

  /** x is a or below it. */
  predicate Under(nodes: Nodes, a: Id, x: Id)
    decreases x
  {
    x == a || (x < |nodes| && nodes[x].parent.Some? && nodes[x].parent.value < x && Under(nodes, a, nodes[x].parent.value))
  }

  lemma {:induction false} UnderOrder(nodes: Nodes, a: Id, x: Id)
    requires Under(nodes, a, x)
    ensures a <= x
    decreases x
  {
    if x != a {
      UnderOrder(nodes, a, nodes[x].parent.value);
    }
  }

  lemma {:induction false} UnderTrans(nodes: Nodes, a: Id, b: Id, x: Id)
    requires Under(nodes, a, b) && Under(nodes, b, x)
    ensures Under(nodes, a, x)
    decreases x
  {
    if x != b {
      UnderTrans(nodes, a, b, nodes[x].parent.value);
      UnderOrder(nodes, b, nodes[x].parent.value);
      UnderOrder(nodes, a, b);
    }
  }

  /** Two children of one node have no node below both. */
  lemma {:induction false} SiblingsApart(nodes: Nodes, p: Id, d: Id, e: Id, x: Id)
    requires p < d < |nodes| && p < e < |nodes| && nodes[d].parent == Some(p) == nodes[e].parent
    requires Under(nodes, d, x) && Under(nodes, e, x)
    ensures d == e
    decreases x
  {
    if x == d || x == e {
      if d != e {
        UnderOrder(nodes, if x == d then e else d, p);
      }
    } else {
      SiblingsApart(nodes, p, d, e, nodes[x].parent.value);
    }
  }

  /** Nodes keep their key, value and parent, whatever is added. */
  predicate Kept(a: Nodes, b: Nodes) {
    && |a| <= |b|
    && forall x :: 0 <= x < |a| ==> b[x].key == a[x].key && b[x].val == a[x].val && b[x].parent == a[x].parent
  }

  lemma {:induction false} UnderKept(a: Nodes, b: Nodes, n: Id, x: Id)
    requires Kept(a, b) && x < |a|
    ensures Under(b, n, x) <==> Under(a, n, x)
    decreases x
  {
    if x != n && a[x].parent.Some? && a[x].parent.value < x {
      UnderKept(a, b, n, a[x].parent.value);
    }
  }

  /** Only the subtree of d has changed. */
  ghost predicate Only(a: Nodes, b: Nodes, d: Id) {
    && Kept(a, b)
    && (forall x :: 0 <= x < |a| && !Under(a, d, x) ==> b[x] == a[x])
    && forall x :: |a| <= x < |b| ==> Under(b, d, x)
  }

  lemma OnlyTrans(a: Nodes, b: Nodes, c: Nodes, d: Id)
    requires Only(a, b, d) && Only(b, c, d)
    ensures Only(a, c, d)
  {
    forall x | 0 <= x < |a| && !Under(a, d, x) ensures c[x] == a[x] {
      UnderKept(a, b, d, x);
    }
    forall x | |a| <= x < |c| ensures Under(c, d, x) {
      if x < |b| {
        UnderKept(b, c, d, x);
      }
    }
  }

  lemma OnlyWider(a: Nodes, b: Nodes, d: Id, e: Id)
    requires Only(a, b, e) && Under(a, d, e) && e < |a|
    ensures Only(a, b, d)
  {
    forall x | 0 <= x < |a| && !Under(a, d, x) ensures !Under(a, e, x) {
      if Under(a, e, x) {
        UnderTrans(a, d, e, x);
      }
    }
    forall x | |a| <= x < |b| ensures Under(b, d, x) {
      UnderKept(a, b, d, e);
      UnderTrans(b, d, e, x);
    }
  }

  lemma AddedOnly(a: Nodes, n: Id, key: Value, val: Value)
    requires n < |a|
    ensures Only(a, Added(a, n, key, val), n)
  {
    var b := Added(a, n, key, val);
    assert Under(b, n, |a|);
  }

  // ---- values by path ----

  predicate Keyed(path: seq<Value>) {
    path != [] && forall k :: 0 <= k < |path| ==> path[k].Str? || path[k].Num?
  }

  /** The value at the end of a path of string and number keys; nothing is seen below the stop. */
  function Walk(nodes: Nodes, n: Id, path: seq<Value>, stop: Option<Id>): Option<Value>
    decreases |path|
  {
    if path == [] || n >= |nodes| || stop == Some(n) then None
    else match Find(nodes, n, path[0])
         case None => None
         case Some(c) =>
           if c >= |nodes| then None else if |path| == 1 then Some(nodes[c].val) else Walk(nodes, c, path[1..], stop)
  }

  function Either(a: Option<Value>, b: Option<Value>): Option<Value> {
    if a.Some? then a else b
  }

  lemma FoundChild(nodes: Nodes, n: Id, key: Value)
    requires Valid(nodes) && n < |nodes| && (key.Str? || key.Num?) && Find(nodes, n, key).Some?
    ensures var c := Find(nodes, n, key).value;
            n < c < |nodes| && nodes[c].key == key && nodes[c].parent == Some(n) && c in nodes[n].childList
  {
    assert Agrees(nodes, n);
  }

  lemma ChildFound(nodes: Nodes, n: Id, c: Id)
    requires Valid(nodes) && n < |nodes| && c in nodes[n].childList
    ensures n < c < |nodes| && nodes[c].parent == Some(n) && Storable(nodes[c].key, nodes[c].val)
    ensures nodes[c].key.Str? || nodes[c].key.Num? ==> Find(nodes, n, nodes[c].key) == Some(c)
  {
    assert Agrees(nodes, n);
  }

  /** The node that a list of keys leads to, up to the null that ends it. */
  function Follow(nodes: Nodes, n: Id, args: seq<Value>): Option<Id>
    requires n < |nodes|
    decreases |args|
  {
    if args == [] || args[0].Error? then None
    else if args[0].Null? then Some(n)
    else match Find(nodes, n, args[0])
         case None => None
         case Some(c) => if c >= |nodes| then None else Follow(nodes, c, args[1..])
  }

  /** A path of string and number keys leads to the node whose value is at its end. */
  lemma {:induction false} FollowIsWalk(nodes: Nodes, n: Id, path: seq<Value>)
    requires Valid(nodes) && n < |nodes| && Keyed(path)
    ensures var r := Follow(nodes, n, path + [Null]);
            && (r.Some? ==> r.value < |nodes|)
            && Walk(nodes, n, path, None) == if r.Some? then Some(nodes[r.value].val) else None
    decreases |path|
  {
    hide Valid, Find;
    var args := path + [Null];
    assert args[0] == path[0] && args[1..] == path[1..] + [Null];
    if Find(nodes, n, path[0]).Some? {
      FoundChild(nodes, n, path[0]);
      var c := Find(nodes, n, path[0]).value;
      if |path| == 1 {
        assert args[1..] == [Null];
      } else {
        FollowIsWalk(nodes, c, path[1..]);
      }
    }
  }

  /** adx_cache_find_args on a list of keys that ends in a null. */
  method FindArgs(pool: Pool, cache: Id, args: seq<Value>) returns (r: Option<Id>)
    requires pool.Ok() && cache < |pool.nodes| && Null in args
    ensures r == Follow(pool.nodes, cache, args)
    ensures forall path :: Keyed(path) && args == path + [Null] ==>
              Walk(pool.nodes, cache, path, None) == if r.Some? && r.value < |pool.nodes| then Some(pool.nodes[r.value].val) else None
  {
    hide Valid, Find, Walk, Keyed;
    var nodes := pool.nodes;
    forall path | Keyed(path) && args == path + [Null]
      ensures Walk(nodes, cache, path, None) ==
              var r := Follow(nodes, cache, args); if r.Some? && r.value < |nodes| then Some(nodes[r.value].val) else None
    {
      FollowIsWalk(nodes, cache, path);
    }
    var at: Id, i := cache, 0;
    while true
      invariant at < |nodes| && 0 <= i < |args| && Null in args[i..]
      invariant Follow(nodes, cache, args) == Follow(nodes, at, args[i..])
      decreases |args| - i
    {
      var key := args[i];
      assert args[i..][0] == key && args[i..][1..] == args[i + 1..];
      match key {
        case Null => return Some(at);
        case Error => return None;
        case _ =>
          var found := Find(nodes, at, key);
          if found == None {
            return None;
          }
          FoundIsNode(nodes, at, key);
          at, i := found.value, i + 1;
      }
    }
  }

  lemma FoundIsNode(nodes: Nodes, n: Id, key: Value)
    requires Valid(nodes) && n < |nodes| && Find(nodes, n, key).Some?
    ensures Find(nodes, n, key).value < |nodes|
  {
    assert Agrees(nodes, n);
  }

  /** A walk sees only the subtree it starts in. */
  lemma {:induction false} WalkInside(a: Nodes, b: Nodes, n: Id, path: seq<Value>)
    requires Valid(a) && n < |a| && Keyed(path)
    requires forall x :: 0 <= x < |a| && Under(a, n, x) ==> x < |b| && b[x] == a[x]
    ensures Walk(b, n, path, None) == Walk(a, n, path, None)
    decreases |path|
  {
    assert Under(a, n, n);
    if Find(a, n, path[0]).Some? {
      FoundChild(a, n, path[0]);
      var c := Find(a, n, path[0]).value;
      assert Under(a, n, c);
      if |path| > 1 {
        forall x | 0 <= x < |a| && Under(a, c, x) ensures x < |b| && b[x] == a[x] {
          UnderTrans(a, n, c, x);
        }
        WalkInside(a, b, c, path[1..]);
      }
    }
  }

  /** A node is the root of the splice or outside its subtree. */
  predicate Outside(nodes: Nodes, root: Id, x: Id) {
    x == root || !Under(nodes, root, x)
  }

  lemma ChildOutside(nodes: Nodes, root: Id, n: Id, c: Id)
    requires Valid(nodes) && n < |nodes| && c in nodes[n].childList && !Under(nodes, root, n)
    ensures Outside(nodes, root, c)
  {
    ChildFound(nodes, n, c);
  }

  /** A walk that stops at the root does not see what was added below it. */
  lemma {:induction false} WalkOutside(a: Nodes, b: Nodes, root: Id, n: Id, path: seq<Value>)
    requires Valid(a) && n < |a| && Keyed(path) && Only(a, b, root) && Outside(a, root, n)
    ensures Walk(b, n, path, Some(root)) == Walk(a, n, path, Some(root))
    decreases |path|
  {
    if n != root && Find(a, n, path[0]).Some? {
      FoundChild(a, n, path[0]);
      var c := Find(a, n, path[0]).value;
      ChildOutside(a, root, n, c);
      if |path| > 1 {
        WalkOutside(a, b, root, c, path[1..]);
      }
    }
  }

  // ---- one child after the other ----

  /** What the first k children of src contribute. */
  function WalkPart(nodes: Nodes, src: Id, path: seq<Value>, root: Id, k: nat): Option<Value>
    requires src < |nodes| && path != [] && k <= |nodes[src].childList|
  {
    match Find(nodes, src, path[0])
    case None => None
    case Some(c) => if c in nodes[src].childList[..k] then Walk(nodes, src, path, Some(root)) else None
  }

  ghost predicate Merged(start: Nodes, now: Nodes, root: Id, dest: Id, src: Id, k: nat)
    requires src < |start| && k <= |start[src].childList|
  {
    forall path :: Keyed(path) ==>
      Walk(now, dest, path, None) == Either(Walk(start, dest, path, None), WalkPart(start, src, path, root, k))
  }

  /** The situation around one child c of src: added to dest as node, then spliced below it. */
  ghost predicate OneChild(start: Nodes, a: Nodes, b: Nodes, c: Nodes, root: Id, dest: Id, src: Id, k: nat, node: Id) {
    && Valid(start) && Valid(a) && Valid(b) && Valid(c)
    && root < |start| && dest < |start| && src < |start| && k < |start[src].childList|
    && Under(start, root, dest) && !Under(start, root, src)
    && Only(start, a, root) && Only(a, b, dest) && Only(b, c, node)
    && var x := start[src].childList[k];
       x < |start| && var key := start[x].key;
       && (if Existing(a, dest, key).Some? then b == a && Existing(a, dest, key) == Some(node)
           else b == Added(a, dest, key, start[x].val) && node == |a|)
       && forall q :: Keyed(q) ==> Walk(c, node, q, None) == Either(Walk(b, node, q, None), Walk(b, x, q, Some(root)))
  }

  /** Where the child went. */
  lemma NodePlaced(start: Nodes, a: Nodes, b: Nodes, c: Nodes, root: Id, dest: Id, src: Id, k: nat, node: Id)
    requires OneChild(start, a, b, c, root, dest, src, k, node)
    ensures dest < node < |b| <= |c| && b[node].parent == Some(dest)
    ensures b[node].key == start[start[src].childList[k]].key && c[dest] == b[dest] && c[node].val == b[node].val
  {
    var key := start[start[src].childList[k]].key;
    if Existing(a, dest, key).Some? {
      FoundChild(a, dest, key);
    }
    if Under(b, node, dest) {
      UnderOrder(b, node, dest);
    }
  }

  /** The subtree of another child of dest. */
  lemma OtherSubtree(start: Nodes, a: Nodes, b: Nodes, c: Nodes, root: Id, dest: Id, src: Id, k: nat, node: Id, d: Id,
                     x: Id)
    requires OneChild(start, a, b, c, root, dest, src, k, node)
    requires dest < d < |a| && a[d].parent == Some(dest) && d != node && x < |a| && Under(a, d, x)
    ensures x < |c| && c[x] == a[x]
  {
    NodePlaced(start, a, b, c, root, dest, src, k, node);
    hide OneChild, Valid, Walk;
    OneChildFrames(start, a, b, c, root, dest, src, k, node);
    UnderKept(a, b, d, x);
    Apart(b, dest, d, node, x);
    UnderOrder(a, d, x);
  }

  lemma OneChildFrames(start: Nodes, a: Nodes, b: Nodes, c: Nodes, root: Id, dest: Id, src: Id, k: nat, node: Id)
    requires OneChild(start, a, b, c, root, dest, src, k, node)
    ensures Only(a, b, dest) && Only(b, c, node)
    ensures forall x :: 0 <= x < |a| && x != dest ==> b[x] == a[x]
  {}

  /** Paths that do not begin with the key of the child see no difference. */
  lemma OtherPath(start: Nodes, a: Nodes, b: Nodes, c: Nodes, root: Id, dest: Id, src: Id, k: nat, node: Id,
                  path: seq<Value>)
    requires OneChild(start, a, b, c, root, dest, src, k, node) && Keyed(path)
    requires path[0] != start[start[src].childList[k]].key
    ensures Walk(c, dest, path, None) == Walk(a, dest, path, None)
  {
    NodePlaced(start, a, b, c, root, dest, src, k, node);
    OneChildFrames(start, a, b, c, root, dest, src, k, node);
    assert dest < |a| && Find(c, dest, path[0]) == Find(a, dest, path[0]);
    if Find(a, dest, path[0]).Some? {
      FoundChild(a, dest, path[0]);
      var d := Find(a, dest, path[0]).value;
      forall x | 0 <= x < |a| && Under(a, d, x) ensures x < |c| && c[x] == a[x] {
        OtherSubtree(start, a, b, c, root, dest, src, k, node, d, x);
      }
      assert Under(a, d, d);
      hide OneChild, Find, Only;
      if |path| > 1 {
        WalkInside(a, c, d, path[1..]);
      }
    }
  }

  lemma Apart(b: Nodes, dest: Id, d: Id, node: Id, x: Id)
    requires dest < d < |b| && dest < node < |b| && b[d].parent == Some(dest) == b[node].parent && d != node
    requires Under(b, d, x)
    ensures !Under(b, node, x)
  {
    if Under(b, node, x) {
      SiblingsApart(b, dest, d, node, x);
    }
  }

  lemma OnlyRoot(start: Nodes, a: Nodes, b: Nodes, c: Nodes, root: Id, dest: Id, src: Id, k: nat, node: Id)
    requires OneChild(start, a, b, c, root, dest, src, k, node)
    ensures Only(start, b, root) && Only(start, c, root)
  {
    NodePlaced(start, a, b, c, root, dest, src, k, node);
    UnderKept(start, a, root, dest);
    OnlyWider(a, b, root, dest);
    OnlyTrans(start, a, b, root);
    UnderKept(a, b, root, dest);
    assert Under(b, root, node);
    OnlyWider(b, c, root, node);
    OnlyTrans(start, b, c, root);
  }

  /** What the walk in src sees below the child is still there. */
  lemma ChildSeen(start: Nodes, a: Nodes, b: Nodes, c: Nodes, root: Id, dest: Id, src: Id, k: nat, node: Id,
                  path: seq<Value>)
    requires OneChild(start, a, b, c, root, dest, src, k, node) && Keyed(path)
    requires path[0] == start[start[src].childList[k]].key
    ensures var x := start[src].childList[k];
            && Find(start, src, path[0]) == Some(x)
            && Walk(start, src, path, Some(root)) ==
               (if |path| == 1 then Some(start[x].val) else Walk(start, x, path[1..], Some(root)))
            && (|path| > 1 ==> Walk(b, x, path[1..], Some(root)) == Walk(start, x, path[1..], Some(root)))
  {
    OnlyRoot(start, a, b, c, root, dest, src, k, node);
    var x := start[src].childList[k];
    hide Only;
    ChildFound(start, src, x);
    ChildOutside(start, root, src, x);
    if |path| > 1 {
      WalkOutside(start, b, root, x, path[1..]);
    }
  }

  /** In dest the child's key leads to the node. */
  lemma NodeFound(start: Nodes, a: Nodes, b: Nodes, c: Nodes, root: Id, dest: Id, src: Id, k: nat, node: Id, key: Value)
    requires OneChild(start, a, b, c, root, dest, src, k, node) && (key.Str? || key.Num?)
    requires key == start[start[src].childList[k]].key
    ensures dest < |c| && node < |c| && Find(c, dest, key) == Some(node)
    ensures Find(a, dest, key).Some? ==> a == b && Find(a, dest, key) == Some(node)
    ensures Find(a, dest, key) == None ==>
              c[node].val == start[start[src].childList[k]].val && forall q :: Keyed(q) ==> Walk(b, node, q, None) == None
  {
    hide Valid, Only, Walk, Keyed;
    NodePlaced(start, a, b, c, root, dest, src, k, node);
    if Find(a, dest, key) == None {
      FreshEmpty(b, node);
    }
  }

  lemma FreshEmpty(b: Nodes, node: Id)
    requires node < |b| && b[node].treeString == map[] && b[node].treeNumber == map[]
    ensures forall q :: Keyed(q) ==> Walk(b, node, q, None) == None
  {}

  /** A path that begins with the key of the child: what dest had, otherwise what src has. */
  lemma KeyPath(start: Nodes, a: Nodes, b: Nodes, c: Nodes, root: Id, dest: Id, src: Id, k: nat, node: Id,
                path: seq<Value>)
    requires OneChild(start, a, b, c, root, dest, src, k, node) && Keyed(path)
    requires path[0] == start[start[src].childList[k]].key
    ensures Walk(c, dest, path, None) == Either(Walk(a, dest, path, None), Walk(start, src, path, Some(root)))
  {
    ChildSeen(start, a, b, c, root, dest, src, k, node, path);
    NodeFound(start, a, b, c, root, dest, src, k, node, path[0]);
    NodePlaced(start, a, b, c, root, dest, src, k, node);
    hide Only, Valid, Find;
    if |path| > 1 {
      assert Keyed(path[1..]);
    }
  }

  /** After one more child. */
  lemma ChildMerged(start: Nodes, a: Nodes, b: Nodes, c: Nodes, root: Id, dest: Id, src: Id, k: nat, node: Id)
    requires OneChild(start, a, b, c, root, dest, src, k, node) && Merged(start, a, root, dest, src, k)
    ensures Merged(start, c, root, dest, src, k + 1)
  {
    forall path | Keyed(path)
      ensures Walk(c, dest, path, None) == Either(Walk(start, dest, path, None), WalkPart(start, src, path, root, k + 1))
    {
      PartStep(start, src, path, root, k);
      if path[0] == start[start[src].childList[k]].key {
        KeyPath(start, a, b, c, root, dest, src, k, node, path);
      } else {
        OtherPath(start, a, b, c, root, dest, src, k, node, path);
      }
      hide OneChild, Walk, WalkPart, Valid;
    }
  }

  lemma PartStep(start: Nodes, src: Id, path: seq<Value>, root: Id, k: nat)
    requires Valid(start) && src < |start| && k < |start[src].childList| && Keyed(path)
    ensures start[src].childList[k] < |start|
    ensures var key := start[start[src].childList[k]].key;
            if path[0] == key then
              WalkPart(start, src, path, root, k) == None &&
              WalkPart(start, src, path, root, k + 1) == Walk(start, src, path, Some(root))
            else WalkPart(start, src, path, root, k + 1) == WalkPart(start, src, path, root, k)
  {
    var list := start[src].childList;
    var x := list[k];
    ChildFound(start, src, x);
    assert Agrees(start, src);
    assert list[..k + 1] == list[..k] + [x];
    assert x !in list[..k];
    if path[0] != start[x].key && Find(start, src, path[0]).Some? {
      FoundChild(start, src, path[0]);
    }
    hide Walk, Find;
  }

  // ---- the recursion ----

  /** Nodes from this bound on lie below the root. */
  ghost predicate NewBelow(nodes: Nodes, root: Id, bound: Id) {
    forall x :: bound <= x < |nodes| ==> Under(nodes, root, x)
  }

  // ---- the children themselves, array children among them ----

  /** Of the first k children of src: those added by position, and those whose key dest does not have. */
  ghost function NewOnes(nodes: Nodes, dest: Id, src: Id, k: nat): seq<(Value, Value)>
    requires dest < |nodes| && src < |nodes| && k <= |nodes[src].childList|
  {
    if k == 0 then []
    else
      var x := nodes[src].childList[k - 1];
      NewOnes(nodes, dest, src, k - 1) +
      if x < |nodes| && (nodes[x].key.Arr? || Find(nodes, dest, nodes[x].key) == None)
      then [(nodes[x].key, nodes[x].val)] else []
  }

  /** Dest has a key of src before its child is added exactly if it had it at the start. */
  lemma StillMissing(start: Nodes, a: Nodes, root: Id, dest: Id, src: Id, k: nat)
    requires Valid(start) && Valid(a) && dest < |start| <= |a| && src < |start| && k < |start[src].childList|
    requires Merged(start, a, root, dest, src, k) && start[src].childList[k] < |start|
    requires var key := start[start[src].childList[k]].key; key.Str? || key.Num?
    ensures var key := start[start[src].childList[k]].key;
            Find(a, dest, key).Some? <==> Find(start, dest, key).Some?
  {
    var key := start[start[src].childList[k]].key;
    var path := [key];
    PartStep(start, src, path, root, k);
    hide Valid;
    assert Walk(a, dest, path, None) == Walk(start, dest, path, None);
    OneKey(start, dest, key);
    OneKey(a, dest, key);
  }

  lemma OneKey(nodes: Nodes, n: Id, key: Value)
    requires Valid(nodes) && n < |nodes| && (key.Str? || key.Num?)
    ensures Walk(nodes, n, [key], None).Some? <==> Find(nodes, n, key).Some?
  {
    if Find(nodes, n, key).Some? {
      FoundChild(nodes, n, key);
    }
  }

  /** After one more child. */
  lemma ChildCarried(start: Nodes, a: Nodes, b: Nodes, c: Nodes, root: Id, dest: Id, src: Id, k: nat, node: Id)
    requires OneChild(start, a, b, c, root, dest, src, k, node) && Merged(start, a, root, dest, src, k)
    requires Carried(a, dest) == Carried(start, dest) + NewOnes(start, dest, src, k)
    ensures Carried(c, dest) == Carried(start, dest) + NewOnes(start, dest, src, k + 1)
  {
    NodePlaced(start, a, b, c, root, dest, src, k, node);
    SameChildren(b, c, dest);
    var x := start[src].childList[k];
    var key, val := start[x].key, start[x].val;
    ChildFound(start, src, x);
    if key.Str? || key.Num? {
      StillMissing(start, a, root, dest, src, k);
    }
    if Existing(a, dest, key) == None {
      AddedIsNewChild(a, dest, key, val);
      OneMoreChild(a, b, dest, key, val);
    }
    hide Valid, Walk, Merged, Only, NewChild, Carried;
    Sum(Carried(start, dest), NewOnes(start, dest, src, k), if Existing(a, dest, key) == None then [(key, val)] else []);
  }

  /** adx_cache_splice_r; true stands for 0. The root guard stops it where src comes to the root itself. */
  method SpliceR(pool: Pool, root: Id, dest: Id, src: Id, ghost bound: Id) returns (ok: bool)
    requires pool.Ok() && root < bound <= |pool.nodes| && dest < |pool.nodes| && src < bound
    requires Under(pool.nodes, root, dest) && Outside(pool.nodes, root, src) && NewBelow(pool.nodes, root, bound)
    modifies pool
    ensures pool.Ok() && ok && Only(old(pool.nodes), pool.nodes, dest)
    ensures forall path :: Keyed(path) ==>
              Walk(pool.nodes, dest, path, None) ==
              Either(Walk(old(pool.nodes), dest, path, None), Walk(old(pool.nodes), src, path, Some(root)))
    ensures Carried(pool.nodes, dest) == Carried(old(pool.nodes), dest) +
            if src == root then [] else NewOnes(old(pool.nodes), dest, src, |old(pool.nodes)[src].childList|)
    decreases bound - src
  {
    hide Valid, Walk, Existing, Only, Carried;
    ghost var start := pool.nodes;
    ok := true;
    OnlySelf(start, dest);
    if |pool.nodes[src].childList| == 0 {
      NothingToMerge(start, src, root);
      return;
    }
    if root == src {
      StopsAtRoot(start, root);
      return;
    }
    var k := 0;
    MergedStart(start, root, dest, src);
    while k < |pool.nodes[src].childList|
      invariant pool.Ok() && Only(start, pool.nodes, dest) && |start| <= |pool.nodes| && ok
      invariant pool.nodes[src] == start[src] && k <= |start[src].childList|
      invariant Merged(start, pool.nodes, root, dest, src, k)
      invariant Carried(pool.nodes, dest) == Carried(start, dest) + NewOnes(start, dest, src, k)
    {
      ghost var a := pool.nodes;
      var x := pool.nodes[src].childList[k];
      ChildFound(start, src, x);
      ChildOutside(start, root, src, x);
      SourceKept(start, a, root, dest, src, x, bound);
      var node := pool.Add(dest, pool.nodes[x].key, pool.nodes[x].val);
      if node == None {
        return false;
      }
      ghost var b := pool.nodes;
      Grown(start, a, b, root, dest, src, x, node.value, bound);
      ok := SpliceR(pool, root, node.value, x, bound);
      if !ok {
        return;
      }
      TurnDone(start, a, b, pool.nodes, root, dest, src, k, node.value);
      k := k + 1;
    }
    MergedAll(start, pool.nodes, root, dest, src);
  }

  lemma OnlySelf(a: Nodes, d: Id)
    ensures Only(a, a, d)
  {}

  lemma NothingToMerge(start: Nodes, src: Id, root: Id)
    requires Valid(start) && src < |start| && |start[src].childList| == 0
    ensures forall path :: Keyed(path) ==> Walk(start, src, path, Some(root)) == None
  {
    forall path | Keyed(path) ensures Walk(start, src, path, Some(root)) == None {
      if Find(start, src, path[0]).Some? {
        FoundChild(start, src, path[0]);
      }
    }
  }

  lemma StopsAtRoot(start: Nodes, root: Id)
    ensures forall path :: Keyed(path) ==> Walk(start, root, path, Some(root)) == None
  {}

  lemma MergedStart(start: Nodes, root: Id, dest: Id, src: Id)
    requires src < |start|
    ensures Merged(start, start, root, dest, src, 0)
  {}

  lemma MergedAll(start: Nodes, now: Nodes, root: Id, dest: Id, src: Id)
    requires Valid(start) && src < |start| && Merged(start, now, root, dest, src, |start[src].childList|)
    ensures forall path :: Keyed(path) ==>
              Walk(now, dest, path, None) == Either(Walk(start, dest, path, None), Walk(start, src, path, Some(root)))
  {
    forall path | Keyed(path)
      ensures WalkPart(start, src, path, root, |start[src].childList|) == Walk(start, src, path, Some(root))
    {
      var list := start[src].childList;
      assert list[..|list|] == list;
      if Find(start, src, path[0]).Some? {
        FoundChild(start, src, path[0]);
      }
    }
  }

  /** A child of src is an old node that has not changed its key, its value or its place. */
  lemma SourceKept(start: Nodes, a: Nodes, root: Id, dest: Id, src: Id, x: Id, bound: Id)
    requires Only(start, a, dest) && Valid(start) && root < bound <= |start| && NewBelow(start, root, bound)
    requires x < |start| && Outside(start, root, x) && Storable(start[x].key, start[x].val)
    ensures x < bound && a[x].key == start[x].key && a[x].val == start[x].val && Storable(a[x].key, a[x].val)
  {}

  /** The pool after the child was added. */
  lemma Grown(start: Nodes, a: Nodes, b: Nodes, root: Id, dest: Id, src: Id, x: Id, node: Id, bound: Id)
    requires Valid(a) && Valid(b) && Only(start, a, dest) && dest < |start| && Under(start, root, dest)
    requires x < bound <= |start| && Outside(start, root, x) && NewBelow(start, root, bound) && root < bound
    requires if Existing(a, dest, a[x].key).Some? then b == a && Existing(a, dest, a[x].key) == Some(node)
             else b == Added(a, dest, a[x].key, a[x].val) && node == |a|
    ensures node < |b| && Under(b, root, node) && Outside(b, root, x) && NewBelow(b, root, bound)
    ensures Only(a, b, dest) && dest < node && b[node].parent == Some(dest)
  {
    if Existing(a, dest, a[x].key).Some? {
      FoundChild(a, dest, a[x].key);
      OnlySelf(a, dest);
    } else {
      AddedOnly(a, dest, a[x].key, a[x].val);
    }
    OnlyTrans(start, a, b, dest);
    UnderKept(start, b, root, dest);
    UnderKept(start, b, root, x);
    forall y | bound <= y < |b| ensures Under(b, root, y) {
      if y < |start| {
        UnderKept(start, b, root, y);
      } else {
        UnderTrans(b, root, dest, y);
      }
    }
  }

  lemma TurnDone(start: Nodes, a: Nodes, b: Nodes, c: Nodes, root: Id, dest: Id, src: Id, k: nat, node: Id)
    requires Valid(start) && Valid(a) && Valid(b) && Valid(c)
    requires root < |start| && dest < |start| && src < |start| && k < |start[src].childList| && src != root
    requires Under(start, root, dest) && Outside(start, root, src)
    requires Only(start, a, dest) && Only(a, b, dest) && Only(b, c, node) && a[src] == start[src]
    requires dest < node < |b| && b[node].parent == Some(dest)
    requires start[src].childList[k] < |start|
    requires var x := start[src].childList[k];
             && a[x].key == start[x].key && a[x].val == start[x].val
             && if Existing(a, dest, a[x].key).Some? then b == a && Existing(a, dest, a[x].key) == Some(node)
                else b == Added(a, dest, a[x].key, a[x].val) && node == |a|
    requires forall q :: Keyed(q) ==>
               Walk(c, node, q, None) == Either(Walk(b, node, q, None), Walk(b, start[src].childList[k], q, Some(root)))
    requires Merged(start, a, root, dest, src, k)
    ensures Merged(start, c, root, dest, src, k + 1)
    ensures Only(start, c, dest) && |start| <= |c| && c[src] == start[src]
    ensures Carried(a, dest) == Carried(start, dest) + NewOnes(start, dest, src, k) ==>
            Carried(c, dest) == Carried(start, dest) + NewOnes(start, dest, src, k + 1)
  {
    hide Carried;
    OnlyWider(start, a, root, dest);
    assert OneChild(start, a, b, c, root, dest, src, k, node);
    ChildMerged(start, a, b, c, root, dest, src, k, node);
    if Carried(a, dest) == Carried(start, dest) + NewOnes(start, dest, src, k) {
      ChildCarried(start, a, b, c, root, dest, src, k, node);
    }
    OnlyTrans(start, a, b, dest);
    assert Under(b, dest, node);
    OnlyWider(b, c, dest, node);
    OnlyTrans(start, b, c, dest);
    if Under(start, dest, src) {
      UnderTrans(start, root, dest, src);
    }
  }

  /** adx_cache_splice for two nodes of a pool, unless src lies strictly below dest: every string or number
      path has dest's old value if it had one, otherwise the value src had, where src is seen only down to dest.
      It terminates also when dest lies below src. */
  method Splice(pool: Pool, dest: Id, src: Id) returns (ok: bool)
    requires pool.Ok() && dest < |pool.nodes| && src < |pool.nodes| && Outside(pool.nodes, dest, src)
    modifies pool
    ensures pool.Ok() && ok && Only(old(pool.nodes), pool.nodes, dest)
    ensures forall path :: Keyed(path) ==>
              Walk(pool.nodes, dest, path, None) ==
              Either(Walk(old(pool.nodes), dest, path, None), Walk(old(pool.nodes), src, path, Some(dest)))
    ensures Carried(pool.nodes, dest) == Carried(old(pool.nodes), dest) +
            if src == dest then [] else NewOnes(old(pool.nodes), dest, src, |old(pool.nodes)[src].childList|)
  {
    assert Under(pool.nodes, dest, dest);
    ok := SpliceR(pool, dest, dest, src, |pool.nodes|);
  }

  lemma {:induction false} StopsNowhere(nodes: Nodes, dest: Id, src: Id, path: seq<Value>)
    requires Valid(nodes) && src < |nodes| && Keyed(path) && !Under(nodes, src, dest)
    ensures Walk(nodes, src, path, Some(dest)) == Walk(nodes, src, path, None)
    decreases |path|
  {
    assert Under(nodes, src, src);
    if Find(nodes, src, path[0]).Some? {
      FoundChild(nodes, src, path[0]);
      var c := Find(nodes, src, path[0]).value;
      assert Under(nodes, src, c);
      if |path| > 1 {
        if Under(nodes, c, dest) {
          UnderTrans(nodes, src, c, dest);
        }
        StopsNowhere(nodes, dest, c, path[1..]);
      }
    }
  }
}
