/** The linked nodes of json.c, described by their list in creation order. */
module JsonNodes {
  import opened Common
  import opened JsonLexer
  import opened JsonTree
  import opened JsonParser

  /** struct json_value; kind and text are set when the node is made. */
  class JNode {
    const kind: Kind
    const text: Text
    var next: JNode?
    var previous: JNode?
    var parent: JNode?
    var child: JNode?
    var childEnd: JNode?

    constructor (kind: Kind, text: Text)
      ensures this.kind == kind && this.text == text
      ensures next == previous == parent == child == childEnd == null
    {
      this.kind, this.text := kind, text;
      next, previous, parent, child, childEnd := null, null, null, null, null;
    }
  }

  // ---- family relations in a list of entries; -1 for nobody ----

  type Entries = seq<Entry>

  /** The first entry whose parent is i. */
  function First(e: Entries, i: int): (f: int)
    ensures -1 <= f < |e|
    ensures f >= 0 ==> e[f].up == i
  {
    if e == [] then -1
    else
      var n := |e| - 1;
      var f := First(e[..n], i);
      if f >= 0 then f else if e[n].up == i then n else -1
  }

  /** The last entry whose parent is i. */
  function Last(e: Entries, i: int): (f: int)
    ensures -1 <= f < |e|
    ensures f >= 0 ==> e[f].up == i
    ensures f < 0 <==> First(e, i) < 0
  {
    if e == [] then -1
    else
      var n := |e| - 1;
      if e[n].up == i then n else Last(e[..n], i)
  }

  /** The next entry after j with the same parent. */
  function Next(e: Entries, j: nat): (f: int)
    requires j < |e|
    ensures f == -1 || j < f < |e|
    decreases |e|
  {
    var n := |e| - 1;
    if j == n then -1
    else
      var f := Next(e[..n], j);
      if f >= 0 then f else if e[n].up == e[j].up then n else -1
  }

  /** The last entry before j with the same parent. */
  function Previous(e: Entries, j: nat): (f: int)
    requires j < |e|
    ensures -1 <= f < j
  {
    Last(e[..j], e[j].up)
  }

  /** Only the first entry has no parent, and parents come before their children. */
  predicate Rooted(e: Entries) {
    forall i :: 0 <= i < |e| ==> -1 <= e[i].up < i && (e[i].up == -1 ==> i == 0)
  }

  lemma {:induction false} LastHasNoNext(e: Entries, j: nat)
    requires j < |e|
    ensures Next(e, j) < 0 <==> Last(e, e[j].up) == j
    decreases |e|
  {
    var n := |e| - 1;
    if j < n {
      LastHasNoNext(e[..n], j);
    }
  }

  /** What one more entry changes, for each entry and for the new one. */
  lemma Appended(e: Entries, x: Entry, i: nat)
    requires i <= |e|
    ensures var f := e + [x];
            && First(f, i) == (if First(e, i) >= 0 then First(e, i) else if x.up == i then |e| else -1)
            && Last(f, i) == (if x.up == i then |e| else Last(e, i))
            && Next(f, i) == (if i == |e| then -1 else if i == Last(e, x.up) then |e| else Next(e, i))
            && Previous(f, i) == if i == |e| then Last(e, x.up) else Previous(e, i)
  {
    var f := e + [x];
    assert f[..|e|] == e;
    if i < |e| {
      LastHasNoNext(e, i);
      assert f[..i] == e[..i];
    }
  }

  lemma {:induction false} NobodyAbove(e: Entries, i: int)
    requires Rooted(e) && i >= |e|
    ensures First(e, i) == -1 && Last(e, i) == -1
    decreases |e|
  {
    if e != [] {
      NobodyAbove(e[..|e| - 1], i);
    }
  }

  // ---- the heap ----

  function At(order: seq<JNode>, i: int): (n: JNode?)
    ensures 0 <= i < |order| ==> n == order[i]
  {
    if 0 <= i < |order| then order[i] else null
  }

  ghost predicate Made(order: seq<JNode>, e: Entries) {
    && |order| == |e| && Rooted(e) && Distinct(order)
    && forall i :: 0 <= i < |e| ==> order[i].kind == e[i].kind && order[i].text == e[i].text
  }

  /** The pointers of a node. */
  datatype Links = Links(next: JNode?, previous: JNode?, parent: JNode?, child: JNode?, childEnd: JNode?)

  ghost function Image(order: seq<JNode>): (v: seq<Links>)
    reads order
    ensures |v| == |order|
    ensures forall i :: 0 <= i < |order| ==>
              v[i] == Links(order[i].next, order[i].previous, order[i].parent, order[i].child, order[i].childEnd)
  {
    seq(|order|, i requires 0 <= i < |order| reads order =>
          Links(order[i].next, order[i].previous, order[i].parent, order[i].child, order[i].childEnd))
  }

  function Relations(order: seq<JNode>, e: Entries, i: nat): Links
    requires i < |e|
  {
    Links(At(order, Next(e, i)), At(order, Previous(e, i)), At(order, e[i].up), At(order, First(e, i)), At(order, Last(e, i)))
  }

  predicate Fits(order: seq<JNode>, v: seq<Links>, e: Entries) {
    |v| == |e| && forall i :: 0 <= i < |e| ==> v[i] == Relations(order, e, i)
  }

  /** The pointers of the nodes are exactly the relations of the entries. */
  ghost predicate Linked(order: seq<JNode>, e: Entries)
    reads order
  {
    Made(order, e) && Fits(order, Image(order), e)
  }

  /** One node appended to the children of the one at this position. */
  predicate Grown(order: seq<JNode>, v: seq<Links>, w: seq<Links>, at: nat, c: JNode) {
    && |w| == |v| + 1 && |order| == |v| && at < |v|
    && w[|v|] == Links(null, if v[at].child == null then null else v[at].childEnd, order[at], null, null)
    && forall i :: 0 <= i < |v| ==>
         w[i] == Links(if v[at].child != null && order[i] == v[at].childEnd then c else v[i].next,
                       v[i].previous, v[i].parent,
                       if i == at && v[at].child == null then c else v[i].child,
                       if i == at then c else v[i].childEnd)
  }

  lemma AtOneMore(order: seq<JNode>, c: JNode, i: int)
    requires i <= |order|
    ensures At(order + [c], i) == if i == |order| then c else At(order, i)
  {}

  lemma MadeOneMore(order: seq<JNode>, e: Entries, c: JNode, up: int)
    requires Made(order, e) && c !in order && (0 <= up < |order| || (up == -1 && e == []))
    ensures Made(order + [c], e + [Entry(c.kind, c.text, up)])
  {}

  lemma AtMeets(order: seq<JNode>, e: Entries, i: nat, j: int)
    requires Made(order, e) && i < |order| && -1 <= j < |order|
    ensures At(order, j) == order[i] <==> j == i
    ensures At(order, j) == null <==> j == -1
  {}

  lemma OldNodeFits(order: seq<JNode>, v: seq<Links>, w: seq<Links>, e: Entries, at: nat, c: JNode, i: nat)
    requires Made(order, e) && Fits(order, v, e) && Grown(order, v, w, at, c) && i < |e|
    ensures w[i] == Relations(order + [c], e + [Entry(c.kind, c.text, at)], i)
  {
    var x := Entry(c.kind, c.text, at);
    var f := e + [x];
    Appended(e, x, i);
    AtOneMore(order, c, First(f, i));
    AtOneMore(order, c, Last(f, i));
    AtOneMore(order, c, Next(f, i));
    AtOneMore(order, c, Previous(f, i));
    AtOneMore(order, c, e[i].up);
    AtMeets(order, e, at, First(e, at));
    AtMeets(order, e, i, Last(e, at));
    assert v[at] == Relations(order, e, at);
    assert v[i] == Relations(order, e, i);
    assert order[i] == order[at] ==> i == at;
    assert f[i] == e[i];
    hide First, Last, Next, Previous, Made, Rooted, Fits;
  }

  lemma NewNodeFits(order: seq<JNode>, v: seq<Links>, w: seq<Links>, e: Entries, at: nat, c: JNode)
    requires Made(order, e) && Fits(order, v, e) && Grown(order, v, w, at, c)
    ensures w[|e|] == Relations(order + [c], e + [Entry(c.kind, c.text, at)], |e|)
  {
    var x := Entry(c.kind, c.text, at);
    var f := e + [x];
    Appended(e, x, |e|);
    NobodyAbove(e, |e|);
    AtOneMore(order, c, Last(e, at));
    AtOneMore(order, c, at);
    AtMeets(order, e, at, First(e, at));
    AtMeets(order, e, at, Last(e, at));
    assert v[at] == Relations(order, e, at);
    assert f[|e|] == x;
    hide First, Last, Next, Previous, Made, Rooted, Fits;
  }

  lemma GrownFits(order: seq<JNode>, v: seq<Links>, w: seq<Links>, e: Entries, at: nat, c: JNode)
    requires Made(order, e) && Fits(order, v, e) && Grown(order, v, w, at, c)
    ensures Fits(order + [c], w, e + [Entry(c.kind, c.text, at)])
  {
    hide Relations, Grown, Made;
    assert |w| == |e| + 1 by {
      Lengths(order, v, w, at, c);
    }
    forall i | 0 <= i < |w| ensures w[i] == Relations(order + [c], e + [Entry(c.kind, c.text, at)], i) {
      if i < |e| {
        OldNodeFits(order, v, w, e, at, c, i);
      } else {
        NewNodeFits(order, v, w, e, at, c);
      }
    }
  }

  lemma Lengths(order: seq<JNode>, v: seq<Links>, w: seq<Links>, at: nat, c: JNode)
    requires Grown(order, v, w, at, c)
    ensures |w| == |v| + 1
  {}

  /** json_insert_child, the pointers: c goes to the end of the children of p. */
  method Append(p: JNode, c: JNode, ghost order: seq<JNode>)
    requires p in order && c !in order
    requires p.child != null ==> p.childEnd != null && p.childEnd in order
    modifies p`child, p`childEnd, order`next, c`parent, c`previous
    ensures c.parent == p
    ensures c.previous == if old(p.child) == null then old(c.previous) else old(p.childEnd)
    ensures p.child == if old(p.child) == null then c else old(p.child)
    ensures p.childEnd == c
    ensures forall n :: n in order ==>
              n.next == if old(p.child) != null && n == old(p.childEnd) then c else old(n.next)
  {
    c.parent := p;
    if p.child != null {
      c.previous := p.childEnd;
      p.childEnd.next := c;
      p.childEnd := c;
    } else {
      p.child := c;
      p.childEnd := c;
    }
  }

  method AppendAt(p: JNode, c: JNode, ghost order: seq<JNode>, ghost at: nat)
    requires at < |order| && p == order[at] && Distinct(order) && c !in order
    requires c.next == c.previous == c.child == c.childEnd == null
    requires p.child != null ==> p.childEnd != null && p.childEnd in order
    modifies order, c
    ensures Grown(order, old(Image(order)), Image(order + [c]), at, c)
  {
    Append(p, c, order);
    hide Distinct;
    assert forall i :: 0 <= i < |order| ==> (order + [c])[i] == order[i];
  }

  /** json_insert_child; false stands for JSON_BAD_TREE_STRUCTURE. */
  method InsertChild(p: JNode, c: JNode, ghost order: seq<JNode>, ghost e: Entries, ghost at: nat) returns (ok: bool)
    requires Linked(order, e) && at < |order| && p == order[at]
    requires c !in order && c.next == c.previous == c.child == c.childEnd == null
    modifies order, c
    ensures ok == (p.kind in {String, Array} || (p.kind.Object? && c.kind.String?))
    ensures ok == Accepts(p.kind, c.kind)
    ensures ok ==> Linked(order + [c], e + [Entry(c.kind, c.text, at)])
    ensures !ok ==> Linked(order, e)
  {
    hide First, Last, Next, Previous, Grown, Made, Fits, Relations, At, Distinct, Rooted;
    match p.kind {
      case String => if c.kind !in {Object, Array} && c.child != null { return false; }
      case Object => if c.kind != String { return false; }
      case Array => if c.kind !in {Object, Array} && c.child != null { return false; }
      case _ => return false;
    }
    ok := true;
    ghost var v := Image(order);
    ParentNode(order, v, e, at);
    AppendAt(p, c, order, at);
    MadeOneMore(order, e, c, at);
    GrownFits(order, v, Image(order + [c]), e, at, c);
  }

  /** A node with a child has a last child. */
  lemma ParentNode(order: seq<JNode>, v: seq<Links>, e: Entries, at: nat)
    requires Made(order, e) && Fits(order, v, e) && at < |order|
    ensures Distinct(order) && |v| == |order|
    ensures v[at].child != null ==> v[at].childEnd != null && v[at].childEnd in order
  {
    assert v[at] == Relations(order, e, at);
    hide First, Last, Next, Previous, Rooted;
  }
}
