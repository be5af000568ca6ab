/** Documents as json.c keeps them: values, labels, their printed form, and their nodes in creation order. */
module JsonTree {
  import opened Common
  import opened JsonLexer

  datatype Kind = String | Number | Object | Array | True | False | Null

  /** A node; a label of an object is a String whose child is the value. */
  datatype Tree = Node(kind: Kind, text: Text, kids: seq<Tree>)

  /** The node above, if any. */
  datatype Above = Nothing | Under(kind: Kind)

  predicate NumberText(s: Text) {
    s != [] && IsNumberEnd(Collect(Root, s))
  }

  predicate Value(t: Tree) {
    match t.kind
    case String => t.kids == [] && StringBody(t.text)
    case Number => t.kids == [] && NumberText(t.text)
    case Object => t.text == [] && forall i :: 0 <= i < |t.kids| ==> Field(t.kids[i])
    case Array => t.text == [] && forall i :: 0 <= i < |t.kids| ==> Value(t.kids[i])
    case _ => t.text == [] && t.kids == []
  }

  predicate Field(t: Tree) {
    t.kind.String? && StringBody(t.text) && |t.kids| == 1 && Value(t.kids[0])
  }

  /** What json_parse_document can return. */
  predicate Document(t: Tree) {
    t.kind.Object? && Value(t)
  }

  // ---- printing, for any tree, well formed or not ----

  const TRUE_TEXT: Text := ['t', 'r', 'u', 'e']
  const FALSE_TEXT: Text := ['f', 'a', 'l', 's', 'e']
  const NULL_TEXT: Text := ['n', 'u', 'l', 'l']

  /** A string with no parent, or under an object, is printed as a label. */
  predicate IsLabel(above: Above) {
    above.Nothing? || above.kind.Object?
  }

  function Quoted(s: Text): Text {
    ['"'] + s + ['"']
  }

  /** What a node appends before its children. */
  function Opening(t: Tree, above: Above): Text {
    match t.kind
    case String => Quoted(t.text) + if IsLabel(above) then [':'] else []
    case Number => t.text
    case Object => ['{']
    case Array => ['[']
    case True => TRUE_TEXT
    case False => FALSE_TEXT
    case Null => NULL_TEXT
  }

  function Closing(t: Tree): Text {
    match t.kind
    case Object => ['}']
    case Array => [']']
    case _ => []
  }

  /** The kinds whose children are visited at all. */
  predicate Branches(t: Tree) {
    t.kind in {String, Object, Array}
  }

  function Print(t: Tree, above: Above): Text
    decreases t, 0
  {
    Opening(t, above) + (if Branches(t) then PrintAll(t.kids, t.kind) else []) + Closing(t)
  }

  function PrintAll(ts: seq<Tree>, kind: Kind): Text
    decreases ts, 1
  {
    if ts == [] then []
    else PrintAll(ts[..|ts| - 1], kind) + (if |ts| == 1 then [] else [',']) + Print(ts[|ts| - 1], Under(kind))
  }

  /** A label without a value stops the printer. */
  predicate Printable(t: Tree, above: Above) {
    Branches(t) ==>
      && (t.kind.String? && IsLabel(above) ==> t.kids != [])
      && forall i :: 0 <= i < |t.kids| ==> Printable(t.kids[i], Under(t.kind))
  }

  lemma {:induction false} ValuesArePrintable(t: Tree, above: Above)
    requires if IsLabel(above) then Field(t) || (Value(t) && !t.kind.String?) else Value(t)
    ensures Printable(t, above)
    decreases t
  {
    if Branches(t) {
      forall i | 0 <= i < |t.kids| ensures Printable(t.kids[i], Under(t.kind)) {
        ValuesArePrintable(t.kids[i], Under(t.kind));
      }
    }
  }

  // ---- the nodes in creation order, each with the position of its parent ----

  /** up is -1 for the root. */
  datatype Entry = Entry(kind: Kind, text: Text, up: int)

  function Flatten(t: Tree, at: nat, up: int): seq<Entry>
    decreases t, 0
  {
    [Entry(t.kind, t.text, up)] + FlattenAll(t.kids, at + 1, at)
  }

  function FlattenAll(ts: seq<Tree>, at: nat, up: int): seq<Entry>
    decreases ts, 1
  {
    if ts == [] then []
    else var front := FlattenAll(ts[..|ts| - 1], at, up);
         front + Flatten(ts[|ts| - 1], at + |front|, up)
  }

  /** The open nodes, root first; each is the last child of the one before. */
  type Stack = seq<Tree>

  function Top(s: Stack): Tree
    requires s != []
  {
    s[|s| - 1]
  }

  /** All nodes but the innermost open one and those below it. */
  function Outer(s: Stack): Stack
    requires s != []
  {
    s[..|s| - 1]
  }

  function Leaf(kind: Kind, text: Text): Tree {
    Node(kind, text, [])
  }

  function Grow(t: Tree, kid: Tree): Tree {
    Node(t.kind, t.text, t.kids + [kid])
  }

  /** Moving the cursor to the parent. */
  function Pop(s: Stack): (r: Stack)
    requires |s| >= 2
    ensures |r| == |s| - 1
  {
    Outer(Outer(s)) + [Grow(Top(Outer(s)), Top(s))]
  }

  function FlatStack(s: Stack): seq<Entry>
    decreases |s|, 0
  {
    if s == [] then [] else FlatStack(Outer(s)) + Flatten(Top(s), |FlatStack(Outer(s))|, Cursor(Outer(s)))
  }

  /** The position of the innermost open node. */
  function Cursor(s: Stack): int
    decreases |s|, 1
  {
    if s == [] then -1 else |FlatStack(Outer(s))|
  }

  lemma PushAppends(s: Stack, kind: Kind, text: Text)
    ensures FlatStack(s + [Leaf(kind, text)]) == FlatStack(s) + [Entry(kind, text, Cursor(s))]
    ensures Cursor(s + [Leaf(kind, text)]) == |FlatStack(s)|
  {
    assert Outer(s + [Leaf(kind, text)]) == s;
    var at := |FlatStack(s)|;
    assert Flatten(Leaf(kind, text), at, Cursor(s)) == [Entry(kind, text, Cursor(s))] by {
      assert FlattenAll([], at + 1, at) == [];
    }
  }

  lemma GrowFlattens(t: Tree, kid: Tree, at: nat, up: int)
    ensures Flatten(Grow(t, kid), at, up) ==
            Flatten(t, at, up) + Flatten(kid, at + |Flatten(t, at, up)|, at)
  {
    var ts := t.kids + [kid];
    assert ts[..|ts| - 1] == t.kids;
    var front := FlattenAll(t.kids, at + 1, at);
    assert FlattenAll(ts, at + 1, at) == front + Flatten(kid, at + 1 + |front|, at);
  }

  lemma Unroll(s: Stack, t: Tree)
    ensures FlatStack(s + [t]) == FlatStack(s) + Flatten(t, |FlatStack(s)|, Cursor(s))
    ensures Cursor(s + [t]) == |FlatStack(s)|
  {
    assert Outer(s + [t]) == s;
  }

  lemma GrowKeeps(below: Stack, t: Tree, kid: Tree)
    ensures FlatStack(below + [Grow(t, kid)]) == FlatStack(below + [t] + [kid])
    ensures Cursor(below + [Grow(t, kid)]) == Cursor(below + [t])
  {
    hide FlatStack, Cursor, Flatten;
    Unroll(below, Grow(t, kid));
    Unroll(below, t);
    Unroll(below + [t], kid);
    GrowFlattens(t, kid, |FlatStack(below)|, Cursor(below));
    Sum(FlatStack(below), Flatten(t, |FlatStack(below)|, Cursor(below)),
        Flatten(kid, |FlatStack(below + [t])|, Cursor(below + [t])));
  }

  lemma OuterTop(s: Stack)
    requires s != []
    ensures s == Outer(s) + [Top(s)] && |Outer(s)| == |s| - 1
  {}

  /** Leaving a node neither adds nor removes one. */
  lemma PopKeeps(s: Stack)
    requires |s| >= 2
    ensures FlatStack(Pop(s)) == FlatStack(s)
    ensures Cursor(Pop(s)) == Cursor(Outer(s))
  {
    hide FlatStack, Cursor, Flatten, Outer, Top, Grow;
    OuterTop(s);
    OuterTop(Outer(s));
    GrowKeeps(Outer(Outer(s)), Top(Outer(s)), Top(s));
  }
}
