/** json_tree_to_string: the goto printer over linked nodes, equal to the recursive printer. */
module JsonWriter {
  import opened Common
  import opened JsonLexer
  import opened JsonTree
  import opened JsonNodes
  import opened JsonParser
  import opened JsonRoundTrip

  // ---- where a tree lies among the entries ----

  /** t occupies the entries from at on, and nobody later hangs below it. */
  ghost predicate Inside(e: Entries, t: Tree, at: nat, up: int) {
    var f := Flatten(t, at, up);
    && at + |f| <= |e| && e[at..at + |f|] == f
    && forall k :: at + |f| <= k < |e| ==> e[k].up < at || e[k].up >= at + |f|
  }

  /** Below the first entry, every parent is an earlier entry of the same tree. */
  predicate OwnUps(f: Entries, at: nat) {
    forall k :: 0 < k < |f| ==> at <= f[k].up < at + k
  }

  predicate ListUps(f: Entries, at: nat, up: int) {
    forall k :: 0 <= k < |f| ==> f[k].up == up || at <= f[k].up < at + k
  }

  lemma {:induction false} FlattenUps(t: Tree, at: nat, up: int)
    ensures Flatten(t, at, up) != [] && Flatten(t, at, up)[0] == Entry(t.kind, t.text, up)
    ensures OwnUps(Flatten(t, at, up), at)
    decreases t, 1
  {
    FlattenAllUps(t.kids, at + 1, at);
    UpsUnder(Entry(t.kind, t.text, up), FlattenAll(t.kids, at + 1, at), at);
  }

  lemma UpsUnder(x: Entry, all: Entries, at: nat)
    requires ListUps(all, at + 1, at)
    ensures OwnUps([x] + all, at)
  {
    forall k | 0 < k < |all| + 1 ensures at <= ([x] + all)[k].up < at + k {
      assert ([x] + all)[k] == all[k - 1];
    }
  }

  lemma {:induction false} FlattenAllUps(ts: seq<Tree>, at: nat, up: int)
    requires up < at
    ensures ListUps(FlattenAll(ts, at, up), at, up)
    decreases ts, 2
  {
    if ts != [] {
      var n := |ts| - 1;
      FlattenAllUps(ts[..n], at, up);
      var front := FlattenAll(ts[..n], at, up);
      FlattenUps(ts[n], at + |front|, up);
      UpsJoined(front, Flatten(ts[n], at + |front|, up), at, up);
    }
  }

  lemma UpsJoined(front: Entries, last: Entries, at: nat, up: int)
    requires ListUps(front, at, up) && last != [] && last[0].up == up && OwnUps(last, at + |front|)
    ensures ListUps(front + last, at, up)
  {
    forall k | 0 <= k < |front| + |last|
      ensures (front + last)[k].up == up || at <= (front + last)[k].up < at + k
    {
      if k >= |front| {
        assert (front + last)[k] == last[k - |front|];
      }
    }
  }

  /** Where the j-th child starts. */
  function Position(ts: seq<Tree>, j: nat, at: nat): nat
    requires j <= |ts|
  {
    at + 1 + |FlattenAll(ts[..j], at + 1, at)|
  }

  lemma {:induction false} FlattenPrefix(ts: seq<Tree>, j: nat, at: nat, up: int)
    requires j <= |ts|
    ensures FlattenAll(ts[..j], at, up) <= FlattenAll(ts, at, up)
    decreases |ts| - j
  {
    if j < |ts| {
      FlattenPrefix(ts, j + 1, at, up);
      assert ts[..j + 1][..j] == ts[..j];
    } else {
      assert ts[..j] == ts;
    }
  }

  lemma NextPosition(ts: seq<Tree>, j: nat, at: nat)
    requires j < |ts|
    ensures Position(ts, j + 1, at) == Position(ts, j, at) + |Flatten(ts[j], Position(ts, j, at), at)|
    ensures FlattenAll(ts[..j + 1], at + 1, at) ==
            FlattenAll(ts[..j], at + 1, at) + Flatten(ts[j], Position(ts, j, at), at)
  {
    assert ts[..j + 1][..j] == ts[..j];
  }

  /** The children of a tree lie inside it, one after the other. */
  lemma KidInside(e: Entries, t: Tree, at: nat, up: int, j: nat)
    requires Inside(e, t, at, up) && j < |t.kids|
    ensures Inside(e, t.kids[j], Position(t.kids, j, at), at)
  {
    var ts, p, q := t.kids, Position(t.kids, j, at), Position(t.kids, j + 1, at);
    var f, kid := Flatten(t, at, up), Flatten(t.kids[j], p, at);
    var all := FlattenAll(ts, at + 1, at);
    NextPosition(ts, j, at);
    FlattenPrefix(ts, j + 1, at + 1, at);
    Slices(e, f, all, at, Entry(t.kind, t.text, up), FlattenAll(ts[..j], at + 1, at), kid);
    forall k | q <= k < |e| ensures e[k].up < p || e[k].up >= q {
      if k < at + |f| {
        LaterKids(ts, j + 1, at, k - at - 1);
        assert e[k] == f[k - at] == all[k - at - 1];
      }
    }
  }

  /** Entries after the first j children belong to the parent or to one another. */
  lemma {:induction false} LaterKids(ts: seq<Tree>, j: nat, at: nat, k: nat)
    requires j <= |ts| && |FlattenAll(ts[..j], at + 1, at)| <= k < |FlattenAll(ts, at + 1, at)|
    ensures var x := FlattenAll(ts, at + 1, at)[k].up; x == at || x >= Position(ts, j, at)
    decreases |ts|
  {
    var n := |ts| - 1;
    var front := FlattenAll(ts[..n], at + 1, at);
    if k < |front| {
      FrontIndex(ts, j, at, k);
      assert ts[..n][..j] == ts[..j];
      LaterKids(ts[..n], j, at, k);
    } else {
      FrontIndex(ts, j, at, k);
      FlattenPrefix(ts[..n], j, at + 1, at);
      assert ts[..n][..j] == ts[..j];
      FlattenUps(ts[n], at + 1 + |front|, at);
    }
  }

  lemma FrontIndex(ts: seq<Tree>, j: nat, at: nat, k: nat)
    requires j <= |ts| && |FlattenAll(ts[..j], at + 1, at)| <= k < |FlattenAll(ts, at + 1, at)|
    ensures j < |ts|
  {
    assert ts[..|ts|] == ts;
  }

  lemma Slices(e: Entries, f: Entries, all: Entries, at: nat, x: Entry, front: Entries, kid: Entries)
    requires f == [x] + all && front + kid <= all && at + |f| <= |e| && e[at..at + |f|] == f
    ensures var p := at + 1 + |front|;
            p + |kid| <= |e| && e[p..p + |kid|] == kid
    ensures forall k :: 0 <= k < |all| ==> e[at + 1 + k] == all[k]
  {
    assert forall k :: 0 <= k < |f| ==> e[at + k] == f[k];
    assert forall k :: 0 <= k < |all| ==> f[k + 1] == all[k];
    assert forall k :: 0 <= k < |kid| ==> all[|front| + k] == (front + kid)[|front| + k] == kid[k];
  }

  // ---- the two labels of the printer as a machine ----

  datatype Pc = OpenValue | CloseValue | Finished | BadTree

  datatype Machine = Machine(pc: Pc, cursor: nat, output: Text)

  function AboveOf(e: Entries, i: nat): Above
    requires i < |e|
  {
    if 0 <= e[i].up < |e| then Under(e[e[i].up].kind) else Nothing
  }

  /** What state1 appends. */
  function OpeningOf(e: Entries, i: nat): Text
    requires i < |e|
  {
    Opening(Leaf(e[i].kind, e[i].text), AboveOf(e, i))
  }

  /** A comma before every sibling but the first, and not before the root of the call. */
  function CommaOf(e: Entries, root: nat, i: nat): Text
    requires i < |e|
  {
    if Previous(e, i) >= 0 && i != root then [','] else []
  }

  /** One pass through state1 or state2. */
  function Step(e: Entries, root: nat, m: Machine): Machine
    requires m.cursor < |e| && Rooted(e)
    ensures Step(e, root, m).cursor < |e|
  {
    var i := m.cursor;
    var x := Leaf(e[i].kind, e[i].text);
    match m.pc
    case OpenValue =>
      var output := m.output + CommaOf(e, root, i) + OpeningOf(e, i);
      var child := First(e, i);
      if Branches(x) && child >= 0 then Machine(OpenValue, child, output)
      else if x.kind.String? && IsLabel(AboveOf(e, i)) then Machine(Pc.BadTree, i, output)
      else Machine(CloseValue, i, output)
    case CloseValue =>
      var output := m.output + Closing(x);
      if e[i].up < 0 || i == root then Machine(Finished, i, output)
      else if Next(e, i) >= 0 then Machine(OpenValue, Next(e, i), output)
      else Machine(CloseValue, e[i].up, output)
    case _ => m
  }

  function Exec(e: Entries, root: nat, m: Machine, n: nat): (r: Machine)
    requires m.cursor < |e| && Rooted(e)
    ensures r.cursor < |e|
    decreases n
  {
    if n == 0 then m else Exec(e, root, Step(e, root, m), n - 1)
  }

  lemma {:induction false} ExecSum(e: Entries, root: nat, m: Machine, a: nat, b: nat)
    requires m.cursor < |e| && Rooted(e)
    ensures Exec(e, root, m, a + b) == Exec(e, root, Exec(e, root, m, a), b)
    decreases a
  {
    hide Step, Rooted;
    if a > 0 {
      ExecSum(e, root, Step(e, root, m), a - 1, b);
    }
  }

  lemma {:induction false} Stopped(e: Entries, root: nat, m: Machine, n: nat)
    requires m.cursor < |e| && Rooted(e) && (m.pc.Finished? || m.pc.BadTree?)
    ensures Exec(e, root, m, n) == m
    decreases n
  {
    if n > 0 {
      Stopped(e, root, m, n - 1);
    }
  }

  // ---- the relations of the entries inside a tree ----

  lemma {:induction false} FirstIs(e: Entries, i: int, f: int)
    requires 0 <= f < |e| && e[f].up == i && forall k :: 0 <= k < f ==> e[k].up != i
    ensures First(e, i) == f
    decreases |e|
  {
    var n := |e| - 1;
    if f < n {
      FirstIs(e[..n], i, f);
    } else {
      FirstNone(e[..n], i);
    }
  }

  lemma {:induction false} FirstNone(e: Entries, i: int)
    requires forall k :: 0 <= k < |e| ==> e[k].up != i
    ensures First(e, i) == -1 && Last(e, i) == -1
    decreases |e|
  {
    if e != [] {
      FirstNone(e[..|e| - 1], i);
    }
  }

  lemma {:induction false} NextIs(e: Entries, j: nat, f: int)
    requires j < |e| && (f == -1 || j < f < |e|)
    requires if f == -1 then forall k :: j < k < |e| ==> e[k].up != e[j].up
             else e[f].up == e[j].up && forall k :: j < k < f ==> e[k].up != e[j].up
    ensures Next(e, j) == f
    decreases |e|
  {
    var n := |e| - 1;
    if j < n {
      if f == n {
        NextIs(e[..n], j, -1);
      } else {
        NextIs(e[..n], j, f);
      }
    }
  }

  /** The children of t are found through First, Next and Previous. */
  lemma FirstKid(e: Entries, t: Tree, at: nat, up: int)
    requires Rooted(e) && Inside(e, t, at, up)
    ensures First(e, at) == if t.kids == [] then -1 else at + 1
    ensures t.kids != [] ==> Position(t.kids, 0, at) == at + 1
  {
    FlattenUps(t, at, up);
    if t.kids == [] {
      assert Flatten(t, at, up) == [Entry(t.kind, t.text, up)];
      FirstNone(e, at);
    } else {
      KidInside(e, t, at, up, 0);
      FlattenUps(t.kids[0], at + 1, at);
      assert t.kids[..0] == [];
      FirstIs(e, at, at + 1);
    }
  }

  lemma {:induction false} SomeLast(e: Entries, i: int, k: nat)
    requires k < |e| && e[k].up == i
    ensures Last(e, i) >= 0
    decreases |e|
  {
    var n := |e| - 1;
    if k < n {
      SomeLast(e[..n], i, k);
    }
  }

  lemma {:induction false} KidEntry(e: Entries, t: Tree, at: nat, up: int, j: nat)
    requires Inside(e, t, at, up) && j < |t.kids|
    ensures var p, q := Position(t.kids, j, at), Position(t.kids, j + 1, at);
            && at < p < q <= |e| && e[p] == Entry(t.kids[j].kind, t.kids[j].text, at)
            && forall k :: p < k < q ==> e[k].up > at
  {
    var p, kid := Position(t.kids, j, at), t.kids[j];
    KidInside(e, t, at, up, j);
    FlattenUps(kid, p, at);
    NextPosition(t.kids, j, at);
    var f := Flatten(kid, p, at);
    assert forall k :: 0 <= k < |f| ==> e[p + k] == f[k];
    forall k | p < k < p + |f| ensures e[k].up > at {
      assert e[k] == f[k - p];
    }
  }

  lemma {:induction false} NextKid(e: Entries, t: Tree, at: nat, up: int, j: nat)
    requires Rooted(e) && Inside(e, t, at, up) && j < |t.kids|
    ensures Position(t.kids, j, at) < |e|
    ensures Next(e, Position(t.kids, j, at)) == if j + 1 < |t.kids| then Position(t.kids, j + 1, at) else -1
    ensures Previous(e, Position(t.kids, j, at)) >= 0 <==> j > 0
  {
    var p, q := Position(t.kids, j, at), Position(t.kids, j + 1, at);
    KidEntry(e, t, at, up, j);
    if j + 1 < |t.kids| {
      KidEntry(e, t, at, up, j + 1);
      NextIs(e, p, q);
    } else {
      assert t.kids[..j + 1] == t.kids;
      NextIs(e, p, -1);
    }
    if j > 0 {
      var b := Position(t.kids, j - 1, at);
      KidEntry(e, t, at, up, j - 1);
      assert e[..p][b] == e[b];
      SomeLast(e[..p], at, b);
    } else {
      assert t.kids[..0] == [];
      FirstNone(e[..p], at);
    }
  }

  // ---- the machine prints ----

  /** The machine when j children of the node at this position are done. */
  function Between(t: Tree, at: nat, j: nat, output: Text): Machine
    requires j <= |t.kids|
  {
    if j < |t.kids| then Machine(OpenValue, Position(t.kids, j, at), output) else Machine(CloseValue, at, output)
  }

  predicate AllPrintable(t: Tree, j: nat)
    requires j <= |t.kids|
  {
    forall i :: 0 <= i < j ==> Printable(t.kids[i], Under(t.kind))
  }

  /** In n steps from m: r when all is well, otherwise the error exit. */
  predicate Ran(e: Entries, root: nat, m: Machine, n: nat, well: bool, r: Machine) {
    && m.cursor < |e| && Rooted(e)
    && if well then Exec(e, root, m, n) == r else Exec(e, root, m, n).pc.BadTree?
  }

  lemma RanOn(e: Entries, root: nat, m: Machine, a: nat, r: Machine, b: nat, well: bool, s: Machine)
    requires Ran(e, root, m, a, true, r) && Ran(e, root, r, b, well, s)
    ensures Ran(e, root, m, a + b, well, s)
  {
    ExecSum(e, root, m, a, b);
  }

  lemma RanStep(e: Entries, root: nat, m: Machine)
    requires m.cursor < |e| && Rooted(e)
    ensures Ran(e, root, m, 1, true, Step(e, root, m))
  {
    assert Exec(e, root, m, 1) == Exec(e, root, Step(e, root, m), 0);
  }

  /** The node t at this position of the list. */
  predicate Placed(e: Entries, root: nat, t: Tree, at: nat, up: int) {
    Rooted(e) && root <= at < |e| && e[at] == Entry(t.kind, t.text, up)
  }

  /** What a value has appended when it is about to be closed. */
  function Opened(e: Entries, root: nat, t: Tree, at: nat, o: Text): Text
    requires at < |e|
  {
    o + CommaOf(e, root, at) + (Opening(t, AboveOf(e, at)) + if Branches(t) then PrintAll(t.kids, t.kind) else [])
  }

  /** From opening a value to closing it. */
  lemma {:induction false} ValueRuns(e: Entries, root: nat, t: Tree, at: nat, up: int, o: Text) returns (n: nat)
    requires Placed(e, root, t, at, up) && Inside(e, t, at, up)
    ensures Ran(e, root, Machine(OpenValue, at, o), n, Printable(t, AboveOf(e, at)),
                Machine(CloseValue, at, Opened(e, root, t, at, o)))
    decreases t, 1, 0
  {
    hide Exec, Inside, Flatten, FlattenAll, PrintAll, CommaOf, AboveOf, Opening, First, Step;
    FirstKid(e, t, at, up);
    if Branches(t) && t.kids != [] {
      var out := o + CommaOf(e, root, at) + Opening(t, AboveOf(e, at));
      OpenBranch(e, root, t, at, o);
      var k := KidsRun(e, root, t, at, up, |t.kids|, out);
      RanOn(e, root, Machine(OpenValue, at, o), 1, Between(t, at, 0, out), k, AllPrintable(t, |t.kids|),
            Between(t, at, |t.kids|, out + PrintAll(t.kids[..|t.kids|], t.kind)));
      n := 1 + k;
      assert t.kids[..|t.kids|] == t.kids;
      Sum(o + CommaOf(e, root, at), Opening(t, AboveOf(e, at)), PrintAll(t.kids, t.kind));
    } else {
      n := 1;
      OpenLeaf(e, root, t, at, o);
    }
  }

  lemma OpenBranch(e: Entries, root: nat, t: Tree, at: nat, o: Text)
    requires Rooted(e) && at < |e| && e[at].kind == t.kind && e[at].text == t.text
    requires Branches(t) && t.kids != [] && First(e, at) == at + 1 == Position(t.kids, 0, at)
    ensures Ran(e, root, Machine(OpenValue, at, o), 1, true,
                Between(t, at, 0, o + CommaOf(e, root, at) + Opening(t, AboveOf(e, at))))
  {
    RanStep(e, root, Machine(OpenValue, at, o));
  }

  lemma OpenLeaf(e: Entries, root: nat, t: Tree, at: nat, o: Text)
    requires Rooted(e) && at < |e| && e[at].kind == t.kind && e[at].text == t.text
    requires First(e, at) >= 0 || Branches(t) ==> (First(e, at) >= 0 <==> t.kids != [])
    requires Branches(t) ==> t.kids == []
    ensures Ran(e, root, Machine(OpenValue, at, o), 1, Printable(t, AboveOf(e, at)),
                Machine(CloseValue, at, Opened(e, root, t, at, o)))
  {
    RanStep(e, root, Machine(OpenValue, at, o));
  }

  lemma {:induction false} KidsRun(e: Entries, root: nat, t: Tree, at: nat, up: int, j: nat, o: Text) returns (n: nat)
    requires Placed(e, root, t, at, up) && Inside(e, t, at, up) && t.kids != [] && j <= |t.kids|
    ensures Ran(e, root, Between(t, at, 0, o), n, AllPrintable(t, j),
                Between(t, at, j, o + PrintAll(t.kids[..j], t.kind)))
    decreases t, 0, j
  {
    hide Exec, Inside, Flatten, FlattenAll, Print, CommaOf, AboveOf, Opening, First, Step, Between, Printable;
    if j == 0 {
      NextKid(e, t, at, up, 0);
      n := 0;
      RanNothing(e, root, t, at, o);
    } else {
      var k := KidsRun(e, root, t, at, up, j - 1, o);
      var out := o + PrintAll(t.kids[..j - 1], t.kind);
      if AllPrintable(t, j - 1) {
        var v := KidRuns(e, root, t, at, up, j - 1, out);
        n := k + v;
        OneMorePrinted(t, j - 1, o);
        RanOn(e, root, Between(t, at, 0, o), k, Between(t, at, j - 1, out), v,
              Printable(t.kids[j - 1], Under(t.kind)), Between(t, at, j, o + PrintAll(t.kids[..j], t.kind)));
      } else {
        n := k;
        assert !AllPrintable(t, j);
      }
    }
  }

  lemma RanNothing(e: Entries, root: nat, t: Tree, at: nat, o: Text)
    requires Rooted(e) && t.kids != [] && Position(t.kids, 0, at) < |e|
    ensures Ran(e, root, Between(t, at, 0, o), 0, true, Between(t, at, 0, o + PrintAll(t.kids[..0], t.kind)))
  {
    assert t.kids[..0] == [];
    assert o + [] == o;
  }

  lemma OneMorePrinted(t: Tree, j: nat, o: Text)
    requires j < |t.kids|
    ensures o + PrintAll(t.kids[..j + 1], t.kind) ==
            o + PrintAll(t.kids[..j], t.kind) + ((if j == 0 then [] else [',']) + Print(t.kids[j], Under(t.kind)))
  {
    assert t.kids[..j + 1][..j] == t.kids[..j];
  }

  /** One child, from opening it to the next one or back to the parent. */
  lemma {:induction false} KidRuns(e: Entries, root: nat, t: Tree, at: nat, up: int, j: nat, o: Text) returns (n: nat)
    requires Placed(e, root, t, at, up) && Inside(e, t, at, up) && j < |t.kids|
    ensures Ran(e, root, Between(t, at, j, o), n, Printable(t.kids[j], Under(t.kind)),
                Between(t, at, j + 1, o + ((if j == 0 then [] else [',']) + Print(t.kids[j], Under(t.kind)))))
    decreases t, 0, 0
  {
    hide Exec, Inside, Flatten, FlattenAll, Print, First, Next, Previous, Step, Printable;
    var p, kid := Position(t.kids, j, at), t.kids[j];
    KidEntry(e, t, at, up, j);
    NextKid(e, t, at, up, j);
    KidInside(e, t, at, up, j);
    n := ValueRuns(e, root, kid, p, at, o);
    if Printable(kid, Under(t.kind)) {
      var m := Machine(CloseValue, p, Opened(e, root, kid, p, o));
      CloseKid(e, root, t, at, j, o);
      RanOn(e, root, Machine(OpenValue, p, o), n, m, 1, true,
            Between(t, at, j + 1, o + ((if j == 0 then [] else [',']) + Print(kid, Under(t.kind)))));
      n := n + 1;
    }
  }

  lemma {:induction false} CloseKid(e: Entries, root: nat, t: Tree, at: nat, j: nat, o: Text)
    requires Rooted(e) && root <= at < |e| && e[at].kind == t.kind && j < |t.kids|
    requires var p := Position(t.kids, j, at);
             && at < p < |e| && e[p] == Entry(t.kids[j].kind, t.kids[j].text, at)
             && Next(e, p) == (if j + 1 < |t.kids| then Position(t.kids, j + 1, at) else -1)
             && (Previous(e, p) >= 0 <==> j > 0)
    ensures var p := Position(t.kids, j, at);
            Ran(e, root, Machine(CloseValue, p, Opened(e, root, t.kids[j], p, o)), 1, true,
                Between(t, at, j + 1, o + ((if j == 0 then [] else [',']) + Print(t.kids[j], Under(t.kind)))))
  {
    hide Exec, Flatten, FlattenAll, Next, Previous, PrintAll;
    var p, kid := Position(t.kids, j, at), t.kids[j];
    var comma: Text := if j == 0 then [] else [','];
    RanStep(e, root, Machine(CloseValue, p, Opened(e, root, kid, p, o)));
    var body := Opening(kid, Under(t.kind)) + if Branches(kid) then PrintAll(kid.kids, kid.kind) else [];
    assert Print(kid, Under(t.kind)) == body + Closing(kid);
    Sum(comma, body, Closing(kid));
    Sum(o, comma, body);
    Sum(o, comma + body, Closing(kid));
  }

  /** A whole run from the root: it ends, and with the printed form just when every label has a value. */
  lemma WholeRun(e: Entries, t: Tree, at: nat, up: int) returns (n: nat)
    requires Rooted(e) && at < |e| && Inside(e, t, at, up)
    ensures var r := Exec(e, at, Machine(OpenValue, at, []), n);
            if Printable(t, AboveOf(e, at)) then r.pc.Finished? && r.output == Print(t, AboveOf(e, at)) else r.pc.BadTree?
  {
    hide Exec, Inside, Flatten, PrintAll, Step, Opened, Printable, Print;
    var start := Machine(OpenValue, at, []);
    RootEntry(e, t, at, up);
    n := ValueRuns(e, at, t, at, up, []);
    if Printable(t, AboveOf(e, at)) {
      var m := Machine(CloseValue, at, Opened(e, at, t, at, []));
      RanStep(e, at, m);
      RanOn(e, at, start, n, m, 1, true, Step(e, at, m));
      CloseRoot(e, t, at);
      n := n + 1;
    }
  }

  lemma RootEntry(e: Entries, t: Tree, at: nat, up: int)
    requires at < |e| && Inside(e, t, at, up)
    ensures e[at] == Entry(t.kind, t.text, up)
  {
    FlattenUps(t, at, up);
    assert e[at..at + |Flatten(t, at, up)|][0] == e[at];
  }

  lemma {:induction false} CloseRoot(e: Entries, t: Tree, at: nat)
    requires Rooted(e) && at < |e| && e[at].kind == t.kind && e[at].text == t.text
    ensures var r := Step(e, at, Machine(CloseValue, at, Opened(e, at, t, at, [])));
            r.pc.Finished? && r.output == Print(t, AboveOf(e, at))
  {
    var body := Opening(t, AboveOf(e, at)) + if Branches(t) then PrintAll(t.kids, t.kind) else [];
    assert [] + [] + body == body;
  }

  lemma NoStep(e: Entries, root: nat, m: Machine)
    requires m.cursor < |e| && Rooted(e)
    ensures Exec(e, root, m, 0) == m
  {}

  lemma OneStep(e: Entries, root: nat, start: Machine, k: nat, m: Machine)
    requires start.cursor < |e| && Rooted(e) && Exec(e, root, start, k) == m
    ensures m.cursor < |e| && Exec(e, root, start, k + 1) == Step(e, root, m)
  {
    RanStep(e, root, m);
    ExecSum(e, root, start, k, 1);
  }

  lemma StaysPut(e: Entries, root: nat, start: Machine, k: nat, n: nat)
    requires start.cursor < |e| && Rooted(e) && k <= n
    requires Exec(e, root, start, k).pc.Finished? || Exec(e, root, start, k).pc.BadTree?
    ensures Exec(e, root, start, n) == Exec(e, root, start, k)
  {
    ExecSum(e, root, start, k, n - k);
    Stopped(e, root, Exec(e, root, start, k), n - k);
  }

  // ---- on the nodes ----

  /** The machine state that a cursor and an output buffer stand for. */
  predicate Shows(order: seq<JNode>, m: Machine, pc: Pc, cursor: JNode, output: Text) {
    m.cursor < |order| && pc == m.pc && cursor == order[m.cursor] && (pc.BadTree? || output == m.output)
  }

  /** The pointers of the i-th node. */
  lemma NodeAt(order: seq<JNode>, e: Entries, i: nat)
    requires Linked(order, e) && i < |e|
    ensures |order| == |e| && Rooted(e)
    ensures order[i].kind == e[i].kind && order[i].text == e[i].text
    ensures order[i].parent == At(order, e[i].up) && order[i].child == At(order, First(e, i))
    ensures order[i].next == At(order, Next(e, i)) && order[i].previous == At(order, Previous(e, i))
    ensures At(order, e[i].up) != null ==> AboveOf(e, i) == Under(At(order, e[i].up).kind)
    ensures At(order, e[i].up) == null <==> e[i].up < 0
    ensures At(order, e[i].up) == null ==> AboveOf(e, i) == Nothing
  {
    assert Image(order)[i] == Relations(order, e, i);
    hide First, Next, Previous, Last;
  }

  lemma SameNode(order: seq<JNode>, i: nat, j: nat)
    requires Distinct(order) && i < |order| && j < |order|
    ensures order[i] == order[j] <==> i == j
  {}

  /** state1: open value */
  method OpenPass(root: JNode, cursor: JNode, output: Text,
                  ghost order: seq<JNode>, ghost e: Entries, ghost at: nat, ghost m: Machine)
    returns (pc': Pc, cursor': JNode, output': Text)
    requires Linked(order, e) && at < |e| && |order| == |e| && root == order[at] && Rooted(e)
    requires Shows(order, m, OpenValue, cursor, output)
    ensures Shows(order, Step(e, at, m), pc', cursor', output')
  {
    hide First, Next, Previous, Last, Image, Linked, Rooted;
    NodeAt(order, e, m.cursor);
    RootNode(order, e, m.cursor, at);
    pc', cursor', output' := OpenValue, cursor, output;
    if cursor.previous != null && cursor != root {
      output' := output' + [','];
    }
    match cursor.kind {
      case String =>
        output' := output' + Quoted(cursor.text);
        if cursor.parent != null {
          if cursor.parent.kind == Object {
            if cursor.child != null {
              output' := output' + [':'];
            } else {
              return Pc.BadTree, cursor, output';
            }
          }
        } else {
          if cursor.child != null {
            output' := output' + [':'];
          } else {
            return Pc.BadTree, cursor, output';
          }
        }
      case Number => return CloseValue, cursor, output' + cursor.text;
      case Object => output' := output' + ['{'];
      case Array => output' := output' + ['['];
      case True => return CloseValue, cursor, output' + TRUE_TEXT;
      case False => return CloseValue, cursor, output' + FALSE_TEXT;
      case Null => return CloseValue, cursor, output' + NULL_TEXT;
    }
    if cursor.child != null {
      cursor' := cursor.child;
    } else {
      pc' := CloseValue;
    }
  }

  /** state2: close value */
  method ClosePass(root: JNode, cursor: JNode, output: Text,
                   ghost order: seq<JNode>, ghost e: Entries, ghost at: nat, ghost m: Machine)
    returns (pc': Pc, cursor': JNode, output': Text)
    requires Linked(order, e) && at < |e| && |order| == |e| && root == order[at] && Rooted(e)
    requires Shows(order, m, CloseValue, cursor, output)
    ensures Shows(order, Step(e, at, m), pc', cursor', output')
  {
    hide First, Next, Previous, Last, Image, Linked, Rooted;
    NodeAt(order, e, m.cursor);
    RootNode(order, e, m.cursor, at);
    pc', cursor', output' := CloseValue, cursor, output;
    match cursor.kind {
      case Object => output' := output' + ['}'];
      case Array => output' := output' + [']'];
      case _ =>
    }
    if cursor.parent == null || cursor == root {
      pc' := Finished;
    } else if cursor.next != null {
      pc', cursor' := OpenValue, cursor.next;
    } else {
      cursor' := cursor.parent;
    }
  }

  lemma RootNode(order: seq<JNode>, e: Entries, i: nat, at: nat)
    requires Linked(order, e) && i < |order| && at < |order|
    ensures order[i] == order[at] <==> i == at
  {
    SameNode(order, i, at);
  }

  /** json_tree_to_string: prints the tree below any node, or reports a label without a value. */
  method WriteTree(root: JNode, ghost order: seq<JNode>, ghost e: Entries, ghost at: nat, ghost t: Tree, ghost up: int)
    returns (ok: bool, text: Text)
    requires Linked(order, e) && at < |e| && |order| == |e| && root == order[at] && Inside(e, t, at, up)
    ensures ok == Printable(t, AboveOf(e, at))
    ensures ok ==> text == Print(t, AboveOf(e, at))
  {
    hide First, Next, Previous, Last, Image, Linked, Step, Exec, Inside, Print, PrintAll, Flatten;
    NodeAt(order, e, at);
    var pc, cursor, output := OpenValue, root, [];
    ghost var start := Machine(OpenValue, at, []);
    ghost var total := WholeRun(e, t, at, up);
    ghost var k, m := 0, start;
    NoStep(e, at, start);
    while pc.OpenValue? || pc.CloseValue?
      invariant k <= total && m.cursor < |e|
      invariant Shows(order, m, pc, cursor, output) && Exec(e, at, start, k) == m
      decreases total - k
    {
      if pc.OpenValue? {
        pc, cursor, output := OpenPass(root, cursor, output, order, e, at, m);
      } else {
        pc, cursor, output := ClosePass(root, cursor, output, order, e, at, m);
      }
      OneStep(e, at, start, k, m);
      k, m := k + 1, Step(e, at, m);
    }
    StaysPut(e, at, start, k, total);
    return pc.Finished?, output;
  }

  /** On the nodes of a document the printer succeeds, and its output parses back to the same document. */
  lemma WrittenIsRead(t: Tree)
    requires Document(t)
    ensures var e := Flatten(t, 0, -1);
            && e != [] && Inside(e, t, 0, -1) && AboveOf(e, 0) == Nothing && Printable(t, AboveOf(e, 0))
            && ParseDocument(Print(t, AboveOf(e, 0))) == Ok(t)
  {
    FlattenUps(t, 0, -1);
    var e := Flatten(t, 0, -1);
    assert e[0..0 + |e|] == e;
    ValuesArePrintable(t, Nothing);
    RoundTrip(t);
  }
}
