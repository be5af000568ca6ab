/** json_parse_fragment and its callers on linked nodes, proved equal to the step function. */
module JsonReader {
  import opened Common
  import opened JsonLexer
  import opened JsonTree
  import opened JsonParser
  import opened JsonParserInvariant
  import opened JsonNodes
  import opened JsonFragments

  /** What one call of lexer returns; NoToken is LEX_MORE. */
  datatype Scanned = NoToken | Got(token: Token)

  datatype Status = Fine | Failing(error: Error)

  /** The lexer from position i: where it stops, and with what. */
  function Scan(x: Lexer, input: Text, i: nat): (Lexer, Scanned, nat)
    requires i <= |input|
    decreases |input| - i
  {
    if i == |input| then (x, NoToken, i)
    else match Lex(x, input[i])
         case More(y) => Scan(y, input, i + 1)
         case Emit(y, t, consumed) => (y, Got(t), if consumed then i + 1 else i)
  }

  lemma {:induction false} ScanStops(x: Lexer, input: Text, i: nat)
    requires i <= |input|
    ensures var (y, r, j) := Scan(x, input, i);
            && i <= j <= |input| && (r.NoToken? ==> j == |input|)
            && (r.Got? && j == i ==> !x.state.Root? && (r.token.Invalid? || y.state.Root?))
            && (r.Got? ==> i < |input|)
    decreases |input| - i
  {
    if i < |input| && Lex(x, input[i]).More? {
      ScanStops(Lex(x, input[i]).lexer, input, i + 1);
    }
  }

  lemma LexUnread(x: Lexer, c: Char)
    ensures var r := Lex(x, c);
            r.Emit? && !r.consumed ==> r.token.Invalid? || r.lexer.state.Root?
    ensures x.state.Root? && Lex(x, c).Emit? ==> Lex(x, c).consumed
  {}

  predicate Reading(p: Parser) {
    Sane(p.state, p.stack) && !p.state.OpenObject? && !p.state.OpenArray?
  }

  lemma EnterLeavesLexer(p: Parser)
    ensures Enter(p).Running? ==> Enter(p).parser.lexer == p.lexer
  {}

  /** A character left unread is simply fed again. */
  lemma UnreadIsFedAgain(p: Parser, c: Char)
    requires Reading(p) && Lex(p.lexer, c).Emit? && !Lex(p.lexer, c).consumed
    ensures var r := Take(Parser(p.state, Lex(p.lexer, c).lexer, p.stack), Lex(p.lexer, c).token);
            Feed(p, c) == if r.Failed? then r else Feed(r.parser, c)
  {
    LexUnread(p.lexer, c);
    var q := Parser(p.state, Lex(p.lexer, c).lexer, p.stack);
    Rejects(q);
    TakeLeavesLexer(q, Lex(p.lexer, c).token);
    var r := Take(q, Lex(p.lexer, c).token);
    if r.Running? {
      EnterLeavesLexer(r.parser);
      LexUnread(r.parser.lexer, c);
    }
    hide Take, Lex, Sane, Enter;
  }

  /** Running character by character is scanning a token and taking it, over and over. */
  lemma {:induction false} RunScan(p: Parser, input: Text, i: nat)
    requires Reading(p) && i <= |input|
    ensures var (y, r, j) := Scan(p.lexer, input, i);
            j <= |input| &&
            var q := Parser(p.state, y, p.stack);
            Run(p, input[i..]) == if r.NoToken? then Running(q)
                                  else if Take(q, r.token).Failed? then Take(q, r.token)
                                  else Run(Take(q, r.token).parser, input[j..])
    decreases |input| - i
  {
    ScanStops(p.lexer, input, i);
    hide Take, Lex, Sane;
    if i < |input| {
      var c, s := input[i], input[i..];
      assert s[0] == c && s[1..] == input[i + 1..];
      match Lex(p.lexer, c) {
        case More(y) => RunScan(Parser(p.state, y, p.stack), input, i + 1);
        case Emit(y, t, consumed) =>
          if !consumed {
            UnreadIsFedAgain(p, c);
          }
      }
    }
  }

  lemma EnterFirst(p: Parser, s: Text)
    requires s != []
    ensures if Enter(p).Failed? then Run(p, s) == Enter(p) else Run(p, s) == Run(Enter(p).parser, s)
  {
    EnterTwice(p);
    hide Enter, Lex, Take;
  }

  lemma EnterTwice(p: Parser)
    ensures Enter(p).Running? ==> Enter(Enter(p).parser) == Enter(p)
  {}

  // ---- the cursor among the nodes ----

  lemma CursorEntry(s: Stack)
    requires s != []
    ensures 0 <= Cursor(s) < |FlatStack(s)|
    ensures FlatStack(s)[Cursor(s)] == Entry(Top(s).kind, Top(s).text, Cursor(Outer(s)))
    ensures Cursor(Outer(s)) == -1 <==> |s| == 1
  {
    if |s| > 1 {
      assert Cursor(Outer(s)) == |FlatStack(Outer(Outer(s)))|;
    }
  }

  lemma PutFlat(s: Stack, kind: Kind, text: Text)
    requires s != []
    ensures FlatStack(Pop(s + [Leaf(kind, text)])) == FlatStack(s) + [Entry(kind, text, Cursor(s))]
    ensures Cursor(Pop(s + [Leaf(kind, text)])) == Cursor(s)
    ensures Pop(s + [Leaf(kind, text)]) != []
  {
    PushAppends(s, kind, text);
    PopKeeps(s + [Leaf(kind, text)]);
    assert Outer(s + [Leaf(kind, text)]) == s;
  }

  /** struct json_parsing_info. The ghost fields say which nodes exist and what they amount to. */
  class Reader {
    var state: State
    var lexer: Lexer
    var cursor: JNode?
    ghost var order: seq<JNode>
    ghost var stack: Stack

    ghost predicate Valid()
      reads this, order
    {
      Linked(order, FlatStack(stack)) && cursor == At(order, Cursor(stack))
    }

    ghost function Model(): Parser
      reads this
    {
      Parser(state, lexer, stack)
    }

    /** json_jpi_init */
    constructor ()
      ensures Valid() && Model() == INITIAL && order == []
    {
      state, lexer, cursor := Start, Lexer(Root, [], 1), null;
      order, stack := [], [];
    }

    /** Where the cursor stands, as its node shows it. */
    lemma CursorNode()
      requires Valid()
      ensures cursor == null <==> stack == []
      ensures stack != [] ==>
                && 0 <= Cursor(stack) < |order| && cursor == order[Cursor(stack)]
                && cursor.kind == Top(stack).kind && (cursor.parent == null <==> |stack| == 1)
                && cursor.parent == At(order, Cursor(Outer(stack)))
    {
      if stack != [] {
        CursorEntry(stack);
        var i := Cursor(stack);
        assert Image(order)[i] == Relations(order, FlatStack(stack), i);
        hide FlatStack, Cursor;
        AtMeets(order, FlatStack(stack), i, Cursor(Outer(stack)));
      }
    }

    /** lexer */
    method NextToken(input: Text, i: nat) returns (r: Scanned, j: nat)
      requires i <= |input|
      modifies this`lexer
      ensures (lexer, r, j) == Scan(old(lexer), input, i)
    {
      j := i;
      while j < |input|
        invariant i <= j <= |input|
        invariant Scan(lexer, input, j) == Scan(old(lexer), input, i)
      {
        match Lex(lexer, input[j]) {
          case More(x) =>
            lexer := x;
            j := j + 1;
          case Emit(x, t, consumed) =>
            lexer := x;
            if consumed {
              j := j + 1;
            }
            return Got(t), j;
        }
      }
      r := NoToken;
    }

    /** Inserts a new node under the cursor; the cursor stays. */
    method AttachUnder(node: JNode) returns (ok: bool)
      requires Valid() && stack != [] && node !in order
      requires node.next == node.previous == node.child == node.childEnd == null
      modifies order, node, this`order
      ensures ok == Accepts(Top(stack).kind, node.kind)
      ensures order == if ok then old(order) + [node] else old(order)
      ensures ok ==> Linked(order, FlatStack(stack) + [Entry(node.kind, node.text, Cursor(stack))])
    {
      hide FlatStack, Cursor, Linked, At, Accepts, Image, Made, Fits, Distinct;
      CursorNode();
      ok := InsertChild(cursor, node, order, FlatStack(stack), Cursor(stack));
      if ok {
        order := order + [node];
      }
    }

    /** Makes a node and inserts it under the cursor, if there is one; the cursor stays. */
    method Attach(kind: Kind, text: Text) returns (ok: bool, node: JNode)
      requires Valid()
      modifies order, this`order
      ensures ok == (stack == [] || Accepts(Top(stack).kind, kind))
      ensures fresh(node)
      ensures order == if ok then old(order) + [node] else old(order)
      ensures ok ==> Linked(order, FlatStack(stack) + [Entry(kind, text, Cursor(stack))])
    {
      hide FlatStack, Cursor, Linked, At, Accepts, Image, Made, Fits, Distinct;
      CursorNode();
      node := new JNode(kind, text);
      if cursor == null {
        ok := true;
        Alone(node, order, stack);
        order := order + [node];
      } else {
        ok := AttachUnder(node);
      }
    }

    /** Push: the new node becomes the cursor. */
    method Descend(kind: Kind, text: Text, next: State) returns (r: Status)
      requires Valid()
      modifies this, order
      ensures Follows(Push(old(Model()), kind, text, next), r)
      ensures Extends(old(order))
    {
      hide FlatStack, Cursor, Linked, At, Accepts, Image, Made, Fits, Distinct;
      var ok, node := Attach(kind, text);
      if !ok {
        return Failing(UnknownProblem);
      }
      PushAppends(stack, kind, text);
      LastNode(order, FlatStack(stack), node, Entry(kind, text, Cursor(stack)));
      cursor, state := node, next;
      stack := stack + [Leaf(kind, text)];
      r := Fine;
    }

    /** The outcome of a step, and the state it leaves when it does not fail. */
    ghost predicate Follows(o: Outcome, r: Status)
      reads this, order
    {
      match o
      case Failed(e) => r == Failing(e)
      case Running(q) => r == Fine && Valid() && Model() == q
    }

    /** Nodes are only ever added, and the added ones are new. */
    twostate predicate Extends(before: seq<JNode>)
      reads this
    {
      before <= order && forall i :: |before| <= i < |order| ==> fresh(order[i])
    }

    /** cursor = cursor->parent */
    method Up()
      requires Valid() && |stack| >= 2
      modifies this`cursor, this`stack
      ensures Valid() && stack == Pop(old(stack))
      ensures cursor == old(cursor.parent)
    {
      hide FlatStack, Cursor, Linked, At, Accepts, Image, Made, Fits, Distinct;
      CursorNode();
      PopKeeps(stack);
      cursor := cursor.parent;
      stack := Pop(stack);
    }

    /** Inserts a value under the cursor, which stays. */
    method Insert(kind: Kind, text: Text) returns (ok: bool)
      requires Valid() && stack != []
      modifies this`order, this`stack, order
      ensures ok == Accepts(Top(old(stack)).kind, kind)
      ensures ok ==> Valid() && stack == Pop(old(stack) + [Leaf(kind, text)])
      ensures Extends(old(order))
    {
      hide FlatStack, Cursor, Linked, At, Accepts, Image, Made, Fits, Distinct;
      CursorNode();
      var node;
      ok, node := Attach(kind, text);
      if ok {
        PutFlat(stack, kind, text);
        AtOneMore(old(order), node, Cursor(stack));
        stack := Pop(stack + [Leaf(kind, text)]);
      }
    }

    /** Inserts a value; after a label the cursor goes up to the object. */
    method PutValue(kind: Kind, text: Text) returns (r: Status)
      requires Valid() && stack != []
      modifies this, order
      ensures Follows(Put(old(Model()), kind, text), r)
      ensures Extends(old(order))
    {
      hide FlatStack, Cursor, Linked, At, Accepts, Image, Made, Fits, Distinct, Pop, Top, Outer;
      var ok := Insert(kind, text);
      if !ok {
        return Failing(UnknownProblem);
      }
      r := Fine;
      if state.InArray? {
        state := AfterItem;
      } else {
        state := AfterField;
        CursorNode();
        if cursor.parent != null {
          Up();
        }
      }
    }

    /** The end of an object or array. */
    method Leave() returns (r: Status)
      requires Valid() && stack != []
      modifies this`state, this`cursor, this`stack
      ensures Follows(Close(old(Model())), r)
    {
      hide FlatStack, Cursor, Linked, At, Accepts, Image, Made, Fits, Distinct, Pop;
      CursorNode();
      r := Fine;
      if cursor.parent == null {
        state := Done;
        return;
      }
      Up();
      CursorNode();
      match cursor.kind {
        case String =>
          if cursor.parent == null {
            match state {
              case InArray => r := Failing(BadTree);
              case AfterItem => state := Done;
              case _ => r := Failing(TreeAssert);
            }
          } else {
            Up();
            CursorNode();
            if cursor.kind != Object {
              r := Failing(BadTree);
            } else {
              state := AfterField;
            }
          }
        case Array => state := AfterItem;
        case _ => r := Failing(BadTree);
      }
    }

    /** The asserts at the head of each state. */
    method Check() returns (sane: bool)
      requires Valid()
      ensures sane == Sane(state, stack)
    {
      hide FlatStack, Cursor, Linked, At, Image, Made, Fits;
      CursorNode();
      match state {
        case Start => sane := true;
        case OpenObject => sane := cursor == null || cursor.kind in {String, Array};
        case OpenArray => sane := cursor == null || cursor.kind in {String, Array};
        case AfterLabel => sane := cursor != null && cursor.kind == String;
        case BeforeValue => sane := cursor != null && cursor.kind == String;
        case InArray => sane := cursor != null && cursor.kind == Array;
        case AfterItem => sane := cursor != null;
        case Done => sane := cursor != null && cursor.parent == null;
        case _ => sane := cursor != null && cursor.kind == Object;
      }
    }

    /** A token where a value is expected. */
    method ActValue(t: Token) returns (r: Status)
      requires Valid() && stack != []
      modifies this, order
      ensures Follows(TakeValue(old(Model()), t), r)
      ensures Extends(old(order))
    {
      hide Valid, Put;
      r := Fine;
      match t {
        case StringToken(text) => r := PutValue(String, text);
        case NumberToken(text) => r := PutValue(Number, text);
        case TrueToken => r := PutValue(True, []);
        case FalseToken => r := PutValue(False, []);
        case NullToken => r := PutValue(Null, []);
        case BeginObject => Move(OpenObject);
        case BeginArray => Move(OpenArray);
        case Invalid => r := Failing(IllegalCharacter);
        case _ => r := Failing(Malformed);
      }
    }

    method Move(next: State)
      requires Valid()
      modifies this`state
      ensures Valid() && state == next
    {
      hide FlatStack, Cursor, Linked, At;
      state := next;
    }

    /** The inner switch of json_parse_fragment. */
    method Act(t: Token) returns (r: Status)
      requires Valid() && Sane(state, stack)
      modifies this, order
      ensures Follows(Take(old(Model()), t), r)
      ensures Extends(old(order))
    {
      hide Valid, Put, Push, Close, TakeValue;
      r := Fine;
      match state {
        case Start =>
          if t.BeginObject? { Move(OpenObject); } else { r := Failing(Malformed); }
        case InObject =>
          if t.StringToken? { r := Descend(String, t.text, AfterLabel); }
          else if t.EndObject? { r := Leave(); }
          else { r := Failing(Malformed); }
        case AfterField =>
          if t.ValueSeparator? { Move(NextField); }
          else if t.EndObject? { r := Leave(); }
          else { r := Failing(Malformed); }
        case NextField =>
          if t.StringToken? { r := Descend(String, t.text, AfterLabel); }
          else if t.Invalid? { r := Failing(IllegalCharacter); }
          else { r := Failing(Malformed); }
        case AfterLabel =>
          if t.NameSeparator? { Move(BeforeValue); } else { r := Failing(Malformed); }
        case BeforeValue => r := ActValue(t);
        case InArray =>
          if t.EndArray? { r := Leave(); } else { r := ActValue(t); }
        case AfterItem =>
          if t.ValueSeparator? { Move(InArray); }
          else if t.EndArray? { r := Leave(); }
          else { r := Failing(Malformed); }
        case Done => r := Failing(Malformed);
        case _ => r := Failing(UnknownProblem);
      }
    }

    /** States 1 and 7. */
    method Begin() returns (r: Status)
      requires Valid() && (state.OpenObject? || state.OpenArray?)
      modifies this, order
      ensures Follows(Enter(old(Model())), r)
      ensures Extends(old(order))
    {
      hide Valid, Push, Sane;
      var sane := Check();
      if !sane {
        return Failing(TreeAssert);
      }
      if state.OpenObject? {
        r := Descend(Object, [], InObject);
      } else {
        r := Descend(Array, [], InArray);
      }
    }

    /** One turn of the loop of json_parse_fragment; over means that it returns. */
    method Turn(input: Text, i: nat) returns (j: nat, over: bool, code: Code)
      requires Valid() && i < |input|
      modifies this, order
      ensures Extends(old(order))
      ensures over ==> Returned(old(Model()), input[i..], code)
      ensures !over ==>
                && i <= j <= |input| && Valid() && !state.Start?
                && Run(Model(), input[j..]) == Run(old(Model()), input[i..])
                && (j > i || Rank(Model()) < Rank(old(Model())))
    {
      hide Valid, Take, Sane, Lex, Run;
      ghost var p := Model();
      j, over, code := i, true, Incomplete;
      if state.OpenObject? || state.OpenArray? {
        EnterFirst(p, input[i..]);
        EnterForward(p);
        var r := Begin();
        if r.Failing? {
          return i, true, Err(r.error);
        }
        return i, false, Incomplete;
      }
      var sane := Check();
      if !sane {
        EnterFirst(p, input[i..]);
        return i, true, Err(TreeAssert);
      }
      RunScan(p, input, i);
      ScanStops(p.lexer, input, i);
      var t;
      t, j := Lexing(input, i);
      if t.NoToken? {
        code := if state.Start? then Err(Malformed) else if state.Done? then WaitingForEof else Incomplete;
        return j, true, code;
      }
      TakeForward(Model(), t.token);
      var r := Act(t.token);
      if r.Failing? {
        return j, true, Err(r.error);
      }
      over := false;
    }

    /** lexer, leaving everything else alone. */
    method Lexing(input: Text, i: nat) returns (r: Scanned, j: nat)
      requires Valid() && i <= |input|
      modifies this`lexer
      ensures Valid() && (lexer, r, j) == Scan(old(lexer), input, i)
    {
      hide FlatStack, Cursor, Linked, At;
      r, j := NextToken(input, i);
    }

    /** How json_parse_fragment leaves its loop by a return. */
    ghost predicate Returned(p: Parser, rest: Text, code: Code)
      reads this, order
    {
      var o := Run(p, rest);
      if code.Err? then
        o == Failed(code.error) || (code.error.Malformed? && o.Running? && o.parser.state.Start?)
      else
        && Valid() && o == Running(Model()) && !state.Start?
        && code == if state.Done? then WaitingForEof else Incomplete
    }

    /** json_parse_fragment */
    method Fragment(input: Text) returns (code: Code)
      requires Valid()
      modifies this, order
      ensures code == Verdict(old(Model()), input)
      ensures !code.Err? ==> Valid() && Run(old(Model()), input) == Running(Model())
      ensures Extends(old(order))
    {
      hide Valid, Run;
      var i := 0;
      ghost var p := Model();
      assert input[0..] == input;
      while i < |input|
        invariant i <= |input| && Valid() && Extends(old(order))
        invariant Run(Model(), input[i..]) == Run(p, input)
        invariant state.Start? ==> i == 0
        decreases |input| - i, Rank(Model())
      {
        var over;
        i, over, code := Turn(input, i);
        if over {
          return;
        }
      }
      assert input[i..] == [];
      NothingLeft(Model());
      code := if state.Done? then WaitingForEof else Incomplete;
    }
  }

  lemma NothingLeft(p: Parser)
    ensures Run(p, []) == Running(p)
  {}

  /** What a turn uses up when it reads nothing: an unread character, or states 1 and 7. */
  function Rank(p: Parser): nat {
    (if p.lexer.state.Root? then 0 else 2) + (if p.state.OpenObject? || p.state.OpenArray? then 1 else 0)
  }

  lemma EnterForward(p: Parser)
    requires p.state.OpenObject? || p.state.OpenArray?
    ensures Enter(p).Running? ==> !Enter(p).parser.state.Start? && Rank(Enter(p).parser) < Rank(p)
  {}

  lemma TakeForward(p: Parser, t: Token)
    requires Reading(p)
    ensures Take(p, t).Running? ==>
              && !Take(p, t).parser.state.Start? && Take(p, t).parser.lexer == p.lexer
              && !t.Invalid?
  {
    Rejects(p);
    TakeLeavesLexer(p, t);
  }

  lemma LastNode(order: seq<JNode>, e: Entries, node: JNode, x: Entry)
    requires order != [] && order[|order| - 1] == node && Linked(order, e + [x])
    ensures At(order, |e|) == node
  {}

  /** The first node. */
  lemma Alone(node: JNode, order: seq<JNode>, s: Stack)
    requires node.next == node.previous == node.parent == node.child == node.childEnd == null
    requires s == [] && Linked(order, FlatStack(s))
    ensures Linked(order + [node], FlatStack(s) + [Entry(node.kind, node.text, Cursor(s))])
  {
    assert order + [node] == [node] && FlatStack(s) + [Entry(node.kind, node.text, Cursor(s))] == [Entry(node.kind, node.text, -1)];
    OneEntry(node);
    hide Linked;
  }

  lemma OneEntry(node: JNode)
    requires node.next == node.previous == node.parent == node.child == node.childEnd == null
    ensures Linked([node], [Entry(node.kind, node.text, -1)])
  {
    var e := [Entry(node.kind, node.text, -1)];
    NobodyAbove(e, 1);
    assert First(e, 0) == -1 && Last(e, 0) == -1 && Next(e, 0) == -1 && Previous(e, 0) == -1;
  }

  /** The nodes are those of the tree, the root first. */
  ghost predicate Holds(order: seq<JNode>, t: Tree)
    reads order
  {
    Linked(order, Flatten(t, 0, -1))
  }

  lemma OneRoot(s: Stack)
    requires |s| == 1
    ensures FlatStack(s) == Flatten(Top(s), 0, -1) && Cursor(s) == 0
  {
    assert Outer(s) == [];
    assert FlatStack(Outer(s)) == [] && Cursor(Outer(s)) == -1;
    assert FlatStack(s) == [] + Flatten(Top(s), 0, -1);
  }

  /** A finished document: the cursor is its root. */
  lemma Finished(r: Reader, input: Text)
    requires r.Valid() && r.state.Done? && Run(INITIAL, input) == Running(r.Model())
    ensures ParseDocument(input).Ok? && Document(ParseDocument(input).root)
    ensures Holds(r.order, ParseDocument(input).root) && r.order != [] && r.cursor == r.order[0]
  {
    hide Run, FlatStack, Cursor, Linked, Document, LexOk, Chain, Flatten;
    AcceptedIsDocument(input);
    NoTreeErrors(input);
    OneRoot(r.stack);
    r.CursorNode();
  }

  /** json_parse_document; WaitingForEof stands for JSON_OK. */
  method ReadDocument(input: Text) returns (root: JNode?, code: Code, ghost order: seq<JNode>)
    ensures code == Verdict(INITIAL, input)
    ensures code.WaitingForEof? <==> ParseDocument(input).Ok?
    ensures code.WaitingForEof? ==>
              && Document(ParseDocument(input).root) && Holds(order, ParseDocument(input).root)
              && order != [] && root == order[0]
  {
    hide Run, Flatten, FlatStack, Linked;
    var r := new Reader();
    code := r.Fragment(input);
    AcceptedIsDocument(input);
    root, order := null, [];
    if code.WaitingForEof? {
      VerdictDone(INITIAL, input);
      Finished(r, input);
      root, order := r.cursor, r.order;
    }
  }

  lemma VerdictDone(p: Parser, input: Text)
    requires Verdict(p, input).WaitingForEof?
    ensures Run(p, input).Running? && Run(p, input).parser.state.Done?
  {}

  datatype Ending = Parsed | Stopped(error: Error)

  /** json_stream_parse on the pieces the file is read in. */
  method ReadStream(chunks: seq<Text>) returns (root: JNode?, end: Ending, ghost order: seq<JNode>)
    ensures end == match Feeding(INITIAL, Incomplete, chunks)
                   case WaitingForEof => Parsed
                   case Incomplete => Stopped(UnknownProblem)
                   case Err(e) => Stopped(e)
    ensures end.Parsed? ==>
              && ParseDocument(Concat(chunks)).Ok? && Holds(order, ParseDocument(Concat(chunks)).root)
              && order != [] && root == order[0]
  {
    hide Run, Flatten, FlatStack, Linked, Verdict;
    var r := new Reader();
    var code := Incomplete;
    var k := 0;
    assert chunks[0..] == chunks;
    while k < |chunks|
      invariant k <= |chunks| && r.Valid() && fresh(r) && fresh(r.order) && !code.Err?
      invariant Feeding(r.Model(), code, chunks[k..]) == Feeding(INITIAL, Incomplete, chunks)
      invariant Run(INITIAL, Concat(chunks)) == Run(r.Model(), Concat(chunks[k..]))
      invariant code.WaitingForEof? ==> r.state.Done?
    {
      ghost var p := r.Model();
      FeedOne(p, code, chunks[k..]);
      code := r.Fragment(chunks[k]);
      assert chunks[k..][1..] == chunks[k + 1..];
      if code.Err? {
        return null, Stopped(code.error), [];
      }
      k := k + 1;
    }
    assert chunks[k..] == [];
    NothingLeft(r.Model());
    root, order := null, [];
    if code.WaitingForEof? {
      Finished(r, Concat(chunks));
      return r.cursor, Parsed, r.order;
    }
    end := Stopped(UnknownProblem);
  }

  lemma FeedOne(p: Parser, code: Code, chunks: seq<Text>)
    requires chunks != [] && !code.Err?
    ensures var next := Verdict(p, chunks[0]);
            && (next.Err? ==> Feeding(p, code, chunks) == next)
            && (!next.Err? ==>
                  && Run(p, chunks[0]).Running?
                  && Feeding(p, code, chunks) == Feeding(Run(p, chunks[0]).parser, next, chunks[1..])
                  && Run(p, Concat(chunks)) == Run(Run(p, chunks[0]).parser, Concat(chunks[1..]))
                  && (next.WaitingForEof? <==> Run(p, chunks[0]).parser.state.Done?))
  {
    RunSum(p, chunks[0], Concat(chunks[1..]));
  }
}
