/** What holds after every character the parser accepts, and so of every document. */
module JsonParserInvariant {
  import opened JsonLexer
  import opened JsonTree
  import opened JsonParser

  /** lex_text is a run of the automaton up to the present state. */
  predicate LexOk(x: Lexer) {
    match x.state
    case Root => x.text == []
    case Str => Collect(Str, x.text) == x.state
    case Esc => Collect(Str, x.text) == x.state
    case Hex1 => Collect(Str, x.text) == x.state
    case Hex2 => Collect(Str, x.text) == x.state
    case Hex3 => Collect(Str, x.text) == x.state
    case Hex4 => Collect(Str, x.text) == x.state
    case _ => if IsKeyword(x.state) then x.text == [] else x.text != [] && Collect(Root, x.text) == x.state
  }

  predicate TokenOk(t: Token) {
    match t
    case StringToken(s) => StringBody(s)
    case NumberToken(s) => NumberText(s)
    case _ => true
  }

  /** An open node and the finished children it has so far. */
  predicate Open(t: Tree) {
    match t.kind
    case String => t.kids == [] && StringBody(t.text)
    case Object => t.text == [] && forall i :: 0 <= i < |t.kids| ==> Field(t.kids[i])
    case Array => t.text == [] && forall i :: 0 <= i < |t.kids| ==> Value(t.kids[i])
    case _ => false
  }

  predicate Nests(outer: Kind, inner: Kind) {
    if outer.Object? then inner.String? else inner.Object? || inner.Array?
  }

  predicate Chain(s: Stack) {
    && (s != [] ==> s[0].kind.Object?)
    && (forall i :: 0 <= i < |s| ==> Open(s[i]))
    && forall i :: 0 < i < |s| ==> Nests(s[i - 1].kind, s[i].kind)
  }

  /** Sane, and nothing open before the first brace. */
  predicate Placed(state: State, s: Stack) {
    Sane(state, s) && match state
                      case Start => s == []
                      case OpenArray => s != []
                      case AfterItem => Top(s).kind.Array?
                      case _ => true
  }

  predicate Inv(p: Parser) {
    LexOk(p.lexer) && Chain(p.stack) && Placed(p.state, p.stack)
  }

  /** Every character either keeps the invariant or ends in one of the two input errors. */
  predicate Fine(r: Outcome) {
    match r
    case Failed(e) => e.Malformed? || e.IllegalCharacter?
    case Running(p) => Inv(p)
  }

  lemma CollectOne(from: LexState, s: Text, c: Char)
    requires s == [] || !Collect(from, s).Root?
    ensures Collect(from, s + [c]) == Append(Collect(from, s), c)
  {
    CollectSum(from, s, [c]);
  }

  lemma LexKeeps(x: Lexer, c: Char)
    requires LexOk(x)
    ensures var r := Lex(x, c);
            LexOk(r.lexer) || (r.Emit? && r.token.Invalid?)
    ensures var r := Lex(x, c);
            r.Emit? ==>
              && TokenOk(r.token)
              && (!r.token.Invalid? ==> r.lexer.state.Root?)
              && (!r.consumed ==> r.token.Invalid? || r.token.NumberToken?)
              && (x.state.Root? ==> r.consumed)
  {
    if !x.state.Root? && !IsKeyword(x.state) {
      if x.state in {Str, Esc, Hex1, Hex2, Hex3, Hex4} {
        CollectOne(Str, x.text, c);
        CollectsStrings(x.text);
      } else {
        CollectOne(Root, x.text, c);
      }
    } else if x.state.Root? {
      assert Collect(Root, [c]) == Append(Root, c) by {
        CollectOne(Root, [], c);
        assert [] + [c] == [c];
      }
    }
  }

  lemma OpenKind(t: Tree)
    requires Open(t)
    ensures t.kind in {String, Object, Array}
  {}

  lemma PushKeeps(p: Parser, kind: Kind, text: Text, next: State)
    requires LexOk(p.lexer) && Chain(p.stack)
    requires Open(Leaf(kind, text))
    requires if p.stack == [] then kind.Object? else Nests(Top(p.stack).kind, kind)
    requires (next.InObject? && kind.Object?) || (next.InArray? && kind.Array?) || (next.AfterLabel? && kind.String?)
    ensures Fine(Push(p, kind, text, next))
  {
    hide Open, LexOk;
    var s, r := p.stack, p.stack + [Leaf(kind, text)];
    assert forall i :: 0 <= i < |s| ==> r[i] == s[i];
    if s != [] {
      OpenKind(Top(s));
    }
  }

  lemma EnterKeeps(p: Parser)
    requires Inv(p)
    ensures Fine(Enter(p))
    ensures Enter(p).Running? && Enter(p).parser.lexer == p.lexer
    ensures !Enter(p).parser.state.OpenObject? && !Enter(p).parser.state.OpenArray?
  {
    if p.state.OpenObject? {
      PushKeeps(p, Object, [], InObject);
    } else if p.state.OpenArray? {
      PushKeeps(p, Array, [], InArray);
    }
  }

  /** Moving up out of a finished field or item. */
  lemma PopChain(s: Stack, t: Tree)
    requires Chain(s) && s != []
    requires (Top(s).kind.Object? && Field(t)) || (Top(s).kind.Array? && Value(t))
    ensures Chain(Pop(s + [t]))
    ensures Pop(s + [t]) == Outer(s) + [Grow(Top(s), t)]
  {
    assert Outer(s + [t]) == s;
    var u := Grow(Top(s), t);
    assert Open(u) by {
      hide Value, Field;
    }
    hide Open, Value, Field;
    var r := Pop(s + [t]);
    assert forall i :: 0 <= i < |r| - 1 ==> r[i] == s[i];
  }

  lemma LabelFilled(name: Tree, v: Tree)
    requires Open(name) && name.kind.String? && Value(v)
    ensures Field(Grow(name, v))
  {}

  /** A value under a label completes the field. */
  lemma FieldDone(s: Stack, v: Tree)
    requires Chain(s) && s != [] && Top(s).kind.String? && Value(v)
    ensures |s| >= 2 && Chain(Pop(Pop(s + [v]))) && Top(Pop(Pop(s + [v]))).kind.Object?
    ensures |Pop(Pop(s + [v]))| == |s| - 1
  {
    hide Value, Field, Open;
    assert Open(Top(s));
    assert |s| >= 2 && Nests(s[|s| - 2].kind, s[|s| - 1].kind);
    var field := Grow(Top(s), v);
    LabelFilled(Top(s), v);
    assert Pop(s + [v]) == Outer(s) + [field] by {
      assert Outer(s + [v]) == s;
    }
    PopChain(Outer(s), field);
  }

  lemma PutKeeps(p: Parser, kind: Kind, text: Text)
    requires Inv(p) && (p.state.BeforeValue? || p.state.InArray?)
    requires Value(Leaf(kind, text))
    ensures Fine(Put(p, kind, text))
  {
    hide Value, Field, Open, LexOk, Pop;
    if p.state.InArray? {
      PopChain(p.stack, Leaf(kind, text));
    } else {
      FieldDone(p.stack, Leaf(kind, text));
    }
  }

  lemma TopOfPop(s: Stack)
    requires |s| >= 2
    ensures Top(Pop(s)).kind == Top(Outer(s)).kind
  {}

  /** A complete open node is a value. */
  lemma OpenIsValue(t: Tree)
    requires Open(t) && !t.kind.String?
    ensures Value(t)
  {}

  lemma CloseKeeps(p: Parser)
    requires Inv(p) && p.stack != [] && (Top(p.stack).kind.Object? || Top(p.stack).kind.Array?)
    ensures Fine(Close(p))
  {
    hide Value, Field, Open, LexOk, Pop;
    var s := p.stack;
    assert Open(Top(s));
    OpenIsValue(Top(s));
    if |s| > 1 {
      var inner := Outer(s);
      assert Nests(s[|s| - 2].kind, s[|s| - 1].kind);
      OuterTop(s);
      OpenKind(Top(inner));
      if Top(inner).kind.Array? {
        PopChain(inner, Top(s));
      } else {
        FieldDone(inner, Top(s));
        TopOfPop(s);
      }
    }
  }

  lemma TakeValueKeeps(p: Parser, t: Token)
    requires Inv(p) && (p.state.BeforeValue? || p.state.InArray?) && TokenOk(t)
    ensures Fine(TakeValue(p, t))
  {
    hide Open, LexOk, Chain, Put;
    match t
    case StringToken(text) => PutKeeps(p, String, text);
    case NumberToken(text) => PutKeeps(p, Number, text);
    case TrueToken => PutKeeps(p, True, []);
    case FalseToken => PutKeeps(p, False, []);
    case NullToken => PutKeeps(p, Null, []);
    case _ =>
  }

  lemma TakeKeeps(p: Parser, t: Token)
    requires Inv(p) && TokenOk(t) && !p.state.OpenObject? && !p.state.OpenArray?
    ensures Fine(Take(p, t))
    ensures t.Invalid? ==> Take(p, t).Failed?
  {
    hide LexOk, Chain, Put, Push, Pop;
    match p.state
    case InObject =>
      if t.StringToken? { PushKeeps(p, String, t.text, AfterLabel); }
      else if t.EndObject? { CloseKeeps(p); }
    case AfterField => if t.EndObject? { CloseKeeps(p); }
    case NextField => if t.StringToken? { PushKeeps(p, String, t.text, AfterLabel); }
    case BeforeValue => TakeValueKeeps(p, t);
    case InArray => if t.EndArray? { CloseKeeps(p); } else { TakeValueKeeps(p, t); }
    case AfterItem => if t.EndArray? { CloseKeeps(p); }
    case _ =>
  }

  lemma TurnKeeps(p: Parser, c: Char)
    requires Inv(p)
    ensures Fine(Turn(p, c).0)
    ensures p.lexer.state.Root? ==> Turn(p, c).1
    ensures !Turn(p, c).1 && Turn(p, c).0.Running? ==> Turn(p, c).0.parser.lexer.state.Root?
  {
    hide LexOk, Chain, Take, Lex, Sane;
    EnterKeeps(p);
    var q := Enter(p).parser;
    LexKeeps(q.lexer, c);
    match Lex(q.lexer, c) {
      case More(x) =>
      case Emit(x, t, consumed) =>
        if t.Invalid? {
          Rejects(Parser(q.state, x, q.stack));
        } else {
          TakeKeeps(Parser(q.state, x, q.stack), t);
          TakeLeavesLexer(Parser(q.state, x, q.stack), t);
        }
    }
  }

  lemma TakeLeavesLexer(p: Parser, t: Token)
    requires Sane(p.state, p.stack)
    ensures Take(p, t).Running? ==> Take(p, t).parser.lexer == p.lexer
  {}

  /** No state takes an invalid character. */
  lemma Rejects(p: Parser)
    requires Sane(p.state, p.stack) && !p.state.OpenObject? && !p.state.OpenArray?
    ensures Take(p, Invalid) == Failed(Malformed) || Take(p, Invalid) == Failed(IllegalCharacter)
  {}

  lemma FeedKeeps(p: Parser, c: Char)
    requires Inv(p)
    ensures Fine(Feed(p, c))
  {
    hide Turn, Inv;
    TurnKeeps(p, c);
    var (next, consumed) := Turn(p, c);
    if !consumed && next.Running? {
      TurnKeeps(next.parser, c);
    }
  }

  lemma {:induction false} RunKeeps(p: Parser, input: Text)
    requires Inv(p)
    ensures Fine(Run(p, input))
    decreases |input|
  {
    hide Feed, Inv;
    if input != [] {
      FeedKeeps(p, input[0]);
      if Feed(p, input[0]).Running? {
        RunKeeps(Feed(p, input[0]).parser, input[1..]);
      }
    }
  }

  lemma InitialInv()
    ensures Inv(INITIAL)
  {}

  /** On any input the cursor's kind matches the state and no tree sanity check, assert or
      BAD_TREE_STRUCTURE can fire: the only errors are the two about the input itself. */
  lemma NoTreeErrors(input: Text)
    ensures Fine(Run(INITIAL, input))
  {
    InitialInv();
    RunKeeps(INITIAL, input);
  }

  /** Whatever is accepted is a well formed document. */
  lemma AcceptedIsDocument(input: Text)
    ensures var r := ParseDocument(input);
            r.Ok? ==> Document(r.root)
    ensures Verdict(INITIAL, input).WaitingForEof? <==> ParseDocument(input).Ok?
  {
    NoTreeErrors(input);
    var end := Run(INITIAL, input);
    if end.Running? && end.parser.state.Done? {
      assert Open(end.parser.stack[0]);
      OpenIsValue(end.parser.stack[0]);
    }
  }
}
