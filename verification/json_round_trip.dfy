/** Parsing what was printed gives the tree back; and where fragments may be cut. */
module JsonRoundTrip {
  import opened Common
  import opened JsonLexer
  import opened JsonTree
  import opened JsonParser
  import opened JsonParserInvariant

  /** What may follow a value. */
  predicate Follows(c: Char) {
    c == ',' || c == '}' || c == ']'
  }

  predicate Ready(p: Parser) {
    && p.lexer.state.Root? && p.lexer.text == []
    && (p.state.BeforeValue? || p.state.InArray?)
    && Chain(p.stack) && Placed(p.state, p.stack)
  }

  /** The state after the value t has been read. */
  function Placing(p: Parser, t: Tree): Parser
    requires p.stack != []
    requires p.state.InArray? || |p.stack| >= 2
  {
    if p.state.InArray? then Parser(AfterItem, p.lexer, Pop(p.stack + [t]))
    else Parser(AfterField, p.lexer, Pop(Pop(p.stack + [t])))
  }

  lemma ReadyDepth(p: Parser)
    requires Ready(p)
    ensures p.stack != [] && (p.state.InArray? || |p.stack| >= 2)
  {
    if p.state.BeforeValue? {
      hide Open;
      assert Top(p.stack).kind.String?;
      assert Nests(p.stack[|p.stack| - 2].kind, p.stack[|p.stack| - 1].kind);
    }
  }

  lemma RunOne(p: Parser, s: Text)
    requires s != []
    ensures Run(p, s) == if Feed(p, s[0]).Failed? then Feed(p, s[0]) else Run(Feed(p, s[0]).parser, s[1..])
  {}

  lemma RunChar(p: Parser, c: Char)
    ensures Run(p, [c]) == Feed(p, c)
  {
    assert [c][1..] == [];
    RunOne(p, [c]);
  }

  lemma FeedMore(p: Parser, c: Char, x: Lexer)
    requires Sane(p.state, p.stack) && !p.state.OpenObject? && !p.state.OpenArray?
    requires Lex(p.lexer, c) == More(x)
    ensures Feed(p, c) == Running(Parser(p.state, x, p.stack))
  {
    hide Lex, Take;
  }

  lemma CollectFirst(from: LexState, s: Text)
    requires s != [] && !Collect(from, s).Root?
    ensures !Append(from, s[0]).Root? && Collect(from, s) == Collect(Append(from, s[0]), s[1..])
  {}

  lemma TextStep(a: Text, s: Text)
    requires s != []
    ensures a + s == a + [s[0]] + s[1..]
  {}

  lemma RunNothing(p: Parser, from: LexState, a: Text, s: Text)
    requires s == []
    ensures Run(p, s) == Running(p) && Collect(from, s) == from && a + s == a
  {}

  /** Characters that are collected change nothing but the lexer. */
  lemma {:induction false} RunCollects(p: Parser, s: Text)
    requires Sane(p.state, p.stack) && !p.state.OpenObject? && !p.state.OpenArray?
    requires !p.lexer.state.Root? && !IsKeyword(p.lexer.state)
    requires !Collect(p.lexer.state, s).Root?
    ensures Run(p, s) == Running(Parser(p.state, Lexer(Collect(p.lexer.state, s), p.lexer.text + s, p.lexer.line),
                                        p.stack))
    decreases |s|
  {
    hide Feed, Lex, Run, Sane, Collect, Append, IsKeyword;
    if s == [] {
      RunNothing(p, p.lexer.state, p.lexer.text, s);
    } else {
      var x := Lexer(Append(p.lexer.state, s[0]), p.lexer.text + [s[0]], p.lexer.line);
      CollectFirst(p.lexer.state, s);
      Collecting(p.lexer, s[0]);
      FeedMore(p, s[0], x);
      RunOne(p, s);
      RunCollects(Parser(p.state, x, p.stack), s[1..]);
      TextStep(p.lexer.text, s);
    }
  }

  lemma Collecting(x: Lexer, c: Char)
    requires !x.state.Root? && !IsKeyword(x.state) && !Append(x.state, c).Root?
    ensures Lex(x, c) == More(Lexer(Append(x.state, c), x.text + [c], x.line))
    ensures !IsKeyword(Append(x.state, c))
  {}

  /** About to read a token. */
  predicate Reads(p: Parser) {
    && Sane(p.state, p.stack) && !p.state.OpenObject? && !p.state.OpenArray?
    && p.lexer.state.Root? && p.lexer.text == []
  }

  lemma FeedToken(p: Parser, c: Char, t: Token)
    requires Reads(p) && Lex(p.lexer, c) == Emit(p.lexer, t, true)
    ensures Feed(p, c) == Take(p, t)
  {
    hide Lex, Take;
  }

  /** A quoted text is read as one string token. */
  lemma RunString(p: Parser, text: Text)
    requires Reads(p) && StringBody(text)
    ensures Run(p, Quoted(text)) == Take(p, StringToken(text))
  {
    var x := Lexer(Str, [], p.lexer.line);
    var y := Lexer(Str, text, p.lexer.line);
    var q, r := Parser(p.state, x, p.stack), Parser(p.state, y, p.stack);
    CollectsStrings(text);
    FeedMore(p, '"', x);
    RunChar(p, '"');
    RunCollects(q, text);
    assert [] + text == text;
    RunChar(r, '"');
    assert Feed(r, '"') == Take(p, StringToken(text)) by {
      assert Lex(y, '"') == Emit(p.lexer, StringToken(text), true);
      hide Lex, Take;
    }
    hide Run, Feed;
    RunSum(p, ['"'], text);
    RunSum(p, ['"'] + text, ['"']);
  }

  /** The character after a number ends it and is read again. */
  lemma NumberEnds(p: Parser, y: Lexer, text: Text, c: Char)
    requires Reads(p) && Follows(c) && IsNumberEnd(y.state) && y.text == text && y.line == p.lexer.line
    ensures Feed(Parser(p.state, y, p.stack), c) ==
            var t := Take(p, NumberToken(text)); if t.Failed? then t else Feed(t.parser, c)
  {
    assert Lex(y, c) == Emit(p.lexer, NumberToken(text), false);
    TakeLeavesLexer(p, NumberToken(text));
    RootConsumes(p.lexer, c);
    hide Lex, Take;
  }

  lemma FirstDigit(x: Lexer, text: Text)
    requires x.state.Root? && x.text == [] && NumberText(text)
    ensures Lex(x, text[0]) == More(Lexer(Append(Root, text[0]), [text[0]], x.line))
    ensures var s := Append(Root, text[0]);
            !s.Root? && !IsKeyword(s) && Collect(s, text[1..]) == Collect(Root, text) && !Collect(Root, text).Root?
  {}

  /** A number is read when the character after it arrives. */
  lemma RunNumber(p: Parser, text: Text, c: Char)
    requires Reads(p) && NumberText(text) && Follows(c)
    ensures Run(p, text + [c]) == var r := Take(p, NumberToken(text)); if r.Failed? then r else Feed(r.parser, c)
  {
    FirstDigit(p.lexer, text);
    hide Run, Feed, Take, Lex, Collect, Append, Sane;
    var rest := text[1..];
    var x := Lexer(Append(Root, text[0]), [text[0]], p.lexer.line);
    var y := Lexer(Collect(Root, text), text, p.lexer.line);
    var q, r := Parser(p.state, x, p.stack), Parser(p.state, y, p.stack);
    FeedMore(p, text[0], x);
    RunOne(p, text);
    RunCollects(q, rest);
    assert [text[0]] + rest == text;
    NumberEnds(p, y, text, c);
    RunChar(r, c);
    RunSum(p, text, [c]);
  }

  lemma RootConsumes(x: Lexer, c: Char)
    requires x.state.Root?
    ensures Lex(x, c).Emit? ==> Lex(x, c).consumed
  {}

  /** The rest of a keyword. */
  predicate Spells(from: LexState, s: Text, t: Token)
    decreases |s|
  {
    s != [] && var (letter, next, token) := Keyword(from);
    s[0] == letter && if next.Root? then |s| == 1 && token == t else IsKeyword(next) && Spells(next, s[1..], t)
  }

  lemma {:induction false} RunWord(p: Parser, s: Text, t: Token)
    requires Sane(p.state, p.stack) && !p.state.OpenObject? && !p.state.OpenArray?
    requires IsKeyword(p.lexer.state) && Spells(p.lexer.state, s, t)
    ensures Run(p, s) == Take(Parser(p.state, Lexer(Root, p.lexer.text, p.lexer.line), p.stack), t)
    decreases |s|
  {
    RunOne(p, s);
    var next := Keyword(p.lexer.state).1;
    if !next.Root? {
      var x := Lexer(next, p.lexer.text, p.lexer.line);
      FeedMore(p, s[0], x);
      RunWord(Parser(p.state, x, p.stack), s[1..], t);
    } else {
      assert s == [s[0]];
      RunChar(p, s[0]);
    }
  }

  lemma RunKeyword(p: Parser, s: Text, first: LexState, t: Token)
    requires Reads(p) && s != [] && IsKeyword(first)
    requires Lex(p.lexer, s[0]) == More(Lexer(first, [], p.lexer.line)) && Spells(first, s[1..], t)
    ensures Run(p, s) == Take(p, t)
  {
    hide Take, Lex;
    var x := Lexer(first, [], p.lexer.line);
    FeedMore(p, s[0], x);
    RunOne(p, s);
    RunWord(Parser(p.state, x, p.stack), s[1..], t);
  }

  lemma TrueSpelled()
    ensures Spells(True1, TRUE_TEXT[1..], TrueToken)
  {
    var s := TRUE_TEXT;
    assert s[1..][1..] == s[2..] && s[2..][1..] == s[3..];
    assert Spells(True3, s[3..], TrueToken) && Spells(True2, s[2..], TrueToken);
  }

  lemma FalseSpelled()
    ensures Spells(False1, FALSE_TEXT[1..], FalseToken)
  {
    var s := FALSE_TEXT;
    assert s[1..][1..] == s[2..] && s[2..][1..] == s[3..] && s[3..][1..] == s[4..];
    assert Spells(False4, s[4..], FalseToken) && Spells(False3, s[3..], FalseToken);
    assert Spells(False2, s[2..], FalseToken);
  }

  lemma NullSpelled()
    ensures Spells(Null1, NULL_TEXT[1..], NullToken)
  {
    var s := NULL_TEXT;
    assert s[1..][1..] == s[2..] && s[2..][1..] == s[3..];
    assert Spells(Null3, s[3..], NullToken) && Spells(Null2, s[2..], NullToken);
  }

  lemma RunTrue(p: Parser)
    requires Reads(p)
    ensures Run(p, TRUE_TEXT) == Take(p, TrueToken)
  {
    hide Run, Take, Sane;
    TrueSpelled();
    RunKeyword(p, TRUE_TEXT, True1, TrueToken);
  }

  lemma RunFalse(p: Parser)
    requires Reads(p)
    ensures Run(p, FALSE_TEXT) == Take(p, FalseToken)
  {
    hide Run, Take, Sane;
    FalseSpelled();
    RunKeyword(p, FALSE_TEXT, False1, FalseToken);
  }

  lemma RunNull(p: Parser)
    requires Reads(p)
    ensures Run(p, NULL_TEXT) == Take(p, NullToken)
  {
    hide Run, Take, Sane;
    NullSpelled();
    RunKeyword(p, NULL_TEXT, Null1, NullToken);
  }

  function LeafToken(t: Tree): Token {
    match t.kind
    case String => StringToken(t.text)
    case Number => NumberToken(t.text)
    case True => TrueToken
    case False => FalseToken
    case _ => NullToken
  }

  predicate IsLeaf(t: Tree) {
    Value(t) && !t.kind.Object? && !t.kind.Array?
  }

  lemma LeafPlaced(p: Parser, t: Tree)
    requires Ready(p) && IsLeaf(t)
    ensures p.stack != [] && (p.state.InArray? || |p.stack| >= 2)
    ensures Take(p, LeafToken(t)) == Running(Placing(p, t))
  {
    hide Chain, Pop, Outer, Top, Collect, StringBody;
    ReadyDepth(p);
    assert t == Leaf(t.kind, t.text);
    PopInner(p.stack, t);
    PopLength(p.stack + [t]);
  }

  lemma PopLength(s: Stack)
    requires |s| >= 2
    ensures |Pop(s)| == |s| - 1
  {}

  /** Moving up from a node that was just opened. */
  lemma PopInner(s: Stack, t: Tree)
    requires s != []
    ensures Outer(s + [t]) == s && Top(s + [t]) == t
    ensures Pop(s + [t]) != [] && Outer(Pop(s + [t])) == Outer(s) && Top(Pop(s + [t])) == Grow(Top(s), t)
  {}

  lemma LeafPrinted(t: Tree, above: Kind)
    requires IsLeaf(t) && (above.String? || above.Array?)
    ensures Print(t, Under(above)) == match t.kind
                                      case String => Quoted(t.text)
                                      case Number => t.text
                                      case True => TRUE_TEXT
                                      case False => FALSE_TEXT
                                      case _ => NULL_TEXT
  {
    assert PrintAll([], t.kind) == [];
  }

  /** A value without children, and the character after it. */
  lemma LeafRead(p: Parser, t: Tree, c: Char)
    requires Ready(p) && IsLeaf(t) && Follows(c)
    ensures p.stack != [] && (p.state.InArray? || |p.stack| >= 2)
    ensures Run(p, Print(t, Under(Top(p.stack).kind)) + [c]) == Feed(Placing(p, t), c)
  {
    LeafPlaced(p, t);
    assert Reads(p);
    var printed := Print(t, Under(Top(p.stack).kind));
    LeafPrinted(t, Top(p.stack).kind);
    hide Run, Feed, Chain, Print, Placing, Take, Collect, Sane, Placed;
    match t.kind {
      case Number => RunNumber(p, t.text, c);
      case String => RunString(p, t.text);
      case True => RunTrue(p);
      case False => RunFalse(p);
      case _ => RunNull(p);
    }
    if !t.kind.Number? {
      Afterwards(p, printed, c);
    }
  }

  lemma Afterwards(p: Parser, s: Text, c: Char)
    ensures Run(p, s).Running? ==> Run(p, s + [c]) == Feed(Run(p, s).parser, c)
  {
    RunSum(p, s, [c]);
    if Run(p, s).Running? {
      RunChar(Run(p, s).parser, c);
    }
  }

  // ---- whole trees ----

  /** The parser inside the value t that is being read at p. */
  function Inner(p: Parser, state: State, t: Tree): Parser {
    Parser(state, p.lexer, p.stack + [t])
  }

  /** A value of this kind may be opened at p: under a label, in an array, or as the root. */
  predicate Hosts(p: Parser, kind: Kind) {
    if p.stack == [] then kind.Object? && p.lexer.state.Root? && p.lexer.text == [] else Ready(p)
  }

  lemma InnerChain(p: Parser, t: Tree)
    requires Hosts(p, t.kind) && Open(t) && !t.kind.String?
    ensures Chain(p.stack + [t]) && p.lexer.state.Root? && p.lexer.text == []
  {
    hide Open;
    var s, r := p.stack, p.stack + [t];
    assert forall i :: 0 <= i < |s| ==> r[i] == s[i];
    OpenKind(t);
  }

  lemma CloseInside(p: Parser, state: State, t: Tree)
    requires Ready(p)
    ensures p.stack != [] && (p.state.InArray? || |p.stack| >= 2)
    ensures Close(Inner(p, state, t)) == Running(Placing(p, t))
  {
    hide Chain, Pop, Outer, Top;
    PlacedOpen(p);
    var s := p.stack + [t];
    PopInner(p.stack, t);
    if p.state.BeforeValue? {
      TopOfPop(Pop(s));
    }
  }

  /** The last character of an object or array. */
  lemma Closed(p: Parser, state: State, t: Tree, c: Char)
    requires Ready(p) && Value(t)
    requires (t.kind.Object? && c == '}' && (state.AfterField? || (state.InObject? && t.kids == [])))
          || (t.kind.Array? && c == ']' && (state.AfterItem? || state.InArray?))
    ensures p.stack != [] && (p.state.InArray? || |p.stack| >= 2)
    ensures Feed(Inner(p, state, t), c) == Running(Placing(p, t))
  {
    hide Close, Placing, Value, Chain;
    CloseInside(p, state, t);
    FeedToken(Inner(p, state, t), c, if t.kind.Object? then EndObject else EndArray);
    hide Feed;
  }

  lemma PlacedOpen(p: Parser)
    requires Ready(p)
    ensures p.stack != []
    ensures p.state.InArray? ==> Top(p.stack).kind.Array?
    ensures p.state.BeforeValue? ==> |p.stack| >= 2 && Top(p.stack).kind.String? && Top(Outer(p.stack)).kind.Object?
  {
    ReadyDepth(p);
    if p.state.BeforeValue? {
      hide Open;
      var s := p.stack;
      assert Nests(s[|s| - 2].kind, s[|s| - 1].kind);
    }
  }

  /** The brace or bracket that opens a value. */
  lemma Opened(p: Parser, kind: Kind, s: Text)
    requires Ready(p) && (kind.Object? || kind.Array?) && s != []
    ensures Run(p, [if kind.Object? then '{' else '['] + s) ==
            Run(Inner(p, if kind.Object? then InObject else InArray, Leaf(kind, [])), s)
  {
    PlacedOpen(p);
    var first: Char := if kind.Object? then '{' else '[';
    var q := Parser(if kind.Object? then OpenObject else OpenArray, p.lexer, p.stack);
    var r := Inner(p, if kind.Object? then InObject else InArray, Leaf(kind, []));
    assert Feed(p, first) == Running(q) by {
      FeedToken(p, first, if kind.Object? then BeginObject else BeginArray);
    }
    assert Feed(q, s[0]) == Feed(r, s[0]) by {
      EnterOnce(q, r, s[0]);
    }
    hide Feed, Chain;
    RunOne(p, [first] + s);
    RunOne(q, s);
    RunOne(r, s);
    assert ([first] + s)[1..] == s;
  }

  lemma EnterOnce(q: Parser, r: Parser, c: Char)
    requires Enter(q) == Running(r) && Enter(r) == Running(r)
    ensures Feed(q, c) == Feed(r, c)
  {}

  /** Before the next field or item. */
  predicate Between(p: Parser, kind: Kind) {
    && p.lexer.state.Root? && p.lexer.text == [] && Chain(p.stack) && p.stack != [] && Top(p.stack).kind == kind
    && if kind.Object? then p.state.InObject? || p.state.NextField? else kind.Array? && p.state.InArray?
  }

  /** A complete value, and the character after it. */
  lemma {:induction false} ValueRead(p: Parser, t: Tree, c: Char)
    requires Ready(p) && Value(t) && Follows(c)
    ensures p.stack != [] && (p.state.InArray? || |p.stack| >= 2)
    ensures Run(p, Print(t, Under(Top(p.stack).kind)) + [c]) == Feed(Placing(p, t), c)
    decreases t, 3
  {
    PlacedOpen(p);
    var above := Under(Top(p.stack).kind);
    if IsLeaf(t) {
      LeafRead(p, t, c);
    } else {
      var isObject := t.kind.Object?;
      var first: Char := if isObject then '{' else '[';
      var last: Char := if isObject then '}' else ']';
      var body := PrintAll(t.kids, t.kind);
      assert t == Node(t.kind, [], t.kids);
      assert Print(t, above) == [first] + (body + [last]);
      Opened(p, t.kind, body + [last]);
      var empty := Inner(p, if isObject then InObject else InArray, Leaf(t.kind, []));
      var full := Inner(p, if isObject then AfterField else AfterItem, t);
      if t.kids == [] {
        assert body + [last] == [last];
        RunChar(empty, last);
        Closed(p, empty.state, t, last);
      } else {
        ListRead(p, t, last);
        Closed(p, full.state, t, last);
      }
      hide Run, Feed, Print, Placing, Value;
      Afterwards(p, Print(t, above), c);
    }
  }

  lemma ListPrinted(t: Tree, c: Char)
    requires t.kids != []
    ensures var n := |t.kids| - 1;
            PrintAll(t.kids, t.kind) + [c] ==
            (PrintAll(t.kids[..n], t.kind) + (if n == 0 then [] else [','])) + (Print(t.kids[n], Under(t.kind)) + [c])
  {
    var n := |t.kids| - 1;
    Sum(PrintAll(t.kids[..n], t.kind) + (if n == 0 then [] else [',']), Print(t.kids[n], Under(t.kind)), [c]);
  }

  lemma LastKid(s: Stack, t: Tree)
    requires t.kids != [] && t.text == []
    ensures var n := |t.kids| - 1;
            var r := s + [Node(t.kind, [], t.kids[..n])];
            r != [] && Top(r).kind == t.kind && Outer(r) + [Grow(Top(r), t.kids[n])] == s + [t]
  {
    var n := |t.kids| - 1;
    assert Outer(s + [Node(t.kind, [], t.kids[..n])]) == s;
    OuterTop(t.kids);
  }

  /** The parser before the last field or item of t. */
  function BeforeLast(p: Parser, t: Tree): Parser
    requires t.kids != []
  {
    var n := |t.kids| - 1;
    Inner(p, if t.kind.Array? then InArray else if n > 0 then NextField else InObject, Node(t.kind, [], t.kids[..n]))
  }

  lemma LastReady(p: Parser, t: Tree)
    requires Hosts(p, t.kind) && Value(t) && (t.kind.Object? || t.kind.Array?) && t.kids != []
    ensures Between(BeforeLast(p, t), t.kind)
    ensures t.text == [] && if t.kind.Object? then Field(t.kids[|t.kids| - 1]) else Value(t.kids[|t.kids| - 1])
  {
    hide Chain, Ready, Open, Value, Field, Hosts;
    FrontOpen(t);
    InnerChain(p, Node(t.kind, [], t.kids[..|t.kids| - 1]));
  }

  lemma FrontOpen(t: Tree)
    requires Value(t) && (t.kind.Object? || t.kind.Array?) && t.kids != []
    ensures Open(Node(t.kind, [], t.kids[..|t.kids| - 1])) && t.text == []
    ensures if t.kind.Object? then Field(t.kids[|t.kids| - 1]) else Value(t.kids[|t.kids| - 1])
  {}

  /** Fields or items with commas between them. */
  lemma {:induction false} ListRead(p: Parser, t: Tree, c: Char)
    requires Hosts(p, t.kind) && Value(t) && (t.kind.Object? || t.kind.Array?) && t.kids != [] && Follows(c)
    ensures Run(Inner(p, if t.kind.Object? then InObject else InArray, Leaf(t.kind, [])),
                PrintAll(t.kids, t.kind) + [c]) ==
            Feed(Inner(p, if t.kind.Object? then AfterField else AfterItem, t), c)
    decreases t.kids, 2
  {
    var n := |t.kids| - 1;
    var last, next := t.kids[n], BeforeLast(p, t);
    var start := Inner(p, if t.kind.Object? then InObject else InArray, Leaf(t.kind, []));
    var before := PrintAll(t.kids[..n], t.kind) + (if n == 0 then [] else [',']);
    hide Run, Feed, Print, PrintAll, Chain, Ready, Value, Field, Between, Hosts, Outer, Top;
    LastReady(p, t);
    FrontRead(p, t);
    ListPrinted(t, c);
    LastKid(p.stack, t);
    KidRead(next, t.kind, last, c);
    RunSum(start, before, Print(last, Under(t.kind)) + [c]);
  }

  lemma {:induction false} FrontRead(p: Parser, t: Tree)
    requires Hosts(p, t.kind) && Value(t) && (t.kind.Object? || t.kind.Array?) && t.kids != []
    ensures var n := |t.kids| - 1;
            Run(Inner(p, if t.kind.Object? then InObject else InArray, Leaf(t.kind, [])),
                PrintAll(t.kids[..n], t.kind) + (if n == 0 then [] else [','])) == Running(BeforeLast(p, t))
    decreases t.kids, 1
  {
    hide Run, Feed, Print, PrintAll, Chain, Ready;
    var n := |t.kids| - 1;
    var front := Node(t.kind, [], t.kids[..n]);
    InnerChain(p, front);
    if n > 0 {
      ListRead(p, front, ',');
      Comma(Inner(p, if t.kind.Object? then AfterField else AfterItem, front), BeforeLast(p, t));
    } else {
      assert front == Leaf(t.kind, []);
      NothingRead(BeforeLast(p, t), t.kind);
    }
  }

  lemma NothingRead(p: Parser, kind: Kind)
    ensures Run(p, PrintAll([], kind) + []) == Running(p)
  {}

  lemma Comma(p: Parser, next: Parser)
    requires Reads(p) && p.state in {AfterField, AfterItem}
    requires next == Parser(if p.state.AfterField? then NextField else InArray, p.lexer, p.stack)
    ensures Feed(p, ',') == Running(next)
  {
    FeedToken(p, ',', ValueSeparator);
  }

  /** One field or item. */
  lemma {:induction false} KidRead(q: Parser, kind: Kind, t: Tree, c: Char)
    requires Between(q, kind) && Follows(c)
    requires if kind.Object? then Field(t) else Value(t)
    ensures Run(q, Print(t, Under(kind)) + [c]) ==
            Feed(Parser(if kind.Object? then AfterField else AfterItem, q.lexer,
                        Outer(q.stack) + [Grow(Top(q.stack), t)]), c)
    decreases t, 4
  {
    if kind.Array? {
      ValueRead(q, t, c);
      assert Outer(q.stack + [t]) == q.stack;
    } else {
      FieldRead(q, t, c);
    }
  }

  lemma {:induction false} FieldRead(q: Parser, t: Tree, c: Char)
    requires Between(q, Object) && Field(t) && Follows(c)
    ensures Run(q, Print(t, Under(Object)) + [c]) ==
            Feed(Parser(AfterField, q.lexer, Outer(q.stack) + [Grow(Top(q.stack), t)]), c)
    decreases t, 3
  {
    var v := t.kids[0];
    var name := Leaf(String, t.text);
    var inside := Parser(AfterLabel, q.lexer, q.stack + [name]);
    var ready := Parser(BeforeValue, q.lexer, q.stack + [name]);
    assert Run(q, Quoted(t.text)) == Running(inside) by {
      RunString(q, t.text);
    }
    FeedToken(inside, ':', NameSeparator);
    PushKeeps(Parser(q.state, q.lexer, q.stack), String, t.text, AfterLabel);
    ValueRead(ready, v, c);
    FieldPlaced(q, t);
    FieldPrinted(t);
    hide Run, Feed, Print, Value, Chain, Pop;
    Afterwards(q, Quoted(t.text), ':');
    RunSum(q, Quoted(t.text) + [':'], Print(v, Under(String)) + [c]);
    Sum(Quoted(t.text) + [':'], Print(v, Under(String)), [c]);
  }

  lemma FieldPlaced(q: Parser, t: Tree)
    requires q.stack != [] && Field(t)
    ensures Pop(Pop(q.stack + [Leaf(String, t.text)] + [t.kids[0]])) == Outer(q.stack) + [Grow(Top(q.stack), t)]
  {
    var s := q.stack + [Leaf(String, t.text)];
    assert Outer(s + [t.kids[0]]) == s && Outer(s) == q.stack;
    assert Grow(Leaf(String, t.text), t.kids[0]) == t by {
      assert [] + [t.kids[0]] == t.kids;
    }
    assert Pop(s + [t.kids[0]]) == q.stack + [t];
    assert Outer(q.stack + [t]) == q.stack;
  }

  lemma FieldPrinted(t: Tree)
    requires Field(t)
    ensures Print(t, Under(Object)) == Quoted(t.text) + [':'] + Print(t.kids[0], Under(String))
  {
    assert t.kids[..0] == [];
    assert PrintAll(t.kids, String) == [] + [] + Print(t.kids[0], Under(String));
  }

  /** Inside the braces of a document. */
  lemma DocumentBody(t: Tree)
    requires Document(t)
    ensures Run(Parser(InObject, INITIAL.lexer, [Leaf(Object, [])]), PrintAll(t.kids, Object) + ['}']) ==
            Running(Parser(Done, INITIAL.lexer, [t]))
  {
    var empty := Parser(InObject, INITIAL.lexer, [Leaf(Object, [])]);
    var full := Parser(AfterField, INITIAL.lexer, [t]);
    assert t == Node(Object, [], t.kids);
    assert [] + [t] == [t] && [] + [Leaf(Object, [])] == [Leaf(Object, [])];
    if t.kids == [] {
      assert PrintAll(t.kids, Object) + ['}'] == ['}'];
      RunChar(empty, '}');
      FeedToken(empty, '}', EndObject);
    } else {
      ListRead(INITIAL, t, '}');
      FeedToken(full, '}', EndObject);
    }
    hide Run, Feed, Print, PrintAll, Value;
  }

  /** The brace of a document. */
  lemma DocumentBrace(rest: Text)
    requires rest != []
    ensures Run(INITIAL, ['{'] + rest) == Run(Parser(InObject, INITIAL.lexer, [Leaf(Object, [])]), rest)
  {
    var brace := Parser(OpenObject, INITIAL.lexer, []);
    var empty := Parser(InObject, INITIAL.lexer, [Leaf(Object, [])]);
    assert [] + [Leaf(Object, [])] == [Leaf(Object, [])];
    FeedToken(INITIAL, '{', BeginObject);
    EnterOnce(brace, empty, rest[0]);
    hide Run, Feed;
    RunOne(brace, rest);
    RunOne(empty, rest);
    RunOne(INITIAL, ['{'] + rest);
    assert (['{'] + rest)[1..] == rest;
  }

  /** Printing then parsing is the identity. */
  lemma RoundTrip(t: Tree)
    requires Document(t)
    ensures ParseDocument(Print(t, Nothing)) == Ok(t)
  {
    var rest: Text := PrintAll(t.kids, Object) + ['}'];
    assert Print(t, Nothing) == ['{'] + rest;
    hide Run, Feed, Print, PrintAll, Value;
    DocumentBrace(rest);
    DocumentBody(t);
  }

  /** Every accepted text is equivalent to the printed form of what it was parsed to. */
  lemma PrintedAgain(input: Text)
    requires ParseDocument(input).Ok?
    ensures ParseDocument(Print(ParseDocument(input).root, Nothing)) == ParseDocument(input)
  {
    AcceptedIsDocument(input);
    RoundTrip(ParseDocument(input).root);
  }

  lemma ArrayReady(p: Parser, t: Tree)
    requires Ready(p) && Value(t) && t.kind.Array?
    ensures p.stack != [] && (p.state.InArray? || |p.stack| >= 2) && Hosts(p, Array)
    ensures t == Node(Array, [], t.kids) && Reads(Inner(p, AfterItem, t))
  {
    hide Chain;
    PlacedOpen(p);
  }

  /** An array may end in a comma, which leaves no trace. */
  lemma TrailingComma(p: Parser, t: Tree, c: Char)
    requires Ready(p) && Value(t) && t.kind.Array? && t.kids != [] && Follows(c)
    ensures p.stack != [] && (p.state.InArray? || |p.stack| >= 2)
    ensures Run(p, ['['] + PrintAll(t.kids, Array) + [',', ']'] + [c]) == Feed(Placing(p, t), c)
    ensures Run(p, ['['] + PrintAll(t.kids, Array) + [',', ']'] + [c]) ==
            Run(p, Print(t, Under(Top(p.stack).kind)) + [c])
  {
    hide Run, Feed, Print, PrintAll, Value, Chain, Placing, Ready;
    ArrayReady(p, t);
    ValueRead(p, t, c);
    var body := PrintAll(t.kids, Array);
    var start, after, again := Inner(p, InArray, Leaf(Array, [])), Inner(p, AfterItem, t), Inner(p, InArray, t);
    ListRead(p, t, ',');
    Comma(after, again);
    Afterwards(start, body + [','], ']');
    Closed(p, InArray, t, ']');
    Opened(p, Array, body + [','] + [']']);
    assert ['['] + (body + [','] + [']']) == ['['] + body + [',', ']'];
    Afterwards(p, ['['] + body + [',', ']'], c);
  }
}
