/** Where a document may be cut into fragments, and what may follow it. */
module JsonFragments {
  import opened Common
  import opened JsonLexer
  import opened JsonTree
  import opened JsonParser
  import opened JsonParserInvariant

  predicate Blank(s: Text) {
    forall i :: 0 <= i < |s| ==> IsBlank(s[i])
  }

  /** Parsing b after a has been parsed. */
  function Cut(a: Text, b: Text): Code {
    if Verdict(INITIAL, a).Err? then Verdict(INITIAL, a) else Verdict(Run(INITIAL, a).parser, b)
  }

  /** A parser that did not fail on a goes on exactly as if a and b had come together. */
  lemma Resumes(p: Parser, a: Text, b: Text)
    requires !Verdict(p, a).Err?
    ensures Run(p, a).Running? && Run(p, a + b) == Run(Run(p, a).parser, b)
    ensures Verdict(p, a + b) == Verdict(Run(p, a).parser, b)
  {
    RunSum(p, a, b);
    if b == [] {
      assert a + b == a;
    } else if a == [] {
      assert a + b == b;
    }
  }

  /** A failure inside a is a failure of the whole. */
  lemma FailsForGood(p: Parser, a: Text, b: Text)
    requires Run(p, a).Failed?
    ensures Verdict(p, a + b) == Verdict(p, a)
  {
    RunSum(p, a, b);
  }

  predicate BeforeBrace(p: Parser) {
    p.state.Start? && p.stack == []
  }

  lemma StartStep(p: Parser, c: Char)
    requires BeforeBrace(p) && LexOk(p.lexer)
    ensures var r := Feed(p, c);
            if p.lexer.state.Root? then
              if IsBlank(c) then r.Running? && BeforeBrace(r.parser) && LexOk(r.parser.lexer) && r.parser.lexer.state.Root?
              else r.Running? && BeforeBrace(r.parser) ==> LexOk(r.parser.lexer) && !r.parser.lexer.state.Root?
            else
              r == Failed(Malformed) ||
              (r.Running? && BeforeBrace(r.parser) && LexOk(r.parser.lexer) && !r.parser.lexer.state.Root?)
  {
    LexKeeps(p.lexer, c);
  }

  /** What was read while still in state 0. */
  lemma {:induction false} StillBefore(p: Parser, a: Text)
    requires BeforeBrace(p) && LexOk(p.lexer) && p.lexer.state.Root?
    ensures Blank(a) ==> Run(p, a).Running? && BeforeBrace(Run(p, a).parser)
    decreases |a|
  {
    hide Feed, LexOk;
    if a != [] && Blank(a) {
      StartStep(p, a[0]);
      StillBefore(Feed(p, a[0]).parser, a[1..]);
    }
  }

  /** A token other than a brace has begun: the document is lost, now or later. */
  lemma {:induction false} Doomed(p: Parser, b: Text)
    requires BeforeBrace(p) && LexOk(p.lexer) && !p.lexer.state.Root? && b != []
    ensures Verdict(p, b) == Err(Malformed)
    decreases |b|
  {
    hide Feed, LexOk;
    StartStep(p, b[0]);
    var r := Feed(p, b[0]);
    if r.Running? {
      if b[1..] == [] {
        assert Run(p, b) == r;
      } else {
        Doomed(r.parser, b[1..]);
      }
    }
  }

  lemma TurnForward(p: Parser, c: Char)
    requires !p.state.Start?
    ensures Turn(p, c).0.Running? ==> !Turn(p, c).0.parser.state.Start?
  {
    hide Lex, Sane, Pop;
  }

  lemma NeverBackOne(p: Parser, c: Char)
    requires !p.state.Start?
    ensures Feed(p, c).Running? ==> !Feed(p, c).parser.state.Start?
  {
    hide Turn;
    TurnForward(p, c);
    var (next, consumed) := Turn(p, c);
    if next.Running? {
      TurnForward(next.parser, c);
    }
  }

  lemma {:induction false} NeverBack(p: Parser, s: Text)
    requires !p.state.Start?
    ensures Run(p, s).Running? ==> !Run(p, s).parser.state.Start?
    decreases |s|
  {
    hide Feed;
    if s != [] {
      NeverBackOne(p, s[0]);
      if Feed(p, s[0]).Running? {
        NeverBack(Feed(p, s[0]).parser, s[1..]);
      }
    }
  }

  /** Staying in state 0 without being in a token means that only blanks came. */
  lemma {:induction false} OnlyBlanks(p: Parser, a: Text)
    requires BeforeBrace(p) && Inv(p)
    requires Run(p, a).Running? && Run(p, a).parser.state.Start?
    ensures Inv(Run(p, a).parser) && BeforeBrace(Run(p, a).parser)
    ensures Run(p, a).parser.lexer.state.Root? ==> p.lexer.state.Root? && Blank(a)
    decreases |a|
  {
    RunKeeps(p, a);
    hide Feed, LexOk, Chain;
    if a != [] {
      StartStep(p, a[0]);
      FeedKeeps(p, a[0]);
      var q := Feed(p, a[0]).parser;
      if !q.state.Start? {
        NeverBack(q, a[1..]);
      }
      OnlyBlanks(q, a[1..]);
    }
  }

  /** Cutting the text after a changes the outcome just when a consists of blanks, at least one,
      and the text would not be rejected as malformed anyway. */
  lemma CutExactly(a: Text, b: Text)
    ensures Cut(a, b) == Verdict(INITIAL, a + b) <==>
            a == [] || !Blank(a) || Verdict(INITIAL, a + b) == Err(Malformed)
  {
    hide Feed, LexOk, Chain;
    InitialInv();
    RunKeeps(INITIAL, a);
    StillBefore(INITIAL, a);
    if Run(INITIAL, a).Failed? {
      FailsForGood(INITIAL, a, b);
    } else if !Verdict(INITIAL, a).Err? {
      Resumes(INITIAL, a, b);
    } else if !Blank(a) {
      OnlyBlanks(INITIAL, a);
      RunSum(INITIAL, a, b);
      if b == [] {
        assert a + b == a;
      } else {
        Doomed(Run(INITIAL, a).parser, b);
      }
    }
  }

  /** So a is a safe place to cut, whatever follows, unless it consists of blanks, at least one. */
  lemma CutAnywhere(a: Text)
    ensures (forall b :: Cut(a, b) == Verdict(INITIAL, a + b)) <==> a == [] || !Blank(a)
  {
    hide Run, Feed;
    if a != [] && Blank(a) {
      BlanksThenBraces(a);
      CutExactly(a, ['{', '}']);
      assert Cut(a, ['{', '}']) != Verdict(INITIAL, a + ['{', '}']);
    } else {
      forall b ensures Cut(a, b) == Verdict(INITIAL, a + b) {
        CutExactly(a, b);
      }
    }
  }

  /** Blanks in front of a document do no harm. */
  lemma {:induction false} LeadingBlanks(line: nat, a: Text) returns (l: nat)
    requires Blank(a)
    ensures Run(Parser(Start, Lexer(Root, [], line), []), a) == Running(Parser(Start, Lexer(Root, [], l), []))
    decreases |a|
  {
    l := line;
    if a != [] {
      var next := if a[0] == '\n' || a[0] == '\r' then line + 1 else line;
      assert Feed(Parser(Start, Lexer(Root, [], line), []), a[0]) == Running(Parser(Start, Lexer(Root, [], next), []));
      hide Feed;
      l := LeadingBlanks(next, a[1..]);
    }
  }

  lemma BracesAt(line: nat)
    ensures var x := Lexer(Root, [], line);
            Run(Parser(Start, x, []), ['{', '}']) == Running(Parser(Done, x, [Leaf(Object, [])]))
  {
    var x := Lexer(Root, [], line);
    var start, brace := Parser(Start, x, []), Parser(OpenObject, x, []);
    var end := Parser(Done, x, [Leaf(Object, [])]);
    assert [] + [Leaf(Object, [])] == [Leaf(Object, [])];
    assert Feed(start, '{') == Running(brace);
    assert Feed(brace, '}') == Running(end);
    hide Feed;
    var s: Text := ['{', '}'];
    assert s[1..] == ['}'] && s[1..][1..] == [];
    assert Run(brace, s[1..]) == Running(end);
  }

  lemma BlanksThenBraces(a: Text)
    requires Blank(a)
    ensures Verdict(INITIAL, a + ['{', '}']) == WaitingForEof
  {
    var l := LeadingBlanks(1, a);
    BracesAt(l);
    hide Run, Feed;
    RunSum(INITIAL, a, ['{', '}']);
  }

  // ---- json_stream_parse: fragments until the file ends ----

  function Concat(chunks: seq<Text>): Text {
    if chunks == [] then [] else chunks[0] + Concat(chunks[1..])
  }

  /** The last code of the loop, given the state and the code so far. */
  function Feeding(p: Parser, code: Code, chunks: seq<Text>): Code
    decreases |chunks|
  {
    if code.Err? || chunks == [] then code
    else if Run(p, chunks[0]).Failed? then Verdict(p, chunks[0])
    else Feeding(Run(p, chunks[0]).parser, Verdict(p, chunks[0]), chunks[1..])
  }

  lemma {:induction false} FeedingResumes(p: Parser, code: Code, done: Text, chunks: seq<Text>)
    requires Run(INITIAL, done) == Running(p) && code == Verdict(INITIAL, done) && !code.Err?
    requires [] !in chunks
    requires done == [] ==> chunks == [] || !Blank(chunks[0])
    ensures Feeding(p, code, chunks) == Verdict(INITIAL, done + Concat(chunks))
    decreases |chunks|
  {
    hide Run;
    if chunks == [] {
      assert done + Concat(chunks) == done;
    } else {
      var c, rest := chunks[0], Concat(chunks[1..]);
      Sum(done, c, rest);
      if Verdict(p, c).Err? {
        EarlyEnd(p, done, c, rest);
      } else {
        Resumes(INITIAL, done, c);
        FeedingResumes(Run(p, c).parser, Verdict(p, c), done + c, chunks[1..]);
      }
    }
  }

  lemma EarlyEnd(p: Parser, done: Text, c: Text, rest: Text)
    requires Run(INITIAL, done) == Running(p) && !Verdict(INITIAL, done).Err?
    requires Verdict(p, c).Err? && (done == [] ==> !Blank(c))
    ensures Verdict(INITIAL, done + c + rest) == Verdict(p, c)
  {
    hide Feed;
    Resumes(INITIAL, done, c);
    if Run(p, c).Failed? {
      FailsForGood(INITIAL, done + c, rest);
    } else {
      if !p.state.Start? {
        NeverBack(p, c);
      }
      assert done == [] && done + c == c;
      CutExactly(c, rest);
    }
  }

  /** Reading a stream by nonempty pieces ends as parsing it whole does, unless the first piece is blank. */
  lemma StreamExactly(chunks: seq<Text>)
    requires [] !in chunks
    ensures Feeding(INITIAL, Incomplete, chunks) == Verdict(INITIAL, Concat(chunks)) <==>
            chunks == [] || !Blank(chunks[0]) || Verdict(INITIAL, Concat(chunks)) == Err(Malformed)
  {
    hide Feed;
    assert [] + Concat(chunks) == Concat(chunks);
    if chunks == [] || !Blank(chunks[0]) {
      FeedingResumes(INITIAL, Incomplete, [], chunks);
    } else {
      InitialInv();
      StillBefore(INITIAL, chunks[0]);
      assert Feeding(INITIAL, Incomplete, chunks) == Err(Malformed);
    }
  }

  /** So a nonempty first piece is safe, whatever pieces follow, exactly if it is not blank. */
  lemma StreamAnywhere(first: Text)
    requires first != []
    ensures (forall rest :: [] !in rest ==>
               Feeding(INITIAL, Incomplete, [first] + rest) == Verdict(INITIAL, Concat([first] + rest))) <==> !Blank(first)
  {
    hide Run, Feed, Feeding;
    if Blank(first) {
      var braces: Text := ['{', '}'];
      var rest := [braces];
      assert ([first] + rest)[0] == first && ([first] + rest)[1..] == rest && rest[1..] == [];
      assert Concat(rest) == braces + Concat([]) == braces;
      assert Concat([first] + rest) == first + braces;
      BlanksThenBraces(first);
      StreamExactly([first] + rest);
      assert [] !in rest && Feeding(INITIAL, Incomplete, [first] + rest) != Verdict(INITIAL, Concat([first] + rest));
    } else {
      forall rest | [] !in rest
        ensures Feeding(INITIAL, Incomplete, [first] + rest) == Verdict(INITIAL, Concat([first] + rest))
      {
        StreamExactly([first] + rest);
      }
    }
  }

  // ---- after the document ----

  /** The text begins no complete token. */
  predicate Silent(x: Lexer, s: Text)
    decreases |s|
  {
    s == [] || (Lex(x, s[0]).More? && Silent(Lex(x, s[0]).lexer, s[1..]))
  }

  lemma {:induction false} DoneTail(p: Parser, s: Text)
    requires p.state.Done? && |p.stack| == 1
    ensures if Silent(p.lexer, s) then Run(p, s).Running? && Run(p, s).parser.state.Done? &&
                                       Run(p, s).parser.stack == p.stack
            else Run(p, s) == Failed(Malformed)
    decreases |s|
  {
    if s != [] {
      hide Lex;
      if Lex(p.lexer, s[0]).More? {
        DoneTail(Parser(Done, Lex(p.lexer, s[0]).lexer, p.stack), s[1..]);
      }
    }
  }

  /** After a document anything may follow that does not complete a token: blanks, but also an open string. */
  lemma AfterDocument(input: Text, tail: Text)
    requires ParseDocument(input).Ok?
    ensures ParseDocument(input + tail) ==
            if Silent(Run(INITIAL, input).parser.lexer, tail) then ParseDocument(input)
            else Rejected(Err(Malformed))
  {
    NoTreeErrors(input);
    RunSum(INITIAL, input, tail);
    DoneTail(Run(INITIAL, input).parser, tail);
  }

  lemma {:induction false} SilentString(x: Lexer, s: Text)
    requires x.state in {Str, Esc, Hex1, Hex2, Hex3, Hex4} && !Collect(x.state, s).Root?
    ensures Silent(x, s)
    decreases |s|
  {
    if s != [] {
      SilentString(Lexer(Append(x.state, s[0]), x.text + [s[0]], x.line), s[1..]);
    }
  }

  lemma EmptyDocument()
    ensures Run(INITIAL, ['{', '}']) == Running(Parser(Done, INITIAL.lexer, [Leaf(Object, [])]))
  {
    BracesAt(1);
  }

  /** So a text with a string left open behind the closing brace is accepted. */
  lemma OpenStringAfterDocument(s: Text)
    requires StringBody(s)
    ensures ParseDocument(['{', '}'] + (['"'] + s)) == Ok(Leaf(Object, []))
  {
    hide Feed, Run;
    EmptyDocument();
    CollectsStrings(s);
    SilentString(Lexer(Str, [], 1), s);
    assert (['"'] + s)[1..] == s;
    assert Silent(INITIAL.lexer, ['"'] + s);
    AfterDocument(['{', '}'], ['"'] + s);
  }
}
