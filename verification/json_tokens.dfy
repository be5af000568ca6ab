/** The text of a document as tokens: the parser sees nothing else, and what the tokens look like. */
module JsonTokens {
  import opened JsonLexer
  import opened JsonTree
  import opened JsonParser
  import opened JsonParserInvariant
  import opened JsonReader
  import opened JsonRoundTrip
  import opened JsonFragments

  /** The tokens of a text. After an invalid character that is left unread there are no more. */
  function Tokens(x: Lexer, s: Text): seq<Token>
    decreases |s|, if x.state.Root? then 0 else 1
  {
    if s == [] then []
    else match Lex(x, s[0])
         case More(y) => Tokens(y, s[1..])
         case Emit(y, t, consumed) =>
           if consumed then [t] + Tokens(y, s[1..])
           else if y.state.Root? && !x.state.Root? then [t] + Tokens(y, s)
           else [t]
  }

  /** The parser on tokens. */
  function TakeAll(p: Parser, ts: seq<Token>): Outcome
    decreases |ts|
  {
    if ts == [] then Running(p)
    else
      var entered := Enter(p);
      if entered.Failed? then entered
      else
        var r := Take(entered.parser, ts[0]);
        if r.Failed? then r else TakeAll(r.parser, ts[1..])
  }

  /** The outcome without the lexer, and with states 1 and 7 carried out. */
  function Core(o: Outcome): Outcome {
    match o
    case Failed(_) => o
    case Running(p) =>
      match Enter(p)
      case Failed(e) => Failed(e)
      case Running(q) => Running(Parser(q.state, INITIAL.lexer, q.stack))
  }

  function WithLexer(p: Parser, x: Lexer): Parser {
    Parser(p.state, x, p.stack)
  }

  lemma EnterAnyLexer(p: Parser, x: Lexer)
    ensures Enter(WithLexer(p, x)) == match Enter(p)
                                      case Failed(e) => Failed(e)
                                      case Running(q) => Running(WithLexer(q, x))
  {
    hide Sane, Accepts;
  }

  lemma TakeAnyLexer(p: Parser, x: Lexer, t: Token)
    requires Sane(p.state, p.stack)
    ensures Take(WithLexer(p, x), t) == match Take(p, t)
                                        case Failed(e) => Failed(e)
                                        case Running(q) => Running(WithLexer(q, x))
  {
    hide Accepts, Pop, Top;
  }

  lemma EnteredIsSane(p: Parser)
    requires Enter(p).Running?
    ensures Reading(Enter(p).parser) && Enter(Enter(p).parser) == Enter(p)
  {}

  lemma {:induction false} TakeAllAnyLexer(p: Parser, x: Lexer, ts: seq<Token>)
    ensures Core(TakeAll(WithLexer(p, x), ts)) == Core(TakeAll(p, ts))
    decreases |ts|
  {
    hide Take, Enter;
    EnterAnyLexer(p, x);
    if ts != [] && Enter(p).Running? {
      EnteredIsSane(p);
      var q := Enter(p).parser;
      TakeAnyLexer(q, x, ts[0]);
      if Take(q, ts[0]).Running? {
        TakeAllAnyLexer(Take(q, ts[0]).parser, x, ts[1..]);
      }
    }
  }

  /** Carrying out states 1 and 7 first makes no difference. */
  lemma EnteredFirst(p: Parser, ts: seq<Token>)
    requires Enter(p).Running?
    ensures Core(TakeAll(p, ts)) == Core(TakeAll(Enter(p).parser, ts))
  {
    hide Take, Enter, Reading;
    EnteredIsSane(p);
  }

  /** Parsing a text is parsing its tokens. */
  lemma {:induction false} RunIsTakeAll(p: Parser, s: Text)
    ensures Core(Run(p, s)) == Core(TakeAll(p, Tokens(p.lexer, s)))
    decreases |s|, if p.lexer.state.Root? then 0 else 1
  {
    hide Take, Enter, Lex, Sane;
    if s != [] {
      EnterFirst(p, s);
      if Enter(p).Running? {
        EnteredIsSane(p);
        EnterLeavesLexer(p);
        EnteredFirst(p, Tokens(p.lexer, s));
        RunEntered(Enter(p).parser, s);
      }
    }
  }

  lemma {:induction false} RunEntered(q: Parser, s: Text)
    requires s != [] && Reading(q) && Enter(q) == Running(q)
    ensures Core(Run(q, s)) == Core(TakeAll(q, Tokens(q.lexer, s)))
    decreases |s|, if q.lexer.state.Root? then 0 else 1, 0
  {
    hide Take, Enter, Lex, Sane, Core;
    var c := s[0];
    LexUnread(q.lexer, c);
    match Lex(q.lexer, c) {
      case More(y) =>
        var r := WithLexer(q, y);
        RunIsTakeAll(r, s[1..]);
        TakeAllAnyLexer(q, y, Tokens(y, s[1..]));
        assert Feed(q, c) == Running(r);
      case Emit(y, t, consumed) =>
        var r := WithLexer(q, y);
        TakeAnyLexer(q, y, t);
        if t.Invalid? {
          InvalidStops(q, s, y, consumed);
        } else if consumed {
          assert Feed(q, c) == Take(r, t);
          if Take(r, t).Running? {
            TakeLeavesLexer(r, t);
            RunIsTakeAll(Take(r, t).parser, s[1..]);
            TakeAllAnyLexer(Take(q, t).parser, y, Tokens(y, s[1..]));
          }
        } else {
          UnreadIsFedAgain(q, c);
          if Take(r, t).Running? {
            TakeLeavesLexer(r, t);
            RunIsTakeAll(Take(r, t).parser, s);
            TakeAllAnyLexer(Take(q, t).parser, y, Tokens(y, s));
          }
        }
    }
  }

  lemma InvalidStops(q: Parser, s: Text, y: Lexer, consumed: bool)
    requires s != [] && Reading(q) && Enter(q) == Running(q) && Lex(q.lexer, s[0]) == Emit(y, Invalid, consumed)
    ensures Core(Run(q, s)) == Core(TakeAll(q, Tokens(q.lexer, s)))
  {
    hide Take, Lex, Sane;
    Rejects(q);
    Rejects(WithLexer(q, y));
    TakeAnyLexer(q, y, Invalid);
  }
}
