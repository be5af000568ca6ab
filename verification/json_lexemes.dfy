/** What a text of valid tokens looks like: blanks and lexemes, numbers set apart from what follows. */
module JsonLexemes {
  import opened Common
  import opened JsonLexer
  import opened JsonTree
  import opened JsonParser
  import opened JsonParserInvariant
  import opened JsonRoundTrip
  import opened JsonFragments
  import opened JsonTokens

  function Spell(t: Token): Text {
    match t
    case BeginObject => ['{']
    case EndObject => ['}']
    case BeginArray => ['[']
    case EndArray => [']']
    case NameSeparator => [':']
    case ValueSeparator => [',']
    case TrueToken => TRUE_TEXT
    case FalseToken => FALSE_TEXT
    case NullToken => NULL_TEXT
    case StringToken(s) => Quoted(s)
    case NumberToken(s) => s
    case Invalid => []
  }

  /** A token and the blanks before it. */
  datatype Piece = Piece(blanks: Text, token: Token)

  predicate PieceOk(p: Piece) {
    Blank(p.blanks) && !p.token.Invalid? && TokenOk(p.token)
  }

  function Flat(ps: seq<Piece>, tail: Text): Text {
    if ps == [] then tail else ps[0].blanks + Spell(ps[0].token) + Flat(ps[1..], tail)
  }

  function TokensOf(ps: seq<Piece>): seq<Token> {
    if ps == [] then [] else [ps[0].token] + TokensOf(ps[1..])
  }

  /** What may stand behind a number. */
  predicate Ends(s: Text) {
    s != [] && (IsBlank(s[0]) || IsCloser(s[0]))
  }

  /** Well formed pieces, numbers followed by a blank or a closing character. */
  predicate Lexemes(ps: seq<Piece>, tail: Text) {
    ps == [] ||
    (PieceOk(ps[0]) && (ps[0].token.NumberToken? ==> Ends(Flat(ps[1..], tail))) && Lexemes(ps[1..], tail))
  }

  function AtRoot(line: nat): Lexer {
    Lexer(Root, [], line)
  }

  // ---- the line number does not matter ----

  function AtLine(x: Lexer, line: nat): Lexer {
    Lexer(x.state, x.text, line)
  }

  lemma LexAnyLine(x: Lexer, line: nat, c: Char)
    ensures match Lex(x, c)
            case More(y) => exists l: nat :: Lex(AtLine(x, line), c) == More(AtLine(y, l))
            case Emit(y, t, consumed) => Lex(AtLine(x, line), c) == Emit(AtLine(y, line), t, consumed)
  {
    if Lex(x, c).More? {
      var y := Lex(x, c).lexer;
      var l := if y.line == x.line then line else line + 1;
      assert Lex(AtLine(x, line), c) == More(AtLine(y, l));
    }
  }

  lemma {:induction false} TokensAnyLine(x: Lexer, line: nat, s: Text)
    ensures Tokens(AtLine(x, line), s) == Tokens(x, s)
    decreases |s|, if x.state.Root? then 0 else 1
  {
    hide Lex;
    if s != [] {
      LexAnyLine(x, line, s[0]);
      match Lex(x, s[0]) {
        case More(y) =>
          var l: nat :| Lex(AtLine(x, line), s[0]) == More(AtLine(y, l));
          TokensAnyLine(y, l, s[1..]);
        case Emit(y, t, consumed) =>
          if consumed {
            TokensAnyLine(y, line, s[1..]);
          } else if y.state.Root? && !x.state.Root? {
            TokensAnyLine(y, line, s);
          }
      }
    }
  }

  // ---- from lexemes to tokens ----

  lemma TokensMore(x: Lexer, s: Text, y: Lexer)
    requires s != [] && Lex(x, s[0]) == More(y)
    ensures Tokens(x, s) == Tokens(y, s[1..])
  {}

  lemma {:induction false} BlanksSkipped(line: nat, blanks: Text, rest: Text)
    requires Blank(blanks)
    ensures Tokens(AtRoot(line), blanks + rest) == Tokens(AtRoot(line), rest)
    decreases |blanks|
  {
    if blanks == [] {
      assert blanks + rest == rest;
    } else {
      var s := blanks + rest;
      assert s[0] == blanks[0] && s[1..] == blanks[1..] + rest;
      var l := if blanks[0] == '\n' || blanks[0] == '\r' then line + 1 else line;
      TokensMore(AtRoot(line), s, AtRoot(l));
      BlanksSkipped(l, blanks[1..], rest);
      TokensAnyLine(AtRoot(l), line, rest);
    }
  }

  lemma {:induction false} TokensCollect(x: Lexer, u: Text, rest: Text)
    requires !x.state.Root? && !IsKeyword(x.state) && !Collect(x.state, u).Root?
    ensures Tokens(x, u + rest) == Tokens(Lexer(Collect(x.state, u), x.text + u, x.line), rest)
    decreases |u|
  {
    hide Lex, Append, IsKeyword;
    if u == [] {
      assert u + rest == rest && x.text + u == x.text;
    } else {
      var y := Lexer(Append(x.state, u[0]), x.text + [u[0]], x.line);
      Collecting(x, u[0]);
      assert (u + rest)[0] == u[0] && (u + rest)[1..] == u[1..] + rest;
      TokensMore(x, u + rest, y);
      TokensCollect(y, u[1..], rest);
      assert x.text + [u[0]] + u[1..] == x.text + u;
    }
  }

  lemma StringLexed(line: nat, text: Text, rest: Text)
    requires StringBody(text)
    ensures Tokens(AtRoot(line), Quoted(text) + rest) == [StringToken(text)] + Tokens(AtRoot(line), rest)
  {
    var s := Quoted(text) + rest;
    var x, y := Lexer(Str, [], line), Lexer(Str, text, line);
    CollectsStrings(text);
    assert s[0] == '"' && s[1..] == text + (['"'] + rest);
    TokensMore(AtRoot(line), s, x);
    TokensCollect(x, text, ['"'] + rest);
    assert [] + text == text;
    assert (['"'] + rest)[1..] == rest;
    assert Lex(y, '"') == Emit(AtRoot(line), StringToken(text), true);
  }

  lemma NumberLexed(line: nat, text: Text, rest: Text)
    requires NumberText(text) && Ends(rest)
    ensures Tokens(AtRoot(line), text + rest) == [NumberToken(text)] + Tokens(AtRoot(line), rest)
  {
    FirstDigit(AtRoot(line), text);
    var x := Lexer(Append(Root, text[0]), [text[0]], line);
    var y := Lexer(Collect(Root, text), text, line);
    var s := text + rest;
    assert s[0] == text[0] && s[1..] == text[1..] + rest;
    TokensMore(AtRoot(line), s, x);
    TokensCollect(x, text[1..], rest);
    assert [text[0]] + text[1..] == text;
    assert Lex(y, rest[0]) == Emit(AtRoot(line), NumberToken(text), IsBlank(rest[0]));
    hide Collect, Append;
    if IsBlank(rest[0]) {
      assert rest == [rest[0]] + rest[1..];
      BlanksSkipped(line, [rest[0]], rest[1..]);
    }
  }

  lemma {:induction false} WordLexed(from: LexState, line: nat, s: Text, t: Token, rest: Text)
    requires IsKeyword(from) && Spells(from, s, t)
    ensures Tokens(Lexer(from, [], line), s + rest) == [t] + Tokens(AtRoot(line), rest)
    decreases |s|
  {
    var next := Keyword(from).1;
    assert (s + rest)[0] == s[0] && (s + rest)[1..] == s[1..] + rest;
    if !next.Root? {
      TokensMore(Lexer(from, [], line), s + rest, Lexer(next, [], line));
      WordLexed(next, line, s[1..], t, rest);
    } else {
      assert s[1..] + rest == rest;
    }
  }

  lemma KeywordLexed(line: nat, first: LexState, s: Text, t: Token, rest: Text)
    requires s != [] && Lex(AtRoot(line), s[0]) == More(Lexer(first, [], line)) && IsKeyword(first) && Spells(first, s[1..], t)
    ensures Tokens(AtRoot(line), s + rest) == [t] + Tokens(AtRoot(line), rest)
  {
    hide Lex;
    assert (s + rest)[0] == s[0] && (s + rest)[1..] == s[1..] + rest;
    TokensMore(AtRoot(line), s + rest, Lexer(first, [], line));
    WordLexed(first, line, s[1..], t, rest);
  }

  lemma KeywordsSpelled()
    ensures Spells(True1, TRUE_TEXT[1..], TrueToken) && Spells(False1, FALSE_TEXT[1..], FalseToken)
    ensures Spells(Null1, NULL_TEXT[1..], NullToken)
  {
    TrueSpelled();
    FalseSpelled();
    NullSpelled();
  }

  lemma SignLexed(line: nat, t: Token, rest: Text)
    requires t in {BeginObject, EndObject, BeginArray, EndArray, NameSeparator, ValueSeparator}
    ensures Tokens(AtRoot(line), Spell(t) + rest) == [t] + Tokens(AtRoot(line), rest)
  {
    var s := Spell(t) + rest;
    assert s[0] == Spell(t)[0] && s[1..] == rest;
  }

  /** A lexeme is read as its token. */
  lemma Lexed(line: nat, t: Token, rest: Text)
    requires !t.Invalid? && TokenOk(t) && (t.NumberToken? ==> Ends(rest))
    ensures Tokens(AtRoot(line), Spell(t) + rest) == [t] + Tokens(AtRoot(line), rest)
  {
    hide Tokens, Spells;
    KeywordsSpelled();
    match t {
      case StringToken(text) => StringLexed(line, text, rest);
      case NumberToken(text) => NumberLexed(line, text, rest);
      case TrueToken => KeywordLexed(line, True1, TRUE_TEXT, t, rest);
      case FalseToken => KeywordLexed(line, False1, FALSE_TEXT, t, rest);
      case NullToken => KeywordLexed(line, Null1, NULL_TEXT, t, rest);
      case _ => SignLexed(line, t, rest);
    }
  }

  /** Lexemes are read as their tokens. */
  lemma {:induction false} LexemesLexed(line: nat, ps: seq<Piece>, tail: Text)
    requires Lexemes(ps, tail)
    ensures Tokens(AtRoot(line), Flat(ps, tail)) == TokensOf(ps) + Tokens(AtRoot(line), tail)
    decreases |ps|
  {
    hide Tokens, Spell, TokenOk, Blank;
    if ps != [] {
      var rest := Flat(ps[1..], tail);
      Sum(ps[0].blanks, Spell(ps[0].token), rest);
      BlanksSkipped(line, ps[0].blanks, Spell(ps[0].token) + rest);
      Lexed(line, ps[0].token, rest);
      LexemesLexed(line, ps[1..], tail);
      Sum([ps[0].token], TokensOf(ps[1..]), Tokens(AtRoot(line), tail));
    }
  }

  // ---- from tokens to lexemes ----

  /** What has been read of the present lexeme. */
  function Begun(x: Lexer): Text {
    match x.state
    case Root => []
    case True1 => TRUE_TEXT[..1]
    case True2 => TRUE_TEXT[..2]
    case True3 => TRUE_TEXT[..3]
    case False1 => FALSE_TEXT[..1]
    case False2 => FALSE_TEXT[..2]
    case False3 => FALSE_TEXT[..3]
    case False4 => FALSE_TEXT[..4]
    case Null1 => NULL_TEXT[..1]
    case Null2 => NULL_TEXT[..2]
    case Null3 => NULL_TEXT[..3]
    case _ => if x.state in {Str, Esc, Hex1, Hex2, Hex3, Hex4} then ['"'] + x.text else x.text
  }

  lemma BegunMore(x: Lexer, c: Char)
    requires LexOk(x) && !x.state.Root? && Lex(x, c).More?
    ensures var y := Lex(x, c).lexer;
            LexOk(y) && !y.state.Root? && y.line == x.line && Begun(y) == Begun(x) + [c]
  {
    LexKeeps(x, c);
    hide Collect;
  }

  /** The end of a lexeme: by its last character, or for a number by the one behind it. */
  lemma BegunEnds(x: Lexer, c: Char)
    requires LexOk(x) && !x.state.Root? && Lex(x, c).Emit? && !Lex(x, c).token.Invalid?
    ensures var r := Lex(x, c);
            && r.lexer == AtRoot(x.line) && TokenOk(r.token)
            && (if r.token.NumberToken? then Spell(r.token) == Begun(x) && r.consumed == IsBlank(c) && Ends([c])
                else r.consumed && Spell(r.token) == Begun(x) + [c])
  {
    LexKeeps(x, c);
    hide Collect;
  }

  /** The rest of the lexeme that x is in: up to its token, or to the end of the text. */
  lemma {:induction false} RestOfLexeme(x: Lexer, s: Text) returns (u: Text, v: Text, ts: seq<Token>)
    requires LexOk(x) && !x.state.Root? && Invalid !in Tokens(x, s)
    ensures s == u + v && Tokens(x, s) == ts
    ensures ts == [] ==> Silent(x, s) && v == []
    ensures ts != [] ==> Spell(ts[0]) == Begun(x) + u && TokenOk(ts[0]) && (ts[0].NumberToken? ==> Ends(v))
    ensures ts != [] ==> ts[1..] == Tokens(AtRoot(x.line), v)
    decreases |s|
  {
    ts := Tokens(x, s);
    hide Lex, LexOk, Begun, Spell, TokenOk;
    if s == [] {
      u, v := [], [];
    } else {
      var c := s[0];
      match Lex(x, c) {
        case More(y) =>
          BegunMore(x, c);
          TokensMore(x, s, y);
          var w, rest;
          w, v, rest := RestOfLexeme(y, s[1..]);
          u := [c] + w;
          Sum([c], w, v);
          Sum(Begun(x), [c], w);
        case Emit(y, t, consumed) =>
          assert ts[0] == t;
          BegunEnds(x, c);
          if t.NumberToken? {
            NumberStops(x, s, t);
            u, v := [], s;
            assert Begun(x) + [] == Begun(x);
          } else {
            u, v := [c], s[1..];
          }
      }
    }
  }

  /** A number's token is followed by the tokens of what stands behind it. */
  lemma NumberStops(x: Lexer, s: Text, t: Token)
    requires s != [] && !x.state.Root? && t.NumberToken?
    requires Lex(x, s[0]) == Emit(AtRoot(x.line), t, IsBlank(s[0]))
    ensures Tokens(x, s) == [t] + Tokens(AtRoot(x.line), s)
  {
    hide Lex;
    if IsBlank(s[0]) {
      assert s == [s[0]] + s[1..];
      BlanksSkipped(x.line, [s[0]], s[1..]);
    }
  }

  lemma RootStep(line: nat, c: Char)
    ensures match Lex(AtRoot(line), c)
            case More(y) => if y.state.Root? then IsBlank(c) && y == AtRoot(y.line) else LexOk(y) && Begun(y) == [c]
            case Emit(y, t, consumed) => y == AtRoot(line) && consumed && (t.Invalid? || Spell(t) == [c]) && TokenOk(t) && !t.NumberToken?
  {
    LexKeeps(AtRoot(line), c);
  }

  /** Blanks in front of the first lexeme, or of the tail. */
  function Indented(c: Char, ps: seq<Piece>): seq<Piece>
    requires ps != []
  {
    [Piece([c] + ps[0].blanks, ps[0].token)] + ps[1..]
  }

  lemma IndentedOk(c: Char, ps: seq<Piece>, tail: Text)
    requires ps != [] && IsBlank(c) && Lexemes(ps, tail)
    ensures Lexemes(Indented(c, ps), tail) && TokensOf(Indented(c, ps)) == TokensOf(ps)
    ensures Flat(Indented(c, ps), tail) == [c] + Flat(ps, tail)
  {
    var qs := Indented(c, ps);
    assert qs[1..] == ps[1..];
    Sum([c], ps[0].blanks, Spell(ps[0].token));
    Sum([c], ps[0].blanks + Spell(ps[0].token), Flat(ps[1..], tail));
  }

  lemma SilentBlank(c: Char, tail: Text)
    requires IsBlank(c) && forall l: nat :: Silent(AtRoot(l), tail)
    ensures forall l: nat :: Silent(AtRoot(l), [c] + tail)
  {
    assert ([c] + tail)[1..] == tail;
    forall l: nat ensures Silent(AtRoot(l), [c] + tail) {
      var k := if c == '\n' || c == '\r' then l + 1 else l;
      assert Lex(AtRoot(l), c) == More(AtRoot(k)) && Silent(AtRoot(k), tail);
    }
  }

  lemma {:induction false} SilentAnyLine(x: Lexer, line: nat, s: Text)
    requires Silent(x, s)
    ensures Silent(AtLine(x, line), s)
    decreases |s|
  {
    hide Lex;
    if s != [] {
      LexAnyLine(x, line, s[0]);
      var l: nat :| Lex(AtLine(x, line), s[0]) == More(AtLine(Lex(x, s[0]).lexer, l));
      SilentAnyLine(Lex(x, s[0]).lexer, l, s[1..]);
    }
  }

  /** A text without invalid tokens is made of lexemes, with a tail that completes no token. */
  lemma {:induction false} LexemesFound(line: nat, s: Text) returns (ps: seq<Piece>, tail: Text)
    requires Invalid !in Tokens(AtRoot(line), s)
    ensures Lexemes(ps, tail) && s == Flat(ps, tail) && TokensOf(ps) == Tokens(AtRoot(line), s)
    ensures forall l: nat :: Silent(AtRoot(l), tail)
    decreases |s|
  {
    hide Lex, LexOk, Begun, Spell, TokenOk, Silent, Lexemes, Flat, TokensOf;
    if s == [] {
      ps, tail := [], [];
      NoPieces(tail);
      SilentNothing();
    } else {
      var c := s[0];
      assert s == [c] + s[1..];
      RootStep(line, c);
      match Lex(AtRoot(line), c) {
        case More(y) =>
          TokensMore(AtRoot(line), s, y);
          if y.state.Root? {
            ps, tail := LexemesFound(y.line, s[1..]);
            if ps == [] {
              NoPieces(tail);
              SilentBlank(c, tail);
              tail := [c] + tail;
              NoPieces(tail);
            } else {
              IndentedOk(c, ps, tail);
              ps := Indented(c, ps);
            }
          } else {
            ps, tail := AfterFirst(line, s, y);
          }
        case Emit(y, t, consumed) =>
          assert Tokens(AtRoot(line), s) == [t] + Tokens(y, s[1..]);
          ps, tail := LexemesFound(line, s[1..]);
          OneMorePiece(Piece([], t), ps, tail);
          ps := [Piece([], t)] + ps;
      }
    }
  }

  lemma {:induction false} AfterFirst(line: nat, s: Text, y: Lexer) returns (ps: seq<Piece>, tail: Text)
    requires s != [] && Invalid !in Tokens(AtRoot(line), s)
    requires Lex(AtRoot(line), s[0]) == More(y) && !y.state.Root? && LexOk(y) && Begun(y) == [s[0]]
    ensures Lexemes(ps, tail) && s == Flat(ps, tail) && TokensOf(ps) == Tokens(AtRoot(line), s)
    ensures forall l: nat :: Silent(AtRoot(l), tail)
    decreases |s|, 0
  {
    hide Lex, LexOk, Begun, Spell, TokenOk, Silent, Lexemes, Flat, TokensOf;
    TokensMore(AtRoot(line), s, y);
    var u, v, ts := RestOfLexeme(y, s[1..]);
    assert s == [s[0]] + s[1..];
    if ts == [] {
      ps, tail := [], s;
      NoPieces(tail);
      SilentFirst(line, s, y);
    } else {
      assert ts == [ts[0]] + ts[1..];
      ps, tail := LexemesFound(y.line, v);
      OneMorePiece(Piece([], ts[0]), ps, tail);
      ps := [Piece([], ts[0])] + ps;
      Sum([s[0]], u, v);
    }
  }

  lemma SilentFirst(line: nat, s: Text, y: Lexer)
    requires s != [] && Lex(AtRoot(line), s[0]) == More(y) && Silent(y, s[1..])
    ensures forall l: nat :: Silent(AtRoot(l), s)
  {
    hide Lex;
    assert Silent(AtRoot(line), s);
    forall l: nat ensures Silent(AtRoot(l), s) {
      SilentAnyLine(AtRoot(line), l, s);
    }
  }

  lemma SilentNothing()
    ensures forall l: nat :: Silent(AtRoot(l), [])
  {}

  lemma NoPieces(tail: Text)
    ensures Lexemes([], tail) && Flat([], tail) == tail && TokensOf([]) == []
  {}

  lemma OneMorePiece(p: Piece, ps: seq<Piece>, tail: Text)
    requires p.blanks == [] && !p.token.Invalid? && TokenOk(p.token) && Lexemes(ps, tail)
    requires p.token.NumberToken? ==> Ends(Flat(ps, tail))
    ensures Lexemes([p] + ps, tail) && TokensOf([p] + ps) == [p.token] + TokensOf(ps)
    ensures Flat([p] + ps, tail) == Spell(p.token) + Flat(ps, tail)
  {
    assert ([p] + ps)[1..] == ps;
    assert [] + Spell(p.token) == Spell(p.token);
  }
}
