/** The 25-state lexer of json.c, one character at a time, and what it accepts. */
module JsonLexer {
  import opened Common

  /** A character of a C string: any byte but the terminating zero. */
  type Char = c: char | 0 < c as int < 256 witness ' '
  type Text = seq<Char>

  /** The values of lex_state, 0 to 24 in this order. */
  datatype LexState =
    | Root | Str | Esc | Hex1 | Hex2 | Hex3 | Hex4
    | True1 | True2 | True3 | False1 | False2 | False3 | False4 | Null1 | Null2 | Null3
    | Minus | Zero | Int | Dot | Frac | ExpStart | ExpSign | Exp

  datatype Token =
    | Invalid | TrueToken | FalseToken | NullToken
    | BeginObject | EndObject | BeginArray | EndArray | NameSeparator | ValueSeparator
    | StringToken(text: Text) | NumberToken(text: Text)

  /** lex_state, lex_text and line. */
  datatype Lexer = Lexer(state: LexState, text: Text, line: nat)

  /** One character seen: either go on, or a token, which may leave the character unread. */
  datatype LexStep = More(lexer: Lexer) | Emit(lexer: Lexer, token: Token, consumed: bool)

  predicate IsDigit(c: Char) {
    '0' <= c <= '9'
  }

  predicate IsBlank(c: Char) {
    c == ' ' || c == '\t' || c == '\n' || c == '\r'
  }

  predicate IsCloser(c: Char) {
    c == ']' || c == '}' || c == ','
  }

  predicate IsNumberEnd(s: LexState) {
    s == Zero || s == Int || s == Frac || s == Exp
  }

  /** The transitions that append the character to lex_text. */
  function Append(s: LexState, c: Char): (r: LexState)
    // Root stands for "no such transition"
  {
    match s
    case Str => if c == '\\' then Esc else if c >= ' ' && c != '"' then Str else Root
    case Esc => if c == 'u' then Hex1
                else if c in {'\\', '"', '/', 'b', 'f', 'n', 'r', 't'} then Str else Root
    case Hex1 => if IsHex(c) then Hex2 else Root
    case Hex2 => if IsHex(c) then Hex3 else Root
    case Hex3 => if IsHex(c) then Hex4 else Root
    case Hex4 => if IsHex(c) then Str else Root
    case Root => if c == '-' then Minus else if c == '0' then Zero else if IsDigit(c) then Int else Root
    case Minus => if c == '0' then Zero else if IsDigit(c) then Int else Root
    case Zero => if c == '.' then Dot else if c == 'e' || c == 'E' then ExpStart else Root
    case Int => if c == '.' then Dot else if c == 'e' || c == 'E' then ExpStart else if IsDigit(c) then Int else Root
    case Dot => if IsDigit(c) then Frac else Root
    case Frac => if c == 'e' || c == 'E' then ExpStart else if IsDigit(c) then Frac else Root
    case ExpStart => if c == '-' || c == '+' then ExpSign else if IsDigit(c) then Exp else Root
    case ExpSign => if IsDigit(c) then Exp else Root
    case Exp => if IsDigit(c) then Exp else Root
    case _ => Root
  }

  /** The letter a keyword state waits for, and where it leads; Root with a token at the end. */
  function Keyword(s: LexState): (char, LexState, Token) {
    match s
    case True1 => ('r', True2, Invalid)
    case True2 => ('u', True3, Invalid)
    case True3 => ('e', Root, TrueToken)
    case False1 => ('a', False2, Invalid)
    case False2 => ('l', False3, Invalid)
    case False3 => ('s', False4, Invalid)
    case False4 => ('e', Root, FalseToken)
    case Null1 => ('u', Null2, Invalid)
    case Null2 => ('l', Null3, Invalid)
    case _ => ('l', Root, NullToken)
  }

  predicate IsKeyword(s: LexState) {
    s in {True1, True2, True3, False1, False2, False3, False4, Null1, Null2, Null3}
  }

  /** One turn of the loop in lexer. */
  function Lex(x: Lexer, c: Char): LexStep {
    if x.state.Root? then
      if c == ' ' || c == '\t' then More(x)
      else if c == '\n' || c == '\r' then More(x.(line := x.line + 1))
      else if c == '{' then Emit(x, BeginObject, true)
      else if c == '}' then Emit(x, EndObject, true)
      else if c == '[' then Emit(x, BeginArray, true)
      else if c == ']' then Emit(x, EndArray, true)
      else if c == ':' then Emit(x, NameSeparator, true)
      else if c == ',' then Emit(x, ValueSeparator, true)
      else if c == '"' then More(x.(state := Str, text := []))
      else if c == 't' then More(x.(state := True1))
      else if c == 'f' then More(x.(state := False1))
      else if c == 'n' then More(x.(state := Null1))
      else if c == '-' || IsDigit(c) then More(x.(state := Append(Root, c), text := [c]))
      else Emit(x, Invalid, true)
    else if IsKeyword(x.state) then
      var (letter, next, token) := Keyword(x.state);
      if c != letter then Emit(x, Invalid, true)
      else if next.Root? then Emit(x.(state := Root), token, true)
      else More(x.(state := next))
    else if x.state.Str? && c == '"' then Emit(x.(state := Root, text := []), StringToken(x.text), true)
    else if IsNumberEnd(x.state) && (IsBlank(c) || IsCloser(c)) then
      Emit(x.(state := Root, text := []), NumberToken(x.text), IsBlank(c))
    else if Append(x.state, c).Root? then Emit(x, Invalid, false)
    else More(x.(state := Append(x.state, c), text := x.text + [c]))
  }

  // ---- the texts the lexer collects, against sections 6 and 7 of RFC 8259 ----

  /** Where appending s leads, Root when some character does not fit. */
  function Collect(from: LexState, s: Text): LexState
    decreases |s|
  {
    if s == [] then from
    else if Append(from, s[0]).Root? then Root
    else Collect(Append(from, s[0]), s[1..])
  }

  lemma {:induction false} CollectSum(from: LexState, s: Text, t: Text)
    ensures Collect(from, s + t) ==
            if s != [] && Collect(from, s).Root? then Root else Collect(Collect(from, s), t)
    decreases |s|
  {
    if s == [] {
      assert s + t == t;
    } else {
      assert (s + t)[1..] == s[1..] + t && (s + t)[0] == s[0];
      if !Append(from, s[0]).Root? {
        CollectSum(Append(from, s[0]), s[1..], t);
      }
    }
  }

  /** char* without the quotes: unescaped characters and escapes. */
  predicate StringBody(s: Text) {
    if s == [] then true
    else if s[0] == '\\' then
      |s| >= 2 && (
        if s[1] == 'u' then |s| >= 6 && IsHex(s[2]) && IsHex(s[3]) && IsHex(s[4]) && IsHex(s[5]) && StringBody(s[6..])
        else s[1] in {'"', '\\', '/', 'b', 'f', 'n', 'r', 't'} && StringBody(s[2..]))
    else s[0] >= ' ' && s[0] != '"' && StringBody(s[1..])
  }

  lemma {:induction false} CollectsStrings(s: Text)
    ensures Collect(Str, s) == Str <==> StringBody(s)
    decreases |s|
  {
    if s != [] {
      if s[0] != '\\' {
        CollectsStrings(s[1..]);
      } else if |s| >= 2 {
        var t := s[1..];
        assert Collect(Str, s) == Collect(Esc, t);
        if s[1] != 'u' {
          CollectsStrings(s[2..]);
          assert t[1..] == s[2..];
        } else {
          CollectsHex(s);
          if |s| >= 6 {
            CollectsStrings(s[6..]);
          }
        }
      }
    }
  }

  lemma HexDigit(from: LexState, s: Text)
    requires from in {Hex1, Hex2, Hex3, Hex4}
    ensures Collect(from, s) == if s == [] then from else if !IsHex(s[0]) then Root else
                                Collect(if from.Hex1? then Hex2 else if from.Hex2? then Hex3 else
                                        if from.Hex3? then Hex4 else Str, s[1..])
  {}

  lemma CollectsHex(s: Text)
    requires |s| >= 2 && s[0] == '\\' && s[1] == 'u'
    ensures Collect(Str, s) == Str ==> |s| >= 6
    ensures |s| >= 6 ==> Collect(Str, s) == if IsHex(s[2]) && IsHex(s[3]) && IsHex(s[4]) && IsHex(s[5])
                                            then Collect(Str, s[6..]) else Root
  {
    assert Collect(Str, s) == Collect(Esc, s[1..]) == Collect(Hex1, s[2..]) by {
      assert s[1..][1..] == s[2..];
    }
    hide Collect;
    HexDigit(Hex1, s[2..]);
    if |s| >= 3 {
      assert s[2..][1..] == s[3..];
      HexDigit(Hex2, s[3..]);
    }
    if |s| >= 4 {
      assert s[3..][1..] == s[4..];
      HexDigit(Hex3, s[4..]);
    }
    if |s| >= 5 {
      assert s[4..][1..] == s[5..];
      HexDigit(Hex4, s[5..]);
    }
    if |s| >= 6 {
      assert s[5..][1..] == s[6..];
    }
  }

  predicate Digits(s: Text) {
    forall i :: 0 <= i < |s| ==> IsDigit(s[i])
  }

  /** int = zero / digit1-9 *DIGIT, with an optional minus. */
  predicate IntPart(s: Text) {
    if s != [] && s[0] == '-' then Natural(s[1..]) else Natural(s)
  }

  predicate Natural(s: Text) {
    s == "0" || (s != [] && s[0] != '0' && Digits(s))
  }

  /** frac = decimal-point 1*DIGIT, or nothing. */
  predicate FracPart(s: Text) {
    s == [] || (|s| >= 2 && s[0] == '.' && Digits(s[1..]))
  }

  /** exp = e [ minus / plus ] 1*DIGIT, or nothing. */
  predicate ExpPart(s: Text) {
    s == [] || (|s| >= 2 && (s[0] == 'e' || s[0] == 'E') && (
      if s[1] == '+' || s[1] == '-' then |s| >= 3 && Digits(s[2..]) else Digits(s[1..])))
  }

  ghost predicate Number(s: Text) {
    exists i: Text, f: Text, e: Text :: s == i + f + e && IntPart(i) && FracPart(f) && ExpPart(e)
  }

  lemma {:induction false} DigitsStay(from: LexState, s: Text)
    requires from in {Int, Frac, Exp} && Digits(s)
    ensures Collect(from, s) == from
    decreases |s|
  {
    if s != [] {
      DigitsStay(from, s[1..]);
    }
  }

  lemma NaturalCollected(from: LexState, s: Text)
    requires from in {Root, Minus} && Natural(s)
    ensures Collect(from, s) in {Zero, Int}
  {
    assert Collect(from, s) == Collect(Append(from, s[0]), s[1..]);
    if s[0] != '0' {
      DigitsStay(Int, s[1..]);
    }
  }

  lemma IntCollected(s: Text)
    requires IntPart(s)
    ensures Collect(Root, s) in {Zero, Int}
  {
    if s[0] == '-' {
      assert Collect(Root, s) == Collect(Minus, s[1..]);
      NaturalCollected(Minus, s[1..]);
    } else {
      NaturalCollected(Root, s);
    }
  }

  lemma FracCollected(from: LexState, s: Text)
    requires from in {Zero, Int} && FracPart(s)
    ensures Collect(from, s) == if s == [] then from else Frac
  {
    if s != [] {
      var t := s[1..];
      assert Collect(from, s) == Collect(Dot, t) == Collect(Frac, t[1..]);
      DigitsStay(Frac, t[1..]);
    }
  }

  lemma ExpCollected(from: LexState, s: Text)
    requires from in {Zero, Int, Frac} && ExpPart(s)
    ensures Collect(from, s) == if s == [] then from else Exp
  {
    if s != [] {
      var t := s[1..];
      var u := t[1..];
      assert t[0] == s[1];
      assert Collect(from, s) == Collect(ExpStart, t);
      if s[1] == '+' || s[1] == '-' {
        assert u == s[2..];
        assert Collect(ExpStart, t) == Collect(ExpSign, u) == Collect(Exp, u[1..]);
        DigitsStay(Exp, u[1..]);
      } else {
        DigitsStay(Exp, u);
      }
    }
  }

  lemma NumbersAreCollected(i: Text, f: Text, e: Text)
    requires IntPart(i) && FracPart(f) && ExpPart(e)
    ensures IsNumberEnd(Collect(Root, i + f + e))
  {
    IntCollected(i);
    FracCollected(Collect(Root, i), f);
    ExpCollected(Collect(Collect(Root, i), f), e);
    CollectSum(Root, i, f);
    CollectSum(Root, i + f, e);
  }

  lemma {:induction false} OnlyDigits(s: Text)
    requires IsNumberEnd(Collect(Exp, s))
    ensures Digits(s)
    decreases |s|
  {
    if s != [] {
      OnlyDigits(s[1..]);
    }
  }

  /** After an e. */
  lemma ExpTail(x: Char, s: Text)
    requires (x == 'e' || x == 'E') && IsNumberEnd(Collect(ExpStart, s))
    ensures ExpPart([x] + s)
  {
    var t, u := [x] + s, s[1..];
    assert t[1..] == s && t[1] == s[0];
    if s[0] == '-' || s[0] == '+' {
      assert t[2..] == u;
      assert IsNumberEnd(Collect(ExpSign, u));
      assert u != [] && IsDigit(u[0]);
      OnlyDigits(u[1..]);
    } else {
      OnlyDigits(u);
    }
  }

  lemma {:induction false} FracTail(s: Text) returns (d: Text, e: Text)
    requires IsNumberEnd(Collect(Frac, s))
    ensures s == d + e && Digits(d) && ExpPart(e)
    decreases |s|
  {
    if s == [] {
      d, e := [], [];
    } else if IsDigit(s[0]) {
      d, e := FracTail(s[1..]);
      d := [s[0]] + d;
    } else {
      ExpTail(s[0], s[1..]);
      d, e := [], s;
      assert [s[0]] + s[1..] == s;
    }
  }

  lemma DotTail(s: Text) returns (f: Text, e: Text)
    requires IsNumberEnd(Collect(Dot, s))
    ensures ['.'] + s == f + e && FracPart(f) && ExpPart(e)
  {
    var d;
    d, e := FracTail(s[1..]);
    f := ['.', s[0]] + d;
    assert f[1..] == [s[0]] + d;
    assert s == [s[0]] + (d + e);
  }

  lemma {:induction false} IntTail(from: LexState, s: Text) returns (d: Text, f: Text, e: Text)
    requires from in {Zero, Int} && IsNumberEnd(Collect(from, s))
    ensures s == d + f + e && Digits(d) && (from.Zero? ==> d == []) && FracPart(f) && ExpPart(e)
    decreases |s|
  {
    if s == [] {
      d, f, e := [], [], [];
    } else if s[0] == '.' {
      f, e := DotTail(s[1..]);
      d := [];
      assert s == ['.'] + s[1..];
    } else if s[0] == 'e' || s[0] == 'E' {
      ExpTail(s[0], s[1..]);
      d, f, e := [], [], s;
      assert [s[0]] + s[1..] == s;
    } else {
      d, f, e := IntTail(from, s[1..]);
      assert s == [s[0]] + (d + f + e) == ([s[0]] + d) + f + e;
      d := [s[0]] + d;
    }
  }

  lemma FromNatural(from: LexState, s: Text) returns (n: Text, f: Text, e: Text)
    requires from in {Root, Minus} && IsNumberEnd(Collect(from, s)) && (from.Root? ==> s[0] != '-')
    ensures s == n + f + e && Natural(n) && FracPart(f) && ExpPart(e)
  {
    var d;
    d, f, e := IntTail(if s[0] == '0' then Zero else Int, s[1..]);
    n := [s[0]] + d;
    Cons(s, d, f, e);
  }

  lemma Cons(s: Text, d: Text, f: Text, e: Text)
    requires s != [] && s[1..] == d + f + e
    ensures s == ([s[0]] + d) + f + e
  {}

  /** The number states accept exactly the numbers of section 6. */
  lemma CollectsNumbers(s: Text)
    ensures s != [] && IsNumberEnd(Collect(Root, s)) <==> Number(s)
  {
    if Number(s) {
      var i: Text, f: Text, e: Text :| s == i + f + e && IntPart(i) && FracPart(f) && ExpPart(e);
      NumbersAreCollected(i, f, e);
    }
    if s != [] && IsNumberEnd(Collect(Root, s)) {
      if s[0] == '-' {
        var n, f, e := FromNatural(Minus, s[1..]);
        Cons(s, n, f, e);
        assert (['-'] + n)[1..] == n;
        assert IntPart([s[0]] + n);
      } else {
        var n, f, e := FromNatural(Root, s);
        assert IntPart(n);
      }
    }
  }
}
