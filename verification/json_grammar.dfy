/** Exactly which texts json_parse_document accepts, and as what. */
module JsonGrammar {
  import opened Common
  import opened JsonLexer
  import opened JsonTree
  import opened JsonParser
  import opened JsonParserInvariant
  import opened JsonReader
  import opened JsonRoundTrip
  import opened JsonFragments
  import opened JsonTokens
  import opened JsonLexemes

  /** A way to write a tree: comma says that an array ends in one more comma. */
  datatype Deriv = Deriv(kind: Kind, text: Text, kids: seq<Deriv>, comma: bool)

  function Forget(d: Deriv): Tree {
    Node(d.kind, d.text, ForgetAll(d.kids))
  }

  function ForgetAll(ds: seq<Deriv>): seq<Tree> {
    if ds == [] then [] else ForgetAll(ds[..|ds| - 1]) + [Forget(ds[|ds| - 1])]
  }

  /** Only a nonempty array may end in a comma. */
  predicate Proper(d: Deriv) {
    && (d.comma ==> d.kind.Array? && d.kids != [])
    && forall i :: 0 <= i < |d.kids| ==> Proper(d.kids[i])
  }

  // ---- sections 2, 4 and 5 of RFC 8259, and the comma ----

  function ValueWords(d: Deriv): seq<Token>
    decreases d, 0
  {
    match d.kind
    case String => [StringToken(d.text)]
    case Number => [NumberToken(d.text)]
    case True => [TrueToken]
    case False => [FalseToken]
    case Null => [NullToken]
    case Object => [BeginObject] + ListWords(d.kids, Object) + [EndObject]
    case Array => [BeginArray] + ListWords(d.kids, Array) + (if d.comma then [ValueSeparator] else []) + [EndArray]
  }

  /** A label, the colon and the value; the values of an array as they are. */
  function KidWords(d: Deriv, kind: Kind): seq<Token>
    decreases d, 1
  {
    if kind.Object? then
      [StringToken(d.text), NameSeparator] + if |d.kids| == 1 then ValueWords(d.kids[0]) else []
    else ValueWords(d)
  }

  function ListWords(ds: seq<Deriv>, kind: Kind): seq<Token>
    decreases ds, 2
  {
    if ds == [] then []
    else
      var n := |ds| - 1;
      ListWords(ds[..n], kind) + (if n == 0 then [] else [ValueSeparator]) + KidWords(ds[n], kind)
  }

  // ---- the words read so far, for every state of the parser ----

  /** An open node and what is finished of it; more says that a comma or colon has been read as well. */
  function FrameWords(d: Deriv, more: bool): seq<Token> {
    if d.kind.String? then [StringToken(d.text)] + if more then [NameSeparator] else []
    else [if d.kind.Object? then BeginObject else BeginArray] + ListWords(d.kids, d.kind) +
         if more && d.kids != [] then [ValueSeparator] else []
  }

  function StackWords(ds: seq<Deriv>, more: bool): seq<Token> {
    if ds == [] then [] else StackWords(ds[..|ds| - 1], true) + FrameWords(ds[|ds| - 1], more)
  }

  function ConfigWords(state: State, ds: seq<Deriv>): seq<Token> {
    match state
    case OpenObject => StackWords(ds, true) + [BeginObject]
    case OpenArray => StackWords(ds, true) + [BeginArray]
    case NextField => StackWords(ds, true)
    case BeforeValue => StackWords(ds, true)
    case InArray => StackWords(ds, true)
    case Done => if ds == [] then [] else ValueWords(ds[0])
    case _ => StackWords(ds, false)
  }

  /** Whether the innermost node has children already. */
  predicate Stage(state: State, ds: seq<Deriv>) {
    match state
    case Start => ds == []
    case InObject => ds != [] && ds[|ds| - 1].kids == []
    case AfterField => ds != [] && ds[|ds| - 1].kids != []
    case NextField => ds != [] && ds[|ds| - 1].kids != []
    case AfterItem => ds != [] && ds[|ds| - 1].kids != []
    case _ => true
  }

  /** The words of these derivations, open ones without the comma at their end, lead to p. */
  ghost predicate Matches(p: Parser, ts: seq<Token>, ds: seq<Deriv>) {
    && Inv(p) && ForgetAll(ds) == p.stack && ConfigWords(p.state, ds) == ts && Stage(p.state, ds)
    && (forall i :: 0 <= i < |ds| ==> Proper(ds[i]))
    && (!p.state.Done? ==> forall i :: 0 <= i < |ds| ==> !ds[i].comma)
  }

  lemma {:induction false} ForgetAt(ds: seq<Deriv>)
    ensures |ForgetAll(ds)| == |ds| && forall i :: 0 <= i < |ds| ==> ForgetAll(ds)[i] == Forget(ds[i])
    decreases |ds|
  {
    if ds != [] {
      ForgetAt(ds[..|ds| - 1]);
    }
  }

  lemma ForgetPush(ds: seq<Deriv>, d: Deriv)
    ensures ForgetAll(ds + [d]) == ForgetAll(ds) + [Forget(d)]
  {
    assert (ds + [d])[..|ds|] == ds;
  }

  lemma WordsPush(ds: seq<Deriv>, d: Deriv, more: bool)
    ensures StackWords(ds + [d], more) == StackWords(ds, true) + FrameWords(d, more)
  {
    assert (ds + [d])[..|ds|] == ds;
  }

  function GrowD(d: Deriv, kid: Deriv): Deriv {
    Deriv(d.kind, d.text, d.kids + [kid], d.comma)
  }

  lemma ForgetGrow(d: Deriv, kid: Deriv)
    ensures Forget(GrowD(d, kid)) == Grow(Forget(d), Forget(kid))
  {
    ForgetPush(d.kids, kid);
  }

  lemma ListPush(ds: seq<Deriv>, d: Deriv, kind: Kind)
    ensures ListWords(ds + [d], kind) == ListWords(ds, kind) + (if ds == [] then [] else [ValueSeparator]) + KidWords(d, kind)
  {
    assert (ds + [d])[..|ds|] == ds;
  }

  /** One more finished item or field. */
  lemma FrameGrow(d: Deriv, kid: Deriv)
    requires d.kind.Object? || d.kind.Array?
    ensures FrameWords(GrowD(d, kid), false) == FrameWords(d, true) + KidWords(kid, d.kind)
  {
    ListPush(d.kids, kid, d.kind);
    hide ListWords, KidWords;
  }

  /** A closing bracket makes a value of an open node. */
  lemma FrameClosed(d: Deriv, comma: bool)
    requires (d.kind.Object? || d.kind.Array?) && (comma ==> d.kind.Array? && d.kids != [])
    ensures ValueWords(Deriv(d.kind, d.text, d.kids, comma)) ==
            FrameWords(d, comma) + [if d.kind.Object? then EndObject else EndArray]
  {
    hide ListWords;
  }

  // ---- what is accepted has a derivation ----

  /** The stack after the value d was placed under the innermost node. */
  function PlacedUnder(ds: seq<Deriv>, d: Deriv): seq<Deriv>
    requires ds != []
  {
    var n := |ds| - 1;
    if ds[n].kind.String? && n > 0 then ds[..n - 1] + [GrowD(ds[n - 1], GrowD(ds[n], d))]
    else ds[..n] + [GrowD(ds[n], d)]
  }

  lemma PopForget(below: seq<Deriv>, host: Deriv, d: Deriv)
    ensures Pop(ForgetAll(below + [host]) + [Forget(d)]) == ForgetAll(below + [GrowD(host, d)])
  {
    ForgetPush(below, host);
    ForgetPush(below, GrowD(host, d));
    ForgetGrow(host, d);
    var s := ForgetAll(below);
    hide ForgetAll, Forget;
    assert Outer(s + [Forget(host)] + [Forget(d)]) == s + [Forget(host)] && Outer(s + [Forget(host)]) == s;
  }

  lemma PlacedInArray(below: seq<Deriv>, host: Deriv, d: Deriv)
    requires host.kind.Array?
    ensures StackWords(below + [GrowD(host, d)], false) == StackWords(below + [host], true) + ValueWords(d)
  {
    hide StackWords, FrameWords, ValueWords;
    WordsPush(below, host, true);
    WordsPush(below, GrowD(host, d), false);
    FrameGrow(host, d);
    Sum(StackWords(below, true), FrameWords(host, true), ValueWords(d));
  }

  lemma PlacedInLabel(below: seq<Deriv>, obj: Deriv, name: Deriv, d: Deriv)
    requires obj.kind.Object? && name.kind.String? && name.kids == []
    ensures StackWords(below + [GrowD(obj, GrowD(name, d))], false) ==
            StackWords(below + [obj] + [name], true) + ValueWords(d)
  {
    hide StackWords, FrameWords, ValueWords, KidWords;
    var field := GrowD(name, d);
    WordsPush(below + [obj], name, true);
    WordsPush(below, obj, true);
    WordsPush(below, GrowD(obj, field), false);
    FrameGrow(obj, field);
    FieldSpelled(name, d);
    Sum(StackWords(below, true), FrameWords(obj, true), FrameWords(name, true) + ValueWords(d));
    Sum(StackWords(below, true) + FrameWords(obj, true), FrameWords(name, true), ValueWords(d));
  }

  /** The words after a value are those before it and its own. */
  lemma PlacedWords(ds: seq<Deriv>, d: Deriv)
    requires ds != []
    requires var n := |ds| - 1;
             ds[n].kind.Array? || (ds[n].kind.String? && ds[n].kids == [] && n > 0 && ds[n - 1].kind.Object?)
    ensures |ForgetAll(ds)| == |ds|
    ensures var es := PlacedUnder(ds, d);
            && StackWords(es, false) == StackWords(ds, true) + ValueWords(d)
            && es != [] && es[|es| - 1].kids != []
            && ForgetAll(es) == (if ds[|ds| - 1].kind.Array? then Pop(ForgetAll(ds) + [Forget(d)])
                                 else Pop(Pop(ForgetAll(ds) + [Forget(d)])))
  {
    hide StackWords, ValueWords, ForgetAll, Forget, Pop;
    ForgetAt(ds);
    var n := |ds| - 1;
    var host := ds[n];
    assert ds == ds[..n] + [host];
    PopForget(ds[..n], host, d);
    if host.kind.Array? {
      PlacedInArray(ds[..n], host, d);
    } else {
      var below, obj, field := ds[..n - 1], ds[n - 1], GrowD(host, d);
      assert ds[..n] == below + [obj];
      PlacedInLabel(below, obj, host, d);
      PopForget(below, obj, field);
      ForgetPush(below + [obj], field);
    }
  }

  lemma FieldSpelled(name: Deriv, d: Deriv)
    requires name.kind.String? && name.kids == []
    ensures KidWords(GrowD(name, d), Object) == FrameWords(name, true) + ValueWords(d)
  {
    assert GrowD(name, d).kids == [d];
    assert FrameWords(name, true) == [StringToken(name.text), NameSeparator];
  }

  lemma TopForget(ds: seq<Deriv>)
    ensures |ForgetAll(ds)| == |ds|
    ensures ds != [] ==> Top(ForgetAll(ds)) == Forget(ds[|ds| - 1]) && Top(ForgetAll(ds)).kind == ds[|ds| - 1].kind
    ensures |ds| > 1 ==> Top(Outer(ForgetAll(ds))).kind == ds[|ds| - 2].kind
    ensures forall i :: 0 <= i < |ds| ==> ForgetAll(ds)[i].kind == ds[i].kind && |ForgetAll(ds)[i].kids| == |ds[i].kids|
  {
    ForgetAt(ds);
    forall i | 0 <= i < |ds| ensures |ForgetAll(ds)[i].kids| == |ds[i].kids| {
      ForgetAt(ds[i].kids);
    }
  }

  lemma ProperPlaced(ds: seq<Deriv>, d: Deriv)
    requires ds != [] && Proper(d) && forall i :: 0 <= i < |ds| ==> Proper(ds[i]) && !ds[i].comma
    ensures var es := PlacedUnder(ds, d); forall i :: 0 <= i < |es| ==> Proper(es[i]) && !es[i].comma
  {}

  /** States 1 and 7. */
  lemma EnterSound(p: Parser, ts: seq<Token>, ds: seq<Deriv>) returns (es: seq<Deriv>)
    requires Matches(p, ts, ds)
    ensures Enter(p).Running? && Reading(Enter(p).parser) && Matches(Enter(p).parser, ts, es)
  {
    EnterKeeps(p);
    EnteredIsSane(p);
    es := ds;
    if p.state.OpenObject? || p.state.OpenArray? {
      var d := Deriv(if p.state.OpenObject? then Object else Array, [], [], false);
      es := ds + [d];
      ForgetPush(ds, d);
      assert Forget(d) == Leaf(d.kind, []);
      WordsPush(ds, d, false);
      WordsPush(ds, d, true);
      hide Inv, StackWords, ForgetAll, Forget;
    }
  }

  /** Where a value may stand, as derivations. */
  lemma HostOf(p: Parser, ds: seq<Deriv>)
    requires Inv(p) && ForgetAll(ds) == p.stack && ds != []
    requires Top(p.stack).kind.Array? || Top(p.stack).kind.String?
    ensures var n := |ds| - 1;
            ds[n].kind.Array? || (ds[n].kind.String? && ds[n].kids == [] && n > 0 && ds[n - 1].kind.Object?)
  {
    TopForget(ds);
    var s := p.stack;
    assert Open(Top(s));
    if Top(s).kind.String? {
      assert |s| >= 2 && Nests(s[|s| - 2].kind, s[|s| - 1].kind);
    }
  }

  /** A value without children. */
  lemma LeafSound(p: Parser, ts: seq<Token>, ds: seq<Deriv>, t: Token, d: Deriv) returns (es: seq<Deriv>)
    requires Matches(p, ts, ds) && (p.state.BeforeValue? || p.state.InArray?)
    requires d == Deriv(d.kind, d.text, [], false) && ValueWords(d) == [t] && Put(p, d.kind, d.text).Running?
    requires Inv(Put(p, d.kind, d.text).parser)
    ensures Matches(Put(p, d.kind, d.text).parser, ts + [t], es)
  {
    hide Inv, StackWords, ForgetAll, Forget, Pop, Proper, PlacedUnder, ValueWords, ListWords;
    TopForget(ds);
    ValueState(p);
    HostOf(p, ds);
    PlacedWords(ds, d);
    ProperLeaf(d);
    ProperPlaced(ds, d);
    es := PlacedUnder(ds, d);
    LeafPopped(p.stack, d);
  }

  lemma ValueState(p: Parser)
    requires Inv(p) && (p.state.BeforeValue? || p.state.InArray?)
    ensures p.stack != [] && Top(p.stack).kind == if p.state.InArray? then Array else String
  {}

  lemma ProperLeaf(d: Deriv)
    requires d.kids == [] && !d.comma
    ensures Proper(d) && Forget(d) == Leaf(d.kind, d.text)
  {}

  lemma LeafPopped(s: Stack, d: Deriv)
    requires s != []
    ensures |Pop(s + [Forget(d)])| == |s|
  {}

  /** Where closing leads. */
  lemma CloseShape(p: Parser, ds: seq<Deriv>)
    requires Inv(p) && ForgetAll(ds) == p.stack && ds != [] && Close(p).Running? && p.state != Done
    requires ds[|ds| - 1].kind.Object? || ds[|ds| - 1].kind.Array?
    ensures |p.stack| == |ds|
    ensures Close(p).parser == if |ds| == 1 then Parser(Done, p.lexer, p.stack)
                               else if ds[|ds| - 2].kind.Array? then Parser(AfterItem, p.lexer, Pop(p.stack))
                               else Parser(AfterField, p.lexer, Pop(Pop(p.stack)))
  {
    hide Inv, ForgetAll, Pop, Outer, Top;
    TopForget(ds);
    if |ds| > 1 {
      BelowOf(p, ds);
      PopOnce(p.stack);
    }
  }

  /** The words of a closed node. */
  lemma CloseWords(below: seq<Deriv>, top: Deriv, comma: bool)
    requires (top.kind.Object? || top.kind.Array?) && (comma ==> top.kind.Array? && top.kids != [])
    ensures StackWords(below + [top], comma) + [if top.kind.Object? then EndObject else EndArray] ==
            StackWords(below, true) + ValueWords(Deriv(top.kind, top.text, top.kids, comma))
  {
    hide StackWords, FrameWords, ValueWords;
    WordsPush(below, top, comma);
    FrameClosed(top, comma);
    Sum(StackWords(below, true), FrameWords(top, comma), [if top.kind.Object? then EndObject else EndArray]);
  }

  /** The end of an object or array; comma says that one was read before it. */
  lemma CloseSound(p: Parser, ts: seq<Token>, ds: seq<Deriv>, comma: bool) returns (es: seq<Deriv>)
    requires Matches(p, ts, ds) && ds != [] && Close(p).Running? && Inv(Close(p).parser)
    requires var d := ds[|ds| - 1];
             && (d.kind.Object? || d.kind.Array?) && (comma ==> d.kind.Array? && d.kids != [])
             && ts == StackWords(ds, comma) && !p.state.Done?
    ensures Matches(Close(p).parser, ts + [if ds[|ds| - 1].kind.Object? then EndObject else EndArray], es)
  {
    hide Inv, StackWords, FrameWords, ForgetAll, Forget, Pop, Proper, PlacedUnder, ValueWords, Close;
    var n := |ds| - 1;
    var below, top := ds[..n], ds[n];
    var d := Deriv(top.kind, top.text, top.kids, comma);
    assert ds == below + [top];
    ForgetPush(below, top);
    SameForgotten(top, d);
    CloseShape(p, ds);
    CloseWords(below, top, comma);
    ProperClosed(top, d);
    if n == 0 {
      es := [d];
      OneClosed(d, p.stack);
      assert below == [];
      assert [] + ValueWords(d) == ValueWords(d);
    } else {
      BelowOf(p, ds);
      PlacedWords(below, d);
      ProperPlaced(below, d);
      es := PlacedUnder(below, d);
    }
  }

  lemma {:induction false} SameForgotten(top: Deriv, d: Deriv)
    requires d.kind == top.kind && d.text == top.text && d.kids == top.kids
    ensures Forget(d) == Forget(top)
  {}

  lemma ProperClosed(top: Deriv, d: Deriv)
    requires Proper(top) && d == Deriv(top.kind, top.text, top.kids, d.comma)
    requires d.comma ==> d.kind.Array? && d.kids != []
    ensures Proper(d)
  {}

  lemma {:induction false} OneClosed(d: Deriv, s: Stack)
    requires |s| == 1 && s[0] == Forget(d)
    ensures ForgetAll([d]) == s && StackWords([], true) == []
  {
    assert [d][..0] == [];
    assert ForgetAll([]) == [];
  }

  lemma PopOnce(s: Stack)
    requires |s| >= 2
    ensures |Pop(s)| == |s| - 1 && Top(Pop(s)).kind == Top(Outer(s)).kind
  {}

  /** What stands below an open object or array. */
  lemma BelowOf(p: Parser, ds: seq<Deriv>)
    requires Inv(p) && ForgetAll(ds) == p.stack && |ds| > 1
    requires ds[|ds| - 1].kind.Object? || ds[|ds| - 1].kind.Array?
    ensures var n := |ds| - 2;
            ds[n].kind.Array? || (ds[n].kind.String? && ds[n].kids == [] && n > 0 && ds[n - 1].kind.Object?)
  {
    TopForget(ds);
    var s := p.stack;
    assert Open(s[|s| - 2]) && Nests(s[|s| - 2].kind, s[|s| - 1].kind);
    if s[|s| - 2].kind.String? {
      assert |s| >= 3 && Nests(s[|s| - 3].kind, s[|s| - 2].kind);
    }
  }

  /** A label. */
  lemma LabelSound(p: Parser, ts: seq<Token>, ds: seq<Deriv>, text: Text) returns (es: seq<Deriv>)
    requires Matches(p, ts, ds) && ts == StackWords(ds, true) && !p.state.Done?
    requires Push(p, String, text, AfterLabel).Running? && Inv(Push(p, String, text, AfterLabel).parser)
    ensures Matches(Push(p, String, text, AfterLabel).parser, ts + [StringToken(text)], es)
  {
    hide Inv, StackWords, ForgetAll, Forget, Proper;
    var d := Deriv(String, text, [], false);
    es := ds + [d];
    ForgetPush(ds, d);
    ProperLeaf(d);
    WordsPush(ds, d, false);
    assert FrameWords(d, false) == [StringToken(text)];
  }

  /** A separator, or the beginning of an object or array. */
  lemma MoveSound(p: Parser, ts: seq<Token>, ds: seq<Deriv>, next: State, t: Token)
    requires Matches(p, ts, ds) && Inv(Parser(next, p.lexer, p.stack)) && !p.state.Done? && !next.Done?
    requires ConfigWords(next, ds) == ts + [t] && Stage(next, ds)
    ensures Matches(Parser(next, p.lexer, p.stack), ts + [t], ds)
  {
    hide Inv, StackWords, ForgetAll, Proper;
  }

  /** A comma or colon after the innermost node. */
  lemma SeparatorWords(ds: seq<Deriv>)
    requires ds != []
    ensures var d := ds[|ds| - 1];
            && (d.kind.String? ==> StackWords(ds, true) == StackWords(ds, false) + [NameSeparator])
            && (!d.kind.String? && d.kids != [] ==> StackWords(ds, true) == StackWords(ds, false) + [ValueSeparator])
            && (!d.kind.String? && d.kids == [] ==> StackWords(ds, true) == StackWords(ds, false))
  {
    var d := ds[|ds| - 1];
    var before := StackWords(ds[..|ds| - 1], true);
    assert StackWords(ds, true) == before + FrameWords(d, true);
    assert StackWords(ds, false) == before + FrameWords(d, false);
    hide StackWords;
    MoreWords(d);
    hide FrameWords;
    Sum(before, FrameWords(d, false), if d.kind.String? then [NameSeparator] else [ValueSeparator]);
  }

  lemma MoreWords(d: Deriv)
    ensures d.kind.String? ==> FrameWords(d, true) == FrameWords(d, false) + [NameSeparator]
    ensures !d.kind.String? && d.kids != [] ==> FrameWords(d, true) == FrameWords(d, false) + [ValueSeparator]
    ensures !d.kind.String? && d.kids == [] ==> FrameWords(d, true) == FrameWords(d, false)
  {}

  /** The kinds of the innermost node in the states that read a token. */
  lemma StateKind(p: Parser, ds: seq<Deriv>)
    requires Inv(p) && ForgetAll(ds) == p.stack && Reading(p) && !p.state.Start?
    ensures ds != [] && |p.stack| == |ds|
    ensures p.state in {InObject, AfterField, NextField} ==> ds[|ds| - 1].kind.Object?
    ensures p.state in {InArray, AfterItem} ==> ds[|ds| - 1].kind.Array?
    ensures p.state in {AfterLabel, BeforeValue} ==> ds[|ds| - 1].kind.String?
  {
    TopForget(ds);
  }

  lemma ValueSound(p: Parser, ts: seq<Token>, ds: seq<Deriv>, t: Token) returns (es: seq<Deriv>)
    requires Matches(p, ts, ds) && (p.state.BeforeValue? || p.state.InArray?) && TokenOk(t)
    requires ds != [] && p.stack != [] && TakeValue(p, t).Running? && Inv(TakeValue(p, t).parser)
    ensures Matches(TakeValue(p, t).parser, ts + [t], es)
  {
    hide Inv, StackWords, ForgetAll, Proper, Put, Matches;
    es := ds;
    match t {
      case StringToken(text) => es := LeafSound(p, ts, ds, t, Deriv(String, text, [], false));
      case NumberToken(text) => es := LeafSound(p, ts, ds, t, Deriv(Number, text, [], false));
      case TrueToken => es := LeafSound(p, ts, ds, t, Deriv(True, [], [], false));
      case FalseToken => es := LeafSound(p, ts, ds, t, Deriv(False, [], [], false));
      case NullToken => es := LeafSound(p, ts, ds, t, Deriv(Null, [], [], false));
      case BeginObject => BeginWords(p, ts, ds); MoveSound(p, ts, ds, OpenObject, t);
      case BeginArray => BeginWords(p, ts, ds); MoveSound(p, ts, ds, OpenArray, t);
      case _ =>
    }
  }

  lemma BeginWords(p: Parser, ts: seq<Token>, ds: seq<Deriv>)
    requires Matches(p, ts, ds) && (p.state.BeforeValue? || p.state.InArray?)
    ensures ts == StackWords(ds, true)
  {}

  /** Every token that is taken is a word of the derivations. */
  lemma TakeSound(p: Parser, ts: seq<Token>, ds: seq<Deriv>, t: Token) returns (es: seq<Deriv>)
    requires Matches(p, ts, ds) && Reading(p) && TokenOk(t) && Take(p, t).Running?
    ensures Matches(Take(p, t).parser, ts + [t], es)
  {
    hide Inv, StackWords, ForgetAll, Forget, Proper, Close, Push, TakeValue, Sane;
    TakeKeeps(p, t);
    es := ds;
    if p.state.Start? {
      NoWords(ds);
      MoveSound(p, ts, ds, OpenObject, t);
    } else {
      StateKind(p, ds);
      SeparatorWords(ds);
      match p.state {
        case InObject =>
          if t.StringToken? { es := LabelSound(p, ts, ds, t.text); } else { es := CloseSound(p, ts, ds, false); }
        case AfterField =>
          if t.ValueSeparator? { MoveSound(p, ts, ds, NextField, t); } else { es := CloseSound(p, ts, ds, false); }
        case NextField => es := LabelSound(p, ts, ds, t.text);
        case AfterLabel => MoveSound(p, ts, ds, BeforeValue, t);
        case BeforeValue => es := ValueSound(p, ts, ds, t);
        case InArray =>
          if t.EndArray? { es := CloseSound(p, ts, ds, ds[|ds| - 1].kids != []); } else { es := ValueSound(p, ts, ds, t); }
        case AfterItem =>
          if t.ValueSeparator? { MoveSound(p, ts, ds, InArray, t); } else { es := CloseSound(p, ts, ds, false); }
        case _ =>
      }
    }
  }

  lemma NoWords(ds: seq<Deriv>)
    requires ds == []
    ensures StackWords(ds, true) == [] == StackWords(ds, false)
  {}

  lemma {:induction false} TakeAllSound(p: Parser, ts: seq<Token>, ds: seq<Deriv>, rest: seq<Token>) returns (es: seq<Deriv>)
    requires Matches(p, ts, ds) && TakeAll(p, rest).Running? && forall i :: 0 <= i < |rest| ==> TokenOk(rest[i])
    ensures Matches(TakeAll(p, rest).parser, ts + rest, es)
    decreases |rest|
  {
    hide Matches, Take, Enter;
    if rest == [] {
      assert ts + rest == ts;
      es := ds;
    } else {
      var fs := EnterSound(p, ts, ds);
      var gs := TakeSound(Enter(p).parser, ts, fs, rest[0]);
      es := TakeAllSound(Take(Enter(p).parser, rest[0]).parser, ts + [rest[0]], gs, rest[1..]);
      assert ts + [rest[0]] + rest[1..] == ts + rest;
    }
  }

  // ---- every derivation is accepted ----

  lemma {:induction false} TakeAllSum(p: Parser, a: seq<Token>, b: seq<Token>)
    ensures TakeAll(p, a + b) == if TakeAll(p, a).Failed? then TakeAll(p, a) else TakeAll(TakeAll(p, a).parser, b)
    decreases |a|
  {
    hide Take, Enter;
    if a == [] {
      assert a + b == b;
    } else {
      assert (a + b)[0] == a[0] && (a + b)[1..] == a[1..] + b;
      if Enter(p).Running? {
        EnteredIsSane(p);
      }
      if Enter(p).Running? && Take(Enter(p).parser, a[0]).Running? {
        TakeAllSum(Take(Enter(p).parser, a[0]).parser, a[1..], b);
      }
    }
  }

  lemma TakeOne(p: Parser, t: Token)
    ensures Enter(p).Running? ==> TakeAll(p, [t]) == Take(Enter(p).parser, t)
  {
    hide Take, Enter;
    assert [t][1..] == [];
  }

  /** A step that ends in another state. */
  lemma TakenThen(p: Parser, a: seq<Token>, q: Parser, b: seq<Token>)
    requires TakeAll(p, a) == Running(q)
    ensures TakeAll(p, a + b) == TakeAll(q, b)
  {
    TakeAllSum(p, a, b);
  }

  /** After one more token. */
  lemma TakenOne(p: Parser, a: seq<Token>, q: Parser, t: Token, r: Parser)
    requires TakeAll(p, a) == Running(q) && Enter(q).Running? && Take(Enter(q).parser, t) == Running(r)
    ensures TakeAll(p, a + [t]) == Running(r)
  {
    hide Take, Enter;
    TakeOne(q, t);
    TakenThen(p, a, q, [t]);
  }

  function EmptyOf(kind: Kind): Tree {
    Leaf(kind, [])
  }

  /** The parser that has just entered a value of this kind at p. */
  function Entering(p: Parser, kind: Kind): Parser {
    Inner(p, if kind.Object? then InObject else InArray, EmptyOf(kind))
  }

  /** The tokens that open a value. */
  lemma OpenTaken(p: Parser, kind: Kind, rest: seq<Token>)
    requires Ready(p) && (kind.Object? || kind.Array?) && rest != []
    ensures TakeAll(p, [if kind.Object? then BeginObject else BeginArray] + rest) == TakeAll(Entering(p, kind), rest)
  {
    hide Chain;
    PlacedOpen(p);
    var t := if kind.Object? then BeginObject else BeginArray;
    var q := Parser(if kind.Object? then OpenObject else OpenArray, p.lexer, p.stack);
    assert Enter(p) == Running(p) && Take(p, t) == Running(q);
    assert Enter(q) == Running(Entering(p, kind)) && Enter(Entering(p, kind)) == Running(Entering(p, kind));
    hide Take, Enter;
    TakeOne(p, t);
    TakenThen(p, [t], q, rest);
  }

  /** The token that closes it. */
  lemma CloseTaken(p: Parser, state: State, t: Tree)
    requires Ready(p) && (t.kind.Object? || t.kind.Array?)
    requires if t.kind.Object? then state.AfterField? || state.InObject? else state.AfterItem? || state.InArray?
    ensures p.stack != [] && (p.state.InArray? || |p.stack| >= 2)
    ensures Enter(Inner(p, state, t)) == Running(Inner(p, state, t))
    ensures Take(Inner(p, state, t), if t.kind.Object? then EndObject else EndArray) == Running(Placing(p, t))
  {
    hide Close, Placing, Chain;
    CloseInside(p, state, t);
  }

  lemma ForgottenLeaf(d: Deriv)
    requires d.kind !in {Object, Array} && Value(Forget(d))
    ensures IsLeaf(Forget(d)) && ValueWords(d) == [LeafToken(Forget(d))]
  {}

  /** A derivation of a value is taken as that value. */
  lemma {:induction false} ValueTaken(p: Parser, d: Deriv)
    requires Ready(p) && Proper(d) && Value(Forget(d))
    ensures p.stack != [] && (p.state.InArray? || |p.stack| >= 2)
    ensures TakeAll(p, ValueWords(d)) == Running(Placing(p, Forget(d)))
    decreases d, 3
  {
    var t := Forget(d);
    if d.kind !in {Object, Array} {
      ForgottenLeaf(d);
      LeafPlaced(p, t);
      ReadyEntered(p);
      hide Take, Enter, Ready, Placing;
      TakeOne(p, LeafToken(t));
    } else {
      BranchTaken(p, d);
    }
  }

  lemma ReadyEntered(p: Parser)
    requires Ready(p)
    ensures Enter(p) == Running(p)
  {
    hide Chain;
  }

  lemma {:induction false} BranchTaken(p: Parser, d: Deriv)
    requires Ready(p) && Proper(d) && Value(Forget(d)) && (d.kind.Object? || d.kind.Array?)
    ensures p.stack != [] && (p.state.InArray? || |p.stack| >= 2)
    ensures TakeAll(p, ValueWords(d)) == Running(Placing(p, Forget(d)))
    decreases d, 2
  {
    var t := Forget(d);
    var start := Entering(p, d.kind);
    var open: Token := if d.kind.Object? then BeginObject else BeginArray;
    var end: Token := if d.kind.Object? then EndObject else EndArray;
    var list := ListWords(d.kids, d.kind);
    var comma: seq<Token> := if d.comma then [ValueSeparator] else [];
    assert ValueWords(d) == [open] + (list + comma + [end]);
    ForgottenKids(d);
    hide Take, Enter, Placing, Value, Chain, ListWords, ValueWords, Forget, Ready, Proper;
    OpenTaken(p, d.kind, list + comma + [end]);
    if d.kids == [] {
      NothingTaken(start, d.kind);
      assert list + comma == [];
      CloseTaken(p, start.state, t);
      TakenOne(start, [], start, end, Placing(p, t));
      assert list + comma + [end] == [] + [end];
    } else {
      ListTaken(p, d);
      var full := Inner(p, if d.kind.Object? then AfterField else AfterItem, t);
      if d.comma {
        var again := Inner(p, InArray, t);
        CommaTaken(p, t);
        TakenOne(start, list, full, ValueSeparator, again);
        CloseTaken(p, InArray, t);
        TakenOne(start, list + comma, again, end, Placing(p, t));
      } else {
        assert list + comma == list;
        CloseTaken(p, full.state, t);
        TakenOne(start, list, full, end, Placing(p, t));
      }
    }
  }

  lemma NothingTaken(p: Parser, kind: Kind)
    ensures ListWords([], kind) == [] && TakeAll(p, []) == Running(p)
  {}

  /** The kids of a forgotten derivation. */
  lemma ForgottenKids(d: Deriv)
    requires Value(Forget(d)) && (d.kind.Object? || d.kind.Array?) && Proper(d)
    ensures var t := Forget(d);
            && t == Node(d.kind, [], ForgetAll(d.kids)) && |t.kids| == |d.kids|
            && (d.kids == [] ==> t == EmptyOf(d.kind) && !d.comma)
            && (d.comma ==> d.kind.Array?)
            && forall i :: 0 <= i < |d.kids| ==>
                 t.kids[i] == Forget(d.kids[i]) && Proper(d.kids[i]) &&
                 if d.kind.Object? then Field(Forget(d.kids[i])) else Value(Forget(d.kids[i]))
  {
    ForgetAt(d.kids);
    hide StringBody, NumberText;
  }

  lemma CommaTaken(p: Parser, t: Tree)
    requires t.kind.Array?
    ensures var full := Inner(p, AfterItem, t);
            Enter(full) == Running(full) && Take(full, ValueSeparator) == Running(Inner(p, InArray, t))
  {}

  /** Fields or items with commas between them. */
  lemma {:induction false} ListTaken(p: Parser, d: Deriv)
    requires Hosts(p, d.kind) && Proper(d) && Value(Forget(d)) && (d.kind.Object? || d.kind.Array?) && d.kids != []
    ensures TakeAll(Entering(p, d.kind), ListWords(d.kids, d.kind)) ==
            Running(Inner(p, if d.kind.Object? then AfterField else AfterItem, Forget(d)))
    decreases d.kids, 2
  {
    var t := Forget(d);
    var n := |d.kids| - 1;
    var separator: seq<Token> := if n == 0 then [] else [ValueSeparator];
    ForgottenKids(d);
    FrontTaken(p, d);
    LastReady(p, t);
    LastKid(p.stack, t);
    KidTaken(BeforeLast(p, t), d.kind, d.kids[n]);
    assert ListWords(d.kids, d.kind) == ListWords(d.kids[..n], d.kind) + separator + KidWords(d.kids[n], d.kind);
    hide TakeAll, Value, Forget, ListWords, KidWords, Proper, Hosts;
    TakenThen(Entering(p, d.kind), ListWords(d.kids[..n], d.kind) + separator, BeforeLast(p, t), KidWords(d.kids[n], d.kind));
  }

  lemma {:induction false} FrontTaken(p: Parser, d: Deriv)
    requires Hosts(p, d.kind) && Proper(d) && Value(Forget(d)) && (d.kind.Object? || d.kind.Array?) && d.kids != []
    ensures Forget(d).kids != []
    ensures var n := |d.kids| - 1;
            TakeAll(Entering(p, d.kind), ListWords(d.kids[..n], d.kind) + (if n == 0 then [] else [ValueSeparator])) ==
            Running(BeforeLast(p, Forget(d)))
    decreases d.kids, 1
  {
    var n := |d.kids| - 1;
    var t := Forget(d);
    var front := Deriv(d.kind, d.text, d.kids[..n], false);
    ForgottenKids(d);
    FrontForgotten(d);
    hide Value, Forget, Proper, Hosts, TakeAll, Take, Enter;
    if n > 0 {
      ListTaken(p, front);
      var full := Inner(p, if d.kind.Object? then AfterField else AfterItem, Forget(front));
      SeparatorTaken(p, Forget(front));
      TakenOne(Entering(p, d.kind), ListWords(d.kids[..n], d.kind), full, ValueSeparator, BeforeLast(p, t));
    } else {
      NothingTaken(Entering(p, d.kind), d.kind);
      var none: seq<Token> := [];
      assert d.kids[..n] == [] && t.kids[..n] == [];
      assert ListWords(d.kids[..n], d.kind) + none == none;
    }
  }

  lemma FrontForgotten(d: Deriv)
    requires Value(Forget(d)) && Proper(d) && (d.kind.Object? || d.kind.Array?) && d.kids != []
    ensures var n := |d.kids| - 1;
            var front := Deriv(d.kind, d.text, d.kids[..n], false);
            && Proper(front) && Value(Forget(front)) && Forget(d).kids != []
            && |Forget(d).kids| == n + 1 && Forget(front) == Node(d.kind, [], Forget(d).kids[..n])
  {
    var n := |d.kids| - 1;
    var front := Deriv(d.kind, d.text, d.kids[..n], false);
    ForgetAt(d.kids);
    ForgetAt(d.kids[..n]);
    assert ForgetAll(d.kids)[..n] == ForgetAll(d.kids[..n]);
    assert forall i :: 0 <= i < n ==> front.kids[i] == d.kids[i];
    hide StringBody, NumberText, Field;
  }

  lemma SeparatorTaken(p: Parser, t: Tree)
    requires t.kind.Array? || t.kind.Object?
    ensures var full := Inner(p, if t.kind.Object? then AfterField else AfterItem, t);
            && Enter(full) == Running(full)
            && Take(full, ValueSeparator) == Running(Inner(p, if t.kind.Object? then NextField else InArray, t))
  {}

  /** One field or item. */
  lemma {:induction false} KidTaken(q: Parser, kind: Kind, d: Deriv)
    requires Between(q, kind) && Proper(d) && if kind.Object? then Field(Forget(d)) else Value(Forget(d))
    ensures TakeAll(q, KidWords(d, kind)) ==
            Running(Parser(if kind.Object? then AfterField else AfterItem, q.lexer,
                           Outer(q.stack) + [Grow(Top(q.stack), Forget(d))]))
    decreases d, 4
  {
    if kind.Array? {
      ArrayKidReady(q, Forget(d));
      ValueTaken(q, d);
    } else {
      FieldTaken(q, d);
    }
  }

  lemma ArrayKidReady(q: Parser, t: Tree)
    requires Between(q, Array)
    ensures Ready(q) && Placing(q, t) == Parser(AfterItem, q.lexer, Outer(q.stack) + [Grow(Top(q.stack), t)])
  {
    assert Outer(q.stack + [t]) == q.stack;
    hide Chain;
  }

  lemma FieldKid(d: Deriv)
    requires Field(Forget(d)) && Proper(d)
    ensures |d.kids| == 1 && Proper(d.kids[0]) && Forget(d).kids[0] == Forget(d.kids[0]) && Value(Forget(d.kids[0]))
    ensures StringBody(d.text) && KidWords(d, Object) == [StringToken(d.text), NameSeparator] + ValueWords(d.kids[0])
  {
    ForgetAt(d.kids);
    hide StringBody, Value;
  }

  lemma {:induction false} FieldTaken(q: Parser, d: Deriv)
    requires Between(q, Object) && Proper(d) && Field(Forget(d))
    ensures TakeAll(q, KidWords(d, Object)) ==
            Running(Parser(AfterField, q.lexer, Outer(q.stack) + [Grow(Top(q.stack), Forget(d))]))
    decreases d, 3
  {
    FieldKid(d);
    var v := d.kids[0];
    var ready := Parser(BeforeValue, q.lexer, q.stack + [Leaf(String, d.text)]);
    LabelTaken(q, d.text);
    ValueTaken(ready, v);
    FieldPlaced(q, Forget(d));
    hide TakeAll, Between, Field, Forget, Proper, ValueWords, KidWords, Value;
    TakenThen(q, [StringToken(d.text), NameSeparator], ready, ValueWords(v));
  }

  lemma LabelTaken(q: Parser, text: Text)
    requires Between(q, Object) && StringBody(text)
    ensures var ready := Parser(BeforeValue, q.lexer, q.stack + [Leaf(String, text)]);
            Ready(ready) && TakeAll(q, [StringToken(text), NameSeparator]) == Running(ready)
  {
    var inside := Parser(AfterLabel, q.lexer, q.stack + [Leaf(String, text)]);
    var ready := Parser(BeforeValue, q.lexer, q.stack + [Leaf(String, text)]);
    PushKeeps(Parser(q.state, q.lexer, q.stack), String, text, AfterLabel);
    assert Enter(q) == Running(q) && Take(q, StringToken(text)) == Running(inside);
    assert Enter(inside) == Running(inside) && Take(inside, NameSeparator) == Running(ready);
    assert Sane(BeforeValue, ready.stack);
    hide Take, Enter, Chain, Sane;
    TakeOne(q, StringToken(text));
    TakenOne(q, [StringToken(text)], inside, NameSeparator, ready);
    assert [StringToken(text)] + [NameSeparator] == [StringToken(text), NameSeparator];
  }

  /** A derivation of a document is taken as that document. */
  lemma DocumentTaken(d: Deriv)
    requires Proper(d) && Document(Forget(d))
    ensures TakeAll(INITIAL, ValueWords(d)) == Running(Parser(Done, INITIAL.lexer, [Forget(d)]))
  {
    var t := Forget(d);
    var start := Entering(INITIAL, Object);
    var list := ListWords(d.kids, Object);
    var done := Parser(Done, INITIAL.lexer, [t]);
    assert ValueWords(d) == [BeginObject] + (list + [EndObject]);
    ForgottenKids(d);
    hide Value, Forget, Proper, ListWords, ValueWords;
    RootTaken(list + [EndObject]);
    if d.kids == [] {
      NothingTaken(start, Object);
      RootClosed(start.state, t);
      TakenOne(start, [], start, EndObject, done);
    } else {
      ListTaken(INITIAL, d);
      var full := Inner(INITIAL, AfterField, t);
      RootClosed(AfterField, t);
      TakenOne(start, list, full, EndObject, done);
    }
  }

  lemma RootTaken(rest: seq<Token>)
    requires rest != []
    ensures TakeAll(INITIAL, [BeginObject] + rest) == TakeAll(Entering(INITIAL, Object), rest)
  {
    var q := Parser(OpenObject, INITIAL.lexer, []);
    assert Enter(INITIAL) == Running(INITIAL) && Take(INITIAL, BeginObject) == Running(q);
    assert Enter(q) == Running(Entering(INITIAL, Object));
    assert Enter(Entering(INITIAL, Object)) == Running(Entering(INITIAL, Object));
    hide Take, Enter;
    TakeOne(INITIAL, BeginObject);
    TakenThen(INITIAL, [BeginObject], q, rest);
  }

  lemma RootClosed(state: State, t: Tree)
    requires t.kind.Object? && (state.AfterField? || state.InObject?)
    ensures var q := Inner(INITIAL, state, t);
            Enter(q) == Running(q) && Take(q, EndObject) == Running(Parser(Done, INITIAL.lexer, [t]))
  {
    assert [] + [t] == [t];
  }

  // ---- exactly the texts that are accepted ----

  /** The text is a sequence of lexemes with these tokens, with blanks around them; at its end
      it may begin one more lexeme that is not complete. */
  ghost predicate Spelled(ts: seq<Token>, s: Text) {
    exists ps: seq<Piece>, tail: Text ::
      Lexemes(ps, tail) && TokensOf(ps) == ts && Flat(ps, tail) == s && Silent(AtRoot(1), tail)
  }

  ghost predicate Derives(d: Deriv, t: Tree, s: Text) {
    Proper(d) && Forget(d) == t && Document(t) && Spelled(ValueWords(d), s)
  }

  lemma {:induction false} InvalidFails(p: Parser, ts: seq<Token>)
    requires TakeAll(p, ts).Running?
    ensures Invalid !in ts
    decreases |ts|
  {
    hide Take, Enter, Reading;
    if ts != [] {
      EnteredIsSane(p);
      ReadingRejects(Enter(p).parser);
      InvalidFails(Take(Enter(p).parser, ts[0]).parser, ts[1..]);
    }
  }

  lemma ReadingRejects(p: Parser)
    requires Reading(p)
    ensures Sane(p.state, p.stack) && Take(p, Invalid).Failed?
  {
    Rejects(p);
  }

  lemma {:induction false} LexemesOk(ps: seq<Piece>, tail: Text)
    requires Lexemes(ps, tail)
    ensures forall i :: 0 <= i < |TokensOf(ps)| ==> TokenOk(TokensOf(ps)[i])
    decreases |ps|
  {
    hide TokenOk, Blank, Flat;
    if ps != [] {
      LexemesOk(ps[1..], tail);
    }
  }

  lemma {:induction false} SilentIsEmpty(x: Lexer, s: Text)
    requires Silent(x, s)
    ensures Tokens(x, s) == []
    decreases |s|
  {
    hide Lex;
    if s != [] {
      SilentIsEmpty(Lex(x, s[0]).lexer, s[1..]);
    }
  }

  /** A document was read exactly if its tokens were taken to the end. */
  lemma OkIsTaken(s: Text, t: Tree)
    ensures ParseDocument(s) == Ok(t) <==>
            var r := TakeAll(INITIAL, Tokens(AtRoot(1), s));
            r.Running? && r.parser.state.Done? && r.parser.stack == [t]
  {
    RunIsTakeAll(INITIAL, s);
    NoTreeErrors(s);
    hide Run, TakeAll, Tokens, LexOk, Chain;
    var r := TakeAll(INITIAL, Tokens(AtRoot(1), s));
    assert AtRoot(1) == INITIAL.lexer;
    DoneCore(Run(INITIAL, s), t);
    DoneCore(r, t);
  }

  lemma DoneCore(o: Outcome, t: Tree)
    ensures (o.Running? && o.parser.state.Done? && o.parser.stack == [t]) <==>
            Core(o) == Running(Parser(Done, INITIAL.lexer, [t]))
  {
  }

  /** json_parse_document accepts a text as the document t exactly if the text spells a derivation
      of t: sections 2, 4, 5, 6 and 7 of RFC 8259 with an object at the root, and besides that one
      comma at the end of nonempty arrays, and an incomplete lexeme at the end of the text. */
  lemma AcceptedExactly(s: Text, t: Tree)
    ensures ParseDocument(s) == Ok(t) <==> exists d :: Derives(d, t, s)
  {
    if ParseDocument(s) == Ok(t) {
      var d := DerivationFound(s, t);
      assert Derives(d, t, s);
    }
    if exists d :: Derives(d, t, s) {
      var d :| Derives(d, t, s);
      DerivationRead(d, t, s);
    }
  }

  lemma DerivationFound(s: Text, t: Tree) returns (d: Deriv)
    requires ParseDocument(s) == Ok(t)
    ensures Derives(d, t, s)
  {
    hide ParseDocument, Tokens, TakeAll, Proper, Forget, ForgetAll, ValueWords, Document, Lexemes, Flat, Silent, TokenOk;
    AcceptedIsDocument(s);
    OkIsTaken(s, t);
    var ts := Tokens(AtRoot(1), s);
    InvalidFails(INITIAL, ts);
    var ps, tail := LexemesFound(1, s);
    LexemesOk(ps, tail);
    NothingMatches();
    var es := TakeAllSound(INITIAL, [], [], ts);
    assert [] + ts == ts;
    d := DoneMatches(TakeAll(INITIAL, ts).parser, ts, es);
    assert Spelled(ts, s);
  }

  lemma NothingMatches()
    ensures Matches(INITIAL, [], [])
  {}

  lemma DoneMatches(p: Parser, ts: seq<Token>, ds: seq<Deriv>) returns (d: Deriv)
    requires Matches(p, ts, ds) && p.state.Done?
    ensures |p.stack| == 1 && Proper(d) && Forget(d) == p.stack[0] && ValueWords(d) == ts
  {
    ForgetAt(ds);
    d := ds[0];
  }

  lemma DerivationRead(d: Deriv, t: Tree, s: Text)
    requires Derives(d, t, s)
    ensures ParseDocument(s) == Ok(t)
  {
    hide ParseDocument, Tokens, TakeAll, Proper, Forget, ForgetAll, ValueWords, Document, Lexemes, Flat, Silent, TokensOf;
    var ts := ValueWords(d);
    var ps: seq<Piece>, tail: Text :|
      Lexemes(ps, tail) && TokensOf(ps) == ts && Flat(ps, tail) == s && Silent(AtRoot(1), tail);
    LexemesLexed(1, ps, tail);
    SilentIsEmpty(AtRoot(1), tail);
    assert ts + [] == ts;
    DocumentTaken(d);
    OkIsTaken(s, t);
  }
}
