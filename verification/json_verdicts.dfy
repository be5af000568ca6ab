/** What json_parse_fragment answers to any text, told from the grammar alone. */
module JsonVerdicts {
  import opened Common
  import opened JsonLexer
  import opened JsonTree
  import opened JsonParser
  import opened JsonParserInvariant
  import opened JsonReader
  import opened JsonRoundTrip
  import opened JsonFragments
  import opened JsonTokens
  import opened JsonLexemes
  import opened JsonGrammar

  predicate AllOk(ts: seq<Token>) {
    forall i :: 0 <= i < |ts| ==> TokenOk(ts[i])
  }

  /** The first words of some document. */
  ghost predicate Viable(ts: seq<Token>) {
    exists d :: Proper(d) && Document(Forget(d)) && ts <= ValueWords(d)
  }

  /** All the words of one. */
  ghost predicate Complete(ts: seq<Token>) {
    exists d :: Proper(d) && Document(Forget(d)) && ts == ValueWords(d)
  }

  // ---- whatever has been taken can be completed ----

  /** An upper bound of what is missing. */
  function Missing(p: Parser): nat {
    match p.state
    case Start => 6
    case OpenObject => 4 * |p.stack| + 5
    case OpenArray => 4 * |p.stack| + 5
    case NextField => 4 * |p.stack| + 6
    case AfterLabel => 4 * |p.stack| + 1
    case Done => 0
    case _ => 4 * |p.stack|
  }

  /** A token that brings the end nearer. */
  function Closer(p: Parser): Token {
    match p.state
    case Start => BeginObject
    case NextField => StringToken([])
    case AfterLabel => NameSeparator
    case BeforeValue => NullToken
    case InArray => EndArray
    case AfterItem => EndArray
    case _ => EndObject
  }

  lemma CloseNearer(p: Parser)
    requires Inv(p) && p.stack != [] && (Top(p.stack).kind.Object? || Top(p.stack).kind.Array?)
    ensures Close(p).Running? && Missing(Close(p).parser) < 4 * |p.stack|
  {
    CloseKeeps(p);
    hide Inv, Value, Field, Open, LexOk, Pop;
    if |p.stack| > 1 {
      PopLength(p.stack);
      if |Pop(p.stack)| > 1 {
        PopLength(Pop(p.stack));
      }
    }
  }

  lemma PutNearer(p: Parser)
    requires Inv(p) && p.state.BeforeValue?
    ensures Put(p, Null, []).Running? && Missing(Put(p, Null, []).parser) < 4 * |p.stack|
  {
    PutKeeps(p, Null, []);
    FieldDone(p.stack, Leaf(Null, []));
    hide Inv, Value, Field, Open, LexOk, Pop;
    PopLength(p.stack + [Leaf(Null, [])]);
  }

  lemma TakeNearer(p: Parser)
    requires Inv(p) && Reading(p) && !p.state.Done?
    ensures TokenOk(Closer(p)) && Take(p, Closer(p)).Running?
    ensures Inv(Take(p, Closer(p)).parser) && Missing(Take(p, Closer(p)).parser) < Missing(p)
  {
    assert TokenOk(Closer(p)) by {
      CollectsStrings([]);
    }
    TakeKeeps(p, Closer(p));
    if p.state in {InObject, AfterField, InArray, AfterItem} {
      CloseNearer(p);
    } else if p.state.BeforeValue? {
      PutNearer(p);
    }
    hide Inv, Close, Put, TokenOk;
  }

  lemma EnterNearer(p: Parser)
    requires Inv(p)
    ensures Enter(p).Running? && Inv(Enter(p).parser) && Reading(Enter(p).parser)
    ensures Missing(Enter(p).parser) <= Missing(p)
    ensures (Enter(p).parser.state.Done? <==> p.state.Done?) && (Enter(p).parser.state.Start? <==> p.state.Start?)
  {
    EnterKeeps(p);
    EnteredIsSane(p);
    hide Inv, Sane, Reading;
  }

  lemma {:induction false} Completed(p: Parser) returns (more: seq<Token>)
    requires Inv(p)
    ensures AllOk(more) && TakeAll(p, more).Running? && TakeAll(p, more).parser.state.Done?
    decreases Missing(p)
  {
    hide Inv, Take, Enter, Sane, Missing, Closer, TokenOk;
    more := [];
    if !p.state.Done? {
      EnterNearer(p);
      var q := Enter(p).parser;
      TakeNearer(q);
      var rest := Completed(Take(q, Closer(q)).parser);
      more := [Closer(q)] + rest;
      assert more[1..] == rest;
    }
  }

  lemma TakenMatches(ts: seq<Token>) returns (ds: seq<Deriv>)
    requires AllOk(ts) && TakeAll(INITIAL, ts).Running?
    ensures Matches(TakeAll(INITIAL, ts).parser, ts, ds)
  {
    hide Matches, TakeAll, TokenOk;
    NothingMatches();
    ds := TakeAllSound(INITIAL, [], [], ts);
    assert [] + ts == ts;
  }

  lemma MatchesInv(p: Parser, ts: seq<Token>, ds: seq<Deriv>)
    requires Matches(p, ts, ds)
    ensures Inv(p)
  {
    hide Inv;
  }

  lemma DoneIsDocument(p: Parser)
    requires Inv(p) && p.state.Done?
    ensures |p.stack| == 1 && Document(p.stack[0])
  {
    assert Open(p.stack[0]);
    OpenIsValue(p.stack[0]);
  }

  lemma DoneIsComplete(ts: seq<Token>) returns (d: Deriv)
    requires AllOk(ts) && TakeAll(INITIAL, ts).Running? && TakeAll(INITIAL, ts).parser.state.Done?
    ensures Proper(d) && Document(Forget(d)) && ts == ValueWords(d)
  {
    hide Matches, TakeAll, TokenOk, Proper, Forget, ValueWords, Inv, Document;
    var ds := TakenMatches(ts);
    var p := TakeAll(INITIAL, ts).parser;
    MatchesInv(p, ts, ds);
    DoneIsDocument(p);
    d := DoneMatches(p, ts, ds);
  }

  /** The parser goes on just as long as the tokens may begin a document, and is done just when they are one. */
  lemma ViableExactly(ts: seq<Token>)
    requires AllOk(ts)
    ensures TakeAll(INITIAL, ts).Running? <==> Viable(ts)
    ensures TakeAll(INITIAL, ts).Running? && TakeAll(INITIAL, ts).parser.state.Done? <==> Complete(ts)
  {
    hide TakeAll, TokenOk, Proper, Forget, ValueWords, Document, Inv, Matches;
    var o := TakeAll(INITIAL, ts);
    if o.Running? {
      var ds := TakenMatches(ts);
      MatchesInv(o.parser, ts, ds);
      var more := Completed(o.parser);
      TakeAllSum(INITIAL, ts, more);
      var d := DoneIsComplete(ts + more);
      assert ts <= ValueWords(d);
      if o.parser.state.Done? {
        var whole := DoneIsComplete(ts);
      }
    }
    if d :| Proper(d) && Document(Forget(d)) && ts <= ValueWords(d) {
      DocumentTaken(d);
      assert ValueWords(d) == ts + ValueWords(d)[|ts|..];
      TakeAllSum(INITIAL, ts, ValueWords(d)[|ts|..]);
    }
    if d :| Proper(d) && Document(Forget(d)) && ts == ValueWords(d) {
      DocumentTaken(d);
    }
  }

  // ---- which error ----

  /** The tokens behind which a value or a label must follow. */
  predicate Leads(t: Token) {
    t.ValueSeparator? || t.NameSeparator? || t.BeginArray?
  }

  predicate Awaiting(state: State) {
    state in {NextField, BeforeValue, OpenArray, InArray}
  }

  lemma LeadsToAwaiting(p: Parser, t: Token)
    requires Reading(p) && Take(p, t).Running?
    ensures Awaiting(Take(p, t).parser.state) <==> Leads(t)
    ensures !Take(p, t).parser.state.Start?
  {
    hide Accepts, Pop;
  }

  lemma AwaitingEntered(p: Parser)
    requires Enter(p).Running?
    ensures Awaiting(Enter(p).parser.state) <==> Awaiting(p.state)
  {}

  lemma {:induction false} LastLeads(p: Parser, ts: seq<Token>)
    requires ts != [] && TakeAll(p, ts).Running?
    ensures Awaiting(TakeAll(p, ts).parser.state) <==> Leads(ts[|ts| - 1])
    ensures !TakeAll(p, ts).parser.state.Start?
    decreases |ts|
  {
    hide Take, Enter, Reading, Leads, Awaiting;
    EnteredIsSane(p);
    var q := Enter(p).parser;
    LeadsToAwaiting(q, ts[0]);
    if |ts| > 1 {
      LastLeads(Take(q, ts[0]).parser, ts[1..]);
    } else {
      assert ts[1..] == [];
    }
  }

  function Problem(t: Token, leads: bool): Error {
    if t.Invalid? && leads then IllegalCharacter else Malformed
  }

  lemma ErrorTaken(p: Parser, t: Token)
    requires Inv(p) && Reading(p) && TokenOk(t) && Take(p, t).Failed?
    ensures Take(p, t).error == Problem(t, Awaiting(p.state))
  {
    TakeKeeps(p, t);
    hide Inv, Accepts, Pop, TokenOk;
    if p.state in {InObject, AfterField} && t.EndObject? {
      CloseNearer(p);
    } else if p.state in {InArray, AfterItem} && t.EndArray? {
      CloseNearer(p);
    }
    hide Close;
  }

  /** The first token that no document has there makes the parser fail, as an illegal character if it
      is one and stands behind a comma, a colon or an opening bracket, and as a malformed document otherwise. */
  lemma ErrorExactly(ts: seq<Token>, t: Token)
    requires AllOk(ts) && TokenOk(t) && Viable(ts) && !Viable(ts + [t])
    ensures TakeAll(INITIAL, ts + [t]) == Failed(Problem(t, ts != [] && Leads(ts[|ts| - 1])))
  {
    hide Viable, TakeAll, Take, Enter, TokenOk, Matches, Inv, Reading, Problem, Leads;
    ViableExactly(ts);
    ViableExactly(ts + [t]);
    TakeAllSum(INITIAL, ts, [t]);
    var p := TakeAll(INITIAL, ts).parser;
    var ds := TakenMatches(ts);
    MatchesInv(p, ts, ds);
    EnterNearer(p);
    TakeOne(p, t);
    ErrorTaken(Enter(p).parser, t);
    AwaitingEntered(p);
    if ts != [] {
      LastLeads(INITIAL, ts);
    } else {
      NothingTakenYet();
    }
  }

  lemma NothingTakenYet()
    ensures TakeAll(INITIAL, []) == Running(INITIAL) && !Awaiting(INITIAL.state)
  {}

  // ---- of a text ----

  lemma {:induction false} TokensOk(x: Lexer, s: Text, n: nat)
    requires LexOk(x) && n <= |Tokens(x, s)| && Invalid !in Tokens(x, s)[..n]
    ensures forall i :: 0 <= i <= n && i < |Tokens(x, s)| ==> TokenOk(Tokens(x, s)[i])
    decreases |s|, if x.state.Root? then 0 else 1
  {
    hide LexOk, TokenOk, Lex;
    if s != [] {
      LexKeeps(x, s[0]);
      LexUnread(x, s[0]);
      match Lex(x, s[0]) {
        case More(y) => TokensOk(y, s[1..], n);
        case Emit(y, t, consumed) =>
          if n > 0 {
            assert Tokens(x, s)[..n][0] == t;
            assert Tokens(x, s)[..n][1..] == Tokens(x, s)[1..][..n - 1];
            TokensOk(y, if consumed then s[1..] else s, n - 1);
          }
      }
    }
  }

  /** How many tokens are taken, and what all of them come to. */
  lemma {:induction false} FirstFailure(p: Parser, ts: seq<Token>) returns (n: nat)
    ensures n <= |ts| && TakeAll(p, ts[..n]).Running?
    ensures n < |ts| ==> TakeAll(p, ts[..n + 1]).Failed? && TakeAll(p, ts) == TakeAll(p, ts[..n + 1])
    decreases |ts|
  {
    hide TakeAll;
    n := |ts|;
    assert ts[..n] == ts;
    if TakeAll(p, ts).Failed? {
      NoTokens(p);
      var front := ts[..n - 1];
      var k := FirstFailure(p, front);
      assert ts == front + [ts[n - 1]];
      TakeAllSum(p, front, [ts[n - 1]]);
      if k < |front| {
        assert front[..k] == ts[..k] && front[..k + 1] == ts[..k + 1];
      } else {
        assert front[..k] == front;
      }
      n := k;
    }
  }

  lemma NoTokens(p: Parser)
    ensures forall ts :: TakeAll(p, ts).Failed? ==> ts != []
  {}

  /** The verdict on a text from its tokens: n of them may begin a document and no more. */
  function Answer(s: Text, ts: seq<Token>, n: nat, complete: bool): Code
    requires n <= |ts|
  {
    if n < |ts| then Err(Problem(ts[n], n > 0 && Leads(ts[n - 1])))
    else if complete then WaitingForEof
    else if ts == [] && s != [] then Err(Malformed)
    else Incomplete
  }

  lemma FailedVerdict(s: Text, ts: seq<Token>)
    requires Core(Run(INITIAL, s)) == Core(TakeAll(INITIAL, ts)) && TakeAll(INITIAL, ts).Failed?
    ensures Verdict(INITIAL, s) == Err(TakeAll(INITIAL, ts).error)
  {
    hide Run, TakeAll, Inv, Enter;
    NoTreeErrors(s);
    if Run(INITIAL, s).Running? {
      EnterKeeps(Run(INITIAL, s).parser);
    }
  }

  lemma RunningVerdict(s: Text, ts: seq<Token>)
    requires Core(Run(INITIAL, s)) == Core(TakeAll(INITIAL, ts)) && TakeAll(INITIAL, ts).Running? && AllOk(ts)
    ensures Verdict(INITIAL, s) == Answer(s, ts, |ts|, Complete(ts))
  {
    hide Run, TakeAll, Inv, Enter, Complete, Matches, TokenOk;
    var p := TakeAll(INITIAL, ts).parser;
    var ds := TakenMatches(ts);
    MatchesInv(p, ts, ds);
    EnterNearer(p);
    ViableExactly(ts);
    NoTreeErrors(s);
    EnterNearer(Run(INITIAL, s).parser);
    if ts != [] {
      LastLeads(INITIAL, ts);
    } else {
      NothingTakenYet();
    }
  }

  /** What json_parse_fragment answers to a text given all at once. */
  lemma VerdictExactly(s: Text) returns (n: nat)
    ensures var ts := Tokens(AtRoot(1), s);
            && n <= |ts| && Viable(ts[..n]) && (n < |ts| ==> !Viable(ts[..n + 1]))
            && Verdict(INITIAL, s) == Answer(s, ts, n, Complete(ts))
  {
    hide TakeAll, TokenOk, Viable, Complete, Tokens, Core, Verdict;
    var ts := Tokens(AtRoot(1), s);
    n := FirstFailure(INITIAL, ts);
    InvalidFails(INITIAL, ts[..n]);
    assert LexOk(AtRoot(1));
    TokensOk(AtRoot(1), s, n);
    ViableExactly(ts[..n]);
    RunIsTakeAll(INITIAL, s);
    if n < |ts| {
      assert ts[..n + 1] == ts[..n] + [ts[n]];
      ViableExactly(ts[..n + 1]);
      ErrorExactly(ts[..n], ts[n]);
      FailedVerdict(s, ts);
      assert n > 0 ==> ts[..n][n - 1] == ts[n - 1];
    } else {
      assert ts[..n] == ts;
      RunningVerdict(s, ts);
    }
  }
}
