/** The resumable parser of json.c as a step function over characters, and what it guarantees. */
module JsonParser {
  import opened JsonLexer
  import opened JsonTree

  /** The parser states 0 to 9 and 99. */
  datatype State =
    | Start | OpenObject | InObject | AfterField | NextField | AfterLabel | BeforeValue
    | OpenArray | InArray | AfterItem | Done

  /** TreeAssert stands for a failing tree sanity assert. */
  datatype Error = Malformed | IllegalCharacter | BadTree | UnknownProblem | TreeAssert

  /** struct json_parsing_info; the cursor is the top of the stack. */
  datatype Parser = Parser(state: State, lexer: Lexer, stack: Stack)

  datatype Outcome = Running(parser: Parser) | Failed(error: Error)

  const INITIAL := Parser(Start, Lexer(Root, [], 1), [])

  /** json_insert_child of a node without children. */
  predicate Accepts(parent: Kind, child: Kind) {
    match parent
    case String => true
    case Object => child.String?
    case Array => true
    case _ => false
  }

  /** Inserting a node under the cursor and moving the cursor to it. */
  function Push(p: Parser, kind: Kind, text: Text, next: State): Outcome {
    if p.stack != [] && !Accepts(Top(p.stack).kind, kind) then Failed(UnknownProblem)
    else Running(Parser(next, p.lexer, p.stack + [Leaf(kind, text)]))
  }

  /** Inserting a finished value; under a label the cursor then moves up to the object. */
  function Put(p: Parser, kind: Kind, text: Text): Outcome
    requires p.stack != []
  {
    if !Accepts(Top(p.stack).kind, kind) then Failed(UnknownProblem)
    else
      var s := Pop(p.stack + [Leaf(kind, text)]);
      if p.state.InArray? then Running(Parser(AfterItem, p.lexer, s))
      else Running(Parser(AfterField, p.lexer, if |s| >= 2 then Pop(s) else s))
  }

  /** Closing the object or array at the cursor. */
  function Close(p: Parser): Outcome
    requires p.stack != []
  {
    if |p.stack| == 1 then Running(Parser(Done, p.lexer, p.stack))
    else
      var s := Pop(p.stack);
      if Top(s).kind.Array? then Running(Parser(AfterItem, p.lexer, s))
      else if !Top(s).kind.String? then Failed(BadTree)
      else if |s| == 1 then
        if p.state.InArray? then Failed(BadTree)
        else if p.state.AfterItem? then Running(Parser(Done, p.lexer, s))
        else Failed(TreeAssert)
      else if !Top(Pop(s)).kind.Object? then Failed(BadTree)
      else Running(Parser(AfterField, p.lexer, Pop(s)))
  }

  /** What the asserts at the head of each state demand of the cursor. */
  predicate Sane(state: State, s: Stack) {
    match state
    case Start => true
    case OpenObject => s == [] || Top(s).kind in {String, Array}
    case OpenArray => s == [] || Top(s).kind in {String, Array}
    case AfterLabel => s != [] && Top(s).kind.String?
    case BeforeValue => s != [] && Top(s).kind.String?
    case InArray => s != [] && Top(s).kind.Array?
    case AfterItem => s != []
    case Done => |s| == 1
    case _ => s != [] && Top(s).kind.Object?
  }

  /** States 1 and 7 create their node before anything is read. */
  function Enter(p: Parser): Outcome {
    if !Sane(p.state, p.stack) then Failed(TreeAssert)
    else if p.state.OpenObject? then Push(p, Object, [], InObject)
    else if p.state.OpenArray? then Push(p, Array, [], InArray)
    else Running(p)
  }

  function Go(p: Parser, next: State): Outcome {
    Running(Parser(next, p.lexer, p.stack))
  }

  /** One token in a state that reads one. */
  function Take(p: Parser, t: Token): Outcome
    requires Sane(p.state, p.stack)
  {
    match p.state
    case Start => if t.BeginObject? then Go(p, OpenObject) else Failed(Malformed)
    case InObject => if t.StringToken? then Push(p, String, t.text, AfterLabel)
                     else if t.EndObject? then Close(p) else Failed(Malformed)
    case AfterField => if t.ValueSeparator? then Go(p, NextField)
                       else if t.EndObject? then Close(p) else Failed(Malformed)
    case NextField => if t.StringToken? then Push(p, String, t.text, AfterLabel)
                      else if t.Invalid? then Failed(IllegalCharacter) else Failed(Malformed)
    case AfterLabel => if t.NameSeparator? then Go(p, BeforeValue) else Failed(Malformed)
    case BeforeValue => TakeValue(p, t)
    case InArray => if t.EndArray? then Close(p) else TakeValue(p, t)
    case AfterItem => if t.ValueSeparator? then Go(p, InArray)
                      else if t.EndArray? then Close(p) else Failed(Malformed)
    case Done => Failed(Malformed)
    case _ => Failed(UnknownProblem)
  }

  function TakeValue(p: Parser, t: Token): Outcome
    requires p.stack != []
  {
    match t
    case StringToken(text) => Put(p, String, text)
    case NumberToken(text) => Put(p, Number, text)
    case TrueToken => Put(p, True, [])
    case FalseToken => Put(p, False, [])
    case NullToken => Put(p, Null, [])
    case BeginObject => Go(p, OpenObject)
    case BeginArray => Go(p, OpenArray)
    case Invalid => Failed(IllegalCharacter)
    case _ => Failed(Malformed)
  }

  /** One turn of the loop, and whether it consumed the character. */
  function Turn(p: Parser, c: Char): (Outcome, bool) {
    var entered := Enter(p);
    if entered.Failed? then (entered, false)
    else
      var q := entered.parser;
      match Lex(q.lexer, c)
      case More(x) => (Running(Parser(q.state, x, q.stack)), true)
      case Emit(x, t, consumed) => (Take(Parser(q.state, x, q.stack), t), consumed)
  }

  /** One character: a comma or bracket that ends a number is read once more, from the root state. */
  function Feed(p: Parser, c: Char): Outcome {
    var (next, consumed) := Turn(p, c);
    if consumed || next.Failed? then next else Turn(next.parser, c).0
  }

  function Run(p: Parser, input: Text): Outcome
    decreases |input|
  {
    if input == [] then Running(p)
    else
      var next := Feed(p, input[0]);
      if next.Failed? then next else Run(next.parser, input[1..])
  }

  // ---- json_parse_fragment, json_parse_document, json_stream_parse ----

  datatype Code = WaitingForEof | Incomplete | Err(error: Error)

  /** Running out of input is an error in state 0 unless there was no input at all. */
  function Verdict(p: Parser, input: Text): Code {
    var end := Run(p, input);
    if end.Failed? then Err(end.error)
    else if end.parser.state.Done? then WaitingForEof
    else if end.parser.state.Start? && input != [] then Err(Malformed)
    else Incomplete
  }

  datatype Result = Ok(root: Tree) | Rejected(code: Code)

  function ParseDocument(input: Text): Result {
    var code := Verdict(INITIAL, input);
    if code.WaitingForEof? && Run(INITIAL, input).parser.stack != [] then Ok(Top(Run(INITIAL, input).parser.stack))
    else Rejected(code)
  }

  lemma {:induction false} RunSum(p: Parser, a: Text, b: Text)
    ensures Run(p, a + b) == if Run(p, a).Failed? then Run(p, a) else Run(Run(p, a).parser, b)
    decreases |a|
  {
    if a == [] {
      assert a + b == b;
    } else {
      assert (a + b)[0] == a[0] && (a + b)[1..] == a[1..] + b;
      var next := Feed(p, a[0]);
      if next.Running? {
        RunSum(next.parser, a[1..], b);
      }
    }
  }
}
