/** The printed form of a document: the words of its derivation without extra commas, with nothing between
    them, and so the shortest text that is parsed to it. */
module JsonPrinted {
  import opened Common
  import opened JsonLexer
  import opened JsonTree
  import opened JsonParser
  import opened JsonTokens
  import opened JsonLexemes
  import opened JsonGrammar

  /** Tokens written one behind the other. */
  function Spelling(ts: seq<Token>): Text {
    if ts == [] then [] else Spell(ts[0]) + Spelling(ts[1..])
  }

  /** The derivation of a tree without a comma at the end of any array. */
  function Plain(t: Tree): Deriv {
    Deriv(t.kind, t.text, PlainAll(t.kids), false)
  }

  function PlainAll(ts: seq<Tree>): (ds: seq<Deriv>)
    ensures |ds| == |ts| && forall i :: 0 <= i < |ts| ==> ds[i] == Plain(ts[i])
  {
    if ts == [] then [] else PlainAll(ts[..|ts| - 1]) + [Plain(ts[|ts| - 1])]
  }

  lemma {:induction false} SpellingSum(a: seq<Token>, b: seq<Token>)
    ensures Spelling(a + b) == Spelling(a) + Spelling(b)
    decreases |a|
  {
    hide Spell;
    if a == [] {
      assert a + b == b;
    } else {
      assert (a + b)[0] == a[0] && (a + b)[1..] == a[1..] + b;
      SpellingSum(a[1..], b);
    }
  }

  lemma SpellingOne(t: Token)
    ensures Spelling([t]) == Spell(t)
  {
    hide Spell;
    assert Spelling([t]) == Spell(t) + Spelling([]);
  }

  lemma SpellingEnclosed(open: Token, ts: seq<Token>, close: Token)
    ensures Spelling([open] + ts + [close]) == Spell(open) + Spelling(ts) + Spell(close)
  {
    hide Spell, Spelling;
    SpellingSum([open] + ts, [close]);
    SpellingSum([open], ts);
    SpellingOne(open);
    SpellingOne(close);
  }

  /** What is printed for a value. */
  lemma {:induction false} PrintedValue(t: Tree, above: Above)
    requires Value(t) && (t.kind.String? ==> !IsLabel(above))
    ensures Print(t, above) == Spelling(ValueWords(Plain(t)))
    decreases t, 0
  {
    hide Spell, Spelling, Plain, PlainAll, ListWords;
    if t.kind.Object? || t.kind.Array? {
      PrintedBranch(t, above);
    } else {
      PrintedLeaf(t, above);
    }
  }

  lemma PrintedLeaf(t: Tree, above: Above)
    requires Value(t) && t.kind !in {Object, Array} && (t.kind.String? ==> !IsLabel(above))
    ensures Print(t, above) == Spelling(ValueWords(Plain(t)))
  {
    hide Spelling, Collect, StringBody;
    SpellingOne(ValueWords(Plain(t))[0]);
    assert ValueWords(Plain(t)) == [ValueWords(Plain(t))[0]];
    assert Print(t, above) == Opening(t, above);
  }

  lemma {:induction false} PrintedBranch(t: Tree, above: Above)
    requires Value(t) && (t.kind.Object? || t.kind.Array?)
    ensures Print(t, above) == Spelling(ValueWords(Plain(t)))
    decreases t.kids, 2
  {
    hide Spelling, ListWords, PlainAll, PrintAll;
    var words := ListWords(PlainAll(t.kids), t.kind);
    if t.kind.Object? {
      PrintedList(t.kids, Object);
      SpellingEnclosed(BeginObject, words, EndObject);
      assert ValueWords(Plain(t)) == [BeginObject] + words + [EndObject];
    } else {
      PrintedList(t.kids, Array);
      SpellingEnclosed(BeginArray, words, EndArray);
      assert ValueWords(Plain(t)) == [BeginArray] + words + [] + [EndArray];
      assert [BeginArray] + words + [] == [BeginArray] + words;
    }
  }

  lemma {:induction false} PrintedList(ts: seq<Tree>, kind: Kind)
    requires kind.Object? || kind.Array?
    requires forall i :: 0 <= i < |ts| ==> if kind.Object? then Field(ts[i]) else Value(ts[i])
    ensures PrintAll(ts, kind) == Spelling(ListWords(PlainAll(ts), kind))
    decreases ts, 1
  {
    hide Spell, Spelling, Plain, PlainAll, KidWords, ListWords, Print, Value, Field;
    if ts == [] {
      NothingSpelled(kind);
    } else {
      PrintedList(ts[..|ts| - 1], kind);
      PrintedKid(ts[|ts| - 1], kind);
      ListSpelled(ts, kind);
    }
  }

  lemma ListSpelled(ts: seq<Tree>, kind: Kind)
    requires ts != []
    ensures var n := |ts| - 1;
            Spelling(ListWords(PlainAll(ts), kind)) ==
            Spelling(ListWords(PlainAll(ts[..n]), kind)) + (if n == 0 then [] else [',']) +
            Spelling(KidWords(Plain(ts[n]), kind))
  {
    hide Spelling, Plain, KidWords;
    var n := |ts| - 1;
    assert PlainAll(ts)[..n] == PlainAll(ts[..n]);
    WordsSpelled(ListWords(PlainAll(ts[..n]), kind), n == 0, KidWords(Plain(ts[n]), kind));
  }

  lemma WordsSpelled(front: seq<Token>, first: bool, kid: seq<Token>)
    ensures Spelling(front + (if first then [] else [ValueSeparator]) + kid) ==
            Spelling(front) + (if first then [] else [',']) + Spelling(kid)
  {
    hide Spelling;
    var comma := if first then [] else [ValueSeparator];
    SpellingSum(front + comma, kid);
    SpellingSum(front, comma);
    CommaSpelled(first);
  }

  lemma NothingSpelled(kind: Kind)
    ensures PrintAll([], kind) == Spelling(ListWords(PlainAll([]), kind))
  {}

  lemma CommaSpelled(first: bool)
    ensures Spelling(if first then [] else [ValueSeparator]) == if first then [] else [',']
  {
    SpellingOne(ValueSeparator);
  }

  lemma {:induction false} PrintedKid(t: Tree, kind: Kind)
    requires if kind.Object? then Field(t) else kind.Array? && Value(t)
    ensures Print(t, Under(kind)) == Spelling(KidWords(Plain(t), kind))
    decreases t, 1
  {
    if kind.Object? {
      hide Value, StringBody, Spelling;
      PrintedValue(t.kids[0], Under(String));
      LabelSpelled(t.text, ValueWords(Plain(t.kids[0])));
      assert t.kids == [t.kids[0]];
      OneKid(t.kids[0], String);
      hide Plain, ValueWords;
      assert Print(t, Under(Object)) == Quoted(t.text) + [':'] + PrintAll(t.kids, String) + [];
    } else {
      PrintedValue(t, Under(kind));
    }
  }

  lemma OneKid(t: Tree, kind: Kind)
    ensures PrintAll([t], kind) == Print(t, Under(kind))
  {
    hide Print;
    assert [t][..0] == [];
    assert PrintAll([], kind) == [];
  }

  lemma LabelSpelled(text: Text, words: seq<Token>)
    ensures Spelling([StringToken(text), NameSeparator] + words) == Quoted(text) + [':'] + Spelling(words)
  {
    hide Spelling;
    SpellingSum([StringToken(text)] + [NameSeparator], words);
    SpellingSum([StringToken(text)], [NameSeparator]);
    SpellingOne(StringToken(text));
    SpellingOne(NameSeparator);
    assert [StringToken(text)] + [NameSeparator] == [StringToken(text), NameSeparator];
  }

  lemma {:induction false} PlainIsProper(t: Tree)
    ensures Proper(Plain(t))
  {
    forall i | 0 <= i < |t.kids| ensures Proper(PlainAll(t.kids)[i]) {
      PlainIsProper(t.kids[i]);
    }
  }

  lemma {:induction false} PlainForgotten(t: Tree)
    ensures Forget(Plain(t)) == t
    decreases t, 0
  {
    PlainAllForgotten(t.kids);
  }

  lemma {:induction false} PlainAllForgotten(ts: seq<Tree>)
    ensures ForgetAll(PlainAll(ts)) == ts
    decreases ts, 1
  {
    hide Plain, Forget;
    if ts != [] {
      PlainAllForgotten(ts[..|ts| - 1]);
      PlainForgotten(ts[|ts| - 1]);
      assert PlainAll(ts)[..|ts| - 1] == PlainAll(ts[..|ts| - 1]);
    }
  }

  /** A document is printed as its plain words, with nothing between them. */
  lemma PrintedExactly(t: Tree)
    requires Document(t)
    ensures Print(t, Nothing) == Spelling(ValueWords(Plain(t)))
    ensures Proper(Plain(t)) && Forget(Plain(t)) == t
  {
    PrintedValue(t, Nothing);
    PlainIsProper(t);
    PlainForgotten(t);
  }

  // ---- no text of the document is shorter ----

  lemma {:induction false} LeastSpelling(d: Deriv)
    ensures |Spelling(ValueWords(d))| >= |Spelling(ValueWords(Plain(Forget(d))))|
    decreases d, 0
  {
    if d.kind.Object? || d.kind.Array? {
      LeastList(d.kids, d.kind);
      BranchLength(d);
      BranchLength(Plain(Forget(d)));
      hide Spelling, ListWords, ForgetAll, PlainAll, ValueWords;
    } else {
      LeafSame(d);
    }
  }

  lemma LeafSame(d: Deriv)
    requires d.kind !in {Object, Array}
    ensures ValueWords(d) == ValueWords(Plain(Forget(d)))
  {
    hide ForgetAll, PlainAll;
  }

  lemma BranchLength(d: Deriv)
    requires d.kind.Object? || d.kind.Array?
    ensures |Spelling(ValueWords(d))| ==
            |Spelling(ListWords(d.kids, d.kind))| + if d.kind.Array? && d.comma then 3 else 2
  {
    hide Spelling, ListWords;
    var words := ListWords(d.kids, d.kind);
    if d.kind.Object? {
      SpellingEnclosed(BeginObject, words, EndObject);
    } else {
      ArraySpelled(words, d.comma);
    }
  }

  lemma ArraySpelled(words: seq<Token>, comma: bool)
    ensures |Spelling([BeginArray] + words + (if comma then [ValueSeparator] else []) + [EndArray])| ==
            |Spelling(words)| + if comma then 3 else 2
  {
    hide Spelling;
    var more := if comma then [ValueSeparator] else [];
    assert [BeginArray] + words + more + [EndArray] == [BeginArray] + (words + more) + [EndArray];
    SpellingEnclosed(BeginArray, words + more, EndArray);
    SpellingSum(words, more);
    CommaSpelled(!comma);
  }

  lemma {:induction false} LeastList(ds: seq<Deriv>, kind: Kind)
    ensures |Spelling(ListWords(ds, kind))| >= |Spelling(ListWords(PlainAll(ForgetAll(ds)), kind))|
    decreases ds, 2
  {
    if ds != [] {
      var n := |ds| - 1;
      LeastList(ds[..n], kind);
      LeastKid(ds[n], kind);
      hide Spelling, KidWords, Forget, Plain, PlainAll;
      ForgetAt(ds);
      assert ForgetAll(ds)[..n] == ForgetAll(ds[..n]);
      ListSpelled(ForgetAll(ds), kind);
      WordsSpelled(ListWords(ds[..n], kind), n == 0, KidWords(ds[n], kind));
    }
  }

  lemma {:induction false} LeastKid(d: Deriv, kind: Kind)
    ensures |Spelling(KidWords(d, kind))| >= |Spelling(KidWords(Plain(Forget(d)), kind))|
    decreases d, 1
  {
    ForgetAt(d.kids);
    if kind.Object? {
      if |d.kids| == 1 {
        LeastSpelling(d.kids[0]);
        hide Spelling, ValueWords;
        LabelSpelled(d.text, ValueWords(d.kids[0]));
        LabelSpelled(d.text, ValueWords(Plain(Forget(d.kids[0]))));
      }
    } else {
      LeastSpelling(d);
    }
  }

  lemma {:induction false} FlatLength(ps: seq<Piece>, tail: Text)
    ensures |Flat(ps, tail)| >= |Spelling(TokensOf(ps))|
    decreases |ps|
  {
    hide Spell;
    if ps != [] {
      FlatLength(ps[1..], tail);
      assert TokensOf(ps)[1..] == TokensOf(ps[1..]);
    }
  }

  /** Of all texts that are parsed to a document its printed form is the shortest. */
  lemma PrintedIsShortest(s: Text, t: Tree)
    requires ParseDocument(s) == Ok(t)
    ensures |Print(t, Nothing)| <= |s|
  {
    hide ParseDocument, Proper, Document, Spelling, ValueWords, Plain, Flat, TokensOf, Print, Forget;
    AcceptedExactly(s, t);
    var d :| Derives(d, t, s);
    PrintedExactly(t);
    LeastSpelling(d);
    var ps: seq<Piece>, tail: Text :| Lexemes(ps, tail) && TokensOf(ps) == ValueWords(d) && Flat(ps, tail) == s;
    FlatLength(ps, tail);
  }
}
