/** json_escape and json_unescape. */
module JsonEscape {
  import opened Common
  import opened JsonLexer
  import opened JsonTree
  import opened JsonParser
  import opened JsonRoundTrip

  function HexDigit(n: nat): (c: Char)
    requires n < 16
    ensures IsHex(c) && HexValue(c) == n
  {
    if n < 10 then '0' + n as char else 'a' + (n - 10) as char
  }

  /** The escape of one byte; \u%4.4x for the control characters without a short form. */
  function EscapeOne(c: Char): Text {
    if c == '\\' then ['\\', '\\']
    else if c == '"' then ['\\', '"']
    else if c == '/' then ['\\', '/']
    else if c as int == 8 then ['\\', 'b']
    else if c as int == 12 then ['\\', 'f']
    else if c == '\n' then ['\\', 'n']
    else if c == '\r' then ['\\', 'r']
    else if c == '\t' then ['\\', 't']
    else if c < ' ' then ['\\', 'u', '0', '0', HexDigit(c as int / 16), HexDigit(c as int % 16)]
    else [c]
  }

  /** Section 7 of RFC 8259: the characters with a short escape, the slash among them, get it, the other control
      characters are spelled with four digits, and all others stay. */
  lemma EscapeTable(c: Char)
    ensures var plain := ['"', '\\', '/', 8 as char, 12 as char, '\n', '\r', '\t'];
            var short := "\"\\/bfnrt";
            && (forall i :: 0 <= i < 8 && c == plain[i] ==> EscapeOne(c) == ['\\', short[i]])
            && (c !in plain && c < ' ' ==>
                  EscapeOne(c) == ['\\', 'u', '0', '0', "0123456789abcdef"[c as int / 16], "0123456789abcdef"[c as int % 16]])
            && (c !in plain && c >= ' ' ==> EscapeOne(c) == [c])
  {
    if c < ' ' {
      DigitTable(c as int / 16);
      DigitTable(c as int % 16);
    }
  }

  lemma DigitTable(n: nat)
    requires n < 16
    ensures HexDigit(n) == "0123456789abcdef"[n]
  {}

  function Escape(s: Text): Text {
    if s == [] then [] else EscapeOne(s[0]) + Escape(s[1..])
  }

  lemma EscapeFirst(s: Text)
    requires s != []
    ensures Escape(s) == EscapeOne(s[0]) + Escape(s[1..])
  {}

  lemma {:induction false} EscapeSum(s: Text, c: Char)
    ensures Escape(s + [c]) == Escape(s) + EscapeOne(c)
  {
    hide EscapeOne;
    if s == [] {
      EscapeFirst([c]);
      assert [c][1..] == [];
      assert s + [c] == [c];
    } else {
      EscapeSum(s[1..], c);
      EscapeFirst(s);
      EscapeFirst(s + [c]);
      assert (s + [c])[1..] == s[1..] + [c];
      hide Escape;
      Sum(EscapeOne(s[0]), Escape(s[1..]), EscapeOne(c));
    }
  }

  method EscapeText(text: Text) returns (output: Text)
    ensures output == Escape(text)
  {
    output := [];
    for i := 0 to |text|
      invariant output == Escape(text[..i])
    {
      output := output + EscapeOne(text[i]);
      EscapeSum(text[..i], text[i]);
      assert text[..i + 1] == text[..i] + [text[i]];
    }
    assert text[..|text|] == text;
  }

  /** An escaped text fits between quotes. */
  lemma {:induction false} EscapedFits(s: Text)
    ensures StringBody(Escape(s))
  {
    if s != [] {
      EscapedFits(s[1..]);
      BodyAfter(EscapeOne(s[0]), Escape(s[1..]));
    }
  }

  lemma BodyAfter(a: Text, rest: Text)
    requires exists c :: a == EscapeOne(c)
    requires StringBody(rest)
    ensures StringBody(a + rest)
  {
    if |a| == 1 {
      assert (a + rest)[1..] == rest;
    } else if |a| == 2 {
      assert (a + rest)[2..] == rest;
    } else {
      assert (a + rest)[6..] == rest;
    }
  }

  /** A quoted escaped text is always read as one string token carrying that text. */
  lemma EscapedIsOneToken(p: Parser, s: Text)
    requires Reads(p)
    ensures Run(p, Quoted(Escape(s))) == Take(p, StringToken(Escape(s)))
  {
    EscapedFits(s);
    RunString(p, Escape(s));
  }

  // ---- json_unescape, on any text ----

  predicate IsSpace(c: Char) {
    c == ' ' || 9 <= c as int <= 13
  }

  function DigitsValue(s: Text, n: nat): nat
    decreases |s|
  {
    if s == [] || !IsHex(s[0]) then n else DigitsValue(s[1..], n * 16 + HexValue(s[0]))
  }

  function Magnitude(s: Text): nat {
    if |s| >= 3 && s[0] == '0' && s[1] in {'x', 'X'} && IsHex(s[2]) then DigitsValue(s[2..], 0) else DigitsValue(s, 0)
  }

  /** strtol with base 16 */
  function Strtol(s: Text): int
    decreases |s|
  {
    if s == [] then 0
    else if IsSpace(s[0]) then Strtol(s[1..])
    else if s[0] == '-' then 0 - Magnitude(s[1..])
    else if s[0] == '+' then Magnitude(s[1..])
    else Magnitude(s)
  }

  function Pow16(n: nat): nat {
    if n == 0 then 1 else 16 * Pow16(n - 1)
  }

  lemma {:induction false} DigitsBound(s: Text, n: nat)
    ensures DigitsValue(s, n) < (n + 1) * Pow16(|s|)
    decreases |s|
  {
    if s != [] && IsHex(s[0]) {
      var m := n * 16 + HexValue(s[0]);
      DigitsBound(s[1..], m);
      hide HexValue;
      OneDigit(n, m, Pow16(|s| - 1));
    } else {
      Scaled(n + 1, n + 1, Pow16(|s|));
      PositivePow16(|s|);
    }
  }

  lemma Scaled(a: nat, b: nat, y: nat)
    requires a <= b
    ensures a * y <= b * y
  {}

  lemma OneDigit(n: nat, m: nat, y: nat)
    requires m < (n + 1) * 16
    ensures (m + 1) * y <= (n + 1) * (16 * y)
  {
    Scaled(m + 1, (n + 1) * 16, y);
  }

  lemma PositivePow16(n: nat)
    ensures Pow16(n) > 0
  {}

  lemma {:induction false} StrtolBound(s: Text)
    ensures Strtol(s) < Pow16(|s|)
    decreases |s|
  {
    PositivePow16(|s|);
    if s != [] {
      DigitsBound(s, 0);
      DigitsBound(s[1..], 0);
      if |s| >= 2 {
        DigitsBound(s[2..], 0);
      }
      StrtolBound(s[1..]);
    }
  }

  predicate IsHexEscape(s: Text) {
    |s| >= 6 && s[0] == '\\' && s[1] == 'u' && IsHex(s[2]) && IsHex(s[3]) && IsHex(s[4]) && IsHex(s[5])
  }

  /** The value of four hexadecimal digits. */
  function Unit(s: Text): (n: nat)
    requires IsHexEscape(s)
    ensures n < 0x10000
  {
    HexValue(s[2]) * 4096 + HexValue(s[3]) * 256 + HexValue(s[4]) * 16 + HexValue(s[5])
  }

  lemma FourDigits(s: Text)
    requires IsHexEscape(s)
    ensures Strtol(s[2..6]) == Unit(s)
  {
    var t := s[2..6];
    assert t == [s[2], s[3], s[4], s[5]];
    assert t[1..] == [s[3], s[4], s[5]] && t[1..][1..] == [s[4], s[5]] && t[1..][1..][1..] == [s[5]];
    assert DigitsValue([], Unit(s)) == Unit(s);
    var a, b, c := HexValue(s[2]), HexValue(s[3]), HexValue(s[4]);
    assert DigitsValue([s[5]], (a * 16 + b) * 16 + c) == Unit(s);
    assert DigitsValue([s[4], s[5]], a * 16 + b) == Unit(s);
    assert DigitsValue(t, 0) == Unit(s);
  }

  predicate IsHigh(n: int) {
    0xD800 <= n <= 0xDBFF
  }

  predicate IsLow(n: int) {
    0xDC00 <= n <= 0xDFFF
  }

  /** The code point of two surrogates. */
  function Joined(high: int, low: int): int {
    (high - 0xD800) * 1024 + (low - 0xDC00) + 0x10000
  }

  /** The bytes the code makes of a value below 0x10000 that is not a high surrogate. */
  function ShortBytes(n: int): seq<Byte> {
    if n < 0x80 then [B(n)]
    else if n < 0x800 then [B(0xC0 + n / 64 % 32), B(0x80 + n % 64)]
    else [B(0xE0 + n / 64 / 64 % 16), B(0x80 + n / 64 % 64), B(0x80 + n % 64)]
  }

  function LongBytes(n: int): seq<Byte> {
    [B(0xF0 + n / 64 / 64 / 64 % 8), B(0x80 + n / 64 / 64 % 64), B(0x80 + n / 64 % 64), B(0x80 + n % 64)]
  }

  predicate IsShort(c: Char) {
    c in {'\\', '"', '/', 'b', 'f', 'n', 'r', 't'}
  }

  function Plain(c: Char): Byte {
    if c == 'b' then 8 as char else if c == 'f' then 12 as char else if c == 'n' then '\n'
    else if c == 'r' then '\r' else if c == 't' then '\t' else c
  }

  /** How many characters the next turn of the loop takes and the bytes it writes, unless it meets
      the failing assert or reads behind the end of the text. */
  datatype Chunk = Chunk(size: nat, bytes: seq<Byte>) | BadEscape | CutOff

  /** After a high surrogate the next six characters are taken for an escape, whatever they are. */
  function Next(s: Text): (r: Chunk)
    requires s != []
    ensures r.Chunk? ==> 0 < r.size <= |s| && |r.bytes| <= r.size
  {
    if s[0] != '\\' then Chunk(1, [s[0]])
    else if |s| == 1 then BadEscape
    else if s[1] != 'u' then if IsShort(s[1]) then Chunk(2, [Plain(s[1])]) else BadEscape
    else if |s| < 6 then CutOff
    else
      var n := Strtol(s[2..6]);
      if !IsHigh(n) then Chunk(6, ShortBytes(n))
      else if |s| < 12 then CutOff
      else Chunk(12, LongBytes(Joined(n, Strtol(s[8..12]))))
  }

  datatype Unescaped = Whole(bytes: seq<Byte>) | Aborted | PastEnd

  function Behind(bytes: seq<Byte>, u: Unescaped): Unescaped {
    if u.Whole? then Whole(bytes + u.bytes) else u
  }

  function Unescape(s: Text): Unescaped
    decreases |s|
  {
    if s == [] then Whole([])
    else match Next(s)
         case Chunk(n, bytes) => Behind(bytes, Unescape(s[n..]))
         case BadEscape => Aborted
         case CutOff => PastEnd
  }

  lemma EscapedOne(c: Char, rest: Text)
    ensures Next(EscapeOne(c) + rest) == Chunk(|EscapeOne(c)|, [c])
  {
    hide Strtol, LongBytes, Joined;
    var e := EscapeOne(c) + rest;
    if |EscapeOne(c)| == 6 {
      assert IsHexEscape(e) && Unit(e) == c as int;
      FourDigits(e);
    }
  }

  /** Unescaping undoes escaping, for every string. */
  lemma {:induction false} EscapeRoundTrip(s: Text)
    ensures Unescape(Escape(s)) == Whole(s)
  {
    if s != [] {
      EscapeRoundTrip(s[1..]);
      var c, rest := s[0], Escape(s[1..]);
      EscapedOne(c, rest);
      assert (EscapeOne(c) + rest)[|EscapeOne(c)|..] == rest;
      assert [s[0]] + s[1..] == s;
    }
  }

  // ---- the bytes of a unicode escape, against section 3 of RFC 3629 ----

  /** The value of a UTF-8 sequence by its length. */
  function Utf8Value(s: seq<Byte>): int {
    if |s| == 1 then s[0] as int
    else if |s| == 2 then (s[0] as int - 0xC0) * 64 + (s[1] as int - 0x80)
    else if |s| == 3 then (s[0] as int - 0xE0) * 4096 + (s[1] as int - 0x80) * 64 + (s[2] as int - 0x80)
    else if |s| == 4 then
      (s[0] as int - 0xF0) * 262144 + (s[1] as int - 0x80) * 4096 + (s[2] as int - 0x80) * 64 + (s[3] as int - 0x80)
    else -1
  }

  predicate IsSurrogate(n: int) {
    IsHigh(n) || IsLow(n)
  }

  predicate Utf8Formed(s: seq<Byte>) {
    && (forall i :: 1 <= i < |s| ==> 0x80 <= s[i] as int < 0xC0)
    && match |s|
       case 1 => s[0] as int < 0x80
       case 2 => 0xC2 <= s[0] as int < 0xE0 && Utf8Value(s) >= 0x80
       case 3 => 0xE0 <= s[0] as int < 0xF0 && Utf8Value(s) >= 0x800 && !IsSurrogate(Utf8Value(s))
       case 4 => 0xF0 <= s[0] as int < 0xF5 && 0x10000 <= Utf8Value(s) < 0x110000
       case _ => false
  }

  lemma ShortIsUtf8(n: nat)
    requires n < 0x10000 && !IsSurrogate(n)
    ensures Utf8Formed(ShortBytes(n)) && Utf8Value(ShortBytes(n)) == n
  {
    hide B, Utf8Formed, Utf8Value;
    var q, d := n / 64, n % 64;
    var b, c := q / 64, q % 64;
    assert n == q * 64 + d && q == b * 64 + c;
    if n >= 0x800 {
      assert b < 16;
      ThreeBytes(b, c, d);
    } else if n >= 0x80 {
      assert q < 32;
      TwoBytes(q, d);
    } else {
      OneByte(n);
    }
  }

  lemma OneByte(n: nat)
    requires n < 0x80
    ensures Utf8Formed([B(n)]) && Utf8Value([B(n)]) == n
  {}

  lemma TwoBytes(q: nat, d: nat)
    requires q < 32 && d < 64 && q * 64 + d >= 0x80
    ensures var s := [B(0xC0 + q), B(0x80 + d)]; Utf8Formed(s) && Utf8Value(s) == q * 64 + d
  {
    var s := [B(0xC0 + q), B(0x80 + d)];
    assert s[0] as int == 0xC0 + q && s[1] as int == 0x80 + d;
  }

  lemma ThreeBytes(b: nat, c: nat, d: nat)
    requires b < 16 && c < 64 && d < 64 && b * 4096 + c * 64 + d >= 0x800 && !IsSurrogate(b * 4096 + c * 64 + d)
    ensures var s := [B(0xE0 + b), B(0x80 + c), B(0x80 + d)];
            Utf8Formed(s) && Utf8Value(s) == b * 4096 + c * 64 + d
  {
    var s := [B(0xE0 + b), B(0x80 + c), B(0x80 + d)];
    assert s[0] as int == 0xE0 + b && s[1] as int == 0x80 + c && s[2] as int == 0x80 + d;
  }

  lemma LongOfValue(n: nat)
    requires 0x10000 <= n < 0x110000
    ensures Utf8Formed(LongBytes(n)) && Utf8Value(LongBytes(n)) == n
  {
    var a, b, c, d := SixBits(n);
    assert LongBytes(n) == [B(0xF0 + a), B(0x80 + b), B(0x80 + c), B(0x80 + d)] by {
      hide B;
    }
    hide LongBytes;
    BytesValue(a, b, c, d);
  }

  lemma SixBits(n: nat) returns (a: nat, b: nat, c: nat, d: nat)
    requires n < 0x110000
    ensures a == n / 64 / 64 / 64 % 8 && b == n / 64 / 64 % 64 && c == n / 64 % 64 && d == n % 64
    ensures a < 5 && b < 64 && c < 64 && d < 64 && n == a * 262144 + b * 4096 + c * 64 + d
  {
    var x := n / 64;
    var y := x / 64;
    a, b, c, d := y / 64, y % 64, x % 64, n % 64;
  }

  lemma BytesValue(a: nat, b: nat, c: nat, d: nat)
    requires a < 5 && b < 64 && c < 64 && d < 64
    requires 0x10000 <= a * 262144 + b * 4096 + c * 64 + d < 0x110000
    ensures var s := [B(0xF0 + a), B(0x80 + b), B(0x80 + c), B(0x80 + d)];
            Utf8Formed(s) && Utf8Value(s) == a * 262144 + b * 4096 + c * 64 + d
  {
    var s := [B(0xF0 + a), B(0x80 + b), B(0x80 + c), B(0x80 + d)];
    assert s[0] as int == 0xF0 + a && s[1] as int == 0x80 + b && s[2] as int == 0x80 + c && s[3] as int == 0x80 + d;
  }

  /** The encoding of a code point, which a surrogate is not. */
  function Utf8(n: nat): (s: seq<Byte>)
    requires n < 0x110000 && !IsSurrogate(n)
    ensures Utf8Formed(s) && Utf8Value(s) == n
  {
    if n < 0x10000 then
      ShortIsUtf8(n);
      ShortBytes(n)
    else
      LongOfValue(n);
      LongBytes(n)
  }

  /** There is only one. */
  lemma Utf8Unique(s: seq<Byte>, t: seq<Byte>)
    requires Utf8Formed(s) && Utf8Formed(t) && Utf8Value(s) == Utf8Value(t)
    ensures s == t
  {
    Utf8Length(s);
    Utf8Length(t);
    var n := |s|;
    if n > 1 {
      var lead := if n == 2 then 0xC0 else if n == 3 then 0xE0 else 0xF0;
      SameDigits(Upper(s, lead), s[n - 1] as int - 0x80, Upper(t, lead), t[n - 1] as int - 0x80);
      if n > 2 {
        SameDigits(Upper(s[..n - 1], lead), s[n - 2] as int - 0x80, Upper(t[..n - 1], lead), t[n - 2] as int - 0x80);
      }
      if n > 3 {
        SameDigits(Upper(s[..n - 2], lead), s[n - 3] as int - 0x80, Upper(t[..n - 2], lead), t[n - 3] as int - 0x80);
      }
    }
  }

  /** The value of all but the last byte. */
  function Upper(s: seq<Byte>, lead: int): int
    requires 2 <= |s| <= 4
  {
    if |s| == 2 then s[0] as int - lead
    else if |s| == 3 then (s[0] as int - lead) * 64 + (s[1] as int - 0x80)
    else ((s[0] as int - lead) * 64 + (s[1] as int - 0x80)) * 64 + (s[2] as int - 0x80)
  }

  lemma SameDigits(a: int, b: int, c: int, d: int)
    requires a * 64 + b == c * 64 + d && 0 <= b < 64 && 0 <= d < 64
    ensures a == c && b == d
  {}

  lemma Utf8Length(s: seq<Byte>)
    requires Utf8Formed(s)
    ensures 1 <= |s| <= 4
    ensures var n := Utf8Value(s);
            |s| == if n < 0x80 then 1 else if n < 0x800 then 2 else if n < 0x10000 then 3 else 4
  {}

  function Prefixed(bytes: seq<Byte>, m: Option<seq<Byte>>): Option<seq<Byte>> {
    if m.Some? then Some(bytes + m.value) else None
  }

  lemma RestOk(s: Text)
    requires StringBody(s) && s != []
    ensures s[0] != '\\' ==> StringBody(s[1..])
    ensures s[0] == '\\' ==> |s| >= 2 && if s[1] == 'u' then IsHexEscape(s) && StringBody(s[6..])
                                         else IsShort(s[1]) && StringBody(s[2..])
  {}

  /** The bytes of the first character by section 7 of RFC 8259, in UTF-8, and how much of the text it
      takes; half of a surrogate pair is no character. */
  function Character(s: Text): (r: Option<(seq<Byte>, nat)>)
    requires StringBody(s) && s != []
    ensures r.Some? ==> 0 < r.value.1 <= |s| && StringBody(s[r.value.1..])
  {
    RestOk(s);
    if s[0] != '\\' then Some(([s[0]], 1))
    else if s[1] != 'u' then Some(([Plain(s[1])], 2))
    else if !IsHigh(Unit(s)) then if IsLow(Unit(s)) then None else Some((Utf8(Unit(s)), 6))
    else Pair(s)
  }

  function Pair(s: Text): (r: Option<(seq<Byte>, nat)>)
    requires IsHexEscape(s) && StringBody(s[6..]) && IsHigh(Unit(s))
    ensures r.Some? ==> 12 == r.value.1 <= |s| && StringBody(s[12..])
    ensures r.Some? <==> IsHexEscape(s[6..]) && IsLow(Unit(s[6..]))
  {
    if IsHexEscape(s[6..]) && IsLow(Unit(s[6..])) then
      RestOk(s[6..]);
      assert s[6..][6..] == s[12..];
      JoinedLarge(Unit(s), Unit(s[6..]));
      Some((Utf8(Joined(Unit(s), Unit(s[6..]))), 12))
    else None
  }

  /** What a string stands for. */
  function Meaning(s: Text): Option<seq<Byte>>
    requires StringBody(s)
    decreases |s|
  {
    if s == [] then Some([])
    else match Character(s)
         case None => None
         case Some((bytes, n)) => Prefixed(bytes, Meaning(s[n..]))
  }

  /** Whenever a string has a meaning, json_unescape computes it. */
  lemma {:induction false} UnescapeIsMeaning(s: Text)
    requires StringBody(s) && Meaning(s).Some?
    ensures Unescape(s) == Whole(Meaning(s).value)
    decreases |s|
  {
    if s != [] {
      hide Next, Character, StringBody;
      ChunkIsCharacter(s);
      UnescapeIsMeaning(s[Character(s).value.1..]);
    }
  }

  lemma ChunkIsCharacter(s: Text)
    requires StringBody(s) && s != [] && Character(s).Some?
    ensures Next(s) == Chunk(Character(s).value.1, Character(s).value.0)
  {
    hide ShortBytes, LongBytes, Utf8Formed, Utf8Value, Plain, Strtol, Joined, Unit, StringBody;
    RestOk(s);
    if s[0] == '\\' && s[1] == 'u' {
      FourDigits(s);
      if IsHigh(Unit(s)) {
        FourDigits(s[6..]);
        assert s[6..][2..6] == s[8..12];
        JoinedLarge(Unit(s), Unit(s[6..]));
      }
    }
  }

  lemma JoinedLarge(high: int, low: int)
    requires IsHigh(high) && IsLow(low)
    ensures 0x10000 <= Joined(high, low) < 0x110000
  {}

  // ---- single code points, spelled out ----

  /** A hexadecimal digit, in either spelling. */
  predicate Digit(c: Char, d: nat)
    requires d < 16
  {
    c == "0123456789abcdef"[d] || c == "0123456789ABCDEF"[d]
  }

  /** A \u escape of this value. */
  predicate Spells(e: Text, n: nat) {
    && |e| == 6 && e[0] == '\\' && e[1] == 'u' && n < 0x10000
    && Digit(e[2], n / 4096) && Digit(e[3], n / 256 % 16) && Digit(e[4], n / 16 % 16) && Digit(e[5], n % 16)
  }

  lemma DigitValue(c: Char, d: nat)
    requires d < 16 && Digit(c, d)
    ensures IsHex(c) && HexValue(c) == d
  {
    HexTable(d);
  }

  lemma SpelledUnit(e: Text, n: nat)
    requires Spells(e, n)
    ensures IsHexEscape(e) && Unit(e) == n
  {
    hide IsHex, HexValue, Digit;
    DigitValue(e[2], n / 4096);
    DigitValue(e[3], n / 256 % 16);
    DigitValue(e[4], n / 16 % 16);
    DigitValue(e[5], n % 16);
    FourNibbles(n);
  }

  lemma FourNibbles(n: nat)
    requires n < 0x10000
    ensures n / 4096 * 4096 + n / 256 % 16 * 256 + n / 16 % 16 * 16 + n % 16 == n
  {
    var a, b := n / 16, n / 256;
    assert b == a / 16 && n / 4096 == b / 16;
    var c := b / 16;
    assert n == a * 16 + n % 16 && a == b * 16 + a % 16 && b == c * 16 + b % 16;
  }

  /** The escape of any code point of the first plane, whatever follows, stands for its UTF-8 encoding. */
  lemma BasicEscape(n: nat, e: Text, rest: Text)
    requires n < 0x10000 && !IsSurrogate(n) && Spells(e, n)
    ensures Unescape(e + rest) == Behind(Utf8(n), Unescape(rest))
    ensures StringBody(e) && Meaning(e) == Some(Utf8(n))
  {
    SpelledUnit(e, n);
    OnlyEscape(e);
    hide Strtol, ShortBytes, Utf8Formed, Utf8Value, Unit, Spells, StringBody;
    var t := e + rest;
    assert t[..6] == e[..6];
    SameUnit(e, t);
    FourDigits(t);
    assert t[6..] == rest && e[6..] == [];
    MeaningOfNothing();
    assert Utf8(n) + [] == Utf8(n);
  }

  /** So do the escapes of the two halves of any other code point. */
  lemma PairEscape(n: nat, e1: Text, e2: Text, rest: Text)
    requires 0x10000 <= n < 0x110000
    requires Spells(e1, 0xD800 + (n - 0x10000) / 1024) && Spells(e2, 0xDC00 + (n - 0x10000) % 1024)
    ensures Unescape(e1 + e2 + rest) == Behind(Utf8(n), Unescape(rest))
    ensures StringBody(e1 + e2) && Meaning(e1 + e2) == Some(Utf8(n))
  {
    var high, low := 0xD800 + (n - 0x10000) / 1024, 0xDC00 + (n - 0x10000) % 1024;
    SpelledUnit(e1, high);
    SpelledUnit(e2, low);
    PairOfUnits(n, e1, e2, rest);
  }

  lemma PairOfUnits(n: nat, e1: Text, e2: Text, rest: Text)
    requires 0x10000 <= n < 0x110000 && |e1| == 6 && |e2| == 6 && IsHexEscape(e1) && IsHexEscape(e2)
    requires Unit(e1) == 0xD800 + (n - 0x10000) / 1024 && Unit(e2) == 0xDC00 + (n - 0x10000) % 1024
    ensures Unescape(e1 + e2 + rest) == Behind(Utf8(n), Unescape(rest))
    ensures StringBody(e1 + e2) && Meaning(e1 + e2) == Some(Utf8(n))
  {
    assert Joined(Unit(e1), Unit(e2)) == n;
    assert IsHigh(Unit(e1)) && IsLow(Unit(e2));
    hide Strtol, LongBytes, ShortBytes, Utf8Formed, Utf8Value, Unit, Joined, StringBody;
    OnlyEscape(e1);
    OnlyEscape(e2);
    BodySum(e1, e2);
    var s, t := e1 + e2, e1 + e2 + rest;
    assert s[..6] == e1[..6] && s[6..] == e2 && s[12..] == [];
    assert t[..6] == e1[..6] && t[6..] == e2 + rest && t[12..] == rest;
    assert t[6..][..6] == e2[..6] && t[6..][2..6] == t[8..12];
    SameUnit(e1, s);
    SameUnit(e1, t);
    SameUnit(e2, t[6..]);
    FourDigits(t);
    FourDigits(t[6..]);
    MeaningOfNothing();
    assert Utf8(n) + [] == Utf8(n);
  }

  /** Any other character behind a backslash, and a backslash at the end, meet the failing assert; a \u escape of
      fewer than four characters is read past the end. */
  lemma BadEscapes(c: Char, rest: Text)
    requires c !in {'"', '\\', '/', 'b', 'f', 'n', 'r', 't', 'u'}
    ensures Unescape(['\\', c] + rest) == Aborted && Unescape(['\\']) == Aborted
    ensures |rest| < 4 ==> Unescape(['\\', 'u'] + rest) == PastEnd
  {
    hide Strtol, ShortBytes, LongBytes, Joined, Plain;
  }

  /** Half of a pair that stands alone is written with three bytes if it is the second half. */
  lemma LowAlone(n: nat, e: Text, rest: Text)
    requires IsLow(n) && Spells(e, n)
    ensures Unescape(e + rest) ==
            Behind([0xED as char, (0x80 + n / 64 % 64) as char, (0x80 + n % 64) as char], Unescape(rest))
  {
    SpelledUnit(e, n);
    LowBytes(n);
    hide Strtol, Unit, Spells, ShortBytes;
    var t := e + rest;
    assert t[..6] == e[..6] && t[6..] == rest;
    SameUnit(e, t);
    FourDigits(t);
  }

  lemma LowBytes(n: nat)
    requires IsLow(n)
    ensures ShortBytes(n) == [0xED as char, (0x80 + n / 64 % 64) as char, (0x80 + n % 64) as char]
  {
    assert n / 64 / 64 == 13;
  }

  lemma OnlyEscape(e: Text)
    requires |e| == 6 && IsHexEscape(e)
    ensures StringBody(e)
  {
    hide Unit, IsHex;
    assert e[6..] == [];
  }

  lemma BodySum(s: Text, t: Text)
    requires StringBody(s) && StringBody(t)
    ensures StringBody(s + t)
  {
    CollectsStrings(s);
    CollectsStrings(t);
    CollectsStrings(s + t);
    CollectSum(Str, s, t);
  }

  lemma MeaningOfNothing()
    ensures StringBody([]) && Meaning([]) == Some([])
  {}

  // ---- when json_unescape stays inside the text ----

  /** The length of a character that is not a \u escape. */
  function Letters(s: Text): (n: nat)
    requires s != []
    ensures 1 <= n <= |s|
  {
    if s[0] == '\\' && |s| >= 2 then 2 else 1
  }

  /** Every \u escape of a high surrogate is directly followed by another \u escape. */
  predicate Guarded(s: Text) {
    if s == [] then true
    else if !IsHexEscape(s) then Guarded(s[Letters(s)..])
    else (IsHigh(Unit(s)) ==> IsHexEscape(s[6..])) && Guarded(s[6..])
  }

  /** The same in reading order, where the escape after a high surrogate is taken with it. */
  predicate Paired(s: Text) {
    if s == [] then true
    else if !IsHexEscape(s) then Paired(s[Letters(s)..])
    else if IsHigh(Unit(s)) then IsHexEscape(s[6..]) && Paired(s[12..])
    else Paired(s[6..])
  }

  lemma {:induction false} GuardedIsPaired(s: Text)
    requires Guarded(s)
    ensures Paired(s)
    decreases |s|
  {
    hide Unit;
    if s != [] {
      if !IsHexEscape(s) {
        GuardedIsPaired(s[Letters(s)..]);
      } else if IsHigh(Unit(s)) {
        assert s[6..][6..] == s[12..];
        GuardedIsPaired(s[12..]);
      } else {
        GuardedIsPaired(s[6..]);
      }
    }
  }

  /** One step through a string whose surrogates are paired. */
  lemma PairedStep(s: Text)
    requires StringBody(s) && Paired(s) && s != []
    ensures Next(s).Chunk? && StringBody(s[Next(s).size..]) && Paired(s[Next(s).size..])
  {
    hide Strtol, Unit, StringBody, ShortBytes, LongBytes, Joined, Plain;
    RestOk(s);
    if s[0] == '\\' && s[1] == 'u' {
      FourDigits(s);
      if IsHigh(Unit(s)) {
        RestOk(s[6..]);
        assert s[6..][6..] == s[12..];
      }
    }
  }

  /** A string in which an escape follows every high surrogate is unescaped to its end. */
  lemma GuardedIsWhole(s: Text)
    requires StringBody(s) && Guarded(s)
    ensures Unescape(s).Whole?
  {
    GuardedIsPaired(s);
    PairedThen(s, []);
  }

  /** A high surrogate before something that is not an escape. */
  predicate Unpaired(e: Text, r: Text) {
    |e| == 6 && IsHexEscape(e) && IsHigh(Unit(e)) && !IsHexEscape(r)
  }

  /** Every other string has a first high surrogate that no escape follows. */
  lemma {:induction false} FirstUnpaired(s: Text) returns (p: Text, e: Text, r: Text)
    requires StringBody(s) && !Paired(s)
    ensures s == p + e + r && StringBody(p) && Paired(p) && StringBody(r) && Unpaired(e, r)
    decreases |s|
  {
    hide StringBody, Unit;
    RestOk(s);
    if IsHexEscape(s) && IsHigh(Unit(s)) && !IsHexEscape(s[6..]) {
      p, e, r := [], s[..6], s[6..];
      assert StringBody([]) by { NothingRead(); }
      SameUnit(s, e);
    } else {
      var n := if s[0] != '\\' then 1 else if s[1] != 'u' then 2 else if IsHigh(Unit(s)) then 12 else 6;
      if n == 12 {
        RestOk(s[6..]);
        assert s[6..][6..] == s[12..];
      }
      hide Paired;
      var q;
      q, e, r := FirstUnpaired(s[n..]);
      p := s[..n] + q;
      assert s == s[..n] + s[n..];
      Sum(s[..n], q + e, r);
      Sum(s[..n], q, e);
      PutBefore(s, n, q);
    }
  }

  lemma NothingRead()
    ensures StringBody([])
  {}

  lemma SameUnit(s: Text, t: Text)
    requires IsHexEscape(s) && |t| >= 6 && t[..6] == s[..6]
    ensures IsHexEscape(t) && Unit(t) == Unit(s)
  {
    assert forall i :: 0 <= i < 6 ==> t[i] == t[..6][i] && s[i] == s[..6][i];
  }

  /** One character, or a high surrogate and the escape behind it, put before a string. */
  lemma PutBefore(s: Text, n: nat, q: Text)
    requires StringBody(s) && s != [] && StringBody(q) && Paired(q)
    requires n == if s[0] != '\\' then 1 else if s[1] != 'u' then 2 else if IsHigh(Unit(s)) then 12 else 6
    requires n == 12 ==> IsHexEscape(s[6..])
    ensures n <= |s| && StringBody(s[..n] + q) && Paired(s[..n] + q)
  {
    hide Unit, IsHex;
    RestOk(s);
    var t := s[..n] + q;
    assert t[n..] == q;
    if n >= 6 {
      assert t[..6] == s[..6];
      SameUnit(s, t);
    }
    if n == 12 {
      assert t[6..][..6] == s[6..][..6] && t[6..][6..] == t[12..];
      SameUnit(s[6..], t[6..]);
      assert StringBody(t[6..]);
    }
  }

  lemma {:induction false} NoBackslash(s: Text)
    requires '\\' !in s
    ensures Unescape(s) == Whole(s)
    decreases |s|
  {
    if s != [] {
      NoBackslash(s[1..]);
      assert [s[0]] + s[1..] == s;
    }
  }

  /** What follows a string with paired surrogates is read after it. */
  lemma {:induction false} PairedThen(p: Text, x: Text)
    requires StringBody(p) && Paired(p)
    ensures Unescape(p).Whole? && Unescape(p + x) == Behind(Unescape(p).bytes, Unescape(x))
    decreases |p|
  {
    hide StringBody, Next, Paired;
    if p == [] {
      assert p + x == x;
      NothingBefore(Unescape(x));
    } else {
      PairedStep(p);
      var n := Next(p).size;
      PairedThen(p[n..], x);
      SameChunk(p, x);
      assert (p + x)[n..] == p[n..] + x;
      Regrouped(Next(p).bytes, Unescape(p[n..]).bytes, Unescape(x));
    }
  }

  lemma NothingBefore(u: Unescaped)
    ensures Behind([], u) == u
  {
    if u.Whole? {
      assert [] + u.bytes == u.bytes;
    }
  }

  lemma Regrouped(a: seq<Byte>, b: seq<Byte>, u: Unescaped)
    ensures Behind(a, Behind(b, u)) == Behind(a + b, u)
  {
    if u.Whole? {
      Sum(a, b, u.bytes);
    }
  }

  /** What happens at the first unpaired high surrogate e, with r behind it: the text is left exactly if
      fewer than six characters are behind it, as long as no backslash is among them; otherwise six
      characters, whatever they are, are taken with it. */
  lemma UnpairedExactly(p: Text, e: Text, r: Text)
    requires StringBody(p) && Paired(p) && Unpaired(e, r)
    ensures Unescape(p).Whole?
    ensures |r| < 6 ==> Unescape(p + e + r) == PastEnd
    ensures |r| >= 6 ==>
              (Unescape(p + e + r) ==
               Behind(Unescape(p).bytes + LongBytes(Joined(Unit(e), Strtol(r[2..6]))), Unescape(r[6..])))
    ensures '\\' !in r ==> (Unescape(p + e + r) == PastEnd <==> |r| < 6)
    ensures '\\' !in r ==> (Unescape(p + e + r).Whole? <==> |r| >= 6)
  {
    assert IsHexEscape(e);
    hide StringBody, Unit, Strtol, LongBytes, Joined, Next, Paired, IsHexEscape;
    Sum(p, e, r);
    PairedThen(p, e + r);
    AtUnpaired(e, r);
    if |r| >= 6 {
      Regrouped(Unescape(p).bytes, LongBytes(Joined(Unit(e), Strtol(r[2..6]))), Unescape(r[6..]));
      if '\\' !in r {
        NoBackslash(r[6..]);
      }
    }
  }

  lemma AtUnpaired(e: Text, r: Text)
    requires Unpaired(e, r)
    ensures Next(e + r) == if |r| < 6 then CutOff else Chunk(12, LongBytes(Joined(Unit(e), Strtol(r[2..6]))))
    ensures |r| >= 6 ==> (e + r)[12..] == r[6..]
  {
    hide Strtol, Unit, IsHex;
    FourDigits(e);
    assert (e + r)[2..6] == e[2..6];
    if |r| >= 6 {
      assert (e + r)[8..12] == r[2..6];
    }
  }

  lemma SameChunk(s: Text, e: Text)
    requires s != [] && Next(s).Chunk?
    ensures Next(s + e) == Next(s)
  {
    hide ShortBytes, LongBytes, Plain, Strtol, Joined, IsShort;
    var t := s + e;
    if |s| >= 6 {
      assert t[2..6] == s[2..6];
    }
    if |s| >= 12 {
      assert t[8..12] == s[8..12];
    }
  }

  /** The bytes of a value below 0x10000 that is not a high surrogate. */
  method WriteShort(value: int, result: array<char>, w: nat) returns (w': nat)
    requires value < 0x10000 && w + |ShortBytes(value)| <= result.Length
    modifies result
    ensures w' == w + |ShortBytes(value)| && result[..w'] == old(result[..w]) + ShortBytes(value)
  {
    var unicode := value;
    if unicode < 0x80 {
      result[w] := B(unicode);
      w' := w + 1;
    } else if unicode < 0x800 {
      var two := 0x80 + unicode % 64;
      unicode := unicode / 64;
      var one := 0xC0 + unicode % 32;
      result[w], result[w + 1] := B(one), B(two);
      w' := w + 2;
    } else {
      var three := 0x80 + unicode % 64;
      unicode := unicode / 64;
      var two := 0x80 + unicode % 64;
      unicode := unicode / 64;
      var one := 0xE0 + unicode % 16;
      result[w], result[w + 1], result[w + 2] := B(one), B(two), B(three);
      w' := w + 3;
    }
  }

  /** The four bytes of a pair of surrogates. */
  method WriteLong(high: int, low: int, result: array<char>, w: nat) returns (w': nat)
    requires w + 4 <= result.Length
    modifies result
    ensures w' == w + 4 && result[..w'] == old(result[..w]) + LongBytes(Joined(high, low))
  {
    var unicode := (high - 0xD800) * 1024 + (low - 0xDC00) + 0x10000;
    var four := 0x80 + unicode % 64;
    unicode := unicode / 64;
    var three := 0x80 + unicode % 64;
    unicode := unicode / 64;
    var two := 0x80 + unicode % 64;
    unicode := unicode / 64;
    var one := 0xF0 + unicode % 8;
    result[w], result[w + 1], result[w + 2], result[w + 3] := B(one), B(two), B(three), B(four);
    w' := w + 4;
  }

  datatype Ending = Going | AssertFailed | LeftText

  /** What a turn of the loop does with the next chunk. */
  ghost predicate Wrote(chunk: Chunk, end: Ending, at: nat, r: nat, before: seq<char>, after: seq<char>) {
    match chunk
    case Chunk(n, bytes) => end.Going? && r == at + n && after == before + bytes
    case BadEscape => end.AssertFailed?
    case CutOff => end.LeftText?
  }

  /** The u case of json_unescape. */
  method WriteUnicode(text: Text, at: nat, result: array<char>, w: nat) returns (end: Ending, r: nat, w': nat)
    requires w <= at && at + 1 < |text| < result.Length && text[at] == '\\' && text[at + 1] == 'u'
    modifies result
    ensures end.Going? ==> at < r <= |text| && w' <= r
    ensures w' <= result.Length && Wrote(Next(text[at..]), end, at, r, old(result[..w]), result[..w'])
  {
    hide ShortBytes, LongBytes, Joined, Strtol;
    end, r, w' := Going, at, w;
    if at + 6 > |text| {
      return LeftText, r, w';
    }
    assert text[at..][2..6] == text[at + 2..at + 6];
    var unicode := Strtol(text[at + 2..at + 6]);
    StrtolSmall(text[at + 2..at + 6]);
    r := at + 6;
    if !IsHigh(unicode) {
      ShortFits(unicode);
      w' := WriteShort(unicode, result, w);
    } else {
      if at + 12 > |text| {
        return LeftText, r, w';
      }
      assert text[at..][8..12] == text[at + 8..at + 12];
      r := at + 12;
      w' := WriteLong(unicode, Strtol(text[at + 8..at + 12]), result, w);
    }
  }

  lemma StrtolSmall(s: Text)
    requires |s| == 4
    ensures Strtol(s) < 0x10000
  {
    StrtolBound(s);
    assert Pow16(2) == 256 && Pow16(4) == 0x10000;
  }

  lemma ShortFits(n: int)
    ensures |ShortBytes(n)| <= 3
  {}

  /** What a backslash and the next character other than u stand for. */
  method WritePlain(c: Char, result: array<char>, w: nat)
    requires w < result.Length && IsShort(c)
    modifies result
    ensures result[..w + 1] == old(result[..w]) + [Plain(c)]
  {
    match c {
      case 'b' => result[w] := 8 as char;
      case 'f' => result[w] := 12 as char;
      case 'n' => result[w] := '\n';
      case 'r' => result[w] := '\r';
      case 't' => result[w] := '\t';
      case _ => result[w] := c;
    }
  }

  /** One turn of its loop. */
  method OneChunk(text: Text, at: nat, result: array<char>, w: nat) returns (end: Ending, r: nat, w': nat)
    requires w <= at < |text| < result.Length
    modifies result
    ensures end.Going? ==> at < r <= |text| && w' <= r
    ensures w' <= result.Length && Wrote(Next(text[at..]), end, at, r, old(result[..w]), result[..w'])
  {
    hide Plain, IsShort;
    end, r, w' := Going, at + 1, w;
    if text[at] != '\\' {
      result[w] := text[at];
      w' := w + 1;
    } else if at + 1 == |text| {
      end := AssertFailed;
    } else if text[at + 1] == 'u' {
      end, r, w' := WriteUnicode(text, at, result, w);
    } else if IsShort(text[at + 1]) {
      WritePlain(text[at + 1], result, w);
      r, w' := at + 2, w + 1;
    } else {
      end := AssertFailed;
    }
  }

  /** json_unescape, on any text: the bytes before the terminating zero, or how it fails; the write
      cursor never passes the read cursor. */
  method UnescapeText(text: Text) returns (end: Ending, result: array<char>, w: nat)
    ensures match Unescape(text)
            case Whole(bytes) => end.Going? && w < result.Length == |text| + 1 && result[..w] == bytes && result[w] as int == 0
            case Aborted => end.AssertFailed?
            case PastEnd => end.LeftText?
    ensures StringBody(text) && Guarded(text) ==> end.Going?
  {
    if StringBody(text) && Guarded(text) {
      GuardedIsWhole(text);
    }
    hide StringBody, Guarded, Next;
    result := new char[|text| + 1];
    var r := 0;
    end, w := Going, 0;
    assert text[0..] == text;
    while r < |text|
      invariant end.Going? && w <= r <= |text| && forall i :: 0 <= i < w ==> result[i] as int < 256
      invariant Behind(result[..w], Unescape(text[r..])) == Unescape(text)
    {
      ghost var before, at := result[..w], r;
      end, r, w := OneChunk(text, r, result, w);
      if !end.Going? {
        return;
      }
      ChunkDone(before, text, at, r, result[..w]);
    }
    result[w] := 0 as char;
  }

  lemma ChunkDone(before: seq<Byte>, text: Text, at: nat, r: nat, after: seq<char>)
    requires at < r <= |text| && Wrote(Next(text[at..]), Going, at, r, before, after)
    ensures (forall i :: 0 <= i < |after| ==> after[i] as int < 256)
    ensures Behind(after, Unescape(text[r..])) == Behind(before, Unescape(text[at..]))
  {
    var u := Unescape(text[r..]);
    var bytes := Next(text[at..]).bytes;
    assert text[at..][r - at..] == text[r..];
    if u.Whole? {
      Sum(before, bytes, u.bytes);
    }
  }
}
