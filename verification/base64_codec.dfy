/** base64_encode and base64_decode, against section 4 of RFC 4648. */
module Base64Codec {
  import opened Common

  // ---- the alphabet ----

  function Letter(n: nat): (c: Byte)
    requires n < 64
    ensures IsLetter(c) && Value(c) == n
  {
    if n < 26 then 'A' + n as char
    else if n < 52 then 'a' + (n - 26) as char
    else if n < 62 then '0' + (n - 52) as char
    else if n == 62 then '+' else '/'
  }

  predicate IsLetter(c: Byte) {
    'A' <= c <= 'Z' || 'a' <= c <= 'z' || '0' <= c <= '9' || c == '+' || c == '/'
  }

  /** find_pos */
  function Value(c: Byte): (n: nat)
    requires IsLetter(c)
    ensures n < 64
  {
    if 'A' <= c <= 'Z' then (c - 'A') as int
    else if 'a' <= c <= 'z' then (c - 'a') as int + 26
    else if '0' <= c <= '9' then (c - '0') as int + 52
    else if c == '+' then 62 else 63
  }

  /** Table 1 of RFC 4648. */
  const ALPHABET: string := "ABCDEFGHIJKLMNOPQRSTUVWXYZ" + "abcdefghijklmnopqrstuvwxyz" + "0123456789+/"

  lemma AlphabetTable(n: nat)
    requires n < 64
    ensures |ALPHABET| == 64 && Letter(n) == ALPHABET[n]
  {
    if n < 26 {
      UpperTable(n);
    } else if n < 52 {
      LowerTable(n - 26);
    } else {
      OtherTable(n - 52);
    }
    hide Letter;
    OneOfThree("ABCDEFGHIJKLMNOPQRSTUVWXYZ", "abcdefghijklmnopqrstuvwxyz", "0123456789+/", n);
  }

  lemma OneOfThree(a: string, b: string, c: string, n: nat)
    requires |a| == |b| == 26 && |c| == 12 && n < 64
    ensures |a + b + c| == 64
    ensures (a + b + c)[n] == if n < 26 then a[n] else if n < 52 then b[n - 26] else c[n - 52]
  {}

  lemma UpperTable(n: nat)
    requires n < 26
    ensures "ABCDEFGHIJKLMNOPQRSTUVWXYZ"[n] == Letter(n)
  {
    hide IsLetter, Value;
  }

  lemma LowerTable(n: nat)
    requires n < 26
    ensures "abcdefghijklmnopqrstuvwxyz"[n] == Letter(n + 26)
  {
    hide IsLetter, Value;
  }

  lemma OtherTable(n: nat)
    requires n < 12
    ensures "0123456789+/"[n] == Letter(n + 52)
  {
    hide IsLetter, Value;
  }

  /** base[], whose last entry is the padding */
  function Base(n: nat): Byte
    requires n <= 64
  {
    if n == 64 then '=' else Letter(n)
  }

  // ---- the encoding of the standard ----

  /** Up to three bytes, six bits at a time, with padding. */
  function EncodeGroup(s: Bytes): (r: Bytes)
    requires 1 <= |s| <= 3
    ensures |r| == 4
  {
    var a := s[0] as int;
    if |s| == 1 then [Letter(a / 4), Letter(a % 4 * 16), '=', '=']
    else
      var b := s[1] as int;
      if |s| == 2 then [Letter(a / 4), Letter(a % 4 * 16 + b / 16), Letter(b % 16 * 4), '=']
      else
        var c := s[2] as int;
        [Letter(a / 4), Letter(a % 4 * 16 + b / 16), Letter(b % 16 * 4 + c / 64), Letter(c % 64)]
  }

  function Group(s: Bytes): nat {
    if |s| < 3 then |s| else 3
  }

  function Encode(s: Bytes): Bytes
    decreases |s|
  {
    if s == [] then [] else EncodeGroup(s[..Group(s)]) + Encode(s[Group(s)..])
  }

  // ---- the decoder ----

  predicate Letters(t: Bytes) {
    forall i :: 0 <= i < |t| ==> IsLetter(t[i])
  }

  /** Up to four letters; as many bytes as letters, but at most three. */
  function DecodeGroup(t: Bytes): Bytes
    requires 1 <= |t| <= 4 && Letters(t)
  {
    var a := Value(t[0]);
    if |t| == 1 then [B(a * 4)]
    else
      var b := Value(t[1]);
      if |t| == 2 then [B(a * 4 + b / 16), B(b % 16 * 16)]
      else
        var c := Value(t[2]);
        if |t| == 3 then [B(a * 4 + b / 16), B(b % 16 * 16 + c / 4), B(c % 4 * 64)]
        else [B(a * 4 + b / 16), B(b % 16 * 16 + c / 4), B(c % 4 * 64 + Value(t[3]))]
  }

  function Four(t: Bytes): nat {
    if |t| < 4 then |t| else 4
  }

  function DecodeLetters(t: Bytes): Bytes
    requires Letters(t)
    decreases |t|
  {
    if t == [] then [] else DecodeGroup(t[..Four(t)]) + DecodeLetters(t[Four(t)..])
  }

  /** How many of the last three characters are padding. */
  function Padding(t: Bytes): (n: nat)
    requires |t| >= 3
    ensures n <= 3
  {
    (if t[|t| - 1] == '=' then 1 else 0) + (if t[|t| - 2] == '=' then 1 else 0) + if t[|t| - 3] == '=' then 1 else 0
  }

  function Body(t: Bytes): Bytes
    requires |t| >= 3
  {
    t[..|t| - Padding(t)]
  }

  // ---- round trip ----

  function Pad(s: Bytes): nat {
    if |s| % 3 == 0 then 0 else 3 - |s| % 3
  }

  /** Six bits of one byte and the top of the next come apart again. */
  lemma Bits(a: nat, b: nat, c: nat)
    requires a < 256 && b < 256 && c < 256
    ensures a / 4 * 4 + (a % 4 * 16 + b / 16) / 16 == a
    ensures (a % 4 * 16 + b / 16) % 16 * 16 + (b % 16 * 4 + c / 64) / 4 == b
    ensures (b % 16 * 4 + c / 64) % 4 * 64 + c % 64 == c
    ensures a / 4 < 64 && a % 4 * 16 + b / 16 < 64 && b % 16 * 4 + c / 64 < 64
  {
    assert b / 16 < 16 && c / 64 < 4;
    assert (a % 4 * 16 + b / 16) / 16 == a % 4 && (a % 4 * 16 + b / 16) % 16 == b / 16;
    assert (b % 16 * 4 + c / 64) / 4 == b % 16 && (b % 16 * 4 + c / 64) % 4 == c / 64;
  }

  lemma FullGroup(s: Bytes)
    requires |s| == 3
    ensures Letters(EncodeGroup(s)) && DecodeGroup(EncodeGroup(s)) == s
  {
    hide Letter, Value, IsLetter;
    var a, b, c := s[0] as int, s[1] as int, s[2] as int;
    Bits(a, b, c);
    FourLetters(a / 4, a % 4 * 16 + b / 16, b % 16 * 4 + c / 64, c % 64, a, b, c);
    assert s == [s[0], s[1], s[2]];
  }

  lemma FourLetters(p: nat, q: nat, r: nat, t: nat, a: nat, b: nat, c: nat)
    requires p < 64 && q < 64 && r < 64 && t < 64 && a < 256 && b < 256 && c < 256
    requires p * 4 + q / 16 == a && q % 16 * 16 + r / 4 == b && r % 4 * 64 + t == c
    ensures var g := [Letter(p), Letter(q), Letter(r), Letter(t)];
            Letters(g) && DecodeGroup(g) == [a as char, b as char, c as char]
  {
    hide Letter, Value, IsLetter, B;
    var g := [Letter(p), Letter(q), Letter(r), Letter(t)];
    assert Value(g[0]) == p && Value(g[1]) == q && Value(g[2]) == r && Value(g[3]) == t;
    assert DecodeGroup(g) == [B(a), B(b), B(c)];
    ByteOf(a);
    ByteOf(b);
    ByteOf(c);
  }

  lemma ByteOf(n: nat)
    requires n < 256
    ensures B(n) == n as char
  {}

  /** A short last group decodes to its bytes and one zero. */
  lemma ShortGroup(s: Bytes)
    requires 1 <= |s| <= 2
    ensures var t := EncodeGroup(s)[..|s| + 1]; Letters(t) && DecodeGroup(t) == s + [0 as char]
  {
    hide Letter, Value, IsLetter;
    var t := EncodeGroup(s)[..|s| + 1];
    if |s| == 1 {
      Bits(s[0] as int, 0, 0);
      assert t == [EncodeGroup(s)[0], EncodeGroup(s)[1]];
      assert s + [0 as char] == [s[0], 0 as char];
    } else {
      Bits(s[0] as int, s[1] as int, 0);
      assert t == [EncodeGroup(s)[0], EncodeGroup(s)[1], EncodeGroup(s)[2]];
      assert s + [0 as char] == [s[0], s[1], 0 as char];
    }
  }

  /** The encoding without its padding. */
  function Unpadded(s: Bytes): Bytes {
    if s == [] then []
    else EncodeGroup(s[..Group(s)])[..if |s| < 3 then |s| + 1 else 4] + Unpadded(s[Group(s)..])
  }

  lemma OneGroupMore(group: Bytes, rest: Bytes)
    requires |group| == 4 && Letters(group) && Letters(rest)
    ensures Letters(group + rest) && DecodeLetters(group + rest) == DecodeGroup(group) + DecodeLetters(rest)
  {
    var t := group + rest;
    assert t[..4] == group && t[4..] == rest;
    forall i | 0 <= i < |t| ensures IsLetter(t[i]) {
      assert t[i] == if i < 4 then group[i] else rest[i - 4];
    }
  }

  lemma LastLetters(t: Bytes)
    requires 1 <= |t| <= 3 && Letters(t)
    ensures DecodeLetters(t) == DecodeGroup(t)
  {
    assert t[..Four(t)] == t && t[Four(t)..] == [];
  }

  lemma {:induction false} UnpaddedDecodes(s: Bytes)
    ensures Letters(Unpadded(s))
    ensures DecodeLetters(Unpadded(s)) == if |s| % 3 == 0 then s else s + [0 as char]
    decreases |s|
  {
    hide EncodeGroup, DecodeGroup, IsLetter;
    if s != [] {
      var rest := s[Group(s)..];
      UnpaddedDecodes(rest);
      if |s| >= 3 {
        var group := EncodeGroup(s[..3]);
        FullGroup(s[..3]);
        assert group[..4] == group;
        assert Unpadded(s) == group + Unpadded(rest);
        hide DecodeLetters, Unpadded;
        OneGroupMore(group, Unpadded(rest));
        assert s == s[..3] + rest;
        assert |rest| % 3 == |s| % 3;
      } else {
        ShortGroup(s);
        UnpaddedShort(s);
        hide DecodeLetters, Unpadded;
        LastLetters(Unpadded(s));
      }
    }
  }

  lemma UnpaddedShort(s: Bytes)
    requires 1 <= |s| <= 2
    ensures Unpadded(s) == EncodeGroup(s)[..|s| + 1]
  {
    assert s[..|s|] == s && s[|s|..] == [];
  }

  function Signs(n: nat): Bytes {
    if n == 0 then [] else Signs(n - 1) + ['=']
  }

  /** How the groups end. */
  lemma GroupEnd(s: Bytes)
    requires 1 <= |s| <= 3
    ensures var g := EncodeGroup(s);
            && g == g[..if |s| < 3 then |s| + 1 else 4] + Signs(Pad(s))
            && (g[3] == '=' <==> |s| < 3) && (g[2] == '=' <==> |s| < 2) && g[1] != '='
  {
    NoLetterIsSign();
    hide Letter, IsLetter, Value, Signs;
    EndsInSigns(EncodeGroup(s), if |s| < 3 then |s| + 1 else 4);
  }

  lemma EndsInSigns(g: Bytes, k: nat)
    requires |g| == 4 && 2 <= k <= 4 && forall i :: k <= i < 4 ==> g[i] == '='
    ensures g == g[..k] + Signs(4 - k)
  {
    assert Signs(1) == ['='] && Signs(2) == ['=', '='];
  }

  lemma NoLetterIsSign()
    ensures forall n: nat :: n < 64 ==> Letter(n) != '='
  {}

  /** The padding is what the decoder takes off. */
  lemma {:induction false} EncodedBody(s: Bytes)
    requires s != []
    ensures Encode(s) == Unpadded(s) + Signs(Pad(s)) && |Encode(s)| >= 4
    ensures Padding(Encode(s)) == Pad(s) && Body(Encode(s)) == Unpadded(s)
    decreases |s|
  {
    hide EncodeGroup, Padding, Body;
    if |s| > 3 {
      var rest := s[Group(s)..];
      var group := EncodeGroup(s[..Group(s)]);
      EncodedBody(rest);
      assert Encode(s) == group + Encode(rest);
      assert group[..4] == group;
      assert Unpadded(s) == group + Unpadded(rest);
      hide Encode, Unpadded;
      assert |rest| % 3 == |s| % 3;
      SameEnd(group, Encode(rest));
      Sum(group, Unpadded(rest), Signs(Pad(s)));
    } else {
      OneGroup(s);
      hide Encode, Unpadded;
      GroupEnd(s);
      EndPadding(EncodeGroup(s), s);
    }
  }

  lemma OneGroup(s: Bytes)
    requires 1 <= |s| <= 3
    ensures Encode(s) == EncodeGroup(s) && Unpadded(s) == EncodeGroup(s)[..if |s| < 3 then |s| + 1 else 4]
  {
    hide EncodeGroup;
    assert s[..Group(s)] == s && s[Group(s)..] == [];
    assert Encode(s) == EncodeGroup(s) + [];
    assert Unpadded(s) == EncodeGroup(s)[..if |s| < 3 then |s| + 1 else 4] + [];
  }

  lemma EndPadding(g: Bytes, s: Bytes)
    requires 1 <= |s| <= 3 && |g| == 4
    requires (g[3] == '=' <==> |s| < 3) && (g[2] == '=' <==> |s| < 2) && g[1] != '='
    ensures Padding(g) == Pad(s) && Body(g) == g[..if |s| < 3 then |s| + 1 else 4]
  {}

  lemma SameEnd(group: Bytes, t: Bytes)
    requires |t| >= 3
    ensures Padding(group + t) == Padding(t) && Body(group + t) == group + Body(t)
  {
    var u := group + t;
    assert u[|u| - 1] == t[|t| - 1] && u[|u| - 2] == t[|t| - 2] && u[|u| - 3] == t[|t| - 3];
  }

  /** What base64_decode makes of a text whose letters end before its padding. */
  function Decode(t: Bytes): Bytes
    requires |t| >= 3 && Letters(Body(t))
  {
    DecodeLetters(Body(t))
  }

  /** Decoding an encoded string gives the string, and one zero more unless its length is a multiple of three. */
  lemma RoundTrip(s: Bytes)
    requires s != []
    ensures |Encode(s)| >= 3 && Letters(Body(Encode(s)))
    ensures Decode(Encode(s)) == if |s| % 3 == 0 then s else s + [0 as char]
  {
    EncodedBody(s);
    UnpaddedDecodes(s);
  }

  /** Everything before the first zero. */
  function CString(s: Bytes): Bytes {
    if s == [] || s[0] as int == 0 then [] else [s[0]] + CString(s[1..])
  }

  lemma {:induction false} CStringOf(s: Bytes, tail: Bytes)
    requires forall i :: 0 <= i < |s| ==> s[i] as int != 0
    requires tail == [] || tail[0] as int == 0
    ensures CString(s + tail) == s
    decreases |s|
  {
    if s == [] {
      assert s + tail == tail;
    } else {
      assert (s + tail)[1..] == s[1..] + tail;
      CStringOf(s[1..], tail);
    }
  }

  /** As C strings the two are equal, for every nonempty string without zeros. */
  lemma RoundTripAsStrings(s: Bytes)
    requires s != [] && forall i :: 0 <= i < |s| ==> s[i] as int != 0
    ensures |Encode(s)| >= 3 && Letters(Body(Encode(s))) && CString(Decode(Encode(s))) == s
  {
    RoundTrip(s);
    CStringOf(s, []);
    CStringOf(s, [0 as char]);
    assert s + [] == s;
  }

  // ---- the loops ----

  /** Shifting by six bits i times less than three. */
  function Sextet(prepare: nat, i: nat): (n: nat)
    requires i < 4
    ensures n < 64
  {
    if i == 0 then prepare / 262144 % 64 else if i == 1 then prepare / 4096 % 64
    else if i == 2 then prepare / 64 % 64 else prepare % 64
  }

  function Octet(prepare: nat, i: nat): (n: nat)
    requires i < 3
    ensures n < 256
  {
    if i == 0 then prepare / 65536 % 256 else if i == 1 then prepare / 256 % 256 else prepare % 256
  }

  lemma SextetsOf(a: nat, b: nat, c: nat)
    requires a < 256 && b < 256 && c < 256
    ensures var n := a * 65536 + b * 256 + c;
            Sextet(n, 0) == a / 4 && Sextet(n, 1) == a % 4 * 16 + b / 16 &&
            Sextet(n, 2) == b % 16 * 4 + c / 64 && Sextet(n, 3) == c % 64
  {
    var n := a * 65536 + b * 256 + c;
    var p, q, r, t := a / 4, a % 4 * 16 + b / 16, b % 16 * 4 + c / 64, c % 64;
    Bits(a, b, c);
    assert n == p * 262144 + q * 4096 + r * 64 + t;
    Digits(p, q, r, t);
  }

  lemma Digits(p: nat, q: nat, r: nat, t: nat)
    requires p < 64 && q < 64 && r < 64 && t < 64
    ensures var n := p * 262144 + q * 4096 + r * 64 + t;
            Sextet(n, 0) == p && Sextet(n, 1) == q && Sextet(n, 2) == r && Sextet(n, 3) == t
  {
    var n := p * 262144 + q * 4096 + r * 64 + t;
    assert n / 64 == p * 4096 + q * 64 + r;
    assert n / 4096 == p * 64 + q;
    assert n / 262144 == p;
  }

  lemma OctetsOf(p: nat, q: nat, r: nat, t: nat)
    requires p < 64 && q < 64 && r < 64 && t < 64
    ensures var n := p * 262144 + q * 4096 + r * 64 + t;
            Octet(n, 0) == p * 4 + q / 16 && Octet(n, 1) == q % 16 * 16 + r / 4 && Octet(n, 2) == r % 4 * 64 + t
  {
    var qh, ql, rh, rl := q / 16, q % 16, r / 4, r % 4;
    assert q == qh * 16 + ql && r == rh * 4 + rl;
    ThreeOctets(p * 4 + qh, ql * 16 + rh, rl * 64 + t);
  }

  lemma ThreeOctets(a: nat, b: nat, c: nat)
    requires a < 256 && b < 256 && c < 256
    ensures var n := a * 65536 + b * 256 + c; Octet(n, 0) == a && Octet(n, 1) == b && Octet(n, 2) == c
  {
    var n := a * 65536 + b * 256 + c;
    assert n / 256 == a * 256 + b;
    assert n / 65536 == a;
  }

  /** Position i of a group, with zeros behind its end. */
  function ByteAt(g: Bytes, i: nat): nat {
    if i < |g| then g[i] as int else 0
  }

  function ValueAt(g: Bytes, i: nat): (n: nat)
    requires Letters(g)
    ensures n < 64
  {
    if i < |g| then Value(g[i]) else 0
  }

  lemma GroupBySextets(g: Bytes, i: nat)
    requires 1 <= |g| <= 3 && i < 4
    ensures EncodeGroup(g)[i] ==
            Base(if |g| < i then 64 else Sextet(ByteAt(g, 0) * 65536 + ByteAt(g, 1) * 256 + ByteAt(g, 2), i))
  {
    hide Letter, Sextet;
    SextetsOf(ByteAt(g, 0), ByteAt(g, 1), ByteAt(g, 2));
    SextetsOf(ByteAt(g, 0), ByteAt(g, 1), 0);
  }

  lemma GroupByOctets(t: Bytes, i: nat)
    requires 1 <= |t| <= 4 && Letters(t) && i < 3 && i < |t|
    ensures |DecodeGroup(t)| == if |t| < 3 then |t| else 3
    ensures DecodeGroup(t)[i] == B(Octet(ValueAt(t, 0) * 262144 + ValueAt(t, 1) * 4096 + ValueAt(t, 2) * 64 + ValueAt(t, 3), i))
  {
    hide Value, IsLetter, Octet;
    OctetsOf(ValueAt(t, 0), ValueAt(t, 1), ValueAt(t, 2), ValueAt(t, 3));
  }

  /** Three bytes gathered in one number. */
  method Gather(src: Bytes, tmp: nat) returns (prepare: nat, temp: nat)
    requires tmp < |src|
    ensures var g := src[tmp..][..Group(src[tmp..])];
            temp == |g| && prepare == ByteAt(g, 0) * 65536 + ByteAt(g, 1) * 256 + ByteAt(g, 2)
  {
    prepare, temp := 0, 0;
    while temp < 3
      invariant temp <= 3 && tmp + temp <= |src|
      invariant temp == 0 ==> prepare == 0
      invariant temp == 1 ==> prepare == src[tmp] as int
      invariant temp == 2 ==> prepare == src[tmp] as int * 256 + src[tmp + 1] as int
      invariant temp == 3 ==> prepare == src[tmp] as int * 65536 + src[tmp + 1] as int * 256 + src[tmp + 2] as int
    {
      if tmp + temp >= |src| {
        break;
      }
      prepare := prepare * 256 + src[tmp + temp] as int;
      temp := temp + 1;
    }
    if temp == 1 {
      prepare := prepare * 65536;
    } else if temp == 2 {
      prepare := prepare * 256;
    }
  }

  /** base64_encode: dest needs four characters for every three begun, and the final zero. */
  method Base64Encode(src: Bytes, dest: array<char>) returns (w: nat)
    requires dest.Length > |Encode(src)|
    modifies dest
    ensures w == |Encode(src)| && dest[..w] == Encode(src) && dest[w] as int == 0
  {
    hide EncodeGroup, Encode;
    var tmp := 0;
    w := 0;
    assert src[0..] == src && dest[..w] == [];
    while tmp < |src|
      invariant tmp <= |src| && w <= |Encode(src)|
      invariant dest[..w] + Encode(src[tmp..]) == Encode(src)
    {
      ghost var rest, before := src[tmp..], dest[..w];
      EncodeStep(rest);
      var prepare, temp := Gather(src, tmp);
      ghost var g := rest[..temp];
      assert rest[temp..] == src[tmp + temp..];
      assert |Encode(rest)| >= 4;
      for i := 0 to 4
        invariant dest[..w + i] == before + EncodeGroup(g)[..i]
      {
        GroupBySextets(g, i);
        dest[w + i] := Base(if temp < i then 64 else Sextet(prepare, i));
        assert EncodeGroup(g)[..i + 1] == EncodeGroup(g)[..i] + [EncodeGroup(g)[i]];
      }
      assert EncodeGroup(g)[..4] == EncodeGroup(g);
      Sum(before, EncodeGroup(g), Encode(src[tmp + temp..]));
      tmp, w := tmp + temp, w + 4;
    }
    NothingEncoded(src, tmp);
    dest[w] := 0 as char;
  }

  /** Four characters for every three bytes begun. */
  lemma {:induction false} EncodedLength(s: Bytes)
    ensures |Encode(s)| == (|s| + 2) / 3 * 4
    decreases |s|
  {
    hide EncodeGroup;
    if s != [] {
      EncodedLength(s[Group(s)..]);
    }
  }

  lemma EncodeStep(s: Bytes)
    requires s != []
    ensures Encode(s) == EncodeGroup(s[..Group(s)]) + Encode(s[Group(s)..])
  {}

  lemma NothingEncoded(s: Bytes, at: nat)
    requires at == |s|
    ensures Encode(s[at..]) == []
  {}

  lemma DecodeStep(t: Bytes)
    requires t != [] && Letters(t)
    ensures DecodeLetters(t) == DecodeGroup(t[..Four(t)]) + DecodeLetters(t[Four(t)..])
  {}

  /** Up to four letters gathered in one number. */
  method Collect(src: Bytes, tmp: nat, end: nat) returns (prepare: nat, temp: nat)
    requires tmp < end <= |src| && Letters(src[..end])
    ensures var g := src[tmp..end][..Four(src[tmp..end])];
            temp == |g| && Letters(g) &&
            prepare == ValueAt(g, 0) * 262144 + ValueAt(g, 1) * 4096 + ValueAt(g, 2) * 64 + ValueAt(g, 3)
  {
    hide Value, IsLetter;
    assert forall i :: 0 <= i < end ==> IsLetter(src[..end][i]) && src[..end][i] == src[i];
    prepare, temp := 0, 0;
    while temp < 4
      invariant temp <= 4 && tmp + temp <= end
      invariant temp == 0 ==> prepare == 0
      invariant temp == 1 ==> prepare == Value(src[tmp])
      invariant temp == 2 ==> prepare == Value(src[tmp]) * 64 + Value(src[tmp + 1])
      invariant temp == 3 ==> prepare == Value(src[tmp]) * 4096 + Value(src[tmp + 1]) * 64 + Value(src[tmp + 2])
      invariant temp == 4 ==> prepare == Value(src[tmp]) * 262144 + Value(src[tmp + 1]) * 4096 +
                                         Value(src[tmp + 2]) * 64 + Value(src[tmp + 3])
    {
      if tmp + temp >= end {
        break;
      }
      prepare := prepare * 64 + Value(src[tmp + temp]);
      temp := temp + 1;
    }
    if temp == 1 {
      prepare := prepare * 262144;
    } else if temp == 2 {
      prepare := prepare * 4096;
    } else if temp == 3 {
      prepare := prepare * 64;
    }
  }

  /** The inner loop of base64_decode: as many bytes as letters, but at most three. */
  method PutOctets(prepare: nat, temp: nat, dest: array<char>, w: nat, ghost t: Bytes) returns (i: nat)
    requires 1 <= |t| <= 4 && Letters(t) && temp == |t| && w + |DecodeGroup(t)| <= dest.Length
    requires prepare == ValueAt(t, 0) * 262144 + ValueAt(t, 1) * 4096 + ValueAt(t, 2) * 64 + ValueAt(t, 3)
    modifies dest
    ensures i == |DecodeGroup(t)| && dest[..w + i] == old(dest[..w]) + DecodeGroup(t)
  {
    hide DecodeGroup, IsLetter, Octet, ValueAt;
    GroupByOctets(t, 0);
    i := 0;
    while i < 3
      invariant i <= 3 && i <= temp
      invariant dest[..w + i] == old(dest[..w]) + DecodeGroup(t)[..i]
    {
      if i == temp {
        break;
      }
      GroupByOctets(t, i);
      dest[w + i] := B(Octet(prepare, i));
      assert DecodeGroup(t)[..i + 1] == DecodeGroup(t)[..i] + [DecodeGroup(t)[i]];
      i := i + 1;
    }
    assert DecodeGroup(t)[..i] == DecodeGroup(t);
  }

  /** base64_decode of a text whose letters end before its padding. */
  method Base64Decode(src: Bytes, dest: array<char>) returns (w: nat)
    requires |src| >= 3 && Letters(Body(src)) && dest.Length > |Decode(src)|
    modifies dest
    ensures w == |Decode(src)| && dest[..w] == Decode(src) && dest[w] as int == 0
  {
    hide DecodeGroup, DecodeLetters, IsLetter;
    var equalCount := 0;
    if src[|src| - 1] == '=' { equalCount := equalCount + 1; }
    if src[|src| - 2] == '=' { equalCount := equalCount + 1; }
    if src[|src| - 3] == '=' { equalCount := equalCount + 1; }
    var end := |src| - equalCount;
    ghost var body := src[..end];
    assert body == Body(src);
    var tmp := 0;
    w := 0;
    assert body[0..] == body && dest[..w] == [];
    while tmp < end
      invariant tmp <= end && w <= |Decode(src)|
      invariant Letters(body[tmp..]) && dest[..w] + DecodeLetters(body[tmp..]) == DecodeLetters(body)
    {
      ghost var rest, before := body[tmp..], dest[..w];
      assert rest == src[tmp..end];
      DecodeStep(rest);
      var prepare, temp := Collect(src, tmp, end);
      ghost var g := rest[..temp];
      assert rest[temp..] == body[tmp + temp..];
      var i := PutOctets(prepare, temp, dest, w, g);
      Sum(before, DecodeGroup(g), DecodeLetters(body[tmp + temp..]));
      tmp, w := tmp + temp, w + i;
    }
    NothingDecoded(body, tmp);
    dest[w] := 0 as char;
  }

  lemma NothingDecoded(t: Bytes, at: nat)
    requires at == |t| && Letters(t[at..])
    ensures DecodeLetters(t[at..]) == []
  {}

  // ---- the standard's own words: 24 bits as four letters ----

  lemma FourWords(a: nat, b: nat, c: nat, n: nat)
    requires a < 256 && b < 256 && c < 256 && n == a * 65536 + b * 256 + c
    ensures n / 262144 == a / 4 && n / 4096 % 64 == a % 4 * 16 + b / 16
    ensures n / 64 % 64 == b % 16 * 4 + c / 64 && n % 64 == c % 64
  {
    SextetsOf(a, b, c);
    TopWord(a, b, c, n);
  }

  lemma TopWord(a: nat, b: nat, c: nat, n: nat)
    requires a < 256 && b < 256 && c < 256 && n == a * 65536 + b * 256 + c
    ensures n / 262144 == a / 4
  {
    assert n == a / 4 * 262144 + (a % 4 * 65536 + b * 256 + c);
  }

  /** The letters of a number of 24 bits, six bits each. */
  function Words(n: nat): Bytes
    requires n < 0x1000000
  {
    [Letter(n / 262144), Letter(n / 4096 % 64), Letter(n / 64 % 64), Letter(n % 64)]
  }

  /** Three bytes are the four letters of their 24 bits, and the rest follows. */
  lemma EncodeThree(a: Byte, b: Byte, c: Byte, rest: Bytes)
    ensures Encode([a, b, c] + rest) == Words(a as int * 65536 + b as int * 256 + c as int) + Encode(rest)
  {
    hide EncodeGroup, Words;
    var s := [a, b, c] + rest;
    assert s[..3] == [a, b, c] && s[3..] == rest;
    GroupWords(a, b, c, a as int * 65536 + b as int * 256 + c as int);
  }

  lemma GroupWords(a: Byte, b: Byte, c: Byte, n: nat)
    requires n == a as int * 65536 + b as int * 256 + c as int
    ensures EncodeGroup([a, b, c]) == Words(n)
  {
    hide Letter;
    FourWords(a as int, b as int, c as int, n);
  }

  /** Two bytes at the end are padded with zeros, and the missing letter is an equals sign. */
  lemma EncodeTwo(a: Byte, b: Byte)
    ensures Encode([a, b]) == Words(a as int * 65536 + b as int * 256)[..3] + ['=']
  {
    hide EncodeGroup, Encode, Words;
    OneGroup([a, b]);
    PairWords(a, b, a as int * 65536 + b as int * 256);
  }

  lemma PairWords(a: Byte, b: Byte, n: nat)
    requires n == a as int * 65536 + b as int * 256
    ensures EncodeGroup([a, b]) == Words(n)[..3] + ['=']
  {
    hide Letter;
    FourWords(a as int, b as int, 0, n);
    assert Words(n)[..3] == [Letter(n / 262144), Letter(n / 4096 % 64), Letter(n / 64 % 64)];
  }

  /** One byte at the end is padded with zeros, and the missing letters are equals signs. */
  lemma EncodeOne(a: Byte)
    ensures Encode([a]) == Words(a as int * 65536)[..2] + ['=', '=']
  {
    hide Letter, Encode;
    OneGroup([a]);
    var n := a as int * 65536;
    FourWords(a as int, 0, 0, n);
    assert Words(n)[..2] == [Letter(n / 262144), Letter(n / 4096 % 64)];
  }

  /** The three bytes of a number of 24 bits. */
  function Octets(n: nat): Bytes {
    [(n / 65536 % 256) as char, (n / 256 % 256) as char, (n % 256) as char]
  }

  /** Four letters of the alphabet are the three bytes of their 24 bits. */
  lemma DecodeFour(p: nat, q: nat, r: nat, t: nat, rest: Bytes)
    requires p < 64 && q < 64 && r < 64 && t < 64 && Letters(rest)
    ensures Letters([Letter(p), Letter(q), Letter(r), Letter(t)] + rest)
    ensures DecodeLetters([Letter(p), Letter(q), Letter(r), Letter(t)] + rest) ==
            Octets(p * 262144 + q * 4096 + r * 64 + t) + DecodeLetters(rest)
  {
    hide Letter, Value, IsLetter;
    var four := [Letter(p), Letter(q), Letter(r), Letter(t)];
    assert (four + rest)[..4] == four && (four + rest)[4..] == rest;
    OctetsOf(p, q, r, t);
    FourOctets(p, q, r, t, four);
  }

  lemma FourOctets(p: nat, q: nat, r: nat, t: nat, four: Bytes)
    requires p < 64 && q < 64 && r < 64 && t < 64 && four == [Letter(p), Letter(q), Letter(r), Letter(t)]
    ensures Letters(four) && DecodeGroup(four) == Octets(p * 262144 + q * 4096 + r * 64 + t)
  {
    hide Letter, Value, IsLetter, Octets, B;
    OctetBytes(p, q, r, t, p * 262144 + q * 4096 + r * 64 + t);
    assert forall i :: 0 <= i < 4 ==> IsLetter(four[i]);
  }

  lemma OctetBytes(p: nat, q: nat, r: nat, t: nat, n: nat)
    requires p < 64 && q < 64 && r < 64 && t < 64 && n == p * 262144 + q * 4096 + r * 64 + t
    ensures Octets(n) == [B(p * 4 + q / 16), B(q % 16 * 16 + r / 4), B(r % 4 * 64 + t)]
  {
    OctetsOf(p, q, r, t);
    OctetDigits(n);
    SmallByte(Octet(n, 0));
    SmallByte(Octet(n, 1));
    SmallByte(Octet(n, 2));
    hide Octet, Octets, B;
  }

  lemma SmallByte(n: nat)
    requires n < 256
    ensures B(n) == n as char
  {}

  lemma OctetDigits(n: nat)
    ensures Octets(n) == [Octet(n, 0) as char, Octet(n, 1) as char, Octet(n, 2) as char]
  {}
}
