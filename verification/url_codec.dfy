/** url_encode, and url_decode in place. */
module UrlCodec {
  import opened Common

  /** The bytes that stand for themselves. */
  predicate Unreserved(c: Byte) {
    '0' <= c <= '9' || 'A' <= c <= 'Z' || 'a' <= c <= 'z' || c == '-' || c == '.' || c == '_'
  }

  function HexChar(n: nat): (c: Byte)
    requires n < 16
    ensures IsHex(c) && HexValue(c) == n
  {
    if n < 10 then '0' + n as char else 'A' + (n - 10) as char
  }

  /** Section 2.1 of RFC 3986, with a plus for a space. */
  function EncodeOne(c: Byte): Bytes {
    if c == ' ' then ['+'] else if Unreserved(c) then [c]
    else ['%', HexChar(c as int / 16), HexChar(c as int % 16)]
  }

  function Encode(s: Bytes): (r: Bytes)
    ensures |r| <= 3 * |s|
  {
    if s == [] then [] else EncodeOne(s[0]) + Encode(s[1..])
  }

  predicate IsEscape(s: Bytes) {
    |s| >= 3 && s[0] == '%' && IsHex(s[1]) && IsHex(s[2])
  }

  /** How much the next step of the decoder reads, and the byte it writes. */
  function DecodeOne(s: Bytes): (r: (nat, Byte))
    requires s != []
    ensures 1 <= r.0 <= |s|
  {
    if s[0] == '+' then (1, ' ')
    else if IsEscape(s) then (3, (HexValue(s[1]) * 16 + HexValue(s[2])) as char)
    else (1, s[0])
  }

  function Decode(s: Bytes): (r: Bytes)
    ensures |r| <= |s|
    decreases |s|
  {
    if s == [] then [] else [DecodeOne(s).1] + Decode(s[DecodeOne(s).0..])
  }

  lemma {:induction false} EncodeSum(s: Bytes, c: Byte)
    ensures Encode(s + [c]) == Encode(s) + EncodeOne(c)
    decreases |s|
  {
    if s == [] {
      assert [c][1..] == [] && s + [c] == [c];
    } else {
      EncodeSum(s[1..], c);
      assert (s + [c])[1..] == s[1..] + [c];
    }
  }

  lemma DecodeEncodedByte(c: Byte, rest: Bytes)
    ensures DecodeOne(EncodeOne(c) + rest) == (|EncodeOne(c)|, c)
  {
    var e := EncodeOne(c) + rest;
    if c != ' ' && !Unreserved(c) {
      assert IsEscape(e);
    }
  }

  /** The encoding of one byte, spelled out: letters, digits and three signs stay. */
  lemma EncodeTable(c: Byte, rest: Bytes)
    ensures var digits := "0123456789ABCDEF";
            Encode([c] + rest) ==
              (if c == ' ' then ['+']
               else if 'A' <= c <= 'Z' || 'a' <= c <= 'z' || '0' <= c <= '9' || c in {'-', '.', '_'} then [c]
               else ['%', digits[c as int / 16], digits[c as int % 16]]) +
              Encode(rest)
  {
    assert ([c] + rest)[1..] == rest;
    DigitTable(c as int / 16);
    DigitTable(c as int % 16);
  }

  lemma DigitTable(n: nat)
    requires n < 16
    ensures HexChar(n) == "0123456789ABCDEF"[n]
  {}

  /** The decoder on any text: a plus is a space, and everything else stays, percent signs without two digits
      behind them among it. */
  lemma DecodePlain(c: Byte, rest: Bytes)
    ensures c == '+' ==> Decode([c] + rest) == [' '] + Decode(rest)
    ensures c != '+' && (c != '%' || |rest| < 2 || !IsHex(rest[0]) || !IsHex(rest[1])) ==>
              Decode([c] + rest) == [c] + Decode(rest)
  {
    assert ([c] + rest)[1..] == rest;
  }

  /** A percent sign and two digits, of either case, are the byte they spell. */
  lemma DecodeEscape(a: Byte, b: Byte, high: nat, low: nat, rest: Bytes)
    requires high < 16 && (a == "0123456789ABCDEF"[high] || a == "0123456789abcdef"[high])
    requires low < 16 && (b == "0123456789ABCDEF"[low] || b == "0123456789abcdef"[low])
    ensures Decode(['%', a, b] + rest) == [(16 * high + low) as char] + Decode(rest)
  {
    HexTable(high);
    HexTable(low);
    hide IsHex, HexValue;
    assert (['%', a, b] + rest)[3..] == rest;
  }

  /** Decoding an encoded string restores it, for every string of bytes. */
  lemma {:induction false} RoundTrip(s: Bytes)
    ensures Decode(Encode(s)) == s
    decreases |s|
  {
    if s != [] {
      RoundTrip(s[1..]);
      DecodeEncodedByte(s[0], Encode(s[1..]));
      assert Encode(s)[|EncodeOne(s[0])|..] == Encode(s[1..]);
    }
  }

  /** Nothing but unreserved bytes, plus and percent signs is written. */
  lemma {:induction false} EncodedIsPlain(s: Bytes)
    ensures forall i :: 0 <= i < |Encode(s)| ==> Unreserved(Encode(s)[i]) || Encode(s)[i] == '+' || Encode(s)[i] == '%'
    decreases |s|
  {
    if s != [] {
      EncodedIsPlain(s[1..]);
    }
  }

  /** The order of the comparisons in url_encode. */
  predicate NeedsEscape(c: Byte) {
    (c < '0' && c != '-' && c != '.') || (c < 'A' && c > '9') || (c > 'Z' && c < 'a' && c != '_') || c > 'z'
  }

  /** One turn of the loop of url_encode. */
  method PutEncoded(c: Byte, start: array<char>, to: nat) returns (next: nat)
    requires to + 3 <= start.Length
    modifies start
    ensures next == to + |EncodeOne(c)| <= to + 3 && start[..next] == old(start[..to]) + EncodeOne(c)
  {
    if c == ' ' {
      start[to] := '+';
      next := to + 1;
    } else if NeedsEscape(c) {
      start[to] := '%';
      start[to + 1] := HexChar(c as int / 16);
      start[to + 2] := HexChar(c as int % 16);
      next := to + 3;
    } else {
      start[to] := c;
      next := to + 1;
    }
  }

  /** url_encode: three bytes for each and the final zero are enough. */
  method UrlEncode(s: Bytes) returns (start: array<char>, to: nat)
    ensures start.Length == 3 * |s| + 1 && to < start.Length
    ensures start[..to] == Encode(s) && start[to] as int == 0
  {
    hide EncodeOne;
    start := new char[3 * |s| + 1];
    to := 0;
    var from := 0;
    while from < |s|
      invariant from <= |s| && to <= 3 * from && start[..to] == Encode(s[..from])
    {
      EncodeSum(s[..from], s[from]);
      assert s[..from + 1] == s[..from] + [s[from]];
      to := PutEncoded(s[from], start, to);
      from := from + 1;
    }
    assert s[..from] == s;
    start[to] := 0 as char;
  }

  /** The byte at the read index, and where the next one starts. */
  method GetDecoded(str: array<char>, data: nat, len: nat) returns (value: char, next: nat)
    requires data < len <= str.Length && forall i :: data <= i < len ==> str[i] as int < 256
    ensures (next - data, value) == DecodeOne(str[data..len]) && data < next <= len
  {
    value, next := str[data], data + 1;
    ghost var rest: Bytes := str[data..len];
    assert rest[0] == str[data] && (len - data >= 3 ==> rest[1] == str[data + 1] && rest[2] == str[data + 2]);
    if str[data] == '+' {
      value := ' ';
    } else if str[data] == '%' && len - data - 1 >= 2 && IsHex(str[data + 1]) && IsHex(str[data + 2]) {
      value := (HexValue(str[data + 1]) * 16 + HexValue(str[data + 2])) as char;
      next := data + 3;
    }
  }

  lemma DecodeStep(s: Bytes, at: nat, next: nat, value: Byte)
    requires at < |s| && DecodeOne(s[at..]) == (next - at, value)
    ensures next <= |s| && Decode(s[at..]) == [value] + Decode(s[next..])
  {
    assert s[at..][next - at..] == s[next..];
  }

  /** What is still to be read is untouched. */
  ghost predicate Unread(str: array<char>, data: nat, len: nat, s: Bytes)
    reads str
  {
    data <= len <= str.Length && |s| == len && forall i :: data <= i < len ==> str[i] == s[i]
  }

  /** One turn of the loop of url_decode. */
  method DecodeTurn(str: array<char>, data: nat, dest: nat, len: nat, ghost s: Bytes) returns (next: nat)
    requires dest <= data < len < str.Length && Unread(str, data, len, s)
    modifies str
    ensures data < next <= len && Unread(str, next, len, s)
    ensures str[..dest + 1] == old(str[..dest]) + [DecodeOne(s[data..]).1] && next == data + DecodeOne(s[data..]).0
    ensures forall i :: len <= i < str.Length ==> str[i] == old(str[i])
  {
    hide DecodeOne;
    assert str[data..len] == s[data..];
    var value;
    value, next := GetDecoded(str, data, len);
    str[dest] := value;
  }

  /** url_decode in place on the first len characters; the write index never passes the read index. */
  method UrlDecode(str: array<char>, len: nat) returns (dest: nat)
    requires len < str.Length && forall i :: 0 <= i < len ==> str[i] as int < 256
    modifies str
    ensures dest <= len && str[..dest] == old(Decode(str[..len])) && str[dest] as int == 0
    ensures forall i :: len < i < str.Length ==> str[i] == old(str[i])
  {
    hide DecodeOne, Decode, Unread;
    ghost var s: Bytes := str[..len];
    var data := 0;
    dest := 0;
    assert s[0..] == s && str[..dest] == [];
    Untouched(str, len, s);
    while data < len
      invariant dest <= data <= len && |s| == len && Unread(str, data, len, s)
      invariant str[..dest] + Decode(s[data..]) == Decode(s)
      invariant forall i :: len <= i < str.Length ==> str[i] == old(str[i])
    {
      ghost var before := str[..dest];
      var next := DecodeTurn(str, data, dest, len, s);
      ghost var value := DecodeOne(s[data..]).1;
      DecodeStep(s, data, next, value);
      assert before + [value] + Decode(s[next..]) == before + ([value] + Decode(s[next..]));
      data, dest := next, dest + 1;
    }
    NothingLeft(s, data);
    str[dest] := 0 as char;
  }

  lemma Untouched(str: array<char>, len: nat, s: Bytes)
    requires len <= str.Length && s == str[..len]
    ensures Unread(str, 0, len, s)
  {}

  lemma NothingLeft(s: Bytes, data: nat)
    requires data == |s|
    ensures Decode(s[data..]) == []
  {}
}
