/** What several components share: bytes, hexadecimal digits, and facts about sequences. */
module Common {
  type Byte = c: char | 0 <= c as int < 256 witness ' '
  type Bytes = seq<Byte>

  datatype Option<T> = None | Some(value: T)

  function B(n: int): Byte {
    (n % 256) as char
  }

  predicate IsHex(c: char) {
    '0' <= c <= '9' || 'A' <= c <= 'F' || 'a' <= c <= 'f'
  }

  function HexValue(c: char): (n: nat)
    requires IsHex(c)
    ensures n < 16
  {
    if c <= '9' then (c - '0') as int else if c <= 'F' then (c - 'A') as int + 10 else (c - 'a') as int + 10
  }

  /** Both spellings of the digits, in order. */
  lemma HexTable(n: nat)
    requires n < 16
    ensures IsHex("0123456789ABCDEF"[n]) && HexValue("0123456789ABCDEF"[n]) == n
    ensures IsHex("0123456789abcdef"[n]) && HexValue("0123456789abcdef"[n]) == n
  {}

  ghost predicate Distinct<T>(s: seq<T>) {
    forall i, j :: 0 <= i < j < |s| ==> s[i] != s[j]
  }

  lemma Sum<T>(a: seq<T>, b: seq<T>, c: seq<T>)
    ensures a + (b + c) == a + b + c
  {}
}
