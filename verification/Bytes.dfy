/**
  Bytes as the C code sees them: numbers below 256.
 */
module Bytes {
  import opened Options

  type byte = x: int | 0 <= x < 256

  type bytes = seq<byte>

  const NUL: byte := 0
  const BELL: byte := 7
  const BACKSPACE: byte := 8
  const TAB: byte := 9
  const NEWLINE: byte := 10
  const FORM_FEED: byte := 12
  const RETURN: byte := 13
  const SPACE: byte := 32
  const QUOTE: byte := 34
  const APOSTROPHE: byte := 39
  const SLASH: byte := 47
  const BACKSLASH: byte := 92

  // The code of an ASCII character.
  function Code(c: char): byte {
    var n := c as int;
    if n < 128 then n else 63
  }

  // A hexadecimal digit's value, None for any other byte.
  function HexValue(b: byte): (r: Option<nat>)
    ensures r.Some? ==> r.value < 16
  {
    if 48 <= b <= 57 then Some(b - 48)
    else if 97 <= b <= 102 then Some(b - 87)
    else if 65 <= b <= 70 then Some(b - 55)
    else None
  }

  // The place of a digit in the row of hexadecimal digits.
  predicate HexPlace(b: byte, n: nat) {
    n < 16 && (b == Code("0123456789abcdef"[n]) || b == Code("0123456789ABCDEF"[n]))
  }

  predicate IsHexDigit(b: byte) {
    exists n :: 0 <= n < 16 && HexPlace(b, n)
  }

  // A hexadecimal digit counts for its place in the row, in either case.
  lemma HexPlaceIs(b: byte, n: nat)
    requires n < 16
    ensures HexPlace(b, n) <==> HexValue(b) == Some(n)
  {
    assert n == 0 || n == 1 || n == 2 || n == 3 || n == 4 || n == 5 || n == 6 || n == 7
           || n == 8 || n == 9 || n == 10 || n == 11 || n == 12 || n == 13 || n == 14 || n == 15;
  }

  lemma IsHexDigitIs(b: byte)
    ensures IsHexDigit(b) <==> HexValue(b).Some?
  {
    if HexValue(b).Some? {
      HexPlaceIs(b, HexValue(b).value);
    }
    if n :| 0 <= n < 16 && HexPlace(b, n) {
      HexPlaceIs(b, n);
    }
  }

  lemma HeadAndTail<T>(s: seq<T>)
    requires s != []
    ensures [s[0]] + s[1..] == s
  {
  }

  lemma EmptyFront(s: bytes)
    ensures [] + s == s
  {
  }

  lemma SplitAt(s: bytes, n: nat)
    requires n <= |s|
    ensures s[..n] + s[n..] == s
  {
  }

  lemma DropTwice(s: bytes, i: nat, j: nat)
    requires i + j <= |s|
    ensures s[i..][j..] == s[i + j..]
  {
  }

  lemma Regroup(a: bytes, b: bytes, c: bytes)
    ensures a + (b + c) == (a + b) + c
  {
  }

  lemma Regroup4(a: bytes, b: bytes, c: bytes, d: bytes)
    ensures a + b + c + d == a + (b + c + d)
  {
  }

  // What was found before goes in front of what is found later, if it is found.
  function Prepend<T>(a: seq<T>, r: Option<seq<T>>): Option<seq<T>> {
    match r
    case None => None
    case Some(b) => Some(a + b)
  }

  lemma PrependTwice<T>(a: seq<T>, b: seq<T>, r: Option<seq<T>>)
    ensures Prepend(a, Prepend(b, r)) == Prepend(a + b, r)
    ensures Prepend([], r) == r
  {
    if r.Some? {
      assert a + (b + r.value) == (a + b) + r.value;
      assert [] + r.value == r.value;
    }
  }

  // The lower-case digit printf writes.
  function HexDigit(n: nat): (b: byte)
    requires n < 16
    ensures HexValue(b) == Some(n)
    ensures 48 <= b <= 102
  {
    if n < 10 then 48 + n else 87 + n
  }

  // The text s stands at p.
  predicate Has(c: bytes, p: nat, s: bytes) {
    p + |s| <= |c| && c[p..p + |s|] == s
  }

  lemma HasSplit(c: bytes, p: nat, a: bytes, b: bytes)
    requires Has(c, p, a + b)
    ensures Has(c, p, a) && Has(c, p + |a|, b)
  {
    var whole := c[p..p + |a + b|];
    assert c[p..p + |a|] == whole[..|a|];
    assert c[p + |a|..p + |a| + |b|] == whole[|a|..];
  }

  lemma HasJoin(c: bytes, p: nat, a: bytes, b: bytes)
    requires Has(c, p, a) && Has(c, p + |a|, b)
    ensures Has(c, p, a + b)
  {
    assert c[p..p + |a + b|] == c[p..p + |a|] + c[p + |a|..p + |a| + |b|];
  }

  lemma HasByte(c: bytes, p: nat, s: bytes, i: nat)
    requires Has(c, p, s) && i < |s|
    ensures c[p + i] == s[i]
  {
    assert c[p..p + |s|][i] == s[i];
  }
}
