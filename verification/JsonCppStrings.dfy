/**
  jsoncpp's quoting and unquoting of strings through escapes and surrogate pairs.
 */
module JsonCppStrings {
  import opened Options
  import opened Bytes

  const REPLACEMENT_CHARACTER: nat := 0xFFFD

  // ---------- UTF-8, section 3 of RFC 3629 ----------

  predicate Tail(b: byte) {
    0x80 <= b <= 0xBF
  }

  // The length of the well-formed character a byte string starts with, 0 when there is
  // none.
  function CharLength(s: bytes): (n: nat)
    ensures n <= |s| && n <= 4
  {
    if |s| == 0 then 0
    else if s[0] <= 0x7F then 1
    else if |s| >= 2 && 0xC2 <= s[0] <= 0xDF && Tail(s[1]) then 2
    else if |s| >= 3 && Tail(s[1]) && Tail(s[2])
            && ((s[0] == 0xE0 && 0xA0 <= s[1]) || 0xE1 <= s[0] <= 0xEC || (s[0] == 0xED && s[1] <= 0x9F)
                || 0xEE <= s[0] <= 0xEF) then 3
    else if |s| >= 4 && Tail(s[1]) && Tail(s[2]) && Tail(s[3])
            && ((s[0] == 0xF0 && 0x90 <= s[1]) || 0xF1 <= s[0] <= 0xF3 || (s[0] == 0xF4 && s[1] <= 0x8F)) then 4
    else 0
  }

  predicate WellFormed(s: bytes)
    decreases |s|
  {
    s == [] || (CharLength(s) > 0 && WellFormed(s[CharLength(s)..]))
  }

  // ---------- writing ----------

  // utf8ToCodepoint: the code point and how many bytes beyond the first were used.
  function Utf8ToCodepoint(s: bytes): (r: (nat, nat))
    requires s != []
    ensures r.1 < |s| && r.1 <= 3
  {
    var b := s[0];
    if b < 0x80 then (b, 0)
    else if b < 0xE0 then
      if |s| < 2 then (REPLACEMENT_CHARACTER, 0)
      else
        var c := b % 32 * 64 + s[1] % 64;
        (if c < 0x80 then REPLACEMENT_CHARACTER else c, 1)
    else if b < 0xF0 then
      if |s| < 3 then (REPLACEMENT_CHARACTER, 0)
      else
        var c := b % 16 * 4096 + s[1] % 64 * 64 + s[2] % 64;
        (if 0xD800 <= c <= 0xDFFF || c < 0x800 then REPLACEMENT_CHARACTER else c, 2)
    else if b < 0xF8 then
      if |s| < 4 then (REPLACEMENT_CHARACTER, 0)
      else
        var c := b % 8 * 262144 + s[1] % 64 * 4096 + s[2] % 64 * 64 + s[3] % 64;
        (if c < 0x10000 then REPLACEMENT_CHARACTER else c, 3)
    else (REPLACEMENT_CHARACTER, 0)
  }

  // toHex16Bit: four lower-case digits of the low sixteen bits.
  function Hex16(x: nat): (r: bytes)
    ensures |r| == 4 && Ascii(r)
  {
    [HexDigit(x / 4096 % 16), HexDigit(x / 256 % 16), HexDigit(x / 16 % 16), HexDigit(x % 16)]
  }

  predicate Ascii(s: bytes) {
    forall i :: 0 <= i < |s| ==> s[i] < 0x80
  }

  // The short escape of a byte, or nothing.
  function ShortEscape(b: byte): Option<byte> {
    if b == QUOTE || b == BACKSLASH then Some(b)
    else if b == BACKSPACE then Some(Code('b'))
    else if b == FORM_FEED then Some(Code('f'))
    else if b == NEWLINE then Some(Code('n'))
    else if b == RETURN then Some(Code('r'))
    else if b == TAB then Some(Code('t'))
    else None
  }

  function UnicodeEscape(x: nat): bytes {
    [BACKSLASH, Code('u')] + Hex16(x)
  }

  function EmitCodepoint(c: nat): bytes {
    if 0x20 <= c <= 0x7F then [c]
    else if c < 0x10000 then UnicodeEscape(c)
    else UnicodeEscape((c - 0x10000) / 1024 + 0xD800) + UnicodeEscape((c - 0x10000) % 1024 + 0xDC00)
  }

  // What one turn of the loop appends, and how many bytes it consumes.
  function Emit(s: bytes): (r: (bytes, nat))
    requires s != []
    ensures 0 < r.1 <= |s|
  {
    if ShortEscape(s[0]).Some? then ([BACKSLASH, ShortEscape(s[0]).value], 1)
    else
      var c := Utf8ToCodepoint(s);
      (EmitCodepoint(c.0), 1 + c.1)
  }

  function Body(s: bytes): bytes
    decreases |s|
  {
    if s == [] then [] else Emit(s).0 + Body(s[Emit(s).1..])
  }

  // isAnyCharRequiredQuoting: where char is signed, bytes from 0x80 on compare below a
  // space.
  predicate NeedsQuoting(s: bytes, signedChar: bool) {
    exists i :: 0 <= i < |s| && (s[i] == BACKSLASH || s[i] == QUOTE || (signedChar && s[i] >= 0x80) || s[i] < 0x80)
  }

  // What one turn appends; with emitUTF8 a byte without a short escape is copied.
  function EmitAs(s: bytes, emitUtf8: bool): (r: (bytes, nat))
    requires s != []
    ensures 0 < r.1 <= |s|
  {
    if emitUtf8 && ShortEscape(s[0]).None? then ([s[0]], 1) else Emit(s)
  }

  function BodyAs(s: bytes, emitUtf8: bool): bytes
    decreases |s|
  {
    if s == [] then [] else EmitAs(s, emitUtf8).0 + BodyAs(s[EmitAs(s, emitUtf8).1..], emitUtf8)
  }

  lemma {:induction false} BodyAsEscaped(s: bytes)
    ensures BodyAs(s, false) == Body(s)
    decreases |s|
  {
    if s != [] {
      BodyAsEscaped(s[Emit(s).1..]);
    }
  }

  // The quoted form with emitUTF8 false.
  function Quoted(s: bytes, signedChar: bool): bytes {
    if NeedsQuoting(s, signedChar) then [QUOTE] + Body(s) + [QUOTE] else [QUOTE] + s + [QUOTE]
  }

  // The quoted form either way; a null pointer gives nothing at all.
  function QuotedAs(value: Option<bytes>, signedChar: bool, emitUtf8: bool): bytes {
    match value
    case None => []
    case Some(s) =>
      if NeedsQuoting(s, signedChar) then [QUOTE] + BodyAs(s, emitUtf8) + [QUOTE] else [QUOTE] + s + [QUOTE]
  }

  lemma QuotedAsEscaped(s: bytes, signedChar: bool)
    ensures QuotedAs(Some(s), signedChar, false) == Quoted(s, signedChar)
  {
    BodyAsEscaped(s);
  }

  lemma BodySplit(s: bytes, emitUtf8: bool)
    requires s != []
    ensures BodyAs(s, emitUtf8) == EmitAs(s, emitUtf8).0 + BodyAs(s[EmitAs(s, emitUtf8).1..], emitUtf8)
  {
  }

  // A turn of the loop moves what it emits to the result.
  lemma BodyNext(value: bytes, c: nat, result: bytes, emitUtf8: bool)
    requires c < |value|
    ensures var turn := EmitAs(value[c..], emitUtf8);
            result + BodyAs(value[c..], emitUtf8) == (result + turn.0) + BodyAs(value[c + turn.1..], emitUtf8)
  {
    var turn := EmitAs(value[c..], emitUtf8);
    BodySplit(value[c..], emitUtf8);
    DropTwice(value, c, turn.1);
    Regroup(result, turn.0, BodyAs(value[c + turn.1..], emitUtf8));
  }

  // valueToQuotedStringN.
  method ValueToQuotedStringN(value: Option<bytes>, signedChar: bool, emitUtf8: bool) returns (result: bytes)
    ensures result == QuotedAs(value, signedChar, emitUtf8)
    ensures value == None <==> result == []
  {
    if value.None? {
      return [];
    }
    var s := value.value;
    var required := IsAnyCharRequiredQuoting(s, signedChar);
    if !required {
      return [QUOTE] + s + [QUOTE];
    }
    result := EscapeLoop(s, emitUtf8);
    result := result + [QUOTE];
  }

  // Its loop over the bytes.
  method EscapeLoop(s: bytes, emitUtf8: bool) returns (result: bytes)
    ensures result == [QUOTE] + BodyAs(s, emitUtf8)
  {
    result := [QUOTE];
    var c := 0;
    while c != |s|
      invariant 0 <= c <= |s|
      invariant result + BodyAs(s[c..], emitUtf8) == [QUOTE] + BodyAs(s, emitUtf8)
      decreases |s| - c
    {
      result, c := EscapeTurn(s, c, result, emitUtf8, [QUOTE] + BodyAs(s, emitUtf8));
    }
    assert result + [] == result;
  }

  method EscapeTurn(s: bytes, c: nat, done: bytes, emitUtf8: bool, ghost all: bytes) returns (result: bytes, next: nat)
    requires c < |s| && done + BodyAs(s[c..], emitUtf8) == all
    ensures c < next <= |s| && result + BodyAs(s[next..], emitUtf8) == all
  {
    BodyNext(s, c, done, emitUtf8);
    var turn := EmitAs(s[c..], emitUtf8);
    result := done + turn.0;
    next := c + turn.1;
  }

  method IsAnyCharRequiredQuoting(s: bytes, signedChar: bool) returns (r: bool)
    ensures r == NeedsQuoting(s, signedChar)
  {
    var cur := 0;
    while cur < |s|
      invariant 0 <= cur <= |s| && !NeedsQuoting(s[..cur], signedChar)
    {
      if s[cur] == BACKSLASH || s[cur] == QUOTE || (signedChar && s[cur] >= 0x80) || s[cur] < 0x80 {
        return true;
      }
      cur := cur + 1;
    }
    assert s[..cur] == s;
    return false;
  }

  // ---------- reading ----------

  // codePointToUTF8; nothing beyond the last code point.
  function CodePointToUtf8(cp: nat): bytes {
    if cp <= 0x7F then [cp]
    else if cp <= 0x7FF then [0xC0 + cp / 64 % 32, 0x80 + cp % 64]
    else if cp <= 0xFFFF then [0xE0 + cp / 4096 % 16, 0x80 + cp / 64 % 64, 0x80 + cp % 64]
    else if cp <= 0x10FFFF then
      [0xF0 + cp / 262144 % 8, 0x80 + cp / 4096 % 64, 0x80 + cp / 64 % 64, 0x80 + cp % 64]
    else []
  }

  // decodeUnicodeEscapeSequence on what follows \\u: the four digits' value.
  function Hex4(s: bytes): (r: Option<nat>)
    ensures r.Some? ==> |s| >= 4 && r.value < 0x10000
  {
    if |s| < 4 || HexValue(s[0]).None? || HexValue(s[1]).None? || HexValue(s[2]).None? || HexValue(s[3]).None? then None
    else
      Some(HexValue(s[0]).value * 4096 + HexValue(s[1]).value * 256 + HexValue(s[2]).value * 16 + HexValue(s[3]).value)
  }

  // decodeUnicodeCodePoint on what follows \\u: the code point and the bytes used.
  function CodePoint(s: bytes): (r: Option<(nat, nat)>)
    ensures r.Some? ==> 0 < r.value.1 <= |s|
  {
    match Hex4(s)
    case None => None
    case Some(unicode) =>
      if 0xD800 <= unicode <= 0xDBFF then
        if |s| - 4 < 6 || s[4] != BACKSLASH || s[5] != Code('u') then None
        else match Hex4(s[6..])
             case None => None
             case Some(pair) => Some((0x10000 + unicode % 1024 * 1024 + pair % 1024, 10))
      else Some((unicode, 4))
  }

  // The byte a short escape stands for.
  function Unescape(b: byte): Option<byte> {
    if b == QUOTE || b == SLASH || b == BACKSLASH then Some(b)
    else if b == Code('b') then Some(BACKSPACE)
    else if b == Code('f') then Some(FORM_FEED)
    else if b == Code('n') then Some(NEWLINE)
    else if b == Code('r') then Some(RETURN)
    else if b == Code('t') then Some(TAB)
    else None
  }

  // One turn of decodeString: the bytes decoded and the bytes used, None on an error.
  function Turn(s: bytes): (r: Option<(bytes, nat)>)
    requires s != []
    ensures r.Some? ==> 0 < r.value.1 <= |s|
  {
    if s[0] != BACKSLASH then Some(([s[0]], 1))
    else if |s| == 1 then None
    else if s[1] == Code('u') then
      match CodePoint(s[2..])
      case None => None
      case Some((cp, used)) => Some((CodePointToUtf8(cp), 2 + used))
    else match Unescape(s[1])
         case None => None
         case Some(b) => Some(([b], 2))
  }

  // The text between the quotes decoded, None on an error; a bare quote ends it early.
  function DecodeBody(s: bytes): Option<bytes>
    decreases |s|
  {
    if s == [] || s[0] == QUOTE then Some([])
    else match Turn(s)
         case None => None
         case Some((out, used)) =>
           Prepend(out, DecodeBody(s[used..]))
  }

  // OurReader::decodeString on a token with its quotes.
  function DecodeString(token: bytes): Option<bytes>
    requires |token| >= 2
  {
    DecodeBody(token[1..|token| - 1])
  }

  // A turn of the loop moves what it decodes in front of the rest, or fails for good.
  lemma DecodeNext(s: bytes, current: nat, decoded: bytes)
    requires current < |s| && s[current] != QUOTE
    ensures var turn := Turn(s[current..]);
            Prepend(decoded, DecodeBody(s[current..]))
            == if turn.None? then None
               else Prepend(decoded + turn.value.0, DecodeBody(s[current + turn.value.1..]))
  {
    var turn := Turn(s[current..]);
    if turn.Some? {
      DropTwice(s, current, turn.value.1);
      PrependTwice(decoded, turn.value.0, DecodeBody(s[current + turn.value.1..]));
    }
  }

  method DecodeTurn(s: bytes, current: nat, decoded: bytes, ghost all: Option<bytes>)
    returns (ok: bool, result: bytes, next: nat)
    requires current < |s| && s[current] != QUOTE && Prepend(decoded, DecodeBody(s[current..])) == all
    ensures !ok ==> all == None
    ensures ok ==> current < next <= |s| && Prepend(result, DecodeBody(s[next..])) == all
  {
    DecodeNext(s, current, decoded);
    var turn := Turn(s[current..]);
    ok, result, next := turn.Some?, decoded, current;
    if ok {
      result, next := decoded + turn.value.0, current + turn.value.1;
    }
  }

  method DecodeStringLoop(token: bytes) returns (r: Option<bytes>)
    requires |token| >= 2
    ensures r == DecodeString(token)
  {
    var s := token[1..|token| - 1];
    var decoded: bytes, current := [], 0;
    assert s[0..] == s;
    PrependTwice([], [], DecodeBody(s));
    while current != |s|
      invariant 0 <= current <= |s|
      invariant DecodeBody(s) == Prepend(decoded, DecodeBody(s[current..]))
      decreases |s| - current
    {
      if s[current] == QUOTE {
        break;
      }
      var ok;
      ok, decoded, current := DecodeTurn(s, current, decoded, DecodeBody(s));
      if !ok {
        return None;
      }
    }
    assert decoded + [] == decoded;
    return Some(decoded);
  }

  // ---------- round trip ----------

  lemma Hex4Inverts(x: nat, rest: bytes)
    requires x < 0x10000
    ensures Hex4(Hex16(x) + rest) == Some(x)
  {
    FourNibbles(x);
    var s := Hex16(x) + rest;
    assert s[0] == HexDigit(x / 4096 % 16) && s[1] == HexDigit(x / 256 % 16);
    assert s[2] == HexDigit(x / 16 % 16) && s[3] == HexDigit(x % 16);
  }

  lemma FourNibbles(x: nat)
    requires x < 0x10000
    ensures x / 4096 % 16 * 4096 + x / 256 % 16 * 256 + x / 16 % 16 * 16 + x % 16 == x
  {
    assert x / 256 == x / 16 / 16 && x / 4096 == x / 256 / 16;
  }

  lemma BmpInverts(c: nat, rest: bytes)
    requires c < 0x10000 && !(0xD800 <= c <= 0xDBFF)
    ensures Turn(UnicodeEscape(c) + rest) == Some((CodePointToUtf8(c), 6))
  {
    Hex4Inverts(c, rest);
    assert (UnicodeEscape(c) + rest)[2..] == Hex16(c) + rest;
  }

  lemma PairCodePoint(s: bytes, hi: nat, lo: nat)
    requires |s| >= 10 && Hex4(s) == Some(hi) && s[4] == BACKSLASH && s[5] == Code('u') && Hex4(s[6..]) == Some(lo)
    requires 0xD800 <= hi <= 0xDBFF
    ensures CodePoint(s) == Some((0x10000 + hi % 1024 * 1024 + lo % 1024, 10))
  {
  }

  lemma PairText(hi: bytes, lo: bytes, rest: bytes)
    requires |hi| == 4
    ensures var u := [BACKSLASH, Code('u')];
            var s := (u + hi) + (u + lo) + rest;
            && s[2..] == hi + (u + lo + rest)
            && s[6] == BACKSLASH && s[7] == Code('u')
            && s[2..][6..] == lo + rest
  {
  }

  lemma PairTurn(hiText: bytes, loText: bytes, rest: bytes, hi: nat, lo: nat)
    requires |hiText| == |loText| == 4 && 0xD800 <= hi <= 0xDBFF
    requires Hex4(hiText + ([BACKSLASH, Code('u')] + loText + rest)) == Some(hi) && Hex4(loText + rest) == Some(lo)
    ensures Turn(([BACKSLASH, Code('u')] + hiText) + ([BACKSLASH, Code('u')] + loText) + rest)
            == Some((CodePointToUtf8(0x10000 + hi % 1024 * 1024 + lo % 1024), 12))
  {
    PairText(hiText, loText, rest);
    var s := ([BACKSLASH, Code('u')] + hiText) + ([BACKSLASH, Code('u')] + loText) + rest;
    PairCodePoint(s[2..], hi, lo);
  }

  lemma Surrogates(c: nat)
    requires 0x10000 <= c <= 0x10FFFF
    ensures var hi, lo := (c - 0x10000) / 1024 + 0xD800, (c - 0x10000) % 1024 + 0xDC00;
            0xD800 <= hi <= 0xDBFF && lo <= 0xDFFF && 0x10000 + hi % 1024 * 1024 + lo % 1024 == c
  {
  }

  lemma EscapedPairTurn(hi: nat, lo: nat, rest: bytes)
    requires 0xD800 <= hi <= 0xDBFF && lo < 0x10000
    ensures Turn(UnicodeEscape(hi) + UnicodeEscape(lo) + rest)
            == Some((CodePointToUtf8(0x10000 + hi % 1024 * 1024 + lo % 1024), 12))
  {
    Hex4Inverts(hi, [BACKSLASH, Code('u')] + Hex16(lo) + rest);
    Hex4Inverts(lo, rest);
    PairTurn(Hex16(hi), Hex16(lo), rest, hi, lo);
  }

  lemma PairInverts(c: nat, rest: bytes)
    requires 0x10000 <= c <= 0x10FFFF
    ensures Turn(EmitCodepoint(c) + rest) == Some((CodePointToUtf8(c), 12))
  {
    Surrogates(c);
    EscapedPairTurn((c - 0x10000) / 1024 + 0xD800, (c - 0x10000) % 1024 + 0xDC00, rest);
  }

  // A code point outside the surrogates is read back from its escape.
  lemma EscapeInverts(c: nat, rest: bytes)
    requires c <= 0x10FFFF && !(0xD800 <= c <= 0xDFFF) && !(0x20 <= c <= 0x7F)
    ensures var e := EmitCodepoint(c);
            Turn(e + rest) == Some((CodePointToUtf8(c), |e|))
  {
    if c < 0x10000 {
      BmpInverts(c, rest);
    } else {
      PairInverts(c, rest);
    }
  }

  // The division and remainder steps of the decoder undo those of the encoder.
  lemma SixBits(high: nat, low: nat)
    requires low < 64
    ensures (high * 64 + low) / 64 == high && (high * 64 + low) % 64 == low
  {
  }

  lemma TwoBytes(s: bytes)
    requires CharLength(s) == 2
    ensures var r := Utf8ToCodepoint(s);
            r.1 == 1 && 0x80 <= r.0 <= 0x7FF && CodePointToUtf8(r.0) == [s[0], s[1]]
  {
    SixBits(s[0] % 32, s[1] % 64);
  }

  lemma ThreeBytes(s: bytes)
    requires CharLength(s) == 3
    ensures var r := Utf8ToCodepoint(s);
            && r.1 == 2 && 0x800 <= r.0 <= 0xFFFF && !(0xD800 <= r.0 <= 0xDFFF)
            && CodePointToUtf8(r.0) == [s[0], s[1], s[2]]
  {
    var h: nat, m: nat, l: nat := s[0] % 16, s[1] % 64, s[2] % 64;
    ThreeFields(h, m, l);
    assert s[0] == 0xE0 + h && s[1] == 0x80 + m && s[2] == 0x80 + l;
  }

  lemma ThreeFields(h: nat, m: nat, l: nat)
    requires h < 16 && m < 64 && l < 64
    ensures var c := h * 4096 + m * 64 + l;
            c / 4096 % 16 == h && c / 64 % 64 == m && c % 64 == l
  {
    SixBits(h * 64 + m, l);
    SixBits(h, m);
    ByTwelve((h * 64 + m) * 64 + l);
  }

  lemma FourBytes(s: bytes)
    requires CharLength(s) == 4
    ensures var r := Utf8ToCodepoint(s);
            r.1 == 3 && 0x10000 <= r.0 <= 0x10FFFF && CodePointToUtf8(r.0) == [s[0], s[1], s[2], s[3]]
  {
    var h: nat, a: nat, b: nat, l: nat := s[0] % 8, s[1] % 64, s[2] % 64, s[3] % 64;
    FourFields(h, a, b, l);
  }

  lemma FourFields(h: nat, a: nat, b: nat, l: nat)
    requires h < 8 && a < 64 && b < 64 && l < 64
    ensures var c := h * 262144 + a * 4096 + b * 64 + l;
            c / 262144 % 8 == h && c / 4096 % 64 == a && c / 64 % 64 == b && c % 64 == l
  {
    var c := ((h * 64 + a) * 64 + b) * 64 + l;
    SixBits((h * 64 + a) * 64 + b, l);
    SixBits(h * 64 + a, b);
    SixBits(h, a);
    ByTwelve(c);
    ByEighteen(c);
  }

  lemma ByTwelve(c: nat)
    ensures c / 4096 == c / 64 / 64
  {
  }

  lemma ByEighteen(c: nat)
    ensures c / 262144 == c / 64 / 64 / 64
  {
  }

  // A well-formed multi-byte character is the encoding of the code point computed for
  // it, which is no surrogate and needs an escape.
  lemma CodepointInverts(s: bytes)
    requires CharLength(s) > 1
    ensures var r := Utf8ToCodepoint(s);
            && r.1 + 1 == CharLength(s)
            && CodePointToUtf8(r.0) == s[..CharLength(s)]
            && 0x7F < r.0 <= 0x10FFFF && !(0xD800 <= r.0 <= 0xDFFF)
  {
    var n := CharLength(s);
    if n == 2 {
      TwoBytes(s);
      assert s[..2] == [s[0], s[1]];
    } else if n == 3 {
      ThreeBytes(s);
      assert s[..3] == [s[0], s[1], s[2]];
    } else {
      FourBytes(s);
      assert s[..4] == [s[0], s[1], s[2], s[3]];
    }
  }

  // One turn of the writer followed by one turn of the reader is the identity on a
  // well-formed character.
  lemma TurnInvertsEmit(s: bytes, rest: bytes)
    requires CharLength(s) > 0
    ensures var e := Emit(s);
            && e.1 == CharLength(s) && |e.0| > 0 && e.0[0] != QUOTE
            && Turn(e.0 + rest) == Some((s[..CharLength(s)], |e.0|))
  {
    var e := Emit(s);
    if CharLength(s) > 1 {
      CodepointInverts(s);
      EscapeInverts(Utf8ToCodepoint(s).0, rest);
    } else {
      assert s[..1] == [s[0]];
      if ShortEscape(s[0]).None? && s[0] < 0x20 {
        EscapeInverts(s[0], rest);
      }
    }
  }

  lemma DecodeFirst(e: bytes, rest: bytes, out: bytes, tail: bytes)
    requires e != [] && e[0] != QUOTE && Turn(e + rest) == Some((out, |e|)) && DecodeBody(rest) == Some(tail)
    ensures DecodeBody(e + rest) == Some(out + tail)
  {
    assert (e + rest)[|e|..] == rest;
  }

  // The first character, what is written for it, and its reading back.
  lemma FirstTurn(s: bytes) returns (n: nat, e: bytes)
    requires WellFormed(s) && s != []
    ensures 0 < n <= |s| && s[..n] + s[n..] == s && WellFormed(s[n..]) && Body(s) == e + Body(s[n..])
    ensures e != [] && e[0] != QUOTE && Turn(e + Body(s[n..])) == Some((s[..n], |e|))
    ensures n == CharLength(s) && e == Emit(s).0
  {
    n, e := CharLength(s), Emit(s).0;
    SplitAt(s, n);
    TurnInvertsEmit(s, Body(s[n..]));
  }

  // ---------- bytes that are no UTF-8 ----------

  // What the replacement character is read back as stands nowhere it was written for.
  lemma ReplacementDiffers(s: bytes)
    requires |s| < 3 || s[0] != 0xEF
    ensures !(CodePointToUtf8(REPLACEMENT_CHARACTER) <= s)
  {
    assert CodePointToUtf8(REPLACEMENT_CHARACTER) == [0xEF, 0xBF, 0xBD];
  }

  lemma BrokenTwo(s: bytes)
    requires s != [] && CharLength(s) == 0 && s[0] < 0xE0
    ensures var c := Utf8ToCodepoint(s).0;
            0x7F < c <= 0xFFFF && !(0xD800 <= c <= 0xDFFF) && !(CodePointToUtf8(c) <= s)
  {
    var c := Utf8ToCodepoint(s).0;
    if c == REPLACEMENT_CHARACTER {
      ReplacementDiffers(s);
    } else {
      SixBits(s[0] % 32, s[1] % 64);
      assert CodePointToUtf8(c) == [0xC0 + s[0] % 32, 0x80 + s[1] % 64];
    }
  }

  lemma BrokenThree(s: bytes)
    requires s != [] && CharLength(s) == 0 && 0xE0 <= s[0] < 0xF0
    ensures var c := Utf8ToCodepoint(s).0;
            0x7F < c <= 0xFFFF && !(0xD800 <= c <= 0xDFFF) && !(CodePointToUtf8(c) <= s)
  {
    if |s| < 3 {
      ReplacementDiffers(s);
    } else {
      var h: nat, m: nat, l: nat := s[0] % 16, s[1] % 64, s[2] % 64;
      ThreeFields(h, m, l);
      var c := h * 4096 + m * 64 + l;
      if c < 0x800 || 0xD800 <= c <= 0xDFFF {
        ReplacementDiffers(s);
      } else {
        assert CodePointToUtf8(c) == [0xE0 + h, 0x80 + m, 0x80 + l];
      }
    }
  }

  lemma BrokenFour(s: bytes)
    requires s != [] && CharLength(s) == 0 && 0xF0 <= s[0]
    ensures var c := Utf8ToCodepoint(s).0;
            0x7F < c <= 0x1FFFFF && !(0xD800 <= c <= 0xDFFF) && (c <= 0x10FFFF ==> !(CodePointToUtf8(c) <= s))
  {
    if |s| < 4 || s[0] >= 0xF8 {
      ReplacementDiffers(s);
    } else {
      var h: nat, a: nat, b: nat, l: nat := s[0] % 8, s[1] % 64, s[2] % 64, s[3] % 64;
      FourFields(h, a, b, l);
      var c := h * 262144 + a * 4096 + b * 64 + l;
      if c < 0x10000 {
        ReplacementDiffers(s);
      } else if c <= 0x10FFFF {
        assert CodePointToUtf8(c) == [0xF0 + h, 0x80 + a, 0x80 + b, 0x80 + l];
      }
    }
  }

  lemma NoHighHalf(c: nat)
    requires 0x10FFFF < c <= 0x1FFFFF
    ensures 0xDC00 <= (c - 0x10000) / 1024 + 0xD800 <= 0xDFFF
  {
  }

  lemma LowHalfLead(hi: nat)
    requires 0xDC00 <= hi <= 0xDFFF
    ensures |CodePointToUtf8(hi)| == 3 && CodePointToUtf8(hi)[0] == 0xED
  {
  }

  lemma BeyondText(c: nat, hi: nat, lo: nat, rest: bytes)
    requires 0x10FFFF < c && hi == (c - 0x10000) / 1024 + 0xD800 && lo == (c - 0x10000) % 1024 + 0xDC00
    ensures EmitCodepoint(c) + rest == UnicodeEscape(hi) + (UnicodeEscape(lo) + rest)
  {
    Regroup(UnicodeEscape(hi), UnicodeEscape(lo), rest);
  }

  // Beyond the last code point the pair written has no high half and is read one by one, the
  // low half as three bytes.
  lemma BeyondTurn(c: nat, rest: bytes)
    requires 0x10FFFF < c <= 0x1FFFFF
    ensures var turn := Turn(EmitCodepoint(c) + rest);
            turn.Some? && |turn.value.0| == 3 && turn.value.0[0] == 0xED
  {
    var hi, lo := (c - 0x10000) / 1024 + 0xD800, (c - 0x10000) % 1024 + 0xDC00;
    NoHighHalf(c);
    LowHalfLead(hi);
    BeyondText(c, hi, lo, rest);
    BmpInverts(hi, UnicodeEscape(lo) + rest);
  }

  // What is written where no character starts is never read back as the bytes there.
  lemma BrokenTurn(s: bytes, rest: bytes)
    requires s != [] && CharLength(s) == 0
    ensures var e := Emit(s).0;
            && e != [] && e[0] != QUOTE && Turn(e + rest).Some? && !(Turn(e + rest).value.0 <= s)
  {
    var c := Utf8ToCodepoint(s).0;
    if s[0] < 0xE0 {
      BrokenTwo(s);
    } else if s[0] < 0xF0 {
      BrokenThree(s);
    } else {
      BrokenFour(s);
    }
    if c <= 0x10FFFF {
      EscapeInverts(c, rest);
    } else {
      BeyondTurn(c, rest);
    }
  }

  lemma TurnThen(text: bytes, out: bytes, used: nat)
    requires text != [] && text[0] != QUOTE && Turn(text) == Some((out, used))
    ensures DecodeBody(text) == Prepend(out, DecodeBody(text[used..]))
  {
  }

  // The escaped form is read back as the bytes it was written for exactly if they are
  // well-formed UTF-8.
  lemma {:induction false} DecodeInvertsBody(s: bytes)
    ensures DecodeBody(Body(s)) == Some(s) <==> WellFormed(s)
    decreases |s|
  {
    if s != [] && CharLength(s) == 0 {
      var e, rest := Emit(s).0, Body(s[Emit(s).1..]);
      BrokenTurn(s, rest);
      var (out, used) := Turn(e + rest).value;
      TurnThen(e + rest, out, used);
    } else if s != [] {
      var n, e := CharLength(s), Emit(s).0;
      var rest := Body(s[n..]);
      TurnInvertsEmit(s, rest);
      TurnThen(e + rest, s[..n], |e|);
      assert (e + rest)[|e|..] == rest;
      DecodeInvertsBody(s[n..]);
      PrependFront(s, n, DecodeBody(rest));
    }
  }

  lemma PrependFront(s: bytes, n: nat, r: Option<bytes>)
    requires n <= |s|
    ensures Prepend(s[..n], r) == Some(s) <==> r == Some(s[n..])
  {
    if r.Some? {
      assert s[..n] + s[n..] == s;
      assert (s[..n] + r.value)[n..] == r.value;
    }
  }

  lemma QuotedInner(s: bytes, inner: bytes)
    requires s == [QUOTE] + inner + [QUOTE]
    ensures DecodeString(s) == DecodeBody(inner)
  {
    assert s[1..|s| - 1] == inner;
  }

  // Bytes that need no quoting are copied through.
  lemma {:induction false} DecodePlain(s: bytes)
    requires forall i :: 0 <= i < |s| ==> s[i] >= 0x80
    ensures DecodeBody(s) == Some(s)
  {
    if s != [] {
      DecodePlain(s[1..]);
      HeadAndTail(s);
    }
  }

  // Main theorem: reading the quoted form gives back the same bytes exactly if they are
  // well-formed UTF-8 or were copied unescaped; where char is signed, exactly if they are
  // well formed.
  lemma DecodeInvertsQuoted(s: bytes, signedChar: bool)
    ensures |Quoted(s, signedChar)| >= 2
    ensures DecodeString(Quoted(s, signedChar)) == Some(s) <==> WellFormed(s) || !NeedsQuoting(s, signedChar)
    ensures signedChar ==> (DecodeString(Quoted(s, signedChar)) == Some(s) <==> WellFormed(s))
  {
    if NeedsQuoting(s, signedChar) {
      DecodeInvertsBody(s);
      QuotedInner(Quoted(s, signedChar), Body(s));
    } else {
      DecodePlain(s);
      QuotedInner(Quoted(s, signedChar), s);
    }
  }

  lemma {:induction false} DecodeInvertsCopied(s: bytes)
    ensures DecodeBody(BodyAs(s, true)) == Some(s)
    decreases |s|
  {
    if s != [] {
      var e, rest := EmitAs(s, true).0, BodyAs(s[1..], true);
      DecodeInvertsCopied(s[1..]);
      DecodeFirst(e, rest, [s[0]], s[1..]);
      HeadAndTail(s);
    }
  }

  // With emitUTF8 the round trip holds for every byte string, well formed or not.
  lemma DecodeInvertsCopiedQuoted(s: bytes, signedChar: bool)
    ensures |QuotedAs(Some(s), signedChar, true)| >= 2
    ensures DecodeString(QuotedAs(Some(s), signedChar, true)) == Some(s)
  {
    if NeedsQuoting(s, signedChar) {
      DecodeInvertsCopied(s);
      QuotedInner(QuotedAs(Some(s), signedChar, true), BodyAs(s, true));
    } else {
      DecodePlain(s);
      QuotedInner(QuotedAs(Some(s), signedChar, true), s);
    }
  }

  lemma {:induction false} BodyAscii(s: bytes)
    ensures Ascii(Body(s))
    decreases |s|
  {
    if s != [] {
      BodyAscii(s[Emit(s).1..]);
      assert Ascii(Emit(s).0);
    }
  }

  // The quoted form of any bytes is pure ASCII where char is signed; where it is not,
  // exactly the non-empty strings without an ASCII byte slip through unescaped.
  lemma QuotedAsciiExactly(s: bytes, signedChar: bool)
    ensures Ascii(Quoted(s, signedChar)) <==> signedChar || s == [] || exists i :: 0 <= i < |s| && s[i] < 0x80
  {
    var q := Quoted(s, signedChar);
    if NeedsQuoting(s, signedChar) {
      BodyAscii(s);
    } else {
      assert s != [] ==> q[1] == s[0];
    }
  }
}
