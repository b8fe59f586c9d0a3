/**
  cJSON reads the strings jsoncpp writes: both mean the same by escapes, code points and
  surrogate pairs.
 */
module CJsonInterop {
  import opened Bytes
  import opened CJson
  import opened CJsonText
  import opened CJsonStringText
  import opened CJsonRfc
  import Writer = JsonCppStrings

  // The two encoders of code points agree.
  lemma SameUtf8(cp: nat)
    requires cp <= 0x10FFFF
    ensures Utf8(cp) == Writer.CodePointToUtf8(cp)
  {
  }

  predicate Lower(h: bytes) {
    forall i :: 0 <= i < |h| ==> 48 <= h[i] <= 57 || 97 <= h[i] <= 102
  }

  // How jsoncpp chooses among the units for a character: ASCII from the space on as itself, a
  // short escape where there is one but not for the slash, else digits in lower case.
  predicate Tidy(u: Unit) {
    match u
    case Raw(b) => b < 128
    case Short(e) => e != 47
    case Code4(h) =>
      FourHex(h) && Lower(h)
      && var cp := HexNumber(h); (cp < 32 || cp > 127) && cp != 8 && cp != 9 && cp != 10 && cp != 12 && cp != 13
    case Pair(h, l) => Lower(h) && Lower(l)
    case Bad(_) => false
  }

  lemma HexOfDigits(x: nat)
    requires x < 0x10000
    ensures FourHex(Writer.Hex16(x)) && HexNumber(Writer.Hex16(x)) == x && Lower(Writer.Hex16(x))
  {
    Writer.FourNibbles(x);
  }

  lemma SingleUnit(cp: nat) returns (u: Unit)
    requires cp < 0x10000 && !(0xD800 <= cp <= 0xDFFF)
    requires (cp < 32 || cp > 127) && cp != 8 && cp != 9 && cp != 10 && cp != 12 && cp != 13
    ensures Strict(u) && Tidy(u)
    ensures UnitText(u) == Writer.UnicodeEscape(cp) && UnitValue(u) == Writer.CodePointToUtf8(cp)
  {
    HexOfDigits(cp);
    SameUtf8(cp);
    u := Code4(Writer.Hex16(cp));
  }

  lemma PairOf(cp: nat, hi: nat, lo: nat)
    requires 0x10000 <= cp <= 0x10FFFF && hi == (cp - 0x10000) / 1024 + 0xD800 && lo == (cp - 0x10000) % 1024 + 0xDC00
    ensures 0xD800 <= hi <= 0xDBFF && 0xDC00 <= lo <= 0xDFFF && PairPoint(hi, lo) == cp
  {
  }

  lemma PairUnit(cp: nat, hi: nat, lo: nat) returns (u: Unit)
    requires 0x10000 <= cp <= 0x10FFFF && hi == (cp - 0x10000) / 1024 + 0xD800 && lo == (cp - 0x10000) % 1024 + 0xDC00
    ensures Strict(u) && Tidy(u) && UnitText(u) == Writer.UnicodeEscape(hi) + Writer.UnicodeEscape(lo)
    ensures UnitValue(u) == Writer.CodePointToUtf8(cp)
  {
    PairOf(cp, hi, lo);
    HexOfDigits(hi);
    HexOfDigits(lo);
    SameUtf8(cp);
    u := Pair(Writer.Hex16(hi), Writer.Hex16(lo));
  }

  lemma CodepointUnit(cp: nat) returns (u: Unit)
    requires cp <= 0x10FFFF && !(0xD800 <= cp <= 0xDFFF)
    requires (cp < 32 || cp > 127) && cp != 8 && cp != 9 && cp != 10 && cp != 12 && cp != 13
    ensures Strict(u) && Tidy(u)
    ensures UnitText(u) == Writer.EmitCodepoint(cp) && UnitValue(u) == Writer.CodePointToUtf8(cp)
  {
    if cp < 0x10000 {
      u := SingleUnit(cp);
    } else {
      u := PairUnit(cp, (cp - 0x10000) / 1024 + 0xD800, (cp - 0x10000) % 1024 + 0xDC00);
    }
  }

  // What jsoncpp writes for a well-formed character is a unit that stands for it.
  lemma EmitIsUnit(s: bytes) returns (u: Unit)
    requires Writer.CharLength(s) > 0
    ensures Strict(u) && Tidy(u) && UnitText(u) == Writer.Emit(s).0 && UnitValue(u) == s[..Writer.CharLength(s)]
  {
    if Writer.CharLength(s) > 1 {
      Writer.CodepointInverts(s);
      u := CodepointUnit(Writer.Utf8ToCodepoint(s).0);
    } else {
      assert s[..1] == [s[0]];
      if Writer.ShortEscape(s[0]).Some? {
        u := Short(Writer.ShortEscape(s[0]).value);
      } else if s[0] < 0x20 {
        u := CodepointUnit(s[0]);
      } else {
        u := Raw(s[0]);
      }
    }
  }

  lemma FirstUnit(s: bytes) returns (n: nat, u: Unit)
    requires Writer.WellFormed(s) && s != []
    ensures 0 < n <= |s| && s[..n] + s[n..] == s && Writer.WellFormed(s[n..])
    ensures Strict(u) && Tidy(u) && UnitValue(u) == s[..n] && Writer.Body(s) == UnitText(u) + Writer.Body(s[n..])
  {
    var e;
    n, e := Writer.FirstTurn(s);
    u := EmitIsUnit(s);
  }

  predicate AllTidy(us: seq<Unit>) {
    forall i :: 0 <= i < |us| ==> Tidy(us[i])
  }

  lemma {:induction false} BodyUnits(s: bytes) returns (us: seq<Unit>)
    requires Writer.WellFormed(s)
    ensures AllStrict(us) && AllTidy(us) && Texts(us) == Writer.Body(s) && Values(us) == s
    decreases |s|
  {
    us := [];
    if s != [] {
      var n, u := FirstUnit(s);
      var rest := BodyUnits(s[n..]);
      us := [u] + rest;
      assert us[1..] == rest;
    }
  }

  // jsoncpp's escaped form of any well-formed UTF-8 text is a string of section 7 of
  // RFC 8259 that denotes this text, in the units it chooses.
  lemma WritesRfcStrings(s: bytes)
    requires Writer.WellFormed(s)
    ensures RfcText(Writer.Body(s), s)
    ensures exists us :: AllStrict(us) && AllTidy(us) && Texts(us) == Writer.Body(s) && Values(us) == s
  {
    var us := BodyUnits(s);
    assert AllStrict(us);
  }

  // Main theorem: wherever it stands between quotes, cJSON's parse_string gives back that
  // text, up to its first NUL.
  lemma ReadsQuoted(c: bytes, off: nat, s: bytes, next: nat)
    requires Writer.WellFormed(s) && off < next <= |c| && c[off..next] == [QUOTE] + (Writer.Body(s) + [QUOTE])
    ensures ParseString(c, off) == Ok(CString(s), next)
  {
    WritesRfcStrings(s);
    DepartsExactly(Writer.Body(s), s);
    ParsesExactlyStrings(c, off, CString(s), next);
  }
}
