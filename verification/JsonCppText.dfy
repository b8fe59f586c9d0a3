/**
  The string texts jsoncpp's decodeString takes, in the units of the grammar of strings, and
  how they compare with section 7 of RFC 8259.
 */
module JsonCppText {
  import opened Options
  import opened Bytes
  import opened CJsonText
  import opened CJsonRfc
  import opened JsonCppStrings

  // What decodeString takes: any byte raw, a low surrogate on its own, and any escape as the
  // second half of a pair.
  predicate Taken(u: Unit) {
    match u
    case Raw(b) => b != 34 && b != 92
    case Short(e) => ShortValue(e).Some?
    case Code4(h) => FourHex(h) && !High(h)
    case Pair(h, l) => High(h) && FourHex(l)
    case Bad(_) => false
  }

  // The bytes of a code point, by the bits of section 3 of RFC 3629.
  function Encoded(cp: nat): bytes
    requires cp < 0x110000
  {
    if cp < 0x80 then [cp]
    else if cp < 0x800 then [192 + cp / 64, 128 + cp % 64]
    else if cp < 0x10000 then [224 + cp / 4096, 128 + cp / 64 % 64, 128 + cp % 64]
    else [240 + cp / 262144, 128 + cp / 4096 % 64, 128 + cp / 64 % 64, 128 + cp % 64]
  }

  function TakenValue(u: Unit): bytes
    requires Taken(u)
  {
    match u
    case Raw(b) => [b]
    case Short(e) => [ShortValue(e).value]
    case Code4(h) => Encoded(HexNumber(h))
    case Pair(h, l) => Encoded(0x10000 + (HexNumber(h) - 0xD800) * 1024 + HexNumber(l) % 1024)
  }

  predicate AllTaken(us: seq<Unit>) {
    forall i :: 0 <= i < |us| ==> Taken(us[i])
  }

  function TakenValues(us: seq<Unit>): bytes
    requires AllTaken(us)
  {
    if us == [] then [] else TakenValue(us[0]) + TakenValues(us[1..])
  }

  // The text up to its end or a bare quote is units that stand for these bytes.
  ghost predicate Reads(us: seq<Unit>, body: bytes, out: bytes) {
    && AllTaken(us) && TakenValues(us) == out
    && Texts(us) <= body && (Texts(us) == body || body[|Texts(us)|] == 34)
  }

  // ---------- one unit, one turn ----------

  lemma EncodedIs(cp: nat)
    requires cp < 0x110000
    ensures Encoded(cp) == CodePointToUtf8(cp)
  {
  }

  lemma FourDigits(h: bytes, rest: bytes)
    requires |h| == 4
    ensures Hex4(h + rest) == if FourHex(h) then Some(HexNumber(h)) else None
  {
    var s := h + rest;
    assert s[0] == h[0] && s[1] == h[1] && s[2] == h[2] && s[3] == h[3];
  }

  lemma TakesCode(h: bytes, rest: bytes)
    requires FourHex(h) && !High(h)
    ensures Turn([BACKSLASH, Code('u')] + h + rest) == Some((Encoded(HexNumber(h)), 6))
  {
    FourDigits(h, rest);
    EncodedIs(HexNumber(h));
    assert ([BACKSLASH, Code('u')] + h + rest)[2..] == h + rest;
  }

  lemma HighBits(hi: nat)
    requires 0xD800 <= hi <= 0xDBFF
    ensures hi % 1024 == hi - 0xD800
  {
  }

  lemma PairEncoded(hi: nat, lo: nat)
    requires 0xD800 <= hi <= 0xDBFF
    ensures CodePointToUtf8(0x10000 + hi % 1024 * 1024 + lo % 1024)
            == Encoded(0x10000 + (hi - 0xD800) * 1024 + lo % 1024)
  {
    HighBits(hi);
    EncodedIs(0x10000 + (hi - 0xD800) * 1024 + lo % 1024);
  }

  lemma TakesPair(h: bytes, l: bytes, rest: bytes)
    requires High(h) && FourHex(l)
    ensures Turn(([BACKSLASH, Code('u')] + h) + ([BACKSLASH, Code('u')] + l) + rest)
            == Some((Encoded(0x10000 + (HexNumber(h) - 0xD800) * 1024 + HexNumber(l) % 1024), 12))
  {
    FourDigits(h, [BACKSLASH, Code('u')] + l + rest);
    FourDigits(l, rest);
    PairTurn(h, l, rest, HexNumber(h), HexNumber(l));
    PairEncoded(HexNumber(h), HexNumber(l));
  }

  lemma TakesUnit(u: Unit, rest: bytes)
    requires Taken(u)
    ensures UnitText(u) != [] && UnitText(u)[0] != QUOTE
    ensures Turn(UnitText(u) + rest) == Some((TakenValue(u), |UnitText(u)|))
  {
    match u
    case Raw(b) =>
    case Short(e) =>
    case Code4(h) => TakesCode(h, rest);
    case Pair(h, l) => TakesPair(h, l, rest);
  }

  // ---------- whole texts ----------

  lemma {:induction false} UnitsDecode(us: seq<Unit>, tail: bytes)
    requires AllTaken(us) && (tail == [] || tail[0] == QUOTE)
    ensures DecodeBody(Texts(us) + tail) == Some(TakenValues(us))
  {
    if us == [] {
      assert Texts(us) + tail == tail;
    } else {
      var text, rest := UnitText(us[0]), Texts(us[1..]) + tail;
      TakesUnit(us[0], rest);
      UnitsDecode(us[1..], tail);
      Regroup(text, Texts(us[1..]), tail);
      TurnThen(text + rest, TakenValue(us[0]), |text|);
      assert (text + rest)[|text|..] == rest;
    }
  }

  // The unit a successful turn has read.
  lemma TurnUnit(s: bytes) returns (u: Unit, rest: bytes)
    requires s != [] && s[0] != QUOTE && Turn(s).Some?
    ensures Taken(u) && s == UnitText(u) + rest && |rest| < |s|
  {
    if s[0] != BACKSLASH {
      u, rest := Raw(s[0]), s[1..];
      HeadAndTail(s);
    } else if s[1] != Code('u') {
      u, rest := Short(s[1]), s[2..];
      assert s == [BACKSLASH, s[1]] + s[2..];
    } else {
      u, rest := EscapeUnit(s);
    }
  }

  lemma EscapeUnit(s: bytes) returns (u: Unit, rest: bytes)
    requires |s| >= 2 && s[0] == BACKSLASH && s[1] == Code('u') && CodePoint(s[2..]).Some?
    ensures Taken(u) && s == UnitText(u) + rest && |rest| < |s|
  {
    var h := s[2..6];
    FourDigits(h, s[6..]);
    assert s[2..] == h + s[6..];
    if High(h) {
      var l := s[8..12];
      FourDigits(l, s[12..]);
      assert s[2..][6..] == l + s[12..];
      u, rest := Pair(h, l), s[12..];
      assert s == ([BACKSLASH, Code('u')] + h) + ([BACKSLASH, Code('u')] + l) + s[12..];
    } else {
      u, rest := Code4(h), s[6..];
      assert s == [BACKSLASH, Code('u')] + h + s[6..];
    }
  }

  lemma {:induction false} DecodedUnits(body: bytes) returns (us: seq<Unit>, tail: bytes)
    requires DecodeBody(body).Some?
    ensures AllTaken(us) && body == Texts(us) + tail && (tail == [] || tail[0] == QUOTE)
    decreases |body|
  {
    if body == [] || body[0] == QUOTE {
      us, tail := [], body;
      assert [] + body == body;
    } else {
      var u, rest := TurnUnit(body);
      TakesUnit(u, rest);
      assert body[|UnitText(u)|..] == rest;
      var us';
      us', tail := DecodedUnits(rest);
      us := [u] + us';
      assert us[1..] == us';
      Regroup(UnitText(u), Texts(us'), tail);
    }
  }

  // Main theorem: decodeString gives these bytes exactly if the text is units that stand for
  // them, up to its end or a bare quote.
  lemma DecodesExactlyUnits(body: bytes, out: bytes)
    ensures DecodeBody(body) == Some(out) <==> exists us :: Reads(us, body, out)
  {
    if DecodeBody(body) == Some(out) {
      var us, tail := DecodedUnits(body);
      UnitsDecode(us, tail);
      assert Reads(us, body, out);
    }
    if us :| Reads(us, body, out) {
      var tail := body[|Texts(us)|..];
      assert body == Texts(us) + tail;
      UnitsDecode(us, tail);
    }
  }

  // ---------- the standard ----------

  lemma LowBits(lo: nat)
    requires 0xDC00 <= lo <= 0xDFFF
    ensures lo % 1024 == lo - 0xDC00
  {
  }

  // Whatever the standard takes jsoncpp takes, and means the same by it.
  lemma StrictTaken(u: Unit)
    requires Strict(u)
    ensures Taken(u) && TakenValue(u) == UnitValue(u)
  {
    if u.Pair? {
      LowBits(HexNumber(u.l));
    }
  }

  lemma {:induction false} AllStrictTaken(us: seq<Unit>)
    requires AllStrict(us)
    ensures AllTaken(us) && TakenValues(us) == Values(us)
  {
    forall i | 0 <= i < |us| ensures Taken(us[i]) { StrictTaken(us[i]); }
    if us != [] {
      StrictTaken(us[0]);
      AllStrictTaken(us[1..]);
    }
  }

  // Main theorem: every string of section 7 of RFC 8259, with surrogates in pairs, is decoded
  // to what it denotes.
  lemma ReadsRfc(body: bytes, out: bytes)
    requires RfcText(body, out)
    ensures DecodeBody(body) == Some(out)
  {
    var us :| AllStrict(us) && Texts(us) == body && Values(us) == out;
    AllStrictTaken(us);
    assert Reads(us, body, out);
    DecodesExactlyUnits(body, out);
  }

  // ---------- emitUTF8 ----------

  // With emitUTF8 a byte is written as itself unless it has a short escape.
  function Copied(b: byte): Unit {
    if b == 34 || b == 92 then Short(b)
    else if b == 8 then Short(98)
    else if b == 9 then Short(116)
    else if b == 10 then Short(110)
    else if b == 12 then Short(102)
    else if b == 13 then Short(114)
    else Raw(b)
  }

  lemma {:induction false} CopiesExactly(s: bytes)
    ensures BodyAs(s, true) == Texts(seq(|s|, i requires 0 <= i < |s| => Copied(s[i])))
  {
    if s != [] {
      var us := seq(|s|, i requires 0 <= i < |s| => Copied(s[i]));
      assert us[1..] == seq(|s[1..]|, i requires 0 <= i < |s[1..]| => Copied(s[1..][i]));
      CopiesExactly(s[1..]);
      assert UnitText(Copied(s[0])) == EmitAs(s, true).0;
    }
  }
}
