/**
  parse_string accepts exactly the string texts of the grammar.
 */
module CJsonStringText {
  import opened Options
  import opened Bytes
  import opened CJson
  import opened CJsonText

  // ---------- the first scan finds the end of the text ----------

  lemma {:induction false} EndOfDelimited(c: bytes, p: nat, body: bytes)
    requires Delimited(body) && Has(c, p, body + [QUOTE])
    ensures FindEnd(c, p) == Some(p + |body|)
    decreases |body|
  {
    var text := body + [QUOTE];
    HasByte(c, p, text, 0);
    if body != [] {
      var n := if body[0] == BACKSLASH then 2 else 1;
      assert text == body[..n] + (body[n..] + [QUOTE]);
      HasSplit(c, p, body[..n], body[n..] + [QUOTE]);
      EndOfDelimited(c, p + n, body[n..]);
    }
  }

  lemma {:induction false} DelimitedToEnd(c: bytes, p: nat, end: nat)
    requires p <= |c| && FindEnd(c, p) == Some(end)
    ensures Delimited(c[p..end])
    decreases |c| - p
  {
    if p < end {
      var n := if c[p] == BACKSLASH then 2 else 1;
      DelimitedToEnd(c, p + n, end);
      assert c[p..end][n..] == c[p + n..end];
    }
  }

  // ---------- a turn of the second scan reads a unit ----------

  lemma HexAt(c: bytes, p: nat, h: bytes)
    requires Has(c, p, h) && |h| == 4
    ensures Hex4(c, p) == if FourHex(h) then HexNumber(h) else 0
  {
    HasByte(c, p, h, 0);
    HasByte(c, p, h, 1);
    HasByte(c, p, h, 2);
    HasByte(c, p, h, 3);
  }

  lemma EscapeAt(c: bytes, p: nat, h: bytes)
    requires Has(c, p, [BACKSLASH, Code('u')] + h) && |h| == 4
    ensures p + 6 <= |c| && c[p] == BACKSLASH && c[p + 1] == Code('u')
    ensures Hex4(c, p + 2) == if FourHex(h) then HexNumber(h) else 0
  {
    var text := [BACKSLASH, Code('u')] + h;
    HasByte(c, p, text, 0);
    HasByte(c, p, text, 1);
    HasSplit(c, p, [BACKSLASH, Code('u')], h);
    HexAt(c, p + 2, h);
  }

  // The unit ends inside the string's text, or is the one that takes the closing quote.
  predicate Within(u: Unit, p: nat, end: nat) {
    p + |UnitText(u)| <= end || (u == Short(QUOTE) && p + 1 == end)
  }

  lemma PairOfHex(c: bytes, p: nat, end: nat, hi: nat, lo: nat, cp: nat)
    requires p + 12 <= end < |c| && Hex4(c, p + 2) == hi && Hex4(c, p + 8) == lo
    requires c[p + 6] == BACKSLASH && c[p + 7] == Code('u') && 0xD800 <= hi <= 0xDBFF && 0xDC00 <= lo <= 0xDFFF
    requires cp == 0x10000 + hi % 1024 * 1024 + lo % 1024
    ensures cp <= 0x10FFFF && Utf16(c, p, end) == Some((Utf8(cp), 12))
  {
  }

  lemma PointOfPair(hi: nat, lo: nat)
    requires 0xD800 <= hi <= 0xDBFF && 0xDC00 <= lo <= 0xDFFF
    ensures PairPoint(hi, lo) == 0x10000 + hi % 1024 * 1024 + lo % 1024
  {
    assert hi % 1024 == hi - 0xD800 && lo % 1024 == lo - 0xDC00;
  }

  lemma TurnOfPair(c: bytes, p: nat, end: nat, h: bytes, l: bytes)
    requires Has(c, p, UnitText(Pair(h, l))) && High(h) && Low(l) && p + 12 <= end < |c|
    ensures c[p] == BACKSLASH && c[p + 1] == Code('u')
    ensures Utf16(c, p, end) == Some((UnitValue(Pair(h, l)), 12))
  {
    HasSplit(c, p, [BACKSLASH, Code('u')] + h, [BACKSLASH, Code('u')] + l);
    EscapeAt(c, p, h);
    EscapeAt(c, p + 6, l);
    PointOfPair(HexNumber(h), HexNumber(l));
    PairOfHex(c, p, end, HexNumber(h), HexNumber(l), PairPoint(HexNumber(h), HexNumber(l)));
  }

  lemma TurnOfCode(c: bytes, p: nat, end: nat, h: bytes)
    requires Has(c, p, [BACKSLASH, Code('u')] + h) && |h| == 4 && !High(h) && !Low(h) && p + 6 <= end < |c|
    ensures c[p] == BACKSLASH && c[p + 1] == Code('u')
    ensures Utf16(c, p, end) == Some((if FourHex(h) then Utf8(HexNumber(h)) else [NUL], 6))
  {
    EscapeAt(c, p, h);
  }

  lemma TurnOfUnit(c: bytes, p: nat, end: nat, u: Unit)
    requires Loose(u) && Has(c, p, UnitText(u)) && p < end < |c| && Within(u, p, end)
    ensures DecodeTurn(c, p, end) == Some((UnitValue(u), |UnitText(u)|))
  {
    match u
    case Raw(b) => HasByte(c, p, [b], 0);
    case Short(e) =>
      HasByte(c, p, [BACKSLASH, e], 0);
      HasByte(c, p, [BACKSLASH, e], 1);
    case Code4(h) => TurnOfCode(c, p, end, h);
    case Pair(h, l) => TurnOfPair(c, p, end, h, l);
    case Bad(h) => TurnOfCode(c, p, end, h);
  }

  lemma FourAt(c: bytes, p: nat) returns (h: bytes)
    requires p + 6 <= |c| && c[p] == BACKSLASH && c[p + 1] == Code('u')
    ensures |h| == 4 && Has(c, p, [BACKSLASH, Code('u')] + h)
    ensures Hex4(c, p + 2) == if FourHex(h) then HexNumber(h) else 0
  {
    h := c[p + 2..p + 6];
    assert c[p..p + 6] == [BACKSLASH, Code('u')] + h;
    EscapeAt(c, p, h);
  }

  lemma PairText(c: bytes, p: nat, h: bytes, l: bytes)
    requires |h| == |l| == 4 && Has(c, p, [BACKSLASH, Code('u')] + h) && Has(c, p + 6, [BACKSLASH, Code('u')] + l)
    ensures Has(c, p, UnitText(Pair(h, l)))
  {
    var a, b := [BACKSLASH, Code('u')] + h, [BACKSLASH, Code('u')] + l;
    assert c[p..p + 12] == c[p..p + 6] + c[p + 6..p + 12];
  }

  lemma PairHolds(c: bytes, p: nat, end: nat)
    requires p < end < |c| && Utf16(c, p, end).Some? && 0xD800 <= Hex4(c, p + 2) <= 0xDBFF
    ensures p + 12 <= end && c[p + 6] == BACKSLASH && c[p + 7] == Code('u') && 0xDC00 <= Hex4(c, p + 8) <= 0xDFFF
  {
  }

  lemma UnitOfPair(c: bytes, p: nat, end: nat, h: bytes) returns (u: Unit)
    requires p < end < |c| && Utf16(c, p, end).Some? && High(h) && Has(c, p, [BACKSLASH, Code('u')] + h)
    requires Hex4(c, p + 2) == HexNumber(h)
    ensures Loose(u) && Has(c, p, UnitText(u)) && p + |UnitText(u)| <= end
    ensures Utf16(c, p, end) == Some((UnitValue(u), |UnitText(u)|))
  {
    PairHolds(c, p, end);
    var l := FourAt(c, p + 6);
    u := Pair(h, l);
    PairText(c, p, h, l);
    PointOfPair(HexNumber(h), HexNumber(l));
    PairOfHex(c, p, end, HexNumber(h), HexNumber(l), PairPoint(HexNumber(h), HexNumber(l)));
  }

  lemma UnitOfEscape(c: bytes, p: nat, end: nat) returns (u: Unit)
    requires p < end < |c| && c[p] == BACKSLASH && c[p + 1] == Code('u') && Utf16(c, p, end).Some?
    ensures Loose(u) && Has(c, p, UnitText(u)) && p + |UnitText(u)| <= end
    ensures Utf16(c, p, end) == Some((UnitValue(u), |UnitText(u)|))
  {
    var h := FourAt(c, p);
    if High(h) {
      u := UnitOfPair(c, p, end, h);
    } else {
      u := if FourHex(h) then Code4(h) else Bad(h);
    }
  }

  lemma UnitOfTurn(c: bytes, p: nat, end: nat) returns (u: Unit)
    requires p < end < |c| && c[end] == QUOTE && DecodeTurn(c, p, end).Some?
    ensures Loose(u) && Has(c, p, UnitText(u)) && Within(u, p, end)
    ensures DecodeTurn(c, p, end) == Some((UnitValue(u), |UnitText(u)|))
  {
    if c[p] != BACKSLASH {
      u := Raw(c[p]);
      assert c[p..p + 1] == UnitText(u);
    } else if c[p + 1] == Code('u') {
      u := UnitOfEscape(c, p, end);
    } else {
      u := Short(c[p + 1]);
      assert c[p..p + 2] == UnitText(u);
    }
  }

  // ---------- the second scan reads the units ----------

  // From p the units reach the closing quote at `end`, or the last takes it along.
  predicate Reaches(us: seq<Unit>, p: nat, end: nat) {
    p + |Texts(us)| == end || (us != [] && us[|us| - 1] == Short(QUOTE) && p + |Texts(us)| == end + 1)
  }

  lemma {:induction false} LastLength(us: seq<Unit>)
    requires us != [] && us[|us| - 1] == Short(QUOTE)
    ensures |Texts(us)| >= 2
  {
    if |us| > 1 {
      LastLength(us[1..]);
    }
  }

  lemma ReachesOn(us: seq<Unit>, p: nat, end: nat)
    requires us != [] && Loose(us[0]) && Reaches(us, p, end)
    ensures p < end && Within(us[0], p, end)
    ensures Texts(us) == UnitText(us[0]) + Texts(us[1..])
    ensures |us| == 1 || Reaches(us[1..], p + |UnitText(us[0])|, end)
  {
    if |us| > 1 {
      assert us[1..][|us| - 2] == us[|us| - 1];
      if us[|us| - 1] == Short(QUOTE) {
        LastLength(us[1..]);
      }
    }
  }

  lemma UnitInFront(c: bytes, p: nat, end: nat, u: Unit, more: bytes)
    requires Loose(u) && Has(c, p, UnitText(u)) && p < end < |c| && Within(u, p, end)
    requires DecodeText(c, p + |UnitText(u)|, end) == Some(more)
    ensures DecodeText(c, p, end) == Some(UnitValue(u) + more)
  {
    TurnOfUnit(c, p, end, u);
  }

  lemma FirstEnds(c: bytes, p: nat, end: nat, us: seq<Unit>) returns (next: nat)
    requires us != [] && AllLoose(us) && end < |c| && Has(c, p, Texts(us)) && Reaches(us, p, end)
    ensures p < end && Within(us[0], p, end) && Has(c, p, UnitText(us[0])) && next == p + |UnitText(us[0])|
    ensures Has(c, next, Texts(us[1..]))
    ensures if next > end then |us| == 1 else Reaches(us[1..], next, end)
  {
    ReachesOn(us, p, end);
    next := p + |UnitText(us[0])|;
    HasSplit(c, p, UnitText(us[0]), Texts(us[1..]));
  }

  lemma {:induction false} UnitsDecode(c: bytes, p: nat, end: nat, us: seq<Unit>)
    requires AllLoose(us) && end < |c| && Has(c, p, Texts(us)) && Reaches(us, p, end)
    ensures DecodeText(c, p, end) == Some(Values(us))
    decreases |us|
  {
    if us != [] {
      var next := FirstEnds(c, p, end, us);
      if next <= end {
        UnitsDecode(c, next, end, us[1..]);
      }
      UnitInFront(c, p, end, us[0], Values(us[1..]));
    }
  }

  // A turn of the scan is a unit in front of the units that follow.
  lemma MoreUnits(c: bytes, p: nat, end: nat, rest: seq<Unit>, next: nat) returns (us: seq<Unit>)
    requires p < end < |c| && c[end] == QUOTE && DecodeTurn(c, p, end).Some? && AllLoose(rest)
    requires next == p + DecodeTurn(c, p, end).value.1
    requires if next > end then rest == [] else Has(c, next, Texts(rest)) && Reaches(rest, next, end)
    ensures AllLoose(us) && Has(c, p, Texts(us)) && Reaches(us, p, end)
    ensures Values(us) == DecodeTurn(c, p, end).value.0 + Values(rest)
  {
    var u := UnitOfTurn(c, p, end);
    UnitsJoin(c, p, u, rest);
    us := [u] + rest;
    assert rest != [] ==> us[|us| - 1] == rest[|rest| - 1];
  }

  lemma UnitsJoin(c: bytes, p: nat, u: Unit, rest: seq<Unit>)
    requires Loose(u) && AllLoose(rest) && Has(c, p, UnitText(u))
    requires rest == [] || Has(c, p + |UnitText(u)|, Texts(rest))
    ensures AllLoose([u] + rest) && Has(c, p, Texts([u] + rest))
    ensures Texts([u] + rest) == UnitText(u) + Texts(rest) && Values([u] + rest) == UnitValue(u) + Values(rest)
  {
    assert ([u] + rest)[1..] == rest;
    if rest == [] {
      assert UnitText(u) + [] == UnitText(u);
    } else {
      HasJoin(c, p, UnitText(u), Texts(rest));
    }
  }

  lemma {:induction false} DecodedUnits(c: bytes, p: nat, end: nat) returns (us: seq<Unit>)
    requires p <= end < |c| && c[end] == QUOTE && DecodeText(c, p, end).Some?
    ensures AllLoose(us) && Has(c, p, Texts(us)) && Reaches(us, p, end)
    ensures DecodeText(c, p, end) == Some(Values(us))
    decreases end - p
  {
    us := [];
    if p < end {
      var next := p + DecodeTurn(c, p, end).value.1;
      var rest: seq<Unit> := [];
      if next <= end {
        rest := DecodedUnits(c, next, end);
      }
      us := MoreUnits(c, p, end, rest, next);
    }
  }

  // ---------- the exact language of parse_string ----------

  predicate Quoted(c: bytes, off: nat, body: bytes, next: nat) {
    Has(c, off, [QUOTE] + (body + [QUOTE])) && next == off + |body| + 2
  }

  lemma QuotedParts(c: bytes, off: nat, body: bytes, next: nat)
    requires Quoted(c, off, body, next)
    ensures next <= |c| && c[off] == QUOTE && c[next - 1] == QUOTE
    ensures Has(c, off + 1, body + [QUOTE]) && Has(c, off + 1, body)
  {
    var rest := body + [QUOTE];
    HasByte(c, off, [QUOTE] + rest, 0);
    HasSplit(c, off, [QUOTE], rest);
    HasSplit(c, off + 1, body, [QUOTE]);
    HasByte(c, next - 1, [QUOTE], 0);
  }

  lemma ParsedString(c: bytes, off: nat, end: nat, out: bytes)
    requires off < |c| && c[off] == QUOTE && FindEnd(c, off + 1) == Some(end)
    requires DecodeText(c, off + 1, end) == Some(out)
    ensures ParseString(c, off) == Ok(CString(out), end + 1)
  {
  }

  lemma TextEnds(c: bytes, off: nat, body: bytes, next: nat)
    requires Quoted(c, off, body, next) && Delimited(body)
    ensures next <= |c| && c[off] == QUOTE && FindEnd(c, off + 1) == Some(next - 1)
  {
    QuotedParts(c, off, body, next);
    EndOfDelimited(c, off + 1, body);
  }

  lemma TextDecodes(c: bytes, off: nat, body: bytes, us: seq<Unit>, next: nat)
    requires Quoted(c, off, body, next) && Reading(us, body)
    ensures next <= |c| && DecodeText(c, off + 1, next - 1) == Some(Values(us))
  {
    QuotedParts(c, off, body, next);
    UnitsDecode(c, off + 1, next - 1, us);
  }

  lemma UnitsParse(c: bytes, off: nat, body: bytes, us: seq<Unit>, next: nat)
    requires Quoted(c, off, body, next) && Delimited(body) && Reading(us, body)
    ensures off < |c| && ParseString(c, off) == Ok(CString(Values(us)), next)
  {
    var out := Values(us);
    assert next <= |c| && c[off] == QUOTE && FindEnd(c, off + 1) == Some(next - 1) by {
      TextEnds(c, off, body, next);
    }
    assert DecodeText(c, off + 1, next - 1) == Some(out) by {
      TextDecodes(c, off, body, us, next);
    }
    ParsedString(c, off, next - 1, out);
  }

  lemma SliceQuoted(c: bytes, off: nat, end: nat)
    requires off < end < |c| && c[off] == c[end] == QUOTE
    ensures Quoted(c, off, c[off + 1..end], end + 1)
  {
    assert c[off..end + 1] == [QUOTE] + (c[off + 1..end] + [QUOTE]);
  }

  lemma SliceText(c: bytes, p: nat, end: nat, text: bytes)
    requires p <= end < |c| && Has(c, p, text) && c[end] == QUOTE
    ensures p + |text| == end ==> text == c[p..end]
    ensures p + |text| == end + 1 ==> text == c[p..end] + [QUOTE]
  {
    assert c[p..end + 1] == c[p..end] + [QUOTE];
  }

  // The units the second scan reads are a reading of the text between the quotes.
  lemma ParsedReading(c: bytes, off: nat, end: nat) returns (us: seq<Unit>)
    requires off < end < |c| && c[end] == QUOTE && DecodeText(c, off + 1, end).Some?
    ensures Reading(us, c[off + 1..end]) && DecodeText(c, off + 1, end) == Some(Values(us))
  {
    us := DecodedUnits(c, off + 1, end);
    SliceText(c, off + 1, end, Texts(us));
  }

  lemma ParsedText(c: bytes, off: nat, s: bytes, next: nat)
    requires off < |c| && ParseString(c, off) == Ok(s, next)
    ensures off < next <= |c| && NameText(s, c[off..next])
  {
    var end := next - 1;
    DelimitedToEnd(c, off + 1, end);
    var us := ParsedReading(c, off, end);
    SliceQuoted(c, off, end);
    QuotedSlice(c, off, c[off + 1..end], next);
    assert StringText(c[off + 1..end], Values(us));
  }

  lemma QuotedSlice(c: bytes, off: nat, body: bytes, next: nat)
    ensures Quoted(c, off, body, next) <==> off < next <= |c| && c[off..next] == [QUOTE] + (body + [QUOTE])
  {
  }

  lemma NameTextParses(c: bytes, off: nat, s: bytes, next: nat)
    requires off < next <= |c| && NameText(s, c[off..next])
    ensures ParseString(c, off) == Ok(s, next)
  {
    var body, out :| c[off..next] == [QUOTE] + (body + [QUOTE]) && StringText(body, out) && s == CString(out);
    var us :| Reading(us, body) && Values(us) == out;
    QuotedSlice(c, off, body, next);
    UnitsParse(c, off, body, us, next);
  }

  // Main theorem: parse_string succeeds exactly where a string's text stands, and gives
  // what that text denotes up to its first NUL.
  lemma ParsesExactlyStrings(c: bytes, off: nat, s: bytes, next: nat)
    requires off < |c|
    ensures ParseString(c, off) == Ok(s, next) <==> off < next <= |c| && NameText(s, c[off..next])
  {
    if ParseString(c, off) == Ok(s, next) {
      ParsedText(c, off, s, next);
    } else if off < next <= |c| && NameText(s, c[off..next]) {
      NameTextParses(c, off, s, next);
    }
  }
}
