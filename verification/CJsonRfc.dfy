/**
  Where the strings cJSON accepts depart from section 7 of RFC 8259.
 */
module CJsonRfc {
  import opened Bytes
  import opened CJson
  import opened CJsonText
  import opened CJsonStringText

  predicate AllStrict(us: seq<Unit>) {
    forall i :: 0 <= i < |us| ==> Strict(us[i])
  }

  predicate NoControl(body: bytes) {
    forall i :: 0 <= i < |body| ==> body[i] >= 32
  }

  predicate GoodDigits(us: seq<Unit>) {
    forall i :: 0 <= i < |us| ==> !us[i].Bad?
  }

  lemma {:induction false} DelimitedPlain(h: bytes, rest: bytes)
    requires Delimited(rest) && forall i :: 0 <= i < |h| ==> h[i] != QUOTE && h[i] != BACKSLASH
    ensures Delimited(h + rest)
  {
    if h == [] {
      assert h + rest == rest;
    } else {
      DelimitedPlain(h[1..], rest);
      assert (h + rest)[1..] == h[1..] + rest;
    }
  }

  lemma DelimitedEscape(h: bytes, rest: bytes)
    requires FourHex(h) && Delimited(rest)
    ensures Delimited([BACKSLASH, Code('u')] + h + rest)
  {
    DelimitedPlain(h, rest);
    assert ([BACKSLASH, Code('u')] + h + rest)[2..] == h + rest;
  }

  // A strict unit holds no control byte and keeps in step with the first scan.
  lemma StrictUnit(u: Unit, rest: bytes)
    requires Strict(u)
    ensures NoControl(UnitText(u)) && (Delimited(rest) ==> Delimited(UnitText(u) + rest))
  {
    if Delimited(rest) {
      match u
      case Raw(b) => assert ([b] + rest)[1..] == rest;
      case Short(e) => assert ([BACKSLASH, e] + rest)[2..] == rest;
      case Code4(h) => DelimitedEscape(h, rest);
      case Pair(h, l) =>
        DelimitedEscape(l, rest);
        DelimitedEscape(h, [BACKSLASH, Code('u')] + l + rest);
        Regroup([BACKSLASH, Code('u')] + h, [BACKSLASH, Code('u')] + l, rest);
    }
  }

  lemma {:induction false} StrictTexts(us: seq<Unit>)
    requires AllStrict(us)
    ensures NoControl(Texts(us)) && Delimited(Texts(us))
  {
    if us != [] {
      StrictTexts(us[1..]);
      StrictUnit(us[0], Texts(us[1..]));
    }
  }

  lemma {:induction false} HexPasses(h: bytes, rest: bytes)
    requires Delimited(h + rest) && forall i :: 0 <= i < |h| ==> HexValue(h[i]).Some?
    ensures Delimited(rest)
  {
    if h == [] {
      assert h + rest == rest;
    } else {
      assert (h + rest)[1..] == h[1..] + rest;
      HexPasses(h[1..], rest);
    }
  }

  lemma EscapePasses(h: bytes, rest: bytes)
    requires FourHex(h) && Delimited([BACKSLASH, Code('u')] + h + rest)
    ensures Delimited(rest)
  {
    assert ([BACKSLASH, Code('u')] + h + rest)[2..] == h + rest;
    HexPasses(h, rest);
  }

  // A unit with its digits keeps in step, so a raw byte is no quote.
  lemma UnitPasses(u: Unit, rest: bytes)
    requires Loose(u) && !u.Bad? && Delimited(UnitText(u) + rest)
    ensures Delimited(rest) && (u.Raw? ==> u.b != QUOTE)
  {
    match u
    case Raw(b) => assert ([b] + rest)[1..] == rest;
    case Short(e) => assert ([BACKSLASH, e] + rest)[2..] == rest;
    case Code4(h) => EscapePasses(h, rest);
    case Pair(h, l) =>
      Regroup([BACKSLASH, Code('u')] + h, [BACKSLASH, Code('u')] + l, rest);
      EscapePasses(h, [BACKSLASH, Code('u')] + l + rest);
      EscapePasses(l, rest);
  }

  lemma {:induction false} PrintableIsStrict(us: seq<Unit>)
    requires AllLoose(us) && GoodDigits(us) && Delimited(Texts(us)) && NoControl(Texts(us))
    ensures AllStrict(us)
  {
    if us != [] {
      var u, rest := us[0], Texts(us[1..]);
      UnitPasses(u, rest);
      assert UnitText(u)[0] == Texts(us)[0];
      assert forall i :: 0 <= i < |rest| ==> rest[i] == Texts(us)[|UnitText(u)| + i];
      PrintableIsStrict(us[1..]);
      assert forall i :: 0 < i < |us| ==> us[i] == us[1..][i - 1];
    }
  }

  function DropLast(s: bytes): bytes {
    if s == [] then [] else s[..|s| - 1]
  }

  // Units with their digits never take the closing quote along.
  lemma {:induction false} NeverOutOfStep(us: seq<Unit>)
    requires us != [] && AllLoose(us) && GoodDigits(us) && us[|us| - 1] == Short(QUOTE)
    ensures !Delimited(DropLast(Texts(us)))
    decreases |us|
  {
    var u, rest := us[0], us[1..];
    if rest == [] {
      assert Texts(rest) == [] && DropLast([BACKSLASH, QUOTE] + []) == [BACKSLASH];
    } else {
      LastTwo(rest);
      NeverOutOfStep(rest);
      assert DropLast(UnitText(u) + Texts(rest)) == UnitText(u) + DropLast(Texts(rest));
      if Delimited(DropLast(Texts(us))) {
        UnitPasses(u, DropLast(Texts(rest)));
      }
    }
  }

  lemma {:induction false} LastTwo(us: seq<Unit>)
    requires us != [] && us[|us| - 1] == Short(QUOTE)
    ensures |Texts(us)| >= 2 && Texts(us)[|Texts(us)| - 1] == QUOTE
  {
    if |us| > 1 {
      LastTwo(us[1..]);
    }
  }

  // cJSON's reading of a text in which every \u has its digits and no control byte stands
  // raw.
  ghost predicate PlainReading(us: seq<Unit>, body: bytes) {
    Delimited(body) && Reading(us, body) && GoodDigits(us) && NoControl(body)
  }

  lemma StrictIsPlain(us: seq<Unit>, body: bytes)
    ensures AllStrict(us) && Texts(us) == body <==> PlainReading(us, body)
  {
    if AllStrict(us) && Texts(us) == body {
      StrictTexts(us);
    } else if PlainReading(us, body) {
      if Texts(us) == body {
        PrintableIsStrict(us);
      } else {
        assert DropLast(body + [QUOTE]) == body;
        NeverOutOfStep(us);
      }
    }
  }

  // Main theorem: raw control bytes and escapes without four digits are all cJSON accepts
  // beyond the standard, and all the standard accepts with surrogates in pairs cJSON
  // accepts, with the same meaning.
  lemma DepartsExactly(body: bytes, out: bytes)
    ensures RfcText(body, out) <==> exists us :: PlainReading(us, body) && Values(us) == out
    ensures RfcText(body, out) ==> StringText(body, out)
  {
    if RfcText(body, out) {
      var us :| AllStrict(us) && Texts(us) == body && Values(us) == out;
      StrictIsPlain(us, body);
    }
    if us :| PlainReading(us, body) && Values(us) == out {
      StrictIsPlain(us, body);
    }
  }

  // ---------- NUL and the C string ----------

  lemma {:induction false} CStringWhole(s: bytes)
    ensures CString(s) == s <==> NUL !in s
  {
    if s != [] && s[0] != NUL {
      CStringWhole(s[1..]);
      assert s == [s[0]] + s[1..];
      assert CString(s)[1..] == CString(s[1..]);
    }
  }

  // The escape \u0000.
  predicate EscapedNul(u: Unit) {
    u.Code4? && FourHex(u.h) && HexNumber(u.h) == 0
  }

  lemma UnitNul(u: Unit)
    requires Strict(u)
    ensures NUL in UnitValue(u) <==> EscapedNul(u)
  {
  }

  lemma {:induction false} NulExactly(us: seq<Unit>)
    requires AllStrict(us)
    ensures NUL in Values(us) <==> exists i :: 0 <= i < |us| && EscapedNul(us[i])
  {
    if us != [] {
      UnitNul(us[0]);
      NulExactly(us[1..]);
      if NUL in Values(us[1..]) {
        var i :| 0 <= i < |us[1..]| && EscapedNul(us[1..][i]);
        assert EscapedNul(us[i + 1]);
      }
      if i :| 0 <= i < |us| && EscapedNul(us[i]) {
        assert i > 0 ==> EscapedNul(us[1..][i - 1]);
      }
    }
  }

  // Main theorem: of a standard string parse_string returns what it denotes up to the first
  // NUL, so all of it exactly if \u0000 does not occur.
  lemma ReadsRfcExactly(c: bytes, off: nat, us: seq<Unit>, next: nat)
    requires off < next <= |c| && AllStrict(us) && c[off..next] == [QUOTE] + (Texts(us) + [QUOTE])
    ensures ParseString(c, off) == Ok(CString(Values(us)), next)
    ensures ParseString(c, off) == Ok(Values(us), next) <==> !exists i :: 0 <= i < |us| && EscapedNul(us[i])
  {
    var body, out := Texts(us), Values(us);
    DepartsExactly(body, out);
    assert NameText(CString(out), c[off..next]);
    ParsesExactlyStrings(c, off, CString(out), next);
    CStringWhole(out);
    NulExactly(us);
  }

  lemma {:induction false} CStringStops(a: bytes, b: bytes)
    ensures CString(a + ([NUL] + b)) == CString(a)
  {
    if a != [] && a[0] != NUL {
      CStringStops(a[1..], b);
      assert (a + ([NUL] + b))[1..] == a[1..] + ([NUL] + b);
    } else {
      assert (a + ([NUL] + b))[0] == NUL;
    }
  }

  lemma {:induction false} ValuesSplit(us: seq<Unit>, i: nat)
    requires AllLoose(us) && i <= |us|
    ensures Values(us) == Values(us[..i]) + Values(us[i..])
  {
    if i > 0 {
      ValuesSplit(us[1..], i - 1);
      assert us[1..][..i - 1] == us[..i][1..] && us[1..][i - 1..] == us[i..];
      Regroup(UnitValue(us[0]), Values(us[..i][1..]), Values(us[i..]));
    } else {
      assert us[..0] == [] && us[0..] == us;
    }
  }

  // An escape without four digits ends the C string there, whatever follows it.
  lemma BadDigitsTruncate(us: seq<Unit>, i: nat)
    requires AllLoose(us) && i < |us| && us[i].Bad?
    ensures CString(Values(us)) == CString(Values(us[..i]))
  {
    ValuesSplit(us, i);
    assert Values(us[i..]) == [NUL] + Values(us[i..][1..]);
    CStringStops(Values(us[..i]), Values(us[i..][1..]));
  }

  // ---------- out of step ----------

  // A \u followed by three bytes and two backslashes: to the first scan the backslashes are
  // an escape; the second takes one of them for a digit and the closing quote for an escaped
  // one, and still succeeds.
  lemma OutOfStep(h: bytes)
    requires |h| == 3 && forall i :: 0 <= i < 3 ==> h[i] != QUOTE && h[i] != BACKSLASH
    ensures var body, us := [BACKSLASH, Code('u')] + h + [BACKSLASH, BACKSLASH], [Bad(h + [BACKSLASH]), Short(QUOTE)];
            && Delimited(body) && Reading(us, body) && Texts(us) == body + [QUOTE]
            && StringText(body, [NUL, QUOTE]) && NameText([], [QUOTE] + (body + [QUOTE]))
  {
    var body := [BACKSLASH, Code('u')] + h + [BACKSLASH, BACKSLASH];
    var us := [Bad(h + [BACKSLASH]), Short(QUOTE)];
    assert [BACKSLASH, BACKSLASH][2..] == [];
    DelimitedPlain(h, [BACKSLASH, BACKSLASH]);
    assert body[2..] == h + [BACKSLASH, BACKSLASH];
    assert (h + [BACKSLASH])[3] == BACKSLASH;
    TwoUnits(us[0], us[1]);
    assert CString([NUL, QUOTE]) == [];
  }

  lemma TwoUnits(u: Unit, v: Unit)
    ensures Texts([u, v]) == UnitText(u) + UnitText(v)
    ensures Loose(u) && Loose(v) ==> Values([u, v]) == UnitValue(u) + UnitValue(v)
  {
    assert [u, v][1..] == [v] && [v][1..] == [];
    assert Texts([v]) == UnitText(v) + [];
    if Loose(u) && Loose(v) {
      assert Values([v]) == UnitValue(v) + [];
    }
  }

  // ---------- surrogates out of pairs ----------

  // Two units in front of the same text are one.
  lemma UnitUnique(u: Unit, x: bytes, v: Unit, y: bytes)
    requires Loose(u) && Loose(v) && UnitText(u) + x == UnitText(v) + y
    ensures u == v && x == y
  {
    var s, t := UnitText(u) + x, UnitText(v) + y;
    assert s[0] == t[0];
    if s[0] == BACKSLASH {
      assert s[1] == t[1];
      if s[1] == Code('u') {
        DigitsUnique(u, x, v, y);
      }
    }
    assert u == v;
    assert x == s[|UnitText(u)|..] && y == t[|UnitText(v)|..];
  }

  lemma DigitsUnique(u: Unit, x: bytes, v: Unit, y: bytes)
    requires Loose(u) && Loose(v) && UnitText(u) + x == UnitText(v) + y
    requires !u.Raw? && !u.Short? && !v.Raw? && !v.Short?
    ensures u == v
  {
    var s, t := UnitText(u) + x, UnitText(v) + y;
    assert s[2..6] == u.h && t[2..6] == v.h;
    if u.Pair? && v.Pair? {
      assert s[8..12] == u.l && t[8..12] == v.l;
    }
  }

  // An escaped surrogate that is no half of a pair with what follows.
  predicate Alone(h: bytes, tail: bytes) {
    Low(h) || (High(h) && !(|tail| >= 6 && tail[0] == BACKSLASH && tail[1] == Code('u') && Low(tail[2..6])))
  }

  lemma NoUnitIsAlone(u: Unit, x: bytes, h: bytes, tail: bytes)
    requires Loose(u) && Alone(h, tail)
    ensures UnitText(u) + x != [BACKSLASH, Code('u')] + h + tail
  {
    var s, t := UnitText(u) + x, [BACKSLASH, Code('u')] + h + tail;
    assert t[0] == BACKSLASH && t[1] == Code('u') && t[2..6] == h;
    if u.Raw? {
      assert s[0] == u.b;
    } else if u.Short? {
      assert s[1] == u.e;
    } else {
      assert s[2..6] == u.h;
      if u.Pair? {
        PairTail(u.h, u.l, x, h, tail);
      }
    }
  }

  lemma PairTail(h: bytes, l: bytes, x: bytes, h': bytes, tail: bytes)
    requires |h| == |h'| == |l| == 4
    ensures UnitText(Pair(h, l)) + x == [BACKSLASH, Code('u')] + h' + tail ==> tail == [BACKSLASH, Code('u')] + l + x
  {
    var s, t := UnitText(Pair(h, l)) + x, [BACKSLASH, Code('u')] + h' + tail;
    assert s[6..] == [BACKSLASH, Code('u')] + l + x;
    assert t[6..] == tail;
  }

  lemma {:induction false} NoReadingPast(us: seq<Unit>, vs: seq<Unit>, h: bytes, tail: bytes)
    requires AllLoose(us) && AllLoose(vs) && Alone(h, tail)
    ensures Texts(vs) != Texts(us) + ([BACKSLASH, Code('u')] + h + tail)
    decreases |us|
  {
    var rest := [BACKSLASH, Code('u')] + h + tail;
    if Texts(vs) == Texts(us) + rest {
      if us == [] {
        assert Texts(us) + rest == rest;
        NoUnitIsAlone(vs[0], Texts(vs[1..]), h, tail);
      } else {
        Regroup(UnitText(us[0]), Texts(us[1..]), rest);
        UnitUnique(vs[0], Texts(vs[1..]), us[0], Texts(us[1..]) + rest);
        NoReadingPast(us[1..], vs[1..], h, tail);
      }
    }
  }

  // The standard's grammar has such escapes, without a meaning; cJSON refuses them.
  lemma LoneSurrogateRefused(us: seq<Unit>, h: bytes, tail: bytes, out: bytes)
    requires AllLoose(us) && Alone(h, tail)
    ensures !StringText(Texts(us) + ([BACKSLASH, Code('u')] + h + tail), out)
  {
    var body := Texts(us) + ([BACKSLASH, Code('u')] + h + tail);
    forall vs | AllLoose(vs) ensures Texts(vs) != body && Texts(vs) != body + [QUOTE] {
      NoReadingPast(us, vs, h, tail);
      assert Alone(h, tail + [QUOTE]) by { StillAlone(h, tail); }
      NoReadingPast(us, vs, h, tail + [QUOTE]);
      assert body + [QUOTE] == Texts(us) + ([BACKSLASH, Code('u')] + h + (tail + [QUOTE]));
    }
  }

  lemma StillAlone(h: bytes, tail: bytes)
    requires Alone(h, tail)
    ensures Alone(h, tail + [QUOTE])
  {
    var more := tail + [QUOTE];
    if |more| >= 6 && Low(more[2..6]) {
      assert more[2..6][3] == more[5];
      assert tail[2..6] == more[2..6];
    }
  }
}
