/**
  The texts cJSON accepts, as a grammar over bytes: units of a string, and values built from
  tokens and blanks.  Nothing here scans.
 */
module CJsonText {
  import opened Options
  import opened Bytes
  import opened CJson

  // ---------- strings ----------

  // What a string's text is made of: a byte that stands for itself, a short escape, a code
  // point's escape, a surrogate pair's, and an escape with something else than four
  // hexadecimal digits.
  datatype Unit = Raw(b: byte) | Short(e: byte) | Code4(h: bytes) | Pair(h: bytes, l: bytes) | Bad(h: bytes)

  function ShortValue(e: byte): Option<byte> {
    if e == Code('b') then Some(BACKSPACE)
    else if e == Code('f') then Some(FORM_FEED)
    else if e == Code('n') then Some(NEWLINE)
    else if e == Code('r') then Some(RETURN)
    else if e == Code('t') then Some(TAB)
    else if e == QUOTE || e == BACKSLASH || e == SLASH then Some(e)
    else None
  }

  // The eight short escapes, by their codes.
  lemma ShortEscapes(e: byte, v: byte)
    ensures ShortValue(e) == Some(v) <==>
            || ((e == 34 || e == 47 || e == 92) && v == e)
            || (e == 98 && v == 8) || (e == 102 && v == 12) || (e == 110 && v == 10)
            || (e == 114 && v == 13) || (e == 116 && v == 9)
  {
  }

  predicate FourHex(h: bytes) {
    |h| == 4 && forall i :: 0 <= i < 4 ==> HexValue(h[i]).Some?
  }

  // The number four hexadecimal digits denote.
  function HexNumber(h: bytes): (r: nat)
    requires FourHex(h)
    ensures r < 0x10000
  {
    ((HexValue(h[0]).value * 16 + HexValue(h[1]).value) * 16 + HexValue(h[2]).value) * 16 + HexValue(h[3]).value
  }

  predicate High(h: bytes) {
    FourHex(h) && 0xD800 <= HexNumber(h) <= 0xDBFF
  }

  predicate Low(h: bytes) {
    FourHex(h) && 0xDC00 <= HexNumber(h) <= 0xDFFF
  }

  // Section 7 of RFC 8259, with surrogates in pairs.
  predicate Strict(u: Unit) {
    match u
    case Raw(b) => b >= 32 && b != QUOTE && b != BACKSLASH
    case Short(e) => ShortValue(e).Some?
    case Code4(h) => FourHex(h) && !High(h) && !Low(h)
    case Pair(h, l) => High(h) && Low(l)
    case Bad(_) => false
  }

  // What cJSON takes: any other byte raw, and any four bytes for digits.
  predicate Loose(u: Unit) {
    match u
    case Raw(b) => b != BACKSLASH
    case Bad(h) => |h| == 4 && !FourHex(h)
    case _ => Strict(u)
  }

  function UnitText(u: Unit): bytes {
    match u
    case Raw(b) => [b]
    case Short(e) => [BACKSLASH, e]
    case Code4(h) => [BACKSLASH, Code('u')] + h
    case Pair(h, l) => [BACKSLASH, Code('u')] + h + ([BACKSLASH, Code('u')] + l)
    case Bad(h) => [BACKSLASH, Code('u')] + h
  }

  // The code point of a surrogate pair.
  function PairPoint(hi: nat, lo: nat): (cp: nat)
    requires 0xD800 <= hi <= 0xDBFF && 0xDC00 <= lo <= 0xDFFF
    ensures 0x10000 <= cp <= 0x10FFFF
  {
    0x10000 + (hi - 0xD800) * 1024 + (lo - 0xDC00)
  }

  // The bytes a unit stands for; without four digits that is NUL.
  function UnitValue(u: Unit): bytes
    requires Loose(u)
  {
    match u
    case Raw(b) => [b]
    case Short(e) => [ShortValue(e).value]
    case Code4(h) => Utf8(HexNumber(h))
    case Pair(h, l) => Utf8(PairPoint(HexNumber(h), HexNumber(l)))
    case Bad(_) => [NUL]
  }

  predicate AllLoose(us: seq<Unit>) {
    forall i :: 0 <= i < |us| ==> Loose(us[i])
  }

  function Texts(us: seq<Unit>): bytes {
    if us == [] then [] else UnitText(us[0]) + Texts(us[1..])
  }

  function Values(us: seq<Unit>): bytes
    requires AllLoose(us)
  {
    if us == [] then [] else UnitValue(us[0]) + Values(us[1..])
  }

  // A quote occurs only behind a backslash that is not itself behind one.
  predicate Delimited(body: bytes) {
    body == []
    || (body[0] == BACKSLASH && |body| >= 2 && Delimited(body[2..]))
    || (body[0] != BACKSLASH && body[0] != QUOTE && Delimited(body[1..]))
  }

  // The units make up the text between the quotes, or come out of step with it and take the
  // closing quote for an escaped one.
  predicate Reading(us: seq<Unit>, body: bytes) {
    && AllLoose(us)
    && (Texts(us) == body || (us != [] && us[|us| - 1] == Short(QUOTE) && Texts(us) == body + [QUOTE]))
  }

  // cJSON takes the text between two quotes as these bytes.
  ghost predicate StringText(body: bytes, out: bytes) {
    Delimited(body) && exists us :: Reading(us, body) && Values(us) == out
  }

  // Section 7 of RFC 8259 does.
  ghost predicate RfcText(body: bytes, out: bytes) {
    exists us :: (forall i :: 0 <= i < |us| ==> Strict(us[i])) && Texts(us) == body && Values(us) == out
  }

  // A name or string with its quotes, and the C string it gives.
  ghost predicate NameText(s: bytes, text: bytes) {
    exists body, out :: text == [QUOTE] + (body + [QUOTE]) && StringText(body, out) && s == CString(out)
  }

  // ---------- values ----------

  predicate Blank(w: bytes) {
    forall i :: 0 <= i < |w| ==> w[i] <= 32
  }

  // The longest run of number bytes s begins with, up to 63 of them.
  predicate LongestRun(run: bytes, s: bytes) {
    && run <= s && |run| <= 63
    && (forall i :: 0 <= i < |run| ==> NumberByte(run[i]))
    && (|run| == 63 || |run| == |s| || !NumberByte(s[|run|]))
  }

  // The bytes a number is made of.
  lemma NumberBytes(b: byte)
    ensures NumberByte(b) <==> exists i :: 0 <= i < 15 && b == Code("0123456789+-eE."[i])
  {
    var s := "0123456789+-eE.";
    if NumberByte(b) {
      var i := if 48 <= b <= 57 then b - 48 else if b == 43 then 10 else if b == 45 then 11
               else if b == 101 then 12 else if b == 69 then 13 else 14;
      assert i == 0 || i == 1 || i == 2 || i == 3 || i == 4 || i == 5 || i == 6 || i == 7 || i == 8 || i == 9 || i > 9;
      assert b == Code(s[i]);
    }
    if i :| 0 <= i < 15 && b == Code(s[i]) {
      assert i == 0 || i == 1 || i == 2 || i == 3 || i == 4 || i == 5 || i == 6 || i == 7 || i == 8 || i == 9 || i > 9;
    }
  }

  // Of the longest run, strtod takes just this text for n.
  ghost predicate NumberText(k: Codec, n: int, text: bytes, rest: bytes) {
    && text != [] && (text[0] == 45 || 48 <= text[0] <= 57)
    && exists run :: LongestRun(run, text + rest) && k.read(run) == (n, |text|)
  }

  // The text of a value in front of the rest of the input.
  ghost predicate ValueText(k: Codec, t: Json, text: bytes, rest: bytes)
    decreases t, 2
  {
    match t
    case Null => text == NULL_TEXT
    case False => text == FALSE_TEXT
    case True => text == TRUE_TEXT
    case Number(n) => NumberText(k, n, text, rest)
    case String(s) => NameText(s, text)
    case Array(items) =>
      exists w, list :: text == [OPEN_ARRAY] + (w + list) && Blank(w) && ListText(k, items, list, rest)
    case Object(members) =>
      exists w, body :: text == [OPEN_OBJECT] + (w + body) && Blank(w) && BodyText(k, members, body, rest)
  }

  // Elements and the closing bracket.
  ghost predicate ListText(k: Codec, items: seq<Json>, list: bytes, rest: bytes)
    decreases items, 0
  {
    if items == [] then list == [CLOSE_ARRAY]
    else exists first, w, more :: ListSplit(list, first, w, more)
                                  && ValueText(k, items[0], first, w + (more + rest))
                                  && ListTail(k, items[1..], more, rest)
  }

  // What follows an element and blanks: the bracket, or a comma and more elements.
  ghost predicate ListTail(k: Codec, items: seq<Json>, more: bytes, rest: bytes)
    decreases items, 1
  {
    if items == [] then more == [CLOSE_ARRAY]
    else exists w, list :: more == [COMMA] + (w + list) && Blank(w) && ListText(k, items, list, rest)
  }

  predicate ListSplit(list: bytes, first: bytes, w: bytes, more: bytes) {
    list == first + (w + more) && Blank(w)
  }

  ghost predicate MemberText(k: Codec, m: Member, text: bytes, rest: bytes)
    decreases m, 1
  {
    exists name, w, gap, v ::
      MemberSplit(text, name, w, gap, v) && NameText(m.name, name) && ValueText(k, m.value, v, rest)
  }

  predicate MemberSplit(text: bytes, name: bytes, w: bytes, gap: bytes, v: bytes) {
    text == name + (w + ([COLON] + (gap + v))) && Blank(w) && Blank(gap)
  }

  // Members and the closing brace.
  ghost predicate BodyText(k: Codec, members: seq<Member>, body: bytes, rest: bytes)
    decreases members, 0
  {
    if members == [] then body == [CLOSE_OBJECT]
    else exists first, w, more :: ListSplit(body, first, w, more)
                                  && MemberText(k, members[0], first, w + (more + rest))
                                  && BodyTail(k, members[1..], more, rest)
  }

  ghost predicate BodyTail(k: Codec, members: seq<Member>, more: bytes, rest: bytes)
    decreases members, 1
  {
    if members == [] then more == [CLOSE_OBJECT]
    else exists w, body :: more == [COMMA] + (w + body) && Blank(w) && BodyText(k, members, body, rest)
  }

  function Max(a: nat, b: nat): nat {
    if a > b then a else b
  }

  // How many arrays and objects a tree nests.
  function Nesting(t: Json): nat
    decreases t, 1
  {
    match t
    case Array(items) => 1 + NestingOfItems(items)
    case Object(members) => 1 + NestingOfMembers(members)
    case _ => 0
  }

  function NestingOfItems(items: seq<Json>): nat
    decreases items, 0
  {
    if items == [] then 0 else Max(Nesting(items[0]), NestingOfItems(items[1..]))
  }

  function NestingOfMembers(members: seq<Member>): nat
    decreases members, 0
  {
    if members == [] then 0 else Max(Nesting(members[0].value), NestingOfMembers(members[1..]))
  }
}
