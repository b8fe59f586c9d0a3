/**
  cJSON trees, their text, and the parser, as functions over the text and an offset.
  Numbers are doubles known by a number each; how they are printed and read is a codec
  given from outside.
 */
module CJson {
  import opened Options
  import opened Bytes

  const NESTING_LIMIT: nat := 1000

  datatype Json =
    | Null | False | True
    | Number(n: int)
    | String(s: bytes)
    | Array(items: seq<Json>)
    | Object(members: seq<Member>)

  datatype Member = Member(name: bytes, value: Json)

  // print_number's text of a double, and strtod: the double at the start of a text and
  // how much of it that takes, 0 when there is none.
  datatype Codec = Codec(show: int -> bytes, read: bytes -> (int, nat))

  ghost predicate CodecOk(k: Codec) {
    (forall t :: ReadsWithin(k, t)) && (forall n :: ShowsCString(k, n))
  }

  predicate ReadsWithin(k: Codec, t: bytes) {
    k.read(t).1 <= |t|
  }

  predicate ShowsCString(k: Codec, n: int) {
    NUL !in k.show(n)
  }

  // ---------- rendering ----------

  // print_string_ptr, one byte.
  function EscapeByte(b: byte): bytes {
    if b > 31 && b != QUOTE && b != BACKSLASH then [b]
    else if b == BACKSLASH || b == QUOTE then [BACKSLASH, b]
    else if b == BACKSPACE then [BACKSLASH, Code('b')]
    else if b == FORM_FEED then [BACKSLASH, Code('f')]
    else if b == NEWLINE then [BACKSLASH, Code('n')]
    else if b == RETURN then [BACKSLASH, Code('r')]
    else if b == TAB then [BACKSLASH, Code('t')]
    else [BACKSLASH, Code('u'), 48, 48, HexDigit(b / 16), HexDigit(b % 16)]
  }

  function EscapeAll(s: bytes): bytes {
    if s == [] then [] else EscapeByte(s[0]) + EscapeAll(s[1..])
  }

  function RenderString(s: bytes): bytes {
    [QUOTE] + EscapeAll(s) + [QUOTE]
  }

  function Tabs(n: nat): (r: bytes)
    ensures |r| == n && forall i :: 0 <= i < n ==> r[i] == TAB
  {
    seq(n, _ => TAB)
  }

  function Indent(d: nat, format: bool): bytes {
    if format then Tabs(d) else []
  }

  const NULL_TEXT: bytes := [110, 117, 108, 108]
  const FALSE_TEXT: bytes := [102, 97, 108, 115, 101]
  const TRUE_TEXT: bytes := [116, 114, 117, 101]
  const COMMA: byte := 44
  const COLON: byte := 58
  const OPEN_ARRAY: byte := 91
  const CLOSE_ARRAY: byte := 93
  const OPEN_OBJECT: byte := 123
  const CLOSE_OBJECT: byte := 125

  // print_value at nesting depth `depth`.
  function Render(k: Codec, t: Json, depth: nat, format: bool): bytes
    decreases t, 2
  {
    match t
    case Null => NULL_TEXT
    case False => FALSE_TEXT
    case True => TRUE_TEXT
    case Number(n) => k.show(n)
    case String(s) => RenderString(s)
    case Array(items) => [OPEN_ARRAY] + RenderItems(k, items, depth + 1, format) + [CLOSE_ARRAY]
    case Object(members) =>
      [OPEN_OBJECT] + (if format then [NEWLINE] else [])
      + RenderMembers(k, members, depth + 1, format)
      + Indent(depth, format) + [CLOSE_OBJECT]
  }

  function ItemSeparator(format: bool): bytes {
    if format then [COMMA, SPACE] else [COMMA]
  }

  function RenderItems(k: Codec, items: seq<Json>, depth: nat, format: bool): bytes
    decreases items, 1
  {
    if items == [] then []
    else Render(k, items[0], depth, format)
         + (if |items| > 1 then ItemSeparator(format) else [])
         + RenderItems(k, items[1..], depth, format)
  }

  function NameSeparator(format: bool): bytes {
    if format then [COLON, TAB] else [COLON]
  }

  function MemberEnd(last: bool, format: bool): bytes {
    (if last then [] else [COMMA]) + (if format then [NEWLINE] else [])
  }

  function RenderMembers(k: Codec, members: seq<Member>, depth: nat, format: bool): bytes
    decreases members, 1
  {
    if members == [] then []
    else Indent(depth, format)
         + RenderString(members[0].name)
         + NameSeparator(format)
         + Render(k, members[0].value, depth, format)
         + MemberEnd(|members| == 1, format)
         + RenderMembers(k, members[1..], depth, format)
  }

  // ---------- parsing ----------

  // The text handed to the parser, terminator included.
  predicate Terminated(c: bytes) {
    |c| > 0 && c[|c| - 1] == NUL
  }

  datatype Parsed<+T> = Ok(value: T, offset: nat) | Fail

  // buffer_skip_whitespace: past every byte up to 32, but never off the end.
  function Skip(c: bytes, off: nat): (r: nat)
    requires Terminated(c) && off <= |c|
    ensures r < |c| && off <= r + 1 && (off < |c| ==> off <= r)
    decreases |c| - off
  {
    if off < |c| && c[off] <= 32 then Skip(c, off + 1)
    else if off == |c| then off - 1
    else off
  }

  // The closing quote of a string whose text begins at p: the first scan of parse_string.
  function FindEnd(c: bytes, p: nat): (r: Option<nat>)
    requires p <= |c|
    ensures r.Some? ==> p <= r.value < |c| && c[r.value] == QUOTE
    decreases |c| - p
  {
    if p == |c| then None
    else if c[p] == QUOTE then Some(p)
    else if c[p] == BACKSLASH then
      if p + 1 >= |c| then None else FindEnd(c, p + 2)
    else FindEnd(c, p + 1)
  }

  // parse_hex4: anything but four hexadecimal digits counts as 0.
  function Hex4(c: bytes, p: nat): (r: nat)
    requires p + 4 <= |c|
    ensures r < 0x10000
  {
    var a, b, d, e := HexValue(c[p]), HexValue(c[p + 1]), HexValue(c[p + 2]), HexValue(c[p + 3]);
    if a.None? || b.None? || d.None? || e.None? then 0
    else a.value * 4096 + b.value * 256 + d.value * 16 + e.value
  }

  // The UTF-8 bytes utf16_literal_to_utf8 writes.
  function Utf8(cp: nat): (r: bytes)
    requires cp <= 0x10FFFF
    ensures 1 <= |r| <= 4 && (cp < 0x10000 ==> |r| <= 3)
  {
    if cp < 0x80 then [cp]
    else if cp < 0x800 then [0xC0 + cp / 64, 0x80 + cp % 64]
    else if cp < 0x10000 then [0xE0 + cp / 4096, 0x80 + cp / 64 % 64, 0x80 + cp % 64]
    else [0xF0 + cp / 262144, 0x80 + cp / 4096 % 64, 0x80 + cp / 64 % 64, 0x80 + cp % 64]
  }

  // utf16_literal_to_utf8 on the escape at p, with the string ending at `end`: the bytes
  // and the length of the escape, None on failure.
  function Utf16(c: bytes, p: nat, end: nat): (r: Option<(bytes, nat)>)
    requires p <= end < |c|
    ensures r.Some? ==> 6 <= r.value.1 <= end - p
  {
    if end - p < 6 then None
    else
      var first := Hex4(c, p + 2);
      if 0xDC00 <= first <= 0xDFFF then None
      else if 0xD800 <= first <= 0xDBFF then
        if end - (p + 6) < 6 || c[p + 6] != BACKSLASH || c[p + 7] != Code('u') then None
        else
          var second := Hex4(c, p + 8);
          if second < 0xDC00 || second > 0xDFFF then None
          else Some((Utf8(0x10000 + first % 1024 * 1024 + second % 1024), 12))
      else Some((Utf8(first), 6))
  }

  // One turn of the second scan: the bytes written and the bytes used.
  function DecodeTurn(c: bytes, p: nat, end: nat): (r: Option<(bytes, nat)>)
    requires p < end < |c|
    ensures r.Some? ==> 0 < r.value.1 && p + r.value.1 <= end + 1
  {
    if c[p] != BACKSLASH then Some(([c[p]], 1))
    else
      var e := c[p + 1];
      if e == Code('b') then Some(([BACKSPACE], 2))
      else if e == Code('f') then Some(([FORM_FEED], 2))
      else if e == Code('n') then Some(([NEWLINE], 2))
      else if e == Code('r') then Some(([RETURN], 2))
      else if e == Code('t') then Some(([TAB], 2))
      else if e == QUOTE || e == BACKSLASH || e == SLASH then Some(([e], 2))
      else if e == Code('u') then Utf16(c, p, end)
      else None
  }

  // The second scan: what is written to the output buffer before the terminator.
  function DecodeText(c: bytes, p: nat, end: nat): Option<bytes>
    requires p <= end + 1 && end < |c|
    decreases end + 1 - p
  {
    if p >= end then Some([])
    else match DecodeTurn(c, p, end)
         case None => None
         case Some((out, used)) =>
           Prepend(out, DecodeText(c, p + used, end))
  }

  // What a C string function sees of the bytes: up to the first NUL.
  function CString(s: bytes): (r: bytes)
    ensures NUL !in r && |r| <= |s|
  {
    if s == [] || s[0] == NUL then [] else [s[0]] + CString(s[1..])
  }

  // parse_string at an opening quote.
  function ParseString(c: bytes, off: nat): (r: Parsed<bytes>)
    requires off < |c|
    ensures r.Ok? ==> off < r.offset <= |c|
  {
    if c[off] != QUOTE then Fail
    else match FindEnd(c, off + 1)
         case None => Fail
         case Some(end) =>
           match DecodeText(c, off + 1, end)
           case None => Fail
           case Some(out) => Ok(CString(out), end + 1)
  }

  predicate NumberByte(b: byte) {
    48 <= b <= 57 || b == 43 || b == 45 || b == 46 || b == 69 || b == 101
  }

  // The bytes parse_number copies for strtod: at most `room` of them.
  function NumberRun(c: bytes, off: nat, room: nat): (r: bytes)
    requires off <= |c|
    ensures off + |r| <= |c| && |r| <= room
    decreases room
  {
    if room == 0 || off == |c| || !NumberByte(c[off]) then []
    else [c[off]] + NumberRun(c, off + 1, room - 1)
  }

  function ParseNumber(k: Codec, c: bytes, off: nat): (r: Parsed<Json>)
    requires CodecOk(k) && off < |c|
    ensures r.Ok? ==> off < r.offset <= |c|
  {
    var run := NumberRun(c, off, 63);
    assert ReadsWithin(k, run);
    var (n, used) := k.read(run);
    if used == 0 then Fail else Ok(Number(n), off + used)
  }

  // strncmp against a literal, within the buffer.
  predicate Literal(c: bytes, off: nat, text: bytes) {
    off + |text| <= |c| && forall i :: 0 <= i < |text| ==> text[i] == c[off + i]
  }

  // parse_value on anything but an array or object; the first byte decides.
  function Atom(k: Codec, c: bytes, off: nat): (r: Parsed<Json>)
    requires CodecOk(k) && off < |c|
    ensures r.Ok? ==> off < r.offset <= |c|
    ensures r.Ok? ==> c[off] != OPEN_ARRAY && c[off] != OPEN_OBJECT
  {
    if Literal(c, off, NULL_TEXT) then assert NULL_TEXT[0] == c[off + 0]; Ok(Null, off + 4)
    else if Literal(c, off, FALSE_TEXT) then assert FALSE_TEXT[0] == c[off + 0]; Ok(False, off + 5)
    else if Literal(c, off, TRUE_TEXT) then assert TRUE_TEXT[0] == c[off + 0]; Ok(True, off + 4)
    else if c[off] == QUOTE then
      match ParseString(c, off)
      case Fail => Fail
      case Ok(s, next) => Ok(String(s), next)
    else if c[off] == 45 || 48 <= c[off] <= 57 then ParseNumber(k, c, off)
    else Fail
  }

  // What parse_value, parse_array and parse_object ask of the buffer, by offset: its
  // length, a byte, the whitespace skipper, and the readers of names and atoms.
  datatype Lexer = Lexer(
    size: nat, at: nat -> byte, skip: nat -> nat, name: nat -> Parsed<bytes>, atom: nat -> Parsed<Json>)

  // Skipping stays inside the buffer and does not go back; reading moves on.
  ghost predicate LexerOk(x: Lexer) {
    && (forall p: nat :: p <= x.size ==> x.skip(p) < x.size && p <= x.skip(p) + 1 && (p < x.size ==> p <= x.skip(p)))
    && (forall p: nat :: p < x.size && x.name(p).Ok? ==> p < x.name(p).offset <= x.size)
    && (forall p: nat :: p < x.size && x.atom(p).Ok? ==> p < x.atom(p).offset <= x.size)
    && (forall p: nat :: p < x.size && x.at(p) != NUL ==> p + 1 < x.size)
  }

  function LexerOf(k: Codec, c: bytes): (x: Lexer)
    requires CodecOk(k) && Terminated(c)
    ensures LexerOk(x)
  {
    Lexer(|c|,
          (p: nat) => if p < |c| then c[p] else NUL,
          (p: nat) => if p <= |c| then Skip(c, p) else 0,
          (p: nat) => if p < |c| then ParseString(c, p) else Fail,
          (p: nat) => if p < |c| then Atom(k, c, p) else Fail)
  }

  // The lexer reads this very buffer.
  ghost predicate Lexes(x: Lexer, k: Codec, c: bytes)
    requires CodecOk(k) && Terminated(c)
  {
    forall p :: LexesAt(x, k, c, p)
  }

  ghost predicate LexesAt(x: Lexer, k: Codec, c: bytes, p: nat)
    requires CodecOk(k) && Terminated(c)
  {
    && (p < |c| ==> x.at(p) == c[p] && x.name(p) == ParseString(c, p) && x.atom(p) == Atom(k, c, p))
    && (p <= |c| ==> x.skip(p) == Skip(c, p))
  }

  function ParseValue(x: Lexer, off: nat, depth: nat): (r: Parsed<Json>)
    requires LexerOk(x) && off < x.size && depth <= NESTING_LIMIT
    ensures r.Ok? ==> off < r.offset <= x.size
    decreases NESTING_LIMIT - depth, 0, 0
  {
    if x.at(off) == OPEN_ARRAY then
      if depth >= NESTING_LIMIT then Fail
      else
        var first := x.skip(off + 1);
        if x.at(first) == CLOSE_ARRAY then Ok(Array([]), first + 1)
        else match ParseItems(x, first, depth + 1)
             case Fail => Fail
             case Ok(items, next) => Ok(Array(items), next)
    else if x.at(off) == OPEN_OBJECT then
      if depth >= NESTING_LIMIT then Fail
      else
        var first := x.skip(off + 1);
        if x.at(first) == CLOSE_OBJECT then Ok(Object([]), first + 1)
        else match ParseMembers(x, first, depth + 1)
             case Fail => Fail
             case Ok(members, next) => Ok(Object(members), next)
    else x.atom(off)
  }

  // The loop of parse_array from behind a bracket or comma.
  function ParseItems(x: Lexer, p: nat, depth: nat): (r: Parsed<seq<Json>>)
    requires LexerOk(x) && p < x.size && depth <= NESTING_LIMIT
    ensures r.Ok? ==> p < r.offset <= x.size
    decreases NESTING_LIMIT - depth, 1, x.size - p
  {
    match ParseValue(x, x.skip(p), depth)
    case Fail => Fail
    case Ok(v, next) =>
      var o := x.skip(next);
      if x.at(o) == COMMA then
        match ParseItems(x, o + 1, depth)
        case Fail => Fail
        case Ok(more, last) => Ok([v] + more, last)
      else if x.at(o) == CLOSE_ARRAY then Ok([v], o + 1)
      else Fail
  }

  // The name and colon in front of a member's value: where the value begins.
  function ParseName(x: Lexer, p: nat): (r: Parsed<bytes>)
    requires LexerOk(x) && p < x.size
    ensures r.Ok? ==> p < r.offset < x.size
  {
    match x.name(x.skip(p))
    case Fail => Fail
    case Ok(name, next) =>
      var o := x.skip(next);
      if x.at(o) != COLON then Fail else Ok(name, x.skip(o + 1))
  }

  // One member of an object.
  function ParseMember(x: Lexer, p: nat, depth: nat): (r: Parsed<Member>)
    requires LexerOk(x) && p < x.size && depth <= NESTING_LIMIT
    ensures r.Ok? ==> p < r.offset <= x.size
    decreases NESTING_LIMIT - depth, 0, 1
  {
    match ParseName(x, p)
    case Fail => Fail
    case Ok(name, at) =>
      match ParseValue(x, at, depth)
      case Fail => Fail
      case Ok(v, next) => Ok(Member(name, v), next)
  }

  // The loop of parse_object from behind a brace or comma.
  function ParseMembers(x: Lexer, p: nat, depth: nat): (r: Parsed<seq<Member>>)
    requires LexerOk(x) && p < x.size && depth <= NESTING_LIMIT
    ensures r.Ok? ==> p < r.offset <= x.size
    decreases NESTING_LIMIT - depth, 1, x.size - p
  {
    match ParseMember(x, p, depth)
    case Fail => Fail
    case Ok(m, next) =>
      var o := x.skip(next);
      if x.at(o) == COMMA then
        match ParseMembers(x, o + 1, depth)
        case Fail => Fail
        case Ok(more, last) => Ok([m] + more, last)
      else if x.at(o) == CLOSE_OBJECT then Ok([m], o + 1)
      else Fail
  }

  // skip_utf8_bom.
  function SkipBom(c: bytes): (r: nat)
    requires |c| > 0
    ensures r < |c|
  {
    if |c| > 4 && c[0] == 0xEF && c[1] == 0xBB && c[2] == 0xBF then 3 else 0
  }

  // cJSON_ParseWithOpts on a C string.
  function Parse(k: Codec, text: bytes, requireEnd: bool): Option<Json>
    requires CodecOk(k)
  {
    var c := CString(text) + [NUL];
    match ParseValue(LexerOf(k, c), Skip(c, SkipBom(c)), 0)
    case Fail => None
    case Ok(v, next) => if requireEnd && c[Skip(c, next)] != NUL then None else Some(v)
  }
}
