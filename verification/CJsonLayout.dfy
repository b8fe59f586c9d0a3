/**
  The text cJSON prints, byte by byte, written down a second time without regard to how it is
  composed: lists joined by separators, lines that begin with tabs, strings as units.
 */
module CJsonLayout {
  import opened Bytes
  import opened CJson
  import opened CJsonText

  // The texts with the separator between any two of them.
  function Join(texts: seq<bytes>, separator: bytes): bytes {
    if texts == [] then []
    else if |texts| == 1 then texts[0]
    else texts[0] + separator + Join(texts[1..], separator)
  }

  // Where a formatted text begins a new line, with as many tabs as it is deep.
  function Line(depth: nat, format: bool): bytes {
    if format then [10] + seq(depth, _ => 9) else []
  }

  // How a byte of a string is written: as itself, by a short escape, or as a code point.
  function Spelling(b: byte): Unit {
    if b == 34 || b == 92 then Short(b)
    else if b == 8 then Short(98)
    else if b == 9 then Short(116)
    else if b == 10 then Short(110)
    else if b == 12 then Short(102)
    else if b == 13 then Short(114)
    else if b < 16 then Code4([48, 48, 48, if b < 10 then 48 + b else 87 + b])
    else if b < 32 then Code4([48, 48, 49, if b < 26 then 32 + b else 71 + b])
    else Raw(b)
  }

  function Spelled(s: bytes): seq<Unit> {
    seq(|s|, i requires 0 <= i < |s| => Spelling(s[i]))
  }

  function ShownString(s: bytes): bytes {
    [34] + Texts(Spelled(s)) + [34]
  }

  // A tree's text at a depth: compact, or with a space behind the commas of an array, and
  // every member of an object on a line of its own, one deeper than the closing brace.
  function Shown(k: Codec, t: Json, depth: nat, format: bool): bytes
    decreases t, 1
  {
    match t
    case Null => [110, 117, 108, 108]
    case False => [102, 97, 108, 115, 101]
    case True => [116, 114, 117, 101]
    case Number(n) => k.show(n)
    case String(s) => ShownString(s)
    case Array(items) =>
      [91] + Join(ShownItems(k, items, depth + 1, format), if format then [44, 32] else [44]) + [93]
    case Object(members) =>
      [123] + Join(ShownMembers(k, members, depth + 1, format), [44]) + Line(depth, format) + [125]
  }

  function ShownItems(k: Codec, items: seq<Json>, depth: nat, format: bool): seq<bytes>
    decreases items, 0
  {
    seq(|items|, i requires 0 <= i < |items| => Shown(k, items[i], depth, format))
  }

  function ShownMembers(k: Codec, members: seq<Member>, depth: nat, format: bool): seq<bytes>
    decreases members, 0
  {
    seq(|members|, i requires 0 <= i < |members| => ShownMember(k, members[i], depth, format))
  }

  function ShownMember(k: Codec, m: Member, depth: nat, format: bool): bytes
    decreases m, 2
  {
    Line(depth, format) + ShownString(m.name) + (if format then [58, 9] else [58]) + Shown(k, m.value, depth, format)
  }

  // ---------- strings ----------

  lemma SpellingIsEscape(b: byte)
    ensures UnitText(Spelling(b)) == EscapeByte(b)
  {
  }

  lemma StringShown(s: bytes)
    ensures RenderString(s) == ShownString(s)
  {
    TextsShown(s);
  }

  lemma {:induction false} TextsShown(s: bytes)
    ensures EscapeAll(s) == Texts(Spelled(s))
  {
    if s != [] {
      SpellingIsEscape(s[0]);
      TextsShown(s[1..]);
      assert Spelled(s)[1..] == Spelled(s[1..]);
    }
  }

  // ---------- arrays ----------

  lemma {:induction false} ItemsShown(k: Codec, items: seq<Json>, depth: nat, format: bool)
    ensures RenderItems(k, items, depth, format)
            == Join(ShownItems(k, items, depth, format), if format then [44, 32] else [44])
    decreases items, 0
  {
    if items != [] {
      var texts := ShownItems(k, items, depth, format);
      TreeShown(k, items[0], depth, format);
      ItemsShown(k, items[1..], depth, format);
      assert texts[1..] == ShownItems(k, items[1..], depth, format);
      if |items| == 1 {
        assert items[1..] == [];
        Trailing(texts[0]);
      }
    }
  }

  lemma Trailing(a: bytes)
    ensures a + [] + [] == a
  {
  }

  // ---------- objects ----------

  function NewLine(format: bool): bytes {
    if format then [10] else []
  }

  lemma LineIndents(depth: nat, format: bool)
    ensures Line(depth, format) == NewLine(format) + Indent(depth, format)
  {
  }

  // A newline in front of the members, each of which ends with one, is a newline in front of
  // each and one behind the last.
  lemma {:induction false} MembersShown(k: Codec, members: seq<Member>, depth: nat, format: bool)
    ensures NewLine(format) + RenderMembers(k, members, depth, format)
            == Join(ShownMembers(k, members, depth, format), [44]) + NewLine(format)
    decreases members, 0
  {
    if members == [] {
      assert NewLine(format) + [] == [] + NewLine(format);
    } else {
      var texts := ShownMembers(k, members, depth, format);
      MemberShown(k, members[0], depth, format);
      MembersShown(k, members[1..], depth, format);
      assert texts[1..] == ShownMembers(k, members[1..], depth, format);
      MembersJoin(k, members, texts, depth, format);
    }
  }

  // One member without the newline that ends it.
  function MemberLine(k: Codec, m: Member, depth: nat, format: bool): bytes {
    Indent(depth, format) + RenderString(m.name) + NameSeparator(format) + Render(k, m.value, depth, format)
  }

  lemma {:induction false} MemberShown(k: Codec, m: Member, depth: nat, format: bool)
    ensures NewLine(format) + MemberLine(k, m, depth, format) == ShownMember(k, m, depth, format)
    decreases m, 2
  {
    StringShown(m.name);
    TreeShown(k, m.value, depth, format);
    LineIndents(depth, format);
    Inward(NewLine(format), Indent(depth, format), RenderString(m.name), NameSeparator(format),
           Render(k, m.value, depth, format));
  }

  lemma Inward(a: bytes, b: bytes, c: bytes, d: bytes, e: bytes)
    ensures a + (b + c + d + e) == (a + b) + c + d + e
  {
  }

  lemma MembersJoin(k: Codec, members: seq<Member>, texts: seq<bytes>, depth: nat, format: bool)
    requires members != [] && |texts| == |members|
    requires NewLine(format) + MemberLine(k, members[0], depth, format) == texts[0]
    requires NewLine(format) + RenderMembers(k, members[1..], depth, format) == Join(texts[1..], [44]) + NewLine(format)
    ensures NewLine(format) + RenderMembers(k, members, depth, format) == Join(texts, [44]) + NewLine(format)
  {
    var n, line, rest := NewLine(format), MemberLine(k, members[0], depth, format),
                         RenderMembers(k, members[1..], depth, format);
    if |members| == 1 {
      assert members[1..] == [];
      assert RenderMembers(k, members, depth, format) == line + ([] + n) + rest;
      OneLine(n, line);
    } else {
      assert RenderMembers(k, members, depth, format) == line + ([44] + n) + rest;
      MoreLines(n, line, rest, Join(texts[1..], [44]));
    }
  }

  lemma OneLine(n: bytes, line: bytes)
    ensures n + (line + ([] + n) + []) == (n + line) + n
  {
  }

  lemma MoreLines(n: bytes, line: bytes, rest: bytes, joined: bytes)
    requires n + rest == joined + n
    ensures n + (line + ([44] + n) + rest) == ((n + line) + [44] + joined) + n
  {
    assert n + (line + ([44] + n) + rest) == ((n + line) + [44]) + (n + rest);
  }

  // ---------- trees ----------

  // Main theorem: a tree is printed, at any depth and in either format, as exactly this text.
  lemma {:induction false} TreeShown(k: Codec, t: Json, depth: nat, format: bool)
    ensures Render(k, t, depth, format) == Shown(k, t, depth, format)
    decreases t, 1
  {
    match t
    case String(s) => StringShown(s);
    case Array(items) => ItemsShown(k, items, depth + 1, format);
    case Object(members) =>
      MembersShown(k, members, depth + 1, format);
      LineIndents(depth, format);
      Braces(NewLine(format), RenderMembers(k, members, depth + 1, format), Indent(depth, format),
             Join(ShownMembers(k, members, depth + 1, format), [44]));
    case _ =>
  }

  lemma Braces(n: bytes, members: bytes, indent: bytes, joined: bytes)
    requires n + members == joined + n
    ensures [123] + n + members + indent + [125] == [123] + joined + (n + indent) + [125]
  {
    assert [123] + n + members + indent + [125] == [123] + (n + members) + (indent + [125]);
  }
}
