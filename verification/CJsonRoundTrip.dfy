/**
  Parsing what cJSON prints gives back the same tree, formatted or not: a printed tree is a
  text of the grammar.
 */
module CJsonRoundTrip {
  import opened Bytes
  import opened CJson
  import opened CJsonText
  import opened CJsonRfc

  // The codec prints the number as a JSON number text and reads exactly that back.
  predicate Faithful(k: Codec, n: int) {
    var t := k.show(n);
    && 0 < |t| <= 25
    && (forall i :: 0 <= i < |t| ==> NumberByte(t[i]))
    && (t[0] == 45 || 48 <= t[0] <= 57)
    && k.read(t) == (n, |t|)
  }

  // Trees the round trip is about: C strings without NUL, faithful numbers.
  predicate Good(k: Codec, t: Json)
    decreases t, 1
  {
    match t
    case Number(n) => Faithful(k, n)
    case String(s) => NUL !in s
    case Array(items) => GoodItems(k, items)
    case Object(members) => GoodMembers(k, members)
    case _ => true
  }

  predicate GoodItems(k: Codec, items: seq<Json>)
    decreases items, 0
  {
    forall i :: 0 <= i < |items| ==> Good(k, items[i])
  }

  predicate GoodMembers(k: Codec, members: seq<Member>)
    decreases members, 0
  {
    forall i :: 0 <= i < |members| ==> NUL !in members[i].name && Good(k, members[i].value)
  }

  // ---------- strings and numbers ----------

  // The unit print_string_ptr writes for a byte.
  function EscapeUnit(b: byte): (u: Unit)
    ensures Strict(u) && UnitText(u) == EscapeByte(b) && UnitValue(u) == [b]
  {
    if b > 31 && b != QUOTE && b != BACKSLASH then Raw(b)
    else if b == BACKSLASH || b == QUOTE then Short(b)
    else if b == BACKSPACE then Short(Code('b'))
    else if b == FORM_FEED then Short(Code('f'))
    else if b == NEWLINE then Short(Code('n'))
    else if b == RETURN then Short(Code('r'))
    else if b == TAB then Short(Code('t'))
    else Code4([48, 48, HexDigit(b / 16), HexDigit(b % 16)])
  }

  lemma {:induction false} EscapedUnits(s: bytes) returns (us: seq<Unit>)
    ensures AllStrict(us) && Texts(us) == EscapeAll(s) && Values(us) == s
  {
    us := [];
    if s != [] {
      var rest := EscapedUnits(s[1..]);
      us := [EscapeUnit(s[0])] + rest;
      assert us[1..] == rest;
      HeadAndTail(s);
    }
  }

  // cJSON prints every string as section 7 of RFC 8259 has it.
  lemma PrintsRfcStrings(s: bytes)
    ensures RfcText(EscapeAll(s), s) && StringText(EscapeAll(s), s)
  {
    var us := EscapedUnits(s);
    assert RfcText(EscapeAll(s), s);
    DepartsExactly(EscapeAll(s), s);
  }

  lemma StringIsText(s: bytes)
    requires NUL !in s
    ensures NameText(s, RenderString(s))
  {
    PrintsRfcStrings(s);
    CStringWhole(s);
    Regroup([QUOTE], EscapeAll(s), [QUOTE]);
  }

  // No number goes on with the first byte of this.
  predicate Stops(rest: bytes) {
    |rest| > 0 && !NumberByte(rest[0])
  }

  lemma NumberIsText(k: Codec, n: int, rest: bytes)
    requires Faithful(k, n) && Stops(rest)
    ensures NumberText(k, n, k.show(n), rest)
  {
    var run := k.show(n);
    assert (run + rest)[|run|] == rest[0];
    assert LongestRun(run, run + rest);
  }

  // ---------- arrays ----------

  function ItemLead(format: bool): (r: bytes)
    ensures Blank(r)
  {
    if format then [SPACE] else []
  }

  // Elements and the closing bracket, as printed.
  function Closed(k: Codec, items: seq<Json>, d: nat, format: bool): bytes {
    RenderItems(k, items, d, format) + [CLOSE_ARRAY]
  }

  // What is printed behind an element.
  function MoreItems(k: Codec, items: seq<Json>, d: nat, format: bool): bytes {
    if items == [] then [CLOSE_ARRAY] else [COMMA] + (ItemLead(format) + Closed(k, items, d, format))
  }

  lemma ClosedSplit(k: Codec, items: seq<Json>, d: nat, format: bool)
    requires items != []
    ensures Closed(k, items, d, format) == Render(k, items[0], d, format) + ([] + MoreItems(k, items[1..], d, format))
  {
    var r, more := Render(k, items[0], d, format), RenderItems(k, items[1..], d, format);
    if |items| == 1 {
      assert r + [] + [] + [CLOSE_ARRAY] == r + ([] + [CLOSE_ARRAY]);
    } else {
      assert ItemSeparator(format) == [COMMA] + ItemLead(format);
      Reassociate(r, ItemLead(format), more);
    }
  }

  lemma Reassociate(r: bytes, lead: bytes, more: bytes)
    ensures r + ([COMMA] + lead) + more + [CLOSE_ARRAY] == r + ([] + ([COMMA] + (lead + (more + [CLOSE_ARRAY]))))
  {
  }

  lemma {:induction false} ItemsAreText(k: Codec, items: seq<Json>, d: nat, format: bool, rest: bytes)
    requires GoodItems(k, items)
    ensures ListText(k, items, Closed(k, items, d, format), rest)
    decreases items, 0
  {
    if items == [] {
      assert Closed(k, items, d, format) == [CLOSE_ARRAY];
    } else {
      var first, more := Render(k, items[0], d, format), MoreItems(k, items[1..], d, format);
      ClosedSplit(k, items, d, format);
      assert ListSplit(Closed(k, items, d, format), first, [], more);
      RenderIsText(k, items[0], d, format, [] + (more + rest));
      TailIsText(k, items[1..], d, format, rest);
    }
  }

  lemma {:induction false} TailIsText(k: Codec, items: seq<Json>, d: nat, format: bool, rest: bytes)
    requires GoodItems(k, items)
    ensures ListTail(k, items, MoreItems(k, items, d, format), rest)
    decreases items, 1
  {
    if items != [] {
      ItemsAreText(k, items, d, format, rest);
    }
  }

  // ---------- objects ----------

  function NewLine(format: bool): (r: bytes)
    ensures Blank(r)
  {
    if format then [NEWLINE] else []
  }

  function NameLead(format: bool): (r: bytes)
    ensures Blank(r)
  {
    if format then [TAB] else []
  }

  // A line's end and the indentation of the next.
  function LineLead(d: nat, format: bool): (r: bytes)
    ensures Blank(r)
  {
    NewLine(format) + Indent(d, format)
  }

  function MemberOf(k: Codec, m: Member, d: nat, format: bool): bytes {
    RenderString(m.name) + ([] + ([COLON] + (NameLead(format) + Render(k, m.value, d, format))))
  }

  // Members at depth d from the first name on, and the closing brace.
  function BodyOf(k: Codec, members: seq<Member>, d: nat, format: bool): bytes
    requires d > 0
    decreases |members|, 0
  {
    if members == [] then [CLOSE_OBJECT]
    else MemberOf(k, members[0], d, format)
         + (BodyLead(members[1..], d, format) + MoreMembers(k, members[1..], d, format))
  }

  function BodyLead(members: seq<Member>, d: nat, format: bool): (r: bytes)
    requires d > 0
    ensures Blank(r)
  {
    if members == [] then LineLead(d - 1, format) else []
  }

  // What is printed behind a member and blanks.
  function MoreMembers(k: Codec, members: seq<Member>, d: nat, format: bool): bytes
    requires d > 0
    decreases |members|, 1
  {
    if members == [] then [CLOSE_OBJECT] else [COMMA] + (LineLead(d, format) + BodyOf(k, members, d, format))
  }

  lemma LastRegroup(a: bytes, n: bytes, g: bytes, r: bytes, nl: bytes, close: bytes)
    ensures (a + n + ([COLON] + g) + r + nl + []) + close == a + ((n + ([] + ([COLON] + (g + r)))) + (nl + close))
  {
  }

  lemma MoreRegroup(a: bytes, n: bytes, g: bytes, r: bytes, nl: bytes, more: bytes, close: bytes)
    ensures (a + n + ([COLON] + g) + r + ([COMMA] + nl) + more) + close
         == a + ((n + ([] + ([COLON] + (g + r)))) + ([] + ([COMMA] + (nl + (more + close)))))
  {
  }

  // How the members and the closing brace are printed.
  lemma {:induction false} MembersPrinted(k: Codec, members: seq<Member>, d: nat, format: bool)
    requires members != [] && d > 0
    ensures RenderMembers(k, members, d, format) + (Indent(d - 1, format) + [CLOSE_OBJECT])
         == Indent(d, format) + BodyOf(k, members, d, format)
    decreases |members|
  {
    var name, r := RenderString(members[0].name), Render(k, members[0].value, d, format);
    var more, close := RenderMembers(k, members[1..], d, format), Indent(d - 1, format) + [CLOSE_OBJECT];
    assert NameSeparator(format) == [COLON] + NameLead(format);
    if |members| == 1 {
      assert MemberEnd(true, format) == NewLine(format) && more == [];
      LastRegroup(Indent(d, format), name, NameLead(format), r, NewLine(format), close);
      Regroup(NewLine(format), Indent(d - 1, format), [CLOSE_OBJECT]);
    } else {
      MembersPrinted(k, members[1..], d, format);
      assert MemberEnd(false, format) == [COMMA] + NewLine(format);
      MoreRegroup(Indent(d, format), name, NameLead(format), r, NewLine(format), more, close);
      Regroup(NewLine(format), Indent(d, format), BodyOf(k, members[1..], d, format));
    }
  }

  lemma {:induction false} MemberIsText(k: Codec, m: Member, d: nat, format: bool, rest: bytes)
    requires NUL !in m.name && Good(k, m.value) && Stops(rest)
    ensures MemberText(k, m, MemberOf(k, m, d, format), rest)
    decreases m, 1
  {
    var name, v := RenderString(m.name), Render(k, m.value, d, format);
    StringIsText(m.name);
    RenderIsText(k, m.value, d, format, rest);
    assert MemberSplit(MemberOf(k, m, d, format), name, [], NameLead(format), v);
  }

  lemma MoreStops(k: Codec, members: seq<Member>, d: nat, format: bool, rest: bytes)
    requires d > 0
    ensures Stops(BodyLead(members, d, format) + (MoreMembers(k, members, d, format) + rest))
  {
    var w, more := BodyLead(members, d, format), MoreMembers(k, members, d, format);
    if w != [] {
      assert (w + (more + rest))[0] == w[0];
    } else {
      assert w + (more + rest) == more + rest;
    }
  }

  lemma {:induction false} MembersAreText(k: Codec, members: seq<Member>, d: nat, format: bool, rest: bytes)
    requires GoodMembers(k, members) && d > 0
    ensures BodyText(k, members, BodyOf(k, members, d, format), rest)
    decreases members, 0
  {
    if members != [] {
      var first, w := MemberOf(k, members[0], d, format), BodyLead(members[1..], d, format);
      var more := MoreMembers(k, members[1..], d, format);
      assert ListSplit(BodyOf(k, members, d, format), first, w, more);
      MoreStops(k, members[1..], d, format, rest);
      MemberIsText(k, members[0], d, format, w + (more + rest));
      BodyTailIsText(k, members[1..], d, format, rest);
    }
  }

  lemma {:induction false} BodyTailIsText(k: Codec, members: seq<Member>, d: nat, format: bool, rest: bytes)
    requires GoodMembers(k, members) && d > 0
    ensures BodyTail(k, members, MoreMembers(k, members, d, format), rest)
    decreases members, 1
  {
    if members != [] {
      MembersAreText(k, members, d, format, rest);
    }
  }

  lemma ObjectRegroup(nl: bytes, more: bytes, a: bytes, lead: bytes, body: bytes)
    requires more + (a + [CLOSE_OBJECT]) == lead + body
    ensures [OPEN_OBJECT] + nl + more + a + [CLOSE_OBJECT] == [OPEN_OBJECT] + ((nl + lead) + body)
  {
    assert [OPEN_OBJECT] + nl + more + a + [CLOSE_OBJECT] == [OPEN_OBJECT] + (nl + (more + (a + [CLOSE_OBJECT])));
    Regroup(nl, lead, body);
  }

  lemma ObjectPrinted(k: Codec, members: seq<Member>, d: nat, format: bool) returns (w: bytes)
    ensures Blank(w)
    ensures Render(k, Object(members), d, format) == [OPEN_OBJECT] + (w + BodyOf(k, members, d + 1, format))
  {
    var more, lead := RenderMembers(k, members, d + 1, format), Indent(if members == [] then d else d + 1, format);
    w := NewLine(format) + lead;
    if members == [] {
      assert more + (Indent(d, format) + [CLOSE_OBJECT]) == lead + [CLOSE_OBJECT];
    } else {
      MembersPrinted(k, members, d + 1, format);
    }
    ObjectRegroup(NewLine(format), more, Indent(d, format), lead, BodyOf(k, members, d + 1, format));
  }

  // ---------- trees ----------

  // A printed tree is a text of the grammar, in front of anything no number goes on with.
  lemma {:induction false} RenderIsText(k: Codec, t: Json, d: nat, format: bool, rest: bytes)
    requires Good(k, t) && Stops(rest)
    ensures ValueText(k, t, Render(k, t, d, format), rest)
    decreases t, 2
  {
    match t
    case Number(n) => NumberIsText(k, n, rest);
    case String(s) => StringIsText(s);
    case Array(items) =>
      var list := Closed(k, items, d + 1, format);
      ItemsAreText(k, items, d + 1, format, rest);
      assert Render(k, t, d, format) == [OPEN_ARRAY] + ([] + list);
    case Object(members) =>
      var w := ObjectPrinted(k, members, d, format);
      MembersAreText(k, members, d + 1, format, rest);
    case _ =>
  }
}
