/**
  Whatever text of the grammar stands in the buffer, cJSON parses to its tree.
 */
module CJsonComplete {
  import opened Bytes
  import opened CJson
  import opened CJsonText
  import opened CJsonSteps
  import opened CJsonLeaves
  import opened CJsonParsed

  // A buffer seen through the texts it ends with: reading on from a position is reading
  // the rest of the text.
  datatype Page = Page(x: Lexer, ends: bytes -> bool)

  function At(g: Page, s: bytes): nat {
    if |s| <= g.x.size then g.x.size - |s| else 0
  }

  ghost predicate Reads(k: Codec, g: Page, a: bytes, b: bytes) {
    g.ends(a + b) ==> |a + b| <= g.x.size && g.ends(b) && ReadsAt(k, g.x, a, b, At(g, a + b), At(g, b))
  }

  // What the lexer does where a stands at p and b behind it at q: it sees b's first byte,
  // skips a if that is blank, and reads a if that is a name or scalar.
  ghost predicate ReadsAt(k: Codec, x: Lexer, a: bytes, b: bytes, p: nat, q: nat) {
    && (|b| > 0 ==> x.at(q) == b[0])
    && (Blank(a) && |b| > 0 && b[0] > 32 ==> x.skip(p) == q)
    && ReadsName(x, a, p, q)
    && ReadsScalar(k, x, a, b, p, q)
  }

  ghost predicate ReadsName(x: Lexer, a: bytes, p: nat, q: nat) {
    forall s :: NameText(s, a) ==> x.name(p) == Ok(s, q)
  }

  ghost predicate ReadsScalar(k: Codec, x: Lexer, a: bytes, b: bytes, p: nat, q: nat) {
    forall t :: IsScalar(t) && ValueText(k, t, a, b) ==> x.atom(p) == Ok(t, q)
  }

  ghost predicate PageOk(k: Codec, g: Page) {
    LexerOk(g.x) && forall a, b :: Reads(k, g, a, b)
  }

  lemma Drop(k: Codec, g: Page, a: bytes, b: bytes)
    requires PageOk(k, g) && g.ends(a + b)
    ensures g.ends(b) && |a + b| <= g.x.size && At(g, b) == At(g, a + b) + |a|
    ensures |b| > 0 ==> g.x.at(At(g, b)) == b[0]
  {
    assert Reads(k, g, a, b);
  }

  lemma Lead(k: Codec, g: Page, w: bytes, s: bytes)
    requires PageOk(k, g) && g.ends(w + s) && Blank(w) && |s| > 0 && s[0] > 32
    ensures g.ends(s) && |w + s| <= g.x.size && g.x.skip(At(g, w + s)) == At(g, s) && g.x.at(At(g, s)) == s[0]
  {
    assert Reads(k, g, w, s);
  }

  lemma NoLead(k: Codec, g: Page, s: bytes)
    requires PageOk(k, g) && g.ends(s) && |s| > 0 && s[0] > 32
    ensures |s| <= g.x.size && g.x.skip(At(g, s)) == At(g, s) && g.x.at(At(g, s)) == s[0]
  {
    assert [] + s == s;
    Lead(k, g, [], s);
  }

  // ---------- lists ----------

  lemma TailStarts(k: Codec, items: seq<Json>, more: bytes, rest: bytes)
    requires ListTail(k, items, more, rest)
    ensures more != [] && more[0] == if items == [] then CLOSE_ARRAY else COMMA
  {
  }

  // Blanks and the bracket or comma behind an element.
  lemma AfterItem(k: Codec, g: Page, items: seq<Json>, w: bytes, more: bytes, rest: bytes)
    requires PageOk(k, g) && g.ends(w + (more + rest)) && Blank(w) && ListTail(k, items, more, rest)
    ensures var o := g.x.skip(At(g, w + (more + rest)));
            && o == At(g, more + rest) && |more + rest| <= g.x.size && g.ends(more + rest)
            && g.x.at(o) == if items == [] then CLOSE_ARRAY else COMMA
  {
    TailStarts(k, items, more, rest);
    Lead(k, g, w, more + rest);
  }

  lemma ListRegroup(list: bytes, first: bytes, w: bytes, more: bytes, rest: bytes)
    requires ListSplit(list, first, w, more)
    ensures list + rest == first + (w + (more + rest))
  {
    Regroup4(first, w, more, rest);
  }

  lemma CommaParts(k: Codec, g: Page, more: bytes, w: bytes, list: bytes, rest: bytes)
    requires PageOk(k, g) && g.ends(more + rest) && more == [COMMA] + (w + list)
    ensures g.ends(w + (list + rest)) && At(g, w + (list + rest)) == At(g, more + rest) + 1
  {
    assert more + rest == [COMMA] + (w + (list + rest));
    Drop(k, g, [COMMA], w + (list + rest));
  }

  lemma {:induction false} ListParses(
    k: Codec, g: Page, items: seq<Json>, lead: bytes, list: bytes, rest: bytes, depth: nat)
    requires PageOk(k, g) && items != [] && Blank(lead) && ListText(k, items, list, rest)
    requires g.ends(lead + (list + rest)) && depth + NestingOfItems(items) <= NESTING_LIMIT
    ensures At(g, lead + (list + rest)) < g.x.size
    ensures ParseItems(g.x, At(g, lead + (list + rest)), depth) == Ok(items, At(g, rest))
    decreases items, 2
  {
    var first, w, more :|
      ListSplit(list, first, w, more) && ValueText(k, items[0], first, w + (more + rest))
      && ListTail(k, items[1..], more, rest);
    ListRegroup(list, first, w, more, rest);
    ItemParses(k, g, items[0], lead, first, w + (more + rest), depth);
    ItemsGo(k, g, items, At(g, lead + (list + rest)), w, more, rest, depth);
  }

  // Blanks and an element.
  lemma {:induction false} ItemParses(
    k: Codec, g: Page, t: Json, lead: bytes, first: bytes, s: bytes, depth: nat)
    requires PageOk(k, g) && Blank(lead) && ValueText(k, t, first, s) && g.ends(lead + (first + s))
    requires depth + Nesting(t) <= NESTING_LIMIT
    ensures var p := At(g, lead + (first + s));
            && p < g.x.size && g.x.skip(p) < g.x.size && g.ends(s) && |s| <= g.x.size
            && ParseValue(g.x, g.x.skip(p), depth) == Ok(t, At(g, s))
    decreases t, 7
  {
    ValueStarts(k, t, first, s);
    Lead(k, g, lead, first + s);
    TextParses(k, g, t, first, s, depth);
    Drop(k, g, first, s);
  }

  // The rest of a list behind its first element.
  lemma {:induction false} ItemsGo(
    k: Codec, g: Page, items: seq<Json>, p: nat, w: bytes, more: bytes, rest: bytes, depth: nat)
    requires PageOk(k, g) && items != [] && Blank(w) && depth + NestingOfItems(items) <= NESTING_LIMIT
    requires p < g.x.size && g.x.skip(p) < g.x.size && |w + (more + rest)| <= g.x.size
    requires ParseValue(g.x, g.x.skip(p), depth) == Ok(items[0], At(g, w + (more + rest)))
    requires ListTail(k, items[1..], more, rest) && g.ends(w + (more + rest))
    ensures ParseItems(g.x, p, depth) == Ok(items, At(g, rest))
    decreases items, 1
  {
    AfterItem(k, g, items[1..], w, more, rest);
    TailParses(k, g, items[1..], more, rest, depth);
    ItemsStep(g.x, items, p, At(g, w + (more + rest)), At(g, rest), depth);
  }

  // From the bracket or comma on.
  lemma {:induction false} TailParses(k: Codec, g: Page, items: seq<Json>, more: bytes, rest: bytes, depth: nat)
    requires PageOk(k, g) && g.ends(more + rest) && ListTail(k, items, more, rest)
    requires depth + NestingOfItems(items) <= NESTING_LIMIT
    ensures var o := At(g, more + rest);
            if items == [] then At(g, rest) == o + 1
            else o + 1 < g.x.size && ParseItems(g.x, o + 1, depth) == Ok(items, At(g, rest))
    decreases items, 3
  {
    if items == [] {
      Drop(k, g, more, rest);
    } else {
      var w, list :| more == [COMMA] + (w + list) && Blank(w) && ListText(k, items, list, rest);
      CommaParts(k, g, more, w, list, rest);
      ListParses(k, g, items, w, list, rest, depth);
    }
  }

  lemma ListStarts(k: Codec, items: seq<Json>, list: bytes, rest: bytes)
    requires ListText(k, items, list, rest)
    ensures list != [] && list[0] > 32 && (items == [] <==> list[0] == CLOSE_ARRAY)
    ensures items == [] ==> list == [CLOSE_ARRAY]
  {
    if items != [] {
      var first, w, more :|
        ListSplit(list, first, w, more) && ValueText(k, items[0], first, w + (more + rest))
        && ListTail(k, items[1..], more, rest);
      ValueStarts(k, items[0], first, w + (more + rest));
    }
  }

  // An opening bracket or brace and blanks.
  lemma OpenParts(k: Codec, g: Page, open: byte, w: bytes, tail: bytes)
    requires PageOk(k, g) && open > 32 && Blank(w) && |tail| > 0 && tail[0] > 32 && g.ends([open] + (w + tail))
    ensures var p := At(g, [open] + (w + tail));
            && p + 1 < g.x.size && g.x.at(p) == open && g.x.skip(p + 1) == At(g, tail)
            && At(g, tail) < g.x.size && g.x.at(At(g, tail)) == tail[0] && g.ends(tail)
  {
    NoLead(k, g, [open] + (w + tail));
    Drop(k, g, [open], w + tail);
    Lead(k, g, w, tail);
  }

  lemma {:induction false} ListParsesHere(
    k: Codec, g: Page, items: seq<Json>, list: bytes, rest: bytes, depth: nat)
    requires PageOk(k, g) && items != [] && ListText(k, items, list, rest)
    requires g.ends(list + rest) && depth + NestingOfItems(items) <= NESTING_LIMIT
    ensures At(g, list + rest) < g.x.size && ParseItems(g.x, At(g, list + rest), depth) == Ok(items, At(g, rest))
    decreases items, 3
  {
    EmptyFront(list + rest);
    ListParses(k, g, items, [], list, rest, depth);
  }

  lemma {:induction false} ArrayParses(
    k: Codec, g: Page, items: seq<Json>, w: bytes, list: bytes, rest: bytes, depth: nat)
    requires PageOk(k, g) && Blank(w) && ListText(k, items, list, rest) && g.ends([OPEN_ARRAY] + (w + (list + rest)))
    requires depth + Nesting(Array(items)) <= NESTING_LIMIT
    ensures var p := At(g, [OPEN_ARRAY] + (w + (list + rest)));
            p < g.x.size && ParseValue(g.x, p, depth) == Ok(Array(items), At(g, rest))
    decreases items, 4
  {
    ListStarts(k, items, list, rest);
    OpenParts(k, g, OPEN_ARRAY, w, list + rest);
    var p, first := At(g, [OPEN_ARRAY] + (w + (list + rest))), At(g, list + rest);
    if items == [] {
      Drop(k, g, list, rest);
    } else {
      ListParsesHere(k, g, items, list, rest, depth + 1);
    }
    ArrayStep(g.x, p, depth, items, first, At(g, rest));
  }

  // ---------- members ----------

  lemma NameReads(k: Codec, g: Page, s: bytes, name: bytes, b: bytes)
    requires PageOk(k, g) && g.ends(name + b) && NameText(s, name)
    ensures g.x.name(At(g, name + b)) == Ok(s, At(g, b))
  {
    assert Reads(k, g, name, b);
  }

  lemma NameFront(k: Codec, g: Page, s: bytes, lead: bytes, name: bytes, b: bytes) returns (q: nat)
    requires PageOk(k, g) && NameText(s, name) && Blank(lead) && g.ends(lead + (name + b))
    ensures q == g.x.skip(At(g, lead + (name + b))) && At(g, lead + (name + b)) < g.x.size
    ensures g.x.name(q) == Ok(s, At(g, b)) && g.ends(b)
  {
    NameStarts(s, name);
    Lead(k, g, lead, name + b);
    NameReads(k, g, s, name, b);
    Drop(k, g, name, b);
    q := At(g, name + b);
  }

  lemma ColonParts(k: Codec, g: Page, w: bytes, gap: bytes, b: bytes) returns (o: nat)
    requires PageOk(k, g) && Blank(w) && Blank(gap) && |b| > 0 && b[0] > 32 && g.ends(w + ([COLON] + (gap + b)))
    ensures o == g.x.skip(At(g, w + ([COLON] + (gap + b)))) && g.x.at(o) == COLON
    ensures g.x.skip(o + 1) == At(g, b) && g.ends(b)
  {
    var colon := [COLON] + (gap + b);
    Lead(k, g, w, colon);
    Drop(k, g, [COLON], gap + b);
    Lead(k, g, gap, b);
    o := At(g, colon);
  }

  // Blanks, a name, blanks, a colon and blanks, up to a visible byte.
  lemma NameParses(k: Codec, g: Page, s: bytes, lead: bytes, name: bytes, w: bytes, gap: bytes, b: bytes)
    requires PageOk(k, g) && NameText(s, name) && Blank(lead) && Blank(w) && Blank(gap) && |b| > 0 && b[0] > 32
    requires g.ends(lead + (name + (w + ([COLON] + (gap + b)))))
    ensures var p := At(g, lead + (name + (w + ([COLON] + (gap + b)))));
            p < g.x.size && ParseName(g.x, p) == Ok(s, At(g, b)) && g.ends(b)
  {
    var more := w + ([COLON] + (gap + b));
    var q := NameFront(k, g, s, lead, name, more);
    var o := ColonParts(k, g, w, gap, b);
    NameStep(g.x, At(g, lead + (name + more)), q, s, At(g, more), o, At(g, b));
  }

  lemma MemberStarts(k: Codec, m: Member, text: bytes, rest: bytes)
    requires MemberText(k, m, text, rest)
    ensures text != [] && text[0] == QUOTE
  {
    var name, w, gap, v :|
      MemberSplit(text, name, w, gap, v) && NameText(m.name, name) && ValueText(k, m.value, v, rest);
    NameStarts(m.name, name);
  }

  lemma MemberRegroup(text: bytes, name: bytes, w: bytes, gap: bytes, v: bytes, rest: bytes)
    requires MemberSplit(text, name, w, gap, v)
    ensures text + rest == name + (w + ([COLON] + (gap + (v + rest))))
  {
  }

  lemma {:induction false} MemberParses(
    k: Codec, g: Page, m: Member, lead: bytes, text: bytes, rest: bytes, depth: nat)
    requires PageOk(k, g) && Blank(lead) && MemberText(k, m, text, rest) && g.ends(lead + (text + rest))
    requires depth + Nesting(m.value) <= NESTING_LIMIT
    ensures var p := At(g, lead + (text + rest));
            p < g.x.size && ParseMember(g.x, p, depth) == Ok(m, At(g, rest))
    decreases m, 1
  {
    var name, w, gap, v :|
      MemberSplit(text, name, w, gap, v) && NameText(m.name, name) && ValueText(k, m.value, v, rest);
    MemberRegroup(text, name, w, gap, v, rest);
    ValueStarts(k, m.value, v, rest);
    NameParses(k, g, m.name, lead, name, w, gap, v + rest);
    TextParses(k, g, m.value, v, rest, depth);
  }

  lemma BodyTailStarts(k: Codec, members: seq<Member>, more: bytes, rest: bytes)
    requires BodyTail(k, members, more, rest)
    ensures more != [] && more[0] == if members == [] then CLOSE_OBJECT else COMMA
  {
  }

  lemma AfterMember(k: Codec, g: Page, members: seq<Member>, w: bytes, more: bytes, rest: bytes)
    requires PageOk(k, g) && g.ends(w + (more + rest)) && Blank(w) && BodyTail(k, members, more, rest)
    ensures var o := g.x.skip(At(g, w + (more + rest)));
            && o == At(g, more + rest) && |more + rest| <= g.x.size && g.ends(more + rest)
            && g.x.at(o) == if members == [] then CLOSE_OBJECT else COMMA
  {
    BodyTailStarts(k, members, more, rest);
    Lead(k, g, w, more + rest);
  }

  lemma {:induction false} BodyParses(
    k: Codec, g: Page, members: seq<Member>, lead: bytes, body: bytes, rest: bytes, depth: nat)
    requires PageOk(k, g) && members != [] && Blank(lead) && BodyText(k, members, body, rest)
    requires g.ends(lead + (body + rest)) && depth + NestingOfMembers(members) <= NESTING_LIMIT
    ensures At(g, lead + (body + rest)) < g.x.size
    ensures ParseMembers(g.x, At(g, lead + (body + rest)), depth) == Ok(members, At(g, rest))
    decreases members, 2
  {
    var first, w, more :|
      ListSplit(body, first, w, more) && MemberText(k, members[0], first, w + (more + rest))
      && BodyTail(k, members[1..], more, rest);
    ListRegroup(body, first, w, more, rest);
    FirstParses(k, g, members[0], lead, first, w + (more + rest), depth);
    MembersGo(k, g, members, At(g, lead + (body + rest)), w, more, rest, depth);
  }

  // Blanks and a member.
  lemma {:induction false} FirstParses(
    k: Codec, g: Page, m: Member, lead: bytes, first: bytes, s: bytes, depth: nat)
    requires PageOk(k, g) && Blank(lead) && MemberText(k, m, first, s) && g.ends(lead + (first + s))
    requires depth + Nesting(m.value) <= NESTING_LIMIT
    ensures var p := At(g, lead + (first + s));
            p < g.x.size && g.ends(s) && |s| <= g.x.size && ParseMember(g.x, p, depth) == Ok(m, At(g, s))
    decreases m, 2
  {
    MemberStarts(k, m, first, s);
    MemberParses(k, g, m, lead, first, s, depth);
    Lead(k, g, lead, first + s);
    Drop(k, g, first, s);
  }

  lemma {:induction false} MembersGo(
    k: Codec, g: Page, members: seq<Member>, p: nat, w: bytes, more: bytes, rest: bytes, depth: nat)
    requires PageOk(k, g) && members != [] && Blank(w) && depth + NestingOfMembers(members) <= NESTING_LIMIT
    requires p < g.x.size && |w + (more + rest)| <= g.x.size
    requires ParseMember(g.x, p, depth) == Ok(members[0], At(g, w + (more + rest)))
    requires BodyTail(k, members[1..], more, rest) && g.ends(w + (more + rest))
    ensures ParseMembers(g.x, p, depth) == Ok(members, At(g, rest))
    decreases members, 1
  {
    var e, o, next := At(g, w + (more + rest)), At(g, more + rest), At(g, rest);
    assert g.x.skip(e) == o && g.x.at(o) == (if |members| == 1 then CLOSE_OBJECT else COMMA) && g.ends(more + rest) by {
      AfterMember(k, g, members[1..], w, more, rest);
    }
    BodyTailParses(k, g, members[1..], more, rest, depth);
    MembersStep(g.x, members, p, e, next, depth);
  }

  lemma {:induction false} BodyTailParses(
    k: Codec, g: Page, members: seq<Member>, more: bytes, rest: bytes, depth: nat)
    requires PageOk(k, g) && g.ends(more + rest) && BodyTail(k, members, more, rest)
    requires depth + NestingOfMembers(members) <= NESTING_LIMIT
    ensures var o := At(g, more + rest);
            if members == [] then At(g, rest) == o + 1
            else o + 1 < g.x.size && ParseMembers(g.x, o + 1, depth) == Ok(members, At(g, rest))
    decreases members, 3
  {
    if members == [] {
      Drop(k, g, more, rest);
    } else {
      var w, body :| more == [COMMA] + (w + body) && Blank(w) && BodyText(k, members, body, rest);
      CommaParts(k, g, more, w, body, rest);
      BodyParses(k, g, members, w, body, rest, depth);
    }
  }

  lemma BodyStarts(k: Codec, members: seq<Member>, body: bytes, rest: bytes)
    requires BodyText(k, members, body, rest)
    ensures body != [] && body[0] > 32 && (members == [] <==> body[0] == CLOSE_OBJECT)
    ensures members == [] ==> body == [CLOSE_OBJECT]
  {
    if members != [] {
      var first, w, more :|
        ListSplit(body, first, w, more) && MemberText(k, members[0], first, w + (more + rest))
        && BodyTail(k, members[1..], more, rest);
      MemberStarts(k, members[0], first, w + (more + rest));
    }
  }

  lemma {:induction false} BodyParsesHere(
    k: Codec, g: Page, members: seq<Member>, body: bytes, rest: bytes, depth: nat)
    requires PageOk(k, g) && members != [] && BodyText(k, members, body, rest)
    requires g.ends(body + rest) && depth + NestingOfMembers(members) <= NESTING_LIMIT
    ensures At(g, body + rest) < g.x.size && ParseMembers(g.x, At(g, body + rest), depth) == Ok(members, At(g, rest))
    decreases members, 3
  {
    EmptyFront(body + rest);
    BodyParses(k, g, members, [], body, rest, depth);
  }

  lemma EmptyObjectParses(k: Codec, g: Page, w: bytes, rest: bytes, depth: nat)
    requires PageOk(k, g) && Blank(w) && g.ends([OPEN_OBJECT] + (w + ([CLOSE_OBJECT] + rest))) && depth < NESTING_LIMIT
    ensures var p := At(g, [OPEN_OBJECT] + (w + ([CLOSE_OBJECT] + rest)));
            p < g.x.size && ParseValue(g.x, p, depth) == Ok(Object([]), At(g, rest))
  {
    var tail := [CLOSE_OBJECT] + rest;
    OpenParts(k, g, OPEN_OBJECT, w, tail);
    Drop(k, g, [CLOSE_OBJECT], rest);
    ObjectStep(g.x, At(g, [OPEN_OBJECT] + (w + tail)), depth, [], At(g, tail), At(g, rest));
  }

  lemma OpenEnds(k: Codec, g: Page, open: byte, w: bytes, tail: bytes)
    requires PageOk(k, g) && g.ends([open] + (w + tail))
    ensures g.ends(tail)
  {
    Drop(k, g, [open], w + tail);
    Drop(k, g, w, tail);
  }

  lemma ObjectGo(k: Codec, g: Page, members: seq<Member>, w: bytes, tail: bytes, next: nat, depth: nat)
    requires PageOk(k, g) && members != [] && Blank(w) && |tail| > 0 && tail[0] > 32 && tail[0] != CLOSE_OBJECT
    requires g.ends([OPEN_OBJECT] + (w + tail)) && depth < NESTING_LIMIT && At(g, tail) < g.x.size
    requires ParseMembers(g.x, At(g, tail), depth + 1) == Ok(members, next)
    ensures var p := At(g, [OPEN_OBJECT] + (w + tail));
            p < g.x.size && ParseValue(g.x, p, depth) == Ok(Object(members), next)
  {
    OpenParts(k, g, OPEN_OBJECT, w, tail);
    ObjectStep(g.x, At(g, [OPEN_OBJECT] + (w + tail)), depth, members, At(g, tail), next);
  }

  lemma {:induction false} MembersParse(
    k: Codec, g: Page, members: seq<Member>, w: bytes, body: bytes, rest: bytes, depth: nat)
    requires PageOk(k, g) && members != [] && Blank(w) && BodyText(k, members, body, rest)
    requires g.ends([OPEN_OBJECT] + (w + (body + rest))) && depth + 1 + NestingOfMembers(members) <= NESTING_LIMIT
    ensures var p := At(g, [OPEN_OBJECT] + (w + (body + rest)));
            p < g.x.size && ParseValue(g.x, p, depth) == Ok(Object(members), At(g, rest))
    decreases members, 4
  {
    BodyStarts(k, members, body, rest);
    OpenEnds(k, g, OPEN_OBJECT, w, body + rest);
    BodyParsesHere(k, g, members, body, rest, depth + 1);
    ObjectGo(k, g, members, w, body + rest, At(g, rest), depth);
  }

  lemma {:induction false} ObjectParses(
    k: Codec, g: Page, members: seq<Member>, w: bytes, body: bytes, rest: bytes, depth: nat)
    requires PageOk(k, g) && Blank(w) && BodyText(k, members, body, rest) && g.ends([OPEN_OBJECT] + (w + (body + rest)))
    requires depth + Nesting(Object(members)) <= NESTING_LIMIT
    ensures var p := At(g, [OPEN_OBJECT] + (w + (body + rest)));
            p < g.x.size && ParseValue(g.x, p, depth) == Ok(Object(members), At(g, rest))
    decreases members, 5
  {
    if members == [] {
      EmptyObjectParses(k, g, w, rest, depth);
    } else {
      MembersParse(k, g, members, w, body, rest, depth);
    }
  }

  lemma OpenRegroup(text: bytes, open: byte, w: bytes, list: bytes, rest: bytes)
    requires text == [open] + (w + list)
    ensures text + rest == [open] + (w + (list + rest))
  {
  }

  // A value's text in front of the rest of the buffer is parsed to the value.
  lemma {:induction false} TextParses(k: Codec, g: Page, t: Json, text: bytes, rest: bytes, depth: nat)
    requires PageOk(k, g) && ValueText(k, t, text, rest) && g.ends(text + rest) && depth + Nesting(t) <= NESTING_LIMIT
    ensures At(g, text + rest) < g.x.size && ParseValue(g.x, At(g, text + rest), depth) == Ok(t, At(g, rest))
    decreases t, 6
  {
    match t
    case Array(items) =>
      var w, list :| text == [OPEN_ARRAY] + (w + list) && Blank(w) && ListText(k, items, list, rest);
      OpenRegroup(text, OPEN_ARRAY, w, list, rest);
      ArrayParses(k, g, items, w, list, rest, depth);
    case Object(members) =>
      var w, body :| text == [OPEN_OBJECT] + (w + body) && Blank(w) && BodyText(k, members, body, rest);
      OpenRegroup(text, OPEN_OBJECT, w, body, rest);
      ObjectParses(k, g, members, w, body, rest, depth);
    case _ =>
      ValueStarts(k, t, text, rest);
      NoLead(k, g, text + rest);
      assert Reads(k, g, text, rest);
  }
}
