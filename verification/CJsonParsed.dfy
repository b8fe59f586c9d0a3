/**
  Whatever cJSON parses stands in the buffer as a text of the grammar.
 */
module CJsonParsed {
  import opened Bytes
  import opened CJson
  import opened CJsonText
  import opened CJsonSteps

  // The lexer's answers at p, in terms of the text there.
  ghost predicate TapeAt(k: Codec, c: bytes, x: Lexer, p: nat) {
    && (p < |c| ==> x.at(p) == c[p])
    && (p <= |c| ==> SkipsTo(c, p, x.skip(p)))
    && (p < |c| && x.name(p).Ok? ==> Names(c, p, x.name(p).value, x.name(p).offset))
    && (p < |c| && x.atom(p).Ok? ==> Scalar(k, c, p, x.atom(p).value, x.atom(p).offset))
  }

  // Blanks up to a visible byte, or the end of the buffer.
  predicate SkipsTo(c: bytes, p: nat, q: nat) {
    q < |c| && (q == |c| - 1 || (p <= q && Blank(c[p..q]) && c[q] > 32))
  }

  ghost predicate Names(c: bytes, p: nat, s: bytes, n: nat) {
    p < n <= |c| && NameText(s, c[p..n])
  }

  ghost predicate Scalar(k: Codec, c: bytes, p: nat, t: Json, n: nat) {
    p < n <= |c| && !t.Array? && !t.Object? && ValueText(k, t, c[p..n], c[n..])
  }

  ghost predicate Tape(k: Codec, c: bytes, x: Lexer) {
    LexerOk(x) && Terminated(c) && x.size == |c| && forall p :: TapeAt(k, c, x, p)
  }

  lemma Slices(c: bytes, p: nat, q: nat, r: nat)
    requires p <= q <= r <= |c|
    ensures c[p..r] == c[p..q] + c[q..r] && c[p..] == c[p..q] + c[q..]
  {
  }

  lemma SliceFirst(c: bytes, p: nat, r: nat)
    requires p < r <= |c|
    ensures c[p..r] == [c[p]] + c[p + 1..r]
  {
  }

  // An element or member from q to e, blanks to o, the rest of the list to next.
  lemma ListSlices(c: bytes, q: nat, e: nat, o: nat, next: nat)
    requires q <= e <= o <= next <= |c| && Blank(c[e..o])
    ensures ListSplit(c[q..next], c[q..e], c[e..o], c[o..next])
    ensures c[e..] == c[e..o] + (c[o..next] + c[next..])
  {
    Slices(c, q, e, next);
    Slices(c, e, o, next);
    Slices(c, e, o, |c|);
    Slices(c, o, next, |c|);
  }

  // The element from q to e, blanks, and what follows from o on make up a list.
  lemma ListJoin(k: Codec, c: bytes, items: seq<Json>, q: nat, e: nat, o: nat, next: nat)
    requires items != [] && q <= e <= o <= next <= |c| && Blank(c[e..o])
    requires ValueText(k, items[0], c[q..e], c[e..]) && ListTail(k, items[1..], c[o..next], c[next..])
    ensures ListText(k, items, c[q..next], c[next..])
  {
    ListSlices(c, q, e, o, next);
  }

  lemma TailJoin(k: Codec, c: bytes, items: seq<Json>, o: nat, q: nat, next: nat)
    requires items != [] && o < q <= next <= |c| && c[o] == COMMA && Blank(c[o + 1..q])
    requires ListText(k, items, c[q..next], c[next..])
    ensures ListTail(k, items, c[o..next], c[next..])
  {
    SliceFirst(c, o, next);
    Slices(c, o + 1, q, next);
  }

  // A value begins with a visible byte, which tells arrays and objects.
  lemma ValueStarts(k: Codec, t: Json, text: bytes, rest: bytes)
    requires ValueText(k, t, text, rest)
    ensures text != [] && 32 < text[0] < 128 && text[0] != CLOSE_ARRAY && text[0] != CLOSE_OBJECT
    ensures (text[0] == OPEN_ARRAY <==> t.Array?) && (text[0] == OPEN_OBJECT <==> t.Object?)
  {
  }

  // Skipping before and after what is parsed.
  lemma SkipsBefore(k: Codec, c: bytes, x: Lexer, p: nat)
    requires Tape(k, c, x) && p <= |c| && c[x.skip(p)] != NUL
    ensures x.skip(p) < |c| && x.at(x.skip(p)) == c[x.skip(p)] && p <= x.skip(p) && Blank(c[p..x.skip(p)])
  {
    assert TapeAt(k, c, x, p) && TapeAt(k, c, x, x.skip(p));
  }

  lemma AtIsByte(k: Codec, c: bytes, x: Lexer, p: nat)
    requires Tape(k, c, x) && p < |c|
    ensures x.at(p) == c[p]
  {
    assert TapeAt(k, c, x, p);
  }

  // What ListJoin needs behind the element that ends at e.
  lemma ItemsTail(k: Codec, c: bytes, x: Lexer, items: seq<Json>, e: nat, o: nat, next: nat)
    requires Tape(k, c, x) && items != [] && e <= |c| && o == x.skip(e) < |c| && next <= |c|
    requires if |items| == 1 then x.at(o) == CLOSE_ARRAY && next == o + 1
             else x.at(o) == COMMA && o + 1 < |c|
                  && var q := x.skip(o + 1);
                     o < q < next && Blank(c[o + 1..q]) && ListText(k, items[1..], c[q..next], c[next..])
    ensures e <= o < next && Blank(c[e..o]) && ListTail(k, items[1..], c[o..next], c[next..])
  {
    AtIsByte(k, c, x, o);
    SkipsBefore(k, c, x, e);
    if |items| == 1 {
      assert c[o..next] == [CLOSE_ARRAY];
    } else {
      TailJoin(k, c, items[1..], o, x.skip(o + 1), next);
    }
  }

  lemma {:induction false} ParsedItems(
    k: Codec, c: bytes, x: Lexer, p: nat, depth: nat, items: seq<Json>, next: nat)
    requires Tape(k, c, x) && p < |c| && depth <= NESTING_LIMIT && ParseItems(x, p, depth) == Ok(items, next)
    ensures var q := x.skip(p);
            && items != [] && p <= q < next <= |c| && Blank(c[p..q]) && c[q] > 32
            && ListText(k, items, c[q..next], c[next..]) && depth + NestingOfItems(items) <= NESTING_LIMIT
    decreases NESTING_LIMIT - depth, 1, x.size - p
  {
    var q := x.skip(p);
    var e, o := ItemsUnfold(x, p, depth, items, next);
    ParsedValue(k, c, x, q, depth, items[0], e);
    ValueStarts(k, items[0], c[q..e], c[e..]);
    SkipsBefore(k, c, x, p);
    if |items| > 1 {
      ParsedItems(k, c, x, o + 1, depth, items[1..], next);
    }
    ItemsTail(k, c, x, items, e, o, next);
    ListJoin(k, c, items, q, e, o, next);
    ItemsNest(items, depth);
  }

  lemma ArrayJoin(k: Codec, c: bytes, items: seq<Json>, off: nat, q: nat, next: nat)
    requires off < q < next <= |c| && c[off] == OPEN_ARRAY && Blank(c[off + 1..q])
    requires ListText(k, items, c[q..next], c[next..])
    ensures ValueText(k, Array(items), c[off..next], c[next..])
  {
    SliceFirst(c, off, next);
    Slices(c, off + 1, q, next);
  }

  lemma {:induction false} ParsedValue(k: Codec, c: bytes, x: Lexer, off: nat, depth: nat, t: Json, next: nat)
    requires Tape(k, c, x) && off < |c| && depth <= NESTING_LIMIT && ParseValue(x, off, depth) == Ok(t, next)
    ensures off < next <= |c| && ValueText(k, t, c[off..next], c[next..]) && depth + Nesting(t) <= NESTING_LIMIT
    decreases NESTING_LIMIT - depth, 0, 1
  {
    if x.at(off) == OPEN_ARRAY {
      ParsedArray(k, c, x, off, depth, t, next);
    } else if x.at(off) == OPEN_OBJECT {
      ParsedObject(k, c, x, off, depth, t, next);
    } else {
      assert TapeAt(k, c, x, off);
    }
  }

  lemma {:induction false} ParsedArray(
    k: Codec, c: bytes, x: Lexer, off: nat, depth: nat, t: Json, next: nat)
    requires Tape(k, c, x) && off < |c| && depth <= NESTING_LIMIT && x.at(off) == OPEN_ARRAY
    requires ParseValue(x, off, depth) == Ok(t, next)
    ensures off < next <= |c| && ValueText(k, t, c[off..next], c[next..]) && depth + Nesting(t) <= NESTING_LIMIT
    decreases NESTING_LIMIT - depth, 0, 0
  {
    AtIsByte(k, c, x, off);
    var first := x.skip(off + 1);
    AtIsByte(k, c, x, first);
    if x.at(first) == CLOSE_ARRAY {
      SkipsBefore(k, c, x, off + 1);
      assert c[first..next] == [CLOSE_ARRAY];
      ArrayJoin(k, c, [], off, first, next);
    } else {
      ParsedItems(k, c, x, first, depth + 1, t.items, next);
      TwoSkips(k, c, x, off + 1);
      ArrayJoin(k, c, t.items, off, x.skip(first), next);
    }
  }

  // Skipping twice skips no more than blanks.
  lemma TwoSkips(k: Codec, c: bytes, x: Lexer, p: nat)
    requires Tape(k, c, x) && p < |c|
    requires var q := x.skip(x.skip(p)); x.skip(p) <= q < |c| && Blank(c[x.skip(p)..q]) && c[q] > 32
    ensures p <= x.skip(x.skip(p)) && Blank(c[p..x.skip(x.skip(p))])
  {
    var first, q := x.skip(p), x.skip(x.skip(p));
    assert TapeAt(k, c, x, p);
    Slices(c, p, first, q);
  }

  lemma MemberSlices(c: bytes, q: nat, n: nat, o: nat, at: nat, e: nat)
    requires q < n <= o < at <= e <= |c| && c[o] == COLON
    ensures c[q..e] == c[q..n] + (c[n..o] + ([COLON] + (c[o + 1..at] + c[at..e])))
  {
    Slices(c, q, n, e);
    Slices(c, n, o, e);
    SliceFirst(c, o, e);
    Slices(c, o + 1, at, e);
  }

  lemma MemberMade(
    k: Codec, m: Member, text: bytes, rest: bytes, name: bytes, w: bytes, gap: bytes, v: bytes)
    requires MemberSplit(text, name, w, gap, v) && NameText(m.name, name) && ValueText(k, m.value, v, rest)
    ensures MemberText(k, m, text, rest)
  {
  }

  lemma MemberJoin(k: Codec, c: bytes, m: Member, q: nat, n: nat, o: nat, at: nat, e: nat)
    requires q < n <= o < at <= e <= |c| && NameText(m.name, c[q..n]) && Blank(c[n..o]) && c[o] == COLON
    requires Blank(c[o + 1..at]) && ValueText(k, m.value, c[at..e], c[e..])
    ensures MemberText(k, m, c[q..e], c[e..])
  {
    MemberSlices(c, q, n, o, at, e);
    MemberMade(k, m, c[q..e], c[e..], c[q..n], c[n..o], c[o + 1..at], c[at..e]);
  }

  lemma NameUnfold(x: Lexer, p: nat, name: bytes, at: nat) returns (q: nat, n: nat, o: nat)
    requires LexerOk(x) && p < x.size && ParseName(x, p) == Ok(name, at)
    ensures q == x.skip(p) < x.size && x.name(q) == Ok(name, n) && n <= x.size
    ensures o == x.skip(n) < x.size && x.at(o) == COLON && o + 1 < x.size && at == x.skip(o + 1) < x.size
  {
    q := x.skip(p);
    n := x.name(q).offset;
    o := x.skip(n);
  }

  // The name at q, its colon and where the value begins.
  lemma ParsedName(k: Codec, c: bytes, x: Lexer, p: nat, name: bytes, at: nat) returns (q: nat, n: nat, o: nat)
    requires Tape(k, c, x) && p < |c| && ParseName(x, p) == Ok(name, at) && at < |c| && c[at] > 32
    ensures q == x.skip(p) && p <= q && Blank(c[p..q]) && q < |c| && c[q] > 32 && x.name(q) == Ok(name, n)
    ensures q < n <= o < at && Blank(c[n..o]) && c[o] == COLON && Blank(c[o + 1..at])
  {
    q, n, o := NameUnfold(x, p, name, at);
    NameQuoted(k, c, x, q, name, n);
    SkipsBefore(k, c, x, p);
    AtIsByte(k, c, x, o);
    SkipsBefore(k, c, x, n);
    SkipsBefore(k, c, x, o + 1);
  }

  lemma NameQuoted(k: Codec, c: bytes, x: Lexer, q: nat, name: bytes, n: nat)
    requires Tape(k, c, x) && q < |c| && x.name(q) == Ok(name, n)
    ensures q < n <= |c| && c[q] == QUOTE
  {
    assert TapeAt(k, c, x, q);
    NameStarts(name, c[q..n]);
  }

  lemma NameAt(k: Codec, c: bytes, x: Lexer, q: nat, name: bytes, n: nat)
    requires Tape(k, c, x) && q < |c| && x.name(q) == Ok(name, n)
    ensures q < n <= |c| && NameText(name, c[q..n])
  {
    assert TapeAt(k, c, x, q);
  }

  lemma NameStarts(s: bytes, text: bytes)
    requires NameText(s, text)
    ensures text != [] && text[0] == QUOTE
  {
  }

  ghost predicate MemberStands(k: Codec, c: bytes, p: nat, q: nat, m: Member, e: nat) {
    p <= q < e <= |c| && Blank(c[p..q]) && c[q] > 32 && MemberText(k, m, c[q..e], c[e..])
  }

  lemma {:induction false} ParsedMember(k: Codec, c: bytes, x: Lexer, p: nat, depth: nat, m: Member, e: nat)
    requires Tape(k, c, x) && p < |c| && depth <= NESTING_LIMIT && ParseMember(x, p, depth) == Ok(m, e)
    ensures MemberStands(k, c, p, x.skip(p), m, e) && depth + Nesting(m.value) <= NESTING_LIMIT
    decreases NESTING_LIMIT - depth, 0, 2
  {
    var at := ParseName(x, p).offset;
    ParsedValue(k, c, x, at, depth, m.value, e);
    ValueStarts(k, m.value, c[at..e], c[e..]);
    var q, n, o := ParsedName(k, c, x, p, m.name, at);
    NameAt(k, c, x, q, m.name, n);
    MemberJoin(k, c, m, q, n, o, at, e);
  }

  lemma BodyJoin(k: Codec, c: bytes, members: seq<Member>, q: nat, e: nat, o: nat, next: nat)
    requires members != [] && q <= e <= o <= next <= |c| && Blank(c[e..o])
    requires MemberText(k, members[0], c[q..e], c[e..]) && BodyTail(k, members[1..], c[o..next], c[next..])
    ensures BodyText(k, members, c[q..next], c[next..])
  {
    ListSlices(c, q, e, o, next);
  }

  lemma BodyTailJoin(k: Codec, c: bytes, members: seq<Member>, o: nat, q: nat, next: nat)
    requires members != [] && o < q <= next <= |c| && c[o] == COMMA && Blank(c[o + 1..q])
    requires BodyText(k, members, c[q..next], c[next..])
    ensures BodyTail(k, members, c[o..next], c[next..])
  {
    SliceFirst(c, o, next);
    Slices(c, o + 1, q, next);
  }

  // From p there are blanks up to q and the list's text from there to next.
  ghost predicate BodyStands(k: Codec, c: bytes, p: nat, q: nat, members: seq<Member>, next: nat) {
    p <= q < next <= |c| && Blank(c[p..q]) && c[q] > 32 && BodyText(k, members, c[q..next], c[next..])
  }

  lemma MembersTail(k: Codec, c: bytes, x: Lexer, members: seq<Member>, e: nat, o: nat, next: nat)
    requires Tape(k, c, x) && members != [] && e <= |c| && o == x.skip(e) < |c| && next <= |c|
    requires if |members| == 1 then x.at(o) == CLOSE_OBJECT && next == o + 1
             else x.at(o) == COMMA && o + 1 < |c| && BodyStands(k, c, o + 1, x.skip(o + 1), members[1..], next)
    ensures e <= o < next && Blank(c[e..o]) && BodyTail(k, members[1..], c[o..next], c[next..])
  {
    AtIsByte(k, c, x, o);
    SkipsBefore(k, c, x, e);
    if |members| == 1 {
      assert c[o..next] == [CLOSE_OBJECT];
    } else {
      BodyTailJoin(k, c, members[1..], o, x.skip(o + 1), next);
    }
  }

  lemma MembersWrap(k: Codec, c: bytes, x: Lexer, members: seq<Member>, p: nat, e: nat, o: nat, next: nat)
    requires Tape(k, c, x) && members != [] && MemberStands(k, c, p, x.skip(p), members[0], e)
    requires o == x.skip(e) < |c| && next <= |c|
    requires if |members| == 1 then x.at(o) == CLOSE_OBJECT && next == o + 1
             else x.at(o) == COMMA && o + 1 < |c| && BodyStands(k, c, o + 1, x.skip(o + 1), members[1..], next)
    ensures BodyStands(k, c, p, x.skip(p), members, next)
  {
    MembersTail(k, c, x, members, e, o, next);
    BodyJoin(k, c, members, x.skip(p), e, o, next);
  }

  // The first member in front of what stands behind it.
  lemma {:induction false} MembersFinish(
    k: Codec, c: bytes, x: Lexer, p: nat, depth: nat, members: seq<Member>, e: nat, o: nat, next: nat)
    requires Tape(k, c, x) && p < |c| && depth <= NESTING_LIMIT && members != []
    requires ParseMember(x, p, depth) == Ok(members[0], e) && o == x.skip(e) < |c| && next <= |c|
    requires if |members| == 1 then x.at(o) == CLOSE_OBJECT && next == o + 1
             else x.at(o) == COMMA && o + 1 < |c| && BodyStands(k, c, o + 1, x.skip(o + 1), members[1..], next)
    ensures BodyStands(k, c, p, x.skip(p), members, next) && depth + Nesting(members[0].value) <= NESTING_LIMIT
    decreases NESTING_LIMIT - depth, 0, 3
  {
    ParsedMember(k, c, x, p, depth, members[0], e);
    MembersWrap(k, c, x, members, p, e, o, next);
  }

  lemma {:induction false} ParsedMembers(
    k: Codec, c: bytes, x: Lexer, p: nat, depth: nat, members: seq<Member>, next: nat)
    requires Tape(k, c, x) && p < |c| && depth <= NESTING_LIMIT && ParseMembers(x, p, depth) == Ok(members, next)
    ensures members != [] && BodyStands(k, c, p, x.skip(p), members, next)
    ensures depth + NestingOfMembers(members) <= NESTING_LIMIT
    decreases NESTING_LIMIT - depth, 1, x.size - p
  {
    var e, o := MembersUnfold(x, p, depth, members, next);
    if |members| > 1 {
      ParsedMembers(k, c, x, o + 1, depth, members[1..], next);
    }
    MembersFinish(k, c, x, p, depth, members, e, o, next);
    MembersNest(members, depth);
  }

  lemma ObjectJoin(k: Codec, c: bytes, members: seq<Member>, off: nat, q: nat, next: nat)
    requires off < q < next <= |c| && c[off] == OPEN_OBJECT && Blank(c[off + 1..q])
    requires BodyText(k, members, c[q..next], c[next..])
    ensures ValueText(k, Object(members), c[off..next], c[next..])
  {
    SliceFirst(c, off, next);
    Slices(c, off + 1, q, next);
  }

  lemma {:induction false} ParsedObject(
    k: Codec, c: bytes, x: Lexer, off: nat, depth: nat, t: Json, next: nat)
    requires Tape(k, c, x) && off < |c| && depth <= NESTING_LIMIT && x.at(off) == OPEN_OBJECT
    requires ParseValue(x, off, depth) == Ok(t, next)
    ensures off < next <= |c| && ValueText(k, t, c[off..next], c[next..]) && depth + Nesting(t) <= NESTING_LIMIT
    decreases NESTING_LIMIT - depth, 0, 0
  {
    AtIsByte(k, c, x, off);
    var first := x.skip(off + 1);
    AtIsByte(k, c, x, first);
    if x.at(first) == CLOSE_OBJECT {
      SkipsBefore(k, c, x, off + 1);
      assert c[first..next] == [CLOSE_OBJECT];
      ObjectJoin(k, c, [], off, first, next);
    } else {
      ParsedMembers(k, c, x, first, depth + 1, t.members, next);
      TwoSkips(k, c, x, off + 1);
      ObjectJoin(k, c, t.members, off, x.skip(first), next);
    }
  }
}
