/**
  Whole documents: what cJSON_ParseWithOpts accepts, and the round trip of printed trees.
 */
module CJsonDocument {
  import opened Options
  import opened Bytes
  import opened CJson
  import opened CJsonText
  import opened CJsonLayout
  import opened CJsonLeaves
  import opened CJsonParsed
  import opened CJsonGrammar
  import opened CJsonRfc
  import opened CJsonRoundTrip
  import Print = CJsonPrint

  const BOM: bytes := [0xEF, 0xBB, 0xBF]

  // A byte order mark perhaps, blanks, a value and whatever follows it.
  predicate DocumentSplit(s: bytes, bom: bytes, w: bytes, v: bytes, tail: bytes) {
    s == bom + (w + (v + tail)) && (bom == [] || bom == BOM) && Blank(w)
  }

  // The document holds the tree; if it has to end there, only blanks follow.
  ghost predicate Document(k: Codec, s: bytes, t: Json, requireEnd: bool) {
    exists bom, w, v, tail ::
      DocumentSplit(s, bom, w, v, tail) && ValueText(k, t, v, tail + [NUL]) && (requireEnd ==> Blank(tail))
  }

  // ---------- a value's last byte ----------

  lemma {:induction false} ListEnds(k: Codec, items: seq<Json>, list: bytes, rest: bytes)
    requires ListText(k, items, list, rest)
    ensures list != [] && list[|list| - 1] == CLOSE_ARRAY
    decreases |items|, 0
  {
    if items != [] {
      var first, w, more :|
        ListSplit(list, first, w, more) && ValueText(k, items[0], first, w + (more + rest))
        && ListTail(k, items[1..], more, rest);
      ListTailEnds(k, items[1..], more, rest);
    }
  }

  lemma {:induction false} ListTailEnds(k: Codec, items: seq<Json>, more: bytes, rest: bytes)
    requires ListTail(k, items, more, rest)
    ensures more != [] && more[|more| - 1] == CLOSE_ARRAY
    decreases |items|, 1
  {
    if items != [] {
      var w, list :| more == [COMMA] + (w + list) && Blank(w) && ListText(k, items, list, rest);
      ListEnds(k, items, list, rest);
    }
  }

  lemma {:induction false} BodyEnds(k: Codec, members: seq<Member>, body: bytes, rest: bytes)
    requires BodyText(k, members, body, rest)
    ensures body != [] && body[|body| - 1] == CLOSE_OBJECT
    decreases |members|, 0
  {
    if members != [] {
      var first, w, more :|
        ListSplit(body, first, w, more) && MemberText(k, members[0], first, w + (more + rest))
        && BodyTail(k, members[1..], more, rest);
      BodyTailEnds(k, members[1..], more, rest);
    }
  }

  lemma {:induction false} BodyTailEnds(k: Codec, members: seq<Member>, more: bytes, rest: bytes)
    requires BodyTail(k, members, more, rest)
    ensures more != [] && more[|more| - 1] == CLOSE_OBJECT
    decreases |members|, 1
  {
    if members != [] {
      var w, body :| more == [COMMA] + (w + body) && Blank(w) && BodyText(k, members, body, rest);
      BodyEnds(k, members, body, rest);
    }
  }

  lemma NumberEnds(k: Codec, n: int, text: bytes, rest: bytes)
    requires CodecOk(k) && NumberText(k, n, text, rest)
    ensures text != [] && NumberByte(text[|text| - 1])
  {
    var run :| LongestRun(run, text + rest) && k.read(run) == (n, |text|);
    assert ReadsWithin(k, run);
    assert run[|text| - 1] == (text + rest)[|text| - 1];
  }

  lemma ValueEnds(k: Codec, t: Json, text: bytes, rest: bytes)
    requires CodecOk(k) && ValueText(k, t, text, rest)
    ensures text != [] && text[|text| - 1] != NUL
  {
    match t
    case Number(n) => NumberEnds(k, n, text, rest);
    case Array(items) =>
      var w, list :| text == [OPEN_ARRAY] + (w + list) && Blank(w) && ListText(k, items, list, rest);
      ListEnds(k, items, list, rest);
    case Object(members) =>
      var w, body :| text == [OPEN_OBJECT] + (w + body) && Blank(w) && BodyText(k, members, body, rest);
      BodyEnds(k, members, body, rest);
    case _ =>
  }

  // ---------- documents ----------

  lemma DocumentSlices(c: bytes, start: nat, off: nat, next: nat)
    requires Terminated(c) && start <= off <= next < |c|
    ensures var n := |c| - 1;
            && c[..n] == c[..start] + (c[start..off] + (c[off..next] + c[next..n]))
            && c[next..] == c[next..n] + [NUL]
  {
    var n := |c| - 1;
    assert c[..n] == c[..start] + c[start..n];
    Slices(c, start, off, n);
    Slices(c, off, next, n);
    Slices(c, next, n, |c|);
    assert c[n..] == [NUL];
  }

  lemma StartsAfterBom(c: bytes)
    requires |c| > 0
    ensures var start := SkipBom(c); start < |c| && (c[..start] == [] || c[..start] == BOM)
  {
  }

  lemma ValueInside(k: Codec, c: bytes, off: nat, next: nat, t: Json)
    requires CodecOk(k) && Terminated(c) && off < next <= |c| && ValueText(k, t, c[off..next], c[next..])
    ensures next < |c| && 32 < c[off] < 128
  {
    ValueStarts(k, t, c[off..next], c[next..]);
    ValueEnds(k, t, c[off..next], c[next..]);
    assert c[off..next][|c[off..next]| - 1] == c[next - 1];
  }

  // Nothing but blanks follows exactly if skipping comes to the terminator.
  lemma OnlyBlanksFollow(c: bytes, s: bytes, next: nat)
    requires c == s + [NUL] && NUL !in s && next < |c|
    ensures c[Skip(c, next)] == NUL <==> Blank(c[next..|c| - 1])
  {
    SkipsToEnd(c, next);
    assert Skip(c, next) < |s| ==> c[Skip(c, next)] == s[Skip(c, next)];
  }

  lemma DocumentJoin(
    k: Codec, c: bytes, s: bytes, start: nat, off: nat, next: nat, t: Json, requireEnd: bool)
    requires c == s + [NUL] && start <= off < next < |c| && (c[..start] == [] || c[..start] == BOM)
    requires Blank(c[start..off]) && ValueText(k, t, c[off..next], c[next..])
    requires requireEnd ==> Blank(c[next..|c| - 1])
    ensures Document(k, s, t, requireEnd)
  {
    DocumentSlices(c, start, off, next);
    assert c[..|c| - 1] == s;
    assert DocumentSplit(s, c[..start], c[start..off], c[off..next], c[next..|c| - 1]);
  }

  // What is parsed is a document.
  lemma ParsedDocument(k: Codec, c: bytes, s: bytes, start: nat, off: nat, next: nat, t: Json, requireEnd: bool)
    requires CodecOk(k) && c == s + [NUL] && NUL !in s && start == SkipBom(c) && off == Skip(c, start)
    requires ParseValue(LexerOf(k, c), off, 0) == Ok(t, next)
    requires next <= |c| && (requireEnd ==> c[Skip(c, next)] == NUL)
    ensures Document(k, s, t, requireEnd) && Nesting(t) <= NESTING_LIMIT
  {
    ParsesExactlyTheGrammar(k, c, off, 0, t, next);
    ValueInside(k, c, off, next, t);
    StartsAfterBom(c);
    SkippedIsBlank(c, start);
    OnlyBlanksFollow(c, s, next);
    DocumentJoin(k, c, s, start, off, next, t, requireEnd);
  }

  // Where the parts of a document stand.
  lemma PartsStand(c: bytes, s: bytes, bom: bytes, w: bytes, v: bytes, tail: bytes) returns (off: nat, next: nat)
    requires DocumentSplit(s, bom, w, v, tail) && c == s + [NUL] && v != []
    ensures off == |bom| + |w| && next == off + |v| && off < next < |c|
    ensures c[..|bom|] == bom && c[|bom|..off] == w && c[off..next] == v && c[next..] == tail + [NUL]
    ensures c[next..|c| - 1] == tail && c[off] == v[0] && (w != [] ==> c[|bom|] == w[0])
  {
    off := |bom| + |w|;
    next := off + |v|;
    assert c == bom + (w + (v + (tail + [NUL])));
  }

  lemma BomSkipped(c: bytes, bom: bytes, off: nat)
    requires |bom| <= off < |c| && c[..|bom|] == bom && (bom == [] || bom == BOM)
    requires Blank(c[|bom|..off]) && 32 < c[off] < 128 && off + 1 < |c|
    ensures SkipBom(c) == |bom|
  {
    if bom == [] {
      assert off > 0 ==> c[0..off][0] == c[0];
    } else {
      assert c[..3] == BOM;
      assert c[0] == c[..3][0] && c[1] == c[..3][1] && c[2] == c[..3][2];
    }
  }

  // A document is parsed.
  lemma DocumentParses(
    k: Codec, c: bytes, s: bytes, bom: bytes, w: bytes, v: bytes, tail: bytes, t: Json, requireEnd: bool)
    returns (next: nat)
    requires CodecOk(k) && c == s + [NUL] && NUL !in s && DocumentSplit(s, bom, w, v, tail)
    requires ValueText(k, t, v, tail + [NUL]) && (requireEnd ==> Blank(tail)) && Nesting(t) <= NESTING_LIMIT
    ensures ParseValue(LexerOf(k, c), Skip(c, SkipBom(c)), 0) == Ok(t, next)
    ensures next < |c| && (requireEnd ==> c[Skip(c, next)] == NUL)
  {
    ValueStarts(k, t, v, tail + [NUL]);
    var off;
    off, next := PartsStand(c, s, bom, w, v, tail);
    BomSkipped(c, bom, off);
    SkipsBlanks(c, |bom|, off);
    ParsesExactlyTheGrammar(k, c, off, 0, t, next);
    OnlyBlanksFollow(c, s, next);
  }

  // Main theorem: a C string is accepted with a tree exactly if it is a document of that
  // tree and the tree nests within the limit.
  lemma AcceptsExactlyDocuments(k: Codec, text: bytes, requireEnd: bool, t: Json)
    requires CodecOk(k)
    ensures Parse(k, text, requireEnd) == Some(t)
       <==> Document(k, CString(text), t, requireEnd) && Nesting(t) <= 1000
  {
    var s := CString(text);
    var c := s + [NUL];
    if Parse(k, text, requireEnd) == Some(t) {
      var start := SkipBom(c);
      var off := Skip(c, start);
      ParsedDocument(k, c, s, start, off, ParseValue(LexerOf(k, c), off, 0).offset, t, requireEnd);
    } else if Document(k, s, t, requireEnd) && Nesting(t) <= NESTING_LIMIT {
      var bom, w, v, tail :|
        DocumentSplit(s, bom, w, v, tail) && ValueText(k, t, v, tail + [NUL]) && (requireEnd ==> Blank(tail));
      var _ := DocumentParses(k, c, s, bom, w, v, tail, t, requireEnd);
    }
  }

  // No parsed tree is nested deeper than the limit.
  lemma ParsedNests(k: Codec, text: bytes, requireEnd: bool)
    requires CodecOk(k)
    ensures var r := Parse(k, text, requireEnd); r.Some? ==> Nesting(r.value) <= 1000
  {
    var r := Parse(k, text, requireEnd);
    if r.Some? {
      AcceptsExactlyDocuments(k, text, requireEnd, r.value);
    }
  }

  // ---------- the round trip ----------

  lemma {:induction false} GoodIsCStrings(k: Codec, t: Json)
    requires Good(k, t)
    ensures Print.CStrings(t)
    decreases t
  {
    match t
    case Array(items) =>
      forall i | 0 <= i < |items| ensures Print.CStrings(items[i]) { GoodIsCStrings(k, items[i]); }
    case Object(members) =>
      forall i | 0 <= i < |members| ensures Print.CStrings(members[i].value) { GoodIsCStrings(k, members[i].value); }
    case _ =>
  }

  lemma PrintedDocument(k: Codec, t: Json, format: bool, requireEnd: bool)
    requires Good(k, t)
    ensures Document(k, Render(k, t, 0, format), t, requireEnd)
  {
    var v := Render(k, t, 0, format);
    assert [] + [NUL] == [NUL];
    RenderIsText(k, t, 0, format, [] + [NUL]);
    assert v == [] + ([] + (v + []));
    assert DocumentSplit(v, [], [], v, []);
  }

  // Main theorem: parsing the printed form of a tree, formatted or not, gives back that
  // tree, member order included, exactly if it nests within the limit.
  lemma RoundTrip(k: Codec, t: Json, format: bool, requireEnd: bool)
    requires CodecOk(k) && Good(k, t)
    ensures Parse(k, Shown(k, t, 0, format), requireEnd) == Some(t) <==> Nesting(t) <= 1000
  {
    var text := Render(k, t, 0, format);
    TreeShown(k, t, 0, format);
    GoodIsCStrings(k, t);
    Print.RenderWithoutNul(k, t, 0, format);
    CStringWhole(text);
    PrintedDocument(k, t, format, requireEnd);
    AcceptsExactlyDocuments(k, text, requireEnd, t);
  }
}
