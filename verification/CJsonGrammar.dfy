/**
  cJSON's parser accepts exactly the texts of the grammar, up to its nesting limit.
 */
module CJsonGrammar {
  import opened Bytes
  import opened CJson
  import opened CJsonText
  import opened CJsonStringText
  import opened CJsonLeaves
  import opened CJsonParsed
  import opened CJsonComplete

  // ---------- the buffer ----------

  lemma BufferTapeAt(k: Codec, c: bytes, p: nat)
    requires CodecOk(k) && Terminated(c)
    ensures TapeAt(k, c, LexerOf(k, c), p)
  {
    if p <= |c| {
      SkippedIsBlank(c, p);
    }
    if p < |c| && ParseString(c, p).Ok? {
      ParsesExactlyStrings(c, p, ParseString(c, p).value, ParseString(c, p).offset);
    }
    if p < |c| && Atom(k, c, p).Ok? {
      AtomParsed(k, c, p, Atom(k, c, p).value, Atom(k, c, p).offset);
    }
  }

  lemma BufferTape(k: Codec, c: bytes)
    requires CodecOk(k) && Terminated(c)
    ensures Tape(k, c, LexerOf(k, c))
  {
    forall p ensures TapeAt(k, c, LexerOf(k, c), p) { BufferTapeAt(k, c, p); }
  }

  function PageOf(k: Codec, c: bytes): Page
    requires CodecOk(k) && Terminated(c)
  {
    Page(LexerOf(k, c), (s: bytes) => |s| <= |c| && c[|c| - |s|..] == s)
  }

  lemma EndParts(c: bytes, a: bytes, b: bytes)
    requires |a + b| <= |c| && c[|c| - |a + b|..] == a + b
    ensures c[|c| - |a + b|..|c| - |b|] == a && c[|c| - |b|..] == b
  {
    var s := c[|c| - |a + b|..];
    assert s[..|a|] == a && s[|a|..] == b;
  }

  lemma BufferNames(k: Codec, c: bytes, p: nat, q: nat)
    requires CodecOk(k) && Terminated(c) && p <= q <= |c|
    ensures ReadsName(LexerOf(k, c), c[p..q], p, q)
  {
    forall s | NameText(s, c[p..q]) ensures LexerOf(k, c).name(p) == Ok(s, q) {
      ParsesExactlyStrings(c, p, s, q);
    }
  }

  lemma BufferScalars(k: Codec, c: bytes, p: nat, q: nat)
    requires CodecOk(k) && Terminated(c) && p <= q <= |c|
    ensures ReadsScalar(k, LexerOf(k, c), c[p..q], c[q..], p, q)
  {
    forall t | IsScalar(t) && ValueText(k, t, c[p..q], c[q..]) ensures LexerOf(k, c).atom(p) == Ok(t, q) {
      ValueStarts(k, t, c[p..q], c[q..]);
      AtomParses(k, c, p, t, q);
    }
  }

  lemma BufferReadsAt(k: Codec, c: bytes, p: nat, q: nat)
    requires CodecOk(k) && Terminated(c) && p <= q <= |c|
    ensures ReadsAt(k, LexerOf(k, c), c[p..q], c[q..], p, q)
  {
    BufferNames(k, c, p, q);
    BufferScalars(k, c, p, q);
    if q < |c| && Blank(c[p..q]) && c[q] > 32 {
      SkipsBlanks(c, p, q);
    }
  }

  lemma Collect(k: Codec, g: Page, a: bytes, b: bytes, p: nat, q: nat)
    requires |a + b| <= g.x.size && g.ends(b) && p == g.x.size - |a + b| && q == g.x.size - |b|
    requires ReadsAt(k, g.x, a, b, p, q) == true
    ensures Reads(k, g, a, b)
  {
  }

  lemma BufferReads(k: Codec, c: bytes, g: Page, a: bytes, b: bytes)
    requires CodecOk(k) && Terminated(c) && g == PageOf(k, c)
    ensures Reads(k, g, a, b)
  {
    if g.ends(a + b) {
      var p, q := |c| - |a + b|, |c| - |b|;
      EndParts(c, a, b);
      BufferReadsAt(k, c, p, q);
      Collect(k, g, a, b, p, q);
    }
  }

  lemma BufferPage(k: Codec, c: bytes, g: Page)
    requires CodecOk(k) && Terminated(c) && g == PageOf(k, c)
    ensures PageOk(k, g)
  {
    forall a, b ensures Reads(k, g, a, b) { BufferReads(k, c, g, a, b); }
  }

  // ---------- values ----------

  lemma EndsHere(k: Codec, c: bytes, g: Page, off: nat, next: nat)
    requires CodecOk(k) && Terminated(c) && g == PageOf(k, c) && off <= next <= |c|
    ensures g.ends(c[off..next] + c[next..]) && At(g, c[off..next] + c[next..]) == off && At(g, c[next..]) == next
  {
    Slices(c, off, next, |c|);
    assert c[|c| - |c[off..]|..] == c[off..];
  }

  lemma StandingParses(k: Codec, c: bytes, off: nat, depth: nat, t: Json, next: nat)
    requires CodecOk(k) && Terminated(c) && off < next <= |c| && depth + Nesting(t) <= NESTING_LIMIT
    requires ValueText(k, t, c[off..next], c[next..])
    ensures ParseValue(LexerOf(k, c), off, depth) == Ok(t, next)
  {
    var g := PageOf(k, c);
    BufferPage(k, c, g);
    EndsHere(k, c, g, off, next);
    TextParses(k, g, t, c[off..next], c[next..], depth);
  }

  // Main theorem: at any place of any buffer the parser returns a tree exactly if a text of
  // that tree stands there and nests within the limit, and stops right behind it.
  lemma ParsesExactlyTheGrammar(k: Codec, c: bytes, off: nat, depth: nat, t: Json, next: nat)
    requires CodecOk(k) && Terminated(c) && off < |c| && depth <= 1000
    ensures ParseValue(LexerOf(k, c), off, depth) == Ok(t, next)
       <==> off < next <= |c| && ValueText(k, t, c[off..next], c[next..]) && depth + Nesting(t) <= 1000
  {
    if ParseValue(LexerOf(k, c), off, depth) == Ok(t, next) {
      BufferTape(k, c);
      ParsedValue(k, c, LexerOf(k, c), off, depth, t, next);
    } else if off < next <= |c| && ValueText(k, t, c[off..next], c[next..]) && depth + Nesting(t) <= NESTING_LIMIT {
      StandingParses(k, c, off, depth, t, next);
    }
  }
}
