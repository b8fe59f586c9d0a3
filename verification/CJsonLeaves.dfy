/**
  Blanks, names and scalars: what cJSON's readers return is exactly what the grammar says
  about the text they stand on.
 */
module CJsonLeaves {
  import opened Bytes
  import opened CJson
  import opened CJsonText
  import opened CJsonStringText

  // ---------- blanks ----------

  lemma {:induction false} SkipsBlanks(c: bytes, p: nat, q: nat)
    requires Terminated(c) && p <= q < |c| && Blank(c[p..q]) && c[q] > 32
    ensures Skip(c, p) == q
    decreases q - p
  {
    if p < q {
      assert c[p..q][0] == c[p] && c[p..q][1..] == c[p + 1..q];
      SkipsBlanks(c, p + 1, q);
    }
  }

  lemma {:induction false} SkippedIsBlank(c: bytes, p: nat)
    requires Terminated(c) && p <= |c|
    ensures var q := Skip(c, p); q == |c| - 1 || (p <= q && Blank(c[p..q]) && c[q] > 32)
    decreases |c| - p
  {
    if p < |c| && c[p] <= 32 {
      SkippedIsBlank(c, p + 1);
      var q := Skip(c, p + 1);
      if q != |c| - 1 {
        assert c[p..q] == [c[p]] + c[p + 1..q];
      }
    }
  }

  lemma {:induction false} SkipsToEnd(c: bytes, p: nat)
    requires Terminated(c) && p < |c|
    ensures Skip(c, p) == |c| - 1 <==> Blank(c[p..|c| - 1])
    decreases |c| - p
  {
    if p < |c| - 1 {
      assert c[p..|c| - 1] == [c[p]] + c[p + 1..|c| - 1];
      if c[p] <= 32 {
        SkipsToEnd(c, p + 1);
      }
    }
  }

  // ---------- numbers ----------

  // The longest run of number bytes with room for `room` of them.
  predicate RunOf(run: bytes, s: bytes, room: nat) {
    && run <= s && |run| <= room
    && (forall i :: 0 <= i < |run| ==> NumberByte(run[i]))
    && (|run| == room || |run| == |s| || !NumberByte(s[|run|]))
  }

  lemma {:induction false} NumberRunIsRun(c: bytes, off: nat, room: nat)
    requires off <= |c|
    ensures RunOf(NumberRun(c, off, room), c[off..], room)
    decreases room
  {
    if room > 0 && off < |c| && NumberByte(c[off]) {
      NumberRunIsRun(c, off + 1, room - 1);
      assert c[off..] == [c[off]] + c[off + 1..];
    }
  }

  lemma RunUnique(a: bytes, b: bytes, s: bytes, room: nat)
    requires RunOf(a, s, room) && RunOf(b, s, room)
    ensures a == b
  {
    assert |a| == |b|;
  }

  lemma RunLongest(c: bytes, off: nat, next: nat)
    requires off <= next <= |c|
    ensures LongestRun(NumberRun(c, off, 63), c[off..next] + c[next..])
  {
    NumberRunIsRun(c, off, 63);
    assert c[off..next] + c[next..] == c[off..];
  }

  // strtod takes no more of the run than it is given.
  lemma NumberRead(k: Codec, c: bytes, off: nat, n: int, next: nat)
    requires CodecOk(k) && off < |c| && ParseNumber(k, c, off) == Ok(Number(n), next)
    ensures off < next <= |c| && k.read(NumberRun(c, off, 63)) == (n, next - off)
  {
    assert ReadsWithin(k, NumberRun(c, off, 63));
  }

  lemma NumberParsed(k: Codec, c: bytes, off: nat, n: int, next: nat)
    requires CodecOk(k) && off < |c| && (c[off] == 45 || 48 <= c[off] <= 57)
    requires ParseNumber(k, c, off) == Ok(Number(n), next)
    ensures off < next <= |c| && NumberText(k, n, c[off..next], c[next..])
  {
    NumberRead(k, c, off, n, next);
    RunLongest(c, off, next);
    assert c[off..next][0] == c[off];
  }

  lemma NumberParses(k: Codec, c: bytes, off: nat, n: int, next: nat)
    requires CodecOk(k) && off < next <= |c| && NumberText(k, n, c[off..next], c[next..])
    ensures (c[off] == 45 || 48 <= c[off] <= 57) && ParseNumber(k, c, off) == Ok(Number(n), next)
  {
    assert c[off..next] + c[next..] == c[off..] && c[off..next][0] == c[off];
    var run :| LongestRun(run, c[off..]) && k.read(run) == (n, next - off);
    NumberRunIsRun(c, off, 63);
    RunUnique(run, NumberRun(c, off, 63), c[off..], 63);
  }

  // ---------- scalars ----------

  lemma LiteralExactly(c: bytes, off: nat, text: bytes)
    requires off <= |c|
    ensures Literal(c, off, text) <==> off + |text| <= |c| && c[off..off + |text|] == text
  {
    if off + |text| <= |c| && c[off..off + |text|] == text {
      forall i | 0 <= i < |text| ensures text[i] == c[off + i] { assert c[off..off + |text|][i] == text[i]; }
    }
  }

  predicate IsScalar(t: Json) {
    !t.Array? && !t.Object?
  }

  // The first byte decides which of the readers can succeed.
  lemma FirstByte(k: Codec, c: bytes, off: nat)
    requires CodecOk(k) && off < |c|
    ensures c[off] != 110 && c[off] != 102 && c[off] != 116 ==>
              Atom(k, c, off)
              == if c[off] == QUOTE then
                   (match ParseString(c, off) case Fail => Fail case Ok(s, next) => Ok(String(s), next))
                 else if c[off] == 45 || 48 <= c[off] <= 57 then ParseNumber(k, c, off)
                 else Fail
    ensures Literal(c, off, NULL_TEXT) ==> c[off] == 110
    ensures Literal(c, off, FALSE_TEXT) ==> c[off] == 102
    ensures Literal(c, off, TRUE_TEXT) ==> c[off] == 116
  {
    assert Literal(c, off, NULL_TEXT) ==> NULL_TEXT[0] == c[off + 0];
    assert Literal(c, off, FALSE_TEXT) ==> FALSE_TEXT[0] == c[off + 0];
    assert Literal(c, off, TRUE_TEXT) ==> TRUE_TEXT[0] == c[off + 0];
  }

  lemma AtomParsed(k: Codec, c: bytes, off: nat, t: Json, next: nat)
    requires CodecOk(k) && off < |c| && Atom(k, c, off) == Ok(t, next)
    ensures IsScalar(t) && off < next <= |c| && ValueText(k, t, c[off..next], c[next..])
  {
    FirstByte(k, c, off);
    LiteralExactly(c, off, NULL_TEXT);
    LiteralExactly(c, off, FALSE_TEXT);
    LiteralExactly(c, off, TRUE_TEXT);
    match t
    case String(s) => ParsesExactlyStrings(c, off, s, next);
    case Number(n) => NumberParsed(k, c, off, n, next);
    case _ =>
  }

  lemma AtomParses(k: Codec, c: bytes, off: nat, t: Json, next: nat)
    requires CodecOk(k) && off < next <= |c| && IsScalar(t) && ValueText(k, t, c[off..next], c[next..])
    ensures Atom(k, c, off) == Ok(t, next)
  {
    FirstByte(k, c, off);
    assert c[off..next][0] == c[off];
    match t
    case String(s) => ParsesExactlyStrings(c, off, s, next);
    case Number(n) => NumberParses(k, c, off, n, next);
    case Null => LiteralExactly(c, off, NULL_TEXT);
    case False => LiteralExactly(c, off, FALSE_TEXT);
    case True => LiteralExactly(c, off, TRUE_TEXT);
  }
}
