/**
  The lines sdssplitargs accepts, as a grammar over bytes, and the proof that it splits
  exactly these, into exactly the arguments they spell.
 */
module SdsTokens {
  import opened Options
  import opened Bytes
  import opened Sds

  // ---------- the grammar ----------

  // What stands between double quotes: a byte, a backslash and a byte, or a byte in hexadecimal.
  datatype Double = Plain(b: byte) | Escaped(e: byte) | Hex(high: byte, low: byte)

  // What stands between single quotes: a byte, or an escaped apostrophe.
  datatype Single = Byte(b: byte) | Apostrophe

  datatype Quotes = NoQuotes | InDoubles(ds: seq<Double>) | InSingles(ss: seq<Single>)

  // Bare bytes, and at most one quoted part, which ends the token.
  datatype Word = Word(bare: bytes, quotes: Quotes)

  predicate Blank(b: byte) {
    b == 32 || 9 <= b <= 13
  }

  // What a backslash makes of the byte behind it.
  function Meaning(e: byte): byte {
    if e == Code('n') then 10
    else if e == Code('r') then 13
    else if e == Code('t') then 9
    else if e == Code('b') then 8
    else if e == Code('a') then 7
    else e
  }

  function DoubleText(d: Double): bytes {
    match d
    case Plain(b) => [b]
    case Escaped(e) => [92, e]
    case Hex(high, low) => [92, Code('x'), high, low]
  }

  function DoublesText(ds: seq<Double>): bytes {
    if ds == [] then [] else DoubleText(ds[0]) + DoublesText(ds[1..])
  }

  // \x is an escaped x only where no two digits follow.
  predicate DoubleOk(d: Double, rest: bytes) {
    match d
    case Plain(b) => b != 0 && b != 34 && b != 92
    case Escaped(e) => e != 0 && !(e == Code('x') && |rest| >= 2 && IsHexDigit(rest[0]) && IsHexDigit(rest[1]))
    case Hex(high, low) => IsHexDigit(high) && IsHexDigit(low)
  }

  predicate DoublesOk(ds: seq<Double>) {
    ds == [] || (DoubleOk(ds[0], DoublesText(ds[1..])) && DoublesOk(ds[1..]))
  }

  ghost predicate DoubleMeans(d: Double, b: byte) {
    match d
    case Plain(x) => b == x
    case Escaped(e) => b == Meaning(e)
    case Hex(high, low) =>
      exists m, n :: 0 <= m < 16 && 0 <= n < 16 && HexPlace(high, m) && HexPlace(low, n) && b == 16 * m + n
  }

  ghost predicate DoublesMean(ds: seq<Double>, value: bytes) {
    |ds| == |value| && forall i :: 0 <= i < |ds| ==> DoubleMeans(ds[i], value[i])
  }

  function SingleText(x: Single): bytes {
    match x
    case Byte(b) => [b]
    case Apostrophe => [92, 39]
  }

  function SinglesText(ss: seq<Single>): bytes {
    if ss == [] then [] else SingleText(ss[0]) + SinglesText(ss[1..])
  }

  // A backslash is one by itself only where no apostrophe follows, the closing one included.
  predicate SinglesOk(ss: seq<Single>) {
    forall i :: 0 <= i < |ss| ==> SingleOk(ss[i], i == |ss| - 1)
  }

  predicate SingleOk(x: Single, last: bool) {
    x.Byte? ==> x.b != 0 && x.b != 39 && (x.b == 92 ==> !last)
  }

  function SinglesValue(ss: seq<Single>): bytes {
    seq(|ss|, i requires 0 <= i < |ss| => if ss[i].Byte? then ss[i].b else 39)
  }

  // Bytes outside quotes: no quote, and none of the four that separate.
  predicate Unquoted(b: byte) {
    b != 0 && b != 34 && b != 39 && b != 32 && b != 9 && b != 10 && b != 13
  }

  ghost predicate WordText(w: Word, text: bytes) {
    match w.quotes
    case NoQuotes => text == w.bare
    case InDoubles(ds) => text == w.bare + ([34] + (DoublesText(ds) + [34]))
    case InSingles(ss) => text == w.bare + ([39] + (SinglesText(ss) + [39]))
  }

  ghost predicate WordMeans(w: Word, value: bytes) {
    match w.quotes
    case NoQuotes => value == w.bare
    case InDoubles(ds) => exists v :: DoublesMean(ds, v) && value == w.bare + v
    case InSingles(ss) => value == w.bare + SinglesValue(ss)
  }

  // A word begins with no blank, and is not empty without quotes.
  predicate WordOk(w: Word) {
    && (forall i :: 0 <= i < |w.bare| ==> Unquoted(w.bare[i]))
    && (w.bare != [] ==> !Blank(w.bare[0]))
    && match w.quotes
       case NoQuotes => w.bare != []
       case InDoubles(ds) => DoublesOk(ds)
       case InSingles(ss) => SinglesOk(ss)
  }

  predicate AtEnd(rest: bytes) {
    rest == [] || rest[0] == 0
  }

  // What may follow a word: the end, or one of the four separators, or behind quotes any blank.
  predicate Follows(w: Word, rest: bytes) {
    AtEnd(rest) || (if w.quotes.NoQuotes? then rest[0] == 32 || rest[0] == 9 || rest[0] == 10 || rest[0] == 13
                    else Blank(rest[0]))
  }

  predicate Blanks(w: bytes) {
    forall i :: 0 <= i < |w| ==> Blank(w[i])
  }

  // The line up to its NUL is blanks and words that spell the arguments.
  ghost predicate Spells(line: bytes, args: seq<bytes>)
    decreases |args|
  {
    if args == [] then exists w, rest :: line == w + rest && Blanks(w) && AtEnd(rest)
    else exists w, word, text, rest ::
           && line == w + (text + rest) && Blanks(w) && Follows(word, rest)
           && WordOk(word) && WordText(word, text) && WordMeans(word, args[0]) && Spells(rest, args[1..])
  }

  // ---------- digits ----------

  lemma HexMeans(high: byte, low: byte, b: byte)
    requires IsHexDigit(high) && IsHexDigit(low)
    ensures HexValue(high).Some? && HexValue(low).Some?
    ensures DoubleMeans(Hex(high, low), b) <==> b == HexValue(high).value * 16 + HexValue(low).value
  {
    IsHexDigitIs(high);
    IsHexDigitIs(low);
    HexPlaceIs(high, HexValue(high).value);
    HexPlaceIs(low, HexValue(low).value);
    if DoubleMeans(Hex(high, low), b) {
      var m, n :| 0 <= m < 16 && 0 <= n < 16 && HexPlace(high, m) && HexPlace(low, n) && b == 16 * m + n;
      HexPlaceIs(high, m);
      HexPlaceIs(low, n);
    }
  }

  // ---------- what the grammar allows is split so ----------

  lemma ScanPlain(b: byte, more: bytes, current: bytes)
    requires b != 0 && b != 34 && b != 92
    ensures Scan([b] + more, InDouble, current) == Scan(more, InDouble, current + [b])
  {
    assert ([b] + more)[1..] == more;
  }

  lemma ScanEscaped(e: byte, more: bytes, current: bytes)
    requires e != 0 && !(e == Code('x') && HexValue(At(more, 0)).Some? && HexValue(At(more, 1)).Some?)
    ensures Scan([92, e] + more, InDouble, current) == Scan(more, InDouble, current + [Meaning(e)])
  {
    var s := [92, e] + more;
    assert s[2..] == more && At(s, 2) == At(more, 0) && At(s, 3) == At(more, 1);
  }

  lemma ScanHex(high: byte, low: byte, more: bytes, current: bytes)
    requires HexValue(high).Some? && HexValue(low).Some?
    ensures Scan([92, Code('x'), high, low] + more, InDouble, current)
            == Scan(more, InDouble, current + [HexValue(high).value * 16 + HexValue(low).value])
  {
    var s := [92, Code('x'), high, low] + more;
    assert s[4..] == more;
  }

  // Digits behind an escaped x, if any, are between the quotes.
  lemma OkOutside(d: Double, rest: bytes, tail: bytes)
    requires DoubleOk(d, rest)
    ensures DoubleOk(d, rest + ([34] + tail))
  {
    var more := rest + ([34] + tail);
    IsHexDigitIs(34);
    if |rest| >= 2 {
      assert more[0] == rest[0] && more[1] == rest[1];
    } else if |rest| == 1 {
      assert more[1] == 34;
    } else {
      assert more[0] == 34;
    }
  }

  // The same meaning by the scanner's own digits.
  function Value(d: Double): byte {
    match d
    case Plain(b) => b
    case Escaped(e) => Meaning(e)
    case Hex(high, low) =>
      if HexValue(high).Some? && HexValue(low).Some? then HexValue(high).value * 16 + HexValue(low).value else 0
  }

  lemma MeansValue(d: Double, b: byte, more: bytes)
    requires DoubleOk(d, more)
    ensures DoubleMeans(d, b) <==> b == Value(d)
  {
    if d.Hex? {
      HexMeans(d.high, d.low, b);
    }
  }

  lemma ScanDouble(d: Double, more: bytes, current: bytes)
    requires DoubleOk(d, more)
    ensures Scan(DoubleText(d) + more, InDouble, current) == Scan(more, InDouble, current + [Value(d)])
  {
    match d
    case Plain(x) => ScanPlain(x, more, current);
    case Escaped(e) =>
      if |more| >= 2 {
        IsHexDigitIs(more[0]);
        IsHexDigitIs(more[1]);
      }
      ScanEscaped(e, more, current);
    case Hex(high, low) =>
      IsHexDigitIs(high);
      IsHexDigitIs(low);
      ScanHex(high, low, more, current);
  }

  lemma {:induction false} ScanDoubles(ds: seq<Double>, value: bytes, tail: bytes, current: bytes)
    requires DoublesOk(ds) && DoublesMean(ds, value)
    ensures Scan(DoublesText(ds) + ([34] + tail), InDouble, current)
            == if Separated(tail) then Token(current + value, tail) else Unbalanced
    decreases |ds|
  {
    if ds == [] {
      assert DoublesText(ds) + ([34] + tail) == [34] + tail && ([34] + tail)[1..] == tail;
      assert value == [] && current + value == current;
    } else {
      var rest := DoublesText(ds[1..]);
      Regroup(DoubleText(ds[0]), rest, [34] + tail);
      OkOutside(ds[0], rest, tail);
      MeansValue(ds[0], value[0], rest);
      ScanDouble(ds[0], rest + ([34] + tail), current);
      ScanDoubles(ds[1..], value[1..], tail, current + [value[0]]);
      HeadAndTail(value);
      Regroup(current, [value[0]], value[1..]);
    }
  }

  lemma ScanSingle(x: Single, rest: bytes, current: bytes)
    requires SingleOk(x, false) && (x == Byte(92) ==> rest != [] && rest[0] != 39)
    ensures Scan(SingleText(x) + rest, InSingle, current)
            == Scan(rest, InSingle, current + [if x.Byte? then x.b else 39])
  {
    var s := SingleText(x) + rest;
    if x.Byte? {
      assert s[1..] == rest && s[0] == x.b;
    } else {
      assert s[2..] == rest && s[0] == 92 && s[1] == 39;
    }
  }

  lemma SinglesStart(ss: seq<Single>)
    requires SinglesOk(ss) && ss != []
    ensures SinglesText(ss) != [] && SinglesText(ss)[0] != 39
  {
    assert SingleOk(ss[0], 0 == |ss| - 1);
  }

  lemma SinglesRest(ss: seq<Single>)
    requires SinglesOk(ss) && ss != []
    ensures SinglesOk(ss[1..]) && SingleOk(ss[0], |ss| == 1)
    ensures SinglesValue(ss) == [if ss[0].Byte? then ss[0].b else 39] + SinglesValue(ss[1..])
  {
    assert SingleOk(ss[0], 0 == |ss| - 1);
    forall i | 0 <= i < |ss[1..]| ensures SingleOk(ss[1..][i], i == |ss[1..]| - 1) {
      assert SingleOk(ss[i + 1], i + 1 == |ss| - 1);
    }
  }

  lemma {:induction false} ScanSingles(ss: seq<Single>, tail: bytes, current: bytes)
    requires SinglesOk(ss)
    ensures Scan(SinglesText(ss) + ([39] + tail), InSingle, current)
            == if Separated(tail) then Token(current + SinglesValue(ss), tail) else Unbalanced
    decreases |ss|
  {
    if ss == [] {
      assert SinglesText(ss) + ([39] + tail) == [39] + tail && ([39] + tail)[1..] == tail;
      assert current + SinglesValue(ss) == current;
    } else {
      var rest := SinglesText(ss[1..]);
      var first: byte := if ss[0].Byte? then ss[0].b else 39;
      SinglesRest(ss);
      if |ss| > 1 {
        SinglesStart(ss[1..]);
        assert (rest + ([39] + tail))[0] == rest[0];
      }
      Regroup(SingleText(ss[0]), rest, [39] + tail);
      ScanSingle(ss[0], rest + ([39] + tail), current);
      ScanSingles(ss[1..], tail, current + [first]);
      Regroup(current, [first], SinglesValue(ss[1..]));
    }
  }

  lemma {:induction false} ScanBare(bare: bytes, rest: bytes, current: bytes)
    requires forall i :: 0 <= i < |bare| ==> Unquoted(bare[i])
    ensures Scan(bare + rest, Quoting.Bare, current) == Scan(rest, Quoting.Bare, current + bare)
    decreases |bare|
  {
    if bare == [] {
      assert bare + rest == rest && current + bare == current;
    } else {
      assert (bare + rest)[1..] == bare[1..] + rest && (bare + rest)[0] == bare[0];
      assert Unquoted(bare[0]);
      ScanBare(bare[1..], rest, current + [bare[0]]);
      HeadAndTail(bare);
      Regroup(current, [bare[0]], bare[1..]);
    }
  }

  // The quote that opens the quoted part.
  lemma ScanOpens(bare: bytes, quote: byte, quoted: bytes)
    requires (quote == 34 || quote == 39) && forall i :: 0 <= i < |bare| ==> Unquoted(bare[i])
    ensures Scan(bare + ([quote] + quoted), Quoting.Bare, [])
            == Scan(quoted, if quote == 34 then InDouble else InSingle, bare)
  {
    ScanBare(bare, [quote] + quoted, []);
    assert ([quote] + quoted)[1..] == quoted && [] + bare == bare;
  }

  lemma QuotedText(bare: bytes, quote: byte, inner: bytes, rest: bytes)
    ensures (bare + ([quote] + (inner + [quote]))) + rest == bare + ([quote] + (inner + ([quote] + rest)))
  {
  }

  // The token a word is, and what is left behind it.
  ghost predicate Ends(r: Ended, value: bytes, rest: bytes) {
    r == Token(value, rest) || (rest != [] && Blank(rest[0]) && r == Token(value, rest[1..]))
  }

  lemma BareScans(bare: bytes, rest: bytes)
    requires (forall i :: 0 <= i < |bare| ==> Unquoted(bare[i])) && Follows(Word(bare, NoQuotes), rest)
    ensures Ends(Scan(bare + rest, Quoting.Bare, []), bare, rest)
  {
    ScanBare(bare, rest, []);
    assert [] + bare == bare;
  }

  // A word in front of what may follow it is a token, and at most a separator goes with it.
  lemma WordScans(w: Word, text: bytes, value: bytes, rest: bytes)
    requires WordOk(w) && WordText(w, text) && WordMeans(w, value) && Follows(w, rest)
    ensures Ends(Scan(text + rest, Quoting.Bare, []), value, rest)
  {
    match w.quotes
    case NoQuotes => BareScans(w.bare, rest);
    case InDoubles(ds) =>
      var v :| DoublesMean(ds, v) && value == w.bare + v;
      QuotedText(w.bare, 34, DoublesText(ds), rest);
      ScanOpens(w.bare, 34, DoublesText(ds) + ([34] + rest));
      ScanDoubles(ds, v, rest, w.bare);
    case InSingles(ss) =>
      QuotedText(w.bare, 39, SinglesText(ss), rest);
      ScanOpens(w.bare, 39, SinglesText(ss) + ([39] + rest));
      ScanSingles(ss, rest, w.bare);
  }

  lemma {:induction false} SkipsBlanks(w: bytes, rest: bytes)
    requires Blanks(w) && (rest == [] || !Blank(rest[0]))
    ensures SkipBlanks(w + rest) == rest
    decreases |w|
  {
    if w == [] {
      assert w + rest == rest;
    } else {
      assert (w + rest)[1..] == w[1..] + rest && (w + rest)[0] == w[0];
      SkipsBlanks(w[1..], rest);
    }
  }

  lemma SplitSkips(s: bytes)
    requires s != [] && Blank(s[0])
    ensures Split(s[1..]) == Split(s)
  {
    assert SkipBlanks(s) == SkipBlanks(s[1..]);
  }

  lemma WordStarts(w: Word, text: bytes, rest: bytes)
    requires WordOk(w) && WordText(w, text)
    ensures text != [] && text[0] != 0 && !Blank(text[0])
  {
    if w.bare != [] {
      assert Unquoted(w.bare[0]) && text[0] == w.bare[0];
    }
  }

  lemma {:induction false} SpelledIsSplit(line: bytes, args: seq<bytes>)
    requires Spells(line, args)
    ensures Split(line) == Some(args)
    decreases |args|
  {
    if args == [] {
      var w, rest :| line == w + rest && Blanks(w) && AtEnd(rest);
      SkipsBlanks(w, rest);
    } else {
      var w, word, text, rest :|
        && line == w + (text + rest) && Blanks(w) && Follows(word, rest)
        && WordOk(word) && WordText(word, text) && WordMeans(word, args[0]) && Spells(rest, args[1..]);
      WordStarts(word, text, rest);
      assert (text + rest)[0] == text[0];
      SkipsBlanks(w, text + rest);
      WordScans(word, text, args[0], rest);
      if rest != [] && Blank(rest[0]) {
        SplitSkips(rest);
      }
      SpelledIsSplit(rest, args[1..]);
      HeadAndTail(args);
    }
  }

  // ---------- what is split the grammar allows ----------

  // One turn between double quotes that goes on.
  lemma FirstDouble(s: bytes, current: bytes) returns (d: Double, b: byte, rest: bytes)
    requires Scan(s, InDouble, current).Token? && At(s, 0) != 34
    ensures s == DoubleText(d) + rest && |rest| < |s| && DoubleOk(d, rest) && DoubleMeans(d, b)
    ensures Scan(s, InDouble, current) == Scan(rest, InDouble, current + [b])
  {
    if HexEscape(s) {
      d, b, rest := Hex(s[2], s[3]), HexValue(s[2]).value * 16 + HexValue(s[3]).value, s[4..];
      IsHexDigitIs(s[2]);
      IsHexDigitIs(s[3]);
      HexMeans(s[2], s[3], b);
      assert s == [92, Code('x'), s[2], s[3]] + s[4..];
    } else if s[0] == 92 {
      LoneBackslash(s, current);
      d, b, rest := Escaped(s[1]), Unescape(s[1]), s[2..];
      assert s == [92, s[1]] + s[2..];
      if s[1] == Code('x') && |rest| >= 2 {
        IsHexDigitIs(rest[0]);
        IsHexDigitIs(rest[1]);
      }
    } else {
      d, b, rest := Plain(s[0]), s[0], s[1..];
      HeadAndTail(s);
    }
  }

  // A backslash at the end leaves the quotes open.
  lemma LoneBackslash(s: bytes, current: bytes)
    requires Scan(s, InDouble, current).Token? && At(s, 0) == 92
    ensures |s| >= 2 && s[1] != 0
  {
  }

  lemma DoublesMore(d: Double, b: byte, ds: seq<Double>, value: bytes, rest: bytes)
    requires DoublesOk(ds) && DoublesMean(ds, value) && DoubleMeans(d, b)
    requires DoubleOk(d, DoublesText(ds) + ([34] + rest))
    ensures DoublesOk([d] + ds) && DoublesMean([d] + ds, [b] + value)
    ensures DoublesText([d] + ds) == DoubleText(d) + DoublesText(ds)
  {
    assert ([d] + ds)[1..] == ds;
    DigitsBefore(d, DoublesText(ds), rest);
  }

  lemma {:induction false} DoublesFound(s: bytes, current: bytes)
    returns (ds: seq<Double>, value: bytes, rest: bytes)
    requires Scan(s, InDouble, current).Token?
    ensures DoublesOk(ds) && DoublesMean(ds, value) && s == DoublesText(ds) + ([34] + rest) && Separated(rest)
    ensures Scan(s, InDouble, current) == Token(current + value, rest)
    decreases |s|
  {
    if At(s, 0) == 34 {
      ds, value, rest := [], [], s[1..];
      assert s == [] + ([34] + s[1..]) && current + [] == current;
    } else {
      var d, b, more := FirstDouble(s, current);
      var ds', value';
      ds', value', rest := DoublesFound(more, current + [b]);
      ds, value := [d] + ds', [b] + value';
      DoublesMore(d, b, ds', value', rest);
      Regroup(DoubleText(d), DoublesText(ds'), [34] + rest);
      Regroup(current, [b], value');
    }
  }

  // No digits follow an escaped x, so none do inside the quotes.
  lemma DigitsBefore(d: Double, inner: bytes, rest: bytes)
    requires DoubleOk(d, inner + ([34] + rest))
    ensures DoubleOk(d, inner)
  {
    if d.Escaped? && |inner| >= 2 {
      var whole := inner + ([34] + rest);
      assert whole[0] == inner[0] && whole[1] == inner[1];
    }
  }

  lemma {:induction false} SinglesFound(s: bytes, current: bytes) returns (ss: seq<Single>, rest: bytes)
    requires Scan(s, InSingle, current).Token?
    ensures SinglesOk(ss) && s == SinglesText(ss) + ([39] + rest) && Separated(rest)
    ensures Scan(s, InSingle, current) == Token(current + SinglesValue(ss), rest)
    decreases |s|
  {
    if At(s, 0) == 39 {
      ss, rest := [], s[1..];
      assert s == [] + ([39] + s[1..]) && current + SinglesValue([]) == current;
    } else {
      var x, more := FirstSingle(s, current);
      var ss';
      ss', rest := SinglesFound(more, current + [if x.Byte? then x.b else 39]);
      ss := [x] + ss';
      SinglesMore(x, ss', rest);
      Regroup(SingleText(x), SinglesText(ss'), [39] + rest);
      Regroup(current, [if x.Byte? then x.b else 39], SinglesValue(ss'));
    }
  }

  lemma FirstSingle(s: bytes, current: bytes) returns (x: Single, rest: bytes)
    requires Scan(s, InSingle, current).Token? && At(s, 0) != 39
    ensures s == SingleText(x) + rest && |rest| < |s| && SingleOk(x, false)
    ensures x == Byte(92) ==> rest == [] || rest[0] != 39
    ensures Scan(s, InSingle, current) == Scan(rest, InSingle, current + [if x.Byte? then x.b else 39])
  {
    if s[0] == 92 && At(s, 1) == 39 {
      x, rest := Apostrophe, s[2..];
      assert s == [92, 39] + s[2..];
    } else {
      x, rest := Byte(s[0]), s[1..];
      HeadAndTail(s);
    }
  }

  lemma SinglesMore(x: Single, ss: seq<Single>, rest: bytes)
    requires SinglesOk(ss) && SingleOk(x, false)
    requires x == Byte(92) ==> (SinglesText(ss) + ([39] + rest))[0] != 39
    ensures SinglesOk([x] + ss) && SinglesText([x] + ss) == SingleText(x) + SinglesText(ss)
    ensures SinglesValue([x] + ss) == [if x.Byte? then x.b else 39] + SinglesValue(ss)
  {
    var all := [x] + ss;
    assert all[1..] == ss;
    if ss == [] {
      assert SinglesText(ss) + ([39] + rest) == [39] + rest;
    }
    forall i | 0 <= i < |all| ensures SingleOk(all[i], i == |all| - 1) {
      if i > 0 {
        assert SingleOk(ss[i - 1], i - 1 == |ss| - 1);
      }
    }
  }

  // The bytes in front of the first quote or the end of the token.
  lemma {:induction false} BareFound(s: bytes, current: bytes) returns (bare: bytes, rest: bytes)
    requires Scan(s, Quoting.Bare, current).Token?
    ensures s == bare + rest && forall i :: 0 <= i < |bare| ==> Unquoted(bare[i])
    ensures rest == [] || !Unquoted(rest[0])
    ensures Scan(s, Quoting.Bare, current) == Scan(rest, Quoting.Bare, current + bare)
    decreases |s|
  {
    if s == [] || !Unquoted(s[0]) {
      bare, rest := [], s;
      assert [] + s == s && current + [] == current;
    } else {
      var bare';
      bare', rest := BareFound(s[1..], current + [s[0]]);
      bare := [s[0]] + bare';
      HeadAndTail(s);
      Regroup([s[0]], bare', rest);
      Regroup(current, [s[0]], bare');
    }
  }

  // A token is a word, and what is left is what may follow it, or that without the separator.
  lemma WordFound(s: bytes) returns (w: Word, text: bytes, value: bytes, rest: bytes)
    requires Scan(s, Quoting.Bare, []).Token? && s != [] && s[0] != 0 && !Blank(s[0])
    ensures s == text + rest && |rest| < |s| && Follows(w, rest)
    ensures WordOk(w) && WordText(w, text) && WordMeans(w, value)
    ensures Ends(Scan(s, Quoting.Bare, []), value, rest)
  {
    var bare, more := BareFound(s, []);
    assert [] + bare == bare;
    if bare != [] {
      assert bare[0] == s[0];
    }
    if more != [] && more[0] == 34 {
      var ds, v;
      ds, v, rest := DoublesFound(more[1..], bare);
      w, value := Word(bare, InDoubles(ds)), bare + v;
      text := bare + ([34] + (DoublesText(ds) + [34]));
      HeadAndTail(more);
      QuotedText(bare, 34, DoublesText(ds), rest);
    } else if more != [] && more[0] == 39 {
      var ss;
      ss, rest := SinglesFound(more[1..], bare);
      w, value := Word(bare, InSingles(ss)), bare + SinglesValue(ss);
      text := bare + ([39] + (SinglesText(ss) + [39]));
      HeadAndTail(more);
      QuotedText(bare, 39, SinglesText(ss), rest);
    } else {
      w, text, value, rest := Word(bare, NoQuotes), bare, bare, more;
    }
  }

  lemma {:induction false} BlanksFound(s: bytes) returns (w: bytes)
    ensures Blanks(w) && s == w + SkipBlanks(s)
    decreases |s|
  {
    w := [];
    if s != [] && Blank(s[0]) {
      var w' := BlanksFound(s[1..]);
      w := [s[0]] + w';
      HeadAndTail(s);
      Regroup([s[0]], w', SkipBlanks(s[1..]));
    } else {
      assert s == [] + s;
    }
  }

  lemma {:induction false} SplitIsSpelled(line: bytes, args: seq<bytes>)
    requires Split(line) == Some(args)
    ensures Spells(line, args)
    decreases |line|
  {
    var w := BlanksFound(line);
    var t := SkipBlanks(line);
    if At(t, 0) != 0 {
      var word, text, value, rest := WordFound(t);
      if rest != [] && Blank(rest[0]) {
        SplitSkips(rest);
      }
      assert args[0] == value && Split(rest) == Some(args[1..]);
      SplitIsSpelled(rest, args[1..]);
    }
  }

  // Main theorem: a line is split into these arguments exactly if it spells them.
  lemma SplitsExactly(line: bytes, args: seq<bytes>)
    ensures Split(line) == Some(args) <==> Spells(line, args)
  {
    if Split(line) == Some(args) {
      SplitIsSpelled(line, args);
    } else if Spells(line, args) {
      SpelledIsSplit(line, args);
    }
  }

  // ---------- the representation ----------

  // How sdscatrepr writes a byte: itself if it can be printed, or by an escape.
  function Written(b: byte): Double {
    if b == 34 || b == 92 then Escaped(b)
    else if b == 7 then Escaped(Code('a'))
    else if b == 8 then Escaped(Code('b'))
    else if b == 9 then Escaped(Code('t'))
    else if b == 10 then Escaped(Code('n'))
    else if b == 13 then Escaped(Code('r'))
    else if 32 <= b <= 126 then Plain(b)
    else Hex(Code("0123456789abcdef"[b / 16]), Code("0123456789abcdef"[b % 16]))
  }

  lemma LowerDigit(n: nat)
    requires n < 16
    ensures Code("0123456789abcdef"[n]) == HexDigit(n)
  {
    HexPlaceIs(Code("0123456789abcdef"[n]), n);
    HexPlaceIs(HexDigit(n), n);
    assert n == 0 || n == 1 || n == 2 || n == 3 || n == 4 || n == 5 || n == 6 || n == 7
           || n == 8 || n == 9 || n == 10 || n == 11 || n == 12 || n == 13 || n == 14 || n == 15;
  }

  lemma WrittenIsEscape(b: byte)
    ensures DoubleText(Written(b)) == Escape(b)
  {
    LowerDigit(b / 16);
    LowerDigit(b % 16);
  }

  // Main theorem: the representation of any bytes is these units between double quotes.
  lemma {:induction false} ReprIsWritten(p: bytes)
    ensures Repr(p) == [34] + DoublesText(seq(|p|, i requires 0 <= i < |p| => Written(p[i]))) + [34]
  {
    if p != [] {
      var us := seq(|p|, i requires 0 <= i < |p| => Written(p[i]));
      var rest := seq(|p[1..]|, i requires 0 <= i < |p[1..]| => Written(p[1..][i]));
      WrittenIsEscape(p[0]);
      ReprIsWritten(p[1..]);
      assert us[1..] == rest;
      Inside(Body(p[1..]), DoublesText(rest));
    }
  }

  lemma Inside(a: bytes, b: bytes)
    requires [34] + a + [34] == [34] + b + [34]
    ensures a == b
  {
    assert ([34] + a + [34])[1..|a| + 1] == a && ([34] + b + [34])[1..|b| + 1] == b;
  }
}
