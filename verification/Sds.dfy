/**
  sds strings: the growing buffer, the quoted representation and the line splitter.
 */
module Sds {
  import opened Options
  import opened Bytes

  const MAX_PREALLOC: nat := 1024 * 1024

  // ---------- the growing buffer ----------

  class Str {
    var buf: array<byte>
    var len: nat
    var free: nat

    ghost predicate Valid()
      reads this, buf
    {
      buf.Length == len + free + 1 && buf[len] == NUL
    }

    ghost function Content(): bytes
      requires Valid()
      reads this, buf
    {
      buf[..len]
    }

    constructor ()
      ensures Valid() && Content() == [] && fresh(buf)
    {
      buf := new byte[1](_ => NUL);
      len, free := 0, 0;
    }

    // sdsMakeRoomFor: after it addlen more bytes and a terminator fit.
    method MakeRoomFor(addlen: nat)
      requires Valid()
      modifies this, buf
      ensures Valid() && (buf == old(buf) || fresh(buf))
      ensures free >= addlen && Content() == old(Content()) && len == old(len)
      ensures free == if old(free) >= addlen then old(free)
                      else if len + addlen < 0x10_0000 then len + 2 * addlen else addlen + 0x10_0000
    {
      if free >= addlen {
        return;
      }
      var newlen := len + addlen;
      newlen := if newlen < MAX_PREALLOC then newlen * 2 else newlen + MAX_PREALLOC;
      var bigger := new byte[newlen + 1](_ => NUL);
      forall i | 0 <= i <= len {
        bigger[i] := buf[i];
      }
      buf := bigger;
      free := newlen - len;
    }

    // sdscatlen: append, keeping the terminator.
    method CatLen(t: bytes)
      requires Valid()
      modifies this, buf
      ensures Valid() && (buf == old(buf) || fresh(buf))
      ensures Content() == old(Content()) + t
    {
      MakeRoomFor(|t|);
      ghost var before := Content();
      var i := 0;
      while i < |t|
        invariant 0 <= i <= |t| <= free && buf.Length == len + free + 1
        invariant buf == old(buf) || fresh(buf)
        invariant buf[..len + i] == before + t[..i]
      {
        buf[len + i] := t[i];
        i := i + 1;
      }
      len, free := len + |t|, free - |t|;
      buf[len] := NUL;
    }

    // sdscatrepr: append the quoted representation, byte by byte.
    method CatRepr(p: bytes)
      requires Valid()
      modifies this, buf
      ensures Valid() && (buf == old(buf) || fresh(buf))
      ensures Content() == old(Content()) + Repr(p)
    {
      Regroup4(Content(), [QUOTE], Body(p), [QUOTE]);
      CatLen([QUOTE]);
      CatBody(p);
      CatLen([QUOTE]);
    }

    // Its loop.
    method CatBody(p: bytes)
      requires Valid()
      modifies this, buf
      ensures Valid() && (buf == old(buf) || fresh(buf))
      ensures Content() == old(Content()) + Body(p)
    {
      var i := 0;
      while i < |p|
        invariant 0 <= i <= |p| && Valid() && (buf == old(buf) || fresh(buf))
        invariant Content() == old(Content()) + Body(p[..i])
      {
        BodyAppend(p, i);
        Regroup(old(Content()), Body(p[..i]), Escape(p[i]));
        CatLen(Escape(p[i]));
        i := i + 1;
      }
      assert p[..i] == p;
    }
  }

  // ---------- the representation ----------

  predicate Printable(b: byte) {
    32 <= b <= 126
  }

  function Escape(b: byte): bytes {
    if b == BACKSLASH || b == QUOTE then [BACKSLASH, b]
    else if b == NEWLINE then [BACKSLASH, Code('n')]
    else if b == RETURN then [BACKSLASH, Code('r')]
    else if b == TAB then [BACKSLASH, Code('t')]
    else if b == BELL then [BACKSLASH, Code('a')]
    else if b == BACKSPACE then [BACKSLASH, Code('b')]
    else if Printable(b) then [b]
    else [BACKSLASH, Code('x'), HexDigit(b / 16), HexDigit(b % 16)]
  }

  function Body(p: bytes): bytes {
    if p == [] then [] else Escape(p[0]) + Body(p[1..])
  }

  function Repr(p: bytes): bytes {
    [QUOTE] + Body(p) + [QUOTE]
  }

  lemma {:induction false} BodyConcat(p: bytes, q: bytes)
    ensures Body(p + q) == Body(p) + Body(q)
  {
    if p == [] {
      assert p + q == q;
    } else {
      assert (p + q)[1..] == p[1..] + q;
      BodyConcat(p[1..], q);
    }
  }

  lemma BodyAppend(p: bytes, i: nat)
    requires i < |p|
    ensures Body(p[..i + 1]) == Body(p[..i]) + Escape(p[i])
  {
    assert p[..i + 1] == p[..i] + [p[i]];
    BodyConcat(p[..i], [p[i]]);
    assert Body([p[i]]) == Escape(p[i]) + Body([]);
  }

  // ---------- the splitter ----------

  // A C string read at an offset: zero at and after its end.
  function At(s: bytes, i: nat): byte {
    if i < |s| then s[i] else NUL
  }

  predicate IsSpace(b: byte) {
    b == SPACE || 9 <= b <= 13
  }

  datatype Quoting = Bare | InDouble | InSingle

  // The end of a token: the token and what is left of the line, or unbalanced quotes.
  datatype Ended = Token(token: bytes, rest: bytes) | Unbalanced

  // What a backslash escape in double quotes stands for.
  function Unescape(b: byte): byte {
    if b == Code('n') then NEWLINE
    else if b == Code('r') then RETURN
    else if b == Code('t') then TAB
    else if b == Code('b') then BACKSPACE
    else if b == Code('a') then BELL
    else b
  }

  predicate HexEscape(s: bytes) {
    && At(s, 0) == BACKSLASH && At(s, 1) == Code('x')
    && HexValue(At(s, 2)).Some? && HexValue(At(s, 3)).Some?
  }

  // The rest of a token, from inside it.
  function Scan(s: bytes, q: Quoting, current: bytes): (r: Ended)
    ensures r.Token? ==> |r.rest| <= |s|
    ensures r.Token? && At(s, 0) != NUL ==> |r.rest| < |s|
    decreases |s|
  {
    var c := At(s, 0);
    match q
    case InDouble =>
      if HexEscape(s) then
        Scan(s[4..], q, current + [HexValue(s[2]).value * 16 + HexValue(s[3]).value])
      else if c == BACKSLASH && At(s, 1) != NUL then Scan(s[2..], q, current + [Unescape(s[1])])
      else if c == QUOTE then
        if At(s, 1) != NUL && !IsSpace(At(s, 1)) then Unbalanced else Token(current, s[1..])
      else if c == NUL then Unbalanced
      else Scan(s[1..], q, current + [c])
    case InSingle =>
      if c == BACKSLASH && At(s, 1) == APOSTROPHE then Scan(s[2..], q, current + [APOSTROPHE])
      else if c == APOSTROPHE then
        if At(s, 1) != NUL && !IsSpace(At(s, 1)) then Unbalanced else Token(current, s[1..])
      else if c == NUL then Unbalanced
      else Scan(s[1..], q, current + [c])
    case Bare =>
      if c == NUL then Token(current, s)
      else if c == SPACE || c == NEWLINE || c == RETURN || c == TAB then Token(current, s[1..])
      else if c == QUOTE then Scan(s[1..], InDouble, current)
      else if c == APOSTROPHE then Scan(s[1..], InSingle, current)
      else Scan(s[1..], q, current + [c])
  }

  function SkipBlanks(s: bytes): (r: bytes)
    ensures |r| <= |s| && !IsSpace(At(r, 0))
  {
    if IsSpace(At(s, 0)) then SkipBlanks(s[1..]) else s
  }

  // All tokens of a line, None when quotes do not balance.
  function Split(s: bytes): Option<seq<bytes>>
    decreases |s|
  {
    var t := SkipBlanks(s);
    if At(t, 0) == NUL then Some([])
    else match Scan(t, Bare, [])
         case Unbalanced => None
         case Token(token, rest) =>
           Prepend([token], Split(rest))
  }

  // ---------- round trip ----------

  // The representations joined by single spaces.
  function Join(args: seq<bytes>): bytes
    decreases |args|, 0
  {
    if args == [] then [] else Repr(args[0]) + Tail(args[1..])
  }

  function Tail(args: seq<bytes>): bytes
    decreases |args|, 1
  {
    if args == [] then [] else [SPACE] + Join(args)
  }

  // One escaped byte is read back as that byte, whatever follows it.
  lemma ScanEscape(b: byte, rest: bytes, current: bytes)
    ensures Scan(Escape(b) + rest, InDouble, current) == Scan(rest, InDouble, current + [b])
  {
    var s := Escape(b) + rest;
    if |Escape(b)| == 4 {
      assert s[4..] == rest;
    } else if |Escape(b)| == 2 {
      assert s[2..] == rest;
    } else {
      assert s[1..] == rest;
    }
  }

  // An escaped text is read back and scanning goes on behind it, whatever that is.
  lemma {:induction false} ScanBody(p: bytes, tail: bytes, current: bytes)
    ensures Scan(Body(p) + tail, InDouble, current) == Scan(tail, InDouble, current + p)
  {
    if p == [] {
      assert Body(p) + tail == tail && current + p == current;
    } else {
      Regroup(Escape(p[0]), Body(p[1..]), tail);
      ScanEscape(p[0], Body(p[1..]) + tail, current);
      ScanBody(p[1..], tail, current + [p[0]]);
      HeadAndTail(p);
      Regroup(current, [p[0]], p[1..]);
    }
  }

  // May a closing quote stand in front of this?
  predicate Separated(rest: bytes) {
    At(rest, 0) == NUL || IsSpace(At(rest, 0))
  }

  lemma ScanRepr(p: bytes, rest: bytes)
    ensures SkipBlanks(Repr(p) + rest) == Repr(p) + rest
    ensures Scan(Repr(p) + rest, Bare, []) == if Separated(rest) then Token(p, rest) else Unbalanced
  {
    var s := Repr(p) + rest;
    var tail := [QUOTE] + rest;
    assert s[1..] == Body(p) + tail;
    ScanBody(p, tail, []);
    assert [] + p == p && tail[1..] == rest;
  }

  lemma SplitFirst(s: bytes, token: bytes, rest: bytes)
    requires SkipBlanks(s) == s && At(s, 0) != NUL && Scan(s, Bare, []) == Token(token, rest)
    ensures Split(s) == Prepend([token], Split(rest))
  {
  }

  // One representation in front of anything: it is read back if a space or the end
  // follows its closing quote, and the line is refused if not.
  lemma SplitOneMore(arg: bytes, rest: bytes)
    ensures Split(Repr(arg) + rest) == if Separated(rest) then Prepend([arg], Split(rest)) else None
  {
    ScanRepr(arg, rest);
    if Separated(rest) {
      SplitFirst(Repr(arg) + rest, arg, rest);
    }
  }

  // Without its closing quote a representation is refused.
  lemma UnterminatedIsRefused(arg: bytes)
    ensures Split([QUOTE] + Body(arg)) == None
  {
    var s := [QUOTE] + Body(arg);
    assert s[1..] == Body(arg) + [];
    ScanBody(arg, [], []);
    assert SkipBlanks(s) == s;
  }

  // Main theorem: splitting the quoted forms of any byte strings, joined by single
  // spaces, gives back exactly those strings.
  lemma {:induction false} SplitInvertsRepr(args: seq<bytes>)
    ensures Split(Join(args)) == Some(args)
    decreases |args|
  {
    if args != [] {
      var rest := args[1..];
      SplitOneMore(args[0], Tail(rest));
      SplitInvertsRepr(rest);
      SplitTail(rest);
      HeadAndTail(args);
    }
  }

  // The space between two representations separates them and nothing more.
  lemma SplitTail(rest: seq<bytes>)
    ensures Separated(Tail(rest)) && Split(Tail(rest)) == Split(Join(rest))
  {
    if rest != [] {
      SplitAfterSpace(Join(rest));
    }
  }

  lemma SplitAfterSpace(s: bytes)
    ensures Split([SPACE] + s) == Split(s)
  {
    assert ([SPACE] + s)[1..] == s;
    assert SkipBlanks([SPACE] + s) == SkipBlanks(s);
  }

  // ---------- the splitter's loops ----------

  // sdssplitargs.
  method SplitArgs(line: bytes) returns (r: Option<seq<bytes>>)
    ensures r == Split(line)
  {
    var p := 0;
    var vector: seq<bytes> := [];
    assert line[p..] == line;
    PrependTwice([], [], Split(line));
    while true
      invariant 0 <= p <= |line|
      invariant Split(line) == Prepend(vector, Split(line[p..]))
      decreases |line| - p
    {
      ghost var s := line[p..];
      while At(line, p) != NUL && IsSpace(At(line, p))
        invariant 0 <= p <= |line| && SkipBlanks(line[p..]) == SkipBlanks(s) && |line[p..]| <= |s|
        decreases |line| - p
      {
        assert line[p..][1..] == line[p + 1..];
        p := p + 1;
      }
      assert SkipBlanks(s) == line[p..];
      if At(line, p) == NUL {
        assert Split(s) == Some([]) && vector + [] == vector;
        return Some(vector);
      }
      var ended, next := GetToken(line, p);
      match ended {
        case Unbalanced => return None;
        case Token(token, rest) =>
          PrependTwice(vector, [token], Split(rest));
          vector := vector + [token];
          p := next;
      }
    }
  }

  // How one turn of the inner loop ends.
  datatype Turn = More | Done | Err

  // A turn that started at p reading s == line[p..] and ended at p'.
  ghost predicate TurnOk(s: bytes, q: Quoting, current: bytes, turn: Turn, s': bytes, q': Quoting, current': bytes) {
    match turn
    case More => |s'| < |s| && Scan(s', q', current') == Scan(s, q, current)
    case Done => Scan(s, q, current) == Token(current', s')
    case Err => Scan(s, q, current) == Unbalanced
  }

  method TurnInDouble(line: bytes, p: nat, current: bytes) returns (turn: Turn, p': nat, current': bytes)
    requires p <= |line|
    ensures p <= p' <= |line| && TurnOk(line[p..], InDouble, current, turn, line[p'..], InDouble, current')
  {
    turn, p', current' := More, p, current;
    var c := At(line, p);
    ghost var s := line[p..];
    if c == BACKSLASH && At(line, p + 1) == Code('x')
       && HexValue(At(line, p + 2)).Some? && HexValue(At(line, p + 3)).Some?
    {
      current' := current + [HexValue(At(line, p + 2)).value * 16 + HexValue(At(line, p + 3)).value];
      p' := p + 3;
      assert line[p + 4..] == s[4..];
    } else if c == BACKSLASH && At(line, p + 1) != NUL {
      p' := p + 1;
      current' := current + [Unescape(At(line, p'))];
      assert line[p + 2..] == s[2..];
    } else if c == QUOTE {
      turn := if At(line, p + 1) != NUL && !IsSpace(At(line, p + 1)) then Err else Done;
      assert line[p + 1..] == s[1..];
    } else if c == NUL {
      turn := Err;
    } else {
      current' := current + [c];
      assert line[p + 1..] == s[1..];
    }
    p' := if At(line, p') != NUL then p' + 1 else p';
  }

  method TurnInSingle(line: bytes, p: nat, current: bytes) returns (turn: Turn, p': nat, current': bytes)
    requires p <= |line|
    ensures p <= p' <= |line| && TurnOk(line[p..], InSingle, current, turn, line[p'..], InSingle, current')
  {
    turn, p', current' := More, p, current;
    var c := At(line, p);
    ghost var s := line[p..];
    if c == BACKSLASH && At(line, p + 1) == APOSTROPHE {
      p' := p + 1;
      current' := current + [APOSTROPHE];
      assert line[p + 2..] == s[2..];
    } else if c == APOSTROPHE {
      turn := if At(line, p + 1) != NUL && !IsSpace(At(line, p + 1)) then Err else Done;
      assert line[p + 1..] == s[1..];
    } else if c == NUL {
      turn := Err;
    } else {
      current' := current + [c];
      assert line[p + 1..] == s[1..];
    }
    p' := if At(line, p') != NUL then p' + 1 else p';
  }

  method TurnBare(line: bytes, p: nat, current: bytes) returns (turn: Turn, p': nat, q: Quoting, current': bytes)
    requires p <= |line|
    ensures p <= p' <= |line| && TurnOk(line[p..], Bare, current, turn, line[p'..], q, current')
  {
    turn, p', q, current' := More, p, Bare, current;
    var c := At(line, p);
    ghost var s := line[p..];
    if c == SPACE || c == NEWLINE || c == RETURN || c == TAB || c == NUL {
      turn := Done;
    } else if c == QUOTE {
      q := InDouble;
    } else if c == APOSTROPHE {
      q := InSingle;
    } else {
      current' := current + [c];
    }
    if c != NUL {
      p' := p + 1;
      assert line[p + 1..] == s[1..];
    }
  }

  // The inner loop: one token from `start` on.
  method GetToken(line: bytes, start: nat) returns (r: Ended, p: nat)
    requires start <= |line|
    ensures r == Scan(line[start..], Bare, [])
    ensures r.Token? ==> p <= |line| && r.rest == line[p..]
  {
    p := start;
    var current: bytes, q, turn := [], Bare, More;
    while turn.More?
      invariant p <= |line|
      invariant turn.More? ==> Scan(line[p..], q, current) == Scan(line[start..], Bare, [])
      invariant turn.Done? ==> Scan(line[start..], Bare, []) == Token(current, line[p..])
      invariant turn.Err? ==> Scan(line[start..], Bare, []) == Unbalanced
      decreases turn.More?, |line| - p
    {
      match q {
        case InDouble => turn, p, current := TurnInDouble(line, p, current);
        case InSingle => turn, p, current := TurnInSingle(line, p, current);
        case Bare => turn, p, q, current := TurnBare(line, p, current);
      }
    }
    r := if turn.Done? then Token(current, line[p..]) else Unbalanced;
  }
}
