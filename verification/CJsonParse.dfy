/**
  cJSON's parse buffer: the recursive-descent parser that moves an offset and a depth,
  proved to compute what the parsing functions say.
 */
module CJsonParse {
  import opened Options
  import opened Bytes
  import opened CJson
  import CJsonString

  // One element in front of what is parsed later.
  function Cons<T>(before: seq<T>, later: Parsed<seq<T>>): Parsed<seq<T>> {
    match later
    case Fail => Fail
    case Ok(more, next) => Ok(before + more, next)
  }

  lemma ConsTwice<T>(a: seq<T>, b: seq<T>, later: Parsed<seq<T>>)
    ensures Cons(a, Cons(b, later)) == Cons(a + b, later)
    ensures Cons([], later) == later
  {
    if later.Ok? {
      assert a + (b + later.value) == (a + b) + later.value;
      assert [] + later.value == later.value;
    }
  }

  lemma ItemsTurn(x: Lexer, p: nat, depth: nat, v: Json, next: nat)
    requires LexerOk(x) && p < x.size && depth <= NESTING_LIMIT
    requires ParseValue(x, x.skip(p), depth) == Ok(v, next)
    ensures var o := x.skip(next);
            ParseItems(x, p, depth)
            == if x.at(o) == COMMA then Cons([v], ParseItems(x, o + 1, depth))
               else if x.at(o) == CLOSE_ARRAY then Ok([v], o + 1)
               else Fail
  {
  }

  // A turn of parse_array's loop moves an element from what is left to what is done.
  lemma ItemsAdvance(
    x: Lexer, p: nat, depth: nat, items: seq<Json>, item: Option<Json>, next: nat, o: nat, spec: Parsed<seq<Json>>)
    requires LexerOk(x) && p < x.size && depth <= NESTING_LIMIT && spec == Cons(items, ParseItems(x, p, depth))
    requires ParseValue(x, x.skip(p), depth) == if item.None? then Fail else Ok(item.value, next)
    requires item.Some? ==> o == x.skip(next)
    ensures item.None? ==> spec == Fail
    ensures item.Some? ==>
              if x.at(o) == COMMA then
                o + 1 < x.size && spec == Cons(items + [item.value], ParseItems(x, o + 1, depth))
              else spec == if x.at(o) == CLOSE_ARRAY then Ok(items + [item.value], o + 1) else Fail
  {
    if item.Some? {
      ItemsTurn(x, p, depth, item.value, next);
      if x.at(o) == COMMA {
        ConsTwice(items, [item.value], ParseItems(x, o + 1, depth));
      }
    }
  }

  lemma MembersAdvance(
    x: Lexer, p: nat, depth: nat, members: seq<Member>, m: Option<Member>, next: nat, o: nat, spec: Parsed<seq<Member>>)
    requires LexerOk(x) && p < x.size && depth <= NESTING_LIMIT && spec == Cons(members, ParseMembers(x, p, depth))
    requires ParseMember(x, p, depth) == if m.None? then Fail else Ok(m.value, next)
    requires m.Some? ==> o == x.skip(next)
    ensures m.None? ==> spec == Fail
    ensures m.Some? ==>
              if x.at(o) == COMMA then
                o + 1 < x.size && spec == Cons(members + [m.value], ParseMembers(x, o + 1, depth))
              else spec == if x.at(o) == CLOSE_OBJECT then Ok(members + [m.value], o + 1) else Fail
  {
    if m.Some? {
      MembersTurn(x, p, depth, m.value, next);
      if x.at(o) == COMMA {
        ConsTwice(members, [m.value], ParseMembers(x, o + 1, depth));
      }
    }
  }

  lemma MembersTurn(x: Lexer, p: nat, depth: nat, m: Member, next: nat)
    requires LexerOk(x) && p < x.size && depth <= NESTING_LIMIT
    requires ParseMember(x, p, depth) == Ok(m, next)
    ensures var o := x.skip(next);
            ParseMembers(x, p, depth)
            == if x.at(o) == COMMA then Cons([m], ParseMembers(x, o + 1, depth))
               else if x.at(o) == CLOSE_OBJECT then Ok([m], o + 1)
               else Fail
  {
  }

  // The digits and signs parse_number copies for strtod.
  method CopyNumber(c: bytes, off: nat) returns (copy: bytes)
    requires off <= |c|
    ensures copy == NumberRun(c, off, 63)
  {
    var i := 0;
    copy := [];
    while i < 63 && off + i < |c| && NumberByte(c[off + i])
      invariant 0 <= i <= 63 && off + i <= |c|
      invariant copy + NumberRun(c, off + i, 63 - i) == NumberRun(c, off, 63)
    {
      Regroup(copy, [c[off + i]], NumberRun(c, off + i + 1, 62 - i));
      copy := copy + [c[off + i]];
      i := i + 1;
    }
    assert copy + [] == copy;
  }

  class ParseBuffer {
    const k: Codec
    const content: bytes
    ghost const x: Lexer
    var offset: nat
    var depth: nat

    ghost predicate Valid()
      reads this
    {
      && CodecOk(k) && Terminated(content) && LexerOk(x) && x.size == |content| && Lexes(x, k, content)
      && offset <= |content| && depth <= NESTING_LIMIT
    }

    constructor (k: Codec, content: bytes)
      requires CodecOk(k) && Terminated(content)
      ensures Valid() && this.k == k && this.content == content && x == LexerOf(k, content) && offset == 0 && depth == 0
    {
      this.k, this.content, this.x, this.offset, this.depth := k, content, LexerOf(k, content), 0, 0;
      new;
      forall p ensures LexesAt(x, k, content, p) {}
    }

    // The buffer agrees with what the parsing functions give.
    ghost predicate Agrees<T(!new)>(r: Option<T>, spec: Parsed<T>)
      reads this
    {
      match spec
      case Fail => r == None
      case Ok(v, next) => r == Some(v) && offset == next
    }

    // buffer_skip_whitespace.
    method SkipWhitespace()
      requires Valid()
      modifies this`offset
      ensures Valid() && offset < |content| && offset == x.skip(old(offset)) && x.at(offset) == content[offset]
    {
      assert LexesAt(x, k, content, offset);
      while offset < |content| && content[offset] <= 32
        invariant offset <= |content| && Skip(content, offset) == Skip(content, old(offset))
        decreases |content| - offset
      {
        offset := offset + 1;
      }
      if offset == |content| {
        offset := offset - 1;
      }
      assert LexesAt(x, k, content, offset);
    }

    // parse_string on the buffer.
    method ReadString() returns (r: Option<bytes>)
      requires Valid() && offset < |content|
      modifies this`offset
      ensures Valid() && Agrees(r, x.name(old(offset)))
    {
      assert LexesAt(x, k, content, offset);
      var s := CJsonString.ParseStringBuffered(content, offset);
      match s
      case Fail => r := None;
      case Ok(v, next) => r, offset := Some(v), next;
    }

    // The branches of parse_value that read no list.
    method ReadAtom() returns (r: Option<Json>)
      requires Valid() && offset < |content|
      modifies this`offset
      ensures Valid() && Agrees(r, x.atom(old(offset)))
    {
      assert LexesAt(x, k, content, offset);
      if Literal(content, offset, NULL_TEXT) {
        r, offset := Some(Null), offset + 4;
      } else if Literal(content, offset, FALSE_TEXT) {
        r, offset := Some(False), offset + 5;
      } else if Literal(content, offset, TRUE_TEXT) {
        r, offset := Some(True), offset + 4;
      } else if content[offset] == QUOTE {
        var s := ReadString();
        r := if s.Some? then Some(String(s.value)) else None;
      } else if content[offset] == 45 || 48 <= content[offset] <= 57 {
        r := ReadNumber();
      } else {
        r := None;
      }
    }

    // parse_number.
    method ReadNumber() returns (r: Option<Json>)
      requires Valid() && offset < |content|
      modifies this`offset
      ensures Valid() && Agrees(r, ParseNumber(k, content, old(offset)))
    {
      var copy := CopyNumber(content, offset);
      assert ReadsWithin(k, copy);
      var (n, used) := k.read(copy);
      if used == 0 {
        r := None;
      } else {
        r, offset := Some(Number(n)), offset + used;
      }
    }

    // parse_value; the first byte decides which of its branches can apply.
    method ReadValue() returns (r: Option<Json>)
      requires Valid() && offset < |content|
      modifies this
      ensures Valid() && (r.Some? ==> depth == old(depth))
      ensures Agrees(r, ParseValue(x, old(offset), old(depth)))
      decreases NESTING_LIMIT - depth, 2
    {
      assert LexesAt(x, k, content, offset);
      if content[offset] == OPEN_ARRAY {
        r := ReadArray();
      } else if content[offset] == OPEN_OBJECT {
        r := ReadObject();
      } else {
        r := ReadAtom();
      }
    }

    // parse_array.
    method ReadArray() returns (r: Option<Json>)
      requires Valid() && offset < |content| && content[offset] == OPEN_ARRAY
      modifies this
      ensures Valid() && (r.Some? ==> depth == old(depth))
      ensures Agrees(r, ParseValue(x, old(offset), old(depth)))
      decreases NESTING_LIMIT - depth, 1
    {
      assert LexesAt(x, k, content, offset);
      if depth >= NESTING_LIMIT {
        return None;
      }
      depth := depth + 1;
      offset := offset + 1;
      SkipWhitespace();
      if content[offset] == CLOSE_ARRAY {
        depth := depth - 1;
        offset := offset + 1;
        return Some(Array([]));
      }
      var items := ReadItems();
      if items.None? {
        return None;
      }
      depth := depth - 1;
      return Some(Array(items.value));
    }

    // One turn of its loop: blanks, an element, blanks.
    method ReadItem() returns (item: Option<Json>, ghost next: nat)
      requires Valid() && offset < |content|
      modifies this
      ensures Valid()
      ensures ParseValue(x, x.skip(old(offset)), old(depth)) == if item.None? then Fail else Ok(item.value, next)
      ensures item.Some? ==> depth == old(depth) && old(offset) <= offset < |content| && offset == x.skip(next)
      ensures item.Some? ==> x.at(offset) == content[offset]
      decreases NESTING_LIMIT - depth, 3
    {
      SkipWhitespace();
      item := ReadValue();
      next := offset;
      if item.Some? {
        SkipWhitespace();
      }
    }

    // What the specification still has to parse behind the elements already read.
    ghost predicate ItemsLeft(items: seq<Json>, spec: Parsed<seq<Json>>, more: bool)
      requires Valid() && offset < |content|
      reads this
    {
      spec == if more then Cons(items, ParseItems(x, offset, depth))
              else if content[offset] == CLOSE_ARRAY then Ok(items, offset + 1) else Fail
    }

    // The turn as a step through parse_array's specification: an element more, and what
    // is left to parse after it.
    method NextItem(items: seq<Json>, ghost spec: Parsed<seq<Json>>) returns (item: Option<Json>, more: bool)
      requires Valid() && offset < |content| && ItemsLeft(items, spec, true)
      modifies this
      ensures Valid() && (item.None? ==> spec == Fail)
      ensures item.Some? ==> depth == old(depth) && old(offset) + (if more then 1 else 0) <= offset < |content|
      ensures item.Some? ==> ItemsLeft(items + [item.value], spec, more)
      decreases NESTING_LIMIT - depth, 5
    {
      ghost var p, d := offset, depth;
      ghost var next;
      item, next := ReadItem();
      ItemsAdvance(x, p, d, items, item, next, offset, spec);
      more := item.Some? && content[offset] == COMMA;
      if more {
        offset := offset + 1;
      }
    }

    // Its loop, from the first element to behind the closing bracket.
    method ReadItems() returns (r: Option<seq<Json>>)
      requires Valid() && offset < |content|
      modifies this
      ensures Valid() && (r.Some? ==> depth == old(depth))
      ensures Agrees(r, ParseItems(x, old(offset), old(depth)))
      decreases NESTING_LIMIT - depth, 6
    {
      var items: seq<Json> := [];
      var more := true;
      ghost var spec := ParseItems(x, offset, depth);
      ConsTwice([], [], spec);
      while more
        invariant Valid() && depth == old(depth) && offset < |content|
        invariant ItemsLeft(items, spec, more)
        decreases more, |content| - offset
      {
        var item;
        item, more := NextItem(items, spec);
        if item.None? {
          return None;
        }
        items := items + [item.value];
      }
      if content[offset] != CLOSE_ARRAY {
        return None;
      }
      offset := offset + 1;
      return Some(items);
    }

    // parse_object.
    method ReadObject() returns (r: Option<Json>)
      requires Valid() && offset < |content| && content[offset] == OPEN_OBJECT
      modifies this
      ensures Valid() && (r.Some? ==> depth == old(depth))
      ensures Agrees(r, ParseValue(x, old(offset), old(depth)))
      decreases NESTING_LIMIT - depth, 1
    {
      assert LexesAt(x, k, content, offset);
      if depth >= NESTING_LIMIT {
        return None;
      }
      depth := depth + 1;
      offset := offset + 1;
      SkipWhitespace();
      if content[offset] == CLOSE_OBJECT {
        depth := depth - 1;
        offset := offset + 1;
        return Some(Object([]));
      }
      var members := ReadMembers();
      if members.None? {
        return None;
      }
      depth := depth - 1;
      return Some(Object(members.value));
    }

    // A member's name and colon.
    method ReadName() returns (name: Option<bytes>)
      requires Valid() && offset < |content|
      modifies this`offset
      ensures Valid() && Agrees(name, ParseName(x, old(offset)))
    {
      SkipWhitespace();
      name := ReadString();
      if name.None? {
        return;
      }
      SkipWhitespace();
      if content[offset] != COLON {
        return None;
      }
      offset := offset + 1;
      SkipWhitespace();
    }

    method ReadNameAndValue() returns (m: Option<Member>)
      requires Valid() && offset < |content|
      modifies this
      ensures Valid() && (m.Some? ==> depth == old(depth))
      ensures Agrees(m, ParseMember(x, old(offset), old(depth)))
      decreases NESTING_LIMIT - depth, 3
    {
      var name := ReadName();
      if name.None? {
        return None;
      }
      var v := ReadValue();
      if v.None? {
        return None;
      }
      m := Some(Member(name.value, v.value));
    }

    // One turn of its loop: a name, a colon, a value, blanks.
    method ReadMember() returns (m: Option<Member>, ghost next: nat)
      requires Valid() && offset < |content|
      modifies this
      ensures Valid() && ParseMember(x, old(offset), old(depth)) == (if m.None? then Fail else Ok(m.value, next))
      ensures m.Some? ==> depth == old(depth) && old(offset) <= offset < |content| && offset == x.skip(next)
      ensures m.Some? ==> x.at(offset) == content[offset]
      decreases NESTING_LIMIT - depth, 4
    {
      m := ReadNameAndValue();
      next := offset;
      if m.Some? {
        SkipWhitespace();
      }
    }

    // What the specification still has to parse behind the members already read.
    ghost predicate MembersLeft(members: seq<Member>, spec: Parsed<seq<Member>>, more: bool)
      requires Valid() && offset < |content|
      reads this
    {
      spec == if more then Cons(members, ParseMembers(x, offset, depth))
              else if content[offset] == CLOSE_OBJECT then Ok(members, offset + 1) else Fail
    }

    // The turn as a step through parse_object's specification.
    method NextMember(members: seq<Member>, ghost spec: Parsed<seq<Member>>) returns (m: Option<Member>, more: bool)
      requires Valid() && offset < |content| && MembersLeft(members, spec, true)
      modifies this
      ensures Valid() && (m.None? ==> spec == Fail)
      ensures m.Some? ==> depth == old(depth) && old(offset) + (if more then 1 else 0) <= offset < |content|
      ensures m.Some? ==> MembersLeft(members + [m.value], spec, more)
      decreases NESTING_LIMIT - depth, 5
    {
      ghost var p, d := offset, depth;
      ghost var next;
      m, next := ReadMember();
      MembersAdvance(x, p, d, members, m, next, offset, spec);
      more := m.Some? && content[offset] == COMMA;
      if more {
        offset := offset + 1;
      }
    }

    method ReadMembers() returns (r: Option<seq<Member>>)
      requires Valid() && offset < |content|
      modifies this
      ensures Valid() && (r.Some? ==> depth == old(depth))
      ensures Agrees(r, ParseMembers(x, old(offset), old(depth)))
      decreases NESTING_LIMIT - depth, 6
    {
      var members: seq<Member> := [];
      var more := true;
      ghost var spec := ParseMembers(x, offset, depth);
      ConsTwice([], [], spec);
      while more
        invariant Valid() && depth == old(depth) && offset < |content|
        invariant MembersLeft(members, spec, more)
        decreases more, |content| - offset
      {
        var m;
        m, more := NextMember(members, spec);
        if m.None? {
          return None;
        }
        members := members + [m.value];
      }
      if content[offset] != CLOSE_OBJECT {
        return None;
      }
      offset := offset + 1;
      return Some(members);
    }
  }

  // cJSON_ParseWithOpts.
  method ParseWithOpts(k: Codec, text: bytes, requireEnd: bool) returns (r: Option<Json>)
    requires CodecOk(k)
    ensures r == Parse(k, text, requireEnd)
  {
    var b := new ParseBuffer(k, CString(text) + [NUL]);
    b.offset := SkipBom(b.content);
    b.SkipWhitespace();
    r := b.ReadValue();
    if r.Some? && requireEnd {
      b.SkipWhitespace();
      if b.content[b.offset] != NUL {
        return None;
      }
    }
  }
}
