/**
  cJSON's print buffer: the growing or preallocated array the printers write into, and its
  refinement of the pure rendering.
 */
module CJsonPrint {
  import opened Bytes
  import opened CJson
  import opened CJsonLayout

  const INT_MAX: nat := 0x7FFF_FFFF
  const NUMBER_BUFFER: nat := 26

  // Strings and names are C strings.
  predicate CStrings(t: Json)
    decreases t, 1
  {
    match t
    case String(s) => NUL !in s
    case Array(items) => CStringItems(items)
    case Object(members) => CStringMembers(members)
    case _ => true
  }

  predicate CStringItems(items: seq<Json>)
    decreases items, 0
  {
    forall i :: 0 <= i < |items| ==> CStrings(items[i])
  }

  predicate CStringMembers(members: seq<Member>)
    decreases members, 0
  {
    forall i :: 0 <= i < |members| ==> NUL !in members[i].name && CStrings(members[i].value)
  }

  // Every number's text fits print_number's own buffer.
  predicate NumbersFit(k: Codec, t: Json)
    decreases t, 1
  {
    match t
    case Number(n) => |k.show(n)| <= 25
    case Array(items) => ItemsFit(k, items)
    case Object(members) => MembersFit(k, members)
    case _ => true
  }

  predicate ItemsFit(k: Codec, items: seq<Json>)
    decreases items, 0
  {
    forall i :: 0 <= i < |items| ==> NumbersFit(k, items[i])
  }

  predicate MembersFit(k: Codec, members: seq<Member>)
    decreases members, 0
  {
    forall i :: 0 <= i < |members| ==> NumbersFit(k, members[i].value)
  }

  // ---------- escaped strings ----------

  lemma {:induction false} EscapeAllConcat(a: bytes, b: bytes)
    ensures EscapeAll(a + b) == EscapeAll(a) + EscapeAll(b)
  {
    if a == [] {
      assert a + b == b;
    } else {
      assert (a + b)[1..] == a[1..] + b;
      EscapeAllConcat(a[1..], b);
      Regroup(EscapeByte(a[0]), EscapeAll(a[1..]), EscapeAll(b));
    }
  }

  lemma EscapeAllAppend(s: bytes, i: nat)
    requires i < |s|
    ensures EscapeAll(s[..i + 1]) == EscapeAll(s[..i]) + EscapeByte(s[i])
  {
    assert s[..i + 1] == s[..i] + [s[i]];
    EscapeAllConcat(s[..i], [s[i]]);
    assert EscapeAll([s[i]]) == EscapeByte(s[i]) + [];
  }

  lemma {:induction false} NothingEscaped(s: bytes)
    ensures |EscapeAll(s)| >= |s|
    ensures |EscapeAll(s)| == |s| ==> EscapeAll(s) == s
  {
    if s != [] {
      NothingEscaped(s[1..]);
      HeadAndTail(s);
    }
  }

  lemma {:induction false} EscapedWithoutNul(s: bytes)
    requires NUL !in s
    ensures NUL !in EscapeAll(s)
  {
    if s != [] {
      EscapedWithoutNul(s[1..]);
      assert NUL !in EscapeByte(s[0]);
    }
  }

  lemma EscapeStep(s: bytes, i: nat)
    requires i < |s|
    ensures EscapeAll(s[..i + 1]) == EscapeAll(s[..i]) + EscapeByte(s[i])
    ensures |EscapeAll(s[..i + 1])| <= |EscapeAll(s)|
  {
    EscapeAllAppend(s, i);
    assert s == s[..i + 1] + s[i + 1..];
    EscapeAllConcat(s[..i + 1], s[i + 1..]);
  }

  lemma Requoted(pre: bytes, body: bytes)
    ensures pre + ([QUOTE] + body + [QUOTE]) + [NUL] == pre + [QUOTE] + body + [QUOTE, NUL]
  {
  }

  // A rendered tree is a C string too.
  lemma {:induction false} RenderWithoutNul(k: Codec, t: Json, d: nat, format: bool)
    requires CodecOk(k) && CStrings(t)
    ensures NUL !in Render(k, t, d, format)
    decreases t, 1
  {
    match t
    case Number(n) => assert ShowsCString(k, n);
    case String(s) => EscapedWithoutNul(s);
    case Array(items) => ItemsWithoutNul(k, items, d + 1, format);
    case Object(members) =>
      MembersWithoutNul(k, members, d + 1, format);
      assert NUL !in Tabs(d);
      assert NUL !in [OPEN_OBJECT] + (if format then [NEWLINE] else []) + RenderMembers(k, members, d + 1, format);
    case _ =>
  }

  lemma {:induction false} ItemsWithoutNul(k: Codec, items: seq<Json>, d: nat, format: bool)
    requires CodecOk(k) && CStringItems(items)
    ensures NUL !in RenderItems(k, items, d, format)
    decreases items, 0
  {
    if items != [] {
      RenderWithoutNul(k, items[0], d, format);
      ItemsWithoutNul(k, items[1..], d, format);
    }
  }

  lemma {:induction false} MembersWithoutNul(k: Codec, members: seq<Member>, d: nat, format: bool)
    requires CodecOk(k) && CStringMembers(members)
    ensures NUL !in RenderMembers(k, members, d, format)
    decreases members, 0
  {
    if members != [] {
      EscapedWithoutNul(members[0].name);
      RenderWithoutNul(k, members[0].value, d, format);
      MembersWithoutNul(k, members[1..], d, format);
      NoNulInParts(Indent(d, format), RenderString(members[0].name), NameSeparator(format),
        Render(k, members[0].value, d, format), MemberEnd(|members| == 1, format),
        RenderMembers(k, members[1..], d, format));
    }
  }

  lemma NoNulInParts(a: bytes, b: bytes, c: bytes, d: bytes, e: bytes, f: bytes)
    requires NUL !in a && NUL !in b && NUL !in c && NUL !in d && NUL !in e && NUL !in f
    ensures NUL !in a + b + c + d + e + f
  {
  }

  // A new block with the first `count` bytes of an old one.
  method Copied(from: array<byte>, count: nat, size: nat) returns (to: array<byte>)
    requires count <= from.Length && count <= size
    ensures fresh(to) && to.Length == size && forall i :: 0 <= i < count ==> to[i] == from[i]
  {
    to := new byte[size];
    for i := 0 to count
      invariant forall j :: 0 <= j < i ==> to[j] == from[j]
    {
      to[i] := from[i];
    }
  }

  // The allocator refuses some size.
  ghost predicate Scarce(grants: nat -> bool) {
    exists size :: !grants(size)
  }

  class PrintBuffer {
    var buffer: array?<byte>
    var length: nat
    var offset: nat
    var depth: nat
    const k: Codec
    const format: bool
    const noalloc: bool
    const hasRealloc: bool
    // Which sizes the allocator grants.
    const grants: nat -> bool
    // Whether an allocation has been refused.
    var refused: bool
    // Whether the manual copy has read behind the old buffer.
    var copiedPast: bool

    ghost predicate Valid()
      reads this
    {
      && buffer != null && length == buffer.Length && length <= INT_MAX
      && (if length == 0 then offset == 0 else offset < length)
    }

    ghost function Text(): bytes
      requires Valid()
      reads this, buffer
    {
      buffer[..offset]
    }

    // How long the buffer can become.
    ghost function Capacity(): nat
      reads this
    {
      if noalloc then length else INT_MAX
    }

    // The buffer begins with the text and a terminator.
    ghost predicate Holds(text: bytes)
      requires Valid()
      reads this, buffer
    {
      |text| < length && buffer[..|text| + 1] == text + [NUL]
    }

    constructor (
      k: Codec, buffer: array<byte>, length: nat, noalloc: bool, format: bool, hasRealloc: bool, grants: nat -> bool)
      requires length == buffer.Length && length <= INT_MAX
      ensures Valid() && this.buffer == buffer && this.length == length && offset == 0 && depth == 0
      ensures this.k == k && this.noalloc == noalloc && this.format == format && this.hasRealloc == hasRealloc
      ensures this.grants == grants
      ensures !refused && !copiedPast
    {
      this.k, this.buffer, this.length, this.offset, this.depth := k, buffer, length, 0, 0;
      this.noalloc, this.format, this.hasRealloc, this.grants := noalloc, format, hasRealloc, grants;
      this.refused, this.copiedPast := false, false;
    }

    // Room for `needed` more bytes and a terminator, by growing if that is allowed.
    method Ensure(needed: nat) returns (ok: bool)
      requires Valid() && !refused
      modifies this
      ensures offset == old(offset) && depth == old(depth)
      ensures ok <==> offset + needed + 1 <= old(Capacity()) && !refused
      ensures ok ==> Valid() && offset + needed + 1 <= length && Text() == old(Text())
      ensures ok ==> length >= old(length) && (buffer == old(buffer) || fresh(buffer))
      ensures ok ==> var wanted := offset + needed + 1;
                     length == if wanted <= old(length) then old(length)
                               else if wanted <= 0x3FFF_FFFF then 2 * wanted else 0x7FFF_FFFF
      ensures noalloc ==> buffer == old(buffer) && length == old(length) && !refused
      ensures Honest()
      ensures copiedPast ==> old(copiedPast) || (old(length) == 0 && !hasRealloc)
      ensures ok ==> (copiedPast <==> old(copiedPast) || (old(length) == 0 && length > 0 && !hasRealloc))
    {
      if length > 0 && offset >= length {
        return false;
      }
      if needed > INT_MAX {
        return false;
      }
      var wanted := needed + offset + 1;
      if wanted <= length {
        return true;
      }
      if noalloc {
        return false;
      }
      if wanted > INT_MAX {
        return false;
      }
      var newsize := if wanted > INT_MAX / 2 then INT_MAX else wanted * 2;
      if !grants(newsize) {
        buffer, length, refused := null, 0, true;
        return false;
      }
      var count := if hasRealloc then length else offset + 1;
      copiedPast := copiedPast || count > length;
      var newbuffer := Copied(buffer, if count < length then count else length, newsize);
      assert buffer[..offset] == newbuffer[..offset];
      length, buffer := newsize, newbuffer;
      return true;
    }

    // Stores of consecutive bytes from position `at` on.
    method Store(at: nat, s: bytes)
      requires Valid() && at + |s| <= length
      modifies buffer
      ensures buffer[..at + |s|] == old(buffer[..at]) + s
    {
      var i := 0;
      while i < |s|
        invariant 0 <= i <= |s|
        invariant buffer[..at + i] == old(buffer[..at]) + s[..i]
      {
        buffer[at + i] := s[i];
        i := i + 1;
      }
    }

    // update_offset: on to the terminator.
    method UpdateOffset(ghost text: bytes)
      requires Valid() && Holds(text) && offset <= |text| && NUL !in text[offset..]
      modifies this
      ensures Valid() && offset == |text| && Text() == text
      ensures buffer == old(buffer) && length == old(length) && depth == old(depth)
      ensures refused == old(refused) && copiedPast == old(copiedPast)
    {
      var n := 0;
      while buffer[offset + n] != NUL
        invariant offset + n <= |text|
        decreases |text| - n
      {
        assert buffer[offset + n] == (text + [NUL])[offset + n];
        n := n + 1;
      }
      assert buffer[offset + n] == (text + [NUL])[offset + n];
      assert text[offset..] + [NUL] == (text + [NUL])[offset..];
      offset := offset + n;
      assert buffer[..offset] == buffer[..|text| + 1][..offset];
    }

    // An allocation is refused only by an allocator that refuses some size.
    ghost predicate Honest()
      reads this
    {
      refused ==> Scarce(grants)
    }

    // What every step keeps: a preallocated buffer stays in place.
    twostate predicate Kept()
      requires old(Valid())
      reads this
    {
      && (noalloc ==> buffer == old(buffer) && length == old(length) && !refused)
      && (copiedPast ==> old(copiedPast) || (old(length) == 0 && !hasRealloc))
    }

    // What every successful step keeps besides.
    twostate predicate Grown()
      reads this
    {
      && Valid() && !refused && length >= old(length) && (buffer == old(buffer) || fresh(buffer))
      && (copiedPast <==> old(copiedPast) || (old(length) == 0 && length > 0 && !hasRealloc))
    }

    // Reserve, write and advance.
    method Append(s: bytes, needed: nat, terminate: bool) returns (ok: bool)
      requires Valid() && !refused && (if terminate then |s| + 1 else |s|) <= needed
      modifies this, buffer
      ensures Kept() && Honest() && depth == old(depth)
      ensures ok <==> old(offset) + needed + 1 <= old(Capacity()) && !refused
      ensures ok ==> Grown() && Text() == old(Text()) + s
    {
      ok := Ensure(needed);
      if ok {
        Store(offset, if terminate then s + [NUL] else s);
        assert buffer[..offset + |s|] == old(Text()) + s;
        offset := offset + |s|;
      }
    }

    // Reserve and write, leaving the advance to update_offset.
    method Close(s: bytes, needed: nat) returns (ok: bool)
      requires Valid() && !refused && |s| + 1 <= needed
      modifies this, buffer
      ensures Kept() && Honest() && depth == old(depth)
      ensures ok <==> old(offset) + needed + 1 <= old(Capacity()) && !refused
      ensures ok ==> Grown() && offset == old(offset) && Holds(old(Text()) + s)
    {
      ok := Ensure(needed);
      if ok {
        Store(offset, s + [NUL]);
      }
    }

    // print_number.
    method PrintNumber(n: int) returns (ok: bool)
      requires Valid() && !refused && CodecOk(k)
      modifies this, buffer
      ensures Kept() && Honest() && depth == old(depth)
      ensures ok <==> |k.show(n)| <= 25 && old(offset) + |k.show(n)| + 2 <= old(Capacity()) && !refused
      ensures ok ==> Grown() && offset == old(offset) + |k.show(n)| && Holds(old(Text()) + k.show(n))
    {
      var text := k.show(n);
      if |text| > NUMBER_BUFFER - 1 {
        return false;
      }
      ok := Close(text, |text| + 1);
      if ok {
        offset := offset + |text|;
      }
    }

    // The copying loop of print_string_ptr; printing a \u escape leaves a terminator
    // behind it that the next byte overwrites.
    method StoreEscaped(at: nat, s: bytes)
      requires Valid() && at + |EscapeAll(s)| + 1 <= length
      modifies buffer
      ensures buffer[..at + |EscapeAll(s)|] == old(buffer[..at]) + EscapeAll(s)
    {
      var out, i := at, 0;
      ghost var pre, done, end := buffer[..at], [], at + |EscapeAll(s)|;
      while i < |s|
        invariant 0 <= i <= |s| && done == EscapeAll(s[..i]) && out == at + |done| <= end
        invariant buffer[..out] == pre + done
      {
        var e := EscapeByte(s[i]);
        EscapeStep(s, i);
        StoreOne(out, e);
        Regroup(pre, done, e);
        out, i, done := out + |e|, i + 1, done + e;
      }
      assert s[..i] == s;
    }

    method StoreOne(out: nat, e: bytes)
      requires Valid() && out + |e| + 1 <= length
      modifies buffer
      ensures buffer[..out + |e|] == old(buffer[..out]) + e
    {
      if |e| == 6 {
        Store(out, e + [NUL]);
        assert buffer[..out + |e|] == buffer[..out + |e| + 1][..out + |e|];
      } else {
        Store(out, e);
      }
    }

    // print_string_ptr: the first pass counts, the second writes exactly that much.
    method PrintString(s: bytes) returns (ok: bool)
      requires Valid() && !refused
      modifies this, buffer
      ensures Kept() && Honest() && depth == old(depth)
      ensures ok <==> old(offset) + |RenderString(s)| + 2 <= old(Capacity()) && !refused
      ensures ok ==> Grown() && offset == old(offset) && Holds(old(Text()) + RenderString(s))
    {
      var escapes := CountEscapes(s);
      var size := |s| + escapes;
      ok := Ensure(size + 3);
      if ok {
        WriteString(s, escapes, old(Text()));
      }
    }

    method WriteString(s: bytes, escapes: nat, ghost pre: bytes)
      requires Valid() && offset + |s| + escapes + 4 <= length && escapes == |EscapeAll(s)| - |s| && pre == Text()
      modifies buffer
      ensures Holds(pre + RenderString(s))
    {
      if escapes == 0 {
        NothingEscaped(s);
        Store(offset, [QUOTE] + s + [QUOTE] + [NUL]);
        Requoted(pre, s);
      } else {
        WriteEscaped(s, |s| + escapes, pre);
      }
    }

    // The opening quote and the text behind it.
    method WriteOpened(s: bytes, ghost pre: bytes)
      requires Valid() && offset + |EscapeAll(s)| + 2 <= length && pre == Text()
      modifies buffer
      ensures buffer[..offset + 1 + |EscapeAll(s)|] == pre + [QUOTE] + EscapeAll(s)
    {
      Store(offset, [QUOTE]);
      StoreEscaped(offset + 1, s);
    }

    method WriteEscaped(s: bytes, size: nat, ghost pre: bytes)
      requires Valid() && offset + size + 4 <= length && pre == Text() && size == |EscapeAll(s)|
      modifies buffer
      ensures Holds(pre + ([QUOTE] + EscapeAll(s) + [QUOTE]))
    {
      WriteOpened(s, pre);
      Store(offset + 1 + size, [QUOTE, NUL]);
      Requoted(pre, EscapeAll(s));
    }

    // print_value. On failure a preallocated buffer is too short by the two bytes the
    // reservations ask for beyond the text, or an allocation was refused, or the text is
    // too long for an int, or a number's text for its buffer.
    method PrintValue(t: Json) returns (ok: bool)
      requires Valid() && !refused && CodecOk(k) && CStrings(t)
      modifies this, buffer
      ensures Kept() && Honest() && (ok ==> depth == old(depth))
      ensures var r := Render(k, t, old(depth), format);
              && (ok <==> NumbersFit(k, t) && old(offset) + |r| + 2 <= old(Capacity()) && !refused)
              && (ok ==> Grown() && old(offset) <= offset <= old(offset) + |r| && Holds(old(Text()) + r))
      decreases t, 1
    {
      match t
      case Null => ok := Close(NULL_TEXT, 5);
      case False => ok := Close(FALSE_TEXT, 6);
      case True => ok := Close(TRUE_TEXT, 5);
      case Number(n) => ok := PrintNumber(n);
      case String(s) => ok := PrintString(s);
      case Array(items) => ok := PrintArray(items);
      case Object(members) => ok := PrintObject(members);
    }

    // print_value and update_offset.
    method PrintAndUpdate(t: Json) returns (ok: bool)
      requires Valid() && !refused && CodecOk(k) && CStrings(t)
      modifies this, buffer
      ensures Kept() && Honest() && (ok ==> depth == old(depth))
      ensures var r := Render(k, t, old(depth), format);
              && (ok <==> NumbersFit(k, t) && old(offset) + |r| + 2 <= old(Capacity()) && !refused)
              && (ok ==> Grown() && Text() == old(Text()) + r && offset < length && buffer[offset] == NUL)
      decreases t, 2
    {
      ghost var pre, r := Text(), Render(k, t, depth, format);
      ok := PrintValue(t);
      if ok {
        RenderWithoutNul(k, t, depth, format);
        assert (pre + r)[offset..] == r[offset - |pre|..];
        assert buffer[|pre + r|] == (pre + r + [NUL])[|pre + r|];
        UpdateOffset(pre + r);
      }
    }

    // One turn of print_array's loop.
    method PrintItem(t: Json, last: bool) returns (ok: bool)
      requires Valid() && !refused && CodecOk(k) && CStrings(t)
      modifies this, buffer
      ensures Kept() && Honest() && (ok ==> depth == old(depth))
      ensures var r := Render(k, t, old(depth), format) + (if last then [] else ItemSeparator(format));
              && (ok <==> NumbersFit(k, t) && old(offset) + |r| + 2 <= old(Capacity()) && !refused)
              && (ok ==> Grown() && Text() == old(Text()) + r)
      decreases t, 3
    {
      ok := PrintAndUpdate(t);
      if ok && !last {
        var separator := ItemSeparator(format);
        ok := Append(separator, |separator| + 1, true);
      }
    }

    // The loop of print_array.
    method PrintItems(items: seq<Json>) returns (ok: bool)
      requires Valid() && !refused && CodecOk(k) && CStringItems(items)
      modifies this, buffer
      ensures Kept() && Honest() && (ok ==> depth == old(depth))
      ensures var r := RenderItems(k, items, old(depth), format);
              && (ok ==> ItemsFit(k, items) && Grown() && Text() == old(Text()) + r)
              && (!ok ==> !ItemsFit(k, items) || old(offset) + |r| + 2 > old(Capacity()) || refused)
      decreases items, 4
    {
      ghost var rest := RenderItems(k, items, depth, format);
      ghost var all := Text() + rest;
      var i := 0;
      while i < |items|
        invariant 0 <= i <= |items| && Kept() && Grown() && depth == old(depth)
        invariant rest == RenderItems(k, items[i..], depth, format) && Text() + rest == all
        invariant forall j :: 0 <= j < i ==> NumbersFit(k, items[j])
      {
        ghost var r := Render(k, items[i], depth, format) + (if i + 1 == |items| then [] else ItemSeparator(format));
        ItemsFrom(k, items, i, depth, format);
        rest := RenderItems(k, items[i + 1..], depth, format);
        Regroup(Text(), r, rest);
        ok := PrintItem(items[i], i + 1 == |items|);
        if !ok {
          return;
        }
        i := i + 1;
      }
      assert items[i..] == [];
      ok := true;
    }

    // print_array behind its opening bracket.
    method PrintRestOfArray(items: seq<Json>) returns (ok: bool)
      requires Valid() && !refused && CodecOk(k) && CStringItems(items) && depth > 0
      modifies this, buffer
      ensures Kept() && Honest() && (ok ==> depth == old(depth) - 1)
      ensures var r := ArrayRest(k, items, old(depth), format);
              && (ok <==> ItemsFit(k, items) && old(offset) + |r| + 2 <= old(Capacity()) && !refused)
              && (ok ==> Grown() && old(offset) <= offset <= old(offset) + |r| && Holds(old(Text()) + r))
      decreases items, 5
    {
      ghost var r := RenderItems(k, items, depth, format);
      Regroup(Text(), r, [CLOSE_ARRAY]);
      ok := PrintItems(items);
      if ok {
        ok := Close([CLOSE_ARRAY], 2);
        depth := depth - 1;
      }
    }

    method PrintArray(items: seq<Json>) returns (ok: bool)
      requires Valid() && !refused && CodecOk(k) && CStringItems(items)
      modifies this, buffer
      ensures Kept() && Honest() && (ok ==> depth == old(depth))
      ensures var r := Render(k, Array(items), old(depth), format);
              && (ok <==> ItemsFit(k, items) && old(offset) + |r| + 2 <= old(Capacity()) && !refused)
              && (ok ==> Grown() && old(offset) <= offset <= old(offset) + |r| && Holds(old(Text()) + r))
      decreases items, 6
    {
      ArrayAppended(k, items, Text(), depth, format);
      ok := Append([OPEN_ARRAY], 1, false);
      if ok {
        depth := depth + 1;
        ok := PrintRestOfArray(items);
      }
    }

    // A member's indentation, name and colon.
    method PrintName(name: bytes) returns (ok: bool)
      requires Valid() && !refused && NUL !in name
      modifies this, buffer
      ensures Kept() && Honest() && depth == old(depth)
      ensures var r := Indent(depth, format) + RenderString(name) + NameSeparator(format);
              && (ok <==> old(offset) + |r| + 1 <= old(Capacity()) && !refused)
              && (ok ==> Grown() && Text() == old(Text()) + r)
    {
      var separator := NameSeparator(format);
      ghost var indent, quoted := Indent(depth, format), RenderString(name);
      Regroup4(Text(), indent, quoted, separator);
      ok := PrintIndent();
      if ok {
        ok := PrintNameAndUpdate(name);
        if ok {
          ok := Append(separator, |separator|, false);
        }
      }
    }

    method PrintIndent() returns (ok: bool)
      requires Valid() && !refused
      modifies this, buffer
      ensures Kept() && Honest() && depth == old(depth)
      ensures !ok ==> refused || old(offset) + |Indent(depth, format)| + 1 > old(Capacity())
      ensures ok ==> Grown() && Text() == old(Text()) + Indent(depth, format)
    {
      ok := true;
      if format {
        ok := Append(Tabs(depth), depth, false);
      }
    }

    method PrintNameAndUpdate(name: bytes) returns (ok: bool)
      requires Valid() && !refused && NUL !in name
      modifies this, buffer
      ensures Kept() && Honest() && depth == old(depth)
      ensures ok <==> old(offset) + |RenderString(name)| + 2 <= old(Capacity()) && !refused
      ensures ok ==> Grown() && Text() == old(Text()) + RenderString(name)
    {
      ghost var pre := Text();
      ok := PrintString(name);
      if ok {
        EscapedWithoutNul(name);
        assert (pre + RenderString(name))[offset..] == RenderString(name);
        UpdateOffset(pre + RenderString(name));
      }
    }

    // One turn of print_object's loop.
    method PrintMember(m: Member, last: bool) returns (ok: bool)
      requires Valid() && !refused && CodecOk(k) && NUL !in m.name && CStrings(m.value)
      modifies this, buffer
      ensures Kept() && Honest() && (ok ==> depth == old(depth))
      ensures var r := RenderMember(k, m, last, old(depth), format);
              && (ok <==> NumbersFit(k, m.value) && old(offset) + |r| + 2 <= old(Capacity()) && !refused)
              && (ok ==> Grown() && Text() == old(Text()) + r)
      decreases m, 3
    {
      ghost var r := Render(k, m.value, depth, format);
      ghost var name := Indent(depth, format) + RenderString(m.name) + NameSeparator(format);
      Regroup4(Text(), name, r, MemberEnd(last, format));
      ok := PrintName(m.name);
      if ok {
        ok := PrintAndUpdate(m.value);
        if ok {
          var end := MemberEnd(last, format);
          ok := Append(end, |end| + 1, true);
        }
      }
    }

    // The turn as a step towards the whole text.
    method PrintNext(members: seq<Member>, i: nat, ghost all: bytes) returns (ok: bool)
      requires Valid() && !refused && CodecOk(k) && CStringMembers(members) && i < |members|
      requires Text() + RenderMembers(k, members[i..], depth, format) == all
      modifies this, buffer
      ensures Kept() && Honest() && (ok ==> depth == old(depth) && NumbersFit(k, members[i].value) && Grown())
      ensures ok ==> Text() + RenderMembers(k, members[i + 1..], depth, format) == all
      ensures !ok ==> !NumbersFit(k, members[i].value) || |all| + 2 > old(Capacity()) || refused
      decreases members, 3
    {
      MembersFrom(k, members, i, Text(), depth, format);
      ok := PrintMember(members[i], i + 1 == |members|);
    }

    // The loop of print_object, up to the text `all`.
    method PrintMembers(members: seq<Member>, ghost all: bytes) returns (ok: bool)
      requires Valid() && !refused && CodecOk(k) && CStringMembers(members)
      requires Text() + RenderMembers(k, members, depth, format) == all
      modifies this, buffer
      ensures Kept() && Honest() && (ok ==> depth == old(depth) && Grown() && MembersFit(k, members) && Text() == all)
      ensures !ok ==> !MembersFit(k, members) || |all| + 2 > old(Capacity()) || refused
      decreases members, 4
    {
      var i := 0;
      assert members[0..] == members && members[..0] == [];
      while i < |members|
        invariant 0 <= i <= |members| && Kept() && Grown() && depth == old(depth)
        invariant Text() + RenderMembers(k, members[i..], depth, format) == all
        invariant MembersFit(k, members[..i])
      {
        MembersFitMore(k, members, i);
        ok := PrintNext(members, i, all);
        if !ok {
          return;
        }
        i := i + 1;
      }
      NoMoreMembers(k, members, Text(), depth, format);
      assert members[..i] == members;
      ok := true;
    }

    // print_object behind its opening brace.
    method PrintRestOfObject(members: seq<Member>, ghost all: bytes) returns (ok: bool)
      requires Valid() && !refused && CodecOk(k) && CStringMembers(members) && depth > 0
      requires Text() + ObjectRest(k, members, depth, format) == all
      modifies this, buffer
      ensures Kept() && Honest() && (ok ==> depth == old(depth) - 1)
      ensures ok <==> MembersFit(k, members) && |all| + 2 <= old(Capacity()) && !refused
      ensures ok ==> Grown() && old(offset) <= offset <= |all| && Holds(all)
      decreases members, 5
    {
      var end := ObjectEnd(depth, format);
      Regroup(Text(), RenderMembers(k, members, depth, format), end);
      ok := PrintMembers(members, Text() + RenderMembers(k, members, depth, format));
      if ok {
        ok := Close(end, if format then depth + 1 else 2);
        depth := depth - 1;
      }
    }

    method PrintObject(members: seq<Member>) returns (ok: bool)
      requires Valid() && !refused && CodecOk(k) && CStringMembers(members)
      modifies this, buffer
      ensures Kept() && Honest() && (ok ==> depth == old(depth))
      ensures var r := Render(k, Object(members), old(depth), format);
              && (ok <==> MembersFit(k, members) && old(offset) + |r| + 2 <= old(Capacity()) && !refused)
              && (ok ==> Grown() && old(offset) <= offset <= old(offset) + |r| && Holds(old(Text()) + r))
      decreases members, 6
    {
      var open := if format then [OPEN_OBJECT, NEWLINE] else [OPEN_OBJECT];
      ghost var all := Text() + Render(k, Object(members), depth, format);
      ObjectAppended(k, members, Text(), depth, format);
      ok := Append(open, |open| + 1, false);
      if ok {
        depth := depth + 1;
        ok := PrintRestOfObject(members, all);
      }
    }
  }

  // cJSON_PrintPreallocated: succeeds exactly when the text, its terminator and one more
  // byte fit; nothing outside the given bytes can be written.
  method PrintPreallocated(k: Codec, t: Json, buf: array?<byte>, len: int, format: bool) returns (ok: bool)
    requires CodecOk(k) && CStrings(t) && len <= INT_MAX
    requires buf != null && len >= 0 ==> buf.Length == len
    modifies buf
    ensures var r := Shown(k, t, 0, format);
            && (ok <==> buf != null && len >= 0 && NumbersFit(k, t) && |r| + 2 <= len)
            && (ok ==> buf[..|r| + 1] == r + [NUL])
  {
    TreeShown(k, t, 0, format);
    if len < 0 || buf == null {
      return false;
    }
    var p := new PrintBuffer(k, buf, len, true, format, false, _ => true);
    assert p.Text() == [];
    EmptyFront(Render(k, t, 0, format));
    ok := p.PrintValue(t);
  }

  // cJSON_PrintBuffered: whatever the initial size, and with or without realloc. Only a
  // zero-sized first buffer makes the copy without realloc read past its end.
  method PrintBuffered(k: Codec, t: Json, prebuffer: int, format: bool, hasRealloc: bool, grants: nat -> bool)
    returns (result: array?<byte>, refused: bool, copiedPast: bool)
    requires CodecOk(k) && CStrings(t) && prebuffer <= INT_MAX
    ensures var r := Shown(k, t, 0, format);
            && (result != null <==> prebuffer >= 0 && NumbersFit(k, t) && |r| + 2 <= 0x7FFF_FFFF && !refused)
            && (result != null ==> |r| < result.Length && result[..|r| + 1] == r + [NUL])
    ensures refused ==> Scarce(grants)
    ensures copiedPast ==> prebuffer == 0 && !hasRealloc
    ensures result != null ==> (copiedPast <==> prebuffer == 0 && !hasRealloc)
  {
    TreeShown(k, t, 0, format);
    refused, copiedPast := false, false;
    if prebuffer < 0 {
      return null, refused, copiedPast;
    }
    if !grants(prebuffer) {
      return null, true, copiedPast;
    }
    var first := new byte[prebuffer];
    var p := new PrintBuffer(k, first, prebuffer, false, format, hasRealloc, grants);
    assert p.Text() == [];
    EmptyFront(Render(k, t, 0, format));
    var ok := p.PrintValue(t);
    refused, copiedPast := p.refused, p.copiedPast;
    result := if ok then p.buffer else null;
  }

  // cJSON_Print and cJSON_PrintUnformatted: the text and its terminator, and not a byte
  // more.
  method Print(k: Codec, t: Json, format: bool, hasRealloc: bool, grants: nat -> bool)
    returns (result: array?<byte>, refused: bool)
    requires CodecOk(k) && CStrings(t)
    ensures var r := Shown(k, t, 0, format);
            && (result != null <==> NumbersFit(k, t) && |r| + 2 <= 0x7FFF_FFFF && !refused)
            && (result != null ==> result[..] == r + [NUL])
    ensures refused ==> Scarce(grants)
  {
    TreeShown(k, t, 0, format);
    refused := false;
    if !grants(256) {
      return null, true;
    }
    var first := new byte[256];
    var p := new PrintBuffer(k, first, 256, false, format, hasRealloc, grants);
    assert p.Text() == [];
    EmptyFront(Render(k, t, 0, format));
    var ok := p.PrintAndUpdate(t);
    refused := p.refused;
    if !ok {
      return null, refused;
    }
    if !grants(p.offset + 1) {
      return null, true;
    }
    result := Finish(p, Render(k, t, 0, format));
  }

  function Min(a: nat, b: nat): nat {
    if a < b then a else b
  }

  // The last copy, to a block of the text's own size.
  method Finish(p: PrintBuffer, ghost r: bytes) returns (result: array<byte>)
    requires p.Valid() && p.Text() == r && |r| < p.length && p.buffer[|r|] == NUL
    ensures result[..] == r + [NUL]
  {
    result := Copied(p.buffer, Min(p.length, p.offset + 1), p.offset + 1);
    if !p.hasRealloc {
      result[p.offset] := NUL;
    }
    assert result[..p.offset] == p.buffer[..p.offset];
  }

  // The closing brace of an object whose members are at depth d.
  function ObjectEnd(d: nat, format: bool): bytes
    requires d > 0
  {
    Indent(d - 1, format) + [CLOSE_OBJECT]
  }

  function RenderMember(k: Codec, m: Member, last: bool, d: nat, format: bool): bytes {
    (Indent(d, format) + RenderString(m.name) + NameSeparator(format))
    + Render(k, m.value, d, format) + MemberEnd(last, format)
  }

  lemma MembersFitMore(k: Codec, members: seq<Member>, i: nat)
    requires i < |members| && MembersFit(k, members[..i])
    ensures MembersFit(k, members[..i + 1]) <==> NumbersFit(k, members[i].value)
    ensures MembersFit(k, members) ==> NumbersFit(k, members[i].value)
  {
    assert members[..i + 1] == members[..i] + [members[i]];
    if MembersFit(k, members[..i + 1]) {
      assert members[..i + 1][i] == members[i];
    }
  }

  lemma NoMoreMembers(k: Codec, members: seq<Member>, pre: bytes, d: nat, format: bool)
    ensures pre + RenderMembers(k, members[|members|..], d, format) == pre
  {
  }

  lemma MembersFrom(k: Codec, members: seq<Member>, i: nat, pre: bytes, d: nat, format: bool)
    requires i < |members|
    ensures pre + RenderMembers(k, members[i..], d, format)
         == pre + RenderMember(k, members[i], i + 1 == |members|, d, format)
            + RenderMembers(k, members[i + 1..], d, format)
  {
    assert members[i..][1..] == members[i + 1..];
    var first := RenderMember(k, members[i], i + 1 == |members|, d, format);
    Regroup(pre, first, RenderMembers(k, members[i + 1..], d, format));
  }

  // An array's text behind its opening bracket.
  function ArrayRest(k: Codec, items: seq<Json>, d: nat, format: bool): bytes {
    RenderItems(k, items, d, format) + [CLOSE_ARRAY]
  }

  lemma ArrayAppended(k: Codec, items: seq<Json>, pre: bytes, d: nat, format: bool)
    ensures var r := ArrayRest(k, items, d + 1, format);
            && pre + Render(k, Array(items), d, format) == pre + [OPEN_ARRAY] + r
            && |Render(k, Array(items), d, format)| == 1 + |r|
  {
    var r := ArrayRest(k, items, d + 1, format);
    assert Render(k, Array(items), d, format) == [OPEN_ARRAY] + r;
    Regroup(pre, [OPEN_ARRAY], r);
  }

  // An object's text behind its opening brace.
  function ObjectRest(k: Codec, members: seq<Member>, d: nat, format: bool): bytes
    requires d > 0
  {
    RenderMembers(k, members, d, format) + ObjectEnd(d, format)
  }

  lemma ObjectAppended(k: Codec, members: seq<Member>, pre: bytes, d: nat, format: bool)
    ensures var open := if format then [OPEN_OBJECT, NEWLINE] else [OPEN_OBJECT];
            var r := ObjectRest(k, members, d + 1, format);
            && pre + Render(k, Object(members), d, format) == pre + open + r
            && |Render(k, Object(members), d, format)| == |open| + |r|
  {
    var open := if format then [OPEN_OBJECT, NEWLINE] else [OPEN_OBJECT];
    var r := ObjectRest(k, members, d + 1, format);
    assert Render(k, Object(members), d, format) == open + r;
    Regroup(pre, open, r);
  }

  lemma ItemsFrom(k: Codec, items: seq<Json>, i: nat, d: nat, format: bool)
    requires i < |items|
    ensures RenderItems(k, items[i..], d, format)
         == Render(k, items[i], d, format) + (if i + 1 == |items| then [] else ItemSeparator(format))
            + RenderItems(k, items[i + 1..], d, format)
  {
    assert items[i..][1..] == items[i + 1..];
  }

  // The first pass of print_string_ptr: how much longer escaping makes the text.
  method CountEscapes(s: bytes) returns (n: nat)
    ensures n == |EscapeAll(s)| - |s|
  {
    n := 0;
    for i := 0 to |s|
      invariant n == |EscapeAll(s[..i])| - i
    {
      EscapeAllAppend(s, i);
      if s[i] == QUOTE || s[i] == BACKSLASH || s[i] == BACKSPACE || s[i] == FORM_FEED || s[i] == NEWLINE
        || s[i] == RETURN || s[i] == TAB
      {
        n := n + 1;
      } else if s[i] < 32 {
        n := n + 5;
      }
    }
    assert s[..|s|] == s;
  }
}
