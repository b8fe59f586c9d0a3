/**
  The turns of the loops of parse_array and parse_object.
 */
module CJsonSteps {
  import opened Bytes
  import opened CJson
  import opened CJsonText

  // ---------- one turn of a loop, forwards ----------

  lemma ItemsStep(x: Lexer, items: seq<Json>, p: nat, e: nat, next: nat, depth: nat)
    requires LexerOk(x) && p < x.size && e <= x.size && depth <= NESTING_LIMIT && items != []
    requires ParseValue(x, x.skip(p), depth) == Ok(items[0], e)
    requires if |items| == 1 then x.at(x.skip(e)) == CLOSE_ARRAY && next == x.skip(e) + 1
             else x.at(x.skip(e)) == COMMA && ParseItems(x, x.skip(e) + 1, depth) == Ok(items[1..], next)
    ensures ParseItems(x, p, depth) == Ok(items, next)
  {
    if |items| == 1 {
      assert [items[0]] == items;
    } else {
      assert [items[0]] + items[1..] == items;
    }
  }

  lemma MembersStep(x: Lexer, members: seq<Member>, p: nat, e: nat, next: nat, depth: nat)
    requires LexerOk(x) && p < x.size && e <= x.size && depth <= NESTING_LIMIT && members != []
    requires ParseMember(x, p, depth) == Ok(members[0], e)
    requires if |members| == 1 then x.at(x.skip(e)) == CLOSE_OBJECT && next == x.skip(e) + 1
             else x.at(x.skip(e)) == COMMA && ParseMembers(x, x.skip(e) + 1, depth) == Ok(members[1..], next)
    ensures ParseMembers(x, p, depth) == Ok(members, next)
  {
    if |members| == 1 {
      assert [members[0]] == members;
    } else {
      assert [members[0]] + members[1..] == members;
    }
  }

  lemma ArrayStep(x: Lexer, off: nat, depth: nat, items: seq<Json>, first: nat, next: nat)
    requires LexerOk(x) && off < x.size && depth < NESTING_LIMIT && x.at(off) == OPEN_ARRAY && first == x.skip(off + 1)
    requires if items == [] then x.at(first) == CLOSE_ARRAY && next == first + 1
             else first < x.size && x.at(first) != CLOSE_ARRAY && ParseItems(x, first, depth + 1) == Ok(items, next)
    ensures ParseValue(x, off, depth) == Ok(Array(items), next)
  {
  }

  lemma ObjectStep(x: Lexer, off: nat, depth: nat, members: seq<Member>, first: nat, next: nat)
    requires LexerOk(x) && off < x.size && depth < NESTING_LIMIT && x.at(off) == OPEN_OBJECT && first == x.skip(off + 1)
    requires if members == [] then x.at(first) == CLOSE_OBJECT && next == first + 1
             else first < x.size && x.at(first) != CLOSE_OBJECT
                  && ParseMembers(x, first, depth + 1) == Ok(members, next)
    ensures ParseValue(x, off, depth) == Ok(Object(members), next)
  {
  }

  lemma NameStep(x: Lexer, p: nat, q: nat, s: bytes, n: nat, o: nat, at: nat)
    requires LexerOk(x) && p < x.size && x.skip(p) == q && x.name(q) == Ok(s, n) && x.skip(n) == o
    requires x.at(o) == COLON && x.skip(o + 1) == at
    ensures ParseName(x, p) == Ok(s, at)
  {
  }

  // ---------- and backwards ----------

  // One turn of parse_array's loop, read backwards.
  lemma ItemsUnfold(x: Lexer, p: nat, depth: nat, items: seq<Json>, next: nat) returns (e: nat, o: nat)
    requires LexerOk(x) && p < x.size && depth <= NESTING_LIMIT && ParseItems(x, p, depth) == Ok(items, next)
    ensures items != [] && ParseValue(x, x.skip(p), depth) == Ok(items[0], e) && e <= x.size
    ensures o == x.skip(e) && p <= o < x.size && (|items| > 1 ==> o + 1 < x.size)
    ensures if |items| == 1 then x.at(o) == CLOSE_ARRAY && next == o + 1
            else x.at(o) == COMMA && ParseItems(x, o + 1, depth) == Ok(items[1..], next)
  {
    e := ParseValue(x, x.skip(p), depth).offset;
    o := x.skip(e);
    if x.at(o) == COMMA {
      ItemsNotEmpty(x, o + 1, depth);
      assert items[1..] == ParseItems(x, o + 1, depth).value;
    }
  }

  lemma ItemsNotEmpty(x: Lexer, p: nat, depth: nat)
    requires LexerOk(x) && p < x.size && depth <= NESTING_LIMIT && ParseItems(x, p, depth).Ok?
    ensures ParseItems(x, p, depth).value != []
  {
  }

  lemma ItemsNest(items: seq<Json>, depth: nat)
    requires items != [] && depth + Nesting(items[0]) <= NESTING_LIMIT
    requires |items| > 1 ==> depth + NestingOfItems(items[1..]) <= NESTING_LIMIT
    ensures depth + NestingOfItems(items) <= NESTING_LIMIT
  {
  }

  lemma MembersUnfold(x: Lexer, p: nat, depth: nat, members: seq<Member>, next: nat) returns (e: nat, o: nat)
    requires LexerOk(x) && p < x.size && depth <= NESTING_LIMIT && ParseMembers(x, p, depth) == Ok(members, next)
    ensures members != [] && ParseMember(x, p, depth) == Ok(members[0], e) && e <= x.size
    ensures o == x.skip(e) && p <= o < x.size && (|members| > 1 ==> o + 1 < x.size)
    ensures if |members| == 1 then x.at(o) == CLOSE_OBJECT && next == o + 1
            else x.at(o) == COMMA && ParseMembers(x, o + 1, depth) == Ok(members[1..], next)
  {
    e := ParseMember(x, p, depth).offset;
    o := x.skip(e);
    if x.at(o) == COMMA {
      MembersNotEmpty(x, o + 1, depth);
      assert members[1..] == ParseMembers(x, o + 1, depth).value;
    }
  }

  lemma MembersNotEmpty(x: Lexer, p: nat, depth: nat)
    requires LexerOk(x) && p < x.size && depth <= NESTING_LIMIT && ParseMembers(x, p, depth).Ok?
    ensures ParseMembers(x, p, depth).value != []
  {
  }

  lemma MembersNest(members: seq<Member>, depth: nat)
    requires members != [] && depth + Nesting(members[0].value) <= NESTING_LIMIT
    requires |members| > 1 ==> depth + NestingOfMembers(members[1..]) <= NESTING_LIMIT
    ensures depth + NestingOfMembers(members) <= NESTING_LIMIT
  {
  }
}
