/**
  cJSON_Compare and cJSON_Duplicate.  Comparing is equality of canonical forms, in which an
  object is a map from its names.
 */
module CJsonCompare {
  import opened Options
  import opened Bytes
  import opened CJson

  // How leaves compare: names after folding each byte (the identity, or tolower when case
  // does not matter), doubles by the number they stand for (the same for both zeros), and
  // NaN equal to nothing.
  datatype Rules = Rules(fold: byte -> byte, nan: int -> bool, value: int -> int)

  function Key(r: Rules, name: bytes): bytes {
    if name == [] then [] else [r.fold(name[0])] + Key(r, name[1..])
  }

  // Names agree exactly if they are as long and agree byte by byte.
  lemma {:induction false} SameKey(r: Rules, a: bytes, b: bytes)
    ensures Key(r, a) == Key(r, b) <==> |a| == |b| && forall i :: 0 <= i < |a| ==> r.fold(a[i]) == r.fold(b[i])
  {
    if a != [] && b != [] {
      SameKey(r, a[1..], b[1..]);
      if Key(r, a) == Key(r, b) {
        assert Key(r, a)[1..] == Key(r, b)[1..];
        forall i | 0 <= i < |a| ensures r.fold(a[i]) == r.fold(b[i]) {
          assert i > 0 ==> a[i] == a[1..][i - 1] && b[i] == b[1..][i - 1];
          assert Key(r, a)[0] == Key(r, b)[0];
        }
      } else if |a| == |b| && r.fold(a[0]) == r.fold(b[0]) {
        var i :| 0 <= i < |a[1..]| && r.fold(a[1..][i]) != r.fold(b[1..][i]);
        assert a[i + 1] == a[1..][i] && b[i + 1] == b[1..][i];
      }
    }
  }

  function Size(t: Json): nat
    decreases t, 1
  {
    match t
    case Array(items) => 1 + SizeOfItems(items)
    case Object(members) => 1 + SizeOfMembers(members)
    case _ => 1
  }

  function SizeOfItems(items: seq<Json>): nat
    decreases items, 0
  {
    if items == [] then 0 else Size(items[0]) + SizeOfItems(items[1..])
  }

  function SizeOfMembers(members: seq<Member>): nat
    decreases members, 0
  {
    if members == [] then 0 else Size(members[0].value) + SizeOfMembers(members[1..])
  }

  lemma {:induction false} ItemSmaller(items: seq<Json>, i: nat)
    requires i < |items|
    ensures Size(items[i]) <= SizeOfItems(items)
    decreases |items|
  {
    if i > 0 {
      ItemSmaller(items[1..], i - 1);
    }
  }

  lemma {:induction false} MemberSmaller(members: seq<Member>, i: nat)
    requires i < |members|
    ensures Size(members[i].value) <= SizeOfMembers(members)
    decreases |members|
  {
    if i > 0 {
      MemberSmaller(members[1..], i - 1);
    }
  }

  // get_object_item: the first member with that name.
  function Find(r: Rules, members: seq<Member>, key: bytes): (found: Option<nat>)
    ensures found.Some? ==> found.value < |members| && Key(r, members[found.value].name) == key
    ensures found.Some? ==> forall i :: 0 <= i < found.value ==> Key(r, members[i].name) != key
    ensures found.None? ==> forall i :: 0 <= i < |members| ==> Key(r, members[i].name) != key
  {
    if members == [] then None
    else if Key(r, members[0].name) == key then Some(0)
    else match Find(r, members[1..], key)
         case None => None
         case Some(i) => Some(i + 1)
  }

  // cJSON_Compare on two different nodes.
  predicate Compare(r: Rules, a: Json, b: Json)
    decreases Size(a) + Size(b), 2
  {
    match (a, b)
    case (Null, Null) => true
    case (False, False) => true
    case (True, True) => true
    case (Number(m), Number(n)) => !r.nan(m) && !r.nan(n) && r.value(m) == r.value(n)
    case (String(s), String(t)) => s == t
    case (Array(s), Array(t)) =>
      |s| == |t| && forall i :: 0 <= i < |s| ==> (ItemSmaller(s, i); ItemSmaller(t, i); Compare(r, s[i], t[i]))
    case (Object(s), Object(t)) => Covers(r, s, t) && Covers(r, t, s)
    case _ => false
  }

  // One of the two passes over an object: every member of s compares with the first of
  // that name in t.
  predicate Covers(r: Rules, s: seq<Member>, t: seq<Member>)
    decreases SizeOfMembers(s) + SizeOfMembers(t) + 2, 1
  {
    forall i :: 0 <= i < |s| ==> CoversAt(r, s, t, i)
  }

  predicate CoversAt(r: Rules, s: seq<Member>, t: seq<Member>, i: nat)
    requires i < |s|
    decreases SizeOfMembers(s) + SizeOfMembers(t) + 2, 0
  {
    match Find(r, t, Key(r, s[i].name))
    case None => false
    case Some(j) => MemberSmaller(s, i); MemberSmaller(t, j); Compare(r, s[i].value, t[j].value)
  }

  // ---------- meaning ----------

  datatype Canon =
    | CNull | CFalse | CTrue
    | CNumber(n: int)
    | CString(s: bytes)
    | CArray(items: seq<Canon>)
    | CObject(members: map<bytes, Canon>)

  function Meaning(r: Rules, t: Json): Canon
    decreases t, 1
  {
    match t
    case Null => CNull
    case False => CFalse
    case True => CTrue
    case Number(n) => CNumber(r.value(n))
    case String(s) => CString(s)
    case Array(items) => CArray(seq(|items|, i requires 0 <= i < |items| => Meaning(r, items[i])))
    case Object(members) => CObject(MeaningOfMembers(r, members))
  }

  // The first member of a name counts.
  function MeaningOfMembers(r: Rules, members: seq<Member>): map<bytes, Canon>
    decreases members, 0
  {
    if members == [] then map[]
    else MeaningOfMembers(r, members[1..])[Key(r, members[0].name) := Meaning(r, members[0].value)]
  }

  // No NaN, and members of the same name mean the same.
  predicate Sound(r: Rules, t: Json)
    decreases t, 1
  {
    match t
    case Number(n) => !r.nan(n)
    case Array(items) => forall i :: 0 <= i < |items| ==> Sound(r, items[i])
    case Object(members) =>
      var m := MeaningOfMembers(r, members);
      forall i :: 0 <= i < |members| ==> SoundMember(r, members[i], m)
    case _ => true
  }

  predicate SoundMember(r: Rules, m: Member, all: map<bytes, Canon>)
    decreases m, 1
  {
    var key := Key(r, m.name);
    Sound(r, m.value) && key in all && all[key] == Meaning(r, m.value)
  }

  lemma {:induction false} FindMeans(r: Rules, members: seq<Member>, key: bytes)
    ensures var found := Find(r, members, key);
            && (found.Some? <==> key in MeaningOfMembers(r, members))
            && (found.Some? ==> MeaningOfMembers(r, members)[key] == Meaning(r, members[found.value].value))
    decreases |members|
  {
    if members != [] {
      FindMeans(r, members[1..], key);
    }
  }

  // Every member of s is sound and means what `all` says about its name.
  predicate Matches(r: Rules, s: seq<Member>, all: map<bytes, Canon>) {
    forall i :: 0 <= i < |s| ==> SoundMember(r, s[i], all)
  }

  lemma MatchedMeaning(r: Rules, s: seq<Member>, all: map<bytes, Canon>, key: bytes)
    requires Matches(r, s, all) && key in MeaningOfMembers(r, s)
    ensures key in all && all[key] == MeaningOfMembers(r, s)[key]
  {
    FindMeans(r, s, key);
    var i := Find(r, s, key).value;
    assert SoundMember(r, s[i], all);
  }

  // Each matches the other's meaning exactly when both match their own and the meanings
  // are equal.
  lemma MatchesBothWays(r: Rules, s: seq<Member>, t: seq<Member>)
    ensures var ms, mt := MeaningOfMembers(r, s), MeaningOfMembers(r, t);
            (Matches(r, s, mt) && Matches(r, t, ms)) <==> (Matches(r, s, ms) && Matches(r, t, mt) && ms == mt)
  {
    var ms, mt := MeaningOfMembers(r, s), MeaningOfMembers(r, t);
    if Matches(r, s, mt) && Matches(r, t, ms) {
      forall key | key in ms ensures key in mt && mt[key] == ms[key] { MatchedMeaning(r, s, mt, key); }
      forall key | key in mt ensures key in ms && ms[key] == mt[key] { MatchedMeaning(r, t, ms, key); }
      assert ms == mt;
    }
  }

  // Main theorem: Compare is equality of meaning between sound trees.
  lemma {:induction false} CompareMeans(r: Rules, a: Json, b: Json)
    ensures Compare(r, a, b) <==> Sound(r, a) && Sound(r, b) && Meaning(r, a) == Meaning(r, b)
    decreases Size(a) + Size(b), 2
  {
    match (a, b)
    case (Array(s), Array(t)) => ItemsMean(r, s, t);
    case (Object(s), Object(t)) => MembersMean(r, s, t);
    case _ =>
  }

  lemma {:induction false} ItemsMean(r: Rules, s: seq<Json>, t: seq<Json>)
    ensures Compare(r, Array(s), Array(t))
       <==> Sound(r, Array(s)) && Sound(r, Array(t)) && Meaning(r, Array(s)) == Meaning(r, Array(t))
    decreases SizeOfItems(s) + SizeOfItems(t) + 2, 1
  {
    var ms, mt := Meaning(r, Array(s)).items, Meaning(r, Array(t)).items;
    if |s| == |t| {
      forall i | 0 <= i < |s|
        ensures Compare(r, s[i], t[i]) <==> Sound(r, s[i]) && Sound(r, t[i]) && ms[i] == mt[i]
      {
        ItemSmaller(s, i);
        ItemSmaller(t, i);
        CompareMeans(r, s[i], t[i]);
      }
      if Compare(r, Array(s), Array(t)) {
        assert forall i :: 0 <= i < |s| ==> Compare(r, s[i], t[i]);
        assert ms == mt;
      }
    }
  }

  lemma {:induction false} MembersMean(r: Rules, s: seq<Member>, t: seq<Member>)
    ensures Compare(r, Object(s), Object(t))
       <==> Sound(r, Object(s)) && Sound(r, Object(t)) && Meaning(r, Object(s)) == Meaning(r, Object(t))
    decreases SizeOfMembers(s) + SizeOfMembers(t) + 2, 1
  {
    MatchesBothWays(r, s, t);
    CoversMeans(r, s, t);
    CoversMeans(r, t, s);
  }

  lemma {:induction false} CoversMeans(r: Rules, s: seq<Member>, t: seq<Member>)
    ensures Covers(r, s, t) ==> Matches(r, s, MeaningOfMembers(r, t))
    ensures Matches(r, s, MeaningOfMembers(r, t)) && (forall j :: 0 <= j < |t| ==> Sound(r, t[j].value)) ==>
              Covers(r, s, t)
    decreases SizeOfMembers(s) + SizeOfMembers(t) + 2, 0
  {
    forall i | 0 <= i < |s|
      ensures CoversAt(r, s, t, i) ==> SoundMember(r, s[i], MeaningOfMembers(r, t))
      ensures SoundMember(r, s[i], MeaningOfMembers(r, t)) && (forall j :: 0 <= j < |t| ==> Sound(r, t[j].value))
              ==> CoversAt(r, s, t, i)
    {
      var key := Key(r, s[i].name);
      FindMeans(r, t, key);
      match Find(r, t, key)
      case None =>
      case Some(j) =>
        MemberSmaller(s, i);
        MemberSmaller(t, j);
        CompareMeans(r, s[i].value, t[j].value);
    }
  }

  // Hence Compare is symmetric and transitive on all trees, and reflexive exactly on the
  // sound ones.
  lemma CompareIsEquivalence(r: Rules, a: Json, b: Json, c: Json)
    ensures Compare(r, a, b) <==> Compare(r, b, a)
    ensures Compare(r, a, b) && Compare(r, b, c) ==> Compare(r, a, c)
    ensures Compare(r, a, a) <==> Sound(r, a)
  {
    CompareMeans(r, a, b);
    CompareMeans(r, b, a);
    CompareMeans(r, b, c);
    CompareMeans(r, a, c);
    CompareMeans(r, a, a);
  }

  // ---------- equal up to member order ----------

  predicate DistinctNames(r: Rules, members: seq<Member>) {
    forall i, j :: 0 <= i < j < |members| ==> Key(r, members[i].name) != Key(r, members[j].name)
  }

  // No NaN and no object with two members of one name.
  predicate Plain(r: Rules, t: Json)
    decreases t
  {
    match t
    case Number(n) => !r.nan(n)
    case Array(items) => forall i :: 0 <= i < |items| ==> Plain(r, items[i])
    case Object(members) => DistinctNames(r, members) && forall i :: 0 <= i < |members| ==> Plain(r, members[i].value)
    case _ => true
  }

  // The same tree up to the order of members in every object.
  ghost predicate Alike(r: Rules, a: Json, b: Json)
    decreases a, 1
  {
    match (a, b)
    case (Number(m), Number(n)) => r.value(m) == r.value(n)
    case (Array(s), Array(t)) => |s| == |t| && forall i :: 0 <= i < |s| ==> Alike(r, s[i], t[i])
    case (Object(s), Object(t)) => exists p: seq<nat> :: AlikeBy(r, s, t, p)
    case _ => a == b
  }

  // Member i of s is member p[i] of t, and every member of t is one of those.
  ghost predicate AlikeBy(r: Rules, s: seq<Member>, t: seq<Member>, p: seq<nat>)
    decreases s, 0
  {
    && |p| == |s| == |t|
    && (forall j: nat :: j < |t| ==> j in p)
    && (forall i :: 0 <= i < |s| ==>
          && p[i] < |t| && Key(r, s[i].name) == Key(r, t[p[i]].name)
          && Alike(r, s[i].value, t[p[i]].value))
  }

  lemma FindOnly(r: Rules, members: seq<Member>, i: nat)
    requires DistinctNames(r, members) && i < |members|
    ensures Find(r, members, Key(r, members[i].name)) == Some(i)
    ensures var key := Key(r, members[i].name);
            key in MeaningOfMembers(r, members) && MeaningOfMembers(r, members)[key] == Meaning(r, members[i].value)
  {
    FindMeans(r, members, Key(r, members[i].name));
  }

  lemma {:induction false} PlainIsSound(r: Rules, t: Json)
    requires Plain(r, t)
    ensures Sound(r, t)
    decreases t
  {
    match t
    case Array(items) =>
      forall i | 0 <= i < |items| ensures Sound(r, items[i]) { PlainIsSound(r, items[i]); }
    case Object(members) =>
      forall i | 0 <= i < |members| ensures SoundMember(r, members[i], MeaningOfMembers(r, members)) {
        PlainIsSound(r, members[i].value);
        FindOnly(r, members, i);
      }
    case _ =>
  }

  lemma {:induction false} NamesCounted(r: Rules, members: seq<Member>)
    requires DistinctNames(r, members)
    ensures |MeaningOfMembers(r, members)| == |members|
    decreases |members|
  {
    if members != [] {
      NamesCounted(r, members[1..]);
      var key, later := Key(r, members[0].name), MeaningOfMembers(r, members[1..]);
      FindMeans(r, members[1..], key);
      assert key !in later;
      assert MeaningOfMembers(r, members).Keys == later.Keys + {key};
      assert |later.Keys + {key}| == |later.Keys| + 1;
    }
  }

  lemma {:induction false} AlikeMeans(r: Rules, a: Json, b: Json)
    requires Plain(r, a) && Plain(r, b)
    ensures Alike(r, a, b) <==> Meaning(r, a) == Meaning(r, b)
    decreases a, 1
  {
    match (a, b)
    case (Array(s), Array(t)) =>
      var ms, mt := Meaning(r, a).items, Meaning(r, b).items;
      if |s| == |t| {
        forall i | 0 <= i < |s| ensures Alike(r, s[i], t[i]) <==> ms[i] == mt[i] { AlikeMeans(r, s[i], t[i]); }
        if Alike(r, a, b) {
          assert ms == mt;
        }
      }
    case (Object(s), Object(t)) =>
      if Alike(r, a, b) {
        assert Alike(r, Object(s), Object(t));
        var p: seq<nat> :| AlikeBy(r, s, t, p);
        OrderLost(r, s, t, p);
      } else if Meaning(r, a) == Meaning(r, b) {
        OrderFound(r, s, t);
      }
    case _ =>
  }

  lemma {:induction false} OrderLost(r: Rules, s: seq<Member>, t: seq<Member>, p: seq<nat>)
    requires Plain(r, Object(s)) && Plain(r, Object(t)) && AlikeBy(r, s, t, p)
    ensures MeaningOfMembers(r, s) == MeaningOfMembers(r, t)
    decreases s, 0
  {
    var ms, mt := MeaningOfMembers(r, s), MeaningOfMembers(r, t);
    forall i | 0 <= i < |s| ensures var key := Key(r, s[i].name); key in ms && key in mt && ms[key] == mt[key] {
      AlikeMeans(r, s[i].value, t[p[i]].value);
      FindOnly(r, s, i);
      FindOnly(r, t, p[i]);
    }
    forall key | key in ms ensures key in mt && ms[key] == mt[key] {
      FindMeans(r, s, key);
    }
    forall key | key in mt ensures key in ms {
      FindMeans(r, t, key);
      var j := Find(r, t, key).value;
      assert j in p;
      var i :| 0 <= i < |p| && p[i] == j;
      assert Key(r, s[i].name) == key;
    }
    assert ms == mt;
  }

  lemma {:induction false} OrderFound(r: Rules, s: seq<Member>, t: seq<Member>)
    requires Plain(r, Object(s)) && Plain(r, Object(t)) && MeaningOfMembers(r, s) == MeaningOfMembers(r, t)
    ensures Alike(r, Object(s), Object(t))
    decreases s, 0
  {
    NamesCounted(r, s);
    NamesCounted(r, t);
    forall i | 0 <= i < |s| ensures Find(r, t, Key(r, s[i].name)).Some? {
      FindOnly(r, s, i);
      FindMeans(r, t, Key(r, s[i].name));
    }
    var p := seq(|s|, i requires 0 <= i < |s| => Find(r, t, Key(r, s[i].name)).value);
    forall i | 0 <= i < |s| ensures Alike(r, s[i].value, t[p[i]].value) {
      FindOnly(r, s, i);
      FindMeans(r, t, Key(r, s[i].name));
      AlikeMeans(r, s[i].value, t[p[i]].value);
    }
    forall j: nat | j < |t| ensures j in p {
      FindOnly(r, t, j);
      FindMeans(r, s, Key(r, t[j].name));
      var i := Find(r, s, Key(r, t[j].name)).value;
      assert p[i] == j;
    }
    assert AlikeBy(r, s, t, p);
  }

  // Main theorem: without NaN and repeated names, Compare holds exactly between trees equal
  // up to member order.
  lemma CompareIffAlike(r: Rules, a: Json, b: Json)
    requires Plain(r, a) && Plain(r, b)
    ensures Compare(r, a, b) <==> Alike(r, a, b)
  {
    CompareMeans(r, a, b);
    PlainIsSound(r, a);
    PlainIsSound(r, b);
    AlikeMeans(r, a, b);
  }

  // ---------- duplicates ----------

  // cJSON_Duplicate: nodes are copied, and their children too if asked for.
  method Duplicate(t: Json, recurse: bool) returns (d: Json)
    ensures recurse ==> d == t
    ensures !recurse ==> d == match t case Array(_) => Array([]) case Object(_) => Object([]) case _ => t
    decreases t
  {
    match t
    case Array(items) =>
      var copies: seq<Json> := [];
      if recurse {
        for i := 0 to |items|
          invariant copies == items[..i]
        {
          var copy := Duplicate(items[i], true);
          copies := copies + [copy];
        }
      }
      d := Array(copies);
    case Object(members) =>
      var copies: seq<Member> := [];
      if recurse {
        for i := 0 to |members|
          invariant copies == members[..i]
        {
          var copy := Duplicate(members[i].value, true);
          copies := copies + [Member(members[i].name, copy)];
        }
      }
      d := Object(copies);
    case _ =>
      d := t;
  }

  // A recursive duplicate compares equal to its source exactly if the source is sound.
  method DuplicateAndCompare(r: Rules, t: Json) returns (d: Json, equal: bool)
    ensures d == t && (equal <==> Sound(r, t))
    ensures Plain(r, t) ==> equal
  {
    d := Duplicate(t, true);
    equal := Compare(r, t, d);
    CompareIsEquivalence(r, t, t, t);
    if Plain(r, t) {
      PlainIsSound(r, t);
    }
  }

  // An object with one name twice and different values is not equal to its own duplicate.
  lemma RepeatedNameNotReflexive(r: Rules)
    ensures var t := Object([Member([97], Null), Member([97], True)]); !Compare(r, t, t)
  {
    var members := [Member([97], Null), Member([97], True)];
    var m := MeaningOfMembers(r, members);
    assert m[Key(r, [97])] == CNull;
    assert !SoundMember(r, members[1], m);
    CompareMeans(r, Object(members), Object(members));
  }
}
