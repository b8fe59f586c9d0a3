/**
  The ordered timer set.  A callback is the list of what it does: add timers (with
  callbacks of their own), delete timers, and let time pass.  The clock is a field
  that only moves forward.
 */
module Timers {
  import opened Options

  datatype Op =
    | Add(msec: nat, func: seq<Op>)
    | Del(expire: int, id: int)
    | Pass(d: nat)

  datatype Node = Node(expire: int, id: int, func: seq<Op>)

  // operator < on timer nodes: by expiry, then by id.
  predicate Less(a: Node, b: Node) {
    if a.expire == b.expire then a.id < b.id else a.expire < b.expire
  }

  ghost predicate Sorted(q: seq<Node>) {
    forall i, j :: 0 <= i < j < |q| ==> Less(q[i], q[j])
  }

  // Insertion into the ordered set.
  function Insert(q: seq<Node>, n: Node): (r: seq<Node>)
    ensures |r| == |q| + 1
  {
    if q == [] || Less(n, q[0]) then [n] + q else [q[0]] + Insert(q[1..], n)
  }

  lemma ConsSorted(n: Node, q: seq<Node>)
    requires Sorted(q) && forall m :: m in q ==> Less(n, m)
    ensures Sorted([n] + q)
  {
  }

  lemma {:induction false} InsertAdds(q: seq<Node>, n: Node)
    ensures multiset(Insert(q, n)) == multiset(q) + multiset{n}
    ensures forall m :: m in Insert(q, n) <==> m in q || m == n
  {
    if q != [] && !Less(n, q[0]) {
      InsertAdds(q[1..], n);
      assert q == [q[0]] + q[1..];
    }
  }

  lemma {:induction false} InsertSorted(q: seq<Node>, n: Node)
    requires Sorted(q) && forall m :: m in q ==> m.id != n.id
    ensures Sorted(Insert(q, n))
  {
    if q == [] || Less(n, q[0]) {
      assert forall m :: m in q ==> Less(n, m);
      ConsSorted(n, q);
    } else {
      InsertSorted(q[1..], n);
      InsertAdds(q[1..], n);
      assert forall m :: m in q[1..] ==> Less(q[0], m);
      ConsSorted(q[0], Insert(q[1..], n));
    }
  }

  // The hint at the end is right when nothing sorts after the new node.
  lemma {:induction false} InsertAtEnd(q: seq<Node>, n: Node)
    requires forall m :: m in q ==> Less(m, n)
    ensures Insert(q, n) == q + [n]
  {
    if q != [] {
      assert Less(q[0], n);
      InsertAtEnd(q[1..], n);
      assert q == [q[0]] + q[1..];
    }
  }

  lemma BehindAll(q: seq<Node>, n: Node)
    requires Sorted(q) && q != [] && n.expire > q[|q| - 1].expire
    ensures forall m :: m in q ==> Less(m, n)
  {
    forall m | m in q ensures Less(m, n) {
      var last := q[|q| - 1];
      assert m == last || Less(m, last);
    }
  }

  // How much work is left in pending callbacks.
  function Size(ops: seq<Op>): nat {
    if ops == [] then 0
    else (if ops[0].Add? then 1 + Size(ops[0].func) else 0) + Size(ops[1..])
  }

  function Weight(q: seq<Node>): nat {
    if q == [] then 0 else 1 + Size(q[0].func) + Weight(q[1..])
  }

  lemma {:induction false} WeightInsert(q: seq<Node>, n: Node)
    ensures Weight(Insert(q, n)) == Weight(q) + 1 + Size(n.func)
  {
    if q == [] || Less(n, q[0]) {
      assert ([n] + q)[1..] == q;
    } else {
      WeightInsert(q[1..], n);
      assert ([q[0]] + Insert(q[1..], n))[1..] == Insert(q[1..], n);
    }
  }

  // ---------- the set and its operations ----------

  // The pending nodes in order, the next id, the clock, the nodes whose callbacks ran, in
  // order, and the ids deleted.
  datatype Table = Table(q: seq<Node>, tid: int, tick: int, fired: seq<Node>, deleted: set<int>)

  // Removal of a node.
  function Erase(q: seq<Node>, n: Node): seq<Node> {
    if q == [] then [] else if q[0] == n then q[1..] else [q[0]] + Erase(q[1..], n)
  }

  function Lookup(q: seq<Node>, expire: int, id: int): (r: Option<Node>)
    ensures r.Some? ==> r.value in q && r.value.expire == expire && r.value.id == id
    ensures r.None? ==> forall m :: m in q ==> !(m.expire == expire && m.id == id)
  {
    if q == [] then None
    else if q[0].expire == expire && q[0].id == id then Some(q[0])
    else Lookup(q[1..], expire, id)
  }

  // No timers, whatever the clock shows.
  function Begin(tick: int): Table {
    Table([], 0, tick, [], {})
  }

  function AddTo(s: Table, msec: nat, func: seq<Op>): Table {
    s.(q := Insert(s.q, Node(s.tick + msec, s.tid, func)), tid := s.tid + 1)
  }

  function DelFrom(s: Table, expire: int, id: int): Table {
    match Lookup(s.q, expire, id)
    case None => s
    case Some(n) => s.(q := Erase(s.q, n), deleted := s.deleted + {id})
  }

  // What one operation of a callback of the node `current` does, which stays in the set
  // meanwhile.  A callback deleting its own timer is undefined in the source and skipped
  // here.
  function OneOp(s: Table, current: Node, op: Op): Table {
    match op
    case Add(msec, f) => AddTo(s, msec, f)
    case Del(expire, id) => if expire == current.expire && id == current.id then s else DelFrom(s, expire, id)
    case Pass(d) => s.(tick := s.tick + d)
  }

  function RunOps(s: Table, current: Node, ops: seq<Op>): Table
    decreases |ops|
  {
    if ops == [] then s else RunOps(OneOp(s, current, ops[0]), current, ops[1..])
  }

  // The node after n, present or not.
  function After(q: seq<Node>, n: Node): (r: Option<Node>)
    ensures r.Some? ==> r.value in q && Less(n, r.value)
    ensures r.None? ==> forall m :: m in q ==> !Less(n, m)
  {
    if q == [] then None else if Less(n, q[0]) then Some(q[0]) else After(q[1..], n)
  }

  // One turn of HandleTimer: the callback of the node, then its removal.
  function Turn(s: Table, it: Node): Table {
    var t := RunOps(s, it, it.func);
    t.(q := Erase(t.q, it), fired := t.fired + [it])
  }

  function Front(q: seq<Node>): Option<Node> {
    if q == [] then None else Some(q[0])
  }

  // ---------- termination ----------

  lemma {:induction false} WeightErase(q: seq<Node>, n: Node)
    ensures Weight(Erase(q, n)) <= Weight(q)
    ensures n in q ==> Weight(Erase(q, n)) + 1 + Size(n.func) == Weight(q)
  {
    if q != [] && q[0] != n {
      WeightErase(q[1..], n);
      assert ([q[0]] + Erase(q[1..], n))[1..] == Erase(q[1..], n);
    }
  }

  lemma {:induction false} EraseKeeps(q: seq<Node>, n: Node, m: Node)
    requires m in q && m != n
    ensures m in Erase(q, n)
  {
    if q[0] != n && q[0] != m {
      EraseKeeps(q[1..], n, m);
    }
  }

  lemma OneOpWeight(s: Table, current: Node, op: Op)
    requires current in s.q
    ensures var t := OneOp(s, current, op);
            Weight(t.q) <= Weight(s.q) + (if op.Add? then 1 + Size(op.func) else 0) && current in t.q
  {
    match op
    case Add(msec, f) =>
      WeightInsert(s.q, Node(s.tick + msec, s.tid, f));
      InsertAdds(s.q, Node(s.tick + msec, s.tid, f));
    case Del(expire, id) =>
      var found := Lookup(s.q, expire, id);
      if found.Some? {
        WeightErase(s.q, found.value);
        if found.value != current {
          EraseKeeps(s.q, found.value, current);
        }
      }
    case Pass(_) =>
  }

  lemma {:induction false} OpsWeight(s: Table, current: Node, ops: seq<Op>)
    requires current in s.q
    ensures Weight(RunOps(s, current, ops).q) <= Weight(s.q) + Size(ops) && current in RunOps(s, current, ops).q
    decreases |ops|
  {
    if ops != [] {
      OneOpWeight(s, current, ops[0]);
      OpsWeight(OneOp(s, current, ops[0]), current, ops[1..]);
    }
  }

  lemma TurnLighter(s: Table, it: Node)
    requires it in s.q
    ensures Weight(Turn(s, it).q) < Weight(s.q)
  {
    OpsWeight(s, it, it.func);
    WeightErase(RunOps(s, it, it.func).q, it);
  }

  // HandleTimer from the node the iterator stands on.
  function HandleFrom(s: Table, it: Option<Node>, now: int): Table
    requires it.Some? ==> it.value in s.q
    decreases Weight(s.q)
  {
    if it.None? || it.value.expire > now then s
    else
      TurnLighter(s, it.value);
      var t := Turn(s, it.value);
      HandleFrom(t, After(t.q, it.value), now)
  }

  function Handled(s: Table, now: int): Table {
    HandleFrom(s, Front(s.q), now)
  }

  // ---------- what every operation keeps ----------

  ghost predicate HasId(q: seq<Node>, id: int) {
    exists n :: n in q && n.id == id
  }

  // Every id handed out so far is exactly one of pending, fired and deleted, once.
  ghost predicate Accounted(q: seq<Node>, fired: seq<Node>, deleted: set<int>, tid: int) {
    && (forall a, b :: a in q && b in q && a.id == b.id ==> a == b)
    && (forall i, j :: 0 <= i < j < |fired| ==> fired[i].id != fired[j].id)
    && (forall a, b :: a in fired && b in q ==> a.id != b.id)
    && (forall i :: i in deleted ==> 0 <= i < tid)
    && (forall n :: n in q || n in fired ==> n.id !in deleted)
    && (forall i :: 0 <= i < tid ==> i in deleted || HasId(q, i) || HasId(fired, i))
  }

  ghost predicate Sound(s: Table) {
    && 0 <= s.tid && Sorted(s.q)
    && (forall n :: n in s.q || n in s.fired ==> 0 <= n.id < s.tid)
    && Accounted(s.q, s.fired, s.deleted, s.tid)
  }

  // A node with the next id joins the pending ones.
  lemma AddAccounted(q: seq<Node>, fired: seq<Node>, deleted: set<int>, n: Node, r: seq<Node>)
    requires 0 <= n.id && Accounted(q, fired, deleted, n.id)
    requires forall m :: m in q || m in fired ==> m.id < n.id
    requires forall m :: m in r <==> m in q || m == n
    ensures Accounted(r, fired, deleted, n.id + 1)
  {
    forall i | 0 <= i < n.id + 1
      ensures i in deleted || HasId(r, i) || HasId(fired, i)
    {
      if i == n.id {
        assert n in r;
      } else if HasId(q, i) {
        var m :| m in q && m.id == i;
        assert m in r;
      }
    }
  }

  lemma AddSound(s: Table, msec: nat, func: seq<Op>)
    requires Sound(s)
    ensures Sound(AddTo(s, msec, func))
  {
    var n := Node(s.tick + msec, s.tid, func);
    InsertSorted(s.q, n);
    InsertAdds(s.q, n);
    AddAccounted(s.q, s.fired, s.deleted, n, Insert(s.q, n));
  }

  lemma {:induction false} EraseOnly(q: seq<Node>, n: Node)
    requires Sorted(q)
    ensures forall m :: m in Erase(q, n) <==> m in q && m != n
    ensures Sorted(Erase(q, n))
  {
    if q != [] {
      HeadOfSorted(q);
      if q[0] != n {
        EraseOnly(q[1..], n);
        ConsSorted(q[0], Erase(q[1..], n));
      }
    }
  }

  lemma HeadOfSorted(q: seq<Node>)
    requires Sorted(q) && q != []
    ensures Sorted(q[1..]) && (forall m :: m in q[1..] ==> Less(q[0], m)) && q[0] !in q[1..]
    ensures forall m :: m in q <==> m == q[0] || m in q[1..]
  {
    assert q == [q[0]] + q[1..];
  }

  lemma DelAccounted(q: seq<Node>, fired: seq<Node>, deleted: set<int>, tid: int, n: Node, r: seq<Node>)
    requires Accounted(q, fired, deleted, tid) && n in q && 0 <= n.id < tid
    requires forall m :: m in r <==> m in q && m != n
    ensures Accounted(r, fired, deleted + {n.id}, tid)
  {
    forall i | 0 <= i < tid && i != n.id && HasId(q, i) ensures HasId(r, i) {
      var m :| m in q && m.id == i;
      assert m in r;
    }
  }

  // A node leaves the set for the deleted ones.
  lemma DelSound(s: Table, n: Node)
    requires Sound(s) && n in s.q
    ensures Sound(s.(q := Erase(s.q, n), deleted := s.deleted + {n.id}))
  {
    EraseOnly(s.q, n);
    DelAccounted(s.q, s.fired, s.deleted, s.tid, n, Erase(s.q, n));
  }

  // A node leaves the set for the fired ones.
  lemma FireSound(s: Table, n: Node)
    requires Sound(s) && n in s.q
    ensures Sound(s.(q := Erase(s.q, n), fired := s.fired + [n]))
  {
    EraseOnly(s.q, n);
    var r, f := Erase(s.q, n), s.fired + [n];
    forall i | 0 <= i < s.tid && (HasId(s.q, i) || HasId(s.fired, i)) ensures HasId(r, i) || HasId(f, i) {
      var m :| (m in s.q || m in s.fired) && m.id == i;
      assert m in r || m in f;
    }
  }

  lemma OneOpSound(s: Table, current: Node, op: Op)
    requires Sound(s) && current in s.q
    ensures Sound(OneOp(s, current, op))
  {
    match op
    case Add(msec, f) => AddSound(s, msec, f);
    case Del(expire, id) =>
      var found := Lookup(s.q, expire, id);
      if found.Some? {
        DelSound(s, found.value);
      }
    case Pass(_) =>
  }

  // What a callback leaves alone, and what it may add.
  ghost predicate Moves(s: Table, t: Table, current: Node) {
    && t.fired == s.fired && s.deleted <= t.deleted && t.tid >= s.tid && t.tick >= s.tick && current in t.q
    && (forall m :: m in s.q ==> m in t.q || m.id in t.deleted)
    && (forall m :: m in t.q && m !in s.q ==> m.id >= s.tid && m.expire >= s.tick)
  }

  lemma OneOpMoves(s: Table, current: Node, op: Op)
    requires Sound(s) && current in s.q
    ensures Moves(s, OneOp(s, current, op), current)
  {
    OneOpWeight(s, current, op);
    match op
    case Add(msec, f) => InsertAdds(s.q, Node(s.tick + msec, s.tid, f));
    case Del(expire, id) =>
      var found := Lookup(s.q, expire, id);
      if found.Some? {
        EraseOnly(s.q, found.value);
      }
    case Pass(_) =>
  }

  lemma MovesOn(s: Table, t: Table, u: Table, current: Node)
    requires Moves(s, t, current) && Moves(t, u, current)
    ensures Moves(s, u, current)
  {
  }

  lemma {:induction false} OpsMove(s: Table, current: Node, ops: seq<Op>)
    requires Sound(s) && current in s.q
    ensures Sound(RunOps(s, current, ops)) && Moves(s, RunOps(s, current, ops), current)
    decreases |ops|
  {
    if ops != [] {
      var t := OneOp(s, current, ops[0]);
      OneOpSound(s, current, ops[0]);
      OneOpMoves(s, current, ops[0]);
      OpsMove(t, current, ops[1..]);
      MovesOn(s, t, RunOps(t, current, ops[1..]), current);
    }
  }

  // The same for a whole turn, which fires its node.
  ghost predicate Turned(s: Table, t: Table, it: Node) {
    && Sound(t) && Weight(t.q) < Weight(s.q) && t.fired == s.fired + [it] && s.deleted <= t.deleted && t.tick >= s.tick
    && it !in t.q && (forall m :: m in s.q && m != it ==> m in t.q || m.id in t.deleted)
  }

  lemma TurnIs(s: Table, it: Node)
    requires Sound(s) && it in s.q
    ensures Turned(s, Turn(s, it), it)
  {
    OpsMove(s, it, it.func);
    var t := RunOps(s, it, it.func);
    FireSound(t, it);
    EraseOnly(t.q, it);
    TurnLighter(s, it);
  }

  // ---------- HandleTimer, whatever time it is given ----------

  // Every id stays exactly one of pending, fired and deleted: none is lost or fires twice.
  lemma {:induction false} HandleSound(s: Table, it: Option<Node>, now: int)
    requires Sound(s) && (it.Some? ==> it.value in s.q)
    ensures Sound(HandleFrom(s, it, now))
    decreases Weight(s.q)
  {
    if it.Some? && it.value.expire <= now {
      TurnIs(s, it.value);
      HandleSound(Turn(s, it.value), After(Turn(s, it.value).q, it.value), now);
    }
  }

  // The timers fired by a call are due, and each is after the one before.
  lemma {:induction false} HandleFires(s: Table, it: Option<Node>, now: int) returns (news: seq<Node>)
    requires Sound(s) && (it.Some? ==> it.value in s.q)
    ensures HandleFrom(s, it, now).fired == s.fired + news && Sorted(news)
    ensures forall n :: n in news ==> n.expire <= now
    ensures if it.Some? && it.value.expire <= now then news != [] && it.value == news[0] else news == []
    decreases Weight(s.q)
  {
    news := [];
    if it.Some? && it.value.expire <= now {
      TurnIs(s, it.value);
      var t := Turn(s, it.value);
      var later := HandleFires(t, After(t.q, it.value), now);
      news := FirstThen(s.fired, it.value, later, now);
    }
  }

  lemma FirstThen(fired: seq<Node>, n: Node, later: seq<Node>, now: int) returns (news: seq<Node>)
    requires Sorted(later) && (later != [] ==> Less(n, later[0]))
    requires n.expire <= now && forall m :: m in later ==> m.expire <= now
    ensures news != [] && news[0] == n && Sorted(news) && fired + news == fired + [n] + later
    ensures forall m :: m in news ==> m.expire <= now
  {
    news := [n] + later;
    forall m | m in later ensures Less(n, m) {
      assert m == later[0] || Less(later[0], m);
    }
    ConsSorted(n, later);
  }

  // What has fired or been deleted stays so.
  lemma {:induction false} HandleGrows(s: Table, it: Option<Node>, now: int)
    requires Sound(s) && (it.Some? ==> it.value in s.q)
    ensures s.fired <= HandleFrom(s, it, now).fired && s.deleted <= HandleFrom(s, it, now).deleted
    decreases Weight(s.q)
  {
    if it.Some? && it.value.expire <= now {
      TurnIs(s, it.value);
      HandleGrows(Turn(s, it.value), After(Turn(s, it.value).q, it.value), now);
    }
  }

  lemma {:induction false} AfterNearest(q: seq<Node>, n: Node, m: Node)
    requires Sorted(q) && m in q && Less(n, m)
    ensures After(q, n).Some? && (After(q, n).value == m || Less(After(q, n).value, m))
  {
    HeadOfSorted(q);
    if !Less(n, q[0]) {
      AfterNearest(q[1..], n, m);
    }
  }

  // A timer that was due and not before the iterator has fired or been deleted.
  lemma {:induction false} HandleReaches(s: Table, it: Option<Node>, now: int, n: Node)
    requires Sound(s) && it.Some? && it.value in s.q && n in s.q && n.expire <= now
    requires n == it.value || Less(it.value, n)
    ensures var t := HandleFrom(s, it, now); n in t.fired || n.id in t.deleted
    decreases Weight(s.q)
  {
    var t := Turn(s, it.value);
    var next := After(t.q, it.value);
    TurnIs(s, it.value);
    HandleGrows(t, next, now);
    if n == it.value {
      assert n in t.fired;
    } else if n in t.q {
      AfterNearest(t.q, it.value, n);
      HandleReaches(t, next, now, n);
    }
  }

  lemma NewsApart(q: seq<Node>, fired: seq<Node>, news: seq<Node>, deleted: set<int>, tid: int)
    requires Accounted(q, fired + news, deleted, tid)
    ensures forall n :: n in news ==> n !in fired && n.id !in deleted
  {
    var all := fired + news;
    forall n | n in news ensures n !in fired && n.id !in deleted {
      var j :| 0 <= j < |news| && news[j] == n;
      assert all[|fired| + j] == n && n in all;
      forall i | 0 <= i < |fired| ensures fired[i] != n { assert all[i].id != all[|fired| + j].id; }
    }
  }

  // Main theorem: whatever time HandleTimer is given, it fires due timers only, each after
  // the one before and none twice, and every timer that was due has fired or been deleted.
  lemma HandledExactlyOnce(s: Table, now: int) returns (news: seq<Node>)
    requires Sound(s)
    ensures var t := Handled(s, now);
            && Sound(t) && t.fired == s.fired + news && Sorted(news)
            && (forall n :: n in news ==> n.expire <= now && n !in s.fired && n.id !in t.deleted)
            && (forall n :: n in s.q && n.expire <= now ==> n in t.fired || n.id in t.deleted)
  {
    var it := Front(s.q);
    HandleSound(s, it, now);
    news := HandleFires(s, it, now);
    var u := Handled(s, now);
    NewsApart(u.q, s.fired, news, u.deleted, u.tid);
    forall n | n in s.q && n.expire <= now
      ensures var t := Handled(s, now); n in t.fired || n.id in t.deleted
    {
      HeadOfSorted(s.q);
      HandleReaches(s, it, now, n);
    }
  }

  // ---------- HandleTimer, given a time that has come ----------

  // Everything fired is due by the clock and before everything pending, in strict order.
  ghost predicate Prompt(s: Table) {
    && Sorted(s.fired)
    && (forall f :: f in s.fired ==> f.expire <= s.tick)
    && (forall f, n :: f in s.fired && n in s.q ==> Less(f, n))
  }

  lemma AddPrompt(s: Table, msec: nat, func: seq<Op>)
    requires Sound(s) && Prompt(s)
    ensures Prompt(AddTo(s, msec, func))
  {
    InsertAdds(s.q, Node(s.tick + msec, s.tid, func));
  }

  lemma DelKeeps(s: Table, expire: int, id: int)
    requires Sound(s)
    ensures Sound(DelFrom(s, expire, id)) && (Prompt(s) ==> Prompt(DelFrom(s, expire, id)))
  {
    var found := Lookup(s.q, expire, id);
    if found.Some? {
      DelSound(s, found.value);
      EraseOnly(s.q, found.value);
    }
  }

  // Deleting takes away the one node with that expiry and id, if there is one.
  lemma DelMeans(s: Table, expire: int, id: int)
    requires Sound(s)
    ensures var t := DelFrom(s, expire, id);
            && (forall m :: m in t.q <==> m in s.q && !(m.expire == expire && m.id == id))
            && t.deleted == s.deleted + (if exists m :: m in s.q && m.expire == expire && m.id == id then {id} else {})
            && t.tid == s.tid && t.tick == s.tick && t.fired == s.fired
  {
    var found := Lookup(s.q, expire, id);
    if found.Some? {
      EraseOnly(s.q, found.value);
    }
  }

  // Main theorem: what each operation of a callback does to the set.
  lemma OneOpMeans(s: Table, current: Node, op: Op)
    requires Sound(s) && current in s.q
    ensures var t := OneOp(s, current, op);
            match op
            case Add(msec, f) =>
              && (forall m :: m in t.q <==> m in s.q || m == Node(s.tick + msec, s.tid, f))
              && t == s.(q := t.q, tid := s.tid + 1)
            case Del(expire, id) =>
              && (forall m :: m in t.q <==> m in s.q && (m == current || !(m.expire == expire && m.id == id)))
              && t == s.(q := t.q, deleted := t.deleted)
              && (forall i :: i in t.deleted <==>
                    || i in s.deleted
                    || (i == id && exists m :: m in s.q && m != current && m.expire == expire && m.id == id))
            case Pass(d) => t == s.(tick := s.tick + d)
  {
    match op
    case Add(msec, f) => InsertAdds(s.q, Node(s.tick + msec, s.tid, f));
    case Del(expire, id) => DelMeans(s, expire, id);
    case Pass(_) =>
  }

  // A callback does its operations one after the other.
  lemma {:induction false} OpsInOrder(s: Table, current: Node, ops: seq<Op>, op: Op)
    ensures RunOps(s, current, ops + [op]) == OneOp(RunOps(s, current, ops), current, op)
    decreases |ops|
  {
    if ops == [] {
      assert [op][1..] == [] && ops + [op] == [op];
    } else {
      assert (ops + [op])[1..] == ops[1..] + [op];
      OpsInOrder(OneOp(s, current, ops[0]), current, ops[1..], op);
    }
  }

  lemma OneOpPrompt(s: Table, current: Node, op: Op)
    requires Sound(s) && Prompt(s) && current in s.q
    ensures Prompt(OneOp(s, current, op))
  {
    match op
    case Add(msec, f) => AddPrompt(s, msec, f);
    case Del(expire, id) => DelKeeps(s, expire, id);
    case Pass(_) =>
  }

  lemma {:induction false} OpsPrompt(s: Table, current: Node, ops: seq<Op>)
    requires Sound(s) && Prompt(s) && current in s.q
    ensures Prompt(RunOps(s, current, ops))
    decreases |ops|
  {
    if ops != [] {
      OneOpSound(s, current, ops[0]);
      OneOpMoves(s, current, ops[0]);
      OneOpPrompt(s, current, ops[0]);
      OpsPrompt(OneOp(s, current, ops[0]), current, ops[1..]);
    }
  }

  // A due first node is still first when its callback has run.
  lemma StillFirst(s: Table, t: Table, it: Node)
    requires Sound(s) && s.q != [] && s.q[0] == it && it.expire <= s.tick && Sound(t) && Moves(s, t, it)
    ensures t.q != [] && t.q[0] == it
  {
    HeadOfSorted(s.q);
    forall m | m in t.q ensures m == it || Less(it, m) {
      assert it in s.q;
    }
    HeadOfSorted(t.q);
  }

  lemma {:induction false} AfterFirst(q: seq<Node>, it: Node)
    requires Sorted(q) && forall m :: m in q ==> Less(it, m)
    ensures After(q, it) == Front(q)
  {
  }

  // Then its removal leaves the iterator on the first node again.
  lemma TurnPrompt(s: Table, it: Node)
    requires Sound(s) && Prompt(s) && s.q != [] && s.q[0] == it && it.expire <= s.tick
    ensures var t := Turn(s, it); Prompt(t) && After(t.q, it) == Front(t.q)
  {
    var r := RunOps(s, it, it.func);
    OpsMove(s, it, it.func);
    OpsPrompt(s, it, it.func);
    StillFirst(s, r, it);
    HeadOfSorted(r.q);
    AfterFirst(r.q[1..], it);
    FiredInOrder(r, it);
  }

  lemma FiredInOrder(s: Table, it: Node)
    requires Prompt(s) && Sorted(s.q) && s.q != [] && s.q[0] == it && it.expire <= s.tick
    ensures Prompt(s.(q := s.q[1..], fired := s.fired + [it]))
  {
    HeadOfSorted(s.q);
  }

  lemma {:induction false} HandlePrompt(s: Table, now: int)
    requires Sound(s) && Prompt(s) && now <= s.tick
    ensures var t := Handled(s, now);
            Prompt(t) && t.tick >= s.tick && forall n :: n in t.q ==> n.expire > now
    decreases Weight(s.q)
  {
    if s.q != [] {
      HeadOfSorted(s.q);
      if s.q[0].expire <= now {
        TurnIs(s, s.q[0]);
        TurnPrompt(s, s.q[0]);
        HandlePrompt(Turn(s, s.q[0]), now);
      }
    }
  }

  // What a caller of HandleTimer may rely on.
  lemma HandledPromises(s: Table, now: int)
    requires Sound(s)
    ensures var t := Handled(s, now);
            && Sound(t) && s.fired <= t.fired && Sorted(t.fired[|s.fired|..])
            && (forall n :: n in t.fired[|s.fired|..] ==> n.expire <= now && n !in s.fired)
            && (forall n :: n in s.q && n.expire <= now ==> n in t.fired || n.id in t.deleted)
            && (now <= s.tick && Prompt(s) ==> Prompt(t) && forall n :: n in t.q ==> n.expire > now)
  {
    var news := HandledExactlyOnce(s, now);
    assert Handled(s, now).fired[|s.fired|..] == news;
    if now <= s.tick && Prompt(s) {
      HandlePrompt(s, now);
    }
  }

  // ---------- the class ----------

  // A node that expires no later than the last one is placed by search, any other is
  // appended; both are insertion in order.
  method Placed(q: seq<Node>, n: Node) returns (r: seq<Node>)
    requires Sorted(q)
    ensures r == Insert(q, n)
  {
    if q == [] || n.expire <= q[|q| - 1].expire {
      r := Insert(q, n);
    } else {
      BehindAll(q, n);
      InsertAtEnd(q, n);
      r := q + [n];
    }
  }

  lemma {:induction false} LookupAt(q: seq<Node>, i: nat, expire: int, id: int)
    requires i <= |q| && forall j :: 0 <= j < i ==> !(q[j].expire == expire && q[j].id == id)
    requires i < |q| ==> q[i].expire == expire && q[i].id == id
    ensures if i == |q| then Lookup(q, expire, id) == None
            else Lookup(q, expire, id) == Some(q[i]) && Erase(q, q[i]) == q[..i] + q[i + 1..]
    decreases i
  {
    if i > 0 {
      LookupAt(q[1..], i - 1, expire, id);
      if i < |q| {
        assert q[..i] + q[i + 1..] == [q[0]] + (q[1..][..i - 1] + q[1..][i..]);
      }
    } else if q != [] {
      assert q[..0] + q[1..] == q[1..];
    }
  }

  class Timer {
    var timeouts: seq<Node>
    var tid: int
    var tick: int
    ghost var fired: seq<Node>
    ghost var deleted: set<int>

    ghost function View(): Table
      reads this
    {
      Table(timeouts, tid, tick, fired, deleted)
    }

    constructor (tick: int)
      ensures View() == Begin(tick) && Sound(View()) && Prompt(View())
    {
      timeouts, tid, this.tick, fired, deleted := [], 0, tick, [], {};
    }

    method Wait(d: nat)
      modifies this`tick
      ensures View() == old(View()).(tick := old(tick) + d)
      ensures (old(Sound(View())) ==> Sound(View())) && (old(Prompt(View())) ==> Prompt(View()))
    {
      tick := tick + d;
    }

    method AddTimer(msec: nat, func: seq<Op>) returns (n: Node)
      requires Sound(View())
      modifies this`timeouts, this`tid
      ensures View() == AddTo(old(View()), msec, func) && Sound(View()) && (old(Prompt(View())) ==> Prompt(View()))
      ensures n == Node(tick + msec, old(tid), func) && tid == old(tid) + 1
      ensures forall m :: m in timeouts <==> m in old(timeouts) || m == n
    {
      n := Node(tick + msec, tid, func);
      AddSound(View(), msec, func);
      if Prompt(View()) {
        AddPrompt(View(), msec, func);
      }
      InsertAdds(timeouts, n);
      timeouts := Placed(timeouts, n);
      tid := tid + 1;
    }

    // Removes the timer with this expiry and id and says whether there was one.
    method DelTimer(expire: int, id: int) returns (found: bool)
      requires Sound(View())
      modifies this`timeouts, this`deleted
      ensures View() == DelFrom(old(View()), expire, id) && Sound(View()) && (old(Prompt(View())) ==> Prompt(View()))
      ensures found <==> exists n :: n in old(timeouts) && n.expire == expire && n.id == id
      ensures deleted == old(deleted) + if found then {id} else {}
      ensures forall m :: m in timeouts <==> m in old(timeouts) && !(m.expire == expire && m.id == id)
    {
      var i := 0;
      while i < |timeouts| && !(timeouts[i].expire == expire && timeouts[i].id == id)
        invariant 0 <= i <= |timeouts|
        invariant forall j :: 0 <= j < i ==> !(timeouts[j].expire == expire && timeouts[j].id == id)
      {
        i := i + 1;
      }
      LookupAt(timeouts, i, expire, id);
      DelKeeps(View(), expire, id);
      DelMeans(View(), expire, id);
      found := i < |timeouts|;
      if found {
        timeouts := timeouts[..i] + timeouts[i + 1..];
        deleted := deleted + {id};
      }
    }

    // One operation of a callback.
    method RunOp(current: Node, op: Op)
      requires Sound(View()) && current in timeouts
      modifies this
      ensures View() == OneOp(old(View()), current, op)
    {
      match op
      case Add(msec, f) =>
        var _ := AddTimer(msec, f);
      case Del(expire, id) =>
        if !(expire == current.expire && id == current.id) {
          var _ := DelTimer(expire, id);
        }
      case Pass(d) =>
        Wait(d);
    }

    method RunCallback(current: Node, func: seq<Op>)
      requires Sound(View()) && current in timeouts
      modifies this
      ensures View() == RunOps(old(View()), current, func)
      decreases |func|
    {
      if func != [] {
        OneOpSound(View(), current, func[0]);
        OneOpMoves(View(), current, func[0]);
        RunOp(current, func[0]);
        RunCallback(current, func[1..]);
      }
    }

    // erase: the node leaves the set, and the iterator goes on to the one after it.
    method EraseNode(n: Node) returns (next: Option<Node>)
      requires n in timeouts
      modifies this`timeouts, this`fired
      ensures View() == old(View()).(q := Erase(old(timeouts), n), fired := old(fired) + [n])
      ensures next == After(timeouts, n)
    {
      timeouts := Erase(timeouts, n);
      fired := fired + [n];
      next := After(timeouts, n);
    }

    // Runs the timers due at `now` in order, including those its callbacks add behind the
    // one running.
    method HandleTimer(now: int)
      requires Sound(View())
      modifies this
      ensures View() == Handled(old(View()), now) && Sound(View())
      ensures old(fired) <= fired && Sorted(fired[|old(fired)|..])
      ensures forall n :: n in fired[|old(fired)|..] ==> n.expire <= now && n !in old(fired)
      ensures forall n :: n in old(timeouts) && n.expire <= now ==> n in fired || n.id in deleted
      ensures now <= old(tick) && old(Prompt(View())) ==> Prompt(View()) && forall n :: n in timeouts ==> n.expire > now
    {
      HandledPromises(View(), now);
      var it := Front(timeouts);
      while it.Some? && it.value.expire <= now
        invariant Sound(View()) && (it.Some? ==> it.value in timeouts)
        invariant HandleFrom(View(), it, now) == Handled(old(View()), now)
        decreases Weight(timeouts)
      {
        TurnIs(View(), it.value);
        OpsMove(View(), it.value, it.value.func);
        RunCallback(it.value, it.value.func);
        it := EraseNode(it.value);
      }
    }

    // How long until the next timer: -1 without timers, never negative otherwise.
    method TimeToSleep() returns (t: int)
      requires Sound(View())
      ensures timeouts == [] ==> t == -1
      ensures timeouts != [] ==> t >= 0
      ensures forall n :: n in timeouts ==> n.expire >= tick + t || t == 0
      ensures t > 0 ==> exists n :: n in timeouts && n.expire == tick + t
      ensures t == 0 ==> exists n :: n in timeouts && n.expire <= tick
    {
      if timeouts == [] {
        return -1;
      }
      t := timeouts[0].expire - tick;
      t := if t > 0 then t else 0;
    }
  }
}
