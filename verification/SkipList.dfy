/**
  The skip list: one writer, nodes never removed.  A node is an index into the
  node memory, node 0 is head_.  `linked[n]` counts the levels at which node n has
  been published so far, which during an Insert lags behind its height.
 */
module SkipList {
  import opened Options

  type Link = Option<nat>

  datatype Mem = Mem(keys: seq<int>, next: seq<seq<Link>>, linked: seq<nat>, maxHeight: nat)

  const HEAD: nat := 0

  // ---------- what a well-formed memory is ----------

  // Node n is on the list of level l; head_ is on every level it has a link for.
  predicate On(m: Mem, n: int, l: int) {
    0 <= n < |m.keys| == |m.linked| && 0 <= l < m.linked[n]
  }

  // A proper entry, visible in the bottom list.
  predicate Entry(m: Mem, n: int) {
    n != HEAD && On(m, n, 0)
  }

  // a comes strictly before b: head_ before every entry, entries by key.
  predicate Before(m: Mem, a: int, b: int)
    requires 0 <= a < |m.keys| && 0 <= b < |m.keys|
  {
    b != HEAD && (a == HEAD || m.keys[a] < m.keys[b])
  }

  predicate Shape(m: Mem) {
    && |m.keys| == |m.next| == |m.linked| > 0
    && (forall n :: 0 <= n < |m.linked| ==> m.linked[n] <= |m.next[n]|)
    && m.linked[HEAD] == |m.next[HEAD]|
    && 0 < m.maxHeight <= m.linked[HEAD]
    && (forall n :: 0 < n < |m.linked| ==> m.linked[n] <= m.maxHeight)
  }

  // The link of n at level l leads to the nearest later node of that level.
  ghost predicate LinkOk(m: Mem, n: nat, l: nat)
    requires Shape(m) && On(m, n, l)
  {
    match m.next[n][l]
    case None => forall k :: On(m, k, l) ==> !Before(m, n, k)
    case Some(s) =>
      && On(m, s, l) && Before(m, n, s)
      && forall k :: On(m, k, l) ==> !(Before(m, n, k) && Before(m, k, s))
  }

  ghost predicate Valid(m: Mem) {
    && Shape(m)
    && (forall a, b :: Entry(m, a) && Entry(m, b) && m.keys[a] == m.keys[b] ==> a == b)
    && (forall n, l: nat :: On(m, n, l) ==> LinkOk(m, n, l))
  }

  // The keys the list represents.
  ghost function Contents(m: Mem): set<int> {
    set n | 0 <= n < |m.keys| && Entry(m, n) :: m.keys[n]
  }

  function Empty(height: nat): Mem {
    Mem([0], [seq(height, _ => None)], [height], 1)
  }

  // From one memory to a later one: nodes and levels are only added.
  predicate Grows(m: Mem, t: Mem) {
    && |m.keys| == |m.linked| && |t.keys| == |t.linked|
    && m.keys <= t.keys
    && forall n :: 0 <= n < |m.linked| ==> m.linked[n] <= t.linked[n]
  }

  // ---------- searching ----------

  // r is the first entry with a key at or after the target, or there is none.
  ghost predicate First(m: Mem, target: int, r: Link) {
    match r
    case None => forall k :: Entry(m, k) ==> m.keys[k] < target
    case Some(n) =>
      && Entry(m, n) && target <= m.keys[n]
      && forall k :: Entry(m, k) && target <= m.keys[k] ==> m.keys[n] <= m.keys[k]
  }

  // The search of one reader; `result` is set once it has returned.
  datatype Search = Search(target: int, x: nat, level: int, lastBigger: Link, done: bool, result: Link)

  function BeginSearch(m: Mem, target: int): Search {
    Search(target, HEAD, m.maxHeight - 1, None, false, None)
  }

  // One turn of the loop of FindGreaterOrEqual: one load of a link.
  function SearchStep(m: Mem, s: Search): Search
    requires Shape(m) && On(m, s.x, s.level)
    requires m.next[s.x][s.level].Some? ==> m.next[s.x][s.level].value < |m.keys|
  {
    var next := m.next[s.x][s.level];
    if next.None? || next == s.lastBigger || m.keys[next.value] > s.target then
      if s.level == 0 then s.(done := true, result := next)
      else s.(lastBigger := next, level := s.level - 1)
    else if m.keys[next.value] == s.target then s.(done := true, result := next)
    else s.(x := next.value)
  }

  // The reader stands on a node before the target that is on its level.
  predicate SearchOk(m: Mem, s: Search) {
    && On(m, s.x, s.level)
    && (s.x == HEAD || m.keys[s.x] < s.target)
    && (s.lastBigger.Some? ==> Entry(m, s.lastBigger.value) && m.keys[s.lastBigger.value] > s.target)
  }

  lemma BeginSearchOk(m: Mem, target: int)
    requires Valid(m)
    ensures SearchOk(m, BeginSearch(m, target))
  {
  }

  // What the writer adds never disturbs a reader under way.
  lemma SearchStable(m: Mem, t: Mem, s: Search)
    requires Grows(m, t) && SearchOk(m, s)
    ensures SearchOk(t, s)
  {
  }

  // A step keeps the reader's invariant, and a return is right at the very instant
  // of its last load.
  lemma SearchStepOk(m: Mem, s: Search)
    requires Valid(m) && SearchOk(m, s) && !s.done
    ensures m.next[s.x][s.level].Some? ==> m.next[s.x][s.level].value < |m.keys|
    ensures var t := SearchStep(m, s);
            if t.done then First(m, t.target, t.result) else SearchOk(m, t)
  {
    assert LinkOk(m, s.x, s.level);
    var t := SearchStep(m, s);
    if t.done && s.level == 0 {
      forall k | Entry(m, k)
        ensures t.result.None? ==> m.keys[k] < s.target
        ensures t.result.Some? && s.target <= m.keys[k] ==> m.keys[t.result.value] <= m.keys[k]
      {
        assert On(m, k, 0);
        assert Before(m, s.x, k) || m.keys[k] < s.target;
      }
    }
  }

  // ---------- the writer's stores ----------

  // p is the last node before `key` on level l: what FindLessThan stores in prev[l].
  predicate IsPred(m: Mem, p: nat, key: int, l: nat)
    requires Shape(m)
  {
    && On(m, p, l)
    && (p == HEAD || m.keys[p] < key)
    && (m.next[p][l].Some? ==> m.next[p][l].value < |m.keys| && key <= m.keys[m.next[p][l].value])
  }

  // There is only one such node, so every way of finding it agrees.
  lemma PredUnique(m: Mem, p: nat, q: nat, key: int, l: nat)
    requires Valid(m) && IsPred(m, p, key, l) && IsPred(m, q, key, l)
    ensures p == q
  {
    assert LinkOk(m, p, l) && LinkOk(m, q, l);
    if p != q {
      assert Before(m, p, q) || Before(m, q, p) by {
        if p != HEAD && q != HEAD {
          assert Entry(m, p) && Entry(m, q);
        }
      }
    }
  }

  // Nothing sits between a predecessor and the key on its level.
  lemma NothingBetween(m: Mem, p: nat, key: int, l: nat, k: nat)
    requires Valid(m) && IsPred(m, p, key, l) && On(m, k, l) && k != HEAD && m.keys[k] < key
    ensures k == p || Before(m, k, p)
  {
    assert LinkOk(m, p, l);
    if p != HEAD && m.keys[k] == m.keys[p] {
      assert Entry(m, k) && Entry(m, p);
    }
  }

  function Raise(m: Mem, height: nat): Mem {
    if height > m.maxHeight then m.(maxHeight := height) else m
  }

  // A fresh node whose links hold whatever the allocator left there.
  function Alloc(m: Mem, key: int, garbage: seq<Link>): Mem {
    Mem(m.keys + [key], m.next + [garbage], m.linked + [0], m.maxHeight)
  }

  // x->NoBarrier_SetNext(l, p->NoBarrier_Next(l))
  function Prepare(m: Mem, x: nat, l: nat, p: nat): Mem
    requires x < |m.next| && p < |m.next| && l < |m.next[x]| && l < |m.next[p]|
  {
    m.(next := m.next[x := m.next[x][l := m.next[p][l]]])
  }

  // p->SetNext(l, x)
  function Publish(m: Mem, x: nat, l: nat, p: nat): Mem
    requires x < |m.linked| && p < |m.next| && l < |m.next[p]|
  {
    m.(next := m.next[p := m.next[p][l := Some(x)]], linked := m.linked[x := l + 1])
  }

  lemma RaiseValid(m: Mem, height: nat)
    requires Valid(m) && height <= |m.next[HEAD]|
    ensures Valid(Raise(m, height)) && Grows(m, Raise(m, height))
  {
    var t := Raise(m, height);
    forall n, l: nat | On(t, n, l) ensures LinkOk(t, n, l) { assert On(m, n, l) && LinkOk(m, n, l); Same(m, t, n, l); }
  }

  // Two memories with the same nodes on level l and the same link of n there.
  lemma Same(m: Mem, t: Mem, n: nat, l: nat)
    requires Shape(m) && Shape(t) && m.keys <= t.keys && On(m, n, l) && On(t, n, l) && LinkOk(m, n, l)
    requires forall k :: On(t, k, l) <==> On(m, k, l)
    requires t.next[n][l] == m.next[n][l]
    ensures LinkOk(t, n, l)
  {
  }

  lemma AllocValid(m: Mem, key: int, garbage: seq<Link>)
    requires Valid(m)
    ensures Valid(Alloc(m, key, garbage)) && Grows(m, Alloc(m, key, garbage))
  {
    var t := Alloc(m, key, garbage);
    forall n, l: nat | On(t, n, l) ensures LinkOk(t, n, l) { assert On(m, n, l) && LinkOk(m, n, l); Same(m, t, n, l); }
    forall a, b | Entry(t, a) && Entry(t, b) && t.keys[a] == t.keys[b] ensures a == b {
      assert Entry(m, a) && Entry(m, b);
    }
  }

  lemma PrepareValid(m: Mem, x: nat, l: nat, p: nat)
    requires Valid(m) && x < |m.next| && p < |m.next| && m.linked[x] <= l < |m.next[x]| && l < |m.next[p]|
    ensures Valid(Prepare(m, x, l, p)) && Grows(m, Prepare(m, x, l, p))
  {
    var t := Prepare(m, x, l, p);
    forall n, k: nat | On(t, n, k) ensures LinkOk(t, n, k) { assert On(m, n, k) && LinkOk(m, n, k); Same(m, t, n, k); }
    forall a, b | Entry(t, a) && Entry(t, b) && t.keys[a] == t.keys[b] ensures a == b {
      assert Entry(m, a) && Entry(m, b);
    }
  }

  // What a publication of x at level l behind p needs.
  ghost predicate CanPublish(m: Mem, x: nat, l: nat, p: nat) {
    && Valid(m)
    && 0 < x < |m.keys| && m.linked[x] == l < |m.next[x]| && l < m.maxHeight
    && IsPred(m, p, m.keys[x], l)
    && m.next[x][l] == m.next[p][l]
    && (forall k :: Entry(m, k) && k != x ==> m.keys[k] != m.keys[x])
  }

  lemma PublishLinkPred(m: Mem, x: nat, l: nat, p: nat)
    requires CanPublish(m, x, l, p) && Shape(Publish(m, x, l, p))
    ensures LinkOk(Publish(m, x, l, p), p, l)
  {
    var t := Publish(m, x, l, p);
    forall k | On(t, k, l)
      ensures !(Before(t, p, k) && Before(t, k, x))
    {
      if k != x && k != HEAD && m.keys[k] < m.keys[x] {
        assert On(m, k, l);
        NothingBetween(m, p, m.keys[x], l, k);
      }
    }
  }

  lemma PublishLinkNew(m: Mem, x: nat, l: nat, p: nat)
    requires CanPublish(m, x, l, p) && Shape(Publish(m, x, l, p))
    ensures LinkOk(Publish(m, x, l, p), x, l)
  {
    var t := Publish(m, x, l, p);
    assert LinkOk(m, p, l);
    var next := m.next[p][l];
    assert t.next[x][l] == next;
    if next.Some? {
      assert On(m, next.value, l) && Entry(m, next.value);
    }
    forall k | On(t, k, l)
      ensures next.None? ==> !Before(t, x, k)
      ensures next.Some? ==> !(Before(t, x, k) && Before(t, k, next.value))
    {
      if k != x {
        assert On(m, k, l);
        assert Before(t, x, k) ==> Before(m, p, k);
      }
    }
  }

  lemma PublishLinkOther(m: Mem, x: nat, l: nat, p: nat, n: nat)
    requires CanPublish(m, x, l, p) && Shape(Publish(m, x, l, p)) && On(m, n, l) && n != x && n != p
    ensures LinkOk(Publish(m, x, l, p), n, l)
  {
    var t := Publish(m, x, l, p);
    assert LinkOk(m, n, l);
    var next := m.next[n][l];
    assert t.next[n][l] == next;
    // x is not behind n before the next node: that would put n behind p
    if Before(t, n, x) {
      if n == HEAD {
        assert Before(m, n, p);
      } else {
        NothingBetween(m, p, m.keys[x], l, n);
      }
      assert Before(m, n, p);
      assert next.Some? && !Before(m, p, next.value);
      assert !Before(t, x, next.value);
    }
    forall k | On(t, k, l)
      ensures next.None? ==> !Before(t, n, k)
      ensures next.Some? ==> !(Before(t, n, k) && Before(t, k, next.value))
    {
      assert k == x || On(m, k, l);
    }
  }

  lemma PublishLinks(m: Mem, x: nat, l: nat, p: nat, n: nat, k: nat)
    requires CanPublish(m, x, l, p) && Shape(Publish(m, x, l, p)) && On(Publish(m, x, l, p), n, k)
    ensures LinkOk(Publish(m, x, l, p), n, k)
  {
    var t := Publish(m, x, l, p);
    if k == l {
      if n == x {
        PublishLinkNew(m, x, l, p);
      } else if n == p {
        PublishLinkPred(m, x, l, p);
      } else {
        PublishLinkOther(m, x, l, p, n);
      }
    } else {
      assert On(m, n, k) && LinkOk(m, n, k);
      assert forall i :: On(t, i, k) <==> On(m, i, k);
      Same(m, t, n, k);
    }
  }

  lemma PublishEntries(m: Mem, x: nat, l: nat, p: nat)
    requires CanPublish(m, x, l, p)
    ensures forall n :: Entry(Publish(m, x, l, p), n) <==> Entry(m, n) || n == x
  {
  }

  lemma PublishContents(m: Mem, x: nat, l: nat, p: nat)
    requires CanPublish(m, x, l, p)
    ensures Contents(Publish(m, x, l, p)) == Contents(m) + {m.keys[x]}
  {
    PublishEntries(m, x, l, p);
    assert Entry(Publish(m, x, l, p), x);
  }

  lemma PublishValid(m: Mem, x: nat, l: nat, p: nat)
    requires CanPublish(m, x, l, p)
    ensures Valid(Publish(m, x, l, p)) && Grows(m, Publish(m, x, l, p))
    ensures Contents(Publish(m, x, l, p)) == Contents(m) + {m.keys[x]}
  {
    var t := Publish(m, x, l, p);
    forall n, k: nat | On(t, n, k) ensures LinkOk(t, n, k) { PublishLinks(m, x, l, p, n, k); }
    PublishEntries(m, x, l, p);
    PublishContents(m, x, l, p);
  }

  // ---------- the stores of an Insert, and readers between them ----------

  datatype Store =
    | RaiseTo(height: nat)
    | NewNode(key: int, garbage: seq<Link>)
    | SetOwn(x: nat, l: nat, p: nat)
    | SetPrev(x: nat, l: nat, p: nat)

  // The stores the writer may do: each keeps every list whole for the readers.
  ghost predicate Safe(m: Mem, w: Store) {
    && Valid(m)
    && match w
       case RaiseTo(height) => height <= |m.next[HEAD]|
       case NewNode(key, garbage) => true
       case SetOwn(x, l, p) =>
         x < |m.next| && p < |m.next| && m.linked[x] <= l < |m.next[x]| && l < |m.next[p]|
       case SetPrev(x, l, p) => CanPublish(m, x, l, p)
  }

  ghost function Apply(m: Mem, w: Store): Mem
    requires Safe(m, w)
  {
    match w
    case RaiseTo(height) => Raise(m, height)
    case NewNode(key, garbage) => Alloc(m, key, garbage)
    case SetOwn(x, l, p) => Prepare(m, x, l, p)
    case SetPrev(x, l, p) => Publish(m, x, l, p)
  }

  lemma ApplyValid(m: Mem, w: Store)
    requires Safe(m, w)
    ensures Valid(Apply(m, w)) && Grows(m, Apply(m, w))
  {
    match w
    case RaiseTo(height) => RaiseValid(m, height);
    case NewNode(key, garbage) => AllocValid(m, key, garbage);
    case SetOwn(x, l, p) => PrepareValid(m, x, l, p);
    case SetPrev(x, l, p) => PublishValid(m, x, l, p);
  }

  // The stores lead from m to t, each of them safe.
  ghost predicate Writes(m: Mem, stores: seq<Store>, t: Mem)
    decreases |stores|
  {
    if stores == [] then m == t
    else
      var n := |stores| - 1;
      exists u :: Writes(m, stores[..n], u) && Leads(u, stores[n], t)
  }

  // The store is safe in u and makes it t.
  ghost predicate Leads(u: Mem, w: Store, t: Mem) {
    Safe(u, w) && Apply(u, w) == t
  }

  lemma WritesMore(m: Mem, stores: seq<Store>, u: Mem, w: Store)
    requires Writes(m, stores, u) && Safe(u, w)
    ensures Writes(m, stores + [w], Apply(u, w))
  {
    assert (stores + [w])[..|stores|] == stores;
    assert Leads(u, w, Apply(u, w));
  }

  // One search of a reader: where it is, and the memory when it began.
  datatype Reader = Waiting | Searching(search: Search, since: Mem)

  datatype State = State(mem: Mem, readers: seq<Reader>)

  datatype Action = Write(w: Store) | Begin(r: nat, target: int) | Load(r: nat)

  ghost predicate Enabled(s: State, a: Action) {
    match a
    case Write(w) => Safe(s.mem, w)
    case Begin(r, _) => r < |s.readers|
    case Load(r) =>
      && r < |s.readers| && s.readers[r].Searching? && !s.readers[r].search.done
      && CanStep(s.mem, s.readers[r].search)
  }

  // The loop body dereferences only nodes that exist.
  predicate CanStep(m: Mem, s: Search) {
    && Shape(m) && On(m, s.x, s.level)
    && (m.next[s.x][s.level].Some? ==> m.next[s.x][s.level].value < |m.keys|)
  }

  ghost function Step(s: State, a: Action): State
    requires Enabled(s, a)
  {
    match a
    case Write(w) => s.(mem := Apply(s.mem, w))
    case Begin(r, target) => s.(readers := s.readers[r := Searching(BeginSearch(s.mem, target), s.mem)])
    case Load(r) =>
      var q := s.readers[r];
      s.(readers := s.readers[r := q.(search := SearchStep(s.mem, q.search))])
  }

  ghost function Run(s: State, acts: seq<Action>): Option<State>
    decreases |acts|
  {
    if acts == [] then Some(s)
    else if Enabled(s, acts[0]) then Run(Step(s, acts[0]), acts[1..])
    else None
  }

  function Init(height: nat, readers: nat): State {
    State(Empty(height), seq(readers, _ => Waiting))
  }

  // A state of some run from an empty list, with any number of readers.
  ghost predicate Reachable(s: State) {
    exists height, readers, acts :: height > 0 && Run(Init(height, readers), acts) == Some(s)
  }

  ghost predicate ReaderOk(m: Mem, q: Reader) {
    q.Searching? ==> Valid(q.since) && Grows(q.since, m) && (!q.search.done ==> SearchOk(m, q.search))
  }

  ghost predicate Inv(s: State) {
    && Valid(s.mem)
    && forall r :: 0 <= r < |s.readers| ==> ReaderOk(s.mem, s.readers[r])
  }

  lemma StepInv(s: State, a: Action)
    requires Inv(s) && Enabled(s, a)
    ensures Inv(Step(s, a))
  {
    var t := Step(s, a);
    match a
    case Write(w) =>
      ApplyValid(s.mem, w);
      forall r | 0 <= r < |t.readers|
        ensures ReaderOk(t.mem, t.readers[r])
      {
        assert ReaderOk(s.mem, s.readers[r]);
        if s.readers[r].Searching? && !s.readers[r].search.done {
          SearchStable(s.mem, t.mem, s.readers[r].search);
        }
      }
    case Begin(r, target) =>
      BeginSearchOk(s.mem, target);
    case Load(r) =>
      assert ReaderOk(s.mem, s.readers[r]);
      SearchStepOk(s.mem, s.readers[r].search);
  }

  lemma {:induction false} RunInv(s: State, acts: seq<Action>)
    requires Inv(s) && Run(s, acts).Some?
    ensures Inv(Run(s, acts).value)
    decreases |acts|
  {
    if acts != [] {
      StepInv(s, acts[0]);
      RunInv(Step(s, acts[0]), acts[1..]);
    }
  }

  lemma EmptyValid(height: nat)
    requires height > 0
    ensures Valid(Empty(height)) && Contents(Empty(height)) == {}
  {
  }

  lemma ReachableInv(s: State)
    requires Reachable(s)
    ensures Inv(s)
  {
    var height, readers, acts :| height > 0 && Run(Init(height, readers), acts) == Some(s);
    EmptyValid(height);
    RunInv(Init(height, readers), acts);
  }

  // A reader under way can always take its next step: it never follows an
  // unpublished or missing link, whatever the writer has stored in between.
  lemma ReaderNeverStuck(s: State, r: nat)
    requires Reachable(s) && r < |s.readers| && s.readers[r].Searching? && !s.readers[r].search.done
    ensures Enabled(s, Load(r))
  {
    ReachableInv(s);
    assert ReaderOk(s.mem, s.readers[r]);
    SearchStepOk(s.mem, s.readers[r].search);
  }

  // Main theorem.  Whatever stores of Insert fall between its loads, a search returns
  // exactly the first entry at or after the target in the list as it is at its last
  // load; and it misses no entry that was there when it began.
  lemma SearchIsLinearizable(s: State, r: nat)
    requires Reachable(s) && Enabled(s, Load(r)) && Step(s, Load(r)).readers[r].search.done
    ensures var q, result := s.readers[r], Step(s, Load(r)).readers[r].search.result;
            && First(s.mem, q.search.target, result)
            && (forall n :: Entry(q.since, n) && q.search.target <= q.since.keys[n] ==>
                  result.Some? && s.mem.keys[result.value] <= q.since.keys[n])
  {
    ReachableInv(s);
    var q := s.readers[r];
    assert ReaderOk(s.mem, q);
    SearchStepOk(s.mem, q.search);
    forall n | Entry(q.since, n)
      ensures Entry(s.mem, n) && s.mem.keys[n] == q.since.keys[n]
    {
    }
  }

  // ---------- the list object ----------

  // The nodes a search standing on x may still visit.
  ghost function Ahead(m: Mem, x: nat): set<int>
    requires x < |m.keys|
  {
    set k | 0 <= k < |m.keys| && Before(m, x, k)
  }

  ghost function Behind(m: Mem, x: nat): set<int>
    requires x < |m.keys|
  {
    set k | 0 <= k < |m.keys| && k != HEAD && Before(m, k, x)
  }

  // Moving along a link leaves strictly fewer nodes ahead.
  lemma AheadShrinks(m: Mem, x: nat, y: nat)
    requires x < |m.keys| && y < |m.keys| && Before(m, x, y)
    ensures Ahead(m, y) < Ahead(m, x)
  {
    assert y in Ahead(m, x) && y !in Ahead(m, y);
  }

  // The cached splice between calls: prev[0] is the entry inserted last with its
  // height, and above that height prev[l] is its predecessor; before the first
  // insertion everything is head_.
  ghost predicate SpliceOk(m: Mem, prev: seq<nat>, prevHeight: nat)
    requires Shape(m)
  {
    && |prev| == |m.next[HEAD]|
    && prev[0] < |m.keys|
    && prevHeight <= |prev|
    && if prev[0] == HEAD
       then prevHeight == 1 && m.maxHeight == 1
       else && m.linked[prev[0]] == prevHeight > 0
            && forall l :: prevHeight <= l < m.maxHeight ==> IsPred(m, prev[l], m.keys[prev[0]], l)
  }

  // The fast path applies: the key belongs right behind prev[0].
  predicate FollowsLast(m: Mem, prev: seq<nat>, key: int)
    requires Shape(m) && |prev| == |m.next[HEAD]| && prev[0] < |m.keys| && On(m, prev[0], 0)
    requires m.next[prev[0]][0].Some? ==> m.next[prev[0]][0].value < |m.keys|
  {
    && !(m.next[prev[0]][0].Some? && m.keys[m.next[prev[0]][0].value] < key)
    && (prev[0] == HEAD || m.keys[prev[0]] < key)
  }

  // The splice after the fast path's loop.
  function Spread(prev: seq<nat>, prevHeight: nat): (r: seq<nat>)
    requires |prev| > 0
    ensures |r| == |prev|
  {
    seq(|prev|, l requires 0 <= l < |prev| => if 0 < l < prevHeight then prev[0] else prev[l])
  }

  // Above the height of the last entry its predecessor is the key's too: nothing but that
  // entry could come between, and it is not on the level.
  lemma PredAbove(m: Mem, first: nat, p: nat, key: int, l: nat)
    requires Valid(m) && Entry(m, first) && m.keys[first] < key && m.linked[first] <= l
    requires m.next[first][0].Some? ==> m.next[first][0].value < |m.keys| && m.keys[m.next[first][0].value] >= key
    requires IsPred(m, p, m.keys[first], l)
    ensures IsPred(m, p, key, l)
  {
    assert LinkOk(m, first, 0);
    var next := m.next[p][l];
    if next.Some? {
      assert LinkOk(m, p, l);
      assert Entry(m, next.value) && next.value != first;
      assert Before(m, first, next.value);
    }
  }

  // On its own levels the last entry is the key's predecessor.
  lemma PredBelow(m: Mem, first: nat, key: int, l: nat)
    requires Valid(m) && Entry(m, first) && m.keys[first] < key && On(m, first, l)
    requires m.next[first][0].Some? ==> m.next[first][0].value < |m.keys| && m.keys[m.next[first][0].value] >= key
    ensures IsPred(m, first, key, l)
  {
    assert LinkOk(m, first, 0);
    assert LinkOk(m, first, l);
    var next := m.next[first][l];
    if next.Some? {
      assert Entry(m, next.value);
    }
  }

  // The fast path's vector is exactly the one FindLessThan would fill in.
  lemma FastPathIsPred(m: Mem, prev: seq<nat>, prevHeight: nat, key: int, l: nat)
    requires Valid(m) && SpliceOk(m, prev, prevHeight) && On(m, prev[0], 0)
    requires m.next[prev[0]][0].Some? ==> m.next[prev[0]][0].value < |m.keys|
    requires FollowsLast(m, prev, key) && l < m.maxHeight
    ensures IsPred(m, Spread(prev, prevHeight)[l], key, l)
  {
    if prev[0] == HEAD {
      assert l == 0 && On(m, HEAD, 0);
    } else if l < prevHeight {
      PredBelow(m, prev[0], key, l);
    } else {
      PredAbove(m, prev[0], prev[l], key, l);
    }
  }

  // Hence the cached splice and a full search never disagree.
  lemma FastPathAgrees(m: Mem, prev: seq<nat>, prevHeight: nat, key: int, searched: seq<nat>)
    requires Valid(m) && SpliceOk(m, prev, prevHeight) && On(m, prev[0], 0)
    requires m.next[prev[0]][0].Some? ==> m.next[prev[0]][0].value < |m.keys|
    requires FollowsLast(m, prev, key)
    requires |searched| == |prev| && forall l :: 0 <= l < m.maxHeight ==> IsPred(m, searched[l], key, l)
    ensures Spread(prev, prevHeight)[..m.maxHeight] == searched[..m.maxHeight]
  {
    forall l | 0 <= l < m.maxHeight
      ensures Spread(prev, prevHeight)[l] == searched[l]
    {
      FastPathIsPred(m, prev, prevHeight, key, l);
      PredUnique(m, Spread(prev, prevHeight)[l], searched[l], key, l);
    }
  }

  // The nodes met from n on along the links of level l.
  ghost function Level(m: Mem, l: nat, n: nat): seq<nat>
    requires Valid(m) && On(m, n, l)
    decreases Ahead(m, n)
  {
    assert LinkOk(m, n, l);
    match m.next[n][l]
    case None => []
    case Some(s) =>
      AheadShrinks(m, n, s);
      [s] + Level(m, l, s)
  }

  ghost predicate Sorted(m: Mem, q: seq<nat>) {
    && (forall i :: 0 <= i < |q| ==> q[i] < |m.keys|)
    && (forall i, j :: 0 <= i < j < |q| ==> m.keys[q[i]] < m.keys[q[j]])
  }

  lemma SortedBehind(m: Mem, s: nat, rest: seq<nat>)
    requires s < |m.keys| && Sorted(m, rest) && forall k :: k in rest ==> k < |m.keys| && m.keys[s] < m.keys[k]
    ensures Sorted(m, [s] + rest)
  {
    assert forall j :: 0 <= j < |rest| ==> rest[j] in rest;
  }

  // A level is strictly sorted and holds exactly the nodes published on it.
  lemma {:induction false} LevelSorted(m: Mem, l: nat, n: nat)
    requires Valid(m) && On(m, n, l)
    ensures forall k :: k in Level(m, l, n) <==> On(m, k, l) && Before(m, n, k)
    ensures Sorted(m, Level(m, l, n))
    decreases Ahead(m, n)
  {
    assert LinkOk(m, n, l);
    if m.next[n][l].Some? {
      var s := m.next[n][l].value;
      AheadShrinks(m, n, s);
      LevelSorted(m, l, s);
      assert Entry(m, s);
      forall k | On(m, k, l) && Before(m, n, k)
        ensures k == s || Before(m, s, k)
      {
        assert Entry(m, k);
      }
      SortedBehind(m, s, Level(m, l, s));
    }
  }

  // Each level is a strictly sorted sublist of the level below it.
  lemma LevelsNest(m: Mem, l: nat)
    requires Valid(m) && l + 1 < |m.next[HEAD]|
    ensures var low, high := Level(m, l, HEAD), Level(m, l + 1, HEAD);
            && Sorted(m, low) && Sorted(m, high)
            && (forall k :: k in high ==> k in low)
            && (forall k :: k in Level(m, 0, HEAD) <==> Entry(m, k))
  {
    LevelSorted(m, l, HEAD);
    LevelSorted(m, l + 1, HEAD);
    LevelSorted(m, 0, HEAD);
    assert forall k :: On(m, k, l + 1) ==> On(m, k, l);
  }

  // Inside Insert: x is published on the levels below i, and prev leads to the place of
  // its key on all others.
  ghost predicate Linking(m: Mem, prev: seq<nat>, x: nat, key: int, height: nat, i: nat) {
    && Valid(m)
    && height <= m.maxHeight <= |m.next[HEAD]| == |prev|
    && 0 < x < |m.keys| && m.linked[x] == i && |m.next[x]| == height && m.keys[x] == key
    && (forall k :: Entry(m, k) && k != x ==> m.keys[k] != key)
    && (forall l :: i <= l < m.maxHeight ==> IsPred(m, prev[l], key, l))
  }

  lemma AllocLinking(m: Mem, prev: seq<nat>, key: int, garbage: seq<Link>)
    requires Valid(m) && |garbage| <= m.maxHeight <= |m.next[HEAD]| == |prev|
    requires key !in Contents(m)
    requires forall l :: 0 <= l < m.maxHeight ==> IsPred(m, prev[l], key, l)
    ensures Linking(Alloc(m, key, garbage), prev, |m.keys|, key, |garbage|, 0)
    ensures Contents(Alloc(m, key, garbage)) == Contents(m)
  {
    var t := Alloc(m, key, garbage);
    AllocValid(m, key, garbage);
    assert forall n :: Entry(t, n) <==> Entry(m, n);
    forall l | 0 <= l < t.maxHeight ensures IsPred(t, prev[l], key, l) { assert IsPred(m, prev[l], key, l); }
  }

  // Published on all its levels, x with its predecessors above is the splice to cache.
  lemma LinkedSplice(m: Mem, prev: seq<nat>, x: nat, key: int, height: nat)
    requires Linking(m, prev, x, key, height, height) && 0 < height
    ensures SpliceOk(m, prev[0 := x], height)
  {
  }

  lemma PrepareLinking(m: Mem, prev: seq<nat>, x: nat, key: int, height: nat, i: nat)
    requires Linking(m, prev, x, key, height, i) && i < height
    ensures prev[i] < |m.next| && i < |m.next[prev[i]]|
    ensures Safe(m, SetOwn(x, i, prev[i]))
    ensures var t := Prepare(m, x, i, prev[i]);
            && Linking(t, prev, x, key, height, i)
            && t.next[x][i] == t.next[prev[i]][i]
            && Contents(t) == Contents(m)
  {
    assert IsPred(m, prev[i], key, i);
    var t := Prepare(m, x, i, prev[i]);
    PrepareValid(m, x, i, prev[i]);
    assert forall n :: Entry(t, n) <==> Entry(m, n);
    forall l | i <= l < t.maxHeight
      ensures IsPred(t, prev[l], key, l)
    {
      assert IsPred(m, prev[l], key, l);
      assert prev[l] != x;
    }
  }

  lemma PublishLinking(m: Mem, prev: seq<nat>, x: nat, key: int, height: nat, i: nat)
    requires Linking(m, prev, x, key, height, i) && i < height
    requires prev[i] < |m.next| && i < |m.next[prev[i]]| && m.next[x][i] == m.next[prev[i]][i]
    ensures Safe(m, SetPrev(x, i, prev[i]))
    ensures var t := Publish(m, x, i, prev[i]);
            && Linking(t, prev, x, key, height, i + 1)
            && Contents(t) == Contents(m) + {key}
  {
    assert IsPred(m, prev[i], key, i);
    var t := Publish(m, x, i, prev[i]);
    PublishValid(m, x, i, prev[i]);
    assert forall n :: Entry(t, n) ==> Entry(m, n) || n == x;
    forall l | i + 1 <= l < t.maxHeight
      ensures IsPred(t, prev[l], key, l)
    {
      assert IsPred(m, prev[l], key, l);
    }
  }

  class List {
    var mem: Mem
    var prev: seq<nat>
    var prevHeight: nat

    ghost predicate Ok()
      reads this
    {
      Valid(mem) && SpliceOk(mem, prev, prevHeight)
    }

    constructor (maxHeight: nat)
      requires maxHeight > 0
      ensures Ok() && Contents(mem) == {} && |mem.next[HEAD]| == maxHeight
    {
      mem := Empty(maxHeight);
      prev := seq(maxHeight, _ => HEAD);
      prevHeight := 1;
    }

    method FindGreaterOrEqual(key: int) returns (r: Link)
      requires Valid(mem)
      ensures First(mem, key, r)
    {
      var s := BeginSearch(mem, key);
      while !s.done
        invariant s.target == key
        invariant if s.done then First(mem, key, s.result) else SearchOk(mem, s)
        decreases !s.done, s.level, if s.x < |mem.keys| then Ahead(mem, s.x) else {}
      {
        SearchStepOk(mem, s);
        assert LinkOk(mem, s.x, s.level);
        var t := SearchStep(mem, s);
        if !t.done && t.level == s.level {
          AheadShrinks(mem, s.x, t.x);
        }
        s := t;
      }
      r := s.result;
    }

    method Contains(key: int) returns (found: bool)
      requires Valid(mem)
      ensures found <==> key in Contents(mem)
    {
      var x := FindGreaterOrEqual(key);
      found := x.Some? && mem.keys[x.value] == key;
      assert forall n :: Entry(mem, n) && mem.keys[n] == key ==> x.Some? && mem.keys[x.value] <= key;
    }

    // Fills prev below max_height_ and returns the last node before the key.
    method FindLessThan(key: int, start: seq<nat>) returns (x: nat, filled: seq<nat>)
      requires Valid(mem) && |start| == |mem.next[HEAD]|
      ensures |filled| == |start| && filled[mem.maxHeight..] == start[mem.maxHeight..]
      ensures forall l :: 0 <= l < mem.maxHeight ==> IsPred(mem, filled[l], key, l)
      ensures x == filled[0]
    {
      x, filled := HEAD, start;
      var level := mem.maxHeight - 1;
      var lastNotAfter: Link := None;
      while true
        invariant |filled| == |start| && 0 <= level < mem.maxHeight
        invariant filled[mem.maxHeight..] == start[mem.maxHeight..]
        invariant On(mem, x, level) && (x == HEAD || mem.keys[x] < key)
        invariant lastNotAfter.Some? ==> lastNotAfter.value < |mem.keys| && key <= mem.keys[lastNotAfter.value]
        invariant forall l :: level < l < mem.maxHeight ==> IsPred(mem, filled[l], key, l)
        decreases level, Ahead(mem, x)
      {
        var next := mem.next[x][level];
        assert LinkOk(mem, x, level);
        if next.Some? && next != lastNotAfter && mem.keys[next.value] < key {
          AheadShrinks(mem, x, next.value);
          x := next.value;
        } else {
          filled := filled[level := x];
          if level == 0 {
            return;
          }
          lastNotAfter, level := next, level - 1;
        }
      }
    }

    // The last entry, or head_ when the list is empty.
    method FindLast() returns (x: nat)
      requires Valid(mem)
      ensures x == HEAD || Entry(mem, x)
      ensures forall k :: Entry(mem, k) ==> x != HEAD && mem.keys[k] <= mem.keys[x]
    {
      x := HEAD;
      var level := mem.maxHeight - 1;
      while true
        invariant 0 <= level && On(mem, x, level)
        decreases level, Ahead(mem, x)
      {
        var next := mem.next[x][level];
        assert LinkOk(mem, x, level);
        if next.Some? {
          AheadShrinks(mem, x, next.value);
          x := next.value;
        } else if level == 0 {
          return;
        } else {
          level := level - 1;
        }
      }
    }

    // Iterator::SeekForPrev: the last entry at or before the target.
    method SeekForPrev(target: int) returns (r: Link)
      requires Valid(mem)
      ensures r.Some? ==> Entry(mem, r.value) && mem.keys[r.value] <= target
      ensures forall k :: Entry(mem, k) && mem.keys[k] <= target ==> r.Some? && mem.keys[k] <= mem.keys[r.value]
    {
      r := FindGreaterOrEqual(target);
      if r.None? {
        var last := FindLast();
        r := if last == HEAD then None else Some(last);
      }
      while r.Some? && target < mem.keys[r.value]
        invariant r.Some? ==> Entry(mem, r.value)
        invariant forall k :: Entry(mem, k) && mem.keys[k] <= target ==> r.Some? && mem.keys[k] <= mem.keys[r.value]
        decreases r.Some?, if r.Some? then Behind(mem, r.value) else {}
      {
        var x, _ := FindLessThan(mem.keys[r.value], seq(|mem.next[HEAD]|, _ => HEAD));
        forall k | Entry(mem, k) && mem.keys[k] <= target
          ensures k == x || Before(mem, k, x)
        {
          NothingBetween(mem, x, mem.keys[r.value], 0, k);
        }
        assert x != HEAD ==> x in Behind(mem, r.value) && x !in Behind(mem, x);
        r := if x == HEAD then None else Some(x);
      }
    }

    // The first half of Insert: prev becomes the predecessors of the key, by the cached
    // splice when the key follows the last one inserted, otherwise by a full search.
    method FindSplice(key: int)
      requires Ok()
      modifies this`prev
      ensures |prev| == |mem.next[HEAD]|
      ensures forall l :: 0 <= l < mem.maxHeight ==> IsPred(mem, prev[l], key, l)
    {
      assert LinkOk(mem, prev[0], 0) by { assert On(mem, prev[0], 0); }
      if FollowsLast(mem, prev, key) {
        forall l: nat | l < mem.maxHeight ensures IsPred(mem, Spread(prev, prevHeight)[l], key, l) {
          FastPathIsPred(mem, prev, prevHeight, key, l);
        }
        ghost var before := prev;
        var i := 1;
        while i < prevHeight
          invariant |prev| == |before| && prev[0] == before[0] && 1 <= i
          invariant forall l :: 0 <= l < |prev| ==>
                      prev[l] == if 0 < l < i && l < prevHeight then before[0] else before[l]
        {
          prev := prev[i := prev[0]];
          i := i + 1;
        }
        assert prev == Spread(before, prevHeight);
      } else {
        var _, filled := FindLessThan(key, prev);
        prev := filled;
      }
    }

    // Raises max_height_ to the new height, with head_ as predecessor on the new levels.
    method RaiseHeight(key: int, height: nat)
      requires Valid(mem) && 0 < height <= |mem.next[HEAD]| == |prev|
      requires forall l :: 0 <= l < mem.maxHeight ==> IsPred(mem, prev[l], key, l)
      modifies this`prev, this`mem
      ensures Valid(mem) && mem == Raise(old(mem), height) && |prev| == |mem.next[HEAD]|
      ensures forall l :: 0 <= l < mem.maxHeight ==> IsPred(mem, prev[l], key, l)
    {
      if height > mem.maxHeight {
        var i := mem.maxHeight;
        while i < height
          invariant mem == old(mem) && mem.maxHeight <= i <= height && |prev| == |mem.next[HEAD]|
          invariant forall l :: 0 <= l < i ==> IsPred(mem, prev[l], key, l)
        {
          assert LinkOk(mem, HEAD, i) by { assert On(mem, HEAD, i); }
          prev := prev[i := HEAD];
          i := i + 1;
        }
        RaiseValid(mem, height);
        mem := mem.(maxHeight := height);
      }
    }

    // The first of the two stores of a level: x's own link.
    method SetOwnLink(x: nat, key: int, height: nat, i: nat, ghost m: Mem, ghost done: seq<Store>)
      returns (ghost stores: seq<Store>)
      requires Linking(mem, prev, x, key, height, i) && i < height && Writes(m, done, mem)
      modifies this`mem
      ensures Linking(mem, prev, x, key, height, i) && Writes(m, stores, mem)
      ensures prev[i] < |mem.next| && i < |mem.next[prev[i]]| && mem.next[x][i] == mem.next[prev[i]][i]
      ensures mem == old(mem).(next := mem.next) && Contents(mem) == old(Contents(mem))
    {
      PrepareLinking(mem, prev, x, key, height, i);
      WritesMore(m, done, mem, SetOwn(x, i, prev[i]));
      stores := done + [SetOwn(x, i, prev[i])];
      mem := Prepare(mem, x, i, prev[i]);
    }

    // Publishes x on level i.
    method LinkLevel(x: nat, key: int, height: nat, i: nat, ghost m: Mem, ghost done: seq<Store>)
      returns (ghost stores: seq<Store>)
      requires Linking(mem, prev, x, key, height, i) && i < height && Writes(m, done, mem)
      modifies this`mem
      ensures Linking(mem, prev, x, key, height, i + 1) && Writes(m, stores, mem)
      ensures mem == old(mem).(next := mem.next, linked := old(mem.linked)[x := i + 1])
      ensures Contents(mem) == old(Contents(mem)) + {key}
    {
      stores := SetOwnLink(x, key, height, i, m, done);
      PublishLinking(mem, prev, x, key, height, i);
      WritesMore(m, stores, mem, SetPrev(x, i, prev[i]));
      stores := stores + [SetPrev(x, i, prev[i])];
      mem := Publish(mem, x, i, prev[i]);
    }

    // Publishes x on all its levels, bottom up.
    method LinkLevels(x: nat, key: int, height: nat, ghost m: Mem, ghost done: seq<Store>)
      returns (ghost stores: seq<Store>)
      requires Linking(mem, prev, x, key, height, 0) && 0 < height && Writes(m, done, mem)
      modifies this`mem
      ensures Linking(mem, prev, x, key, height, height) && Writes(m, stores, mem)
      ensures Contents(mem) == old(Contents(mem)) + {key}
      ensures mem.maxHeight == old(mem.maxHeight) && mem.keys == old(mem.keys)
      ensures mem.linked == old(mem.linked)[x := height]
    {
      stores := done;
      var i := 0;
      while i < height
        invariant 0 <= i <= height
        invariant Linking(mem, prev, x, key, height, i) && Writes(m, stores, mem)
        invariant mem.maxHeight == old(mem.maxHeight) && mem.keys == old(mem.keys)
        invariant mem.linked == old(mem.linked)[x := i]
        invariant Contents(mem) == old(Contents(mem)) + (if i == 0 then {} else {key})
      {
        stores := LinkLevel(x, key, height, i, m, stores);
        i := i + 1;
      }
    }

    // A fresh node of the height, below max_height_, that is on no level yet.
    method NewEntry(key: int, height: nat, garbage: seq<Link>)
      returns (x: nat, ghost stores: seq<Store>)
      requires Valid(mem) && key !in Contents(mem)
      requires 0 < height <= |mem.next[HEAD]| == |prev| && |garbage| == height
      requires forall l :: 0 <= l < mem.maxHeight ==> IsPred(mem, prev[l], key, l)
      modifies this`prev, this`mem
      ensures Linking(mem, prev, x, key, height, 0) && |prev| == old(|prev|)
      ensures mem.maxHeight == if height > old(mem.maxHeight) then height else old(mem.maxHeight)
      ensures mem.linked == old(mem.linked) + [0] && mem.keys == old(mem.keys) + [key] && x == old(|mem.keys|)
      ensures Contents(mem) == old(Contents(mem)) && Writes(old(mem), stores, mem)
    {
      ghost var m := mem;
      RaiseHeight(key, height);
      WritesMore(m, [], m, RaiseTo(height));
      assert Contents(mem) == Contents(m);

      x := |mem.keys|;
      AllocLinking(mem, prev, key, garbage);
      WritesMore(m, [] + [RaiseTo(height)], mem, NewNode(key, garbage));
      stores := [] + [RaiseTo(height)] + [NewNode(key, garbage)];
      mem := Alloc(mem, key, garbage);
    }

    // Inserts a key that is not there, at any height the list allows.  `stores` are the
    // writes done, in order.
    method Insert(key: int, height: nat, garbage: seq<Link>) returns (ghost stores: seq<Store>)
      requires Ok() && key !in Contents(mem)
      requires 0 < height <= |mem.next[HEAD]| && |garbage| == height
      modifies this
      ensures Ok() && Contents(mem) == old(Contents(mem)) + {key}
      ensures |mem.next[HEAD]| == old(|mem.next[HEAD]|)
      ensures mem.maxHeight == if height > old(mem.maxHeight) then height else old(mem.maxHeight)
      ensures mem.linked == old(mem.linked) + [height] && mem.keys == old(mem.keys) + [key]
      ensures Writes(old(mem), stores, mem)
    {
      FindSplice(key);
      var x;
      x, stores := NewEntry(key, height, garbage);
      stores := LinkLevels(x, key, height, old(mem), stores);
      LinkedSplice(mem, prev, x, key, height);
      prev := prev[0 := x];
      prevHeight := height;
    }
  }
}
