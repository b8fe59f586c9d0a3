/**
  Iterators over the skip list while the writer inserts: walking with Next, and SeekForPrev
  with the searches it is made of.  Every load of a link is a step, and so is every store of
  the writer.
 */
module SkipListIterator {
  import opened Options
  import opened SkipList

  // ---------- walking forward ----------

  // An iterator that stood on `from` and has moved by Next to x over the nodes visited;
  // `since` is the memory it started in.
  datatype Walk = Walk(mem: Mem, since: Mem, from: nat, x: nat, visited: seq<nat>, done: bool)

  datatype WalkAction = Insert(w: Store) | Next

  ghost predicate WalkEnabled(s: Walk, a: WalkAction) {
    match a
    case Insert(w) => Safe(s.mem, w)
    case Next =>
      && !s.done && Shape(s.mem) && On(s.mem, s.x, 0)
      && (s.mem.next[s.x][0].Some? ==> s.mem.next[s.x][0].value < |s.mem.keys|)
  }

  ghost function WalkStep(s: Walk, a: WalkAction): Walk
    requires WalkEnabled(s, a)
  {
    match a
    case Insert(w) => s.(mem := Apply(s.mem, w))
    case Next =>
      match s.mem.next[s.x][0]
      case None => s.(done := true)
      case Some(n) => s.(x := n, visited := s.visited + [n])
  }

  // An iterator about to leave a node of a valid list.
  ghost predicate WalkBegins(s: Walk) {
    Valid(s.mem) && s.since == s.mem && On(s.mem, s.from, 0) && s.x == s.from && s.visited == [] && !s.done
  }

  // From s some number of steps of the iterator and the writer lead to t.
  ghost predicate Walks(s: Walk, acts: seq<WalkAction>, t: Walk)
    decreases |acts|
  {
    if acts == [] then s == t else WalkEnabled(s, acts[0]) && Walks(WalkStep(s, acts[0]), acts[1..], t)
  }

  // Every entry of the memory it started in that lies behind the start is still ahead or
  // has been visited.
  ghost predicate Covered(s: Walk)
    requires s.from < |s.since.keys| && s.x < |s.mem.keys| && |s.since.keys| <= |s.mem.keys|
  {
    forall n :: Entry(s.since, n) && Before(s.since, s.from, n) ==> (!s.done && Before(s.mem, s.x, n)) || n in s.visited
  }

  // The nodes visited are entries, each before the next, and x is the last of them.
  ghost predicate InOrder(m: Mem, from: nat, x: nat, visited: seq<nat>) {
    && (forall i :: 0 <= i < |visited| ==> Entry(m, visited[i]))
    && (forall i, j :: 0 <= i < j < |visited| ==> m.keys[visited[i]] < m.keys[visited[j]])
    && x == if visited == [] then from else visited[|visited| - 1]
  }

  ghost predicate WalkInv(s: Walk) {
    && Valid(s.mem) && Valid(s.since) && Grows(s.since, s.mem)
    && On(s.since, s.from, 0) && On(s.mem, s.x, 0) && s.from < |s.mem.keys|
    && InOrder(s.mem, s.from, s.x, s.visited) && Covered(s)
  }

  lemma WalkWrite(s: Walk, w: Store)
    requires WalkInv(s) && Safe(s.mem, w)
    ensures WalkInv(WalkStep(s, Insert(w)))
  {
    ApplyValid(s.mem, w);
  }

  lemma NextInOrder(m: Mem, from: nat, x: nat, visited: seq<nat>, n: nat)
    requires InOrder(m, from, x, visited) && x < |m.keys| && Entry(m, n) && Before(m, x, n)
    ensures InOrder(m, from, n, visited + [n])
  {
    var more := visited + [n];
    forall i | 0 <= i < |visited| ensures m.keys[more[i]] < m.keys[n] {
      assert i < |visited| - 1 ==> m.keys[visited[i]] < m.keys[visited[|visited| - 1]];
    }
  }

  // The next node is the nearest one, so nothing is passed over.
  lemma NextCovers(s: Walk)
    requires WalkInv(s) && WalkEnabled(s, Next)
    ensures var t := WalkStep(s, Next);
            t.x < |t.mem.keys| && Covered(t)
  {
    assert LinkOk(s.mem, s.x, 0);
    var t := WalkStep(s, Next);
    forall k | Entry(s.since, k) && Before(s.since, s.from, k)
      ensures (!t.done && Before(t.mem, t.x, k)) || k in t.visited
    {
      assert Entry(s.mem, k);
      if k in s.visited {
        assert k in t.visited;
      } else if !t.done && k == t.x {
        assert t.visited[|t.visited| - 1] == k;
      }
    }
  }

  lemma WalkNext(s: Walk)
    requires WalkInv(s) && !s.done
    ensures WalkEnabled(s, Next) && WalkInv(WalkStep(s, Next))
  {
    assert LinkOk(s.mem, s.x, 0);
    NextCovers(s);
    if s.mem.next[s.x][0].Some? {
      NextInOrder(s.mem, s.from, s.x, s.visited, s.mem.next[s.x][0].value);
    }
  }

  lemma {:induction false} WalksInv(s: Walk, acts: seq<WalkAction>, t: Walk)
    requires WalkInv(s) && Walks(s, acts, t)
    ensures WalkInv(t) && t.from == s.from && t.since == s.since
    decreases |acts|
  {
    if acts != [] {
      match acts[0] {
        case Insert(w) => WalkWrite(s, w);
        case Next => WalkNext(s);
      }
      WalksInv(WalkStep(s, acts[0]), acts[1..], t);
    }
  }

  // Main theorem: whatever the writer inserts meanwhile, an iterator can always go on; the
  // nodes it visits are entries in strictly increasing order, and when it comes to the end
  // it has missed none that was there when it started.
  lemma WalkMissesNothing(s: Walk, acts: seq<WalkAction>, t: Walk)
    requires WalkBegins(s) && Walks(s, acts, t)
    ensures !t.done ==> WalkEnabled(t, Next)
    ensures InOrder(t.mem, t.from, t.x, t.visited)
    ensures t.done ==> forall n :: Entry(s.mem, n) && Before(s.mem, s.from, n) ==> n in t.visited
  {
    WalksInv(s, acts, t);
    if !t.done {
      WalkNext(t);
    }
  }

  // ---------- SeekForPrev ----------

  // Where SeekForPrev is: in FindGreaterOrEqual, about to load max_height_ for FindLast, in
  // FindLast, about to load it for FindLessThan with the key of the node it stands on, in
  // that, or through.
  datatype Cursor =
    | Seeking(search: Search)
    | WantLast
    | Lasting(x: nat, level: int)
    | WantLess(v: nat)
    | Lessening(v: nat, x: nat, level: int, lastNotAfter: Link)
    | Found(r: Link)

  // One SeekForPrev; `since` is the memory it started in.
  datatype Seek = Seek(mem: Mem, since: Mem, target: int, cursor: Cursor)

  datatype SeekAction = Put(w: Store) | Read

  // The node and level whose link is loaded next.
  function Place(c: Cursor): (nat, int) {
    match c
    case Seeking(s) => (s.x, s.level)
    case Lasting(x, level) => (x, level)
    case Lessening(_, x, level, _) => (x, level)
    case _ => (HEAD, 0)
  }

  predicate CanLoad(m: Mem, c: Cursor) {
    var (x, level) := Place(c);
    && !c.Found? && Shape(m) && On(m, x, level)
    && (m.next[x][level].Some? ==> m.next[x][level].value < |m.keys|)
    && (c.Lessening? || c.WantLess? ==> c.v < |m.keys|)
  }

  ghost predicate SeekEnabled(s: Seek, a: SeekAction) {
    match a
    case Put(w) => Safe(s.mem, w)
    case Read => CanLoad(s.mem, s.cursor)
  }

  // Standing on v: step back while its key is behind the target.
  function Settle(m: Mem, target: int, v: nat): Cursor
    requires v < |m.keys|
  {
    if v == HEAD then Found(None)
    else if target < m.keys[v] then WantLess(v)
    else Found(Some(v))
  }

  function AfterLoad(m: Mem, target: int, c: Cursor): Cursor
    requires CanLoad(m, c)
  {
    match c
    case Seeking(s) =>
      var t := SearchStep(m, s);
      if !t.done then Seeking(t)
      else if t.result.None? then WantLast
      else if t.result.value < |m.keys| then Settle(m, target, t.result.value)
      else Found(None)
    case WantLast => Lasting(HEAD, m.maxHeight - 1)
    case WantLess(v) => Lessening(v, HEAD, m.maxHeight - 1, None)
    case Lasting(x, level) =>
      var next := m.next[x][level];
      if next.Some? then Lasting(next.value, level)
      else if level == 0 then Settle(m, target, x)
      else Lasting(x, level - 1)
    case Lessening(v, x, level, lastNotAfter) =>
      var next := m.next[x][level];
      if next.Some? && next != lastNotAfter && m.keys[next.value] < m.keys[v]
      then Lessening(v, next.value, level, lastNotAfter)
      else if level == 0 then Settle(m, target, x)
      else Lessening(v, x, level - 1, next)
  }

  ghost function SeekStep(s: Seek, a: SeekAction): Seek
    requires SeekEnabled(s, a)
  {
    match a
    case Put(w) => s.(mem := Apply(s.mem, w))
    case Read => s.(cursor := AfterLoad(s.mem, s.target, s.cursor))
  }

  ghost predicate Seeks(s: Seek, acts: seq<SeekAction>, t: Seek)
    decreases |acts|
  {
    if acts == [] then s == t else SeekEnabled(s, acts[0]) && Seeks(SeekStep(s, acts[0]), acts[1..], t)
  }

  ghost predicate SeekBegins(s: Seek) {
    Valid(s.mem) && s.since == s.mem && s.cursor == Seeking(BeginSearch(s.mem, s.target))
  }

  // v is an entry, and no entry of the starting memory at or before the target is behind it.
  ghost predicate Bounds(m: Mem, since: Mem, target: int, v: int) {
    Entry(m, v) && forall n :: Entry(since, n) && since.keys[n] <= target ==> n < |m.keys| && m.keys[n] <= m.keys[v]
  }

  ghost predicate CursorOk(m: Mem, since: Mem, target: int, c: Cursor) {
    match c
    case Seeking(s) => SearchOk(m, s) && s.target == target && !s.done
    case WantLast => true
    case Lasting(x, level) => On(m, x, level)
    case WantLess(v) => Bounds(m, since, target, v) && target < m.keys[v]
    case Lessening(v, x, level, last) =>
      && Bounds(m, since, target, v) && target < m.keys[v] && On(m, x, level) && (x == HEAD || m.keys[x] < m.keys[v])
      && (last.Some? ==> Entry(m, last.value) && m.keys[last.value] >= m.keys[v])
    case Found(None) => forall n :: Entry(since, n) ==> since.keys[n] > target
    case Found(Some(v)) => Bounds(m, since, target, v) && m.keys[v] <= target
  }

  ghost predicate SeekInv(s: Seek) {
    Valid(s.mem) && Valid(s.since) && Grows(s.since, s.mem) && CursorOk(s.mem, s.since, s.target, s.cursor)
  }

  lemma SeekPut(s: Seek, w: Store)
    requires SeekInv(s) && Safe(s.mem, w)
    ensures SeekInv(SeekStep(s, Put(w)))
  {
    ApplyValid(s.mem, w);
    if s.cursor.Seeking? {
      SearchStable(s.mem, Apply(s.mem, w), s.cursor.search);
    }
  }

  lemma CursorLoads(s: Seek)
    requires SeekInv(s) && !s.cursor.Found?
    ensures CanLoad(s.mem, s.cursor)
  {
    var (x, level) := Place(s.cursor);
    assert LinkOk(s.mem, x, level);
  }

  // The node a search ended on is as good as any.
  lemma SettleOk(s: Seek, v: nat)
    requires Valid(s.mem) && Valid(s.since) && Grows(s.since, s.mem) && On(s.mem, v, 0)
    requires if v == HEAD then forall n :: Entry(s.since, n) ==> s.since.keys[n] > s.target
             else Bounds(s.mem, s.since, s.target, v)
    ensures CursorOk(s.mem, s.since, s.target, Settle(s.mem, s.target, v))
  {
  }

  lemma SeekingLoad(s: Seek)
    requires SeekInv(s) && s.cursor.Seeking? && CanLoad(s.mem, s.cursor)
    ensures CursorOk(s.mem, s.since, s.target, AfterLoad(s.mem, s.target, s.cursor))
  {
    SearchStepOk(s.mem, s.cursor.search);
    var t := SearchStep(s.mem, s.cursor.search);
    if t.done && t.result.Some? {
      assert Bounds(s.mem, s.since, s.target, t.result.value);
      SettleOk(s, t.result.value);
    }
  }

  lemma LastingLoad(s: Seek)
    requires SeekInv(s) && s.cursor.Lasting? && CanLoad(s.mem, s.cursor)
    ensures CursorOk(s.mem, s.since, s.target, AfterLoad(s.mem, s.target, s.cursor))
  {
    var x, level := s.cursor.x, s.cursor.level;
    assert LinkOk(s.mem, x, level);
    if s.mem.next[x][level].None? && level == 0 {
      forall n | Entry(s.since, n) ensures x != HEAD && s.mem.keys[n] <= s.mem.keys[x] { assert Entry(s.mem, n); }
      SettleOk(s, x);
    }
  }

  lemma LesseningLoad(s: Seek)
    requires SeekInv(s) && s.cursor.Lessening? && CanLoad(s.mem, s.cursor)
    ensures CursorOk(s.mem, s.since, s.target, AfterLoad(s.mem, s.target, s.cursor))
  {
    var v, x, level := s.cursor.v, s.cursor.x, s.cursor.level;
    assert LinkOk(s.mem, x, level);
    var next := s.mem.next[x][level];
    if !(next.Some? && next != s.cursor.lastNotAfter && s.mem.keys[next.value] < s.mem.keys[v]) && level == 0 {
      forall n | Entry(s.since, n) && s.since.keys[n] <= s.target
        ensures x != HEAD && s.mem.keys[n] <= s.mem.keys[x]
      {
        assert Entry(s.mem, n);
      }
      SettleOk(s, x);
    }
  }

  lemma SeekLoad(s: Seek)
    requires SeekInv(s) && SeekEnabled(s, Read)
    ensures SeekInv(SeekStep(s, Read))
  {
    match s.cursor
    case Seeking(_) => SeekingLoad(s);
    case Lasting(_, _) => LastingLoad(s);
    case Lessening(_, _, _, _) => LesseningLoad(s);
    case _ =>
  }

  lemma {:induction false} SeeksInv(s: Seek, acts: seq<SeekAction>, t: Seek)
    requires SeekInv(s) && Seeks(s, acts, t)
    ensures SeekInv(t) && t.target == s.target && t.since == s.since
    decreases |acts|
  {
    if acts != [] {
      match acts[0] {
        case Put(w) => SeekPut(s, w);
        case Read => SeekLoad(s);
      }
      SeeksInv(SeekStep(s, acts[0]), acts[1..], t);
    }
  }

  // Main theorem: whatever the writer inserts meanwhile, SeekForPrev can always take its
  // next load, and comes to rest on an entry at or before the target with none that was
  // there at its start between the two, or nowhere if there was none.
  lemma SeekForPrevMissesNothing(s: Seek, acts: seq<SeekAction>, t: Seek)
    requires SeekBegins(s) && Seeks(s, acts, t)
    ensures !t.cursor.Found? ==> SeekEnabled(t, Read)
    ensures t.cursor.Found? ==>
              match t.cursor.r
              case None => forall n :: Entry(s.mem, n) ==> s.mem.keys[n] > s.target
              case Some(v) => Bounds(t.mem, s.mem, s.target, v) && t.mem.keys[v] <= s.target
  {
    BeginSearchOk(s.mem, s.target);
    SeeksInv(s, acts, t);
    if !t.cursor.Found? {
      CursorLoads(t);
    }
  }
}
