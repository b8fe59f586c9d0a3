/**
  The intrusive multi-producer single-consumer queue under sequentially consistent
  interleaving: every atomic load, store and exchange of Enqueue and Dequeue is one
  step.  A node is a number; a node that is not in `link` has a null link.
 */
module MpscIntrusive {
  import opened Options

  const DUMMY: nat := 0

  // A producer between the three atomic operations of Enqueue.  `at` is the place of
  // the exchange: it put `input` at order[at + 1] behind order[at] == prev.
  datatype Producer =
    | Idle
    | Cleared(input: nat)
    | Swapped(input: nat, prev: nat, at: int)

  // The consumer between the atomic operations of Dequeue.
  datatype Consumer =
    | Out
    | LoadNext(tail: nat)
    | SkipDummy(next: nat)
    | LoadAfterDummy(tail: nat)
    | Advance(tail: nat, next: nat)
    | LoadHead(tail: nat)
    | ClearDummy(tail: nat)
    | SwapDummy(tail: nat)
    | LinkDummy(tail: nat, prev: nat, at: int)
    | LoadLast(tail: nat)

  // `order` lists every node in the order of head exchanges, order[base] is the node
  // _tail points to, and `returned` lists what Dequeue handed out.
  datatype State = State(
    link: map<nat, nat>, head: nat, tail: nat,
    producers: seq<Producer>, consumer: Consumer,
    order: seq<nat>, base: nat, returned: seq<nat>)

  datatype Action = Clear(p: nat, input: nat) | Swap(p: nat) | Link(p: nat) | Consume

  function Init(producers: nat): State {
    State(map[], DUMMY, DUMMY, seq(producers, _ => Idle), Out, [DUMMY], 0, [])
  }

  // The nodes from _tail to _head.
  function Chain(s: State): seq<nat> {
    if s.base <= |s.order| then s.order[s.base..] else []
  }

  // A caller may enqueue a node that is neither queued nor on its way in; a node
  // handed out before may come back.
  predicate Available(s: State, n: nat) {
    && n != DUMMY
    && n !in Chain(s)
    && forall p :: 0 <= p < |s.producers| && s.producers[p].Cleared? ==> s.producers[p].input != n
  }

  predicate Enabled(s: State, a: Action) {
    match a
    case Clear(p, n) => p < |s.producers| && s.producers[p].Idle? && Available(s, n)
    case Swap(p) => p < |s.producers| && s.producers[p].Cleared?
    case Link(p) => p < |s.producers| && s.producers[p].Swapped?
    case Consume => true
  }

  // With the link of `tail` just loaded: hand it out, or look at the head.
  function AfterLoad(s: State, tail: nat): Consumer {
    if tail in s.link then Advance(tail, s.link[tail]) else LoadHead(tail)
  }

  function ConsumerStep(s: State): State {
    match s.consumer
    case Out => s.(consumer := LoadNext(s.tail))
    case LoadNext(tail) =>
      if tail == DUMMY
      then s.(consumer := if tail in s.link then SkipDummy(s.link[tail]) else Out)
      else s.(consumer := AfterLoad(s, tail))
    case SkipDummy(next) => s.(tail := next, base := s.base + 1, consumer := LoadAfterDummy(next))
    case LoadAfterDummy(tail) => s.(consumer := AfterLoad(s, tail))
    case Advance(tail, next) =>
      s.(tail := next, base := s.base + 1, returned := s.returned + [tail], consumer := Out)
    case LoadHead(tail) => s.(consumer := if s.head == tail then ClearDummy(tail) else Out)
    case ClearDummy(tail) => s.(link := s.link - {DUMMY}, consumer := SwapDummy(tail))
    case SwapDummy(tail) =>
      s.(head := DUMMY, order := s.order + [DUMMY], consumer := LinkDummy(tail, s.head, |s.order| - 1))
    case LinkDummy(tail, prev, _) => s.(link := s.link[prev := DUMMY], consumer := LoadLast(tail))
    case LoadLast(tail) => s.(consumer := if tail in s.link then Advance(tail, s.link[tail]) else Out)
  }

  function Step(s: State, a: Action): State
    requires Enabled(s, a)
  {
    match a
    case Clear(p, n) => s.(link := s.link - {n}, producers := s.producers[p := Cleared(n)])
    case Swap(p) =>
      var n := s.producers[p].input;
      s.(head := n, order := s.order + [n], producers := s.producers[p := Swapped(n, s.head, |s.order| - 1)])
    case Link(p) =>
      s.(link := s.link[s.producers[p].prev := s.producers[p].input], producers := s.producers[p := Idle])
    case Consume => ConsumerStep(s)
  }

  // ---------- the invariant ----------

  // Some thread has exchanged in order[k + 1] and not yet stored the link behind order[k].
  ghost predicate Unlinked(s: State, k: int) {
    || (exists p :: 0 <= p < |s.producers| && s.producers[p].Swapped? && s.producers[p].at == k)
    || (s.consumer.LinkDummy? && s.consumer.at == k)
  }

  ghost predicate Distinct(q: seq<nat>) {
    forall i, j :: 0 <= i < j < |q| ==> q[i] != q[j]
  }

  // An exchange of `input` behind `prev` at place k whose link store is to come.
  ghost predicate PendingAt(s: State, k: int, prev: nat, input: nat) {
    s.base <= k && k < |s.order| - 1 && s.order[k] == prev && s.order[k + 1] == input && prev !in s.link
  }

  ghost predicate LinkOk(s: State, k: int) {
    && 0 <= k < |s.order| - 1
    && if s.order[k] in s.link then s.link[s.order[k]] == s.order[k + 1] else Unlinked(s, k)
  }

  ghost predicate ChainOk(s: State) {
    && s.base < |s.order|
    && s.order[s.base] == s.tail
    && s.order[|s.order| - 1] == s.head
    && s.head !in s.link
    && (forall i, j :: s.base <= i < j < |s.order| ==> s.order[i] != s.order[j])
    && (forall k :: s.base <= k < |s.order| - 1 ==> LinkOk(s, k))
  }

  ghost predicate ProducersOk(s: State) {
    && (forall p :: 0 <= p < |s.producers| && s.producers[p].Cleared? ==>
          && s.producers[p].input != DUMMY
          && s.producers[p].input !in s.link
          && forall k :: s.base <= k < |s.order| ==> s.order[k] != s.producers[p].input)
    && (forall p, q :: 0 <= p < q < |s.producers| && s.producers[p].Cleared? && s.producers[q].Cleared? ==>
          s.producers[p].input != s.producers[q].input)
    && (forall p :: 0 <= p < |s.producers| && s.producers[p].Swapped? ==>
          PendingAt(s, s.producers[p].at, s.producers[p].prev, s.producers[p].input))
    && (forall p, q :: 0 <= p < q < |s.producers| && s.producers[p].Swapped? && s.producers[q].Swapped? ==>
          s.producers[p].at != s.producers[q].at)
    && (forall p :: 0 <= p < |s.producers| && s.producers[p].Swapped? && s.consumer.LinkDummy? ==>
          s.producers[p].at != s.consumer.at)
  }

  ghost predicate DummyAbsent(s: State) {
    forall k :: s.base <= k < |s.order| ==> s.order[k] != DUMMY
  }

  ghost predicate ConsumerOk(s: State) {
    match s.consumer
    case Out => true
    case LoadNext(tail) => tail == s.tail
    case SkipDummy(next) => s.tail == DUMMY && DUMMY in s.link && s.link[DUMMY] == next
    case Advance(tail, next) => tail == s.tail != DUMMY && tail in s.link && s.link[tail] == next
    case ClearDummy(tail) => tail == s.tail && DummyAbsent(s)
    case SwapDummy(tail) => tail == s.tail && DummyAbsent(s) && DUMMY !in s.link
    case LinkDummy(tail, prev, at) => tail == s.tail != DUMMY && PendingAt(s, at, prev, DUMMY)
    case LoadLast(tail) => tail == s.tail != DUMMY && s.base < |s.order| - 1
    case LoadAfterDummy(tail) => tail == s.tail != DUMMY
    case LoadHead(tail) => tail == s.tail != DUMMY
  }

  // What producers put in, in exchange order.
  function Inputs(order: seq<nat>): (r: seq<nat>)
    ensures DUMMY !in r
  {
    if order == [] then []
    else if order[|order| - 1] == DUMMY then Inputs(order[..|order| - 1])
    else Inputs(order[..|order| - 1]) + [order[|order| - 1]]
  }

  ghost predicate Inv(s: State) {
    && ChainOk(s)
    && ProducersOk(s)
    && ConsumerOk(s)
    && s.returned == Inputs(s.order[..s.base])
  }

  lemma InputsNext(order: seq<nat>, k: nat)
    requires k < |order|
    ensures Inputs(order[..k + 1]) == Inputs(order[..k]) + (if order[k] == DUMMY then [] else [order[k]])
  {
    assert order[..k + 1][..k] == order[..k];
  }

  lemma InitInv(producers: nat)
    ensures Inv(Init(producers))
  {
  }

  lemma ClearChain(s: State, p: nat, n: nat)
    requires Inv(s) && Enabled(s, Clear(p, n))
    ensures ChainOk(Step(s, Clear(p, n)))
  {
    var t := Step(s, Clear(p, n));
    assert forall k :: s.base <= k < |s.order| ==> s.order[k] == Chain(s)[k - s.base];
    forall k | s.base <= k < |s.order| - 1
      ensures LinkOk(t, k)
    {
      assert LinkOk(s, k);
      if i :| 0 <= i < |s.producers| && s.producers[i].Swapped? && s.producers[i].at == k {
        assert t.producers[i].Swapped? && t.producers[i].at == k;
      }
    }
  }

  lemma ClearProducers(s: State, p: nat, n: nat)
    requires Inv(s) && Enabled(s, Clear(p, n))
    ensures ProducersOk(Step(s, Clear(p, n)))
  {
    assert forall k :: s.base <= k < |s.order| ==> s.order[k] == Chain(s)[k - s.base];
    var t := Step(s, Clear(p, n));
    forall i | 0 <= i < |t.producers| && t.producers[i].Swapped?
      ensures PendingAt(t, t.producers[i].at, t.producers[i].prev, t.producers[i].input)
    {
      assert PendingAt(s, s.producers[i].at, s.producers[i].prev, s.producers[i].input);
    }
  }

  lemma ClearInv(s: State, p: nat, n: nat)
    requires Inv(s) && Enabled(s, Clear(p, n))
    ensures Inv(Step(s, Clear(p, n)))
  {
    ClearChain(s, p, n);
    ClearProducers(s, p, n);
    assert forall k :: s.base <= k < |s.order| ==> s.order[k] == Chain(s)[k - s.base];
  }

  lemma SwapChain(s: State, p: nat)
    requires Inv(s) && Enabled(s, Swap(p))
    ensures ChainOk(Step(s, Swap(p)))
  {
    var t := Step(s, Swap(p));
    forall k | t.base <= k < |t.order| - 1
      ensures LinkOk(t, k)
    {
      if k == |s.order| - 1 {
        assert t.producers[p].Swapped? && t.producers[p].at == k;
      } else {
        assert LinkOk(s, k);
        if i :| 0 <= i < |s.producers| && s.producers[i].Swapped? && s.producers[i].at == k {
          assert t.producers[i].Swapped? && t.producers[i].at == k;
        }
      }
    }
  }

  lemma SwapInv(s: State, p: nat)
    requires Inv(s) && Enabled(s, Swap(p))
    ensures Inv(Step(s, Swap(p)))
  {
    SwapChain(s, p);
    var t := Step(s, Swap(p));
    assert t.order[..t.base] == s.order[..s.base];
    forall i | 0 <= i < |t.producers| && t.producers[i].Swapped?
      ensures PendingAt(t, t.producers[i].at, t.producers[i].prev, t.producers[i].input)
    {
      if i != p {
        assert PendingAt(s, s.producers[i].at, s.producers[i].prev, s.producers[i].input);
      }
    }
  }

  lemma LinkInv(s: State, p: nat)
    requires Inv(s) && Enabled(s, Link(p))
    ensures Inv(Step(s, Link(p)))
  {
    var t := Step(s, Link(p));
    var k0 := s.producers[p].at;
    assert PendingAt(s, k0, s.producers[p].prev, s.producers[p].input);
    forall k | t.base <= k < |t.order| - 1
      ensures LinkOk(t, k)
    {
      assert LinkOk(s, k);
      if i :| 0 <= i < |s.producers| && i != p && s.producers[i].Swapped? && s.producers[i].at == k {
        assert t.producers[i].Swapped? && t.producers[i].at == k;
      }
    }
    forall i | 0 <= i < |t.producers| && t.producers[i].Swapped?
      ensures PendingAt(t, t.producers[i].at, t.producers[i].prev, t.producers[i].input)
    {
      assert PendingAt(s, s.producers[i].at, s.producers[i].prev, s.producers[i].input);
    }
  }

  predicate Loading(c: Consumer) {
    c.Out? || c.LoadNext? || c.LoadAfterDummy? || c.LoadHead? || c.LoadLast?
  }

  lemma LoadChain(s: State)
    requires Inv(s) && Loading(s.consumer)
    ensures ChainOk(ConsumerStep(s))
  {
    var t := ConsumerStep(s);
    forall k | t.base <= k < |t.order| - 1
      ensures LinkOk(t, k)
    {
      assert LinkOk(s, k);
    }
  }

  // A step that only moves the consumer past loads.
  lemma LoadInv(s: State)
    requires Inv(s) && Loading(s.consumer)
    ensures Inv(ConsumerStep(s))
  {
    LoadChain(s);
    var t := ConsumerStep(s);
    forall i | 0 <= i < |t.producers| && t.producers[i].Swapped?
      ensures PendingAt(t, t.producers[i].at, t.producers[i].prev, t.producers[i].input)
    {
      assert PendingAt(s, s.producers[i].at, s.producers[i].prev, s.producers[i].input);
    }
  }

  // _tail moves on: the link behind it was stored, so no exchange waits there.
  lemma MoveChain(s: State)
    requires Inv(s) && (s.consumer.SkipDummy? || s.consumer.Advance?)
    ensures s.base < |s.order| - 1 && ChainOk(ConsumerStep(s))
  {
    var t := ConsumerStep(s);
    assert s.base < |s.order| - 1;
    assert LinkOk(s, s.base);
    forall k | t.base <= k < |t.order| - 1 ensures LinkOk(t, k) { assert LinkOk(s, k); }
  }

  lemma MoveProducers(s: State)
    requires Inv(s) && (s.consumer.SkipDummy? || s.consumer.Advance?)
    ensures ProducersOk(ConsumerStep(s))
  {
    var t := ConsumerStep(s);
    forall i | 0 <= i < |t.producers| && t.producers[i].Swapped?
      ensures PendingAt(t, t.producers[i].at, t.producers[i].prev, t.producers[i].input)
    {
      assert PendingAt(s, s.producers[i].at, s.producers[i].prev, s.producers[i].input);
    }
  }

  lemma MoveInv(s: State)
    requires Inv(s) && (s.consumer.SkipDummy? || s.consumer.Advance?)
    ensures Inv(ConsumerStep(s))
  {
    MoveChain(s);
    MoveProducers(s);
    InputsNext(s.order, s.base);
  }

  lemma DummyInv(s: State)
    requires Inv(s) && (s.consumer.ClearDummy? || s.consumer.SwapDummy? || s.consumer.LinkDummy?)
    ensures Inv(ConsumerStep(s))
  {
    var t := ConsumerStep(s);
    assert t.order[..t.base] == s.order[..s.base];
    forall k | t.base <= k < |t.order| - 1
      ensures LinkOk(t, k)
    {
      if k < |s.order| - 1 {
        assert LinkOk(s, k);
      }
    }
    forall i | 0 <= i < |t.producers| && t.producers[i].Swapped?
      ensures PendingAt(t, t.producers[i].at, t.producers[i].prev, t.producers[i].input)
    {
      assert PendingAt(s, s.producers[i].at, s.producers[i].prev, s.producers[i].input);
    }
  }

  lemma StepInv(s: State, a: Action)
    requires Inv(s) && Enabled(s, a)
    ensures Inv(Step(s, a))
  {
    match a
    case Clear(p, n) => ClearInv(s, p, n);
    case Swap(p) => SwapInv(s, p);
    case Link(p) => LinkInv(s, p);
    case Consume =>
      if s.consumer.SkipDummy? || s.consumer.Advance? {
        MoveInv(s);
      } else if s.consumer.ClearDummy? || s.consumer.SwapDummy? || s.consumer.LinkDummy? {
        DummyInv(s);
      } else {
        LoadInv(s);
      }
  }

  // ---------- whole runs ----------

  function Run(s: State, acts: seq<Action>): Option<State>
    decreases |acts|
  {
    if acts == [] then Some(s)
    else if Enabled(s, acts[0]) then Run(Step(s, acts[0]), acts[1..])
    else None
  }

  lemma {:induction false} RunInv(s: State, acts: seq<Action>)
    requires Inv(s) && Run(s, acts).Some?
    ensures Inv(Run(s, acts).value)
    decreases |acts|
  {
    if acts != [] {
      StepInv(s, acts[0]);
      RunInv(Step(s, acts[0]), acts[1..]);
    }
  }

  lemma {:induction false} InputsSplit(order: seq<nat>, k: nat)
    requires k <= |order|
    ensures Inputs(order) == Inputs(order[..k]) + Inputs(order[k..])
  {
    if k == |order| {
      assert order[..k] == order;
    } else {
      var n := |order| - 1;
      InputsSplit(order[..n], k);
      assert order[..n][..k] == order[..k] && order[..n][k..] == order[k..][..n - k];
    }
  }

  // A state of some run with any number of producers.
  ghost predicate Reachable(s: State) {
    exists producers, acts :: Run(Init(producers), acts) == Some(s)
  }

  lemma ReachableInv(s: State)
    requires Reachable(s)
    ensures Inv(s)
  {
    var producers, acts :| Run(Init(producers), acts) == Some(s);
    InitInv(producers);
    RunInv(Init(producers), acts);
  }

  lemma {:induction false} DistinctOnce(q: seq<nat>, x: nat)
    requires Distinct(q)
    ensures multiset(q)[x] <= 1
  {
    if q != [] {
      var n := |q| - 1;
      DistinctOnce(q[..n], x);
      assert q == q[..n] + [q[n]];
      assert forall y :: y in q[..n] ==> y != q[n];
    }
  }

  // The arguments of Enqueue in the order of the exchanges, read off the actions alone;
  // `asked` is what each producer was called with last.
  function Sent(acts: seq<Action>, asked: map<nat, nat>): seq<nat>
    decreases |acts|
  {
    if acts == [] then []
    else match acts[0]
         case Clear(p, n) => Sent(acts[1..], asked[p := n])
         case Swap(p) => (if p in asked then [asked[p]] else []) + Sent(acts[1..], asked)
         case _ => Sent(acts[1..], asked)
  }

  ghost predicate Carries(s: State, asked: map<nat, nat>) {
    forall p :: 0 <= p < |s.producers| && s.producers[p].Cleared? ==>
      p in asked && s.producers[p].input == asked[p] != DUMMY
  }

  lemma InputsMore(order: seq<nat>, n: nat)
    ensures Inputs(order + [n]) == Inputs(order) + (if n == DUMMY then [] else [n])
  {
    assert (order + [n])[..|order|] == order;
  }

  function Recalled(a: Action, asked: map<nat, nat>): map<nat, nat> {
    if a.Clear? then asked[a.p := a.input] else asked
  }

  lemma StepCarries(s: State, a: Action, asked: map<nat, nat>)
    requires Carries(s, asked) && Enabled(s, a)
    ensures Carries(Step(s, a), Recalled(a, asked))
  {
  }

  function SentBy(a: Action, asked: map<nat, nat>): seq<nat> {
    if a.Swap? && a.p in asked then [asked[a.p]] else []
  }

  lemma SentFirst(acts: seq<Action>, asked: map<nat, nat>)
    requires acts != []
    ensures Sent(acts, asked) == SentBy(acts[0], asked) + Sent(acts[1..], Recalled(acts[0], asked))
  {
    assert [] + Sent(acts[1..], Recalled(acts[0], asked)) == Sent(acts[1..], Recalled(acts[0], asked));
  }

  lemma StepSends(s: State, a: Action, asked: map<nat, nat>)
    requires Carries(s, asked) && Enabled(s, a)
    ensures Inputs(Step(s, a).order) == Inputs(s.order) + SentBy(a, asked)
  {
    if a.Swap? {
      InputsMore(s.order, s.producers[a.p].input);
    } else {
      InputsMore(s.order, DUMMY);
    }
  }

  lemma Associate(a: seq<nat>, b: seq<nat>, c: seq<nat>)
    ensures (a + b) + c == a + (b + c)
  {
  }

  lemma {:induction false} RunSends(s: State, acts: seq<Action>, asked: map<nat, nat>)
    requires Carries(s, asked) && Run(s, acts).Some?
    ensures Inputs(Run(s, acts).value.order) == Inputs(s.order) + Sent(acts, asked)
    decreases |acts|
  {
    if acts != [] {
      var later := Recalled(acts[0], asked);
      StepSends(s, acts[0], asked);
      StepCarries(s, acts[0], asked);
      RunSends(Step(s, acts[0]), acts[1..], later);
      SentFirst(acts, asked);
      Associate(Inputs(s.order), SentBy(acts[0], asked), Sent(acts[1..], later));
    }
  }

  // Main theorem.  In every run, what Dequeue has returned followed by what is chained is
  // what Enqueue was called with, in exchange order: nothing is lost, duplicated or
  // reordered; the dummy is never handed out and chained at most once.
  lemma FifoInExchangeOrder(producers: nat, acts: seq<Action>, s: State)
    requires Run(Init(producers), acts) == Some(s)
    ensures Sent(acts, map[]) == s.returned + Inputs(Chain(s))
    ensures DUMMY !in s.returned
    ensures multiset(Chain(s))[DUMMY] <= 1
  {
    assert Reachable(s);
    ReachableInv(s);
    InputsSplit(s.order, s.base);
    DistinctOnce(Chain(s), DUMMY);
    RunSends(Init(producers), acts, map[]);
    InputsMore([], DUMMY);
    assert [] + [DUMMY] == [DUMMY];
  }

  // A node leaves the queue only after the link behind it was stored: when Dequeue
  // hands it out no thread will write its link again, so the caller may free or
  // enqueue it.
  lemma HandedOutAfterLinkStore(s: State)
    requires Reachable(s) && s.consumer.Advance?
    ensures s.base + 1 < |s.order|
    ensures var t, n := ConsumerStep(s), s.consumer.tail;
            && t.returned == s.returned + [n]
            && n in s.link && s.link[n] == s.order[s.base + 1]
            && (forall p :: 0 <= p < |t.producers| && t.producers[p].Swapped? ==> t.producers[p].prev != n)
            && n !in Chain(t)
  {
    ReachableInv(s);
    var t := ConsumerStep(s);
    MoveInv(s);
    assert LinkOk(s, s.base);
    forall p | 0 <= p < |t.producers| && t.producers[p].Swapped?
      ensures t.producers[p].prev != s.consumer.tail
    {
      assert PendingAt(t, t.producers[p].at, t.producers[p].prev, t.producers[p].input);
    }
    assert forall x :: x in Chain(t) ==> exists k :: t.base <= k < |t.order| && t.order[k] == x;
  }

  // ---------- Dequeue without interference ----------

  // The consumer alone runs until it leaves Dequeue, at most `steps` steps.
  function Alone(s: State, steps: nat): State
    decreases steps
  {
    if steps == 0 || s.consumer.Out? then s else Alone(ConsumerStep(s), steps - 1)
  }

  // No producer is between its exchange and its link store.
  ghost predicate Quiet(s: State) {
    forall p :: 0 <= p < |s.producers| ==> !s.producers[p].Swapped?
  }

  // With nothing pending, a null link is that of the last node.
  lemma QuietLink(s: State)
    requires Inv(s) && Quiet(s) && !s.consumer.LinkDummy? && s.tail !in s.link
    ensures s.base == |s.order| - 1
  {
    assert s.base < |s.order| - 1 ==> LinkOk(s, s.base);
  }

  // The re-enqueueing of the dummy behind the only node.
  lemma AloneThroughDummy(s: State)
    requires Inv(s) && s.consumer.LoadHead? && s.base == |s.order| - 1
    ensures var t := Alone(s, 6);
            Inv(t) && t.consumer.Out? && t.returned == s.returned + [s.tail]
  {
    LoadInv(s);
    var s2 := ConsumerStep(s);
    DummyInv(s2);
    var s3 := ConsumerStep(s2);
    DummyInv(s3);
    var s4 := ConsumerStep(s3);
    DummyInv(s4);
    var s5 := ConsumerStep(s4);
    LoadInv(s5);
    var s6 := ConsumerStep(s5);
    MoveInv(s6);
    assert Alone(s5, 2) == ConsumerStep(s6);
    assert Alone(s3, 4) == Alone(s5, 2);
    assert Alone(s, 6) == Alone(s3, 4);
  }

  lemma AloneFromNode(s: State)
    requires Inv(s) && Quiet(s) && s.tail != DUMMY && (s.consumer.LoadNext? || s.consumer.LoadAfterDummy?)
    ensures var t := Alone(s, 7);
            Inv(t) && t.consumer.Out? && t.returned == s.returned + [s.tail]
  {
    LoadInv(s);
    var s1 := ConsumerStep(s);
    if s1.consumer.Advance? {
      MoveInv(s1);
      assert Alone(s1, 6) == ConsumerStep(s1);
    } else {
      QuietLink(s);
      AloneThroughDummy(s1);
    }
  }

  lemma {:induction false} AloneOut(s: State, m: nat, n: nat)
    requires m <= n && Alone(s, m).consumer.Out?
    ensures Alone(s, n) == Alone(s, m)
    decreases m
  {
    if m > 0 && !s.consumer.Out? {
      AloneOut(ConsumerStep(s), m - 1, n - 1);
    }
  }

  lemma AloneFromDummy(s: State)
    requires Inv(s) && Quiet(s) && s.tail == DUMMY && s.consumer.LoadNext?
    ensures var t := Alone(s, 9);
            && Inv(t) && t.consumer.Out?
            && t.returned == s.returned + (if s.base == |s.order| - 1 then [] else [s.order[s.base + 1]])
  {
    LoadInv(s);
    var s1 := ConsumerStep(s);
    if s1.consumer.Out? {
      QuietLink(s);
      assert Alone(s1, 8) == s1;
    } else {
      assert s.base < |s.order| - 1;
      assert LinkOk(s, s.base);
      MoveInv(s1);
      AloneFromNode(ConsumerStep(s1));
    }
  }

  lemma {:induction false} FirstInput(chain: seq<nat>)
    requires |chain| > 0 && Distinct(chain)
    ensures var w := Inputs(chain);
            if chain[0] != DUMMY then w != [] && w[0] == chain[0]
            else if |chain| > 1 then w != [] && w[0] == chain[1]
            else w == []
  {
    var n := |chain| - 1;
    InputsNext(chain, n);
    assert chain[..n + 1] == chain;
    if n == 0 {
      assert chain[..n] == [];
    } else {
      FirstInput(chain[..n]);
    }
  }

  // The node a Dequeue without interference hands out.
  function Served(order: seq<nat>, base: nat): seq<nat>
    requires base < |order|
  {
    if order[base] != DUMMY then [order[base]]
    else if base < |order| - 1 then [order[base + 1]]
    else []
  }

  lemma ServedIsFirst(s: State)
    requires ChainOk(s)
    ensures var waiting := Inputs(Chain(s));
            Served(s.order, s.base) == if waiting == [] then [] else [waiting[0]]
  {
    FirstInput(Chain(s));
  }

  lemma AloneServes(s: State)
    requires Inv(s) && Quiet(s) && s.consumer.LoadNext?
    ensures var t := Alone(s, 9); t.consumer.Out? && t.returned == s.returned + Served(s.order, s.base)
  {
    if s.tail == DUMMY {
      AloneFromDummy(s);
    } else {
      AloneFromNode(s);
      AloneOut(s, 7, 9);
    }
  }

  // When no producer is between its exchange and its link store, Dequeue fails only on
  // an empty queue and otherwise hands out the first element.
  lemma QuietDequeue(s: State)
    requires Reachable(s) && Quiet(s) && s.consumer.Out?
    ensures var t := Alone(ConsumerStep(s), 9);
            var waiting := Inputs(Chain(s));
            && t.consumer.Out?
            && t.returned == s.returned + (if waiting == [] then [] else [waiting[0]])
  {
    ReachableInv(s);
    LoadInv(s);
    AloneServes(ConsumerStep(s));
    ServedIsFirst(s);
  }

  // ---------- failure under interference ----------

  // The next step of the consumer leaves Dequeue with nothing.
  predicate Fails(s: State) {
    && !s.consumer.Out? && ConsumerStep(s).consumer.Out?
    && ConsumerStep(s).returned == s.returned
  }

  // With only the dummy chained nothing is queued, and conversely.
  lemma OnlyDummy(s: State)
    requires ChainOk(s) && s.tail == DUMMY
    ensures Inputs(Chain(s)) == [] <==> s.base == |s.order| - 1
  {
    FirstInput(Chain(s));
  }

  // A null link behind _tail belongs to the last node or to an exchange not yet linked.
  lemma NullLink(s: State)
    requires Inv(s)
    ensures s.tail !in s.link <==> s.base == |s.order| - 1 || Unlinked(s, s.base)
  {
    assert s.base < |s.order| - 1 ==> LinkOk(s, s.base);
    if p :| 0 <= p < |s.producers| && s.producers[p].Swapped? && s.producers[p].at == s.base {
      assert PendingAt(s, s.producers[p].at, s.producers[p].prev, s.producers[p].input);
    }
  }

  // Main theorem: Dequeue fails exactly at three points: at the dummy when nothing is queued
  // or the exchange behind it is not linked; at the load of _head when anything was
  // exchanged in behind the only node, linked or not; and behind the dummy it put in itself
  // when the exchange that came between is not linked.
  lemma FailsExactly(s: State)
    requires Reachable(s)
    ensures Fails(s) <==>
              || (s.consumer.LoadNext? && s.tail == DUMMY && (Inputs(Chain(s)) == [] || Unlinked(s, s.base)))
              || (s.consumer.LoadHead? && |Chain(s)| > 1)
              || (s.consumer.LoadLast? && Unlinked(s, s.base))
  {
    ReachableInv(s);
    NullLink(s);
    if s.tail == DUMMY {
      OnlyDummy(s);
    }
    if s.consumer.LoadHead? && |Chain(s)| > 1 {
      assert s.order[s.base] != s.order[|s.order| - 1];
    }
  }

  lemma {:induction false} RunMore(s: State, acts: seq<Action>, a: Action)
    requires Run(s, acts).Some? && Enabled(Run(s, acts).value, a)
    ensures Run(s, acts + [a]) == Some(Step(Run(s, acts).value, a))
    decreases |acts|
  {
    if acts == [] {
      assert acts + [a] == [a] && [a][1..] == [];
    } else {
      assert (acts + [a])[0] == acts[0] && (acts + [a])[1..] == acts[1..] + [a];
      RunMore(Step(s, acts[0]), acts[1..], a);
    }
  }

  lemma ReachableStep(s: State, a: Action)
    requires Reachable(s) && Enabled(s, a)
    ensures Reachable(Step(s, a))
  {
    var producers, acts :| Run(Init(producers), acts) == Some(s);
    RunMore(Init(producers), acts, a);
  }

  // The three steps of one Enqueue without others between.
  lemma WholeEnqueue(s: State, p: nat, n: nat) returns (t: State)
    requires Reachable(s) && Enabled(s, Clear(p, n))
    ensures Enabled(Step(s, Clear(p, n)), Swap(p)) && Enabled(Step(Step(s, Clear(p, n)), Swap(p)), Link(p))
    ensures Reachable(t) && t == Step(Step(Step(s, Clear(p, n)), Swap(p)), Link(p))
    ensures t == s.(link := (s.link - {n})[s.head := n], head := n, order := s.order + [n], producers := t.producers)
  {
    var s1 := Step(s, Clear(p, n));
    var s2 := Step(s1, Swap(p));
    t := Step(s2, Link(p));
    ReachableStep(s, Clear(p, n));
    ReachableStep(s1, Swap(p));
    ReachableStep(s2, Link(p));
  }

  lemma TwoInputs(a: nat, b: nat)
    requires a != DUMMY && b != DUMMY
    ensures Inputs([a, b]) == [a, b]
  {
    var q := [a, b];
    assert q[..2] == q && q[..1] == [a] && q[..0] == [];
    InputsNext(q, 0);
    InputsNext(q, 1);
  }

  lemma ChainGrows(s: State, t: State, n: nat)
    requires ChainOk(s) && t.order == s.order + [n] && t.base == s.base
    ensures Chain(t) == Chain(s) + [n] && s.head == Chain(s)[|Chain(s)| - 1]
  {
  }

  // An element comes in whole between the two loads: it is queued and linked, and so is the
  // one before it, yet Dequeue fails.
  lemma LinkedYetRefused(s: State, p: nat, n: nat) returns (t: State)
    requires Reachable(s) && s.consumer.LoadHead? && Chain(s) == [s.tail] && Enabled(s, Clear(p, n))
    ensures Enabled(Step(s, Clear(p, n)), Swap(p)) && Enabled(Step(Step(s, Clear(p, n)), Swap(p)), Link(p))
    ensures Reachable(t) && t == Step(Step(Step(s, Clear(p, n)), Swap(p)), Link(p))
    ensures Fails(t) && Chain(t) == [s.tail, n] == Inputs(Chain(t))
    ensures t.tail == s.tail && t.tail in t.link && t.link[t.tail] == n
  {
    t := WholeEnqueue(s, p, n);
    ReachableInv(s);
    ChainGrows(s, t, n);
    TwoInputs(s.tail, n);
    FailsExactly(t);
  }

  // One producer and one element are enough to come to such a state.
  lemma OneQueued() returns (s: State)
    ensures Reachable(s) && s == State(map[DUMMY := 1], 1, DUMMY, [Idle], Out, [DUMMY, 1], 0, [])
  {
    var s0 := Init(1);
    assert Run(s0, []) == Some(s0);
    ReachableStep(s0, Clear(0, 1));
    var s1 := Step(s0, Clear(0, 1));
    ReachableStep(s1, Swap(0));
    var s2 := Step(s1, Swap(0));
    ReachableStep(s2, Link(0));
    s := Step(s2, Link(0));
  }

  lemma LoadHeadReached() returns (s: State)
    ensures Reachable(s) && s.consumer.LoadHead? && Chain(s) == [s.tail] && Enabled(s, Clear(0, 2))
  {
    var s3 := OneQueued();
    ReachableStep(s3, Consume);
    var s4 := ConsumerStep(s3);
    ReachableStep(s4, Consume);
    var s5 := ConsumerStep(s4);
    ReachableStep(s5, Consume);
    var s6 := ConsumerStep(s5);
    ReachableStep(s6, Consume);
    s := ConsumerStep(s6);
  }
}
