/**
  The non-intrusive multi-producer single-consumer queue under sequentially
  consistent interleaving, with node allocation and deletion: every atomic
  operation, the reads of node fields and the delete are one step each.  Nodes are
  numbered in allocation order; a node that is not in `link` has a null Next.
 */
module MpscNonIntrusive {
  import opened Options

  // A datum is the T* a caller enqueues, here a number.

  // `at` is the place of the exchange: it put `node` at order[at + 1].
  datatype Producer =
    | Idle
    | Made(node: nat)
    | Swapped(node: nat, prevHead: nat, at: int)

  datatype Consumer =
    | Out
    | LoadNext(tail: nat)
    | ReadData(tail: nat, next: nat)
    | StoreTail(tail: nat, next: nat, result: int)
    | Delete(tail: nat, result: int)

  // Data of node n is data[n]; node 0 is the stub of the constructor, without data.
  // `order` lists the nodes in exchange order, order[base] is the node _tail points
  // to, `inputs` what producers exchanged in, `outputs` what Dequeue returned.
  datatype State = State(
    data: seq<Option<int>>, freed: set<nat>, link: map<nat, nat>, head: nat, tail: nat,
    producers: seq<Producer>, consumer: Consumer,
    order: seq<nat>, base: nat, inputs: seq<int>, outputs: seq<int>)

  datatype Action = Make(p: nat, input: int) | Swap(p: nat) | Link(p: nat) | Consume

  function Init(producers: nat): State {
    State([None], {}, map[], 0, 0, seq(producers, _ => Idle), Out, [0], 0, [], [])
  }

  predicate Enabled(s: State, a: Action) {
    match a
    case Make(p, _) => p < |s.producers| && s.producers[p].Idle?
    case Swap(p) =>
      && p < |s.producers| && s.producers[p].Made?
      && s.producers[p].node < |s.data| && s.data[s.producers[p].node].Some?
    case Link(p) => p < |s.producers| && s.producers[p].Swapped?
    case Consume => s.consumer.ReadData? ==> s.consumer.next < |s.data| && s.data[s.consumer.next].Some?
  }

  function Step(s: State, a: Action): State
    requires Enabled(s, a)
  {
    match a
    case Make(p, input) =>
      s.(data := s.data + [Some(input)], producers := s.producers[p := Made(|s.data|)])
    case Swap(p) =>
      var n := s.producers[p].node;
      s.(head := n, order := s.order + [n], inputs := s.inputs + [s.data[n].value],
         producers := s.producers[p := Swapped(n, s.head, |s.order| - 1)])
    case Link(p) =>
      s.(link := s.link[s.producers[p].prevHead := s.producers[p].node], producers := s.producers[p := Idle])
    case Consume =>
      match s.consumer
      case Out => s.(consumer := LoadNext(s.tail))
      case LoadNext(tail) => s.(consumer := if tail in s.link then ReadData(tail, s.link[tail]) else Out)
      case ReadData(tail, next) => s.(consumer := StoreTail(tail, next, s.data[next].value))
      case StoreTail(tail, next, result) => s.(tail := next, base := s.base + 1, consumer := Delete(tail, result))
      case Delete(tail, result) =>
        s.(freed := s.freed + {tail}, outputs := s.outputs + [result], consumer := Out)
  }

  // The nodes whose fields a step reads or writes, or that it deletes.
  function Touches(s: State, a: Action): set<nat>
    requires Enabled(s, a)
  {
    match a
    case Make(_, _) => {}
    case Swap(p) => {}
    case Link(p) => {s.producers[p].prevHead}
    case Consume =>
      match s.consumer
      case LoadNext(tail) => {tail}
      case ReadData(_, next) => {next}
      case Delete(tail, _) => {tail}
      case _ => {}
  }

  // ---------- the invariant ----------

  ghost predicate Unlinked(s: State, k: int) {
    exists p :: 0 <= p < |s.producers| && s.producers[p].Swapped? && s.producers[p].at == k
  }

  ghost predicate LinkOk(s: State, k: int) {
    && 0 <= k < |s.order| - 1
    && if s.order[k] in s.link then s.link[s.order[k]] == s.order[k + 1] else Unlinked(s, k)
  }

  // Every exchanged node but the stub carries the datum exchanged in with it.
  ghost predicate DataOk(s: State) {
    && |s.inputs| == |s.order| - 1
    && (forall k :: 0 <= k < |s.order| ==> s.order[k] < |s.data|)
    && (forall k :: 1 <= k < |s.order| ==> s.data[s.order[k]] == Some(s.inputs[k - 1]))
  }

  ghost predicate ChainOk(s: State) {
    && s.base < |s.order|
    && s.order[s.base] == s.tail
    && s.order[|s.order| - 1] == s.head
    && s.head !in s.link
    && (forall n :: n in s.link ==> n < |s.data|)
    && (forall i, j :: 0 <= i < j < |s.order| ==> s.order[i] != s.order[j])
    && (forall k :: s.base <= k < |s.order| - 1 ==> LinkOk(s, k))
  }

  ghost predicate MadeOk(s: State, p: nat)
    requires p < |s.producers|
  {
    s.producers[p].Made? ==>
      var n := s.producers[p].node;
      && n < |s.data| && s.data[n].Some? && n !in s.link && n !in s.freed
      && forall k :: 0 <= k < |s.order| ==> s.order[k] != n
  }

  ghost predicate SwappedOk(s: State, p: nat)
    requires p < |s.producers|
  {
    s.producers[p].Swapped? ==>
      var k := s.producers[p].at;
      && s.base <= k && k < |s.order| - 1
      && s.order[k] == s.producers[p].prevHead && s.order[k + 1] == s.producers[p].node
      && s.order[k] !in s.link
  }

  // Two producers never carry the same node and never wait at the same place.
  predicate Apart(p: Producer, q: Producer) {
    && (p.Made? && q.Made? ==> p.node != q.node)
    && (p.Swapped? && q.Swapped? ==> p.at != q.at)
  }

  ghost predicate ProducersOk(s: State) {
    && (forall p :: 0 <= p < |s.producers| ==> MadeOk(s, p) && SwappedOk(s, p))
    && (forall p, q :: 0 <= p < q < |s.producers| ==> Apart(s.producers[p], s.producers[q]))
  }

  // How many nodes have been deleted; the one being deleted is order[Dead(s)].
  function Dead(s: State): int {
    if s.consumer.Delete? then s.base - 1 else s.base
  }

  ghost predicate ConsumerOk(s: State) {
    && (match s.consumer
        case Out => true
        case LoadNext(tail) => tail == s.tail
        case ReadData(tail, next) => tail == s.tail && tail in s.link && s.link[tail] == next
        case StoreTail(tail, next, result) =>
          && tail == s.tail && tail in s.link && s.link[tail] == next
          && s.base < |s.inputs| && result == s.inputs[s.base]
        case Delete(tail, result) =>
          && 0 < s.base <= |s.inputs| && s.base <= |s.order|
          && tail == s.order[s.base - 1] && tail in s.link && result == s.inputs[s.base - 1])
    && |s.outputs| == Dead(s) <= |s.inputs|
    && s.outputs == s.inputs[..Dead(s)]
  }

  // Exactly the nodes before the place Dead(s) have been deleted.
  ghost predicate FreedOk(s: State) {
    && (forall n :: n in s.freed ==> n < |s.data|)
    && (forall k :: 0 <= k < |s.order| ==> (s.order[k] in s.freed <==> k < Dead(s)))
  }

  ghost predicate Inv(s: State) {
    DataOk(s) && ChainOk(s) && ProducersOk(s) && ConsumerOk(s) && FreedOk(s)
  }

  lemma InitInv(producers: nat)
    ensures Inv(Init(producers))
  {
  }

  lemma LinksKept(s: State, t: State, k: int, p: int)
    requires LinkOk(s, k) && s.order <= t.order && t.link == s.link && |t.producers| == |s.producers|
    requires forall i :: 0 <= i < |s.producers| && i != p ==> t.producers[i] == s.producers[i]
    requires 0 <= p < |s.producers| ==> !s.producers[p].Swapped?
    ensures LinkOk(t, k)
  {
    if i :| 0 <= i < |s.producers| && s.producers[i].Swapped? && s.producers[i].at == k {
      assert t.producers[i].Swapped? && t.producers[i].at == k;
    }
  }

  lemma MakeInv(s: State, p: nat, input: int)
    requires Inv(s) && Enabled(s, Make(p, input))
    ensures Inv(Step(s, Make(p, input)))
  {
    var t := Step(s, Make(p, input));
    forall i, j | 0 <= i < j < |t.producers|
      ensures Apart(t.producers[i], t.producers[j])
    {
      assert MadeOk(s, i) && MadeOk(s, j) && Apart(s.producers[i], s.producers[j]);
    }
    forall k | t.base <= k < |t.order| - 1 ensures LinkOk(t, k) { LinksKept(s, t, k, p); }
    forall i | 0 <= i < |t.producers|
      ensures MadeOk(t, i) && SwappedOk(t, i)
    {
      assert MadeOk(s, i) && SwappedOk(s, i);
    }
  }

  lemma SwapProducers(s: State, p: nat)
    requires Inv(s) && Enabled(s, Swap(p))
    ensures ProducersOk(Step(s, Swap(p)))
  {
    var t := Step(s, Swap(p));
    assert MadeOk(s, p);
    forall i, j | 0 <= i < j < |t.producers|
      ensures Apart(t.producers[i], t.producers[j])
    {
      assert SwappedOk(s, i) && SwappedOk(s, j) && Apart(s.producers[i], s.producers[j]);
    }
    forall i | 0 <= i < |t.producers|
      ensures MadeOk(t, i) && SwappedOk(t, i)
    {
      assert MadeOk(s, i) && SwappedOk(s, i);
      assert i < p ==> Apart(s.producers[i], s.producers[p]);
      assert p < i ==> Apart(s.producers[p], s.producers[i]);
    }
  }

  lemma SwapInv(s: State, p: nat)
    requires Inv(s) && Enabled(s, Swap(p))
    ensures Inv(Step(s, Swap(p)))
  {
    var t := Step(s, Swap(p));
    assert MadeOk(s, p);
    SwapProducers(s, p);
    forall k | t.base <= k < |t.order| - 1
      ensures LinkOk(t, k)
    {
      if k == |s.order| - 1 {
        assert t.producers[p].Swapped? && t.producers[p].at == k;
      } else {
        LinksKept(s, t, k, p);
      }
    }
  }

  lemma LinkChain(s: State, p: nat)
    requires Inv(s) && Enabled(s, Link(p))
    ensures ChainOk(Step(s, Link(p)))
  {
    var t := Step(s, Link(p));
    assert SwappedOk(s, p);
    forall k | t.base <= k < |t.order| - 1
      ensures LinkOk(t, k)
    {
      assert LinkOk(s, k);
      if i :| 0 <= i < |s.producers| && i != p && s.producers[i].Swapped? && s.producers[i].at == k {
        assert t.producers[i].Swapped? && t.producers[i].at == k;
      }
    }
  }

  lemma LinkApart(s: State, p: nat, i: nat)
    requires Inv(s) && Enabled(s, Link(p)) && i < |s.producers|
    ensures MadeOk(Step(s, Link(p)), i) && SwappedOk(Step(s, Link(p)), i)
  {
    assert MadeOk(s, i) && SwappedOk(s, i) && SwappedOk(s, p);
    assert i < p ==> Apart(s.producers[i], s.producers[p]);
    assert p < i ==> Apart(s.producers[p], s.producers[i]);
  }

  lemma LinkProducers(s: State, p: nat)
    requires Inv(s) && Enabled(s, Link(p))
    ensures ProducersOk(Step(s, Link(p)))
  {
    var t := Step(s, Link(p));
    forall i, j | 0 <= i < j < |t.producers| ensures Apart(t.producers[i], t.producers[j]) {
      assert Apart(s.producers[i], s.producers[j]);
    }
    forall i | 0 <= i < |t.producers| ensures MadeOk(t, i) && SwappedOk(t, i) { LinkApart(s, p, i); }
  }

  // The link store touches no link the consumer has read.
  lemma LinkConsumer(s: State, p: nat)
    requires Inv(s) && Enabled(s, Link(p))
    ensures ConsumerOk(Step(s, Link(p)))
  {
    assert SwappedOk(s, p);
  }

  lemma LinkInv(s: State, p: nat)
    requires Inv(s) && Enabled(s, Link(p))
    ensures Inv(Step(s, Link(p)))
  {
    LinkChain(s, p);
    LinkProducers(s, p);
    LinkConsumer(s, p);
  }

  // The link just read leads to the next node in exchange order.
  lemma NextInOrder(s: State)
    requires Inv(s) && s.tail in s.link
    ensures s.base < |s.order| - 1 && s.link[s.tail] == s.order[s.base + 1]
  {
    assert s.base < |s.order| - 1 ==> LinkOk(s, s.base);
  }

  // Moving the consumer alone does not disturb the chain and the producers.
  lemma ConsumerOnly(s: State, t: State)
    requires ChainOk(s) && ProducersOk(s) && t == s.(consumer := t.consumer)
    ensures ChainOk(t) && ProducersOk(t)
  {
    forall k | t.base <= k < |t.order| - 1 ensures LinkOk(t, k) { LinksKept(s, t, k, -1); }
    forall i | 0 <= i < |t.producers| ensures MadeOk(t, i) && SwappedOk(t, i) {
      assert MadeOk(s, i) && SwappedOk(s, i);
    }
  }

  // A step that changes nothing but what the consumer has read.
  lemma LoadInv(s: State)
    requires Inv(s) && Enabled(s, Consume) && (s.consumer.Out? || s.consumer.LoadNext? || s.consumer.ReadData?)
    ensures Inv(Step(s, Consume))
  {
    if s.tail in s.link {
      NextInOrder(s);
    }
    ConsumerOnly(s, Step(s, Consume));
  }

  lemma StoreTailInv(s: State)
    requires Inv(s) && s.consumer.StoreTail?
    ensures Inv(Step(s, Consume))
  {
    var t := Step(s, Consume);
    NextInOrder(s);
    forall k | t.base <= k < |t.order| - 1 ensures LinkOk(t, k) { LinksKept(s, t, k, -1); }
    forall i | 0 <= i < |t.producers|
      ensures MadeOk(t, i) && SwappedOk(t, i)
    {
      assert MadeOk(s, i) && SwappedOk(s, i);
    }
  }

  lemma DeleteInv(s: State)
    requires Inv(s) && s.consumer.Delete?
    ensures Inv(Step(s, Consume))
  {
    var t := Step(s, Consume);
    assert s.order[s.base - 1] == s.consumer.tail;
    forall k | t.base <= k < |t.order| - 1 ensures LinkOk(t, k) { LinksKept(s, t, k, -1); }
    forall i | 0 <= i < |t.producers|
      ensures MadeOk(t, i) && SwappedOk(t, i)
    {
      assert MadeOk(s, i) && SwappedOk(s, i);
    }
  }

  lemma StepInv(s: State, a: Action)
    requires Inv(s) && Enabled(s, a)
    ensures Inv(Step(s, a))
  {
    match a
    case Make(p, input) => MakeInv(s, p, input);
    case Swap(p) => SwapInv(s, p);
    case Link(p) => LinkInv(s, p);
    case Consume =>
      match s.consumer {
        case StoreTail(_, _, _) => StoreTailInv(s);
        case Delete(_, _) => DeleteInv(s);
        case _ => LoadInv(s);
      }
  }

  // ---------- whole runs ----------

  function Run(s: State, acts: seq<Action>): Option<State>
    decreases |acts|
  {
    if acts == [] then Some(s)
    else if Enabled(s, acts[0]) then Run(Step(s, acts[0]), acts[1..])
    else None
  }

  // A state of some run with any number of producers.
  ghost predicate Reachable(s: State) {
    exists producers, acts :: Run(Init(producers), acts) == Some(s)
  }

  lemma {:induction false} RunInv(s: State, acts: seq<Action>)
    requires Inv(s) && Run(s, acts).Some?
    ensures Inv(Run(s, acts).value)
    decreases |acts|
  {
    if acts != [] {
      StepInv(s, acts[0]);
      RunInv(Step(s, acts[0]), acts[1..]);
    }
  }

  lemma ReachableInv(s: State)
    requires Reachable(s)
    ensures Inv(s)
  {
    var producers, acts :| Run(Init(producers), acts) == Some(s);
    InitInv(producers);
    RunInv(Init(producers), acts);
  }

  // ---------- what callers put in and get out ----------

  // The arguments of Enqueue in the order of the exchanges, read off the actions alone;
  // `asked` is what each producer was called with last.
  function Sent(acts: seq<Action>, asked: map<nat, int>): seq<int>
    decreases |acts|
  {
    if acts == [] then []
    else match acts[0]
         case Make(p, input) => Sent(acts[1..], asked[p := input])
         case Swap(p) => (if p in asked then [asked[p]] else []) + Sent(acts[1..], asked)
         case _ => Sent(acts[1..], asked)
  }

  // Every node not yet exchanged in carries what its producer was called with.
  ghost predicate Carries(s: State, asked: map<nat, int>) {
    forall p :: 0 <= p < |s.producers| && s.producers[p].Made? ==>
      p in asked && s.producers[p].node < |s.data| && s.data[s.producers[p].node] == Some(asked[p])
  }

  function Recalled(a: Action, asked: map<nat, int>): map<nat, int> {
    if a.Make? then asked[a.p := a.input] else asked
  }

  lemma StepCarries(s: State, a: Action, asked: map<nat, int>)
    requires Carries(s, asked) && Enabled(s, a)
    ensures Carries(Step(s, a), Recalled(a, asked))
  {
  }

  lemma {:induction false} RunSends(s: State, acts: seq<Action>, asked: map<nat, int>)
    requires Carries(s, asked) && Run(s, acts).Some?
    ensures Run(s, acts).value.inputs == s.inputs + Sent(acts, asked)
    decreases |acts|
  {
    if acts != [] {
      var t := Step(s, acts[0]);
      StepCarries(s, acts[0], asked);
      RunSends(t, acts[1..], Recalled(acts[0], asked));
    }
  }

  // Main theorem.  In every run Dequeue returns what Enqueue was called with, in exchange
  // order, none lost and none twice: the outputs are a prefix of the arguments, and what is
  // missing is what sits behind _tail plus the one element just being deleted.
  lemma OutputsFollowExchangeOrder(producers: nat, acts: seq<Action>, s: State)
    requires Run(Init(producers), acts) == Some(s)
    ensures s.outputs <= Sent(acts, map[])
    ensures |Sent(acts, map[])| - |s.outputs| == |s.order| - 1 - s.base + (if s.consumer.Delete? then 1 else 0)
    ensures s.inputs == Sent(acts, map[])
  {
    assert Reachable(s);
    ReachableInv(s);
    RunSends(Init(producers), acts, map[]);
  }

  // No step of any run touches a deleted node, and none is deleted twice.
  lemma NoUseAfterDelete(s: State, a: Action)
    requires Reachable(s) && Enabled(s, a)
    ensures Touches(s, a) !! s.freed
  {
    ReachableInv(s);
    match a
    case Link(p) =>
      assert SwappedOk(s, p);
      assert s.order[s.producers[p].at] !in s.freed;
    case Consume =>
      assert s.order[s.base] !in s.freed;
      if s.consumer.ReadData? {
        NextInOrder(s);
        assert s.order[s.base + 1] !in s.freed;
      } else if s.consumer.Delete? {
        assert s.order[s.base - 1] !in s.freed;
      }
    case _ =>
  }

  // No read of a node's data can fail: a producer that made a node can always exchange it
  // in, and the consumer can always take its next step.
  lemma NeverStuck(s: State, p: nat)
    requires Reachable(s)
    ensures Enabled(s, Consume)
    ensures p < |s.producers| && s.producers[p].Made? ==> Enabled(s, Swap(p))
  {
    ReachableInv(s);
    if s.consumer.ReadData? {
      NextInOrder(s);
    }
    if p < |s.producers| {
      assert MadeOk(s, p);
    }
  }

  // A node is deleted only after the producer that exchanged behind it stored the link.
  lemma DeletedAfterLinkStore(s: State, p: nat)
    requires Reachable(s) && s.consumer.Delete? && p < |s.producers| && s.producers[p].Swapped?
    ensures s.producers[p].prevHead != s.consumer.tail
    ensures s.consumer.tail in s.link
  {
    ReachableInv(s);
    assert SwappedOk(s, p);
  }

  // The next step of the consumer leaves Dequeue with nothing.
  predicate Fails(s: State)
    requires Enabled(s, Consume)
  {
    var t := Step(s, Consume);
    !s.consumer.Out? && t.consumer.Out? && t.outputs == s.outputs
  }

  // Dequeue fails exactly when it loads the link with nothing queued or with the next
  // producer in exchange order yet to store its link.
  lemma FalseOnlyWhenEmptyOrUnlinked(s: State)
    requires Reachable(s)
    ensures Enabled(s, Consume)
    ensures Fails(s) <==> s.consumer.LoadNext? && (|s.inputs| == |s.outputs| || Unlinked(s, s.base))
  {
    NeverStuck(s, 0);
    ReachableInv(s);
    assert s.base < |s.order| - 1 ==> LinkOk(s, s.base);
    if p :| 0 <= p < |s.producers| && s.producers[p].Swapped? && s.producers[p].at == s.base {
      assert SwappedOk(s, p);
    }
  }

  // ---------- Dequeue without interference ----------

  lemma {:induction false} RunMore(s: State, acts: seq<Action>, a: Action)
    requires Run(s, acts).Some? && Enabled(Run(s, acts).value, a)
    ensures Run(s, acts + [a]) == Some(Step(Run(s, acts).value, a))
    decreases |acts|
  {
    if acts == [] {
      assert acts + [a] == [a] && [a][1..] == [];
    } else {
      assert (acts + [a])[0] == acts[0] && (acts + [a])[1..] == acts[1..] + [a];
      RunMore(Step(s, acts[0]), acts[1..], a);
    }
  }

  lemma ConsumeReaches(s: State)
    requires Reachable(s)
    ensures Enabled(s, Consume) && Reachable(Step(s, Consume))
  {
    NeverStuck(s, 0);
    var producers, acts :| Run(Init(producers), acts) == Some(s);
    RunMore(Init(producers), acts, Consume);
  }

  // The consumer alone runs until it leaves Dequeue, at most `steps` steps.
  function Alone(s: State, steps: nat): State
    decreases steps
  {
    if steps == 0 || s.consumer.Out? || !Enabled(s, Consume) then s else Alone(Step(s, Consume), steps - 1)
  }

  // From a link found to the result, in three steps.
  lemma AloneFound(s: State)
    requires Reachable(s) && s.consumer.ReadData?
    ensures |s.outputs| < |s.inputs|
    ensures var t := Alone(s, 3);
            t.consumer.Out? && t.inputs == s.inputs && t.outputs == s.outputs + [s.inputs[|s.outputs|]]
  {
    ReachableInv(s);
    ConsumeReaches(s);
    var s1 := Step(s, Consume);
    ReachableInv(s1);
    ConsumeReaches(s1);
    var s2 := Step(s1, Consume);
    ConsumeReaches(s2);
    assert Alone(s2, 1) == Step(s2, Consume);
    assert Alone(s1, 2) == Alone(s2, 1);
  }

  // When no producer is between its exchange and its link store, Dequeue fails only on an
  // empty queue and otherwise hands out the oldest element.
  lemma QuietDequeue(s: State)
    requires Reachable(s) && s.consumer.Out?
    requires forall p :: 0 <= p < |s.producers| ==> !s.producers[p].Swapped?
    ensures Enabled(s, Consume) && |s.outputs| <= |s.inputs|
    ensures var t := Alone(Step(s, Consume), 4);
            && t.consumer.Out? && t.inputs == s.inputs
            && t.outputs == s.outputs + if |s.outputs| == |s.inputs| then [] else [s.inputs[|s.outputs|]]
  {
    ReachableInv(s);
    ConsumeReaches(s);
    var s1 := Step(s, Consume);
    FalseOnlyWhenEmptyOrUnlinked(s1);
    ConsumeReaches(s1);
    var s2 := Step(s1, Consume);
    assert Alone(s1, 4) == Alone(s2, 3);
    if !s2.consumer.Out? {
      AloneFound(s2);
    }
  }
}
