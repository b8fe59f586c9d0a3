/**
  The timer set over whole runs: any calls of AddTimer, DelTimer and HandleTimer while time
  passes, and what the order of firing depends on.
 */
module TimerRuns {
  import opened Options
  import opened Timers

  datatype Call =
    | AddTimer(msec: nat, func: seq<Op>)
    | DelTimer(expire: int, id: int)
    | Wait(d: nat)
    | HandleTimer(now: int)

  function Called(s: Table, c: Call): Table {
    match c
    case AddTimer(msec, func) => AddTo(s, msec, func)
    case DelTimer(expire, id) => DelFrom(s, expire, id)
    case Wait(d) => s.(tick := s.tick + d)
    case HandleTimer(now) => Handled(s, now)
  }

  function Run(s: Table, calls: seq<Call>): Table
    decreases |calls|
  {
    if calls == [] then s else Run(Called(s, calls[0]), calls[1..])
  }

  // Every time HandleTimer is given has come.
  predicate Timely(s: Table, calls: seq<Call>)
    decreases |calls|
  {
    calls != [] ==>
      (calls[0].HandleTimer? ==> calls[0].now <= s.tick) && Timely(Called(s, calls[0]), calls[1..])
  }

  lemma RunTwo(s: Table, a: Call, b: Call)
    ensures Run(s, [a, b]) == Called(Called(s, a), b)
    ensures Timely(s, [a, b]) <==> (a.HandleTimer? ==> a.now <= s.tick)
                                   && (b.HandleTimer? ==> b.now <= Called(s, a).tick)
  {
    var t := Called(s, a);
    assert [a, b][1..] == [b] && [b][1..] == [];
    assert Run(t, [b]) == Run(Called(t, b), []) == Called(t, b);
    assert Timely(t, [b]) <==> (b.HandleTimer? ==> b.now <= t.tick);
  }

  // ---------- what every run keeps ----------

  lemma CallKeeps(s: Table, c: Call)
    requires Sound(s)
    ensures Sound(Called(s, c)) && s.fired <= Called(s, c).fired
    ensures Prompt(s) && (c.HandleTimer? ==> c.now <= s.tick) ==> Prompt(Called(s, c))
  {
    match c
    case AddTimer(msec, func) =>
      AddSound(s, msec, func);
      if Prompt(s) {
        AddPrompt(s, msec, func);
      }
    case DelTimer(expire, id) => DelKeeps(s, expire, id);
    case Wait(_) =>
    case HandleTimer(now) => HandledPromises(s, now);
  }

  lemma {:induction false} RunKeeps(s: Table, calls: seq<Call>)
    requires Sound(s)
    ensures Sound(Run(s, calls)) && s.fired <= Run(s, calls).fired
    ensures Prompt(s) && Timely(s, calls) ==> Prompt(Run(s, calls))
    decreases |calls|
  {
    if calls != [] {
      CallKeeps(s, calls[0]);
      RunKeeps(Called(s, calls[0]), calls[1..]);
    }
  }

  // Main theorem: in every run, whatever times HandleTimer is given, no timer fires twice,
  // none fires that was deleted, and every id handed out is pending, fired or deleted.
  lemma FiredAtMostOnce(tick: int, calls: seq<Call>)
    ensures var t := Run(Begin(tick), calls);
            && (forall i, j :: 0 <= i < j < |t.fired| ==> t.fired[i].id != t.fired[j].id)
            && (forall n :: n in t.fired ==> n.id !in t.deleted && !HasId(t.q, n.id))
            && (forall i :: 0 <= i < t.tid ==> i in t.deleted || HasId(t.q, i) || HasId(t.fired, i))
  {
    RunKeeps(Begin(tick), calls);
  }

  // A state of a run in which every time given had come.
  ghost predicate Reached(s: Table) {
    exists tick, calls :: Timely(Begin(tick), calls) && Run(Begin(tick), calls) == s
  }

  lemma ReachedOrdered(s: Table)
    requires Reached(s)
    ensures Sound(s) && Prompt(s)
  {
    var tick, calls :| Timely(Begin(tick), calls) && Run(Begin(tick), calls) == s;
    RunKeeps(Begin(tick), calls);
  }

  // Main theorem: in every such run the timers fired so far are in strict order of expiry
  // and id, all of them due, and before all that are pending; and what the next HandleTimer
  // fires is due at the call already, follows all that, and leaves nothing due.
  lemma FiredInStrictOrder(s: Table, now: int)
    requires Reached(s) && now <= s.tick
    ensures Sorted(s.fired) && (forall f :: f in s.fired ==> f.expire <= s.tick)
    ensures forall f, n :: f in s.fired && n in s.q ==> Less(f, n)
    ensures var t := Handled(s, now);
            && s.fired <= t.fired && Sorted(t.fired)
            && (forall n :: n in t.fired[|s.fired|..] ==> n.expire <= now)
            && (forall n :: n in t.q ==> n.expire > now)
  {
    ReachedOrdered(s);
    HandledPromises(s, now);
  }

  // ---------- what strict order needs ----------

  // However the run goes on, as long as times given have come, firing stays in strict order.
  ghost predicate StaysOrdered(s: Table) {
    forall calls :: Timely(s, calls) ==> Sorted(Run(s, calls).fired)
  }

  // Any pending timer can be the next to fire: those before it are deleted.
  lemma {:induction false} FireNext(s: Table, n: Node) returns (calls: seq<Call>)
    requires Sound(s) && n in s.q
    ensures Timely(s, calls) && s.fired + [n] <= Run(s, calls).fired
    decreases |s.q|
  {
    var first := s.q[0];
    if first == n {
      calls := FireFirst(s);
    } else {
      var t := DelFrom(s, first.expire, first.id);
      HeadOfSorted(s.q);
      DelKeeps(s, first.expire, first.id);
      var later := FireNext(t, n);
      calls := [DelTimer(first.expire, first.id)] + later;
    }
  }

  // The first pending timer fires once its time has come.
  lemma FireFirst(s: Table) returns (calls: seq<Call>)
    requires Sound(s) && s.q != []
    ensures Timely(s, calls) && s.fired + [s.q[0]] <= Run(s, calls).fired
  {
    var n := s.q[0];
    var d: nat := if n.expire > s.tick then n.expire - s.tick else 0;
    var t := s.(tick := s.tick + d);
    var news := HandleFires(t, Front(t.q), n.expire);
    calls := [Wait(d), HandleTimer(n.expire)];
    RunTwo(s, Wait(d), HandleTimer(n.expire));
    FirstOfNews(s.fired, n, news);
  }

  lemma FirstOfNews(fired: seq<Node>, n: Node, news: seq<Node>)
    requires news != [] && news[0] == n
    ensures fired + [n] <= fired + news
  {
  }

  lemma OutOfOrder(fired: seq<Node>, f: Node, n: Node, all: seq<Node>)
    requires f in fired && !Less(f, n) && fired + [n] <= all
    ensures !Sorted(all)
  {
    var i :| 0 <= i < |fired| && fired[i] == f;
    assert all[i] == f && all[|fired|] == n;
  }

  // A timer fired before its time: one added right after it is due earlier.
  lemma EarlyOvertaken(s: Table, f: Node) returns (calls: seq<Call>)
    requires Sound(s) && f in s.fired && f.expire > s.tick
    ensures Timely(s, calls) && !Sorted(Run(s, calls).fired)
  {
    var n := Node(s.tick, s.tid, []);
    var t := Called(s, AddTimer(0, []));
    CallKeeps(s, AddTimer(0, []));
    InsertAdds(s.q, n);
    var later := FireNext(t, n);
    calls := [AddTimer(0, [])] + later;
    OutOfOrder(t.fired, f, n, Run(t, later).fired);
  }

  // Main theorem: the order is safe from here on exactly if what has fired is in order, due,
  // and before all that is pending.
  lemma PromptExactly(s: Table)
    requires Sound(s)
    ensures StaysOrdered(s) <==> Prompt(s)
  {
    if Prompt(s) {
      forall calls | Timely(s, calls) ensures Sorted(Run(s, calls).fired) { RunKeeps(s, calls); }
    } else if f :| f in s.fired && f.expire > s.tick {
      var _ := EarlyOvertaken(s, f);
    } else if f, n :| f in s.fired && n in s.q && !Less(f, n) {
      var calls := FireNext(s, n);
      OutOfOrder(s.fired, f, n, Run(s, calls).fired);
    } else {
      assert Run(s, []) == s && Timely(s, []);
    }
  }

  // ---------- a time still to come ----------

  // One timer, due at `now`, whose callback adds one that is due at once.
  function Chained(tick: int, now: int): Table {
    Table([Node(now, 0, [Add(0, [])])], 1, tick, [], {})
  }

  lemma ChainedReached(tick: int, now: int)
    requires tick <= now
    ensures Reached(Chained(tick, now))
  {
    var c := AddTimer(now - tick, [Add(0, [])]);
    assert [c][1..] == [];
    assert Run(Begin(tick), [c]) == Called(Begin(tick), c) == Chained(tick, now);
    assert Timely(Begin(tick), [c]);
  }

  // Before its time the callback's timer sorts in front of the one running, the iterator goes
  // past it, and the next call fires it out of order.
  lemma EarlyHandling(tick: int, now: int)
    requires tick < now
    ensures var late, t := Node(tick, 1, []), Handled(Chained(tick, now), now);
            t == Table([late], 2, tick, [Node(now, 0, [Add(0, [])])], {})
  {
    var s := Chained(tick, now);
    var it, added := s.q[0], Node(tick, 1, []);
    assert s.q == [it] && it in s.q;
    var r := RunOps(s, it, it.func);
    assert r == RunOps(OneOp(s, it, it.func[0]), it, it.func[1..]);
    assert r.q == [added] + [it];
    var t := Turn(s, it);
    assert t.q == [added] + Erase([it], it) == [added];
    assert After(t.q, it) == After([], it) == None;
    assert HandleFrom(s, Some(it), now) == HandleFrom(t, None, now) == t;
  }

  lemma EarlyHandlingBreaksOrder(tick: int, now: int)
    requires tick < now
    ensures Reached(Chained(tick, now))
    ensures var t := Handled(Chained(tick, now), now);
            (exists n :: n in t.q && n.expire <= now) && !Sorted(Handled(t, tick).fired)
  {
    ChainedReached(tick, now);
    EarlyHandling(tick, now);
    ReachedOrdered(Chained(tick, now));
    var t, late := Handled(Chained(tick, now), now), Node(tick, 1, []);
    HandledPromises(Chained(tick, now), now);
    assert late in t.q;
    var news := HandleFires(t, Front(t.q), tick);
    FirstOfNews(t.fired, late, news);
    OutOfOrder(t.fired, t.fired[0], late, Handled(t, tick).fired);
  }

  // Main theorem: over all that can be pending, HandleTimer leaves nothing due exactly if the
  // time it is given has come.
  lemma NothingDueRemainsExactly(tick: int, now: int)
    ensures (forall s, n :: Reached(s) && s.tick == tick && n in Handled(s, now).q ==> n.expire > now)
       <==> now <= tick
  {
    if now <= tick {
      forall s, n | Reached(s) && s.tick == tick && n in Handled(s, now).q ensures n.expire > now {
        FiredInStrictOrder(s, now);
      }
    } else {
      EarlyHandlingBreaksOrder(tick, now);
      assert Reached(Chained(tick, now));
    }
  }

  // Main theorem: and exactly then is every run that goes on from there in strict order.
  lemma OrderSafeExactly(tick: int, now: int)
    ensures (forall s :: Reached(s) && s.tick == tick ==> StaysOrdered(Handled(s, now))) <==> now <= tick
  {
    if now <= tick {
      forall s | Reached(s) && s.tick == tick ensures StaysOrdered(Handled(s, now)) {
        ReachedOrdered(s);
        HandledPromises(s, now);
        PromptExactly(Handled(s, now));
      }
    } else {
      var s := Chained(tick, now);
      EarlyHandlingBreaksOrder(tick, now);
      assert Run(Handled(s, now), [HandleTimer(tick)]) == Handled(Handled(s, now), tick);
      EarlyHandling(tick, now);
      assert Timely(Handled(s, now), [HandleTimer(tick)]);
    }
  }
}
