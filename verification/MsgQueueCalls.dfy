/**
  Whole calls of msgqueue_put and msgqueue_get by a thread that nobody disturbs: what the
  caller gets, and when it has to wait.
 */
module MsgQueueCalls {
  import opened MsgQueue
  import opened MsgQueueSteps
  import opened MsgQueueRuns

  // ---------- msgqueue_get ----------

  // The getter alone runs until it has left, or waits, at most `steps` steps.
  function GetAlone(s: State, steps: nat): State
    decreases steps
  {
    if steps == 0 || !Enabled(s, GetStep) then s else GetAlone(Step(s, GetStep), steps - 1)
  }

  // One step of it.
  lemma GetOn(s: State, k: nat)
    requires Enabled(s, GetStep)
    ensures GetAlone(s, k + 1) == GetAlone(GetEffect(s), k)
  {
  }

  // The lists as memory has them, the getter's in front.
  ghost predicate Ready(s: State) {
    && (s.getList != [] ==> s.getHead in s.mem && s.mem[s.getHead] == LinkOf(s.getList[0]))
    && (s.getList == [] ==> s.getHead !in s.mem)
  }

  // The getter is out again with the oldest message, or without one.
  ghost predicate Returned(s: State, t: State) {
    && t.get.Out? && t.cs.Free?
    && t.got == s.got + (if Queue(s) == [] then [] else [Queue(s)[0]])
    && Queue(t) == if Queue(s) == [] then [] else Queue(s)[1..]
  }

  lemma FromPop(s: State)
    requires Ready(s) && s.get.Pop? && s.cs.Free? && s.getList != []
    ensures Returned(s, GetAlone(s, 2))
  {
    PopRefines(s);
    var s1 := GetEffect(s);
    GetOn(s, 1);
    GetOn(s1, 0);
  }

  // put_mutex is about to be given back, with `count` messages swapped in.
  lemma FromUnlock(s: State)
    requires s.get.UnlockPut? && Ready(s) && s.get.count == |s.getList| && s.putList == []
    ensures Returned(s, GetAlone(s, 3))
  {
    var t := GetEffect(s);
    GetOn(s, 2);
    if s.get.count > 0 {
      FromPop(t);
    } else {
      GetOn(t, 1);
    }
  }

  lemma FromSetCount(s: State)
    requires s.get.SetCount? && Ready(s) && s.get.count == |s.getList| && s.putList == []
    ensures Returned(s, GetAlone(s, 4))
  {
    GetOn(s, 3);
    FromUnlock(GetEffect(s));
  }

  lemma FromSetTail(s: State)
    requires s.get.SetTail? && Ready(s) && s.get.count == |s.getList| && s.putList == []
    ensures Returned(s, GetAlone(s, 5))
  {
    GetOn(s, 4);
    FromSetCount(GetEffect(s));
  }

  // The getter has aliased the put list, whose messages msg_cnt counts.
  ghost predicate Aliasing(s: State) {
    && s.getList == [] && |s.putList| == s.cnt
    && (s.putList != [] ==> s.getHead in s.mem && s.mem[s.getHead] == LinkOf(s.putList[0]))
    && (s.putList == [] ==> s.getHead !in s.mem)
  }

  lemma FromSetHead(s: State)
    requires s.get.SetHead? && Aliasing(s) && s.get.count == s.cnt
    ensures Returned(s, GetAlone(s, 6))
  {
    GetOn(s, 5);
    FromSetTail(GetEffect(s));
    assert Queue(GetEffect(s)) == Queue(s);
  }

  lemma FromWaking(s: State)
    requires s.get.Waking? && Aliasing(s)
    ensures Returned(s, GetAlone(s, 7))
  {
    GetOn(s, 6);
    FromSetHead(GetEffect(s));
  }

  ghost predicate Waits(s: State, t: State) {
    t.get.Asleep? && t.cs.Free? && Queue(t) == [] && t.got == s.got
  }

  // With put_mutex in hand: the swap, or the wait.
  lemma FromDeciding(s: State)
    requires s.get.Deciding? && Aliasing(s)
    ensures var t := GetAlone(s, 8);
            if Queue(s) == [] && !s.nonblock then Waits(s, t) else Returned(s, t)
  {
    var s1 := GetEffect(s);
    GetOn(s, 7);
    if s1.get.Drowsy? {
      GetOn(s1, 6);
    } else {
      FromWaking(s1);
    }
  }

  lemma FromWant(s: State)
    requires s.get.WantPut? && s.cs.Free? && Aliasing(s)
    ensures var t := GetAlone(s, 9);
            if Queue(s) == [] && !s.nonblock then Waits(s, t) else Returned(s, t)
  {
    GetOn(s, 8);
    FromDeciding(GetEffect(s));
  }

  lemma FromAlias(s: State)
    requires s.get.Alias? && s.cs.Free? && Aliasing(s.(getHead := s.putHead))
    ensures var t := GetAlone(s, 10);
            if Queue(s) == [] && !s.nonblock then Waits(s, t) else Returned(s, t)
  {
    GetOn(s, 9);
    FromWant(GetEffect(s));
  }

  lemma FromTest(s: State)
    requires s.get.TestHead? && s.cs.Free? && Ready(s) && (s.getList == [] ==> Aliasing(s.(getHead := s.putHead)))
    ensures var t := GetAlone(s, 11);
            if Queue(s) == [] && !s.nonblock then Waits(s, t) else Returned(s, t)
  {
    var s1 := GetEffect(s);
    GetOn(s, 10);
    if s1.get.Pop? {
      FromPop(s1);
      GetDone(s1, 2, 10);
    } else {
      FromAlias(s1);
    }
  }

  lemma QuietReady(s: State)
    requires Inv(s) && s.get.Out? && s.cs.Free?
    ensures Ready(s) && (s.getList == [] ==> Aliasing(s.(getHead := s.putHead)))
  {
    assert CellAt(s.getHead, s.getList, 0) == s.getHead && CellAt(s.putHead, s.putList, 0) == s.putHead;
    assert CellAt(s.getHead, s.getList, |s.getList|) !in s.mem && CellAt(s.putHead, s.putList, |s.putList|) !in s.mem;
  }

  // Main theorem: msgqueue_get with nobody inside either critical section hands out the
  // oldest message, waits on an empty queue that blocks, and comes away with nothing only
  // from an empty one that does not.
  lemma QuietGet(s: State)
    requires Reachable(s) && s.get.Out? && s.cs.Free?
    ensures var t := GetAlone(Step(s, LockGet), 11);
            if Queue(s) == [] && !s.nonblock then Waits(s, t) else Returned(s, t)
  {
    ReachableInv(s);
    QuietReady(s);
    FromTest(Step(s, LockGet));
  }

  lemma {:induction false} GetDone(s: State, m: nat, n: nat)
    requires m <= n && GetAlone(s, m).get.Out?
    ensures GetAlone(s, n) == GetAlone(s, m)
    decreases m
  {
    if m > 0 && Enabled(s, GetStep) {
      GetDone(Step(s, GetStep), m - 1, n - 1);
    }
  }

  // ---------- msgqueue_put ----------

  // The putter in the critical section alone runs until it has left it or waits.
  function PutAlone(s: State, steps: nat): State
    decreases steps
  {
    if steps == 0 || !Enabled(s, PutStep) then s else PutAlone(Step(s, PutStep), steps - 1)
  }

  lemma PutOn(s: State, k: nat)
    requires Enabled(s, PutStep)
    ensures PutAlone(s, k + 1) == PutAlone(PutEffect(s), k)
  {
  }

  // The message is appended, or its putter waits.
  lemma FromTesting(s: State)
    requires s.cs.Testing?
    ensures var t := PutAlone(s, 5);
            && t.cs.Free? && t.got == s.got && t.getList == s.getList
            && if Full(s) && !s.nonblock then s.cs.msg in t.asleep && t.putList == s.putList
               else t.putList == s.putList + [s.cs.msg] && t.signals == s.signals + 1
  {
    var s1 := PutEffect(s);
    var s2 := PutEffect(s1);
    PutOn(s, 4);
    PutOn(s1, 3);
    if s1.cs.Storing? {
      var s3 := PutEffect(s2);
      var s4 := PutEffect(s3);
      PutOn(s2, 2);
      PutOn(s3, 1);
      PutOn(s4, 0);
    }
  }

  // Main theorem: msgqueue_put of a message with nobody inside the critical section appends
  // it and leaves one wake-up to send, and waits exactly if the queue blocks and as many
  // messages as its positive limit wait on the put list.
  lemma QuietPut(s: State, msg: nat)
    requires Reachable(s) && s.cs.Free? && Enabled(s, Clear(msg))
    ensures Enabled(Step(s, Clear(msg)), LockPut(msg))
    ensures var t := PutAlone(Step(Step(s, Clear(msg)), LockPut(msg)), 5);
            && t.cs.Free? && t.got == s.got
            && if 0 < s.max <= |s.putList| && !s.nonblock then msg in t.asleep && Queue(t) == Queue(s)
               else Queue(t) == Queue(s) + [msg] && t.signals == s.signals + 1
  {
    CountsPut(s);
    FromTesting(Step(Step(s, Clear(msg)), LockPut(msg)));
    OrderKept(s.getList, s.putList, [msg]);
  }

  lemma CountsPut(s: State)
    requires Reachable(s) && s.cs.Free?
    ensures |s.putList| == s.cnt
  {
    ReachableInv(s);
  }

  // ---------- waking ----------

  lemma ReachableStep(s: State, a: Action)
    requires Reachable(s) && Enabled(s, a)
    ensures Reachable(Step(s, a))
  {
    var states, acts :| IsRun(states, acts) && states[|acts|] == s;
    var states', acts' := states + [Step(s, a)], acts + [a];
    forall i | 0 <= i < |acts'| ensures StepAt(states', acts', i) {
      assert i < |acts| ==> StepAt(states, acts, i);
    }
    assert IsRun(states', acts');
  }

  lemma {:induction false} PutReaches(s: State, k: nat)
    requires Reachable(s)
    ensures Reachable(PutAlone(s, k)) && PutAlone(s, k).get == s.get && PutAlone(s, k).nonblock == s.nonblock
    decreases k
  {
    if k > 0 && Enabled(s, PutStep) {
      ReachableStep(s, PutStep);
      PutReaches(Step(s, PutStep), k - 1);
    }
  }

  // A getter that waits for put_mutex, or on get_cond, has aliased the put list.
  lemma WaiterAliases(s: State)
    requires Reachable(s) && s.cs.Free? && (s.get.WantPut? || s.get.Asleep?)
    ensures Aliasing(s)
  {
    ReachableInv(s);
    assert CellAt(s.putHead, s.putList, 0) == s.putHead;
    assert CellAt(s.putHead, s.putList, |s.putList|) !in s.mem;
  }

  // Main theorem: a getter asleep on an empty queue is woken by the next put and comes away
  // with its message.
  lemma SleeperServed(s: State, msg: nat)
    requires Reachable(s) && s.cs.Free? && s.get.Asleep? && Queue(s) == [] && Enabled(s, Clear(msg))
    ensures Enabled(Step(s, Clear(msg)), LockPut(msg))
    ensures var t := PutAlone(Step(Step(s, Clear(msg)), LockPut(msg)), 5);
            && Enabled(t, Signal)
            && var u := GetAlone(Step(t, Signal), 9); u.get.Out? && u.got == s.got + [msg] && Queue(u) == []
  {
    var s1 := Step(s, Clear(msg));
    ReachableStep(s, Clear(msg));
    ReachableStep(s1, LockPut(msg));
    var s2 := Step(s1, LockPut(msg));
    QuietPut(s, msg);
    PutReaches(s2, 5);
    var t := PutAlone(s2, 5);
    ReachableStep(t, Signal);
    WaiterAliases(Step(t, Signal));
    FromWant(Step(t, Signal));
  }

  // Main theorem: once a queue is made non-blocking and that is notified, nobody waits.
  lemma NonblockWakesAll(s: State)
    requires Reachable(s) && s.cs.Free?
    ensures var t := Step(s, SetNonblock);
            && t.nonblock && Enabled(t, Notify)
            && var u := Step(t, Notify);
               u.nonblock && u.asleep == {} && u.waiting == s.waiting + s.asleep && !u.get.Asleep?
               && (s.get.Asleep? ==> u.get.WantPut?) && Queue(u) == Queue(s) && !Step(u, SetBlock).nonblock
  {
  }
}
