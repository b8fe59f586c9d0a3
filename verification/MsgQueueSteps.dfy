/**
  Every step of the message queue keeps the invariant and refines a FIFO.
 */
module MsgQueueSteps {
  import opened MsgQueue

  lemma StoreCore(s: State)
    requires Core(s) && s.cs.Storing?
    ensures Core(PutEffect(s))
  {
    var t := PutEffect(s);
    assert CellAt(s.putHead, s.putList, |s.putList|) == CellAt(t.putHead, t.putList, |s.putList|);
  }

  lemma PutWake(s: State)
    requires Core(s) && Enabled(s, PutStep) && !s.cs.Storing?
    ensures WakeOk(PutEffect(s)) && BoundOk(PutEffect(s))
  {
  }

  lemma PutFields(s: State)
    requires HeadsOk(s) && TailOk(s) && CountOk(s) && Enabled(s, PutStep) && !s.cs.Storing?
    ensures var t := PutEffect(s); HeadsOk(t) && TailOk(t) && CountOk(t)
  {
  }

  lemma PutCore(s: State)
    requires Core(s) && Enabled(s, PutStep) && !s.cs.Storing?
    ensures Core(PutEffect(s))
  {
    PutWake(s);
    PutFields(s);
  }

  // The getter up to the point where it has put_mutex and will not sleep again.
  lemma EnterCore(s: State)
    requires Core(s) && Enabled(s, GetStep)
    requires s.get.TestHead? || s.get.Alias? || s.get.WantPut? || s.get.Deciding? || s.get.Drowsy?
    requires s.get.TestHead? ==> (s.getHead in s.mem <==> s.getList != [])
    ensures Core(GetEffect(s))
  {
  }

  lemma SwapCore(s: State)
    requires Core(s) && (s.get.Waking? || s.get.SetHead? || s.get.SetTail? || s.get.SetCount? || s.get.UnlockPut?)
    ensures Core(GetEffect(s))
  {
  }

  lemma PopCore(s: State)
    requires Core(s) && Enabled(s, GetStep) && (s.get.Pop? || s.get.UnlockGet?)
    ensures Core(GetEffect(s))
  {
  }

  // Locking, waking and the non-blocking switch leave the lists and the counts alone.
  lemma OtherFields(s: State, a: Action)
    requires HeadsOk(s) && TailOk(s) && CountOk(s) && Enabled(s, a) && !a.PutStep? && !a.GetStep?
    ensures var t := Step(s, a); HeadsOk(t) && TailOk(t) && CountOk(t)
  {
  }

  lemma OtherWake(s: State, a: Action)
    requires WakeOk(s) && BoundOk(s) && Enabled(s, a) && !a.PutStep? && !a.GetStep?
    requires s.get.Drowsy? ==> s.cs.Swapping?
    ensures var t := Step(s, a); WakeOk(t) && BoundOk(t)
  {
  }

  lemma OtherCore(s: State, a: Action)
    requires Core(s) && Enabled(s, a) && !a.PutStep? && !a.GetStep?
    ensures Core(Step(s, a))
  {
    OtherFields(s, a);
    OtherWake(s, a);
  }

  lemma CoreStep(s: State, a: Action)
    requires Inv(s) && Enabled(s, a)
    ensures Core(Step(s, a))
  {
    ListEnds(s);
    match a
    case PutStep =>
      if s.cs.Storing? {
        StoreCore(s);
      } else {
        PutCore(s);
      }
    case GetStep =>
      match s.get {
        case Pop => PopCore(s);
        case UnlockGet => PopCore(s);
        case TestHead => EnterCore(s);
        case Alias => EnterCore(s);
        case WantPut(_) => EnterCore(s);
        case Deciding(_) => EnterCore(s);
        case Drowsy(_) => EnterCore(s);
        case _ => SwapCore(s);
      }
    case _ => OtherCore(s, a);
  }

  lemma StoreMessages(s: State)
    requires Inv(s) && s.cs.Storing?
    ensures MessagesOk(PutEffect(s))
  {
    var t := PutEffect(s);
    ListEnds(s);
    assert forall m :: m in t.putList <==> m in s.putList || m == s.cs.msg;
    forall m | m in t.waiting || m in t.asleep ensures OffLists(t, m) { assert OffLists(s, m); }
  }

  lemma PopMessages(s: State)
    requires Inv(s) && s.get.Pop? && Enabled(s, GetStep)
    ensures MessagesOk(GetEffect(s))
  {
    var t := GetEffect(s);
    ListEnds(s);
    assert forall m :: m in t.getList ==> m in s.getList;
    forall m | m in t.waiting || m in t.asleep ensures OffLists(t, m) { assert OffLists(s, m); }
  }

  // The putter in its critical section has a message that is not on the list yet.
  predicate Carrying(cs: Critical) {
    cs.Testing? || cs.Sleeping? || cs.Storing?
  }

  // Nothing about the messages changes but which list they are on and who is awake.
  lemma MessagesFrame(s: State, t: State)
    requires MessagesOk(s) && t.mem == s.mem && (Carrying(t.cs) ==> Carrying(s.cs) && t.cs.msg == s.cs.msg)
    requires (t.getList == s.getList && t.putList == s.putList) || (t.getList == s.putList && t.putList == [])
    requires forall m :: m in t.waiting || m in t.asleep ==> m in s.waiting || m in s.asleep
    requires t.waiting !! t.asleep
    ensures MessagesOk(t)
  {
    forall m | m in t.waiting || m in t.asleep ensures OffLists(t, m) { assert OffLists(s, m); }
  }

  lemma SleepMessages(s: State)
    requires MessagesOk(s) && s.cs.Sleeping?
    ensures MessagesOk(PutEffect(s))
  {
    var t := PutEffect(s);
    forall m | m in t.waiting || m in t.asleep ensures OffLists(t, m) {
      assert OffLists(s, m);
    }
  }

  lemma QuietPutFrame(s: State)
    requires Enabled(s, PutStep) && !s.cs.Storing? && !s.cs.Sleeping?
    ensures var t := PutEffect(s);
            && t.mem == s.mem && t.getList == s.getList && t.putList == s.putList
            && t.waiting == s.waiting && t.asleep == s.asleep
            && (Carrying(t.cs) ==> Carrying(s.cs) && t.cs.msg == s.cs.msg)
  {
  }

  lemma MessagesPut(s: State)
    requires Inv(s) && Enabled(s, PutStep)
    ensures MessagesOk(PutEffect(s))
  {
    if s.cs.Storing? {
      StoreMessages(s);
    } else if s.cs.Sleeping? {
      SleepMessages(s);
    } else {
      QuietPutFrame(s);
      MessagesFrame(s, PutEffect(s));
    }
  }

  // A getter's step wakes all sleeping putters or none.
  lemma GetWakes(s: State)
    requires Enabled(s, GetStep)
    ensures var t := GetEffect(s);
            if s.get.Waking? && Full(s) then t.waiting == s.waiting + s.asleep && t.asleep == {}
            else t.waiting == s.waiting && t.asleep == s.asleep
  {
  }

  // It takes put_mutex, gives it back or leaves it alone.
  lemma GetCritical(s: State)
    requires Enabled(s, GetStep)
    ensures var t := GetEffect(s); t.cs == s.cs || t.cs.Free? || t.cs.Swapping?
  {
  }

  lemma MessagesGet(s: State)
    requires HeadsOk(s) && MessagesOk(s) && Enabled(s, GetStep) && !s.get.Pop?
    ensures MessagesOk(GetEffect(s))
  {
    GetFrame(s);
    GetWakes(s);
    GetCritical(s);
    MessagesFrame(s, GetEffect(s));
  }

  lemma MessagesStep(s: State, a: Action)
    requires Inv(s) && Enabled(s, a)
    ensures MessagesOk(Step(s, a))
  {
    if a.PutStep? {
      MessagesPut(s);
    } else if a.GetStep? && s.get.Pop? {
      PopMessages(s);
    } else if a.GetStep? {
      MessagesGet(s);
    } else {
      var t := Step(s, a);
      forall m | m in t.waiting || m in t.asleep
        ensures OffLists(t, m)
      {
        assert m in s.waiting || m in s.asleep ==> OffLists(s, m);
      }
    }
  }

  // The store through put_tail appends to the put list and leaves the get list alone.
  lemma StoreLinked(s: State)
    requires Inv(s) && s.cs.Storing?
    ensures var t := PutEffect(s); BothLinked(t)
  {
    var t := PutEffect(s);
    var c := s.putTail;
    ListEnds(s);
    LinkedKept(s.mem, t.mem, GetBase(s), s.getList, c);
    LinkedAppend(s.mem, s.putHead, s.putList, s.cs.msg);
  }

  lemma LinkedAppend(mem: map<Cell, Cell>, head: Cell, list: seq<nat>, msg: nat)
    requires Linked(mem, head, list) && NoDup(list) && msg !in list && LinkOf(msg) !in mem && head.Head?
    ensures Linked(mem[CellAt(head, list, |list|) := LinkOf(msg)], head, list + [msg])
  {
    var c, list' := CellAt(head, list, |list|), list + [msg];
    var mem' := mem[c := LinkOf(msg)];
    forall k | 0 <= k < |list'|
      ensures CellAt(head, list', k) in mem' && mem'[CellAt(head, list', k)] == LinkOf(list'[k])
    {
      assert CellAt(head, list, k) == CellAt(head, list', k);
      assert k < |list| ==> CellAt(head, list, k) in mem;
    }
    assert CellAt(head, list', |list'|) == LinkOf(msg);
  }

  // Storing the second link into the head drops the first message.
  lemma LinkedPop(mem: map<Cell, Cell>, head: Cell, list: seq<nat>)
    requires Linked(mem, head, list) && NoDup(list) && list != [] && head.Head?
    ensures var first := LinkOf(list[0]);
            Linked(if first in mem then mem[head := mem[first]] else mem - {head}, head, list[1..])
  {
    var first, rest := LinkOf(list[0]), list[1..];
    var mem' := if first in mem then mem[head := mem[first]] else mem - {head};
    assert CellAt(head, list, 1) == first;
    forall k | 0 <= k < |rest|
      ensures CellAt(head, rest, k) in mem' && mem'[CellAt(head, rest, k)] == LinkOf(rest[k])
    {
      assert CellAt(head, list, k + 1) in mem && mem[CellAt(head, list, k + 1)] == LinkOf(list[k + 1]);
      assert k > 0 ==> CellAt(head, rest, k) == CellAt(head, list, k + 1);
    }
    assert CellAt(head, list, |list|) !in mem;
    assert |rest| > 0 ==> CellAt(head, rest, |rest|) == CellAt(head, list, |list|);
  }

  lemma PopLinked(s: State)
    requires Inv(s) && s.get.Pop? && Enabled(s, GetStep)
    ensures var t := GetEffect(s); BothLinked(t)
  {
    var t := GetEffect(s);
    ListEnds(s);
    LinkedPop(s.mem, s.getHead, s.getList);
    LinkedKept(s.mem, t.mem, s.putHead, s.putList, s.getHead);
  }

  lemma ClearLinked(s: State, msg: nat)
    requires Inv(s) && Enabled(s, Clear(msg))
    ensures var t := Step(s, Clear(msg)); BothLinked(t)
  {
    var t := Step(s, Clear(msg));
    LinkedKept(s.mem, t.mem, GetBase(s), s.getList, LinkOf(msg));
    LinkedKept(s.mem, t.mem, s.putHead, s.putList, LinkOf(msg));
  }

  // The lists and their heads stay.
  ghost predicate SameLists(s: State, t: State) {
    && t.mem == s.mem && t.order == s.order && t.got == s.got
    && GetBase(t) == GetBase(s) && t.putHead == s.putHead && t.getList == s.getList && t.putList == s.putList
  }

  // They change sides.
  ghost predicate SwappedLists(s: State, t: State) {
    && t.mem == s.mem && t.order == s.order && t.got == s.got
    && GetBase(t) == s.putHead && t.putHead == GetBase(s) && t.getList == s.putList && t.putList == s.getList
  }

  lemma GetFrame(s: State)
    requires HeadsOk(s) && Enabled(s, GetStep) && !s.get.Pop?
    ensures if s.get.SetHead? then SwappedLists(s, GetEffect(s)) else SameLists(s, GetEffect(s))
  {
  }

  // Steps other than the two list writes and the clearing of a fresh link leave memory
  // and both lists alone; the swap exchanges them.
  lemma ListsFrame(s: State, a: Action)
    requires HeadsOk(s) && Enabled(s, a)
    requires !(a.PutStep? && s.cs.Storing?) && !(a.GetStep? && s.get.Pop?) && !a.Clear?
    ensures if a.GetStep? && s.get.SetHead? then SwappedLists(s, Step(s, a)) else SameLists(s, Step(s, a))
  {
    if a.GetStep? {
      GetFrame(s);
    }
  }

  lemma LinkedElsewhere(s: State, a: Action)
    requires HeadsOk(s) && BothLinked(s) && Enabled(s, a)
    requires !(a.PutStep? && s.cs.Storing?) && !(a.GetStep? && s.get.Pop?) && !a.Clear?
    ensures BothLinked(Step(s, a))
  {
    ListsFrame(s, a);
  }

  lemma LinkedStep(s: State, a: Action)
    requires Inv(s) && Enabled(s, a)
    ensures BothLinked(Step(s, a))
  {
    if a.PutStep? && s.cs.Storing? {
      StoreLinked(s);
    } else if a.GetStep? && s.get.Pop? {
      PopLinked(s);
    } else if a.Clear? {
      ClearLinked(s, a.msg);
    } else {
      LinkedElsewhere(s, a);
    }
  }

  // ---------- refinement of a FIFO ----------

  // What a step adds to and takes from the abstract queue: a put is the store through
  // put_tail, a get is the pop, and no other step of any thread counts.
  function Appended(s: State, a: Action): seq<nat> {
    if a.PutStep? && s.cs.Storing? then [s.cs.msg] else []
  }

  predicate Takes(s: State, a: Action) {
    a.GetStep? && s.get.Pop?
  }

  // Every step keeps the abstract queue, appends the message put, or hands out the
  // oldest one.
  lemma StepRefinesFifo(s: State, a: Action)
    requires HeadsOk(s) && CountOk(s) && Enabled(s, a)
    requires s.get.Pop? ==> s.getHead in s.mem && s.mem[s.getHead] == LinkOf(s.getList[0])
    ensures var t := Step(s, a);
            && t.order == s.order + Appended(s, a)
            && if Takes(s, a)
               then Queue(s) != [] && t.got == s.got + [Queue(s)[0]] && Queue(t) == Queue(s)[1..]
               else t.got == s.got && Queue(t) == Queue(s) + Appended(s, a)
  {
    if a.GetStep? && s.get.Pop? {
      PopRefines(s);
    } else if a.PutStep? && s.cs.Storing? {
      OrderKept(s.getList, s.putList, [s.cs.msg]);
    } else if a.Clear? {
      OrderKept(s.order, Queue(s), []);
    } else {
      QuietRefines(s, a);
    }
  }

  lemma PopRefines(s: State)
    requires Enabled(s, GetStep) && s.get.Pop? && s.mem[s.getHead] == LinkOf(s.getList[0])
    ensures var t := GetEffect(s);
            && t.order == s.order && Queue(s) != []
            && t.got == s.got + [Queue(s)[0]] && Queue(t) == Queue(s)[1..]
  {
    assert s.getList[1..] + s.putList == (s.getList + s.putList)[1..];
  }

  lemma QuietRefines(s: State, a: Action)
    requires HeadsOk(s) && Enabled(s, a)
    requires !(a.PutStep? && s.cs.Storing?) && !(a.GetStep? && s.get.Pop?) && !a.Clear?
    ensures Step(s, a).got == s.got && Step(s, a).order == s.order + [] && Queue(Step(s, a)) == Queue(s) + []
  {
    ListsFrame(s, a);
    OrderKept(s.order, s.getList, s.putList);
    OrderKept(s.order, s.putList, s.getList);
    OrderKept(s.order, Queue(s), []);
  }

  lemma OrderStep(s: State, a: Action)
    requires Inv(s) && Enabled(s, a)
    ensures Step(s, a).order == Step(s, a).got + Queue(Step(s, a))
  {
    ListEnds(s);
    StepRefinesFifo(s, a);
    OrderKept(s.got, Queue(s), Appended(s, a));
  }

  lemma OrderKept(got: seq<nat>, queue: seq<nat>, more: seq<nat>)
    ensures (got + queue) + more == got + (queue + more)
    ensures queue != [] ==> got + queue == (got + [queue[0]]) + queue[1..]
    ensures got + [] == got && queue + [] == queue && [] + queue == queue
  {
  }

  lemma Assemble(s: State)
    requires Core(s) && MessagesOk(s) && BothLinked(s) && s.order == s.got + Queue(s)
    ensures Inv(s)
  {
  }

  lemma StepInv(s: State, a: Action)
    requires Inv(s) && Enabled(s, a)
    ensures Inv(Step(s, a))
  {
    var t := Step(s, a);
    CoreStep(s, a);
    MessagesStep(s, a);
    LinkedStep(s, a);
    OrderStep(s, a);
    Assemble(t);
  }
}
