/**
  The two-list message queue: putters append under put_mutex, getters take from a
  second list under get_mutex and swap the lists when theirs is empty.  Every lock,
  unlock, wait, signal and every access to a shared field or link cell is one step.
  A putter outside its critical section is known by its message; getters have no
  state of their own before they hold get_mutex, so one token stands for the holder.
 */
module MsgQueue {
  // The two list heads and the link field inside each message.  A cell that is not in
  // the memory holds NULL.
  datatype Cell = Head(one: bool) | LinkOf(msg: nat)

  // Inside the put critical section.
  datatype Critical =
    | Free
    | Testing(msg: nat)      // about to test the loop condition
    | Sleeping(msg: nat)     // found it full, about to wait on put_cond
    | Storing(msg: nat)      // about to store through put_tail
    | MovingTail(msg: nat)   // about to advance put_tail
    | Counting(msg: nat)     // about to increment msg_cnt
    | Leaving                // about to unlock
    | Swapping               // the getter holds put_mutex

  // Inside the get critical section; `spare` is the local get_head of the swap.
  datatype Getter =
    | Out
    | TestHead
    | Alias
    | WantPut(spare: Cell)
    | Deciding(spare: Cell)
    | Drowsy(spare: Cell)
    | Asleep(spare: Cell)
    | Waking(spare: Cell)
    | SetHead(spare: Cell, count: nat)
    | SetTail(spare: Cell, count: nat)
    | SetCount(count: nat)
    | UnlockPut(count: nat)
    | Pop
    | UnlockGet

  // `waiting` and `asleep` are the putters before put_mutex and on put_cond, `signals`
  // counts putters that have unlocked and not yet signalled, `notices` the callers of
  // set_nonblock that have set the flag and not yet notified.  The rest is history:
  // the two lists, all messages in the order they were linked in, all handed out, and
  // whether the queue was ever non-blocking.
  datatype State = State(
    max: nat, mem: map<Cell, Cell>, getHead: Cell, putHead: Cell, putTail: Cell, cnt: nat, nonblock: bool,
    cs: Critical, get: Getter, waiting: set<nat>, asleep: set<nat>, signals: nat, notices: nat,
    getList: seq<nat>, putList: seq<nat>, order: seq<nat>, got: seq<nat>, everNonblock: bool)

  datatype Action =
    | Clear(msg: nat) | LockPut(msg: nat) | PutStep | WakePut(msg: nat) | Signal
    | LockGet | GetStep | WakeGet
    | SetNonblock | Notify | SetBlock

  function Init(max: nat): State {
    State(max, map[], Head(true), Head(false), Head(false), 0, false,
          Free, Out, {}, {}, 0, 0, [], [], [], [], false)
  }

  // msg_cnt > msg_max - 1 in size_t arithmetic: with msg_max 0 the bound wraps around
  // to the largest size, which no count exceeds.
  predicate Full(s: State) {
    s.max > 0 && s.cnt > s.max - 1
  }

  // A caller may put a message that is neither queued nor being put.
  predicate Available(s: State, msg: nat) {
    && msg !in s.waiting && msg !in s.asleep
    && msg !in s.getList && msg !in s.putList
    && !((s.cs.Testing? || s.cs.Sleeping? || s.cs.Storing?) && s.cs.msg == msg)
  }

  predicate Enabled(s: State, a: Action) {
    match a
    case Clear(msg) => Available(s, msg)
    case LockPut(msg) => msg in s.waiting && s.cs.Free?
    case PutStep => !s.cs.Free? && !s.cs.Swapping?
    case WakePut(msg) => msg in s.asleep
    case Signal => s.signals > 0
    case LockGet => s.get.Out?
    case GetStep =>
      && !s.get.Out? && !s.get.Asleep?
      && (s.get.WantPut? ==> s.cs.Free?)
      && (s.get.Pop? ==> s.getHead in s.mem && s.mem[s.getHead].LinkOf? && s.getList != [])
    case WakeGet => s.get.Asleep?
    case SetNonblock => true
    case Notify => s.notices > 0 && s.cs.Free?
    case SetBlock => true
  }

  function PutEffect(s: State): State {
    match s.cs
    case Testing(msg) => s.(cs := if Full(s) && !s.nonblock then Sleeping(msg) else Storing(msg))
    case Sleeping(msg) => s.(cs := Free, asleep := s.asleep + {msg})
    case Storing(msg) =>
      s.(mem := s.mem[s.putTail := LinkOf(msg)], cs := MovingTail(msg),
         putList := s.putList + [msg], order := s.order + [msg])
    case MovingTail(msg) => s.(putTail := LinkOf(msg), cs := Counting(msg))
    case Counting(msg) => s.(cnt := s.cnt + 1, cs := Leaving)
    case Leaving => s.(cs := Free, signals := s.signals + 1)
    case _ => s
  }

  function GetEffect(s: State): State
    requires s.get.Pop? ==> s.getHead in s.mem && s.mem[s.getHead].LinkOf? && s.getList != []
  {
    match s.get
    case TestHead => s.(get := if s.getHead in s.mem then Pop else Alias)
    case Alias => s.(getHead := s.putHead, get := WantPut(s.getHead))
    case WantPut(spare) => s.(cs := Swapping, get := Deciding(spare))
    case Deciding(spare) => s.(get := if s.cnt == 0 && !s.nonblock then Drowsy(spare) else Waking(spare))
    case Drowsy(spare) => s.(cs := Free, get := Asleep(spare))
    case Waking(spare) =>
      if Full(s)
      then s.(waiting := s.waiting + s.asleep, asleep := {}, get := SetHead(spare, s.cnt))
      else s.(get := SetHead(spare, s.cnt))
    case SetHead(spare, count) =>
      s.(putHead := spare, getList := s.putList, putList := [], get := SetTail(spare, count))
    case SetTail(spare, count) => s.(putTail := spare, get := SetCount(count))
    case SetCount(count) => s.(cnt := 0, get := UnlockPut(count))
    case UnlockPut(count) => s.(cs := Free, get := if count > 0 then Pop else UnlockGet)
    case Pop =>
      var first := s.mem[s.getHead];
      s.(mem := if first in s.mem then s.mem[s.getHead := s.mem[first]] else s.mem - {s.getHead},
         got := s.got + [first.msg], getList := s.getList[1..], get := UnlockGet)
    case UnlockGet => s.(get := Out)
    case _ => s
  }

  // pthread_cond_signal on get_cond: at most one getter ever waits there.
  function SignalGet(get: Getter): Getter {
    if get.Asleep? then WantPut(get.spare) else get
  }

  function Step(s: State, a: Action): State
    requires Enabled(s, a)
  {
    match a
    case Clear(msg) => s.(mem := s.mem - {LinkOf(msg)}, waiting := s.waiting + {msg})
    case LockPut(msg) => s.(waiting := s.waiting - {msg}, cs := Testing(msg))
    case PutStep => PutEffect(s)
    case WakePut(msg) => s.(asleep := s.asleep - {msg}, waiting := s.waiting + {msg})
    case Signal => s.(signals := s.signals - 1, get := SignalGet(s.get))
    case LockGet => s.(get := TestHead)
    case GetStep => GetEffect(s)
    case WakeGet => s.(get := SignalGet(s.get))
    case SetNonblock => s.(nonblock := true, everNonblock := true, notices := s.notices + 1)
    case Notify =>
      s.(notices := s.notices - 1, get := SignalGet(s.get), waiting := s.waiting + s.asleep, asleep := {})
    case SetBlock => s.(nonblock := false)
  }

  // The messages held, oldest first.
  function Queue(s: State): seq<nat> {
    s.getList + s.putList
  }

  // ---------- the invariant ----------

  // The k-th cell of a list: its head, then the link fields of its messages.
  function CellAt(head: Cell, list: seq<nat>, k: nat): Cell
    requires k <= |list|
  {
    if k == 0 then head else LinkOf(list[k - 1])
  }

  // From `head` the memory links exactly the messages of the list.
  ghost predicate Linked(mem: map<Cell, Cell>, head: Cell, list: seq<nat>) {
    && (forall k :: 0 <= k < |list| ==> CellAt(head, list, k) in mem && mem[CellAt(head, list, k)] == LinkOf(list[k]))
    && CellAt(head, list, |list|) !in mem
  }

  ghost predicate BothLinked(s: State) {
    Linked(s.mem, GetBase(s), s.getList) && Linked(s.mem, s.putHead, s.putList)
  }

  // The getter's own head: while it waits for put_mutex get_head already aliases
  // put_head, and the local variable keeps the empty list's head.
  predicate Aliased(get: Getter) {
    get.WantPut? || get.Deciding? || get.Drowsy? || get.Asleep? || get.Waking? || get.SetHead?
  }

  function GetBase(s: State): Cell {
    if Aliased(s.get) then s.get.spare else s.getHead
  }

  ghost predicate HeadsOk(s: State) {
    && GetBase(s).Head? && s.putHead.Head? && GetBase(s) != s.putHead
    && (Aliased(s.get) ==> s.getHead == s.putHead && s.getList == [])
    && (s.get.Alias? ==> s.getList == [])
    && (s.get.SetTail? ==> s.get.spare == s.putHead)
    && (s.cs.Swapping? <==> s.get.Deciding? || s.get.Drowsy? || s.get.Waking? || s.get.SetHead? || s.get.SetTail?
                            || s.get.SetCount? || s.get.UnlockPut?)
  }

  // put_tail and msg_cnt lag behind the list only while their update is due.
  ghost predicate TailOk(s: State) {
    && (s.cs.MovingTail? ==> s.putList != [] && s.putTail == CellAt(s.putHead, s.putList, |s.putList| - 1)
                             && s.putList[|s.putList| - 1] == s.cs.msg)
    && (!s.cs.MovingTail? && !s.get.SetTail? ==> s.putTail == CellAt(s.putHead, s.putList, |s.putList|))
    && (s.cs.MovingTail? || s.cs.Counting? ==> |s.putList| == s.cnt + 1)
    && (s.get.SetTail? || s.get.SetCount? ==> s.putList == [])
    && (!s.cs.MovingTail? && !s.cs.Counting? && !s.get.SetTail? && !s.get.SetCount? ==> |s.putList| == s.cnt)
  }

  ghost predicate CountOk(s: State) {
    && (s.get.SetHead? ==> s.get.count == s.cnt)
    && (s.get.SetTail? || s.get.SetCount? || s.get.UnlockPut? ==> s.get.count == |s.getList|)
    && (s.get.Pop? ==> s.getList != [])
    && (s.get.UnlockPut? ==> s.putList == [])
    && (EmptySwap(s) ==> s.everNonblock)
  }

  // The getter goes through a swap without a message, as only a non-blocking queue lets it.
  predicate EmptySwap(s: State) {
    || (s.get.Waking? && s.cnt == 0)
    || ((s.get.SetHead? || s.get.SetTail? || s.get.SetCount? || s.get.UnlockPut?) && s.get.count == 0)
  }

  ghost predicate NoDup(q: seq<nat>) {
    forall i, j :: 0 <= i < j < |q| ==> q[i] != q[j]
  }

  // Messages being put are off both lists and have a null link.
  ghost predicate OffLists(s: State, msg: nat) {
    msg !in s.getList && msg !in s.putList && LinkOf(msg) !in s.mem
  }

  ghost predicate MessagesOk(s: State) {
    && NoDup(s.getList) && NoDup(s.putList)
    && (forall m :: m in s.getList ==> m !in s.putList)
    && (forall m :: m in s.waiting || m in s.asleep ==> OffLists(s, m))
    && s.waiting !! s.asleep
    && (s.cs.Testing? || s.cs.Sleeping? || s.cs.Storing? ==>
          OffLists(s, s.cs.msg) && s.cs.msg !in s.waiting && s.cs.msg !in s.asleep)
  }

  // No lost wake-up: who sleeps, sleeps for a reason that still holds or is about to be
  // woken.
  ghost predicate WakeOk(s: State) {
    && (s.asleep != {} ==> Full(s))
    && (s.cs.Sleeping? ==> Full(s))
    && (s.get.Drowsy? ==> s.cnt == 0)
    && (s.get.Asleep? && s.cnt > 0 ==> s.signals > 0 || s.cs.Leaving?)
    && (s.get.SetHead? || s.get.SetTail? || s.get.SetCount? ==> s.asleep == {} || !Full(s))
    && ((s.asleep != {} || s.cs.Sleeping? || s.get.Drowsy? || s.get.Asleep?) && s.nonblock ==> s.notices > 0)
  }

  // While the queue has always been blocking, neither list outgrows the limit.
  ghost predicate BoundOk(s: State) {
    && (s.nonblock ==> s.everNonblock)
    && (s.max > 0 && !s.everNonblock ==>
          && |s.getList| <= s.max && |s.putList| <= s.max
          && (s.cs.Storing? ==> |s.putList| < s.max))
  }

  // The part of the invariant that speaks of fields and control points only.
  ghost predicate Core(s: State) {
    HeadsOk(s) && TailOk(s) && CountOk(s) && WakeOk(s) && BoundOk(s)
  }

  ghost predicate Inv(s: State) {
    && Core(s) && MessagesOk(s) && BothLinked(s)
    && s.order == s.got + Queue(s)
  }

  lemma InitInv(max: nat)
    ensures Inv(Init(max))
  {
  }

  // Writing a cell that belongs to no list, or is the null end of it, keeps a list.
  lemma LinkedKept(mem: map<Cell, Cell>, mem': map<Cell, Cell>, head: Cell, list: seq<nat>, c: Cell)
    requires Linked(mem, head, list)
    requires forall x :: x != c ==> (x in mem' <==> x in mem) && (x in mem' ==> mem'[x] == mem[x])
    requires c != head && (c.LinkOf? ==> c.msg !in list)
    ensures Linked(mem', head, list)
  {
    forall k | 0 <= k <= |list|
      ensures CellAt(head, list, k) != c
    {
    }
  }

  // Facts about the ends of the lists that the field updates rely on.
  lemma ListEnds(s: State)
    requires Inv(s)
    ensures s.get.TestHead? ==> (s.getHead in s.mem <==> s.getList != [])
    ensures s.get.Pop? ==> s.getHead in s.mem && s.mem[s.getHead] == LinkOf(s.getList[0])
    ensures s.putTail.LinkOf? && !s.get.SetTail? ==> s.putTail.msg in s.putList
    ensures s.putTail.Head? && !s.get.SetTail? ==> s.putTail == s.putHead
  {
    assert s.getList != [] ==> CellAt(GetBase(s), s.getList, 0) in s.mem;
    assert CellAt(GetBase(s), s.getList, |s.getList|) !in s.mem;
  }
}
