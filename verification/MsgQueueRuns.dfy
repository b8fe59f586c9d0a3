/**
  What holds in every run of the message queue.
 */
module MsgQueueRuns {
  import opened MsgQueue
  import opened MsgQueueSteps

  ghost predicate StepAt(states: seq<State>, acts: seq<Action>, i: nat)
    requires i < |acts| < |states|
  {
    Enabled(states[i], acts[i]) && Step(states[i], acts[i]) == states[i + 1]
  }

  // The states an empty queue goes through, any number of putters, getters and mode changes
  // taking turns.
  ghost predicate IsRun(states: seq<State>, acts: seq<Action>) {
    && |states| == |acts| + 1
    && (exists max :: states[0] == Init(max))
    && forall i :: 0 <= i < |acts| ==> StepAt(states, acts, i)
  }

  // A state of some run.
  ghost predicate Reachable(s: State) {
    exists states, acts :: IsRun(states, acts) && states[|acts|] == s
  }

  lemma StepKeeps(s: State, a: Action, t: State)
    requires Inv(s) && Enabled(s, a) && Step(s, a) == t
    ensures Inv(t)
  {
    StepInv(s, a);
  }

  lemma {:induction false} RunInv(states: seq<State>, acts: seq<Action>, i: nat)
    requires IsRun(states, acts) && i <= |acts|
    ensures Inv(states[i])
  {
    if i == 0 {
      var max :| states[0] == Init(max);
      InitInv(max);
    } else {
      RunInv(states, acts, i - 1);
      assert StepAt(states, acts, i - 1);
      StepKeeps(states[i - 1], acts[i - 1], states[i]);
    }
  }

  lemma ReachableInv(s: State)
    requires Reachable(s)
    ensures Inv(s)
  {
    var states, acts :| IsRun(states, acts) && states[|acts|] == s;
    RunInv(states, acts, |acts|);
  }

  // In every run the messages handed out followed by those held are exactly the
  // messages in the order in which putters linked them under put_mutex, and memory
  // links the two lists just so.
  lemma FifoInPutOrder(s: State)
    requires Reachable(s)
    ensures s.order == s.got + Queue(s)
    ensures NoDup(Queue(s))
    ensures Linked(s.mem, GetBase(s), s.getList) && Linked(s.mem, s.putHead, s.putList)
  {
    ReachableInv(s);
    forall i, j | 0 <= i < j < |Queue(s)|
      ensures Queue(s)[i] != Queue(s)[j]
    {
      if i < |s.getList| <= j {
        assert Queue(s)[i] in s.getList && Queue(s)[j] in s.putList;
      }
    }
  }

  // The cell a putter stores through is never one the getter is about to read or write,
  // and the getter never writes a cell of the put list.
  lemma SidesNeverShareACell(s: State)
    requires Reachable(s) && s.cs.Storing? && s.get.Pop?
    ensures s.putTail != s.getHead
    ensures s.getHead in s.mem && s.putTail != s.mem[s.getHead]
    ensures forall k :: 0 <= k <= |s.putList| ==> CellAt(s.putHead, s.putList, k) != s.getHead
    ensures forall k :: 0 <= k <= |s.getList| ==> CellAt(s.getHead, s.getList, k) != s.putTail
  {
    ReachableInv(s);
    ListEnds(s);
  }

  // The one store of a putter outside put_mutex, the clearing of its message's link, falls
  // on no cell of either list, so on none that a getter or another putter reads or writes.
  lemma ClearTouchesNoList(s: State, msg: nat)
    requires Reachable(s) && Enabled(s, Clear(msg))
    ensures forall k :: 0 <= k <= |s.getList| ==> CellAt(GetBase(s), s.getList, k) != LinkOf(msg)
    ensures forall k :: 0 <= k <= |s.putList| ==> CellAt(s.putHead, s.putList, k) != LinkOf(msg)
    ensures s.getHead != LinkOf(msg) && (s.get.Pop? ==> s.getHead in s.mem && s.mem[s.getHead] != LinkOf(msg))
    ensures s.cs.Storing? ==> s.putTail != LinkOf(msg)
  {
    ReachableInv(s);
    ListEnds(s);
  }

  // A pop is always possible when the getter has decided on one: it never follows NULL.
  lemma PopIsSafe(s: State)
    requires Reachable(s) && s.get.Pop?
    ensures Enabled(s, GetStep)
  {
    ReachableInv(s);
    ListEnds(s);
  }

  // No lost wake-up.  A putter sleeps only while the put list is full; a getter sleeps
  // only while it is empty or some putter has still to signal; and nobody sleeps through
  // set_nonblock without a notification under way.
  lemma NoLostWakeup(s: State)
    requires Reachable(s)
    ensures s.asleep != {} ==> s.max > 0 && s.cnt >= s.max
    ensures s.get.Asleep? && Queue(s) != [] ==> s.signals > 0 || s.cs.Leaving? || s.cs.Counting? || s.cs.MovingTail?
    ensures (s.asleep != {} || s.get.Asleep?) && s.nonblock ==> s.notices > 0
  {
    ReachableInv(s);
  }

  // With a positive limit and no set_nonblock so far, at most twice the limit is held.
  lemma AtMostTwiceTheLimit(s: State)
    requires Reachable(s) && s.max >= 1 && !s.everNonblock
    ensures |Queue(s)| <= 2 * s.max
    ensures |s.putList| <= s.max && |s.getList| <= s.max
  {
    ReachableInv(s);
  }

  // A getter leaves, or is about to give back get_mutex, without a message only if none is
  // held, and only if the queue has been non-blocking.
  lemma NullOnlyWhenEmpty(s: State)
    requires Reachable(s) && Enabled(s, GetStep) && !s.get.UnlockGet?
    requires var t := Step(s, GetStep); (t.get.UnlockGet? || t.get.Out?) && t.got == s.got
    ensures Queue(s) == [] && s.everNonblock
  {
    ReachableInv(s);
  }
}
