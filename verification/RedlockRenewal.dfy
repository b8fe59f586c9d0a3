/**
  What Redlock's callers may rely on across renewals: exactly when the validity announced to
  a caller still excludes every other client.
 */
module RedlockRenewal {
  import opened Options
  import opened Redlock
  import opened RedlockCalls

  // Client c's latest successful call, as announced to its caller, is still running.
  predicate Believes(s: State, c: nat) {
    c < |s.clients| && s.clients[c].announced.Some? && s.now < s.clients[c].announced.value.until
  }

  // The caller renews while the call being renewed is still running.
  predicate RenewsEarly(s: State, a: Action) {
    && a.BeginContinue?
    && Believes(s, a.c)
    && s.clients[a.c].renewVal == Some(s.clients[a.c].announced.value.val)
  }

  // The attempt client c is concluding succeeds.
  predicate Succeeds(s: State, c: nat) {
    && c < |s.clients| && s.clients[c].pc.Asking?
    && |s.clients[c].pc.granted| >= s.quorum
    && ValidityTime(s.clients[c].pc.ttl, s.clients[c].pc.start, s.now) > 0
  }

  // The clients that have renewed a running call since their latest success.
  function Remark(s: State, a: Action, dirty: set<nat>): set<nat> {
    if RenewsEarly(s, a) then dirty + {a.c}
    else if a.Conclude? && Succeeds(s, a.c) then dirty - {a.c}
    else dirty
  }

  function Dirty(s: State, acts: seq<Action>, dirty: set<nat>): set<nat>
    decreases |acts|
  {
    if acts == [] || !Enabled(s, acts[0]) then dirty
    else Dirty(Step(s, acts[0]), acts[1..], Remark(s, acts[0], dirty))
  }

  // A claim is always part of what its client was told.
  ghost predicate Named(s: State) {
    forall c :: 0 <= c < |s.clients| && s.clients[c].claim.Some? ==>
      && s.clients[c].announced.Some?
      && s.clients[c].announced.value.val == s.clients[c].claim.value.val
  }

  // What a client was told and what the servers back agree, or it has run out.
  ghost predicate Backed(s: State, c: nat) {
    Believes(s, c) ==> s.clients[c].claim == s.clients[c].announced && !Renewing(s.clients[c])
  }

  // No client has gone past the last server.
  ghost predicate InRange(s: State) {
    forall c :: 0 <= c < |s.clients| && !s.clients[c].pc.Idle? ==> s.clients[c].pc.next <= |s.servers|
  }

  ghost predicate CleanBacked(s: State, dirty: set<nat>) {
    Named(s) && InRange(s) && forall c: nat :: c < |s.clients| && c !in dirty ==> Backed(s, c)
  }

  lemma BackedStep(s: State, a: Action, dirty: set<nat>)
    requires Inv(s) && CleanBacked(s, dirty) && Enabled(s, a)
    ensures CleanBacked(Step(s, a), Remark(s, a, dirty))
  {
    var t := Step(s, a);
    forall c: nat | c < |t.clients| && c !in Remark(s, a, dirty)
      ensures Backed(t, c)
    {
      assert PcOk(s, c) && ClaimOk(s, c);
      assert Believes(t, c) && t.clients[c].announced == s.clients[c].announced ==> Believes(s, c);
    }
  }

  lemma {:induction false} RunBacked(s: State, acts: seq<Action>, dirty: set<nat>)
    requires Inv(s) && CleanBacked(s, dirty) && Run(s, acts).Some?
    ensures CleanBacked(Run(s, acts).value, Dirty(s, acts, dirty))
    decreases |acts|
  {
    if acts != [] {
      StepInv(s, acts[0]);
      BackedStep(s, acts[0], dirty);
      RunBacked(Step(s, acts[0]), acts[1..], Remark(s, acts[0], dirty));
    }
  }

  // A state some run of a configured lock reaches, and who has renewed a running call
  // since its latest success.
  ghost predicate Reached(s: State, dirty: set<nat>) {
    exists servers: nat, clients: nat, acts ::
      var s0 := Init(servers, clients, Quorum(servers));
      Run(s0, acts) == Some(s) && Dirty(s0, acts, {}) == dirty
  }

  lemma ReachedInv(s: State, dirty: set<nat>)
    requires Reached(s, dirty)
    ensures Inv(s) && CleanBacked(s, dirty) && s.quorum == Quorum(|s.servers|)
  {
    var servers: nat, clients: nat, acts :|
      var s0 := Init(servers, clients, Quorum(servers));
      Run(s0, acts) == Some(s) && Dirty(s0, acts, {}) == dirty;
    var s0 := Init(servers, clients, Quorum(servers));
    InitInv(servers, clients, Quorum(servers));
    RunInv(s0, acts);
    RunBacked(s0, acts, {});
  }

  // Main theorem: in every run, two clients that have not renewed a running call since
  // their latest success never believe in their calls at the same instant.
  lemma AnnouncedExclusion(s: State, dirty: set<nat>, a: nat, b: nat)
    requires Reached(s, dirty) && a !in dirty && b !in dirty && Believes(s, a) && Believes(s, b)
    ensures a == b
  {
    ReachedInv(s, dirty);
    HoldersAgree(s, a, b);
  }

  // ---------- what an early renewal can lead to ----------

  lemma {:induction false} DirtyAppend(s: State, p: seq<Action>, q: seq<Action>, dirty: set<nat>)
    requires Run(s, p).Some?
    ensures Dirty(s, p + q, dirty) == Dirty(Run(s, p).value, q, Dirty(s, p, dirty))
    decreases |p|
  {
    if p == [] {
      assert p + q == q;
    } else {
      assert (p + q)[1..] == p[1..] + q;
      DirtyAppend(Step(s, p[0]), p[1..], q, Remark(s, p[0], dirty));
    }
  }

  // How far a client is from the end of its call.
  function Left(pc: Pc): nat {
    match pc
    case Idle => 0
    case Asking(_, _, _, _, _, _, tries) => if tries > 0 then 2 * tries + 2 else 2
    case Releasing(_, _, None) => 1
    case Releasing(_, _, Some(r)) => if r.tries > 0 then 2 * r.tries + 1 else 1
  }

  // Client d comes to the end of its call without any of its requests getting through.
  lemma {:induction false} Finish(s: State, d: nat) returns (acts: seq<Action>, t: State)
    requires d < |s.clients| && (!s.clients[d].pc.Idle? ==> s.clients[d].pc.next <= |s.servers|)
    ensures Leads(s, acts, t) && Alone(s, t, d) && t.servers == s.servers && t.clients[d].pc.Idle?
    decreases Left(s.clients[d].pc)
  {
    if s.clients[d].pc.Idle? {
      acts, t := [], s;
    } else {
      var u;
      acts, u := FinishAttempt(s, d);
      var more, v := Finish(u, d);
      LeadsOn(s, acts, u, more, v);
      acts, t := acts + more, v;
    }
  }

  // One attempt or release of it.
  lemma FinishAttempt(s: State, d: nat) returns (acts: seq<Action>, t: State)
    requires d < |s.clients| && !s.clients[d].pc.Idle? && s.clients[d].pc.next <= |s.servers|
    ensures Leads(s, acts, t) && Alone(s, t, d) && t.servers == s.servers
    ensures Left(t.clients[d].pc) < Left(s.clients[d].pc)
    ensures !t.clients[d].pc.Idle? ==> t.clients[d].pc.next <= |t.servers|
  {
    var u;
    if s.clients[d].pc.Asking? {
      acts, u := AskAll(s, d, {}, {});
      t := Step(u, Conclude(d));
      LeadsStep(u, Conclude(d));
      LeadsOn(s, acts, u, [Conclude(d)], t);
      acts := acts + [Conclude(d)];
    } else {
      acts, u := ReleaseAll(s, d, {});
      t := Step(u, Released(d));
      LeadsStep(u, Released(d));
      LeadsOn(s, acts, u, [Released(d)], t);
      acts := acts + [Released(d)];
    }
    assert t.servers == s.servers;
  }

  // The servers of a set hold no key.
  ghost predicate Empty(s: State, servers: set<nat>) {
    forall i :: i in servers ==> i < |s.servers| && s.servers[i].None?
  }

  // The attempt reaches the servers with its keys, no reply comes back, and its Unlock reaches
  // them too: the keys it replaced are gone.
  lemma LoseRenewal(s: State, c: nat, servers: set<nat>) returns (acts: seq<Action>, t: State)
    requires AsksNext(s, c) && s.clients[c].pc.next == 0 && s.clients[c].pc.granted == {} && s.quorum > 0
    requires s.clients[c].pc.call.ContinueCall? && s.clients[c].renewVal.Some?
    requires forall i :: i in servers ==>
      i < |s.servers| && s.servers[i].Some? && s.servers[i].value.val == s.clients[c].renewVal.value
    ensures Leads(s, acts, t) && Alone(s, t, c) && Empty(t, servers)
    ensures t.clients[c].announced == s.clients[c].announced
  {
    var u;
    acts, u := AskAll(s, c, servers, {});
    var v := Step(u, Conclude(c));
    LeadsStep(u, Conclude(c));
    LeadsOn(s, acts, u, [Conclude(c)], v);
    var releases;
    releases, t := ReleaseAll(v, c, servers);
    LeadsOn(s, acts + [Conclude(c)], v, releases, t);
    acts := acts + [Conclude(c)] + releases;
  }

  lemma SubsetCount(a: set<nat>, b: set<nat>)
    requires a <= b
    ensures |a| <= |b|
  {
    assert b == a + (b - a);
  }

  // A long enough Lock that reaches and hears from more than half of the servers, all of them
  // without a key, succeeds, whatever becomes of its requests to the others.
  lemma LockEmpty(s: State, d: nat, servers: set<nat>, reached: set<nat>, answered: set<nat>)
    returns (acts: seq<Action>, u: State)
    requires d < |s.clients| && s.clients[d].pc.Idle? && Empty(s, servers) && s.quorum == Quorum(|s.servers|)
    requires 2 * |servers| > |s.servers| && servers <= reached && servers <= answered
    ensures Leads(s, acts, u) && Alone(s, u, d) && Enabled(u, Conclude(d)) && Succeeds(u, d)
    ensures Believes(Step(u, Conclude(d)), d)
  {
    var a := BeginLock(d, 10000, 1);
    var s1 := Step(s, a);
    LeadsStep(s, a);
    acts, u := AskAll(s1, d, reached, answered);
    LeadsOn(s, [a], s1, acts, u);
    acts := [a] + acts;
    SubsetCount(servers, u.clients[d].pc.granted);
  }

  // ---------- the exact condition ----------

  predicate RenewsEarlyBy(s: State, a: Action, c: nat) {
    RenewsEarly(s, a) && a.c == c
  }

  predicate NeverRenews(s: State, acts: seq<Action>, c: nat)
    decreases |acts|
  {
    acts != [] && Enabled(s, acts[0]) ==>
      !RenewsEarlyBy(s, acts[0], c) && NeverRenews(Step(s, acts[0]), acts[1..], c)
  }

  lemma {:induction false} LeadsNeverRenews(s: State, acts: seq<Action>, t: State, c: nat)
    requires Leads(s, acts, t)
    ensures NeverRenews(s, acts, c)
    decreases |acts|
  {
    if acts != [] {
      LeadsNeverRenews(Step(s, acts[0]), acts[1..], t, c);
    }
  }

  lemma {:induction false} StaysClean(s: State, acts: seq<Action>, dirty: set<nat>, c: nat)
    requires NeverRenews(s, acts, c) && c !in dirty
    ensures c !in Dirty(s, acts, dirty)
    decreases |acts|
  {
    if acts != [] && Enabled(s, acts[0]) {
      StaysClean(Step(s, acts[0]), acts[1..], Remark(s, acts[0], dirty), c);
    }
  }

  // After the action a and some more, in which c renews no running call, c and d believe in
  // their calls at the same instant, though d is clean.
  ghost predicate Endangers(s: State, dirty: set<nat>, a: Action, more: seq<Action>, c: nat, d: nat) {
    && Enabled(s, a) && NeverRenews(Step(s, a), more, c)
    && d !in Dirty(Step(s, a), more, Remark(s, a, dirty))
    && Run(Step(s, a), more).Some?
    && Believes(Run(Step(s, a), more).value, c)
    && Believes(Run(Step(s, a), more).value, d)
  }

  lemma ReachedOn(s: State, dirty: set<nat>, a: Action, more: seq<Action>)
    requires Reached(s, dirty) && Enabled(s, a) && Run(Step(s, a), more).Some?
    ensures Reached(Run(Step(s, a), more).value, Dirty(Step(s, a), more, Remark(s, a, dirty)))
  {
    var servers: nat, clients: nat, acts :|
      var s0 := Init(servers, clients, Quorum(servers));
      Run(s0, acts) == Some(s) && Dirty(s0, acts, {}) == dirty;
    var s0, t := Init(servers, clients, Quorum(servers)), Run(Step(s, a), more).value;
    assert ([a] + more)[1..] == more;
    RunAppend(s0, acts, [a] + more);
    DirtyAppend(s0, acts, [a] + more, {});
    assert Run(s0, acts + ([a] + more)) == Some(t);
  }

  // Whoever is clean before an action that is no early renewal of its own cannot come to
  // share its interval by it.
  lemma HarmlessAction(s: State, dirty: set<nat>, a: Action, more: seq<Action>, c: nat, d: nat)
    requires Reached(s, dirty) && c !in dirty && c != d && Enabled(s, a) && !RenewsEarlyBy(s, a, c)
    ensures !Endangers(s, dirty, a, more, c, d)
  {
    if Endangers(s, dirty, a, more, c, d) {
      var dirty' := Dirty(Step(s, a), more, Remark(s, a, dirty));
      ReachedOn(s, dirty, a, more);
      StaysClean(Step(s, a), more, Remark(s, a, dirty), c);
      AnnouncedExclusion(Run(Step(s, a), more).value, dirty', c, d);
    }
  }

  // The rest of a run in which client c's renewal is lost and client d locks.
  lemma RenewalLost(s: State, dirty: set<nat>, a: Action, d: nat) returns (acts: seq<Action>, u: State)
    requires Reached(s, dirty) && Enabled(s, a) && RenewsEarly(s, a) && a.c !in dirty
    requires d < |s.clients| && d != a.c
    ensures Leads(Step(s, a), acts, u) && u.now == s.now && a.c < |u.clients| && d < |u.clients|
    ensures u.clients[a.c].announced == s.clients[a.c].announced
    ensures Enabled(u, Conclude(d)) && Succeeds(u, d) && Believes(Step(u, Conclude(d)), d)
  {
    ReachedInv(s, dirty);
    var c, s1 := a.c, Step(s, a);
    var servers := s.clients[c].claim.value.servers;
    assert ClaimOk(s, c) && Backed(s, c);
    forall i | i in servers
      ensures i < |s1.servers| && s1.servers[i].Some? && s1.servers[i].value.val == s1.clients[c].renewVal.value
    {
      assert Keeps(s, i, ClaimVals(s.clients[c]), s.clients[c].claim.value.until);
    }
    var s2, s3, more, last;
    acts, s2 := LoseRenewal(s1, c, servers);
    more, s3 := Finish(s2, d);
    LeadsOn(s1, acts, s2, more, s3);
    last, u := LockEmpty(s3, d, servers, servers, servers);
    LeadsOn(s1, acts + more, s3, last, u);
    acts := acts + more + last;
  }

  lemma RenewalEndangers(s: State, dirty: set<nat>, a: Action, d: nat) returns (more: seq<Action>)
    requires Reached(s, dirty) && Enabled(s, a) && RenewsEarly(s, a) && a.c !in dirty
    requires d < |s.clients| && d != a.c
    ensures Endangers(s, dirty, a, more, a.c, d)
  {
    var acts, u := RenewalLost(s, dirty, a, d);
    var s1, t := Step(s, a), Step(u, Conclude(d));
    LeadsStep(u, Conclude(d));
    LeadsOn(s1, acts, u, [Conclude(d)], t);
    more := acts + [Conclude(d)];
    LeadsNeverRenews(s1, more, t, a.c);
    RunAppend(s1, acts, [Conclude(d)]);
    DirtyAppend(s1, acts, [Conclude(d)], Remark(s, a, dirty));
  }

  // Main theorem: of everything that can happen while a clean client's call is running,
  // exactly its own renewal can lead to another client believing in a call at the same
  // time.  It is the caller who decides on it, knowing that its call is running.
  lemma EarlyRenewalExactly(s: State, dirty: set<nat>, a: Action, c: nat, d: nat)
    requires Reached(s, dirty) && c !in dirty && Enabled(s, a) && d < |s.clients| && d != c
    ensures RenewsEarlyBy(s, a, c) <==> exists more :: Endangers(s, dirty, a, more, c, d)
  {
    if RenewsEarlyBy(s, a, c) {
      var more := RenewalEndangers(s, dirty, a, d);
    } else {
      forall more ensures !Endangers(s, dirty, a, more, c, d) { HarmlessAction(s, dirty, a, more, c, d); }
    }
  }

  // ---------- an illustration ----------

  const FIRST_CALL: seq<Action> := [BeginContinue(0, 10000, 1), Ask(0, true, true), Conclude(0)]

  // One server and two clients are enough: renewing the call just made can end in overlap.
  lemma EarlyRenewalBreaksExclusion()
    ensures exists s, dirty :: Reached(s, dirty) && Believes(s, 0) && Believes(s, 1)
  {
    var s0 := Init(1, 2, Quorum(1));
    var s1 := Step(s0, FIRST_CALL[0]);
    var s2 := Step(s1, FIRST_CALL[1]);
    var s3 := Step(s2, FIRST_CALL[2]);
    RunFirst(s2, FIRST_CALL[2], []);
    RunFirst(s1, FIRST_CALL[1], [FIRST_CALL[2]]);
    RunFirst(s0, FIRST_CALL[0], [FIRST_CALL[1]] + [FIRST_CALL[2]]);
    assert FIRST_CALL == [FIRST_CALL[0]] + ([FIRST_CALL[1]] + [FIRST_CALL[2]]);
    StaysClean(s0, FIRST_CALL, {}, 0);
    var dirty := Dirty(s0, FIRST_CALL, {});
    assert Reached(s3, dirty);
    var a := BeginContinue(0, 10000, 1);
    assert RenewsEarly(s3, a);
    var more := RenewalEndangers(s3, dirty, a, 1);
    ReachedOn(s3, dirty, a, more);
  }
}
