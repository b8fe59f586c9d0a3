/**
  Whole calls of Lock, ContinueLock and Unlock: what a call by one client does to every
  server and what it tells its caller, for any choice of the requests that arrive and the
  replies that come back.
 */
module RedlockCalls {
  import opened Options
  import opened Redlock

  // ---------- runs ----------

  lemma {:induction false} RunAppend(s: State, p: seq<Action>, q: seq<Action>)
    requires Run(s, p).Some?
    ensures Run(s, p + q) == Run(Run(s, p).value, q)
    decreases |p|
  {
    if p == [] {
      assert p + q == q;
    } else {
      assert (p + q)[1..] == p[1..] + q;
      RunAppend(Step(s, p[0]), p[1..], q);
    }
  }

  // A run from s to t in which no ContinueLock begins.
  ghost predicate Leads(s: State, acts: seq<Action>, t: State) {
    Run(s, acts) == Some(t) && forall i :: 0 <= i < |acts| ==> !acts[i].BeginContinue?
  }

  lemma LeadsStep(s: State, a: Action)
    requires Enabled(s, a) && !a.BeginContinue?
    ensures Leads(s, [a], Step(s, a))
  {
    RunFirst(s, a, []);
  }

  lemma LeadsOn(s: State, p: seq<Action>, u: State, q: seq<Action>, t: State)
    requires Leads(s, p, u) && Leads(u, q, t)
    ensures Leads(s, p + q, t)
  {
    RunAppend(s, p, q);
  }

  // Client c alone has moved, in no time.
  ghost predicate Alone(s: State, t: State, c: nat) {
    && t.now == s.now && t.quorum == s.quorum
    && |t.servers| == |s.servers| && |t.clients| == |s.clients|
    && forall e :: 0 <= e < |s.clients| && e != c ==> t.clients[e] == s.clients[e]
  }

  // ---------- asking and releasing, server by server ----------

  ghost predicate AsksNext(s: State, c: nat) {
    c < |s.clients| && s.clients[c].pc.Asking? && s.clients[c].pc.next <= |s.servers|
  }

  ghost predicate ReleasesNext(s: State, c: nat) {
    c < |s.clients| && s.clients[c].pc.Releasing? && s.clients[c].pc.next <= |s.servers|
  }

  // What asking all remaining servers does to each of them.
  function AskedAt(s: State, c: nat, i: nat, reached: set<nat>): Option<Entry>
    requires c < |s.clients| && s.clients[c].pc.Asking? && i < |s.servers|
  {
    var cl := s.clients[c];
    if i in reached && cl.pc.next <= i
    then Script(cl.pc.call, s.servers[i], cl.renewVal, cl.pc.val, cl.pc.ttl, s.now)
    else s.servers[i]
  }

  // The remaining servers that grant and whose reply comes back.
  function Granting(s: State, c: nat, reached: set<nat>, answered: set<nat>): set<nat>
    requires c < |s.clients| && s.clients[c].pc.Asking?
  {
    var cl := s.clients[c];
    set i | cl.pc.next <= i < |s.servers| && i in reached && i in answered
            && Accepts(cl.pc.call, s.servers[i], cl.renewVal, cl.pc.ttl)
  }

  // The rest of an attempt: all remaining servers are asked.
  ghost predicate Asked(s: State, t: State, c: nat, reached: set<nat>, answered: set<nat>)
    requires AsksNext(s, c)
  {
    var cl := s.clients[c];
    && Alone(s, t, c) && t.owner == s.owner
    && t.clients[c] == cl.(pc := cl.pc.(next := |s.servers|,
                                        granted := cl.pc.granted + Granting(s, c, reached, answered)))
    && forall i :: 0 <= i < |s.servers| ==> t.servers[i] == AskedAt(s, c, i, reached)
  }

  lemma GrantingFirst(s: State, c: nat, reached: set<nat>, answered: set<nat>)
    requires AsksNext(s, c) && s.clients[c].pc.next < |s.servers|
    ensures var i := s.clients[c].pc.next;
            var u := Step(s, Ask(c, i in reached, i in answered));
            && s.clients[c].pc.granted + Granting(s, c, reached, answered)
               == u.clients[c].pc.granted + Granting(u, c, reached, answered)
  {
  }

  lemma {:induction false} AskAll(s: State, c: nat, reached: set<nat>, answered: set<nat>)
    returns (acts: seq<Action>, t: State)
    requires AsksNext(s, c)
    ensures Leads(s, acts, t) && Asked(s, t, c, reached, answered)
    ensures forall i :: 0 <= i < |acts| ==> acts[i].Ask?
    decreases |s.servers| - s.clients[c].pc.next
  {
    if s.clients[c].pc.next == |s.servers| {
      acts, t := [], s;
      assert Granting(s, c, reached, answered) == {};
    } else {
      var i := s.clients[c].pc.next;
      var a := Ask(c, i in reached, i in answered);
      var u := Step(s, a);
      LeadsStep(s, a);
      GrantingFirst(s, c, reached, answered);
      acts, t := AskAll(u, c, reached, answered);
      LeadsOn(s, [a], u, acts, t);
      acts := [a] + acts;
    }
  }

  function ReleasedAt(s: State, c: nat, i: nat, reached: set<nat>): Option<Entry>
    requires c < |s.clients| && s.clients[c].pc.Releasing? && i < |s.servers|
  {
    if i in reached && s.clients[c].pc.next <= i then CompareAndDelete(s.servers[i], s.clients[c].pc.val)
    else s.servers[i]
  }

  // The rest of an Unlock: all remaining servers are told.
  ghost predicate ReleasedAll(s: State, t: State, c: nat, reached: set<nat>)
    requires ReleasesNext(s, c)
  {
    var cl := s.clients[c];
    && Alone(s, t, c) && t.owner == s.owner && t.clients[c] == cl.(pc := cl.pc.(next := |s.servers|))
    && forall i :: 0 <= i < |s.servers| ==> t.servers[i] == ReleasedAt(s, c, i, reached)
  }

  lemma {:induction false} ReleaseAll(s: State, c: nat, reached: set<nat>) returns (acts: seq<Action>, t: State)
    requires ReleasesNext(s, c)
    ensures Leads(s, acts, t) && ReleasedAll(s, t, c, reached)
    ensures forall i :: 0 <= i < |acts| ==> acts[i].Release?
    decreases |s.servers| - s.clients[c].pc.next
  {
    if s.clients[c].pc.next == |s.servers| {
      acts, t := [], s;
    } else {
      var a := Release(c, s.clients[c].pc.next in reached);
      var u := Step(s, a);
      LeadsStep(s, a);
      acts, t := ReleaseAll(u, c, reached);
      LeadsOn(s, [a], u, acts, t);
      acts := [a] + acts;
    }
  }

  // ---------- when an attempt succeeds ----------

  // A state of some run of a configured lock.
  ghost predicate Configured(s: State) {
    exists servers: nat, clients: nat, acts :: Run(Init(servers, clients, Quorum(servers)), acts) == Some(s)
  }

  lemma MajorityQuorum(s: State)
    requires Configured(s)
    ensures s.quorum == Quorum(|s.servers|)
  {
    var servers: nat, clients: nat, acts :| Run(Init(servers, clients, Quorum(servers)), acts) == Some(s);
    InitInv(servers, clients, Quorum(servers));
    RunInv(Init(servers, clients, Quorum(servers)), acts);
  }

  // What is left of a time to live when `now` is read, in the units of the source: whole
  // seconds of the clock, a hundredth and two milliseconds for drift.
  function LeftOf(ttl: int, start: int, now: int): int {
    ttl - (now / 1000 - start / 1000) * 1000 - (if ttl < 0 then -((-ttl) / 100) else ttl / 100) - 2
  }

  // The attempt has won: its caller is told how long, less the granularity of the clock.
  ghost predicate Won(cl: Client, val: nat, servers: set<nat>, until: int) {
    cl.pc.Idle? && cl.announced == cl.claim == Some(Claim(val, servers, until))
  }

  // The attempt has lost: every server is to be told, and then perhaps another one is made.
  ghost predicate Lost(before: Client, cl: Client, val: nat, retry: Retry) {
    cl.pc == Releasing(val, 0, Some(retry)) && cl.announced == before.announced
  }

  lemma ConcludesBy(s: State, c: nat)
    requires s.quorum == Quorum(|s.servers|) && Enabled(s, Conclude(c))
    ensures var p, cl := s.clients[c].pc, Step(s, Conclude(c)).clients[c];
            var left := LeftOf(p.ttl, p.start, s.now);
            && cl.renewVal == (if p.call.ContinueCall? then Some(p.val) else s.clients[c].renewVal)
            && if 2 * |p.granted| > |s.servers| && left > 0 then Won(cl, p.val, p.granted, s.now + left - 1000)
               else Lost(s.clients[c], cl, p.val, Retry(p.call, p.ttl, p.tries))
  {
  }

  // Main theorem: in every run, an attempt ends in success exactly if more than half of the
  // servers granted it and some of its time to live is left.
  lemma SucceedsExactly(s: State, c: nat)
    requires Configured(s) && Enabled(s, Conclude(c))
    ensures var p, cl := s.clients[c].pc, Step(s, Conclude(c)).clients[c];
            var left := LeftOf(p.ttl, p.start, s.now);
            && cl.renewVal == (if p.call.ContinueCall? then Some(p.val) else s.clients[c].renewVal)
            && if 2 * |p.granted| > |s.servers| && left > 0 then Won(cl, p.val, p.granted, s.now + left - 1000)
               else Lost(s.clients[c], cl, p.val, Retry(p.call, p.ttl, p.tries))
  {
    MajorityQuorum(s);
    ConcludesBy(s, c);
  }

  // ---------- a whole attempt ----------

  // The servers at which the key can be set: reached, and without a key or, for a renewal,
  // with the key to renew.
  function Open(s: State, renewed: Option<nat>, reached: set<nat>): set<nat> {
    set i | 0 <= i < |s.servers| && i in reached
            && (s.servers[i].None? || renewed == Some(s.servers[i].value.val))
  }

  // The keys after an attempt: a fresh one at every open server, the others as they were.
  // With a time to live that is not positive nothing is set, and a key to renew is gone.
  ghost predicate Keyed(s: State, t: State, open: set<nat>, val: nat, ttl: int) {
    |t.servers| == |s.servers| && forall i :: 0 <= i < |s.servers| ==>
      t.servers[i] == if i !in open then s.servers[i]
                      else if ttl > 0 then Some(Entry(val, s.now + ttl, ttl / 100 + 1)) else None
  }

  // A client at the first server of an attempt.
  ghost predicate Starts(s: State, c: nat) {
    && c < |s.clients| && s.clients[c].pc.Asking?
    && s.clients[c].pc.next == 0 && s.clients[c].pc.granted == {} && s.clients[c].pc.start == s.now
  }

  // What the attempt's requests renew.
  function RenewedBy(cl: Client): Option<nat>
    requires cl.pc.Asking?
  {
    if cl.pc.call.LockCall? then None else cl.renewVal
  }

  // The attempt for the requests that arrive and the replies that come back.
  ghost predicate Attempted(s: State, t: State, c: nat, reached: set<nat>, answered: set<nat>)
    requires Starts(s, c)
  {
    var cl := s.clients[c];
    var open := Open(s, RenewedBy(cl), reached);
    var left := LeftOf(cl.pc.ttl, s.now, s.now);
    && Alone(s, t, c) && Keyed(s, t, open, cl.pc.val, cl.pc.ttl)
    && t.clients[c].renewVal == (if cl.pc.call.ContinueCall? then Some(cl.pc.val) else cl.renewVal)
    && if 2 * |open * answered| > |s.servers| && left > 0
       then Won(t.clients[c], cl.pc.val, open * answered, s.now + left - 1000)
       else Lost(cl, t.clients[c], cl.pc.val, Retry(cl.pc.call, cl.pc.ttl, cl.pc.tries))
  }

  lemma AskedKeys(s: State, t: State, c: nat, reached: set<nat>, answered: set<nat>)
    requires Starts(s, c) && Asked(s, t, c, reached, answered)
    ensures Keyed(s, t, Open(s, RenewedBy(s.clients[c]), reached), s.clients[c].pc.val, s.clients[c].pc.ttl)
    ensures s.clients[c].pc.ttl > 0 ==>
              t.clients[c].pc.granted == Open(s, RenewedBy(s.clients[c]), reached) * answered
  {
  }

  lemma Attempt(s: State, c: nat, reached: set<nat>, answered: set<nat>) returns (acts: seq<Action>, t: State)
    requires s.quorum == Quorum(|s.servers|) && Starts(s, c)
    ensures Leads(s, acts, t) && Attempted(s, t, c, reached, answered) && Attempts(acts) == 1
  {
    var u;
    acts, u := AskAll(s, c, reached, answered);
    AskedKeys(s, u, c, reached, answered);
    ConcludesBy(u, c);
    t := Step(u, Conclude(c));
    LeadsStep(u, Conclude(c));
    LeadsOn(s, acts, u, [Conclude(c)], t);
    NoAttempts(acts);
    AttemptsAppend(acts, [Conclude(c)]);
    acts := acts + [Conclude(c)];
  }

  // How many attempts a run concludes.
  function Attempts(acts: seq<Action>): nat {
    if acts == [] then 0 else (if acts[0].Conclude? then 1 else 0) + Attempts(acts[1..])
  }

  lemma {:induction false} AttemptsAppend(p: seq<Action>, q: seq<Action>)
    ensures Attempts(p + q) == Attempts(p) + Attempts(q)
  {
    if p == [] {
      assert p + q == q;
    } else {
      assert (p + q)[1..] == p[1..] + q;
      AttemptsAppend(p[1..], q);
    }
  }

  lemma {:induction false} NoAttempts(acts: seq<Action>)
    requires forall i :: 0 <= i < |acts| ==> !acts[i].Conclude?
    ensures Attempts(acts) == 0
  {
    if acts != [] {
      NoAttempts(acts[1..]);
    }
  }

  // Main theorem: the first attempt of a Lock by an idle client.  The key is set at exactly
  // the servers reached that have none; the call succeeds exactly if more than half of all
  // servers are of these and answer, and the time to live covers the drift.
  lemma LockExactly(s: State, c: nat, ttl: int, tries: int, reached: set<nat>, answered: set<nat>)
    returns (acts: seq<Action>, t: State)
    requires Configured(s) && Enabled(s, BeginLock(c, ttl, tries))
    ensures Run(s, [BeginLock(c, ttl, tries)] + acts) == Some(t) && Attempts(acts) == 1 && Alone(s, t, c)
    ensures var open := Open(s, None, reached);
            var left := LeftOf(ttl, s.now, s.now);
            && Keyed(s, t, open, |s.owner|, ttl)
            && if 2 * |open * answered| > |s.servers| && left > 0
               then Won(t.clients[c], |s.owner|, open * answered, s.now + left - 1000)
               else Lost(s.clients[c], t.clients[c], |s.owner|, Retry(LockCall, ttl, tries))
  {
    MajorityQuorum(s);
    var u := Step(s, BeginLock(c, ttl, tries));
    acts, t := Attempt(u, c, reached, answered);
    RunFirst(s, BeginLock(c, ttl, tries), acts);
    assert Open(u, None, reached) == Open(s, None, reached);
  }

  // Main theorem: the same for a ContinueLock, which also replaces the key it renews, the one
  // set by the client's last ContinueLock.
  lemma ContinueExactly(s: State, c: nat, ttl: int, tries: int, reached: set<nat>, answered: set<nat>)
    returns (acts: seq<Action>, t: State)
    requires Configured(s) && Enabled(s, BeginContinue(c, ttl, tries))
    ensures Run(s, [BeginContinue(c, ttl, tries)] + acts) == Some(t) && Attempts(acts) == 1 && Alone(s, t, c)
    ensures t.clients[c].renewVal == Some(|s.owner|)
    ensures var renewed := if s.clients[c].renewVal.Some? then s.clients[c].renewVal else Some(|s.owner|);
            var open := Open(s, renewed, reached);
            var left := LeftOf(ttl, s.now, s.now);
            && Keyed(s, t, open, |s.owner|, ttl)
            && if 2 * |open * answered| > |s.servers| && left > 0
               then Won(t.clients[c], |s.owner|, open * answered, s.now + left - 1000)
               else Lost(s.clients[c], t.clients[c], |s.owner|, Retry(ContinueCall, ttl, tries))
  {
    MajorityQuorum(s);
    var u := Step(s, BeginContinue(c, ttl, tries));
    acts, t := Attempt(u, c, reached, answered);
    RunFirst(s, BeginContinue(c, ttl, tries), acts);
    assert Open(u, u.clients[c].renewVal, reached) == Open(s, u.clients[c].renewVal, reached);
  }

  // ---------- releasing and trying again ----------

  // The keys after an Unlock: gone where it was reached and the value is the one unlocked.
  ghost predicate Unkeyed(s: State, t: State, val: nat, reached: set<nat>) {
    |t.servers| == |s.servers| && forall i :: 0 <= i < |s.servers| ==>
      t.servers[i] == if i in reached && s.servers[i].Some? && s.servers[i].value.val == val then None
                      else s.servers[i]
  }

  // Main theorem: Unlock deletes the key with its value at every server reached and touches
  // no other, and the caller no longer holds the call it unlocks.
  lemma UnlockExactly(s: State, c: nat, val: nat, reached: set<nat>) returns (acts: seq<Action>, t: State)
    requires Enabled(s, BeginUnlock(c, val))
    ensures Run(s, [BeginUnlock(c, val)] + acts) == Some(t) && Alone(s, t, c) && Unkeyed(s, t, val, reached)
    ensures t.clients[c].pc.Idle? && t.clients[c].renewVal == s.clients[c].renewVal
    ensures var told := s.clients[c].announced;
            t.clients[c].announced == if told.Some? && told.value.val == val then None else told
  {
    var u := Step(s, BeginUnlock(c, val));
    acts, t := ReleaseAll(u, c, reached);
    LeadsStep(t, Released(c));
    LeadsOn(u, acts, t, [Released(c)], Step(t, Released(c)));
    acts, t := acts + [Released(c)], Step(t, Released(c));
    RunFirst(s, BeginUnlock(c, val), acts);
  }

  // The release after a lost attempt, and the next attempt if any is left.
  lemma ReleaseExactly(s: State, c: nat, reached: set<nat>) returns (acts: seq<Action>, t: State)
    requires c < |s.clients| && s.clients[c].pc.Releasing? && s.clients[c].pc.next == 0
    requires s.clients[c].pc.retry.Some?
    ensures Leads(s, acts, t) && Alone(s, t, c) && Unkeyed(s, t, s.clients[c].pc.val, reached) && Attempts(acts) == 0
    ensures var r := s.clients[c].pc.retry.value;
            t.clients[c] == s.clients[c].(pc :=
              if r.tries > 1 then Asking(r.call, s.clients[c].pc.val, r.ttl, s.now, 0, {}, r.tries - 1) else Idle)
  {
    acts, t := ReleaseAll(s, c, reached);
    LeadsStep(t, Released(c));
    LeadsOn(s, acts, t, [Released(c)], Step(t, Released(c)));
    acts, t := acts + [Released(c)], Step(t, Released(c));
    NoAttempts(acts);
  }

  // Main theorem: a call none of whose requests arrive is tried as often as its caller asked
  // for, at least once, and leaves everything as it was.
  lemma {:induction false} GivesUp(s: State, c: nat) returns (acts: seq<Action>, t: State)
    requires s.quorum == Quorum(|s.servers|) && Starts(s, c)
    ensures Leads(s, acts, t) && Alone(s, t, c) && t.servers == s.servers
    ensures t.clients[c].pc.Idle? && t.clients[c].announced == s.clients[c].announced
    ensures Attempts(acts) == if s.clients[c].pc.tries > 1 then s.clients[c].pc.tries else 1
    decreases s.clients[c].pc.tries
  {
    var u, v, more;
    acts, u := Attempt(s, c, {}, {});
    assert Open(s, RenewedBy(s.clients[c]), {}) * {} == {};
    more, v := ReleaseExactly(u, c, {});
    assert v.servers == s.servers;
    AttemptsAppend(acts, more);
    LeadsOn(s, acts, u, more, v);
    acts, t := acts + more, v;
    if s.clients[c].pc.tries > 1 {
      var rest, w := GivesUp(v, c);
      AttemptsAppend(acts, rest);
      LeadsOn(s, acts, v, rest, w);
      acts, t := acts + rest, w;
    }
  }

  // ---------- a lock nobody releases ----------

  // Every key is past its time to live.
  ghost predicate Overdue(s: State) {
    forall i :: 0 <= i < |s.servers| && s.servers[i].Some? ==> s.now >= s.servers[i].value.expiry
  }

  // Slack is never negative, since only positive times to live are set.
  ghost predicate Slacks(s: State) {
    forall i :: 0 <= i < |s.servers| && s.servers[i].Some? ==> s.servers[i].value.slack >= 0
  }

  // The servers drop what is overdue, one by one.
  lemma {:induction false} Lapse(s: State, i: nat) returns (acts: seq<Action>, t: State)
    requires i <= |s.servers| && Overdue(s) && Slacks(s) && forall j :: 0 <= j < i ==> s.servers[j].None?
    ensures Leads(s, acts, t) && t == s.(servers := t.servers) && |t.servers| == |s.servers|
    ensures forall j :: 0 <= j < |t.servers| ==> t.servers[j].None?
    decreases |s.servers| - i
  {
    if i == |s.servers| {
      acts, t := [], s;
    } else if s.servers[i].None? {
      acts, t := Lapse(s, i + 1);
    } else {
      var u := Step(s, Expire(i));
      LeadsStep(s, Expire(i));
      acts, t := Lapse(u, i + 1);
      LeadsOn(s, [Expire(i)], u, acts, t);
      acts := [Expire(i)] + acts;
    }
  }

  lemma {:induction false} RunSlacks(s: State, acts: seq<Action>)
    requires Slacks(s) && Run(s, acts).Some?
    ensures Slacks(Run(s, acts).value)
    decreases |acts|
  {
    if acts != [] {
      RunSlacks(Step(s, acts[0]), acts[1..]);
    }
  }

  lemma ConfiguredSlacks(s: State)
    requires Configured(s)
    ensures Slacks(s)
  {
    var servers: nat, clients: nat, acts :| Run(Init(servers, clients, Quorum(servers)), acts) == Some(s);
    RunSlacks(Init(servers, clients, Quorum(servers)), acts);
  }

  lemma ConfiguredOn(s: State, acts: seq<Action>, t: State)
    requires Configured(s) && Run(s, acts) == Some(t)
    ensures Configured(t)
  {
    var servers: nat, clients: nat, before :| Run(Init(servers, clients, Quorum(servers)), before) == Some(s);
    RunAppend(Init(servers, clients, Quorum(servers)), before, acts);
  }

  function Below(n: nat): (r: set<nat>)
    ensures |r| == n && forall i :: i in r <==> 0 <= i < n
  {
    if n == 0 then {} else Below(n - 1) + {n - 1}
  }

  lemma LockAllEmpty(s: State, c: nat, ttl: int) returns (acts: seq<Action>, t: State)
    requires Configured(s) && c < |s.clients| && s.clients[c].pc.Idle? && |s.servers| > 0 && ttl - ttl / 100 > 2
    requires forall j :: 0 <= j < |s.servers| ==> s.servers[j].None?
    ensures Run(s, acts) == Some(t) && c < |t.clients|
    ensures Won(t.clients[c], |s.owner|, Below(|s.servers|), s.now + ttl - ttl / 100 - 1002)
  {
    var all := Below(|s.servers|);
    assert Open(s, None, all) * all == all;
    acts, t := LockExactly(s, c, ttl, 1, all, all);
    acts := [BeginLock(c, ttl, 1)] + acts;
  }

  // Main theorem: when all times to live are over, whoever held the lock and whatever became
  // of its client, an idle client can have it.
  lemma AvailableAgain(s: State, c: nat, ttl: int) returns (acts: seq<Action>, t: State)
    requires Configured(s) && Overdue(s) && c < |s.clients| && s.clients[c].pc.Idle? && |s.servers| > 0
    requires ttl - ttl / 100 > 2
    ensures Run(s, acts) == Some(t) && c < |t.clients|
    ensures Won(t.clients[c], |s.owner|, Below(|s.servers|), s.now + ttl - ttl / 100 - 1002)
  {
    ConfiguredSlacks(s);
    var before, u := Lapse(s, 0);
    ConfiguredOn(s, before, u);
    acts, t := LockAllEmpty(u, c, ttl);
    RunAppend(s, before, acts);
    acts := before + acts;
  }
}
