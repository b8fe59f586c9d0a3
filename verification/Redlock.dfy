/**
  The Redlock distributed lock as a step machine: any number of clients, one
  shared list of Redis servers, one resource.  Time is an unbounded number of
  milliseconds; a reply may be lost, a request may never arrive, and a server may
  drop a key early by one part in a hundred of its time to live plus one
  millisecond, or late by any amount.
 */
module Redlock {
  import opened Options

  // The key at one server: the lock value, the instant the server should drop it,
  // and by how much its clock may run ahead.
  datatype Entry = Entry(val: nat, expiry: int, slack: int)

  datatype Call = LockCall | ContinueCall

  // Where a client is inside Lock, ContinueLock or Unlock.  `granted` are the
  // servers that answered OK in this attempt; its size is the source's `n`.
  datatype Pc =
    | Idle
    | Asking(call: Call, val: nat, ttl: int, start: int, next: nat, granted: set<nat>, tries: int)
    | Releasing(val: nat, next: nat, retry: Option<Retry>)

  datatype Retry = Retry(call: Call, ttl: int, tries: int)

  // A successful call: the value, the servers that granted it, and the instant up
  // to which the caller may act as the holder.
  datatype Claim = Claim(val: nat, servers: set<nat>, until: int)

  // `renewVal` is m_continueLock.m_val.  `announced` is the latest successful call
  // as its caller sees it, gone only when the caller unlocks it; `claim` is the part
  // of it that the servers still back.
  datatype Client = Client(pc: Pc, renewVal: Option<nat>, claim: Option<Claim>, announced: Option<Claim>)

  // `owner[v]` is the client that drew the unique value v; the next draw is |owner|.
  datatype State = State(
    now: int, quorum: nat, servers: seq<Option<Entry>>, clients: seq<Client>, owner: seq<nat>)

  datatype Action =
    | Tick(d: nat)
    | Expire(server: nat)
    | BeginLock(c: nat, ttl: int, tries: int)
    | BeginContinue(c: nat, ttl: int, tries: int)
    | Ask(c: nat, executed: bool, replied: bool)
    | Conclude(c: nat)
    | BeginUnlock(c: nat, val: nat)
    | Release(c: nat, executed: bool)
    | Released(c: nat)

  // ---------- arithmetic of one attempt ----------

  // One hundredth of ttl, truncated toward zero as the C conversion does.
  function Hundredth(ttl: int): int {
    if ttl >= 0 then ttl / 100 else -((-ttl) / 100)
  }

  // How early a server may drop a key with this time to live.
  function Slack(ttl: int): int {
    Hundredth(ttl) + 1
  }

  function Drift(ttl: int): int {
    Hundredth(ttl) + 2
  }

  // time(NULL) * 1000: the clock read in whole seconds.
  function WholeSeconds(t: int): int {
    t / 1000 * 1000
  }

  function ValidityTime(ttl: int, start: int, now: int): int {
    ttl - (WholeSeconds(now) - WholeSeconds(start)) - Drift(ttl)
  }

  const GRANULARITY := 1000

  // The instant up to which keys set from `start` on are certain to be kept.
  function KeptUntil(start: int, ttl: int): int {
    start + ttl - Slack(ttl)
  }

  // Whatever second boundaries the two clock reads fall on, the announced validity
  // less one clock granule ends before any server may drop the key.
  lemma ValidityIsSafe(ttl: int, start: int, now: int)
    ensures now + ValidityTime(ttl, start, now) - GRANULARITY < KeptUntil(start, ttl)
  {
  }

  // ---------- the servers' scripts ----------

  // SET key val PX ttl NX
  function SetNx(e: Option<Entry>, val: nat, ttl: int, now: int): Option<Entry> {
    if e.None? && ttl > 0 then Some(Entry(val, now + ttl, Slack(ttl))) else e
  }

  // if GET == val then DEL
  function CompareAndDelete(e: Option<Entry>, val: nat): Option<Entry> {
    if e.Some? && e.value.val == val then None else e
  }

  // The script run by one server for one request of a call.
  function Script(call: Call, e: Option<Entry>, renewVal: Option<nat>, val: nat, ttl: int, now: int): Option<Entry> {
    if call.ContinueCall? && renewVal.Some?
    then SetNx(CompareAndDelete(e, renewVal.value), val, ttl, now)
    else SetNx(e, val, ttl, now)
  }

  // Whether that script answers OK.
  predicate Accepts(call: Call, e: Option<Entry>, renewVal: Option<nat>, ttl: int) {
    && ttl > 0
    && (e.None? || (call.ContinueCall? && renewVal == Some(e.value.val)))
  }

  // ---------- steps ----------

  function Init(servers: nat, clients: nat, quorum: nat): State {
    State(0, quorum, seq(servers, _ => None), seq(clients, _ => Client(Idle, None, None, None)), [])
  }

  // AddServerUrl: the quorum after `servers` servers were added, or the initial 0.
  function Quorum(servers: nat): nat {
    servers / 2 + 1
  }

  predicate Enabled(s: State, a: Action) {
    match a
    case Tick(_) => true
    case Expire(i) =>
      i < |s.servers| && s.servers[i].Some? && s.now >= s.servers[i].value.expiry - s.servers[i].value.slack
    case BeginLock(c, _, _) => c < |s.clients| && s.clients[c].pc.Idle?
    case BeginContinue(c, _, _) => c < |s.clients| && s.clients[c].pc.Idle?
    case Ask(c, _, _) => c < |s.clients| && s.clients[c].pc.Asking? && s.clients[c].pc.next < |s.servers|
    case Conclude(c) => c < |s.clients| && s.clients[c].pc.Asking? && s.clients[c].pc.next == |s.servers|
    case BeginUnlock(c, val) =>
      c < |s.clients| && s.clients[c].pc.Idle? && val < |s.owner| && s.owner[val] == c
    case Release(c, _) => c < |s.clients| && s.clients[c].pc.Releasing? && s.clients[c].pc.next < |s.servers|
    case Released(c) => c < |s.clients| && s.clients[c].pc.Releasing? && s.clients[c].pc.next == |s.servers|
  }

  // Renewing replaces keys by keys of the new time to live, so the old claim is cut
  // to what the new keys are certain to outlast.
  function CutClaim(cl: Client, limit: int): Option<Claim> {
    if cl.claim.Some? && cl.renewVal == Some(cl.claim.value.val) && limit < cl.claim.value.until
    then Some(cl.claim.value.(until := limit))
    else cl.claim
  }

  // The claim on val ends here; any other claim is kept.
  function DropClaim(claim: Option<Claim>, val: Option<nat>): Option<Claim> {
    if claim.Some? && val == Some(claim.value.val) then None else claim
  }

  function AfterAsk(s: State, cl: Client, executed: bool, replied: bool): Client
    requires cl.pc.Asking? && cl.pc.next < |s.servers|
  {
    var p := cl.pc;
    var ok := executed && replied && Accepts(p.call, s.servers[p.next], cl.renewVal, p.ttl);
    cl.(pc := p.(next := p.next + 1, granted := if ok then p.granted + {p.next} else p.granted))
  }

  // The end of one attempt: a claim, or the release of everything just set.
  function AfterConclude(s: State, cl: Client): Client
    requires cl.pc.Asking?
  {
    var p := cl.pc;
    var validity := ValidityTime(p.ttl, p.start, s.now);
    var renewVal := if p.call.ContinueCall? then Some(p.val) else cl.renewVal;
    if |p.granted| >= s.quorum && validity > 0 then
      var claim := Some(Claim(p.val, p.granted, s.now + validity - GRANULARITY));
      Client(Idle, renewVal, claim, claim)
    else
      Client(Releasing(p.val, 0, Some(Retry(p.call, p.ttl, p.tries))), renewVal,
             if p.call.ContinueCall? then DropClaim(cl.claim, cl.renewVal) else cl.claim,
             cl.announced)
  }

  function AfterReleased(s: State, cl: Client): Client
    requires cl.pc.Releasing?
  {
    match cl.pc.retry
    case None => cl.(pc := Idle)
    case Some(r) =>
      if r.tries - 1 > 0
      then cl.(pc := Asking(r.call, cl.pc.val, r.ttl, s.now, 0, {}, r.tries - 1))
      else cl.(pc := Idle)
  }

  function Step(s: State, a: Action): State
    requires Enabled(s, a)
  {
    match a
    case Tick(d) => s.(now := s.now + d)
    case Expire(i) => s.(servers := s.servers[i := None])
    case BeginLock(c, ttl, tries) =>
      var cl := s.clients[c];
      var cl' := cl.(pc := Asking(LockCall, |s.owner|, ttl, s.now, 0, {}, tries));
      s.(clients := s.clients[c := cl'], owner := s.owner + [c])
    case BeginContinue(c, ttl, tries) =>
      var cl := s.clients[c];
      var cl' := Client(
                   Asking(ContinueCall, |s.owner|, ttl, s.now, 0, {}, tries),
                   if cl.renewVal.None? then Some(|s.owner|) else cl.renewVal,
                   CutClaim(cl, KeptUntil(s.now, ttl)),
                   cl.announced);
      s.(clients := s.clients[c := cl'], owner := s.owner + [c])
    case Ask(c, executed, replied) =>
      var cl := s.clients[c];
      var i := cl.pc.next;
      var e := if executed
               then Script(cl.pc.call, s.servers[i], cl.renewVal, cl.pc.val, cl.pc.ttl, s.now)
               else s.servers[i];
      s.(servers := s.servers[i := e], clients := s.clients[c := AfterAsk(s, cl, executed, replied)])
    case Conclude(c) => s.(clients := s.clients[c := AfterConclude(s, s.clients[c])])
    case BeginUnlock(c, val) =>
      var cl := s.clients[c];
      var cl' := Client(Releasing(val, 0, None), cl.renewVal,
                        DropClaim(cl.claim, Some(val)), DropClaim(cl.announced, Some(val)));
      s.(clients := s.clients[c := cl'])
    case Release(c, executed) =>
      var cl := s.clients[c];
      var i := cl.pc.next;
      var e := if executed then CompareAndDelete(s.servers[i], cl.pc.val) else s.servers[i];
      s.(servers := s.servers[i := e], clients := s.clients[c := cl.(pc := cl.pc.(next := i + 1))])
    case Released(c) => s.(clients := s.clients[c := AfterReleased(s, s.clients[c])])
  }

  // The state after a sequence of actions, None when one of them was not enabled.
  function Run(s: State, acts: seq<Action>): Option<State>
    decreases |acts|
  {
    if acts == [] then Some(s)
    else if Enabled(s, acts[0]) then Run(Step(s, acts[0]), acts[1..])
    else None
  }

  // ---------- the invariant ----------

  // Until `until`, server i keeps a key with one of the given values.
  predicate Keeps(s: State, i: nat, vals: set<nat>, until: int) {
    && i < |s.servers|
    && (s.now >= until
        || (&& s.servers[i].Some?
            && s.servers[i].value.val in vals
            && s.servers[i].value.expiry - s.servers[i].value.slack >= until))
  }

  // A ContinueLock is replacing the keys of this client's claim.
  predicate Renewing(cl: Client) {
    && cl.claim.Some?
    && cl.pc.Asking?
    && cl.pc.call.ContinueCall?
    && cl.renewVal == Some(cl.claim.value.val)
  }

  // The values under which a claim may be stored: its own, and the one replacing
  // it while a renewal is under way.
  function ClaimVals(cl: Client): set<nat>
    requires cl.claim.Some?
  {
    var v := cl.claim.value.val;
    if Renewing(cl) then {v, cl.pc.val} else {v}
  }

  predicate Owns(s: State, c: nat, v: nat) {
    v < |s.owner| && s.owner[v] == c
  }

  ghost predicate ClaimOk(s: State, c: nat)
    requires c < |s.clients|
  {
    var cl := s.clients[c];
    cl.claim.Some? ==>
      && Owns(s, c, cl.claim.value.val)
      && |cl.claim.value.servers| >= s.quorum
      && forall i :: i in cl.claim.value.servers ==> Keeps(s, i, ClaimVals(cl), cl.claim.value.until)
  }

  ghost predicate PcOk(s: State, c: nat)
    requires c < |s.clients|
  {
    var cl := s.clients[c];
    && (cl.renewVal.Some? ==> Owns(s, c, cl.renewVal.value))
    && (cl.pc.Releasing? ==>
          && Owns(s, c, cl.pc.val)
          && (cl.claim.Some? ==> cl.claim.value.val != cl.pc.val)
          && (cl.pc.retry.Some? && cl.pc.retry.value.call.ContinueCall? ==> cl.renewVal == Some(cl.pc.val)))
    && (cl.pc.Asking? ==>
          && Owns(s, c, cl.pc.val)
          && cl.pc.start <= s.now
          && (cl.claim.Some? ==> cl.claim.value.val != cl.pc.val)
          && (cl.pc.call.ContinueCall? ==> cl.renewVal.Some?)
          && (Renewing(cl) ==> cl.claim.value.until <= KeptUntil(cl.pc.start, cl.pc.ttl))
          && forall i :: i in cl.pc.granted ==>
               i < cl.pc.next && Keeps(s, i, {cl.pc.val}, KeptUntil(cl.pc.start, cl.pc.ttl)))
  }

  ghost predicate Inv(s: State) {
    && (forall c :: 0 <= c < |s.clients| ==> PcOk(s, c))
    && (forall c :: 0 <= c < |s.clients| ==> ClaimOk(s, c))
  }

  lemma InitInv(servers: nat, clients: nat, quorum: nat)
    ensures Inv(Init(servers, clients, quorum))
  {
  }

  // ---------- what every step keeps ----------

  // From s to t only client c moved, and it overwrote or deleted no key but its own.
  ghost predicate OnlyClient(s: State, t: State, c: nat) {
    && t.now == s.now && t.quorum == s.quorum && s.owner <= t.owner
    && |t.servers| == |s.servers| && |t.clients| == |s.clients|
    && (forall d :: 0 <= d < |s.clients| && d != c ==> t.clients[d] == s.clients[d])
    && (forall i :: 0 <= i < |s.servers| && t.servers[i] != s.servers[i] ==>
          s.servers[i].None? || Owns(s, c, s.servers[i].value.val))
  }

  lemma OthersKeep(s: State, t: State, c: nat, d: nat)
    requires Inv(s) && OnlyClient(s, t, c) && d < |s.clients| && d != c
    ensures PcOk(t, d) && ClaimOk(t, d)
  {
    var cl := s.clients[d];
    assert PcOk(s, d) && ClaimOk(s, d);
    if cl.pc.Asking? {
      forall i | i in cl.pc.granted
        ensures i < cl.pc.next && Keeps(t, i, {cl.pc.val}, KeptUntil(cl.pc.start, cl.pc.ttl))
      {
        assert Keeps(s, i, {cl.pc.val}, KeptUntil(cl.pc.start, cl.pc.ttl));
      }
    }
    if cl.claim.Some? {
      forall i | i in cl.claim.value.servers
        ensures Keeps(t, i, ClaimVals(cl), cl.claim.value.until)
      {
        assert Keeps(s, i, ClaimVals(cl), cl.claim.value.until);
      }
    }
  }

  lemma ClientStepInv(s: State, t: State, c: nat)
    requires Inv(s) && OnlyClient(s, t, c)
    requires c < |s.clients| && PcOk(t, c) && ClaimOk(t, c)
    ensures Inv(t)
  {
    forall d: nat | d < |t.clients| && d != c
      ensures PcOk(t, d) && ClaimOk(t, d)
    {
      OthersKeep(s, t, c, d);
    }
  }

  lemma TickInv(s: State, d: nat)
    requires Inv(s)
    ensures Inv(Step(s, Tick(d)))
  {
    var t := Step(s, Tick(d));
    forall c | 0 <= c < |t.clients|
      ensures PcOk(t, c) && ClaimOk(t, c)
    {
      assert PcOk(s, c) && ClaimOk(s, c);
    }
  }

  lemma ExpireInv(s: State, i: nat)
    requires Inv(s) && Enabled(s, Expire(i))
    ensures Inv(Step(s, Expire(i)))
  {
    var t := Step(s, Expire(i));
    forall c | 0 <= c < |t.clients|
      ensures PcOk(t, c) && ClaimOk(t, c)
    {
      assert PcOk(s, c) && ClaimOk(s, c);
    }
  }

  lemma BeginInv(s: State, a: Action)
    requires Inv(s) && Enabled(s, a) && (a.BeginLock? || a.BeginContinue? || a.BeginUnlock?)
    ensures Inv(Step(s, a))
  {
    var t := Step(s, a);
    assert PcOk(s, a.c) && ClaimOk(s, a.c);
    if s.clients[a.c].claim.Some? && t.clients[a.c].claim.Some? {
      forall i | i in t.clients[a.c].claim.value.servers
        ensures Keeps(t, i, ClaimVals(t.clients[a.c]), t.clients[a.c].claim.value.until)
      {
        assert Keeps(s, i, ClaimVals(s.clients[a.c]), s.clients[a.c].claim.value.until);
      }
    }
    ClientStepInv(s, t, a.c);
  }

  lemma AskInv(s: State, c: nat, executed: bool, replied: bool)
    requires Inv(s) && Enabled(s, Ask(c, executed, replied))
    ensures Inv(Step(s, Ask(c, executed, replied)))
  {
    var t := Step(s, Ask(c, executed, replied));
    var cl, cl' := s.clients[c], t.clients[c];
    assert PcOk(s, c) && ClaimOk(s, c);
    forall i | i in cl'.pc.granted
      ensures i < cl'.pc.next && Keeps(t, i, {cl'.pc.val}, KeptUntil(cl'.pc.start, cl'.pc.ttl))
    {
      if i in cl.pc.granted {
        assert Keeps(s, i, {cl.pc.val}, KeptUntil(cl.pc.start, cl.pc.ttl));
      }
    }
    if cl.claim.Some? {
      forall i | i in cl.claim.value.servers
        ensures Keeps(t, i, ClaimVals(cl'), cl.claim.value.until)
      {
        assert Keeps(s, i, ClaimVals(cl), cl.claim.value.until);
      }
    }
    ClientStepInv(s, t, c);
  }

  lemma ConcludeInv(s: State, c: nat)
    requires Inv(s) && Enabled(s, Conclude(c))
    ensures Inv(Step(s, Conclude(c)))
  {
    var t := Step(s, Conclude(c));
    var cl, cl' := s.clients[c], t.clients[c];
    assert PcOk(s, c) && ClaimOk(s, c);
    ValidityIsSafe(cl.pc.ttl, cl.pc.start, s.now);
    if cl'.claim.Some? {
      forall i | i in cl'.claim.value.servers
        ensures Keeps(t, i, ClaimVals(cl'), cl'.claim.value.until)
      {
        if cl'.pc.Idle? {
          assert Keeps(s, i, {cl.pc.val}, KeptUntil(cl.pc.start, cl.pc.ttl));
        } else {
          assert Keeps(s, i, ClaimVals(cl), cl.claim.value.until);
        }
      }
    }
    ClientStepInv(s, t, c);
  }

  lemma ReleaseInv(s: State, a: Action)
    requires Inv(s) && Enabled(s, a) && (a.Release? || a.Released?)
    ensures Inv(Step(s, a))
  {
    var t := Step(s, a);
    var cl, cl' := s.clients[a.c], t.clients[a.c];
    assert PcOk(s, a.c) && ClaimOk(s, a.c);
    if cl.claim.Some? {
      forall i | i in cl.claim.value.servers
        ensures Keeps(t, i, ClaimVals(cl'), cl.claim.value.until)
      {
        assert Keeps(s, i, ClaimVals(cl), cl.claim.value.until);
      }
    }
    ClientStepInv(s, t, a.c);
  }

  lemma StepInv(s: State, a: Action)
    requires Inv(s) && Enabled(s, a)
    ensures Inv(Step(s, a))
  {
    match a
    case Tick(d) => TickInv(s, d);
    case Expire(i) => ExpireInv(s, i);
    case Ask(c, executed, replied) => AskInv(s, c, executed, replied);
    case Conclude(c) => ConcludeInv(s, c);
    case Release(_, _) => ReleaseInv(s, a);
    case Released(_) => ReleaseInv(s, a);
    case _ => BeginInv(s, a);
  }

  lemma {:induction false} RunInv(s: State, acts: seq<Action>)
    requires Inv(s) && Run(s, acts).Some?
    ensures Inv(Run(s, acts).value)
    ensures var t := Run(s, acts).value; |t.servers| == |s.servers| && t.quorum == s.quorum
    decreases |acts|
  {
    if acts != [] {
      StepInv(s, acts[0]);
      RunInv(Step(s, acts[0]), acts[1..]);
    }
  }

  // ---------- mutual exclusion ----------

  // Client c returned from a successful call, has not released it, and its validity
  // less one clock granule has not run out.
  predicate Holds(s: State, c: nat) {
    c < |s.clients| && s.clients[c].claim.Some? && s.now < s.clients[c].claim.value.until
  }

  lemma {:induction false} SubsetOfRange(q: set<nat>, n: nat)
    requires forall i :: i in q ==> i < n
    ensures |q| <= n
  {
    if n == 0 {
      assert q == {};
    } else {
      SubsetOfRange(q - {n - 1}, n - 1);
    }
  }

  lemma MajoritiesMeet(a: set<nat>, b: set<nat>, n: nat)
    requires forall i :: i in a ==> i < n
    requires forall i :: i in b ==> i < n
    requires |a| >= Quorum(n) && |b| >= Quorum(n)
    ensures exists i :: i in a && i in b
  {
    SubsetOfRange(a + b, n);
    if a * b == {} {
      assert |a + b| == |a| + |b|;
    } else {
      var i :| i in a * b;
      assert i in a && i in b;
    }
  }

  // At most one client holds the lock at any instant of any run.
  ghost predicate Exclusive(servers: nat, clients: nat, quorum: nat) {
    forall acts, a, b ::
      var r := Run(Init(servers, clients, quorum), acts);
      r.Some? && Holds(r.value, a) && Holds(r.value, b) ==> a == b
  }

  lemma HoldersAgree(s: State, a: nat, b: nat)
    requires Inv(s) && s.quorum == Quorum(|s.servers|) && Holds(s, a) && Holds(s, b)
    ensures a == b
  {
    assert ClaimOk(s, a) && ClaimOk(s, b) && PcOk(s, a) && PcOk(s, b);
    var ca, cb := s.clients[a], s.clients[b];
    forall i | i in ca.claim.value.servers
      ensures i < |s.servers|
    {
      assert Keeps(s, i, ClaimVals(ca), ca.claim.value.until);
    }
    forall i | i in cb.claim.value.servers
      ensures i < |s.servers|
    {
      assert Keeps(s, i, ClaimVals(cb), cb.claim.value.until);
    }
    MajoritiesMeet(ca.claim.value.servers, cb.claim.value.servers, |s.servers|);
    var i :| i in ca.claim.value.servers && i in cb.claim.value.servers;
    assert Keeps(s, i, ClaimVals(ca), ca.claim.value.until);
    assert Keeps(s, i, ClaimVals(cb), cb.claim.value.until);
  }

  // Main theorem: with the majority quorum of AddServerUrl, every run of any number
  // of clients over one server list is exclusive.
  lemma MutualExclusion(servers: nat, clients: nat)
    ensures Exclusive(servers, clients, Quorum(servers))
  {
    var s0 := Init(servers, clients, Quorum(servers));
    forall acts, a, b |
      var r := Run(s0, acts);
      r.Some? && Holds(r.value, a) && Holds(r.value, b)
      ensures a == b
    {
      InitInv(servers, clients, Quorum(servers));
      RunInv(s0, acts);
      HoldersAgree(Run(s0, acts).value, a, b);
    }
  }

  // m_quoRum after `calls` calls of AddServerUrl of which `servers` connected.
  function ConfiguredQuorum(calls: nat, servers: nat): nat {
    if calls == 0 then 0 else Quorum(servers)
  }

  lemma RunFirst(s: State, a: Action, rest: seq<Action>)
    ensures Run(s, [a] + rest) == if Enabled(s, a) then Run(Step(s, a), rest) else None
  {
    assert ([a] + rest)[1..] == rest;
  }

  // Before any AddServerUrl the quorum is 0 and every Lock succeeds at once.
  lemma NoServersNoExclusion(clients: nat)
    requires clients >= 2
    ensures !Exclusive(0, clients, 0)
  {
    var s0 := Init(0, clients, 0);
    var a0, a1, a2, a3 := BeginLock(0, 10000, 1), Conclude(0), BeginLock(1, 10000, 1), Conclude(1);
    var s1 := Step(s0, a0);
    var s2 := Step(s1, a1);
    var s3 := Step(s2, a2);
    var s4 := Step(s3, a3);
    RunFirst(s3, a3, []);
    RunFirst(s2, a2, [a3]);
    RunFirst(s1, a1, [a2] + [a3]);
    RunFirst(s0, a0, [a1] + ([a2] + [a3]));
    assert Holds(s4, 0) && Holds(s4, 1);
    assert Run(s0, [a0] + ([a1] + ([a2] + [a3]))) == Some(s4);
  }

  // The lock excludes exactly when at least one server was configured.
  lemma ExclusionIffConfigured(calls: nat, servers: nat, clients: nat)
    requires clients >= 2 && servers <= calls
    ensures Exclusive(servers, clients, ConfiguredQuorum(calls, servers)) <==> calls > 0
  {
    if calls > 0 {
      MutualExclusion(servers, clients);
    } else {
      NoServersNoExclusion(clients);
    }
  }
}
