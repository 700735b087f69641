/** The heartbeat of etcd's Register (etcd/core.go:434-458) in timed steps: one address key
    kept alive by leases of ttl+1 seconds that are renewed every ttl seconds, while anyone may
    deregister the instance and the store may be closed. */
module Lease {
  import opened Wrappers

  /** Where the heartbeat stands. `first` marks the PutTTL before the loop; `since` is when the
      call was due. */
  datatype Phase =
    | Idle
    | Calling(first: bool, since: real)
    | Granted(first: bool, since: real, lease: nat)
    | Landed(first: bool, since: real)
    | Refused(first: bool, since: real)
    | Sleeping(until: real)
    | Stopped

  /** `leases` holds the expiry of every live lease and `addr` the lease on which the key hangs.
      `open` says whether the store is. The rest is history: the lease and expiry of the last
      write that landed, the latency of that call, for refused calls since then their number,
      the time slept on their account, their latencies, and when the first of them was due, and
      whether the key was deleted since. */
  datatype State = State(
    clock: real,
    leases: map<nat, real>,
    granted: nat,
    addr: Option<nat>,
    open: bool,
    phase: Phase,
    last: Option<(nat, real)>,
    latency: real,
    fails: nat,
    slept: real,
    spent: real,
    base: real,
    rested: bool,
    deleted: bool)

  /** The wait after a refused write: (ttl+2)/3 seconds, never 0. */
  function RetryWait(ttl: nat): nat {
    var t := (ttl + 2) / 3;
    if t == 0 then 1 else t
  }

  function AtRegister(now: real): State {
    State(now, map[], 0, None, true, Idle, None, 0.0, 0, 0.0, 0.0, now, false, false)
  }

  ghost predicate Init(s: State) {
    s == AtRegister(s.clock)
  }

  function Expire(leases: map<nat, real>, now: real): map<nat, real> {
    map l | l in leases && now < leases[l] :: leases[l]
  }

  // ---------- steps ----------

  /** Time passes; etcd drops each lease at its expiry, with the keys that hang on it. */
  ghost predicate Pass(s: State, t: State, d: real) {
    && d >= 0.0
    && var now := s.clock + d;
       var live := Expire(s.leases, now);
       t == s.(clock := now, leases := live,
               addr := if s.addr.Some? && s.addr.value !in live then None else s.addr)
  }

  ghost predicate Start(s: State, t: State) {
    s.phase.Idle? && t == s.(phase := Calling(true, s.clock), base := s.clock)
  }

  /** Only an open store gets that far. */
  ghost predicate Grant(ttl: nat, s: State, t: State) {
    && s.phase.Calling? && s.open
    && t == s.(granted := s.granted + 1,
               leases := s.leases[s.granted + 1 := s.clock + (ttl + 1) as real],
               phase := Granted(s.phase.first, s.phase.since, s.granted + 1))
  }

  /** The write lands while its lease lives; the key moves to the new lease. */
  ghost predicate Land(s: State, t: State) {
    && s.phase.Granted? && s.phase.lease in s.leases
    && t == s.(addr := Some(s.phase.lease),
               last := Some((s.phase.lease, s.leases[s.phase.lease])),
               deleted := false,
               phase := Landed(s.phase.first, s.phase.since))
  }

  ghost predicate Refuse(s: State, t: State) {
    && s.phase.Granted?
    && t == s.(phase := Refused(s.phase.first, s.phase.since))
  }

  /** A landed write: the loop's first write follows PutTTL at once, others after ttl seconds. */
  ghost predicate ReturnOk(ttl: nat, s: State, t: State) {
    && s.phase.Landed?
    && var next := if s.phase.first then s.clock else s.clock + ttl as real;
       t == s.(latency := s.clock - s.phase.since, fails := 0, slept := 0.0, spent := 0.0, base := next,
               rested := !s.phase.first,
               phase := if s.phase.first then Calling(false, s.clock) else Sleeping(next))
  }

  /** A refused heartbeat is retried after a third of ttl; a refused PutTTL ends the routine. */
  ghost predicate ReturnFailed(ttl: nat, s: State, t: State) {
    && s.phase.Refused?
    && t == if s.phase.first then s.(phase := Stopped)
            else s.(fails := s.fails + 1,
                    slept := s.slept + RetryWait(ttl) as real,
                    spent := s.spent + (s.clock - s.phase.since),
                    phase := Sleeping(s.clock + RetryWait(ttl) as real))
  }

  ghost predicate Wake(s: State, t: State) {
    s.phase.Sleeping? && s.clock >= s.phase.until && t == s.(phase := Calling(false, s.phase.until))
  }

  /** The store is closed; a write under way may still land. */
  ghost predicate Shut(s: State, t: State) {
    t == s.(open := false)
  }

  /** Someone deregisters the instance: the key goes, its lease stays, and the loop is not told. */
  ghost predicate Deregister(s: State, t: State) {
    t == s.(addr := None, deleted := true)
  }

  /** The loop sees the store closed, or the process dies. */
  ghost predicate Halt(s: State, t: State) {
    t == s.(phase := Stopped)
  }

  ghost predicate Step(ttl: nat, s: State, t: State) {
    || (exists d :: Pass(s, t, d))
    || Start(s, t) || Grant(ttl, s, t) || Land(s, t) || Refuse(s, t)
    || ReturnOk(ttl, s, t) || ReturnFailed(ttl, s, t) || Wake(s, t) || Halt(s, t)
    || Shut(s, t) || Deregister(s, t)
  }

  /** State `i` leads to the next one. */
  ghost predicate StepAt(ttl: nat, states: seq<State>, i: nat) {
    i + 1 < |states| && Step(ttl, states[i], states[i + 1])
  }

  ghost predicate Run(ttl: nat, states: seq<State>) {
    && states != [] && Init(states[0])
    && forall i: nat | i < |states| - 1 :: StepAt(ttl, states, i)
  }

  // ---------- what every state of every run satisfies ----------

  ghost predicate InCall(p: Phase) {
    p.Calling? || p.Granted? || p.Landed? || p.Refused?
  }

  /** The moment the current or next call was due. */
  function Due(s: State): real {
    match s.phase
    case Sleeping(until) => until
    case Calling(_, since) => since
    case Granted(_, since, _) => since
    case Landed(_, since) => since
    case Refused(_, since) => since
    case Idle => s.base
    case Stopped => s.base
  }

  /** The address key is there exactly while the last landed write's lease lasts and nobody
      has deleted the key: leases that were superseded expire without effect. */
  ghost predicate AddrIsLast(s: State) {
    && (s.addr.Some? <==> s.last.Some? && s.clock < s.last.value.1 && !s.deleted)
    && (s.addr.Some? ==> s.addr.value == s.last.value.0)
  }

  /** The key and the leases. */
  ghost predicate KeysInv(ttl: nat, s: State) {
    && AddrIsLast(s)
    && (forall l | l in s.leases :: l <= s.granted && s.clock < s.leases[l] <= s.clock + (ttl + 1) as real)
    && (s.last.Some? ==> s.last.value.0 <= s.granted && s.last.value.1 <= s.clock + (ttl + 1) as real)
    && (s.addr.Some? ==> s.addr.value in s.leases && s.leases[s.addr.value] == s.last.value.1)
    && (s.phase.Granted? ==> s.phase.lease == s.granted && (s.last.Some? ==> s.last.value.0 < s.granted))
    && (s.phase.Granted? && s.phase.lease in s.leases ==> s.leases[s.phase.lease] >= s.phase.since + (ttl + 1) as real)
  }

  /** The calls and the waits between them. */
  ghost predicate TimesInv(ttl: nat, s: State) {
    && (InCall(s.phase) ==> s.phase.since <= s.clock)
    && (s.phase.Idle? ==> s.last.None? && s.fails == 0 && s.slept == 0.0 && s.spent == 0.0)
    // the last landed write's lease, seen from the call that is under way or next
    && (InCall(s.phase) && s.phase.first ==>
          (s.phase.Landed? <==> s.last.Some?) && s.fails == 0 && s.base == s.phase.since)
    && (s.phase.Landed? ==> s.last.Some? && s.last.value.1 >= s.phase.since + (ttl + 1) as real)
    && (s.phase.Sleeping? || (InCall(s.phase) && !s.phase.first) ==> s.last.Some?)
    && ((s.phase.Sleeping? || (InCall(s.phase) && !s.phase.first && !s.phase.Landed?)) ==>
          && s.latency >= 0.0 && s.spent >= 0.0
          && s.last.value.1 >= s.base - s.latency + 1.0
          && (if s.rested then s.last.value.1 <= s.base + 1.0
              else s.base - s.latency + (ttl + 1) as real <= s.last.value.1 <= s.base + (ttl + 1) as real))
    && (s.phase.Sleeping? ==> s.phase.until <= s.clock + (ttl + 1) as real)
    // the retry schedule
    && s.latency >= 0.0 && (s.fails == 0 ==> s.spent == 0.0)
    && s.slept == s.fails as real * RetryWait(ttl) as real
    && (!s.phase.Idle? && !s.phase.Stopped? ==> Due(s) == s.base + s.slept + s.spent)
  }

  ghost predicate Inv(ttl: nat, s: State) {
    KeysInv(ttl, s) && TimesInv(ttl, s)
  }

  lemma InitInv(ttl: nat, s: State)
    requires Init(s)
    ensures Inv(ttl, s)
  {
  }

  lemma PassInv(ttl: nat, s: State, t: State, d: real)
    requires Inv(ttl, s) && Pass(s, t, d)
    ensures Inv(ttl, t)
  {
  }

  lemma StartInv(ttl: nat, s: State, t: State)
    requires Inv(ttl, s) && Start(s, t)
    ensures Inv(ttl, t)
  {
  }

  lemma GrantTimes(ttl: nat, s: State, t: State)
    requires TimesInv(ttl, s) && Grant(ttl, s, t)
    ensures TimesInv(ttl, t)
  {
  }

  lemma GrantInv(ttl: nat, s: State, t: State)
    requires Inv(ttl, s) && Grant(ttl, s, t)
    ensures Inv(ttl, t)
  {
    GrantTimes(ttl, s, t);
  }

  lemma LandInv(ttl: nat, s: State, t: State)
    requires Inv(ttl, s) && Land(s, t)
    ensures Inv(ttl, t)
  {
  }

  lemma RefuseInv(ttl: nat, s: State, t: State)
    requires Inv(ttl, s) && Refuse(s, t)
    ensures Inv(ttl, t)
  {
  }

  lemma ReturnOkInv(ttl: nat, s: State, t: State)
    requires Inv(ttl, s) && ReturnOk(ttl, s, t)
    ensures Inv(ttl, t)
  {
  }

  lemma RetryWaitIsShort(ttl: nat)
    ensures 1 <= RetryWait(ttl) <= ttl + 1
  {
  }

  lemma OneMoreWait(fails: nat, wait: nat)
    ensures (fails + 1) as real * wait as real == fails as real * wait as real + wait as real
  {
  }

  lemma ReturnFailedTimes(ttl: nat, s: State, t: State)
    requires TimesInv(ttl, s) && ReturnFailed(ttl, s, t)
    ensures TimesInv(ttl, t)
  {
    RetryWaitIsShort(ttl);
    OneMoreWait(s.fails, RetryWait(ttl));
  }

  lemma ReturnFailedInv(ttl: nat, s: State, t: State)
    requires Inv(ttl, s) && ReturnFailed(ttl, s, t)
    ensures Inv(ttl, t)
  {
    ReturnFailedTimes(ttl, s, t);
  }

  lemma WakeInv(ttl: nat, s: State, t: State)
    requires Inv(ttl, s) && Wake(s, t)
    ensures Inv(ttl, t)
  {
  }

  lemma HaltInv(ttl: nat, s: State, t: State)
    requires Inv(ttl, s) && Halt(s, t)
    ensures Inv(ttl, t)
  {
  }

  lemma ShutInv(ttl: nat, s: State, t: State)
    requires Inv(ttl, s) && Shut(s, t)
    ensures Inv(ttl, t)
  {
  }

  lemma DeregisterTimes(ttl: nat, s: State, t: State)
    requires TimesInv(ttl, s) && Deregister(s, t)
    ensures TimesInv(ttl, t)
  {
  }

  lemma DeregisterInv(ttl: nat, s: State, t: State)
    requires Inv(ttl, s) && Deregister(s, t)
    ensures Inv(ttl, t)
  {
    DeregisterTimes(ttl, s, t);
  }

  lemma StepInv(ttl: nat, s: State, t: State)
    requires Inv(ttl, s) && Step(ttl, s, t)
    ensures Inv(ttl, t)
  {
    if d :| Pass(s, t, d) { PassInv(ttl, s, t, d); }
    else if Start(s, t) { StartInv(ttl, s, t); }
    else if Grant(ttl, s, t) { GrantInv(ttl, s, t); }
    else if Land(s, t) { LandInv(ttl, s, t); }
    else if Refuse(s, t) { RefuseInv(ttl, s, t); }
    else if ReturnOk(ttl, s, t) { ReturnOkInv(ttl, s, t); }
    else if ReturnFailed(ttl, s, t) { ReturnFailedInv(ttl, s, t); }
    else if Wake(s, t) { WakeInv(ttl, s, t); }
    else if Halt(s, t) { HaltInv(ttl, s, t); }
    else if Shut(s, t) { ShutInv(ttl, s, t); }
    else { DeregisterInv(ttl, s, t); }
  }

  lemma {:induction false} RunInv(ttl: nat, states: seq<State>, i: nat)
    requires Run(ttl, states) && i < |states|
    ensures Inv(ttl, states[i])
  {
    if i == 0 {
      InitInv(ttl, states[0]);
    } else {
      RunInv(ttl, states, i - 1);
      assert StepAt(ttl, states, i - 1);
      StepInv(ttl, states[i - 1], states[i]);
    }
  }

  // ---------- the theorems ----------

  /** The latencies of the last landed call and of the one under way stay below one second
      together; oversleeping counts as latency. */
  ghost predicate Slack(s: State) {
    s.latency + (s.clock - Due(s)) < 1.0
  }

  /** The step after state `k` deregisters the instance. */
  ghost predicate DeregisteredAt(states: seq<State>, k: nat) {
    k + 1 < |states| && Deregister(states[k], states[k + 1])
  }

  /** A write lands with the step after state `j`. */
  ghost predicate LandedAt(states: seq<State>, j: nat) {
    j + 1 < |states| && Land(states[j], states[j + 1])
  }

  /** The instance was deregistered before state `i` and no write has landed since. */
  ghost predicate DeletedSince(states: seq<State>, i: nat) {
    exists k: nat ::
      k < i && DeregisteredAt(states, k) && forall j: nat | k < j < i :: !LandedAt(states, j)
  }

  lemma DeletedAt(ttl: nat, states: seq<State>, i: nat)
    requires Run(ttl, states) && i + 1 < |states|
    ensures states[i + 1].deleted <==> DeregisteredAt(states, i) || (states[i].deleted && !LandedAt(states, i))
  {
    assert StepAt(ttl, states, i);
  }

  lemma {:induction false} DeletedMeans(ttl: nat, states: seq<State>, i: nat)
    requires Run(ttl, states) && i < |states|
    ensures states[i].deleted <==> DeletedSince(states, i)
  {
    if i > 0 {
      DeletedMeans(ttl, states, i - 1);
      DeletedAt(ttl, states, i - 1);
      DeletedOneMore(states, i);
    }
  }

  lemma DeletedOneMore(states: seq<State>, i: nat)
    requires 0 < i < |states|
    ensures DeletedSince(states, i) <==>
              DeregisteredAt(states, i - 1) || (DeletedSince(states, i - 1) && !LandedAt(states, i - 1))
  {
    if DeletedSince(states, i - 1) && !LandedAt(states, i - 1) {
      var k: nat :| k < i - 1 && DeregisteredAt(states, k) && forall j: nat | k < j < i - 1 :: !LandedAt(states, j);
      assert forall j: nat | k < j < i :: !LandedAt(states, j);
    }
    if DeletedSince(states, i) && !DeregisteredAt(states, i - 1) {
      var k: nat :| k < i && DeregisteredAt(states, k) && forall j: nat | k < j < i :: !LandedAt(states, j);
      assert k < i - 1;
    }
  }

  /** While no write has been refused since the last one landed and the slack lasts, the
      address key is present, from the first landing until the loop stops, unless the instance
      was deregistered since. */
  lemma RenewedInTime(ttl: nat, states: seq<State>, i: nat)
    requires Run(ttl, states) && i < |states|
    requires states[i].last.Some? && !states[i].phase.Stopped?
    requires states[i].fails == 0 && Slack(states[i])
    ensures states[i].addr == if DeletedSince(states, i) then None else Some(states[i].last.value.0)
  {
    RunInv(ttl, states, i);
    DeletedMeans(ttl, states, i);
  }

  /** In every state of every run the key hangs on the last landed lease and nothing else, and
      is gone if the instance was deregistered since that landing. */
  lemma PresentIffLastLeaseLives(ttl: nat, states: seq<State>, i: nat)
    requires Run(ttl, states) && i < |states|
    ensures states[i].addr.Some? <==>
              states[i].last.Some? && states[i].clock < states[i].last.value.1 && !DeletedSince(states, i)
  {
    RunInv(ttl, states, i);
    DeletedMeans(ttl, states, i);
  }

  /** One second is all there is: with exactly one second of latency the key is lost. */
  lemma SlackIsTight(ttl: nat) returns (states: seq<State>)
    ensures Run(ttl, states)
    ensures var s := states[|states| - 1];
            s.last.Some? && s.phase.Sleeping? && s.fails == 0 && s.latency + (s.clock - Due(s)) == 1.0 && s.addr.None?
  {
    var e := (ttl + 1) as real;
    states := TwoGrants(ttl);
    var s5 := Last(states);
    var s6 := s5.(addr := Some(2), last := Some((2, e)), phase := Landed(false, 0.0));
    assert Land(s5, s6);
    Append(ttl, states, s6);
    var late := Expire(s6.leases, 1.0);
    var s7 := s6.(clock := 1.0, leases := late, addr := if 2 in late then Some(2) else None);
    assert Pass(s6, s7, 1.0);
    Append(ttl, states + [s6], s7);
    var s8 := s7.(latency := 1.0, base := e, rested := true, phase := Sleeping(e));
    assert ReturnOk(ttl, s7, s8);
    Append(ttl, states + [s6] + [s7], s8);
    var s9 := s8.(clock := 1.0 + ttl as real, leases := map[], addr := None);
    assert Expire(s8.leases, 1.0 + ttl as real) == map[];
    assert Pass(s8, s9, ttl as real);
    Append(ttl, states + [s6] + [s7] + [s8], s9);
    states := states + [s6] + [s7] + [s8] + [s9];
  }

  /** PutTTL has landed, and the loop's first write is about to, with no time gone by. */
  lemma TwoGrants(ttl: nat) returns (states: seq<State>)
    ensures Run(ttl, states)
    ensures var e := (ttl + 1) as real;
            Last(states) == AtRegister(0.0).(granted := 2, leases := map[1 := e, 2 := e], addr := Some(1),
                                             last := Some((1, e)), phase := Granted(false, 0.0, 2))
  {
    var e := (ttl + 1) as real;
    var s0 := AtRegister(0.0);
    var s1 := s0.(phase := Calling(true, 0.0));
    var s2 := s1.(granted := 1, leases := map[1 := e], phase := Granted(true, 0.0, 1));
    var s3 := s2.(addr := Some(1), last := Some((1, e)), phase := Landed(true, 0.0));
    var s4 := s3.(phase := Calling(false, 0.0));
    var s5 := s4.(granted := 2, leases := map[1 := e, 2 := e], phase := Granted(false, 0.0, 2));
    states := [s0, s1, s2, s3, s4, s5];
    assert Start(s0, s1) && Grant(ttl, s1, s2) && Land(s2, s3) && ReturnOk(ttl, s3, s4) && Grant(ttl, s4, s5);
  }

  /** A write is under way and has not landed. */
  ghost predicate NotLanded(s: State) {
    InCall(s.phase) && !s.phase.first && !s.phase.Landed?
  }

  /** Retrying after a third of ttl cannot save the key once a heartbeat that followed a full
      sleep is refused: the key is gone before the next call begins, whatever the latencies. */
  lemma RefusalLosesTheKey(ttl: nat, states: seq<State>, i: nat)
    requires Run(ttl, states) && i < |states|
    requires NotLanded(states[i]) && states[i].fails >= 1 && states[i].rested
    ensures states[i].addr.None?
  {
    RunInv(ttl, states, i);
    AtLeast(states[i].fails, RetryWait(ttl), 1);
  }

  lemma AtLeast(n: nat, w: nat, m: nat)
    ensures n * w >= m ==> n as real * w as real >= m as real
    ensures n * w <= m ==> n as real * w as real <= m as real
    ensures n >= 1 && w >= 1 ==> n as real * w as real >= 1.0
  {
    assert n as real * w as real == (n * w) as real;
    if n >= 1 && w >= 1 { assert n * w >= 1; }
  }

  /** With less than a second of latency in all since the last write landed, the key is there
      during a later call exactly if the instance was not deregistered since, and no write was
      refused since, or the refused ones all belong to the loop's first write, which follows
      PutTTL at once, and their waits fit into ttl. */
  lemma WhenRefusalsLoseTheKey(ttl: nat, states: seq<State>, i: nat)
    requires Run(ttl, states) && i < |states| && NotLanded(states[i])
    requires var s := states[i]; s.latency + s.spent + (s.clock - s.phase.since) < 1.0
    ensures var s := states[i];
            s.addr.Some? <==>
              && !DeletedSince(states, i)
              && (s.fails == 0 || (!s.rested && s.fails * RetryWait(ttl) <= ttl))
  {
    RunInv(ttl, states, i);
    DeletedMeans(ttl, states, i);
    var s := states[i];
    WaitsAndLease(ttl, s.fails, s.rested, s.clock, s.phase.since, s.base, s.latency, s.spent, s.last.value.1);
  }

  /** The arithmetic behind it: when the clock is short of the last lease's expiry. */
  lemma WaitsAndLease(
      ttl: nat, fails: nat, rested: bool, clock: real, since: real, base: real,
      latency: real, spent: real, expiry: real)
    requires latency >= 0.0 && spent >= 0.0 && since <= clock && latency + spent + (clock - since) < 1.0
    requires fails == 0 ==> spent == 0.0
    requires since == base + fails as real * RetryWait(ttl) as real + spent
    requires base - latency + 1.0 <= expiry
    requires if rested then expiry <= base + 1.0
             else base - latency + (ttl + 1) as real <= expiry <= base + (ttl + 1) as real
    ensures clock < expiry <==> fails == 0 || (!rested && fails * RetryWait(ttl) <= ttl)
  {
    var waits := fails * RetryWait(ttl);
    assert fails as real * RetryWait(ttl) as real == waits as real;
    if fails == 0 {
      assert waits == 0;
    } else {
      AtLeast(fails, RetryWait(ttl), 1);
      assert waits <= ttl || waits as real >= (ttl + 1) as real;
    }
  }

  /** So one refusal of the loop's first write does not lose it. */
  lemma FirstRefusalIsHarmless(ttl: nat, states: seq<State>, i: nat)
    requires ttl >= 1 && Run(ttl, states) && i < |states| && NotLanded(states[i]) && states[i].fails == 1
    requires var s := states[i]; s.latency + s.spent + (s.clock - s.phase.since) < 1.0
    ensures states[i].addr.Some? <==> !states[i].rested && !DeletedSince(states, i)
  {
    WhenRefusalsLoseTheKey(ttl, states, i);
  }

  /** Such a run, for every ttl. */
  lemma FirstRefusalRun(ttl: nat) returns (states: seq<State>)
    requires ttl >= 1
    ensures Run(ttl, states)
    ensures var s := states[|states| - 1];
            s.phase.Calling? && s.fails == 1 && !s.rested && s.addr.Some?
  {
    var w := RetryWait(ttl) as real;
    states := TwoGrants(ttl);
    var s5 := Last(states);
    var s6 := s5.(phase := Refused(false, 0.0));
    assert Refuse(s5, s6);
    Append(ttl, states, s6);
    var s7 := s6.(fails := 1, slept := w, phase := Sleeping(w));
    assert ReturnFailed(ttl, s6, s7);
    Append(ttl, states + [s6], s7);
    var s8 := s7.(clock := w);
    assert Expire(s7.leases, w) == s7.leases;
    assert Pass(s7, s8, w);
    Append(ttl, states + [s6] + [s7], s8);
    var s9 := s8.(phase := Calling(false, w));
    assert Wake(s8, s9);
    Append(ttl, states + [s6] + [s7] + [s8], s9);
    states := states + [s6] + [s7] + [s8] + [s9];
  }

  /** After n refused writes in a row the next call is due exactly n waits of a third of ttl,
      rounded up, plus the latencies of the refused calls, after the first of them was. */
  lemma RetrySchedule(ttl: nat, states: seq<State>, i: nat)
    requires Run(ttl, states) && i < |states|
    requires !states[i].phase.Idle? && !states[i].phase.Stopped?
    ensures Due(states[i]) == states[i].base + states[i].fails as real * RetryWait(ttl) as real + states[i].spent
    ensures ttl >= 1 ==> ttl as real / 3.0 <= RetryWait(ttl) as real < ttl as real / 3.0 + 1.0
  {
    RunInv(ttl, states, i);
  }

  // ---------- deregistering a heart that still beats ----------

  lemma AwayAt(ttl: nat, states: seq<State>, i: nat)
    requires Run(ttl, states) && i + 1 < |states| && states[i].addr.None?
    ensures states[i + 1].addr.None? <==> !LandedAt(states, i)
  {
    assert StepAt(ttl, states, i);
  }

  /** A key that is gone stays away exactly as long as no write lands. */
  lemma {:induction false} AwayUntilLanding(ttl: nat, states: seq<State>, i: nat, n: nat)
    requires Run(ttl, states) && i <= n < |states| && states[i].addr.None?
    ensures (forall j | i <= j <= n :: states[j].addr.None?) <==>
            (forall j: nat | i <= j < n :: !LandedAt(states, j))
    decreases n - i
  {
    if i < n {
      AwayUntilLanding(ttl, states, i, n - 1);
      if states[n - 1].addr.None? { AwayAt(ttl, states, n - 1); }
      assert (forall j | i <= j <= n :: states[j].addr.None?) ==> states[n - 1].addr.None?;
    }
  }

  /** No write will land any more: the loop has stopped, or it will for the store is closed and
      no write that can land is under way. */
  ghost predicate Silent(s: State) {
    s.phase.Stopped? || (!s.open && !(s.phase.Granted? && s.phase.lease in s.leases))
  }

  lemma SilentAt(ttl: nat, states: seq<State>, i: nat)
    requires Run(ttl, states) && i + 1 < |states| && Silent(states[i])
    ensures Silent(states[i + 1]) && !LandedAt(states, i)
  {
    assert StepAt(ttl, states, i);
  }

  lemma {:induction false} SilentStays(ttl: nat, states: seq<State>, i: nat, n: nat)
    requires Run(ttl, states) && i <= n < |states| && Silent(states[i])
    ensures Silent(states[n]) && forall j: nat | i <= j < n :: !LandedAt(states, j)
    decreases n - i
  {
    if i < n {
      SilentStays(ttl, states, i, n - 1);
      SilentAt(ttl, states, n - 1);
    }
  }

  /** After a deregistration and the closing of the store, the key stays away for good exactly
      if no write landed in between. */
  lemma AwayForGood(ttl: nat, states: seq<State>, i: nat, k: nat, n: nat)
    requires Run(ttl, states) && i <= k <= n < |states| && states[i].addr.None? && Silent(states[k])
    ensures (forall j | i <= j <= n :: states[j].addr.None?) <==>
            (forall j: nat | i <= j < k :: !LandedAt(states, j))
  {
    AwayUntilLanding(ttl, states, i, n);
    SilentStays(ttl, states, k, n);
  }

  /** Steps to the next landing, at most. */
  function StepsToLand(s: State): nat {
    match s.phase
    case Granted(_, _, lease) => if lease in s.leases then 1 else 6
    case Refused(_, _) => 5
    case Landed(_, _) => 5
    case Sleeping(until) => if s.clock < until then 4 else 3
    case Calling(_, _) => 2
    case _ => 0
  }

  /** When a write can land at the earliest. */
  function Soonest(ttl: nat, s: State): real {
    match s.phase
    case Granted(_, _, lease) => if lease in s.leases then s.clock else s.clock + RetryWait(ttl) as real
    case Refused(_, _) => s.clock + RetryWait(ttl) as real
    case Landed(first, _) => if first then s.clock else s.clock + ttl as real
    case Sleeping(until) => if s.clock < until then until else s.clock
    case _ => s.clock
  }

  /** The loop's next step on the way to a landing. */
  function NextOn(ttl: nat, s: State): State {
    match s.phase
    case Calling(first, since) =>
      s.(granted := s.granted + 1, leases := s.leases[s.granted + 1 := s.clock + (ttl + 1) as real],
         phase := Granted(first, since, s.granted + 1))
    case Granted(first, since, _) => s.(phase := Refused(first, since))
    case Landed(first, since) =>
      var next := if first then s.clock else s.clock + ttl as real;
      s.(latency := s.clock - since, fails := 0, slept := 0.0, spent := 0.0, base := next, rested := !first,
         phase := if first then Calling(false, s.clock) else Sleeping(next))
    case Refused(_, since) =>
      s.(fails := s.fails + 1, slept := s.slept + RetryWait(ttl) as real,
         spent := s.spent + (s.clock - since), phase := Sleeping(s.clock + RetryWait(ttl) as real))
    case Sleeping(until) =>
      if s.clock < until then Later(s, until - s.clock) else s.(phase := Calling(false, until))
    case _ => s
  }

  lemma NextIsOn(ttl: nat, s: State)
    requires Inv(ttl, s) && s.last.Some? && !Silent(s) && StepsToLand(s) > 1
    ensures var t := NextOn(ttl, s);
            && Step(ttl, s, t) && t.last.Some? && !Silent(t)
            && 0 < StepsToLand(t) < StepsToLand(s) && Soonest(ttl, t) <= Soonest(ttl, s)
  {
    var t := NextOn(ttl, s);
    match s.phase
    case Calling(_, _) => assert Grant(ttl, s, t);
    case Granted(_, _, _) => assert Refuse(s, t);
    case Landed(_, _) => assert ReturnOk(ttl, s, t);
    case Refused(_, _) => assert ReturnFailed(ttl, s, t);
    case Sleeping(until) => if s.clock < until { assert Pass(s, t, until - s.clock); } else { assert Wake(s, t); }
  }

  /** A loop that goes on can write the key back within ttl+1 seconds. */
  lemma {:induction false} CanComeBack(ttl: nat, states: seq<State>) returns (longer: seq<State>)
    requires Run(ttl, states) && Last(states).last.Some? && !Silent(Last(states))
    ensures Run(ttl, longer) && states <= longer && Last(longer).addr.Some?
    ensures Last(longer).clock <= Soonest(ttl, Last(states)) <= Last(states).clock + (ttl + 1) as real
    decreases StepsToLand(Last(states))
  {
    var s := Last(states);
    RunInv(ttl, states, |states| - 1);
    RetryWaitIsShort(ttl);
    if StepsToLand(s) == 1 {
      var t := s.(addr := Some(s.phase.lease), last := Some((s.phase.lease, s.leases[s.phase.lease])),
                  deleted := false, phase := Landed(s.phase.first, s.phase.since));
      assert Land(s, t);
      Append(ttl, states, t);
      longer := states + [t];
    } else {
      NextIsOn(ttl, s);
      Append(ttl, states, NextOn(ttl, s));
      longer := CanComeBack(ttl, states + [NextOn(ttl, s)]);
    }
  }

  /** Deregistering does not stop the loop: a key that is gone can come back exactly unless no
      write will land any more, that is, unless the loop has stopped or the store is closed
      with no write under way. */
  lemma ComesBackUnlessSilent(ttl: nat, states: seq<State>)
    requires Run(ttl, states) && Last(states).last.Some? && Last(states).addr.None?
    ensures (exists longer :: Run(ttl, longer) && states <= longer && Last(longer).addr.Some?)
            <==> !Silent(Last(states))
  {
    if Silent(Last(states)) {
      forall longer | Run(ttl, longer) && states <= longer ensures Last(longer).addr.None? {
        var i, n := |states| - 1, |longer| - 1;
        assert longer[i] == Last(states);
        SilentStays(ttl, longer, i, n);
        AwayUntilLanding(ttl, longer, i, n);
      }
    } else {
      var longer := CanComeBack(ttl, states);
    }
  }

  /** A deregistration does not even stop a write under way: its lease lives on, and the write
      brings the key back at once. */
  lemma DeregisteredInFlight(ttl: nat) returns (states: seq<State>)
    ensures Run(ttl, states) && |states| >= 3
    ensures DeregisteredAt(states, |states| - 3) && LandedAt(states, |states| - 2)
    ensures states[|states| - 3].addr.Some? && states[|states| - 2].addr.None? && Last(states).addr.Some?
    ensures Last(states).clock == states[|states| - 3].clock
  {
    states := TwoGrants(ttl);
    var s := Last(states);
    var t := s.(addr := None, deleted := true);
    assert Deregister(s, t);
    Append(ttl, states, t);
    var u := t.(addr := Some(2), last := Some((2, (ttl + 1) as real)), deleted := false, phase := Landed(false, 0.0));
    assert Land(t, u);
    Append(ttl, states + [t], u);
    states := states + [t] + [u];
  }

  /** Once the loop has stopped the key outlives it by at most ttl+1 seconds. */
  lemma GoneAfterStop(ttl: nat, states: seq<State>, i: nat, j: nat)
    requires Run(ttl, states) && i <= j < |states|
    requires states[i].phase.Stopped? && states[j].clock >= states[i].clock + (ttl + 1) as real
    ensures states[j].addr.None?
  {
    RunInv(ttl, states, i);
    RunInv(ttl, states, j);
    StaysStopped(ttl, states, i, j);
  }

  lemma {:induction false} StaysStopped(ttl: nat, states: seq<State>, i: nat, j: nat)
    requires Run(ttl, states) && i <= j < |states| && states[i].phase.Stopped?
    ensures states[j].phase.Stopped? && states[j].last == states[i].last
    decreases j - i
  {
    if i < j {
      StaysStopped(ttl, states, i, j - 1);
      assert StepAt(ttl, states, j - 1);
    }
  }

  // ---------- the loop itself ----------

  /** What the server and the scheduler do to one call: how long the grant, the write and the
      answer take (for PutTTL with the directories that follow), whether the write is refused,
      and how long the routine oversleeps after it. */
  datatype Delays = Delays(grant: real, write: real, answer: real, refused: bool, oversleep: real)

  predicate NonNegative(a: Delays) {
    a.grant >= 0.0 && a.write >= 0.0 && a.answer >= 0.0 && a.oversleep >= 0.0
  }

  function Later(s: State, d: real): State {
    var live := Expire(s.leases, s.clock + d);
    s.(clock := s.clock + d, leases := live,
       addr := if s.addr.Some? && s.addr.value !in live then None else s.addr)
  }

  function Last(states: seq<State>): State
    requires states != []
  {
    states[|states| - 1]
  }

  lemma Append(ttl: nat, states: seq<State>, t: State)
    requires Run(ttl, states) && Step(ttl, Last(states), t)
    ensures Run(ttl, states + [t])
  {
    var longer := states + [t];
    forall i: nat | i < |longer| - 1 ensures StepAt(ttl, longer, i) {
      if i < |states| - 1 { assert StepAt(ttl, states, i); } else { assert longer[i] == Last(states); }
    }
  }

  method Elapse(ttl: nat, states: seq<State>, d: real) returns (longer: seq<State>)
    requires Run(ttl, states) && d >= 0.0
    ensures Run(ttl, longer) && states <= longer && Last(longer) == Later(Last(states), d)
  {
    longer := states + [Later(Last(states), d)];
    assert Pass(Last(states), Later(Last(states), d), d);
    Append(ttl, states, Later(Last(states), d));
  }

  /** Whether a call's write lands: it is not refused, and its own lease still lives when it
      arrives. */
  predicate Lands(ttl: nat, a: Delays) {
    !a.refused && a.write < (ttl + 1) as real
  }

  function CallTime(a: Delays): real {
    a.grant + a.write + a.answer
  }

  /** How long one turn of the loop takes. */
  function TurnTime(ttl: nat, a: Delays): real {
    CallTime(a) + (if Lands(ttl, a) then ttl else RetryWait(ttl)) as real + a.oversleep
  }

  function TurnsTime(ttl: nat, beats: seq<Delays>): real {
    if beats == [] then 0.0 else TurnsTime(ttl, beats[..|beats| - 1]) + TurnTime(ttl, beats[|beats| - 1])
  }

  /** The refused calls at the end of the loop's turns so far. */
  function RefusedInARow(ttl: nat, beats: seq<Delays>): nat {
    if beats == [] || Lands(ttl, beats[|beats| - 1]) then 0 else RefusedInARow(ttl, beats[..|beats| - 1]) + 1
  }

  /** One write under a fresh lease, as a call takes its time over it. */
  method PutTTLLite(ttl: nat, states: seq<State>, a: Delays) returns (ok: bool, longer: seq<State>)
    requires Run(ttl, states) && Last(states).phase.Calling? && Last(states).open && NonNegative(a)
    ensures Run(ttl, longer) && states <= longer && ok == Lands(ttl, a)
    ensures var s, t := Last(states), Last(longer);
            && t.phase == (if ok then Landed(s.phase.first, s.phase.since) else Refused(s.phase.first, s.phase.since))
            && t.clock == s.clock + CallTime(a) && t.granted == s.granted + 1 && t.fails == s.fails && t.open
            && t.last == (if ok then Some((t.granted, s.clock + a.grant + (ttl + 1) as real)) else s.last)
  {
    longer := Elapse(ttl, states, a.grant);
    var s := Last(longer);
    var t := s.(granted := s.granted + 1, leases := s.leases[s.granted + 1 := s.clock + (ttl + 1) as real],
                phase := Granted(s.phase.first, s.phase.since, s.granted + 1));
    assert Grant(ttl, s, t);
    Append(ttl, longer, t);
    longer := Elapse(ttl, longer + [t], a.write);
    s := Last(longer);
    ok := !a.refused && s.phase.lease in s.leases;
    if ok {
      t := s.(addr := Some(s.phase.lease), last := Some((s.phase.lease, s.leases[s.phase.lease])), deleted := false,
              phase := Landed(s.phase.first, s.phase.since));
      assert Land(s, t);
    } else {
      t := s.(phase := Refused(s.phase.first, s.phase.since));
      assert Refuse(s, t);
    }
    Append(ttl, longer, t);
    longer := Elapse(ttl, longer + [t], a.answer);
  }

  /** One turn of the loop: a write, and the wait that depends on its success. */
  method Beat(ttl: nat, states: seq<State>, a: Delays) returns (longer: seq<State>)
    requires Run(ttl, states) && Last(states).phase.Calling? && !Last(states).phase.first
    requires Last(states).open && NonNegative(a)
    ensures Run(ttl, longer) && states <= longer
    ensures var s, t := Last(states), Last(longer);
            && t.phase.Calling? && !t.phase.first && t.open
            && t.clock == s.clock + TurnTime(ttl, a) && t.granted == s.granted + 1
            && t.fails == if Lands(ttl, a) then 0 else s.fails + 1
  {
    var ok;
    ok, longer := PutTTLLite(ttl, states, a);
    var s := Last(longer);
    var pause: int;
    var t: State;
    if !ok {
      pause := (ttl + 2) / 3;
      if pause == 0 { pause := 1; }
      t := s.(fails := s.fails + 1, slept := s.slept + pause as real, spent := s.spent + (s.clock - s.phase.since),
              phase := Sleeping(s.clock + pause as real));
      assert ReturnFailed(ttl, s, t);
    } else {
      pause := ttl;
      t := s.(latency := s.clock - s.phase.since, fails := 0, slept := 0.0, spent := 0.0,
              base := s.clock + pause as real, rested := true, phase := Sleeping(s.clock + pause as real));
      assert ReturnOk(ttl, s, t);
    }
    Append(ttl, longer, t);
    longer := Elapse(ttl, longer + [t], pause as real + a.oversleep);
    s := Last(longer);
    t := s.(phase := Calling(false, s.phase.until));
    assert Wake(s, t);
    Append(ttl, longer, t);
    longer := longer + [t];
  }

  /** The goroutine of Register: PutTTL, then a write every ttl seconds, or after a third of
      ttl when one was refused, for as many turns as the store stays open. What it does is a
      run, so all that holds of runs holds of it; and it takes the time and the leases that
      its turns add up to. */
  method Heartbeat(requested: nat, now: real, first: Delays, beats: seq<Delays>) returns (states: seq<State>)
    requires NonNegative(first) && forall a | a in beats :: NonNegative(a)
    ensures Run(if requested == 0 then 8 else requested, states)
    ensures var ttl, end := if requested == 0 then 8 else requested, Last(states);
            && states[0] == AtRegister(now) && end.phase.Stopped?
            && (if Lands(ttl, first) then
                  && end.clock == now + CallTime(first) + TurnsTime(ttl, beats)
                  && end.granted == 1 + |beats| && end.fails == RefusedInARow(ttl, beats)
                else
                  end.clock == now + CallTime(first) && end.granted == 1 && end.last.None?)
  {
    var ttl := requested;
    if ttl == 0 { ttl := 8; }
    var s := AtRegister(now);
    states := [s];
    var t := s.(phase := Calling(true, now), base := now);
    assert Start(s, t);
    Append(ttl, states, t);
    var ok;
    ok, states := PutTTLLite(ttl, states + [t], first);
    s := Last(states);
    if !ok {
      t := s.(phase := Stopped);
      assert ReturnFailed(ttl, s, t);
      Append(ttl, states, t);
      return states + [t];
    }
    t := s.(latency := s.clock - s.phase.since, fails := 0, slept := 0.0, spent := 0.0, base := s.clock,
            rested := false, phase := Calling(false, s.clock));
    assert ReturnOk(ttl, s, t);
    Append(ttl, states, t);
    states := states + [t];
    assert beats[..0] == [];
    for i := 0 to |beats|
      invariant Run(ttl, states) && states[0] == AtRegister(now) && Last(states).open
      invariant Last(states).phase.Calling? && !Last(states).phase.first
      invariant Last(states).clock == now + CallTime(first) + TurnsTime(ttl, beats[..i])
      invariant Last(states).granted == 1 + i && Last(states).fails == RefusedInARow(ttl, beats[..i])
    {
      assert beats[i] in beats && beats[..i + 1][..i] == beats[..i];
      states := Beat(ttl, states, beats[i]);
    }
    assert beats[..|beats|] == beats;
    s := Last(states);
    t := s.(open := false);
    assert Shut(s, t);
    Append(ttl, states, t);
    states := states + [t];
    var u := t.(phase := Stopped);
    assert Halt(t, u);
    Append(ttl, states, u);
    states := states + [u];
  }
}
