/** Consul's Close against its heartbeat routines (consul/core.go:582-739), in every
    interleaving and for any number of routines. The client is looked at and then used: what
    was begun with a live client goes on when Close has dropped it. */
module Handshake {

  /** Where a heartbeat routine stands.
      - `Updating`: about to send its TTL update; `Looking`: the update failed, about to look
        whether the agent lists the service; `Registering`: about to register again;
        `Requesting`: that request is under way.
      - `Told(quit)`: has received `quit` from the heartbeat channel and is about to deregister;
        `Asking`: asks the agent directly; `Searching`: searches the cluster; `Removing`:
        removes by the catalog; `Leaving`: about to signal End. */
  datatype Routine =
    | Spawned | Selecting | Updating | Looking | Registering | Requesting
    | Told(quit: bool) | Asking(quit: bool) | Searching(quit: bool) | Removing(quit: bool)
    | Leaving | Gone

  /** Where a call of Close stands. */
  datatype Closer = NotCalled | Handing | Resting | Waiting | Closing | HeartbeatClosed | EndClosed | Done

  /** `calls` counts the application's Register calls under way and `buffered` what lies in the
      End channel. `fatal` says that the process has ended by `log.Fatal`. History: `hero` is
      the routine that received `true` (-1: none yet), `sent` the End signals sent, `early`
      whether Close was called before a routine had set the present flag, and `culprit` who
      crashed the process. */
  datatype State = State(
    routines: seq<Routine>, calls: nat, closer: Closer,
    present: bool, client: bool, heartbeatOpen: bool, endOpen: bool, buffered: nat,
    hero: int, sent: nat, early: bool, culprit: int, fatal: bool)

  const END_CAPACITY := 3

  const START := State([], 0, NotCalled, false, true, true, true, 0, -1, 0, false, -1, false)

  datatype Action =
    | Register | Admit | Deny
    | Begin(i: nat) | Tick(i: nat) | Use(i: nat, next: Routine) | Accept(i: nat)
    | ReceiveClosed(i: nat) | Finish(i: nat) | Fatal(i: nat) | SendEnd(i: nat)
    | Call | Hand(i: nat) | Recheck | TakeEnd | CloseHeartbeat | CloseEnd | DropClient | CallAgain

  predicate Crashed(s: State) {
    s.culprit >= 0
  }

  /** The process has ended. */
  predicate Ended(s: State) {
    Crashed(s) || s.fatal
  }

  predicate Is(s: State, i: nat, r: Routine) {
    i < |s.routines| && s.routines[i] == r
  }

  /** What a routine goes on to when it takes hold of the client: the update succeeds or fails;
      the service is listed or not; the registration is sent; the agent is asked, or the cluster
      searched at once or when the agent refuses; an agent was found in it. */
  predicate Uses(r: Routine, next: Routine) {
    match r
    case Updating => next.Selecting? || next.Looking?
    case Looking => next.Selecting? || next.Registering?
    case Registering => next.Requesting?
    case Told(quit) => next == Asking(quit) || next == Searching(quit)
    case Asking(quit) => next == Searching(quit)
    case Searching(quit) => next == Removing(quit)
    case _ => false
  }

  /** A deregistration that may come to its end. */
  predicate Deregistering(r: Routine) {
    r.Asking? || r.Searching? || r.Removing?
  }

  /** A request under way whose failure ends the process: no service of that name after a
      hundred tries, a refused catalog query or removal, a refused registration. */
  predicate MayFail(r: Routine) {
    r.Asking? || r.Removing? || r.Requesting?
  }

  predicate Enabled(s: State, a: Action) {
    !Ended(s) &&
    match a
    case Register => s.client
    case Admit => s.calls > 0
    case Deny => s.calls > 0
    case Begin(i) => Is(s, i, Spawned)
    case Tick(i) => Is(s, i, Selecting)
    case Use(i, next) => i < |s.routines| && Uses(s.routines[i], next)
    case Accept(i) => Is(s, i, Requesting)
    case ReceiveClosed(i) => Is(s, i, Selecting) && !s.heartbeatOpen
    case Finish(i) => i < |s.routines| && Deregistering(s.routines[i])
    case Fatal(i) => i < |s.routines| && MayFail(s.routines[i])
    case SendEnd(i) => Is(s, i, Leaving) && (s.buffered < END_CAPACITY || !s.endOpen)
    case Call => s.closer.NotCalled?
    case Hand(i) => s.closer.Handing? && Is(s, i, Selecting)
    case Recheck => s.closer.Resting?
    case TakeEnd => s.closer.Waiting? && s.buffered > 0
    case CloseHeartbeat => s.closer.Closing?
    case CloseEnd => s.closer.HeartbeatClosed?
    case DropClient => s.closer.EndClosed?
    case CallAgain => s.closer.Done?
  }

  function Move(s: State, i: nat, r: Routine): State
    requires i < |s.routines|
  {
    s.(routines := s.routines[i := r])
  }

  function Started(s: State): State {
    s.(routines := s.routines + [Spawned])
  }

  /** The state after an enabled action. A call through a nil client, or a send on a closed
      channel, is a panic and ends the process. */
  function Next(s: State, a: Action): State
    requires Enabled(s, a)
  {
    match a
    case Register => s.(calls := s.calls + 1)
    case Admit => Started(s.(calls := s.calls - 1))
    case Deny => s.(fatal := true)
    case Begin(i) => Move(s, i, Selecting).(present := true)
    case Tick(i) => Move(s, i, Updating)
    case Use(i, next) => if s.client then Move(s, i, next) else s.(culprit := i)
    case Accept(i) => Started(Move(s, i, Selecting))
    case ReceiveClosed(i) => Move(s, i, Told(false))
    case Finish(i) => Move(s, i, if s.routines[i].quit then Leaving else Selecting)
    case Fatal(_) => s.(fatal := true)
    case SendEnd(i) =>
      if !s.endOpen then s.(culprit := i)
      else Move(s, i, Gone).(buffered := s.buffered + 1, sent := s.sent + 1)
    case Call => s.(closer := if s.present then Handing else Resting, early := !s.present)
    case Hand(i) => Move(s, i, Told(true)).(closer := Resting, hero := i)
    case Recheck => s.(closer := if s.present then Waiting else Closing)
    case TakeEnd => s.(closer := Closing, buffered := s.buffered - 1)
    case CloseHeartbeat => s.(closer := HeartbeatClosed, heartbeatOpen := false)
    case CloseEnd => s.(closer := EndClosed, endOpen := false)
    case DropClient => s.(closer := Done, client := false)
    case CallAgain => s
  }

  /** A run from one state to another. */
  ghost predicate Path(from: State, actions: seq<Action>, to: State)
    decreases |actions|
  {
    if actions == [] then from == to
    else Enabled(from, actions[0]) && Path(Next(from, actions[0]), actions[1..], to)
  }

  ghost predicate Leads(from: State, to: State) {
    exists actions :: Path(from, actions, to)
  }

  ghost predicate Reachable(s: State) {
    Leads(START, s)
  }

  // ---------- what every run keeps ----------

  /** At work, or deregistering because the heartbeat channel was closed. */
  predicate Active(r: Routine) {
    match r
    case Leaving => false
    case Gone => false
    case Told(quit) => !quit
    case Asking(quit) => !quit
    case Searching(quit) => !quit
    case Removing(quit) => !quit
    case _ => true
  }

  predicate Dismissed(r: Routine) {
    r == Told(false) || r == Asking(false) || r == Searching(false) || r == Removing(false)
  }

  predicate BeforeEnd(c: Closer) {
    c.NotCalled? || c.Handing? || c.Resting? || c.Waiting?
  }

  /** The routines that Close frees. */
  function Freed(s: State): nat {
    if s.early then 0 else 1
  }

  /** The routines started, and those that may still be. */
  function Starts(s: State): nat {
    |s.routines| + s.calls
  }

  ghost predicate Inv(s: State) {
    && (s.client <==> !s.closer.Done?)
    && (s.heartbeatOpen <==> BeforeEnd(s.closer) || s.closer.Closing?)
    && (s.endOpen <==> !s.closer.EndClosed? && !s.closer.Done?)
    && (if s.present then s.routines != [] else forall i | 0 <= i < |s.routines| :: s.routines[i].Spawned?)
    && (s.heartbeatOpen ==> forall i | 0 <= i < |s.routines| :: !Dismissed(s.routines[i]))
    // at most one routine is ever told to quit, and it sends the only End signal
    && -1 <= s.hero < |s.routines|
    && (forall i | 0 <= i < |s.routines| :: Active(s.routines[i]) <==> i != s.hero)
    && s.sent == (if s.hero >= 0 && s.routines[s.hero].Gone? then 1 else 0)
    // an early call tells nobody; any other tells one routine and ends after its signal
    && (if s.early then
          && s.hero == -1 && s.buffered == 0 && !s.closer.NotCalled? && !s.closer.Handing?
          && (s.closer.Waiting? ==> s.present)
        else
          && (!s.closer.NotCalled? ==> s.present)
          && (s.hero == -1 <==> s.closer.NotCalled? || s.closer.Handing?)
          && (if BeforeEnd(s.closer) then s.buffered == s.sent else s.buffered == 0 && s.sent == 1))
    // a crash comes after the client was dropped, and not from the routine that was told
    && s.culprit < |s.routines| && (Crashed(s) ==> s.closer.Done? && s.culprit != s.hero)
    && (s.fatal ==> !Crashed(s) && (s.closer.Done? ==> Starts(s) > Freed(s)))
  }

  predicate OfCloser(a: Action) {
    a.Call? || a.Recheck? || a.TakeEnd? || a.CloseHeartbeat? || a.CloseEnd? || a.DropClient? || a.CallAgain?
  }

  lemma CloserInv(s: State, a: Action)
    requires Inv(s) && Enabled(s, a) && OfCloser(a)
    ensures Inv(Next(s, a))
  {
  }

  lemma AdmitInv(s: State)
    requires Inv(s) && Enabled(s, Admit)
    ensures Inv(Next(s, Admit))
  {
  }

  lemma ApplicationInv(s: State, a: Action)
    requires Inv(s) && Enabled(s, a) && (a.Register? || a.Deny?)
    ensures Inv(Next(s, a))
  {
  }

  lemma HandInv(s: State, i: nat)
    requires Inv(s) && Enabled(s, Hand(i))
    ensures Inv(Next(s, Hand(i)))
  {
  }

  lemma SendEndInv(s: State, i: nat)
    requires Inv(s) && Enabled(s, SendEnd(i))
    ensures Inv(Next(s, SendEnd(i)))
  {
  }

  lemma BeginInv(s: State, i: nat)
    requires Inv(s) && Enabled(s, Begin(i))
    ensures Inv(Next(s, Begin(i)))
  {
  }

  lemma AcceptInv(s: State, i: nat)
    requires Inv(s) && Enabled(s, Accept(i))
    ensures Inv(Next(s, Accept(i)))
  {
  }

  lemma UseInv(s: State, i: nat, next: Routine)
    requires Inv(s) && Enabled(s, Use(i, next))
    ensures Inv(Next(s, Use(i, next)))
  {
  }

  lemma FinishInv(s: State, i: nat)
    requires Inv(s) && Enabled(s, Finish(i))
    ensures Inv(Next(s, Finish(i)))
  {
  }

  lemma FatalInv(s: State, i: nat)
    requires Inv(s) && Enabled(s, Fatal(i))
    ensures Inv(Next(s, Fatal(i)))
  {
  }

  lemma SelectInv(s: State, a: Action)
    requires Inv(s) && Enabled(s, a) && (a.Tick? || a.ReceiveClosed?)
    ensures Inv(Next(s, a))
  {
  }

  lemma StepInv(s: State, a: Action)
    requires Inv(s) && Enabled(s, a)
    ensures Inv(Next(s, a))
  {
    match a
    case Admit => AdmitInv(s);
    case Begin(i) => BeginInv(s, i);
    case Tick(_) => SelectInv(s, a);
    case Use(i, next) => UseInv(s, i, next);
    case Accept(i) => AcceptInv(s, i);
    case ReceiveClosed(_) => SelectInv(s, a);
    case Finish(i) => FinishInv(s, i);
    case Fatal(i) => FatalInv(s, i);
    case SendEnd(i) => SendEndInv(s, i);
    case Hand(i) => HandInv(s, i);
    case _ => if OfCloser(a) { CloserInv(s, a); } else { ApplicationInv(s, a); }
  }

  lemma {:induction false} PathInv(from: State, actions: seq<Action>, to: State)
    requires Inv(from) && Path(from, actions, to)
    ensures Inv(to)
    decreases |actions|
  {
    if actions != [] {
      StepInv(from, actions[0]);
      PathInv(Next(from, actions[0]), actions[1..], to);
    }
  }

  lemma ReachableInv(s: State)
    requires Reachable(s)
    ensures Inv(s)
  {
    var actions :| Path(START, actions, s);
    PathInv(START, actions, s);
  }

  lemma {:induction false} PathThen(from: State, actions: seq<Action>, mid: State, a: Action)
    requires Path(from, actions, mid) && Enabled(mid, a)
    ensures Path(from, actions + [a], Next(mid, a))
    decreases |actions|
  {
    if actions == [] {
      assert ([a])[1..] == [];
    } else {
      PathThen(Next(from, actions[0]), actions[1..], mid, a);
      assert (actions + [a])[1..] == actions[1..] + [a];
    }
  }

  /** A run, one step longer. */
  lemma Go(from: State, actions: seq<Action>, s: State, a: Action) returns (longer: seq<Action>, t: State)
    requires Path(from, actions, s) && Enabled(s, a)
    ensures Path(from, longer, t) && t == Next(s, a) && longer == actions + [a]
  {
    PathThen(from, actions, s, a);
    longer, t := actions + [a], Next(s, a);
  }

  // ---------- the hand-over ----------

  /** In every reachable state of a run whose Close was not early: at most one routine is told
      to quit, it deregisters through a live client and signals End once on an open channel
      whose buffer never fills, and Close is done only after that signal. */
  lemma HandshakeSafe(s: State)
    requires Reachable(s) && !s.early
    ensures forall i | 0 <= i < |s.routines| :: !Active(s.routines[i]) <==> i == s.hero
    ensures forall i | 0 <= i < |s.routines| && !Active(s.routines[i]) && !s.routines[i].Gone? ::
              s.client && s.endOpen && s.buffered < END_CAPACITY
    ensures s.sent <= 1 && s.buffered <= 1
    ensures s.closer.Done? ==> s.sent == 1 && 0 <= s.hero < |s.routines| && s.routines[s.hero] == Gone
  {
    ReachableInv(s);
  }

  /** An early Close tells nobody, and so gets no signal. */
  lemma EarlyTellsNobody(s: State)
    requires Reachable(s) && s.early
    ensures forall i | 0 <= i < |s.routines| :: Active(s.routines[i])
    ensures s.sent == 0 && s.buffered == 0
  {
    ReachableInv(s);
  }

  // ---------- when Close ends ----------

  /** How far Close is from its end; the second part counts what the routine it waits for
      still has to do. */
  function Stage(c: Closer): nat {
    match c
    case NotCalled => 8 case Handing => 7 case Resting => 6 case Waiting => 5
    case Closing => 4 case HeartbeatClosed => 3 case EndClosed => 2 case Done => 1
  }

  /** The routine Close depends on: the one it told, or any. */
  function Target(s: State): nat {
    if s.hero >= 0 then s.hero else 0
  }

  function Distance(s: State): (d: nat)
    ensures d <= 5
  {
    if s.closer.NotCalled? || Target(s) >= |s.routines| then 5 else Rest(s.routines[Target(s)])
  }

  /** The steps a routine still has before its hand-over, or after it. */
  function Rest(r: Routine): (d: nat)
    ensures d <= 5
  {
    match r
    case Told(_) => 5 case Asking(_) => 4 case Searching(_) => 3 case Removing(_) => 2
    case Registering => 2 case Leaving => 1 case Spawned => 1 case Updating => 1
    case Looking => 1 case Requesting => 1 case Selecting => 0 case Gone => 0
  }

  function Remaining(s: State): nat {
    6 * (Stage(s.closer) - 1) + Distance(s)
  }

  /** No step takes Close back. */
  lemma StageNeverGrows(s: State, a: Action)
    requires Enabled(s, a)
    ensures Stage(Next(s, a).closer) <= Stage(s.closer)
  {
    if OfCloser(a) { CloserMoves(s, a); } else { OthersLeaveCloser(s, a); }
  }

  lemma CloserMoves(s: State, a: Action)
    requires Enabled(s, a) && OfCloser(a)
    ensures Next(s, a).routines == s.routines && Next(s, a).hero == s.hero
    ensures a.CallAgain? ==> Next(s, a).closer == s.closer
    ensures !a.CallAgain? ==> Stage(Next(s, a).closer) < Stage(s.closer)
    ensures !BeforeEnd(s.closer) && !a.CallAgain? ==> Stage(Next(s, a).closer) == Stage(s.closer) - 1
  {
    match a
    case Call =>
    case Recheck =>
    case TakeEnd =>
    case CloseHeartbeat =>
    case CloseEnd =>
    case DropClient =>
    case CallAgain =>
  }

  lemma OthersLeaveCloser(s: State, a: Action)
    requires Enabled(s, a) && !OfCloser(a)
    ensures !a.Hand? ==> Next(s, a).closer == s.closer && Next(s, a).hero == s.hero
    ensures a.Hand? ==> s.closer.Handing? && Next(s, a).closer.Resting?
  {
  }

  /** A call that will wait, or waits, for a signal that nobody was told to send. */
  predicate Doomed(s: State) {
    s.early && (s.closer.Waiting? || (s.closer.Resting? && s.present))
  }

  /** What a routine does to be ready for the hand-over, or to finish after it. */
  function Onward(i: nat, r: Routine): Action {
    match r
    case Spawned => Begin(i)
    case Updating => Use(i, Selecting)
    case Looking => Use(i, Selecting)
    case Registering => Use(i, Requesting)
    case Requesting => Accept(i)
    case Selecting => Hand(i)
    case Told(quit) => Use(i, Asking(quit))
    case Leaving => SendEnd(i)
    case _ => Finish(i)
  }

  /** A step that brings Close nearer to its end. */
  function Helpful(s: State): Action {
    var i := Target(s);
    match s.closer
    case NotCalled => Call
    case Handing => if i < |s.routines| then Onward(i, s.routines[i]) else Call
    case Resting => Recheck
    case Waiting => if s.buffered > 0 || i >= |s.routines| then TakeEnd else Onward(i, s.routines[i])
    case Closing => CloseHeartbeat
    case HeartbeatClosed => CloseEnd
    case EndClosed => DropClient
    case Done => CallAgain
  }

  /** Nobody is registering. */
  predicate Quiet(s: State) {
    s.calls == 0 && forall r | r in s.routines :: !r.Registering? && !r.Requesting?
  }

  lemma HelpfulHelps(s: State)
    requires Inv(s) && !Ended(s) && !Doomed(s) && !s.closer.Done?
    ensures Enabled(s, Helpful(s))
    ensures var t := Next(s, Helpful(s));
            && !Ended(t) && !Doomed(t)
            && (s.closer.NotCalled? || t.early == s.early) && !t.closer.NotCalled?
            && (Stage(t.closer) < Stage(s.closer) || (t.closer == s.closer && Distance(t) < Distance(s)))
  {
  }

  lemma HelpfulIsQuiet(s: State)
    requires Inv(s) && !Ended(s) && !Doomed(s) && !s.closer.Done? && Enabled(s, Helpful(s))
    ensures Starts(Next(s, Helpful(s))) >= Starts(s)
    ensures Quiet(s) ==> Quiet(Next(s, Helpful(s))) && Starts(Next(s, Helpful(s))) == Starts(s)
  {
  }

  lemma {:induction false} CanFinish(s: State) returns (actions: seq<Action>, end: State)
    requires Inv(s) && !Ended(s) && !Doomed(s)
    ensures Path(s, actions, end) && end.closer.Done? && !Ended(end)
    ensures (s.closer.NotCalled? || end.early == s.early) && |actions| <= Remaining(s)
    ensures Starts(end) >= Starts(s) && (Quiet(s) ==> Quiet(end) && Starts(end) == Starts(s))
    decreases Stage(s.closer), Distance(s)
  {
    if s.closer.Done? {
      actions, end := [], s;
    } else {
      HelpfulHelps(s);
      HelpfulIsQuiet(s);
      StepInv(s, Helpful(s));
      var rest;
      rest, end := CanFinish(Next(s, Helpful(s)));
      actions := [Helpful(s)] + rest;
      assert actions[1..] == rest;
    }
  }

  lemma {:induction false} DoomedForever(s: State, actions: seq<Action>, end: State)
    requires Inv(s) && Doomed(s) && Path(s, actions, end)
    ensures Doomed(end)
    decreases |actions|
  {
    if actions != [] {
      StepInv(s, actions[0]);
      DoomedForever(Next(s, actions[0]), actions[1..], end);
    }
  }

  /** From a reachable state of a live process Close can run to its end exactly when it is not
      doomed, whether it was called early or not, with routines or without. */
  lemma FinishesUnlessDoomed(s: State)
    requires Reachable(s) && !Ended(s)
    ensures (exists end :: Leads(s, end) && end.closer.Done? && !Ended(end)) <==> !Doomed(s)
  {
    ReachableInv(s);
    if Doomed(s) {
      forall end | Leads(s, end) ensures !end.closer.Done? {
        var actions :| Path(s, actions, end);
        DoomedForever(s, actions, end);
      }
    } else {
      var actions, end := CanFinish(s);
      assert Leads(s, end);
    }
  }

  /** A step of the routine that was told. */
  predicate OfHero(s: State, a: Action) {
    && (a.Use? || a.Finish? || a.SendEnd?) && a.i == s.hero
  }

  lemma HeroMoves(s: State, a: Action)
    requires Inv(s) && s.hero >= 0 && !s.closer.Done? && Enabled(s, a) && !OfCloser(a)
    ensures |Next(s, a).routines| > s.hero
    ensures !OfHero(s, a) ==> Next(s, a).routines[s.hero] == s.routines[s.hero]
    ensures OfHero(s, a) ==> Rest(Next(s, a).routines[s.hero]) < Rest(s.routines[s.hero])
  {
  }

  /** Once a routine has been told, nobody delays Close: each step of Close or of that routine
      brings the end nearer, and the other routines' steps change nothing about it. */
  lemma NobodyDelays(s: State, a: Action)
    requires Inv(s) && s.hero >= 0 && !s.closer.Done? && Enabled(s, a)
    ensures if OfCloser(a) || OfHero(s, a) then Remaining(Next(s, a)) < Remaining(s)
            else Remaining(Next(s, a)) == Remaining(s)
  {
    var t := Next(s, a);
    if OfCloser(a) {
      CloserMoves(s, a);
    } else {
      OthersLeaveCloser(s, a);
      HeroMoves(s, a);
    }
  }

  // ---------- when Close hangs ----------

  /** Close waits for End and nobody has been told. */
  ghost predicate Hung(s: State) {
    s.closer.Waiting? && s.hero == -1 && !Ended(s)
  }

  /** A hung Close stays hung, whatever anyone does, unless a refused registration or a failed
      search ends the process. */
  lemma HungForever(s: State, a: Action)
    requires Reachable(s) && Hung(s) && Enabled(s, a)
    ensures Hung(Next(s, a)) || ((a.Deny? || a.Fatal?) && Next(s, a) == s.(fatal := true))
  {
    ReachableInv(s);
  }

  lemma {:induction false} PresentNeverHangs(s: State, actions: seq<Action>, end: State)
    requires Inv(s) && !s.early && (s.closer.NotCalled? ==> s.present) && Path(s, actions, end)
    ensures !Hung(end)
    decreases |actions|
  {
    if actions != [] {
      StepInv(s, actions[0]);
      PresentNeverHangs(Next(s, actions[0]), actions[1..], end);
    }
  }

  /** A routine that sets the flag between Close's two looks at it. */
  lemma HangsWithoutFlag(s: State) returns (actions: seq<Action>, end: State)
    requires Inv(s) && !Ended(s) && s.closer.NotCalled? && !s.present
    ensures Path(s, actions, end) && Hung(end)
  {
    var k := |s.routines|;
    assert Path(s, [], s);
    actions, end := Go(s, [], s, Register);
    actions, end := Go(s, actions, end, Admit);
    actions, end := Go(s, actions, end, Call);
    actions, end := Go(s, actions, end, Begin(k));
    actions, end := Go(s, actions, end, Recheck);
  }

  /** Before Close is called, in a live process, it may still come to hang exactly when no
      routine has set the present flag. */
  lemma HangsOnlyWhenEarly(s: State)
    requires Reachable(s) && !Ended(s) && s.closer.NotCalled?
    ensures (exists end :: Leads(s, end) && Hung(end)) <==> !s.present
  {
    ReachableInv(s);
    if s.present {
      forall end | Leads(s, end) ensures !Hung(end) {
        var actions :| Path(s, actions, end);
        PresentNeverHangs(s, actions, end);
      }
    } else {
      var actions, end := HangsWithoutFlag(s);
      assert Leads(s, end);
    }
  }

  /** How many of its own steps Close takes. */
  function OwnSteps(actions: seq<Action>): nat {
    if actions == [] then 0
    else (if OfCloser(actions[0]) && !actions[0].CallAgain? then 1 else 0) + OwnSteps(actions[1..])
  }

  /** Past its waiting, Close goes through by its own steps, whatever the routines do: the next
      one is always enabled, and each brings it one stage on. */
  lemma ClosingStep(s: State, a: Action)
    requires Enabled(s, a) && !BeforeEnd(s.closer)
    ensures Stage(Next(s, a).closer) + (if OfCloser(a) && !a.CallAgain? then 1 else 0) == Stage(s.closer)
  {
    if OfCloser(a) { CloserMoves(s, a); } else { OthersLeaveCloser(s, a); }
  }

  lemma {:induction false} ClosingGoesThrough(s: State, actions: seq<Action>, end: State)
    requires !BeforeEnd(s.closer) && Path(s, actions, end)
    ensures Stage(end.closer) + OwnSteps(actions) == Stage(s.closer)
    ensures !Ended(end) && !end.closer.Done? ==> Enabled(end, Helpful(end)) && OwnSteps([Helpful(end)]) == 1
    decreases |actions|
  {
    if actions != [] {
      ClosingStep(s, actions[0]);
      ClosingGoesThrough(Next(s, actions[0]), actions[1..], end);
    }
  }

  /** An early call that still finds the flag unset at its second look does so from there: it
      is done after three more steps of its own, in a store with no routine too. */
  lemma EarlyGoesThrough(s: State, actions: seq<Action>, end: State)
    requires Reachable(s) && s.early && Enabled(s, Recheck) && !s.present
    requires Path(Next(s, Recheck), actions, end)
    ensures end.closer.Done? <==> OwnSteps(actions) == 3
    ensures !Ended(end) && !end.closer.Done? ==> Enabled(end, Helpful(end)) && OwnSteps([Helpful(end)]) == 1
  {
    ReachableInv(s);
    StepInv(s, Recheck);
    ClosingGoesThrough(Next(s, Recheck), actions, end);
  }

  // ---------- after Close ----------

  /** Nothing more can happen, apart from further calls of Close. */
  ghost predicate Quiescent(s: State) {
    forall a: Action :: Enabled(s, a) ==> a.CallAgain?
  }

  /** A routine that Close has not freed. */
  function Stranded(s: State): nat {
    if s.hero == 0 then 1 else 0
  }

  /** What takes a stranded routine towards the dropped client. */
  function Fall(s: State): Action {
    var i := Stranded(s);
    if i >= |s.routines| then Admit
    else
      match s.routines[i]
      case Spawned => Begin(i)
      case Selecting => ReceiveClosed(i)
      case Requesting => Accept(i)
      case Asking(_) => Finish(i)
      case Removing(_) => Finish(i)
      case Updating => Use(i, Selecting)
      case Looking => Use(i, Selecting)
      case Registering => Use(i, Requesting)
      case Told(quit) => Use(i, Asking(quit))
      case Searching(quit) => Use(i, Removing(quit))
      case Leaving => SendEnd(i)
      case Gone => CallAgain
  }

  /** How many such steps there are, at most. */
  function Height(s: State): nat {
    var i := Stranded(s);
    if i >= |s.routines| then 6
    else
      match s.routines[i]
      case Spawned => 4 case Requesting => 4 case Asking(_) => 4 case Removing(_) => 4
      case Selecting => 3
      case _ => 1
  }

  lemma FallsOn(s: State)
    requires Inv(s) && s.closer.Done? && !Ended(s) && Starts(s) > Freed(s)
    ensures Enabled(s, Fall(s)) && !Fall(s).CallAgain?
    ensures var t := Next(s, Fall(s));
            && (Crashed(t) || (!Ended(t) && Height(t) < Height(s) && t.closer.Done?))
            && t.early == s.early && Starts(t) >= Starts(s) && (Quiet(s) ==> Quiet(t) && Starts(t) == Starts(s))
  {
  }

  lemma {:induction false} CanCrash(s: State) returns (actions: seq<Action>, end: State)
    requires Inv(s) && s.closer.Done? && !Ended(s) && Starts(s) > Freed(s)
    ensures Path(s, actions, end) && Crashed(end)
    ensures end.early == s.early && end.closer.Done? && (Quiet(s) ==> Starts(end) == Starts(s) && Quiet(end))
    decreases Height(s)
  {
    FallsOn(s);
    StepInv(s, Fall(s));
    var t := Next(s, Fall(s));
    var rest: seq<Action> := [];
    end := t;
    if !Crashed(t) { rest, end := CanCrash(t); }
    actions := [Fall(s)] + rest;
    assert actions[1..] == rest;
  }

  /** Close frees one routine, or none when it was early. When everything has come to rest
      after it, the process has ended exactly if more routines than that were started, or a
      start was refused: every other routine comes upon the dropped client and crashes, unless
      a request that was begun before ends the process by `log.Fatal`. */
  lemma OthersEndIt(s: State)
    requires Reachable(s) && s.closer.Done? && Quiescent(s)
    ensures Ended(s) <==> Starts(s) > Freed(s)
  {
    ReachableInv(s);
    if !Ended(s) && Starts(s) > Freed(s) { FallsOn(s); }
  }

  /** What the routines can still do once Close is done. */
  function Rank(r: Routine): nat {
    match r
    case Requesting => 6
    case Spawned => 3 case Asking(_) => 3 case Searching(_) => 3 case Removing(_) => 3
    case Selecting => 2
    case Gone => 0
    case _ => 1
  }

  function Ranks(rs: seq<Routine>): nat {
    if rs == [] then 0 else Ranks(rs[..|rs| - 1]) + Rank(rs[|rs| - 1])
  }

  lemma {:induction false} RanksMove(rs: seq<Routine>, i: nat, r: Routine)
    requires i < |rs|
    ensures Ranks(rs[i := r]) == Ranks(rs) - Rank(rs[i]) + Rank(r)
    ensures Ranks(rs) >= Rank(rs[i])
    decreases |rs|
  {
    var n := |rs| - 1;
    if i < n {
      RanksMove(rs[..n], i, r);
      assert rs[i := r][..n] == rs[..n][i := r];
    } else {
      assert rs[i := r][..n] == rs[..n];
    }
  }

  lemma RanksStarted(rs: seq<Routine>)
    ensures Ranks(rs + [Spawned]) == Ranks(rs) + 3
  {
    assert (rs + [Spawned])[..|rs|] == rs;
  }

  function Commotion(s: State): nat {
    if Ended(s) then 0 else 1 + Ranks(s.routines) + 4 * s.calls
  }

  /** After Close everything comes to rest: every step but another Close uses something up. */
  lemma SettlesDown(s: State, a: Action)
    requires Inv(s) && s.closer.Done? && Enabled(s, a) && !a.CallAgain?
    ensures Commotion(Next(s, a)) < Commotion(s) && Next(s, a).closer.Done? && Next(s, a).early == s.early
  {
    match a
    case Admit => RanksStarted(s.routines);
    case Begin(i) => MoveSettles(s, a, i, Selecting);
    case Tick(i) => MoveSettles(s, a, i, Updating);
    case ReceiveClosed(i) => MoveSettles(s, a, i, Told(false));
    case Finish(i) => MoveSettles(s, a, i, if s.routines[i].quit then Leaving else Selecting);
    case Accept(i) => AcceptSettles(s, i);
    case _ =>
  }

  lemma MoveSettles(s: State, a: Action, i: nat, r: Routine)
    requires !Ended(s) && i < |s.routines| && Rank(r) < Rank(s.routines[i])
    requires Enabled(s, a) && Next(s, a).routines == s.routines[i := r] && Next(s, a).calls == s.calls
    ensures Commotion(Next(s, a)) < Commotion(s)
  {
    RanksMove(s.routines, i, r);
  }

  lemma AcceptSettles(s: State, i: nat)
    requires Enabled(s, Accept(i))
    ensures Commotion(Next(s, Accept(i))) < Commotion(s)
  {
    RanksMove(s.routines, i, Selecting);
    RanksStarted(s.routines[i := Selecting]);
  }

  lemma {:induction false} RestIsReached(s: State) returns (actions: seq<Action>, end: State)
    requires Inv(s) && s.closer.Done?
    ensures Path(s, actions, end) && Inv(end) && end.closer.Done? && Quiescent(end) && end.early == s.early
    decreases Commotion(s)
  {
    if Quiescent(s) {
      actions, end := [], s;
    } else {
      var a: Action :| Enabled(s, a) && !a.CallAgain?;
      SettlesDown(s, a);
      StepInv(s, a);
      var rest;
      rest, end := RestIsReached(Next(s, a));
      actions := [a] + rest;
      assert actions[1..] == rest;
    }
  }

  /** Where Close has freed every routine nothing happens any more. */
  lemma {:induction false} AllFreed(s: State, actions: seq<Action>, end: State)
    requires Inv(s) && s.closer.Done? && Starts(s) <= Freed(s) && Path(s, actions, end)
    ensures end == s
    decreases |actions|
  {
    if actions != [] {
      assert actions[0].CallAgain?;
      AllFreed(s, actions[1..], end);
    }
  }

  lemma EndedStays(s: State, actions: seq<Action>, end: State)
    requires Ended(s) && Path(s, actions, end)
    ensures end == s
  {
  }

  /** Once Close is done, a crash can still come exactly if more routines were started, or may
      be, than Close has freed, and no `log.Fatal` came first. */
  lemma CrashStillPossible(s: State)
    requires Reachable(s) && s.closer.Done?
    ensures (exists end :: Leads(s, end) && Crashed(end)) <==> !s.fatal && Starts(s) > Freed(s)
  {
    ReachableInv(s);
    if Crashed(s) {
      assert Path(s, [], s);
      assert Leads(s, s);
    } else if !s.fatal && Starts(s) > Freed(s) {
      var actions, end := CanCrash(s);
      assert Leads(s, end);
    } else {
      forall end | Leads(s, end) ensures !Crashed(end) {
        var actions :| Path(s, actions, end);
        if s.fatal { EndedStays(s, actions, end); } else { AllFreed(s, actions, end); }
      }
    }
  }

  /** A request that was begun with the client is under way: a registration, of the application
      or of a routine, or a deregistration at the agent or through the cluster. */
  ghost predicate InFlight(s: State) {
    || s.calls > 0
    || exists i :: 0 <= i < |s.routines|
                   && (s.routines[i].Requesting? || s.routines[i].Asking? || s.routines[i].Removing?)
  }

  lemma {:induction false} NothingInFlight(s: State, actions: seq<Action>, end: State)
    requires Inv(s) && s.closer.Done? && !s.fatal && !InFlight(s) && Path(s, actions, end)
    ensures !end.fatal
    decreases |actions|
  {
    if actions != [] {
      StepInv(s, actions[0]);
      NothingInFlight(Next(s, actions[0]), actions[1..], end);
    }
  }

  /** And a `log.Fatal` can still come exactly if a request that was begun with the client is
      under way. */
  lemma FatalStillPossible(s: State)
    requires Reachable(s) && s.closer.Done?
    ensures (exists end :: Leads(s, end) && end.fatal) <==> s.fatal || (!Crashed(s) && InFlight(s))
  {
    ReachableInv(s);
    assert Path(s, [], s);
    if s.fatal {
      assert Leads(s, s);
    } else if !Crashed(s) && InFlight(s) {
      var a := Deny;
      if s.calls == 0 {
        var i: nat :| i < |s.routines|
                      && (s.routines[i].Requesting? || s.routines[i].Asking? || s.routines[i].Removing?);
        a := Fatal(i);
      }
      var actions, end := Go(s, [], s, a);
      assert Leads(s, end);
    } else {
      forall end | Leads(s, end) ensures !end.fatal {
        var actions :| Path(s, actions, end);
        if Crashed(s) { EndedStays(s, actions, end); } else { NothingInFlight(s, actions, end); }
      }
    }
  }

  // ---------- runs ----------

  lemma {:induction false} PathConcat(from: State, xs: seq<Action>, mid: State, ys: seq<Action>, to: State)
    requires Path(from, xs, mid) && Path(mid, ys, to)
    ensures Path(from, xs + ys, to)
    decreases |xs|
  {
    if xs == [] {
      assert xs + ys == ys;
    } else {
      PathConcat(Next(from, xs[0]), xs[1..], mid, ys, to);
      assert (xs + ys)[1..] == xs[1..] + ys;
    }
  }

  /** How often something is done in a run. */
  function Count(actions: seq<Action>, what: Action -> bool): nat {
    if actions == [] then 0 else (if what(actions[0]) then 1 else 0) + Count(actions[1..], what)
  }

  const Registers := (a: Action) => a.Register?
  const Admits := (a: Action) => a.Admit?
  const Accepts := (a: Action) => a.Accept?
  const Signals := (a: Action) => a.SendEnd?
  const Begins := (a: Action) => a.Begin?

  /** One step: what is started, by the application or by a routine that registers again, and
      what is signalled. */
  lemma StepCounts(s: State, a: Action)
    requires Enabled(s, a)
    ensures |Next(s, a).routines| ==
            |s.routines| + (if a.Admit? then 1 else 0) + (if a.Accept? then 1 else 0)
    ensures Next(s, a).calls + (if a.Admit? then 1 else 0) == s.calls + if a.Register? then 1 else 0
  {
    match a
    case Register =>
    case Admit =>
    case Deny =>
    case Begin(_) =>
    case Tick(_) =>
    case Use(_, _) =>
    case Accept(_) =>
    case ReceiveClosed(_) =>
    case Finish(_) =>
    case Fatal(_) =>
    case SendEnd(_) =>
    case Hand(_) =>
    case _ =>
  }

  lemma StepSignals(s: State, a: Action)
    requires Enabled(s, a)
    ensures Next(s, a).present <==> s.present || a.Begin?
    ensures !Crashed(Next(s, a)) ==> Next(s, a).sent == s.sent + if a.SendEnd? then 1 else 0
  {
    match a
    case Register =>
    case Admit =>
    case Deny =>
    case Begin(_) =>
    case Tick(_) =>
    case Use(_, _) =>
    case Accept(_) =>
    case ReceiveClosed(_) =>
    case Finish(_) =>
    case Fatal(_) =>
    case SendEnd(_) =>
    case Hand(_) =>
    case _ =>
  }

  /** Over every run each accepted registration, the application's or a routine's own, starts
      one routine. */
  lemma {:induction false} StartsCounted(from: State, actions: seq<Action>, end: State)
    requires Path(from, actions, end)
    ensures |end.routines| == |from.routines| + Count(actions, Admits) + Count(actions, Accepts)
    ensures end.calls + Count(actions, Admits) == from.calls + Count(actions, Registers)
    decreases |actions|
  {
    if actions != [] {
      StepCounts(from, actions[0]);
      StartsCounted(Next(from, actions[0]), actions[1..], end);
    }
  }

  /** The present flag is set exactly if a routine has begun, and each signal counts. */
  lemma {:induction false} SignalsCounted(from: State, actions: seq<Action>, end: State)
    requires Path(from, actions, end)
    ensures end.present <==> from.present || Count(actions, Begins) > 0
    ensures !Crashed(end) ==> end.sent == from.sent + Count(actions, Signals)
    decreases |actions|
  {
    if actions != [] {
      StepSignals(from, actions[0]);
      if Crashed(Next(from, actions[0])) { EndedStays(Next(from, actions[0]), actions[1..], end); }
      SignalsCounted(Next(from, actions[0]), actions[1..], end);
    }
  }

  lemma StillIn(actions: seq<Action>, longer: seq<Action>, a: Action)
    requires a in actions && actions <= longer
    ensures a in longer
  {
    var i :| 0 <= i < |actions| && actions[i] == a;
    assert longer[i] == a;
  }

  lemma {:induction false} CountIn(actions: seq<Action>, a: Action, what: Action -> bool)
    requires a in actions && what(a)
    ensures Count(actions, what) >= 1
    decreases |actions|
  {
    if actions[0] != a { CountIn(actions[1..], a, what); }
  }

  /** A run that goes on to a crash. */
  lemma CrashAfter(actions: seq<Action>, s: State) returns (longer: seq<Action>, end: State)
    requires Path(START, actions, s) && !Ended(s) && !Doomed(s) && !s.closer.NotCalled? && Starts(s) > Freed(s)
    ensures Path(START, longer, end) && Crashed(end) && end.closer.Done? && end.early == s.early
    ensures actions <= longer && (Quiet(s) ==> |end.routines| == |s.routines| && end.calls == 0)
  {
    PathInv(START, actions, s);
    var more, done := CanFinish(s);
    PathConcat(START, actions, s, more, done);
    PathInv(s, more, done);
    var rest;
    rest, end := CanCrash(done);
    longer := actions + more + rest;
    PathConcat(START, actions + more, done, rest, end);
  }

  /** A store with some routines. */
  lemma Populated(n: nat) returns (actions: seq<Action>, s: State)
    ensures Path(START, actions, s) && s == START.(routines := seq(n, _ => Spawned))
    ensures n > 0 ==> Admit in actions
  {
    if n == 0 {
      actions, s := [], START;
    } else {
      actions, s := Populated(n - 1);
      actions, s := Go(START, actions, s, Register);
      actions, s := Go(START, actions, s, Admit);
    }
  }

  /** After an early Close one routine that starts late is enough. */
  lemma OneLateRoutineCrashes() returns (actions: seq<Action>, end: State)
    ensures Path(START, actions, end) && Crashed(end) && end.closer.Done? && end.early && |end.routines| == 1
  {
    actions, end := Populated(1);
    actions, end := Go(START, actions, end, Call);
    actions, end := CrashAfter(actions, end);
  }

  /** After any other, a second routine is. */
  lemma SecondRoutineCrashes() returns (actions: seq<Action>, end: State)
    ensures Path(START, actions, end) && Crashed(end) && end.closer.Done? && !end.early && |end.routines| == 2
  {
    actions, end := Populated(2);
    actions, end := Go(START, actions, end, Begin(0));
    actions, end := Go(START, actions, end, Call);
    actions, end := CrashAfter(actions, end);
  }

  /** One registered routine, whose service the agent has dropped, has registered again. */
  lemma RegisteredAgain() returns (actions: seq<Action>, s: State)
    ensures Path(START, actions, s)
    ensures s == START.(routines := [Selecting, Spawned], present := true)
    ensures Admit in actions && Accept(0) in actions
  {
    actions, s := Populated(1);
    var first := actions;
    assert s.routines == [Spawned];
    actions, s := Go(START, actions, s, Begin(0));
    assert s.routines == [Selecting];
    actions, s := Go(START, actions, s, Tick(0));
    actions, s := UpdateFails(actions, s);
    actions, s := Go(START, actions, s, Accept(0));
    assert s.routines == [Selecting] + [Spawned];
    StillIn(first, actions, Admit);
  }

  lemma UpdateFails(before: seq<Action>, from: State) returns (actions: seq<Action>, s: State)
    requires Path(START, before, from) && !Ended(from) && from.client && from.routines == [Updating]
    ensures Path(START, actions, s) && s == from.(routines := [Requesting]) && before <= actions
  {
    actions, s := Go(START, before, from, Use(0, Looking));
    assert s.routines == [Looking];
    actions, s := Go(START, actions, s, Use(0, Registering));
    assert s.routines == [Registering];
    actions, s := Go(START, actions, s, Use(0, Requesting));
  }

  /** So after one Register call of the application and one re-registration, a Close that was
      not early frees one routine and the other crashes. */
  lemma ReRegisteredRoutineCrashes() returns (actions: seq<Action>, end: State)
    ensures Path(START, actions, end) && Crashed(end) && end.closer.Done? && !end.early && |end.routines| == 2
    ensures Count(actions, Registers) == 1 && Count(actions, Accepts) == 1
  {
    var s;
    actions, s := RegisteredAgain();
    var first := actions;
    actions, s := Go(START, actions, s, Call);
    actions, end := CrashAfter(actions, s);
    StartsCounted(START, actions, end);
    StillIn(first, actions, Admit);
    StillIn(first, actions, Accept(0));
    CountIn(actions, Admit, Admits);
    CountIn(actions, Accept(0), Accepts);
  }

  /** With a live client a deregistration may take either way: the agent refuses and the
      cluster is searched, or it is searched at once; an agent found there may do it. */
  lemma LongWay(before: seq<Action>, s: State, i: nat, direct: bool) returns (actions: seq<Action>, t: State)
    requires Path(START, before, s) && !Ended(s) && s.client && i < |s.routines| && s.routines[i].Told?
    ensures Path(START, actions, t)
    ensures t == Move(s, i, Removing(s.routines[i].quit))
    ensures |actions| == |before| + if direct then 3 else 2
  {
    var quit := s.routines[i].quit;
    actions, t := before, s;
    if direct {
      actions, t := Used(actions, t, i, Asking(quit));
      MoveTwice(s, i, Asking(quit), Searching(quit));
    }
    actions, t := Used(actions, t, i, Searching(quit));
    MoveTwice(s, i, Searching(quit), Removing(quit));
    actions, t := Used(actions, t, i, Removing(quit));
  }

  lemma Used(before: seq<Action>, s: State, i: nat, next: Routine) returns (actions: seq<Action>, t: State)
    requires Path(START, before, s) && !Ended(s) && s.client && i < |s.routines| && Uses(s.routines[i], next)
    ensures Path(START, actions, t) && t == Move(s, i, next) && |actions| == |before| + 1
  {
    actions, t := Go(START, before, s, Use(i, next));
  }

  lemma MoveTwice(s: State, i: nat, r: Routine, next: Routine)
    requires i < |s.routines|
    ensures Move(Move(s, i, r), i, next) == Move(s, i, next) && Move(s, i, r).routines[i] == r
  {
  }

  /** A routine that the agent refuses after Close crashes over the cluster search. */
  lemma RefusedRoutineCrashes() returns (actions: seq<Action>, end: State)
    ensures Path(START, actions, end) && end.closer.Done? && end.culprit == 1 && end.routines == [Gone, Asking(false)]
  {
    actions, end := OneOfTwoFreed();
    actions, end := Go(START, actions, end, Use(1, Asking(false)));
    actions, end := Go(START, actions, end, CloseEnd);
    actions, end := Go(START, actions, end, DropClient);
    actions, end := Go(START, actions, end, Use(1, Searching(false)));
  }

  /** Two routines at work, and Close about to tell one. */
  lemma TwoAtWork() returns (actions: seq<Action>, s: State)
    ensures Path(START, actions, s)
    ensures s == START.(routines := [Selecting, Selecting], closer := Handing, present := true)
  {
    actions, s := Populated(2);
    assert s.routines == [Spawned, Spawned];
    actions, s := Go(START, actions, s, Begin(0));
    assert s.routines == [Selecting, Spawned];
    actions, s := Go(START, actions, s, Begin(1));
    actions, s := Go(START, actions, s, Call);
  }

  /** It has told the first, which deregisters. */
  lemma OneOfTwoTold() returns (actions: seq<Action>, s: State)
    ensures Path(START, actions, s)
    ensures s == START.(routines := [Asking(true), Selecting], closer := Waiting, present := true, hero := 0)
  {
    actions, s := TwoAtWork();
    actions, s := Go(START, actions, s, Hand(0));
    assert s.routines == [Told(true), Selecting];
    actions, s := Go(START, actions, s, Recheck);
    actions, s := Go(START, actions, s, Use(0, Asking(true)));
  }

  lemma OneOfTwoGone() returns (actions: seq<Action>, s: State)
    ensures Path(START, actions, s)
    ensures s == START.(routines := [Gone, Selecting], closer := Waiting, present := true, buffered := 1,
                        hero := 0, sent := 1)
  {
    actions, s := OneOfTwoTold();
    actions, s := Go(START, actions, s, Finish(0));
    assert s.routines == [Leaving, Selecting];
    actions, s := Go(START, actions, s, SendEnd(0));
  }

  /** It has had the signal and has closed the heartbeat channel, and the other has seen that. */
  lemma OneOfTwoFreed() returns (actions: seq<Action>, s: State)
    ensures Path(START, actions, s)
    ensures s == START.(routines := [Gone, Told(false)], closer := HeartbeatClosed, present := true,
                        heartbeatOpen := false, hero := 0, sent := 1)
  {
    actions, s := OneOfTwoGone();
    actions, s := Go(START, actions, s, TakeEnd);
    actions, s := Go(START, actions, s, CloseHeartbeat);
    actions, s := Go(START, actions, s, ReceiveClosed(1));
  }

  /** A second routine may also take hold of the client in time, find no service of the name,
      and end the process by `log.Fatal` when Close is long done. */
  lemma SecondRoutineGivesUp() returns (actions: seq<Action>, end: State)
    ensures Path(START, actions, end) && end.fatal && !Crashed(end)
    ensures end.closer.Done? && !end.early && |end.routines| == 2 && Quiescent(end)
  {
    actions, end := OneOfTwoFreed();
    actions, end := Go(START, actions, end, Use(1, Asking(false)));
    actions, end := Go(START, actions, end, CloseEnd);
    actions, end := Go(START, actions, end, DropClient);
    actions, end := Go(START, actions, end, Fatal(1));
  }
}
