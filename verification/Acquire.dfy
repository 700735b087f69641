/** Consul's Acquire (consul/core.go:202-245): a worker goroutine, the returned blocking
    function and the lock's channel, in every interleaving. */
module Acquire {

  datatype Event =
    | DoingReturned | DoneFunc | Unlocked | CancelledFunc
    | SessionLost | ChannelClosed | CancelRequested | DoneUnlockedFunc

  datatype Worker = Working | Choosing | InDone | InCancelled | Exited
  datatype Blocker = NotCalled | Waiting | Unblocked | Cancelled | Returned
  datatype Channel = Nil | Open | Closed

  /** `held` is the client's view of the lock, `lost` that its session is gone. */
  datatype State = State(
    worker: Worker, blocker: Blocker, channel: Channel,
    held: bool, lost: bool, cancelled: bool, log: seq<Event>)

  /** After `lock.Lock`: acquired, or failed with a nil channel; Acquire goes on either way. */
  ghost predicate Init(s: State) {
    || s == State(Working, NotCalled, Open, true, false, false, [])
    || s == State(Working, NotCalled, Nil, false, false, false, [])
  }

  datatype Action =
    | DoReturn | Choose | DoneReturn | CancelledReturn | Lose
    | CloseChannel | CallBlock | Unblock | Cancel | Finish

  ghost predicate Enabled(s: State, a: Action) {
    match a
    case DoReturn => s.worker.Working?
    case Choose => s.worker.Choosing?
    case DoneReturn => s.worker.InDone?
    case CancelledReturn => s.worker.InCancelled?
    case Lose => s.channel.Open? && !s.lost
    case CloseChannel => s.channel.Open? && (s.lost || !s.held)
    case CallBlock => s.blocker.NotCalled?
    case Unblock => s.blocker.Waiting? && s.channel.Closed?
    case Cancel => s.blocker.Unblocked?
    case Finish => s.blocker.Cancelled?
  }

  /** The state after an enabled action. */
  function Next(s: State, a: Action): State {
    match a
    case DoReturn => s.(worker := Choosing, log := s.log + [DoingReturned])
    case Choose =>
      if s.cancelled then s.(worker := InCancelled, log := s.log + [CancelledFunc])
      else s.(worker := InDone, log := s.log + [DoneFunc])
    case DoneReturn => s.(worker := Exited, held := false, log := s.log + [Unlocked])
    case CancelledReturn => s.(worker := Exited)
    case Lose => s.(lost := true, log := s.log + [SessionLost])
    case CloseChannel => s.(channel := Closed, log := s.log + [ChannelClosed])
    case CallBlock => s.(blocker := Waiting)
    case Unblock => s.(blocker := Unblocked)
    case Cancel => s.(blocker := Cancelled, cancelled := true, log := s.log + [CancelRequested])
    case Finish => s.(blocker := Returned, log := s.log + [DoneUnlockedFunc])
  }

  ghost predicate Run(states: seq<State>, actions: seq<Action>) {
    && |states| == |actions| + 1
    && Init(states[0])
    && forall i | 0 <= i < |actions| :: Enabled(states[i], actions[i]) && states[i + 1] == Next(states[i], actions[i])
  }

  // ---------- order of events ----------

  predicate Is(log: seq<Event>, i: int, e: Event) {
    0 <= i < |log| && log[i] == e
  }

  /** Every `f` in the log comes after some `e`. */
  ghost predicate Before(log: seq<Event>, e: Event, f: Event) {
    forall j | Is(log, j, f) :: exists i :: i < j && Is(log, i, e)
  }

  ghost predicate AtMostOnce(log: seq<Event>, es: set<Event>) {
    forall i, j | 0 <= i < j < |log| :: !(log[i] in es && log[j] in es)
  }

  lemma IsAppend(log: seq<Event>, x: Event, i: int, e: Event)
    ensures Is(log + [x], i, e) <==> Is(log, i, e) || (i == |log| && x == e)
  {
  }

  lemma BeforeAppend(log: seq<Event>, x: Event, e: Event, f: Event)
    requires e != f && Before(log, e, f) && (x == f ==> e in log)
    ensures Before(log + [x], e, f)
  {
    forall j | Is(log + [x], j, f) ensures exists i :: i < j && Is(log + [x], i, e) {
      IsAppend(log, x, j, f);
      if Is(log, j, f) {
        var i :| i < j && Is(log, i, e);
        IsAppend(log, x, i, e);
      } else {
        var i :| 0 <= i < |log| && log[i] == e;
        IsAppend(log, x, i, e);
      }
    }
  }

  lemma BeforeTransitive(log: seq<Event>, e: Event, f: Event, g: Event)
    requires e != f && f != g && e != g && Before(log, e, f) && Before(log, f, g)
    ensures Before(log, e, g)
  {
  }

  /** What the callbacks may rely on, in any run. */
  ghost predicate Ordered(log: seq<Event>) {
    && AtMostOnce(log, {DoneFunc, CancelledFunc})
    && AtMostOnce(log, {Unlocked}) && AtMostOnce(log, {DoneUnlockedFunc})
    && Before(log, DoingReturned, DoneFunc) && Before(log, DoingReturned, CancelledFunc)
    && Before(log, DoneFunc, Unlocked)
    && Before(log, ChannelClosed, CancelRequested)
    && Before(log, CancelRequested, CancelledFunc)
    && Before(log, CancelRequested, DoneUnlockedFunc)
    && Before(log, SessionLost, CancelledFunc)
    && CloseHasCause(log)
  }

  /** The channel closes only after a session loss or an Unlock. */
  ghost predicate CloseHasCause(log: seq<Event>) {
    forall j | Is(log, j, ChannelClosed) :: exists i :: i < j && (Is(log, i, SessionLost) || Is(log, i, Unlocked))
  }

  /** An ordered log, and how it goes together with the state. */
  ghost predicate Inv(s: State) {
    Ordered(s.log) && Linked(s)
  }

  ghost predicate Linked(s: State) {
    && (DoingReturned in s.log <==> !s.worker.Working?)
    && (CancelledFunc in s.log ==> s.worker.InCancelled? || s.worker.Exited?)
    && (DoneFunc in s.log ==> s.worker.InDone? || s.worker.Exited?)
    && (s.worker.InDone? ==> DoneFunc in s.log)
    && (s.worker.InCancelled? ==> CancelledFunc in s.log)
    && (Unlocked in s.log ==> s.worker.Exited? && !s.held)
    && (s.worker.Exited? ==> Unlocked in s.log || CancelledFunc in s.log)
    && (CancelledFunc in s.log ==> Unlocked !in s.log && DoneFunc !in s.log)
    && (SessionLost in s.log <==> s.lost)
    && (ChannelClosed in s.log <==> s.channel.Closed?)
    && (CancelRequested in s.log <==> s.cancelled)
    && (s.cancelled <==> s.blocker.Cancelled? || s.blocker.Returned?)
    && (DoneUnlockedFunc in s.log <==> s.blocker.Returned?)
    && (s.blocker.Unblocked? || s.cancelled ==> s.channel.Closed?)
    // a channel closes only on a loss or after Unlock
    && (!s.channel.Nil? && !s.held ==> Unlocked in s.log)
    && (s.channel.Closed? ==> s.lost || Unlocked in s.log)
    && (CancelledFunc in s.log ==> s.lost)
  }

  lemma OnceAppend(log: seq<Event>, x: Event, es: set<Event>)
    requires AtMostOnce(log, es) && (x in es ==> forall e | e in es :: e !in log)
    ensures AtMostOnce(log + [x], es)
  {
  }

  lemma CauseAppend(log: seq<Event>, x: Event)
    requires CloseHasCause(log) && (x == ChannelClosed ==> SessionLost in log || Unlocked in log)
    ensures CloseHasCause(log + [x])
  {
    forall j | Is(log + [x], j, ChannelClosed)
      ensures exists i :: i < j && (Is(log + [x], i, SessionLost) || Is(log + [x], i, Unlocked))
    {
      if j < |log| {
        assert Is(log, j, ChannelClosed);
        var i :| i < j && (Is(log, i, SessionLost) || Is(log, i, Unlocked));
        assert Is(log + [x], i, SessionLost) || Is(log + [x], i, Unlocked);
      } else {
        var i :| 0 <= i < |log| && (log[i] == SessionLost || log[i] == Unlocked);
        assert Is(log + [x], i, SessionLost) || Is(log + [x], i, Unlocked);
      }
    }
  }

  /** What must have happened before an event. */
  ghost predicate Due(log: seq<Event>, x: Event) {
    && (x in {DoneFunc, CancelledFunc} ==> DoneFunc !in log && CancelledFunc !in log && DoingReturned in log)
    && (x in {Unlocked, DoneUnlockedFunc} ==> x !in log)
    && (x == Unlocked ==> DoneFunc in log)
    && (x == CancelRequested ==> ChannelClosed in log)
    && (x in {CancelledFunc, DoneUnlockedFunc} ==> CancelRequested in log)
    && (x == CancelledFunc ==> SessionLost in log)
    && (x == ChannelClosed ==> SessionLost in log || Unlocked in log)
  }

  lemma OrderedAppend(log: seq<Event>, x: Event)
    requires Ordered(log) && Due(log, x)
    ensures Ordered(log + [x])
    ensures forall e :: e in log + [x] <==> e in log || e == x
  {
    OnceAppend(log, x, {DoneFunc, CancelledFunc});
    OnceAppend(log, x, {Unlocked});
    OnceAppend(log, x, {DoneUnlockedFunc});
    BeforeAppend(log, x, DoingReturned, DoneFunc);
    BeforeAppend(log, x, DoingReturned, CancelledFunc);
    BeforeAppend(log, x, DoneFunc, Unlocked);
    BeforeAppend(log, x, ChannelClosed, CancelRequested);
    BeforeAppend(log, x, CancelRequested, CancelledFunc);
    BeforeAppend(log, x, CancelRequested, DoneUnlockedFunc);
    BeforeAppend(log, x, SessionLost, CancelledFunc);
    CauseAppend(log, x);
  }

  /** The event an action leaves in the log, if any. */
  function Logged(s: State, a: Action): seq<Event> {
    match a
    case DoReturn => [DoingReturned]
    case Choose => [if s.cancelled then CancelledFunc else DoneFunc]
    case DoneReturn => [Unlocked]
    case Lose => [SessionLost]
    case CloseChannel => [ChannelClosed]
    case Cancel => [CancelRequested]
    case Finish => [DoneUnlockedFunc]
    case CancelledReturn => []
    case CallBlock => []
    case Unblock => []
  }

  lemma DueNow(s: State, a: Action)
    requires Linked(s) && Enabled(s, a)
    ensures Next(s, a).log == s.log + Logged(s, a)
    ensures Logged(s, a) != [] ==> Due(s.log, Logged(s, a)[0])
  {
  }

  lemma StepLinked(s: State, a: Action)
    requires Linked(s) && Enabled(s, a)
    requires forall e :: e in Next(s, a).log <==> e in s.log || e in Logged(s, a)
    ensures Linked(Next(s, a))
  {
  }

  lemma StepInv(s: State, a: Action)
    requires Inv(s) && Enabled(s, a)
    ensures Inv(Next(s, a))
  {
    DueNow(s, a);
    if Logged(s, a) != [] { OrderedAppend(s.log, Logged(s, a)[0]); }
    StepLinked(s, a);
  }

  lemma {:induction false} RunInv(states: seq<State>, actions: seq<Action>, i: nat)
    requires Run(states, actions) && i < |states|
    ensures Inv(states[i])
  {
    if i > 0 {
      RunInv(states, actions, i - 1);
      StepInv(states[i - 1], actions[i - 1]);
      assert states[i - 1 + 1] == Next(states[i - 1], actions[i - 1]);
    }
  }

  // ---------- the theorems ----------

  /** In every run: at most one of doneFunc and cancelledFunc runs, and only after doingSth
      returned; Unlock only follows doneFunc; blockFunc cancels and finishes only after the
      channel closed; cancelledFunc runs only after that cancellation and a session loss. */
  lemma CallbacksOrdered(states: seq<State>, actions: seq<Action>, i: nat)
    requires Run(states, actions) && i < |states|
    ensures Ordered(states[i].log)
  {
    RunInv(states, actions, i);
  }

  /** Without a session loss cancelledFunc never runs, and doneFunc and Unlock precede
      doneUnlockedFunc. */
  lemma WithoutLoss(states: seq<State>, actions: seq<Action>, i: nat)
    requires Run(states, actions) && i < |states| && SessionLost !in states[i].log
    ensures var log := states[i].log;
            && CancelledFunc !in log
            && Before(log, DoneFunc, DoneUnlockedFunc) && Before(log, Unlocked, DoneUnlockedFunc)
  {
    RunInv(states, actions, i);
    var log := states[i].log;
    assert Before(log, Unlocked, ChannelClosed) by {
      assert forall i :: !Is(log, i, SessionLost);
    }
    BeforeTransitive(log, Unlocked, ChannelClosed, CancelRequested);
    BeforeTransitive(log, Unlocked, CancelRequested, DoneUnlockedFunc);
    BeforeTransitive(log, DoneFunc, Unlocked, DoneUnlockedFunc);
  }

  /** When the lock could not be taken, doingSth runs all the same, but blockFunc never
      gets past the nil channel and nothing is cancelled. */
  lemma {:induction false} LockFailed(states: seq<State>, actions: seq<Action>, i: nat)
    requires Run(states, actions) && i < |states| && states[0].channel.Nil?
    ensures states[i].channel.Nil? && (states[i].blocker.NotCalled? || states[i].blocker.Waiting?)
    ensures !states[i].cancelled && CancelledFunc !in states[i].log && DoneUnlockedFunc !in states[i].log
  {
    if i > 0 {
      LockFailed(states, actions, i - 1);
      assert states[i - 1 + 1] == Next(states[i - 1], actions[i - 1]);
    }
  }

  /** Which callback doingSth is followed by is decided by the cancellation alone: cancelledFunc
      after it, doneFunc before. */
  lemma ChoiceIsExact(states: seq<State>, actions: seq<Action>, i: nat)
    requires Run(states, actions) && i < |actions| && actions[i].Choose?
    ensures CancelledFunc in states[i + 1].log <==> CancelRequested in states[i].log
    ensures DoneFunc in states[i + 1].log <==> CancelRequested !in states[i].log
  {
    RunInv(states, actions, i);
    DueNow(states[i], actions[i]);
  }

  ghost predicate Has(actions: seq<Action>, n: nat, a: Action) {
    exists j: nat :: j < n && j < |actions| && actions[j] == a
  }

  lemma HasMore(actions: seq<Action>, n: nat, a: Action)
    requires 0 < n <= |actions|
    ensures Has(actions, n, a) <==> Has(actions, n - 1, a) || actions[n - 1] == a
  {
  }

  /** The log tells exactly which of the other things have happened. */
  lemma {:induction false} LogIsExact(states: seq<State>, actions: seq<Action>, i: nat)
    requires Run(states, actions) && i < |states|
    ensures var log := states[i].log;
            && (DoingReturned in log <==> Has(actions, i, DoReturn))
            && (Unlocked in log <==> Has(actions, i, DoneReturn))
            && (SessionLost in log <==> Has(actions, i, Lose))
            && (ChannelClosed in log <==> Has(actions, i, CloseChannel))
            && (CancelRequested in log <==> Has(actions, i, Cancel))
            && (DoneUnlockedFunc in log <==> Has(actions, i, Finish))
            && (DoneFunc in log || CancelledFunc in log <==> Has(actions, i, Choose))
  {
    if i > 0 {
      LogIsExact(states, actions, i - 1);
      var s, a := states[i - 1], actions[i - 1];
      assert states[i - 1 + 1] == Next(s, a);
      EventOf(s, a);
      HasMore(actions, i, DoReturn);
      HasMore(actions, i, DoneReturn);
      HasMore(actions, i, Lose);
      HasMore(actions, i, CloseChannel);
      HasMore(actions, i, Cancel);
      HasMore(actions, i, Finish);
      HasMore(actions, i, Choose);
    }
  }

  /** What one action adds to the log. */
  lemma EventOf(s: State, a: Action)
    requires Enabled(s, a)
    ensures var log := Next(s, a).log;
            && (DoingReturned in log <==> DoingReturned in s.log || a.DoReturn?)
            && (Unlocked in log <==> Unlocked in s.log || a.DoneReturn?)
            && (SessionLost in log <==> SessionLost in s.log || a.Lose?)
            && (ChannelClosed in log <==> ChannelClosed in s.log || a.CloseChannel?)
            && (CancelRequested in log <==> CancelRequested in s.log || a.Cancel?)
            && (DoneUnlockedFunc in log <==> DoneUnlockedFunc in s.log || a.Finish?)
            && (DoneFunc in log || CancelledFunc in log <==> DoneFunc in s.log || CancelledFunc in s.log || a.Choose?)
  {
  }

  lemma Go(states: seq<State>, actions: seq<Action>, a: Action) returns (longer: seq<State>, more: seq<Action>)
    requires Run(states, actions) && Enabled(states[|actions|], a)
    ensures Run(longer, more) && more == actions + [a]
    ensures longer == states + [Next(states[|actions|], a)]
  {
    longer, more := states + [Next(states[|actions|], a)], actions + [a];
    forall i | 0 <= i < |more| ensures Enabled(longer[i], more[i]) && longer[i + 1] == Next(longer[i], more[i]) {
      if i < |actions| { assert states[i + 1] == Next(states[i], actions[i]); }
    }
  }

  /** A session lost while doingSth works, and seen by blockFunc in time: cancelledFunc runs. */
  lemma CancelledRun() returns (states: seq<State>, actions: seq<Action>)
    ensures Run(states, actions)
    ensures states[|actions|].log ==
            [SessionLost, ChannelClosed, CancelRequested, DoneUnlockedFunc, DoingReturned, CancelledFunc]
  {
    states, actions := [State(Working, NotCalled, Open, true, false, false, [])], [];
    states, actions := Go(states, actions, CallBlock);
    states, actions := Go(states, actions, Lose);
    states, actions := Go(states, actions, CloseChannel);
    states, actions := Go(states, actions, Unblock);
    states, actions := Go(states, actions, Cancel);
    states, actions := Go(states, actions, Finish);
    states, actions := Go(states, actions, DoReturn);
    states, actions := Go(states, actions, Choose);
  }

  function Measure(s: State): nat {
    (match s.worker
     case Working => 3 case Choosing => 2 case InDone => 1 case InCancelled => 1 case Exited => 0)
    + (match s.blocker
       case NotCalled => 4 case Waiting => 3 case Unblocked => 2 case Cancelled => 1 case Returned => 0)
    + (if s.channel.Open? then 1 else 0)
    + (if s.lost then 0 else 1)
  }

  lemma EveryActionCounts(s: State, a: Action)
    requires Enabled(s, a)
    ensures Measure(Next(s, a)) < Measure(s)
  {
  }

  /** Runs are finite: no run takes more than nine actions. */
  lemma {:induction false} RunsAreShort(states: seq<State>, actions: seq<Action>, i: nat)
    requires Run(states, actions) && i < |states|
    ensures Measure(states[i]) + i <= 9
  {
    if i > 0 {
      RunsAreShort(states, actions, i - 1);
      EveryActionCounts(states[i - 1], actions[i - 1]);
      assert states[i - 1 + 1] == Next(states[i - 1], actions[i - 1]);
    }
  }

  /** What neither the caller nor the lock server decides. */
  predicate Internal(a: Action) {
    !a.DoReturn? && !a.Lose? && !a.CallBlock?
  }

  /** A run that has nothing left to do on its own, with the lock acquired, doingSth returned
      and blockFunc called, has seen blockFunc return. */
  lemma BlockFuncReturns(states: seq<State>, actions: seq<Action>)
    requires Run(states, actions) && !states[0].channel.Nil?
    requires var s := states[|actions|];
             && !s.worker.Working? && !s.blocker.NotCalled?
             && forall a | Internal(a) :: !Enabled(s, a)
    ensures var s := states[|actions|];
            s.blocker.Returned? && s.worker.Exited? && DoneUnlockedFunc in s.log
  {
    RunInv(states, actions, |actions|);
    ChannelKept(states, actions, |actions|);
    Quiet(states[|actions|]);
  }

  lemma Quiet(s: State)
    requires Linked(s) && !s.channel.Nil? && !s.worker.Working? && !s.blocker.NotCalled?
    requires forall a | Internal(a) :: !Enabled(s, a)
    ensures s.blocker.Returned? && s.worker.Exited? && DoneUnlockedFunc in s.log
  {
    assert Internal(Choose) && Internal(DoneReturn) && Internal(CancelledReturn) && Internal(CloseChannel);
    assert Internal(Unblock) && Internal(Cancel) && Internal(Finish);
    assert s.worker.Exited?;
    assert s.channel.Closed?;
  }

  lemma {:induction false} ChannelKept(states: seq<State>, actions: seq<Action>, i: nat)
    requires Run(states, actions) && i < |states| && !states[0].channel.Nil?
    ensures !states[i].channel.Nil?
  {
    if i > 0 {
      ChannelKept(states, actions, i - 1);
      assert states[i - 1 + 1] == Next(states[i - 1], actions[i - 1]);
    }
  }
}
