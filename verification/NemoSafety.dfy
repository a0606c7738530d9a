/** What every run of the Nemo connection keeps. */
module NemoSafety {
  import opened NemoModel

  /** Reservations that have not been given back. */
  function Held(n: Nemo): int {
    n.calls.reserved - n.calls.released
  }

  /** `late` is one while the answer to the reservation is being handled. */
  predicate Accounts(n: Nemo, late: nat) {
    var c := n.calls;
    && c.busy == c.reserving + c.releasing
    && c.releasing <= c.released
    && c.requests <= 1 && c.reserved + c.reserving <= c.requests + late
    && (n.path <==> c.reserved == 1)
    && Held(n) == if n.path && !Terminal(n.state) then 1 else 0
  }

  /** Which handlers there are at which stage. */
  predicate Stages(n: Nemo) {
    && (n.on.mm.Proceed? ==> n.calls.requests == 0)
    && (n.on.imsi || n.on.connmgr != Unwatched ==> n.path)
    && (n.on.context != Unwatched ==> n.on.connmgr.CancelIfInvalid?)
    && (n.on.attached || n.on.active || n.on.failed ==> n.on.context.CancelIfInvalid?)
    && (n.on.context.CancelIfInvalid? ==> n.on.active)
    && (n.on.connmgr.Proceed? || n.on.context.Proceed? ==> n.state.Opening?)
  }

  predicate Steady(n: Nemo, late: nat) {
    && Accounts(n, late) && Stages(n)
    && (n.state.Open? ==> n.path && n.on.context.CancelIfInvalid?)
    && (Terminal(n.state) ==> n.on == NO_HANDLERS)
  }

  predicate Inv(n: Nemo) {
    Steady(n, 0)
  }

  lemma SetStateOk(n: Nemo, s: State, late: nat)
    requires Steady(n, late) && !s.Opening?
    requires s.Open? ==> n.path && n.on.context.CancelIfInvalid?
    ensures Steady(SetState(n, s), late)
  {
    hide SetState;
  }

  lemma CancelOk(n: Nemo, late: nat)
    requires Steady(n, late)
    ensures Steady(Cancel(n), late)
  {
    hide SetState, Cancel;
  }

  lemma CheckContextOk(n: Nemo, late: nat)
    requires Steady(n, late) && n.on.context.CancelIfInvalid?
    ensures Steady(CheckContext(n), late)
  {
    hide SetState;
    if n.state.Opening? {
      SetStateOk(n, Open, late);
    }
  }

  lemma SetupContextOk(n: Nemo, late: nat)
    requires Steady(n, late) && n.state.Opening? && n.on.connmgr.CancelIfInvalid?
    ensures Steady(SetupContext(n), late)
  {
    hide CheckContext;
    CheckContextOk(n.(on := n.on.(context := CancelIfInvalid, active := true, failed := true, attached := true)),
                   late);
  }

  lemma InitContextOk(n: Nemo, late: nat)
    requires Steady(n, late) && n.state.Opening? && n.path && !n.on.connmgr.CancelIfInvalid?
    ensures Steady(InitContext(n), late)
  {
    hide Cancel, SetupContext;
    var n1 := n.(on := n.on.(connmgr := CancelIfInvalid), context := n.world.hasContext);
    CancelOk(n1, late);
    SetupContextOk(n1, late);
  }

  lemma AnsweredOk(n: Nemo, ok: bool)
    requires Inv(n) && n.calls.reserving > 0
    ensures Steady(Answered(n, ok), 1)
    ensures Answered(n, ok).calls.reserving == n.calls.reserving
  {
    hide Cancel, InitContext;
    if !ok {
      CancelOk(n, 1);
    } else if n.state.Opening? {
      var r := n.(path := true, calls := n.calls.(reserved := n.calls.reserved + 1));
      var c := r.(connmgr := true, on := r.on.(imsi := true));
      assert Steady(c, 1);
      if c.world.connmgrValid {
        InitContextOk(c, 1);
      }
    }
  }

  lemma ReserveDoneOk(n: Nemo, ok: bool)
    requires Inv(n) && n.calls.reserving > 0
    ensures Inv(ReserveDone(n, ok))
  {
    hide Answered;
    AnsweredOk(n, ok);
  }

  lemma OnMmValidOk(n: Nemo)
    requires Inv(n)
    ensures Inv(OnMmValid(n))
  {
    hide Cancel;
    CancelOk(n, 0);
  }

  lemma OnConnmgrValidOk(n: Nemo)
    requires Inv(n)
    ensures Inv(OnConnmgrValid(n))
  {
    hide Cancel, InitContext;
    CancelOk(n, 0);
    if n.on.connmgr.Proceed? {
      InitContextOk(n, 0);
    }
  }

  lemma OnContextValidOk(n: Nemo)
    requires Inv(n)
    ensures Inv(OnContextValid(n))
  {
    hide Cancel, SetupContext;
    CancelOk(n, 0);
    if n.on.context.Proceed? {
      SetupContextOk(n, 0);
    }
  }

  lemma OnAttachedOk(n: Nemo)
    requires Inv(n)
    ensures Inv(OnAttached(n))
  {
    hide CheckContext;
    if n.on.attached {
      CheckContextOk(n, 0);
    }
  }

  lemma OnActiveOk(n: Nemo)
    requires Inv(n)
    ensures Inv(OnActive(n))
  {
    hide SetState;
    if n.on.active {
      SetStateOk(n, Open, 0);
      SetStateOk(n, Closed, 0);
      assert OnActive(n) == if n.world.active then SetState(n, Open) else SetState(n, Closed);
    }
  }

  lemma OnImsiOk(n: Nemo)
    requires Inv(n)
    ensures Inv(OnImsi(n)) && Inv(Cancel(n)) && Inv(Close(n))
  {
    hide Cancel;
    CancelOk(n, 0);
  }

  lemma WorldOk(n: Nemo, w: World)
    requires Inv(n)
    ensures Inv(n.(world := w)) && (n.calls.releasing > 0 ==> Inv(ReleaseDone(n)))
  {
  }

  lemma StepOk(n: Nemo, e: Event)
    requires Inv(n) && Deliverable(n, e)
    ensures Inv(Step(n, e))
  {
    hide Inv, Cancel, Close, OnMmValid, OnImsi, OnConnmgrValid, OnContextValid, OnAttached, OnActive,
         ReserveDone, ReleaseDone;
    var w := Changed(n.world, e);
    var n1 := n.(world := w);
    WorldOk(n, w);
    match e
    case MmValidChanged(_) => OnMmValidOk(n1);
    case ImsiChanged(_) => OnImsiOk(n1);
    case ConnmgrValidChanged(_) => OnConnmgrValidOk(n1);
    case AttachedChanged(_) => OnAttachedOk(n1);
    case ContextChosen(_) =>
    case ContextValidChanged(_) => OnContextValidOk(n1);
    case ActiveChanged(_) => OnActiveOk(n1);
    case ActivateFailed => OnImsiOk(n1);
    case ReserveReturned(ok) => ReserveDoneOk(n, ok);
    case ReleaseReturned => WorldOk(n1, w);
    case Closing => OnImsiOk(n1);
  }

  // ---------------------------------------------------------------- whole runs

  predicate Run(n: Nemo, events: seq<Event>)
    decreases |events|
  {
    events == [] || (Deliverable(n, events[0]) && Run(Step(n, events[0]), events[1..]))
  }

  function After(n: Nemo, events: seq<Event>): Nemo
    requires Run(n, events)
    decreases |events|
  {
    if events == [] then n else After(Step(n, events[0]), events[1..])
  }

  lemma {:induction false} RunOk(n: Nemo, events: seq<Event>)
    requires Inv(n) && Run(n, events)
    ensures Inv(After(n, events))
    decreases |events|
  {
    hide Inv, Step;
    if events != [] {
      StepOk(n, events[0]);
      RunOk(Step(n, events[0]), events[1..]);
    }
  }

  lemma NewAccounts(w: World)
    ensures Accounts(New(w), 0)
  {
  }

  lemma NewSteady(w: World)
    ensures Inv(New(w))
  {
    hide Accounts;
    NewAccounts(w);
  }

  lemma NewOk(w: World)
    ensures Inv(New(w)) && New(w).state.Opening? && New(w).signals == []
    ensures !New(w).context && !New(w).on.active
  {
    hide Inv;
    NewSteady(w);
  }

  /** The SIM is reserved at most once and held exactly while the connection is alive with a
      reservation; the busy count is the number of pending calls; and once the state is final
      and the calls have returned, what was reserved was released, once. */
  predicate Balanced(n: Nemo) {
    var c := n.calls;
    && c.requests <= 1 && c.reserved <= 1
    && c.busy == c.reserving + c.releasing
    && 0 <= Held(n) <= 1 && (Held(n) == 1 <==> n.path && !Terminal(n.state))
    && (n.state.Open? ==> c.reserved == 1)
    && (Terminal(n.state) && c.reserving == 0 && c.releasing == 0 ==> c.released == c.reserved && c.busy == 0)
  }

  lemma InvBalanced(n: Nemo)
    requires Inv(n)
    ensures Balanced(n)
  {
  }

  lemma {:induction false} EveryRun(w: World, events: seq<Event>)
    requires Run(New(w), events)
    ensures Balanced(After(New(w), events))
  {
    hide New, Inv, Balanced, Run, After;
    NewOk(w);
    RunOk(New(w), events);
    InvBalanced(After(New(w), events));
  }
}
