/** How the state of the Nemo connection may change, and how it ends. */
module NemoStates {
  import opened NemoModel
  import opened NemoSafety

  lemma HandlersMove(n: Nemo)
    ensures Moves(n, OnMmValid(n)) && Moves(n, OnImsi(n)) && Moves(n, OnConnmgrValid(n))
    ensures Moves(n, OnContextValid(n)) && Moves(n, OnAttached(n))
    ensures Announced(n, OnActive(n))
    ensures n.state.Opening? ==> (OnActive(n).state.Closed? <==> n.on.active && !n.world.active)
  {
    hide SetState, Cancel, InitContext, SetupContext, CheckContext;
  }

  /** Final states stay, nothing goes back, and an open connection never fails; every change of
      state is announced. */
  lemma StepForward(n: Nemo, e: Event)
    requires Deliverable(n, e)
    ensures Announced(n, Step(n, e))
  {
    hide Cancel, Answered, OnMmValid, OnImsi, OnConnmgrValid, OnContextValid, OnAttached, OnActive;
    var n1 := n.(world := Changed(n.world, e));
    HandlersMove(n1);
    match e
    case ReserveReturned(ok) => assert Moves(n1, Answered(n1, ok));
    case ReleaseReturned =>
    case ContextChosen(_) =>
    case ActiveChanged(_) => assert Announced(n1, OnActive(n1));
    case Closing => assert Announced(n1, Close(n1));
    case ActivateFailed => assert Announced(n1, Cancel(n1));
    case MmValidChanged(_) => assert Moves(n1, OnMmValid(n1));
    case ImsiChanged(_) => assert Moves(n1, OnImsi(n1));
    case ConnmgrValidChanged(_) => assert Moves(n1, OnConnmgrValid(n1));
    case ContextValidChanged(_) => assert Moves(n1, OnContextValid(n1));
    case AttachedChanged(_) => assert Moves(n1, OnAttached(n1));
  }

  /** The step that skips OPEN: the context is said to have become inactive while the
      connection is still being opened. */
  predicate Skips(n: Nemo, e: Event) {
    n.state.Opening? && n.on.active && e == ActiveChanged(false)
  }

  lemma SkipsOpen(n: Nemo, e: Event)
    requires Deliverable(n, e) && n.state.Opening?
    ensures Step(n, e).state.Closed? <==> Skips(n, e)
  {
    hide Cancel, Answered, OnMmValid, OnImsi, OnConnmgrValid, OnContextValid, OnAttached, OnActive;
    HandlersMove(n.(world := Changed(n.world, e)));
  }

  // ----------------------------------------------------- the documented sequences

  /** The two sequences of mms_connection.h, and what comes before their end. */
  predicate Documented(n: Nemo) {
    match n.state
    case Opening => n.signals == []
    case Failed => n.signals == [Failed]
    case Open => n.signals == [Open]
    case Closed => n.signals == [Open, Closed]
  }

  /** No step of the run skips OPEN. */
  predicate NeverSkips(n: Nemo, events: seq<Event>)
    requires Run(n, events)
    decreases |events|
  {
    events == [] || (!Skips(n, events[0]) && NeverSkips(Step(n, events[0]), events[1..]))
  }

  lemma {:induction false} FinalStays(n: Nemo, events: seq<Event>)
    requires Terminal(n.state) && Run(n, events)
    ensures After(n, events).state == n.state && After(n, events).signals == n.signals
    decreases |events|
  {
    hide Step;
    if events != [] {
      StepForward(n, events[0]);
      FinalStays(Step(n, events[0]), events[1..]);
    }
  }

  lemma StepDocumented(n: Nemo, e: Event)
    requires Documented(n) && Deliverable(n, e)
    ensures if Skips(n, e) then Step(n, e).state.Closed? && Step(n, e).signals == [Closed]
      else Documented(Step(n, e))
  {
    hide Step;
    StepForward(n, e);
    if n.state.Opening? {
      SkipsOpen(n, e);
    }
  }

  lemma {:induction false} RunDocumented(n: Nemo, events: seq<Event>)
    requires Documented(n) && Run(n, events)
    ensures Documented(After(n, events)) <==> NeverSkips(n, events)
    decreases |events|
  {
    if events != [] {
      hide Step, Skips;
      var next := Step(n, events[0]);
      StepDocumented(n, events[0]);
      if Skips(n, events[0]) {
        FinalStays(next, events[1..]);
      } else {
        hide Documented;
        RunDocumented(next, events[1..]);
      }
    }
  }

  /** What a run announces is one of the two documented sequences exactly when no step of it
      skips OPEN. */
  lemma {:induction false} EveryRunDocumented(w: World, events: seq<Event>)
    requires Run(New(w), events)
    ensures Documented(After(New(w), events)) <==> NeverSkips(New(w), events)
  {
    hide New, Run, After, NeverSkips;
    NewOk(w);
    RunDocumented(New(w), events);
  }

  /** It does happen: the SIM is reserved, a context is found that is not active, and then it
      is reported inactive. */
  lemma SkipExample()
    ensures var w := World(true, true, true, false, true, true, false);
      var events := [ReserveReturned(true), ActiveChanged(false)];
      Run(New(w), events) && After(New(w), events).state.Closed? && After(New(w), events).signals == [Closed]
  {
    var w := World(true, true, true, false, true, true, false);
    var n := Step(New(w), ReserveReturned(true));
    assert n.state.Opening? && n.on.active && n.signals == [];
    SkipsOpen(n, ActiveChanged(false));
    StepForward(n, ActiveChanged(false));
    TwoSteps(New(w), ReserveReturned(true), ActiveChanged(false));
  }

  lemma {:induction false} TwoSteps(n: Nemo, e: Event, f: Event)
    requires Deliverable(n, e) && Deliverable(Step(n, e), f)
    ensures Run(n, [e, f]) && After(n, [e, f]) == Step(Step(n, e), f)
  {
    hide Step;
    var m := Step(n, e);
    assert [e, f][1..] == [f] && [f][1..] == [];
    assert Run(Step(m, f), []) && After(Step(m, f), []) == Step(m, f);
    assert Run(m, [f]) && After(m, [f]) == Step(m, f);
  }

  // ------------------------------------------------- contexts and what is known of them

  /** While the connection is being opened, a context that is watched is not active. */
  predicate Quiet(n: Nemo) {
    n.state.Opening? && n.on.active ==> !n.world.active
  }

  /** A context that was found is watched until it is valid, and then for activity. */
  predicate Tracked(n: Nemo) {
    n.context && !Terminal(n.state) ==>
      if n.on.context.Proceed? then !n.world.contextValid else n.on.active
  }

  predicate Tidy(n: Nemo) {
    Quiet(n) && Tracked(n)
  }

  lemma SetupTidy(n: Nemo)
    ensures Tracked(SetupContext(n)) && (n.world.contextValid ==> Quiet(SetupContext(n)))
  {
  }

  lemma CancelTidy(n: Nemo)
    ensures Tidy(Cancel(n))
  {
    hide Cancel, SetState;
  }

  lemma InitTidy(n: Nemo)
    requires Quiet(n)
    ensures Tidy(InitContext(n))
  {
    hide Cancel, SetupContext;
    var n1 := n.(on := n.on.(connmgr := CancelIfInvalid), context := n.world.hasContext);
    SetupTidy(n1);
    CancelTidy(n1);
  }

  lemma OnConnmgrTidy(n: Nemo)
    requires Tidy(n)
    ensures Tidy(OnConnmgrValid(n))
  {
    hide Cancel, InitContext, Quiet, Tracked;
    InitTidy(n);
    CancelTidy(n);
  }

  /** The property may have become valid just now. */
  lemma OnContextTidy(n: Nemo, valid: bool)
    requires Tidy(n)
    ensures Tidy(OnContextValid(n.(world := n.world.(contextValid := valid))))
  {
    hide Cancel, SetupContext;
    var n1 := n.(world := n.world.(contextValid := valid));
    SetupTidy(n1);
    CancelTidy(n1);
  }

  lemma OnAttachedTidy(n: Nemo)
    requires Tidy(n)
    ensures Tidy(OnAttached(n))
  {
    hide SetState;
  }

  /** The property may have become active just now. */
  lemma OnActiveTidy(n: Nemo)
    requires Tracked(n)
    ensures Tidy(OnActive(n))
  {
    hide SetState;
  }

  lemma AnsweredTidy(n: Nemo, ok: bool)
    requires Tidy(n)
    ensures Tidy(Answered(n, ok))
  {
    hide Cancel, InitContext;
    CancelTidy(n);
    var r := n.(path := true, calls := n.calls.(reserved := n.calls.reserved + 1));
    InitTidy(r.(connmgr := true, on := r.on.(imsi := true)));
  }

  lemma OthersTidy(n: Nemo)
    requires Tidy(n)
    ensures Tidy(OnMmValid(n)) && Tidy(OnImsi(n)) && Tidy(Close(n))
  {
    hide Cancel;
    CancelTidy(n);
  }

  lemma WorldTidy(n: Nemo, e: Event)
    requires Tidy(n) && !e.ContextValidChanged?
    ensures var n1 := n.(world := Changed(n.world, e));
      Tracked(n1) && (!e.ActiveChanged? ==> Tidy(n1))
  {
  }

  lemma CallsTidy(n: Nemo, c: Calls)
    requires Tidy(n)
    ensures Tidy(n.(calls := c))
  {
  }

  lemma StepTidy(n: Nemo, e: Event)
    requires Tidy(n) && Deliverable(n, e)
    ensures Tidy(Step(n, e))
  {
    hide Tidy, Tracked, Cancel, Close, Answered,
         OnMmValid, OnImsi, OnConnmgrValid, OnContextValid, OnAttached, OnActive;
    if e.ContextValidChanged? {
      OnContextTidy(n, e.valid);
    } else {
      var n1 := n.(world := Changed(n.world, e));
      WorldTidy(n, e);
      match e
      case MmValidChanged(_) => OthersTidy(n1);
      case ImsiChanged(_) => OthersTidy(n1);
      case ConnmgrValidChanged(_) => OnConnmgrTidy(n1);
      case AttachedChanged(_) => OnAttachedTidy(n1);
      case ContextChosen(_) =>
      case ActiveChanged(_) => OnActiveTidy(n1);
      case ActivateFailed => CancelTidy(n1);
      case ReserveReturned(ok) =>
        AnsweredTidy(n1, ok);
        CallsTidy(Answered(n1, ok), ReserveDone(n1, ok).calls);
      case ReleaseReturned => CallsTidy(n1, ReleaseDone(n1).calls);
      case Closing => OthersTidy(n1);
    }
  }

  // ------------------------------------------------------ real changes of "active"

  /** A change that changes something. */
  predicate Flips(n: Nemo, e: Event) {
    e.ActiveChanged? ==> e.active != n.world.active
  }

  /** Runs in which oFono reports changes of "active" only. */
  predicate AllFlip(n: Nemo, events: seq<Event>)
    requires Run(n, events)
    decreases |events|
  {
    events == [] || (Flips(n, events[0]) && AllFlip(Step(n, events[0]), events[1..]))
  }

  lemma {:induction false} FlipsNeverSkip(n: Nemo, events: seq<Event>)
    requires Tidy(n) && Run(n, events) && AllFlip(n, events)
    ensures NeverSkips(n, events)
    decreases |events|
  {
    hide Step, Tracked;
    if events != [] {
      StepTidy(n, events[0]);
      FlipsNeverSkip(Step(n, events[0]), events[1..]);
    }
  }

  /** If oFono only reports real changes, every run is documented. */
  lemma {:induction false} FlipsDocumented(w: World, events: seq<Event>)
    requires Run(New(w), events) && AllFlip(New(w), events)
    ensures Documented(After(New(w), events))
  {
    hide New, Run, After, AllFlip, NeverSkips;
    NewOk(w);
    FlipsNeverSkip(New(w), events);
    EveryRunDocumented(w, events);
  }

  // -------------------------------------------------------------------- closing

  /** Closing: the end is reached at once, or deactivation was asked for, and then the report
      that the context is inactive is the end. */
  predicate Closable(n: Nemo) {
    var r := Step(n, Closing);
    || Terminal(r.state)
    || (r.deactivations == n.deactivations + 1 && Terminal(Step(r, ActiveChanged(false)).state))
  }

  lemma {:induction false} RunTidy(n: Nemo, events: seq<Event>)
    requires Tidy(n) && Run(n, events)
    ensures Tidy(After(n, events))
    decreases |events|
  {
    hide Step, Tidy;
    if events != [] {
      StepTidy(n, events[0]);
      RunTidy(Step(n, events[0]), events[1..]);
    }
  }

  lemma TidyClosable(n: Nemo)
    requires Tidy(n)
    ensures Closable(n)
  {
    hide Cancel, SetState;
  }

  /** A connection can be closed at any time. */
  lemma {:induction false} EveryRunClosable(w: World, events: seq<Event>)
    requires Run(New(w), events)
    ensures Closable(After(New(w), events))
  {
    hide New, Run, After, Closable;
    NewOk(w);
    RunTidy(New(w), events);
    TidyClosable(After(New(w), events));
  }

  // ------------------------------------------------------------ what every event does

  /** The context is looked up now: the SIM is reserved and the connection manager is valid. */
  predicate LooksUp(n: Nemo, w: World, e: Event) {
    || (e == ReserveReturned(true) && n.state.Opening? && w.connmgrValid)
    || (e == ConnmgrValidChanged(true) && n.on.connmgr.Proceed?)
  }

  /** The context is checked now: it was found valid, became valid, or the network is there. */
  predicate ChecksContext(n: Nemo, w: World, e: Event) {
    || (LooksUp(n, w, e) && w.hasContext && w.contextValid)
    || (e == ContextValidChanged(true) && n.on.context.Proceed?)
    || (e.AttachedChanged? && n.on.attached)
  }

  /** Something that the connection depends on is gone, or nobody wants it. */
  predicate Breaks(n: Nemo, w: World, e: Event) {
    match e
    case MmValidChanged(valid) => !valid && n.on.mm.CancelIfInvalid?
    case ImsiChanged(ours) => !ours && n.on.imsi && w.mmValid
    case ConnmgrValidChanged(valid) =>
      if valid then n.on.connmgr.Proceed? && !w.hasContext else n.on.connmgr.CancelIfInvalid?
    case ContextValidChanged(valid) => !valid && n.on.context.CancelIfInvalid?
    case ActivateFailed => n.on.failed
    case ReserveReturned(ok) => !ok || (n.state.Opening? && w.connmgrValid && !w.hasContext)
    case Closing => !(n.context && w.contextValid && w.active)
    case _ => false
  }

  function StateAfter(n: Nemo, e: Event): State {
    var w := Changed(n.world, e);
    if Terminal(n.state) then n.state
    else if Breaks(n, w, e) then (if n.state.Opening? then Failed else Closed)
    else if e == ActiveChanged(false) && n.on.active then Closed
    else if e == ActiveChanged(true) && n.on.active then Open
    else if ChecksContext(n, w, e) && w.contextValid && w.active then Open
    else n.state
  }

  /** The context is activated when it is checked and is not active yet, and the network is there. */
  predicate Activates(n: Nemo, e: Event) {
    var w := Changed(n.world, e);
    && n.state.Opening? && ChecksContext(n, w, e) && !(w.contextValid && w.active)
    && w.connmgrValid && w.attached
  }

  predicate Deactivates(n: Nemo, e: Event) {
    e.Closing? && n.context && n.world.contextValid && n.world.active
  }

  predicate Exactly(n: Nemo, e: Event)
    requires Deliverable(n, e)
  {
    var r := Step(n, e);
    && r.state == StateAfter(n, e)
    && r.activations == n.activations + (if Activates(n, e) then 1 else 0)
    && r.deactivations == n.deactivations + (if Deactivates(n, e) then 1 else 0)
  }

  predicate Usable(n: Nemo) {
    n.world.contextValid && n.world.active
  }

  lemma SetupLeaves(n: Nemo)
    ensures var r := SetupContext(n);
      && r.state == (if n.state.Opening? && Usable(n) then Open else n.state)
      && r.deactivations == n.deactivations
      && r.activations == n.activations
        + (if n.state.Opening? && !Usable(n) && n.world.connmgrValid && n.world.attached then 1 else 0)
  {
    hide SetState;
  }

  lemma InitLeaves(n: Nemo)
    ensures var r := InitContext(n);
      && r.state == (if !n.world.hasContext then Cancel(n).state
                     else if n.state.Opening? && Usable(n) then Open else n.state)
      && r.deactivations == n.deactivations
      && r.activations == n.activations
        + (if n.state.Opening? && n.world.hasContext && n.world.contextValid && !Usable(n)
              && n.world.connmgrValid && n.world.attached then 1 else 0)
  {
    hide SetState, SetupContext, Cancel;
    SetupLeaves(n.(on := n.on.(connmgr := CancelIfInvalid), context := n.world.hasContext));
  }

  lemma ConnmgrExactly(n: Nemo, valid: bool)
    ensures Exactly(n, ConnmgrValidChanged(valid))
  {
    hide Cancel, InitContext;
    InitLeaves(n.(world := Changed(n.world, ConnmgrValidChanged(valid))));
  }

  lemma ContextExactly(n: Nemo, valid: bool)
    ensures Exactly(n, ContextValidChanged(valid))
  {
    hide Cancel, SetupContext;
    SetupLeaves(n.(world := Changed(n.world, ContextValidChanged(valid))));
  }

  lemma AttachedExactly(n: Nemo, attached: bool)
    ensures Exactly(n, AttachedChanged(attached))
  {
    hide SetState;
  }

  lemma ReservedExactly(n: Nemo, ok: bool)
    requires n.calls.reserving > 0
    ensures Exactly(n, ReserveReturned(ok))
  {
    hide Cancel, InitContext;
    var r := n.(path := true, calls := n.calls.(reserved := n.calls.reserved + 1));
    InitLeaves(r.(connmgr := true, on := r.on.(imsi := true)));
  }

  lemma ActiveExactly(n: Nemo, active: bool)
    ensures Exactly(n, ActiveChanged(active))
  {
    hide SetState;
  }

  lemma OthersExactly(n: Nemo, e: Event)
    requires Deliverable(n, e)
    requires !e.ConnmgrValidChanged? && !e.ContextValidChanged? && !e.AttachedChanged? && !e.ReserveReturned?
    requires !e.ActiveChanged?
    ensures Exactly(n, e)
  {
    hide Cancel, SetState;
    match e
    case MmValidChanged(_) =>
    case ImsiChanged(_) =>
    case ActivateFailed =>
    case Closing =>
    case _ =>
  }

  /** Every event leads to the state of the table, and activates and deactivates the context
      exactly when the table says. */
  lemma StepExactly(n: Nemo, e: Event)
    requires Deliverable(n, e)
    ensures var r := Step(n, e);
      && r.state == StateAfter(n, e)
      && r.activations == n.activations + (if Activates(n, e) then 1 else 0)
      && r.deactivations == n.deactivations + (if Deactivates(n, e) then 1 else 0)
  {
    hide Step, StateAfter, Activates, Deactivates;
    assert Exactly(n, e) by {
      match e
      case ConnmgrValidChanged(valid) => ConnmgrExactly(n, valid);
      case ContextValidChanged(valid) => ContextExactly(n, valid);
      case AttachedChanged(attached) => AttachedExactly(n, attached);
      case ReserveReturned(ok) => ReservedExactly(n, ok);
      case ActiveChanged(active) => ActiveExactly(n, active);
      case _ => OthersExactly(n, e);
    }
  }

  // ------------------------------------------------- nothing it depends on is overlooked

  /** While it is alive, the connection notices everything that it depends on going away. */
  predicate Guarded(n: Nemo) {
    !Terminal(n.state) ==>
      && (if n.calls.requests == 0 then n.on.mm.Proceed? else n.on.mm.CancelIfInvalid?)
      && (n.path ==> n.on.imsi && n.on.connmgr != Unwatched)
      && (n.on.connmgr.CancelIfInvalid? ==> n.on.context != Unwatched)
      && (n.on.context.CancelIfInvalid? ==> n.on.active && n.on.failed && n.on.attached)
  }

  /** While it is being opened, the connection waits for something that will be noticed. */
  predicate Awaits(n: Nemo) {
    n.state.Opening? ==>
      || (n.on.mm.Proceed? && !n.world.mmValid)
      || n.calls.reserving > 0
      || (n.on.connmgr.Proceed? && !n.world.connmgrValid)
      || (n.on.context.Proceed? && !n.world.contextValid)
      || n.on.context.CancelIfInvalid?
  }

  predicate Alert(n: Nemo) {
    Guarded(n) && Awaits(n)
  }

  lemma CancelAlert(n: Nemo)
    ensures Terminal(Cancel(n).state) && Alert(Cancel(n))
  {
    hide SetState, Cancel;
  }

  lemma SetupAlert(n: Nemo)
    requires Guarded(n) && n.on.connmgr.CancelIfInvalid?
    ensures Alert(SetupContext(n))
  {
    hide SetState;
  }

  lemma CheckAlert(n: Nemo)
    requires Alert(n)
    ensures Alert(CheckContext(n))
  {
    hide SetState;
  }

  lemma InitAlert(n: Nemo)
    requires !Terminal(n.state) ==> n.calls.requests > 0 && n.on.mm.CancelIfInvalid? && n.on.imsi
    requires n.on.context.CancelIfInvalid? ==> n.on.active && n.on.failed && n.on.attached
    ensures Alert(InitContext(n))
    ensures var r := InitContext(n);
      r.state.Opening? ==> r.on.context.CancelIfInvalid? || (r.on.context.Proceed? && !r.world.contextValid)
  {
    hide Cancel, SetupContext;
    var n1 := n.(on := n.on.(connmgr := CancelIfInvalid), context := n.world.hasContext);
    CancelAlert(n1);
    if n1.context && n1.world.contextValid {
      SetupGuards(n1);
    }
  }

  lemma SetupGuards(n: Nemo)
    requires !Terminal(n.state) ==> n.calls.requests > 0 && n.on.mm.CancelIfInvalid? && n.on.imsi
    requires n.on.connmgr.CancelIfInvalid?
    ensures Alert(SetupContext(n))
    ensures SetupContext(n).state.Opening? ==> SetupContext(n).on.context.CancelIfInvalid?
  {
    hide SetState;
  }

  lemma ConnmgrAlert(n: Nemo, valid: bool)
    requires Inv(n) && Alert(n)
    ensures Alert(Step(n, ConnmgrValidChanged(valid)))
  {
    hide Cancel, InitContext;
    var n1 := n.(world := Changed(n.world, ConnmgrValidChanged(valid)));
    CancelAlert(n1);
    if n.on.connmgr.Proceed? {
      InitAlert(n1);
    }
  }

  lemma ContextAlert(n: Nemo, valid: bool)
    requires Inv(n) && Alert(n)
    ensures Alert(Step(n, ContextValidChanged(valid)))
  {
    hide Cancel, SetupContext;
    var n1 := n.(world := Changed(n.world, ContextValidChanged(valid)));
    CancelAlert(n1);
    if n.on.context.Proceed? {
      SetupAlert(n1);
    }
  }

  lemma ReserveAlert(n: Nemo, ok: bool)
    requires Inv(n) && Alert(n) && n.calls.reserving > 0
    ensures Alert(Step(n, ReserveReturned(ok)))
  {
    hide Cancel, InitContext;
    CancelAlert(n);
    var r := n.(path := true, calls := n.calls.(reserved := n.calls.reserved + 1));
    var c := r.(connmgr := true, on := r.on.(imsi := true));
    if ok && n.state.Opening? && c.world.connmgrValid {
      assert !n.on.context.CancelIfInvalid?;
      InitAlert(c);
      InitCalls(c);
    }
  }

  lemma InitCalls(n: Nemo)
    requires n.state.Opening?
    ensures InitContext(n).calls.requests == n.calls.requests
  {
    hide Cancel, SetupContext;
  }

  lemma ActiveAlert(n: Nemo, active: bool)
    requires Inv(n) && Alert(n)
    ensures Alert(Step(n, ActiveChanged(active)))
  {
    hide SetState;
  }

  lemma MmAlert(n: Nemo, valid: bool)
    requires Inv(n) && Alert(n)
    ensures Alert(Step(n, MmValidChanged(valid)))
  {
    hide Cancel;
    CancelAlert(n.(world := Changed(n.world, MmValidChanged(valid))));
  }

  lemma OthersAlert(n: Nemo, e: Event)
    requires Inv(n) && Alert(n) && Deliverable(n, e)
    requires e.ImsiChanged? || e.AttachedChanged? || e.ContextChosen? || e.ActivateFailed?
      || e.ReleaseReturned? || e.Closing?
    ensures Alert(Step(n, e))
  {
    hide Cancel, CheckContext;
    var n1 := n.(world := Changed(n.world, e));
    CancelAlert(n1);
    CheckAlert(n1);
  }

  lemma StepAlert(n: Nemo, e: Event)
    requires Inv(n) && Alert(n) && Deliverable(n, e)
    ensures Alert(Step(n, e))
  {
    hide Step, Inv, Alert;
    match e
    case ConnmgrValidChanged(valid) => ConnmgrAlert(n, valid);
    case ContextValidChanged(valid) => ContextAlert(n, valid);
    case ReserveReturned(ok) => ReserveAlert(n, ok);
    case ActiveChanged(active) => ActiveAlert(n, active);
    case MmValidChanged(valid) => MmAlert(n, valid);
    case _ => OthersAlert(n, e);
  }

  lemma {:induction false} RunAlert(n: Nemo, events: seq<Event>)
    requires Inv(n) && Alert(n) && Run(n, events)
    ensures Alert(After(n, events))
    decreases |events|
  {
    hide Inv, Alert, Step;
    if events != [] {
      StepOk(n, events[0]);
      StepAlert(n, events[0]);
      RunAlert(Step(n, events[0]), events[1..]);
    }
  }

  lemma NewAlert(w: World)
    ensures Alert(New(w))
  {
  }

  /** In every run: as long as the connection is alive it notices the modem manager, the SIM, the
      connection manager and the context going away; and as long as it is being opened it waits
      for something that it will notice, so it is never stuck. */
  lemma {:induction false} EveryRunAlert(w: World, events: seq<Event>)
    requires Run(New(w), events)
    ensures Guarded(After(New(w), events)) && Awaits(After(New(w), events))
  {
    hide New, Inv, Guarded, Awaits, Run, After;
    NewOk(w);
    NewAlert(w);
    RunAlert(New(w), events);
  }
}
