/** mms_connection_nemo.c in its own form: an object whose callbacks change it in place. */
module NemoObject {
  import opened NemoModel
  import S = NemoSafety

  class NemoConnection {
    var world: World
    var state: State
    var path: bool
    var connmgr: bool
    var context: bool
    var on: Handlers
    var calls: Calls
    var activations: nat
    var deactivations: nat
    ghost var signals: seq<State>

    ghost function View(): Nemo
      reads this
    {
      Nemo(world, state, path, connmgr, context, on, calls, activations, deactivations, signals)
    }

    /** Between two events. */
    ghost predicate Valid()
      reads this
    {
      S.Inv(View())
    }

    constructor (w: World)
      ensures View() == New(w) && Valid()
    {
      hide S.Inv;
      S.NewOk(w);
      world, state, path, connmgr, context := w, Opening, false, false, false;
      on, calls := NO_HANDLERS, Calls(0, 0, 0, 0, 0, 0);
      activations, deactivations, signals := 0, 0, [];
      new;
      if world.mmValid {
        RequestSim();
      } else {
        on := on.(mm := Proceed);
      }
    }

    method RequestSim()
      modifies this
      ensures View() == NemoModel.RequestSim(old(View()))
    {
      on := on.(mm := CancelIfInvalid);
      calls := calls.(reserving := calls.reserving + 1, busy := calls.busy + 1, requests := calls.requests + 1);
    }

    method ReleaseSim()
      modifies this`calls
      ensures calls == Release(old(calls))
    {
      calls := calls.(releasing := calls.releasing + 1, busy := calls.busy + 1, released := calls.released + 1);
    }

    method SetState(s: State) returns (ok: bool)
      modifies this
      ensures View() == NemoModel.SetState(old(View()), s)
      ensures ok <==> state == s
    {
      if state != s {
        if state.Failed? || state.Closed? {
          return false;
        } else if Order(state) > Order(s) {
          return false;
        }
        if s.Failed? || s.Closed? {
          if path {
            ReleaseSim();
          }
          on := NO_HANDLERS;
        }
        state := s;
        signals := signals + [s];
      }
      return true;
    }

    method CancelConnection()
      modifies this
      ensures View() == Cancel(old(View()))
    {
      var ok := false;
      if Order(state) <= Order(Opening) {
        ok := SetState(Failed);
      }
      if !ok {
        ok := SetState(Closed);
      }
    }

    method CheckContext()
      modifies this
      ensures View() == NemoModel.CheckContext(old(View()))
    {
      if state.Opening? {
        if world.contextValid && world.active {
          var _ := SetState(Open);
        } else if world.connmgrValid && world.attached {
          activations := activations + 1;
        }
      }
    }

    method SetupContext()
      modifies this
      ensures View() == NemoModel.SetupContext(old(View()))
    {
      on := on.(context := CancelIfInvalid);
      on := on.(active := true);
      on := on.(failed := true);
      on := on.(attached := true);
      CheckContext();
    }

    method InitContext()
      modifies this
      ensures View() == NemoModel.InitContext(old(View()))
    {
      on := on.(connmgr := CancelIfInvalid);
      context := world.hasContext;
      if context {
        if world.contextValid {
          SetupContext();
        } else {
          on := on.(context := Proceed);
        }
      } else {
        CancelConnection();
      }
    }

    method HandleAnswer(ok: bool)
      modifies this
      ensures View() == Answered(old(View()), ok)
    {
      hide Cancel, NemoModel.InitContext;
      if !ok {
        CancelConnection();
      } else {
        path := true;
        calls := calls.(reserved := calls.reserved + 1);
        if state.Opening? {
          connmgr := true;
          on := on.(imsi := true);
          if world.connmgrValid {
            InitContext();
          } else {
            on := on.(connmgr := Proceed);
          }
        } else {
          ReleaseSim();
        }
      }
    }

    method SetMmsImsiDone(ok: bool)
      requires calls.reserving > 0
      modifies this
      ensures View() == ReserveDone(old(View()), ok)
    {
      hide Answered;
      ghost var before := View();
      HandleAnswer(ok);
      AnsweredKeepsPending(before, ok);
      calls := calls.(reserving := calls.reserving - 1, busy := calls.busy - 1);
    }

    method ResetMmsImsiDone()
      requires calls.releasing > 0
      modifies this
      ensures View() == ReleaseDone(old(View()))
    {
      calls := calls.(releasing := calls.releasing - 1, busy := calls.busy - 1);
    }

    method CloseConnection()
      modifies this
      ensures View() == Close(old(View()))
    {
      if context && world.contextValid && world.active {
        deactivations := deactivations + 1;
      } else {
        CancelConnection();
      }
    }

    // The property changes, and the handler that is connected to it is called.

    method MmValidChanged(valid: bool)
      modifies this
      ensures View() == OnMmValid(old(View()).(world := old(world).(mmValid := valid)))
    {
      world := world.(mmValid := valid);
      if on.mm.Proceed? && valid {
        RequestSim();
      } else if on.mm.CancelIfInvalid? && !valid {
        CancelConnection();
      }
    }

    method MmsImsiChanged(ours: bool)
      modifies this
      ensures View() == OnImsi(old(View()).(world := old(world).(imsiOurs := ours)))
    {
      hide Cancel;
      world := world.(imsiOurs := ours);
      if on.imsi && world.mmValid && !ours {
        CancelConnection();
      }
    }

    method ConnmgrValidChanged(valid: bool)
      modifies this
      ensures View() == OnConnmgrValid(old(View()).(world := old(world).(connmgrValid := valid)))
    {
      hide Cancel, NemoModel.InitContext;
      world := world.(connmgrValid := valid);
      if on.connmgr.Proceed? && valid {
        InitContext();
      } else if on.connmgr.CancelIfInvalid? && !valid {
        CancelConnection();
      }
    }

    method AttachedChanged(attached: bool)
      modifies this
      ensures View() == OnAttached(old(View()).(world := old(world).(attached := attached)))
    {
      hide NemoModel.CheckContext;
      world := world.(attached := attached);
      if on.attached {
        CheckContext();
      }
    }

    method ContextValidChanged(valid: bool)
      modifies this
      ensures View() == OnContextValid(old(View()).(world := old(world).(contextValid := valid)))
    {
      hide Cancel, NemoModel.SetupContext;
      world := world.(contextValid := valid);
      if on.context.Proceed? && valid {
        SetupContext();
      } else if on.context.CancelIfInvalid? && !valid {
        CancelConnection();
      }
    }

    method ActiveChanged(active: bool)
      modifies this
      ensures View() == OnActive(old(View()).(world := old(world).(active := active)))
    {
      hide NemoModel.SetState;
      world := world.(active := active);
      if on.active {
        if active {
          var _ := SetState(Open);
        } else {
          on := on.(active := false);
          var _ := SetState(Closed);
        }
      }
    }

    /** The main loop. */
    method Handle(e: Event)
      requires Deliverable(View(), e)
      modifies this
      ensures View() == Step(old(View()), e)
      ensures old(Valid()) ==> Valid() && S.Balanced(View())
    {
      hide Cancel, OnMmValid, OnImsi, OnConnmgrValid, OnContextValid, OnAttached, OnActive, ReserveDone, Close,
           S.Inv, S.Balanced;
      StaysValid(View(), e);
      match e
      case MmValidChanged(valid) => MmValidChanged(valid);
      case ImsiChanged(ours) => MmsImsiChanged(ours);
      case ConnmgrValidChanged(valid) => ConnmgrValidChanged(valid);
      case AttachedChanged(attached) => AttachedChanged(attached);
      case ContextChosen(found) => world := world.(hasContext := found);
      case ContextValidChanged(valid) => ContextValidChanged(valid);
      case ActiveChanged(active) => ActiveChanged(active);
      case ActivateFailed =>
        if on.failed {
          CancelConnection();
        }
      case ReserveReturned(ok) => SetMmsImsiDone(ok);
      case ReleaseReturned => ResetMmsImsiDone();
      case Closing => CloseConnection();
    }
  }

  lemma StaysValid(n: Nemo, e: Event)
    requires Deliverable(n, e)
    ensures S.Inv(n) ==> S.Inv(Step(n, e)) && S.Balanced(Step(n, e))
  {
    hide Step, S.Inv, S.Balanced;
    if S.Inv(n) {
      S.StepOk(n, e);
      S.InvBalanced(Step(n, e));
    }
  }

  lemma AnsweredKeepsPending(n: Nemo, ok: bool)
    ensures Answered(n, ok).calls.reserving == n.calls.reserving
  {
    hide SetState, Cancel, InitContext;
  }
}
