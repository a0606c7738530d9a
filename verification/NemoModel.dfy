/**
  The connection of mms_connection_nemo.c as a state machine: a SIM is reserved with the modem
  manager, a data context is looked up and activated, and the SIM is released again. Calls to
  the modem manager return later, in events of their own.
*/
module NemoModel {

  datatype State = Opening | Failed | Open | Closed

  /** The values of the C enumeration are ordered like this. */
  function Order(s: State): nat {
    match s
    case Opening => 1
    case Failed => 2
    case Open => 3
    case Closed => 4
  }

  predicate Terminal(s: State) {
    s.Failed? || s.Closed?
  }

  /** The properties of the oFono objects that the handlers look at. */
  datatype World = World(
    mmValid: bool, imsiOurs: bool, connmgrValid: bool, attached: bool,
    hasContext: bool, contextValid: bool, active: bool)

  /** What the handler for "valid changed" of an object does, if there is one. */
  datatype Watch = Unwatched | Proceed | CancelIfInvalid

  datatype Handlers = Handlers(
    mm: Watch, imsi: bool, connmgr: Watch, attached: bool, context: Watch, active: bool, failed: bool)

  const NO_HANDLERS := Handlers(Unwatched, false, Unwatched, false, Unwatched, false, false)

  /** Calls to the modem manager: pending ones, what they add to the busy count, and all that
      were ever made. */
  datatype Calls = Calls(
    reserving: nat, releasing: nat, busy: int, requests: nat, reserved: nat, released: nat)

  datatype Nemo = Nemo(
    world: World,
    state: State,
    path: bool,
    connmgr: bool,
    context: bool,
    on: Handlers,
    calls: Calls,
    activations: nat,
    deactivations: nat,
    signals: seq<State>) // the state changes that were announced

  /** Nothing happened but a change of state and what comes with it. */
  predicate StateOnly(n: Nemo, r: Nemo) {
    && r.world == n.world && r.path == n.path && r.connmgr == n.connmgr && r.context == n.context
    && r.activations == n.activations && r.deactivations == n.deactivations
    && (r.state == n.state ==> r == n)
    && r.calls == (if r.state != n.state && Terminal(r.state) && n.path then Release(n.calls) else n.calls)
    && r.on == (if r.state != n.state && Terminal(r.state) then NO_HANDLERS else n.on)
    && r.signals == (if r.state != n.state then n.signals + [r.state] else n.signals)
  }

  /** The ways a state may change in one step. */
  predicate Forward(a: State, b: State) {
    a == b || a.Opening? || (a.Open? && b.Closed?)
  }

  /** The state went forward, and that was announced. */
  predicate Announced(n: Nemo, r: Nemo) {
    Forward(n.state, r.state) && r.signals == if r.state == n.state then n.signals else n.signals + [r.state]
  }

  /** Also, a connection that is being opened is not closed: it can only fail. */
  predicate Moves(n: Nemo, r: Nemo) {
    Announced(n, r) && r.world == n.world && (n.state.Opening? ==> !r.state.Closed?)
  }

  /** The call that gives the SIM back. */
  function Release(c: Calls): Calls {
    c.(releasing := c.releasing + 1, busy := c.busy + 1, released := c.released + 1)
  }

  function SetState(n: Nemo, s: State): (r: Nemo)
    ensures StateOnly(n, r)
    ensures r.state == if Terminal(n.state) || Order(n.state) > Order(s) then n.state else s
  {
    if n.state == s || Terminal(n.state) || Order(n.state) > Order(s) then n
    else
      var n1 := if Terminal(s) && n.path then n.(calls := Release(n.calls)) else n;
      var n2 := if Terminal(s) then n1.(on := NO_HANDLERS) else n1;
      n2.(state := s, signals := n2.signals + [s])
  }

  function Cancel(n: Nemo): (r: Nemo)
    ensures StateOnly(n, r)
    ensures r.state == match n.state case Opening => Failed case Open => Closed case _ => n.state
  {
    if n.state.Opening? then SetState(n, Failed) else SetState(n, Closed)
  }

  function RequestSim(n: Nemo): Nemo {
    var c := n.calls;
    n.(on := n.on.(mm := CancelIfInvalid),
       calls := c.(reserving := c.reserving + 1, busy := c.busy + 1, requests := c.requests + 1))
  }

  function CheckContext(n: Nemo): (r: Nemo)
    ensures Moves(n, r)
  {
    if !n.state.Opening? then n
    else if n.world.contextValid && n.world.active then SetState(n, Open)
    else if n.world.connmgrValid && n.world.attached then n.(activations := n.activations + 1)
    else n
  }

  function SetupContext(n: Nemo): (r: Nemo)
    ensures Moves(n, r)
  {
    CheckContext(n.(on := n.on.(context := CancelIfInvalid, active := true, failed := true, attached := true)))
  }

  function InitContext(n: Nemo): (r: Nemo)
    ensures Moves(n, r)
    ensures n.state.Opening? ==> r.calls == if r.state.Failed? && n.path then Release(n.calls) else n.calls
  {
    var n1 := n.(on := n.on.(connmgr := CancelIfInvalid), context := n.world.hasContext);
    if !n1.context then Cancel(n1)
    else if n1.world.contextValid then SetupContext(n1)
    else n1.(on := n1.on.(context := Proceed))
  }

  /** mms_connection_nemo_set_mms_imsi_done, without the end of the pending call. */
  function Answered(n: Nemo, ok: bool): (r: Nemo)
    ensures Moves(n, r)
  {
    if !ok then Cancel(n)
    else
      var r := n.(path := true, calls := n.calls.(reserved := n.calls.reserved + 1));
      if !r.state.Opening? then r.(calls := Release(r.calls))
      else
        var c := r.(connmgr := true, on := r.on.(imsi := true));
        if c.world.connmgrValid then InitContext(c) else c.(on := c.on.(connmgr := Proceed))
  }

  function ReserveDone(n: Nemo, ok: bool): Nemo
    requires n.calls.reserving > 0
  {
    var r := Answered(n, ok);
    r.(calls := r.calls.(reserving := n.calls.reserving - 1, busy := r.calls.busy - 1))
  }

  /** mms_connection_nemo_reset_mms_imsi_done */
  function ReleaseDone(n: Nemo): Nemo
    requires n.calls.releasing > 0
  {
    n.(calls := n.calls.(releasing := n.calls.releasing - 1, busy := n.calls.busy - 1))
  }

  /** mms_connection_nemo_close */
  function Close(n: Nemo): Nemo {
    if n.context && n.world.contextValid && n.world.active then n.(deactivations := n.deactivations + 1)
    else Cancel(n)
  }

  /** mms_connection_nemo_new */
  function New(w: World): Nemo {
    var n := Nemo(w, Opening, false, false, false, NO_HANDLERS, Calls(0, 0, 0, 0, 0, 0), 0, 0, []);
    if w.mmValid then RequestSim(n) else n.(on := n.on.(mm := Proceed))
  }

  // ------------------------------------------------------------------- events

  datatype Event =
    | MmValidChanged(valid: bool)
    | ImsiChanged(ours: bool)
    | ConnmgrValidChanged(valid: bool)
    | AttachedChanged(attached: bool)
    | ContextChosen(found: bool)
    | ContextValidChanged(valid: bool)
    | ActiveChanged(active: bool)
    | ActivateFailed
    | ReserveReturned(ok: bool)
    | ReleaseReturned
    | Closing

  function OnMmValid(n: Nemo): Nemo {
    match n.on.mm
    case Unwatched => n
    case Proceed => if n.world.mmValid then RequestSim(n) else n
    case CancelIfInvalid => if n.world.mmValid then n else Cancel(n)
  }

  function OnImsi(n: Nemo): Nemo {
    if n.on.imsi && n.world.mmValid && !n.world.imsiOurs then Cancel(n) else n
  }

  function OnConnmgrValid(n: Nemo): Nemo {
    match n.on.connmgr
    case Unwatched => n
    case Proceed => if n.world.connmgrValid then InitContext(n) else n
    case CancelIfInvalid => if n.world.connmgrValid then n else Cancel(n)
  }

  function OnContextValid(n: Nemo): Nemo {
    match n.on.context
    case Unwatched => n
    case Proceed => if n.world.contextValid then SetupContext(n) else n
    case CancelIfInvalid => if n.world.contextValid then n else Cancel(n)
  }

  function OnActive(n: Nemo): Nemo {
    if !n.on.active then n
    else if n.world.active then SetState(n, Open)
    else SetState(n.(on := n.on.(active := false)), Closed)
  }

  function OnAttached(n: Nemo): Nemo {
    if n.on.attached then CheckContext(n) else n
  }

  predicate Deliverable(n: Nemo, e: Event) {
    && (e.ReserveReturned? ==> n.calls.reserving > 0)
    && (e.ReleaseReturned? ==> n.calls.releasing > 0)
  }

  /** The property that an event changes. */
  function Changed(w: World, e: Event): World {
    match e
    case MmValidChanged(valid) => w.(mmValid := valid)
    case ImsiChanged(ours) => w.(imsiOurs := ours)
    case ConnmgrValidChanged(valid) => w.(connmgrValid := valid)
    case AttachedChanged(attached) => w.(attached := attached)
    case ContextChosen(found) => w.(hasContext := found)
    case ContextValidChanged(valid) => w.(contextValid := valid)
    case ActiveChanged(active) => w.(active := active)
    case _ => w
  }

  /** One event: a property changes and the handler for it runs, if one is installed. */
  function Step(n: Nemo, e: Event): Nemo
    requires Deliverable(n, e)
  {
    var n1 := n.(world := Changed(n.world, e));
    match e
    case MmValidChanged(_) => OnMmValid(n1)
    case ImsiChanged(_) => OnImsi(n1)
    case ConnmgrValidChanged(_) => OnConnmgrValid(n1)
    case AttachedChanged(_) => OnAttached(n1)
    case ContextChosen(_) => n1
    case ContextValidChanged(_) => OnContextValid(n1)
    case ActiveChanged(_) => OnActive(n1)
    case ActivateFailed => if n1.on.failed then Cancel(n1) else n1
    case ReserveReturned(ok) => ReserveDone(n1, ok)
    case ReleaseReturned => ReleaseDone(n1)
    case Closing => Close(n1)
  }
}
