/**
  mms_dispatcher.c as a state machine: one value for the dispatcher, one function for each
  of its functions. Besides the fields of the C structure the value keeps what has happened
  so far: how many tasks were created, which were let go, how often the dispatcher was
  started and how often its delegate was told that everything is done.
*/
module DispatcherModel {
  import opened Common
  import opened Tasks
  import opened TaskOrder
  import opened Sums

  datatype Dispatcher = Dispatcher(
    tasks: seq<Task>, active: Option<Task>, conn: Option<Connection>,
    nextRun: bool, idle: bool, started: bool,
    created: nat, released: seq<Task>, starts: nat, doneCalls: nat,
    unannounced: bool)   // a task was queued from outside and no run has seen it yet

  const INITIAL := Dispatcher([], None, None, false, false, false, 0, [], 0, 0, false)

  /** What the surroundings answer while the dispatcher runs. */
  datatype Answer = Answer(
    choice: Choice,            // for the task being handled
    busy: bool,                // the message handler or the connection manager is busy
    link: Option<bool>,        // mms_connman_open_connection: none, or is it open already?
    closesNow: bool)           // mms_connection_close signals before it returns

  /** The answers to come, one for each turn. */
  type Oracle = nat -> Answer

  function Nth(o: Oracle, turn: nat): Answer {
    o(turn)
  }

  predicate ConnectionActive(d: Dispatcher) {
    d.conn.Some? && (d.conn.value.state.Open? || d.conn.value.state.Opening?)
  }

  function CheckIfDone(d: Dispatcher, busy: bool): Dispatcher {
    if ConnectionActive(d) || busy || d.active.Some? || d.tasks != [] then d
    else
      d.(nextRun := false, started := false,
         doneCalls := if d.started then d.doneCalls + 1 else d.doneCalls)
  }

  function DropConnection(d: Dispatcher): Dispatcher {
    if d.conn.Some? then d.(conn := None, idle := false) else d
  }

  predicate UsesNetwork(t: Task) {
    Needs(t) || t.state.Transmitting?
  }

  function LoseOne(t: Task, imsi: string, c: Choice): Task {
    if UsesNetwork(t) && t.imsi == imsi then NetworkUnavailable(t, true, c) else t
  }

  function LoseNetwork(ts: seq<Task>, imsi: string, c: Choice): seq<Task> {
    seq(|ts|, i requires 0 <= i < |ts| => LoseOne(ts[i], imsi, c))
  }

  /** mms_dispatcher_connection_state_changed for a connection that failed or was closed. */
  function ConnectionLost(d: Dispatcher, a: Answer): (r: Dispatcher)
    requires d.conn.Some?
    ensures |r.tasks| == |d.tasks| && r.active == d.active && r.unannounced == d.unannounced
    ensures d.tasks != [] ==> r.doneCalls == d.doneCalls && r.started == d.started
  {
    var d1 := CheckIfDone(DropConnection(d), a.busy);
    var d2 := d1.(tasks := LoseNetwork(d1.tasks, d.conn.value.imsi, a.choice));
    var d3 := CheckIfDone(DropConnection(d2), a.busy);
    if d3.active.None? then d3.(nextRun := true) else d3
  }

  function CloseConnection(d: Dispatcher, a: Answer): (r: Dispatcher)
    ensures |r.tasks| == |d.tasks| && r.active == d.active && r.unannounced == d.unannounced
    ensures d.tasks != [] ==> r.doneCalls == d.doneCalls && r.started == d.started
  {
    if d.conn.None? then d
    else
      var d1 := if a.closesNow then ConnectionLost(d, a) else d;
      CheckIfDone(if ConnectionActive(d1) then d1 else DropConnection(d1), a.busy)
  }

  /** The part of mms_dispatcher_pick_next_task that looks after the connection for the
      first task of the queue. */
  function PrepareConnection(d: Dispatcher, imsi: string, a: Answer): (r: Dispatcher)
    ensures |r.tasks| == |d.tasks| && r.active == d.active && r.unannounced == d.unannounced
    ensures d.tasks != [] ==> r.doneCalls == d.doneCalls && r.started == d.started
  {
    var d1 := if d.conn.Some? && d.conn.value.imsi != imsi then CloseConnection(d, a) else d;
    if d1.conn.None? && a.link.Some? then
      d1.(conn := Some(Connection(imsi, if a.link.value then Open else Opening)))
    else d1
  }

  /** Looks at the first task of the sorted queue. */
  function PickFirst(d: Dispatcher, a: Answer): Dispatcher {
    if d.tasks == [] then d
    else if Runnable(d.tasks[0]) then Take(d)
    else if Needs(d.tasks[0]) then
      UseConnection(PrepareConnection(d, d.tasks[0].imsi, a), a.choice)
    else d
  }

  /** The first task wants a connection: it gets the one there is, if that is the right one
      and open, or is told that there is none. */
  function UseConnection(d: Dispatcher, c: Choice): Dispatcher
    requires d.tasks != []
  {
    var t := d.tasks[0];
    if d.conn.None? then
      var t1 := NetworkUnavailable(t, false, c);
      d.(tasks := [t1] + d.tasks[1..], nextRun := d.nextRun || t1.state != t.state)
    else if d.conn.value.imsi == t.imsi && IsOpen(d.conn) then Take(d)
    else d
  }

  function Take(d: Dispatcher): Dispatcher
    requires d.tasks != []
  {
    d.(tasks := d.tasks[1..], active := Some(d.tasks[0]))
  }

  function Sorted(d: Dispatcher): Dispatcher {
    d.(tasks := SortTasks(d.tasks, d.conn))
  }

  /** mms_dispatcher_pick_next_task; the task picked is the one made active. */
  function Pick(d: Dispatcher, a: Answer): Dispatcher {
    PickFirst(Sorted(d), a)
  }

  function NewTasks(seeds: seq<Seed>, first: nat): seq<Task> {
    seq(|seeds|, i requires 0 <= i < |seeds| => NewTask(first + i, seeds[i]))
  }

  /** New tasks take the next numbers and go to the end of the queue. */
  function Queue(d: Dispatcher, seeds: seq<Seed>): Dispatcher {
    d.(tasks := d.tasks + NewTasks(seeds, d.created), created := d.created + |seeds|)
  }

  /** What the loop does with the active task: the task afterwards and its children. */
  function Handle(t: Task, c: Choice): (Task, seq<Seed>) {
    if t.state.Ready? then Run(t, c)
    else if Needs(t) then (Transmit(t, c), [])
    else (t, [])
  }

  /** One turn of the loop in mms_dispatcher_run, after a task was picked. */
  function Dispatch(d: Dispatcher, a: Answer): Dispatcher
    requires d.active.Some?
  {
    var (t1, seeds) := Handle(d.active.value, a.choice);
    PutAway(Queue(d, seeds), t1)
  }

  function PutAway(d: Dispatcher, t: Task): Dispatcher {
    if t.state.Done? then d.(released := d.released + [t], active := None)
    else d.(tasks := d.tasks + [t], active := None)
  }

  function AfterLoop(d: Dispatcher, busy: bool): Dispatcher {
    CheckIfDone(
      if d.conn.None? then d
      else d.(idle := !exists t :: t in d.tasks && UsesNetwork(t)),
      busy)
  }

  // ------------------------------------------------------ the loop terminates

  /** An upper bound on how many turns of the loop a task and the children it may yet queue
      in the same run can take. */
  function Weight(t: Task): nat {
    match t.state
    case Ready =>
      (match t.kind
       case Http(_) => 3
       case Notification(_) => 4
       case Decode => 5
       case _ => 1)
    case NeedConnection => 2
    case NeedUserConnection => 2
    case Transmitting => 1
    case Done => 1
    case _ => 0
  }

  function TotalWeight(ts: seq<Task>): nat {
    Sum(ts, Weight)
  }

  lemma LoseNetworkWeight(ts: seq<Task>, imsi: string, c: Choice)
    ensures TotalWeight(LoseNetwork(ts, imsi, c)) <= TotalWeight(ts)
  {
    SumPointwise(LoseNetwork(ts, imsi, c), ts, Weight);
  }

  lemma PrepareConnectionWeight(d: Dispatcher, imsi: string, a: Answer)
    ensures TotalWeight(PrepareConnection(d, imsi, a).tasks) <= TotalWeight(d.tasks)
  {
    if d.conn.Some? {
      LoseNetworkWeight(d.tasks, d.conn.value.imsi, a.choice);
    }
  }

  /** Picking adds no weight, and a task that was picked takes its own along. */
  lemma PickWeight(d: Dispatcher, a: Answer)
    requires d.active.None?
    ensures var d1 := Pick(d, a);
            d1.active.Some? ==>
              TotalWeight(d1.tasks) + Weight(d1.active.value) <= TotalWeight(d.tasks)
  {
    SortTasksIsChain(d.tasks, d.conn);
    SumPermuted(SortTasks(d.tasks, d.conn), d.tasks, Weight);
    PickFirstWeight(Sorted(d), a);
  }

  lemma TakeWeight(d: Dispatcher)
    requires d.tasks != []
    ensures TotalWeight(Take(d).tasks) + Weight(Take(d).active.value) == TotalWeight(d.tasks)
  {
  }

  lemma PickFirstWeight(d: Dispatcher, a: Answer)
    requires d.active.None?
    ensures var d1 := PickFirst(d, a);
            d1.active.Some? ==>
              TotalWeight(d1.tasks) + Weight(d1.active.value) <= TotalWeight(d.tasks)
  {
    if d.tasks != [] {
      TakeWeight(d);
      var d1 := PrepareConnection(d, d.tasks[0].imsi, a);
      PrepareConnectionWeight(d, d.tasks[0].imsi, a);
      TakeWeight(d1);
      assert PickFirst(d, a).active.Some? ==> PickFirst(d, a) == Take(d) || PickFirst(d, a) == Take(d1);
    }
  }

  function SeedWeight(seed: Seed): nat {
    Weight(NewTask(0, seed))
  }

  /** What is left of a task's weight after its turn. */
  function LeftWeight(t: Task): nat {
    if t.state.Done? then 0 else Weight(t)
  }

  lemma HandleWeight(t: Task, c: Choice)
    requires Runnable(t) || Needs(t)
    ensures var (t1, seeds) := Handle(t, c);
            Sum(seeds, SeedWeight) + LeftWeight(t1) < Weight(t)
  {
    if t.state.Ready? {
      var (t1, seeds) := Run(t, c);
      if |seeds| == 2 {
        assert seeds[1..] == [seeds[1]];
        assert Sum(seeds[1..], SeedWeight) == SeedWeight(seeds[1]) + Sum(seeds[1..][1..], SeedWeight);
      }
    }
  }

  lemma {:induction false} ChildrenWeight(seeds: seq<Seed>, first: nat)
    ensures TotalWeight(NewTasks(seeds, first)) == Sum(seeds, SeedWeight)
    decreases |seeds|
  {
    if seeds != [] {
      ChildrenWeight(seeds[1..], first + 1);
      assert NewTasks(seeds, first)[1..] == NewTasks(seeds[1..], first + 1);
    }
  }

  lemma {:induction false} PutAwayWeight(d: Dispatcher, t: Task, seeds: seq<Seed>)
    ensures TotalWeight(PutAway(Queue(d, seeds), t).tasks) ==
            TotalWeight(d.tasks) + Sum(seeds, SeedWeight) + LeftWeight(t)
  {
    SumConcat(d.tasks, NewTasks(seeds, d.created), Weight);
    ChildrenWeight(seeds, d.created);
    SumConcat(Queue(d, seeds).tasks, [t], Weight);
    assert TotalWeight([t]) == Weight(t) + TotalWeight([t][1..]);
  }

  /** A turn of the loop takes at least one unit of weight out, children included. */
  lemma DispatchWeight(d: Dispatcher, a: Answer)
    requires d.active.Some? && (Runnable(d.active.value) || Needs(d.active.value))
    ensures TotalWeight(Dispatch(d, a).tasks) < TotalWeight(d.tasks) + Weight(d.active.value)
  {
    HandleWeight(d.active.value, a.choice);
    var (t1, seeds) := Handle(d.active.value, a.choice);
    PutAwayWeight(d, t1, seeds);
  }

  /** Closing the wrong connection takes nothing from the task that wants another one. */
  lemma PrepareKeepsFirst(d: Dispatcher, a: Answer)
    requires d.tasks != []
    ensures PrepareConnection(d, d.tasks[0].imsi, a).tasks[0] == d.tasks[0]
  {
    if d.conn.Some? && d.conn.value.imsi != d.tasks[0].imsi {
      assert ConnectionLost(d, a).tasks[0] == d.tasks[0];
    }
  }

  lemma PickedCanRun(d: Dispatcher, a: Answer)
    requires d.active.None?
    ensures var t := Pick(d, a).active; t.Some? ==> Runnable(t.value) || Needs(t.value)
  {
    var d1 := Sorted(d);
    if d1.tasks != [] {
      PrepareKeepsFirst(d1, a);
      var d2 := PrepareConnection(d1, d1.tasks[0].imsi, a);
      assert PickFirst(d1, a).active.Some? ==>
               PickFirst(d1, a) == Take(d1) || PickFirst(d1, a) == Take(d2);
    }
  }

  /** The loop of mms_dispatcher_run: pick and dispatch until nothing can be picked. */
  function RunLoop(d: Dispatcher, o: Oracle, turn: nat): (r: Dispatcher)
    requires d.active.None?
    ensures r.active.None?
    decreases TotalWeight(d.tasks)
  {
    var d1 := Pick(d, Nth(o, turn));
    if d1.active.None? then d1
    else
      PickWeight(d, Nth(o, turn));
      PickedCanRun(d, Nth(o, turn));
      DispatchWeight(d1, Nth(o, turn));
      RunLoop(Dispatch(d1, Nth(o, turn)), o, turn + 1)
  }

  /** What is still to come of a run in which `d.active` was just picked. */
  function RestOfLoop(d: Dispatcher, o: Oracle, turn: nat): Dispatcher {
    if d.active.None? then d else RunLoop(Dispatch(d, Nth(o, turn)), o, turn + 1)
  }

  function Left(d: Dispatcher): nat {
    if d.active.None? then 0 else 1 + TotalWeight(d.tasks) + Weight(d.active.value)
  }

  /** One turn and the next pick leave the rest of the run the same and less to do. */
  lemma OneTurn(d: Dispatcher, o: Oracle, turn: nat)
    requires d.active.Some? && (Runnable(d.active.value) || Needs(d.active.value))
    ensures var d1 := Pick(Dispatch(d, Nth(o, turn)), Nth(o, turn + 1));
            && RestOfLoop(d, o, turn) == RestOfLoop(d1, o, turn + 1)
            && (d1.active.Some? ==> Runnable(d1.active.value) || Needs(d1.active.value))
            && Left(d1) < Left(d)
  {
    var d0 := Dispatch(d, Nth(o, turn));
    DispatchWeight(d, Nth(o, turn));
    PickWeight(d0, Nth(o, turn + 1));
    PickedCanRun(d0, Nth(o, turn + 1));
  }

  // --------------------------------------------------- entry points and callbacks

  datatype Event =
    | Submit(seed: Seed)                 // mms_dispatcher_handle_push and its likes
    | Start(dirOk: bool)                 // mms_dispatcher_start
    | RunNow                             // the idle source mms_dispatcher_next_run
    | ConnectionChanged(state: ConnState)
    | IdleTimeout
    | CancelMessage(id: Option<string>)  // mms_dispatcher_cancel
    | ForTask(order: nat, event: TaskEvent)
    | HandlerDone
    | ConnManDone

  predicate MatchesId(t: Task, id: Option<string>) {
    id.None? || id.value == "" || t.id == id.value
  }

  function CancelOne(t: Task, id: Option<string>): Task {
    if MatchesId(t, id) then Cancel(t) else t
  }

  function CancelAll(ts: seq<Task>, id: Option<string>): seq<Task> {
    seq(|ts|, i requires 0 <= i < |ts| => CancelOne(ts[i], id))
  }

  predicate SomeStateChanged(a: seq<Task>, b: seq<Task>)
    requires |a| == |b|
  {
    exists i :: 0 <= i < |a| && a[i].state != b[i].state
  }

  /** Where the task with that number is in the queue; the length of the queue if nowhere. */
  function Find(ts: seq<Task>, order: nat): (i: nat)
    ensures i <= |ts|
    ensures i < |ts| ==> ts[i].order == order
  {
    if ts == [] || ts[0].order == order then 0 else 1 + Find(ts[1..], order)
  }

  /** A connection only moves from OPENING to OPEN or FAILED and from either to CLOSED. */
  predicate CanBecome(from: ConnState, to: ConnState) {
    (from.Opening? && !to.Opening?) || (from.Open? && to.Closed?)
  }

  function Step(d: Dispatcher, e: Event, o: Oracle): (r: Dispatcher)
    requires d.active.None?
    ensures r.active.None?
  {
    match e
    case Submit(seed) => Queue(d, [seed]).(unannounced := true)
    case Start(dirOk) =>
      if dirOk && d.tasks != [] then
        d.(started := true, nextRun := true, starts := d.starts + 1)
      else d
    case RunNow =>
      if d.nextRun then
        AfterLoop(RunLoop(d.(nextRun := false, unannounced := false), o, 1), Nth(o, 0).busy)
      else d
    case ConnectionChanged(state) =>
      if d.conn.Some? && CanBecome(d.conn.value.state, state) then
        var d1 := d.(conn := Some(d.conn.value.(state := state)));
        if state.Open? then d1.(nextRun := true) else ConnectionLost(d1, Nth(o, 0))
      else d
    case IdleTimeout =>
      if d.idle then CloseConnection(d.(idle := false), Nth(o, 0)) else d
    case CancelMessage(id) =>
      var ts := CancelAll(d.tasks, id);
      var d1 := d.(tasks := ts, nextRun := d.nextRun || SomeStateChanged(d.tasks, ts));
      if id.None? then CloseConnection(d1, Nth(o, 0)) else d1
    case ForTask(order, event) =>
      var i := Find(d.tasks, order);
      if i < |d.tasks| && Deliverable(d.tasks[i], event, Nth(o, 0).choice) then
        var (t, seeds) := OnEvent(d.tasks[i], event, Nth(o, 0).choice);
        Queue(d.(tasks := d.tasks[i := t],
                 nextRun := d.nextRun || t.state != d.tasks[i].state || seeds != []), seeds)
      else d
    case HandlerDone => d.(nextRun := true)
    case ConnManDone => CheckIfDone(d, Nth(o, 0).busy)
  }
}
