/** What holds at every step of every run of the dispatcher. */
module DispatcherSafety {
  import opened Common
  import opened Tasks
  import opened TaskLife
  import opened TaskOrder
  import opened DispatcherModel
  import opened Sums

  // ------------------------------------------------------------- the network

  predicate TransmittingFits(ts: seq<Task>, conn: Option<Connection>) {
    && (forall t :: t in ts && t.state.Transmitting? ==>
          IsOpen(conn) && conn.value.imsi == t.imsi)
    && (forall t, u :: t in ts && u in ts && t.state.Transmitting? && u.state.Transmitting? ==>
          t.order == u.order)
  }

  predicate NoneTransmitting(ts: seq<Task>) {
    forall t :: t in ts ==> !t.state.Transmitting?
  }

  /** The task taken from the queue is one that can be handled right away. */
  predicate ActiveOk(d: Dispatcher) {
    d.active.Some? ==>
      var t := d.active.value;
      && TaskOk(t)
      && (Runnable(t) || Needs(t))
      && (Needs(t) ==>
            IsOpen(d.conn) && d.conn.value.imsi == t.imsi && NoneTransmitting(d.tasks))
  }

  /** Holds throughout, also in the middle of a run. */
  predicate NetSafe(d: Dispatcher) {
    && (forall t :: t in d.tasks ==> TaskOk(t))
    && TransmittingFits(d.tasks, d.conn)
    && (d.conn.Some? ==> ConnectionActive(d))
    && (d.idle ==> d.conn.Some?)
    && ActiveOk(d)
    && (forall t :: t in d.released ==> Finished(t))
    && d.doneCalls + (if d.started then 1 else 0) <= d.starts
  }

  // ----------------------------------------------------------- the bookkeeping

  function Numbered(k: nat): Task -> nat {
    (t: Task) => if t.order == k then 1 else 0
  }

  /** In how many places task number `k` is. */
  function Places(d: Dispatcher, k: nat): nat {
    Sum(d.tasks, Numbered(k)) +
    (if d.active.Some? && d.active.value.order == k then 1 else 0) +
    Sum(d.released, Numbered(k))
  }

  /** Every task ever created is in exactly one place: queued, active or released. */
  ghost predicate Books(d: Dispatcher) {
    forall k: nat :: Places(d, k) == if k < d.created then 1 else 0
  }

  lemma SameBooks(d: Dispatcher, r: Dispatcher)
    requires Books(d)
    requires r.tasks == d.tasks && r.active == d.active && r.released == d.released
    requires r.created == d.created
    ensures Books(r)
  {
    forall k: nat
      ensures Places(r, k) == Places(d, k)
    {
    }
  }

  lemma BooksDistinct(d: Dispatcher)
    requires Books(d)
    ensures DistinctOrders(d.tasks)
  {
    forall i, j | 0 <= i < j < |d.tasks|
      ensures d.tasks[i].order != d.tasks[j].order
    {
      var k := d.tasks[i].order;
      SumAtLeast(d.tasks, i, j, Numbered(k));
      assert Places(d, k) <= 1;
    }
  }

  // ------------------------------------------------- losing and closing the connection

  lemma {:induction false} SameNumbers(a: seq<Task>, b: seq<Task>, k: nat)
    requires |a| == |b| && forall i :: 0 <= i < |a| ==> a[i].order == b[i].order
    ensures Sum(a, Numbered(k)) == Sum(b, Numbered(k))
  {
    SumPointwise(a, b, Numbered(k));
    SumPointwise(b, a, Numbered(k));
  }

  lemma {:induction false} LoseNetworkOk(ts: seq<Task>, conn: Connection, c: Choice)
    requires forall t :: t in ts ==> TaskOk(t)
    requires forall t :: t in ts && t.state.Transmitting? ==> conn.imsi == t.imsi
    ensures forall t :: t in LoseNetwork(ts, conn.imsi, c) ==> TaskOk(t) && !t.state.Transmitting?
    ensures forall k: nat :: Sum(LoseNetwork(ts, conn.imsi, c), Numbered(k)) == Sum(ts, Numbered(k))
  {
    var r := LoseNetwork(ts, conn.imsi, c);
    forall i | 0 <= i < |ts|
      ensures TaskOk(r[i]) && !r[i].state.Transmitting? && r[i].order == ts[i].order
    {
      assert ts[i] in ts;
      if UsesNetwork(ts[i]) {
        NetworkUnavailableOk(ts[i], true, c);
      }
    }
    forall k: nat
      ensures Sum(r, Numbered(k)) == Sum(ts, Numbered(k))
    {
      SameNumbers(r, ts, k);
    }
  }

  lemma ConnectionLostOk(d: Dispatcher, a: Answer)
    requires d.active.None? && d.conn.Some? && Books(d) && NetSafe(d.(conn := None, idle := false, tasks := []))
    requires forall t :: t in d.tasks ==> TaskOk(t)
    requires forall t :: t in d.tasks && t.state.Transmitting? ==> d.conn.value.imsi == t.imsi
    ensures var r := ConnectionLost(d, a);
            NetSafe(r) && Books(r) && r.conn.None? && NoneTransmitting(r.tasks)
  {
    LoseNetworkOk(d.tasks, d.conn.value, a.choice);
    var r := ConnectionLost(d, a);
    assert r.tasks == LoseNetwork(d.tasks, d.conn.value.imsi, a.choice);
    forall k: nat
      ensures Places(r, k) == Places(d, k)
    {
    }
  }

  lemma CloseConnectionOk(d: Dispatcher, a: Answer)
    requires d.active.None? && NetSafe(d) && Books(d)
    ensures var r := CloseConnection(d, a);
            NetSafe(r) && Books(r) && (NoneTransmitting(d.tasks) ==> NoneTransmitting(r.tasks))
  {
    if d.conn.Some? {
      if a.closesNow {
        ConnectionLostOk(d, a);
        SameBooks(ConnectionLost(d, a), CloseConnection(d, a));
      } else {
        SameBooks(d, CloseConnection(d, a));
      }
    }
  }

  // ------------------------------------------------------------------- the loop

  lemma SortedOk(d: Dispatcher)
    requires d.active.None? && NetSafe(d) && Books(d)
    ensures NetSafe(Sorted(d)) && Books(Sorted(d)) && Chain(Sorted(d).tasks, d.conn)
    ensures DistinctOrders(Sorted(d).tasks)
  {
    SortTasksIsChain(d.tasks, d.conn);
    forall k: nat
      ensures Places(Sorted(d), k) == Places(d, k)
    {
      SumPermuted(SortTasks(d.tasks, d.conn), d.tasks, Numbered(k));
    }
    BooksDistinct(Sorted(d));
  }

  /** While the connection is open a transmitting task is first in the sorted queue, so
      when another task is first there is none. */
  lemma FirstDecides(d: Dispatcher)
    requires d.tasks != [] && NetSafe(d) && Chain(d.tasks, d.conn) && DistinctOrders(d.tasks)
    requires !d.tasks[0].state.Transmitting?
    ensures NoneTransmitting(d.tasks)
  {
    forall t | t in d.tasks
      ensures !t.state.Transmitting?
    {
      var i :| 0 <= i < |d.tasks| && d.tasks[i] == t;
      if t.state.Transmitting? {
        TransmittingFirst(d.tasks, i, d.conn);
      }
    }
  }

  lemma TakeOk(d: Dispatcher)
    requires d.active.None? && d.tasks != [] && NetSafe(d) && Books(d)
    requires Runnable(d.tasks[0]) || Needs(d.tasks[0])
    requires Needs(d.tasks[0]) ==>
               IsOpen(d.conn) && d.conn.value.imsi == d.tasks[0].imsi && NoneTransmitting(d.tasks)
    ensures NetSafe(Take(d)) && Books(Take(d))
  {
    assert forall t :: t in d.tasks[1..] ==> t in d.tasks;
    assert d.tasks[0] in d.tasks;
    forall k: nat
      ensures Places(Take(d), k) == Places(d, k)
    {
    }
  }

  lemma PrepareConnectionOk(d: Dispatcher, imsi: string, a: Answer)
    requires d.active.None? && NetSafe(d) && Books(d) && NoneTransmitting(d.tasks)
    ensures var r := PrepareConnection(d, imsi, a);
            NetSafe(r) && Books(r) && NoneTransmitting(r.tasks)
  {
    CloseConnectionOk(d, a);
    var d1 := if d.conn.Some? && d.conn.value.imsi != imsi then CloseConnection(d, a) else d;
    var r := PrepareConnection(d, imsi, a);
    SameBooks(d1, r);
  }

  lemma FirstUnavailableOk(d: Dispatcher, c: Choice)
    requires d.active.None? && d.tasks != [] && Needs(d.tasks[0])
    requires NetSafe(d) && Books(d) && NoneTransmitting(d.tasks)
    ensures var r := d.(tasks := [NetworkUnavailable(d.tasks[0], false, c)] + d.tasks[1..]);
            NetSafe(r) && Books(r)
  {
    assert d.tasks[0] in d.tasks;
    NetworkUnavailableOk(d.tasks[0], false, c);
    var r := d.(tasks := [NetworkUnavailable(d.tasks[0], false, c)] + d.tasks[1..]);
    assert forall t :: t in r.tasks ==> t == r.tasks[0] || t in d.tasks;
    forall k: nat
      ensures Places(r, k) == Places(d, k)
    {
      SameNumbers(r.tasks, d.tasks, k);
    }
  }

  lemma PickOk(d: Dispatcher, a: Answer)
    requires d.active.None? && NetSafe(d) && Books(d)
    ensures NetSafe(Pick(d, a)) && Books(Pick(d, a))
  {
    SortedOk(d);
    var d1 := Sorted(d);
    if d1.tasks != [] {
      if Runnable(d1.tasks[0]) {
        TakeOk(d1);
      } else if Needs(d1.tasks[0]) {
        FirstDecides(d1);
        PrepareConnectionOk(d1, d1.tasks[0].imsi, a);
        PrepareKeepsFirst(d1, a);
        var d2 := PrepareConnection(d1, d1.tasks[0].imsi, a);
        if d2.conn.None? {
          FirstUnavailableOk(d2, a.choice);
          SameBooks(d2.(tasks := [NetworkUnavailable(d2.tasks[0], false, a.choice)] + d2.tasks[1..]),
                    Pick(d, a));
        } else if d2.conn.value.imsi == d2.tasks[0].imsi && IsOpen(d2.conn) {
          TakeOk(d2);
        }
      }
    }
  }

  lemma QueueNetSafe(d: Dispatcher, seeds: seq<Seed>)
    requires NetSafe(d)
    ensures NetSafe(Queue(d, seeds))
    ensures forall t :: t in Queue(d, seeds).tasks ==> t in d.tasks || t.state.Ready?
  {
    var r := Queue(d, seeds);
    forall t | t in r.tasks
      ensures t in d.tasks || (TaskOk(t) && t.state.Ready?)
    {
      var i :| 0 <= i < |r.tasks| && r.tasks[i] == t;
    }
  }

  lemma QueueBooks(d: Dispatcher, seeds: seq<Seed>)
    requires Books(d)
    ensures Books(Queue(d, seeds))
  {
    var r := Queue(d, seeds);
    var kids := NewTasks(seeds, d.created);
    forall k: nat
      ensures Places(r, k) == if k < r.created then 1 else 0
    {
      assert Places(d, k) == if k < d.created then 1 else 0;
      SumConcat(d.tasks, kids, Numbered(k));
      ConsecutiveNumbers(kids, d.created, k);
    }
  }

  lemma {:induction false} ConsecutiveNumbers(ts: seq<Task>, first: nat, k: nat)
    requires forall i :: 0 <= i < |ts| ==> ts[i].order == first + i
    ensures Sum(ts, Numbered(k)) == if first <= k < first + |ts| then 1 else 0
  {
    if ts != [] {
      ConsecutiveNumbers(ts[1..], first + 1, k);
    }
  }

  lemma HandleOk(t: Task, c: Choice)
    requires TaskOk(t) && (Runnable(t) || Needs(t))
    ensures var t1 := Handle(t, c).0;
            && t1.order == t.order && t1.imsi == t.imsi
            && (t1.state.Done? ==> Finished(t1))
            && (!t1.state.Done? ==> TaskOk(t1))
            && (t1.state.Transmitting? ==> Needs(t))
  {
    if t.state.Ready? {
      RunOk(t, c);
    } else if Needs(t) {
      TransmitOk(t, c);
    }
  }

  /** The active task, as it is after its turn, is released or goes back to the queue. */
  lemma PutAwayOk(d: Dispatcher, t: Task)
    requires d.active.Some? && t.order == d.active.value.order && NetSafe(d) && Books(d)
    requires if t.state.Done? then Finished(t) else TaskOk(t)
    requires t.state.Transmitting? ==>
               NoneTransmitting(d.tasks) && IsOpen(d.conn) && d.conn.value.imsi == t.imsi
    ensures NetSafe(PutAway(d, t)) && Books(PutAway(d, t))
  {
    var r := PutAway(d, t);
    assert forall u :: u in r.tasks ==> u in d.tasks || u == t;
    forall k: nat
      ensures Places(r, k) == Places(d, k)
    {
      SumConcat(d.tasks, [t], Numbered(k));
      SumConcat(d.released, [t], Numbered(k));
      assert Sum([t], Numbered(k)) == Numbered(k)(t);
    }
  }

  lemma DispatchOk(d: Dispatcher, a: Answer)
    requires d.active.Some? && NetSafe(d) && Books(d)
    ensures NetSafe(Dispatch(d, a)) && Books(Dispatch(d, a)) && Dispatch(d, a).active.None?
  {
    var t := d.active.value;
    var (t1, seeds) := Handle(t, a.choice);
    HandleOk(t, a.choice);
    QueueNetSafe(d, seeds);
    QueueBooks(d, seeds);
    PutAwayOk(Queue(d, seeds), t1);
  }

  // -------------------------------------------------------- when nothing can be picked

  /** What keeps the dispatcher from picking the first task is not up to the dispatcher. */
  predicate Blocked(d: Dispatcher) {
    || d.tasks == []
    || Waiting(d.tasks[0]) || d.tasks[0].state.Transmitting?
    || (Needs(d.tasks[0]) && d.conn.Some? &&
        !(IsOpen(d.conn) && d.conn.value.imsi == d.tasks[0].imsi))
  }

  lemma PickBlocked(d: Dispatcher, a: Answer)
    requires d.active.None? && Pick(d, a).active.None?
    ensures Pick(d, a).nextRun || Blocked(Pick(d, a))
  {
    var d1 := Sorted(d);
    if d1.tasks != [] && Needs(d1.tasks[0]) {
      PrepareKeepsFirst(d1, a);
      var d2 := PrepareConnection(d1, d1.tasks[0].imsi, a);
      assert d2.conn.None? ==> Pick(d, a).nextRun;
    }
  }

  lemma {:induction false} RunLoopOk(d: Dispatcher, o: Oracle, turn: nat)
    requires d.active.None? && NetSafe(d) && Books(d)
    ensures var r := RunLoop(d, o, turn);
            NetSafe(r) && Books(r) && r.active.None? && (r.nextRun || Blocked(r))
            && r.unannounced == d.unannounced
    decreases TotalWeight(d.tasks)
  {
    hide Pick, Dispatch, NetSafe, Books, Blocked, TotalWeight;
    PickOk(d, Nth(o, turn));
    var d1 := Pick(d, Nth(o, turn));
    PickKeepsRest(d, Nth(o, turn));
    if d1.active.None? {
      PickBlocked(d, Nth(o, turn));
    } else {
      PickWeight(d, Nth(o, turn));
      PickedCanRun(d, Nth(o, turn));
      DispatchWeight(d1, Nth(o, turn));
      DispatchOk(d1, Nth(o, turn));
      DispatchUnannounced(d1, Nth(o, turn));
      RunLoopOk(Dispatch(d1, Nth(o, turn)), o, turn + 1);
    }
  }

  lemma DispatchUnannounced(d: Dispatcher, a: Answer)
    requires d.active.Some?
    ensures Dispatch(d, a).unannounced == d.unannounced
  {
    hide Handle;
  }

  lemma PrepareKeepsRest(d: Dispatcher, imsi: string, a: Answer)
    requires d.tasks != []
    ensures var r := PrepareConnection(d, imsi, a);
      && r.unannounced == d.unannounced && r.doneCalls == d.doneCalls && r.started == d.started
      && r.starts == d.starts
  {
    hide LoseNetwork;
  }

  lemma PickKeepsRest(d: Dispatcher, a: Answer)
    ensures var r := Pick(d, a);
      && r.unannounced == d.unannounced && r.doneCalls == d.doneCalls && r.started == d.started
      && r.starts == d.starts
  {
    hide Sorted, PrepareConnection, NetworkUnavailable;
    SortedKeepsRest(d);
    if Sorted(d).tasks != [] {
      PrepareKeepsRest(Sorted(d), Sorted(d).tasks[0].imsi, a);
    }
  }

  lemma SortedKeepsRest(d: Dispatcher)
    ensures Sorted(d) == d.(tasks := Sorted(d).tasks)
  {
  }

  // -------------------------------------------------------------- between the steps

  predicate NetworkUnused(ts: seq<Task>) {
    forall t :: t in ts ==> !UsesNetwork(t)
  }

  /** The invariant between two steps. Unless a run is due, or something was queued from
      outside without starting the dispatcher, the dispatcher waits for something that
      will set off a run. */
  ghost predicate Inv(d: Dispatcher) {
    && d.active.None?
    && NetSafe(d) && Books(d)
    && (d.idle ==> NetworkUnused(d.tasks))
    && (d.nextRun || d.unannounced || Blocked(d))
  }

  lemma AfterLoopOk(d: Dispatcher, busy: bool)
    requires d.active.None? && NetSafe(d) && Books(d)
    requires d.nextRun || d.unannounced || Blocked(d)
    ensures Inv(AfterLoop(d, busy))
  {
    SameBooks(d, AfterLoop(d, busy));
  }

  lemma ConnectionStepOk(d: Dispatcher, state: ConnState, o: Oracle)
    requires Inv(d)
    ensures Inv(Step(d, ConnectionChanged(state), o))
  {
    if d.conn.Some? && CanBecome(d.conn.value.state, state) {
      var d1 := d.(conn := Some(d.conn.value.(state := state)));
      SameBooks(d, d1);
      if state.Open? {
        SameBooks(d, d1.(nextRun := true));
      } else {
        ConnectionLostOk(d1, Nth(o, 0));
      }
    }
  }

  lemma IdleStepOk(d: Dispatcher, o: Oracle)
    requires Inv(d)
    ensures Inv(Step(d, IdleTimeout, o))
  {
    if d.idle {
      var d1 := d.(idle := false);
      SameBooks(d, d1);
      CloseConnectionOk(d1, Nth(o, 0));
    }
  }

  lemma CancelAllOk(d: Dispatcher, id: Option<string>)
    requires Inv(d)
    ensures Inv(d.(tasks := CancelAll(d.tasks, id),
                   nextRun := d.nextRun || SomeStateChanged(d.tasks, CancelAll(d.tasks, id))))
  {
    var ts := CancelAll(d.tasks, id);
    var r := d.(tasks := ts, nextRun := d.nextRun || SomeStateChanged(d.tasks, ts));
    forall i | 0 <= i < |ts|
      ensures TaskOk(ts[i]) && ts[i].order == d.tasks[i].order
      ensures ts[i].state.Done? || ts[i] == d.tasks[i]
    {
      assert d.tasks[i] in d.tasks;
      CancelOk(d.tasks[i]);
    }
    assert forall t :: t in ts ==> TaskOk(t) && (t.state.Done? || t in d.tasks);
    forall k: nat
      ensures Places(r, k) == Places(d, k)
    {
      SameNumbers(ts, d.tasks, k);
    }
    if !r.nextRun && ts != [] {
      assert ts[0].state == d.tasks[0].state;
      assert Blocked(d) ==> ts[0] == d.tasks[0];
    }
  }

  lemma CancelStepOk(d: Dispatcher, id: Option<string>, o: Oracle)
    requires Inv(d)
    ensures Inv(Step(d, CancelMessage(id), o))
  {
    CancelAllOk(d, id);
    var ts := CancelAll(d.tasks, id);
    var d1 := d.(tasks := ts, nextRun := d.nextRun || SomeStateChanged(d.tasks, ts));
    CloseKeepsInv(d1, Nth(o, 0));
  }

  lemma CloseKeepsInv(d: Dispatcher, a: Answer)
    requires Inv(d)
    ensures Inv(CloseConnection(d, a))
  {
    CloseConnectionOk(d, a);
  }

  lemma OnEventKeeps(t: Task, e: TaskEvent, c: Choice)
    requires Deliverable(t, e, c)
    ensures OnEvent(t, e, c).0.order == t.order && OnEvent(t, e, c).0.imsi == t.imsi
  {
    match e
    case Completed(k, status) =>
    case _ =>
  }

  /** One task has changed, without starting to use the network. */
  lemma ReplacedOk(d: Dispatcher, i: nat, t: Task, news: bool)
    requires Inv(d) && i < |d.tasks| && TaskOk(t)
    requires t.order == d.tasks[i].order && t.imsi == d.tasks[i].imsi
    requires t.state.Transmitting? ==> d.tasks[i].state.Transmitting?
    requires Needs(t) ==> Needs(d.tasks[i])
    ensures Inv(d.(tasks := d.tasks[i := t],
                   nextRun := d.nextRun || t.state != d.tasks[i].state || news))
  {
    var r := d.(tasks := d.tasks[i := t], nextRun := d.nextRun || t.state != d.tasks[i].state || news);
    assert d.tasks[i] in d.tasks;
    assert forall u :: u in r.tasks ==> u == t || u in d.tasks;
    forall k: nat
      ensures Places(r, k) == Places(d, k)
    {
      SumReplaced(d.tasks, i, t, Numbered(k));
    }
  }

  lemma TaskStepOk(d: Dispatcher, order: nat, e: TaskEvent, o: Oracle)
    requires Inv(d)
    ensures Inv(Step(d, ForTask(order, e), o))
  {
    var i := Find(d.tasks, order);
    var c := Nth(o, 0).choice;
    if i < |d.tasks| && Deliverable(d.tasks[i], e, c) {
      assert d.tasks[i] in d.tasks;
      OnEventOk(d.tasks[i], e, c);
      OnEventKeeps(d.tasks[i], e, c);
      var (t, seeds) := OnEvent(d.tasks[i], e, c);
      var d1 := d.(tasks := d.tasks[i := t],
                   nextRun := d.nextRun || t.state != d.tasks[i].state || seeds != []);
      ReplacedOk(d, i, t, seeds != []);
      QueueKeepsInv(d1, seeds);
    }
  }

  lemma QueueKeepsInv(d: Dispatcher, seeds: seq<Seed>)
    requires Inv(d) && (seeds == [] || d.nextRun || d.unannounced)
    ensures Inv(Queue(d, seeds))
  {
    QueueNetSafe(d, seeds);
    QueueBooks(d, seeds);
    if seeds == [] {
      assert Queue(d, seeds) == d;
    }
  }

  /** Every step keeps the invariant. */
  lemma StepOk(d: Dispatcher, e: Event, o: Oracle)
    requires Inv(d)
    ensures Inv(Step(d, e, o))
  {
    match e
    case Submit(seed) =>
      SameBooks(d, d.(unannounced := true));
      QueueKeepsInv(d.(unannounced := true), [seed]);
    case RunNow =>
      if d.nextRun {
        var d1 := d.(nextRun := false, unannounced := false);
        SameBooks(d, d1);
        RunLoopOk(d1, o, 1);
        AfterLoopOk(RunLoop(d1, o, 1), Nth(o, 0).busy);
      }
    case ConnectionChanged(state) => ConnectionStepOk(d, state, o);
    case IdleTimeout => IdleStepOk(d, o);
    case CancelMessage(id) => CancelStepOk(d, id, o);
    case ForTask(order, event) => TaskStepOk(d, order, event, o);
    case _ => SameBooks(d, Step(d, e, o));
  }

  // ------------------------------------------------------------------ every run

  /** The dispatcher after a sequence of events. */
  function After(d: Dispatcher, events: seq<(Event, Oracle)>): Dispatcher
    requires d.active.None?
    decreases |events|
  {
    if events == [] then d else After(Step(d, events[0].0, events[0].1), events[1..])
  }

  lemma {:induction false} AfterOk(d: Dispatcher, events: seq<(Event, Oracle)>)
    requires Inv(d)
    ensures Inv(After(d, events))
    decreases |events|
  {
    if events != [] {
      StepOk(d, events[0].0, events[0].1);
      AfterOk(Step(d, events[0].0, events[0].1), events[1..]);
    }
  }

  lemma {:induction false} EveryRunInv(events: seq<(Event, Oracle)>)
    ensures Inv(After(INITIAL, events))
  {
    assert forall k: nat :: Places(INITIAL, k) == 0;
    AfterOk(INITIAL, events);
  }

  /** After any events whatsoever: at most one task is transmitting, over the dispatcher's
      own connection, which is open and belongs to that task's SIM; the idle timer only
      runs while there is a connection nobody uses; and each task created is in exactly
      one of queue and released list, the released ones being finished. */
  lemma {:induction false} EveryRun(events: seq<(Event, Oracle)>)
    ensures var d := After(INITIAL, events);
      && d.active.None?
      && (forall i, j :: 0 <= i < j < |d.tasks| ==>
            !(d.tasks[i].state.Transmitting? && d.tasks[j].state.Transmitting?))
      && (forall t :: t in d.tasks && t.state.Transmitting? ==>
            d.conn == Some(Connection(t.imsi, Open)))
      && (d.idle ==> d.conn.Some? && NetworkUnused(d.tasks))
      && (forall k: nat :: Sum(d.tasks, Numbered(k)) + Sum(d.released, Numbered(k)) ==
                           if k < d.created then 1 else 0)
      && (forall t :: t in d.released ==> Finished(t))
      && (forall t :: t in d.tasks ==> TaskOk(t))
  {
    EveryRunInv(events);
    var d := After(INITIAL, events);
    BooksDistinct(d);
    forall k: nat
      ensures Sum(d.tasks, Numbered(k)) + Sum(d.released, Numbered(k)) ==
              if k < d.created then 1 else 0
    {
      assert Places(d, k) == if k < d.created then 1 else 0;
    }
  }

  /** No wakeup is lost: unless a run is due or something was queued from outside since the
      last one, the queue is empty or its first task waits for the outside world. */
  lemma {:induction false} NoLostWakeup(events: seq<(Event, Oracle)>)
    ensures var d := After(INITIAL, events);
            d.nextRun || d.unannounced || Blocked(d)
  {
    EveryRunInv(events);
  }

  lemma {:induction false} LoopLeavesChain(d: Dispatcher, o: Oracle, turn: nat)
    requires d.active.None? && NetSafe(d) && Books(d)
    ensures var r := RunLoop(d, o, turn);
            r.nextRun || r.tasks == [] || !Waiting(r.tasks[0]) || Chain(r.tasks, r.conn)
    decreases TotalWeight(d.tasks)
  {
    PickOk(d, Nth(o, turn));
    SortedOk(d);
    var d1 := Pick(d, Nth(o, turn));
    if d1.active.Some? {
      PickWeight(d, Nth(o, turn));
      PickedCanRun(d, Nth(o, turn));
      DispatchWeight(d1, Nth(o, turn));
      DispatchOk(d1, Nth(o, turn));
      LoopLeavesChain(Dispatch(d1, Nth(o, turn)), o, turn + 1);
    } else if Sorted(d).tasks != [] && Needs(Sorted(d).tasks[0]) {
      PrepareKeepsFirst(Sorted(d), Nth(o, turn));
      var d2 := PrepareConnection(Sorted(d), Sorted(d).tasks[0].imsi, Nth(o, turn));
      assert d2.conn.None? ==> d1.nextRun;
    }
  }

  /** When a run ends with nothing but waiting in front, no task of that priority could
      have been run instead and none of a higher priority is left. */
  lemma NothingLeftToRun(d: Dispatcher, o: Oracle)
    requires Inv(d) && d.nextRun
    ensures var r := Step(d, RunNow, o);
            !r.nextRun && r.tasks != [] && Waiting(r.tasks[0]) ==>
              forall t :: t in r.tasks ==>
                t.priority <= r.tasks[0].priority &&
                (t.priority == r.tasks[0].priority ==> Waiting(t))
  {
    hide RunLoop, Books, Blocked, Chain;
    var d1 := d.(nextRun := false, unannounced := false);
    SameBooks(d, d1);
    RunLoopOk(d1, o, 1);
    LoopLeavesChain(d1, o, 1);
    var r := Step(d, RunNow, o);
    BooksDistinct(RunLoop(d1, o, 1));
    if !r.nextRun && r.tasks != [] && Waiting(r.tasks[0]) {
      forall t | t in r.tasks
        ensures t.priority <= r.tasks[0].priority
        ensures t.priority == r.tasks[0].priority ==> Waiting(t)
      {
        var i :| 0 <= i < |r.tasks| && r.tasks[i] == t;
        NothingOverlooked(r.tasks, i, r.conn);
      }
    }
  }

  // ------------------------------------------------------------- when all is done

  lemma {:induction false} LoopNeverDone(d: Dispatcher, o: Oracle, turn: nat)
    requires d.active.None?
    ensures RunLoop(d, o, turn).doneCalls == d.doneCalls
    ensures RunLoop(d, o, turn).started == d.started && RunLoop(d, o, turn).starts == d.starts
    decreases TotalWeight(d.tasks)
  {
    hide Pick, TotalWeight;
    var d1 := Pick(d, Nth(o, turn));
    PickKeepsRest(d, Nth(o, turn));
    if d1.active.Some? {
      PickWeight(d, Nth(o, turn));
      PickedCanRun(d, Nth(o, turn));
      DispatchWeight(d1, Nth(o, turn));
      LoopNeverDone(Dispatch(d1, Nth(o, turn)), o, turn + 1);
    }
  }

  /** The delegate was told nothing, or once and with nothing left to do; being told is what
      stops the dispatcher. */
  predicate ToldRightly(d: Dispatcher, r: Dispatcher) {
    || (r.doneCalls == d.doneCalls && r.started == d.started)
    || (r.doneCalls == d.doneCalls + 1 && d.started && !r.started && r.tasks == [] && r.conn.None?)
  }

  lemma ConnectionLostTells(d: Dispatcher, a: Answer)
    requires d.conn.Some?
    ensures ToldRightly(d, ConnectionLost(d, a))
  {
  }

  lemma CloseTells(d: Dispatcher, a: Answer)
    requires d.active.None? && (d.conn.Some? ==> ConnectionActive(d))
    ensures ToldRightly(d, CloseConnection(d, a))
  {
    if d.conn.Some? {
      ConnectionLostTells(d, a);
    }
  }

  lemma NothingTold(d: Dispatcher, r: Dispatcher)
    requires r.doneCalls == d.doneCalls && r.started == d.started
    ensures ToldRightly(d, r)
  {
  }

  lemma CheckTells(d: Dispatcher, busy: bool)
    requires d.active.None? && (d.conn.Some? ==> ConnectionActive(d))
    ensures ToldRightly(d, CheckIfDone(d, busy))
  {
  }

  lemma ConnManTells(d: Dispatcher, o: Oracle)
    requires Inv(d)
    ensures ToldRightly(d, Step(d, ConnManDone, o))
  {
    hide Books, Blocked;
    CheckTells(d, Nth(o, 0).busy);
  }

  lemma RunTells(d: Dispatcher, o: Oracle)
    requires Inv(d)
    ensures ToldRightly(d, Step(d, RunNow, o))
  {
    hide RunLoop, Blocked;
    if d.nextRun {
      var d1 := d.(nextRun := false, unannounced := false);
      SameBooks(d, d1);
      LoopNeverDone(d1, o, 1);
      RunLoopOk(d1, o, 1);
      hide Books;
      var r := RunLoop(d1, o, 1);
      CheckTells(if r.conn.None? then r else r.(idle := !exists t :: t in r.tasks && UsesNetwork(t)), Nth(o, 0).busy);
    }
  }

  lemma ConnectionTells(d: Dispatcher, state: ConnState, o: Oracle)
    requires d.active.None?
    ensures ToldRightly(d, Step(d, ConnectionChanged(state), o))
  {
    hide ConnectionLost;
    if d.conn.Some? && CanBecome(d.conn.value.state, state) && !state.Open? {
      ConnectionLostTells(d.(conn := Some(d.conn.value.(state := state))), Nth(o, 0));
    }
  }

  lemma IdleTells(d: Dispatcher, o: Oracle)
    requires Inv(d)
    ensures ToldRightly(d, Step(d, IdleTimeout, o))
  {
    hide CloseConnection, Books, Blocked;
    if d.idle {
      CloseTells(d.(idle := false), Nth(o, 0));
    }
  }

  lemma CancelTells(d: Dispatcher, id: Option<string>, o: Oracle)
    requires Inv(d)
    ensures ToldRightly(d, Step(d, CancelMessage(id), o))
  {
    hide CloseConnection, Books, Blocked;
    var ts := CancelAll(d.tasks, id);
    CloseTells(d.(tasks := ts, nextRun := d.nextRun || SomeStateChanged(d.tasks, ts)), Nth(o, 0));
  }

  lemma TaskTells(d: Dispatcher, order: nat, e: TaskEvent, o: Oracle)
    requires d.active.None?
    ensures ToldRightly(d, Step(d, ForTask(order, e), o))
  {
    hide OnEvent, Deliverable;
  }

  lemma StepTells(d: Dispatcher, e: Event, o: Oracle)
    requires Inv(d) && Inv(Step(d, e, o))
    ensures e.Start? || ToldRightly(d, Step(d, e, o))
    ensures e.Start? ==> Step(d, e, o).doneCalls == d.doneCalls
  {
    hide Inv, ToldRightly;
    match e
    case Submit(seed) => NothingTold(d, Step(d, e, o));
    case Start(_) =>
    case RunNow => RunTells(d, o);
    case ConnectionChanged(state) => ConnectionTells(d, state, o);
    case IdleTimeout => IdleTells(d, o);
    case CancelMessage(id) => CancelTells(d, id, o);
    case ForTask(order, event) => TaskTells(d, order, event, o);
    case HandlerDone => NothingTold(d, Step(d, e, o));
    case ConnManDone => ConnManTells(d, o);
  }

  /** The delegate is told at most once in a step and at most once for each start, and at
      that moment every task ever created, children included, has been released exactly
      once and there is no connection left. */
  lemma DoneMeansDone(d: Dispatcher, e: Event, o: Oracle)
    requires Inv(d)
    ensures var r := Step(d, e, o);
      && d.doneCalls <= r.doneCalls <= d.doneCalls + 1
      && r.doneCalls <= r.starts
      && (r.doneCalls > d.doneCalls ==>
            && d.started && !r.started && r.tasks == [] && r.conn.None?
            && forall k: nat :: Sum(r.released, Numbered(k)) == if k < r.created then 1 else 0)
  {
    StepOk(d, e, o);
    StepTells(d, e, o);
    var r := Step(d, e, o);
    if r.doneCalls > d.doneCalls {
      forall k: nat
        ensures Sum(r.released, Numbered(k)) == if k < r.created then 1 else 0
      {
        assert Places(r, k) == if k < r.created then 1 else 0;
      }
    }
  }

  // -------------------------------------------------------- the end is always noticed

  /** The steps that look whether everything is done. */
  predicate Checks(d: Dispatcher, e: Event) {
    match e
    case RunNow => d.nextRun
    case ConnectionChanged(state) => d.conn.Some? && CanBecome(d.conn.value.state, state) && !state.Open?
    case IdleTimeout => d.idle
    case CancelMessage(id) => id.None? && d.conn.Some?
    case ConnManDone => true
    case _ => false
  }

  predicate NothingLeft(d: Dispatcher) {
    d.tasks == [] && d.conn.None?
  }

  /** Told exactly when there is someone to tell and nothing left to do. */
  predicate ToldExactly(d: Dispatcher, r: Dispatcher, busy: bool) {
    var told := d.started && !busy && NothingLeft(r);
    && r.doneCalls == d.doneCalls + (if told then 1 else 0)
    && r.started == (d.started && !told)
  }

  predicate Alive(d: Dispatcher) {
    d.active.None? && (d.conn.Some? ==> ConnectionActive(d))
  }

  lemma CheckExactly(d: Dispatcher, busy: bool)
    requires Alive(d)
    ensures ToldExactly(d, CheckIfDone(d, busy), busy)
    ensures !busy && NothingLeft(d) ==> !CheckIfDone(d, busy).nextRun
  {
  }

  lemma LostExactly(d: Dispatcher, a: Answer)
    requires d.active.None? && d.conn.Some? && !ConnectionActive(d)
    ensures ToldExactly(d, ConnectionLost(d, a), a.busy) && Alive(ConnectionLost(d, a))
    ensures ConnectionLost(d, a).conn.None?
  {
  }

  lemma CloseExactly(d: Dispatcher, a: Answer)
    requires Alive(d) && d.conn.Some?
    ensures ToldExactly(d, CloseConnection(d, a), a.busy)
  {
    if a.closesNow {
      assert |LoseNetwork(d.tasks, d.conn.value.imsi, a.choice)| == |d.tasks|;
    }
  }

  lemma InvAlive(d: Dispatcher)
    requires Inv(d)
    ensures Alive(d) && (d.idle ==> d.conn.Some?)
  {
  }

  lemma RunExactly(d: Dispatcher, o: Oracle)
    requires Inv(d) && d.nextRun
    ensures ToldExactly(d, Step(d, RunNow, o), Nth(o, 0).busy)
  {
    hide RunLoop, Blocked, Books;
    var d1 := d.(nextRun := false, unannounced := false);
    assert Books(d1) by {
      SameBooks(d, d1);
    }
    LoopNeverDone(d1, o, 1);
    RunLoopOk(d1, o, 1);
    var r := RunLoop(d1, o, 1);
    CheckExactly(if r.conn.None? then r else r.(idle := !exists t :: t in r.tasks && UsesNetwork(t)), Nth(o, 0).busy);
  }

  /** In a step that looks, the delegate is told exactly when the dispatcher was started, nobody
      is busy and nothing is left, and that stops the dispatcher; in the other steps nothing is
      told and nothing stops. */
  lemma StepToldExactly(d: Dispatcher, e: Event, o: Oracle)
    requires Inv(d)
    ensures var r := Step(d, e, o);
      if Checks(d, e) then ToldExactly(d, r, Nth(o, 0).busy)
      else r.doneCalls == d.doneCalls && (r.started == d.started || e.Start?)
  {
    hide Inv, ConnectionLost, CloseConnection, CheckIfDone, RunLoop, OnEvent, ToldExactly;
    InvAlive(d);
    match e
    case RunNow =>
      if d.nextRun {
        RunExactly(d, o);
      }
    case ConnectionChanged(state) =>
      if Checks(d, e) {
        var d1 := d.(conn := Some(d.conn.value.(state := state)));
        LostExactly(d1, Nth(o, 0));
        SameTold(d, d1, Step(d, e, o), Nth(o, 0).busy);
      }
    case IdleTimeout =>
      if d.idle {
        CloseExactly(d.(idle := false), Nth(o, 0));
        SameTold(d, d.(idle := false), Step(d, e, o), Nth(o, 0).busy);
      }
    case CancelMessage(id) =>
      var ts := CancelAll(d.tasks, id);
      var d1 := d.(tasks := ts, nextRun := d.nextRun || SomeStateChanged(d.tasks, ts));
      if d.conn.Some? {
        CloseExactly(d1, Nth(o, 0));
      } else {
        NotClosed(d1, Nth(o, 0));
      }
      SameTold(d, d1, Step(d, e, o), Nth(o, 0).busy);
    case ConnManDone => CheckExactly(d, Nth(o, 0).busy);
    case _ =>
  }

  lemma NotClosed(d: Dispatcher, a: Answer)
    requires d.conn.None?
    ensures CloseConnection(d, a) == d
  {
  }

  lemma SameTold(d: Dispatcher, d1: Dispatcher, r: Dispatcher, busy: bool)
    requires d1.doneCalls == d.doneCalls && d1.started == d.started
    ensures ToldExactly(d1, r, busy) == ToldExactly(d, r, busy)
  {
  }

  /** A started dispatcher with nothing left to do is about to run, or waits for somebody who is
      busy; one that was started and is not any more has told its delegate. */
  predicate EndNoticed(d: Dispatcher, waiting: bool) {
    && (d.started && NothingLeft(d) ==> d.nextRun || waiting)
    && (d.starts > 0 && !d.started ==> d.doneCalls > 0)
  }

  /** Somebody was busy when it was asked whether everything is done, and has not said since
      that he is not any more. */
  function WaitsAfter(d: Dispatcher, waiting: bool, e: Event, o: Oracle): bool {
    if e.HandlerDone? then false
    else if Checks(d, e) then Nth(o, 0).busy
    else waiting
  }

  function Waits(d: Dispatcher, waiting: bool, events: seq<(Event, Oracle)>): bool
    requires d.active.None?
    decreases |events|
  {
    if events == [] then waiting
    else
      var (e, o) := events[0];
      Waits(Step(d, e, o), WaitsAfter(d, waiting, e, o), events[1..])
  }

  lemma StepNotices(d: Dispatcher, waiting: bool, e: Event, o: Oracle)
    requires Inv(d) && EndNoticed(d, waiting)
    ensures EndNoticed(Step(d, e, o), WaitsAfter(d, waiting, e, o))
  {
    StepToldExactly(d, e, o);
    StartsKept(d, e, o);
    if !Checks(d, e) {
      KeepsGoing(d, waiting, e, o);
    }
  }

  lemma CloseStarts(d: Dispatcher, a: Answer)
    ensures CloseConnection(d, a).starts == d.starts
    ensures d.conn.Some? ==> ConnectionLost(d, a).starts == d.starts
  {
    hide LoseNetwork;
  }

  lemma StartsKept(d: Dispatcher, e: Event, o: Oracle)
    requires Inv(d)
    ensures Step(d, e, o).starts == d.starts || (e.Start? && Step(d, e, o).started)
  {
    hide Inv, RunLoop, ConnectionLost, CloseConnection, OnEvent, Deliverable;
    InvAlive(d);
    match e
    case RunNow => LoopNeverDone(d.(nextRun := false, unannounced := false), o, 1);
    case ConnectionChanged(state) =>
      if Checks(d, e) {
        CloseStarts(d.(conn := Some(d.conn.value.(state := state))), Nth(o, 0));
      }
    case IdleTimeout => CloseStarts(d.(idle := false), Nth(o, 0));
    case CancelMessage(id) =>
      var ts := CancelAll(d.tasks, id);
      CloseStarts(d.(tasks := ts, nextRun := d.nextRun || SomeStateChanged(d.tasks, ts)), Nth(o, 0));
    case _ =>
  }

  lemma KeepsGoing(d: Dispatcher, waiting: bool, e: Event, o: Oracle)
    requires Inv(d) && EndNoticed(d, waiting) && !Checks(d, e)
    ensures var r := Step(d, e, o);
      r.started && NothingLeft(r) ==> r.nextRun || WaitsAfter(d, waiting, e, o)
  {
    hide Inv, OnEvent, Deliverable, RunLoop;
  }

  lemma {:induction false} AfterNotices(d: Dispatcher, waiting: bool, events: seq<(Event, Oracle)>)
    requires Inv(d) && EndNoticed(d, waiting)
    ensures EndNoticed(After(d, events), Waits(d, waiting, events))
    decreases |events|
  {
    hide Inv, EndNoticed, WaitsAfter, Step;
    if events != [] {
      var (e, o) := events[0];
      InvAlive(d);
      StepOk(d, e, o);
      StepNotices(d, waiting, e, o);
      AfterNotices(Step(d, e, o), WaitsAfter(d, waiting, e, o), events[1..]);
    }
  }

  /** The end does not go unnoticed: after any events, a dispatcher with no task and no connection
      left has told its delegate, or a run is due that will, or somebody was busy and is still to
      say that he is done; and whenever it was started and is not any more, it has told. */
  lemma {:induction false} EveryRunTells(events: seq<(Event, Oracle)>)
    ensures EndNoticed(After(INITIAL, events), Waits(INITIAL, false, events))
  {
    EveryRunInv([]);
    assert After(INITIAL, []) == INITIAL;
    AfterNotices(INITIAL, false, events);
  }

  /** Starting with something to do, and somewhere to do it, schedules a run; otherwise nothing
      happens. */
  lemma StartExactly(d: Dispatcher, dirOk: bool, o: Oracle)
    requires d.active.None?
    ensures var r := Step(d, Start(dirOk), o);
      if dirOk && d.tasks != [] then
        r.started && r.nextRun && r.starts == d.starts + 1 && r.tasks == d.tasks && r.conn == d.conn
      else r == d
  {
  }

  // ------------------------------------------------------------- the idle timer

  /** After a run the idle timer is armed exactly when there is a connection that no task uses
      or wants. */
  lemma IdleAfterRun(d: Dispatcher, o: Oracle)
    requires Inv(d) && d.nextRun
    ensures var r := Step(d, RunNow, o);
      r.idle <==> r.conn.Some? && NetworkUnused(r.tasks)
  {
    hide RunLoop, Blocked, Books;
    var d1 := d.(nextRun := false, unannounced := false);
    assert Books(d1) by {
      SameBooks(d, d1);
    }
    RunLoopOk(d1, o, 1);
  }
}
