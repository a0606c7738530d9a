/** What becomes of the tasks of the dispatcher: none is lost or changes its identity, a message
    that was understood is published and acknowledged, and a cancel hits what it should. */
module DispatcherTasks {
  import opened Common
  import opened Tasks
  import opened TaskLife
  import opened TaskOrder
  import opened DispatcherModel
  import opened DispatcherSafety
  import E = TaskEffects

  // --------------------------------------------------------- no task is ever lost

  /** Somewhere with the dispatcher: queued, active or let go. */
  predicate In(d: Dispatcher, t: Task) {
    t in d.tasks || t in d.released || d.active == Some(t)
  }

  /** The same task later on. Only a notification takes another message id, the one that the
      handler answers with. */
  predicate Alike(a: Task, b: Task) {
    SameTask(a, b) && (a.id == b.id || a.kind.Notification?)
  }

  ghost predicate Has(d: Dispatcher, t: Task) {
    exists u :: In(d, u) && Alike(t, u)
  }

  ghost predicate Kept(d: Dispatcher, r: Dispatcher) {
    && (forall t :: In(d, t) ==> Has(r, t))
    && (forall t :: t in d.released ==> t in r.released)
  }

  lemma KeptTwice(a: Dispatcher, b: Dispatcher, c: Dispatcher)
    requires Kept(a, b) && Kept(b, c)
    ensures Kept(a, c)
  {
    forall t | In(a, t)
      ensures Has(c, t)
    {
      var u :| In(b, u) && Alike(t, u);
      var v :| In(c, v) && Alike(u, v);
    }
  }

  lemma SameKept(d: Dispatcher, r: Dispatcher)
    requires forall t :: In(d, t) ==> In(r, t)
    requires d.released <= r.released
    ensures Kept(d, r)
  {
    assert forall t :: Alike(t, t);
  }

  /** Tasks may change in place. */
  lemma PointwiseKept(d: Dispatcher, r: Dispatcher)
    requires |r.tasks| == |d.tasks| && r.released == d.released && r.active == d.active
    requires forall i :: 0 <= i < |d.tasks| ==> Alike(d.tasks[i], r.tasks[i])
    ensures Kept(d, r)
  {
    forall t | In(d, t)
      ensures Has(r, t)
    {
      if t in d.tasks {
        var i :| 0 <= i < |d.tasks| && d.tasks[i] == t;
        assert In(r, r.tasks[i]);
      } else {
        assert In(r, t) && Alike(t, t);
      }
    }
  }

  lemma SleepAlike(t: Task, s: TaskState, c: Choice)
    ensures Alike(t, SetState(t, s, c)) && Alike(t, Retry(t, c))
  {
  }

  lemma RunAlike(t: Task, c: Choice)
    ensures Alike(t, Run(t, c).0)
  {
    hide Retry, SetState, Rejection;
  }

  lemma EventAlike(t: Task, e: TaskEvent, c: Choice)
    requires Deliverable(t, e, c)
    ensures Alike(t, OnEvent(t, e, c).0)
  {
    hide Retry, SetState, SetHttpState, Rejection;
    match e
    case WriteFailed => SleepAlike(SetHttpState(FinishTransfer(t), HttpPaused, Successful), Sleep, c);
    case Completed(k, status) =>
    case _ =>
  }

  lemma TransmitAlike(t: Task, c: Choice)
    ensures Alike(t, Transmit(t, c))
  {
    hide SetState, SetHttpState;
  }

  lemma CancelAlike(t: Task)
    ensures Alike(t, Cancel(t))
  {
    hide SetHttpState;
  }

  lemma LossAlike(t: Task, c: Choice, canRetry: bool)
    ensures Alike(t, NetworkUnavailable(t, canRetry, c)) && Alike(t, Cancel(t))
  {
    hide SetState, Cancel;
    CancelAlike(t);
    SleepAlike(FinishTransfer(t), Sleep, c);
  }

  lemma LosePointwise(ts: seq<Task>, imsi: string, c: Choice)
    ensures forall i :: 0 <= i < |ts| ==> Alike(ts[i], LoseNetwork(ts, imsi, c)[i])
  {
    forall i | 0 <= i < |ts|
      ensures Alike(ts[i], LoseNetwork(ts, imsi, c)[i])
    {
      LossAlike(ts[i], c, true);
    }
  }

  lemma LostKept(d: Dispatcher, a: Answer)
    requires d.conn.Some?
    ensures Kept(d, ConnectionLost(d, a)) && ConnectionLost(d, a).released == d.released
  {
    hide LoseNetwork, Alike;
    LosePointwise(d.tasks, d.conn.value.imsi, a.choice);
    PointwiseKept(d, ConnectionLost(d, a));
  }

  lemma CloseKept(d: Dispatcher, a: Answer)
    ensures Kept(d, CloseConnection(d, a)) && CloseConnection(d, a).released == d.released
  {
    hide ConnectionLost, Kept;
    if d.conn.Some? && a.closesNow {
      LostKept(d, a);
      TasksKept(d, ConnectionLost(d, a), CloseConnection(d, a));
    } else {
      SameKept(d, CloseConnection(d, a));
    }
  }

  lemma TasksKept(d: Dispatcher, d1: Dispatcher, r: Dispatcher)
    requires Kept(d, d1) && r.tasks == d1.tasks && r.released == d1.released && r.active == d1.active
    ensures Kept(d, r)
  {
    SameKept(d1, r);
    KeptTwice(d, d1, r);
  }

  lemma PrepareKept(d: Dispatcher, imsi: string, a: Answer)
    ensures Kept(d, PrepareConnection(d, imsi, a)) && PrepareConnection(d, imsi, a).released == d.released
  {
    hide CloseConnection, Kept;
    var d1 := if d.conn.Some? && d.conn.value.imsi != imsi then CloseConnection(d, a) else d;
    CloseKept(d, a);
    SameKept(d, d);
    TasksKept(d, d1, PrepareConnection(d, imsi, a));
  }

  lemma TakeKept(d: Dispatcher)
    requires d.tasks != [] && d.active.None?
    ensures Kept(d, Take(d))
  {
    assert forall t :: t in d.tasks ==> t == d.tasks[0] || t in d.tasks[1..];
    SameKept(d, Take(d));
  }

  lemma UseKept(d: Dispatcher, c: Choice)
    requires d.tasks != [] && d.active.None?
    ensures Kept(d, UseConnection(d, c))
  {
    hide Kept, Alike;
    TakeKept(d);
    SameKept(d, d);
    LossAlike(d.tasks[0], c, false);
    if d.conn.None? {
      SelfAlike();
      PointwiseKept(d, UseConnection(d, c));
    }
  }

  lemma SelfAlike()
    ensures forall t :: Alike(t, t)
  {
  }

  lemma PickKept(d: Dispatcher, a: Answer)
    requires d.active.None?
    ensures Kept(d, Pick(d, a)) && Pick(d, a).released == d.released
  {
    hide Kept, PrepareConnection, UseConnection, SortTasks;
    SortTasksIsChain(d.tasks, d.conn);
    var d1 := Sorted(d);
    SameKept(d, d1);
    SameKept(d1, d1);
    if d1.tasks != [] {
      TakeKept(d1);
      var d2 := PrepareConnection(d1, d1.tasks[0].imsi, a);
      PrepareKept(d1, d1.tasks[0].imsi, a);
      UseKept(d2, a.choice);
      UseReleased(d2, a.choice);
      KeptTwice(d1, d2, UseConnection(d2, a.choice));
    }
    KeptTwice(d, d1, Pick(d, a));
  }

  lemma UseReleased(d: Dispatcher, c: Choice)
    requires d.tasks != []
    ensures UseConnection(d, c).released == d.released
  {
    hide NetworkUnavailable;
  }

  lemma HandleAlike(t: Task, c: Choice)
    ensures Alike(t, Handle(t, c).0)
  {
    if t.state.Ready? {
      RunAlike(t, c);
    } else if Needs(t) {
      TransmitAlike(t, c);
    }
  }

  lemma DispatchKept(d: Dispatcher, a: Answer)
    requires d.active.Some?
    ensures Kept(d, Dispatch(d, a))
  {
    hide Handle, Alike;
    SelfAlike();
    var t := d.active.value;
    HandleAlike(t, a.choice);
    var r := Dispatch(d, a);
    var t1 := Handle(t, a.choice).0;
    assert In(r, t1);
    forall u | In(d, u)
      ensures Has(r, u)
    {
      if u != t {
        assert In(r, u);
      }
    }
  }

  lemma PutAwayEnds(d: Dispatcher, a: Answer)
    requires d.active.Some?
    ensures Dispatch(d, a).active.None?
  {
    hide Handle;
  }

  lemma {:induction false} LoopKept(d: Dispatcher, o: Oracle, turn: nat)
    requires d.active.None?
    ensures Kept(d, RunLoop(d, o, turn))
    decreases TotalWeight(d.tasks)
  {
    hide Pick, Dispatch, TotalWeight, Kept;
    var d1 := Pick(d, Nth(o, turn));
    PickKept(d, Nth(o, turn));
    if d1.active.Some? {
      PickWeight(d, Nth(o, turn));
      PickedCanRun(d, Nth(o, turn));
      DispatchWeight(d1, Nth(o, turn));
      var d2 := Dispatch(d1, Nth(o, turn));
      DispatchKept(d1, Nth(o, turn));
      PutAwayEnds(d1, Nth(o, turn));
      LoopKept(d2, o, turn + 1);
      KeptTwice(d, d1, d2);
      KeptTwice(d, d2, RunLoop(d2, o, turn + 1));
    }
  }

  lemma QueueKept(d: Dispatcher, seeds: seq<Seed>)
    ensures Kept(d, Queue(d, seeds))
  {
    SameKept(d, Queue(d, seeds));
  }

  lemma TaskStepKept(d: Dispatcher, order: nat, e: TaskEvent, o: Oracle)
    requires d.active.None?
    ensures Kept(d, Step(d, ForTask(order, e), o))
  {
    hide Kept, Alike, OnEvent, Queue;
    var i := Find(d.tasks, order);
    var c := Nth(o, 0).choice;
    SameKept(d, d);
    if i < |d.tasks| && Deliverable(d.tasks[i], e, c) {
      var (t, seeds) := OnEvent(d.tasks[i], e, c);
      EventAlike(d.tasks[i], e, c);
      SelfAlike();
      var d1 := d.(tasks := d.tasks[i := t],
                   nextRun := d.nextRun || t.state != d.tasks[i].state || seeds != []);
      PointwiseKept(d, d1);
      QueueKept(d1, seeds);
      KeptTwice(d, d1, Queue(d1, seeds));
    }
  }

  lemma CancelStepKept(d: Dispatcher, id: Option<string>, o: Oracle)
    requires d.active.None?
    ensures Kept(d, Step(d, CancelMessage(id), o))
  {
    hide Kept, Cancel, CloseConnection, Alike;
    var ts := CancelAll(d.tasks, id);
    var d1 := d.(tasks := ts, nextRun := d.nextRun || SomeStateChanged(d.tasks, ts));
    SelfAlike();
    forall i | 0 <= i < |d.tasks|
      ensures Alike(d.tasks[i], ts[i])
    {
      LossAlike(d.tasks[i], Nth(o, 0).choice, true);
    }
    PointwiseKept(d, d1);
    CloseKept(d1, Nth(o, 0));
    KeptTwice(d, d1, CloseConnection(d1, Nth(o, 0)));
  }

  lemma StepKept(d: Dispatcher, e: Event, o: Oracle)
    requires d.active.None?
    ensures Kept(d, Step(d, e, o))
  {
    hide Kept, ConnectionLost, CloseConnection, RunLoop;
    match e
    case Submit(seed) =>
      QueueKept(d, [seed]);
      TasksKept(d, Queue(d, [seed]), Step(d, e, o));
    case RunNow =>
      SameKept(d, d);
      if d.nextRun {
        var d1 := d.(nextRun := false, unannounced := false);
        SameKept(d, d1);
        LoopKept(d1, o, 1);
        KeptTwice(d, d1, RunLoop(d1, o, 1));
        TasksKept(d, RunLoop(d1, o, 1), Step(d, e, o));
      }
    case ConnectionChanged(state) =>
      SameKept(d, d);
      if d.conn.Some? && CanBecome(d.conn.value.state, state) {
        var d1 := d.(conn := Some(d.conn.value.(state := state)));
        SameKept(d, d1);
        LostKept(d1, Nth(o, 0));
        KeptTwice(d, d1, ConnectionLost(d1, Nth(o, 0)));
        TasksKept(d, d1, d1.(nextRun := true));
      }
    case IdleTimeout =>
      SameKept(d, d);
      SameKept(d, d.(idle := false));
      CloseKept(d.(idle := false), Nth(o, 0));
      KeptTwice(d, d.(idle := false), CloseConnection(d.(idle := false), Nth(o, 0)));
    case CancelMessage(id) => CancelStepKept(d, id, o);
    case ForTask(order, event) => TaskStepKept(d, order, event, o);
    case _ => SameKept(d, Step(d, e, o));
  }

  /** Whatever happens, a task that the dispatcher has is never lost: it stays with its number,
      its kind, its SIM and its message, and once it is let go it does not change any more. */
  lemma {:induction false} NoTaskLost(d: Dispatcher, events: seq<(Event, Oracle)>)
    requires d.active.None?
    ensures Kept(d, After(d, events))
    decreases |events|
  {
    hide Kept, Step;
    SameKept(d, d);
    if events != [] {
      var d1 := Step(d, events[0].0, events[0].1);
      StepKept(d, events[0].0, events[0].1);
      NoTaskLost(d1, events[1..]);
      KeptTwice(d, d1, After(d1, events[1..]));
    }
  }

  // -------------------------------------------- what was understood is published

  predicate Understood(c: Choice) {
    c.decoded.Retrieved? && c.childOk
  }

  ghost predicate AllUnderstood(o: Oracle) {
    forall turn: nat :: Understood(Nth(o, turn).choice)
  }

  ghost predicate HasChild(d: Dispatcher, t: Task, kind: Kind) {
    exists u :: In(d, u) && u.kind == kind && u.id == t.id && u.imsi == t.imsi
  }

  /** It was let go after it had decoded a message, and not because it was cancelled. */
  predicate DecodedNow(t: Task) {
    t.kind.Decode? && !t.cancelled
  }

  /** A decoding task is only over in the queue when it was cancelled. */
  predicate NotOverYet(t: Task) {
    t.kind.Decode? && t.state.Done? ==> t.cancelled
  }

  predicate NoneOverYet(ts: seq<Task>) {
    forall t :: t in ts ==> NotOverYet(t)
  }

  predicate QueueFits(d: Dispatcher) {
    NoneOverYet(d.tasks) && (d.active.Some? ==> NotOverYet(d.active.value))
  }

  ghost predicate Passed(d: Dispatcher) {
    && QueueFits(d)
    && (forall t :: t in d.released && DecodedNow(t) ==> HasChild(d, t, Publish) && HasChild(d, t, Http(Ack)))
  }

  lemma ChildKept(d: Dispatcher, r: Dispatcher, t: Task, kind: Kind)
    requires Kept(d, r) && HasChild(d, t, kind) && !kind.Notification?
    ensures HasChild(r, t, kind)
  {
    var u :| In(d, u) && u.kind == kind && u.id == t.id && u.imsi == t.imsi;
    var v :| In(r, v) && Alike(u, v);
  }

  /** Nothing was let go, and nothing got over in the queue but by being cancelled. */
  lemma PassedOn(d: Dispatcher, r: Dispatcher)
    requires Passed(d) && Kept(d, r) && r.released == d.released && QueueFits(r)
    ensures Passed(r)
  {
    hide Kept, HasChild, QueueFits;
    forall t | t in r.released && DecodedNow(t)
      ensures HasChild(r, t, Publish) && HasChild(r, t, Http(Ack))
    {
      ChildKept(d, r, t, Publish);
      ChildKept(d, r, t, Http(Ack));
    }
  }

  /** What a task that is run queues is in the queue after its turn. */
  lemma NewChild(d: Dispatcher, a: Answer, kind: Kind)
    requires d.active.Some? && TaskOk(d.active.value) && d.active.value.state.Ready?
    requires E.Caused(d.active.value, OpRun, a.choice, kind)
    ensures HasChild(Dispatch(d, a), d.active.value, kind)
  {
    hide TaskOk, E.Caused, E.QueuedIn;
    var t := d.active.value;
    E.ChildrenExactly(t, OpRun, a.choice);
    assert E.QueuedIn(E.Children(t, OpRun, a.choice), kind);
    ChildQueued(d, a, kind);
  }

  lemma ChildQueued(d: Dispatcher, a: Answer, kind: Kind)
    requires d.active.Some? && d.active.value.state.Ready?
    requires var children := Run(d.active.value, a.choice).1;
      && E.QueuedIn(children, kind)
      && forall i :: 0 <= i < |children| ==> E.ChildOf(children[i], d.active.value, OpRun, a.choice)
    ensures HasChild(Dispatch(d, a), d.active.value, kind)
  {
    hide Run;
    var t := d.active.value;
    var children := Run(t, a.choice).1;
    var i :| 0 <= i < |children| && children[i].kind == kind;
    var u := NewTask(d.created + i, children[i]);
    assert NewTasks(children, d.created)[i] == u;
    assert Queue(d, children).tasks[|d.tasks| + i] == u;
    assert In(Dispatch(d, a), u);
    assert E.ChildOf(children[i], t, OpRun, a.choice);
  }

  lemma DecodeEnds(t: Task, c: Choice)
    requires t.kind.Decode? && TaskOk(t) && (Runnable(t) || Needs(t))
    ensures var t1 := Handle(t, c).0;
      && t1.state.Done? && t1.id == t.id && t1.imsi == t.imsi && t1.cancelled == t.cancelled
      && t1.kind == t.kind
  {
  }

  lemma ReadyDecode(t: Task)
    requires t.kind.Decode? && TaskOk(t) && (Runnable(t) || Needs(t)) && NotOverYet(t)
    ensures t.cancelled || t.state.Ready?
  {
  }

  lemma OnePassed(d: Dispatcher, a: Answer)
    requires d.active.Some? && ActiveOk(d) && NotOverYet(d.active.value) && Understood(a.choice)
    requires d.active.value.kind.Decode?
    ensures var t1 := Handle(d.active.value, a.choice).0;
      DecodedNow(t1) ==> HasChild(Dispatch(d, a), t1, Publish) && HasChild(Dispatch(d, a), t1, Http(Ack))
  {
    hide TaskOk, HasChild, Handle, Dispatch, Understood, NotOverYet, E.Caused;
    var t := d.active.value;
    DecodeEnds(t, a.choice);
    ReadyDecode(t);
    if !t.cancelled {
      BothCaused(t, a.choice);
      NewChild(d, a, Publish);
      NewChild(d, a, Http(Ack));
      SameChild(Dispatch(d, a), t, Handle(t, a.choice).0);
    }
  }

  /** Where everything is after a turn. */
  lemma DispatchParts(d: Dispatcher, a: Answer)
    requires d.active.Some?
    ensures var r, t1 := Dispatch(d, a), Handle(d.active.value, a.choice).0;
      && r.active.None?
      && (forall u :: u in r.tasks ==> u in d.tasks || (u == t1 && !t1.state.Done?) || u.state.Ready?)
      && (forall u :: u in r.released ==> u in d.released || u == t1)
  {
    hide Handle;
    var (t1, seeds) := Handle(d.active.value, a.choice);
    forall u | u in NewTasks(seeds, d.created)
      ensures u.state.Ready?
    {
    }
  }

  lemma DispatchPassed(d: Dispatcher, a: Answer)
    requires d.active.Some? && ActiveOk(d) && Passed(d) && Understood(a.choice)
    ensures Passed(Dispatch(d, a))
  {
    hide Kept, HasChild, Handle, Dispatch, Understood, ActiveOk;
    var t := d.active.value;
    var t1 := Handle(t, a.choice).0;
    var r := Dispatch(d, a);
    DispatchKept(d, a);
    DispatchParts(d, a);
    HandleAlike(t, a.choice);
    if t.kind.Decode? {
      OnePassed(d, a);
    }
    forall u | u in r.released && DecodedNow(u)
      ensures HasChild(r, u, Publish) && HasChild(r, u, Http(Ack))
    {
      if u in d.released {
        ChildKept(d, r, u, Publish);
        ChildKept(d, r, u, Http(Ack));
      }
    }
  }

  lemma SameChild(d: Dispatcher, t: Task, t1: Task)
    requires t1.id == t.id && t1.imsi == t.imsi
    ensures forall kind :: HasChild(d, t, kind) ==> HasChild(d, t1, kind)
  {
  }

  lemma BothCaused(t: Task, c: Choice)
    requires t.kind.Decode? && Understood(c)
    ensures E.Caused(t, OpRun, c, Publish) && E.Caused(t, OpRun, c, Http(Ack))
  {
  }

  lemma LosePassed(ts: seq<Task>, imsi: string, c: Choice)
    requires NoneOverYet(ts) && forall t :: t in ts ==> TaskOk(t)
    ensures NoneOverYet(LoseNetwork(ts, imsi, c))
  {
    hide NetworkUnavailable, HttpOk, CallOk;
    forall i | 0 <= i < |ts|
      ensures NotOverYet(LoseNetwork(ts, imsi, c)[i])
    {
      assert TaskOk(ts[i]) && NotOverYet(ts[i]);
    }
  }

  lemma LostPassed(d: Dispatcher, a: Answer)
    requires d.conn.Some? && Passed(d) && forall t :: t in d.tasks ==> TaskOk(t)
    ensures Passed(ConnectionLost(d, a))
  {
    hide LoseNetwork, Kept, HasChild, TaskOk, NoneOverYet;
    LostKept(d, a);
    LosePassed(d.tasks, d.conn.value.imsi, a.choice);
    PassedOn(d, ConnectionLost(d, a));
  }

  lemma ClosePassed(d: Dispatcher, a: Answer)
    requires Passed(d) && forall t :: t in d.tasks ==> TaskOk(t)
    ensures Passed(CloseConnection(d, a))
  {
    hide ConnectionLost, Kept, HasChild, TaskOk, NoneOverYet;
    CloseKept(d, a);
    if d.conn.Some? && a.closesNow {
      LostPassed(d, a);
    }
    PassedOn(d, CloseConnection(d, a));
  }

  lemma PreparePassed(d: Dispatcher, imsi: string, a: Answer)
    requires Passed(d) && forall t :: t in d.tasks ==> TaskOk(t)
    ensures Passed(PrepareConnection(d, imsi, a))
  {
    hide CloseConnection, Kept, HasChild, TaskOk, NoneOverYet;
    PrepareKept(d, imsi, a);
    ClosePassed(d, a);
    PassedOn(d, PrepareConnection(d, imsi, a));
  }

  lemma UsePassed(d: Dispatcher, c: Choice)
    requires Passed(d) && d.tasks != [] && d.active.None?
    ensures Passed(UseConnection(d, c))
  {
    hide Kept, HasChild;
    UseKept(d, c);
    CancelledOver(d.tasks[0], c);
    PassedOn(d, UseConnection(d, c));
  }

  lemma CancelledOver(t: Task, c: Choice)
    requires NotOverYet(t)
    ensures NotOverYet(NetworkUnavailable(t, false, c)) && NotOverYet(Cancel(t))
  {
  }

  lemma PickPassed(d: Dispatcher, a: Answer)
    requires d.active.None? && NetSafe(d) && Books(d) && Passed(d)
    ensures Passed(Pick(d, a))
  {
    hide Kept, HasChild, PrepareConnection, UseConnection, SortTasks, TaskOk, Books, TransmittingFits, NotOverYet;
    SortTasksIsChain(d.tasks, d.conn);
    var d1 := Sorted(d);
    SameKept(d, d1);
    PassedOn(d, d1);
    if d1.tasks != [] {
      TakeKept(d1);
      PreparePassed(d1, d1.tasks[0].imsi, a);
      var d2 := PrepareConnection(d1, d1.tasks[0].imsi, a);
      UsePassed(d2, a.choice);
      if Runnable(d1.tasks[0]) {
        PassedOn(d1, Take(d1));
      }
    }
  }

  lemma {:induction false} LoopPassed(d: Dispatcher, o: Oracle, turn: nat)
    requires d.active.None? && NetSafe(d) && Books(d) && Passed(d) && AllUnderstood(o)
    ensures Passed(RunLoop(d, o, turn))
    decreases TotalWeight(d.tasks)
  {
    hide Pick, Dispatch, TotalWeight, Passed, Books, Understood;
    var d1 := Pick(d, Nth(o, turn));
    PickOk(d, Nth(o, turn));
    PickPassed(d, Nth(o, turn));
    if d1.active.Some? {
      PickWeight(d, Nth(o, turn));
      PickedCanRun(d, Nth(o, turn));
      DispatchWeight(d1, Nth(o, turn));
      DispatchOk(d1, Nth(o, turn));
      DispatchPassed(d1, Nth(o, turn));
      LoopPassed(Dispatch(d1, Nth(o, turn)), o, turn + 1);
    }
  }

  lemma QueuePassed(d: Dispatcher, seeds: seq<Seed>)
    requires Passed(d)
    ensures Passed(Queue(d, seeds))
  {
    hide Kept, HasChild;
    QueueKept(d, seeds);
    var r := Queue(d, seeds);
    forall t | t in r.tasks
      ensures NotOverYet(t)
    {
      assert t in d.tasks || t in NewTasks(seeds, d.created);
    }
    PassedOn(d, r);
  }

  lemma EventPassed(t: Task, e: TaskEvent, c: Choice)
    requires TaskOk(t) && NotOverYet(t) && Deliverable(t, e, c)
    ensures NotOverYet(OnEvent(t, e, c).0)
  {
    hide Retry, SetHttpState, HttpOk;
    EventAlike(t, e, c);
  }

  lemma TaskStepPassed(d: Dispatcher, order: nat, e: TaskEvent, o: Oracle)
    requires Inv(d) && Passed(d)
    ensures Passed(Step(d, ForTask(order, e), o))
  {
    hide Kept, HasChild, Alike, OnEvent, Queue, TaskOk, Books, TransmittingFits, Blocked;
    var i := Find(d.tasks, order);
    var c := Nth(o, 0).choice;
    if i < |d.tasks| && Deliverable(d.tasks[i], e, c) {
      var (t, seeds) := OnEvent(d.tasks[i], e, c);
      EventAlike(d.tasks[i], e, c);
      assert d.tasks[i] in d.tasks;
      EventPassed(d.tasks[i], e, c);
      SelfAlike();
      var d1 := d.(tasks := d.tasks[i := t],
                   nextRun := d.nextRun || t.state != d.tasks[i].state || seeds != []);
      PointwiseKept(d, d1);
      PassedOn(d, d1);
      QueuePassed(d1, seeds);
    }
  }

  lemma CancelPassed(d: Dispatcher, id: Option<string>, o: Oracle)
    requires Inv(d) && Passed(d) && Inv(Step(d, CancelMessage(id), o))
    ensures Passed(Step(d, CancelMessage(id), o))
  {
    hide Kept, HasChild, Alike, Cancel, CloseConnection, Books, TransmittingFits, Blocked, TaskOk;
    var ts := CancelAll(d.tasks, id);
    var d1 := d.(tasks := ts, nextRun := d.nextRun || SomeStateChanged(d.tasks, ts));
    SelfAlike();
    forall i | 0 <= i < |d.tasks|
      ensures Alike(d.tasks[i], ts[i]) && NotOverYet(ts[i]) && TaskOk(ts[i])
    {
      assert d.tasks[i] in d.tasks;
      CancelOk(d.tasks[i]);
      LossAlike(d.tasks[i], Nth(o, 0).choice, true);
      CancelledOver(d.tasks[i], Nth(o, 0).choice);
    }
    PointwiseKept(d, d1);
    PassedOn(d, d1);
    ClosePassed(d1, Nth(o, 0));
  }

  lemma FieldsPassed(d: Dispatcher, r: Dispatcher)
    requires Passed(d) && r.tasks == d.tasks && r.released == d.released && r.active == d.active
    ensures Passed(r)
  {
    hide HasChild;
    SameKept(d, r);
    PassedOn(d, r);
  }

  lemma StepPassed(d: Dispatcher, e: Event, o: Oracle)
    requires Inv(d) && Passed(d) && AllUnderstood(o)
    ensures Passed(Step(d, e, o))
  {
    hide Passed, ConnectionLost, CloseConnection, RunLoop, Books, TransmittingFits, TaskOk, Blocked, AllUnderstood;
    StepOk(d, e, o);
    match e
    case Submit(seed) =>
      QueuePassed(d, [seed]);
      FieldsPassed(Queue(d, [seed]), Step(d, e, o));
    case RunNow =>
      if d.nextRun {
        var d1 := d.(nextRun := false, unannounced := false);
        FieldsPassed(d, d1);
        assert Books(d1) by {
          SameBooks(d, d1);
        }
        LoopPassed(d1, o, 1);
        FieldsPassed(RunLoop(d1, o, 1), Step(d, e, o));
      }
    case ConnectionChanged(state) =>
      if d.conn.Some? && CanBecome(d.conn.value.state, state) {
        var d1 := d.(conn := Some(d.conn.value.(state := state)));
        FieldsPassed(d, d1);
        FieldsPassed(d, d1.(nextRun := true));
        LostPassed(d1, Nth(o, 0));
      }
    case IdleTimeout =>
      FieldsPassed(d, d.(idle := false));
      ClosePassed(d.(idle := false), Nth(o, 0));
    case CancelMessage(id) => CancelPassed(d, id, o);
    case ForTask(order, event) => TaskStepPassed(d, order, event, o);
    case _ => FieldsPassed(d, Step(d, e, o));
  }

  lemma {:induction false} AfterPassed(d: Dispatcher, events: seq<(Event, Oracle)>)
    requires Inv(d) && Passed(d) && forall k :: 0 <= k < |events| ==> AllUnderstood(events[k].1)
    ensures Passed(After(d, events))
    decreases |events|
  {
    hide Inv, Passed, AllUnderstood, Step;
    if events != [] {
      var (e, o) := events[0];
      InvAlive(d);
      assert AllUnderstood(o) by {
        assert AllUnderstood(events[0].1);
      }
      StepOk(d, e, o);
      StepPassed(d, e, o);
      AfterPassed(Step(d, e, o), events[1..]);
    }
  }

  /** After any events, as long as what was downloaded could be decoded: every decoding task that
      was let go without being cancelled has its message published by a task for the same
      message and SIM, and another one acknowledges it. */
  lemma {:induction false} DecodedIsPublished(events: seq<(Event, Oracle)>)
    requires forall k :: 0 <= k < |events| ==> AllUnderstood(events[k].1)
    ensures var d := After(INITIAL, events);
      forall t :: t in d.released && DecodedNow(t) ==> HasChild(d, t, Publish) && HasChild(d, t, Http(Ack))
  {
    hide Inv, AllUnderstood, HasChild;
    EveryRunInv([]);
    assert After(INITIAL, []) == INITIAL;
    AfterPassed(INITIAL, events);
  }

  // -------------------------------------------------------------- what a cancel hits

  /** Cancelling one message ends its tasks and leaves all others, and the connection, alone. */
  lemma CancelHitsOne(d: Dispatcher, id: string, o: Oracle)
    requires d.active.None? && id != ""
    ensures var r := Step(d, CancelMessage(Some(id)), o);
      && |r.tasks| == |d.tasks| && r.conn == d.conn
      && forall i :: 0 <= i < |d.tasks| ==>
        if d.tasks[i].id == id then r.tasks[i].state.Done? && r.tasks[i].cancelled && Alike(d.tasks[i], r.tasks[i])
        else r.tasks[i] == d.tasks[i]
  {
    hide Alike;
    var r := Step(d, CancelMessage(Some(id)), o);
    forall i | 0 <= i < |d.tasks|
      ensures d.tasks[i].id == id ==> r.tasks[i].cancelled && Alike(d.tasks[i], r.tasks[i])
    {
      LossAlike(d.tasks[i], Nth(o, 0).choice, true);
      CancelMarks(d.tasks[i]);
    }
  }

  lemma CancelMarks(t: Task)
    ensures Cancel(t).cancelled && Cancel(t).state.Done?
  {
  }

  /** Cancelling everything ends every task, and the connection goes if it closes at once. */
  lemma CancelHitsAll(d: Dispatcher, o: Oracle)
    requires d.active.None?
    ensures var r := Step(d, CancelMessage(None), o);
      && |r.tasks| == |d.tasks|
      && (forall i :: 0 <= i < |d.tasks| ==> r.tasks[i].state.Done? && r.tasks[i].cancelled)
      && (d.conn.Some? && Nth(o, 0).closesNow ==> r.conn.None?)
  {
    hide Cancel;
    var ts := CancelAll(d.tasks, None);
    forall i | 0 <= i < |d.tasks|
      ensures ts[i].state.Done? && ts[i].cancelled
    {
      CancelMarks(d.tasks[i]);
    }
    var d1 := d.(tasks := ts, nextRun := d.nextRun || SomeStateChanged(d.tasks, ts));
    CloseOver(d1, Nth(o, 0));
  }

  lemma CloseOver(d: Dispatcher, a: Answer)
    requires forall i :: 0 <= i < |d.tasks| ==> d.tasks[i].state.Done?
    ensures CloseConnection(d, a).tasks == d.tasks
    ensures d.conn.Some? && a.closesNow ==> CloseConnection(d, a).conn.None?
  {
  }

  // ------------------------------------------------------- what events and losses do

  /** What a task queues when something reaches it is in the queue after that. */
  lemma {:induction false} EventChild(d: Dispatcher, order: nat, e: TaskEvent, o: Oracle, kind: Kind)
    requires Inv(d)
    requires var i := Find(d.tasks, order);
      i < |d.tasks| && Deliverable(d.tasks[i], e, Nth(o, 0).choice)
      && E.Caused(d.tasks[i], OpEvent(e), Nth(o, 0).choice, kind)
    ensures var t := d.tasks[Find(d.tasks, order)];
      exists u :: u in Step(d, ForTask(order, e), o).tasks && u.kind == kind && u.imsi == t.imsi && u.state.Ready?
        && !u.user && u.priority == (if kind.Http? && !kind.role.Ack? then NORMAL else POST_PROCESS)
        && u.created == Nth(o, 0).choice.now && u.deadline == u.created + DEFAULT_LIFETIME
        && u.id == if kind == Http(Retrieve) then e.answer.id else t.id
  {
    hide TaskOk, E.Caused, E.QueuedIn, OnEvent, Books, TransmittingFits, Blocked;
    var i := Find(d.tasks, order);
    var c := Nth(o, 0).choice;
    var t := d.tasks[i];
    assert t in d.tasks;
    E.ChildrenExactly(t, OpEvent(e), c);
    var children := OnEvent(t, e, c).1;
    assert children == E.Children(t, OpEvent(e), c);
    assert E.QueuedIn(children, kind);
    RetrieveCause(t, e, c, kind);
    var k := QueuedWhere(children, kind);
    var r := Step(d, ForTask(order, e), o);
    assert E.ChildOf(children[k], t, OpEvent(e), c);
    var u := NewTask(d.created + k, children[k]);
    assert NewTasks(children, d.created)[k] == u;
    assert r.tasks[|d.tasks| + k] == u;
  }

  lemma RetrieveCause(t: Task, e: TaskEvent, c: Choice, kind: Kind)
    requires E.Caused(t, OpEvent(e), c, kind)
    ensures kind == Http(Retrieve) ==> e.NotifyDone? && e.answer.Download?
  {
  }

  lemma QueuedWhere(children: seq<Seed>, kind: Kind) returns (k: nat)
    requires E.QueuedIn(children, kind)
    ensures k < |children| && children[k].kind == kind
  {
    k :| 0 <= k < |children| && children[k].kind == kind;
  }

  /** When a connection is lost, the tasks of its SIM that use or want the network sleep, or are
      over if it is too late for that; the others are left alone. */
  lemma LossHits(d: Dispatcher, a: Answer)
    requires d.conn.Some? && forall t :: t in d.tasks ==> TaskOk(t)
    ensures var r := ConnectionLost(d, a);
      && |r.tasks| == |d.tasks|
      && forall i :: 0 <= i < |d.tasks| ==>
        if d.tasks[i].imsi == d.conn.value.imsi && (Needs(d.tasks[i]) || d.tasks[i].state.Transmitting?)
        then r.tasks[i].state == E.Asleep(d.tasks[i].deadline, a.choice) && Alike(d.tasks[i], r.tasks[i])
        else r.tasks[i] == d.tasks[i]
  {
    hide TaskOk, NetworkUnavailable, Alike;
    var r := ConnectionLost(d, a);
    forall i | 0 <= i < |d.tasks|
      ensures UsesNetwork(d.tasks[i]) && d.tasks[i].imsi == d.conn.value.imsi ==>
        r.tasks[i].state == E.Asleep(d.tasks[i].deadline, a.choice) && Alike(d.tasks[i], r.tasks[i])
    {
      assert d.tasks[i] in d.tasks;
      LossAlike(d.tasks[i], a.choice, true);
      if UsesNetwork(d.tasks[i]) {
        E.OpLeaves(d.tasks[i], OpNetworkUnavailable(true), a.choice);
      }
    }
  }

  // --------------------------------------------------- the connection for the first task

  /** There is no connection yet. */
  lemma FirstAsks(d: Dispatcher, a: Answer)
    requires d.active.None? && d.tasks != [] && Needs(d.tasks[0]) && d.conn.None?
    ensures var t, r := d.tasks[0], PickFirst(d, a);
      match a.link
      case Some(open) =>
        r.conn == Some(Connection(t.imsi, if open then Open else Opening))
        && (if open then r.active == Some(t) else r.active.None? && t in r.tasks)
      case None =>
        r.active.None? && r.conn.None? && r.nextRun && r.tasks[0].state.Done? && Alike(t, r.tasks[0])
  {
    hide Alike, Cancel, LoseNetwork, ConnectionLost;
    LossAlike(d.tasks[0], a.choice, false);
    NotOver(d.tasks[0], a.choice);
  }

  /** There is one. */
  lemma FirstFinds(d: Dispatcher, a: Answer)
    requires d.active.None? && d.tasks != [] && Needs(d.tasks[0]) && ConnectionActive(d)
    ensures var t, r := d.tasks[0], PickFirst(d, a);
      if d.conn == Some(Connection(t.imsi, Open)) then r.active == Some(t) && r.conn == d.conn
      else d.conn == Some(Connection(t.imsi, Opening)) || !a.closesNow ==>
        r.active.None? && r.conn == d.conn && t in r.tasks
  {
    hide LoseNetwork, ConnectionLost, NetworkUnavailable;
  }

  /** The first of the sorted queue, when it needs a connection: it is picked if the right one is
      open, or is open already when it is asked for; it waits for one that is being opened, and for
      a wrong one to go; and it is over if there is none to be had. */
  lemma FirstGets(d: Dispatcher, a: Answer)
    requires d.active.None? && Sorted(d).tasks != [] && Needs(Sorted(d).tasks[0])
    ensures var t, r := Sorted(d).tasks[0], Pick(d, a);
      && (d.conn == Some(Connection(t.imsi, Open)) ==> r.active == Some(t) && r.conn == d.conn)
      && (d.conn == Some(Connection(t.imsi, Opening)) ==> r.active.None? && r.conn == d.conn && t in r.tasks)
      && (d.conn.None? && a.link == Some(true) ==>
            r.active == Some(t) && r.conn == Some(Connection(t.imsi, Open)))
      && (d.conn.None? && a.link == Some(false) ==>
            r.active.None? && r.conn == Some(Connection(t.imsi, Opening)) && t in r.tasks)
      && (d.conn.None? && a.link.None? ==>
            r.active.None? && r.conn.None? && r.nextRun && r.tasks[0].state.Done? && Alike(t, r.tasks[0]))
      && (ConnectionActive(d) && d.conn.value.imsi != t.imsi && !a.closesNow ==>
            r.active.None? && r.conn == d.conn && t in r.tasks)
  {
    hide SortTasks, Alike, PickFirst;
    if d.conn.None? {
      FirstAsks(Sorted(d), a);
    } else if ConnectionActive(d) {
      FirstFinds(Sorted(d), a);
    }
  }

  lemma NotOver(t: Task, c: Choice)
    requires Needs(t)
    ensures NetworkUnavailable(t, false, c).state.Done?
  {
  }

  /** What is pushed from outside is the last in the queue then: a new task with a number of its
      own and all that it was made of. */
  lemma SubmitExactly(d: Dispatcher, seed: Seed, o: Oracle)
    requires d.active.None?
    ensures var r := Step(d, Submit(seed), o);
      && |r.tasks| == |d.tasks| + 1 && r.tasks[..|d.tasks|] == d.tasks && r.created == d.created + 1
      && var t := r.tasks[|d.tasks|];
         && t.order == d.created && t.state.Ready? && t.told == Begin && !t.cancelled
         && t.kind == seed.kind && t.id == seed.id && t.imsi == seed.imsi && t.priority == seed.priority
         && t.user == seed.user && t.created == seed.created && t.deadline == seed.deadline
  {
    var r := Step(d, Submit(seed), o);
    assert r.tasks == d.tasks + NewTasks([seed], d.created);
  }
}
