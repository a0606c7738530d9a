/**
  The dispatcher of mms_dispatcher.c as the code has it: an object whose methods change its
  fields, with the dispatch loop as a loop. Each method is proved to do what the function
  of the same purpose in module DispatcherModel does; DispatcherSafety says what follows
  for every run.
*/
module DispatcherObject {
  import opened Common
  import T = Tasks
  import opened TaskOrder
  import M = DispatcherModel
  import S = DispatcherSafety

  /** A loop over the queue that may replace every task. */
  method UpdateEach(ts: seq<T.Task>, f: T.Task -> T.Task) returns (r: seq<T.Task>)
    ensures |r| == |ts| && forall i :: 0 <= i < |ts| ==> r[i] == f(ts[i])
  {
    r := ts;
    for i := 0 to |ts|
      invariant |r| == |ts|
      invariant forall j :: 0 <= j < i ==> r[j] == f(ts[j])
      invariant forall j :: i <= j < |ts| ==> r[j] == ts[j]
    {
      r := r[i := f(ts[i])];
    }
  }

  /** Some answers, where none are asked for. */
  const ANY: M.Oracle := (n: nat) =>
    M.Answer(T.Choice(0, 0, false, false, T.Unrecognised, false), false, None, false)

  lemma KeepsInv(d: M.Dispatcher, e: M.Event, o: M.Oracle)
    requires d.active.None?
    ensures S.Inv(d) ==> S.Inv(M.Step(d, e, o))
  {
    hide S.Inv, M.Step;
    if S.Inv(d) {
      S.StepOk(d, e, o);
    }
  }

  class MmsDispatcher {
    var tasks: seq<T.Task>
    var activeTask: Option<T.Task>
    var connection: Option<Connection>
    var nextRun: bool
    var networkIdle: bool
    var started: bool
    var created: nat
    ghost var released: seq<T.Task>
    ghost var starts: nat
    ghost var doneCalls: nat
    ghost var unannounced: bool

    ghost function View(): M.Dispatcher
      reads this
    {
      M.Dispatcher(tasks, activeTask, connection, nextRun, networkIdle, started, created,
                   released, starts, doneCalls, unannounced)
    }

    /** Between two events. */
    ghost predicate Valid()
      reads this
    {
      S.Inv(View())
    }

    constructor ()
      ensures View() == M.INITIAL && Valid()
    {
      S.EveryRunInv([]);
      tasks, activeTask, connection := [], None, None;
      nextRun, networkIdle, started, created := false, false, false, 0;
      released, starts, doneCalls, unannounced := [], 0, 0, false;
    }

    predicate ConnectionActive()
      reads this
    {
      connection.Some? && (connection.value.state.Open? || connection.value.state.Opening?)
    }

    method CheckIfDone(busy: bool)
      modifies this
      ensures View() == M.CheckIfDone(old(View()), busy)
    {
      if !(ConnectionActive() || busy || activeTask.Some? || tasks != []) {
        nextRun := false;
        if started {
          started := false;
          doneCalls := doneCalls + 1;
        }
      }
    }

    method DropConnection()
      modifies this
      ensures View() == M.DropConnection(old(View()))
    {
      if connection.Some? {
        connection := None;
        networkIdle := false;
      }
    }

    /** The handler of a connection that failed or was closed. */
    method ConnectionLost(a: M.Answer)
      requires connection.Some?
      modifies this
      ensures View() == M.ConnectionLost(old(View()), a)
    {
      var imsi := connection.value.imsi;
      DropConnection();
      CheckIfDone(a.busy);
      var ts := UpdateEach(tasks, (t: T.Task) => M.LoseOne(t, imsi, a.choice));
      assert ts == M.LoseNetwork(tasks, imsi, a.choice);
      tasks := ts;
      DropConnection();
      CheckIfDone(a.busy);
      if activeTask.None? {
        nextRun := true;
      }
    }

    method CloseConnection(a: M.Answer)
      modifies this
      ensures View() == M.CloseConnection(old(View()), a)
    {
      if connection.Some? {
        if a.closesNow {
          ConnectionLost(a);
        }
        if !ConnectionActive() {
          DropConnection();
        }
        CheckIfDone(a.busy);
      }
    }

    /** Closes the wrong connection and asks for the right one. */
    method PrepareConnection(imsi: string, a: M.Answer)
      modifies this
      ensures View() == M.PrepareConnection(old(View()), imsi, a)
    {
      if connection.Some? && connection.value.imsi != imsi {
        CloseConnection(a);
      }
      if connection.None? && a.link.Some? {
        connection := Some(Connection(imsi, if a.link.value then Open else Opening));
      }
    }

    /** mms_dispatcher_pick_next_task: the task picked, if any, is taken from the queue. */
    method PickNextTask(a: M.Answer) returns (task: Option<T.Task>)
      requires activeTask.None?
      modifies this
      ensures View().(active := task) == M.Pick(old(View()), a)
      ensures activeTask.None?
    {
      task := None;
      tasks := SortTasks(tasks, connection);
      if tasks != [] {
        if T.Runnable(tasks[0]) {
          task := Some(tasks[0]);
          tasks := tasks[1..];
        } else if T.Needs(tasks[0]) {
          PrepareConnection(tasks[0].imsi, a);
          task := UseConnection(a.choice);
        }
      }
    }

    /** The first task gets the connection there is or is told that there is none. */
    method UseConnection(c: T.Choice) returns (task: Option<T.Task>)
      requires activeTask.None? && tasks != []
      modifies this
      ensures View().(active := task) == M.UseConnection(old(View()), c)
      ensures activeTask.None?
    {
      task := None;
      if connection.Some? {
        if connection.value.imsi == tasks[0].imsi && IsOpen(connection) {
          task := Some(tasks[0]);
          tasks := tasks[1..];
        }
      } else {
        var t := T.NetworkUnavailable(tasks[0], false, c);
        nextRun := nextRun || t.state != tasks[0].state;
        tasks := [t] + tasks[1..];
      }
    }

    method QueueTasks(seeds: seq<T.Seed>)
      modifies this
      ensures View() == M.Queue(old(View()), seeds)
    {
      var n := created;
      ghost var before := tasks;
      for i := 0 to |seeds|
        invariant created == n + i
        invariant View() == M.Queue(old(View()), seeds[..i])
      {
        tasks := tasks + [T.NewTask(created, seeds[i])];
        created := created + 1;
        assert tasks == M.Queue(old(View()), seeds[..i + 1]).tasks;
      }
      assert seeds[..|seeds|] == seeds;
    }

    /** One turn of the loop in mms_dispatcher_run. */
    method Dispatch(task: T.Task, a: M.Answer)
      requires activeTask.None?
      modifies this
      ensures View() == M.Dispatch(old(View()).(active := Some(task)), a)
    {
      activeTask := Some(task);
      var (t, seeds) := M.Handle(task, a.choice);
      QueueTasks(seeds);
      if t.state.Done? {
        released := released + [t];
      } else {
        tasks := tasks + [t];
      }
      activeTask := None;
    }

    method NetworkInUse() returns (inUse: bool)
      ensures inUse == exists t :: t in tasks && M.UsesNetwork(t)
    {
      inUse := false;
      for i := 0 to |tasks|
        invariant inUse == exists t :: t in tasks[..i] && M.UsesNetwork(t)
      {
        assert tasks[..i + 1] == tasks[..i] + [tasks[i]];
        inUse := inUse || M.UsesNetwork(tasks[i]);
      }
      assert tasks[..|tasks|] == tasks;
    }

    /** Dispatches the task and picks the next one. `leads` says of a state and a turn
        number that the run goes from there to `whole`. */
    method Turn(task: T.Task, o: M.Oracle, turn: nat,
                ghost whole: M.Dispatcher, ghost leads: (M.Dispatcher, nat) -> bool)
      returns (next: Option<T.Task>)
      requires activeTask.None? && (T.Runnable(task) || T.Needs(task))
      requires forall d, n {:trigger M.RestOfLoop(d, o, n)} ::
                 leads(d, n) <==> M.RestOfLoop(d, o, n) == whole
      requires leads(View().(active := Some(task)), turn)
      modifies this
      ensures activeTask.None?
      ensures next.Some? ==> T.Runnable(next.value) || T.Needs(next.value)
      ensures leads(View().(active := next), turn + 1)
      ensures M.Left(View().(active := next)) < M.Left(old(View()).(active := Some(task)))
    {
      ghost var d := View().(active := Some(task));
      assert M.RestOfLoop(d, o, turn) == whole;
      M.OneTurn(d, o, turn);
      Dispatch(task, M.Nth(o, turn));
      next := PickNextTask(M.Nth(o, turn + 1));
      assert M.RestOfLoop(View().(active := next), o, turn + 1) == whole;
    }

    /** The loop of mms_dispatcher_run, after the first pick. */
    method Loop(picked: Option<T.Task>, o: M.Oracle, first: nat,
                ghost whole: M.Dispatcher, ghost leads: (M.Dispatcher, nat) -> bool)
      requires activeTask.None?
      requires picked.Some? ==> T.Runnable(picked.value) || T.Needs(picked.value)
      requires forall d, n {:trigger M.RestOfLoop(d, o, n)} ::
                 leads(d, n) <==> M.RestOfLoop(d, o, n) == whole
      requires leads(View().(active := picked), first)
      modifies this
      ensures View() == whole
    {
      var turn, task := first, picked;
      while task.Some?
        invariant activeTask.None?
        invariant task.Some? ==> T.Runnable(task.value) || T.Needs(task.value)
        invariant leads(View().(active := task), turn)
        decreases M.Left(View().(active := task))
      {
        task := Turn(task.value, o, turn, whole, leads);
        turn := turn + 1;
      }
      assert M.RestOfLoop(View(), o, turn) == View();
    }

    method RunLoop(o: M.Oracle, first: nat)
      requires activeTask.None?
      modifies this
      ensures View() == M.RunLoop(old(View()), o, first)
    {
      ghost var whole := M.RunLoop(View(), o, first);
      M.PickedCanRun(View(), M.Nth(o, first));
      var task := PickNextTask(M.Nth(o, first));
      Loop(task, o, first, whole, (d: M.Dispatcher, n: nat) => M.RestOfLoop(d, o, n) == whole);
    }

    /** mms_dispatcher_run; the answers used start with number 1, number 0 is for the end. */
    method Run(o: M.Oracle)
      requires activeTask.None?
      modifies this
      ensures View() == M.AfterLoop(M.RunLoop(old(View()), o, 1), M.Nth(o, 0).busy)
    {
      RunLoop(o, 1);
      if connection.Some? {
        var inUse := NetworkInUse();
        networkIdle := !inUse;
      }
      CheckIfDone(M.Nth(o, 0).busy);
    }

    // ----------------------------------------------------- entry points, callbacks

    method Submit(seed: T.Seed)
      requires activeTask.None?
      modifies this
      ensures forall o :: View() == M.Step(old(View()), M.Submit(seed), o)
      ensures old(Valid()) ==> Valid()
    {
      KeepsInv(View(), M.Submit(seed), ANY);
      QueueTasks([seed]);
      unannounced := true;
    }

    method StartTasks(dirOk: bool) returns (ok: bool)
      requires activeTask.None?
      modifies this
      ensures forall o :: View() == M.Step(old(View()), M.Start(dirOk), o)
      ensures old(Valid()) ==> Valid()
      ensures ok <==> dirOk && tasks != []
    {
      KeepsInv(View(), M.Start(dirOk), ANY);
      ok := dirOk && tasks != [];
      if ok {
        started := true;
        starts := starts + 1;
        nextRun := true;
      }
    }

    method NextRun(o: M.Oracle)
      requires activeTask.None? && nextRun
      modifies this
      ensures View() == M.Step(old(View()), M.RunNow, o)
      ensures old(Valid()) ==> Valid()
    {
      KeepsInv(View(), M.RunNow, o);
      nextRun := false;
      unannounced := false;
      Run(o);
    }

    method ConnectionStateChanged(state: ConnState, o: M.Oracle)
      requires activeTask.None? && connection.Some? && M.CanBecome(connection.value.state, state)
      modifies this
      ensures View() == M.Step(old(View()), M.ConnectionChanged(state), o)
      ensures old(Valid()) ==> Valid()
    {
      KeepsInv(View(), M.ConnectionChanged(state), o);
      connection := Some(connection.value.(state := state));
      if state.Failed? || state.Closed? {
        ConnectionLost(M.Nth(o, 0));
      } else {
        nextRun := true;
      }
    }

    method NetworkIdleRun(o: M.Oracle)
      requires activeTask.None? && networkIdle
      modifies this
      ensures View() == M.Step(old(View()), M.IdleTimeout, o)
      ensures old(Valid()) ==> Valid()
    {
      KeepsInv(View(), M.IdleTimeout, o);
      networkIdle := false;
      CloseConnection(M.Nth(o, 0));
    }

    method CancelMessage(id: Option<string>, o: M.Oracle)
      requires activeTask.None?
      modifies this
      ensures View() == M.Step(old(View()), M.CancelMessage(id), o)
      ensures old(Valid()) ==> Valid()
    {
      KeepsInv(View(), M.CancelMessage(id), o);
      var ts := UpdateEach(tasks, (t: T.Task) => M.CancelOne(t, id));
      assert ts == M.CancelAll(tasks, id);
      nextRun := nextRun || M.SomeStateChanged(tasks, ts);
      tasks := ts;
      if id.None? && connection.Some? {
        CloseConnection(M.Nth(o, 0));
      }
    }

    /** Something reached one of the queued tasks, through the task's delegate. */
    method TaskEvent(order: nat, e: T.TaskEvent, o: M.Oracle)
      requires activeTask.None?
      modifies this
      ensures View() == M.Step(old(View()), M.ForTask(order, e), o)
      ensures old(Valid()) ==> Valid()
    {
      KeepsInv(View(), M.ForTask(order, e), o);
      var i := M.Find(tasks, order);
      if i < |tasks| && T.Deliverable(tasks[i], e, M.Nth(o, 0).choice) {
        var (t, seeds) := T.OnEvent(tasks[i], e, M.Nth(o, 0).choice);
        nextRun := nextRun || t.state != tasks[i].state || seeds != [];
        tasks := tasks[i := t];
        QueueTasks(seeds);
      }
    }

    method HandlerDone()
      requires activeTask.None?
      modifies this
      ensures forall o :: View() == M.Step(old(View()), M.HandlerDone, o)
      ensures old(Valid()) ==> Valid()
    {
      KeepsInv(View(), M.HandlerDone, ANY);
      nextRun := true;
    }

    method ConnManDone(o: M.Oracle)
      requires activeTask.None?
      modifies this
      ensures View() == M.Step(old(View()), M.ConnManDone, o)
      ensures old(Valid()) ==> Valid()
    {
      KeepsInv(View(), M.ConnManDone, o);
      CheckIfDone(M.Nth(o, 0).busy);
    }
  }
}
