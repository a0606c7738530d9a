/**
  The task object of mms_task.c and mms_task_http.c as the code has it: one object whose
  methods change its fields. Each method is proved to do what the function of the same
  purpose in module Tasks does; TaskLife says what follows for every life of a task.
*/
module TaskObject {
  import opened Common
  import T = Tasks
  import opened TaskLife

  class MmsTask {
    const order: nat
    const kind: T.Kind
    const imsi: string
    const priority: int
    const user: bool
    const created: int
    var id: string
    var deadline: int
    var state: T.TaskState
    var wakeup: Option<int>
    var cancelled: bool
    var call: bool
    var trans: T.HttpState
    var tx: Option<nat>
    var nextSession: nat
    ghost var sleeps: nat
    ghost var inflight: set<nat>
    ghost var told: T.History

    ghost function View(): T.Task
      reads this
    {
      T.Task(order, kind, id, imsi, priority, user, created, deadline, state, wakeup,
             cancelled, call, sleeps, trans, tx, inflight, nextSession, told)
    }

    /** Between two steps, while the dispatcher has the task. */
    ghost predicate Valid()
      reads this
    {
      TaskOk(View())
    }

    constructor (order: nat, seed: T.Seed)
      ensures View() == T.NewTask(order, seed) && Valid()
    {
      NewTaskOk(order, seed);
      this.order, kind, imsi, priority, user :=
        order, seed.kind, seed.imsi, seed.priority, seed.user;
      created, id, deadline := seed.created, seed.id, seed.deadline;
      state, wakeup, cancelled, call := T.Ready, None, false, false;
      trans, tx, nextSession := T.HttpReady, None, 0;
      sleeps, inflight, told := 0, {}, T.Begin;
    }

    // -------------------------------------------------------------- mms_task.c

    method ScheduleWakeup(secs: nat, c: T.Choice) returns (ok: bool)
      modifies this
      ensures View() == T.ScheduleWakeup(old(View()), secs, c)
      ensures ok == wakeup.Some?
    {
      var wait := secs;
      if wait == 0 {
        wait := c.retry;
      }
      wakeup := None;
      if c.now < deadline {
        var most := deadline - c.now;
        if wait > most {
          wait := most;
        }
        wakeup := Some(c.now + wait);
      }
      ok := wakeup.Some?;
    }

    method SetState(s: T.TaskState, c: T.Choice)
      modifies this
      ensures View() == T.SetState(old(View()), s, c)
      decreases if s.Sleep? then 3 else 0
    {
      if state != s {
        var target := s;
        if s.Sleep? && wakeup.None? {
          var ok := ScheduleWakeup(c.retry, c);
          if !ok {
            CancelTask(c);
            assert View() == T.SetState(old(View()), s, c);
            target := T.Done;
          }
        }
        // cancelling may have changed the state
        if state != target {
          state := target;
          sleeps := if target.Sleep? then sleeps + 1 else sleeps;
        }
      }
    }

    method GoToSleep(secs: nat, c: T.Choice) returns (ok: bool)
      modifies this
      ensures View() == T.GoToSleep(old(View()), secs, c)
      ensures ok == T.ScheduleWakeup(old(View()), secs, c).wakeup.Some?
    {
      ok := ScheduleWakeup(secs, c);
      SetState(if ok then T.Sleep else T.Done, c);
    }

    method CancelBase(c: T.Choice)
      modifies this
      ensures View() == T.BaseCancel(old(View()))
      decreases 1
    {
      wakeup := None;
      cancelled := true;
      SetState(T.Done, c);
    }

    method CancelTask(c: T.Choice)
      modifies this
      ensures View() == T.Cancel(old(View())) && state.Done?
      ensures old(Valid()) ==> Valid()
      decreases 2
    {
      hide TaskOk;
      ghost var before := View();
      match kind {
        case Http(_) =>
          FinishTransfer();
          SetHttpState(T.HttpDone, T.Cancelled);
        case Notification(_) => call := false;
        case Publish => call := false;
        case Decode =>
        case Encode =>
      }
      CancelBase(c);
      if TaskOk(before) {
        CancelOk(before);
      }
    }

    method WakeUp(c: T.Choice)
      requires T.Deliverable(View(), T.Wake, c)
      modifies this
      ensures View() == T.OnEvent(old(View()), T.Wake, c).0
      ensures old(Valid()) ==> Valid()
    {
      hide TaskOk;
      if Valid() {
        OnEventOk(View(), T.Wake, c);
      }
      wakeup := None;
      SetState(T.Ready, c);
    }

    // --------------------------------------------------------- mms_task_http.c

    method Tell(n: T.Notice)
      modifies this`told
      ensures told == T.Then(old(told), n)
    {
      told := T.Then(told, n);
    }

    method SetHttpState(s: T.HttpState, ss: T.Status)
      modifies this
      ensures View() == T.SetHttpState(old(View()), s, ss)
    {
      if trans != s && !trans.HttpDone? {
        var active := s.HttpActive?;
        if active != trans.HttpActive? {
          Tell(if active then T.TransferStarted else T.TransferFinished);
        }
        trans := s;
        match s {
          case HttpPaused => Tell(T.PutOff);
          case HttpDone => Tell(T.Outcome(ss));
          case _ =>
        }
      }
    }

    method FinishTransfer()
      modifies this
      ensures View() == T.FinishTransfer(old(View()))
    {
      tx := None;
    }

    method Start(c: T.Choice) returns (ok: bool)
      modifies this
      ensures View() == T.HttpStart(old(View()), c) && ok == c.startOk
    {
      FinishTransfer();
      ok := c.startOk;
      if ok {
        tx := Some(nextSession);
        inflight := inflight + {nextSession};
        nextSession := nextSession + 1;
        SetHttpState(T.HttpActive, T.Successful);
      }
    }

    method Transmit(c: T.Choice)
      modifies this
      ensures View() == T.Transmit(old(View()), c)
      ensures old(Valid() && T.Needs(View())) ==> if c.startOk then Valid() else TaskLife.Finished(View())
    {
      hide TaskOk, HttpOk, TaskLife.Finished;
      if Valid() && T.Needs(View()) {
        TransmitOk(View(), c);
      }
      if !state.Transmitting? {
        var ok := Start(c);
        if ok {
          SetState(T.Transmitting, c);
        } else {
          Tell(T.Outcome(T.IoError));
          SetState(T.Done, c);
        }
      }
    }

    method Run(c: T.Choice)
      requires kind.Http?
      modifies this
      ensures View() == T.Run(old(View()), c).0
      ensures old(Valid() && state.Ready?) ==> Valid()
    {
      hide TaskOk;
      if Valid() && state.Ready? {
        RunOk(View(), c);
      }
      SetState(if user then T.NeedUserConnection else T.NeedConnection, c);
    }

    method Finished(session: nat, status: T.Status, c: T.Choice)
      modifies this
      ensures View() == T.HttpFinished(old(View()), session, status, c)
      ensures old(Valid() && kind.Http? && session in inflight) ==> Valid()
    {
      hide TaskOk;
      if Valid() && kind.Http? && session in inflight {
        HttpFinishedOk(View(), session, status, c);
      }
      inflight := inflight - {session};
      if tx == Some(session) {
        var next, told := T.HttpDone, status;
        if T.IsTransport(status) {
          var ok := GoToSleep(0, c);
          if ok {
            next := T.HttpPaused;
          } else {
            told := T.Cancelled;
          }
        } else {
          SetState(T.Done, c);
        }
        SetHttpState(next, told);
      }
    }

    method WriteFailed(c: T.Choice)
      requires kind.Http?
      modifies this
      ensures View() == T.HttpWriteError(old(View()), c)
      ensures old(Valid() && tx.Some? && tx.value in inflight) ==> Valid()
    {
      hide TaskOk;
      if Valid() && tx.Some? && tx.value in inflight {
        HttpWriteErrorOk(View(), c);
      }
      FinishTransfer();
      SetHttpState(T.HttpPaused, T.Successful);
      SetState(T.Sleep, c);
    }

    method NetworkUnavailable(canRetry: bool, c: T.Choice)
      modifies this
      ensures View() == T.NetworkUnavailable(old(View()), canRetry, c)
      ensures old(Valid() && (T.Needs(View()) || state.Transmitting?)) ==> Valid()
    {
      hide TaskOk;
      if Valid() && (T.Needs(View()) || state.Transmitting?) {
        NetworkUnavailableOk(View(), canRetry, c);
      }
      if !state.Done? {
        if canRetry {
          FinishTransfer();
          SetState(T.Sleep, c);
        } else {
          CancelTask(c);
        }
      }
    }
  }
}
