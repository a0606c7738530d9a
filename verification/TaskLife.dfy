/** What every task keeps, whatever happens to it and in whatever order. */
module TaskLife {
  import opened Common
  import opened Tasks

  /** How many times the task has reported its outcome. */
  function Outcomes(h: History): nat {
    match h
    case Begin => 0
    case Then(b, n) => Outcomes(b) + (if n.Outcome? then 1 else 0)
  }

  /** Started and finished notices strictly alternate, and a started one is still
      unanswered exactly when `open`. */
  predicate Alternates(h: History, open: bool) {
    match h
    case Begin => !open
    case Then(b, TransferStarted) => open && Alternates(b, false)
    case Then(b, TransferFinished) => !open && Alternates(b, true)
    case Then(b, _) => Alternates(b, open)
  }

  /** The notices fit the state of the transaction. */
  predicate ToldOk(t: Task) {
    && Outcomes(t.told) == (if t.trans.HttpDone? then 1 else 0)
    && Alternates(t.told, t.trans.HttpActive?)
  }

  predicate HttpOk(t: Task) {
    && (t.trans.HttpDone? <==> t.state.Done?)
    && (t.state.Transmitting? <==> t.tx.Some? && t.tx.value in t.inflight)
    && (t.state.Transmitting? ==> t.trans.HttpActive?)
    && (forall k :: k in t.inflight ==> k < t.nextSession)
    && ToldOk(t)
  }

  predicate CallOk(t: Task) {
    match t.kind
    case Notification(_) => t.call <==> t.state.Pending?
    case Publish => t.state.Pending? ==> t.call
    case Encode => (t.state.Working? ==> t.call) && (t.call ==> t.state.Working? || t.state.Done?)
    case _ => !t.call && !t.state.Pending? && !t.state.Working?
  }

  /** The invariant of a task between two steps, while it is in the queue. */
  predicate TaskOk(t: Task) {
    && (t.wakeup.Some? <==> t.state.Sleep?)
    && (t.wakeup.Some? ==> t.wakeup.value <= t.deadline)
    && (Needs(t) || t.state.Transmitting? ==> t.kind.Http?)
    && CallOk(t)
    && (t.kind.Http? ==> HttpOk(t))
  }

  /** A task the run loop may let go: it is over and, if it is an http task, the outcome
      has been reported once. */
  predicate Finished(t: Task) {
    && t.state.Done? && t.wakeup.None?
    && (t.kind.Http? ==> Outcomes(t.told) == 1 && Alternates(t.told, t.trans.HttpActive?))
  }

  // -------------------------------------------------- one lemma per kind of step

  lemma NewTaskOk(order: nat, s: Seed)
    ensures TaskOk(NewTask(order, s))
  {
  }

  lemma SetHttpStateTold(t: Task, s: HttpState, ss: Status)
    requires ToldOk(t)
    ensures ToldOk(SetHttpState(t, s, ss))
  {
    var told1 :=
      if s.HttpActive? then Then(t.told, TransferStarted)
      else if t.trans.HttpActive? then Then(t.told, TransferFinished)
      else t.told;
    if t.trans != s && !t.trans.HttpDone? {
      assert Outcomes(told1) == 0 && Alternates(told1, s.HttpActive?);
    }
  }

  /** Cancelling works at any point, also halfway through another step. */
  lemma CancelHttp(t: Task)
    requires t.kind.Http? && ToldOk(t)
    requires forall k :: k in t.inflight ==> k < t.nextSession
    ensures HttpOk(Cancel(t)) && Cancel(t).wakeup.None? && Cancel(t).state.Done?
  {
    SetHttpStateTold(FinishTransfer(t), HttpDone, Cancelled);
  }

  lemma CancelOk(t: Task)
    requires TaskOk(t)
    ensures TaskOk(Cancel(t)) && Cancel(t).state.Done?
  {
    if t.kind.Http? {
      CancelHttp(t);
    }
  }

  lemma RunOk(t: Task, c: Choice)
    requires TaskOk(t) && t.state.Ready?
    ensures TaskOk(Run(t, c).0) && !Run(t, c).0.state.Ready? && !Run(t, c).0.state.Transmitting?
  {
    match t.kind
    case Http(_) =>
    case Notification(_) =>
    case Decode =>
    case Publish =>
    case Encode =>
  }

  lemma TransmitOk(t: Task, c: Choice)
    requires TaskOk(t) && Needs(t)
    ensures c.startOk ==> TaskOk(Transmit(t, c)) && Transmit(t, c).state.Transmitting?
    ensures !c.startOk ==> Finished(Transmit(t, c))
  {
    var k := t.nextSession;
    SetHttpStateTold(t.(tx := Some(k), inflight := t.inflight + {k}, nextSession := k + 1),
                     HttpActive, Successful);
  }

  lemma NetworkUnavailableOk(t: Task, canRetry: bool, c: Choice)
    requires TaskOk(t) && (Needs(t) || t.state.Transmitting?)
    ensures TaskOk(NetworkUnavailable(t, canRetry, c))
    ensures var s := NetworkUnavailable(t, canRetry, c).state; s.Sleep? || s.Done?
  {
    CancelHttp(t);
    CancelHttp(ScheduleWakeup(FinishTransfer(t), c.retry, c));
  }

  lemma HttpFinishedOk(t: Task, k: nat, status: Status, c: Choice)
    requires TaskOk(t) && t.kind.Http? && k in t.inflight
    ensures TaskOk(HttpFinished(t, k, status, c))
    ensures var t1 := HttpFinished(t, k, status, c);
            t1.state == t.state || t1.state.Sleep? || t1.state.Done?
  {
    var t0 := t.(inflight := t.inflight - {k});
    if t0.tx == Some(k) {
      if IsTransport(status) {
        SetHttpStateTold(Retry(t0, c), HttpPaused, status);
        SetHttpStateTold(Retry(t0, c), HttpDone, Cancelled);
      } else {
        SetHttpStateTold(SetState(t0, Done, c), HttpDone, status);
      }
    }
  }

  lemma HttpWriteErrorOk(t: Task, c: Choice)
    requires TaskOk(t) && t.kind.Http? && t.tx.Some? && t.tx.value in t.inflight
    ensures TaskOk(HttpWriteError(t, c))
    ensures var s := HttpWriteError(t, c).state; s.Sleep? || s.Done?
  {
    SetHttpStateTold(FinishTransfer(t), HttpPaused, Successful);
    var t1 := SetHttpState(FinishTransfer(t), HttpPaused, Successful);
    CancelHttp(ScheduleWakeup(t1, c.retry, c));
  }

  lemma OnEventOk(t: Task, e: TaskEvent, c: Choice)
    requires TaskOk(t) && Deliverable(t, e, c)
    ensures TaskOk(OnEvent(t, e, c).0)
    ensures Needs(OnEvent(t, e, c).0) ==> Needs(t)
    ensures OnEvent(t, e, c).0.state.Transmitting? ==> t.state.Transmitting?
  {
    match e
    case Completed(k, status) => HttpFinishedOk(t, k, status, c);
    case WriteFailed => HttpWriteErrorOk(t, c);
    case _ =>
  }

  // ------------------------------------------------------- the life of one task

  /** Everything that can be done to a task. */
  datatype Op =
    | OpRun
    | OpTransmit
    | OpNetworkUnavailable(canRetry: bool)
    | OpCancel
    | OpEvent(e: TaskEvent)

  /** When the dispatcher and the outside world may do it. */
  predicate Allowed(t: Task, op: Op, c: Choice) {
    match op
    case OpRun => t.state.Ready?
    case OpTransmit => Needs(t)
    case OpNetworkUnavailable(_) => Needs(t) || t.state.Transmitting?
    case OpCancel => true
    case OpEvent(e) => Deliverable(t, e, c)
  }

  function Apply(t: Task, op: Op, c: Choice): Task
    requires Allowed(t, op, c)
  {
    match op
    case OpRun => Run(t, c).0
    case OpTransmit => Transmit(t, c)
    case OpNetworkUnavailable(r) => NetworkUnavailable(t, r, c)
    case OpCancel => Cancel(t)
    case OpEvent(e) => OnEvent(t, e, c).0
  }

  /** The run loop lets a task go as soon as its own call left it DONE, and a task that was
      let go is never touched again; this is what follows a transmission that could not
      be started. */
  predicate LetGo(t: Task, op: Op, c: Choice)
    requires Allowed(t, op, c)
  {
    (op.OpRun? || op.OpTransmit?) && Apply(t, op, c).state.Done?
  }

  /** `history` is a possible life of a task that starts as `t` and ends as `last`. */
  predicate Life(t: Task, history: seq<(Op, Choice)>, last: Task)
    decreases |history|
  {
    if history == [] then t == last
    else
      var (op, c) := history[0];
      && Allowed(t, op, c)
      && var t1 := Apply(t, op, c);
         if LetGo(t, op, c) then |history| == 1 && last == t1
         else Life(t1, history[1..], last)
  }

  lemma ApplyOk(t: Task, op: Op, c: Choice)
    requires TaskOk(t) && Allowed(t, op, c)
    ensures LetGo(t, op, c) ==> Finished(Apply(t, op, c))
    ensures !LetGo(t, op, c) ==> TaskOk(Apply(t, op, c))
  {
    match op
    case OpRun => RunOk(t, c);
    case OpTransmit => TransmitOk(t, c);
    case OpNetworkUnavailable(r) => NetworkUnavailableOk(t, r, c);
    case OpCancel => CancelOk(t);
    case OpEvent(e) => OnEventOk(t, e, c);
  }

  /** Whatever happened to an http task, in whatever order, it has reported its outcome
      exactly once if it is DONE and not at all otherwise; its started and finished notices
      alternate; it has a wakeup pending exactly while it sleeps, never past its deadline. */
  lemma {:induction false} EveryLife(t: Task, history: seq<(Op, Choice)>, last: Task)
    requires TaskOk(t) && Life(t, history, last)
    ensures last.wakeup.Some? <==> last.state.Sleep?
    ensures last.wakeup.Some? ==> last.wakeup.value <= last.deadline
    ensures last.kind.Http? ==> Outcomes(last.told) == (if last.state.Done? then 1 else 0)
    ensures last.kind.Http? ==> Alternates(last.told, last.trans.HttpActive?)
    decreases |history|
  {
    if history != [] {
      var (op, c) := history[0];
      ApplyOk(t, op, c);
      if !LetGo(t, op, c) {
        EveryLife(Apply(t, op, c), history[1..], last);
      }
    }
  }

  /** Letting go matters: a task whose transmission could not be started has reported that,
      but its transaction is not marked as over, so cancelling it would report again. */
  lemma CancelWouldRepeat(t: Task, c: Choice)
    requires TaskOk(t) && Needs(t) && !c.startOk
    ensures Outcomes(Transmit(t, c).told) == 1
    ensures Outcomes(Cancel(Transmit(t, c)).told) == 2
  {
    var t1 := Transmit(t, c);
    assert t1.told == Then(t.told, Outcome(IoError)) && t1.trans == t.trans;
  }

  /** A transfer that could not be started is the only way for a task to end with a started
      notice unanswered, and it does so exactly when the network was lost during an
      earlier transfer and that loss left the transaction active. */
  lemma LeftStarted(t: Task, op: Op, c: Choice)
    requires t.kind.Http? && TaskOk(t) && Allowed(t, op, c) && Apply(t, op, c).state.Done?
    ensures Alternates(Apply(t, op, c).told, true) <==>
              op.OpTransmit? && !c.startOk && t.trans.HttpActive?
  {
    ApplyOk(t, op, c);
    if op.OpTransmit? {
      NotBoth(t.told);
    } else {
      EndsQuietly(Apply(t, op, c));
    }
  }

  lemma EndsQuietly(t: Task)
    requires t.kind.Http? && t.state.Done? && (TaskOk(t) || (Finished(t) && !t.trans.HttpActive?))
    ensures !Alternates(t.told, true)
  {
    NotBoth(t.told);
  }

  lemma {:induction false} NotBoth(h: History)
    ensures !(Alternates(h, true) && Alternates(h, false))
  {
    if h.Then? {
      NotBoth(h.before);
    }
  }

  /** It does happen: the network goes away during the first transfer and the file is gone
      when the second one is to start. */
  lemma LeftStartedExample()
    ensures exists t, history, last ::
      TaskOk(t) && Life(t, history, last) && last.state.Done? && Alternates(last.told, true)
  {
    var t := NewTask(0, Seed(Http(Retrieve), "1", "imsi", NORMAL, false, 0, 600));
    var c := Choice(0, 15, true, true, Decoded.Retrieved, true);
    var c1 := c.(now := 15, startOk := false);
    NewTaskOk(0, Seed(Http(Retrieve), "1", "imsi", NORMAL, false, 0, 600));
    var t1 := t.(state := NeedConnection);
    var t2 := t1.(state := Transmitting, tx := Some(0), inflight := {0}, nextSession := 1,
                  trans := HttpActive, told := Then(Begin, TransferStarted));
    var t3 := t2.(state := Sleep, tx := None, wakeup := Some(15), sleeps := 1);
    assert Apply(t, OpRun, c) == t1;
    assert Apply(t1, OpTransmit, c) == t2;
    assert Apply(t2, OpNetworkUnavailable(true), c) == t3;
    var h3, last := SecondTry(t3, c1);
    var h2 := OneMore(t2, OpNetworkUnavailable(true), c, h3, last);
    var h1 := OneMore(t1, OpTransmit, c, h2, last);
    var h0 := OneMore(t, OpRun, c, h1, last);
    assert Life(t, h0, last);
  }

  lemma SecondTry(t: Task, c: Choice) returns (history: seq<(Op, Choice)>, last: Task)
    requires t.kind.Http? && !t.user && t.state.Sleep? && t.wakeup == Some(15) && c.now == 15
    requires !c.startOk && t.told == Then(Begin, TransferStarted)
    ensures Life(t, history, last) && last.state.Done? && Alternates(last.told, true)
  {
    var t4 := t.(state := Ready, wakeup := None);
    var t5 := t4.(state := NeedConnection);
    assert Apply(t, OpEvent(Wake), c) == t4;
    assert Apply(t4, OpRun, c) == t5;
    last := t5.(state := Done, tx := None, told := Then(t.told, Outcome(IoError)));
    assert Apply(t5, OpTransmit, c) == last;
    history := [(OpTransmit, c)];
    assert Life(t5, history, last);
    history := OneMore(t4, OpRun, c, history, last);
    history := OneMore(t, OpEvent(Wake), c, history, last);
  }

  lemma OneMore(t: Task, op: Op, c: Choice, history: seq<(Op, Choice)>, last: Task)
    returns (longer: seq<(Op, Choice)>)
    requires Allowed(t, op, c) && !LetGo(t, op, c) && Life(Apply(t, op, c), history, last)
    ensures Life(t, longer, last)
  {
    longer := [(op, c)] + history;
    assert longer[1..] == history;
  }

  // --------------------------------------------------- how often a task can sleep

  predicate SleepOk(t: Task, now: int) {
    && (t.state.Sleep? ==> t.wakeup.Some? && t.sleeps <= t.wakeup.value - t.created)
    && (!t.state.Sleep? && !t.state.Done? ==> t.sleeps <= now - t.created)
    && (t.sleeps == 0 || t.sleeps <= t.deadline - t.created)
    && (t.sleeps > 0 || t.state.Pending? ==> DeadlineCut(t))
  }

  /** A notification lowers its own deadline when it first runs, so before it ever sleeps. */
  predicate DeadlineCut(t: Task) {
    t.kind.Notification? && t.kind.push.NotificationInd? ==> t.deadline <= t.kind.push.expiry
  }

  /** The clock of the choices never goes back and the retry interval is at least a second. */
  predicate Clocked(now: int, history: seq<(Op, Choice)>)
    decreases |history|
  {
    history == [] ||
    (now <= history[0].1.now && history[0].1.retry >= 1 && Clocked(history[0].1.now, history[1..]))
  }

  /** Going to sleep, the two ways the code does it. */
  lemma FallAsleep(t: Task, c: Choice)
    requires !t.state.Sleep? && !t.state.Done? && t.wakeup.None?
    requires t.sleeps <= c.now - t.created && c.retry >= 1
    requires SleepOk(t, c.now) && DeadlineCut(t)
    ensures SleepOk(Retry(t, c), c.now) && SleepOk(SetState(t, Sleep, c), c.now)
    ensures Retry(t, c).sleeps == t.sleeps + (if Retry(t, c).wakeup.Some? then 1 else 0)
  {
    assert c.now < t.deadline ==> ScheduleWakeup(t, 0, c).wakeup.value >= c.now + 1;
  }

  /** A task that waits for an answer now, or falls asleep. */
  lemma CallSleeps(t: Task, s: TaskState, call: bool, c: Choice)
    requires t.state.Ready? && t.wakeup.None? && SleepOk(t, c.now) && DeadlineCut(t) && c.retry >= 1
    requires s.Pending? || s.Working?
    ensures SleepOk(t.(call := call, state := s), c.now) && SleepOk(Retry(t, c), c.now)
  {
    hide Retry, SetState;
    FallAsleep(t, c);
  }

  lemma RunSleeps(t: Task, c: Choice)
    requires t.state.Ready? && t.wakeup.None? && SleepOk(t, c.now) && c.retry >= 1
    ensures SleepOk(Run(t, c).0, c.now)
  {
    hide Retry, SetState, ScheduleWakeup, Rejection, Child;
    var t1 := Run(t, c).0;
    match t.kind
    case Http(_) => assert t1.sleeps == t.sleeps && t1.deadline == t.deadline;
    case Notification(NotificationInd(expiry)) =>
      var t0 := t.(deadline := Min(t.deadline, expiry));
      CallSleeps(t0, Pending, true, c);
      assert t1 == if c.callOk then t0.(call := true, state := Pending) else Retry(t0, c);
    case Notification(_) => assert t1 == t.(state := Done);
    case Decode => assert t1 == t.(state := Done);
    case Publish =>
      CallSleeps(t.(call := false), Pending, true, c);
      assert t1 == if c.callOk then t.(call := true, state := Pending) else Retry(t.(call := false), c);
    case Encode =>
      CallSleeps(t, Working, true, c);
      assert t1 == if c.callOk then t.(call := true, state := Working) else Retry(t, c);
  }

  lemma CompletionSleeps(t: Task, k: nat, status: Status, c: Choice)
    requires t.kind.Http? && SleepOk(t, c.now) && c.retry >= 1
    requires t.tx == Some(k) ==> t.state.Transmitting? && t.wakeup.None?
    ensures SleepOk(HttpFinished(t, k, status, c), c.now)
  {
    if t.tx == Some(k) && IsTransport(status) {
      FallAsleep(t.(inflight := t.inflight - {k}), c);
    }
  }

  lemma AnswerSleeps(t: Task, e: TaskEvent, c: Choice)
    requires !e.Completed? && Deliverable(t, e, c) && SleepOk(t, c.now) && c.retry >= 1
    requires !e.Wake? ==> t.wakeup.None?
    requires e.WriteFailed? ==> t.state.Transmitting?
    requires e.NotifyDone? || e.PublishDone? ==> t.state.Pending?
    ensures SleepOk(OnEvent(t, e, c).0, c.now)
  {
    hide Retry, SetState, ScheduleWakeup, Rejection, Child;
    match e
    case Wake =>
    case WriteFailed => FallAsleep(SetHttpState(FinishTransfer(t), HttpPaused, Successful), c);
    case NotifyDone(_) => FallAsleep(t.(call := false), c);
    case PublishDone(_) => FallAsleep(t, c);
    case EncodeDone(_) =>
  }

  lemma EventSleeps(t: Task, e: TaskEvent, c: Choice, now: int)
    requires TaskOk(t) && Deliverable(t, e, c) && SleepOk(t, now) && now <= c.now && c.retry >= 1
    ensures SleepOk(OnEvent(t, e, c).0, c.now)
  {
    match e
    case Completed(k, status) => CompletionSleeps(t, k, status, c);
    case _ => AnswerSleeps(t, e, c);
  }

  lemma ApplySleeps(t: Task, op: Op, c: Choice, now: int)
    requires TaskOk(t) && Allowed(t, op, c) && SleepOk(t, now) && now <= c.now && c.retry >= 1
    ensures SleepOk(Apply(t, op, c), c.now)
  {
    match op
    case OpRun => RunSleeps(t, c);
    case OpTransmit => NoSleep(t, c);
    case OpNetworkUnavailable(r) =>
      if r {
        FallAsleep(FinishTransfer(t), c);
      } else {
        NoSleep(t, c);
      }
    case OpCancel => NoSleep(t, c);
    case OpEvent(e) => EventSleeps(t, e, c, now);
  }

  lemma NoSleep(t: Task, c: Choice)
    requires SleepOk(t, c.now) || (t.state.Sleep? && t.wakeup.Some? && SleepOk(t, t.wakeup.value))
    ensures SleepOk(Cancel(t), c.now)
    ensures Needs(t) ==> SleepOk(Transmit(t, c), c.now)
  {
  }

  /** A task never goes to sleep more often than there are seconds between its creation
      and its deadline. */
  lemma {:induction false} SleepsAreBounded(t: Task, history: seq<(Op, Choice)>, last: Task, now: int)
    requires TaskOk(t) && SleepOk(t, now) && Life(t, history, last) && Clocked(now, history)
    ensures last.sleeps == 0 || last.sleeps <= last.deadline - last.created
    decreases |history|
  {
    if history != [] {
      var (op, c) := history[0];
      ApplyOk(t, op, c);
      ApplySleeps(t, op, c, now);
      if !LetGo(t, op, c) {
        SleepsAreBounded(Apply(t, op, c), history[1..], last, c.now);
      }
    }
  }

  // ----------------------------------------------------------- from the creation on

  lemma EventKeeps(t: Task, e: TaskEvent, c: Choice)
    requires Deliverable(t, e, c)
    ensures OnEvent(t, e, c).0.created == t.created && OnEvent(t, e, c).0.deadline == t.deadline
  {
    match e
    case Completed(k, status) =>
    case _ =>
  }

  lemma ApplyKeeps(t: Task, op: Op, c: Choice)
    requires Allowed(t, op, c)
    ensures Apply(t, op, c).created == t.created && Apply(t, op, c).deadline <= t.deadline
  {
    match op
    case OpEvent(e) =>
      hide OnEvent;
      EventKeeps(t, e, c);
    case _ =>
  }

  /** A deadline is never put off. */
  lemma {:induction false} LifeKeeps(t: Task, history: seq<(Op, Choice)>, last: Task)
    requires Life(t, history, last)
    ensures last.created == t.created && last.deadline <= t.deadline
    decreases |history|
  {
    if history != [] {
      var (op, c) := history[0];
      ApplyKeeps(t, op, c);
      if !LetGo(t, op, c) {
        LifeKeeps(Apply(t, op, c), history[1..], last);
      }
    }
  }

  /** The whole life of a task, from its creation on: outcomes, notices and wakeups as
      EveryLife says, and never a wakeup past the deadline that it was created with. */
  lemma {:induction false} WholeLife(order: nat, s: Seed, history: seq<(Op, Choice)>, last: Task)
    requires Life(NewTask(order, s), history, last)
    ensures last.wakeup.Some? <==> last.state.Sleep?
    ensures last.wakeup.Some? ==> last.wakeup.value <= NewTask(order, s).deadline
    ensures last.kind.Http? ==> Outcomes(last.told) == (if last.state.Done? then 1 else 0)
    ensures last.kind.Http? ==> Alternates(last.told, last.trans.HttpActive?)
  {
    NewTaskOk(order, s);
    EveryLife(NewTask(order, s), history, last);
    LifeKeeps(NewTask(order, s), history, last);
  }

  /** From its creation on a task never sleeps more often than there are seconds until the
      deadline that it was created with. */
  lemma {:induction false} WholeLifeSleeps(order: nat, s: Seed, history: seq<(Op, Choice)>, last: Task)
    requires var t := NewTask(order, s);
      Life(t, history, last) && Clocked(t.created, history)
    ensures var t := NewTask(order, s);
      last.sleeps == 0 || last.sleeps <= t.deadline - t.created
  {
    var t := NewTask(order, s);
    NewTaskOk(order, s);
    assert SleepOk(t, t.created);
    SleepsAreBounded(t, history, last, t.created);
    LifeKeeps(t, history, last);
  }
}
