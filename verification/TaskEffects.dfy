/**
  What every operation on a task comes to, laid out as tables: the state that it is left in,
  when it wakes up, what it tells, and which tasks it queues.
*/
module TaskEffects {
  import opened Common
  import opened Tasks
  import opened TaskLife

  /** Asleep until it is time to try again, or over because it is too late for that. */
  function Asleep(deadline: int, c: Choice): TaskState {
    if c.now < deadline then Sleep else Done
  }

  /** A notification does not outlive the message it is about. */
  function DeadlineAfter(t: Task, op: Op): int {
    if op.OpRun? && t.kind.Notification? && t.kind.push.NotificationInd?
    then Min(t.deadline, t.kind.push.expiry) else t.deadline
  }

  function StateAfter(t: Task, op: Op, c: Choice): TaskState {
    var asleep := Asleep(DeadlineAfter(t, op), c);
    match op
    case OpRun =>
      (match t.kind
       case Http(_) => if t.user then NeedUserConnection else NeedConnection
       case Notification(NotificationInd(_)) => if c.callOk then Pending else asleep
       case Publish => if c.callOk then Pending else asleep
       case Encode => if c.callOk then Working else asleep
       case _ => Done)
    case OpTransmit => if c.startOk then Transmitting else Done
    case OpNetworkUnavailable(canRetry) => if canRetry then asleep else Done
    case OpCancel => Done
    case OpEvent(Wake) => Ready
    case OpEvent(Completed(k, status)) =>
      if t.tx != Some(k) then t.state
      else if status.Successful? || status.HttpError? then Done
      else asleep
    case OpEvent(WriteFailed) => asleep
    case OpEvent(NotifyDone(NoAnswer)) => asleep
    case OpEvent(PublishDone(ok)) => if ok then Done else asleep
    case OpEvent(_) => Done
  }

  /** A task that falls asleep sleeps for the retry interval, but not past its deadline. */
  function WakeupAfter(t: Task, op: Op, c: Choice): Option<int> {
    if !StateAfter(t, op, c).Sleep? then None
    else if t.state.Sleep? then t.wakeup
    else Some(Min(c.now + c.retry, DeadlineAfter(t, op)))
  }

  /** Which transfers libsoup still owes an answer for. */
  function OwedAfter(t: Task, op: Op, c: Choice): set<nat> {
    match op
    case OpTransmit => if c.startOk then t.inflight + {t.nextSession} else t.inflight
    case OpEvent(Completed(k, _)) => t.inflight - {k}
    case _ => t.inflight
  }

  predicate Leaves(t: Task, op: Op, c: Choice)
    requires Allowed(t, op, c)
  {
    var r := Apply(t, op, c);
    && r.state == StateAfter(t, op, c) && r.wakeup == WakeupAfter(t, op, c)
    && r.deadline == DeadlineAfter(t, op) && r.inflight == OwedAfter(t, op, c)
    && (r.cancelled ==> t.cancelled || r.state.Done?) && (op.OpCancel? ==> r.cancelled)
  }

  lemma RetryLeaves(t: Task, c: Choice)
    requires !t.state.Sleep? && !t.state.Done? && t.wakeup.None?
    ensures var r := Retry(t, c);
      && r.state == Asleep(t.deadline, c)
      && r.wakeup == if r.state.Sleep? then Some(Min(c.now + c.retry, t.deadline)) else None
    ensures var r := SetState(t, Sleep, c);
      && r.state == Asleep(t.deadline, c) && r.deadline == t.deadline && r.inflight == t.inflight
      && (r.cancelled ==> t.cancelled || r.state.Done?)
      && r.wakeup == if r.state.Sleep? then Some(Min(c.now + c.retry, t.deadline)) else None
  {
  }

  lemma RunLeaves(t: Task, c: Choice)
    requires TaskOk(t) && t.state.Ready?
    ensures Leaves(t, OpRun, c)
  {
    hide Retry, SetState, Rejection, Child, HttpOk, CallOk;
    match t.kind
    case Notification(NotificationInd(expiry)) => RetryLeaves(t.(deadline := Min(t.deadline, expiry)), c);
    case Publish => RetryLeaves(t.(call := false), c);
    case _ => RetryLeaves(t, c);
  }

  lemma TransmitLeaves(t: Task, c: Choice)
    requires TaskOk(t) && Needs(t)
    ensures Leaves(t, OpTransmit, c)
  {
    hide HttpOk, CallOk;
  }

  lemma UnavailableLeaves(t: Task, canRetry: bool, c: Choice)
    requires TaskOk(t) && Allowed(t, OpNetworkUnavailable(canRetry), c)
    ensures Leaves(t, OpNetworkUnavailable(canRetry), c)
  {
    hide SetState, HttpOk, CallOk;
    RetryLeaves(FinishTransfer(t), c);
  }

  lemma CancelLeaves(t: Task, c: Choice)
    requires TaskOk(t)
    ensures Leaves(t, OpCancel, c)
  {
    hide HttpOk, CallOk;
  }

  lemma CompletedLeaves(t: Task, k: nat, status: Status, c: Choice)
    requires TaskOk(t) && Deliverable(t, Completed(k, status), c)
    ensures Leaves(t, OpEvent(Completed(k, status)), c)
  {
    hide Retry, SetHttpState, ToldOk, CallOk;
    if t.tx == Some(k) {
      RetryLeaves(t.(inflight := t.inflight - {k}), c);
    }
  }

  lemma EventLeaves(t: Task, e: TaskEvent, c: Choice)
    requires TaskOk(t) && !e.Completed? && Deliverable(t, e, c)
    ensures Leaves(t, OpEvent(e), c)
  {
    hide Retry, SetState, SetHttpState, Rejection, Child, ToldOk;
    match e
    case WriteFailed => RetryLeaves(SetHttpState(FinishTransfer(t), HttpPaused, Successful), c);
    case NotifyDone(_) => RetryLeaves(t.(call := false), c);
    case PublishDone(_) => RetryLeaves(t, c);
    case _ =>
  }

  /** Every operation leaves the task in the state of the table, to wake up when the table
      says, and with the transfers of the table. */
  lemma OpLeaves(t: Task, op: Op, c: Choice)
    requires TaskOk(t) && Allowed(t, op, c)
    ensures Leaves(t, op, c)
  {
    hide Leaves, TaskOk;
    match op
    case OpRun => RunLeaves(t, c);
    case OpTransmit => TransmitLeaves(t, c);
    case OpNetworkUnavailable(canRetry) => UnavailableLeaves(t, canRetry, c);
    case OpCancel => CancelLeaves(t, c);
    case OpEvent(e) =>
      match e {
        case Completed(k, status) => CompletedLeaves(t, k, status, c);
        case _ => EventLeaves(t, e, c);
      }
  }

  // ------------------------------------------------------------------ what is told

  function Notices(h: History): seq<Notice> {
    match h
    case Begin => []
    case Then(before, last) => Notices(before) + [last]
  }

  /** A transfer that was announced is said to be finished before the outcome is told. */
  function Ending(t: Task, status: Status): seq<Notice> {
    (if t.trans.HttpActive? then [TransferFinished] else []) + [Outcome(status)]
  }

  /** What an http task tells in one operation. Success and refusal are told as they are; a
      transfer that broke off is put off while there is time, and cancelled after that. */
  function Tells(t: Task, op: Op, c: Choice): seq<Notice> {
    match op
    case OpTransmit =>
      if !c.startOk then [Outcome(IoError)]
      else if t.trans.HttpActive? then []
      else [TransferStarted]
    case OpNetworkUnavailable(canRetry) =>
      if canRetry && c.now < t.deadline then [] else Ending(t, Cancelled)
    case OpCancel => if t.state.Done? then [] else Ending(t, Cancelled)
    case OpEvent(Completed(k, status)) =>
      if t.tx != Some(k) then []
      else if status.Successful? || status.HttpError? then [TransferFinished, Outcome(status)]
      else if c.now < t.deadline then [TransferFinished, PutOff]
      else [TransferFinished, Outcome(Cancelled)]
    case OpEvent(WriteFailed) =>
      [TransferFinished, PutOff] + (if c.now < t.deadline then [] else [Outcome(Cancelled)])
    case _ => []
  }

  lemma {:induction false} NoticesNext(h: History, n: Notice)
    ensures Notices(Then(h, n)) == Notices(h) + [n]
  {
  }

  lemma {:induction false} TwoMore(h: History, a: Notice, b: Notice)
    ensures Notices(Then(Then(h, a), b)) == Notices(h) + [a, b]
  {
    assert Notices(h) + [a] + [b] == Notices(h) + [a, b];
  }

  /** What a change of the transaction tells. */
  lemma HttpStateTells(t: Task, s: HttpState, status: Status)
    requires !t.trans.HttpDone? && t.trans != s
    ensures Notices(SetHttpState(t, s, status).told) == Notices(t.told) +
      (if s.HttpActive? then [TransferStarted]
       else (if t.trans.HttpActive? then [TransferFinished] else []) +
            (if s.HttpPaused? then [PutOff] else if s.HttpDone? then [Outcome(status)] else []))
  {
    hide Notices;
    var h := t.told;
    NoticesNext(h, TransferStarted);
    NoticesNext(h, TransferFinished);
    NoticesNext(h, PutOff);
    NoticesNext(h, Outcome(status));
    TwoMore(h, TransferFinished, PutOff);
    TwoMore(h, TransferFinished, Outcome(status));
  }

  lemma CancelTells(t: Task)
    requires t.kind.Http? && !t.trans.HttpDone?
    ensures Notices(Cancel(t).told) == Notices(t.told) + Ending(t, Cancelled)
  {
    hide SetHttpState, Notices;
    HttpStateTells(FinishTransfer(t), HttpDone, Cancelled);
  }

  predicate ToldAs(t: Task, op: Op, c: Choice)
    requires Allowed(t, op, c)
  {
    Notices(Apply(t, op, c).told) == Notices(t.told) + Tells(t, op, c)
  }

  lemma TransmitTells(t: Task, c: Choice)
    requires t.kind.Http? && TaskOk(t) && Needs(t)
    ensures ToldAs(t, OpTransmit, c)
  {
    hide Notices, SetHttpState, ToldOk;
    var k := t.nextSession;
    var t1 := FinishTransfer(t).(tx := Some(k), inflight := t.inflight + {k}, nextSession := k + 1);
    NoticesNext(t.told, Outcome(IoError));
    if c.startOk && !t.trans.HttpActive? {
      HttpStateTells(t1, HttpActive, Successful);
    } else if c.startOk {
      assert SetHttpState(t1, HttpActive, Successful) == t1 by {
        SameHttpState(t1, HttpActive, Successful);
      }
      assert Notices(t.told) + [] == Notices(t.told);
    }
  }

  lemma SameHttpState(t: Task, s: HttpState, status: Status)
    requires t.trans == s
    ensures SetHttpState(t, s, status) == t
  {
  }

  lemma UnavailableTells(t: Task, canRetry: bool, c: Choice)
    requires t.kind.Http? && TaskOk(t) && (Needs(t) || t.state.Transmitting?)
    ensures ToldAs(t, OpNetworkUnavailable(canRetry), c)
  {
    hide Notices, Cancel, ToldOk;
    CancelTells(t);
    CancelTells(ScheduleWakeup(FinishTransfer(t), c.retry, c));
    assert Notices(t.told) + [] == Notices(t.told);
  }

  lemma CompletedTells(t: Task, k: nat, status: Status, c: Choice)
    requires t.kind.Http? && TaskOk(t) && k in t.inflight
    ensures ToldAs(t, OpEvent(Completed(k, status)), c)
  {
    hide Notices, SetHttpState, Retry, ToldOk, Child;
    assert Notices(t.told) + [] == Notices(t.told);
    if t.tx == Some(k) {
      var t0 := t.(inflight := t.inflight - {k});
      RetryLeaves(t0, c);
      HttpStateTells(Retry(t0, c), HttpPaused, status);
      HttpStateTells(Retry(t0, c), HttpDone, Cancelled);
      HttpStateTells(SetState(t0, Done, c), HttpDone, status);
    }
  }

  lemma WriteFailedTells(t: Task, c: Choice)
    requires t.kind.Http? && TaskOk(t) && t.tx.Some? && t.tx.value in t.inflight
    ensures ToldAs(t, OpEvent(WriteFailed), c)
  {
    hide Notices, SetHttpState, Cancel, ToldOk;
    var t1 := SetHttpState(FinishTransfer(t), HttpPaused, Successful);
    HttpStateTells(FinishTransfer(t), HttpPaused, Successful);
    PausedNow(FinishTransfer(t));
    var t2 := ScheduleWakeup(t1, c.retry, c);
    CancelTells(t2);
    assert Notices(t.told) + [TransferFinished, PutOff] + [] == Notices(t.told) + [TransferFinished, PutOff];
    assert Notices(t.told) + [TransferFinished, PutOff] + [Outcome(Cancelled)]
      == Notices(t.told) + ([TransferFinished, PutOff] + [Outcome(Cancelled)]);
  }

  lemma PausedNow(t: Task)
    requires t.trans.HttpActive?
    ensures SetHttpState(t, HttpPaused, Successful).trans == HttpPaused
  {
  }

  /** Every operation on an http task tells what the table says, and nothing else. */
  lemma OpTells(t: Task, op: Op, c: Choice)
    requires t.kind.Http? && TaskOk(t) && Allowed(t, op, c)
    ensures ToldAs(t, op, c)
  {
    hide Notices;
    assert Notices(t.told) + [] == Notices(t.told);
    match op
    case OpTransmit => TransmitTells(t, c);
    case OpNetworkUnavailable(canRetry) => UnavailableTells(t, canRetry, c);
    case OpCancel => CancelledTells(t, c);
    case OpEvent(Completed(k, status)) => CompletedTells(t, k, status, c);
    case OpEvent(WriteFailed) => WriteFailedTells(t, c);
    case _ =>
  }

  lemma CancelledTells(t: Task, c: Choice)
    requires t.kind.Http? && TaskOk(t)
    ensures ToldAs(t, OpCancel, c)
  {
    hide Notices, ToldOk;
    assert Notices(t.told) + [] == Notices(t.told);
    if !t.state.Done? {
      hide Cancel;
      CancelTells(t);
    } else {
      SameHttpState(FinishTransfer(t), HttpDone, Cancelled);
    }
  }

  /** What is told in the course of a life. */
  function Said(t: Task, history: seq<(Op, Choice)>): seq<Notice>
    decreases |history|
  {
    if history == [] then []
    else
      var (op, c) := history[0];
      if !Allowed(t, op, c) then [] else Tells(t, op, c) + Said(Apply(t, op, c), history[1..])
  }

  lemma {:induction false} LifeTells(t: Task, history: seq<(Op, Choice)>, last: Task)
    requires t.kind.Http? && TaskOk(t) && Life(t, history, last)
    ensures Notices(last.told) == Notices(t.told) + Said(t, history)
    decreases |history|
  {
    hide Notices, Tells, TaskOk, Apply;
    if history == [] {
      assert Notices(t.told) + [] == Notices(t.told);
    } else {
      var (op, c) := history[0];
      OpTells(t, op, c);
      ApplyOk(t, op, c);
      SameKind(t, op, c);
      var t1 := Apply(t, op, c);
      if LetGo(t, op, c) {
        assert history[1..] == [];
        assert Tells(t, op, c) + [] == Tells(t, op, c);
      } else {
        LifeTells(t1, history[1..], last);
        Regroup(Notices(t.told), Tells(t, op, c), Said(t1, history[1..]));
      }
    }
  }

  lemma SameKind(t: Task, op: Op, c: Choice)
    requires Allowed(t, op, c)
    ensures Apply(t, op, c).kind == t.kind
  {
  }

  /** From its creation on, whatever happens to an http task, it tells exactly what the
      operations on it stand for, in order; and if it is over, that has one outcome, the
      status of the operation that decided it. */
  lemma {:induction false} WholeLifeTells(order: nat, s: Seed, history: seq<(Op, Choice)>, last: Task)
    requires s.kind.Http? && Life(NewTask(order, s), history, last)
    ensures Notices(last.told) == Said(NewTask(order, s), history)
    ensures Outcomes(last.told) == if last.state.Done? then 1 else 0
  {
    hide Life, Said;
    var t := NewTask(order, s);
    NewTaskOk(order, s);
    LifeTells(t, history, last);
    WholeLife(order, s, history, last);
    LifeKeepsKind(t, history, last);
    assert Notices(t.told) + Said(t, history) == Said(t, history);
  }

  lemma {:induction false} LifeKeepsKind(t: Task, history: seq<(Op, Choice)>, last: Task)
    requires Life(t, history, last)
    ensures last.kind == t.kind
    decreases |history|
  {
    hide Apply;
    if history != [] {
      var (op, c) := history[0];
      SameKind(t, op, c);
      if !LetGo(t, op, c) {
        LifeKeepsKind(Apply(t, op, c), history[1..], last);
      }
    }
  }

  // ------------------------------------------------------------- what is queued

  /** The tasks that an operation queues. */
  function Children(t: Task, op: Op, c: Choice): seq<Seed>
    requires Allowed(t, op, c)
  {
    match op
    case OpRun => Run(t, c).1
    case OpEvent(e) => OnEvent(t, e, c).1
    case _ => []
  }

  /** What has to happen for a task of that kind to be queued. */
  predicate Caused(t: Task, op: Op, c: Choice, kind: Kind) {
    match kind
    case Publish => op.OpRun? && t.kind.Decode? && c.decoded.Retrieved?
    case Http(Ack) => op.OpRun? && t.kind.Decode? && c.decoded.Retrieved? && c.childOk
    case Http(NotifyResp) => c.childOk && Rejects(t, op, c)
    case Http(Retrieve) => c.childOk && op.OpEvent? && op.e.NotifyDone? && op.e.answer.Download?
    case Http(Send) => op == OpEvent(EncodeDone(true))
    case Decode =>
      && c.childOk && t.kind == Http(Retrieve) && t.tx.Some?
      && op == OpEvent(Completed(t.tx.value, Successful))
    case _ => false
  }

  /** The server is told that a message was not understood, or not wanted in time. */
  predicate Rejects(t: Task, op: Op, c: Choice) {
    match op
    case OpRun =>
      || (t.kind.Decode? && c.decoded.Unrecognised?)
      || (t.kind.Notification? && t.kind.push.NotificationInd? && !c.callOk
          && c.now >= Min(t.deadline, t.kind.push.expiry))
    case OpEvent(NotifyDone(NoAnswer)) => c.now >= t.deadline
    case _ => false
  }

  /** A task for the same SIM and message; the download has the message id that the
      notification was answered with. */
  predicate ChildOf(s: Seed, t: Task, op: Op, c: Choice) {
    && s.imsi == t.imsi && !s.user && s.created == c.now && s.deadline == c.now + DEFAULT_LIFETIME
    && s.id == (if s.kind == Http(Retrieve) && op.OpEvent? && op.e.NotifyDone? && op.e.answer.Download?
                then op.e.answer.id else t.id)
    && s.priority == (if s.kind.Http? && !s.kind.role.Ack? then NORMAL else POST_PROCESS)
  }

  predicate QueuedIn(children: seq<Seed>, kind: Kind) {
    exists i :: 0 <= i < |children| && children[i].kind == kind
  }

  lemma RetryInTime(t: Task, c: Choice)
    requires !t.state.Sleep? && !t.state.Done? && t.wakeup.None?
    ensures Retry(t, c).wakeup.Some? <==> c.now < t.deadline
  {
    RetryLeaves(t, c);
  }

  predicate AsCaused(t: Task, op: Op, c: Choice, kind: Kind)
    requires Allowed(t, op, c)
  {
    QueuedIn(Children(t, op, c), kind) <==> Caused(t, op, c, kind)
  }

  lemma QueuedAt(children: seq<Seed>, kind: Kind)
    requires |children| <= 2
    ensures QueuedIn(children, kind) <==>
      (|children| > 0 && children[0].kind == kind) || (|children| > 1 && children[1].kind == kind)
  {
  }

  lemma RunCaused(t: Task, c: Choice, kind: Kind)
    requires TaskOk(t) && t.state.Ready?
    ensures AsCaused(t, OpRun, c, kind)
  {
    hide Retry, SetState, TaskOk, QueuedIn;
    if t.kind.Notification? && t.kind.push.NotificationInd? {
      RetryInTime(t.(deadline := Min(t.deadline, t.kind.push.expiry)), c) by {
        NothingPlanned(t);
      }
    }
    QueuedAt(Run(t, c).1, kind);
  }

  lemma NothingPlanned(t: Task)
    requires TaskOk(t) && !t.state.Sleep?
    ensures t.wakeup.None?
  {
  }

  lemma PendingIs(t: Task, e: TaskEvent, c: Choice)
    requires TaskOk(t) && e.NotifyDone? && Deliverable(t, e, c)
    ensures t.state.Pending? && t.wakeup.None?
  {
  }

  lemma EventCaused(t: Task, e: TaskEvent, c: Choice, kind: Kind)
    requires TaskOk(t) && Deliverable(t, e, c)
    ensures AsCaused(t, OpEvent(e), c, kind)
  {
    hide Retry, SetState, HttpFinished, HttpWriteError, TaskOk, QueuedIn;
    if e.NotifyDone? {
      PendingIs(t, e, c);
      RetryInTime(t.(call := false), c);
    }
    QueuedAt(OnEvent(t, e, c).1, kind);
  }

  lemma ChildrenAre(t: Task, op: Op, c: Choice)
    requires Allowed(t, op, c)
    ensures var children := Children(t, op, c);
      && (forall i, j :: 0 <= i < j < |children| ==> children[i].kind != children[j].kind)
      && (forall i :: 0 <= i < |children| ==> ChildOf(children[i], t, op, c))
  {
    hide Retry, SetState, HttpFinished, HttpWriteError;
  }

  /** An operation queues a task of a kind exactly when there is a cause for it, never two of
      the same kind, and always for the same SIM and message. */
  lemma ChildrenExactly(t: Task, op: Op, c: Choice)
    requires TaskOk(t) && Allowed(t, op, c)
    ensures var children := Children(t, op, c);
      && (forall kind :: QueuedIn(children, kind) <==> Caused(t, op, c, kind))
      && (forall i, j :: 0 <= i < j < |children| ==> children[i].kind != children[j].kind)
      && (forall i :: 0 <= i < |children| ==> ChildOf(children[i], t, op, c))
  {
    hide QueuedIn, Children, Caused, ChildOf, TaskOk;
    ChildrenAre(t, op, c);
    forall kind
      ensures QueuedIn(Children(t, op, c), kind) <==> Caused(t, op, c, kind)
    {
      assert AsCaused(t, op, c, kind) by {
        match op
        case OpRun => RunCaused(t, c, kind);
        case OpEvent(e) => EventCaused(t, e, c, kind);
        case _ => NoneCaused(t, op, c, kind);
      }
    }
  }

  lemma NoneCaused(t: Task, op: Op, c: Choice, kind: Kind)
    requires Allowed(t, op, c) && !op.OpRun? && !op.OpEvent?
    ensures AsCaused(t, op, c, kind)
  {
  }
}
