/**
  The task object of mms_task.c and the task kinds built on it (mms_task_http.c,
  mms_task_notification.c, mms_task_decode.c, mms_task_publish.c, mms_task_encode.c),
  as values. Every function is one call of the code; what the outside world answers
  during that call (clock, files, D-Bus, HTTP) comes in a Choice.
*/
module Tasks {
  import opened Common

  datatype TaskState =
    | Ready | NeedConnection | NeedUserConnection | Transmitting
    | Working | Pending | Sleep | Done

  datatype HttpState = HttpReady | HttpActive | HttpPaused | HttpDone

  /** Classes of libsoup status codes; the last three are transport errors. */
  datatype Status = Successful | HttpError | TransportError | Cancelled | IoError

  predicate IsTransport(s: Status) {
    s.TransportError? || s.Cancelled? || s.IoError?
  }

  /** What an http task tells the rest of the program: the transfer list learns that a
      transfer started or finished, the task's own class that it was put off or is over. */
  datatype Notice = TransferStarted | TransferFinished | PutOff | Outcome(status: Status)

  /** Everything a task has told, oldest first. */
  datatype History = Begin | Then(before: History, last: Notice)

  datatype Push = NotificationInd(expiry: int) | DeliveryInd | ReadOrigInd | OtherPush

  datatype HttpRole = Retrieve | Send | ReadReport | Ack | NotifyResp

  datatype Kind =
    | Http(role: HttpRole)
    | Notification(push: Push)
    | Decode
    | Publish
    | Encode

  const NORMAL := 0
  const POST_PROCESS := 1

  /** `order` is the creation counter; no two live tasks share one, so it also serves as
      the task's identity. `call` says that the task holds an asynchronous request that
      it started (handler call, encoding thread); a publishing task keeps holding its call
      after the answer. `sleeps` counts how often
      the task went to sleep. A transfer is named by its session number; `inflight` holds
      the sessions whose completion callback libsoup has yet to deliver. */
  datatype Task = Task(
    order: nat, kind: Kind, id: string, imsi: string, priority: int, user: bool,
    created: int, deadline: int, state: TaskState, wakeup: Option<int>, cancelled: bool,
    call: bool, sleeps: nat,
    trans: HttpState, tx: Option<nat>, inflight: set<nat>, nextSession: nat,
    told: History)

  datatype Decoded = Retrieved | ServerError | Unrecognised

  /** The outside world's answers during one step. */
  datatype Choice = Choice(
    now: int,                 // time()
    retry: nat,               // config->retry_secs
    callOk: bool,             // the asynchronous request could be started
    childOk: bool,            // the files of a child task could be prepared
    decoded: Decoded,         // what the downloaded PDU turned out to be
    startOk: bool)            // files and URI of the HTTP transfer are usable

  /** A task about to be created; the dispatcher numbers it. */
  datatype Seed = Seed(kind: Kind, id: string, imsi: string, priority: int, user: bool,
                       created: int, deadline: int)

  const DEFAULT_LIFETIME := 600

  function NewTask(order: nat, s: Seed): Task {
    Task(order, s.kind, s.id, s.imsi, s.priority, s.user, s.created, s.deadline,
         Ready, None, false, false, 0, HttpReady, None, {}, 0, Begin)
  }

  function Child(t: Task, kind: Kind, priority: int, now: int): Seed {
    Seed(kind, t.id, t.imsi, priority, false, now, now + DEFAULT_LIFETIME)
  }

  predicate Needs(t: Task) {
    t.state.NeedConnection? || t.state.NeedUserConnection?
  }

  predicate Runnable(t: Task) {
    t.state.Ready? || t.state.Done?
  }

  /** The same task, at two points of its life. */
  predicate SameTask(a: Task, b: Task) {
    && a.order == b.order && a.kind == b.kind && a.imsi == b.imsi
    && a.priority == b.priority && a.user == b.user && a.created == b.created
  }

  // ---------------------------------------------------------------- mms_task.c

  function ScheduleWakeup(t: Task, secs: nat, c: Choice): (r: Task)
    ensures SameTask(r, t)
  {
    var want := if secs == 0 then c.retry else secs;
    if c.now < t.deadline then
      t.(wakeup := Some(c.now + Min(want, t.deadline - c.now)))
    else
      t.(wakeup := None)
  }

  function Enter(t: Task, s: TaskState): (r: Task)
    ensures SameTask(r, t)
  {
    t.(state := s, sleeps := if s.Sleep? then t.sleeps + 1 else t.sleeps)
  }

  /** fn_cancel of the base class. */
  function BaseCancel(t: Task): (r: Task)
    ensures SameTask(r, t)
  {
    t.(wakeup := None, cancelled := true, state := Done)
  }

  /** fn_cancel of whatever class the task has. An encoding thread is only asked to stop
      and still reports back. */
  function Cancel(t: Task): (r: Task)
    ensures SameTask(r, t)
    ensures r.state.Done? && r.wakeup.None? && r.sleeps == t.sleeps && r.deadline == t.deadline
  {
    match t.kind
    case Http(_) => BaseCancel(SetHttpState(FinishTransfer(t), HttpDone, Cancelled))
    case Notification(_) => BaseCancel(t.(call := false))
    case Publish => BaseCancel(t.(call := false))
    case Decode => BaseCancel(t)
    case Encode => BaseCancel(t)
  }

  function SetState(t: Task, s: TaskState, c: Choice): (r: Task)
    ensures SameTask(r, t)
    ensures r.state == s || (s.Sleep? && r.state.Done?)
    ensures !s.Sleep? ==> r == t.(state := s)
  {
    if t.state == s then t
    else if s.Sleep? && t.wakeup.None? then
      var t1 := ScheduleWakeup(t, c.retry, c);
      if t1.wakeup.Some? then Enter(t1, Sleep) else Cancel(t1)
    else Enter(t, s)
  }

  /** mms_task_sleep; the C function's result is `wakeup.Some?` of the task it leaves. */
  function GoToSleep(t: Task, secs: nat, c: Choice): (r: Task)
    ensures SameTask(r, t)
    ensures r == t.(state := if r.wakeup.Some? then Sleep else Done, wakeup := r.wakeup, sleeps := r.sleeps)
  {
    var t1 := ScheduleWakeup(t, secs, c);
    SetState(t1, if t1.wakeup.Some? then Sleep else Done, c)
  }

  function Retry(t: Task, c: Choice): (r: Task)
    ensures SameTask(r, t)
    ensures r == t.(state := if r.wakeup.Some? then Sleep else Done, wakeup := r.wakeup, sleeps := r.sleeps)
  {
    GoToSleep(t, 0, c)
  }

  // ----------------------------------------------------------- mms_task_http.c

  function SetHttpState(t: Task, s: HttpState, ss: Status): (r: Task)
    ensures SameTask(r, t)
    ensures r == t.(trans := r.trans, told := r.told)
  {
    if t.trans == s || t.trans.HttpDone? then t
    else
      var told1 :=
        if s.HttpActive? then Then(t.told, TransferStarted)
        else if t.trans.HttpActive? then Then(t.told, TransferFinished)
        else t.told;
      var told2 :=
        match s
        case HttpPaused => Then(told1, PutOff)
        case HttpDone => Then(told1, Outcome(ss))
        case _ => told1;
      t.(trans := s, told := told2)
  }

  function FinishTransfer(t: Task): (r: Task)
    ensures SameTask(r, t)
  {
    t.(tx := None)
  }

  function HttpStart(t: Task, c: Choice): (r: Task)
    ensures SameTask(r, t)
    ensures r.state == t.state && r.wakeup == t.wakeup && r.sleeps == t.sleeps && r.deadline == t.deadline
  {
    var t1 := FinishTransfer(t);
    if c.startOk then
      var k := t1.nextSession;
      SetHttpState(t1.(tx := Some(k), inflight := t1.inflight + {k}, nextSession := k + 1),
                   HttpActive, Successful)
    else t1
  }

  function Transmit(t: Task, c: Choice): (r: Task)
    ensures SameTask(r, t)
    ensures r.sleeps == t.sleeps && r.deadline == t.deadline
    ensures r.state.Transmitting? || r.state.Done?
  {
    if t.state.Transmitting? then t
    else
      var t1 := HttpStart(t, c);
      if c.startOk then SetState(t1, Transmitting, c)
      else SetState(t1.(told := Then(t1.told, Outcome(IoError))), Done, c)
  }

  function HttpFinished(t: Task, session: nat, status: Status, c: Choice): (r: Task)
    ensures SameTask(r, t)
  {
    var t0 := t.(inflight := t.inflight - {session});
    if t0.tx != Some(session) then t0
    else if IsTransport(status) then
      var t1 := Retry(t0, c);
      if t1.wakeup.Some? then SetHttpState(t1, HttpPaused, status)
      else SetHttpState(t1, HttpDone, Cancelled)
    else SetHttpState(SetState(t0, Done, c), HttpDone, status)
  }

  function HttpWriteError(t: Task, c: Choice): (r: Task)
    ensures SameTask(r, t)
  {
    SetState(SetHttpState(FinishTransfer(t), HttpPaused, Successful), Sleep, c)
  }

  function NetworkUnavailable(t: Task, canRetry: bool, c: Choice): (r: Task)
    ensures SameTask(r, t)
  {
    if t.state.Done? then t
    else if canRetry then SetState(FinishTransfer(t), Sleep, c)
    else Cancel(t)
  }

  // ------------------------------------------------------------- the task kinds

  function Rejection(t: Task, c: Choice): seq<Seed> {
    if c.childOk then [Child(t, Http(NotifyResp), NORMAL, c.now)] else []
  }

  /** mms_task_run: the task as its kind's fn_run leaves it, and the children it queues. */
  function Run(t: Task, c: Choice): (r: (Task, seq<Seed>))
    ensures SameTask(r.0, t)
  {
    match t.kind
    case Http(_) =>
      (SetState(t, if t.user then NeedUserConnection else NeedConnection, c), [])
    case Notification(NotificationInd(expiry)) =>
      var t1 := t.(deadline := Min(t.deadline, expiry));
      if c.callOk then (SetState(t1.(call := true), Pending, c), [])
      else
        var t2 := Retry(t1, c);
        (t2, if t2.wakeup.Some? then [] else Rejection(t2, c))
    case Notification(_) => (SetState(t, Done, c), [])
    case Decode =>
      (SetState(t, Done, c),
       match c.decoded
       case Retrieved =>
         (if c.childOk then [Child(t, Http(Ack), POST_PROCESS, c.now)] else []) +
         [Child(t, Publish, POST_PROCESS, c.now)]
       case ServerError => []
       case Unrecognised => Rejection(t, c))
    case Publish =>
      (if c.callOk then SetState(t.(call := true), Pending, c) else Retry(t.(call := false), c), [])
    case Encode =>
      (if c.callOk then SetState(t.(call := true), Working, c) else Retry(t, c), [])
  }

  datatype NotifyAnswer = NoAnswer | Postponed | Download(id: string)

  /** What reaches a task from outside the dispatcher. */
  datatype TaskEvent =
    | Wake
    | Completed(session: nat, status: Status)
    | WriteFailed
    | NotifyDone(answer: NotifyAnswer)
    | PublishDone(ok: bool)
    | EncodeDone(ok: bool)

  /** An event can only arrive when something is there to send it: a timer that is due, a
      completion libsoup still owes, a request still pending. */
  predicate Deliverable(t: Task, e: TaskEvent, c: Choice) {
    match e
    case Wake => t.state.Sleep? && t.wakeup.Some? && t.wakeup.value <= c.now
    case Completed(k, _) => t.kind.Http? && k in t.inflight
    case WriteFailed => t.kind.Http? && t.tx.Some? && t.tx.value in t.inflight
    case NotifyDone(_) => t.kind.Notification? && t.call
    case PublishDone(_) => t.kind.Publish? && t.state.Pending?
    case EncodeDone(_) => t.kind.Encode? && t.call
  }

  function OnEvent(t: Task, e: TaskEvent, c: Choice): (r: (Task, seq<Seed>))
    requires Deliverable(t, e, c)
    ensures SameTask(r.0, t)
  {
    match e
    case Wake => (SetState(t.(wakeup := None), Ready, c), [])
    case Completed(k, status) =>
      (HttpFinished(t, k, status, c),
       if t.tx == Some(k) && status.Successful? && t.kind.role.Retrieve? && c.childOk
       then [Child(t, Decode, POST_PROCESS, c.now)] else [])
    case WriteFailed => (HttpWriteError(t, c), [])
    case NotifyDone(Download(id)) =>
      var t1 := t.(call := false, id := id);
      (SetState(t1, Done, c),
       if c.childOk then [Child(t1, Http(Retrieve), NORMAL, c.now)] else [])
    case NotifyDone(Postponed) => (SetState(t.(call := false), Done, c), [])
    case NotifyDone(NoAnswer) =>
      var t1 := Retry(t.(call := false), c);
      (t1, if t1.wakeup.Some? then [] else Rejection(t1, c))
    case PublishDone(ok) => (if ok then SetState(t, Done, c) else Retry(t, c), [])
    case EncodeDone(ok) =>
      (SetState(t.(call := false), Done, c),
       if ok then [Child(t, Http(Send), NORMAL, c.now)] else [])
  }
}
