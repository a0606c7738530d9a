/** A run of the dispatcher that ends up with a queue on which the comparator is not transitive. */
module DispatcherCycle {
  import opened Common
  import opened Tasks
  import opened TaskOrder
  import opened DispatcherModel
  import S = DispatcherSafety
  import MergeSort

  /** Three tasks in order stay where they are. */
  lemma ThreeStay(a: Task, b: Task, c: Task, conn: Option<Connection>)
    requires Compare(a, b, conn) <= 0 && Compare(b, c, conn) <= 0
    ensures SortTasks([a, b, c], conn) == [a, b, c]
  {
    hide Compare;
    var cmp, ts, two := Comparator(conn), [a, b, c], [b, c];
    assert ts[..1] == [a] && ts[1..] == two;
    assert two[..1] == [b] && two[1..] == [c];
    assert [a][1..] == [] && [b][1..] == [];
    assert cmp(a, b) <= 0 && cmp(b, c) <= 0;
    assert MergeSort.Sort([a], cmp) == [a] && MergeSort.Sort([b], cmp) == [b] && MergeSort.Sort([c], cmp) == [c];
    assert MergeSort.Merge([b], [c], cmp) == [b] + MergeSort.Merge([], [c], cmp) == two;
    assert MergeSort.Merge([a], two, cmp) == [a] + MergeSort.Merge([], two, cmp) == ts;
    assert MergeSort.Sort(two, cmp) == two;
  }

  /** One turn: the first of three tasks asks for a connection and goes to the end. */
  lemma FirstAsks(d: Dispatcher, a: Task, b: Task, c: Task, o: Oracle, turn: nat)
    requires d.active.None? && d.tasks == [a, b, c] && a.kind.Http? && !a.user && a.state.Ready?
    requires Compare(a, b, d.conn) <= 0 && Compare(b, c, d.conn) <= 0
    ensures RunLoop(d, o, turn) ==
      RunLoop(d.(tasks := [b, c, a.(state := NeedConnection)]), o, turn + 1)
  {
    hide Compare, RunLoop, SortTasks;
    ThreeStay(a, b, c, d.conn);
    var d1 := Pick(d, Nth(o, turn));
    assert d1 == d.(tasks := [b, c], active := Some(a));
    var none: seq<Seed> := [];
    assert Handle(a, Nth(o, turn).choice) == (a.(state := NeedConnection), none);
    assert Queue(d1, none).tasks == [b, c];
    assert Dispatch(d1, Nth(o, turn)) == d.(tasks := [b, c, a.(state := NeedConnection)]);
    NextTurn(d, o, turn);
  }

  lemma NextTurn(d: Dispatcher, o: Oracle, turn: nat)
    requires d.active.None?
    ensures var d1 := Pick(d, Nth(o, turn));
      RunLoop(d, o, turn) == if d1.active.None? then d1 else RunLoop(Dispatch(d1, Nth(o, turn)), o, turn + 1)
  {
    hide Pick, Dispatch;
  }

  /** The last turn: the first of three waiting tasks gets a connection that is being opened. */
  lemma {:induction false} FirstWaits(d: Dispatcher, a: Task, b: Task, c: Task, o: Oracle, turn: nat)
    requires d.active.None? && d.tasks == [a, b, c] && a.state.NeedConnection?
    requires d.conn == None && Nth(o, turn).link == Some(false)
    requires Compare(a, b, d.conn) <= 0 && Compare(b, c, d.conn) <= 0
    ensures RunLoop(d, o, turn) == d.(conn := Some(Connection(a.imsi, Opening)))
  {
    hide Compare, RunLoop, SortTasks;
    ThreeStay(a, b, c, d.conn);
    NextTurn(d, o, turn);
  }

  function Sending(imsi: string): Seed {
    Seed(Http(Send), "0", imsi, NORMAL, false, 0, 600)
  }

  function Asking(order: nat, imsi: string): Task {
    NewTask(order, Sending(imsi)).(state := NeedConnection)
  }

  /** Three tasks for two SIMs are run. */
  lemma {:induction false} AllAsk(d: Dispatcher, o: Oracle)
    requires d.active.None? && d.conn == None && Nth(o, 4).link == Some(false)
    requires d.tasks == [NewTask(0, Sending("a")), NewTask(1, Sending("b")), NewTask(2, Sending("a"))]
    ensures RunLoop(d, o, 1) ==
      d.(tasks := [Asking(0, "a"), Asking(1, "b"), Asking(2, "a")], conn := Some(Connection("a", Opening)))
  {
    hide RunLoop, SortTasks;
    var a, b, c := d.tasks[0], d.tasks[1], d.tasks[2];
    var a1, b1, c1 := Asking(0, "a"), Asking(1, "b"), Asking(2, "a");
    FirstAsks(d, a, b, c, o, 1);
    FirstAsks(d.(tasks := [b, c, a1]), b, c, a1, o, 2);
    FirstAsks(d.(tasks := [c, a1, b1]), c, a1, b1, o, 3);
    FirstWaits(d.(tasks := [a1, b1, c1]), a1, b1, c1, o, 4);
  }

  lemma {:induction false} AfterFirst(d: Dispatcher, e: Event, o: Oracle, events: seq<(Event, Oracle)>)
    requires d.active.None?
    ensures S.After(d, [(e, o)] + events) == S.After(Step(d, e, o), events)
  {
    hide Step;
    assert ([(e, o)] + events)[1..] == events;
  }

  /** The three are submitted and run; the connection opens when a fourth has just come. */
  function Cycling(o: Oracle): seq<(Event, Oracle)> {
    [(Submit(Sending("a")), o)] + ([(Submit(Sending("b")), o)] + ([(Submit(Sending("a")), o)] +
    ([(Start(true), o)] + ([(RunNow, o)] + ([(Submit(Sending("a")), o)] + ([(ConnectionChanged(Open), o)] + []))))))
  }

  lemma OneSubmitted(d: Dispatcher, seed: Seed, o: Oracle)
    requires d.active.None?
    ensures Step(d, Submit(seed), o)
      == d.(tasks := d.tasks + [NewTask(d.created, seed)], created := d.created + 1, unannounced := true)
  {
    assert NewTasks([seed], d.created) == [NewTask(d.created, seed)];
  }

  /** Three tasks are submitted, and the dispatcher is started. */
  lemma {:induction false} AfterStart(o: Oracle, events: seq<(Event, Oracle)>)
    ensures S.After(INITIAL,
                    [(Submit(Sending("a")), o)] + ([(Submit(Sending("b")), o)] + ([(Submit(Sending("a")), o)] +
                    ([(Start(true), o)] + events))))
      == S.After(Waiting3().(nextRun := true, unannounced := true), events)
  {
    hide S.After, NewTask, Sending, Step, Queue;
    var e1, e2, e3, e4 := Submit(Sending("a")), Submit(Sending("b")), Submit(Sending("a")), Start(true);
    OneSubmitted(INITIAL, Sending("a"), o);
    var d1 := Step(INITIAL, e1, o);
    OneSubmitted(d1, Sending("b"), o);
    var d2 := Step(d1, e2, o);
    OneSubmitted(d2, Sending("a"), o);
    var d3 := Step(d2, e3, o);
    NowStarted(d3, o);
    assert d3.tasks == Waiting3().tasks;
    assert Step(d3, e4, o) == Waiting3().(nextRun := true, unannounced := true);
    AfterFirst(d3, e4, o, events);
    AfterFirst(d2, e3, o, [(e4, o)] + events);
    AfterFirst(d1, e2, o, [(e3, o)] + ([(e4, o)] + events));
    AfterFirst(INITIAL, e1, o, [(e2, o)] + ([(e3, o)] + ([(e4, o)] + events)));
  }

  function Waiting3(): Dispatcher {
    INITIAL.(tasks := [NewTask(0, Sending("a")), NewTask(1, Sending("b")), NewTask(2, Sending("a"))],
             created := 3, started := true, starts := 1)
  }

  lemma NowStarted(d: Dispatcher, o: Oracle)
    requires d.active.None? && d.tasks != []
    ensures Step(d, Start(true), o) == d.(started := true, nextRun := true, starts := d.starts + 1)
  {
  }

  function Opening3(): Dispatcher {
    Waiting3().(tasks := [Asking(0, "a"), Asking(1, "b"), Asking(2, "a")], conn := Some(Connection("a", Opening)))
  }

  lemma NowRun(o: Oracle)
    requires Nth(o, 4).link == Some(false)
    ensures Step(Waiting3().(nextRun := true, unannounced := true), RunNow, o) == Opening3()
  {
    hide RunLoop;
    AllAsk(Waiting3(), o);
    assert UsesNetwork(Opening3().tasks[0]);
  }

  lemma AfterCycling(o: Oracle)
    requires Nth(o, 4).link == Some(false)
    ensures var d := S.After(INITIAL, Cycling(o));
      && d.tasks == [Asking(0, "a"), Asking(1, "b"), Asking(2, "a"), NewTask(3, Sending("a"))]
      && d.conn == Some(Connection("a", Open)) && d.nextRun
  {
    hide S.After, NewTask, Sending, Asking, Step;
    var e6, e7 := Submit(Sending("a")), ConnectionChanged(Open);
    var last: seq<(Event, Oracle)> := [];
    AfterStart(o, [(RunNow, o)] + ([(e6, o)] + ([(e7, o)] + last)));
    AfterFirst(Waiting3().(nextRun := true, unannounced := true), RunNow, o, [(e6, o)] + ([(e7, o)] + last));
    NowRun(o);
    AfterFirst(Opening3(), e6, o, [(e7, o)] + last);
    OneSubmitted(Opening3(), Sending("a"), o);
    var d6 := Step(Opening3(), e6, o);
    AfterFirst(d6, e7, o, last);
    NowOpen(d6, o);
    NoMore(Step(d6, e7, o));
  }

  lemma NowOpen(d: Dispatcher, o: Oracle)
    requires d.active.None? && d.conn.Some? && d.conn.value.state.Opening?
    ensures Step(d, ConnectionChanged(Open), o)
      == d.(conn := Some(d.conn.value.(state := Open)), nextRun := true)
  {
  }

  lemma {:induction false} NoMore(d: Dispatcher)
    requires d.active.None?
    ensures S.After(d, []) == d
  {
  }

  lemma FourCycle()
    ensures var ts := [Asking(0, "a"), Asking(1, "b"), Asking(2, "a"), NewTask(3, Sending("a"))];
      DistinctOrders(ts) && !Transitive(ts, Some(Connection("a", Open)))
  {
    var old_, young, third := Asking(1, "b"), Asking(2, "a"), NewTask(3, Sending("a"));
    var ts, conn := [Asking(0, "a"), old_, young, third], Some(Connection("a", Open));
    assert ts[1] == old_ && ts[2] == young && ts[3] == third;
    assert old_.imsi[0] == 'b' && young.imsi[0] == 'a';
    SkewMakesCycle(young, old_, third, conn);
    hide Compare;
    CompareIsLexicographic(young, old_, conn);
    assert Compare(young, third, conn) < 0 && Compare(third, old_, conn) < 0;
  }

  predicate SortsCycle(d: Dispatcher) {
    d.nextRun && DistinctOrders(d.tasks) && !Transitive(d.tasks, d.conn)
  }

  /** There is a run after which the run loop is due, and the queue that it then sorts is one
      on which the comparator goes round in a cycle. */
  lemma CycleReached()
    ensures exists events :: SortsCycle(S.After(INITIAL, events))
  {
    hide S.After, Transitive, DistinctOrders, NewTask, Sending, Asking, Cycling;
    var c := Choice(0, 15, true, true, Decoded.Retrieved, true);
    var o: Oracle := turn => Answer(c, false, Some(false), false);
    AfterCycling(o);
    FourCycle();
    assert SortsCycle(S.After(INITIAL, Cycling(o)));
  }
}
