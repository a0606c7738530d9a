/** The order in which tasks are picked: the comparator of mms_dispatcher.c and the sort it
    is used with. */
module TaskOrder {
  import opened Common
  import opened Tasks
  import MergeSort

  datatype ConnState = Opening | Failed | Open | Closed

  datatype Connection = Connection(imsi: string, state: ConnState)

  predicate IsOpen(conn: Option<Connection>) {
    conn.Some? && conn.value.state.Open?
  }

  predicate WantsThis(t: Task, conn: Option<Connection>) {
    conn.Some? && Needs(t) && t.imsi == conn.value.imsi
  }

  /** mms_dispatcher_sort_cb: negative if `a` goes first, positive if `b` does. */
  function Compare(a: Task, b: Task, conn: Option<Connection>): int {
    if a.order == b.order then 0
    else if a.state != b.state && IsOpen(conn) && a.state.Transmitting? then -1
    else if a.state != b.state && IsOpen(conn) && b.state.Transmitting? then 1
    else if a.priority != b.priority then b.priority - a.priority
    else if a.state != b.state && IsOpen(conn) && WantsThis(a, conn) != WantsThis(b, conn) then
      if WantsThis(a, conn) then -1 else 1
    else if a.state != b.state && Runnable(a) != Runnable(b) then
      if Runnable(a) then -1 else 1
    else if a.state != b.state && Needs(a) != Needs(b) then
      if Needs(a) then -1 else 1
    else a.order - b.order
  }

  // ------------------------------------------------------- what the order means

  /** What the comments in the comparator announce, most important first; smaller is
      sooner. */
  datatype Rank = Rank(transmitting: int, priority: int, wantsThis: int, runnable: int,
                       wantsAny: int, order: int)

  function First(b: bool): int {
    if b then 0 else 1
  }

  function RankOf(t: Task, conn: Option<Connection>): Rank {
    Rank(First(IsOpen(conn) && t.state.Transmitting?), -t.priority,
         First(IsOpen(conn) && WantsThis(t, conn)), First(Runnable(t)), First(Needs(t)), t.order)
  }

  /** Lexicographic comparison. */
  predicate Before(x: Rank, y: Rank) {
    if x.transmitting != y.transmitting then x.transmitting < y.transmitting
    else if x.priority != y.priority then x.priority < y.priority
    else if x.wantsThis != y.wantsThis then x.wantsThis < y.wantsThis
    else if x.runnable != y.runnable then x.runnable < y.runnable
    else if x.wantsAny != y.wantsAny then x.wantsAny < y.wantsAny
    else x.order < y.order
  }

  /** Two tasks in the same connection-needing state, with the same priority, of which the
      younger wants the connection that is open and the older wants another one. The
      comparator prefers the open connection only between different states. */
  predicate Skewed(young: Task, old_: Task, conn: Option<Connection>) {
    && IsOpen(conn) && young.state == old_.state && Needs(young)
    && young.priority == old_.priority
    && WantsThis(young, conn) && !WantsThis(old_, conn)
    && old_.order < young.order
  }

  /** The comparator is the lexicographic order, except on skewed pairs and only there. */
  lemma CompareIsLexicographic(a: Task, b: Task, conn: Option<Connection>)
    requires a.order != b.order
    ensures (Compare(a, b, conn) < 0 <==> Before(RankOf(a, conn), RankOf(b, conn))) <==>
            !(Skewed(a, b, conn) || Skewed(b, a, conn))
    ensures Compare(a, b, conn) < 0 <==> Compare(b, a, conn) > 0
    ensures Compare(a, b, conn) != 0
  {
  }

  predicate NoSkew(ts: seq<Task>, conn: Option<Connection>) {
    forall a, b :: a in ts && b in ts ==> !Skewed(a, b, conn)
  }

  /** A third task that closes a cycle with a skewed pair: a runnable one, or one in the other
      connection-needing state that is created after the young task or before the old one,
      depending on whether it wants the open connection. */
  predicate Closes(third: Task, young: Task, old_: Task, conn: Option<Connection>) {
    && Skewed(young, old_, conn) && third.priority == young.priority
    && (|| Runnable(third)
        || (Needs(third) && third.state != young.state
            && if WantsThis(third, conn) then third.order > young.order else third.order < old_.order))
  }

  /** The cycle itself: the young task goes before the third, the third before the old one, and
      the old one before the young one. */
  lemma SkewMakesCycle(young: Task, old_: Task, third: Task, conn: Option<Connection>)
    requires Closes(third, young, old_, conn)
    requires third.order != young.order && third.order != old_.order
    ensures Compare(young, third, conn) < 0
    ensures Compare(third, old_, conn) < 0
    ensures Compare(old_, young, conn) < 0
  {
  }

  /** Three tasks make a cycle exactly when one of them closes a cycle with the other two. */
  lemma CycleExactly(a: Task, b: Task, c: Task, conn: Option<Connection>)
    requires a.order != b.order && b.order != c.order && a.order != c.order
    ensures Compare(a, b, conn) < 0 && Compare(b, c, conn) < 0 && Compare(c, a, conn) < 0
      <==> Closes(b, a, c, conn) || Closes(a, c, b, conn) || Closes(c, b, a, conn)
  {
  }

  predicate Transitive(ts: seq<Task>, conn: Option<Connection>) {
    forall a, b, c :: a in ts && b in ts && c in ts ==>
      Compare(a, b, conn) < 0 && Compare(b, c, conn) < 0 ==> Compare(a, c, conn) < 0
  }

  predicate NothingCloses(ts: seq<Task>, conn: Option<Connection>) {
    forall a, b, c :: a in ts && b in ts && c in ts ==> !Closes(a, b, c, conn)
  }

  /** The comparator is transitive on a queue exactly when no task of it closes a cycle with a
      skewed pair of it. */
  lemma TransitiveExactly(ts: seq<Task>, conn: Option<Connection>)
    requires DistinctOrders(ts)
    ensures Transitive(ts, conn) <==> NothingCloses(ts, conn)
  {
    if NothingCloses(ts, conn) {
      forall a, b, c | a in ts && b in ts && c in ts && Compare(a, b, conn) < 0 && Compare(b, c, conn) < 0
        ensures Compare(a, c, conn) < 0
      {
        hide Compare, Closes;
        ThreeOrders(ts, a, b, c, conn);
        CycleExactly(a, b, c, conn);
        CompareIsLexicographic(a, c, conn);
      }
    } else {
      var third, young, old_ :|
        third in ts && young in ts && old_ in ts && Closes(third, young, old_, conn);
      ClosesOrders(ts, third, young, old_, conn);
      CycleExactly(young, third, old_, conn);
      assert Compare(young, third, conn) < 0 && Compare(third, old_, conn) < 0;
      CompareIsLexicographic(young, old_, conn);
    }
  }

  lemma ThreeOrders(ts: seq<Task>, a: Task, b: Task, c: Task, conn: Option<Connection>)
    requires DistinctOrders(ts) && a in ts && b in ts && c in ts
    requires Compare(a, b, conn) < 0 && Compare(b, c, conn) < 0
    ensures a.order != b.order && b.order != c.order && a.order != c.order
  {
    SameOrder(ts, a, b);
    SameOrder(ts, b, c);
    SameOrder(ts, a, c);
    if a.order != b.order {
      CompareIsLexicographic(a, b, conn);
    }
  }

  lemma ClosesOrders(ts: seq<Task>, third: Task, young: Task, old_: Task, conn: Option<Connection>)
    requires DistinctOrders(ts) && third in ts && young in ts && old_ in ts
    requires Closes(third, young, old_, conn)
    ensures third.order != young.order && young.order != old_.order && third.order != old_.order
  {
    SameOrder(ts, third, young);
    SameOrder(ts, third, old_);
  }

  lemma SameOrder(ts: seq<Task>, a: Task, b: Task)
    requires DistinctOrders(ts) && a in ts && b in ts
    ensures a.order == b.order ==> a == b
  {
    var i :| 0 <= i < |ts| && ts[i] == a;
    var j :| 0 <= j < |ts| && ts[j] == b;
  }

  /** Such a queue: two tasks wait for connections of different SIMs, the younger one for the
      open one, and a third task is ready. */
  lemma CycleExample()
    ensures exists ts, conn :: DistinctOrders(ts) && !Transitive(ts, conn)
  {
    var conn := Some(Connection("a", Open));
    var old_ := NewTask(0, Seed(Http(Send), "0", "b", NORMAL, false, 0, 600)).(state := NeedConnection);
    var young := NewTask(1, Seed(Http(Send), "1", "a", NORMAL, false, 0, 600)).(state := NeedConnection);
    var third := NewTask(2, Seed(Http(Send), "2", "a", NORMAL, false, 0, 600));
    var ts := [old_, young, third];
    assert young in ts && third in ts && old_ in ts;
    SkewMakesCycle(young, old_, third, conn);
    assert Compare(young, old_, conn) > 0;
    assert !Transitive(ts, conn);
  }

  // ------------------------------------------------------- the sorted queue

  function Comparator(conn: Option<Connection>): (Task, Task) -> int {
    (a: Task, b: Task) => Compare(a, b, conn)
  }

  function SortTasks(ts: seq<Task>, conn: Option<Connection>): seq<Task> {
    MergeSort.Sort(ts, Comparator(conn))
  }

  /** No neighbours are the wrong way round; with a comparator that need not be transitive
      a merge sort promises no more. */
  predicate Chain(ts: seq<Task>, conn: Option<Connection>) {
    forall i :: 0 <= i < |ts| - 1 ==> Compare(ts[i], ts[i + 1], conn) <= 0
  }

  lemma SortTasksIsChain(ts: seq<Task>, conn: Option<Connection>)
    ensures Chain(SortTasks(ts, conn), conn)
    ensures multiset(SortTasks(ts, conn)) == multiset(ts)
    ensures forall t :: t in SortTasks(ts, conn) <==> t in ts
  {
    var cmp := Comparator(conn);
    forall a, b
      ensures cmp(a, b) > 0 ==> cmp(b, a) <= 0
    {
      if a.order != b.order {
        CompareIsLexicographic(a, b, conn);
      }
    }
    MergeSort.SortIsChain(ts, cmp);
    forall i | 0 <= i < |SortTasks(ts, conn)| - 1
      ensures Compare(SortTasks(ts, conn)[i], SortTasks(ts, conn)[i + 1], conn) <= 0
    {
      assert cmp(SortTasks(ts, conn)[i], SortTasks(ts, conn)[i + 1]) <= 0;
    }
    forall t
      ensures t in SortTasks(ts, conn) <==> t in ts
    {
      assert t in SortTasks(ts, conn) <==> t in multiset(SortTasks(ts, conn));
      assert t in ts <==> t in multiset(ts);
    }
  }

  predicate DistinctOrders(ts: seq<Task>) {
    forall j, k :: 0 <= j < k < |ts| ==> ts[j].order != ts[k].order
  }

  /** Skewed or not, a transmitting task comes out first while the connection is open. */
  lemma {:induction false} TransmittingFirst(ts: seq<Task>, i: nat, conn: Option<Connection>)
    requires Chain(ts, conn) && IsOpen(conn) && i < |ts| && ts[i].state.Transmitting?
    requires DistinctOrders(ts)
    ensures ts[0].state.Transmitting?
    decreases i
  {
    if i > 0 {
      assert Compare(ts[i - 1], ts[i - 1 + 1], conn) <= 0;
      TransmittingFirst(ts, i - 1, conn);
    }
  }

  /** Without skewed pairs the sorted queue is in lexicographic order throughout. */
  lemma {:induction false} SortedIsLexicographic(ts: seq<Task>, i: nat, j: nat, conn: Option<Connection>)
    requires Chain(ts, conn) && NoSkew(ts, conn) && i < j < |ts|
    requires DistinctOrders(ts)
    ensures Before(RankOf(ts[i], conn), RankOf(ts[j], conn))
    decreases j
  {
    assert Compare(ts[j - 1], ts[j - 1 + 1], conn) <= 0;
    CompareIsLexicographic(ts[j - 1], ts[j], conn);
    if i < j - 1 {
      SortedIsLexicographic(ts, i, j - 1, conn);
    }
  }

  /** The task is waiting for something other than the dispatcher. */
  predicate Waiting(t: Task) {
    t.state.Working? || t.state.Pending? || t.state.Sleep?
  }

  /** If the first task is waiting, then so is every other of its priority, and none has a
      higher one: nothing that could run is overlooked. */
  lemma {:induction false} NothingOverlooked(ts: seq<Task>, i: nat, conn: Option<Connection>)
    requires Chain(ts, conn) && i < |ts| && Waiting(ts[0])
    requires DistinctOrders(ts)
    requires forall t :: t in ts && t.state.Transmitting? ==> IsOpen(conn)
    ensures ts[i].priority <= ts[0].priority && !ts[i].state.Transmitting?
    ensures ts[i].priority == ts[0].priority ==> Waiting(ts[i])
    decreases i
  {
    if i > 0 {
      assert Compare(ts[i - 1], ts[i - 1 + 1], conn) <= 0;
      NothingOverlooked(ts, i - 1, conn);
    }
  }
}
