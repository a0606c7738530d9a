/**
  The update requests of mms_transfer_dbus.c: every client of a transfer has requests, each
  request has flags, and the flags are cached per client and once more for the whole object.
  A set of flags is the set of its bit numbers.
*/
module Transfers {

  type Name = string
  type Cookie = c: int | 0 <= c < 0x1_0000_0000
  type Flags = set<nat>

  const SEND_UPDATES: nat := 0
  const RECEIVE_UPDATES: nat := 1
  const FINISHED: nat := 4

  datatype Client = Client(requests: map<Cookie, Flags>, flags: Flags)

  datatype Signal = Signal(flag: nat, receivers: set<Name>, done: nat, total: nat)

  datatype Transfer = Transfer(
    clients: map<Name, Client>,
    lastCookie: Cookie,
    flags: Flags,
    sent: nat,
    toSend: nat,
    received: nat,
    toReceive: nat,
    signals: seq<Signal>)

  const NEW := Transfer(map[], 0, {}, 0, 0, 0, 0, [])

  function Requested(requests: map<Cookie, Flags>): Flags {
    set c, f | c in requests && f in requests[c] :: f
  }

  function Combined(clients: map<Name, Client>): Flags {
    set n, f | n in clients && f in clients[n].flags :: f
  }

  function Receivers(clients: map<Name, Client>, flag: nat): set<Name> {
    set n | n in clients && flag in clients[n].flags
  }

  function NextCookie(c: Cookie): Cookie {
    (c + 1) % 0x1_0000_0000
  }

  function Registered(t: Transfer, sender: Name): Client {
    if sender in t.clients then t.clients[sender] else Client(map[], {})
  }

  function Enable(t: Transfer, sender: Name, flags: Flags): Transfer {
    if flags == {} then t
    else
      var wanted := flags + {FINISHED};
      var cookie := NextCookie(t.lastCookie);
      var client := Registered(t, sender);
      t.(clients := t.clients[sender := Client(client.requests[cookie := wanted], client.flags + wanted)],
         lastCookie := cookie, flags := t.flags + wanted)
  }

  function Disable(t: Transfer, sender: Name, cookie: Cookie): Transfer {
    if sender !in t.clients then t
    else
      var requests := t.clients[sender].requests - {cookie};
      var clients := t.clients[sender := Client(requests, Requested(requests))];
      t.(clients := clients, flags := Combined(clients))
  }

  function Vanish(t: Transfer, name: Name): Transfer {
    var clients := t.clients - {name};
    t.(clients := clients, flags := Combined(clients))
  }

  /** A signal to those clients who asked for it, sent only when the object has the flag. */
  function Emit(t: Transfer, flag: nat, done: nat, total: nat): Transfer {
    if flag !in t.flags then t
    else t.(signals := t.signals + [Signal(flag, Receivers(t.clients, flag), done, total)])
  }

  function SendProgress(t: Transfer, sent: nat, total: nat): Transfer {
    if t.sent == sent && t.toSend == total then t
    else Emit(t.(sent := sent, toSend := total), SEND_UPDATES, sent, total)
  }

  function ReceiveProgress(t: Transfer, received: nat, total: nat): Transfer {
    if t.received == received && t.toReceive == total then t
    else Emit(t.(received := received, toReceive := total), RECEIVE_UPDATES, received, total)
  }

  datatype Event =
    | Enabling(sender: Name, flags: Flags)
    | Disabling(sender: Name, cookie: Cookie)
    | Vanishing(name: Name)
    | Sending(sent: nat, total: nat)
    | Receiving(received: nat, total: nat)
    | Finishing

  /** One event; a call that is denied is no event. */
  function Step(t: Transfer, e: Event): Transfer {
    match e
    case Enabling(sender, flags) => Enable(t, sender, flags)
    case Disabling(sender, cookie) => Disable(t, sender, cookie)
    case Vanishing(name) => Vanish(t, name)
    case Sending(sent, total) => SendProgress(t, sent, total)
    case Receiving(received, total) => ReceiveProgress(t, received, total)
    case Finishing => Emit(t, FINISHED, 0, 0)
  }

  // ------------------------------------------------------------- the two caches

  predicate ClientsAgree(t: Transfer) {
    forall n :: n in t.clients ==> t.clients[n].flags == Requested(t.clients[n].requests)
  }

  predicate Agree(t: Transfer) {
    ClientsAgree(t) && t.flags == Combined(t.clients)
  }

  lemma RequestedWith(requests: map<Cookie, Flags>, c: Cookie, flags: Flags)
    ensures Requested(requests[c := flags]) == Requested(requests - {c}) + flags
  {
    var with := requests[c := flags];
    forall f | f in flags
      ensures f in Requested(with)
    {
      assert c in with && f in with[c];
    }
    forall f | f in Requested(requests - {c})
      ensures f in Requested(with)
    {
      var d :| d in requests - {c} && f in (requests - {c})[d];
      assert d in with && f in with[d];
    }
    forall f | f in Requested(with)
      ensures f in Requested(requests - {c}) + flags
    {
      var d :| d in with && f in with[d];
      if d != c {
        assert d in requests - {c} && f in (requests - {c})[d];
      }
    }
  }

  lemma RequestedSplit(requests: map<Cookie, Flags>, c: Cookie)
    ensures Requested(requests) == Requested(requests - {c}) + if c in requests then requests[c] else {}
  {
    if c in requests {
      RequestedWith(requests, c, requests[c]);
      assert requests[c := requests[c]] == requests;
    } else {
      assert requests - {c} == requests;
    }
  }

  lemma CombinedWith(clients: map<Name, Client>, n: Name, client: Client)
    ensures Combined(clients[n := client]) == Combined(clients - {n}) + client.flags
  {
    var with := clients[n := client];
    forall f | f in client.flags
      ensures f in Combined(with)
    {
      assert n in with && f in with[n].flags;
    }
    forall f | f in Combined(clients - {n})
      ensures f in Combined(with)
    {
      var m :| m in clients - {n} && f in (clients - {n})[m].flags;
      assert m in with && f in with[m].flags;
    }
    forall f | f in Combined(with)
      ensures f in Combined(clients - {n}) + client.flags
    {
      var m :| m in with && f in with[m].flags;
      if m != n {
        assert m in clients - {n} && f in (clients - {n})[m].flags;
      }
    }
  }

  lemma CombinedSplit(clients: map<Name, Client>, n: Name)
    ensures Combined(clients) == Combined(clients - {n}) + if n in clients then clients[n].flags else {}
  {
    if n in clients {
      CombinedWith(clients, n, clients[n]);
      assert clients[n := clients[n]] == clients;
    } else {
      assert clients - {n} == clients;
    }
  }

  /** What is lost when a cookie is given out a second time: the flags of the request that had
      it, unless something else asks for them. */
  function Forgotten(t: Transfer, sender: Name, flags: Flags): Flags {
    var cookie := NextCookie(t.lastCookie);
    var requests := Registered(t, sender).requests;
    if cookie !in requests then {}
    else requests[cookie] - Requested(requests - {cookie}) - flags - {FINISHED}
  }

  /** A new request keeps the caches right exactly when nothing is forgotten. */
  lemma EnableAgrees(t: Transfer, sender: Name, flags: Flags)
    requires Agree(t)
    ensures Agree(Enable(t, sender, flags)) <==> flags == {} || Forgotten(t, sender, flags) == {}
  {
    if flags != {} {
      hide Requested, Combined;
      var wanted := flags + {FINISHED};
      var cookie := NextCookie(t.lastCookie);
      var before := Registered(t, sender);
      var after := Enable(t, sender, flags);
      NoRequests();
      assert before.flags == Requested(before.requests);
      RequestedWith(before.requests, cookie, wanted);
      RequestedSplit(before.requests, cookie);
      CombinedWith(t.clients, sender, after.clients[sender]);
      CombinedSplit(t.clients, sender);
      assert after.flags == Combined(after.clients);
      assert after.clients[sender].flags == before.flags + wanted;
      assert forall n :: n in t.clients && n != sender ==> after.clients[n] == t.clients[n];
      assert ClientsAgree(after) <==> after.clients[sender].flags == Requested(after.clients[sender].requests);
    }
  }

  lemma NoRequests()
    ensures Requested(map[]) == {} && Combined(map[]) == {}
  {
  }

  lemma StepAgrees(t: Transfer, e: Event)
    requires Agree(t) && (e.Enabling? && e.flags != {} ==> Forgotten(t, e.sender, e.flags) == {})
    ensures Agree(Step(t, e))
  {
    hide Requested, Combined, Forgotten, Enable;
    if e.Enabling? {
      EnableAgrees(t, e.sender, e.flags);
    }
  }

  // -------------------------------------------------------------- without caches

  /** The same service without any cache: the live requests by client and cookie, and the
      number of requests so far. */
  datatype Plain = Plain(
    live: map<(Name, Cookie), Flags>,
    count: nat,
    sent: nat,
    toSend: nat,
    received: nat,
    toReceive: nat,
    signals: seq<Signal>)

  const PLAIN_NEW := Plain(map[], 0, 0, 0, 0, 0, [])

  function Wanting(live: map<(Name, Cookie), Flags>, flag: nat): set<Name> {
    set k | k in live && flag in live[k] :: k.0
  }

  /** A signal goes to the clients with a live request for it. */
  function PlainEmit(p: Plain, flag: nat, done: nat, total: nat): Plain {
    if Wanting(p.live, flag) == {} then p
    else p.(signals := p.signals + [Signal(flag, Wanting(p.live, flag), done, total)])
  }

  predicate CookieLeft(p: Plain, e: Event) {
    e.Enabling? && e.flags != {} ==> p.count < 0xffff_ffff
  }

  function PlainStep(p: Plain, e: Event): Plain
    requires CookieLeft(p, e)
  {
    match e
    case Enabling(sender, flags) =>
      if flags == {} then p
      else p.(live := p.live[(sender, p.count + 1) := flags + {FINISHED}], count := p.count + 1)
    case Disabling(sender, cookie) => p.(live := p.live - {(sender, cookie)})
    case Vanishing(name) => p.(live := map k | k in p.live && k.0 != name :: p.live[k])
    case Sending(sent, total) =>
      if p.sent == sent && p.toSend == total then p
      else PlainEmit(p.(sent := sent, toSend := total), SEND_UPDATES, sent, total)
    case Receiving(received, total) =>
      if p.received == received && p.toReceive == total then p
      else PlainEmit(p.(received := received, toReceive := total), RECEIVE_UPDATES, received, total)
    case Finishing => PlainEmit(p, FINISHED, 0, 0)
  }

  predicate Live(clients: map<Name, Client>, n: Name, c: Cookie) {
    n in clients && c in clients[n].requests
  }

  ghost predicate SameRequests(clients: map<Name, Client>, live: map<(Name, Cookie), Flags>) {
    && (forall k :: k in live ==> Live(clients, k.0, k.1) && clients[k.0].requests[k.1] == live[k])
    && (forall n, c: Cookie :: Live(clients, n, c) ==> (n, c) in live)
  }

  predicate Given(live: map<(Name, Cookie), Flags>, count: nat) {
    forall k :: k in live ==> k.1 <= count
  }

  ghost predicate Refines(t: Transfer, p: Plain) {
    && Agree(t) && SameRequests(t.clients, p.live) && Given(p.live, p.count)
    && t.lastCookie == p.count
    && t.sent == p.sent && t.toSend == p.toSend && t.received == p.received && t.toReceive == p.toReceive
    && t.signals == p.signals
  }

  lemma SameReceivers(t: Transfer, p: Plain, flag: nat)
    requires Refines(t, p)
    ensures Receivers(t.clients, flag) == Wanting(p.live, flag)
    ensures flag in t.flags <==> Wanting(p.live, flag) != {}
  {
    forall n | n in Receivers(t.clients, flag)
      ensures n in Wanting(p.live, flag)
    {
      var c :| c in t.clients[n].requests && flag in t.clients[n].requests[c];
      assert Live(t.clients, n, c);
      assert (n, c) in p.live && (n, c).0 == n;
    }
    forall n | n in Wanting(p.live, flag)
      ensures n in Receivers(t.clients, flag)
    {
      var k :| k in p.live && flag in p.live[k] && k.0 == n;
      assert flag in t.clients[n].requests[k.1];
    }
    if flag in t.flags {
      var n :| n in t.clients && flag in t.clients[n].flags;
      assert n in Receivers(t.clients, flag);
    }
  }

  lemma EnableRefines(t: Transfer, p: Plain, sender: Name, flags: Flags)
    requires Refines(t, p) && CookieLeft(p, Enabling(sender, flags))
    ensures Refines(Enable(t, sender, flags), PlainStep(p, Enabling(sender, flags)))
  {
    if flags != {} {
      hide Requested, Combined, Agree;
      var cookie := NextCookie(t.lastCookie);
      assert cookie == p.count + 1;
      assert !Live(t.clients, sender, cookie);
      EnableAgrees(t, sender, flags);
      EnableSame(t, p, sender, flags);
    }
  }

  lemma EnableSame(t: Transfer, p: Plain, sender: Name, flags: Flags)
    requires SameRequests(t.clients, p.live) && t.lastCookie == p.count < 0xffff_ffff && flags != {}
    ensures SameRequests(Enable(t, sender, flags).clients, PlainStep(p, Enabling(sender, flags)).live)
  {
    hide Requested, Combined, Given;
    var t', p' := Enable(t, sender, flags), PlainStep(p, Enabling(sender, flags));
    forall n, c: Cookie | Live(t'.clients, n, c)
      ensures (n, c) in p'.live
    {
      if n != sender || c != p.count + 1 {
        assert Live(t.clients, n, c);
      }
    }
    forall k | k in p'.live
      ensures Live(t'.clients, k.0, k.1) && t'.clients[k.0].requests[k.1] == p'.live[k]
    {
      if k != (sender, p.count + 1) {
        assert k in p.live && Live(t.clients, k.0, k.1);
      }
    }
  }

  lemma DisableRefines(t: Transfer, p: Plain, sender: Name, cookie: Cookie)
    requires Refines(t, p)
    ensures Refines(Disable(t, sender, cookie), PlainStep(p, Disabling(sender, cookie)))
  {
    hide Requested, Combined;
    var t', p' := Disable(t, sender, cookie), PlainStep(p, Disabling(sender, cookie));
    forall n, c: Cookie | Live(t'.clients, n, c)
      ensures (n, c) in p'.live
    {
      assert Live(t.clients, n, c);
    }
    forall k | k in p'.live
      ensures Live(t'.clients, k.0, k.1) && t'.clients[k.0].requests[k.1] == p'.live[k]
    {
      assert Live(t.clients, k.0, k.1);
      assert k == (k.0, k.1);
    }
  }

  lemma VanishRefines(t: Transfer, p: Plain, name: Name)
    requires Refines(t, p)
    ensures Refines(Vanish(t, name), PlainStep(p, Vanishing(name)))
  {
    hide Requested, Combined;
    var t', p' := Vanish(t, name), PlainStep(p, Vanishing(name));
    forall n, c: Cookie | Live(t'.clients, n, c)
      ensures (n, c) in p'.live
    {
      assert Live(t.clients, n, c);
    }
    forall k | k in p'.live
      ensures Live(t'.clients, k.0, k.1) && t'.clients[k.0].requests[k.1] == p'.live[k]
    {
      assert Live(t.clients, k.0, k.1);
    }
  }

  lemma EmitRefines(t: Transfer, p: Plain, flag: nat, done: nat, total: nat)
    requires Refines(t, p)
    ensures Refines(Emit(t, flag, done, total), PlainEmit(p, flag, done, total))
  {
    hide Requested, Combined, SameRequests;
    SameReceivers(t, p, flag);
  }

  lemma StepRefines(t: Transfer, p: Plain, e: Event)
    requires Refines(t, p) && CookieLeft(p, e)
    ensures Refines(Step(t, e), PlainStep(p, e))
  {
    hide SameRequests, Requested, Combined, Emit, PlainEmit, Enable, Disable, Vanish, Given;
    match e
    case Enabling(sender, flags) => EnableRefines(t, p, sender, flags);
    case Disabling(sender, cookie) => DisableRefines(t, p, sender, cookie);
    case Vanishing(name) => VanishRefines(t, p, name);
    case Sending(sent, total) =>
      EmitRefines(t.(sent := sent, toSend := total), p.(sent := sent, toSend := total), SEND_UPDATES, sent, total);
    case Receiving(received, total) =>
      EmitRefines(t.(received := received, toReceive := total), p.(received := received, toReceive := total),
                  RECEIVE_UPDATES, received, total);
    case Finishing => EmitRefines(t, p, FINISHED, 0, 0);
  }

  // ---------------------------------------------------------------- whole runs

  function Run(t: Transfer, events: seq<Event>): Transfer
    decreases |events|
  {
    if events == [] then t else Run(Step(t, events[0]), events[1..])
  }

  function Requests(events: seq<Event>): nat {
    if events == [] then 0
    else (if events[0].Enabling? && events[0].flags != {} then 1 else 0) + Requests(events[1..])
  }

  function PlainRun(p: Plain, events: seq<Event>): Plain
    requires p.count + Requests(events) <= 0xffff_ffff
    decreases |events|
  {
    if events == [] then p else PlainRun(PlainStep(p, events[0]), events[1..])
  }

  lemma {:induction false} RunRefines(t: Transfer, p: Plain, events: seq<Event>)
    requires Refines(t, p) && p.count + Requests(events) <= 0xffff_ffff
    ensures Refines(Run(t, events), PlainRun(p, events))
    decreases |events|
  {
    if events != [] {
      hide Refines, Step;
      StepRefines(t, p, events[0]);
      RunRefines(Step(t, events[0]), PlainStep(p, events[0]), events[1..]);
    }
  }

  /** As long as cookies are not given out twice, the caches are right after every run, and
      the signals that were sent and their receivers are those of the service without caches. */
  lemma {:induction false} EveryRun(events: seq<Event>)
    requires Requests(events) < 0x1_0000_0000
    ensures Agree(Run(NEW, events))
    ensures Run(NEW, events).signals == PlainRun(PLAIN_NEW, events).signals
    ensures SameRequests(Run(NEW, events).clients, PlainRun(PLAIN_NEW, events).live)
  {
    hide Run, PlainRun, Requests;
    NoRequests();
    RunRefines(NEW, PLAIN_NEW, events);
  }

  /** The same report twice is one signal at most. */
  lemma ReportedOnce(t: Transfer, e: Event)
    requires e.Sending? || e.Receiving?
    ensures Step(Step(t, e), e) == Step(t, e)
  {
  }
}
