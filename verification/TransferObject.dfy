/** mms_transfer_dbus.c in its own form: an object with a table of clients, walked in no
    particular order. */
module TransferObject {
  import opened Transfers

  class TransferDbus {
    var clients: map<Name, Client>
    var lastUpdateCookie: Cookie
    var flags: Flags
    var bytesSent: nat
    var bytesToSend: nat
    var bytesReceived: nat
    var bytesToReceive: nat
    ghost var signals: seq<Signal>

    ghost function View(): Transfer
      reads this
    {
      Transfer(clients, lastUpdateCookie, flags, bytesSent, bytesToSend, bytesReceived, bytesToReceive, signals)
    }

    constructor ()
      ensures View() == NEW
    {
      clients, lastUpdateCookie, flags := map[], 0, {};
      bytesSent, bytesToSend, bytesReceived, bytesToReceive, signals := 0, 0, 0, 0, [];
    }

    /** Walks the clients and signals to those whose flags say so. */
    method EmitSignal(flag: nat, done: nat, total: nat)
      modifies this`signals
      ensures signals == old(signals) + [Signal(flag, Receivers(clients, flag), done, total)]
    {
      var left, receivers := clients.Keys, {};
      while left != {}
        invariant left <= clients.Keys
        invariant receivers == set n | n in clients.Keys - left && flag in clients[n].flags
        decreases left
      {
        var name :| name in left;
        left := left - {name};
        if flag in clients[name].flags {
          receivers := receivers + {name};
        }
      }
      assert receivers == Receivers(clients, flag);
      signals := signals + [Signal(flag, receivers, done, total)];
    }

    method SendProgress(sent: nat, total: nat)
      modifies this
      ensures View() == Transfers.SendProgress(old(View()), sent, total)
    {
      if bytesSent != sent || bytesToSend != total {
        bytesSent := sent;
        bytesToSend := total;
        if SEND_UPDATES in flags {
          EmitSignal(SEND_UPDATES, sent, total);
        }
      }
    }

    method ReceiveProgress(received: nat, total: nat)
      modifies this
      ensures View() == Transfers.ReceiveProgress(old(View()), received, total)
    {
      if bytesReceived != received || bytesToReceive != total {
        bytesReceived := received;
        bytesToReceive := total;
        if RECEIVE_UPDATES in flags {
          EmitSignal(RECEIVE_UPDATES, received, total);
        }
      }
    }

    method Finished()
      modifies this
      ensures View() == Emit(old(View()), FINISHED, 0, 0)
    {
      if FINISHED in flags {
        EmitSignal(FINISHED, 0, 0);
      }
    }

    method UpdateFlags()
      modifies this`flags
      ensures flags == Combined(clients)
    {
      var left, all := clients.Keys, {};
      while left != {}
        invariant left <= clients.Keys
        invariant all == Combined(map n | n in clients.Keys - left :: clients[n])
        decreases left
      {
        var name :| name in left;
        ghost var walked := map n | n in clients.Keys - left :: clients[n];
        left := left - {name};
        CombinedWith(walked, name, clients[name]);
        assert walked - {name} == walked;
        assert walked[name := clients[name]] == map n | n in clients.Keys - left :: clients[n];
        all := all + clients[name].flags;
      }
      assert (map n | n in clients.Keys - left :: clients[n]) == clients;
      if flags != all {
        flags := all;
      }
    }

    method ClientVanished(name: Name)
      modifies this
      ensures View() == Vanish(old(View()), name)
    {
      clients := clients - {name};
      UpdateFlags();
    }

    method EnableUpdates(sender: Name, wanted: Flags) returns (cookie: Cookie)
      modifies this
      ensures View() == Enable(old(View()), sender, wanted)
      ensures cookie == if wanted == {} then 0 else lastUpdateCookie
    {
      hide NextCookie;
      if wanted == {} {
        return 0;
      }
      var flags1 := wanted + {FINISHED};
      lastUpdateCookie := NextCookie(lastUpdateCookie);
      cookie := lastUpdateCookie;
      var client := Client(map[], {});
      if sender in clients {
        client := clients[sender];
      }
      client := client.(flags := client.flags + flags1);
      client := client.(requests := client.requests[cookie := flags1]);
      clients := clients[sender := client];
      if flags * flags1 != flags1 {
        flags := flags + flags1;
      }
      assert flags == old(flags) + flags1;
    }

    /** The flags of a client, from what is left of its requests. */
    method CombineRequests(requests: map<Cookie, Flags>) returns (all: Flags)
      ensures all == Requested(requests)
    {
      var left := requests.Keys;
      all := {};
      while left != {}
        invariant left <= requests.Keys
        invariant all == Requested(map c | c in requests.Keys - left :: requests[c])
        decreases left
      {
        var c :| c in left;
        ghost var walked := map d | d in requests.Keys - left :: requests[d];
        left := left - {c};
        RequestedWith(walked, c, requests[c]);
        assert walked - {c} == walked;
        assert walked[c := requests[c]] == map d | d in requests.Keys - left :: requests[d];
        all := all + requests[c];
      }
      assert (map c | c in requests.Keys - left :: requests[c]) == requests;
    }

    method DisableUpdates(sender: Name, cookie: Cookie)
      modifies this
      ensures View() == Disable(old(View()), sender, cookie)
    {
      if sender in clients {
        var requests := clients[sender].requests - {cookie};
        var all := CombineRequests(requests);
        clients := clients[sender := Client(requests, all)];
        UpdateFlags();
      }
    }
  }
}
