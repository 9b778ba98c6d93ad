/** The reactor of the core snapshot: the handler is chosen by an exact
    match of the event mask against IN, OUT, HUP and ERR, a missing handler
    or a missing record (KeyError) skips the event, and the timeout rule
    then runs on the fd that was handled. */
module CoreLoop {
  import opened PyText
  import opened Io
  import opened CoreFdInfo
  import opened CoreFdManager

  /** The interest of a connection waiting for input (IN|ERR|HUP). */
  const EVENTS: bv32 := IN | ERR | HUP

  class Loop {
    const listen: Listener
    /** Seconds of silence after which a connection is dropped. */
    const timeout: int
    const epoll: Epoll
    const manager: FdManager
    /** The tasks handed to the task manager so far, in order. */
    var queue: seq<Task>

    /** epoll watches exactly the listening fd and the fd of every record. */
    predicate Valid()
      reads this, manager, epoll, manager.infos.Values
    {
      && manager.Valid()
      && manager.epoll == epoll
      && listen.fileno !in manager.infos
      && listen.fileno in epoll.interest
      && (forall fd :: fd in epoll.interest && fd != listen.fileno ==> fd in manager.infos)
      && (forall fd :: fd in manager.infos ==> fd in epoll.interest)
    }

    /** `Loop(listen_fd, timeout, ...)`: a fresh epoll watching the
        listening fd for IN|ERR|HUP, and an empty registry over it. */
    constructor(listen: Listener, timeout: int)
      ensures Valid()
      ensures this.listen == listen && this.timeout == timeout
      ensures manager.infos == map[] && epoll.interest == map[listen.fileno := EVENTS]
      ensures queue == [] && fresh(epoll) && fresh(manager)
    {
      this.listen := listen;
      this.timeout := timeout;
      var io := new Epoll();
      var _ := io.Register(listen.fileno, EVENTS);
      epoll := io;
      manager := new FdManager(io);
      queue := [];
    }

    /** One round of `__event_new`: accept one connection and file it;
        `more` is false once `accept` raised or the registration failed. */
    method AcceptOne(now: int) returns (more: bool, crash: Option<Exc>)
      requires Valid()
      modifies listen, manager, epoll
      ensures Valid()
      ensures old(listen.backlog) == [] ==> !more && crash == None && listen.backlog == []
      ensures old(listen.backlog) != [] ==> listen.backlog == old(listen.backlog)[1..]
      ensures !more || crash.Some? ==> manager.infos == old(manager.infos) && epoll.interest == old(epoll.interest)
      ensures crash.Some? ==> !more && crash == Some(IOError)
      ensures old(listen.backlog) != [] && old(listen.backlog)[0].Err? ==> !more && crash == None
      ensures old(listen.backlog) != [] && old(listen.backlog)[0].Ok? ==>
        var fd := old(listen.backlog)[0].value.fileno;
        && (fd in old(epoll.interest) ==> crash == Some(IOError))
        && (fd !in old(epoll.interest) ==>
              && more && crash == None
              && epoll.interest == old(epoll.interest)[fd := EVENTS]
              && manager.infos.Keys == old(manager.infos).Keys + {fd}
              && (forall k :: k in old(manager.infos) ==> manager.infos[k] == old(manager.infos)[k])
              && fresh(manager.infos[fd]) && manager.infos[fd].timestamp == now)
    {
      var sock, address, errno := listen.Accept();
      if sock == null {
        return false, None;
      }
      crash := manager.New(address, sock, EVENTS, now);
      more := crash.None?;
    }

    /** `__event_new`: accept and file connections until `accept` raises
        `socket.error`; a failed registration escapes as IOError. */
    method EventNew(now: int) returns (crash: Option<Exc>)
      requires Valid()
      modifies listen, manager, epoll
      ensures Valid()
      ensures var a := Admit(old(listen.backlog), old(epoll.interest).Keys);
        && listen.backlog == a.rest
        && manager.infos.Keys == old(manager.infos).Keys + a.fds
        && (crash.Some? <==> a.crashed)
        && (crash.Some? ==> crash == Some(IOError))
        && (forall fd :: fd in a.fds ==> fresh(manager.infos[fd]) && manager.infos[fd].timestamp == now)
        && epoll.interest.Keys == old(epoll.interest).Keys + a.fds
        && (forall fd :: fd in a.fds ==> epoll.interest[fd] == EVENTS)
      ensures forall fd :: fd in old(manager.infos) ==> manager.infos[fd] == old(manager.infos)[fd]
      ensures forall fd :: fd in old(epoll.interest) ==> epoll.interest[fd] == old(epoll.interest)[fd]
    {
      ghost var a0 := Admit(listen.backlog, epoll.interest.Keys);
      ghost var added: set<int> := {};
      var more := true;
      crash := None;
      while more
        invariant Valid()
        invariant more ==> crash == None
        invariant more ==> var a := Admit(listen.backlog, epoll.interest.Keys);
          a0 == Admission(added + a.fds, a.rest, a.crashed) && added !! a.fds
        invariant !more ==> a0 == Admission(added, listen.backlog, crash.Some?)
        invariant crash.Some? ==> crash == Some(IOError)
        invariant manager.infos.Keys == old(manager.infos).Keys + added
        invariant forall fd :: fd in old(manager.infos) ==> manager.infos[fd] == old(manager.infos)[fd]
        invariant forall fd :: fd in added ==> fresh(manager.infos[fd]) && manager.infos[fd].timestamp == now
        invariant forall fd :: fd in added ==> fd !in old(manager.infos)
        invariant epoll.interest.Keys == old(epoll.interest).Keys + added && added !! old(epoll.interest).Keys
        invariant forall fd :: fd in added ==> epoll.interest[fd] == EVENTS
        invariant forall fd :: fd in old(epoll.interest) ==> epoll.interest[fd] == old(epoll.interest)[fd]
        decreases more, |listen.backlog|
      {
        ghost var taken := epoll.interest.Keys;
        ghost var backlog := listen.backlog;
        more, crash := AcceptOne(now);
        if backlog != [] && backlog[0].Ok? && backlog[0].value.fileno !in taken {
          var p := backlog[0].value;
          assert epoll.interest.Keys == taken + {p.fileno};
          AdmitFresh(backlog[1..], taken + {p.fileno});
          added := added + {p.fileno};
        }
      }
    }

    /** `__event_receive`: looking up the record's address raises KeyError
        for an unknown fd before anything happens. Otherwise drain it (and
        drop what was read); on success watch it for OUT as well, on
        `socket.error` delete it; either way queue an `on_receive` task. */
    method EventReceive(fd: int, now: int) returns (crash: Option<Exc>)
      requires Valid() && fd != listen.fileno
      modifies this, manager, epoll, manager.Entry(fd)
      ensures Valid()
      ensures fd !in old(manager.infos) ==>
        && crash == Some(KeyError) && queue == old(queue)
        && manager.infos == old(manager.infos) && epoll.interest == old(epoll.interest)
      ensures fd in old(manager.infos) ==>
        var info := old(manager.infos)[fd];
        var d := Drain(old(info.socket.inbox));
        && crash == None
        && queue == old(queue) + [ReceiveTask(fd)]
        && info.timestamp == now
        && info.sendingData == old(info.sendingData)
        && old(info.socket).inbox == d.rest && old(info.socket).wire == old(info.socket.wire)
        && old(info.socket).sendPlan == old(info.socket.sendPlan)
        && (d.error.None? ==>
              && info.receivedChunks == [] && info.socket == old(info.socket)
              && old(info.socket).closeCalls == old(info.socket.closeCalls)
              && manager.infos == old(manager.infos) && epoll.interest == old(epoll.interest)[fd := EVENTS | OUT])
        && (d.error.Some? ==>
              && info.socket == null && old(info.socket).closeCalls == old(info.socket.closeCalls) + 1
              && manager.infos == old(manager.infos) - {fd} && epoll.interest == old(epoll.interest) - {fd})
    {
      if fd !in manager.infos {
        return Some(KeyError);
      }
      var err := manager.Receive(fd, now);
      if err.None? {
        crash := epoll.Modify(fd, EVENTS | OUT);
        if crash.Some? {
          return;
        }
      } else {
        manager.Delete(fd);
      }
      queue := queue + [ReceiveTask(fd)];
      crash := None;
    }

    /** `__event_send`: KeyError for an unknown fd as above. Otherwise send
        the record's pending text; on success watch it for IN|ERR|HUP only
        again, on `socket.error` delete it; either way queue an `on_send`
        task. */
    method EventSend(fd: int, now: int) returns (crash: Option<Exc>)
      requires Valid() && fd != listen.fileno
      modifies this, manager, epoll, manager.Entry(fd)
      ensures Valid()
      ensures fd !in old(manager.infos) ==>
        && crash == Some(KeyError) && queue == old(queue)
        && manager.infos == old(manager.infos) && epoll.interest == old(epoll.interest)
      ensures fd in old(manager.infos) ==>
        var info := old(manager.infos)[fd];
        var pending := old(info.sendingData);
        var ok := pending == "" || Flush(pending, 0, old(info.socket.sendPlan)).error.None?;
        && crash == None
        && queue == old(queue) + [SendTask(fd)]
        && info.timestamp == now
        && info.receivedChunks == old(info.receivedChunks) && old(info.socket).inbox == old(info.socket.inbox)
        && (pending == "" ==>
              old(info.socket).sendPlan == old(info.socket.sendPlan) && old(info.socket).wire == old(info.socket.wire))
        && (pending != "" ==>
              var f := Flush(pending, 0, old(info.socket.sendPlan));
              old(info.socket).sendPlan == f.rest && old(info.socket).wire == old(info.socket.wire) + pending[..f.sent])
        && (ok ==>
              && info.sendingData == "" && info.socket == old(info.socket)
              && old(info.socket).closeCalls == old(info.socket.closeCalls)
              && manager.infos == old(manager.infos) && epoll.interest == old(epoll.interest)[fd := EVENTS])
        && (!ok ==>
              && info.sendingData == pending && info.socket == null
              && old(info.socket).closeCalls == old(info.socket.closeCalls) + 1
              && manager.infos == old(manager.infos) - {fd} && epoll.interest == old(epoll.interest) - {fd})
    {
      if fd !in manager.infos {
        return Some(KeyError);
      }
      assert manager.infos[fd].sendingData + "" == manager.infos[fd].sendingData;
      var err := manager.Send(fd, None, now);
      if err.None? {
        crash := epoll.Modify(fd, EVENTS);
        if crash.Some? {
          return;
        }
      } else {
        manager.Delete(fd);
      }
      queue := queue + [SendTask(fd)];
      crash := None;
    }

    /** `__event_error`: the connection is deleted. */
    method EventError(fd: int)
      requires Valid() && fd != listen.fileno
      modifies manager, epoll, manager.Entry(fd)
      ensures Valid()
      ensures manager.infos == old(manager.infos) - {fd}
      ensures epoll.interest == old(epoll.interest) - {fd}
      ensures fd in old(manager.infos) ==>
        old(manager.infos[fd]).socket == null
        && old(manager.infos[fd].socket).closeCalls == old(manager.infos[fd].socket.closeCalls) + 1
    {
      manager.Delete(fd);
    }

    /** `__check_timeout` with the clock reading `now`: nothing for an fd
        without a record; a record silent for more than `timeout` is
        deleted, any other is stamped `now`. */
    method CheckTimeout(fd: int, now: int)
      requires Valid()
      modifies manager, epoll, manager.Entry(fd)
      ensures Valid()
      ensures forall k :: k in old(manager.infos) && k != fd ==>
        && k in manager.infos && manager.infos[k] == old(manager.infos)[k]
        && manager.infos[k].timestamp == old(manager.infos[k].timestamp)
      ensures fd !in old(manager.infos) ==>
        manager.infos == old(manager.infos) && epoll.interest == old(epoll.interest)
      ensures fd in old(manager.infos) && now - old(manager.infos[fd].timestamp) > timeout ==>
        && manager.infos == old(manager.infos) - {fd} && epoll.interest == old(epoll.interest) - {fd}
        && old(manager.infos[fd]).socket == null
        && old(manager.infos[fd].socket).closeCalls == old(manager.infos[fd].socket.closeCalls) + 1
      ensures fd in old(manager.infos) && now - old(manager.infos[fd].timestamp) <= timeout ==>
        && manager.infos == old(manager.infos) && epoll.interest == old(epoll.interest)
        && manager.infos[fd].State() == old(manager.infos[fd].State()).(timestamp := now)
    {
      if fd !in manager.infos {
        return;
      }
      var info := manager.infos[fd];
      if now - info.timestamp > timeout {
        manager.Delete(fd);
      } else {
        info.timestamp := now;
      }
    }

    /** The branch of `run` for one event: the listening fd accepts; any
        other fd looks its mask up in `event_dict`. `skipped` is the
        `except KeyError: continue` path, taken for a mask that is not
        exactly IN, OUT, HUP or ERR, and for IN or OUT on an unknown fd;
        nothing changes then. */
    method Handle(fd: int, mask: bv32, now: int) returns (crash: Option<Exc>, skipped: bool)
      requires Valid()
      modifies this, listen, manager, epoll, manager.Entry(fd)
      ensures Valid()
      ensures forall k :: k in old(manager.infos) && k != fd ==>
        && k in manager.infos && manager.infos[k] == old(manager.infos)[k]
        && manager.infos[k].timestamp == old(manager.infos[k].timestamp)
      ensures fd in manager.infos ==>
        && fd in old(manager.infos) && manager.infos[fd] == old(manager.infos)[fd]
        && manager.infos[fd].socket == old(manager.infos[fd].socket)
      ensures skipped <==>
        fd != listen.fileno
        && ((mask != IN && mask != OUT && mask != HUP && mask != ERR)
            || ((mask == IN || mask == OUT) && fd !in old(manager.infos)))
      ensures skipped ==> crash == None
      ensures fd == listen.fileno ==> queue == old(queue)
      ensures fd == listen.fileno ==>
        var a := Admit(old(listen.backlog), old(epoll.interest).Keys);
        && listen.backlog == a.rest
        && manager.infos.Keys == old(manager.infos).Keys + a.fds
        && (crash.Some? <==> a.crashed)
        && epoll.interest.Keys == old(epoll.interest).Keys + a.fds
        && (forall k :: k in a.fds ==> epoll.interest[k] == EVENTS)
      ensures fd != listen.fileno ==> crash == None
      ensures skipped ==>
        && queue == old(queue)
        && manager.infos == old(manager.infos) && epoll.interest == old(epoll.interest)
        && (fd in manager.infos ==> manager.infos[fd].State() == old(manager.infos[fd].State()))
      ensures fd != listen.fileno && mask == IN && fd in old(manager.infos) ==>
        queue == old(queue) + [ReceiveTask(fd)] && old(manager.infos)[fd].timestamp == now
      ensures fd != listen.fileno && mask == OUT && fd in old(manager.infos) ==>
        queue == old(queue) + [SendTask(fd)] && old(manager.infos)[fd].timestamp == now
      ensures fd != listen.fileno && (mask == HUP || mask == ERR) ==>
        && queue == old(queue)
        && manager.infos == old(manager.infos) - {fd} && epoll.interest == old(epoll.interest) - {fd}
        && (fd in old(manager.infos) ==>
              old(manager.infos[fd].socket).closeCalls == old(manager.infos[fd].socket.closeCalls) + 1)
    {
      skipped := false;
      crash := None;
      if fd == listen.fileno {
        crash := EventNew(now);
        return;
      }
      if mask == IN {
        crash := EventReceive(fd, now);
      } else if mask == OUT {
        crash := EventSend(fd, now);
      } else if mask == HUP || mask == ERR {
        EventError(fd);
      } else {
        skipped := true;
      }
      if crash == Some(KeyError) {
        crash := None;
        skipped := true;
      }
    }

    /** One event of `run`: the handler runs at clock reading `now`; then,
        unless the event was skipped or an exception escaped, the timeout
        rule runs on this fd at clock reading `later`. No other fd's record
        is replaced, dropped or restamped. */
    method Dispatch(fd: int, mask: bv32, now: int, later: int) returns (crash: Option<Exc>)
      requires Valid()
      modifies this, listen, manager, epoll, manager.Entry(fd)
      ensures Valid()
      ensures forall k :: k in old(manager.infos) && k != fd ==>
        && k in manager.infos && manager.infos[k] == old(manager.infos)[k]
        && manager.infos[k].timestamp == old(manager.infos[k].timestamp)
      ensures fd == listen.fileno ==> queue == old(queue)
      ensures fd == listen.fileno ==>
        var a := Admit(old(listen.backlog), old(epoll.interest).Keys);
        && listen.backlog == a.rest
        && manager.infos.Keys == old(manager.infos).Keys + a.fds
        && (crash.Some? <==> a.crashed)
        && epoll.interest.Keys == old(epoll.interest).Keys + a.fds
        && (forall k :: k in a.fds ==> epoll.interest[k] == EVENTS)
      ensures fd != listen.fileno ==> crash == None
      ensures fd != listen.fileno && mask != IN && mask != OUT && mask != HUP && mask != ERR ==>
        && queue == old(queue)
        && manager.infos == old(manager.infos) && epoll.interest == old(epoll.interest)
        && (fd in manager.infos ==> manager.infos[fd].State() == old(manager.infos[fd].State()))
      ensures fd != listen.fileno && (mask == IN || mask == OUT) && fd !in old(manager.infos) ==>
        && queue == old(queue)
        && manager.infos == old(manager.infos) && epoll.interest == old(epoll.interest)
      ensures fd != listen.fileno && mask == IN && fd in old(manager.infos) ==>
        queue == old(queue) + [ReceiveTask(fd)]
      ensures fd != listen.fileno && mask == OUT && fd in old(manager.infos) ==>
        queue == old(queue) + [SendTask(fd)]
      ensures fd != listen.fileno && (mask == HUP || mask == ERR) ==>
        && queue == old(queue)
        && manager.infos == old(manager.infos) - {fd} && epoll.interest == old(epoll.interest) - {fd}
        && (fd in old(manager.infos) ==>
              old(manager.infos[fd].socket).closeCalls == old(manager.infos[fd].socket.closeCalls) + 1)
      ensures fd != listen.fileno && (mask == IN || mask == OUT) && fd in old(manager.infos) && fd in manager.infos ==>
        && later - now <= timeout
        && manager.infos[fd].timestamp == later
    {
      var skipped;
      crash, skipped := Handle(fd, mask, now);
      if skipped || crash.Some? {
        return;
      }
      CheckTimeout(fd, later);
    }
  }
}
