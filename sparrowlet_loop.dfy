/** The reactor of the sparrowlet snapshot: for each readiness event it
    accepts new connections (listen fd), or drains, flushes or drops a
    connection, with READ tested before WRITE and WRITE before ERR; it then
    hands a task for the fd to the worker and applies the timeout rule to
    that fd alone. */
module SparrowletLoop {
  import opened PyText
  import opened Io
  import opened SparrowFd

  const READ: bv32 := IN
  const WRITE: bv32 := OUT
  const ERROR: bv32 := ERR | HUP
  /** The interest of a connection waiting for input. */
  const EVENTS: bv32 := READ | ERROR

  class Loop {
    const listen: Listener
    /** Seconds of silence after which a connection is dropped. */
    const timeout: int
    const manager: FdManager
    const epoll: Epoll
    /** The task channel: every task handed to the worker so far, in order. */
    var queue: seq<Task>

    /** epoll watches exactly the listening fd and the fd of every record. */
    predicate Valid()
      reads this, manager, epoll
    {
      && manager.Valid()
      && manager.io == epoll
      && listen.fileno !in manager.infos
      && listen.fileno in epoll.interest
      && (forall fd :: fd in epoll.interest && fd != listen.fileno ==> fd in manager.infos)
      && (forall fd :: fd in manager.infos ==> fd in epoll.interest)
    }

    /** `Loop(listen_fd, timeout, task_channel)` with the registry given to
        it (`set_io`): the listening fd is registered for READ|ERR. */
    constructor(listen: Listener, timeout: int, manager: FdManager)
      requires manager.Valid() && manager.infos == map[]
      modifies manager
      ensures Valid()
      ensures this.listen == listen && this.timeout == timeout && this.manager == manager
      ensures manager.infos == map[] && epoll.interest == map[listen.fileno := EVENTS]
      ensures queue == [] && fresh(epoll)
    {
      this.listen := listen;
      this.timeout := timeout;
      this.manager := manager;
      var io := new Epoll();
      var _ := io.Register(listen.fileno, EVENTS);
      manager.SetIo(io);
      epoll := io;
      queue := [];
    }

    /** One round of `__event_new`: accept one connection and file it;
        `more` is false once `accept` raised or the registration failed. */
    method AcceptOne(now: int) returns (more: bool, crash: Option<Exc>)
      requires Valid()
      modifies listen, manager, epoll
      ensures Valid()
      ensures old(listen.backlog) == [] ==> !more && crash == None && listen.backlog == []
      ensures old(listen.backlog) != [] ==> listen.backlog == old(listen.backlog)[1..]
      ensures !more || crash.Some? ==> manager.infos == old(manager.infos) && epoll.interest == old(epoll.interest)
      ensures crash.Some? ==> !more && crash == Some(IOError)
      ensures old(listen.backlog) != [] && old(listen.backlog)[0].Err? ==> !more && crash == None
      ensures old(listen.backlog) != [] && old(listen.backlog)[0].Ok? ==>
        var fd := old(listen.backlog)[0].value.fileno;
        && (fd in old(epoll.interest) ==> crash == Some(IOError))
        && (fd !in old(epoll.interest) ==>
              && more && crash == None
              && epoll.interest == old(epoll.interest)[fd := EVENTS]
              && manager.infos.Keys == old(manager.infos).Keys + {fd}
              && (forall k :: k in old(manager.infos) ==> manager.infos[k] == old(manager.infos)[k])
              && fresh(manager.infos[fd]) && manager.infos[fd].timestamp == now)
    {
      var sock, address, errno := listen.Accept();
      if sock == null {
        return false, None;
      }
      crash := manager.New(address, sock, EVENTS, now);
      more := crash.None?;
    }

    /** `__event_new`: accept and file connections until `accept` raises;
        a failed registration escapes as IOError. */
    method EventNew(now: int) returns (crash: Option<Exc>)
      requires Valid()
      modifies listen, manager, epoll
      ensures Valid()
      ensures var a := Admit(old(listen.backlog), old(epoll.interest).Keys);
        && listen.backlog == a.rest
        && manager.infos.Keys == old(manager.infos).Keys + a.fds
        && (crash.Some? <==> a.crashed)
        && (crash.Some? ==> crash == Some(IOError))
        && (forall fd :: fd in a.fds ==> fresh(manager.infos[fd]) && manager.infos[fd].timestamp == now)
        && epoll.interest.Keys == old(epoll.interest).Keys + a.fds
        && (forall fd :: fd in a.fds ==> epoll.interest[fd] == EVENTS)
      ensures forall fd :: fd in old(manager.infos) ==> manager.infos[fd] == old(manager.infos)[fd]
      ensures forall fd :: fd in old(epoll.interest) ==> epoll.interest[fd] == old(epoll.interest)[fd]
    {
      ghost var a0 := Admit(listen.backlog, epoll.interest.Keys);
      ghost var added: set<int> := {};
      var more := true;
      crash := None;
      while more
        invariant Valid()
        invariant more ==> crash == None
        invariant more ==> var a := Admit(listen.backlog, epoll.interest.Keys);
          a0 == Admission(added + a.fds, a.rest, a.crashed) && added !! a.fds
        invariant !more ==> a0 == Admission(added, listen.backlog, crash.Some?)
        invariant crash.Some? ==> crash == Some(IOError)
        invariant manager.infos.Keys == old(manager.infos).Keys + added
        invariant forall fd :: fd in old(manager.infos) ==> manager.infos[fd] == old(manager.infos)[fd]
        invariant forall fd :: fd in added ==> fresh(manager.infos[fd]) && manager.infos[fd].timestamp == now
        invariant forall fd :: fd in added ==> fd !in old(manager.infos)
        invariant epoll.interest.Keys == old(epoll.interest).Keys + added && added !! old(epoll.interest).Keys
        invariant forall fd :: fd in added ==> epoll.interest[fd] == EVENTS
        invariant forall fd :: fd in old(epoll.interest) ==> epoll.interest[fd] == old(epoll.interest)[fd]
        decreases more, |listen.backlog|
      {
        ghost var taken := epoll.interest.Keys;
        ghost var backlog := listen.backlog;
        ghost var fds := manager.infos.Keys;
        more, crash := AcceptOne(now);
        if backlog != [] && backlog[0].Ok? && backlog[0].value.fileno !in taken {
          var p := backlog[0].value;
          assert epoll.interest.Keys == taken + {p.fileno};
          AdmitFresh(backlog[1..], taken + {p.fileno});
          added := added + {p.fileno};
        }
      }
    }

    /** `__event_receive`: drain the connection; on success it is also
        watched for WRITE, on `socket.error` it is removed; either way a
        ReceiveTask is queued. Watching an fd epoll does not know raises
        IOError, which escapes before the task is queued. */
    method EventReceive(fd: int, now: int) returns (crash: Option<Exc>)
      requires Valid() && fd != listen.fileno
      modifies this, manager, epoll, manager.Entry(fd)
      ensures Valid()
      ensures fd !in old(manager.infos) ==>
        && crash == Some(IOError) && queue == old(queue)
        && manager.infos == old(manager.infos) && epoll.interest == old(epoll.interest)
      ensures fd in old(manager.infos) ==>
        var info := old(manager.infos)[fd];
        var d := Drain(old(info.socket.inbox));
        && crash == None
        && queue == old(queue) + [ReceiveTask(fd)]
        && info.timestamp == now
        && info.receivedData.chunks == old(info.receivedData.chunks) + d.chunks
        && info.socket.inbox == d.rest
        && info.sendingData.chunks == old(info.sendingData.chunks)
        && info.socket.sendPlan == old(info.socket.sendPlan) && info.socket.wire == old(info.socket.wire)
        && info.socket.closeCalls == old(info.socket.closeCalls)
        && (d.error.None? ==> manager.infos == old(manager.infos) && epoll.interest == old(epoll.interest)[fd := EVENTS | WRITE])
        && (d.error.Some? ==> manager.infos == old(manager.infos) - {fd} && epoll.interest == old(epoll.interest) - {fd})
    {
      var err := manager.Receive(fd, now);
      if err.None? {
        crash := epoll.Modify(fd, EVENTS | WRITE);
        if crash.Some? {
          return;
        }
      } else if err.value.SocketError? {
        manager.Remove(fd);
      } else {
        return err;
      }
      queue := queue + [ReceiveTask(fd)];
      crash := None;
    }

    /** `__event_send`: flush the connection's pending output; on success it
        is watched for READ|ERR only again, on `socket.error` it is removed;
        either way a SendTask is queued. */
    method EventSend(fd: int, now: int) returns (crash: Option<Exc>)
      requires Valid() && fd != listen.fileno
      modifies this, manager, epoll, manager.Entry(fd)
      ensures Valid()
      ensures fd !in old(manager.infos) ==>
        && crash == Some(IOError) && queue == old(queue)
        && manager.infos == old(manager.infos) && epoll.interest == old(epoll.interest)
      ensures fd in old(manager.infos) ==>
        var info := old(manager.infos)[fd];
        var pending := old(info.sendingData.chunks);
        var ok := pending == [] || Flush(Concat(pending), 0, old(info.socket.sendPlan)).error.None?;
        && crash == None
        && queue == old(queue) + [SendTask(fd)]
        && info.timestamp == now
        && info.sendingData.chunks == []
        && info.receivedData.chunks == old(info.receivedData.chunks) && info.socket.inbox == old(info.socket.inbox)
        && info.socket.closeCalls == old(info.socket.closeCalls)
        && (pending == [] ==> info.socket.sendPlan == old(info.socket.sendPlan) && info.socket.wire == old(info.socket.wire))
        && (pending != [] ==>
              var f := Flush(Concat(pending), 0, old(info.socket.sendPlan));
              info.socket.sendPlan == f.rest && info.socket.wire == old(info.socket.wire) + Concat(pending)[..f.sent])
        && (ok ==> manager.infos == old(manager.infos) && epoll.interest == old(epoll.interest)[fd := EVENTS])
        && (!ok ==> manager.infos == old(manager.infos) - {fd} && epoll.interest == old(epoll.interest) - {fd})
    {
      if fd in manager.infos {
        var info := manager.infos[fd];
        assert info.Pending(None) == info.sendingData.chunks;
      }
      var err := manager.Send(fd, None, now);
      if err.None? {
        crash := epoll.Modify(fd, EVENTS);
        if crash.Some? {
          return;
        }
      } else if err.value.SocketError? {
        manager.Remove(fd);
      } else {
        return err;
      }
      queue := queue + [SendTask(fd)];
      crash := None;
    }

    /** `__event_error`: the connection is removed. */
    method EventError(fd: int)
      requires Valid() && fd != listen.fileno
      modifies manager, epoll
      ensures Valid()
      ensures manager.infos == old(manager.infos) - {fd}
      ensures epoll.interest == old(epoll.interest) - {fd}
    {
      manager.Remove(fd);
    }

    /** `__check_timeout` with the clock reading `now`: nothing for an fd
        without a record; a record silent for more than `timeout` is
        removed, any other is stamped `now`. */
    method CheckTimeout(fd: int, now: int)
      requires Valid()
      modifies manager, epoll, manager.Entry(fd)
      ensures Valid()
      ensures forall k :: k in old(manager.infos) && k != fd ==>
        && k in manager.infos && manager.infos[k] == old(manager.infos)[k]
        && manager.infos[k].timestamp == old(manager.infos[k].timestamp)
      ensures fd !in old(manager.infos) ==>
        manager.infos == old(manager.infos) && epoll.interest == old(epoll.interest)
      ensures fd in old(manager.infos) && now - old(manager.infos[fd].timestamp) > timeout ==>
        && manager.infos == old(manager.infos) - {fd} && epoll.interest == old(epoll.interest) - {fd}
        && old(manager.infos)[fd].State() == old(manager.infos[fd].State())
      ensures fd in old(manager.infos) && now - old(manager.infos[fd].timestamp) <= timeout ==>
        && manager.infos == old(manager.infos) && epoll.interest == old(epoll.interest)
        && manager.infos[fd].State() == old(manager.infos[fd].State()).(timestamp := now)
    {
      if fd !in manager.infos {
        return;
      }
      var info := manager.infos[fd];
      if now - info.timestamp > timeout {
        manager.Remove(fd);
      } else {
        info.timestamp := now;
      }
    }

    /** The branch of `run` for one event: the listening fd accepts, else
        READ receives, else WRITE sends, else ERR drops; `handled` is false
        when the mask matches none of these, and then nothing changes. */
    method Handle(fd: int, mask: bv32, now: int) returns (crash: Option<Exc>, handled: bool)
      requires Valid()
      modifies this, listen, manager, epoll, manager.Entry(fd)
      ensures Valid()
      ensures forall k :: k in old(manager.infos) && k != fd ==>
        && k in manager.infos && manager.infos[k] == old(manager.infos)[k]
        && manager.infos[k].timestamp == old(manager.infos[k].timestamp)
      ensures fd in manager.infos ==> fd in old(manager.infos) && manager.infos[fd] == old(manager.infos)[fd]
      ensures handled <==> fd == listen.fileno || mask & (READ | WRITE | ERROR) != 0
      ensures fd == listen.fileno ==> queue == old(queue)
      ensures fd == listen.fileno ==>
        var a := Admit(old(listen.backlog), old(epoll.interest).Keys);
        && listen.backlog == a.rest
        && manager.infos.Keys == old(manager.infos).Keys + a.fds
        && (crash.Some? <==> a.crashed)
        && epoll.interest.Keys == old(epoll.interest).Keys + a.fds
        && (forall k :: k in a.fds ==> epoll.interest[k] == EVENTS)
      ensures !handled ==>
        && crash == None && queue == old(queue)
        && manager.infos == old(manager.infos) && epoll.interest == old(epoll.interest)
        && (fd in manager.infos ==> manager.infos[fd].State() == old(manager.infos[fd].State()))
      ensures fd != listen.fileno && mask & READ != 0 && fd in old(manager.infos) ==>
        && crash == None && queue == old(queue) + [ReceiveTask(fd)]
        && old(manager.infos)[fd].timestamp == now
      ensures fd != listen.fileno && mask & READ == 0 && mask & WRITE != 0 && fd in old(manager.infos) ==>
        && crash == None && queue == old(queue) + [SendTask(fd)]
        && old(manager.infos)[fd].timestamp == now
      ensures fd != listen.fileno && mask & (READ | WRITE) == 0 && mask & ERROR != 0 ==>
        && crash == None && queue == old(queue)
        && manager.infos == old(manager.infos) - {fd} && epoll.interest == old(epoll.interest) - {fd}
      ensures fd != listen.fileno && (mask & (READ | WRITE) != 0 ==> fd in old(manager.infos)) ==> crash == None
    {
      handled := true;
      if fd == listen.fileno {
        crash := EventNew(now);
      } else if mask & READ != 0 {
        crash := EventReceive(fd, now);
      } else if mask & WRITE != 0 {
        crash := EventSend(fd, now);
      } else if mask & ERROR != 0 {
        EventError(fd);
        crash := None;
      } else {
        crash := None;
        handled := false;
      }
    }

    /** One event of `run`: the handler runs at clock reading `now`; then,
        unless the mask matched no handler (`continue`) or an exception
        escaped, the timeout rule runs on this fd at clock reading `later`.
        No other fd's record is replaced, dropped or restamped. */
    method Dispatch(fd: int, mask: bv32, now: int, later: int) returns (crash: Option<Exc>)
      requires Valid()
      modifies this, listen, manager, epoll, manager.Entry(fd)
      ensures Valid()
      ensures forall k :: k in old(manager.infos) && k != fd ==>
        && k in manager.infos && manager.infos[k] == old(manager.infos)[k]
        && manager.infos[k].timestamp == old(manager.infos[k].timestamp)
      ensures fd == listen.fileno ==> queue == old(queue)
      ensures fd == listen.fileno ==>
        var a := Admit(old(listen.backlog), old(epoll.interest).Keys);
        && listen.backlog == a.rest
        && manager.infos.Keys == old(manager.infos).Keys + a.fds
        && (crash.Some? <==> a.crashed)
        && epoll.interest.Keys == old(epoll.interest).Keys + a.fds
        && (forall k :: k in a.fds ==> epoll.interest[k] == EVENTS)
      ensures fd != listen.fileno && mask & (READ | WRITE | ERROR) == 0 ==>
        && crash == None && queue == old(queue)
        && manager.infos == old(manager.infos) && epoll.interest == old(epoll.interest)
        && (fd in manager.infos ==> manager.infos[fd].State() == old(manager.infos[fd].State()))
      ensures fd != listen.fileno && mask & READ != 0 && fd in old(manager.infos) ==>
        crash == None && queue == old(queue) + [ReceiveTask(fd)]
      ensures fd != listen.fileno && mask & READ == 0 && mask & WRITE != 0 && fd in old(manager.infos) ==>
        crash == None && queue == old(queue) + [SendTask(fd)]
      ensures fd != listen.fileno && mask & (READ | WRITE) == 0 && mask & ERROR != 0 ==>
        && crash == None && queue == old(queue)
        && manager.infos == old(manager.infos) - {fd} && epoll.interest == old(epoll.interest) - {fd}
      ensures fd != listen.fileno && mask & (READ | WRITE) != 0 && fd in old(manager.infos) && fd in manager.infos ==>
        && later - now <= timeout
        && manager.infos[fd].timestamp == later
    {
      var handled;
      crash, handled := Handle(fd, mask, now);
      if !handled || crash.Some? {
        return;
      }
      CheckTimeout(fd, later);
    }
  }
}
