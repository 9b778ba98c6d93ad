/** The registry of the core snapshot: a dict from fd to record that owns the
    epoll object it registers with, closes a record's socket when the entry
    is deleted, and throws away what `receive` reads. */
module CoreFdManager {
  import opened PyText
  import opened Io
  import opened CoreFdInfo

  class FdManager {
    var infos: map<int, FdInfo>
    const epoll: Epoll

    /** Every filed record still has its socket, and no two records share
        the record object or the socket. */
    predicate Valid()
      reads this, infos.Values
    {
      && (forall fd :: fd in infos ==> infos[fd].socket != null)
      && (forall a, b :: a in infos && b in infos && a != b ==> Apart(infos[a], infos[b]))
    }

    /** Two records share no object. */
    static predicate Apart(x: FdInfo, y: FdInfo)
      reads x, y
    {
      x != y && x.socket != y.socket
    }

    /** The objects an operation on `fd` may change. */
    function Entry(fd: int): set<object?>
      reads this, infos.Values
    {
      if fd in infos then {infos[fd], infos[fd].socket} else {}
    }

    /** `FdManager(epoll_fd)`: an empty registry. */
    constructor(epoll: Epoll)
      ensures Valid() && infos == map[] && this.epoll == epoll
    {
      infos := map[];
      this.epoll := epoll;
    }

    /** `self[fd] = v`: anything but a record (`null` here) is refused with
        ValueError and the map is left as it was. */
    method SetItem(fd: int, v: FdInfo?) returns (err: Option<Exc>)
      modifies this
      ensures v == null ==> err == Some(ValueError) && infos == old(infos)
      ensures v != null ==> err == None && infos == old(infos)[fd := v]
    {
      if v == null {
        return Some(ValueError);
      }
      infos := infos[fd := v];
      err := None;
    }

    /** `new`: register the socket's fd first, so a failed registration
        (IOError) files nothing; then file a fresh record. */
    method New(address: Address, sock: Socket, events: bv32, now: int) returns (err: Option<Exc>)
      requires Valid()
      requires forall fd :: fd in infos ==> infos[fd].socket != sock
      modifies this, epoll
      ensures Valid()
      ensures sock.fileno in old(epoll.interest) ==>
        err == Some(IOError) && infos == old(infos) && epoll.interest == old(epoll.interest)
      ensures sock.fileno !in old(epoll.interest) ==>
        && err == None
        && epoll.interest == old(epoll.interest)[sock.fileno := events]
        && infos.Keys == old(infos).Keys + {sock.fileno}
        && (forall fd :: fd in old(infos) && fd != sock.fileno ==> infos[fd] == old(infos)[fd])
        && fresh(infos[sock.fileno])
        && infos[sock.fileno].socket == sock && infos[sock.fileno].address == address
        && infos[sock.fileno].timestamp == now
        && infos[sock.fileno].sendingData == "" && infos[sock.fileno].receivedChunks == []
    {
      var fd := sock.fileno;
      err := epoll.Register(fd, events);
      if err.Some? {
        return;
      }
      var info := new FdInfo(address, sock, now);
      assert forall k :: k in infos ==> Apart(info, infos[k]) && Apart(infos[k], info);
      err := SetItem(fd, info);
    }

    /** `del self[fd]`: drop the entry and close its socket through
        `clean_fd`; the record's `__del__`, run when the method lets go of
        it, finds no socket and closes nothing more. Then unregister the fd,
        ignoring any failure. An absent fd is only unregistered. */
    method Delete(fd: int)
      requires Valid()
      modifies this, epoll, Entry(fd)
      ensures Valid()
      ensures infos == old(infos) - {fd}
      ensures epoll.interest == old(epoll.interest) - {fd}
      ensures fd in old(infos) ==>
        && old(infos[fd]).socket == null
        && old(infos[fd].socket).closeCalls == old(infos[fd].socket.closeCalls) + 1
        && old(infos[fd].socket).inbox == old(infos[fd].socket.inbox)
        && old(infos[fd].socket).sendPlan == old(infos[fd].socket.sendPlan)
        && old(infos[fd].socket).wire == old(infos[fd].socket.wire)
        && old(infos[fd]).timestamp == old(infos[fd].timestamp)
        && old(infos[fd]).sendingData == old(infos[fd].sendingData)
        && old(infos[fd]).receivedChunks == old(infos[fd].receivedChunks)
    {
      if fd in infos {
        var info := infos[fd];
        infos := infos - {fd};
        var _ := info.CleanFd();
        info.Finalize();
      }
      var _ := epoll.Unregister(fd);
    }

    /** `receive(fd)`: drain the record's socket, then read (and discard)
        the joined text, which empties the list. A read error escapes before
        that, leaving the chunks. An absent fd does nothing. */
    method Receive(fd: int, now: int) returns (err: Option<Exc>)
      requires Valid()
      modifies Entry(fd)
      ensures Valid() && infos == old(infos)
      ensures fd !in infos ==> err == None
      ensures err.Some? ==> err.value.SocketError?
      ensures fd in infos ==>
        var info := infos[fd];
        var d := Drain(old(info.socket.inbox));
        && info.socket == old(info.socket) && info.timestamp == now
        && info.socket.inbox == d.rest
        && err == d.error
        && info.receivedChunks == (if d.error.None? then [] else old(info.receivedChunks) + d.chunks)
        && info.sendingData == old(info.sendingData)
        && info.socket.sendPlan == old(info.socket.sendPlan) && info.socket.wire == old(info.socket.wire)
        && info.socket.closeCalls == old(info.socket.closeCalls)
    {
      if fd !in infos {
        return None;
      }
      var info := infos[fd];
      err := info.Receive(now);
      if err.Some? {
        return;
      }
      var _ := info.ReceivedData();
    }

    /** `send(fd, data)`: the guard tests `fd` rather than the record, so an
        absent fd reaches `None.send` and raises AttributeError. */
    method Send(fd: int, data: Option<string>, now: int) returns (err: Option<Exc>)
      requires Valid()
      modifies Entry(fd)
      ensures Valid() && infos == old(infos)
      ensures fd !in infos ==> err == Some(AttributeError)
      ensures fd in infos ==> err.None? || err.value.SocketError?
      ensures fd in infos ==>
        var info := infos[fd];
        var pending := old(info.sendingData) + (if data.Some? then data.value else "");
        && info.socket == old(info.socket) && info.timestamp == now
        && info.receivedChunks == old(info.receivedChunks)
        && info.socket.inbox == old(info.socket.inbox) && info.socket.closeCalls == old(info.socket.closeCalls)
        && (pending == "" ==>
              && err == None && info.sendingData == ""
              && info.socket.sendPlan == old(info.socket.sendPlan) && info.socket.wire == old(info.socket.wire))
        && (pending != "" ==>
              var f := Flush(pending, 0, old(info.socket.sendPlan));
              && err == f.error
              && info.sendingData == (if f.error.None? then "" else pending)
              && info.socket.sendPlan == f.rest
              && info.socket.wire == old(info.socket.wire) + pending[..f.sent])
    {
      if fd !in infos {
        return Some(AttributeError);
      }
      err := infos[fd].Send(data, now);
    }
  }
}
