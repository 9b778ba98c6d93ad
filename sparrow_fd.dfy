/** The connection records and the fd registry of the sparrow snapshot, which
    the sparrowlet server and loop use: a record per accepted socket with a
    chunk buffer for pending output and one for received input, and a map
    from fd number to record that keeps epoll in step on insertion and
    removal. */
module SparrowFd {
  import opened PyText
  import opened Io
  import opened Buff

  /** A record's contents at one moment: its stamp, both buffers and its
      socket's state. */
  datatype RecordState = RecordState(timestamp: int, sending: seq<string>, received: seq<string>, io: SocketState)

  class FdInfo {
    const address: Address
    const socket: Socket
    /** The time of the last receive, send or timeout check. */
    var timestamp: int
    const sendingData: Buff
    const receivedData: Buff

    /** The objects this record owns. */
    function Repr(): set<object> {
      {this, socket, sendingData, receivedData}
    }

    predicate Valid() {
      sendingData != receivedData
    }

    function State(): RecordState
      reads Repr()
    {
      RecordState(timestamp, sendingData.chunks, receivedData.chunks, socket.State())
    }

    /** `FdInfo(address, new_socket)`, stamped with the clock reading `now`;
        making the socket non-blocking is not modelled. */
    constructor(address: Address, socket: Socket, now: int)
      ensures Valid()
      ensures this.address == address && this.socket == socket && timestamp == now
      ensures fresh(sendingData) && fresh(receivedData)
      ensures sendingData.chunks == [] && receivedData.chunks == []
    {
      this.address := address;
      this.socket := socket;
      timestamp := now;
      sendingData := new Buff(None);
      receivedData := new Buff(None);
    }

    /** `receive`: stamp the record, then read until an empty read or EAGAIN,
        keeping each non-empty chunk in order; any other error is raised. */
    method Receive(now: int) returns (err: Option<Exc>)
      requires Valid()
      modifies this, socket, receivedData
      ensures timestamp == now
      ensures receivedData.chunks == old(receivedData.chunks) + Drain(old(socket.inbox)).chunks
      ensures socket.inbox == Drain(old(socket.inbox)).rest
      ensures err == Drain(old(socket.inbox)).error
      ensures err.Some? ==> err.value.SocketError?
      ensures socket.sendPlan == old(socket.sendPlan) && socket.wire == old(socket.wire)
      ensures socket.closeCalls == old(socket.closeCalls)
    {
      DrainRaises(socket.inbox);
      timestamp := now;
      ghost var d0 := Drain(socket.inbox);
      ghost var got: seq<string> := [];
      while true
        invariant receivedData.chunks == old(receivedData.chunks) + got
        invariant d0 == Drained(got + Drain(socket.inbox).chunks, Drain(socket.inbox).rest, Drain(socket.inbox).error)
        invariant socket.sendPlan == old(socket.sendPlan) && socket.wire == old(socket.wire)
        invariant socket.closeCalls == old(socket.closeCalls)
        invariant timestamp == now
        decreases |socket.inbox|
      {
        ghost var before := socket.inbox;
        if before != [] {
          DrainStep(before);
        }
        var r := socket.Recv();
        match r
        case Ok(s) =>
          if s == "" {
            return None;
          }
          receivedData.Append(s);
          assert got + Drain(before).chunks == (got + [s]) + Drain(socket.inbox).chunks;
          got := got + [s];
        case Err(e) =>
          if e == EAGAIN {
            return None;
          }
          return Some(SocketError(e));
      }
    }

    /** The chunks `send` works on: those pending plus `data` when it is a string. */
    function Pending(data: Option<string>): seq<string>
      reads sendingData
    {
      sendingData.chunks + (if data.Some? then [data.value] else [])
    }

    /** `send`: stamp the record, queue `data` when it is a string, and when
        any chunk is pending, join them, empty the buffer and write the text
        until all of it is out. A `socket.error` (EAGAIN too, since the
        handler names the `socket.errno` module and never matches) escapes
        with the unsent rest already gone from the buffer. */
    method Send(data: Option<string>, now: int) returns (err: Option<Exc>)
      requires Valid()
      modifies this, socket, sendingData
      ensures timestamp == now
      ensures sendingData.chunks == []
      ensures old(Pending(data)) == [] ==>
        err == None && socket.sendPlan == old(socket.sendPlan) && socket.wire == old(socket.wire)
      ensures old(Pending(data)) != [] ==>
        var text := Concat(old(Pending(data)));
        var f := Flush(text, 0, old(socket.sendPlan));
        && socket.sendPlan == f.rest
        && socket.wire == old(socket.wire) + text[..f.sent]
        && err == f.error
      ensures err.Some? ==> err.value.SocketError?
      ensures socket.inbox == old(socket.inbox) && socket.closeCalls == old(socket.closeCalls)
    {
      timestamp := now;
      ghost var pending := Pending(data);
      if data.Some? {
        sendingData.Append(data.value);
      }
      assert sendingData.chunks == pending;
      if |sendingData.chunks| == 0 {
        return None;
      }
      var text := sendingData.PopStr();
      assert text == Concat(pending);
      FlushRaises(text, 0, socket.sendPlan);
      err := WriteAll(text);
    }

    /** The loop of `send`: write `text` from the start until all of it is
        out; the first `socket.error` escapes. */
    method WriteAll(text: string) returns (err: Option<Exc>)
      modifies socket
      ensures var f := Flush(text, 0, old(socket.sendPlan));
        && socket.sendPlan == f.rest
        && socket.wire == old(socket.wire) + text[..f.sent]
        && err == f.error
      ensures socket.inbox == old(socket.inbox) && socket.closeCalls == old(socket.closeCalls)
    {
      var sendLen: nat := 0;
      ghost var f0 := Flush(text, 0, socket.sendPlan);
      while sendLen < |text|
        invariant sendLen <= |text|
        invariant Flush(text, sendLen, socket.sendPlan) == f0
        invariant socket.wire == old(socket.wire) + text[..sendLen]
        invariant socket.inbox == old(socket.inbox) && socket.closeCalls == old(socket.closeCalls)
        decreases |socket.sendPlan|
      {
        if socket.sendPlan != [] {
          FlushStep(text, sendLen, socket.sendPlan);
        }
        var r := socket.Send(text[sendLen..]);
        match r
        case Err(e) =>
          return Some(SocketError(e));
        case Ok(n) =>
          assert text[..sendLen + n] == text[..sendLen] + text[sendLen..][..n];
          sendLen := sendLen + n;
      }
      err := None;
    }
  }

  /** The registry (`FdManager`, a dict from fd to record), with the epoll
      object it registers with, which `set_io` supplies after construction. */
  class FdManager {
    var infos: map<int, FdInfo>
    var io: Epoll?

    /** Every record is well formed and no two records share an object. */
    predicate Valid()
      reads this
    {
      && (forall fd :: fd in infos ==> infos[fd].Valid())
      && (forall a, b :: a in infos && b in infos && a != b ==> Apart(infos[a], infos[b]))
    }

    /** Two records share no object. */
    static predicate Apart(x: FdInfo, y: FdInfo) {
      && x != y && x.socket != y.socket
      && x.sendingData != y.sendingData && x.receivedData != y.receivedData
      && x.sendingData != y.receivedData && x.receivedData != y.sendingData
    }

    /** The objects an operation on `fd` may change. */
    function Entry(fd: int): set<object>
      reads this
    {
      if fd in infos then infos[fd].Repr() else {}
    }

    constructor()
      ensures Valid() && infos == map[] && io == null
    {
      infos := map[];
      io := null;
    }

    method SetIo(io: Epoll)
      modifies this
      ensures this.io == io && infos == old(infos)
    {
      this.io := io;
    }

    /** `self[fd] = v`: anything but a record (`null` here) is refused with
        ValueError and the map is left as it was. */
    method SetItem(fd: int, v: FdInfo?) returns (err: Option<Exc>)
      modifies this
      ensures io == old(io)
      ensures v == null ==> err == Some(ValueError) && infos == old(infos)
      ensures v != null ==> err == None && infos == old(infos)[fd := v]
    {
      if v == null {
        return Some(ValueError);
      }
      infos := infos[fd := v];
      err := None;
    }

    /** `remove` / `del self[fd]`: drop the entry if there is one, then
        unregister the fd from epoll; a failure (an unknown fd, or no epoll
        yet) is logged. Removing twice is removing once. */
    method Remove(fd: int)
      requires Valid()
      modifies this, io
      ensures Valid() && io == old(io)
      ensures infos == old(infos) - {fd}
      ensures io != null ==> io.interest == old(io.interest) - {fd}
    {
      if fd in infos {
        infos := infos - {fd};
      }
      if io != null {
        var _ := io.Unregister(fd);
      }
    }

    /** `new`: register the socket's fd with epoll first, so a failed
        registration (IOError) inserts nothing; then file a fresh record. */
    method New(address: Address, sock: Socket, events: bv32, now: int) returns (err: Option<Exc>)
      requires Valid()
      requires forall fd :: fd in infos ==> sock !in infos[fd].Repr()
      modifies this, io
      ensures Valid() && io == old(io)
      ensures io == null ==> err == Some(AttributeError) && infos == old(infos)
      ensures io != null && sock.fileno in old(io.interest) ==>
        err == Some(IOError) && infos == old(infos) && io.interest == old(io.interest)
      ensures io != null && sock.fileno !in old(io.interest) ==>
        && err == None
        && io.interest == old(io.interest)[sock.fileno := events]
        && infos.Keys == old(infos).Keys + {sock.fileno}
        && (forall fd :: fd in old(infos) && fd != sock.fileno ==> infos[fd] == old(infos)[fd])
        && fresh(infos[sock.fileno].sendingData) && fresh(infos[sock.fileno].receivedData)
        && fresh(infos[sock.fileno])
        && infos[sock.fileno].socket == sock && infos[sock.fileno].address == address
        && infos[sock.fileno].timestamp == now
        && infos[sock.fileno].sendingData.chunks == [] && infos[sock.fileno].receivedData.chunks == []
    {
      if io == null {
        return Some(AttributeError);
      }
      var fd := sock.fileno;
      err := io.Register(fd, events);
      if err.Some? {
        return;
      }
      var info := new FdInfo(address, sock, now);
      assert forall k :: k in infos ==> Apart(info, infos[k]) && Apart(infos[k], info);
      err := SetItem(fd, info);
    }

    /** `receive(fd)`: drain the record's socket; a missing fd is logged and
        nothing changes. */
    method Receive(fd: int, now: int) returns (err: Option<Exc>)
      requires Valid()
      modifies Entry(fd)
      ensures Valid() && infos == old(infos)
      ensures fd !in infos ==> err == None
      ensures err.Some? ==> err.value.SocketError?
      ensures fd in infos ==>
        var info := infos[fd];
        && info.timestamp == now
        && info.receivedData.chunks == old(info.receivedData.chunks) + Drain(old(info.socket.inbox)).chunks
        && info.socket.inbox == Drain(old(info.socket.inbox)).rest
        && err == Drain(old(info.socket.inbox)).error
        && info.sendingData.chunks == old(info.sendingData.chunks)
        && info.socket.sendPlan == old(info.socket.sendPlan) && info.socket.wire == old(info.socket.wire)
        && info.socket.closeCalls == old(info.socket.closeCalls)
    {
      if fd !in infos {
        return None;
      }
      err := infos[fd].Receive(now);
    }

    /** `send(fd, data)`: flush the record's pending output with `data`
        queued; a missing fd is logged and nothing changes. */
    method Send(fd: int, data: Option<string>, now: int) returns (err: Option<Exc>)
      requires Valid()
      modifies Entry(fd)
      ensures Valid() && infos == old(infos)
      ensures fd !in infos ==> err == None
      ensures err.Some? ==> err.value.SocketError?
      ensures fd in infos ==>
        var info := infos[fd];
        var pending := old(info.Pending(data));
        && info.timestamp == now
        && info.sendingData.chunks == []
        && info.receivedData.chunks == old(info.receivedData.chunks)
        && info.socket.inbox == old(info.socket.inbox) && info.socket.closeCalls == old(info.socket.closeCalls)
        && (pending == [] ==>
              err == None && info.socket.sendPlan == old(info.socket.sendPlan) && info.socket.wire == old(info.socket.wire))
        && (pending != [] ==>
              var f := Flush(Concat(pending), 0, old(info.socket.sendPlan));
              && info.socket.sendPlan == f.rest
              && info.socket.wire == old(info.socket.wire) + Concat(pending)[..f.sent]
              && err == f.error)
    {
      if fd !in infos {
        return None;
      }
      err := infos[fd].Send(data, now);
    }

    /** `pop_received_data(fd)`: the received text, with the buffer emptied;
        None (after logging) for a missing fd. */
    method PopReceivedData(fd: int) returns (r: Option<string>)
      requires Valid()
      modifies Entry(fd)
      ensures Valid() && infos == old(infos)
      ensures fd !in infos ==> r == None
      ensures fd in infos ==>
        r == Some(Concat(old(infos[fd].receivedData.chunks))) && infos[fd].receivedData.chunks == []
      ensures fd in infos ==> infos[fd].State() == old(infos[fd].State()).(received := [])
    {
      if fd !in infos {
        return None;
      }
      var data := infos[fd].receivedData.PopStr();
      r := Some(data);
    }

    /** `append_received_data(fd, data)`: one more received chunk; a missing
        fd is logged and nothing changes. */
    method AppendReceivedData(fd: int, data: string)
      requires Valid()
      modifies Entry(fd)
      ensures Valid() && infos == old(infos)
      ensures fd in infos ==>
        infos[fd].State() == old(infos[fd].State()).(received := old(infos[fd].receivedData.chunks) + [data])
    {
      if fd in infos {
        infos[fd].receivedData.Append(data);
      }
    }
  }
}
