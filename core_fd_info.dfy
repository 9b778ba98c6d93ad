/** The connection record of the core snapshot: pending output is one string,
    received input a list of chunks joined when read, and the socket is
    closed and dropped by `clean_fd`. */
module CoreFdInfo {
  import opened PyText
  import opened Io

  /** A record's contents at one moment: its socket (None after
      `clean_fd`) with that socket's state, its stamp and its two buffers. */
  datatype RecordState = RecordState(socket: Socket?, io: Option<SocketState>, timestamp: int, sending: string, received: seq<string>)

  class FdInfo {
    const address: Address
    /** None after `clean_fd`. */
    var socket: Socket?
    var timestamp: int
    var sendingData: string
    /** `__received_data_list`. */
    var receivedChunks: seq<string>

    function State(): RecordState
      reads this, socket
    {
      RecordState(socket, if socket == null then None else Some(socket.State()), timestamp, sendingData, receivedChunks)
    }

    /** `FdInfo(address, new_socket)` at clock reading `now`. */
    constructor(address: Address, socket: Socket, now: int)
      ensures this.address == address && this.socket == socket && timestamp == now
      ensures sendingData == "" && receivedChunks == []
    {
      this.address := address;
      this.socket := socket;
      timestamp := now;
      sendingData := "";
      receivedChunks := [];
    }

    /** The `received_data` property: the received text, joined in order;
        the list is emptied, so a second read yields "". */
    method ReceivedData() returns (data: string)
      modifies this
      ensures data == Concat(old(receivedChunks)) && receivedChunks == []
      ensures socket == old(socket) && timestamp == old(timestamp) && sendingData == old(sendingData)
    {
      data := Concat(receivedChunks);
      receivedChunks := [];
    }

    /** `receive`: stamp the record, then read until an empty read or EAGAIN,
        keeping each non-empty chunk; another error is raised. Without a
        socket (after `clean_fd`) the read is an AttributeError. */
    method Receive(now: int) returns (err: Option<Exc>)
      modifies this, socket
      ensures timestamp == now && socket == old(socket) && sendingData == old(sendingData)
      ensures socket == null ==> err == Some(AttributeError) && receivedChunks == old(receivedChunks)
      ensures socket != null ==>
        && receivedChunks == old(receivedChunks) + Drain(old(socket.inbox)).chunks
        && socket.inbox == Drain(old(socket.inbox)).rest
        && err == Drain(old(socket.inbox)).error
        && socket.sendPlan == old(socket.sendPlan) && socket.wire == old(socket.wire)
        && socket.closeCalls == old(socket.closeCalls)
      ensures err.Some? ==> if socket == null then err.value.AttributeError? else err.value.SocketError?
    {
      timestamp := now;
      if socket == null {
        return Some(AttributeError);
      }
      var sock := socket;
      DrainRaises(sock.inbox);
      ghost var d0 := Drain(sock.inbox);
      ghost var got: seq<string> := [];
      while true
        invariant receivedChunks == old(receivedChunks) + got
        invariant d0 == Drained(got + Drain(sock.inbox).chunks, Drain(sock.inbox).rest, Drain(sock.inbox).error)
        invariant socket == sock && sendingData == old(sendingData) && timestamp == now
        invariant sock.sendPlan == old(sock.sendPlan) && sock.wire == old(sock.wire)
        invariant sock.closeCalls == old(sock.closeCalls)
        decreases |sock.inbox|
      {
        ghost var before := sock.inbox;
        if before != [] {
          DrainStep(before);
        }
        var r := sock.Recv();
        match r
        case Ok(s) =>
          if s == "" {
            return None;
          }
          receivedChunks := receivedChunks + [s];
          assert got + Drain(before).chunks == (got + [s]) + Drain(sock.inbox).chunks;
          got := got + [s];
        case Err(e) =>
          if e == EAGAIN {
            return None;
          }
          return Some(SocketError(e));
      }
    }

    /** `send`: stamp the record, append `data` when it is a string, and
        when anything is pending, send from the start until all of it is
        out, then clear it. A `socket.error` escapes (the handler names the
        `socket.errno` module and never matches), and the whole pending
        text stays, the part already sent included. */
    method Send(data: Option<string>, now: int) returns (err: Option<Exc>)
      modifies this, socket
      ensures timestamp == now && socket == old(socket) && receivedChunks == old(receivedChunks)
      ensures var pending := old(sendingData) + (if data.Some? then data.value else "");
        && (pending == "" ==> err == None && sendingData == "")
        && (pending == "" && socket != null ==> socket.sendPlan == old(socket.sendPlan) && socket.wire == old(socket.wire))
        && (pending != "" && socket == null ==> err == Some(AttributeError) && sendingData == pending)
        && (pending != "" && socket != null ==>
              var f := Flush(pending, 0, old(socket.sendPlan));
              && err == f.error
              && sendingData == (if f.error.None? then "" else pending)
              && socket.sendPlan == f.rest
              && socket.wire == old(socket.wire) + pending[..f.sent])
      ensures socket != null ==> socket.inbox == old(socket.inbox) && socket.closeCalls == old(socket.closeCalls)
      ensures err.Some? ==> if socket == null then err.value.AttributeError? else err.value.SocketError?
    {
      timestamp := now;
      if data.Some? {
        sendingData := sendingData + data.value;
      }
      if |sendingData| == 0 {
        return None;
      }
      if socket == null {
        return Some(AttributeError);
      }
      ghost var pending := sendingData;
      assert pending == old(sendingData) + (if data.Some? then data.value else "");
      assert socket.sendPlan == old(socket.sendPlan);
      FlushRaises(pending, 0, socket.sendPlan);
      err := Transmit(socket, sendingData);
      if err.None? {
        sendingData := "";
      }
    }

    /** The loop of `send`: send the unsent tail of `text` until the count
        sent reaches its length; a failed send is raised. */
    static method Transmit(sock: Socket, text: string) returns (err: Option<Exc>)
      requires text != ""
      modifies sock
      ensures var f := Flush(text, 0, old(sock.sendPlan));
        && sock.sendPlan == f.rest
        && sock.wire == old(sock.wire) + text[..f.sent]
        && err == f.error
      ensures sock.inbox == old(sock.inbox) && sock.closeCalls == old(sock.closeCalls)
    {
      ghost var f0 := Flush(text, 0, sock.sendPlan);
      var sendLen: nat := 0;
      while true
        invariant sendLen < |text|
        invariant Flush(text, sendLen, sock.sendPlan) == f0
        invariant sock.wire == old(sock.wire) + text[..sendLen]
        invariant sock.inbox == old(sock.inbox) && sock.closeCalls == old(sock.closeCalls)
        decreases |sock.sendPlan|
      {
        if sock.sendPlan != [] {
          FlushStep(text, sendLen, sock.sendPlan);
        }
        var r := sock.Send(text[sendLen..]);
        match r
        case Err(e) =>
          return Some(SocketError(e));
        case Ok(n) =>
          assert text[..sendLen + n] == text[..sendLen] + text[sendLen..][..n];
          sendLen := sendLen + n;
          if sendLen == |text| {
            assert text[..sendLen] == text;
            return None;
          }
      }
    }

    /** `clean_fd`: close the socket and drop it; without a socket the close
        is an AttributeError. */
    method CleanFd() returns (err: Option<Exc>)
      modifies this, socket
      ensures socket == null
      ensures old(socket) == null ==> err == Some(AttributeError)
      ensures old(socket) != null ==> err == None && old(socket).closeCalls == old(socket.closeCalls) + 1
      ensures old(socket) != null ==>
        old(socket).inbox == old(socket.inbox) && old(socket).sendPlan == old(socket.sendPlan) && old(socket).wire == old(socket.wire)
      ensures timestamp == old(timestamp) && sendingData == old(sendingData) && receivedChunks == old(receivedChunks)
    {
      if socket == null {
        return Some(AttributeError);
      }
      socket.Close();
      socket := null;
      err := None;
    }

    /** `__del__`: close the socket only while there still is one, so a
        record that went through `clean_fd` is not closed twice. */
    method Finalize()
      modifies socket
      ensures socket != null ==> socket.closeCalls == old(socket.closeCalls) + 1
    {
      if socket != null {
        socket.Close();
      }
    }
  }
}
