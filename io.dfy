/** The environment the servers run in, as a script: a socket is the sequence
    of outcomes its `recv` calls will have and the sequence of capacities its
    `send` calls will meet; epoll is the map from registered fd to its interest
    mask; a listening socket is the sequence of outcomes of `accept`. A
    script that runs out answers as a non-blocking socket with nothing more to
    do: EAGAIN. */
module Io {
  import opened PyText

  /** `errno.EAGAIN` on Linux. */
  const EAGAIN: int := 11

  /** The readiness bits of `select` (POLLIN/EPOLLIN and so on). */
  const IN: bv32 := 1
  const OUT: bv32 := 4
  const ERR: bv32 := 8
  const HUP: bv32 := 16

  /** Exceptions that reach the model's callers. */
  datatype Exc =
    | SocketError(errno: int)
    | IOError
    | AttributeError
    | KeyError
    | ValueError
    | IndexError
    | TypeError

  /** The outcome of one system call: a value, or `socket.error` with its errno. */
  datatype IoResult<+T> = Ok(value: T) | Err(errno: int)

  /** The peer's `(host, port)` pair. */
  datatype Address = Address(host: string, port: int)

  /** What one connection will do: its fd number and its scripts. */
  datatype Peer = Peer(address: Address, fileno: int, inbox: seq<IoResult<string>>, sendPlan: seq<IoResult<nat>>)

  /** The work item the reactor hands to the worker for one fd. */
  datatype Task = ReceiveTask(fd: int) | SendTask(fd: int)

  /** A socket's scripts, wire and close count at one moment. */
  datatype SocketState = SocketState(
    inbox: seq<IoResult<string>>, sendPlan: seq<IoResult<nat>>, wire: string, closeCalls: nat)

  class Socket {
    const fileno: int
    /** Outcomes of the coming `recv` calls; `Ok("")` is the peer closing. */
    var inbox: seq<IoResult<string>>
    /** Outcomes of the coming `send` calls; `Ok(cap)` accepts up to `cap` bytes. */
    var sendPlan: seq<IoResult<nat>>
    /** Everything the peer has been sent, in order. */
    var wire: string
    var closeCalls: nat

    constructor(p: Peer)
      ensures fileno == p.fileno && inbox == p.inbox && sendPlan == p.sendPlan
      ensures wire == "" && closeCalls == 0
    {
      fileno := p.fileno;
      inbox := p.inbox;
      sendPlan := p.sendPlan;
      wire := "";
      closeCalls := 0;
    }

    function State(): SocketState
      reads this
    {
      SocketState(inbox, sendPlan, wire, closeCalls)
    }

    /** `sock.recv(n)`: the next scripted outcome, EAGAIN once the script is over. */
    method Recv() returns (r: IoResult<string>)
      modifies this
      ensures old(inbox) == [] ==> r == Err(EAGAIN) && inbox == []
      ensures old(inbox) != [] ==> r == old(inbox)[0] && inbox == old(inbox)[1..]
      ensures sendPlan == old(sendPlan) && wire == old(wire) && closeCalls == old(closeCalls)
    {
      if inbox == [] {
        r := Err(EAGAIN);
      } else {
        r := inbox[0];
        inbox := inbox[1..];
      }
    }

    /** `sock.send(data)`: writes as much of `data` as the next capacity allows
        and says how much that was. */
    method Send(data: string) returns (r: IoResult<nat>)
      modifies this
      ensures old(sendPlan) == [] ==> r == Err(EAGAIN) && sendPlan == [] && wire == old(wire)
      ensures old(sendPlan) != [] ==> sendPlan == old(sendPlan)[1..]
      ensures old(sendPlan) != [] && old(sendPlan)[0].Err? ==> r == old(sendPlan)[0] && wire == old(wire)
      ensures old(sendPlan) != [] && old(sendPlan)[0].Ok? ==>
        r == Ok(Min(old(sendPlan)[0].value, |data|)) && wire == old(wire) + data[..r.value]
      ensures inbox == old(inbox) && closeCalls == old(closeCalls)
    {
      if sendPlan == [] {
        r := Err(EAGAIN);
      } else {
        var next := sendPlan[0];
        sendPlan := sendPlan[1..];
        match next
        case Err(e) =>
          r := Err(e);
        case Ok(cap) =>
          var n := Min(cap, |data|);
          wire := wire + data[..n];
          r := Ok(n);
      }
    }

    method Close()
      modifies this
      ensures closeCalls == old(closeCalls) + 1
      ensures inbox == old(inbox) && sendPlan == old(sendPlan) && wire == old(wire)
    {
      closeCalls := closeCalls + 1;
    }
  }

  function Min(a: nat, b: nat): (m: nat)
    ensures m <= a && m <= b && (m == a || m == b)
  {
    if a <= b then a else b
  }

  /** An epoll instance: the registered fds and the interest mask of each.
      The failures are those of Linux's `epoll_ctl` (EEXIST, ENOENT), which
      Python 2 raises as IOError. */
  class Epoll {
    var interest: map<int, bv32>

    constructor()
      ensures interest == map[]
    {
      interest := map[];
    }

    method Register(fd: int, mask: bv32) returns (err: Option<Exc>)
      modifies this
      ensures fd in old(interest) ==> err == Some(IOError) && interest == old(interest)
      ensures fd !in old(interest) ==> err == None && interest == old(interest)[fd := mask]
    {
      if fd in interest {
        err := Some(IOError);
      } else {
        interest := interest[fd := mask];
        err := None;
      }
    }

    method Modify(fd: int, mask: bv32) returns (err: Option<Exc>)
      modifies this
      ensures fd !in old(interest) ==> err == Some(IOError) && interest == old(interest)
      ensures fd in old(interest) ==> err == None && interest == old(interest)[fd := mask]
    {
      if fd in interest {
        interest := interest[fd := mask];
        err := None;
      } else {
        err := Some(IOError);
      }
    }

    method Unregister(fd: int) returns (err: Option<Exc>)
      modifies this
      ensures err.None? <==> fd in old(interest)
      ensures interest == old(interest) - {fd}
    {
      if fd in interest {
        interest := interest - {fd};
        err := None;
      } else {
        err := Some(IOError);
      }
    }
  }

  /** The listening socket: the outcomes of its coming `accept` calls. */
  class Listener {
    const fileno: int
    var backlog: seq<IoResult<Peer>>

    constructor(fileno: int, backlog: seq<IoResult<Peer>>)
      ensures this.fileno == fileno && this.backlog == backlog
    {
      this.fileno := fileno;
      this.backlog := backlog;
    }

    /** `listen_fd.accept()`: a new socket and the peer's address, or the
        scripted `socket.error` (EAGAIN once the backlog is empty). */
    method Accept() returns (sock: Socket?, address: Address, errno: int)
      modifies this
      ensures old(backlog) == [] ==> sock == null && errno == EAGAIN && backlog == []
      ensures old(backlog) != [] ==> backlog == old(backlog)[1..]
      ensures old(backlog) != [] && old(backlog)[0].Err? ==> sock == null && errno == old(backlog)[0].errno
      ensures old(backlog) != [] && old(backlog)[0].Ok? ==>
        && sock != null && fresh(sock)
        && address == old(backlog)[0].value.address
        && sock.fileno == old(backlog)[0].value.fileno
        && sock.inbox == old(backlog)[0].value.inbox
        && sock.sendPlan == old(backlog)[0].value.sendPlan
        && sock.wire == "" && sock.closeCalls == 0
    {
      address := Address("", 0);
      errno := 0;
      if backlog == [] {
        sock := null;
        errno := EAGAIN;
      } else {
        var next := backlog[0];
        backlog := backlog[1..];
        match next
        case Err(e) =>
          sock := null;
          errno := e;
        case Ok(p) =>
          sock := new Socket(p);
          address := p.address;
      }
    }
  }

  /** What an accept loop leaves: the fds it filed, the backlog left over,
      and whether a registration failed (an IOError that ends the loop). */
  datatype Admission = Admission(fds: set<int>, rest: seq<IoResult<Peer>>, crashed: bool)

  /** The accept loop both reactors run: accept until a `socket.error`
      (EAGAIN once the backlog is empty), registering each new fd, which fails
      for an fd epoll already watches (`taken`). */
  function Admit(backlog: seq<IoResult<Peer>>, taken: set<int>): Admission
    decreases |backlog|
  {
    if backlog == [] then Admission({}, [], false)
    else match backlog[0]
      case Err(_) => Admission({}, backlog[1..], false)
      case Ok(p) =>
        if p.fileno in taken then Admission({}, backlog[1..], true)
        else
          var a := Admit(backlog[1..], taken + {p.fileno});
          Admission(a.fds + {p.fileno}, a.rest, a.crashed)
  }

  /** The accept loop never files an fd epoll already watched. */
  lemma {:induction false} AdmitFresh(backlog: seq<IoResult<Peer>>, taken: set<int>)
    ensures Admit(backlog, taken).fds !! taken
    decreases |backlog|
  {
    if backlog != [] && backlog[0].Ok? && backlog[0].value.fileno !in taken {
      AdmitFresh(backlog[1..], taken + {backlog[0].value.fileno});
    }
  }

  /** The accept loop files only fds epoll did not watch, each the fd of an
      accepted connection, and stops at the first refused accept or failed
      registration, leaving the rest of the backlog for the next event. */
  lemma {:induction false} AdmitShape(backlog: seq<IoResult<Peer>>, taken: set<int>)
    ensures var a := Admit(backlog, taken);
      && a.fds !! taken
      && (forall fd :: fd in a.fds ==> exists i :: 0 <= i < |backlog| && backlog[i].Ok? && backlog[i].value.fileno == fd)
      && |a.rest| <= |backlog| && a.rest == backlog[|backlog| - |a.rest|..]
    decreases |backlog|
  {
    if backlog != [] && backlog[0].Ok? && backlog[0].value.fileno !in taken {
      var p := backlog[0].value;
      AdmitShape(backlog[1..], taken + {p.fileno});
      var a := Admit(backlog[1..], taken + {p.fileno});
      forall fd | fd in a.fds + {p.fileno}
        ensures exists i :: 0 <= i < |backlog| && backlog[i].Ok? && backlog[i].value.fileno == fd
      {
        if fd == p.fileno {
          assert backlog[0].Ok? && backlog[0].value.fileno == fd;
        } else {
          var i :| 0 <= i < |backlog[1..]| && backlog[1..][i].Ok? && backlog[1..][i].value.fileno == fd;
          assert backlog[i + 1] == backlog[1..][i];
        }
      }
      assert backlog[1..][|backlog| - 1 - |a.rest|..] == backlog[|backlog| - |a.rest|..];
    }
  }

  /** Connections with distinct new fds are all filed, and the loop ends on
      the EAGAIN of an empty backlog without a failure. */
  lemma {:induction false} AdmitDistinct(peers: seq<Peer>, taken: set<int>)
    requires forall i, j :: 0 <= i < j < |peers| ==> peers[i].fileno != peers[j].fileno
    requires forall i :: 0 <= i < |peers| ==> peers[i].fileno !in taken
    ensures Admit(Oks(peers), taken) == Admission(set i | 0 <= i < |peers| :: peers[i].fileno, [], false)
    decreases |peers|
  {
    if peers != [] {
      var p := peers[0];
      assert Oks(peers)[1..] == Oks(peers[1..]);
      AdmitDistinct(peers[1..], taken + {p.fileno});
      var rest := set i | 0 <= i < |peers[1..]| :: peers[1..][i].fileno;
      var all := set i | 0 <= i < |peers| :: peers[i].fileno;
      assert all == rest + {p.fileno} by {
        forall fd | fd in all ensures fd in rest + {p.fileno} {
          var i :| 0 <= i < |peers| && peers[i].fileno == fd;
          if i > 0 {
            assert peers[1..][i - 1].fileno == fd;
          }
        }
        forall fd | fd in rest ensures fd in all {
          var i :| 0 <= i < |peers[1..]| && peers[1..][i].fileno == fd;
          assert peers[i + 1].fileno == fd;
        }
        assert peers[0].fileno in all;
      }
    }
  }

  /** A script in which every call succeeds, returning the given values in
      order: a backlog of accepted connections, or a run of reads. */
  function Oks<T>(xs: seq<T>): (r: seq<IoResult<T>>)
    ensures |r| == |xs| && forall i :: 0 <= i < |r| ==> r[i] == Ok(xs[i])
  {
    if xs == [] then [] else [Ok(xs[0])] + Oks(xs[1..])
  }

  /** What draining a socket yields: the non-empty chunks read, the script
      left over, and the exception raised, if any. */
  datatype Drained = Drained(chunks: seq<string>, rest: seq<IoResult<string>>, error: Option<Exc>)

  /** The receive loop both connection records run: read until an empty read
      or EAGAIN (a normal return) or another error (raised). The chunks are
      exactly the leading data of the script, and the first entry after them
      says why the loop stopped. */
  function Drain(inbox: seq<IoResult<string>>): Drained
  {
    if inbox == [] then Drained([], [], None)
    else match inbox[0]
      case Ok(s) =>
        if s == "" then Drained([], inbox[1..], None)
        else
          var d := Drain(inbox[1..]);
          Drained([s] + d.chunks, d.rest, d.error)
      case Err(e) =>
        Drained([], inbox[1..], if e == EAGAIN then None else Some(SocketError(e)))
  }

  /** One step of the receive loop: a non-empty chunk is kept and the loop
      goes on; anything else ends it. */
  lemma DrainStep(inbox: seq<IoResult<string>>)
    requires inbox != []
    ensures inbox[0].Ok? && inbox[0].value != "" ==>
      Drain(inbox) == Drained([inbox[0].value] + Drain(inbox[1..]).chunks, Drain(inbox[1..]).rest, Drain(inbox[1..]).error)
    ensures inbox[0] == Ok("") ==> Drain(inbox) == Drained([], inbox[1..], None)
    ensures inbox[0].Err? ==> Drain(inbox) == Drained([], inbox[1..],
      if inbox[0].errno == EAGAIN then None else Some(SocketError(inbox[0].errno)))
  {
  }

  /** The chunks are exactly the leading data of the script, all non-empty,
      and the first entry after them says why the loop stopped: an empty
      read or an error, raised unless it is EAGAIN; a script that is all
      data ends on the EAGAIN of an exhausted socket. */
  lemma {:induction false} DrainShape(inbox: seq<IoResult<string>>)
    ensures var d := Drain(inbox);
      && |d.chunks| <= |inbox|
      && (forall i :: 0 <= i < |d.chunks| ==> d.chunks[i] != "" && inbox[i] == Ok(d.chunks[i]))
      && (|d.chunks| == |inbox| ==> d.rest == [] && d.error == None)
      && (|d.chunks| < |inbox| ==>
            && d.rest == inbox[|d.chunks| + 1..]
            && (inbox[|d.chunks|] == Ok("") || inbox[|d.chunks|].Err?)
            && d.error == (if inbox[|d.chunks|].Err? && inbox[|d.chunks|].errno != EAGAIN
                           then Some(SocketError(inbox[|d.chunks|].errno)) else None))
    decreases |inbox|
  {
    if inbox != [] && inbox[0].Ok? && inbox[0].value != "" {
      DrainShape(inbox[1..]);
      var d := Drain(inbox);
      var t := Drain(inbox[1..]);
      assert d.chunks == [inbox[0].value] + t.chunks;
      assert forall i :: 1 <= i < |d.chunks| ==> d.chunks[i] == t.chunks[i - 1] && inbox[i] == inbox[1..][i - 1];
      if |t.chunks| < |inbox| - 1 {
        assert inbox[1..][|t.chunks|] == inbox[|d.chunks|];
        assert inbox[1..][|t.chunks| + 1..] == inbox[|d.chunks| + 1..];
      }
    }
  }

  /** The only exception the receive loop raises is a `socket.error`. */
  lemma {:induction false} DrainRaises(inbox: seq<IoResult<string>>)
    ensures Drain(inbox).error.Some? ==> Drain(inbox).error.value.SocketError?
    decreases |inbox|
  {
    if inbox != [] && inbox[0].Ok? && inbox[0].value != "" {
      DrainRaises(inbox[1..]);
    }
  }

  /** What the send loop leaves: how far into the data it got, the script
      left over, and the exception raised, if any. */
  datatype Flushed = Flushed(sent: nat, rest: seq<IoResult<nat>>, error: Option<Exc>)

  /** The send loop both connection records run on the pending text from
      offset `sent`: send the rest until all of it is out; any `socket.error`
      ends the loop and is raised (EAGAIN included, see the README). */
  function Flush(data: string, sent: nat, plan: seq<IoResult<nat>>): (f: Flushed)
    requires sent <= |data|
    ensures sent <= f.sent <= |data|
    decreases |plan|
  {
    if sent == |data| then Flushed(sent, plan, None)
    else if plan == [] then Flushed(sent, [], Some(SocketError(EAGAIN)))
    else match plan[0]
      case Ok(cap) => Flush(data, sent + Min(cap, |data| - sent), plan[1..])
      case Err(e) => Flushed(sent, plan[1..], Some(SocketError(e)))
  }

  /** The loop stops only when everything is out or a send raised; the
      script left over is a suffix of the script it was given. */
  lemma {:induction false} FlushShape(data: string, sent: nat, plan: seq<IoResult<nat>>)
    requires sent <= |data|
    ensures var f := Flush(data, sent, plan);
      && |f.rest| <= |plan| && f.rest == plan[|plan| - |f.rest|..]
      && (f.error.None? <==> f.sent == |data|)
      && (f.error.Some? ==> f.error.value.SocketError?)
    decreases |plan|
  {
    if sent < |data| && plan != [] && plan[0].Ok? {
      FlushShape(data, sent + Min(plan[0].value, |data| - sent), plan[1..]);
      var r := Flush(data, sent, plan).rest;
      assert plan[1..][|plan| - 1 - |r|..] == plan[|plan| - |r|..];
    }
  }

  /** The only exception the send loop raises is a `socket.error`. */
  lemma {:induction false} FlushRaises(data: string, sent: nat, plan: seq<IoResult<nat>>)
    requires sent <= |data|
    ensures Flush(data, sent, plan).error.Some? ==> Flush(data, sent, plan).error.value.SocketError?
    decreases |plan|
  {
    if sent < |data| && plan != [] && plan[0].Ok? {
      FlushRaises(data, sent + Min(plan[0].value, |data| - sent), plan[1..]);
    }
  }

  /** One step of the send loop that the script lets through. */
  lemma FlushStep(data: string, sent: nat, plan: seq<IoResult<nat>>)
    requires sent < |data| && plan != []
    ensures plan[0].Ok? ==>
      Flush(data, sent, plan) == Flush(data, sent + Min(plan[0].value, |data| - sent), plan[1..])
    ensures plan[0].Err? ==> Flush(data, sent, plan) == Flushed(sent, plan[1..], Some(SocketError(plan[0].errno)))
  {
  }

  /** Enough capacity in the script writes everything: when each scripted send
      accepts something and together they cover the data, the loop finishes. */
  lemma {:induction false} FlushCompletes(data: string, sent: nat, plan: seq<IoResult<nat>>)
    requires sent <= |data|
    requires forall i :: 0 <= i < |plan| ==> plan[i].Ok? && plan[i].value > 0
    requires |plan| >= |data| - sent
    ensures Flush(data, sent, plan).error == None
    ensures Flush(data, sent, plan).sent == |data|
    decreases |plan|
  {
    if sent < |data| {
      var cap := plan[0].value;
      assert plan[0] == Ok(cap);
      FlushCompletes(data, sent + Min(cap, |data| - sent), plan[1..]);
    }
  }

  /** A connection whose script offers only data drains all of it and leaves
      nothing pending in the script. */
  lemma {:induction false} DrainAll(chunks: seq<string>)
    requires forall i :: 0 <= i < |chunks| ==> chunks[i] != ""
    ensures Drain(Oks(chunks)) == Drained(chunks, [], None)
    decreases |chunks|
  {
    if |chunks| > 0 {
      DrainAll(chunks[1..]);
      assert Oks(chunks)[1..] == Oks(chunks[1..]);
    }
  }
}
