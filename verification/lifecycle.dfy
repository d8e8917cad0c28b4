/**
 The handle lifecycle of src/Socket.cc: `LockedSetNonBlocking`,
 `InetSocket::LockedOpen`, `InetSocket::LockedBind`,
 `TCPSocket::LockedConnect` and `TCPAcceptSocket::LockedAccept`.

 Every system call is an oracle `Call`: the value it returned and the errno
 read right after it. For socket(2) and accept(2) the returned value is the
 new handle. The address and port the source converts with inet_addr/htons
 before connect(2) are not modelled: they only reach the operating system.
 */
module Lifecycle {
  import opened Basics
  import opened Exceptions
  import opened SocketState
  import opened DeadlineWait

  datatype Call = Call(rc: int, errno: int)

  /** errno of a connect(2) still under way on a non-blocking socket (Linux). */
  const EInProgress: int := 115

  /** The two fcntl(2) calls of LockedSetNonBlocking: F_GETFL, then F_SETFL. */
  datatype FcntlEnv = FcntlEnv(getFlags: Call, setFlags: Call)

  /** `Socket::LockedSetNonBlocking` (POSIX branch): F_GETFL, then F_SETFL
      with O_NONBLOCK added; -1 from either is a system error. */
  function LockedSetNonBlocking(f: FcntlEnv): (r: Outcome<()>)
    ensures r.Done? <==> f.getFlags.rc != -1 && f.setFlags.rc != -1
    ensures f.getFlags.rc == -1 ==> r == Raised(Fault(Sys, FcntlGetFailed(f.getFlags.errno)))
    ensures f.getFlags.rc != -1 && f.setFlags.rc == -1 ==> r == Raised(Fault(Sys, FcntlSetFailed(f.setFlags.errno)))
    ensures !r.Pending?
  {
    if f.getFlags.rc != -1 then
      if f.setFlags.rc == -1 then Raised(Fault(Sys, FcntlSetFailed(f.setFlags.errno))) else Done(())
    else Raised(Fault(Sys, FcntlGetFailed(f.getFlags.errno)))
  }

  /** `InetSocket::LockedOpen`: a socket without a handle gets the one
      socket(2) returns; a socket with one is left alone. */
  function LockedOpen(s: Socket, socketCall: Call): (r: Step)
    ensures s.fd != InvalidSocket ==> r == Step(s, Done(()))
    ensures s.fd == InvalidSocket ==> r.sock == s.(fd := socketCall.rc)
    ensures s.fd == InvalidSocket && socketCall.rc == InvalidSocket ==>
              r.out == Raised(Fault(Sys, SocketCallFailed(socketCall.errno)))
    ensures r.out.Done? <==> r.sock.fd != InvalidSocket
  {
    if s.fd == InvalidSocket then
      var s1 := s.(fd := socketCall.rc);
      if s1.fd == InvalidSocket then Step(s1, Raised(Fault(Sys, SocketCallFailed(socketCall.errno))))
      else Step(s1, Done(()))
    else Step(s, Done(()))
  }

  /** Opening an open socket changes nothing, so a second open is free. */
  lemma {:induction false} LockedOpenIdempotent(s: Socket, c1: Call, c2: Call)
    requires LockedOpen(s, c1).out.Done?
    ensures LockedOpen(LockedOpen(s, c1).sock, c2) == LockedOpen(s, c1)
  {
  }

  // ---------------------------------------------------------------- bind

  /** The replies LockedBind may consume, in call order: socket(2) (only if
      the socket has no handle), setsockopt(SO_REUSEADDR), bind(2),
      getsockname(2) with the port it reports, and listen(2). */
  datatype BindEnv = BindEnv(socketCall: Call, reuse: Call, bind: Call, name: Call, namePort: uint16, listen: Call)

  /** What LockedBind leaves behind: the socket, the outcome, and the handles
      it passed to closesocket. */
  datatype Bound = Bound(sock: Socket, out: Outcome<()>, closed: seq<int>)

  /** `InetSocket::LockedBind`, as written: after a failed bind(2) or
      getsockname(2) it closes the handle but keeps it in m_nSocket. */
  function LockedBindAsWritten(s: Socket, ip: string, port: uint16, env: BindEnv): (r: Bound)
    // a socket already bound to an address is only opened
    ensures s.fd != InvalidSocket && s.boundAddr != "" ==> r == Bound(s, Done(()), [])
    // success records the address asked for and the port the system reports
    ensures r.out.Done? && s.boundAddr == "" ==>
              r.sock == s.(fd := r.sock.fd, boundAddr := ip, boundPort := env.namePort) && r.sock.fd != InvalidSocket
    ensures r.out.Done? && s.boundAddr == "" ==>
              env.reuse.rc == 0 && env.bind.rc == 0 && env.name.rc == 0 && (s.sockType == Stream ==> env.listen.rc == 0)
    ensures r.out.Raised? && r.out.fault.kind == Bind <==>
              r.sock.fd != InvalidSocket && s.boundAddr == "" && env.reuse.rc == 0 && env.bind.rc != 0
    ensures |r.closed| <= 1 && !r.out.Pending?
    // the handle it closes stays in the socket
    ensures |r.closed| == 1 ==> r.closed[0] == r.sock.fd && r.out.Raised?
  {
    var op := LockedOpen(s, env.socketCall);
    var s1 := op.sock;
    if !op.out.Done? then Bound(s1, op.out, [])
    else if s1.boundAddr != "" then Bound(s1, Done(()), [])
    else if env.reuse.rc != 0 then Bound(s1, Raised(Fault(Sys, ReuseAddrFailed(env.reuse.errno))), [])
    else if env.bind.rc != 0 then Bound(s1, Raised(Fault(Bind, BindCallFailed(env.bind.errno))), [s1.fd])
    else if env.name.rc != 0 then Bound(s1, Raised(Fault(Sys, GetSockNameFailed(env.name.errno))), [s1.fd])
    else if s1.sockType == Stream && env.listen.rc != 0 then Bound(s1, Raised(Fault(Sys, ListenFailed(env.listen.errno))), [])
    else Bound(s1.(boundAddr := ip, boundPort := env.namePort), Done(()), [])
  }

  /** The stale handle in action: a failed bind(2) on a fresh stream socket
      closes handle 3 and keeps it, and the next Close() closes 3 again. */
  lemma StaleHandleAfterFailedBind()
    ensures var r := LockedBindAsWritten(NewSocket(Stream, 0, 0), "127.0.0.1", 80,
                                         BindEnv(Call(3, 0), Call(0, 0), Call(-1, 98), Call(0, 0), 80, Call(0, 0)));
            && r.out == Raised(Fault(Bind, BindCallFailed(98)))
            && r.closed == [3]
            && LockedClose(r.sock).closedFd == Some(3)
  {
  }

  /** LockedBind with the handle forgotten once it is closed: identical to the
      source except that m_nSocket becomes INVALID_SOCKET after the close. */
  function LockedBind(s: Socket, ip: string, port: uint16, env: BindEnv): (r: Bound)
    ensures forall j :: 0 <= j < |r.closed| ==> r.closed[j] != r.sock.fd
    ensures s.fd != InvalidSocket && s.boundAddr != "" ==> r == Bound(s, Done(()), [])
  {
    var w := LockedBindAsWritten(s, ip, port, env);
    if |w.closed| == 1 then Bound(w.sock.(fd := InvalidSocket), w.out, w.closed) else w
  }

  /** The correction changes nothing but the handle after a close: outcome,
      closed handles and every other field agree with the source. */
  lemma {:induction false} LockedBindCorrection(s: Socket, ip: string, port: uint16, env: BindEnv)
    ensures LockedBind(s, ip, port, env).out == LockedBindAsWritten(s, ip, port, env).out
    ensures LockedBind(s, ip, port, env).closed == LockedBindAsWritten(s, ip, port, env).closed
    ensures LockedBind(s, ip, port, env).sock.(fd := s.fd) == LockedBindAsWritten(s, ip, port, env).sock.(fd := s.fd)
    ensures LockedBindAsWritten(s, ip, port, env).closed == [] ==>
              LockedBind(s, ip, port, env) == LockedBindAsWritten(s, ip, port, env)
  {
  }

  /** With the correction no handle is closed twice: a failed bind followed
      by Close() issues one closesocket, not two. */
  lemma {:induction false} NoDoubleCloseAfterBind(s: Socket, ip: string, port: uint16, env: BindEnv)
    ensures var r := LockedBind(s, ip, port, env);
            var c := LockedClose(r.sock);
            c.closedFd.Some? ==> c.closedFd.value !in r.closed
  {
  }

  // ---------------------------------------------------------------- connect

  /** The replies LockedConnect may consume: socket(2), the two fcntl(2)
      calls, connect(2), and the polls of the write wait. */
  datatype ConnectEnv = ConnectEnv(socketCall: Call, fcntl: FcntlEnv, connect: Call, wait: WaitEnv)

  /** How far LockedConnect gets before it waits: either it has already
      finished (with an error), or the socket is ready for the write wait. */
  datatype ConnectStart = Finished(r: Step) | AwaitWrite(sock: Socket)

  /** The steps of `TCPSocket::LockedConnect` before the write wait. Every
      failure is rethrown as a Connect error; a non-blocking-mode failure
      keeps its detail. connected is not touched. */
  function StartConnect(s: Socket, env: ConnectEnv): (c: ConnectStart)
    ensures s.fd != InvalidSocket ==> c == Finished(Step(s, Raised(Fault(Connect, HandleInUse))))
    ensures c.Finished? ==> c.r.out.Raised? && c.r.out.fault.kind == Connect
    ensures c.Finished? ==> c.r.sock.connected == s.connected
    ensures c.Finished? && s.fd == InvalidSocket ==> c.r.sock == s.(fd := env.socketCall.rc)
    ensures c.AwaitWrite? <==>
              s.fd == InvalidSocket && env.socketCall.rc != InvalidSocket &&
              LockedSetNonBlocking(env.fcntl).Done? &&
              (env.connect.rc != -1 || env.connect.errno == EInProgress)
    ensures c.AwaitWrite? ==> c.sock == s.(fd := env.socketCall.rc)
  {
    if s.fd != InvalidSocket then Finished(Step(s, Raised(Fault(Connect, HandleInUse))))
    else
      var s1 := s.(fd := env.socketCall.rc);
      if s1.fd == InvalidSocket then Finished(Step(s1, Raised(Fault(Connect, SocketCallFailed(env.socketCall.errno)))))
      else
        var nb := LockedSetNonBlocking(env.fcntl);
        if nb.Raised? then Finished(Step(s1, Raised(Fault(Connect, Wrapped(nb.fault.reason)))))
        else if env.connect.rc == -1 && env.connect.errno != EInProgress then
          Finished(Step(s1, Raised(Fault(Connect, ConnectCallFailed(env.connect.errno)))))
        else AwaitWrite(s1)
  }

  /** Turns a failed wait into LockedConnect's rethrown Connect error. */
  function Rethrown(w: Outcome<()>): (r: Outcome<()>)
    ensures w.Done? ==> r == Done(())
    ensures w.Pending? ==> r == Pending
    ensures w.Raised? ==> r == Raised(Fault(Connect, Wrapped(w.fault.reason)))
  {
    match w
    case Done(_) => Done(())
    case Raised(f) => Raised(Fault(Connect, Wrapped(f.reason)))
    case Pending => Pending
  }

  /** `TCPSocket::LockedConnect`. The write wait calls Select directly, not
      LockedWait, so a send timeout of 0 (or less) connects without polling. */
  method LockedConnect(s: Socket, env: ConnectEnv) returns (r: Step, budgets: seq<int>)
    ensures s.fd != InvalidSocket ==> r == Step(s, Raised(Fault(Connect, HandleInUse))) && budgets == []
    // every error is a Connect error
    ensures r.out.Raised? ==> r.out.fault.kind == Connect
    // connected is set exactly when the write wait succeeded, and never cleared
    ensures r.sock.connected == (s.connected || r.out.Done?)
    ensures r.out.Done? <==>
              StartConnect(s, env).AwaitWrite? &&
              SelectsAs(false, s.sendTimeout, env.wait, Done(()), budgets)
    ensures r.out.Done? ==> IsConnected(r.sock) && r.sock == s.(fd := env.socketCall.rc, connected := true)
    ensures StartConnect(s, env).AwaitWrite? && s.sendTimeout < 1 ==> r.out.Done? && budgets == []
    ensures r.sock.(connected := s.connected) == s || r.sock.(connected := s.connected) == s.(fd := env.socketCall.rc)
  {
    budgets := [];
    var c := StartConnect(s, env);
    match c
    case Finished(step) =>
      r := step;
    case AwaitWrite(s1) =>
      var w;
      w, budgets := Select(false, true, s1.sendTimeout, env.wait);
      if w.Done? {
        r := Step(s1.(connected := true), Done(()));
      } else {
        r := Step(s1, Rethrown(w));
      }
  }

  /** A TCP socket is coherent when its connected flag implies an open handle. */
  predicate Coherent(s: Socket)
  {
    s.connected ==> s.fd != InvalidSocket
  }

  /** The connected flag outlives Close(): a socket connected on handle 5 is
      closed with the base LockedClose, the reconnect gets handle 6 from
      socket(2) and connect(2) is refused, yet IsConnected() reports true. */
  lemma StaleConnectedAfterClose()
    ensures var s := LockedClose(Socket(5, Stream, 0, 0, true, "", 0)).sock;
            var env := ConnectEnv(Call(6, 0), FcntlEnv(Call(2, 0), Call(0, 0)), Call(-1, 111), WaitEnv(0, []));
            && !Coherent(s)
            && StartConnect(s, env) == Finished(Step(s.(fd := 6), Raised(Fault(Connect, ConnectCallFailed(111)))))
            && IsConnected(StartConnect(s, env).r.sock)
  {
  }

  /** Close() for a TCP socket with the flag cleared as well, as
      LockedDisconnect does. */
  function TcpClose(s: Socket): (r: Closed)
    ensures r.sock.fd == InvalidSocket && !r.sock.connected
    ensures r.closedFd == LockedClose(s).closedFd
    ensures Coherent(r.sock)
  {
    LockedDisconnect(s)
  }

  /** Every socket constructor and every handle operation keeps a TCP socket
      coherent once Close() clears the flag; the base close does not. */
  lemma {:induction false} CoherenceKept(s: Socket, t: int, fd: int, env: ConnectEnv)
    ensures Coherent(NewTcpSocket(t, t)) && Coherent(WrapTcpSocket(fd, t, t))
    ensures Coherent(s) ==> Coherent(TcpClose(s).sock) && Coherent(LockedDisconnect(s).sock)
    ensures Coherent(s) ==> Coherent(SetSendTimeout(s, t).sock) && Coherent(SetRecvTimeout(s, t).sock)
    ensures Coherent(s) && StartConnect(s, env).Finished? ==> Coherent(StartConnect(s, env).r.sock)
    ensures Coherent(s) && StartConnect(s, env).AwaitWrite? ==> Coherent(StartConnect(s, env).sock)
    ensures Coherent(s) ==> Coherent(SetFD(s, fd).sock) || fd == InvalidSocket
  {
  }

  /** With the corrected close, a connect that starts on a closed socket
      reports connected exactly when it succeeded. */
  lemma {:induction false} ConnectAfterTcpClose(s: Socket, env: ConnectEnv)
    ensures var c := StartConnect(TcpClose(s).sock, env);
            c.Finished? ==> !IsConnected(c.r.sock)
    ensures var c := StartConnect(TcpClose(s).sock, env);
            c.AwaitWrite? ==> !c.sock.connected
  {
  }

  // ---------------------------------------------------------------- accept

  /** C's `/` and `%` truncate toward zero. */
  function TruncDiv(a: int, b: int): (q: int)
    requires b > 0
    ensures a >= 0 ==> q == a / b
    ensures a < 0 ==> q == -((-a) / b)
  {
    if a >= 0 then a / b else -((-a) / b)
  }

  function TruncMod(a: int, b: int): (m: int)
    requires b > 0
    ensures a == TruncDiv(a, b) * b + m
    ensures a >= 0 ==> 0 <= m < b
    ensures a < 0 ==> -b < m <= 0
  {
    a - TruncDiv(a, b) * b
  }

  /** `(int32_t) n`: two's-complement reduction to 32 bits. */
  function ToInt32(n: int): (r: int)
    ensures -0x8000_0000 <= r < 0x8000_0000
    ensures -0x8000_0000 <= n < 0x8000_0000 ==> r == n
    ensures (r - n) % 0x1_0000_0000 == 0
  {
    var m := n % 0x1_0000_0000;
    if m < 0x8000_0000 then m else m - 0x1_0000_0000
  }

  /** The select(2) timeout LockedAccept builds from its microsecond argument. */
  function AcceptTimeval(t: int): (tv: Timeval)
    ensures -1000000 < tv.usec < 1000000
    ensures -0x8000_0000 * 1000000 < t < 0x8000_0000 * 1000000 ==> tv.sec * 1000000 + tv.usec == t
    ensures t >= 0 ==> Normalized(tv) && (t < 0x8000_0000 * 1000000 ==> TimeuS64(tv) == t)
  {
    Timeval(ToInt32(TruncDiv(t, 1000000)), ToInt32(TruncMod(t, 1000000)))
  }

  /** The replies of LockedAccept: select(2), whether the listening handle
      came back readable, and accept(2). */
  datatype AcceptEnv = AcceptEnv(select: Call, readable: bool, accept: Call)

  /** What LockedAccept does: the timeout it hands to select(2), and its
      outcome. */
  datatype AcceptRun = AcceptRun(selectTimeout: Timeval, out: Outcome<Socket>)

  /** `TCPAcceptSocket::LockedAccept(i64AcceptTimeout)`: select(2) gets the
      timeout split by AcceptTimeval; the call classifies the select(2) and
      accept(2) results; the new socket wraps the accepted handle with the
      listening socket's timeouts and starts not connected. */
  function LockedAccept(s: Socket, timeout: int, env: AcceptEnv): (r: AcceptRun)
    ensures timeout >= 0 && timeout < 0x8000_0000 * 1000000 ==> TimeuS64(r.selectTimeout) == timeout
    ensures r.out.Raised? && r.out.fault.kind == Timeout <==> env.select.rc == 0
    ensures r.out.Raised? ==> r.out.fault.kind == Timeout || r.out.fault.kind == Connect
    ensures r.out.Done? <==> env.select.rc != 0 && env.select.rc != -1 && env.readable && env.accept.rc != -1
    ensures r.out.Done? ==> r.out.value.fd == env.accept.rc && r.out.value.sockType == Stream
    ensures r.out.Done? ==> r.out.value.recvTimeout == s.recvTimeout && r.out.value.sendTimeout == s.sendTimeout
    ensures r.out.Done? ==> !IsConnected(r.out.value)
    ensures !r.out.Pending?
  {
    var tv := AcceptTimeval(timeout);
    AcceptRun(tv,
      if env.select.rc == 0 then Raised(Fault(Timeout, AcceptSelectTimedOut))
      else if env.select.rc == -1 then Raised(Fault(Connect, AcceptSelectFailed(env.select.errno)))
      else if !env.readable then Raised(Fault(Connect, NotReadable))
      else if env.accept.rc == -1 then Raised(Fault(Connect, AcceptCallFailed(env.accept.errno)))
      else Done(WrapTcpSocket(env.accept.rc, s.recvTimeout, s.sendTimeout)))
  }
}
