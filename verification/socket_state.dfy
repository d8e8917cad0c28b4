/**
 The state a Socket / InetSocket / TCPSocket object holds (include/Socket.h)
 and the operations of src/Socket.cc that change it without talking to the
 network: constructors, timeout setters, SetFD, LockedClose, IsConnected and
 LockedDisconnect. Also the socket error values every socket operation
 raises, and the clock conversion TimeuS64.

 The per-object mutex is not modelled: every function here is the `Locked*`
 body, run by the one thread that holds the lock.
 */
module SocketState {
  import opened Basics
  import opened Exceptions

  /** `INVALID_SOCKET`, the "not open" sentinel for a handle. */
  const InvalidSocket: int := -1

  /** SOCK_STREAM / SOCK_DGRAM: the transport fixed at construction. */
  datatype SocketType = Stream | Datagram

  /** Which way a stream transfer moves bytes. */
  datatype Direction = SendDir | RecvDir

  /** `SOCKET_TRANSFER_RECV` is `true` and `SOCKET_TRANSFER_SEND` is `false`;
      the transfer routine takes the direction as that bool. */
  const TransferRecv: bool := true
  const TransferSend: bool := false

  function DirectionOfFlag(b: bool): (d: Direction)
    ensures d == RecvDir <==> b == TransferRecv
    ensures d == SendDir <==> b == TransferSend
  {
    if b then RecvDir else SendDir
  }

  /** Why an operation failed: the information the source puts in the
      exception's detail text (numbers kept, wording left out). */
  datatype Reason =
    | NoDirection                                  // "don't want read or write"
    | NegativeTimeout(timeout: int)                // "negatimeout" / "i64Timeout N"
    | PollFailed(latency: int, timeout: int, errno: int)
    | PollTimedOut(latency: int, timeout: int)
    | PollWild(rc: int)
    | PollSocketError(latency: int, timeout: int)
    | TransferFailed(dir: Direction, errno: int)
    | TransferTimedOut(dir: Direction)
    | HandleInUse                                  // "m_nSocket != INVALID_SOCKET"
    | SocketCallFailed(errno: int)
    | FcntlGetFailed(errno: int)
    | FcntlSetFailed(errno: int)
    | ConnectCallFailed(errno: int)
    | ReuseAddrFailed(errno: int)
    | BindCallFailed(errno: int)
    | GetSockNameFailed(errno: int)
    | ListenFailed(errno: int)
    | AcceptSelectTimedOut
    | AcceptSelectFailed(errno: int)
    | NotReadable
    | AcceptCallFailed(errno: int)
    | DatagramSendFailed(errno: int)
    | DatagramRecvFailed(errno: int)
    | Wrapped(inner: Reason)                       // re-thrown as another class, same detail

  /** A thrown socket exception: its class (kind) and its detail. */
  datatype Fault = Fault(kind: SocketKind, reason: Reason)

  /** What a socket operation ends with. `Pending` is not a result of the
      source: it says the environment script handed to the model ran out
      while the source would still be waiting for the operating system. */
  datatype Outcome<+T> = Done(value: T) | Raised(fault: Fault) | Pending

  /** The exception object the source throws for a fault. */
  function ExceptionOf(f: Fault, thrownBy: string, detail: string): (e: Exception)
    ensures KindOfClass(e.cls) == Some(f.kind)
  {
    SocketException(f.kind, thrownBy, detail)
  }

  /** The fields of a TCPSocket (the widest class); `connected` stays false for
      the socket types that have no such flag. `boundAddr` is InetSocket's
      m_strIPAddr and `boundPort` its m_u16Port. */
  datatype Socket = Socket(
    fd: int,
    sockType: SocketType,
    recvTimeout: int,
    sendTimeout: int,
    connected: bool,
    boundAddr: string,
    boundPort: uint16)

  /** `Socket(nSocketType, recv, send)`: an unopened handle. The timeouts are
      stored unchecked; only the setters reject negative values. */
  function NewSocket(t: SocketType, recvTimeout: int, sendTimeout: int): (s: Socket)
    ensures s.fd == InvalidSocket && s.sockType == t
    ensures s.recvTimeout == recvTimeout && s.sendTimeout == sendTimeout
    ensures !s.connected && s.boundAddr == ""
  {
    Socket(InvalidSocket, t, recvTimeout, sendTimeout, false, "", 0)
  }

  /** `Socket(nSocket, nSocketType, recv, send)`: wraps an existing handle. */
  function WrapSocket(fd: int, t: SocketType, recvTimeout: int, sendTimeout: int): (s: Socket)
    ensures s.fd == fd && s.sockType == t
    ensures s.recvTimeout == recvTimeout && s.sendTimeout == sendTimeout
    ensures !s.connected && s.boundAddr == ""
  {
    Socket(fd, t, recvTimeout, sendTimeout, false, "", 0)
  }

  /** `TCPSocket(recv, send)`. */
  function NewTcpSocket(recvTimeout: int, sendTimeout: int): (s: Socket)
    ensures s == NewSocket(Stream, recvTimeout, sendTimeout)
    ensures !IsConnected(s)
  {
    NewSocket(Stream, recvTimeout, sendTimeout)
  }

  /** `TCPSocket(nSocket, recv, send)`: even a wrapped, open handle starts
      with m_bConnected false. */
  function WrapTcpSocket(fd: int, recvTimeout: int, sendTimeout: int): (s: Socket)
    ensures s == WrapSocket(fd, Stream, recvTimeout, sendTimeout)
    ensures !IsConnected(s)
  {
    WrapSocket(fd, Stream, recvTimeout, sendTimeout)
  }

  /** `UDPSocket(recv, send)`. */
  function NewUdpSocket(recvTimeout: int, sendTimeout: int): (s: Socket)
    ensures s == NewSocket(Datagram, recvTimeout, sendTimeout)
  {
    NewSocket(Datagram, recvTimeout, sendTimeout)
  }

  /** `TCPSocket::IsConnected`: a valid handle and the connected flag. */
  predicate IsConnected(s: Socket)
  {
    s.fd != -1 && s.connected
  }

  /** Result of an operation that updates the socket and may throw. */
  datatype Step = Step(sock: Socket, out: Outcome<()>)

  /** `SetSendTimeout`: a negative value throws SocketParamException and
      leaves the stored value alone. */
  function SetSendTimeout(s: Socket, t: int): (r: Step)
    ensures t < 0 ==> r.sock == s && r.out == Raised(Fault(Param, NegativeTimeout(t)))
    ensures t >= 0 ==> r.out == Done(()) && r.sock.sendTimeout == t
    ensures r.sock.(sendTimeout := s.sendTimeout) == s
  {
    if t < 0 then Step(s, Raised(Fault(Param, NegativeTimeout(t))))
    else Step(s.(sendTimeout := t), Done(()))
  }

  /** `SetRecvTimeout`: as SetSendTimeout, for the receive timeout. */
  function SetRecvTimeout(s: Socket, t: int): (r: Step)
    ensures t < 0 ==> r.sock == s && r.out == Raised(Fault(Param, NegativeTimeout(t)))
    ensures t >= 0 ==> r.out == Done(()) && r.sock.recvTimeout == t
    ensures r.sock.(recvTimeout := s.recvTimeout) == s
  {
    if t < 0 then Step(s, Raised(Fault(Param, NegativeTimeout(t))))
    else Step(s.(recvTimeout := t), Done(()))
  }

  /** Setting then reading a timeout gives the value back; a rejected value
      keeps the previous one, so the stored timeouts stay non-negative once
      they are. */
  lemma {:induction false} TimeoutSettersKeepNonNegative(s: Socket, t: int)
    requires s.sendTimeout >= 0 && s.recvTimeout >= 0
    ensures SetSendTimeout(s, t).sock.sendTimeout >= 0
    ensures SetRecvTimeout(s, t).sock.recvTimeout >= 0
    ensures SetSendTimeout(s, t).sock.sendTimeout == (if t >= 0 then t else s.sendTimeout)
    ensures SetRecvTimeout(s, t).sock.recvTimeout == (if t >= 0 then t else s.recvTimeout)
  {
  }

  /** `SetFD`: only a socket without a handle may adopt one. */
  function SetFD(s: Socket, fd: int): (r: Step)
    ensures s.fd != InvalidSocket ==> r.sock == s && r.out == Raised(Fault(Init, HandleInUse))
    ensures s.fd == InvalidSocket ==> r.out == Done(()) && r.sock == s.(fd := fd)
  {
    if s.fd != InvalidSocket then Step(s, Raised(Fault(Init, HandleInUse)))
    else Step(s.(fd := fd), Done(()))
  }

  /** `LockedClose`: the resulting socket, and the handle passed to
      `closesocket` when there was one. */
  datatype Closed = Closed(sock: Socket, closedFd: Option<int>)

  function LockedClose(s: Socket): (r: Closed)
    ensures r.sock.fd == InvalidSocket
    ensures r.sock.(fd := s.fd) == s
    ensures r.closedFd.Some? <==> s.fd != InvalidSocket
    ensures r.closedFd.Some? ==> r.closedFd.value == s.fd
  {
    if s.fd != InvalidSocket then Closed(s.(fd := InvalidSocket), Some(s.fd))
    else Closed(s, None)
  }

  /** Closing twice is closing once: the second close issues no system call. */
  lemma CloseIdempotent(s: Socket)
    ensures LockedClose(LockedClose(s).sock).sock == LockedClose(s).sock
    ensures LockedClose(LockedClose(s).sock).closedFd == None
    ensures LockedClose(NewSocket(Stream, 0, 0)).closedFd == None
  {
  }

  /** `TCPSocket::LockedDisconnect`: clear the flag, then close. */
  function LockedDisconnect(s: Socket): (r: Closed)
    ensures !IsConnected(r.sock) && !r.sock.connected
    ensures r.sock.fd == InvalidSocket
    ensures r.closedFd == LockedClose(s).closedFd
  {
    LockedClose(s.(connected := false))
  }

  /** `InetSocket::ValidIPv4Port`: the valid ports are exactly the values
      that survive the conversion to `uint16_t` unchanged. */
  function ValidIPv4Port(p: int): (b: bool)
    ensures b <==> p % 0x1_0000 == p
  {
    p >= 0 && p <= 0xFFFF
  }

  /** A `struct timeval` as gettimeofday fills it. */
  datatype Timeval = Timeval(sec: int, usec: int)

  predicate Normalized(tv: Timeval)
  {
    0 <= tv.usec < 1000000
  }

  /** `TimeuS64`: microseconds since the epoch. 64-bit overflow is not
      reachable for clock values and is not modelled. A normalised time value
      is recovered from its count. */
  function TimeuS64(tv: Timeval): (t: int)
    ensures Normalized(tv) ==> t / 1000000 == tv.sec && t % 1000000 == tv.usec
  {
    tv.sec * 1000000 + tv.usec
  }

  /** For normalised time values TimeuS64 orders them lexicographically. */
  lemma TimeuS64Order(a: Timeval, b: Timeval)
    requires Normalized(a) && Normalized(b)
    ensures TimeuS64(a) < TimeuS64(b) <==> a.sec < b.sec || (a.sec == b.sec && a.usec < b.usec)
  {
  }
}
