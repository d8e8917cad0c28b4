/**
 The datagram transfers of src/Socket.cc: `UDPSocket::LockedSend` and
 `UDPSocket::LockedRecv` in their `in_addr_t` forms.

 Each waits with LockedWait and then issues one sendto(2)/recvfrom(2),
 whose reply is an oracle. Only -1 is an error; any other value is returned
 through the `(uint32_t)` cast, and a send that moved fewer bytes than asked
 is logged as a warning, not raised. Addresses are taken in host order.
 */
module Datagram {
  import opened Basics
  import opened Exceptions
  import opened SocketState
  import opened DeadlineWait
  import Address

  /** One sendto(2)/recvfrom(2) reply; `fromAddr`/`fromPort` are the sender
      recvfrom reports and are ignored for sendto. For recvfrom, `rc` is the
      length of the datagram waiting (or -1); the call fills at most the
      buffer's `count` bytes and discards the rest. */
  datatype Reply = Reply(rc: int, errno: int, fromAddr: uint32, fromPort: uint16)

  datatype DatagramEnv = DatagramEnv(wait: WaitEnv, reply: Reply)

  /** `UDPSocket::LockedSend(in_addr_t, uint16_t, const uint8_t*, uint32_t)`.
      `waited` is LockedWait's outcome; `mismatch` is the send-count warning. */
  method LockedSend(s: Socket, addr: uint32, port: uint16, count: uint32, env: DatagramEnv)
    returns (out: Outcome<uint32>, mismatch: bool, waited: Outcome<()>, budgets: seq<int>)
    ensures LockedWaitsAs(false, true, s.sendTimeout, env.wait, waited, budgets)
    // a failed wait is passed on unchanged and nothing is sent
    ensures !waited.Done? ==> !mismatch && (waited.Raised? ==> out == Raised(waited.fault)) && (waited.Pending? ==> out.Pending?)
    // after the wait, only -1 raises
    ensures waited.Done? && env.reply.rc == -1 ==> out == Raised(Fault(Sys, DatagramSendFailed(env.reply.errno))) && !mismatch
    ensures waited.Done? && env.reply.rc != -1 ==> out == Done(ToUint32(env.reply.rc))
    // a short (or otherwise different) count is only a warning
    ensures out.Done? ==> (mismatch <==> out.value != count)
    ensures waited.Done? && 0 <= env.reply.rc < count ==> out == Done(env.reply.rc) && mismatch
  {
    mismatch := false;
    waited, budgets := LockedWait(false, true, s.sendTimeout, env.wait);
    match waited
    case Raised(f) =>
      out := Raised(f);
    case Pending =>
      out := Pending;
    case Done(_) =>
      var rc := env.reply.rc;
      if rc == -1 {
        out := Raised(Fault(Sys, DatagramSendFailed(env.reply.errno)));
      } else {
        var n := ToUint32(rc);
        mismatch := n != count;
        out := Done(n);
      }
  }

  /** `UDPSocket::LockedRecv(in_addr_t&, uint16_t&, uint8_t*, uint32_t)`. The
      reference parameters are zeroed first, so after any error the caller
      sees address 0 and port 0. A datagram longer than `count` is cut to
      `count` bytes. */
  method LockedRecv(s: Socket, count: uint32, env: DatagramEnv)
    returns (out: Outcome<uint32>, addr: uint32, port: uint16, waited: Outcome<()>, budgets: seq<int>)
    ensures LockedWaitsAs(true, false, s.recvTimeout, env.wait, waited, budgets)
    ensures !waited.Done? ==> (waited.Raised? ==> out == Raised(waited.fault)) && (waited.Pending? ==> out.Pending?)
    ensures waited.Done? && env.reply.rc == -1 ==> out == Raised(Fault(Sys, DatagramRecvFailed(env.reply.errno)))
    // a datagram is read up to the buffer's size, never more
    ensures waited.Done? && 0 <= env.reply.rc ==> out == Done(if env.reply.rc <= count then env.reply.rc else count)
    ensures out.Done? && 0 <= env.reply.rc ==> out.value <= count
    // any other reply goes through the (uint32_t) cast
    ensures waited.Done? && env.reply.rc < -1 ==> out == Done(ToUint32(env.reply.rc))
    // the sender is reported exactly when a datagram was read
    ensures out.Done? ==> addr == env.reply.fromAddr && port == env.reply.fromPort
    ensures !out.Done? ==> addr == 0 && port == 0
  {
    addr, port := 0, 0;
    waited, budgets := LockedWait(true, false, s.recvTimeout, env.wait);
    match waited
    case Raised(f) =>
      out := Raised(f);
    case Pending =>
      out := Pending;
    case Done(_) =>
      if env.reply.rc == -1 {
        out := Raised(Fault(Sys, DatagramRecvFailed(env.reply.errno)));
      } else {
        var rc := if env.reply.rc > count as int then count as int else env.reply.rc;
        out := Done(ToUint32(rc));
        addr, port := env.reply.fromAddr, env.reply.fromPort;
      }
  }

  /** `UDPSocket::LockedRecv(string&, uint16_t&, uint8_t*, uint32_t)`: the
      sender's address rendered without a port. When the inner call throws,
      the string is never assigned (None here) while the port has already
      been zeroed. */
  method LockedRecvText(s: Socket, count: uint32, env: DatagramEnv)
    returns (out: Outcome<uint32>, addrText: Option<string>, port: uint16)
    ensures addrText.Some? <==> out.Done?
    ensures out.Done? ==> Address.ParseIP(addrText.value) == Some(env.reply.fromAddr) && port == env.reply.fromPort
    ensures !out.Done? ==> port == 0
  {
    var addr, w, b;
    out, addr, port, w, b := LockedRecv(s, count, env);
    if out.Done? {
      addrText := Some(Address.AddrString(addr, 0));
    } else {
      addrText := None;
    }
  }
}
