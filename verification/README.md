# libthrocket in Dafny

A model of the decision logic of libthrocket, a small C++ library of
socket wrappers, thread primitives and exceptions. The model covers:

- **Sockets** (src/Socket.cc, include/Socket.h):
  - the object state of `Socket`, `TCPSocket` and `UDPSocket` (handle, type, timeouts, connected flag, bound address);
  - the timeout setters, `SetFD`, `LockedClose` and `LockedDisconnect`;
  - the poll loop `Select` and its guard `LockedWait`;
  - `LockedTransfer`, which accumulates partial transfers against an absolute deadline, and `LockedRecvAll`, which repeats it;
  - the public `Send`/`Recv` wrappers;
  - the handle lifecycle in `LockedSetNonBlocking`, `LockedOpen`, `LockedBind`, `LockedConnect` and `LockedAccept`;
  - the UDP `LockedSend`/`LockedRecv`;
  - the address formatters `IPAddrString`/`AddrString`, with a parser that inverts them.
- **Threads** (include/ThreadMinimal.h, src/ThreadMinimal.cc):
  - the `ThreadMessage` record and `ThreadQueue` as a FIFO;
  - the timespec arithmetic of `Condition::blockTimed`;
  - the `Thread` flag protocol (`Reset`, `go`, `wait`, `ProcWrapThread`);
  - the `ThreadMother` registry operations `ChildBirth`, `ReapChildren`, `Infanticide` and `SendAllChildren`.
- **Exceptions** (include/Exception.h): the exception value, its copy, its setters, the class names the declaration macros compose, and `StatusCodeException`.

Every system call and every clock reading is an oracle, passed in as a parameter:

- `poll`, `send`/`recv`, `sendto`/`recvfrom`, `socket`, `fcntl`, `bind`, `getsockname`, `listen`, `connect`, `select` and `accept` are represented by their return values and errno.
- A gettimeofday reading is a number.
- A condition-variable wake-up is a `Wake` value: signalled or timed out, with the messages other threads put while the waiter had released the mutex.
- Whether a new thread's routine has already finished when `go` takes its lock back is a boolean.

The loops consume their oracle in order. A loop that would still be running when its oracle is used up ends with `Pending`. This outcome exists only in the model; it lets every method terminate without a fuel bound in the library's own terms.

Errors are `Fault(kind, reason)`. The kind picks the exception class `libthrocket::Socket<Kind>Exception` (`ExceptionOf`), and the reason says which branch of the source threw.

Where this model follows the code rather than the library's own description:

- A failed transfer does not clear the connected flag. `LockedTransfer` never touches it.
- `LockedConnect` waits with `Select` directly, not with `LockedWait`. A send timeout below 1 therefore connects without waiting.
- Addresses are host-order 32-bit numbers: the first octet is the most significant byte.

## Model

| member | source | states |
|---|---|---|
| `SocketState.DirectionOfFlag` | include/Socket.h:79-80 | the boolean transfer flag maps to RECV exactly when it is true and to SEND exactly when it is false |
| `SocketState.ExceptionOf` | include/Socket.h:60-66 | a fault becomes an exception whose class name decodes back to the fault's kind |
| `SocketState.NewSocket` | include/Socket.h:107-117 | an unopened socket has an invalid handle and the given timeouts, is not connected, and is not bound |
| `SocketState.WrapSocket` | include/Socket.h:94-105 | a socket built around a handle keeps that handle and the given timeouts, and is not connected |
| `SocketState.NewTcpSocket` | include/Socket.h:323-330 | an unopened TCP socket is an unopened stream socket and reports not connected |
| `SocketState.WrapTcpSocket` | include/Socket.h:313-321 | a TCP socket around a handle is a stream socket on that handle and reports not connected |
| `SocketState.NewUdpSocket` | include/Socket.h:269-275 | an unopened UDP socket is an unopened datagram socket |
| `SocketState.SetSendTimeout` | src/Socket.cc:281-289 | a negative value raises a Param error and leaves the socket unchanged; otherwise exactly that value is stored and nothing else changes |
| `SocketState.SetRecvTimeout` | src/Socket.cc:294-302 | the same rule for the receive timeout |
| `SocketState.TimeoutSettersKeepNonNegative` | src/Socket.cc:281-302 | stored timeouts stay non-negative whatever value the setters are given |
| `SocketState.SetFD` | src/Socket.cc:389-395 | an Init error if a handle is already open, otherwise the handle is adopted |
| `SocketState.LockedClose` | src/Socket.cc:400-412 | the handle is always invalid afterwards; it is closed exactly when it was valid, and nothing else changes |
| `SocketState.CloseIdempotent` | src/Socket.cc:400-412 | a second close changes nothing and closes nothing, and closing an unopened socket closes nothing |
| `SocketState.LockedDisconnect` | include/Socket.h:361-362 | afterwards the socket is not connected and the handle is invalid; the same handle is closed as by `LockedClose` |
| `SocketState.ValidIPv4Port` | include/Socket.h:217-218 | a port is valid exactly when it survives the conversion to 16 bits unchanged |
| `SocketState.TimeuS64` | src/Socket.cc:43-58 | a normalised timeval is recovered from its microsecond count |
| `SocketState.TimeuS64Order` | src/Socket.cc:43-58 | microsecond counts order normalised timevals lexicographically |
| `DeadlineWait.Select` | src/Socket.cc:307-384 | the loop computes the reference outcome `SelectsAs`: a timeout below 1 returns at once, a zero-event poll retries with the time left, a failed poll is a system error, and a ready poll applies the POLLERR rule; every microsecond budget the loop polls with is positive |
| `DeadlineWait.SelectWithoutBudget` | src/Socket.cc:309-310 | with a timeout below 1 the only outcome is success without polling |
| `DeadlineWait.TimeoutOnlyAtDeadline` | src/Socket.cc:329-359 | a timeout error comes only from a zero-event poll taken when the elapsed time has reached the timeout, after retries with the time left |
| `DeadlineWait.ReadyMeansEvents` | src/Socket.cc:329-383 | a successful wait with a positive timeout ended on a poll that reported events |
| `DeadlineWait.PollErrAsymmetry` | src/Socket.cc:361-383 | with POLLERR set, a ready poll succeeds exactly when read was wanted and POLLIN was reported; otherwise it is a system error |
| `DeadlineWait.SelectsAsUnique` | src/Socket.cc:307-384 | the reference outcome is a function of the oracle: one outcome and one budget list |
| `DeadlineWait.LockedWait` | src/Socket.cc:417-452 | a Param error exactly when no direction is wanted or the timeout is negative; otherwise it waits as `Select` does |
| `StreamTransfer.RawResult` | src/Socket.cc:1078-1098 | a raw call never reports more than it was asked for; it is negative exactly when the call failed, and zero exactly at end of stream or when asked for nothing |
| `StreamTransfer.RoundWait` | src/Socket.cc:1076 | a negative time left raises the parameter fault, and every fault a round's wait raises is one LockedWait raises |
| `StreamTransfer.LockedTransfer` | src/Socket.cc:1021-1111 | the run follows the oracle round by round: each wait is LockedWait on that round's oracle with the time left before the deadline; a failed wait ends the transfer with its fault; each raw result is the round's offer capped at the bytes left; a negative one raises a system error, and zero, short mode or nothing left returns the sum of the results; otherwise the transfer raises a timeout once the clock read after the call has reached the deadline, and goes on to the next round before it |
| `StreamTransfer.TransferCountsMoved` | src/Socket.cc:1078-1110 | the returned count is the sum of the raw results and at most the request; every result but the last is positive; short mode returns after one chunk; a full transfer falls short only when the last result was zero |
| `StreamTransfer.TransferFaults` | src/Socket.cc:1076-1107 | a system error comes only from a failed raw call after a successful wait; a timeout of the transfer comes only with bytes left once the clock has reached the deadline; every other fault is the last wait's and one LockedWait raises |
| `StreamTransfer.TransferBudgets` | src/Socket.cc:1058-1105 | the first wait gets the whole timeout and every later wait the positive time left before the deadline; a negative timeout is refused by the first wait |
| `StreamTransfer.TransferRoundsBounded` | src/Socket.cc:1078-1102 | every round but the last moves at least one byte, so a transfer takes at most one round per requested byte |
| `StreamTransfer.Send` | include/Socket.h:339-340 | a non-short SEND transfer using the send timeout, each wait run on its round's oracle; it falls short of the request only when a call moved zero bytes |
| `StreamTransfer.Recv` | include/Socket.h:341-342 | a RECV transfer using the receive timeout, each wait run on its round's oracle, short only when asked |
| `StreamTransfer.LockedRecvAll` | src/Socket.cc:1116-1132 | transfer j is a full RECV transfer on its own oracle that asks for the request less what the earlier transfers returned; every transfer but the last returned a positive count; a failing transfer ends the call with its fault, and one that returned zero or the rest ends it with the total |
| `StreamTransfer.RecvAllCounts` | src/Socket.cc:1121-1131 | the total is the sum of the transfers and at most the request; it falls short only after a transfer returned zero; there is at most one transfer per requested byte; a request of 0 returns 0 without a transfer |
| `StreamTransfer.RecvAllShortOnlyAtEnd` | src/Socket.cc:1124-1126 | a total short of the request means the last transfer ended at end of stream: its last raw recv returned zero |
| `StreamTransfer.TransferNegativeTimeout` | src/Socket.cc:421-422 | a transfer with a negative timeout raises the parameter error of its first wait, with no raw call made |
| `StreamTransfer.RecvAllNegativeTimeout` | src/Socket.cc:1121-1123 | with a negative receive timeout LockedRecvAll raises that parameter error from its first transfer and receives nothing |
| `Lifecycle.LockedSetNonBlocking` | src/Socket.cc:457-494 | success exactly when both fcntl calls succeed; a failure of the first or the second call is reported as such |
| `Lifecycle.LockedOpen` | src/Socket.cc:540-556 | an open socket is left alone; otherwise the new handle is stored, and the call succeeds exactly when the handle is valid |
| `Lifecycle.LockedOpenIdempotent` | src/Socket.cc:540-556 | opening again after a successful open changes nothing |
| `Lifecycle.LockedBindAsWritten` | src/Socket.cc:561-606 | the bind as the source does it: an already bound socket is skipped; at most one handle is closed and only on an error; the closed handle stays stored in the socket |
| `Lifecycle.StaleHandleAfterFailedBind` | src/Socket.cc:573-589 | a failed bind on handle 3 closes handle 3 and leaves it stored, so a later close closes it again |
| `Lifecycle.LockedBind` | src/Socket.cc:561-606 | the corrected bind: no handle it closed remains stored, and the skip of an already bound socket is kept |
| `Lifecycle.LockedBindCorrection` | src/Socket.cc:573-589 | the corrected bind differs from the bind as written only in the stored handle |
| `Lifecycle.NoDoubleCloseAfterBind` | src/Socket.cc:400-412 | after the corrected bind, a later close never closes a handle the bind already closed |
| `Lifecycle.StartConnect` | src/Socket.cc:955-999 | the guards before the wait: an open handle is a Connect error; a failed socket, fcntl or connect call is a Connect error that leaves the flag alone; otherwise the socket waits for writability |
| `Lifecycle.Rethrown` | src/Socket.cc:1001-1011 | an error from the wait is re-raised as a Connect error with the same reason |
| `Lifecycle.LockedConnect` | src/Socket.cc:955-1016 | every error is a Connect error; connected is set exactly when the write wait succeeds and is otherwise left as it was; a send timeout below 1 connects without polling |
| `Lifecycle.StaleConnectedAfterClose` | include/Socket.h:124-125 | a connected socket that is closed and then fails to reconnect still reports connected |
| `Lifecycle.TcpClose` | include/Socket.h:361-362 | the corrected close: the handle is invalid, the flag is clear, and the socket stays coherent |
| `Lifecycle.CoherenceKept` | include/Socket.h:355-356 | "connected implies a valid handle" holds for new sockets and is kept by close, disconnect, the setters and the connect guards |
| `Lifecycle.ConnectAfterTcpClose` | src/Socket.cc:955-1016 | after the corrected close, a failed reconnect leaves the socket not connected |
| `Lifecycle.AcceptTimeval` | src/Socket.cc:1148-1150 | the accept timeout is split by truncating division into seconds and microseconds; the split is exact within the 32-bit range |
| `Lifecycle.LockedAccept` | src/Socket.cc:1137-1181 | select is given the timeval AcceptTimeval builds, which holds the whole timeout when it is non-negative and within the 32-bit range; a Timeout error exactly when select returns 0; a Connect error on a failed select, an unreadable listener or a failed accept; otherwise a new unconnected stream socket on the accepted handle with the listener's timeouts |
| `Address.PackOctets` | src/Socket.cc:636-651 | the four octets of an address pack back into the address |
| `Address.OctetsPack` | src/Socket.cc:636-651 | four octets survive packing and unpacking |
| `Address.IPAddrString` | src/Socket.cc:636-651 | the dotted quad of an address holds digits and dots only, so no colon can be mistaken for the port separator, and it parses back to the same address |
| `Address.AddrString` | src/Socket.cc:656-666 | the address text of a number and a port parses back to both, whether or not the port was printed: it is omitted exactly when it is 0 |
| `Address.AddrStringOverloads` | src/Socket.cc:656-674 | the two `AddrString` overloads agree for a non-zero port; for port 0 the text form appends ":0" and the numeric form does not |
| `Address.AddrStringOf` | src/Socket.cc:671-674 | for an address text without a colon, the text splits at its first colon into that address text and the decimal port, which reads back to the port |
| `Datagram.LockedSend` | src/Socket.cc:732-775 | it waits for writability; a failed wait is passed on; only -1 from sendto raises; any other value is returned as 32 bits, and a count other than the request is only a warning |
| `Datagram.LockedRecv` | src/Socket.cc:788-830 | it waits for readability; only -1 from recvfrom raises; a datagram is read up to the buffer's size and never more; the sender's address and port are reported when a datagram was read and are 0 otherwise |
| `Datagram.LockedRecvText` | src/Socket.cc:835-841 | the address text is produced exactly when the receive succeeded, and it parses back to the sender's address; the port is 0 after an error |
| `Exceptions.NewException` | include/Exception.h:48-55 | class, thrower and detail are stored as given, and the stack trace is empty |
| `Exceptions.CopyException` | include/Exception.h:56-63 | a copy keeps class, thrower and detail and has an empty stack trace |
| `Exceptions.CopyLosesOnlyStackTrace` | include/Exception.h:56-63 | a copy equals the original exactly when the original had no stack trace; otherwise it is the original with the trace cleared |
| `Exceptions.SettersAreIndependent` | include/Exception.h:68-91 | each setter changes only its own field, and each `Clear` sets it to the empty string |
| `Exceptions.SetterLastWins` | include/Exception.h:68-91 | a second set of the same field overrides the first, and clearing twice is clearing once |
| `Exceptions.SubclassName` | include/Exception.h:137-149 | a subclass name reads back, after its `ns::` prefix and "Exception" suffix are stripped, to the class and subclass names joined |
| `Exceptions.StripClassName` | include/Exception.h:124-129 | whatever a class name reads back to rebuilds that class name |
| `Exceptions.NewStatusCodeException` | include/Exception.h:155-169 | the status code reads back as given, over an ordinary exception |
| `Exceptions.StatusCodeClassName` | include/Exception.h:180-183 | the class is prefixed by `ns::` only: stripping the namespace gives back exactly the class passed, with no "Exception" added |
| `Exceptions.StatusCodeSelfNamed` | include/Exception.h:184-186 | the two-argument constructor, passing its own name, gets the name an ordinary subclass `t` would, and it reads back to `t` |
| `Exceptions.ThrownBy` | include/Exception.h:192 | the thrower string starts with the function name followed by "@" |
| `Exceptions.ThrownByParses` | include/Exception.h:192 | a thrower string reads back to its function, file and line: the function ends at the first "@" (function names hold none), the line follows the last ":", and the file, colons and all, lies between |
| `Exceptions.SocketClass` | include/Socket.h:60-66 | each kind's class name reads back to that kind |
| `Exceptions.KindOfClassExact` | include/Socket.h:60-66 | a class name reads as kind k exactly when it is k's class name, so distinct kinds have distinct class names |
| `Exceptions.SocketException` | include/Exception.h:143-144 | a socket exception carries its kind's class, thrower and detail, and an empty stack trace |
| `Exceptions.ParamClassName` | include/Socket.h:64 | the parameter exception's class name is `libthrocket::SocketParamException` |
| `Exceptions.SocketBaseClassName` | include/Socket.h:60 | the base socket exception's class name is `libthrocket::SocketException` |
| `Decimal.DecimalString` | include/Exception.h:192 | the decimal text of a number is digits only, has no leading zero unless it is "0", and has exactly as many digits as the number needs |
| `Decimal.ParseDecimalString` | include/Exception.h:192 | the decimal text of a number parses back to the number |
| `Decimal.DecimalStringInjective` | include/Exception.h:192 | distinct numbers have distinct decimal texts |
| `Timespec.IntervalDeadline` | include/ThreadMinimal.h:218-237 | the deadline lies exactly the interval after the clock reading; with a normalised reading the nanoseconds are in [0, 10^9) |
| `Timespec.IntervalDeadlineMonotone` | include/ThreadMinimal.h:218-237 | a longer interval never gives an earlier deadline; interval 0 gives the reading itself |
| `Timespec.IntervalDeadlineCanonical` | include/ThreadMinimal.h:218-237 | the seconds and nanoseconds are the normal form of the deadline's microsecond count |
| `Message.Clear` | include/ThreadMinimal.h:273-289 | id, response queue, bools, strings, ints, doubles and buffer are reset; the float slots are untouched |
| `Message.NewMessage` | include/ThreadMinimal.h:262-267 | a new message is a cleared one |
| `Message.ClearIsFresh` | include/ThreadMinimal.h:262-289 | clearing gives a fresh message, is idempotent, and forgets everything but the floats |
| `Message.SetID` | include/ThreadMinimal.h:291-292 | the id reads back and nothing else changes |
| `Message.SetQRespond` | include/ThreadMinimal.h:323-324 | the response queue reads back and nothing else changes |
| `Message.SetBool` | include/ThreadMinimal.h:295-296 | the indexed slot reads back; the other slot and the other fields are unchanged |
| `Message.SetStr` | include/ThreadMinimal.h:299-300 | the same rule for the string slots |
| `Message.SwapStr` | include/ThreadMinimal.h:301-302 | the slot takes the caller's string and the caller gets the old content back |
| `Message.SwapStrTwice` | include/ThreadMinimal.h:301-302 | swapping again with what came back restores both the message and the string |
| `Message.SetInt` | include/ThreadMinimal.h:305-306 | the same rule for the size_t slots |
| `Message.SetFlt` | include/ThreadMinimal.h:309-310 | the same rule for the float slots |
| `Message.SetDbl` | include/ThreadMinimal.h:313-314 | the same rule for the double slots |
| `Message.SetBuf` | include/ThreadMinimal.h:317-318 | the buffer is a copy of the first l bytes with length l, and nothing else changes |
| `Message.SettersCommute` | include/ThreadMinimal.h:291-326 | setters on different fields or slots commute and do not disturb each other's values |
| `ThreadQueue.Put` | include/ThreadMinimal.h:426-432 | the message goes to the back and the queue before it is kept |
| `ThreadQueue.Get` | include/ThreadMinimal.h:434-498 | a get consumes no more wakes than it is given; what it returns is stated by the lemmas below |
| `ThreadQueue.GetFront` | include/ThreadMinimal.h:434-498 | in all four read modes a non-empty queue yields its front at once, without waiting, and keeps the rest |
| `ThreadQueue.GetDelivers` | include/ThreadMinimal.h:446-498 | a message a get returns is the front of the queue as it stood plus what other threads put while it waited; the rest stays queued in order |
| `ThreadQueue.GetNull` | include/ThreadMinimal.h:434-498 | NULL comes back only when the queue was empty at the start, and either without waiting in a non-blocking mode or right after a timeout; a timed-out get does not look again, so whatever other threads put during its waits stays queued; a blocking get never returns NULL |
| `ThreadQueue.TimeoutLeavesArrivals` | include/ThreadMinimal.h:477-496 | a timed get whose wait times out after another thread put x returns NULL with x still queued, in both timed modes |
| `ThreadQueue.GetBlocked` | include/ThreadMinimal.h:446-498 | a get stays blocked only on an empty queue that nothing arrived in, in a mode that waits |
| `ThreadQueue.NonBlockingOnEmpty` | include/ThreadMinimal.h:434-481 | getNonBlocking and getTimed(0) on an empty queue return NULL and leave it empty |
| `ThreadQueue.NonBlockingAgree` | include/ThreadMinimal.h:434-481 | getNonBlocking and getTimed(0) agree on every queue and never wait |
| `ThreadQueue.FifoOrder` | include/ThreadMinimal.h:426-445 | after any messages are put on any queue, as many non-blocking gets as there are messages return the old contents and then the new messages, in order, and leave the queue empty |
| `ThreadQueue.SizeAccounting` | include/ThreadMinimal.h:500-504 | over any trace, the size plus the successful gets equals the initial size plus all puts, including those other threads made while a get waited |
| `ThreadState.Reset` | include/ThreadMinimal.h:540-546 | all four flags are false |
| `ThreadState.ProcWrapThread` | src/ThreadMinimal.cc:47-84 | started and stillRunning are set before the routine runs; stillRunning is cleared at exit whether the routine returned or threw; a throw is reported |
| `ThreadState.ExitIgnoresRunEnd` | src/ThreadMinimal.cc:59-83 | the flags at exit do not depend on how the routine ended |
| `ThreadState.Go` | include/ThreadMinimal.h:548-570 | from the idle state, go returns with the thread started, no stop requested and not joined; it is still running exactly when its routine had not finished before go took the lock back |
| `ThreadState.SetStopRequested` | include/ThreadMinimal.h:596-597 | the stop flag is set and the other flags are unchanged |
| `ThreadState.Wait` | include/ThreadMinimal.h:571-588 | a started, unjoined thread ends joined and no longer running |
| `ThreadState.OperationsKeepWellFormed` | include/ThreadMinimal.h:540-597 | every flag operation keeps the flags well formed |
| `ThreadState.GoWaitProtocol` | include/ThreadMinimal.h:548-588 | after go the thread is no longer idle, and a go followed by a wait ends joined, in the same state whichever way go was scheduled |
| `Supervision.ChildBirth` | include/ThreadMinimal.h:644-662 | the child goes to the end of the registry and is returned, and the child count grows by one |
| `Supervision.ReapChildren` | src/ThreadMinimal.cc:88-122 | the registry keeps exactly the running children in their order; every finished child is waited on and deleted once, in registry order |
| `Supervision.SplitRunning` | src/ThreadMinimal.cc:99-109 | the children still running go to the keep list and the finished ones to the delete list, each in registry order |
| `Supervision.JoinFinished` | src/ThreadMinimal.cc:111-117 | every finished child is waited on and then deleted, once each, in registry order |
| `Supervision.ReapPartition` | src/ThreadMinimal.cc:99-110 | kept and reaped children together are the old registry, as a multiset |
| `Supervision.RunningInOrder` | src/ThreadMinimal.cc:99-110 | the kept children are those at increasing registry positions whose running flag is set |
| `Supervision.Infanticide` | src/ThreadMinimal.cc:126-153 | every child is asked to stop, then waited on and deleted once; the registry ends empty; all stop requests come before the first join |
| `Supervision.RequestStops` | src/ThreadMinimal.cc:136-140 | each child, in registry order, has its stop flag raised and nothing else changed |
| `Supervision.JoinAll` | src/ThreadMinimal.cc:142-148 | each stopped child, in registry order, is waited on and then deleted |
| `Supervision.StopsBeforeJoins` | src/ThreadMinimal.cc:134-150 | in the log of a kill, the first N events are stop requests and none of the rest is |
| `Supervision.AwaitAck` | src/ThreadMinimal.cc:174 | the get on the private queue takes its front when there is one, and blocks only when the queue is empty and no acknowledgement arrives |
| `Supervision.SendAllChildren` | src/ThreadMinimal.cc:157-179 | the message responds on the private queue; each child in order gets the message queued and one acknowledgement is taken, N for N children; ids and flags are unchanged; a get blocks, just after that child's queueing, only in a round whose wakes bring no acknowledgement, so with one acknowledgement per round every child is reached |

## Left out

- System calls, the clock and condition-variable wake-ups are oracle parameters. Their effect on the kernel or on other threads is not modelled.
- The mutexes and `Lock` guards are not modelled. The lock release inside `LockedWait` is not modelled either. Each operation is one sequential step.
- Real thread creation and join are not modelled; `pthread_create`/`pthread_join` failures abort the process in the source.
- All `WIN32` branches, `GlobalInit`/`Init` and the WSAStartup counter are left out.
- `Resolv` and `GetHostname` are left out because they depend on the system resolver.
- `inet_addr`, which the string overloads of UDP `LockedSend`, `LockedBind` and `LockedConnect` use to convert text, is left out. The model takes the address already converted.
- `htonl`/`ntohs` are left out: addresses and ports are in host order.
- Logging is left out: `LOGDEBUG`, `Console`, the FIONREAD debug block, `PollReventsString` and `SocketErrorString`. Error details are reasons, not strings.
- `HTTPClient::Request` is a thin wrapper of `Send` and `RecvAll` and is not modelled.
- `LockedReuseAddr`, `LockedBroadcast`, `LockedNoNagle` and `LockedSetBlocking` are setsockopt/fcntl wrappers. Only their reply enters the model, where bind uses it.
- The peer and local address getters (`LockedGetEncoded*`, `LockedGet*String`) wrap getpeername/getsockname and are not modelled.
- The fd_set plumbing of `LockedAccept` is not modelled. Only its classification of the select and accept results is.
- The float and double slots of `ThreadMessage` are 32- and 64-bit patterns; no floating-point arithmetic is involved.
- The ownership semantics of `ThreadMessagePtr`/`ThreadMessageArr` and the queue destructor are memory management and are not modelled.
- `SetBuf` leaks the previous buffer. This memory leak is not modelled.
- `Pending` is an outcome of the model only. A loop whose oracle runs out ends with it; the source would keep waiting or polling.
- `StillBlocked` is a queue-read result of the model only. A get whose wakes run out on an empty queue ends with it; the source would keep waiting on the condition variable.
- The 64-bit overflow of the clock and timeout sums in `TimeuS64`, `Select` and `LockedTransfer` is not modelled. The model uses unbounded integers there.
- Thread `go` and `wait` abort through `assert` when their flags are wrong. The model makes those flags a precondition.
- `Message.SetBuf`: requires the source buffer to hold at least l bytes, which the source's memcpy silently assumes.
- `StreamTransfer.LockedTransfer`: the branch for a direction other than RECV or SEND is not modelled. The direction is a bool, so that branch cannot be reached.
- `DeadlineWait.Select`: poll receives `i64TimeRemaining / 1000`, narrowed to `int` (src/Socket.cc:326). The model's budgets stay in microseconds and this conversion is not modelled. Below 1000 µs poll gets 0 and returns at once, so the loop busy-polls until the deadline. Beyond 2^31 ms the narrowing wraps.
- `Supervision.SendAllChildren`: queues hold message values, not a shared `ThreadMessage*`. The source puts the same object on every child's queue (src/ThreadMinimal.cc:156-176), so a change child k makes to it is what child k+1 receives. In the model every child receives the message as it was sent.

## Findings

| source | as written | input that shows it | evidently intended | confidence | as-written member | corrected member |
|---|---|---|---|---|---|---|
| src/Socket.cc:573-589 | on a failed bind or getsockname, `LockedBind` closes the handle but keeps it in `m_nSocket` | socket() returns 3, bind returns -1 with errno 98: handle 3 is closed and stays stored, so `Close` or the destructor closes 3 a second time, possibly a handle reused by then | the handle is invalidated when it is closed, as `LockedClose` does | high; not executed | `Lifecycle.StaleHandleAfterFailedBind` | `Lifecycle.LockedBind` |
| include/Socket.h:124-125 | `Close` on a `TCPSocket` runs the base `LockedClose`, which leaves `m_bConnected` set | connected socket 5, `Close`, then `Connect` with socket() returning 6 and connect failing with errno 111: `IsConnected` is true although the connection failed | closing a TCP socket clears the connected flag, as `LockedDisconnect` does | medium; not executed | `Lifecycle.StaleConnectedAfterClose` | `Lifecycle.TcpClose` |
