/** The session I/O handle: session lifecycle, the listener flag, worker
    checks on listen/accept, endpoint copy-out, interest registration, the
    forwarding to the readiness coalescer and the fixed answers. */
module VclIoHandle {
  import opened Outcomes
  import opened Options
  import opened VclApi
  import opened Readiness
  import VclEvent

  /** `sh`: the foreign session handle (all-ones when there is none).
      `isListener`: set once, by `listen`.
      `fileEvent`: the readiness coalescer, once initialised. */
  datatype Handle = Handle(sh: uint32, isListener: bool, fileEvent: Option<VclEvent.EventState>)

  const INVALID_SOCKET: int32 := -1

  /** Conversion of a C `int` descriptor into the 32-bit session handle. */
  function Wrap32(x: int32): (r: uint32)
    ensures (r - x) % 0x1_0000_0000 == 0
  {
    if x >= 0 then x else x + 0x1_0000_0000
  }

  /** The descriptor constructor; with the default argument the handle has
      no session. */
  function FromFd(fd: int32): (h: Handle)
    ensures !h.isListener && h.fileEvent.None?
    ensures fd == INVALID_SOCKET ==> !ShValid(h.sh)
    ensures fd >= 0 ==> h.sh == fd && ShValid(h.sh)
  {
    Handle(Wrap32(fd), false, None)
  }

  /** The session constructor used by `accept`. */
  function FromSession(sh: uint32): (h: Handle)
    ensures h.sh == sh && !h.isListener && h.fileEvent.None?
  {
    Handle(sh, false, None)
  }

  predicate IsOpen(h: Handle) {
    ShValid(h.sh)
  }

  datatype CloseOutcome = CloseOutcome(handle: Handle, result: IoCallResult)

  /** `close`: fatal on a handle without a session; otherwise the session is
      closed and the handle is left without one, and the call never reports an
      error (the foreign return value becomes the unsigned count). */
  function Close(h: Handle, closeRv: int32): (r: Checked<CloseOutcome>)
    ensures !IsOpen(h) <==> r == Abort(InvalidSession)
    ensures r.Ok? ==> && !IsOpen(r.value.handle)
                      && r.value.result.Ok()
                      && r.value.result.rc == Wrap64(closeRv)
                      && r.value.handle.isListener == h.isListener
                      && r.value.handle.fileEvent == h.fileEvent
  {
    if !ShValid(h.sh) then Abort(InvalidSession)
    else Ok(CloseOutcome(h.(sh := InvalidatedSh(h.sh)), IoCallResult(Wrap64(closeRv), NoError)))
  }

  /** The destructor closes a handle that still has a session and is never
      fatal. */
  function Destroy(h: Handle, closeRv: int32): (h': Handle)
    ensures !IsOpen(h')
    ensures !IsOpen(h) ==> h' == h
  {
    if ShValid(h.sh) then Close(h, closeRv).value.handle else h
  }

  /** A handle open for one close is closed after it, and a second close is
      fatal rather than a silent success. */
  lemma CloseIsOneShot(h: Handle, rv1: int32, rv2: int32)
    requires IsOpen(h)
    ensures Close(h, rv1).Ok?
    ensures !IsOpen(Close(h, rv1).value.handle)
    ensures Close(Close(h, rv1).value.handle, rv2) == Abort(InvalidSession)
  {
  }

  /** A default-constructed handle has no session and is not a listener. */
  lemma DefaultHandleIsClosed()
    ensures !IsOpen(FromFd(INVALID_SOCKET)) && !FromFd(INVALID_SOCKET).isListener
  {
  }

  /** Foreign calls the handle makes that the model records. */
  datatype Call =
    | SessionListen(sh: uint32)
    | EpollAdd(sh: uint32, interest: Mask)
    | EpollMod(sh: uint32, interest: Mask)
    | SessionBind(sh: uint32)
    | SessionConnect(sh: uint32)
    | SetFlags(sh: uint32, flags: int)

  datatype ListenOutcome = ListenOutcome(handle: Handle, result: SysResult, calls: seq<Call>)

  /** `listen`: `worker` is the caller's worker index after registration and
      `sessionWorker` the worker owning the session. Fatal without a worker,
      on a listener, or from a worker that does not own the session.
      Otherwise the handle becomes a listener, the session listens and is
      registered for read readiness; the result reports the registration
      (the listen call's own return value is overwritten). */
  function Listen(h: Handle, worker: int, sessionWorker: int, listenRv: int, epollRv: int)
    : (r: Checked<ListenOutcome>)
    ensures worker == -1 ==> r == Abort(NoWorker)
    ensures worker != -1 && h.isListener ==> r == Abort(AlreadyListener)
    ensures worker != -1 && !h.isListener && sessionWorker != worker ==> r == Abort(WorkerMismatch)
    ensures r.Ok? <==> worker != -1 && !h.isListener && sessionWorker == worker
    ensures r.Ok? ==> && r.value.handle == h.(isListener := true)
                      && r.value.result == SysResultOf(epollRv)
                      && r.value.calls == [SessionListen(h.sh), EpollAdd(h.sh, EPOLLIN)]
  {
    if worker == -1 then Abort(NoWorker)
    else if h.isListener then Abort(AlreadyListener)
    else if sessionWorker != worker then Abort(WorkerMismatch)
    else Ok(ListenOutcome(h.(isListener := true), SysResultOf(epollRv),
                          [SessionListen(h.sh), EpollAdd(h.sh, Interest(READ))]))
  }

  /** The listener flag only goes from false to true: a second `listen` is
      fatal whatever the foreign layer says. */
  lemma ListenIsOneWay(h: Handle, w: int, rv1: int, rv2: int, rv3: int, rv4: int)
    requires w != -1
    requires Listen(h, w, w, rv1, rv2).Ok?
    ensures Listen(h, w, w, rv1, rv2).value.handle.isListener
    ensures Listen(Listen(h, w, w, rv1, rv2).value.handle, w, w, rv3, rv4) == Abort(AlreadyListener)
  {
  }

  /** Sizes and field offsets of the socket-address structures. */
  const AF_INET: int := 2
  const AF_INET6: int := 10
  const SOCKADDR_IN_SIZE: nat := 16
  const SOCKADDR_IN6_SIZE: nat := 28
  const SIN_ADDR_OFFSET: nat := 4
  const SIN6_ADDR_OFFSET: nat := 8
  const IP4_ADDR_SIZE: nat := 4
  const IP6_ADDR_SIZE: nat := 16

  /** How an endpoint is copied into the caller's socket address: the family
      written, the length reported back, the byte range the address copy
      covers, and the port. */
  datatype CopyPlan = CopyPlan(family: int, addrlen: nat, addrStart: nat, addrCount: nat, port: int)

  function StructSize(isIp4: bool): nat {
    if isIp4 then SOCKADDR_IN_SIZE else SOCKADDR_IN6_SIZE
  }

  /** The address copy stays inside the structure of its family. */
  predicate WithinStruct(p: CopyPlan, isIp4: bool) {
    p.addrStart + p.addrCount <= StructSize(isIp4)
  }

  /** `vclEndptCopy` as the adapter has it: the reported length is clamped to
      the structure size, and that many bytes are copied starting at the
      address field. */
  function EndptCopyAsWritten(isIp4: bool, port: int, addrlen: uint32): (p: CopyPlan)
    ensures p.addrlen == if addrlen < StructSize(isIp4) then addrlen else StructSize(isIp4)
  {
    if isIp4 then
      var len := if SOCKADDR_IN_SIZE <= addrlen then SOCKADDR_IN_SIZE else addrlen;
      CopyPlan(AF_INET, len, SIN_ADDR_OFFSET, len, port)
    else
      var len := if SOCKADDR_IN6_SIZE <= addrlen then SOCKADDR_IN6_SIZE else addrlen;
      CopyPlan(AF_INET6, len, SIN6_ADDR_OFFSET, len, port)
  }

  /** For any caller that passes a full structure, the copy as written runs
      past its end; an IPv4 caller passing 16 bytes shows it. */
  lemma EndptCopyAsWrittenOverruns(isIp4: bool, port: int, addrlen: uint32)
    requires addrlen >= StructSize(isIp4)
    ensures !WithinStruct(EndptCopyAsWritten(isIp4, port, addrlen), isIp4)
    ensures EndptCopyAsWritten(true, 0, 16).addrStart + EndptCopyAsWritten(true, 0, 16).addrCount == 20
  {
  }

  /** `vclEndptCopy` copying exactly the address bytes of the family. */
  function EndptCopy(isIp4: bool, port: int, addrlen: uint32): (p: CopyPlan)
    ensures p.family == (if isIp4 then AF_INET else AF_INET6)
    ensures p.addrlen == if addrlen < StructSize(isIp4) then addrlen else StructSize(isIp4)
    ensures p.addrCount == (if isIp4 then IP4_ADDR_SIZE else IP6_ADDR_SIZE)
    ensures WithinStruct(p, isIp4)
    ensures p.port == port
  {
    var size := StructSize(isIp4);
    var len := if size <= addrlen then size else addrlen;
    if isIp4 then CopyPlan(AF_INET, len, SIN_ADDR_OFFSET, IP4_ADDR_SIZE, port)
    else CopyPlan(AF_INET6, len, SIN6_ADDR_OFFSET, IP6_ADDR_SIZE, port)
  }

  /** The endpoint the foreign accept returns. */
  datatype Endpoint = Endpoint(isIp4: bool, port: int)

  datatype AcceptOutcome = AcceptOutcome(accepted: Option<Handle>, copied: Option<CopyPlan>)

  /** `accept`: fatal without a worker or on a handle that is not a listener.
      A non-negative foreign result is the new session: the peer endpoint is
      copied out and a fresh non-listening handle owns the session; a
      negative result yields no handle. The copy is the corrected one: it
      writes the same family, port and reported length as the adapter's copy
      and only the address bytes differ. */
  function Accept(h: Handle, worker: int, newSh: int32, ep: Endpoint, addrlen: uint32)
    : (r: Checked<AcceptOutcome>)
    ensures r.Abort? <==> worker == -1 || !h.isListener
    ensures r.Abort? ==> r.violation == (if worker == -1 then NoWorker else NotListener)
    ensures r.Ok? && newSh < 0 ==> r.value == AcceptOutcome(None, None)
    ensures r.Ok? && newSh >= 0 ==>
              && r.value.accepted == Some(FromSession(newSh))
              && IsOpen(r.value.accepted.value)
              && r.value.copied == Some(EndptCopy(ep.isIp4, ep.port, addrlen))
    ensures r.Ok? && newSh >= 0 ==>
              var asWritten := EndptCopyAsWritten(ep.isIp4, ep.port, addrlen);
              && r.value.copied.value.family == asWritten.family
              && r.value.copied.value.port == asWritten.port
              && r.value.copied.value.addrlen == asWritten.addrlen
              && r.value.copied.value.addrStart == asWritten.addrStart
  {
    if worker == -1 || !h.isListener then Abort(if worker == -1 then NoWorker else NotListener)
    else if newSh >= 0 then Ok(AcceptOutcome(Some(FromSession(newSh)), Some(EndptCopy(ep.isIp4, ep.port, addrlen))))
    else Ok(AcceptOutcome(None, None))
  }

  /** Accepting is only possible after `listen`: a handle that never
      listened aborts, while a successful `listen` makes `accept` reachable. */
  lemma AcceptNeedsListen(h: Handle, w: int, rv1: int, rv2: int, newSh: int32, ep: Endpoint, addrlen: uint32)
    requires w != -1 && !h.isListener
    ensures Accept(h, w, newSh, ep, addrlen) == Abort(NotListener)
    ensures Accept(Listen(h, w, w, rv1, rv2).value.handle, w, newSh, ep, addrlen).Ok?
  {
  }

  datatype SysOutcome = SysOutcome(result: SysResult, calls: seq<Call>)

  /** `bind`: refused on a handle without a session; fatal without a worker;
      otherwise the foreign bind decides the result. */
  function Bind(h: Handle, worker: int, bindRv: int): (r: Checked<SysOutcome>)
    ensures !IsOpen(h) ==> r == Ok(SysOutcome(BAD_HANDLE, []))
    ensures IsOpen(h) && worker == -1 ==> r == Abort(NoWorker)
    ensures IsOpen(h) && worker != -1 ==> r == Ok(SysOutcome(SysResultOf(bindRv), [SessionBind(h.sh)]))
  {
    if !ShValid(h.sh) then Ok(SysOutcome(BAD_HANDLE, []))
    else if worker == -1 then Abort(NoWorker)
    else Ok(SysOutcome(SysResultOf(bindRv), [SessionBind(h.sh)]))
  }

  /** `connect`: refused on a handle without a session; otherwise the
      foreign connect decides the result. */
  function Connect(h: Handle, connectRv: int): (r: SysOutcome)
    ensures !IsOpen(h) ==> r == SysOutcome(BAD_HANDLE, [])
    ensures IsOpen(h) ==> r == SysOutcome(SysResultOf(connectRv), [SessionConnect(h.sh)])
  {
    if !ShValid(h.sh) then SysOutcome(BAD_HANDLE, [])
    else SysOutcome(SysResultOf(connectRv), [SessionConnect(h.sh)])
  }

  /** `updateEvents`: re-registers the session's interest, translated from
      the host readiness set. */
  function UpdateEvents(h: Handle, events: Mask): (c: Call)
    ensures c.EpollMod? && c.sh == h.sh
    ensures c.interest == Interest(events)
    ensures ReadyOf(c.interest) == events & SUPPORTED
  {
    InterestRoundTrip(events);
    EpollMod(h.sh, Interest(events))
  }

  /** `initializeFileEvent`: registers the session's interest and attaches a
      fresh readiness coalescer. */
  function InitializeFileEvent(h: Handle, events: Mask, latched: bool): (r: (Handle, Call))
    ensures r.0.fileEvent == Some(VclEvent.Create(latched))
    ensures r.0.sh == h.sh && r.0.isListener == h.isListener
    ensures r.1.EpollAdd? && r.1.sh == h.sh && r.1.interest == Interest(events)
    ensures ReadyOf(r.1.interest) == events & SUPPORTED
  {
    InterestRoundTrip(events);
    (h.(fileEvent := Some(VclEvent.Create(latched))), EpollAdd(h.sh, Interest(events)))
  }

  /** `activateFileEvents`: forwards to the coalescer unchanged. */
  function ActivateFileEvents(h: Handle, events: Mask): (r: Checked<(Handle, seq<VclEvent.Effect>)>)
    requires h.fileEvent.Some?
    ensures var step := VclEvent.Activate(h.fileEvent.value, events);
            && (r.Ok? <==> step.Ok?)
            && (r.Abort? ==> r.violation == step.violation)
            && (r.Ok? ==> r.value.0 == h.(fileEvent := Some(step.value.state))
                          && r.value.1 == step.value.effects)
  {
    var step :- VclEvent.Activate(h.fileEvent.value, events);
    Ok((h.(fileEvent := Some(step.state)), step.effects))
  }

  /** `enableFileEvents`: forwards to the coalescer, whose only effect is
      the handle re-registering its interest. */
  function EnableFileEvents(h: Handle, events: Mask): (r: (Handle, Call))
    requires h.fileEvent.Some?
    ensures r.0 == h
    ensures r.1 == UpdateEvents(h, events)
  {
    var step := VclEvent.SetEnabled(h.fileEvent.value, events);
    assert step.effects == [VclEvent.InterestUpdate(events)];
    (h.(fileEvent := Some(step.state)), UpdateEvents(h, step.effects[0].events))
  }

  /** `resetFileEvents`: drops the coalescer and nothing else. */
  function ResetFileEvents(h: Handle): (h': Handle)
    ensures h'.fileEvent.None? && h'.sh == h.sh && h'.isListener == h.isListener
  {
    h.(fileEvent := None)
  }

  /** File events pass through the handle: activations through the handle
      keep the coalescer's invariant and never disturb the session or the
      listener flag. */
  lemma ForwardingKeepsCoalescerValid(h: Handle, events: Mask)
    requires h.fileEvent.Some? && VclEvent.Valid(h.fileEvent.value)
    requires ValidEvents(events)
    ensures ActivateFileEvents(h, events).Ok?
    ensures var h' := ActivateFileEvents(h, events).value.0;
            h'.sh == h.sh && h'.isListener == h.isListener
            && h'.fileEvent.Some? && VclEvent.Valid(h'.fileEvent.value)
  {
  }

  const O_NONBLOCK: int := 0x800

  /** `setBlocking`: whatever is asked, the session is made non-blocking. */
  function SetBlocking(h: Handle, blocking: bool, attrRv: int): (r: SysOutcome)
    ensures r.calls == [SetFlags(h.sh, O_NONBLOCK)]
    ensures r.result == SysResultOf(attrRv)
  {
    SysOutcome(SysResultOf(attrRv), [SetFlags(h.sh, O_NONBLOCK)])
  }

  /** `domain`: always IPv4. */
  function Domain(h: Handle): Option<int> {
    Some(AF_INET)
  }

  /** `shutdown` and `ioctl`: accepted without effect. */
  function Shutdown(h: Handle, how: int): SysResult {
    SysResult(0, 0)
  }

  function Ioctl(h: Handle, controlCode: int): SysResult {
    SysResult(0, 0)
  }

  function SupportsUdpGro(h: Handle): bool {
    false
  }

  function SupportsMmsg(h: Handle): bool {
    false
  }

  /** The answers that do not depend on the session: `setBlocking` ignores
      its argument, `domain` is IPv4 even for IPv6 sessions or no session,
      `shutdown` and `ioctl` succeed, and neither UDP GRO nor multi-message
      I/O is supported. */
  lemma FixedAnswers(h: Handle, g: Handle, blocking: bool, rv: int, how: int, code: int)
    requires g.sh == h.sh
    ensures SetBlocking(h, blocking, rv) == SetBlocking(g, !blocking, rv)
    ensures Domain(h) == Domain(g) == Some(AF_INET)
    ensures Shutdown(h, how) == Ioctl(h, code) == SysResult(0, 0)
    ensures !SupportsUdpGro(h) && !SupportsMmsg(h)
  {
  }
}
