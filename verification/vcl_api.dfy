/** The boundary to the foreign session library: integer widths, its error
    codes, the session-handle sentinel, and the two ways the adapter turns a
    foreign return value into a host result. */
module VclApi {
  import opened Outcomes

  type uint32 = x: int | 0 <= x < 0x1_0000_0000
  type int32 = x: int | -0x8000_0000 <= x < 0x8000_0000

  const TWO_TO_THE_64: int := 0x1_0000_0000_0000_0000

  /** Linux errno values the adapter uses. */
  const EAGAIN: int := 11
  const EFAULT: int := 14
  const EINVAL: int := 22
  const EBADFD: int := 77

  /** The foreign library reports errors as negated errno values. */
  const VPPCOM_OK: int32 := 0
  const VPPCOM_EAGAIN: int32 := -EAGAIN
  const VPPCOM_EINVAL: int32 := -EINVAL
  const VPPCOM_EBADFD: int32 := -EBADFD

  /** The all-ones 32-bit session handle marks "no session". */
  const INVALID_SH: uint32 := 0xFFFF_FFFF

  predicate ShValid(sh: uint32) {
    sh != INVALID_SH
  }

  /** The session handle a write of the "invalid" sentinel leaves behind. */
  function InvalidatedSh(sh: uint32): (r: uint32)
    ensures !ShValid(r)
    ensures forall other: uint32 :: !ShValid(other) ==> other == r
  {
    INVALID_SH
  }

  /** Conversion of a C `int` into the `uint64_t` result count. */
  function Wrap64(x: int32): (r: nat)
    ensures r < TWO_TO_THE_64
    ensures (r - x) % TWO_TO_THE_64 == 0
  {
    if x >= 0 then x else x + TWO_TO_THE_64
  }

  /** The error half of a host I/O result: none, the shared EAGAIN instance,
      or a freshly allocated error carrying a positive errno. */
  datatype IoErr = NoError | EagainSingleton | SocketError(errno: int)

  /** The host's I/O call result: a byte count and an error. */
  datatype IoCallResult = IoCallResult(rc: nat, err: IoErr) {
    predicate Ok() {
      err == NoError
    }
  }

  /** Translation of a foreign return value into a host I/O result. A
      non-negative value is a byte count; VPPCOM_EINVAL is fatal; VPPCOM_EAGAIN
      reuses the shared would-block error; every other negative value becomes a
      new error carrying its magnitude. */
  function ToIoCallResult(result: int): (r: Checked<IoCallResult>)
    ensures r.Abort? <==> result == VPPCOM_EINVAL
    ensures r.Abort? ==> r.violation == InvalidArgument
    ensures r.Ok? ==> (r.value.Ok() <==> result >= 0)
    ensures r.Ok? && r.value.Ok() ==> r.value.rc == result
    ensures r.Ok? && !r.value.Ok() ==> r.value.rc == 0
    ensures r.Ok? ==> (r.value.err == EagainSingleton <==> result == VPPCOM_EAGAIN)
    ensures r.Ok? && r.value.err.SocketError? ==> r.value.err.errno > 0
  {
    if result >= 0 then
      Ok(IoCallResult(result, NoError))
    else if result == VPPCOM_EINVAL then
      Abort(InvalidArgument)
    else if result == VPPCOM_EAGAIN then
      Ok(IoCallResult(0, EagainSingleton))
    else
      Ok(IoCallResult(0, SocketError(-result)))
  }

  /** Reference decoding of a host I/O result back into the foreign code it
      stands for. */
  function FromIoCallResult(r: IoCallResult): int {
    match r.err
    case NoError => r.rc
    case EagainSingleton => VPPCOM_EAGAIN
    case SocketError(e) => -e
  }

  /** No foreign return value other than VPPCOM_EINVAL loses information in
      translation. */
  lemma IoCallResultRoundTrip(result: int)
    requires result != VPPCOM_EINVAL
    ensures ToIoCallResult(result).Ok?
    ensures FromIoCallResult(ToIoCallResult(result).value) == result
  {
  }

  /** The host's system-call result: a return code and an errno. */
  datatype SysResult = SysResult(rc: int, errno: int)

  /** The adapter's `{rv < 0 ? -1 : 0, -rv}` convention. */
  function SysResultOf(rv: int): (r: SysResult)
    ensures r.rc == -1 || r.rc == 0
    ensures r.rc == -1 <==> rv < 0
    ensures r.rc == 0 ==> r.errno <= 0
    ensures -r.errno == rv
  {
    SysResult(if rv < 0 then -1 else 0, -rv)
  }

  /** The result an operation on an invalid handle reports: the errno field
      carries VPPCOM_EBADFD itself, a negative number. */
  const BAD_HANDLE: SysResult := SysResult(-1, VPPCOM_EBADFD)
}
