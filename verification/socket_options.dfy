/** Socket options: the `(level, optname)` table that `setOption` and
    `getOption` translate into foreign session attributes, and the options
    they answer themselves. */
module SocketOptions {
  import opened Outcomes
  import opened Options
  import opened VclApi

  /** Linux option levels and names. */
  const SOL_SOCKET: int := 1
  const SOL_TCP: int := 6
  const SOL_IPV6: int := 41

  const TCP_NODELAY: int := 1
  const TCP_MAXSEG: int := 2
  const TCP_CORK: int := 3
  const TCP_KEEPIDLE: int := 4
  const TCP_KEEPINTVL: int := 5
  const TCP_INFO: int := 11
  const TCP_CONGESTION: int := 13

  const IPV6_V6ONLY: int := 26

  const SO_REUSEADDR: int := 2
  const SO_ERROR: int := 4
  const SO_BROADCAST: int := 6
  const SO_SNDBUF: int := 7
  const SO_RCVBUF: int := 8
  const SO_KEEPALIVE: int := 9
  const SO_ACCEPTCONN: int := 30
  const SO_PROTOCOL: int := 38

  const SOCK_STREAM: int := 1
  const SOCK_DGRAM: int := 2

  /** Size of the C library's `struct tcp_info`. */
  const TCP_INFO_SIZE: int := 104

  /** The congestion-control name `getOption` always reports. */
  const CONGESTION_NAME: string := "cubic"

  /** Foreign session attributes the options map to. */
  datatype Attr =
    | SetTcpNodelay | SetTcpUserMss | SetTcpKeepidle | SetTcpKeepintvl
    | SetV6only | SetKeepalive | SetReuseaddr | SetBroadcast
    | GetTcpNodelay | GetTcpUserMss | GetTcpKeepidle | GetTcpKeepintvl
    | GetV6only | GetListen | GetKeepalive | GetProtocol
    | GetTxFifoLen | GetRxFifoLen | GetReuseaddr | GetBroadcast | GetError

  /** The attribute `setOption` sets for an option, as its nested switch
      selects it. */
  function SetAttr(level: int, optname: int): Option<Attr> {
    if level == SOL_TCP then
      if optname == TCP_NODELAY then Some(SetTcpNodelay)
      else if optname == TCP_MAXSEG then Some(SetTcpUserMss)
      else if optname == TCP_KEEPIDLE then Some(SetTcpKeepidle)
      else if optname == TCP_KEEPINTVL then Some(SetTcpKeepintvl)
      else None
    else if level == SOL_IPV6 then
      if optname == IPV6_V6ONLY then Some(SetV6only) else None
    else if level == SOL_SOCKET then
      if optname == SO_KEEPALIVE then Some(SetKeepalive)
      else if optname == SO_REUSEADDR then Some(SetReuseaddr)
      else if optname == SO_BROADCAST then Some(SetBroadcast)
      else None
    else None
  }

  /** The attribute `getOption` reads for a pass-through option. */
  function GetAttr(level: int, optname: int): Option<Attr> {
    if level == SOL_TCP then
      if optname == TCP_NODELAY then Some(GetTcpNodelay)
      else if optname == TCP_MAXSEG then Some(GetTcpUserMss)
      else if optname == TCP_KEEPIDLE then Some(GetTcpKeepidle)
      else if optname == TCP_KEEPINTVL then Some(GetTcpKeepintvl)
      else None
    else if level == SOL_IPV6 then
      if optname == IPV6_V6ONLY then Some(GetV6only) else None
    else if level == SOL_SOCKET then
      if optname == SO_ACCEPTCONN then Some(GetListen)
      else if optname == SO_KEEPALIVE then Some(GetKeepalive)
      else if optname == SO_PROTOCOL then Some(GetProtocol)
      else if optname == SO_SNDBUF then Some(GetTxFifoLen)
      else if optname == SO_RCVBUF then Some(GetRxFifoLen)
      else if optname == SO_REUSEADDR then Some(GetReuseaddr)
      else if optname == SO_BROADCAST then Some(GetBroadcast)
      else if optname == SO_ERROR then Some(GetError)
      else None
    else None
  }

  /** The option table of the adapter's documentation, as data. */
  const SET_TABLE: map<(int, int), Attr> := map[
    (SOL_TCP, TCP_NODELAY) := SetTcpNodelay,
    (SOL_TCP, TCP_MAXSEG) := SetTcpUserMss,
    (SOL_TCP, TCP_KEEPIDLE) := SetTcpKeepidle,
    (SOL_TCP, TCP_KEEPINTVL) := SetTcpKeepintvl,
    (SOL_IPV6, IPV6_V6ONLY) := SetV6only,
    (SOL_SOCKET, SO_KEEPALIVE) := SetKeepalive,
    (SOL_SOCKET, SO_REUSEADDR) := SetReuseaddr,
    (SOL_SOCKET, SO_BROADCAST) := SetBroadcast
  ]

  const GET_TABLE: map<(int, int), Attr> := map[
    (SOL_TCP, TCP_NODELAY) := GetTcpNodelay,
    (SOL_TCP, TCP_MAXSEG) := GetTcpUserMss,
    (SOL_TCP, TCP_KEEPIDLE) := GetTcpKeepidle,
    (SOL_TCP, TCP_KEEPINTVL) := GetTcpKeepintvl,
    (SOL_IPV6, IPV6_V6ONLY) := GetV6only,
    (SOL_SOCKET, SO_ACCEPTCONN) := GetListen,
    (SOL_SOCKET, SO_KEEPALIVE) := GetKeepalive,
    (SOL_SOCKET, SO_PROTOCOL) := GetProtocol,
    (SOL_SOCKET, SO_SNDBUF) := GetTxFifoLen,
    (SOL_SOCKET, SO_RCVBUF) := GetRxFifoLen,
    (SOL_SOCKET, SO_REUSEADDR) := GetReuseaddr,
    (SOL_SOCKET, SO_BROADCAST) := GetBroadcast,
    (SOL_SOCKET, SO_ERROR) := GetError
  ]

  function Lookup(table: map<(int, int), Attr>, level: int, optname: int): Option<Attr> {
    if (level, optname) in table then Some(table[(level, optname)]) else None
  }

  /** The switch in `setOption` selects exactly the table's attribute, and
      nothing for any pair outside the table. */
  lemma SetAttrMatchesTable(level: int, optname: int)
    ensures SetAttr(level, optname) == Lookup(SET_TABLE, level, optname)
  {
  }

  /** The switch in `getOption` selects exactly the table's attribute for the
      pass-through options. */
  lemma GetAttrMatchesTable(level: int, optname: int)
    ensures GetAttr(level, optname) == Lookup(GET_TABLE, level, optname)
  {
  }

  /** What `setOption` returns and the foreign attribute it set, if any. */
  datatype SetOutcome = SetOutcome(result: SysResult, call: Option<Attr>)

  /** `setOption`: an invalid handle is refused; a mapped option is passed to
      the foreign attribute call whose return value `attrRv` decides the
      result; every other option, TCP_CONGESTION and TCP_CORK included, is
      accepted without any foreign call. */
  function SetOption(sh: uint32, level: int, optname: int, attrRv: int): (r: SetOutcome)
    ensures !ShValid(sh) ==> r == SetOutcome(BAD_HANDLE, None)
    ensures ShValid(sh) ==> r.call == Lookup(SET_TABLE, level, optname)
    ensures ShValid(sh) && r.call.Some? ==> r.result == SysResultOf(attrRv)
    ensures ShValid(sh) && r.call.None? ==> r.result == SysResult(0, 0)
  {
    SetAttrMatchesTable(level, optname);
    if !ShValid(sh) then SetOutcome(BAD_HANDLE, None)
    else
      var attr := SetAttr(level, optname);
      var rv := if attr.Some? then attrRv else 0;
      SetOutcome(SysResultOf(rv), attr)
  }

  /** What `getOption` leaves in the caller's value buffer. */
  datatype OptValue =
    | Untouched                 // nothing written
    | FromAttr                  // whatever the foreign attribute call wrote
    | IntValue(v: int)          // one int written by the adapter
    | Text(s: string)           // a NUL-terminated string written by the adapter
    | Zeroed(n: nat)            // n zero bytes written by the adapter

  /** The caller's output pointers: whether the value pointer is non-null,
      and the length pointer's target (None when the pointer is null). */
  datatype OptBuffer = OptBuffer(hasValue: bool, optlen: Option<int>)

  /** What `getOption` returns, the attribute it read and what it wrote. */
  datatype GetOutcome = GetOutcome(result: SysResult, call: Option<Attr>, value: OptValue, optlen: Option<int>)

  /** `getOption`. `attrRv` is the foreign attribute call's return value and
      `attrValue` the int the value buffer holds after that call. */
  function GetOption(sh: uint32, level: int, optname: int, buf: OptBuffer, attrRv: int, attrValue: int)
    : (r: Checked<GetOutcome>)
    ensures !ShValid(sh) ==> r == Ok(GetOutcome(BAD_HANDLE, None, Untouched, buf.optlen))
    ensures ShValid(sh) && (level, optname) in GET_TABLE && optname != SO_PROTOCOL ==>
              r == Ok(GetOutcome(SysResultOf(attrRv), Some(GET_TABLE[(level, optname)]), FromAttr, buf.optlen))
    ensures ShValid(sh) && level == SOL_SOCKET && optname == SO_PROTOCOL ==>
              if !buf.hasValue then r == Abort(NullDereference)
              else r == Ok(GetOutcome(SysResultOf(attrRv), Some(GetProtocol),
                                      IntValue(if attrValue != 0 then SOCK_DGRAM else SOCK_STREAM), buf.optlen))
    ensures ShValid(sh) && level == SOL_TCP && optname == TCP_CONGESTION ==>
              if !buf.hasValue || buf.optlen.None? then r == Abort(NullDereference)
              else r == Ok(GetOutcome(SysResult(0, 0), None, Text(CONGESTION_NAME), Some(|CONGESTION_NAME|)))
    ensures ShValid(sh) && level == SOL_TCP && optname == TCP_INFO ==>
              r.Ok? && r.value.call.None? && r.value.optlen == buf.optlen &&
              if buf.hasValue && buf.optlen == Some(TCP_INFO_SIZE)
              then r.value.result == SysResult(0, 0) && r.value.value == Zeroed(TCP_INFO_SIZE)
              else r.value.result == SysResult(-1, EFAULT) && r.value.value == Untouched
    ensures ShValid(sh) && (level, optname) !in GET_TABLE
            && (level, optname) != (SOL_TCP, TCP_CONGESTION) && (level, optname) != (SOL_TCP, TCP_INFO) ==>
              r == Ok(GetOutcome(SysResult(0, 0), None, Untouched, buf.optlen))
  {
    GetAttrMatchesTable(level, optname);
    if !ShValid(sh) then Ok(GetOutcome(BAD_HANDLE, None, Untouched, buf.optlen))
    else if level == SOL_TCP && optname == TCP_INFO then
      if buf.hasValue && buf.optlen.Some? && buf.optlen.value == TCP_INFO_SIZE then
        Ok(GetOutcome(SysResultOf(VPPCOM_OK), None, Zeroed(buf.optlen.value), buf.optlen))
      else
        Ok(GetOutcome(SysResultOf(-EFAULT), None, Untouched, buf.optlen))
    else if level == SOL_TCP && optname == TCP_CONGESTION then
      if buf.optlen.None? || !buf.hasValue then Abort(NullDereference)
      else Ok(GetOutcome(SysResultOf(0), None, Text(CONGESTION_NAME), Some(|CONGESTION_NAME|)))
    else if level == SOL_SOCKET && optname == SO_PROTOCOL then
      if !buf.hasValue then Abort(NullDereference)
      else
        var proto := if attrValue != 0 then SOCK_DGRAM else SOCK_STREAM;
        Ok(GetOutcome(SysResultOf(attrRv), Some(GetProtocol), IntValue(proto), buf.optlen))
    else
      var attr := GetAttr(level, optname);
      var rv := if attr.Some? then attrRv else 0;
      Ok(GetOutcome(SysResultOf(rv), attr, if attr.Some? then FromAttr else Untouched, buf.optlen))
  }

  /** Whatever the session's state, asking for TCP_CONGESTION through valid
      pointers yields "cubic" with length 5 and success. */
  lemma CongestionIsAlwaysCubic(sh: uint32, buf: OptBuffer, rv1: int, v1: int, rv2: int, v2: int)
    requires ShValid(sh) && buf.hasValue && buf.optlen.Some?
    ensures GetOption(sh, SOL_TCP, TCP_CONGESTION, buf, rv1, v1) == GetOption(sh, SOL_TCP, TCP_CONGESTION, buf, rv2, v2)
    ensures GetOption(sh, SOL_TCP, TCP_CONGESTION, buf, rv1, v1).value.value == Text("cubic")
    ensures GetOption(sh, SOL_TCP, TCP_CONGESTION, buf, rv1, v1).value.optlen == Some(5)
  {
  }

  /** Options `setOption` ignores leave the foreign attributes alone and
      report success, whatever the foreign layer would have answered. */
  lemma IgnoredOptionsSucceed(sh: uint32, optname: int, attrRv: int)
    requires ShValid(sh)
    requires optname == TCP_CORK || optname == TCP_CONGESTION
    ensures SetOption(sh, SOL_TCP, optname, attrRv) == SetOutcome(SysResult(0, 0), None)
  {
  }
}
