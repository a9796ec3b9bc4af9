# VPP/VCL session adapter: readiness coalescing and session I/O

This project models, in Dafny, two pieces of sequential logic from the
adapter that lets a proxy use VPP's VCL session library in place of
kernel sockets:

- **`VclEvent`**, the readiness-event coalescer. The state is the
  accumulator of injected events plus the "activation callback armed"
  flag. `activate` runs the host callback at once. When the accumulator
  was empty it also arms a next-iteration callback, and it ORs the events
  into the accumulator. When the armed callback runs, it delivers the
  whole accumulator once and clears it.
- **`VclIoHandle`**, the session I/O handle, covering:
  - handle validity via the all-ones sentinel, and the close lifecycle;
  - the one-way listener flag;
  - the mapping of foreign return codes to host results;
  - the accumulation rules of `readv`, `writev`, `write` and `sendmsg`;
  - the segment-to-fragment accounting of `read`;
  - the `(level, optname)` option tables;
  - interest-mask translation;
  - the `accept` address copy-out;
  - the fixed answers of the trivial overrides.

Every call into the foreign `vppcom_*` library is a parameter: a return
value, or one "offer" per call. A negative offer is the error code the call
returns. A non-negative offer is the number of bytes the session could
transfer; the call moves at most as many bytes as were requested. The host
dispatcher's schedulable callback is the `armed` flag. `NextIteration` is
one loop turn, and it runs the callback when the flag is armed. A failed
`RELEASE_ASSERT`, a failed debug `ASSERT` or a write through a null output
pointer ends the process. The model writes this as `Abort(violation)` in
`Outcomes.Checked`, so every operation stays total. The debug assertions of
the coalescer count as aborts too, and the lemmas show that none of them can
fire while the coalescer's invariant holds.

Modules: `Outcomes` (fatal outcomes), `Options` (optional values), `VclApi` (integer widths, error codes,
sentinel, result mappings), `Readiness` (event masks and epoll interest),
`VclEvent`, `SliceIo` (vectorised and segmented I/O), `SocketOptions`,
`VclIoHandle`.

The constants are the Linux values the code is built against:
- `VPPCOM_E*` codes: the negated errno.
- epoll flags: `EPOLLIN` 0x1, `EPOLLOUT` 0x4, `EPOLLERR` 0x8, `EPOLLHUP` 0x10.
- readiness bits: Read 0x1, Write 0x2, Closed 0x4.
- the option levels and names.
- `O_NONBLOCK` 0x800.
- `sizeof(struct tcp_info)` is 104, the C library's definition. No property depends on that value.

Two behaviours of the code are modelled literally:
- `setOption`, `getOption`, `bind` and `connect` on an invalid handle put
  `VPPCOM_EBADFD`, a negative number, into the errno field.
- `listen` overwrites the listen call's return value with the epoll
  registration's, so only the registration decides the result.

## Model

| member | source | states |
|---|---|---|
| VclApi.InvalidatedSh | vcl/vcl_io_handle.h:20-22 | writing the sentinel leaves a handle that is not valid, and the sentinel is the only invalid value |
| VclApi.ToIoCallResult | vcl/vcl_io_handle.h:103-117 | fatal exactly for VPPCOM_EINVAL; a non-negative value is the count with no error; VPPCOM_EAGAIN gives count 0 with the shared would-block error; any other negative value gives count 0 with an error carrying a positive errno |
| VclApi.IoCallResultRoundTrip | vcl/vcl_io_handle.h:103-117 | every foreign value except VPPCOM_EINVAL can be recovered from its host result, so the mapping loses nothing |
| VclApi.SysResultOf | vcl/vcl_io_handle.cc:460 | the `{rv<0 ? -1 : 0, -rv}` convention: rc is -1 exactly for negative rv, and the errno field is the negated foreign value |
| Readiness.Interest | vcl/vcl_io_handle.cc:595-609 | EPOLLIN is set iff Read is set, EPOLLOUT iff Write is set, and both EPOLLERR and EPOLLHUP iff Closed is set; no other flag is ever set |
| Readiness.InterestRoundTrip | vcl/vcl_io_handle.cc:597-608 | decoding the registered interest gives back exactly the supported part of the requested set; unsupported bits do not change the registration |
| Readiness.InterestInjective | vcl/vcl_io_handle.cc:597-608 | two different supported readiness sets never register the same interest |
| VclEvent.Create | vcl/vcl_event.h:37-39 | a new coalescer has nothing pending and nothing armed, so it satisfies the armed-iff-pending invariant |
| VclEvent.Activate | vcl/vcl_event.cc:20-38 | an empty or unsupported event set aborts; from a valid state activation cannot abort; the host callback runs first and exactly once with exactly `events`; the callback is armed once if nothing was pending and not again otherwise; afterwards it is armed, the accumulator is the old one OR `events`, non-zero, and the invariant holds |
| VclEvent.SetEnabled | vcl/vcl_event.cc:40 | the only effect is an interest update on the owning handle; pending events and the armed flag are unchanged, and no callback runs or is scheduled |
| VclEvent.Merge | vcl/vcl_event.cc:42-49 | the callback runs exactly once, with `events` OR the accumulator; the accumulator ends empty; a non-empty accumulator is disarmed with a cancel; an empty one leaves everything as it was and delivers `events` unchanged |
| VclEvent.NextIteration | vcl/vcl_event.cc:12-15 | nothing happens when the callback is not armed; an armed callback with an empty accumulator aborts, which cannot happen from a valid state; otherwise it delivers exactly the accumulator, leaves the coalescer empty and disarmed, and keeps the invariant |
| VclEvent.UnionHasBit | vcl/vcl_event.cc:37 | a bit is in the OR of a sequence of event sets exactly when some set in the sequence has it |
| VclEvent.ActivateAllAccumulates | vcl/vcl_event.cc:26-37 | any run of valid activations keeps the invariant and delivers each set synchronously, in order; it arms the callback once if nothing was pending before and never otherwise; the accumulator ends as the old one OR every set |
| VclEvent.CoalescedDelivery | vcl/vcl_event.cc:30-48 | from a quiet coalescer, N valid activations before the loop advances arm the callback exactly once; the next iteration delivers one set, the OR of all N, and the coalescer is quiet again |
| VclEvent.PassiveOperationsKeepPending | vcl/vcl_event.cc:40-53 | `setEnabled` and the emulated-edge hooks never change pending events or the armed flag, and never run the callback |
| VclEvent.LatchedNeverChanges | vcl/vcl_event.h:40-43 | no operation changes the next-iteration toggle latched at construction |
| SliceIo.ReadvStopsOnError | vcl/vcl_io_handle.cc:142-153 | when the read of slice `i` fails, `readv` reports the bytes already read, or the failure code when there are none |
| SliceIo.ReadvStopsWhenFull | vcl/vcl_io_handle.cc:142-153 | when a read brings the total to `max_length`, `readv` reports `max_length` |
| SliceIo.ReadvStopsAtEnd | vcl/vcl_io_handle.cc:142-153 | when every slice was read without failure and under the cap, `readv` reports the total read |
| SliceIo.FirstFill | vcl/vcl_io_handle.cc:142-152 | among the slices before the first failure, the first whose read brings the total to `max_length`: every earlier slice leaves the total below it |
| SliceIo.ReadvContinues | vcl/vcl_io_handle.cc:145-151 | a read that neither fails nor fills `max_length` is not the last one |
| SliceIo.Readv | vcl/vcl_io_handle.cc:131-156 | an invalid handle yields the EBADFD error with no foreign call; on a valid handle exactly one read is issued per slice up to and including the one that fails or fills `max_length` (all slices when none does); each read asks for its slice's length cut down to what remains under `max_length`; each read starts where the previous one ended; the result is the bytes the slices before the first failure could take, capped at `max_length`; when that is 0 the result is the failure code if the loop reached it, else 0 |
| SliceIo.Writev | vcl/vcl_io_handle.cc:186-206 | an invalid handle yields the EBADFD error with no foreign write; otherwise each slice up to and including the first failing one is written with its whole length, and no later slice is written; the result is the bytes the slices before the first failing write took; when that is 0 the result is the failure code, or 0 when nothing failed |
| SliceIo.Write | vcl/vcl_io_handle.cc:208-216 | at most 16 slices are written; on success with rc > 0 exactly rc bytes, no more than the buffer holds, are drained from it; otherwise the buffer is untouched |
| SliceIo.KeptCarriesAllData | vcl/vcl_io_handle.cc:235-241 | skipping null and zero-length slices drops no byte of any non-null slice |
| SliceIo.SendFromShape | vcl/vcl_io_handle.cc:248-265 | the send loop stops at the first failing write; every slice up to there is written with its own length; the last kept slice, and only that one, uses the flushing write; on failure the stored value is the failure code if nothing was written yet, else the byte count |
| SliceIo.SendmsgAsWrittenReportsZero | vcl/vcl_io_handle.cc:247-267 | as written, a `sendmsg` whose writes all succeed reports 0 bytes, whatever was written |
| SliceIo.SendmsgLostCountExample | vcl/vcl_io_handle.cc:247-267 | one 5-byte slice written in full: as written the call reports 0 bytes, the corrected version reports 5 |
| SliceIo.SendmsgMatchesWritev | vcl/vcl_io_handle.cc:224-267 | the corrected `sendmsg` reports exactly what `writev` over the kept slices reports; with nothing to send it makes no foreign call; the last kept slice, and only that one, uses the flushing write |
| SliceIo.TakeFragments | vcl/vcl_io_handle.cc:167-181 | fragments wrap segments in order, tagged with the session; the shortest prefix of segments that covers the byte count is wrapped |
| SliceIo.Read | vcl/vcl_io_handle.cc:158-184 | the result is the mapped foreign value; a failure or a zero count produces no fragments; the fragments are the shortest in-order prefix of the segments covering `rv` bytes, each releasing its own length on its own session |
| SliceIo.ReadCoversAllSegments | vcl/vcl_io_handle.cc:167-181 | when the segments hold exactly `rv` bytes and none is empty, there is one fragment per segment and the fragments hold exactly `rv` bytes |
| SocketOptions.SetAttrMatchesTable | vcl/vcl_io_handle.cc:400-458 | the `setOption` switch selects exactly the documented attribute for each mapped `(level, optname)` pair and nothing for any other pair |
| SocketOptions.GetAttrMatchesTable | vcl/vcl_io_handle.cc:471-551 | the `getOption` switch selects exactly the documented attribute for each pass-through pair and nothing for any other pair |
| SocketOptions.SetOption | vcl/vcl_io_handle.cc:392-461 | an invalid handle gives `{-1, VPPCOM_EBADFD}` with no call; a mapped option calls its attribute, and the result follows the `{rv<0?-1:0, -rv}` convention; every other option, TCP_CONGESTION and TCP_CORK included, succeeds with no foreign call |
| SocketOptions.GetOption | vcl/vcl_io_handle.cc:463-553 | an invalid handle gives `{-1, VPPCOM_EBADFD}` with nothing written; pass-through options return the attribute's result; SO_PROTOCOL reads the protocol attribute, passes its result on, leaves the length alone and writes DGRAM for a non-zero protocol and STREAM for zero; TCP_CONGESTION writes "cubic" and length 5; TCP_INFO leaves the length alone, zero-fills and succeeds only for non-null pointers and exactly sizeof(tcp_info), else fails with EFAULT; null pointers that are written through abort; unmapped options succeed untouched |
| SocketOptions.CongestionIsAlwaysCubic | vcl/vcl_io_handle.cc:495-499 | for any foreign state, TCP_CONGESTION yields the same answer: "cubic", length 5 |
| SocketOptions.IgnoredOptionsSucceed | vcl/vcl_io_handle.cc:419-423 | TCP_CORK and TCP_CONGESTION succeed without touching any foreign attribute, whatever the foreign layer would answer |
| VclIoHandle.FromFd | vcl/vcl_io_handle.h:30-32 | the default descriptor leaves the handle with no session; a non-negative descriptor becomes a valid handle; never a listener |
| VclIoHandle.FromSession | vcl/vcl_io_handle.h:34 | a handle built for a session holds that session and is not a listener |
| VclIoHandle.DefaultHandleIsClosed | vcl/vcl_io_handle.h:97-100 | a default-constructed handle is not open and not a listener |
| VclIoHandle.Close | vcl/vcl_io_handle.cc:120-129 | fatal exactly when the handle has no session; otherwise the handle is left with no session, so `isOpen` is false; no error is ever reported and the count is the unsigned conversion of the foreign return; nothing else changes |
| VclIoHandle.Destroy | vcl/vcl_io_handle.cc:114-118 | destruction is never fatal and always leaves the handle closed; an already-closed handle is untouched |
| VclIoHandle.CloseIsOneShot | vcl/vcl_io_handle.cc:120-129 | close on an open handle succeeds, after it `isOpen` is false, and a second close is fatal |
| VclIoHandle.Listen | vcl/vcl_io_handle.cc:338-357 | aborts with no worker, on a listener, or when the session's worker is not the caller's; these are the only aborts; otherwise the handle becomes a listener, the session listens and registers for read readiness, and the result reports the registration |
| VclIoHandle.ListenIsOneWay | vcl/vcl_io_handle.cc:343-346 | after a successful `listen` the handle is a listener, and a second `listen` is fatal whatever the foreign layer answers |
| VclIoHandle.EndptCopyAsWritten | vcl/vcl_io_handle.cc:48-62 | the reported length is the caller's length clamped to the family's structure size |
| VclIoHandle.EndptCopyAsWrittenOverruns | vcl/vcl_io_handle.cc:52-59 | whenever the caller passes a full structure, the address copy as written runs past the structure's end; IPv4 with length 16 copies up to byte 20 |
| VclIoHandle.EndptCopy | vcl/vcl_io_handle.cc:48-62 | writes the family's tag and the port; clamps the reported length to the structure size; copies exactly the 4 or 16 address bytes, all inside the structure |
| VclIoHandle.Accept | vcl/vcl_io_handle.cc:359-377 | aborts exactly when there is no worker or the handle is not a listener; a non-negative foreign result becomes a fresh, open, non-listening handle, and the endpoint is copied out with the family, port, reported length and start offset of the adapter's copy; a negative result gives no handle and copies nothing |
| VclIoHandle.AcceptNeedsListen | vcl/vcl_io_handle.cc:361 | `accept` on a handle that never listened is fatal, and after a successful `listen` it is not |
| VclIoHandle.Bind | vcl/vcl_io_handle.cc:324-336 | an invalid handle gives `{-1, VPPCOM_EBADFD}` with no call; no worker is fatal; otherwise the foreign bind's value decides the result |
| VclIoHandle.Connect | vcl/vcl_io_handle.cc:379-390 | an invalid handle gives `{-1, VPPCOM_EBADFD}` with no call; otherwise one foreign connect, whose return value gives the `{rv<0?-1:0, -rv}` result |
| VclIoHandle.UpdateEvents | vcl/vcl_io_handle.cc:595-614 | modifies the registration of this session to exactly the epoll interest of the requested set, which decodes back to its supported part |
| VclIoHandle.InitializeFileEvent | vcl/vcl_io_handle.cc:616-641 | adds exactly the epoll interest of the requested set for the session, and attaches a fresh coalescer; session and listener flag are unchanged |
| VclIoHandle.ActivateFileEvents | vcl/vcl_io_handle.h:84 | forwards unchanged to the coalescer's `activate`: same abort, same effects, new coalescer state stored |
| VclIoHandle.EnableFileEvents | vcl/vcl_io_handle.h:85 | the handle is unchanged and the only effect is the interest update `updateEvents` performs |
| VclIoHandle.ResetFileEvents | vcl/vcl_io_handle.h:86 | drops the coalescer and keeps the session and the listener flag |
| VclIoHandle.ForwardingKeepsCoalescerValid | vcl/vcl_event.cc:20-38 | valid activations through the handle never abort; they keep the coalescer's invariant and leave the session and the listener flag alone |
| VclIoHandle.SetBlocking | vcl/vcl_io_handle.cc:560-565 | always sets O_NONBLOCK on the session, whatever is asked, and that call's return value gives the `{rv<0?-1:0, -rv}` result |
| VclIoHandle.FixedAnswers | vcl/vcl_io_handle.cc:555-570 | `setBlocking` ignores its argument; `domain` is AF_INET for every handle; `shutdown` and `ioctl` return `{0, 0}`; UDP GRO and multi-message I/O are unsupported |

## Findings

| source | as written | input that shows it | evidently intended | confidence | as-written member | corrected member |
|---|---|---|---|---|---|---|
| vcl/vcl_io_handle.cc:247-267 | `result` is assigned only on a failed write, so a fully successful `sendmsg` returns 0 bytes | one slice of 5 bytes, written in full | return the bytes written, as `writev` does | high; not executed | SliceIo.SendmsgAsWritten (SliceIo.SendmsgAsWrittenReportsZero, SliceIo.SendmsgLostCountExample) | SliceIo.Sendmsg (SliceIo.SendmsgMatchesWritev) |
| vcl/vcl_io_handle.cc:52-59 | the copy starts at the address field but moves the clamped structure length, so it writes past the end of `sockaddr_in`/`sockaddr_in6` | IPv4 endpoint, `*addrlen` = 16: bytes 4..19 are written into a 16-byte structure | copy the 4 or 16 address bytes | medium; not executed | VclIoHandle.EndptCopyAsWritten (VclIoHandle.EndptCopyAsWrittenOverruns) | VclIoHandle.EndptCopy |

`VclIoHandle.Accept` uses the corrected copy.

## Left out

- VclIoHandle.Accept: copies the peer endpoint with the corrected `EndptCopy`, not the overrunning copy the adapter performs (see Findings). Family, port, reported length and start offset agree with the adapter's copy; the number of address bytes written does not.
- Foreign `vppcom_*` internals are not modelled. Their return values, the bytes they offer and the worker indices are inputs. The model assumes only that a read or write never moves more bytes than requested, and that a segmented read's segments hold at least the bytes it reports (`SliceIo.Read`'s precondition; the code indexes the segment array without a bound).
- Integer widths of the byte counters: the source counts bytes in `int32_t`/`uint64_t` and converts between them. The model counts in unbounded integers, so a single call moving more than 2^31-1 bytes, where the source's counters would wrap, is not modelled. The unsigned conversion of `close`'s count is modelled.
- `peekVclSession` and worker registration: they change the process-wide worker identity, which is a concurrency concern. The worker index is an input.
- `duplicate`: the same-worker path returns a second owner of the same object, and the other path is foreign session creation plus `bind`.
- Address construction (`vclEndptToAddress`, `vclEndptFromAddress`), `localAddress` and `peerAddress`: raw structure reinterpretation and the host's address factory.
- `recvmsg`: it depends on address construction.
- `recvmmsg`: it throws.
- `recv`: it is one foreign call passed through `VclApi.ToIoCallResult`.
- `lastRoundTripTime`, `fdDoNotUse`, logging: incidental.
- Fragment release and `delete`: memory management. A fragment records only its session and length.
- The dispatcher is reduced to the armed flag and `NextIteration`.
- The latched next-iteration toggle is never read by the coalescer, so there is no deferred-delivery variant. Only its constancy is stated.
- The host's `cb`/`setCb` passthroughs: they hold no logic.
