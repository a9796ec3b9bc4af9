/** Vectorised session I/O: `readv`, `writev`, `write`, `sendmsg` and the
    zero-copy segmented `read`.

    Each foreign read or write is scripted by an "offer": a negative offer is
    the error code the call returns; a non-negative offer is how many bytes
    the session could transfer, of which the call moves as many as were
    requested. */
module SliceIo {
  import opened Outcomes
  import opened Options
  import opened VclApi

  /** At most this many buffer slices go into one `write`, and at most this
      many segments come back from one segmented read. */
  const MAX_SLICES: nat := 16
  const MAX_SEGMENTS: nat := 16

  function Min(a: int, b: int): int {
    if a <= b then a else b
  }

  /** The foreign call's return value for a request of `requested` bytes. */
  function Grant(offer: int, requested: nat): (r: int)
    ensures offer < 0 ==> r == offer
    ensures offer >= 0 ==> 0 <= r <= requested && r <= offer
    ensures offer >= 0 ==> r == requested || r == offer
  {
    if offer < 0 then offer else Min(offer, requested)
  }

  /** Sum of slice lengths. */
  function Total(lens: seq<nat>): nat {
    if |lens| == 0 then 0 else lens[0] + Total(lens[1..])
  }

  lemma {:induction false} TotalAppend(a: seq<nat>, b: seq<nat>)
    ensures Total(a + b) == Total(a) + Total(b)
    decreases |a|
  {
    if |a| > 0 {
      assert (a + b)[1..] == a[1..] + b;
      TotalAppend(a[1..], b);
    } else {
      assert a + b == b;
    }
  }

  lemma TotalPrefix(lens: seq<nat>, k: nat)
    requires k <= |lens|
    ensures Total(lens[..k]) <= Total(lens)
  {
    assert lens == lens[..k] + lens[k..];
    TotalAppend(lens[..k], lens[k..]);
  }

  /** Index of the first failing offer, or the number of offers when none
      fails. */
  function FirstError(offers: seq<int>): (k: nat)
    ensures k <= |offers|
    ensures forall i :: 0 <= i < k ==> offers[i] >= 0
    ensures k < |offers| ==> offers[k] < 0
  {
    if |offers| == 0 then 0
    else if offers[0] < 0 then 0
    else 1 + FirstError(offers[1..])
  }

  /** Bytes the first `k` slices can move when slice `i` is offered
      `offers[i]` bytes and none of them fails. */
  function Offered(lens: seq<nat>, offers: seq<int>, k: nat): nat
    requires |offers| == |lens| && k <= |lens|
    requires forall i :: 0 <= i < k ==> offers[i] >= 0
  {
    if k == 0 then 0 else Offered(lens, offers, k - 1) + Min(lens[k - 1], offers[k - 1])
  }

  lemma {:induction false} OfferedMonotone(lens: seq<nat>, offers: seq<int>, i: nat, j: nat)
    requires |offers| == |lens| && i <= j <= |lens|
    requires forall x :: 0 <= x < j ==> offers[x] >= 0
    ensures Offered(lens, offers, i) <= Offered(lens, offers, j)
    decreases j - i
  {
    if i < j {
      OfferedMonotone(lens, offers, i, j - 1);
    }
  }

  lemma {:induction false} OfferedWithinTotal(lens: seq<nat>, offers: seq<int>, k: nat)
    requires |offers| == |lens| && k <= |lens|
    requires forall i :: 0 <= i < k ==> offers[i] >= 0
    ensures Offered(lens, offers, k) <= Total(lens[..k])
  {
    if k > 0 {
      OfferedWithinTotal(lens, offers, k - 1);
      assert lens[..k] == lens[..k - 1] + [lens[k - 1]];
      TotalAppend(lens[..k - 1], [lens[k - 1]]);
      assert Total([lens[k - 1]]) == lens[k - 1];
    }
  }

  /** What `readv` reports, stated without its loop: the bytes the slices
      before the first failure could take, capped at `maxLength`; with
      nothing read, the failure code if the loop reached it, otherwise 0. */
  function ReadvOutcome(maxLength: nat, lens: seq<nat>, offers: seq<int>): int
    requires |offers| == |lens|
  {
    var k := FirstError(offers);
    var t := Min(maxLength, Offered(lens, offers, k));
    if t > 0 then t
    else if k < |lens| && (maxLength > 0 || k == 0) then offers[k]
    else 0
  }

  /** What `writev` reports, stated without its loop: the bytes the slices
      before the first failure took or, with nothing written, the failure
      code (0 when nothing failed). */
  function WritevOutcome(lens: seq<nat>, offers: seq<int>): int
    requires |offers| == |lens|
  {
    var k := FirstError(offers);
    var t := Offered(lens, offers, k);
    if t > 0 then t
    else if k < |lens| then offers[k]
    else 0
  }

  /** The slice whose read fills `maxLength`, looking from slice `i` among
      the slices before the first failure; the first failure's index when no
      read fills it. */
  function FirstFill(maxLength: nat, lens: seq<nat>, offers: seq<int>, i: nat): (k: nat)
    requires |offers| == |lens| && i <= FirstError(offers)
    ensures i <= k <= FirstError(offers)
    ensures forall j :: i < j <= k ==> Offered(lens, offers, j) < maxLength
    ensures k < FirstError(offers) ==> Offered(lens, offers, k + 1) >= maxLength
    decreases FirstError(offers) - i
  {
    if i == FirstError(offers) then i
    else if Offered(lens, offers, i + 1) >= maxLength then i
    else FirstFill(maxLength, lens, offers, i + 1)
  }

  /** How many foreign reads `readv` issues, stated without its loop: every
      slice up to and including the one that fails or fills `maxLength`, or
      all of them. */
  function ReadvReads(maxLength: nat, lens: seq<nat>, offers: seq<int>): (n: nat)
    requires |offers| == |lens|
    ensures n <= |lens|
  {
    var k := FirstFill(maxLength, lens, offers, 0);
    if k < |lens| then k + 1 else |lens|
  }

  /** One foreign read: the bytes already read before it, the length asked
      for and the value returned. */
  datatype ReadCall = ReadCall(before: nat, requested: nat, returned: int)

  /** The recorded reads form one run: the first starts from nothing and each
      later one starts where the previous one ended. */
  predicate Chained(calls: seq<ReadCall>) {
    && (|calls| > 0 ==> calls[0].before == 0)
    && forall j :: 0 < j < |calls| ==> calls[j].before == calls[j - 1].before + calls[j - 1].returned
  }

  /** Each recorded read asked for its slice's length, cut down to what was
      still allowed under `maxLength`, and returned what the foreign layer
      granted. */
  predicate BoundedReads(calls: seq<ReadCall>, maxLength: nat, lens: seq<nat>, offers: seq<int>)
    requires |calls| <= |lens| == |offers|
  {
    forall j :: 0 <= j < |calls| ==>
      && calls[j].before <= maxLength
      && calls[j].requested == Min(lens[j], maxLength - calls[j].before)
      && calls[j].returned == Grant(offers[j], calls[j].requested)
  }

  lemma AppendRead(calls: seq<ReadCall>, maxLength: nat, lens: seq<nat>, offers: seq<int>, bytes: nat, requested: nat)
    requires |calls| < |lens| == |offers|
    requires Chained(calls) && BoundedReads(calls, maxLength, lens, offers)
    requires |calls| == 0 ==> bytes == 0
    requires |calls| > 0 ==> calls[|calls| - 1].before + calls[|calls| - 1].returned == bytes
    requires bytes <= maxLength && requested == Min(lens[|calls|], maxLength - bytes)
    ensures var next := calls + [ReadCall(bytes, requested, Grant(offers[|calls|], requested))];
            Chained(next) && BoundedReads(next, maxLength, lens, offers)
  {
  }

  /** The loop of `readv` stopped at a failing read of slice `i`. */
  lemma ReadvStopsOnError(maxLength: nat, lens: seq<nat>, offers: seq<int>, i: nat, bytes: nat)
    requires |offers| == |lens| && i < |lens| && i <= FirstError(offers)
    requires offers[i] < 0
    requires bytes == Offered(lens, offers, i) <= maxLength
    requires i > 0 ==> bytes < maxLength
    requires i <= FirstFill(maxLength, lens, offers, 0)
    ensures ReadvOutcome(maxLength, lens, offers) == (if bytes == 0 then offers[i] else bytes)
    ensures ReadvReads(maxLength, lens, offers) == i + 1
  {
    assert FirstError(offers) == i;
  }

  /** The loop of `readv` stopped because slice `i` brought the total to
      `maxLength`. */
  lemma ReadvStopsWhenFull(maxLength: nat, lens: seq<nat>, offers: seq<int>, i: nat, bytes: nat, rv: int)
    requires |offers| == |lens| && i < |lens| && i <= FirstError(offers)
    requires bytes == Offered(lens, offers, i) <= maxLength
    requires rv == Grant(offers[i], Min(lens[i], maxLength - bytes)) && rv >= 0
    requires bytes + rv == maxLength
    requires i <= FirstFill(maxLength, lens, offers, 0)
    ensures ReadvOutcome(maxLength, lens, offers) == (if bytes + rv == 0 then rv else bytes + rv)
    ensures ReadvReads(maxLength, lens, offers) == i + 1
  {
    assert i < FirstError(offers);
    assert Offered(lens, offers, i + 1) >= maxLength;
    assert FirstFill(maxLength, lens, offers, 0) == i;
    OfferedMonotone(lens, offers, i + 1, FirstError(offers));
  }

  /** The loop of `readv` ran over every slice. */
  lemma ReadvStopsAtEnd(maxLength: nat, lens: seq<nat>, offers: seq<int>, bytes: nat, rv: int)
    requires |offers| == |lens| && |lens| <= FirstError(offers)
    requires bytes == Offered(lens, offers, |lens|) <= maxLength
    requires 0 <= rv <= bytes
    requires |lens| <= FirstFill(maxLength, lens, offers, 0)
    ensures ReadvOutcome(maxLength, lens, offers) == (if bytes == 0 then rv else bytes)
    ensures ReadvReads(maxLength, lens, offers) == |lens|
  {
  }

  /** The loop of `readv` goes on past slice `i`: that read neither failed
      nor filled `maxLength`. */
  lemma ReadvContinues(maxLength: nat, lens: seq<nat>, offers: seq<int>, i: nat, bytes: nat, rv: int)
    requires |offers| == |lens| && i < |lens| && i <= FirstFill(maxLength, lens, offers, 0)
    requires bytes == Offered(lens, offers, i) <= maxLength
    requires rv == Grant(offers[i], Min(lens[i], maxLength - bytes)) && rv >= 0
    requires bytes + rv != maxLength
    ensures i + 1 <= FirstFill(maxLength, lens, offers, 0)
  {
    assert i < FirstError(offers);
    assert Offered(lens, offers, i + 1) < maxLength;
  }

  /** `readv`: one foreign read per slice, each asking for the slice's
      length cut down to what is still allowed under `maxLength`; the loop
      stops at the first failure or once `maxLength` bytes are in. */
  method Readv(sh: uint32, maxLength: nat, lens: seq<nat>, offers: seq<int>)
    returns (r: Checked<IoCallResult>, calls: seq<ReadCall>)
    requires |offers| == |lens|
    ensures !ShValid(sh) ==> r == ToIoCallResult(VPPCOM_EBADFD) && calls == []
    ensures ShValid(sh) ==> r == ToIoCallResult(ReadvOutcome(maxLength, lens, offers))
    ensures ShValid(sh) ==> |calls| == ReadvReads(maxLength, lens, offers)
    ensures |calls| <= |lens| && Chained(calls)
    ensures BoundedReads(calls, maxLength, lens, offers)
  {
    if !ShValid(sh) {
      r := ToIoCallResult(VPPCOM_EBADFD);
      calls := [];
      return;
    }
    var rv := 0;
    var numBytesRead: nat := 0;
    calls := [];
    var i := 0;
    while i < |lens|
      invariant 0 <= i <= |lens| && i <= FirstFill(maxLength, lens, offers, 0)
      invariant numBytesRead == Offered(lens, offers, i) <= maxLength
      invariant i > 0 ==> numBytesRead < maxLength
      invariant 0 <= rv <= numBytesRead
      invariant |calls| == i && Chained(calls) && BoundedReads(calls, maxLength, lens, offers)
      invariant i > 0 ==> calls[i - 1].before + calls[i - 1].returned == numBytesRead
    {
      var sliceLength := Min(lens[i], maxLength - numBytesRead);
      rv := Grant(offers[i], sliceLength);
      AppendRead(calls, maxLength, lens, offers, numBytesRead, sliceLength);
      calls := calls + [ReadCall(numBytesRead, sliceLength, rv)];
      if rv < 0 {
        ReadvStopsOnError(maxLength, lens, offers, i, numBytesRead);
        assert (if numBytesRead == 0 then rv else numBytesRead) == ReadvOutcome(maxLength, lens, offers);
        break;
      }
      if numBytesRead + rv == maxLength {
        ReadvStopsWhenFull(maxLength, lens, offers, i, numBytesRead, rv);
        numBytesRead := numBytesRead + rv;
        assert (if numBytesRead == 0 then rv else numBytesRead) == ReadvOutcome(maxLength, lens, offers);
        break;
      }
      ReadvContinues(maxLength, lens, offers, i, numBytesRead, rv);
      numBytesRead := numBytesRead + rv;
      i := i + 1;
    }
    if i == |lens| {
      ReadvStopsAtEnd(maxLength, lens, offers, numBytesRead, rv);
    }
    assert (if numBytesRead == 0 then rv else numBytesRead) == ReadvOutcome(maxLength, lens, offers);
    var result := if numBytesRead == 0 then rv else numBytesRead;
    r := ToIoCallResult(result);
  }

  /** `writev`: one foreign write per slice, each asking for the slice's
      whole length, stopping at the first failure. `writes` holds the length
      each foreign write was asked for, in order. */
  method Writev(sh: uint32, lens: seq<nat>, offers: seq<int>) returns (r: Checked<IoCallResult>, writes: seq<nat>)
    requires |offers| == |lens|
    ensures !ShValid(sh) ==> r == ToIoCallResult(VPPCOM_EBADFD) && writes == []
    ensures ShValid(sh) ==> r == ToIoCallResult(WritevOutcome(lens, offers))
    ensures ShValid(sh) ==> var k := FirstError(offers);
                            writes == lens[..if k < |lens| then k + 1 else |lens|]
  {
    writes := [];
    if !ShValid(sh) {
      return ToIoCallResult(VPPCOM_EBADFD), writes;
    }
    var numBytesWritten: nat := 0;
    var rv := 0;
    var i := 0;
    while i < |lens|
      invariant 0 <= i <= |lens| && i <= FirstError(offers)
      invariant numBytesWritten == Offered(lens, offers, i)
      invariant 0 <= rv <= numBytesWritten
      invariant writes == lens[..i]
    {
      rv := Grant(offers[i], lens[i]);
      writes := writes + [lens[i]];
      if rv < 0 {
        assert FirstError(offers) == i;
        assert writes == lens[..i + 1];
        break;
      }
      numBytesWritten := numBytesWritten + rv;
      i := i + 1;
    }
    var result := if numBytesWritten == 0 then rv else numBytesWritten;
    r := ToIoCallResult(result);
  }

  /** Removes the first `n` bytes from a buffer given as slice lengths. */
  function Drain(buffer: seq<nat>, n: nat): (b: seq<nat>)
    requires n <= Total(buffer)
    ensures Total(b) == Total(buffer) - n
    decreases |buffer|
  {
    if n == 0 then buffer
    else if buffer[0] <= n then Drain(buffer[1..], n - buffer[0])
    else [buffer[0] - n] + buffer[1..]
  }

  /** `write`: writes the buffer's first slices (at most MAX_SLICES) and, on
      a successful write of `rc > 0` bytes, drains exactly `rc` bytes from the
      front of the buffer. */
  method Write(sh: uint32, buffer: seq<nat>, offers: seq<int>)
    returns (r: Checked<IoCallResult>, rest: seq<nat>)
    requires |offers| == Min(MAX_SLICES, |buffer|)
    ensures var slices := buffer[..Min(MAX_SLICES, |buffer|)];
            r == (if ShValid(sh) then ToIoCallResult(WritevOutcome(slices, offers))
                  else ToIoCallResult(VPPCOM_EBADFD))
    ensures r.Ok? && r.value.Ok() && r.value.rc > 0 ==>
              r.value.rc <= Total(buffer) && Total(rest) == Total(buffer) - r.value.rc
    ensures !(r.Ok? && r.value.Ok() && r.value.rc > 0) ==> rest == buffer
  {
    var slices := buffer[..Min(MAX_SLICES, |buffer|)];
    var writes;
    r, writes := Writev(sh, slices, offers);
    rest := buffer;
    if r.Ok? && r.value.Ok() && r.value.rc > 0 {
      var k := FirstError(offers);
      OfferedWithinTotal(slices, offers, k);
      TotalPrefix(slices, k);
      TotalPrefix(buffer, |slices|);
      rest := Drain(buffer, r.value.rc);
    }
  }

  /** A host buffer slice: a possibly null pointer and a length. */
  datatype RawSlice = RawSlice(isNull: bool, len: nat)

  /** The lengths of the slices `sendmsg` writes: those with a non-null
      pointer and a non-zero length, in order. */
  function Kept(slices: seq<RawSlice>): (kept: seq<nat>)
    ensures |kept| <= |slices|
    ensures forall j :: 0 <= j < |kept| ==> kept[j] > 0
  {
    if |slices| == 0 then []
    else (if !slices[0].isNull && slices[0].len != 0 then [slices[0].len] else []) + Kept(slices[1..])
  }

  /** Every slice that carries data is kept, so nothing the caller meant to
      send is skipped. */
  lemma {:induction false} KeptCarriesAllData(slices: seq<RawSlice>)
    ensures Total(Kept(slices)) == NonNullBytes(slices)
  {
    if |slices| > 0 {
      KeptCarriesAllData(slices[1..]);
      var head := if !slices[0].isNull && slices[0].len != 0 then [slices[0].len] else [];
      TotalAppend(head, Kept(slices[1..]));
    }
  }

  /** Bytes held by slices with a non-null pointer. */
  function NonNullBytes(slices: seq<RawSlice>): nat {
    if |slices| == 0 then 0
    else (if slices[0].isNull then 0 else slices[0].len) + NonNullBytes(slices[1..])
  }

  /** One foreign write of `sendmsg`: a plain write, or the flushing write
      used for the last slice. */
  datatype WriteCall = SessionWrite(len: nat) | SessionWriteMsg(len: nat)

  /** The loop of `sendmsg` from slice `i` on: bytes written, the value
      stored on failure, and the foreign calls issued. */
  datatype SendRun = SendRun(written: nat, failure: Option<int>, calls: seq<WriteCall>)

  function SendFrom(kept: seq<nat>, offers: seq<int>, i: nat, written: nat): SendRun
    requires |offers| == |kept| && i <= |kept|
    decreases |kept| - i
  {
    if i == |kept| then SendRun(written, None, [])
    else
      var call := if i < |kept| - 1 then SessionWrite(kept[i]) else SessionWriteMsg(kept[i]);
      var n := Grant(offers[i], kept[i]);
      if n < 0 then SendRun(written, Some(if written == 0 then n else written), [call])
      else
        var rest := SendFrom(kept, offers, i + 1, written + n);
        rest.(calls := [call] + rest.calls)
  }

  /** The `sendmsg` loop stops at the first failing write; it writes every
      kept slice up to there with a plain write except the last kept slice,
      which goes through the flushing write, and the value it stores on
      failure follows the `writev` rule. */
  lemma {:induction false} SendFromShape(kept: seq<nat>, offers: seq<int>, i: nat)
    requires |offers| == |kept| && i <= FirstError(offers)
    ensures var run := SendFrom(kept, offers, i, Offered(kept, offers, i));
            var k := FirstError(offers);
            && run.written == Offered(kept, offers, k)
            && (run.failure.Some? <==> k < |kept|)
            && (run.failure.Some? ==> run.failure.value == (if run.written == 0 then offers[k] else run.written))
            && |run.calls| == (if k < |kept| then k + 1 else |kept|) - i
            && (forall j :: 0 <= j < |run.calls| ==>
                  run.calls[j].len == kept[i + j]
                  && (run.calls[j].SessionWriteMsg? <==> i + j == |kept| - 1))
    decreases |kept| - i
  {
    var k := FirstError(offers);
    if i < |kept| && i < k {
      SendFromShape(kept, offers, i + 1);
    }
  }

  /** What `sendmsg` returns and the foreign writes it issued. */
  datatype SendOutcome = SendOutcome(result: Checked<IoCallResult>, calls: seq<WriteCall>)

  /** `sendmsg` exactly as the adapter has it: when every write succeeds the
      stored result is never set, so the call reports 0 bytes. */
  function SendmsgAsWritten(sh: uint32, slices: seq<RawSlice>, offers: seq<int>): SendOutcome
    requires |offers| == |Kept(slices)|
  {
    if !ShValid(sh) then SendOutcome(ToIoCallResult(VPPCOM_EBADFD), [])
    else
      var kept := Kept(slices);
      if |kept| == 0 then SendOutcome(Ok(IoCallResult(0, NoError)), [])
      else
        var run := SendFrom(kept, offers, 0, 0);
        SendOutcome(ToIoCallResult(if run.failure.Some? then run.failure.value else 0), run.calls)
  }

  /** `sendmsg` with the total reported on success. */
  function Sendmsg(sh: uint32, slices: seq<RawSlice>, offers: seq<int>): SendOutcome
    requires |offers| == |Kept(slices)|
  {
    if !ShValid(sh) then SendOutcome(ToIoCallResult(VPPCOM_EBADFD), [])
    else
      var kept := Kept(slices);
      if |kept| == 0 then SendOutcome(Ok(IoCallResult(0, NoError)), [])
      else
        var run := SendFrom(kept, offers, 0, 0);
        SendOutcome(ToIoCallResult(if run.failure.Some? then run.failure.value else run.written), run.calls)
  }

  /** As written, a fully successful `sendmsg` always reports 0 bytes. */
  lemma SendmsgAsWrittenReportsZero(sh: uint32, slices: seq<RawSlice>, offers: seq<int>)
    requires ShValid(sh)
    requires |offers| == |Kept(slices)|
    requires forall j :: 0 <= j < |offers| ==> offers[j] >= 0
    ensures SendmsgAsWritten(sh, slices, offers).result == Ok(IoCallResult(0, NoError))
  {
    var kept := Kept(slices);
    if |kept| > 0 {
      assert FirstError(offers) == |kept|;
      SendFromShape(kept, offers, 0);
    }
  }

  /** One slice of 5 bytes, written in full: as written `sendmsg` reports 0
      bytes, the corrected one reports 5. */
  lemma SendmsgLostCountExample()
    ensures SendmsgAsWritten(0, [RawSlice(false, 5)], [5]).result == Ok(IoCallResult(0, NoError))
    ensures Sendmsg(0, [RawSlice(false, 5)], [5]).result == Ok(IoCallResult(5, NoError))
  {
    var one := [RawSlice(false, 5)];
    assert Kept(one) == [5] by {
      assert one[1..] == [];
    }
    var run := SendFrom([5], [5], 0, 0);
    assert SendFrom([5], [5], 1, 5) == SendRun(5, None, []);
    assert run == SendRun(5, None, [SessionWriteMsg(5)]);
  }

  /** `SendFromShape` for a run that starts at the first kept slice. */
  lemma SendFromStart(kept: seq<nat>, offers: seq<int>)
    requires |offers| == |kept|
    ensures var run := SendFrom(kept, offers, 0, 0);
            var k := FirstError(offers);
            && run.written == Offered(kept, offers, k)
            && (run.failure.Some? <==> k < |kept|)
            && (run.failure.Some? ==> run.failure.value == (if run.written == 0 then offers[k] else run.written))
            && |run.calls| <= |kept|
            && (forall j :: 0 <= j < |run.calls| ==>
                  run.calls[j].len == kept[j] && (run.calls[j].SessionWriteMsg? <==> j == |kept| - 1))
  {
    SendFromShape(kept, offers, 0);
    var run := SendFrom(kept, offers, 0, 0);
    assert forall j :: 0 <= j < |run.calls| ==> kept[0 + j] == kept[j];
  }

  /** The corrected `sendmsg` reports what `writev` over the kept slices
      would report; empty or null slices never reach the foreign layer; the
      last kept slice, and only it, is written with the flushing write. */
  lemma SendmsgMatchesWritev(sh: uint32, slices: seq<RawSlice>, offers: seq<int>)
    requires ShValid(sh)
    requires |offers| == |Kept(slices)|
    ensures Sendmsg(sh, slices, offers).result == ToIoCallResult(WritevOutcome(Kept(slices), offers))
    ensures |Kept(slices)| == 0 ==> Sendmsg(sh, slices, offers).calls == []
    ensures var calls := Sendmsg(sh, slices, offers).calls;
            var kept := Kept(slices);
            && |calls| <= |kept|
            && (forall j :: 0 <= j < |calls| ==>
                  calls[j].len == kept[j] && (calls[j].SessionWriteMsg? <==> j == |kept| - 1))
  {
    var kept := Kept(slices);
    if |kept| > 0 {
      SendFromStart(kept, offers);
      var run := SendFrom(kept, offers, 0, 0);
      assert Sendmsg(sh, slices, offers) ==
        SendOutcome(ToIoCallResult(if run.failure.Some? then run.failure.value else run.written), run.calls);
    }
  }

  /** A buffer fragment wrapping one foreign segment; releasing it returns
      `len` bytes of session `sh` to the foreign allocator. */
  datatype Fragment = Fragment(sh: uint32, len: nat)

  function Lens(fragments: seq<Fragment>): (lens: seq<nat>)
    ensures |lens| == |fragments|
    ensures forall j :: 0 <= j < |lens| ==> lens[j] == fragments[j].len
  {
    if |fragments| == 0 then [] else [fragments[0].len] + Lens(fragments[1..])
  }

  /** Wraps segments, in order, until their lengths reach `remaining`. */
  function TakeFragments(sh: uint32, segments: seq<nat>, remaining: int): (fs: seq<Fragment>)
    requires remaining <= Total(segments)
    ensures |fs| <= |segments|
    ensures forall j :: 0 <= j < |fs| ==> fs[j] == Fragment(sh, segments[j])
    ensures remaining <= Total(segments[..|fs|])
    ensures |fs| > 0 ==> Total(segments[..|fs| - 1]) < remaining
    decreases |segments|
  {
    if remaining <= 0 then
      assert segments[..0] == [];
      []
    else
      var rest := TakeFragments(sh, segments[1..], remaining - segments[0]);
      var fs := [Fragment(sh, segments[0])] + rest;
      assert segments[..|fs|] == [segments[0]] + segments[1..][..|rest|];
      assert |rest| > 0 ==> segments[..|fs| - 1] == [segments[0]] + segments[1..][..|rest| - 1];
      assert |rest| == 0 ==> segments[..|fs| - 1] == [];
      fs
  }

  datatype ReadOutcome = ReadOutcome(result: Checked<IoCallResult>, fragments: seq<Fragment>)

  /** `read`: one segmented foreign read returning `rv` bytes in `segments`
      (at most MAX_SEGMENTS). A failure produces no fragments; otherwise each
      segment, in order, becomes a fragment until `rv` bytes are covered. */
  function Read(sh: uint32, rv: int32, segments: seq<nat>): (r: ReadOutcome)
    requires |segments| <= MAX_SEGMENTS
    requires rv <= Total(segments)
    ensures r.result == ToIoCallResult(rv)
    ensures |r.fragments| <= |segments|
    ensures rv <= 0 ==> r.fragments == []
    ensures Lens(r.fragments) == segments[..|r.fragments|]
    ensures forall j :: 0 <= j < |r.fragments| ==> r.fragments[j].sh == sh
    ensures rv <= Total(Lens(r.fragments))
    ensures |r.fragments| > 0 ==> Total(Lens(r.fragments)[..|r.fragments| - 1]) < rv
  {
    if rv < 0 then ReadOutcome(ToIoCallResult(rv), [])
    else
      var fs := TakeFragments(sh, segments, rv);
      assert Lens(fs) == segments[..|fs|];
      assert |fs| > 0 ==> Lens(fs)[..|fs| - 1] == segments[..|fs| - 1];
      ReadOutcome(ToIoCallResult(rv), fs)
  }

  /** When the foreign read's segments hold exactly `rv` bytes and none is
      empty, `read` yields one fragment per segment and the fragments hold
      exactly `rv` bytes. */
  lemma ReadCoversAllSegments(sh: uint32, rv: int32, segments: seq<nat>)
    requires |segments| <= MAX_SEGMENTS
    requires rv == Total(segments)
    requires forall j :: 0 <= j < |segments| ==> segments[j] > 0
    ensures |Read(sh, rv, segments).fragments| == |segments|
    ensures Total(Lens(Read(sh, rv, segments).fragments)) == rv
  {
    var fs := Read(sh, rv, segments).fragments;
    var n := |fs|;
    assert segments == segments[..n] + segments[n..];
    TotalAppend(segments[..n], segments[n..]);
    if n < |segments| {
      assert false;
    }
    assert segments[..|segments|] == segments;
  }
}
