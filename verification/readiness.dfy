/** Readiness event sets and their translation into the foreign
    multiplexer's interest mask.

    Host readiness sets are bitmasks over Read, Write and Closed; the foreign
    multiplexer speaks epoll flags. `Interest` is the translation the adapter
    applies whenever it (re-)registers a session's interest. */
module Readiness {

  type Mask = bv32

  /** The host's readiness bits. */
  const READ: Mask := 0x1
  const WRITE: Mask := 0x2
  const CLOSED: Mask := 0x4
  const SUPPORTED: Mask := READ | WRITE | CLOSED

  /** epoll flags. */
  const EPOLLIN: Mask := 0x001
  const EPOLLOUT: Mask := 0x004
  const EPOLLERR: Mask := 0x008
  const EPOLLHUP: Mask := 0x010

  /** A set the adapter accepts from `activate`: non-empty and only
      supported bits. */
  predicate ValidEvents(events: Mask) {
    events != 0 && events & SUPPORTED == events
  }

  predicate Has(m: Mask, bit: Mask) {
    m & bit != 0
  }

  /** The epoll interest mask registered for a host readiness set. */
  function Interest(events: Mask): (ep: Mask)
    ensures Has(ep, EPOLLIN) <==> Has(events, READ)
    ensures Has(ep, EPOLLOUT) <==> Has(events, WRITE)
    ensures Has(ep, EPOLLERR) <==> Has(events, CLOSED)
    ensures Has(ep, EPOLLHUP) <==> Has(events, CLOSED)
    ensures ep & (EPOLLIN | EPOLLOUT | EPOLLERR | EPOLLHUP) == ep
  {
    (if Has(events, READ) then EPOLLIN else 0)
    | (if Has(events, WRITE) then EPOLLOUT else 0)
    | (if Has(events, CLOSED) then EPOLLERR | EPOLLHUP else 0)
  }

  /** Reference decoding of an epoll mask into host readiness bits; either
      of the error and hang-up flags stands for Closed. */
  function ReadyOf(ep: Mask): Mask {
    (if Has(ep, EPOLLIN) then READ else 0)
    | (if Has(ep, EPOLLOUT) then WRITE else 0)
    | (if Has(ep, EPOLLERR | EPOLLHUP) then CLOSED else 0)
  }

  /** Registering interest loses nothing: decoding the registered mask gives
      back exactly the supported part of the requested set, and bits outside
      Read, Write and Closed have no effect on the registration. */
  lemma InterestRoundTrip(events: Mask)
    ensures ReadyOf(Interest(events)) == events & SUPPORTED
    ensures Interest(events) == Interest(events & SUPPORTED)
  {
  }

  /** Two supported readiness sets register the same interest only if they
      are equal. */
  lemma InterestInjective(a: Mask, b: Mask)
    requires a & SUPPORTED == a && b & SUPPORTED == b
    requires Interest(a) == Interest(b)
    ensures a == b
  {
    InterestRoundTrip(a);
    InterestRoundTrip(b);
  }
}
