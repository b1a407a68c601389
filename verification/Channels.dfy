/** Buffered Go channels, as far as the program uses them. Sending on or closing a
    closed channel panics in Go: here those are preconditions. */
module Channels {

  predicate HasRoom<T>(buf: seq<T>, capacity: nat) {
    |buf| < capacity
  }

  /** A non-blocking send: the value is dropped when the buffer is full. */
  function Offer<T>(buf: seq<T>, capacity: nat, x: T): seq<T> {
    if HasRoom(buf, capacity) then buf + [x] else buf
  }

  class Chan<T> {
    const capacity: nat
    var buf: seq<T>
    var closed: bool

    constructor (capacity: nat)
      ensures this.capacity == capacity && buf == [] && !closed
    {
      this.capacity := capacity;
      buf := [];
      closed := false;
    }

    method TrySend(x: T) returns (sent: bool)
      requires !closed
      modifies this`buf
      ensures sent == HasRoom(old(buf), capacity)
      ensures buf == Offer(old(buf), capacity, x)
    {
      sent := |buf| < capacity;
      if sent {
        buf := buf + [x];
      }
    }

    method Close()
      requires !closed
      modifies this`closed
      ensures closed
    {
      closed := true;
    }
  }
}
