/** The blocking batch queue between threads.  Waiting is not modelled: a call is the locked
    section that runs once the wait is over. */
module BatchQueue {

  class Queue<T> {
    var buf: seq<T>
    var closed: bool

    constructor ()
      ensures buf == [] && !closed
    {
      buf, closed := [], false;
    }

    /** A closed queue drops what is offered; an open one appends the whole batch in order. */
    method Enqueue(batch: seq<T>)
      modifies this`buf
      ensures buf == if closed then old(buf) else old(buf) + batch
    {
      if closed {
        return;
      }
      for i := 0 to |batch|
        invariant buf == old(buf) + batch[..i]
      {
        buf := buf + [batch[i]];
      }
      assert batch[..|batch|] == batch;
    }

    /** Takes the longest front part that fits.  What was taken followed by what is left is what
        was there, so nothing is lost, duplicated or reordered; a closed queue answers false and
        keeps its elements. */
    method Dequeue(size: nat) returns (ok: bool, taken: seq<T>)
      modifies this`buf
      ensures ok == !closed
      ensures taken + buf == old(buf)
      ensures ok ==> |taken| == if size < |old(buf)| then size else |old(buf)|
      ensures !ok ==> taken == []
    {
      taken := [];
      if closed {
        return false, [];
      }
      while buf != [] && |taken| < size
        invariant taken + buf == old(buf)
        invariant |taken| <= size
        decreases |buf|
      {
        taken := taken + [buf[0]];
        buf := buf[1..];
      }
      ok := true;
    }

    method Close()
      modifies this`closed
      ensures closed
    {
      closed := true;
    }
  }
}
