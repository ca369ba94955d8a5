/**
 An abstract UART stream, as the driver sees it through `available()`,
 `read()`, `write(buf, len)` and `delay(1)`, and the specification of the
 driver's bounded-wait reception of a fixed-length reply.
 */
module Serial {
  import opened Frames

  /**
   One incoming byte: `value` becomes readable after `wait` more empty polls
   (each poll followed by a one-millisecond delay), counted from the moment
   the byte before it was taken off the stream.
   */
  datatype Arrival = Arrival(wait: nat, value: uint8)

  /** The number of bytes readable right now: the leading arrivals that no longer wait. */
  function ReadyCount(p: seq<Arrival>): (n: nat)
    ensures n <= |p|
    ensures forall k :: 0 <= k < n ==> p[k].wait == 0
    ensures n < |p| ==> p[n].wait > 0
  {
    if |p| == 0 || p[0].wait > 0 then 0 else 1 + ReadyCount(p[1..])
  }

  /** What is left on the stream once every readable byte has been read. */
  function Drained(p: seq<Arrival>): (q: seq<Arrival>)
  {
    p[ReadyCount(p)..]
  }

  /** Draining leaves nothing readable and removes only bytes that were already readable. */
  lemma DrainedNothingReady(p: seq<Arrival>)
    ensures ReadyCount(Drained(p)) == 0
    ensures |Drained(p)| <= |p| && p == p[..|p| - |Drained(p)|] + Drained(p)
    ensures forall k :: 0 <= k < |p| - |Drained(p)| ==> p[k].wait == 0
  {
  }

  /** One millisecond passes: the byte at the head comes one poll closer. */
  function Tick(p: seq<Arrival>): (q: seq<Arrival>)
  {
    if |p| == 0 || p[0].wait == 0 then p
    else [Arrival(p[0].wait - 1, p[0].value)] + p[1..]
  }

  /**
   `delay(t)` outside the poll loop: `t` milliseconds pass. Only the head
   byte comes closer, and it stops once it is readable; the bytes after it
   keep their waits, which count from the moment it is taken.
   */
  function Ticks(p: seq<Arrival>, t: nat): (q: seq<Arrival>)
    ensures |p| == 0 ==> q == p
    ensures |p| > 0 ==>
      q == [Arrival(if p[0].wait >= t then p[0].wait - t else 0, p[0].value)] + p[1..]
    decreases t
  {
    if t == 0 then p else Tick(Ticks(p, t - 1))
  }

  /**
   A pause that outlasts the head byte's wait makes it readable together
   with the run of ready bytes behind it, and a drain then removes them all.
   */
  lemma PauseReleasesReadyRun(p: seq<Arrival>, t: nat)
    requires |p| > 0 && p[0].wait <= t
    ensures ReadyCount(Ticks(p, t)) == 1 + ReadyCount(p[1..])
    ensures Drained(Ticks(p, t)) == Drained(p[1..])
  {
    var q := Ticks(p, t);
    assert q[1..] == p[1..];
  }

  /** `t` milliseconds pass while the head byte is still on its way. */
  function Delay(p: seq<Arrival>, t: nat): (q: seq<Arrival>)
    requires |p| == 0 || t <= p[0].wait
  {
    if |p| == 0 then p else [Arrival(p[0].wait - t, p[0].value)] + p[1..]
  }

  /** The values of a run of arrivals, in order. */
  function Values(p: seq<Arrival>): (v: seq<uint8>)
    ensures |v| == |p| && forall k :: 0 <= k < |p| ==> v[k] == p[k].value
  {
    seq(|p|, k requires 0 <= k < |p| => p[k].value)
  }

  /** The outcome of waiting for a fixed-length reply. */
  datatype Reception = Reception(received: seq<uint8>, rest: seq<Arrival>, timedOut: bool)

  /**
   Reception of `n` bytes with a per-byte limit of `timeOut`. A byte is taken
   when it shows up after at most `timeOut + 1` empty polls; otherwise the
   reception stops there after `timeOut + 1` milliseconds. When `timeOut` is
   255 or more, the 8-bit poll counter wraps before it can exceed the limit,
   so every byte is waited for however long it takes.
   */
  function Receive(p: seq<Arrival>, n: nat, timeOut: nat): (r: Reception)
    requires timeOut < 255 || n <= |p|
    ensures |r.received| <= n
    ensures r.timedOut <==> |r.received| < n
    decreases n
  {
    if n == 0 then Reception([], p, false)
    else if timeOut < 255 && (|p| == 0 || p[0].wait > timeOut + 1) then
      Reception([], Delay(p, timeOut + 1), true)
    else
      var r := Receive(p[1..], n - 1, timeOut);
      Reception([p[0].value] + r.received, r.rest, r.timedOut)
  }

  /** One step of a reception: the byte at the head is either late or taken. */
  lemma ReceiveStep(p: seq<Arrival>, n: nat, timeOut: nat)
    requires n > 0 && (timeOut < 255 || n <= |p|)
    ensures timeOut < 255 && (|p| == 0 || p[0].wait > timeOut + 1) ==>
      Receive(p, n, timeOut) == Reception([], Delay(p, timeOut + 1), true)
    ensures !(timeOut < 255 && (|p| == 0 || p[0].wait > timeOut + 1)) ==>
      var r := Receive(p[1..], n - 1, timeOut);
      Receive(p, n, timeOut) == Reception([p[0].value] + r.received, r.rest, r.timedOut)
  {
  }

  /** Every byte of the reply arrives within the limit. */
  ghost predicate InTime(p: seq<Arrival>, n: nat, timeOut: nat)
  {
    n <= |p| && forall k :: 0 <= k < n ==> p[k].wait <= timeOut + 1
  }

  /**
   With a limit below 255, reception succeeds exactly when each of the `n`
   bytes shows up within `timeOut + 1` empty polls; it then takes those bytes,
   in order, and leaves the rest of the stream as it was.
   */
  lemma {:induction false} ReceiveSucceeds(p: seq<Arrival>, n: nat, timeOut: nat)
    requires timeOut < 255
    ensures var r := Receive(p, n, timeOut);
      && (!r.timedOut <==> InTime(p, n, timeOut))
      && (!r.timedOut ==> r.received == Values(p[..n]) && r.rest == p[n..])
  {
    if n > 0 && |p| > 0 && p[0].wait <= timeOut + 1 {
      ReceiveSucceeds(p[1..], n - 1, timeOut);
      var r := Receive(p[1..], n - 1, timeOut);
      if !r.timedOut {
        assert p[1..][..n - 1] == p[1..n];
        assert Values(p[..n]) == [p[0].value] + Values(p[1..n]);
        assert p[1..][n - 1..] == p[n..];
      }
      if InTime(p, n, timeOut) {
        assert InTime(p[1..], n - 1, timeOut) by {
          forall k | 0 <= k < n - 1 ensures p[1..][k].wait <= timeOut + 1 {
            assert p[1..][k] == p[k + 1];
          }
        }
      }
    }
  }

  /**
   A reception that times out stops at the first late byte `j`: the bytes
   before it were taken in order, within the limit, and the late byte (if
   any) has come `timeOut + 1` polls closer.
   */
  lemma {:induction false} ReceiveTimesOut(p: seq<Arrival>, n: nat, timeOut: nat)
    requires timeOut < 255
    requires Receive(p, n, timeOut).timedOut
    ensures var r := Receive(p, n, timeOut); var j := |r.received|;
      && j <= |p|
      && r.received == Values(p[..j])
      && (forall k :: 0 <= k < j ==> p[k].wait <= timeOut + 1)
      && (j == |p| || p[j].wait > timeOut + 1)
      && r.rest == Delay(p[j..], timeOut + 1)
  {
    if n > 0 && |p| > 0 && p[0].wait <= timeOut + 1 {
      ReceiveTimesOut(p[1..], n - 1, timeOut);
      var r := Receive(p[1..], n - 1, timeOut);
      var j := |r.received|;
      assert p[1..][..j] == p[1..j + 1];
      assert Values(p[..j + 1]) == [p[0].value] + Values(p[1..j + 1]);
      assert p[1..][j..] == p[j + 1..];
      forall k | 0 <= k < j + 1 ensures p[k].wait <= timeOut + 1 {
        if k > 0 { assert p[k] == p[1..][k - 1]; }
      }
    }
  }

  /**
   With a limit of 255 or more the wrapped counter never exceeds it: every
   byte is taken, however long it waits.
   */
  lemma {:induction false} ReceiveWrapped(p: seq<Arrival>, n: nat, timeOut: nat)
    requires timeOut >= 255 && n <= |p|
    ensures var r := Receive(p, n, timeOut);
      !r.timedOut && r.received == Values(p[..n]) && r.rest == p[n..]
  {
    if n > 0 {
      ReceiveWrapped(p[1..], n - 1, timeOut);
      assert p[1..][..n - 1] == p[1..n];
      assert Values(p[..n]) == [p[0].value] + Values(p[1..n]);
      assert p[1..][n - 1..] == p[n..];
    }
  }

  /**
   The UART stream the driver owns: the input still to be read, and every
   byte written so far. The hardware and the software serial port behave
   the same way here.
   */
  class Link {
    var pending: seq<Arrival>
    var output: seq<uint8>

    constructor (input: seq<Arrival>)
      ensures pending == input && output == []
    {
      pending := input;
      output := [];
    }

    /** `available()`: how many bytes can be read without waiting. */
    function Available(): nat
      reads this
    {
      ReadyCount(pending)
    }

    /** `read()`, called only when a byte is available. */
    method Read() returns (b: uint8)
      requires Available() > 0
      modifies this
      ensures b == old(pending)[0].value
      ensures pending == old(pending)[1..] && output == old(output)
    {
      b := pending[0].value;
      pending := pending[1..];
    }

    /** `delay(1)`: one millisecond passes. */
    method Elapse()
      modifies this
      ensures pending == Tick(old(pending)) && output == old(output)
    {
      pending := Tick(pending);
    }

    /** `delay(ms)` between exchanges: `ms` milliseconds pass. */
    method Pause(ms: nat)
      modifies this
      ensures pending == Ticks(old(pending), ms) && output == old(output)
    {
      pending := Ticks(pending, ms);
    }

    /** `write(buf, len)`: the bytes go out in order. */
    method Write(data: seq<uint8>)
      modifies this
      ensures output == old(output) + data && pending == old(pending)
    {
      output := output + data;
    }
  }
}
