/**
 The BM32S3021-1 gesture/proximity sensor driver: every register getter and
 setter, the bare commands, the block reads, and the two transport routines
 they are built on, `WriteBytes` and `ReadBytes`.
 */
module Driver {
  import opened Frames
  import opened Serial
  import opened Constants

  /** The byte a device puts at index 1 of its reply when it accepts a command. */
  const Ack: uint8 := 0x7F

  /** The code `ReadBytes` returns for a reception. */
  function ReadStatus(r: Reception): (st: uint8)
  {
    if r.timedOut then TimeoutError
    else if Checked(r.received) then CheckOk
    else CheckError
  }

  /** The reply to a command: the stale input is drained, then `rlen` bytes are awaited with the default limit. */
  function Exchange(p: seq<Arrival>, rlen: nat): (r: Reception)
  {
    Receive(Drained(p), rlen, DefaultTimeOut as nat)
  }

  /** What a single-register getter returns for a 6-byte reply: its byte 4 when the checksum passed, 0 otherwise. */
  function RegisterValue(r: Reception): (v: uint8)
  {
    if ReadStatus(r) == CheckOk && |r.received| == 6 then r.received[4] else 0
  }

  /** A 3-byte reply that passes the checksum and carries the acceptance byte. */
  predicate Acknowledged(r: Reception)
  {
    ReadStatus(r) == CheckOk && |r.received| == 3 && r.received[1] == Ack
  }

  /**
   `ReadBytes` reports `CheckOk` exactly when every byte came in time and
   the last one is the 8-bit sum of the others, `TimeoutError` exactly when
   some byte came late, and `CheckError` otherwise.
   */
  lemma {:induction false} ReadStatusMeaning(p: seq<Arrival>, n: nat, timeOut: nat)
    requires 1 <= n && timeOut < 255
    ensures var st := ReadStatus(Receive(p, n, timeOut));
      && (st == TimeoutError <==> !InTime(p, n, timeOut))
      && (st == CheckOk <==> InTime(p, n, timeOut) && Checked(Values(p[..n])))
      && (st == CheckError <==> InTime(p, n, timeOut) && !Checked(Values(p[..n])))
  {
    ReceiveSucceeds(p, n, timeOut);
  }

  /**
   A getter returns the register byte of a reply that came in time and
   passed its checksum, and 0 for any other reply.
   */
  lemma RegisterValueMeaning(p: seq<Arrival>)
    ensures var q := Drained(p);
      RegisterValue(Exchange(p, 6)) ==
        if InTime(q, 6, DefaultTimeOut as nat) && Checked(Values(q[..6])) then q[4].value else 0
  {
    ReadStatusMeaning(Drained(p), 6, DefaultTimeOut as nat);
    ReceiveSucceeds(Drained(p), 6, DefaultTimeOut as nat);
  }

  /**
   A setter or command succeeds exactly when its 3-byte reply came in time
   and reads `{b, 0x7F, b + 0x7F}`.
   */
  lemma AcknowledgedMeaning(p: seq<Arrival>)
    ensures var q := Drained(p);
      Acknowledged(Exchange(p, 3)) <==>
        && InTime(q, 3, DefaultTimeOut as nat)
        && q[1].value == Ack
        && q[2].value == Add8(q[0].value, Ack)
  {
    var q := Drained(p);
    ReceiveSucceeds(q, 3, DefaultTimeOut as nat);
    if InTime(q, 3, DefaultTimeOut as nat) {
      var v := Values(q[..3]);
      assert v[..2] == [v[0]] + [v[1]];
      Sum8Snoc([v[0]], v[1]);
      assert [v[0]][1..] == [];
    }
  }

  /**
   An all-zero reply on time passes the checksum but lacks the acceptance
   byte, so a setter or command reports failure.
   */
  lemma ZeroReplyRejected(p: seq<Arrival>)
    requires InTime(Drained(p), 3, DefaultTimeOut as nat)
    requires forall k :: 0 <= k < 3 ==> Drained(p)[k].value == 0
    ensures ReadStatus(Exchange(p, 3)) == CheckOk
    ensures !Acknowledged(Exchange(p, 3))
  {
    var q := Drained(p);
    ReceiveSucceeds(q, 3, DefaultTimeOut as nat);
    assert Values(q[..3]) == Zeros(3);
    ZerosChecked(3);
  }

  /** The sensor, bound to the serial stream it talks through. */
  class Sensor {
    const serial: Link

    constructor (serial: Link)
      ensures this.serial == serial
    {
      this.serial := serial;
    }

    /** Discards any unread input, then sends the first `wlen` bytes of `wbuf`. */
    method WriteBytes(wbuf: array<uint8>, wlen: uint8)
      requires wlen as int <= wbuf.Length
      modifies serial
      ensures serial.pending == Drained(old(serial.pending))
      ensures serial.output == old(serial.output) + wbuf[..wlen]
    {
      while serial.Available() > 0
        invariant Drained(serial.pending) == Drained(old(serial.pending))
        invariant serial.output == old(serial.output)
        decreases |serial.pending|
      {
        var discarded := serial.Read();
      }
      serial.Write(wbuf[..wlen]);
    }

    /**
     Waits for the next byte with an 8-bit poll counter: polls, and while
     nothing is there gives up once the counter exceeds `timeOut`, else lets
     one millisecond pass. `late` exactly when `Receive` stops at this byte.
     */
    method AwaitByte(timeOut: uint16) returns (late: bool, b: uint8)
      requires timeOut < 255 || |serial.pending| > 0
      modifies serial
      ensures var q := old(serial.pending);
        && late == (timeOut < 255 && (|q| == 0 || q[0].wait > timeOut as nat + 1))
        && (late ==> serial.pending == Delay(q, timeOut as nat + 1))
        && (!late ==> b == q[0].value && serial.pending == q[1..])
      ensures serial.output == old(serial.output)
    {
      ghost var q := serial.pending;
      ghost var ticks: nat := 0;
      var delayCnt: uint8 := 0;
      while serial.Available() == 0
        invariant |q| == 0 || ticks <= q[0].wait
        invariant serial.pending == Delay(q, ticks)
        invariant delayCnt as int == ticks % 0x100
        invariant timeOut < 255 ==> ticks <= timeOut as int + 1
        invariant serial.output == old(serial.output)
        decreases if timeOut < 255 then timeOut as int + 1 - ticks
                  else if |q| == 0 then 0 else q[0].wait - ticks
      {
        if delayCnt as int > timeOut as int {
          return true, 0;
        }
        serial.Elapse();
        delayCnt := Add8(delayCnt, 1);
        ticks := ticks + 1;
      }
      assert q[1..] == serial.pending[1..];
      late := false;
      b := serial.Read();
    }

    /**
     The reception loop of `ReadBytes`: stores the bytes one by one in
     `rbuf` and stops at the first one that does not come in time.
     */
    method ReceiveBytes(rbuf: array<uint8>, rlen: uint8, timeOut: uint16) returns (timedOut: bool)
      requires rlen as int <= rbuf.Length
      requires timeOut < 255 || rlen as int <= |serial.pending|
      modifies rbuf, serial
      ensures var r := Receive(old(serial.pending), rlen as nat, timeOut as nat);
        && timedOut == r.timedOut
        && serial.pending == r.rest
        && serial.output == old(serial.output)
        && rbuf[..] == r.received + old(rbuf[..])[|r.received|..]
    {
      ghost var all := Receive(serial.pending, rlen as nat, timeOut as nat);
      ghost var got: seq<uint8> := [];
      ghost var left: nat := rlen as nat;
      var i: uint8 := 0;
      while i < rlen
        invariant i <= rlen && left == rlen as int - i as int && |got| == i as int
        invariant timeOut < 255 || left <= |serial.pending|
        invariant all.received == got + Receive(serial.pending, left, timeOut as nat).received
        invariant all.rest == Receive(serial.pending, left, timeOut as nat).rest
        invariant all.timedOut == Receive(serial.pending, left, timeOut as nat).timedOut
        invariant forall k :: 0 <= k < i as int ==> rbuf[k] == got[k]
        invariant forall k :: i as int <= k < rbuf.Length ==> rbuf[k] == old(rbuf[k])
        invariant serial.output == old(serial.output)
      {
        ReceiveStep(serial.pending, left, timeOut as nat);
        var late, b := AwaitByte(timeOut);
        if late {
          assert all.received == got;
          break;
        }
        rbuf[i] := b;
        got := got + [b];
        i := i + 1;
        left := left - 1;
      }
      assert rbuf[..] == all.received + old(rbuf[..])[|all.received|..];
      timedOut := i < rlen;
    }

    /**
     Receives `rlen` bytes into `rbuf`, each awaited with the per-byte limit,
     then compares the 8-bit sum of all but the last byte with the last one.
     */
    method ReadBytes(rbuf: array<uint8>, rlen: uint8, timeOut: uint16 := DefaultTimeOut) returns (status: uint8)
      requires 1 <= rlen as int <= rbuf.Length
      requires timeOut < 255 || rlen as int <= |serial.pending|
      modifies rbuf, serial
      ensures var r := Receive(old(serial.pending), rlen as nat, timeOut as nat);
        && serial.pending == r.rest
        && serial.output == old(serial.output)
        && rbuf[..] == r.received + old(rbuf[..])[|r.received|..]
        && status == ReadStatus(r)
    {
      var timedOut := ReceiveBytes(rbuf, rlen, timeOut);
      if timedOut {
        return TimeoutError;
      }
      var checkSum: uint8 := 0;
      var i: uint8 := 0;
      while i < rlen - 1
        invariant i <= rlen - 1
        invariant checkSum == Sum8(rbuf[..i])
        modifies {}
      {
        assert rbuf[..i + 1] == rbuf[..i] + [rbuf[i]];
        Sum8Snoc(rbuf[..i], rbuf[i]);
        checkSum := Add8(checkSum, rbuf[i]);
        i := i + 1;
      }
      assert rbuf[..rlen][..rlen - 1] == rbuf[..rlen - 1];
      if checkSum == rbuf[rlen - 1] {
        status := CheckOk;
      } else {
        status := CheckError;
      }
    }

    /**
     The exchange behind every read: the hard-coded frame
     `{0x55, 0x80, reg, count, chk}` goes out, then a reply as long as `rbuf`
     is received into it.
     */
    method ReadRegisters(reg: uint8, count: uint8, chk: uint8, rbuf: array<uint8>) returns (status: uint8)
      requires 1 <= rbuf.Length < 0x100
      modifies serial, rbuf
      ensures serial.output == old(serial.output) + [Header, ReadOp, reg, count, chk]
      ensures var r := Exchange(old(serial.pending), rbuf.Length);
        && serial.pending == r.rest
        && status == ReadStatus(r)
        && (status == CheckOk ==> |r.received| == rbuf.Length && rbuf[..] == r.received)
    {
      var sendBuf := new uint8[] [0x55, 0x80, reg, count, chk];
      WriteBytes(sendBuf, 5);
      status := ReadBytes(rbuf, rbuf.Length as uint8);
    }

    /**
     The exchange behind every single-register getter: a one-register read
     with a 6-byte reply, whose byte 4 is returned when the checksum passes
     (0 otherwise).
     */
    method GetRegister(reg: uint8, chk: uint8) returns (value: uint8)
      modifies serial
      ensures serial.output == old(serial.output) + [Header, ReadOp, reg, 0x01, chk]
      ensures var r := Exchange(old(serial.pending), 6);
        serial.pending == Ticks(r.rest, 10) && value == RegisterValue(r)
    {
      var buff := new uint8[6](_ => 0);
      value := 0;
      var status := ReadRegisters(reg, 0x01, chk, buff);
      if status == CheckOk {
        value := buff[4];
      }
      serial.Pause(10);
    }

    /** `getIRStatus`: reads register 0x02 with a frame that carries the right checksum. */
    method GetIRStatus() returns (irStatus: uint8)
      modifies serial
      ensures serial.output == old(serial.output) + ReadCommand(0x02, 0x01)
      ensures var r := Exchange(old(serial.pending), 6);
        serial.pending == Ticks(r.rest, 10) && irStatus == RegisterValue(r)
    {
      assert ReadCommand(0x02, 0x01) == [Header, ReadOp, 0x02, 0x01, 0xD8] by {
        ReadCommandShape(0x02, 0x01);
      }
      irStatus := GetRegister(0x02, 0xD8);
    }

    /** `getIRGestureNum`: reads register 0x03 with a frame that carries the right checksum. */
    method GetIRGestureNum() returns (num: uint8)
      modifies serial
      ensures serial.output == old(serial.output) + ReadCommand(0x03, 0x01)
      ensures var r := Exchange(old(serial.pending), 6);
        serial.pending == Ticks(r.rest, 10) && num == RegisterValue(r)
    {
      assert ReadCommand(0x03, 0x01) == [Header, ReadOp, 0x03, 0x01, 0xD9] by {
        ReadCommandShape(0x03, 0x01);
      }
      num := GetRegister(0x03, 0xD9);
    }

    /** `getIRDebounce`: reads register 0x06 with a frame that carries the right checksum. */
    method GetIRDebounce() returns (debounce: uint8)
      modifies serial
      ensures serial.output == old(serial.output) + ReadCommand(0x06, 0x01)
      ensures var r := Exchange(old(serial.pending), 6);
        serial.pending == Ticks(r.rest, 10) && debounce == RegisterValue(r)
    {
      assert ReadCommand(0x06, 0x01) == [Header, ReadOp, 0x06, 0x01, 0xDC] by {
        ReadCommandShape(0x06, 0x01);
      }
      debounce := GetRegister(0x06, 0xDC);
    }

    /** `getIRThreshold`: reads register 0x07 with a frame that carries the right checksum. */
    method GetIRThreshold() returns (threshold: uint8)
      modifies serial
      ensures serial.output == old(serial.output) + ReadCommand(0x07, 0x01)
      ensures var r := Exchange(old(serial.pending), 6);
        serial.pending == Ticks(r.rest, 10) && threshold == RegisterValue(r)
    {
      assert ReadCommand(0x07, 0x01) == [Header, ReadOp, 0x07, 0x01, 0xDD] by {
        ReadCommandShape(0x07, 0x01);
      }
      threshold := GetRegister(0x07, 0xDD);
    }

    /** `getIRQTrigerTime`: reads register 0x08 with a frame that carries the right checksum. */
    method GetIRQTrigerTime() returns (irqTime: uint8)
      modifies serial
      ensures serial.output == old(serial.output) + ReadCommand(0x08, 0x01)
      ensures var r := Exchange(old(serial.pending), 6);
        serial.pending == Ticks(r.rest, 10) && irqTime == RegisterValue(r)
    {
      assert ReadCommand(0x08, 0x01) == [Header, ReadOp, 0x08, 0x01, 0xDE] by {
        ReadCommandShape(0x08, 0x01);
      }
      irqTime := GetRegister(0x08, 0xDE);
    }

    /** `getIRContinutyGestureTime`: reads register 0x09 with a frame that carries the right checksum. */
    method GetIRContinutyGestureTime() returns (irTime: uint8)
      modifies serial
      ensures serial.output == old(serial.output) + ReadCommand(0x09, 0x01)
      ensures var r := Exchange(old(serial.pending), 6);
        serial.pending == Ticks(r.rest, 10) && irTime == RegisterValue(r)
    {
      assert ReadCommand(0x09, 0x01) == [Header, ReadOp, 0x09, 0x01, 0xDF] by {
        ReadCommandShape(0x09, 0x01);
      }
      irTime := GetRegister(0x09, 0xDF);
    }

    /** `getIRFastestGestureTime`: reads register 0x0A with a frame that carries the right checksum. */
    method GetIRFastestGestureTime() returns (irTime: uint8)
      modifies serial
      ensures serial.output == old(serial.output) + ReadCommand(0x0A, 0x01)
      ensures var r := Exchange(old(serial.pending), 6);
        serial.pending == Ticks(r.rest, 10) && irTime == RegisterValue(r)
    {
      assert ReadCommand(0x0A, 0x01) == [Header, ReadOp, 0x0A, 0x01, 0xE0] by {
        ReadCommandShape(0x0A, 0x01);
      }
      irTime := GetRegister(0x0A, 0xE0);
    }

    /** `getIRSlowestGestureTime`: reads register 0x0B with a frame that carries the right checksum. */
    method GetIRSlowestGestureTime() returns (irTime: uint8)
      modifies serial
      ensures serial.output == old(serial.output) + ReadCommand(0x0B, 0x01)
      ensures var r := Exchange(old(serial.pending), 6);
        serial.pending == Ticks(r.rest, 10) && irTime == RegisterValue(r)
    {
      assert ReadCommand(0x0B, 0x01) == [Header, ReadOp, 0x0B, 0x01, 0xE1] by {
        ReadCommandShape(0x0B, 0x01);
      }
      irTime := GetRegister(0x0B, 0xE1);
    }

    /** `readIR1Ref`: reads register 0x04 with a frame that carries the right checksum. */
    method ReadIR1Ref() returns (ref: uint8)
      modifies serial
      ensures serial.output == old(serial.output) + ReadCommand(0x04, 0x01)
      ensures var r := Exchange(old(serial.pending), 6);
        serial.pending == Ticks(r.rest, 10) && ref == RegisterValue(r)
    {
      assert ReadCommand(0x04, 0x01) == [Header, ReadOp, 0x04, 0x01, 0xDA] by {
        ReadCommandShape(0x04, 0x01);
      }
      ref := GetRegister(0x04, 0xDA);
    }

    /** `readIR2Ref`: reads register 0x05 with a frame that carries the right checksum. */
    method ReadIR2Ref() returns (ref: uint8)
      modifies serial
      ensures serial.output == old(serial.output) + ReadCommand(0x05, 0x01)
      ensures var r := Exchange(old(serial.pending), 6);
        serial.pending == Ticks(r.rest, 10) && ref == RegisterValue(r)
    {
      assert ReadCommand(0x05, 0x01) == [Header, ReadOp, 0x05, 0x01, 0xDB] by {
        ReadCommandShape(0x05, 0x01);
      }
      ref := GetRegister(0x05, 0xDB);
    }

    /** `getIROPA`: reads register 0x21 with a frame that carries the right checksum. */
    method GetIROPA() returns (opa: uint8)
      modifies serial
      ensures serial.output == old(serial.output) + ReadCommand(0x21, 0x01)
      ensures var r := Exchange(old(serial.pending), 6);
        serial.pending == Ticks(r.rest, 10) && opa == RegisterValue(r)
    {
      assert ReadCommand(0x21, 0x01) == [Header, ReadOp, 0x21, 0x01, 0xF7] by {
        ReadCommandShape(0x21, 0x01);
      }
      opa := GetRegister(0x21, 0xF7);
    }

    /** `getIR1Current`: reads register 0x22 with a frame that carries the right checksum. */
    method GetIR1Current() returns (current: uint8)
      modifies serial
      ensures serial.output == old(serial.output) + ReadCommand(0x22, 0x01)
      ensures var r := Exchange(old(serial.pending), 6);
        serial.pending == Ticks(r.rest, 10) && current == RegisterValue(r)
    {
      assert ReadCommand(0x22, 0x01) == [Header, ReadOp, 0x22, 0x01, 0xF8] by {
        ReadCommandShape(0x22, 0x01);
      }
      current := GetRegister(0x22, 0xF8);
    }

    /** `getIR2Current`: reads register 0x23 with a frame that carries the right checksum. */
    method GetIR2Current() returns (current: uint8)
      modifies serial
      ensures serial.output == old(serial.output) + ReadCommand(0x23, 0x01)
      ensures var r := Exchange(old(serial.pending), 6);
        serial.pending == Ticks(r.rest, 10) && current == RegisterValue(r)
    {
      assert ReadCommand(0x23, 0x01) == [Header, ReadOp, 0x23, 0x01, 0xF9] by {
        ReadCommandShape(0x23, 0x01);
      }
      current := GetRegister(0x23, 0xF9);
    }

    /**
     The exchange behind every setter: `{0x55, 0xC0, reg, 0x01, 0, 0}` with
     byte 4 set to `value` and byte 5 to `value + base` in 8 bits; success
     exactly when the 3-byte reply is acknowledged.
     */
    method SetRegister(reg: uint8, base: uint8, value: uint8) returns (status: uint8)
      modifies serial
      ensures serial.output == old(serial.output) + [Header, WriteOp, reg, 0x01, value, Add8(value, base)]
      ensures var r := Exchange(old(serial.pending), 3);
        serial.pending == Ticks(r.rest, 10) && status == if Acknowledged(r) then Success else Fail
    {
      var sendBuf := new uint8[] [0x55, 0xC0, reg, 0x01, 0x00, 0x00];
      sendBuf[4] := value;
      sendBuf[5] := Add8(value, base);
      assert sendBuf[..] == [Header, WriteOp, reg, 0x01, value, Add8(value, base)];
      WriteBytes(sendBuf, 6);
      status := ReadAck(10);
    }

    /**
     The reply check every setter and command ends with: a 3-byte reply is
     received, and the operation succeeds iff it passed the checksum and
     carries the acceptance byte; either way `pause` milliseconds follow.
     */
    method ReadAck(pause: nat) returns (status: uint8)
      modifies serial
      ensures var r := Receive(old(serial.pending), 3, DefaultTimeOut as nat);
        && serial.pending == Ticks(r.rest, pause)
        && serial.output == old(serial.output)
        && status == if Acknowledged(r) then Success else Fail
    {
      var buff := new uint8[3](_ => 0);
      var st := ReadBytes(buff, 3);
      if st == CheckOk {
        if buff[1] == Ack {
          serial.Pause(pause);
          return Success;
        }
      }
      serial.Pause(pause);
      return Fail;
    }

    /** Writes `debounce` into register 0x06; the hard-coded `+ 28` is that register's checksum base. */
    method SetIRDebounce(debounce: uint8 := DefaultDebounce) returns (status: uint8)
      modifies serial
      ensures serial.output == old(serial.output) + WriteCommand(0x06, debounce)
      ensures var r := Exchange(old(serial.pending), 3);
        serial.pending == Ticks(r.rest, 10) && status == if Acknowledged(r) then Success else Fail
    {
      WriteCommandShape(0x06, debounce);
      status := SetRegister(0x06, 28, debounce);
    }

    /** Writes `threshold` into register 0x07; the hard-coded `+ 29` is that register's checksum base. */
    method SetIRThreshold(threshold: uint8 := DefaultThreshold) returns (status: uint8)
      modifies serial
      ensures serial.output == old(serial.output) + WriteCommand(0x07, threshold)
      ensures var r := Exchange(old(serial.pending), 3);
        serial.pending == Ticks(r.rest, 10) && status == if Acknowledged(r) then Success else Fail
    {
      WriteCommandShape(0x07, threshold);
      status := SetRegister(0x07, 29, threshold);
    }

    /** Writes `irqTime` into register 0x08; the hard-coded `+ 30` is that register's checksum base. */
    method SetIRQTrigerTime(irqTime: uint8 := DefaultIrqTime) returns (status: uint8)
      modifies serial
      ensures serial.output == old(serial.output) + WriteCommand(0x08, irqTime)
      ensures var r := Exchange(old(serial.pending), 3);
        serial.pending == Ticks(r.rest, 10) && status == if Acknowledged(r) then Success else Fail
    {
      WriteCommandShape(0x08, irqTime);
      status := SetRegister(0x08, 30, irqTime);
    }

    /** Writes `irTime` into register 0x09; the hard-coded `+ 31` is that register's checksum base. */
    method SetIRContinutyGestureTime(irTime: uint8 := DefaultContinuityTime) returns (status: uint8)
      modifies serial
      ensures serial.output == old(serial.output) + WriteCommand(0x09, irTime)
      ensures var r := Exchange(old(serial.pending), 3);
        serial.pending == Ticks(r.rest, 10) && status == if Acknowledged(r) then Success else Fail
    {
      WriteCommandShape(0x09, irTime);
      status := SetRegister(0x09, 31, irTime);
    }

    /** Writes `irTime` into register 0x0A; the hard-coded `+ 32` is that register's checksum base. */
    method SetIRFastestGestureTime(irTime: uint8 := DefaultFastestTime) returns (status: uint8)
      modifies serial
      ensures serial.output == old(serial.output) + WriteCommand(0x0A, irTime)
      ensures var r := Exchange(old(serial.pending), 3);
        serial.pending == Ticks(r.rest, 10) && status == if Acknowledged(r) then Success else Fail
    {
      WriteCommandShape(0x0A, irTime);
      status := SetRegister(0x0A, 32, irTime);
    }

    /** Writes `irTime` into register 0x0B; the hard-coded `+ 33` is that register's checksum base. */
    method SetIRSlowestGestureTime(irTime: uint8 := DefaultSlowestTime) returns (status: uint8)
      modifies serial
      ensures serial.output == old(serial.output) + WriteCommand(0x0B, irTime)
      ensures var r := Exchange(old(serial.pending), 3);
        serial.pending == Ticks(r.rest, 10) && status == if Acknowledged(r) then Success else Fail
    {
      WriteCommandShape(0x0B, irTime);
      status := SetRegister(0x0B, 33, irTime);
    }

    /** Writes `verl` into register 0x00; the hard-coded `+ 22` is that register's checksum base. */
    method WriteVerL(verl: uint8) returns (status: uint8)
      modifies serial
      ensures serial.output == old(serial.output) + WriteCommand(0x00, verl)
      ensures var r := Exchange(old(serial.pending), 3);
        serial.pending == Ticks(r.rest, 10) && status == if Acknowledged(r) then Success else Fail
    {
      WriteCommandShape(0x00, verl);
      status := SetRegister(0x00, 22, verl);
    }

    /** Writes `opa` into register 0x21; the hard-coded `+ 55` is that register's checksum base. */
    method SetIROPA(opa: uint8 := DefaultOpa) returns (status: uint8)
      modifies serial
      ensures serial.output == old(serial.output) + WriteCommand(0x21, opa)
      ensures var r := Exchange(old(serial.pending), 3);
        serial.pending == Ticks(r.rest, 10) && status == if Acknowledged(r) then Success else Fail
    {
      WriteCommandShape(0x21, opa);
      status := SetRegister(0x21, 55, opa);
    }

    /** Writes `current` into register 0x22; the hard-coded `+ 56` is that register's checksum base. */
    method SetIR1Current(current: uint8 := DefaultCurrent) returns (status: uint8)
      modifies serial
      ensures serial.output == old(serial.output) + WriteCommand(0x22, current)
      ensures var r := Exchange(old(serial.pending), 3);
        serial.pending == Ticks(r.rest, 10) && status == if Acknowledged(r) then Success else Fail
    {
      WriteCommandShape(0x22, current);
      status := SetRegister(0x22, 56, current);
    }

    /** Writes `current` into register 0x23; the hard-coded `+ 57` is that register's checksum base. */
    method SetIR2Current(current: uint8 := DefaultCurrent) returns (status: uint8)
      modifies serial
      ensures serial.output == old(serial.output) + WriteCommand(0x23, current)
      ensures var r := Exchange(old(serial.pending), 3);
        serial.pending == Ticks(r.rest, 10) && status == if Acknowledged(r) then Success else Fail
    {
      WriteCommandShape(0x23, current);
      status := SetRegister(0x23, 57, current);
    }

    /** The exchange behind the bare commands: `{0x55, op, chk}` out, an acknowledgement in. */
    method RunCommand(op: uint8, chk: uint8, pause: nat) returns (status: uint8)
      modifies serial
      ensures serial.output == old(serial.output) + [Header, op, chk]
      ensures var r := Exchange(old(serial.pending), 3);
        serial.pending == Ticks(r.rest, pause) && status == if Acknowledged(r) then Success else Fail
    {
      var sendBuf := new uint8[] [0x55, op, chk];
      WriteBytes(sendBuf, 3);
      status := ReadAck(pause);
    }

    /** `reset`: command 0x10. */
    method Reset() returns (status: uint8)
      modifies serial
      ensures serial.output == old(serial.output) + BareCommand(0x10)
      ensures var r := Exchange(old(serial.pending), 3);
        serial.pending == Ticks(r.rest, 10) && status == if Acknowledged(r) then Success else Fail
    {
      assert BareCommand(0x10) == [Header, 0x10, 0x65] by {
        BareCommandShape(0x10);
      }
      status := RunCommand(0x10, 0x65, 10);
    }

    /** `distanceLearning`: command 0x19. */
    method DistanceLearning() returns (status: uint8)
      modifies serial
      ensures serial.output == old(serial.output) + BareCommand(0x19)
      ensures var r := Exchange(old(serial.pending), 3);
        serial.pending == Ticks(r.rest, 2000) && status == if Acknowledged(r) then Success else Fail
    {
      assert BareCommand(0x19) == [Header, 0x19, 0x6E] by {
        BareCommandShape(0x19);
      }
      status := RunCommand(0x19, 0x6E, 2000);
    }

    /**
     `getFWVer`: reads registers 0x00 and 0x01 one after the other and adds
     the two bytes as numbers. When the second read fails its byte is never
     assigned, so the result is then the first byte plus an unknown byte.
     */
    method GetFWVer() returns (ver: uint16)
      modifies serial
      ensures serial.output == old(serial.output) + ReadCommand(0x00, 0x01) + ReadCommand(0x01, 0x01)
      ensures var r1 := Exchange(old(serial.pending), 6);
        var r2 := Exchange(Ticks(r1.rest, 10), 6);
        && serial.pending == Ticks(r2.rest, 10)
        && RegisterValue(r1) as int <= ver as int <= RegisterValue(r1) as int + 255
        && (ReadStatus(r2) == CheckOk ==> ver as int == RegisterValue(r1) as int + RegisterValue(r2) as int)
    {
      assert ReadCommand(0x00, 0x01) == [Header, ReadOp, 0x00, 0x01, 0xD6] by {
        ReadCommandShape(0x00, 0x01);
      }
      assert ReadCommand(0x01, 0x01) == [Header, ReadOp, 0x01, 0x01, 0xD7] by {
        ReadCommandShape(0x01, 0x01);
      }
      ghost var r1 := Exchange(serial.pending, 6);
      ghost var sent := serial.output + ReadCommand(0x00, 0x01);
      var buff := new uint8[6](_ => 0);
      var verh: uint8 :| true;
      var verl: uint8 := 0;
      var st := ReadRegisters(0x00, 0x01, 0xD6, buff);
      if st == CheckOk {
        verl := buff[4];
      }
      assert verl == RegisterValue(r1);
      serial.Pause(10);
      assert serial.pending == Ticks(r1.rest, 10) && serial.output == sent;
      ghost var r2 := Exchange(serial.pending, 6);
      st := ReadRegisters(0x01, 0x01, 0xD7, buff);
      if st == CheckOk {
        verh := buff[4];
      }
      assert ReadStatus(r2) == CheckOk ==> verh == RegisterValue(r2);
      ver := (verl as int + verh as int) as uint16;
      serial.Pause(10);
    }

    /**
     `readIrA2_A5`: reads registers 0x02..0x05 in one 9-byte reply and, only
     when it passes the checksum, copies its bytes 4..7 to `buff[0..3]`.
     */
    method ReadIrA2A5(buff: array<uint8>) returns (status: uint8)
      requires buff.Length >= 4
      modifies serial, buff
      ensures serial.output == old(serial.output) + ReadCommand(0x02, 0x04)
      ensures var r := Exchange(old(serial.pending), 9);
        && serial.pending == (if status == Success then Ticks(r.rest, 10) else r.rest)
        && status == (if ReadStatus(r) == CheckOk then Success else Fail)
        && buff[..] == if status == Success then r.received[4..8] + old(buff[..])[4..] else old(buff[..])
    {
      assert ReadCommand(0x02, 0x04) == [Header, ReadOp, 0x02, 0x04, 0xDB] by {
        ReadCommandShape(0x02, 0x04);
      }
      var rbuf := new uint8[9](_ => 0);
      var st := ReadRegisters(0x02, 0x04, 0xDB, rbuf);
      if st == CheckOk {
        serial.Pause(10);
        CopyA2A5(rbuf, buff);
        return Success;
      }
      return Fail;
    }

    /** The four register bytes of a 9-byte reply, copied one by one. */
    static method CopyA2A5(rbuf: array<uint8>, buff: array<uint8>)
      requires rbuf.Length == 9 && buff.Length >= 4 && rbuf != buff
      modifies buff
      ensures buff[..] == rbuf[4..8] + old(buff[..])[4..]
    {
      buff[0] := rbuf[4];
      buff[1] := rbuf[5];
      buff[2] := rbuf[6];
      buff[3] := rbuf[7];
    }

    /**
     `readIrA6_Ab`: reads registers 0x06..0x0B in one 11-byte reply and, only
     when it passes the checksum, copies its bytes 4..9 to `buff[0..5]`.
     */
    method ReadIrA6Ab(buff: array<uint8>) returns (status: uint8)
      requires buff.Length >= 6
      modifies serial, buff
      ensures serial.output == old(serial.output) + ReadCommand(0x06, 0x06)
      ensures var r := Exchange(old(serial.pending), 11);
        && serial.pending == (if status == Success then Ticks(r.rest, 10) else r.rest)
        && status == (if ReadStatus(r) == CheckOk then Success else Fail)
        && buff[..] == if status == Success then r.received[4..10] + old(buff[..])[6..] else old(buff[..])
    {
      assert ReadCommand(0x06, 0x06) == [Header, ReadOp, 0x06, 0x06, 0xE1] by {
        ReadCommandShape(0x06, 0x06);
      }
      var rbuf := new uint8[11](_ => 0);
      var st := ReadRegisters(0x06, 0x06, 0xE1, rbuf);
      if st == CheckOk {
        serial.Pause(10);
        CopyA6Ab(rbuf, buff);
        return Success;
      }
      return Fail;
    }

    /** The six register bytes of an 11-byte reply, copied one by one. */
    static method CopyA6Ab(rbuf: array<uint8>, buff: array<uint8>)
      requires rbuf.Length == 11 && buff.Length >= 6 && rbuf != buff
      modifies buff
      ensures buff[..] == rbuf[4..10] + old(buff[..])[6..]
    {
      buff[0] := rbuf[4];
      buff[1] := rbuf[5];
      buff[2] := rbuf[6];
      buff[3] := rbuf[7];
      buff[4] := rbuf[8];
      buff[5] := rbuf[9];
    }
  }
}
