/**
 The result codes and default arguments of the BM32S3021-1 driver.
 */
module Constants {
  import opened Frames
  import opened Serial

  /** Operation status returned by setters, commands and block reads. */
  const Success: uint8 := 0
  const Fail: uint8 := 1

  /** Result codes of a reception. */
  const CheckOk: uint8 := 0
  const CheckError: uint8 := 1
  const TimeoutError: uint8 := 2

  /** Default per-byte wait of a reception, in empty polls. */
  const DefaultTimeOut: uint16 := 10

  /** Default arguments of the setters. */
  const DefaultDebounce: uint8 := 16
  const DefaultThreshold: uint8 := 7
  const DefaultIrqTime: uint8 := 50
  const DefaultContinuityTime: uint8 := 30
  const DefaultFastestTime: uint8 := 0
  const DefaultSlowestTime: uint8 := 20
  const DefaultOpa: uint8 := 23
  const DefaultCurrent: uint8 := 25

  /** The three reception codes are distinct, and a good reception shares its code with a successful operation. */
  lemma ResultCodes()
    ensures CheckOk != CheckError && CheckOk != TimeoutError && CheckError != TimeoutError
    ensures CheckOk == Success == 0 && Fail == 1
  {
  }

  /**
   The default limit lies below the wrap-around of the 8-bit poll counter,
   so it always fires: when byte `j` is the first of the `n` awaited bytes
   that needs more than 11 empty polls (or never comes), the reception
   times out there, holding exactly the bytes before it.
   */
  lemma DefaultTimeOutFires(p: seq<Arrival>, n: nat, j: nat)
    requires j < n && j <= |p|
    requires forall k :: 0 <= k < j ==> p[k].wait <= DefaultTimeOut as nat + 1
    requires j == |p| || p[j].wait > DefaultTimeOut as nat + 1
    ensures DefaultTimeOut < 255
    ensures var r := Receive(p, n, DefaultTimeOut as nat);
      && r.timedOut
      && r.received == Values(p[..j])
      && r.rest == Delay(p[j..], DefaultTimeOut as nat + 1)
  {
    var t := DefaultTimeOut as nat;
    ReceiveSucceeds(p, n, t);
    assert !InTime(p, n, t);
    ReceiveTimesOut(p, n, t);
  }
}
