# BM32S3021-1 driver: the UART framing layer

This project models the request/response framing of the BM32S3021-1
gesture/proximity sensor driver and proves properties of that model.

The driver talks to the sensor over a UART. Every operation follows the
same pattern:

- it discards whatever input is still pending;
- it sends a fixed command frame `{0x55, opcode, ...operands, checksum}`;
- it waits, byte by byte and with a bounded poll counter, for a reply of
  fixed length;
- it checks that the reply's last byte is the 8-bit sum of the bytes before
  it, then reads a register byte or the acceptance byte `0x7F` out of the
  reply.

The model has four modules:

- `Frames` (frames.dfy) covers 8-bit wrapping arithmetic and the checksum.
  `Sum8` is the wrapping accumulator; it is checked against `SumInt`, the
  unbounded sum taken modulo 256. The file also builds the three command
  shapes: register read, register write and bare command.
- `Serial` (serial.dfy) is an abstract serial stream, the class `Link`.
  - Its input is a sequence of arrivals, and each arrival says how many
    empty polls pass before its byte becomes readable.
  - Its output is a log of every byte written.
  - `Receive` specifies the reception of a fixed-length reply with a
    per-byte poll limit. It includes what happens when the driver's 8-bit
    poll counter wraps.
- `Constants` (constants.dfy) holds the result codes and the default
  arguments declared in the header.
- `Driver` (driver.dfy) is the class `Sensor`:
  - `WriteBytes` and `ReadBytes`, as imperative methods with loops;
  - every getter, setter, bare command and block read, each proved against
    the specification functions `Exchange`, `ReadStatus`, `RegisterValue`
    and `Acknowledged`.

The hardware and software serial branches of the source are the same byte
for byte, so the model has one stream. A `delay(1)` inside the reception
loop is one tick, `Link.Elapse`. The pauses after an exchange (`delay(10)`,
and `delay(2000)` in `distanceLearning`) are `Link.Pause`: that many ticks
pass before the next operation drains the input.

Two notes on the header's default arguments, kept as written:

- The header gives `setIRDebounce` a default of 16 and `setIRThreshold` a
  default of 7. The doc comments of the two functions give them the other
  way round (7 for debounce, 16 for threshold). The model uses the header's
  values, because those are what a caller gets.
- The threshold default 7 lies outside the range 10~200 that its doc
  comment documents.

`getFWVer` adds the two version bytes as numbers. It does not place the
high byte above the low byte. The model keeps the sum: the result lies
between the first byte and the first byte plus 255, and it is the sum of
both bytes when both reads succeed.

## Model

| member | source | states |
|---|---|---|
| Frames.Sum8 | src/BM32S3021-1.cpp:851-854 | the `uint8_t` checksum accumulator equals the unbounded sum of the bytes reduced modulo 256 |
| Frames.Sum8Snoc | src/BM32S3021-1.cpp:853 | adding one more byte to the accumulator (`checkSum += rbuf[i]`) gives the checksum of the longer prefix |
| Frames.Command | src/BM32S3021-1.cpp:95 | a frame is the header 0x55, then the body, then the 8-bit sum of everything before it, so it passes the checksum rule |
| Frames.ReadCommandShape | src/BM32S3021-1.cpp:161-162 | a register-read frame is `{0x55, 0x80, reg, count, (0xD5 + reg + count) mod 256}` |
| Frames.BareCommandShape | src/BM32S3021-1.cpp:191 | a bare command frame is `{0x55, op, (0x55 + op) mod 256}` |
| Frames.WriteBase | src/BM32S3021-1.cpp:343 | a setter's checksum constant K is (0x55 + 0xC0 + reg + 0x01) mod 256 |
| Frames.WriteCommandShape | src/BM32S3021-1.cpp:341-343 | a write frame is `{0x55, 0xC0, reg, 0x01, v, (v + K) mod 256}` and passes the checksum for every one of the 256 values of v |
| Frames.ZerosChecked | src/BM32S3021-1.cpp:850-858 | an all-zero reply passes the checksum, because the zero sum equals the zero last byte |
| Frames.SingleByteChecked | src/BM32S3021-1.cpp:851-855 | for a 1-byte reply the summed prefix is empty, so the reply passes exactly when its byte is 0 |
| Serial.ReadyCount | src/BM32S3021-1.cpp:837 | `available()` counts the leading bytes that no longer wait, and the byte after them still waits |
| Serial.DrainedNothingReady | src/BM32S3021-1.cpp:794-797 | after the drain nothing is readable, and only bytes that were already readable were removed, as a prefix |
| Serial.Receive | src/BM32S3021-1.cpp:816-848 | a reception takes at most n bytes, and it times out exactly when it took fewer than n |
| Serial.ReceiveSucceeds | src/BM32S3021-1.cpp:834-847 | with a limit below 255, reception succeeds iff each of the n bytes shows up within timeOut + 1 empty polls; it then holds those bytes in order and leaves the rest of the stream as it was |
| Serial.ReceiveTimesOut | src/BM32S3021-1.cpp:837-845 | a timed-out reception stops at the first late byte; the bytes before it came in time and are kept in order, and the late byte has come timeOut + 1 polls closer |
| Serial.ReceiveWrapped | src/BM32S3021-1.cpp:812-826 | with a limit of 255 or more the 8-bit counter wraps before it exceeds the limit, so every byte is taken however long it waits |
| Serial.Link.Read | src/BM32S3021-1.cpp:846 | `read()` takes the head byte off the stream and writes nothing |
| Serial.Ticks | src/BM32S3021-1.cpp:172 | `t` milliseconds bring the head byte `t` polls closer, until it is readable, and leave the bytes after it as they were |
| Serial.PauseReleasesReadyRun | src/BM32S3021-1.cpp:172-173 | a pause at least as long as the head byte's wait makes the head readable together with the run of ready bytes behind it, all of which the next drain removes |
| Serial.Link.Elapse | src/BM32S3021-1.cpp:843 | `delay(1)` brings the head byte one poll closer and writes nothing |
| Serial.Link.Pause | src/BM32S3021-1.cpp:103 | `delay(ms)` after an exchange lets `ms` ticks pass and writes nothing |
| Serial.Link.Write | src/BM32S3021-1.cpp:799 | `write(buf, len)` appends the bytes to the output in order and leaves the input alone |
| Constants.ResultCodes | src/BM32S3021-1.h:14-18 | the three reception codes are distinct; `CHECK_OK` equals `SUCCESS`, which is 0, and `FAIL` is 1 |
| Constants.DefaultTimeOutFires | src/BM32S3021-1.h:61 | the default limit of 10 lies below the counter's wrap-around, so when byte j is the first that needs more than 11 polls (or never comes) the reception times out there, holding exactly the bytes before j |
| Driver.ReadStatusMeaning | src/BM32S3021-1.cpp:850-862 | `readBytes` returns `TIMEOUT_ERROR` iff some byte is late; `CHECK_OK` iff all bytes came in time and the last one is the 8-bit sum of the others; `CHECK_ERROR` iff they came in time and the sum differs |
| Driver.RegisterValueMeaning | src/BM32S3021-1.cpp:96-104 | a getter returns reply byte 4 of a 6-byte reply that came in time and passed its checksum, and 0 for any other reply |
| Driver.AcknowledgedMeaning | src/BM32S3021-1.cpp:346-355 | a setter or command succeeds iff its 3-byte reply came in time and reads `{b, 0x7F, b + 0x7F}` |
| Driver.ZeroReplyRejected | src/BM32S3021-1.cpp:121-130 | an all-zero reply passes the checksum but lacks 0x7F, so a setter or command fails |
| Driver.Sensor.WriteBytes | src/BM32S3021-1.cpp:781-801 | the pending readable input is drained and exactly the first wlen bytes of wbuf are sent, in order |
| Driver.Sensor.AwaitByte | src/BM32S3021-1.cpp:818-828 | the poll loop gives up exactly when the 8-bit counter exceeds timeOut before the byte shows up; otherwise it reads that byte |
| Driver.Sensor.ReceiveBytes | src/BM32S3021-1.cpp:834-847 | the reception loop leaves the stream and the buffer as `Receive` says: received bytes first, later positions unchanged |
| Driver.Sensor.ReadBytes | src/BM32S3021-1.cpp:810-863 | rbuf holds the received bytes followed by its old contents, the stream is what `Receive` leaves, and the status is `ReadStatus` of the reception |
| Driver.Sensor.ReadRegisters | src/BM32S3021-1.cpp:576-581 | a read frame goes out and a reply as long as the buffer is received; on `CHECK_OK` the buffer is the whole reply |
| Driver.Sensor.GetRegister | src/BM32S3021-1.cpp:96-104 | a one-register read returns `RegisterValue` of the 6-byte exchange, and 10 ms pass after it |
| Driver.Sensor.GetIRStatus | src/BM32S3021-1.cpp:93-105 | sends the checksum-correct read frame for register 0x02 and returns byte 4 of a good reply, else 0; the stream ends 10 ms after the reply |
| Driver.Sensor.GetIRGestureNum | src/BM32S3021-1.cpp:139-151 | the same for register 0x03 |
| Driver.Sensor.GetIRDebounce | src/BM32S3021-1.cpp:213-225 | the same for register 0x06 |
| Driver.Sensor.GetIRThreshold | src/BM32S3021-1.cpp:233-245 | the same for register 0x07 |
| Driver.Sensor.GetIRQTrigerTime | src/BM32S3021-1.cpp:254-266 | the same for register 0x08 |
| Driver.Sensor.GetIRContinutyGestureTime | src/BM32S3021-1.cpp:275-287 | the same for register 0x09 |
| Driver.Sensor.GetIRFastestGestureTime | src/BM32S3021-1.cpp:296-308 | the same for register 0x0A |
| Driver.Sensor.GetIRSlowestGestureTime | src/BM32S3021-1.cpp:317-329 | the same for register 0x0B |
| Driver.Sensor.ReadIR1Ref | src/BM32S3021-1.cpp:529-541 | the same for register 0x04 |
| Driver.Sensor.ReadIR2Ref | src/BM32S3021-1.cpp:548-560 | the same for register 0x05 |
| Driver.Sensor.GetIROPA | src/BM32S3021-1.cpp:636-648 | the same for register 0x21 |
| Driver.Sensor.GetIR1Current | src/BM32S3021-1.cpp:657-669 | the same for register 0x22 |
| Driver.Sensor.GetIR2Current | src/BM32S3021-1.cpp:677-689 | the same for register 0x23 |
| Driver.Sensor.ReadAck | src/BM32S3021-1.cpp:346-355 | a 3-byte reply is received; `SUCCESS` iff it is `Acknowledged`, else `FAIL`, and the given pause follows on both paths |
| Driver.Sensor.SetRegister | src/BM32S3021-1.cpp:341-355 | sends `{0x55, 0xC0, reg, 0x01, v, v + base}` and reports `SUCCESS` iff the 3-byte reply is `Acknowledged`, with 10 ms after it |
| Driver.Sensor.SetIRDebounce | src/BM32S3021-1.cpp:339-356 | sends the checksum-correct write frame for register 0x06 (K = 28) and succeeds iff the reply is acknowledged; the default value is 16 |
| Driver.Sensor.SetIRThreshold | src/BM32S3021-1.cpp:365-382 | the same for register 0x07 (K = 29); the default value is 7 |
| Driver.Sensor.SetIRQTrigerTime | src/BM32S3021-1.cpp:394-411 | the same for register 0x08 (K = 30); the default value is 50 |
| Driver.Sensor.SetIRContinutyGestureTime | src/BM32S3021-1.cpp:421-438 | the same for register 0x09 (K = 31); the default value is 30 |
| Driver.Sensor.SetIRFastestGestureTime | src/BM32S3021-1.cpp:448-465 | the same for register 0x0A (K = 32); the default value is 0 |
| Driver.Sensor.SetIRSlowestGestureTime | src/BM32S3021-1.cpp:476-493 | the same for register 0x0B (K = 33); the default value is 20 |
| Driver.Sensor.WriteVerL | src/BM32S3021-1.cpp:503-521 | the same for register 0x00 (K = 22) |
| Driver.Sensor.SetIROPA | src/BM32S3021-1.cpp:699-716 | the same for register 0x21 (K = 55); the default value is 23 |
| Driver.Sensor.SetIR1Current | src/BM32S3021-1.cpp:727-744 | the same for register 0x22 (K = 56); the default value is 25 |
| Driver.Sensor.SetIR2Current | src/BM32S3021-1.cpp:755-772 | the same for register 0x23 (K = 57); the default value is 25 |
| Driver.Sensor.RunCommand | src/BM32S3021-1.cpp:117-130 | sends `{0x55, op, chk}` and reports `SUCCESS` iff the 3-byte reply is `Acknowledged`, with the given pause after it |
| Driver.Sensor.Reset | src/BM32S3021-1.cpp:189-205 | sends the checksum-correct bare frame for 0x10 and succeeds iff the reply is acknowledged |
| Driver.Sensor.DistanceLearning | src/BM32S3021-1.cpp:115-131 | sends the checksum-correct bare frame for 0x19 and succeeds iff the reply is acknowledged; 2000 ms pass after it |
| Driver.Sensor.GetFWVer | src/BM32S3021-1.cpp:159-181 | sends both read frames in order, the second one after the 10 ms pause, so it drains what arrived meanwhile; the result is the first register value plus some byte (0..510 in all), and exactly the sum of both register values when the second read passes |
| Driver.Sensor.ReadIrA2A5 | src/BM32S3021-1.cpp:574-591 | on a good 9-byte reply, copies its bytes 4..7 into buff[0..3] after a 10 ms pause and returns `SUCCESS`; otherwise returns `FAIL` at once with buff untouched |
| Driver.Sensor.CopyA2A5 | src/BM32S3021-1.cpp:584-587 | buff[0..3] receive rbuf[4..7]; the rest of buff is unchanged |
| Driver.Sensor.ReadIrA6Ab | src/BM32S3021-1.cpp:609-628 | on a good 11-byte reply, copies its bytes 4..9 into buff[0..5] after a 10 ms pause and returns `SUCCESS`; otherwise returns `FAIL` at once with buff untouched |
| Driver.Sensor.CopyA6Ab | src/BM32S3021-1.cpp:619-624 | buff[0..5] receive rbuf[4..9]; the rest of buff is unchanged |

## Left out

- The constructors, `begin`, `pinMode` and `getINT`: they set up pins and the serial port, and `getINT` is a bare `digitalRead`. `Sensor` is built around a `Link` it is given.
- Time is counted only in ticks of one millisecond, each of which brings the head byte of the input one poll closer. While a pause lasts, the bytes behind a readable head byte do not come closer, because each arrival's wait counts from the moment the byte before it is taken. A pause lowers only the head byte's wait; once the head is readable, so is every byte right behind it whose wait is 0, and the next drain removes them all (`Serial.PauseReleasesReadyRun`).
- Real time, baud rates and the time a byte takes on the wire are not modelled.
- The choice between `SoftwareSerial` and `HardwareSerial`: the two branches are identical, so there is one abstract stream. Baud rates and the library classes are not modelled.
- The meaning of the status bits and the time units in the doc comments: the driver returns raw bytes and does not interpret them.
- What the sensor does with the registers, including the unlock by writing 0xAA through `writeVerL`: that is device-side behaviour. The reply is part of the input stream.
- Driver.Sensor.ReadBytes: requires `timeOut < 255` or at least `rlen` pending arrivals. With a wrapped counter and a byte that never comes, the source polls forever, and a terminating model cannot return from that case.
- Driver.Sensor.ReadBytes: requires `1 <= rlen`. With `rlen == 0` the source reads `rbuf[-1]`, outside the buffer; every caller passes 3, 6, 9 or 11.
- Driver.Sensor.ReadBytes: the reception part and the per-byte poll loop are the separate methods `ReceiveBytes` and `AwaitByte`. A timeout leaves the reception loop by `break` and returns `TIMEOUT_ERROR` before the checksum loop, which is what the source's early `return` does.
- Driver.Sensor.SetRegister and Driver.Sensor.RunCommand share the reply check `ReadAck`; the source repeats the same nested checks with a `delay` on each path in every setter and command.
- Driver.Sensor.ReadIrA2A5: requires `buff.Length >= 4`, and Driver.Sensor.ReadIrA6Ab requires `buff.Length >= 6`. The source documents these minimum array lengths and cannot check them. The copies into `buff` are the helpers `CopyA2A5` and `CopyA6Ab`, with the same assignments in the same order.
- The drain in `writeBytes` removes only bytes that are readable at that moment. A reply is modelled as arrivals whose first byte still waits, so that it survives the drain.
- Driver.Sensor.GetFWVer: the byte `verh` that is never assigned when the second read fails is modelled as an arbitrary byte, chosen by `:| true`. The C value is indeterminate.
