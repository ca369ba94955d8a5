/**
 The byte-level framing of the BM32S3021-1 UART protocol: 8-bit unsigned
 arithmetic, the one-byte additive checksum, and the three command shapes
 the driver sends (register read, register write, bare command).
 */
module Frames {

  newtype uint8 = x: int | 0 <= x < 0x100
  newtype uint16 = x: int | 0 <= x < 0x1_0000

  /** Every command frame starts with this header byte. */
  const Header: uint8 := 0x55
  /** Opcode of a register read. */
  const ReadOp: uint8 := 0x80
  /** Opcode of a register write. */
  const WriteOp: uint8 := 0xC0

  /** C's `uint8_t` addition: the sum truncated to 8 bits. */
  function Add8(a: uint8, b: uint8): (r: uint8)
  {
    ((a as int + b as int) % 0x100) as uint8
  }

  /** The mathematical (unbounded) sum of a byte sequence: the reference for Sum8. */
  function SumInt(s: seq<uint8>): (r: nat)
  {
    if s == [] then 0 else s[0] as nat + SumInt(s[1..])
  }

  /** The checksum accumulated in a `uint8_t`, one wrapping addition per byte. */
  function Sum8(s: seq<uint8>): (r: uint8)
    ensures r as int == SumInt(s) % 0x100
  {
    if s == [] then 0 else
      ModAdd(SumInt(s[1..]), s[0] as nat);
      Add8(s[0], Sum8(s[1..]))
  }

  lemma {:induction false} SumIntAppend(s: seq<uint8>, t: seq<uint8>)
    ensures SumInt(s + t) == SumInt(s) + SumInt(t)
  {
    if s == [] {
      assert s + t == t;
    } else {
      assert (s + t)[1..] == s[1..] + t;
      SumIntAppend(s[1..], t);
    }
  }

  /** Reducing modulo 256 before or after adding gives the same byte. */
  lemma ModAdd(x: nat, b: nat)
    ensures (x % 0x100 + b) % 0x100 == (x + b) % 0x100
  {
  }

  /** Adding one more byte to the accumulator is what the receive loop does per step. */
  lemma Sum8Snoc(s: seq<uint8>, b: uint8)
    ensures Sum8(s + [b]) == Add8(Sum8(s), b)
  {
    SumIntAppend(s, [b]);
    assert SumInt([b]) == b as nat by {
      assert [b][1..] == [];
    }
    ModAdd(SumInt(s), b as nat);
  }

  /** A frame passes the checksum: its last byte is the 8-bit sum of all bytes before it. */
  predicate Checked(f: seq<uint8>)
  {
    |f| >= 1 && Sum8(f[..|f| - 1]) == f[|f| - 1]
  }

  /** The frame carrying `body` after the header, closed by its checksum. */
  function Command(body: seq<uint8>): (f: seq<uint8>)
    ensures |f| == |body| + 2
    ensures f[0] == Header && f[1..|f| - 1] == body
    ensures Checked(f)
  {
    var prefix := [Header] + body;
    assert (prefix + [Sum8(prefix)])[..|prefix|] == prefix;
    prefix + [Sum8(prefix)]
  }

  /** `{0x55, 0x80, reg, count, chk}`: read `count` registers starting at `reg`. */
  function ReadCommand(reg: uint8, count: uint8): (f: seq<uint8>)
  {
    Command([ReadOp, reg, count])
  }

  /** `{0x55, 0xC0, reg, 0x01, v, chk}`: write `v` into register `reg`. */
  function WriteCommand(reg: uint8, v: uint8): (f: seq<uint8>)
  {
    Command([WriteOp, reg, 0x01, v])
  }

  /** `{0x55, op, chk}`: a command without operands (reset, distance learning). */
  function BareCommand(op: uint8): (f: seq<uint8>)
  {
    Command([op])
  }

  /** The sum of a short literal frame prefix, byte by byte. */
  lemma SumIntShort(a: uint8, b: uint8, c: uint8, d: uint8)
    ensures SumInt([a]) == a as int
    ensures SumInt([a, b]) == a as int + b as int
    ensures SumInt([a, b, c, d]) == a as int + b as int + c as int + d as int
  {
    assert [a][1..] == [];
    assert [a, b][1..] == [b] && [b][1..] == [];
    assert [d][1..] == [];
    assert SumInt([d]) == d as int;
    assert [c, d][1..] == [d];
    assert SumInt([c, d]) == c as int + d as int;
    assert [b, c, d][1..] == [c, d];
    assert SumInt([b, c, d]) == b as int + c as int + d as int;
    assert [a, b, c, d][1..] == [b, c, d];
  }

  /** A read frame is closed by 0x55 + 0x80 + reg + count in 8 bits. */
  lemma ReadCommandShape(reg: uint8, count: uint8)
    ensures ReadCommand(reg, count) == [Header, ReadOp, reg, count, ((0xD5 + reg as int + count as int) % 0x100) as uint8]
  {
    SumIntShort(Header, ReadOp, reg, count);
  }

  /** A bare command frame is closed by 0x55 + op in 8 bits. */
  lemma BareCommandShape(op: uint8)
    ensures BareCommand(op) == [Header, op, ((0x55 + op as int) % 0x100) as uint8]
  {
    SumIntShort(Header, op, 0, 0);
  }

  /** The checksum a setter needs, apart from the value it writes: 0x55 + 0xC0 + reg + 0x01 in 8 bits. */
  function WriteBase(reg: uint8): (k: uint8)
    ensures k as int == (0x116 + reg as int) % 0x100
  {
    SumIntShort(Header, WriteOp, reg, 0x01);
    Sum8([Header, WriteOp, reg, 0x01])
  }

  /** A write frame is closed by `v + K` with the register's constant K, for every one of the 256 values. */
  lemma WriteCommandShape(reg: uint8, v: uint8)
    ensures WriteCommand(reg, v) == [Header, WriteOp, reg, 0x01, v, Add8(v, WriteBase(reg))]
    ensures Checked(WriteCommand(reg, v))
  {
    var f := WriteCommand(reg, v);
    var prefix := [Header, WriteOp, reg, 0x01];
    assert f[..5] == prefix + [v];
    Sum8Snoc(prefix, v);
  }

  /** The all-zero sequence of length n. */
  function Zeros(n: nat): (z: seq<uint8>)
    ensures |z| == n && forall k :: 0 <= k < n ==> z[k] == 0
  {
    seq(n, _ => 0)
  }

  lemma {:induction false} SumIntZeros(n: nat)
    ensures SumInt(Zeros(n)) == 0
  {
    if n > 0 {
      assert Zeros(n)[1..] == Zeros(n - 1);
      SumIntZeros(n - 1);
    }
  }

  /** An all-zero reply (a silent line read as zeros) passes the checksum, because 0 == 0. */
  lemma ZerosChecked(n: nat)
    requires n >= 1
    ensures Checked(Zeros(n))
  {
    assert Zeros(n)[..n - 1] == Zeros(n - 1);
    SumIntZeros(n - 1);
  }

  /** A one-byte reply has an empty prefix whose sum is 0, so it passes exactly when it is 0. */
  lemma SingleByteChecked(b: uint8)
    ensures Checked([b]) <==> b == 0
  {
    assert [b][..0] == [];
  }
}
