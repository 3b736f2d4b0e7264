/** Bytes, bit operations, big-endian fields and the option type shared by every component. */
module Bytes {

  datatype Option<+T> = None | Some(value: T)

  type byte = b: int | 0 <= b < 256

  /** The three bit operators the proxy applies to bytes. */
  datatype BitOp = OpXor | OpAnd | OpAndNot

  function OnBit(op: BitOp, a: int, b: int): (r: int)
    requires 0 <= a < 2 && 0 <= b < 2
    ensures 0 <= r < 2
  {
    match op
    case OpXor => if a == b then 0 else 1
    case OpAnd => if a == 1 then b else 0
    case OpAndNot => if a == 1 then 1 - b else 0
  }

  function Pow2(n: nat): (p: nat)
    ensures p > 0
  {
    if n == 0 then 1 else 2 * Pow2(n - 1)
  }

  /** `op` applied bit by bit to the `n` low bits. */
  function Bitwise(op: BitOp, a: nat, b: nat, n: nat): (r: nat)
    ensures r < Pow2(n)
  {
    if n == 0 then 0
    else OnBit(op, a % 2, b % 2) + 2 * Bitwise(op, a / 2, b / 2, n - 1)
  }

  function OnBytes(op: BitOp, a: byte, b: byte): byte {
    Pow2Of8();
    Bitwise(op, a, b, 8)
  }

  function Xor(a: byte, b: byte): byte { OnBytes(OpXor, a, b) }

  function And(a: byte, b: byte): byte { OnBytes(OpAnd, a, b) }

  /** Go's `a &^ b`: the bits of `a` that are not set in `b`. */
  function AndNot(a: byte, b: byte): byte { OnBytes(OpAndNot, a, b) }

  lemma BitSplit(r: nat, x: nat)
    requires r < 2
    ensures (r + 2 * x) % 2 == r && (r + 2 * x) / 2 == x
  {
  }

  lemma {:induction false} BitwiseXorInverts(a: nat, b: nat, n: nat)
    requires a < Pow2(n)
    ensures Bitwise(OpXor, Bitwise(OpXor, a, b, n), b, n) == a
  {
    if n == 0 {
    } else {
      BitSplit(OnBit(OpXor, a % 2, b % 2), Bitwise(OpXor, a / 2, b / 2, n - 1));
      BitwiseXorInverts(a / 2, b / 2, n - 1);
    }
  }

  lemma XorInverts(a: byte, b: byte)
    ensures Xor(Xor(a, b), b) == a
  {
    Pow2Of8();
    BitwiseXorInverts(a, b, 8);
  }

  lemma {:induction false} BitwiseXorZero(b: nat, n: nat)
    requires b < Pow2(n)
    ensures Bitwise(OpXor, 0, b, n) == b
  {
    if n == 0 {
    } else {
      BitwiseXorZero(b / 2, n - 1);
    }
  }

  lemma XorZero(b: byte)
    ensures Xor(0, b) == b
  {
    Pow2Of8();
    BitwiseXorZero(b, 8);
  }

  lemma OnBitClear(a: int, m: int, c: int)
    requires 0 <= a < 2 && 0 <= m < 2 && 0 <= c < 2
    ensures OnBit(OpAndNot, OnBit(OpAnd, a, m), c) == OnBit(OpAnd, a, OnBit(OpAndNot, m, c))
  {
  }

  lemma BitwiseStep(op: BitOp, a: nat, b: nat, n: nat)
    ensures var r := Bitwise(op, a, b, n + 1); r % 2 == OnBit(op, a % 2, b % 2) && r / 2 == Bitwise(op, a / 2, b / 2, n)
  {
    BitSplit(OnBit(op, a % 2, b % 2), Bitwise(op, a / 2, b / 2, n));
  }

  lemma {:induction false} BitwiseClear(a: nat, m: nat, c: nat, n: nat, x: nat, y: nat)
    requires x == Bitwise(OpAnd, a, m, n) && y == Bitwise(OpAndNot, m, c, n)
    ensures Bitwise(OpAndNot, x, c, n) == Bitwise(OpAnd, a, y, n)
  {
    if n == 0 {
    } else {
      BitwiseStep(OpAnd, a, m, n - 1);
      BitwiseStep(OpAndNot, m, c, n - 1);
      OnBitClear(a % 2, m % 2, c % 2);
      BitwiseClear(a / 2, m / 2, c / 2, n - 1, x / 2, y / 2);
    }
  }

  /** Clearing bits after masking is masking with those bits cleared in the mask. */
  lemma ClearAfterMask(a: byte, m: byte, c: byte)
    ensures AndNot(And(a, m), c) == And(a, AndNot(m, c))
  {
    BitwiseClear(a, m, c, 8, And(a, m), AndNot(m, c));
  }

  lemma {:induction false} BitwiseKeep(a: nat, n: nat)
    requires a < Pow2(n)
    ensures Bitwise(OpAndNot, a, 0, n) == a
  {
    if n == 0 {
    } else {
      BitwiseKeep(a / 2, n - 1);
    }
  }

  /** Of `n` bits whose `z` lowest are clear, `1 << z` clears exactly the next one. */
  lemma {:induction false} BitwiseDropLast(n: nat, z: nat)
    requires z < n
    ensures Pow2(z) <= Pow2(n) && Pow2(z + 1) <= Pow2(n)
    ensures Bitwise(OpAndNot, Pow2(n) - Pow2(z), Pow2(z), n) == Pow2(n) - Pow2(z + 1)
  {
    if z == 0 {
      assert Pow2(n) - 1 == 1 + 2 * (Pow2(n - 1) - 1);
      BitSplit(1, Pow2(n - 1) - 1);
      BitwiseKeep(Pow2(n - 1) - 1, n - 1);
    } else {
      BitwiseDropLast(n - 1, z - 1);
      BitSplit(0, Pow2(n - 1) - Pow2(z - 1));
      BitSplit(0, Pow2(z - 1));
    }
  }

  lemma {:induction false} Pow2Monotone(k: nat, n: nat)
    requires k <= n
    ensures Pow2(k) <= Pow2(n)
  {
    if k < n { Pow2Monotone(k, n - 1); }
  }

  lemma Pow2Of8()
    ensures Pow2(8) == 256
  {
    assert Pow2(4) == 16;
  }

  /** A mask byte with `j` leading ones. */
  function LeadingOnes(j: nat): byte
    requires j <= 8
  {
    Pow2Of8(); Pow2Monotone(8 - j, 8);
    256 - Pow2(8 - j)
  }

  /** Go's `1 << s` on a byte. */
  function LowBit(s: nat): byte
    requires s < 8
  {
    Pow2Of8(); Pow2Monotone(s, 7);
    Pow2(s)
  }

  lemma DropLastOneOf(x: byte, y: byte, r: byte, z: nat)
    requires z < 8 && Pow2(8) == 256
    requires x == Pow2(8) - Pow2(z) && y == Pow2(z) && r == Pow2(8) - Pow2(z + 1)
    ensures AndNot(x, y) == r
  {
    BitwiseDropLast(8, z);
  }

  lemma DropLastOne(j: nat)
    requires j < 8
    ensures AndNot(LeadingOnes(j + 1), LowBit(7 - j)) == LeadingOnes(j)
  {
    Pow2Of8();
    DropLastOneOf(LeadingOnes(j + 1), LowBit(7 - j), LeadingOnes(j), 7 - j);
  }

  /** Clearing bit `7 - j` of a byte masked to `j + 1` leading bits masks it to `j` bits. */
  lemma MaskStep(b: byte, j: nat)
    requires j < 8
    ensures AndNot(And(b, LeadingOnes(j + 1)), LowBit(7 - j)) == And(b, LeadingOnes(j))
  {
    DropLastOne(j);
    ClearAfterMask(b, LeadingOnes(j + 1), LowBit(7 - j));
  }

  // Bit by bit.

  /** Bit `k` of `a`, counted from the least significant. */
  function BitAt(a: nat, k: nat): (b: int)
    ensures b == 0 || b == 1
  {
    if k == 0 then a % 2 else BitAt(a / 2, k - 1)
  }

  lemma {:induction false} BitwiseAt(op: BitOp, a: nat, b: nat, n: nat, k: nat)
    requires k < n
    ensures BitAt(Bitwise(op, a, b, n), k) == OnBit(op, BitAt(a, k), BitAt(b, k))
    decreases n
  {
    BitwiseStep(op, a, b, n - 1);
    if k > 0 { BitwiseAt(op, a / 2, b / 2, n - 1, k - 1); }
  }

  lemma {:induction false} OnesAt(n: nat, z: nat, k: nat)
    requires z <= n && k < n
    ensures Pow2(z) <= Pow2(n) && BitAt(Pow2(n) - Pow2(z), k) == if k >= z then 1 else 0
  {
    Pow2Monotone(z, n);
    if z == 0 {
      BitSplit(1, Pow2(n - 1) - 1);
      if k > 0 { OnesAt(n - 1, 0, k - 1); }
    } else {
      Pow2Monotone(z - 1, n - 1);
      BitSplit(0, Pow2(n - 1) - Pow2(z - 1));
      if k > 0 { OnesAt(n - 1, z - 1, k - 1); }
    }
  }

  /** Numbers of `n` bits are equal if all these bits are. */
  lemma {:induction false} SameBits(a: nat, b: nat, n: nat)
    requires a < Pow2(n) && b < Pow2(n) && forall k :: 0 <= k < n ==> BitAt(a, k) == BitAt(b, k)
    ensures a == b
  {
    if n == 0 {
    } else {
      assert BitAt(a, 0) == BitAt(b, 0);
      forall k | 0 <= k < n - 1 ensures BitAt(a / 2, k) == BitAt(b / 2, k) {
        assert BitAt(a, k + 1) == BitAt(b, k + 1);
      }
      SameBits(a / 2, b / 2, n - 1);
    }
  }

  lemma XorAt(a: byte, b: byte, k: nat)
    requires k < 8
    ensures BitAt(Xor(a, b), k) == (BitAt(a, k) + BitAt(b, k)) % 2
  {
    Pow2Of8();
    BitwiseAt(OpXor, a, b, 8, k);
  }

  /** A byte masked to its `j` leading bits. */
  lemma MaskedByteAt(b: byte, j: nat, k: nat)
    requires j <= 8 && k < 8
    ensures BitAt(And(b, LeadingOnes(j)), k) == if k >= 8 - j then BitAt(b, k) else 0
  {
    Pow2Of8();
    BitwiseAt(OpAnd, b, LeadingOnes(j), 8, k);
    OnesAt(8, 8 - j, k);
  }

  function Zeros(n: nat): (z: seq<byte>)
    ensures |z| == n && forall i :: 0 <= i < n ==> z[i] == 0
  {
    seq(n, _ => 0)
  }

  function BE16(n: int): (s: seq<byte>)
    requires 0 <= n < 0x10000
    ensures |s| == 2
  {
    [n / 256, n % 256]
  }

  function U16(s: seq<byte>): (n: int)
    requires |s| == 2
    ensures 0 <= n < 0x10000 && BE16(n) == s
  {
    var hi: int := s[0];
    hi * 256 + s[1]
  }

  lemma BE16RoundTrip(n: int)
    requires 0 <= n < 0x10000
    ensures U16(BE16(n)) == n
  {
  }

  function BE32(n: int): (s: seq<byte>)
    requires 0 <= n < 0x1_0000_0000
    ensures |s| == 4
  {
    BE16(n / 0x10000) + BE16(n % 0x10000)
  }

  /** Most significant byte first. */
  lemma BE32Bytes(a: byte, b: byte, c: byte, d: byte)
    ensures var n := a * 0x100_0000 + b * 0x1_0000 + c * 0x100 + d;
            n < 0x1_0000_0000 && BE32(n) == [a, b, c, d]
  {
    U32Halves(a * 0x100 + b, c * 0x100 + d);
  }

  function U32(s: seq<byte>): (n: int)
    requires |s| == 4
    ensures 0 <= n < 0x1_0000_0000 && BE32(n) == s
  {
    var hi, lo := U16(s[..2]), U16(s[2..]);
    U32Halves(hi, lo);
    assert s == s[..2] + s[2..];
    hi * 0x10000 + lo
  }

  lemma BE32RoundTrip(n: int)
    requires 0 <= n < 0x1_0000_0000
    ensures U32(BE32(n)) == n
  {
    var s := BE32(n);
    assert s[..2] == BE16(n / 0x10000) && s[2..] == BE16(n % 0x10000);
    BE16RoundTrip(n / 0x10000);
    BE16RoundTrip(n % 0x10000);
  }

  lemma U32Halves(hi: int, lo: int)
    requires 0 <= hi < 0x10000 && 0 <= lo < 0x10000
    ensures var n := hi * 0x10000 + lo;
            0 <= n < 0x1_0000_0000 && n / 0x10000 == hi && n % 0x10000 == lo
  {
  }
}
