/** The escaped text form in which a certificate travels in a TXT record. Text is bytes. */
module TxtString {
  import opened Bytes

  const QUOTE: byte := 34
  const BACKSLASH: byte := 92
  const SPACE: byte := 32
  const TILDE: byte := 126
  const ZERO: byte := 48
  const NINE: byte := 57

  /** A backslash and the three decimal digits of `b`. */
  function Decimal(b: byte): (s: seq<byte>)
    ensures |s| == 4
  {
    [BACKSLASH, ZERO + b / 100, ZERO + b / 10 % 10, ZERO + b % 10]
  }

  /** The escapes of the `n` bytes from `from` on, one after the other. */
  function EscapeTable(from: nat, n: nat): (t: seq<byte>)
    requires from + n <= 256
    ensures |t| == 4 * n
  {
    seq(4 * n, i requires 0 <= i < 4 * n => Decimal(from + i / 4)[i % 4])
  }

  const ESCAPED_SMALL := EscapeTable(0, 32)
  const ESCAPED_LARGE := EscapeTable(127, 129)

  lemma TableEntry(from: nat, n: nat, k: nat)
    requires from + n <= 256 && k < n
    ensures EscapeTable(from, n)[4 * k..4 * k + 4] == Decimal(from + k)
  {
    var entry := EscapeTable(from, n)[4 * k..4 * k + 4];
    forall j | 0 <= j < 4 ensures entry[j] == Decimal(from + k)[j] {
      assert (4 * k + j) / 4 == k && (4 * k + j) % 4 == j;
    }
  }

  predicate NeedsDecimal(b: byte) { b < SPACE || b > TILDE }

  /** `escapeByte` looks the escape up in one of the two tables. */
  method EscapeByte(b: byte) returns (escaped: seq<byte>)
    requires NeedsDecimal(b)
    ensures escaped == Decimal(b)
  {
    if b < SPACE {
      TableEntry(0, 32, b);
      return ESCAPED_SMALL[4 * b..4 * b + 4];
    }
    var k := b - (TILDE + 1);
    TableEntry(127, 129, k);
    return ESCAPED_LARGE[4 * k..4 * k + 4];
  }

  function Escape(b: byte): seq<byte> {
    if b == QUOTE || b == BACKSLASH then [BACKSLASH, b]
    else if NeedsDecimal(b) then Decimal(b)
    else [b]
  }

  function Packed(buf: seq<byte>): seq<byte> {
    if buf == [] then [] else Escape(buf[0]) + Packed(buf[1..])
  }

  lemma PackedFrom(buf: seq<byte>, i: nat, done: seq<byte>)
    requires i < |buf| && done + Packed(buf[i..]) == Packed(buf)
    ensures done + Escape(buf[i]) + Packed(buf[i + 1..]) == Packed(buf)
  {
    assert buf[i..][1..] == buf[i + 1..];
    Associative(done, Escape(buf[i]), Packed(buf[i + 1..]));
  }

  lemma Associative(a: seq<byte>, b: seq<byte>, c: seq<byte>)
    ensures a + (b + c) == a + b + c
  {
  }

  method PackByte(b: byte) returns (s: seq<byte>)
    ensures s == Escape(b)
  {
    if b == QUOTE || b == BACKSLASH {
      s := [BACKSLASH] + [b];
    } else if b < SPACE || b > TILDE {
      s := EscapeByte(b);
    } else {
      s := [b];
    }
  }

  method PackTxtString(buf: seq<byte>) returns (packed: seq<byte>)
    ensures packed == Packed(buf)
  {
    packed := [];
    var i := 0;
    while i < |buf|
      invariant 0 <= i <= |buf| && packed + Packed(buf[i..]) == Packed(buf)
    {
      PackedFrom(buf, i, packed);
      var s := PackByte(buf[i]);
      packed := packed + s;
      i := i + 1;
    }
  }

  predicate Digit(b: byte) { ZERO <= b <= NINE }

  predicate DigitSequence(s: seq<byte>) { forall i :: 0 <= i < |s| ==> Digit(s[i]) }

  method IsDigitSequence(s: seq<byte>) returns (ok: bool)
    ensures ok <==> DigitSequence(s)
  {
    for i := 0 to |s|
      invariant DigitSequence(s[..i])
    {
      if s[i] < ZERO || s[i] > NINE { return false; }
    }
    return true;
  }

  /** Byte arithmetic, which wraps around at 256. */
  function DddToByte(s: seq<byte>): byte
    requires |s| >= 3
  {
    ((s[0] - ZERO) * 100 + (s[1] - ZERO) * 10 + (s[2] - ZERO)) % 256
  }

  function Unescape(b: byte): byte {
    if b == 116 then 9 else if b == 114 then 13 else if b == 110 then 10 else b
  }

  /** The number of bytes a non-empty text gives its first unescaped byte, if any. */
  function Unit(bs: seq<byte>): (n: nat)
    requires bs != []
    ensures 0 < n <= |bs|
  {
    if bs[0] != BACKSLASH || |bs| == 1 then 1
    else if |bs| >= 4 && DigitSequence(bs[1..4]) then 4
    else 2
  }

  function UnitValue(bs: seq<byte>): seq<byte>
    requires bs != []
  {
    if bs[0] != BACKSLASH then [bs[0]]
    else if |bs| == 1 then []
    else if |bs| >= 4 && DigitSequence(bs[1..4]) then [DddToByte(bs[1..])]
    else [Unescape(bs[1])]
  }

  function Unpacked(bs: seq<byte>): seq<byte>
    decreases |bs|
  {
    if bs == [] then [] else UnitValue(bs) + Unpacked(bs[Unit(bs)..])
  }

  lemma UnpackedFrom(bs: seq<byte>, i: nat, msg: seq<byte>, whole: seq<byte>)
    requires i < |bs| && msg + Unpacked(bs[i..]) == whole
    ensures msg + UnitValue(bs[i..]) + Unpacked(bs[i + Unit(bs[i..])..]) == whole
  {
    var n := Unit(bs[i..]);
    assert bs[i..][n..] == bs[i + n..];
    Associative(msg, UnitValue(bs[i..]), Unpacked(bs[i + n..]));
  }

  /** One round of the loop from a backslash on. */
  method UnpackEscape(bs: seq<byte>, at: nat) returns (s: seq<byte>, next: nat)
    requires at < |bs| && bs[at] == BACKSLASH
    ensures s == UnitValue(bs[at..]) && next == at + Unit(bs[at..])
  {
    var i := at + 1;
    if i == |bs| { return [], i; }
    if i + 2 < |bs| {
      assert bs[at..][1..4] == bs[i..i + 3] && bs[at..][1..] == bs[i..];
      var digits := IsDigitSequence(bs[i..i + 3]);
      if digits { return [DddToByte(bs[i..])], i + 3; }
    }
    return [Unescape(bs[i])], i + 1;
  }

  method UnpackTxtString(bs: seq<byte>) returns (msg: seq<byte>)
    ensures msg == Unpacked(bs)
  {
    msg := [];
    var i := 0;
    while i < |bs|
      invariant 0 <= i <= |bs| && msg + Unpacked(bs[i..]) == Unpacked(bs)
      decreases |bs| - i
    {
      UnpackedFrom(bs, i, msg, Unpacked(bs));
      if bs[i] != BACKSLASH {
        msg := msg + [bs[i]];
        i := i + 1;
      } else {
        var s, next := UnpackEscape(bs, i);
        msg := msg + s;
        i := next;
      }
    }
  }

  /** The text form by section 5.1 of RFC 1035: a quote and a backslash behind a backslash, what is not
      printable as a backslash and three digits, all else as it is. */
  lemma PackedByte(b: byte, rest: seq<byte>)
    ensures Packed([b] + rest) == (
              if b == 34 || b == 92 then [92, b]
              else if 32 <= b <= 126 then [b]
              else [92, 48 + b / 100, 48 + b / 10 % 10, 48 + b % 10]) + Packed(rest)
  {
    assert ([b] + rest)[1..] == rest;
  }

  lemma DigitsUnit(bs: seq<byte>, x: nat, y: nat, z: nat)
    requires x <= 9 && y <= 9 && z <= 9
    requires |bs| >= 4 && bs[0] == 92 && bs[1] == 48 + x && bs[2] == 48 + y && bs[3] == 48 + z
    ensures Unit(bs) == 4 && UnitValue(bs) == [(100 * x + 10 * y + z) % 256]
  {
    assert DigitSequence(bs[1..4]);
  }

  /** Reading it: three digits behind a backslash are a number, of which a byte is kept. */
  lemma UnpackedDigits(bs: seq<byte>, x: nat, y: nat, z: nat, rest: seq<byte>)
    requires x <= 9 && y <= 9 && z <= 9 && bs == [92, 48 + x, 48 + y, 48 + z] + rest
    ensures Unpacked(bs) == [(100 * x + 10 * y + z) % 256] + Unpacked(rest)
  {
    DigitsUnit(bs, x, y, z);
    assert bs[4..] == rest;
  }

  /** `t`, `r` and `n` behind a backslash stand for control characters, any other byte there that is not
      the first of three digits for itself. */
  lemma UnpackedEscape(bs: seq<byte>, b: byte, rest: seq<byte>)
    requires bs == [92, b] + rest
    requires |rest| < 2 || !(48 <= b <= 57 && 48 <= rest[0] <= 57 && 48 <= rest[1] <= 57)
    ensures Unpacked(bs) ==
            [if b == 116 then 9 else if b == 114 then 13 else if b == 110 then 10 else b] + Unpacked(rest)
  {
    assert bs[2..] == rest;
    if |rest| >= 2 {
      var d := bs[1..4];
      assert d[0] == b && d[1] == rest[0] && d[2] == rest[1];
    }
  }

  /** A backslash at the end is dropped, and any other byte is as it is. */
  lemma UnpackedPlain(bs: seq<byte>, b: byte, rest: seq<byte>)
    requires bs == [b] + rest && (b == 92 ==> rest == [])
    ensures Unpacked(bs) == if b == 92 then [] else [b] + Unpacked(rest)
  {
    assert bs[1..] == rest;
  }

  lemma DecimalValue(b: byte, s: seq<byte>)
    requires |s| >= 3 && s[0] == Decimal(b)[1] && s[1] == Decimal(b)[2] && s[2] == Decimal(b)[3]
    ensures DigitSequence(s[..3]) && DddToByte(s) == b
  {
    assert b / 100 * 100 + b / 10 % 10 * 10 + b % 10 == b;
  }

  lemma EscapeIsUnit(b: byte, rest: seq<byte>)
    ensures Unit(Escape(b) + rest) == |Escape(b)| && UnitValue(Escape(b) + rest) == [b]
  {
    var bs := Escape(b) + rest;
    if NeedsDecimal(b) {
      DecimalValue(b, bs[1..]);
      assert bs[1..4] == bs[1..][..3];
    } else if b == QUOTE || b == BACKSLASH {
      if |bs| >= 4 { assert bs[1..4][0] == b; }
    }
  }

  /** Text form and back is the identity on every byte string. */
  lemma {:induction false} TextRoundTrip(buf: seq<byte>)
    ensures Unpacked(Packed(buf)) == buf
  {
    if buf == [] {
    } else {
      var rest := Packed(buf[1..]);
      EscapeIsUnit(buf[0], rest);
      assert Packed(buf)[|Escape(buf[0])|..] == rest;
      TextRoundTrip(buf[1..]);
    }
  }

  /** The text is printable ASCII without a quote that is not escaped. */
  lemma {:induction false} PackedPrintable(buf: seq<byte>, i: nat)
    requires i < |Packed(buf)|
    ensures SPACE <= Packed(buf)[i] <= TILDE
    ensures Packed(buf)[i] == QUOTE ==> i > 0 && Packed(buf)[i - 1] == BACKSLASH
  {
    var n := |Escape(buf[0])|;
    if i >= n { PackedPrintable(buf[1..], i - n); }
  }
}
