/** IP addresses, network masks and the canonical subnet a cache key is built from. */
module IpNet {
  import opened Bytes

  /** Four or sixteen bytes when well formed; other lengths occur in malformed input. */
  type IP = seq<byte>

  /** A subnet as the resolver passes it around; `None` stands for a nil slice. */
  datatype IPNet = IPNet(ip: Option<IP>, mask: Option<seq<byte>>)

  /** How many of the leading `p` bits fall into byte `i`. */
  function BitsIn(p: nat, i: nat): (n: nat)
    ensures n <= 8
  {
    if p <= 8 * i then 0 else if p >= 8 * i + 8 then 8 else p - 8 * i
  }

  /** A mask of `l` bytes with `ones` leading ones. */
  function MaskBytes(ones: nat, l: nat): (m: seq<byte>)
    ensures |m| == l && forall i :: 0 <= i < l ==> m[i] == LeadingOnes(BitsIn(ones, i))
  {
    seq(l, i requires 0 <= i => LeadingOnes(BitsIn(ones, i)))
  }

  function CIDRMask(ones: int, bits: nat): Option<seq<byte>> {
    if (bits != 32 && bits != 128) || ones < 0 || ones > bits then None else Some(MaskBytes(ones, bits / 8))
  }

  /** The leading ones of a byte that is all ones then all zeros. */
  function CountOnes(v: byte): Option<nat>
    requires v < 255
    decreases v
  {
    if v < 128 then (if v == 0 then Some(0) else None)
    else
      var rest := CountOnes((v - 128) * 2);
      if rest.None? then None else Some(1 + rest.value)
  }

  predicate TailZero(mask: seq<byte>) {
    forall i :: 1 <= i < |mask| ==> mask[i] == 0
  }

  function SimpleMaskLength(mask: seq<byte>): Option<nat> {
    if mask == [] then Some(0)
    else if mask[0] == 0xff then
      var rest := SimpleMaskLength(mask[1..]);
      if rest.None? then None else Some(8 + rest.value)
    else if TailZero(mask) then CountOnes(mask[0]) else None
  }

  /** Go's `IPMask.Size`: a mask that is not ones then zeros has size `(0, 0)`. */
  function Size(mask: seq<byte>): (int, nat) {
    var n := SimpleMaskLength(mask);
    if n.None? then (0, 0) else (n.value, 8 * |mask|)
  }

  lemma LeadingOnesFacts(j: nat)
    requires j <= 8
    ensures LeadingOnes(0) == 0 && LeadingOnes(8) == 255
    ensures 0 < j < 8 ==> 128 <= LeadingOnes(j) < 255 && LeadingOnes(j - 1) == (LeadingOnes(j) - 128) * 2
  {
    Pow2Of8();
    if 0 < j < 8 {
      assert Pow2(9 - j) == 2 * Pow2(8 - j);
      Pow2Monotone(8 - j, 7);
      Pow2Monotone(1, 8 - j);
    }
  }

  lemma {:induction false} CountOnesSound(v: byte)
    requires v < 255 && CountOnes(v).Some?
    ensures CountOnes(v).value < 8 && v == LeadingOnes(CountOnes(v).value)
    decreases v
  {
    LeadingOnesFacts(0);
    if v >= 128 {
      CountOnesSound((v - 128) * 2);
      LeadingOnesFacts(CountOnes(v).value);
    }
  }

  lemma {:induction false} CountOnesComplete(j: nat)
    requires j < 8
    ensures LeadingOnes(j) < 255 && CountOnes(LeadingOnes(j)) == Some(j)
  {
    LeadingOnesFacts(j);
    if j == 0 {
    } else {
      CountOnesComplete(j - 1);
    }
  }

  lemma MaskBytesCons(n: nat, l: nat)
    requires l > 0
    ensures MaskBytes(n, l) == [LeadingOnes(BitsIn(n, 0))] + MaskBytes(if n >= 8 then n - 8 else 0, l - 1)
  {
  }

  /** `Size` recognises exactly the masks `CIDRMask` makes, and gives their length back. */
  lemma {:induction false} SizeSound(mask: seq<byte>)
    requires SimpleMaskLength(mask).Some?
    ensures SimpleMaskLength(mask).value <= 8 * |mask| && mask == MaskBytes(SimpleMaskLength(mask).value, |mask|)
  {
    if mask == [] {
    } else {
      LeadingOnesFacts(0);
      var n := SimpleMaskLength(mask).value;
      assert mask == [mask[0]] + mask[1..];
      if mask[0] == 255 {
        SizeSound(mask[1..]);
        MaskBytesCons(n, |mask|);
      } else {
        CountOnesSound(mask[0]);
        MaskBytesCons(n, |mask|);
        assert mask[1..] == MaskBytes(0, |mask| - 1);
      }
    }
  }

  lemma {:induction false} SizeComplete(n: nat, l: nat)
    requires n <= 8 * l
    ensures SimpleMaskLength(MaskBytes(n, l)) == Some(n)
  {
    if l == 0 {
    } else {
      var mask := MaskBytes(n, l);
      LeadingOnesFacts(0);
      MaskBytesCons(n, l);
      if n >= 8 {
        SizeComplete(n - 8, l - 1);
        assert mask[1..] == MaskBytes(n - 8, l - 1);
      } else {
        CountOnesComplete(n);
        assert mask[1..] == MaskBytes(0, l - 1);
        assert TailZero(mask);
      }
    }
  }

  const V4_IN_V6_PREFIX: IP := [0, 0, 0, 0, 0, 0, 0, 0, 0, 0, 0xff, 0xff]

  function To4(ip: IP): Option<IP> {
    if |ip| == 4 then Some(ip)
    else if |ip| == 16 && ip[..12] == V4_IN_V6_PREFIX then Some(ip[12..])
    else None
  }

  function To16(ip: IP): Option<IP> {
    if |ip| == 4 then Some(V4_IN_V6_PREFIX + ip) else if |ip| == 16 then Some(ip) else None
  }

  function ApplyMask(ip: IP, mask: seq<byte>): (r: IP)
    requires |ip| == |mask|
    ensures |r| == |ip| && forall i :: 0 <= i < |ip| ==> r[i] == And(ip[i], mask[i])
  {
    seq(|ip|, i requires 0 <= i < |ip| => And(ip[i], mask[i]))
  }

  /** Go's `IP.Mask`; `None` when the lengths do not fit. */
  function MaskIP(ip: IP, mask: seq<byte>): Option<IP> {
    var all1 := |mask| == 16 && forall i :: 0 <= i < 12 ==> mask[i] == 0xff;
    var mask' := if |ip| == 4 && all1 then mask[12..] else mask;
    var ip' := if |mask'| == 4 && |ip| == 16 && ip[..12] == V4_IN_V6_PREFIX then ip[12..] else ip;
    if |ip'| == |mask'| then Some(ApplyMask(ip', mask')) else None
  }

  /** The address with everything after its first `p` bits cleared. */
  function Masked(ip: IP, p: nat): (r: IP)
    ensures |r| == |ip|
  {
    ApplyMask(ip, MaskBytes(p, |ip|))
  }

  lemma {:induction false} AndZero(a: nat, n: nat)
    ensures Bitwise(OpAnd, a, 0, n) == 0
  {
    if n == 0 {
    } else {
      AndZero(a / 2, n - 1);
    }
  }

  lemma {:induction false} AndTwice(a: nat, b: nat, n: nat)
    ensures Bitwise(OpAnd, Bitwise(OpAnd, a, b, n), b, n) == Bitwise(OpAnd, a, b, n)
  {
    if n == 0 {
    } else {
      AndTwice(a / 2, b / 2, n - 1);
    }
  }

  lemma MaskedIdempotent(ip: IP, p: nat)
    ensures Masked(Masked(ip, p), p) == Masked(ip, p)
  {
    forall i | 0 <= i < |ip| ensures Masked(Masked(ip, p), p)[i] == Masked(ip, p)[i] {
      AndTwice(ip[i], LeadingOnes(BitsIn(p, i)), 8);
    }
  }

  lemma MaskedTailZero(ip: IP, p: nat, i: nat)
    requires i < |ip| && p <= 8 * i
    ensures Masked(ip, p)[i] == 0
  {
    LeadingOnesFacts(0);
    AndZero(ip[i], 8);
  }

  lemma {:induction false} AndAtMost(a: nat, b: nat, n: nat)
    ensures Bitwise(OpAnd, a, b, n) <= b
  {
    if n == 0 {
    } else {
      AndAtMost(a / 2, b / 2, n - 1);
    }
  }

  lemma {:induction false} AndOnes(a: nat, n: nat)
    requires a < Pow2(n)
    ensures Bitwise(OpAnd, a, Pow2(n) - 1, n) == a
  {
    if n == 0 {
    } else {
      BitSplit(1, Pow2(n - 1) - 1);
      AndOnes(a / 2, n - 1);
    }
  }

  lemma MaskedKeeps(ip: IP, bits: nat, i: nat)
    requires i < |ip| && 8 * i + 8 <= bits
    ensures Masked(ip, bits)[i] == ip[i]
  {
    Pow2Of8();
    AndOnes(ip[i], 8);
  }

  lemma MaskedCuts(ip: IP, bits: nat, i: nat)
    requires i < |ip| && bits < 8 * i + 8
    ensures Masked(ip, bits)[i] != 0xff
  {
    var m := LeadingOnes(BitsIn(bits, i));
    AndAtMost(ip[i], m, 8);
  }

  /** Going from `/m+1` to `/m` clears exactly the last network bit. */
  lemma MaskedStep(ip: IP, m: nat)
    requires m < 8 * |ip|
    ensures var i := m / 8;
            Masked(ip, m) == Masked(ip, m + 1)[i := AndNot(Masked(ip, m + 1)[i], LowBit(7 - m % 8))]
  {
    var i := m / 8;
    assert BitsIn(m + 1, i) == m % 8 + 1 && BitsIn(m, i) == m % 8;
    MaskStep(ip[i], m % 8);
    assert forall j :: 0 <= j < |ip| && j != i ==> BitsIn(m + 1, j) == BitsIn(m, j);
  }

  /** Bit `i` of an address, counted from its most significant. */
  function Bit(ip: IP, i: nat): int
    requires i < 8 * |ip|
  {
    BitAt(ip[i / 8], 7 - i % 8)
  }

  /** Masking keeps the first `p` bits and clears the others. */
  lemma MaskedBit(ip: IP, p: nat, i: nat)
    requires i < 8 * |ip|
    ensures Bit(Masked(ip, p), i) == if i < p then Bit(ip, i) else 0
  {
    MaskedByteAt(ip[i / 8], BitsIn(p, i / 8), 7 - i % 8);
  }

  /** Addresses of one family that agree in their first `p` bits. */
  ghost predicate SamePrefix(a: IP, b: IP, p: nat) {
    |a| == |b| && forall i :: 0 <= i < p && i < 8 * |a| ==> Bit(a, i) == Bit(b, i)
  }

  lemma SameByBits(a: IP, b: IP)
    requires |a| == |b| && forall i :: 0 <= i < 8 * |a| ==> Bit(a, i) == Bit(b, i)
    ensures a == b
  {
    forall j | 0 <= j < |a| ensures a[j] == b[j] {
      forall k | 0 <= k < 8 ensures BitAt(a[j], k) == BitAt(b[j], k) {
        var i := 8 * j + (7 - k);
        assert i / 8 == j && i % 8 == 7 - k && Bit(a, i) == Bit(b, i);
      }
      Pow2Of8();
      SameBits(a[j], b[j], 8);
    }
  }

  /** Masked addresses are equal exactly if the bits kept are. */
  lemma MaskedSameIff(a: IP, b: IP, p: nat)
    requires |a| == |b|
    ensures Masked(a, p) == Masked(b, p) <==> SamePrefix(a, b, p)
  {
    forall i | 0 <= i < 8 * |a|
      ensures Bit(Masked(a, p), i) == if i < p then Bit(a, i) else 0
      ensures Bit(Masked(b, p), i) == if i < p then Bit(b, i) else 0
    {
      MaskedBit(a, p, i);
      MaskedBit(b, p, i);
    }
    if SamePrefix(a, b, p) {
      SameByBits(Masked(a, p), Masked(b, p));
    } else {
      var i :| 0 <= i < p && i < 8 * |a| && Bit(a, i) != Bit(b, i);
      assert Bit(Masked(a, p), i) != Bit(Masked(b, p), i);
    }
  }

  /** The canonical subnet: a masked address, and its prefix length. */
  datatype Subnet = Subnet(ip: IP, prefix: nat)

  /** The client address and prefix length of `n`, validated but not masked yet. */
  function ClientSubnet(n: IPNet): Option<Subnet> {
    var ip := if n.ip.Some? then n.ip.value else [];
    if n.mask.None? then
      if n.ip.None? || To16(ip).Some? then Some(Subnet([], 0)) else None
    else
      var (ones, bits) := Size(n.mask.value);
      if bits == 32 then
        if To4(ip).Some? && ones >= 0 then Some(Subnet(To4(ip).value, ones)) else None
      else if bits == 128 && To4(ip).None? then
        if To16(ip).Some? && ones >= 0 then Some(Subnet(To16(ip).value, ones)) else None
      else None
  }

  /** `cacheSubnet`: nil masks denote the global entry, and invalid subnets are refused. */
  function CacheSubnet(n: Option<IPNet>): Option<Subnet> {
    if n.None? || ClientSubnet(n.value).None? then None
    else if n.value.mask.None? then ClientSubnet(n.value)
    else
      var c := ClientSubnet(n.value).value;
      var masked := MaskIP(c.ip, n.value.mask.value);
      Some(Subnet(if masked.Some? then masked.value else [], c.prefix))
  }

  /** A subnet in canonical form: nothing after the prefix, and a length that fits the family. */
  ghost predicate Canonical(s: Subnet) {
    s.prefix > 0 ==> (|s.ip| == 4 || |s.ip| == 16) && s.prefix <= 8 * |s.ip| && s.ip == Masked(s.ip, s.prefix)
  }

  lemma ClientSubnetFits(n: IPNet)
    requires ClientSubnet(n).Some? && n.mask.Some?
    ensures var c := ClientSubnet(n).value;
            (|c.ip| == 4 || |c.ip| == 16) && c.prefix <= 8 * |c.ip| && n.mask.value == MaskBytes(c.prefix, |c.ip|)
  {
    SizeSound(n.mask.value);
  }

  /** Whatever `cacheSubnet` accepts is the client's address masked to its own prefix length,
      and it is in canonical form. */
  lemma CacheSubnetMasks(n: IPNet)
    requires ClientSubnet(n).Some?
    ensures var c := ClientSubnet(n).value;
            CacheSubnet(Some(n)) == Some(Subnet(Masked(c.ip, c.prefix), c.prefix))
    ensures Canonical(CacheSubnet(Some(n)).value)
  {
    var c := ClientSubnet(n).value;
    if n.mask.Some? { ClientSubnetFits(n); }
    MaskedIdempotent(c.ip, c.prefix);
  }

  lemma CacheSubnetFits(n: IPNet)
    requires CacheSubnet(Some(n)).Some?
    ensures CacheSubnet(Some(n)).value.prefix <= 128 && Canonical(CacheSubnet(Some(n)).value)
  {
    CacheSubnetMasks(n);
    if n.mask.Some? { ClientSubnetFits(n); }
  }

  /** An IPv4 address comes in two forms, of four and of sixteen bytes; other addresses have none. */
  lemma To4Exactly(ip: IP, a: IP)
    ensures To4(ip) == Some(a) <==> |a| == 4 && (ip == a || ip == V4_IN_V6_PREFIX + a)
    ensures To4(ip).None? <==> |ip| != 4 && (|ip| != 16 || ip[..12] != V4_IN_V6_PREFIX)
  {
    if |ip| == 16 { assert ip == ip[..12] + ip[12..]; }
    if ip == V4_IN_V6_PREFIX + a { assert ip[..12] == V4_IN_V6_PREFIX && ip[12..] == a; }
  }

  /** `a` is an address of four bytes, or one of sixteen that is not the long form of such. */
  predicate ProperIP(a: IP) {
    |a| == 4 || (|a| == 16 && a[..12] != V4_IN_V6_PREFIX)
  }

  /** The subnet `a/p`, as it is passed around. */
  function NetOf(a: IP, p: nat): IPNet { IPNet(Some(a), Some(MaskBytes(p, |a|))) }

  lemma ClientSubnetOf(a: IP, p: nat)
    requires ProperIP(a) && p <= 8 * |a|
    ensures ClientSubnet(NetOf(a, p)) == Some(Subnet(a, p))
    ensures |a| == 4 ==> ClientSubnet(IPNet(Some(V4_IN_V6_PREFIX + a), Some(MaskBytes(p, 4)))) == Some(Subnet(a, p))
  {
    SizeComplete(p, |a|);
    if |a| == 4 { To4Exactly(V4_IN_V6_PREFIX + a, a); } else { To4Exactly(a, a); }
  }

  /** A subnet is kept as its address with the first `p` bits kept and the others cleared; the two
      forms of an IPv4 address give one subnet. */
  lemma CacheSubnetOf(a: IP, p: nat)
    requires ProperIP(a) && p <= 8 * |a|
    ensures CacheSubnet(Some(NetOf(a, p))) == Some(Subnet(Masked(a, p), p))
    ensures var long := IPNet(Some(V4_IN_V6_PREFIX + a), Some(MaskBytes(p, 4)));
            |a| == 4 ==> CacheSubnet(Some(long)) == Some(Subnet(Masked(a, p), p))
  {
    ClientSubnetOf(a, p);
    CacheSubnetMasks(NetOf(a, p));
    if |a| == 4 { CacheSubnetMasks(IPNet(Some(V4_IN_V6_PREFIX + a), Some(MaskBytes(p, 4)))); }
  }

  /** Exactly these subnets with a mask are accepted; refused are an address and a mask that do not belong together, and
      a mask that is not ones then zeros. */
  lemma CacheSubnetAccepts(ip: IP, mask: seq<byte>)
    ensures CacheSubnet(Some(IPNet(Some(ip), Some(mask)))).Some? <==>
            exists a, p: nat :: ProperIP(a) && p <= 8 * |a| && mask == MaskBytes(p, |a|) &&
                           (ip == a || (|a| == 4 && ip == V4_IN_V6_PREFIX + a))
  {
    var n := IPNet(Some(ip), Some(mask));
    if CacheSubnet(Some(n)).Some? {
      ClientSubnetFits(n);
      var c := ClientSubnet(n).value;
      To4Exactly(ip, c.ip);
      assert ProperIP(c.ip) && c.prefix <= 8 * |c.ip| && mask == MaskBytes(c.prefix, |c.ip|);
    }
    forall a, p: nat | ProperIP(a) && p <= 8 * |a| && mask == MaskBytes(p, |a|) &&
                  (ip == a || (|a| == 4 && ip == V4_IN_V6_PREFIX + a))
      ensures CacheSubnet(Some(n)).Some?
    {
      CacheSubnetOf(a, p);
    }
  }
}
