/** Cache keys: their byte layout, and what two equal keys have in common. */
module CacheKey {
  import opened Bytes
  import opened IpNet

  /** What a request contributes to a key: its only question and its DO bit. */
  datatype Request = Request(name: seq<byte>, qtype: int, qclass: int, doBit: bool)

  predicate ValidRequest(q: Request) {
    0 <= q.qtype < 0x10000 && 0 <= q.qclass < 0x10000
  }

  function LowerByte(b: byte): byte {
    if 65 <= b <= 90 then b + 32 else b
  }

  function LowerName(name: seq<byte>): (r: seq<byte>)
    ensures |r| == |name| && forall i :: 0 <= i < |name| ==> r[i] == LowerByte(name[i])
  {
    seq(|name|, i requires 0 <= i < |name| => LowerByte(name[i]))
  }

  /** Equal but for the case of ASCII letters, byte by byte. */
  predicate SameName(a: seq<byte>, b: seq<byte>) {
    && |a| == |b|
    && forall i :: 0 <= i < |a| ==>
         || a[i] == b[i]
         || (65 <= a[i] <= 90 && b[i] == a[i] + 32) || (65 <= b[i] <= 90 && a[i] == b[i] + 32)
  }

  lemma SameNameIff(a: seq<byte>, b: seq<byte>)
    ensures LowerName(a) == LowerName(b) <==> SameName(a, b)
  {
    if LowerName(a) == LowerName(b) {
      assert |LowerName(a)| == |LowerName(b)|;
      forall i | 0 <= i < |a| ensures LowerByte(a[i]) == LowerByte(b[i]) {
        assert LowerName(a)[i] == LowerName(b)[i];
      }
    }
  }

  const KEY_MASK_INDEX := 5
  const KEY_IP_INDEX := 6

  /** DO bit, type and class: the part both kinds of key start with. */
  function Header(q: Request): (h: seq<byte>)
    requires ValidRequest(q)
    ensures |h| == KEY_MASK_INDEX
  {
    [if q.doBit then 1 else 0] + BE16(q.qtype) + BE16(q.qclass)
  }

  function MsgToKey(q: Request): seq<byte>
    requires ValidRequest(q)
  {
    Header(q) + LowerName(q.name)
  }

  function MsgToKeyWithSubnet(q: Request, s: Subnet): seq<byte>
    requires ValidRequest(q) && s.prefix <= 128
  {
    Header(q) + [s.prefix] + (if s.prefix != 0 then s.ip else []) + LowerName(q.name)
  }

  /** The same question up to letter case, and the same DO bit. */
  predicate SameQuestion(q: Request, r: Request) {
    q.doBit == r.doBit && q.qtype == r.qtype && q.qclass == r.qclass && SameName(q.name, r.name)
  }

  /** The same subnet, as far as a key shows it: `/0` has no address. */
  predicate SameSubnet(s: Subnet, t: Subnet) {
    s.prefix == t.prefix && (s.prefix > 0 ==> s.ip == t.ip)
  }

  /** The only way a short-address key can equal a long-address one: twelve NUL bytes in front
      of the name stand where the zero tail of the long address is. */
  ghost predicate CrossFamily(q: Request, s: Subnet, r: Request, t: Subnet) {
    && q.doBit == r.doBit && q.qtype == r.qtype && q.qclass == r.qclass
    && 0 < s.prefix == t.prefix <= 32 && |s.ip| == 4 && |t.ip| == 16
    && t.ip[..4] == s.ip
    && LowerName(q.name) == Zeros(12) + LowerName(r.name)
  }

  lemma BE16Injective(a: int, b: int)
    requires 0 <= a < 0x10000 && 0 <= b < 0x10000 && BE16(a) == BE16(b)
    ensures a == b
  {
    assert BE16(a)[0] == BE16(b)[0] && BE16(a)[1] == BE16(b)[1];
  }

  lemma HeaderInjective(q: Request, r: Request)
    requires ValidRequest(q) && ValidRequest(r) && Header(q) == Header(r)
    ensures q.doBit == r.doBit && q.qtype == r.qtype && q.qclass == r.qclass
  {
    var h, k := Header(q), Header(r);
    assert h[0] == k[0];
    assert h[1..3] == BE16(q.qtype) && k[1..3] == BE16(r.qtype);
    assert h[3..5] == BE16(q.qclass) && k[3..5] == BE16(r.qclass);
    BE16Injective(q.qtype, r.qtype);
    BE16Injective(q.qclass, r.qclass);
  }

  /** General keys are equal exactly for the same question. */
  lemma GeneralKeyInjective(q: Request, r: Request)
    requires ValidRequest(q) && ValidRequest(r)
    ensures MsgToKey(q) == MsgToKey(r) <==> SameQuestion(q, r)
  {
    SameNameIff(q.name, r.name);
    if MsgToKey(q) == MsgToKey(r) {
      assert MsgToKey(q)[..5] == Header(q) && MsgToKey(r)[..5] == Header(r);
      HeaderInjective(q, r);
      assert MsgToKey(q)[5..] == LowerName(q.name) && MsgToKey(r)[5..] == LowerName(r.name);
    }
  }

  /** What follows the prefix-length byte. */
  function Tail(q: Request, s: Subnet): seq<byte> {
    (if s.prefix != 0 then s.ip else []) + LowerName(q.name)
  }

  lemma KeyParts(q: Request, s: Subnet, r: Request, t: Subnet)
    requires ValidRequest(q) && ValidRequest(r) && s.prefix <= 128 && t.prefix <= 128
    ensures MsgToKeyWithSubnet(q, s) == MsgToKeyWithSubnet(r, t) <==>
            Header(q) == Header(r) && s.prefix == t.prefix && Tail(q, s) == Tail(r, t)
  {
    var k, l := MsgToKeyWithSubnet(q, s), MsgToKeyWithSubnet(r, t);
    assert k == Header(q) + [s.prefix] + Tail(q, s) && l == Header(r) + [t.prefix] + Tail(r, t);
    if k == l {
      assert k[..5] == Header(q) && l[..5] == Header(r);
      assert k[5] == s.prefix && l[5] == t.prefix;
      assert k[6..] == Tail(q, s) && l[6..] == Tail(r, t);
    }
  }

  lemma TailsSameFamily(q: Request, s: Subnet, r: Request, t: Subnet)
    requires s.prefix == t.prefix && (s.prefix == 0 || |s.ip| == |t.ip|)
    ensures Tail(q, s) == Tail(r, t) <==> (s.prefix > 0 ==> s.ip == t.ip) && LowerName(q.name) == LowerName(r.name)
  {
    if s.prefix == 0 {
      assert Tail(q, s) == LowerName(q.name) && Tail(r, t) == LowerName(r.name);
    } else if Tail(q, s) == Tail(r, t) {
      var n := |s.ip|;
      assert Tail(q, s)[..n] == s.ip && Tail(r, t)[..n] == t.ip;
      assert Tail(q, s)[n..] == LowerName(q.name) && Tail(r, t)[n..] == LowerName(r.name);
    }
  }

  lemma TailsCrossFamily(q: Request, s: Subnet, r: Request, t: Subnet)
    requires 0 < s.prefix == t.prefix && |s.ip| == 4 && |t.ip| == 16 && Canonical(s) && Canonical(t)
    ensures Tail(q, s) == Tail(r, t) <==> t.ip[..4] == s.ip && LowerName(q.name) == Zeros(12) + LowerName(r.name)
  {
    assert t.ip[4..] == Zeros(12) by {
      forall i | 4 <= i < 16 ensures t.ip[i] == 0 { MaskedTailZero(t.ip, t.prefix, i); }
    }
    assert t.ip == t.ip[..4] + Zeros(12);
    var a, b := Tail(q, s), Tail(r, t);
    assert b == t.ip[..4] + (Zeros(12) + LowerName(r.name));
    if a == b {
      assert a[..4] == s.ip && b[..4] == t.ip[..4];
      assert a[4..] == LowerName(q.name) && b[4..] == Zeros(12) + LowerName(r.name);
    }
  }

  /** Exactly when two subnet keys are equal: the same question and subnet, or the one collision
      between the two address families. */
  lemma SubnetKeyEqualIff(q: Request, s: Subnet, r: Request, t: Subnet)
    requires ValidRequest(q) && ValidRequest(r) && Canonical(s) && Canonical(t) && s.prefix <= 128 && t.prefix <= 128
    ensures MsgToKeyWithSubnet(q, s) == MsgToKeyWithSubnet(r, t) <==>
            (SameQuestion(q, r) && SameSubnet(s, t)) || CrossFamily(q, s, r, t) || CrossFamily(r, t, q, s)
  {
    SameNameIff(q.name, r.name);
    KeyParts(q, s, r, t);
    if Header(q) == Header(r) { HeaderInjective(q, r); }
    if s.prefix == t.prefix {
      if s.prefix == 0 || |s.ip| == |t.ip| {
        TailsSameFamily(q, s, r, t);
      } else if |s.ip| == 4 {
        TailsCrossFamily(q, s, r, t);
      } else {
        TailsCrossFamily(r, t, q, s);
      }
    }
  }

  /** The name starts with twelve NUL bytes. A name in presentation form holds none at all. */
  ghost predicate NulPrefixed(name: seq<byte>) {
    |name| >= 12 && name[..12] == Zeros(12)
  }

  lemma CrossFamilyNul(q: Request, s: Subnet, r: Request, t: Subnet)
    requires CrossFamily(q, s, r, t)
    ensures NulPrefixed(q.name)
  {
    assert |LowerName(q.name)| == |q.name|;
    forall i | 0 <= i < 12 ensures q.name[i] == 0 {
      assert LowerName(q.name)[i] == (Zeros(12) + LowerName(r.name))[i];
    }
  }

  /** Equal subnet keys mean the same question and the same subnet, even between the two address
      families, unless one of the names starts with twelve NUL bytes. */
  lemma SubnetKeyInjective(q: Request, s: Subnet, r: Request, t: Subnet)
    requires ValidRequest(q) && ValidRequest(r) && Canonical(s) && Canonical(t) && s.prefix <= 128 && t.prefix <= 128
    requires !NulPrefixed(q.name) && !NulPrefixed(r.name)
    ensures MsgToKeyWithSubnet(q, s) == MsgToKeyWithSubnet(r, t) <==> SameQuestion(q, r) && SameSubnet(s, t)
  {
    SubnetKeyEqualIff(q, s, r, t);
    if CrossFamily(q, s, r, t) { CrossFamilyNul(q, s, r, t); }
    if CrossFamily(r, t, q, s) { CrossFamilyNul(r, t, q, s); }
  }

  /** Two different questions under one key: a name of twelve NUL bytes for an IPv4 subnet, and the
      empty name for the IPv6 subnet with the same leading bytes. */
  lemma CollisionExample(qtype: int, qclass: int, doBit: bool)
    requires 0 <= qtype < 0x10000 && 0 <= qclass < 0x10000
    ensures var q, r := Request(Zeros(12), qtype, qclass, doBit), Request([], qtype, qclass, doBit);
            var s, t := Subnet(Zeros(4), 8), Subnet(Zeros(16), 8);
            && Canonical(s) && Canonical(t) && !SameQuestion(q, r)
            && MsgToKeyWithSubnet(q, s) == MsgToKeyWithSubnet(r, t)
  {
    var q, r := Request(Zeros(12), qtype, qclass, doBit), Request([], qtype, qclass, doBit);
    ZeroMasked(4, 8);
    ZeroMasked(16, 8);
    assert LowerName(q.name) == Zeros(12) && LowerName(r.name) == [];
    assert |LowerName(q.name)| != |LowerName(r.name)|;
    assert Zeros(12) + [] == Zeros(12) && Zeros(16)[..4] == Zeros(4);
    SubnetKeyEqualIff(q, Subnet(Zeros(4), 8), r, Subnet(Zeros(16), 8));
  }

  lemma ZeroMasked(n: nat, p: nat)
    ensures Masked(Zeros(n), p) == Zeros(n)
  {
    forall i | 0 <= i < n ensures Masked(Zeros(n), p)[i] == 0 { ZeroAnd(LeadingOnes(BitsIn(p, i)), 8); }
  }

  lemma {:induction false} ZeroAnd(b: nat, n: nat)
    ensures Bitwise(OpAnd, 0, b, n) == 0
  {
    if n == 0 {
    } else {
      ZeroAnd(b / 2, n - 1);
    }
  }
}
