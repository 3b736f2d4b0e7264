/** DNS64: synthesis of AAAA answers from A answers, and the exclusion of addresses in the NAT64
    prefixes. */
module Dns64 {
  import opened Bytes
  import opened DnsConstants
  import opened IpNet

  const MAX_NAT64_PREFIX_BITS := 96
  const NAT64_PREFIX_LENGTH := 12
  const MAX_DNS64_SYN_TTL := 600

  /** A network prefix. The zero address has no bytes, and `bits` is -1 in an invalid prefix. */
  datatype Prefix = Prefix(addr: IP, bits: int)

  predicate WellFormed(p: Prefix) {
    -1 <= p.bits <= 8 * |p.addr| && (|p.addr| == 4 || |p.addr| == 16 || (|p.addr| == 0 && p.bits == -1))
  }

  const ZERO_PREFIX := Prefix([], -1)
  const WELL_KNOWN := Prefix([0, 0x64, 0xff, 0x9b, 0, 0, 0, 0, 0, 0, 0, 0, 0, 0, 0, 0], 96)

  function MaskedPrefix(p: Prefix): Prefix {
    if p.bits < 0 then ZERO_PREFIX else Prefix(Masked(p.addr, p.bits), p.bits)
  }

  predicate Contains(p: Prefix, addr: IP) {
    p.bits >= 0 && |p.addr| == |addr| && Masked(addr, p.bits) == Masked(p.addr, p.bits)
  }

  predicate AnyContains(prefs: seq<Prefix>, addr: IP) {
    exists i :: 0 <= i < |prefs| && Contains(prefs[i], addr)
  }

  datatype Data = A(ip: seq<byte>) | AAAA(ip: seq<byte>) | Other(rdata: seq<byte>)

  datatype RR = RR(name: string, rrtype: int, class_: int, ttl: int, data: Data)

  datatype Question = Question(name: string, qtype: int, qclass: int)

  // Setting up.

  predicate Usable(p: Prefix) { |p.addr| == 16 && p.bits <= 96 }

  function MaskedAll(prefs: seq<Prefix>): (r: seq<Prefix>)
    ensures |r| == |prefs| && forall i :: 0 <= i < |prefs| ==> r[i] == MaskedPrefix(prefs[i])
  {
    seq(|prefs|, i requires 0 <= i < |prefs| => MaskedPrefix(prefs[i]))
  }

  /** What synthesis and exclusion rely on: a stored prefix is the zero one or a masked IPv6 prefix
      of at most 96 bits. */
  predicate Stored(p: Prefix) {
    p == ZERO_PREFIX || (|p.addr| == 16 && 0 <= p.bits <= MAX_NAT64_PREFIX_BITS && Masked(p.addr, p.bits) == p.addr)
  }

  predicate AllStored(prefs: seq<Prefix>) { forall i :: 0 <= i < |prefs| ==> Stored(prefs[i]) }

  lemma MaskedIsStored(p: Prefix)
    requires WellFormed(p) && Usable(p)
    ensures Stored(MaskedPrefix(p))
  {
    if p.bits >= 0 { MaskedIdempotent(p.addr, p.bits); }
  }

  lemma WellKnownIsStored()
    ensures Stored(WELL_KNOWN) && WELL_KNOWN == Prefix([0x00, 0x64, 0xff, 0x9b] + Zeros(12), 96)
  {
    var a := WELL_KNOWN.addr;
    forall i | 0 <= i < 16 ensures Masked(a, 96)[i] == a[i] {
      if i < 12 { MaskedKeeps(a, 96, i); } else { MaskedTailZero(a, 96, i); }
    }
  }

  /** The first `n` slots of a slice; a cleared slot is `None`. */
  predicate Filled(buf: array<Option<RR>>, n: nat)
    reads buf
  {
    n <= buf.Length && forall i :: 0 <= i < n ==> buf[i].Some?
  }

  ghost function Contents(buf: array<Option<RR>>, n: nat): (rrs: seq<RR>)
    requires Filled(buf, n)
    reads buf
    ensures |rrs| == n && forall i :: 0 <= i < n ==> rrs[i] == buf[i].value
  {
    seq(n, i requires 0 <= i < n && Filled(buf, n) reads buf => buf[i].value)
  }

  /** A response; its answer section is a slice of length `answerLen`. */
  class Message {
    var rcode: int
    var answer: array<Option<RR>>
    var answerLen: nat
    var ns: seq<RR>
    var extra: seq<RR>

    predicate Valid()
      reads this, answer
    {
      Filled(answer, answerLen)
    }

    ghost function Answers(): seq<RR>
      requires Valid()
      reads this, answer
    {
      Contents(answer, answerLen)
    }

    constructor (rcode: int, answer: array<Option<RR>>, ns: seq<RR>, extra: seq<RR>)
      requires Filled(answer, answer.Length)
      ensures Valid() && this.rcode == rcode && this.answer == answer && answerLen == answer.Length
      ensures this.ns == ns && this.extra == extra
    {
      this.rcode, this.answer, answerLen, this.ns, this.extra := rcode, answer, answer.Length, ns, extra;
    }
  }

  // Exclusion.

  /** The address in its family: an IPv4-mapped one counts as IPv4. */
  function NoMapped(ip: seq<byte>): Option<IP> {
    if To4(ip).Some? then To4(ip) else To16(ip)
  }

  /** The exclusion filter drops malformed AAAA records and those inside a prefix. */
  predicate Excluded(prefs: seq<Prefix>, rr: RR) {
    rr.data.AAAA? && (NoMapped(rr.data.ip).None? || AnyContains(prefs, NoMapped(rr.data.ip).value))
  }

  function Kept(keep: RR -> bool, rrs: seq<RR>): seq<RR> {
    if rrs == [] then []
    else
      var last := rrs[|rrs| - 1];
      Kept(keep, rrs[..|rrs| - 1]) + if keep(last) then [last] else []
  }

  function Staying(prefs: seq<Prefix>): RR -> bool { rr => !Excluded(prefs, rr) }

  function Filtered(prefs: seq<Prefix>, rrs: seq<RR>): seq<RR> { Kept(Staying(prefs), rrs) }

  /** An AAAA record that is not excluded. */
  predicate Native(prefs: seq<Prefix>, rr: RR) { rr.data.AAAA? && !Excluded(prefs, rr) }

  predicate HasAnswers(prefs: seq<Prefix>, rrs: seq<RR>) {
    exists i :: 0 <= i < |rrs| && Native(prefs, rrs[i])
  }

  // Synthesis.

  /** The 16 bytes of a prefix address; those of the zero address are zero. */
  function As16(ip: IP): (r: IP)
    requires |ip| == 0 || |ip| == 16
    ensures |r| == 16
  {
    if |ip| == 16 then ip else Zeros(16)
  }

  /** The address that stands for `v4` under a prefix. */
  function Embedded(p: Prefix, v4: IP): (r: IP)
    requires Stored(p) && |v4| == 4
    ensures |r| == 16 && r[..12] == As16(p.addr)[..12] && r[12..] == v4
  {
    As16(p.addr)[..12] + v4
  }

  function SynthRR(p: Prefix, rr: RR, soaTTL: int): Option<RR>
    requires Stored(p)
  {
    if !rr.data.A? then Some(rr)
    else if To4(rr.data.ip).None? then None
    else
      var ttl := if rr.ttl < soaTTL then rr.ttl else soaTTL;
      Some(RR(rr.name, TYPE_AAAA, rr.class_, ttl, AAAA(Embedded(p, To4(rr.data.ip).value))))
  }

  predicate IsSOAOf(rr: RR, name: string) { rr.rrtype == TYPE_SOA && rr.name == name }

  predicate NoSOABefore(ns: seq<RR>, name: string, k: nat)
    requires k <= |ns|
  {
    forall i :: 0 <= i < k ==> !IsSOAOf(ns[i], name)
  }

  /** The TTL of the first SOA record of the queried name, or 600 without one. */
  ghost predicate IsSOATTL(ns: seq<RR>, name: string, ttl: int) {
    || (ttl == 600 && NoSOABefore(ns, name, |ns|))
    || (exists k :: 0 <= k < |ns| && IsSOAOf(ns[k], name) && ns[k].ttl == ttl && NoSOABefore(ns, name, k))
  }

  /** `out` is the synthesis of `answer`: record by record, in order. */
  ghost predicate Synthesis(p: Prefix, answer: seq<RR>, soaTTL: int, out: seq<RR>)
    requires Stored(p)
  {
    |out| == |answer| && forall i :: 0 <= i < |answer| ==> SynthRR(p, answer[i], soaTTL) == Some(out[i])
  }

  predicate AllValid(answer: seq<RR>) {
    forall i :: 0 <= i < |answer| && answer[i].data.A? ==> To4(answer[i].data.ip).Some?
  }

  class Proxy {
    const useDNS64: bool
    var dns64Prefs: seq<Prefix>

    constructor (use: bool)
      ensures useDNS64 == use && dns64Prefs == []
    {
      useDNS64, dns64Prefs := use, [];
    }

    /** `bad` is the index of the first prefix refused; those before it have been stored. */
    method SetupDNS64(prefs: seq<Prefix>) returns (bad: Option<nat>)
      requires forall i :: 0 <= i < |prefs| ==> WellFormed(prefs[i])
      requires AllStored(dns64Prefs)
      modifies this
      ensures AllStored(dns64Prefs)
      ensures !useDNS64 ==> bad == None && dns64Prefs == old(dns64Prefs)
      ensures useDNS64 && prefs == [] ==>
                bad == None && dns64Prefs == [Prefix([0x00, 0x64, 0xff, 0x9b] + Zeros(12), 96)]
      ensures useDNS64 && prefs != [] && bad.None? ==>
                (forall i :: 0 <= i < |prefs| ==> Usable(prefs[i])) && dns64Prefs == old(dns64Prefs) + MaskedAll(prefs)
      ensures bad.Some? ==>
                && bad.value < |prefs| && !Usable(prefs[bad.value])
                && (forall i :: 0 <= i < bad.value ==> Usable(prefs[i]))
                && dns64Prefs == old(dns64Prefs) + MaskedAll(prefs[..bad.value])
    {
      if !useDNS64 { return None; }
      if |prefs| == 0 {
        WellKnownIsStored();
        dns64Prefs := [WELL_KNOWN];
        return None;
      }
      for i := 0 to |prefs|
        invariant forall k :: 0 <= k < i ==> Usable(prefs[k])
        invariant dns64Prefs == old(dns64Prefs) + MaskedAll(prefs[..i]) && AllStored(dns64Prefs)
      {
        if |prefs[i].addr| != 16 { return Some(i); }
        if prefs[i].bits > MAX_NAT64_PREFIX_BITS { return Some(i); }
        MaskedIsStored(prefs[i]);
        assert MaskedAll(prefs[..i + 1]) == MaskedAll(prefs[..i]) + [MaskedPrefix(prefs[i])];
        dns64Prefs := dns64Prefs + [MaskedPrefix(prefs[i])];
      }
      assert prefs[..|prefs|] == prefs;
      return None;
    }

    method ContainsAddr(addr: IP) returns (found: bool)
      ensures found <==> AnyContains(dns64Prefs, addr)
    {
      for i := 0 to |dns64Prefs|
        invariant forall k :: 0 <= k < i ==> !Contains(dns64Prefs[k], addr)
      {
        if Contains(dns64Prefs[i], addr) { return true; }
      }
      return false;
    }

    /** The test of one record: whether it goes, and whether it is an AAAA record that stays. */
    method Judge(rr: RR) returns (delete: bool, answers: bool)
      ensures delete == Excluded(dns64Prefs, rr) && answers == (rr.data.AAAA? && !delete)
    {
      if !rr.data.AAAA? { return false, false; }
      var addr := NoMapped(rr.data.ip);
      if addr.None? { return true, false; }
      var found := ContainsAddr(addr.value);
      return found, !found;
    }

    /** Moves a kept record to the front. */
    static method Keep(buf: array<Option<RR>>, kept: nat, rr: RR)
      requires kept < buf.Length && Filled(buf, kept)
      modifies buf
      ensures Filled(buf, kept + 1) && Contents(buf, kept + 1) == old(Contents(buf, kept)) + [rr]
      ensures forall i :: kept < i < buf.Length ==> buf[i] == old(buf[i])
    {
      buf[kept] := Some(rr);
    }

    /** One round of the loop: the record in hand goes to the front unless it is excluded. */
    method Advance(buf: array<Option<RR>>, kept: nat, rr: RR, ghost done: seq<RR>) returns (kept': nat, answers: bool)
      requires kept < buf.Length && Filled(buf, kept) && Contents(buf, kept) == Filtered(dns64Prefs, done)
      modifies buf
      ensures kept <= kept' <= kept + 1 && Filled(buf, kept')
      ensures Contents(buf, kept') == Filtered(dns64Prefs, done + [rr])
      ensures forall i :: kept < i < buf.Length ==> buf[i] == old(buf[i])
      ensures HasAnswers(dns64Prefs, done + [rr]) <==> HasAnswers(dns64Prefs, done) || answers
    {
      FilteredSnoc(dns64Prefs, done, rr);
      HasAnswersSnoc(dns64Prefs, done, rr);
      var delete;
      delete, answers := Judge(rr);
      if delete { return kept, answers; }
      Keep(buf, kept, rr);
      return kept + 1, answers;
    }

    /** The loop that moves the records kept to the front. */
    method Compact(buf: array<Option<RR>>, n: nat) returns (kept: nat, hasAnswers: bool)
      requires Filled(buf, n)
      modifies buf
      ensures kept <= n && Filled(buf, kept) && Contents(buf, kept) == Filtered(dns64Prefs, old(Contents(buf, n)))
      ensures forall i :: n <= i < buf.Length ==> buf[i] == old(buf[i])
      ensures hasAnswers <==> HasAnswers(dns64Prefs, old(Contents(buf, n)))
    {
      ghost var rrs := Contents(buf, n);
      kept, hasAnswers := 0, false;
      for j := 0 to n
        invariant kept <= j && Filled(buf, kept) && Contents(buf, kept) == Filtered(dns64Prefs, rrs[..j])
        invariant forall i :: j <= i < buf.Length ==> buf[i] == old(buf[i])
        invariant hasAnswers <==> HasAnswers(dns64Prefs, rrs[..j])
      {
        assert buf[j].Some? && rrs[..j] + [buf[j].value] == rrs[..j + 1];
        var answers;
        kept, answers := Advance(buf, kept, buf[j].value, rrs[..j]);
        hasAnswers := hasAnswers || answers;
      }
      assert rrs[..n] == rrs;
    }

    /** Deletes in place: the records kept move to the front, and the slots behind them are cleared. */
    method FilterNAT64Answers(buf: array<Option<RR>>, n: nat) returns (kept: nat, hasAnswers: bool)
      requires Filled(buf, n)
      modifies buf
      ensures kept <= n && Filled(buf, kept) && Contents(buf, kept) == Filtered(dns64Prefs, old(Contents(buf, n)))
      ensures forall i :: kept <= i < n ==> buf[i] == None
      ensures forall i :: n <= i < buf.Length ==> buf[i] == old(buf[i])
      ensures hasAnswers <==> HasAnswers(dns64Prefs, old(Contents(buf, n)))
    {
      kept, hasAnswers := Compact(buf, n);
      ghost var front := Contents(buf, kept);
      Clear(buf, kept, n);
      assert Contents(buf, kept) == front;
    }

    /** Go's `clear` on a part of a slice. */
    static method Clear(buf: array<Option<RR>>, from: nat, to: nat)
      requires from <= to <= buf.Length
      modifies buf
      ensures forall i :: from <= i < to ==> buf[i] == None
      ensures forall i :: 0 <= i < from || to <= i < buf.Length ==> buf[i] == old(buf[i])
    {
      for k := from to to
        invariant forall i :: from <= i < k ==> buf[i] == None
        invariant forall i :: 0 <= i < from || k <= i < buf.Length ==> buf[i] == old(buf[i])
      {
        buf[k] := None;
      }
    }

    predicate Asked(q: Question)
      reads this
    {
      dns64Prefs != [] && q.qtype == TYPE_AAAA && q.qclass == CLASS_INET
    }

    /** Whether an A query is to be made for the AAAA query `q` answered by `resp`. */
    method CheckDNS64(q: Question, resp: Message) returns (needed: bool)
      requires resp.Valid()
      modifies resp`answerLen, resp.answer
      ensures resp.Valid()
      ensures needed <==>
                && Asked(q) && resp.rcode != RCODE_NAME_ERROR
                && !(resp.rcode == RCODE_SUCCESS && HasAnswers(dns64Prefs, old(resp.Answers())))
      ensures resp.Answers() ==
              if Asked(q) && resp.rcode == RCODE_SUCCESS then Filtered(dns64Prefs, old(resp.Answers()))
              else old(resp.Answers())
    {
      if |dns64Prefs| == 0 { return false; }
      if q.qtype != TYPE_AAAA || q.qclass != CLASS_INET { return false; }
      if resp.rcode == RCODE_NAME_ERROR { return false; }
      if resp.rcode == RCODE_SUCCESS {
        var kept, hasAnswers := FilterNAT64Answers(resp.answer, resp.answerLen);
        resp.answerLen := kept;
        if hasAnswers { return false; }
      }
      return true;
    }

    method MapDNS64(addr: IP) returns (mapped: IP)
      requires dns64Prefs != [] && Stored(dns64Prefs[0]) && |addr| == 4
      ensures mapped == Embedded(dns64Prefs[0], addr)
    {
      var prefData := As16(dns64Prefs[0].addr);
      var buf := new byte[16](_ => 0);
      for i := 0 to NAT64_PREFIX_LENGTH
        invariant buf[..i] == prefData[..i]
      {
        buf[i] := prefData[i];
      }
      for i := 0 to 4
        invariant buf[..NAT64_PREFIX_LENGTH + i] == prefData[..NAT64_PREFIX_LENGTH] + addr[..i]
      {
        buf[NAT64_PREFIX_LENGTH + i] := addr[i];
      }
      assert buf[..] == buf[..16] && addr[..4] == addr;
      mapped := buf[..];
    }

    method SynthRecord(rr: RR, soaTTL: int) returns (result: Option<RR>)
      requires dns64Prefs != [] && Stored(dns64Prefs[0])
      ensures result == SynthRR(dns64Prefs[0], rr, soaTTL)
    {
      if !rr.data.A? { return Some(rr); }
      var addr := To4(rr.data.ip);
      if addr.None? { return None; }
      var mapped := MapDNS64(addr.value);
      return Some(RR(rr.name, TYPE_AAAA, rr.class_, if rr.ttl < soaTTL then rr.ttl else soaTTL, AAAA(mapped)));
    }

    /** The records synthesized from an answer, in a new slice, unless one cannot be. */
    method SynthAll(resp: Message, soaTTL: int) returns (newAns: array<Option<RR>>, ok: bool)
      requires dns64Prefs != [] && Stored(dns64Prefs[0]) && resp.Valid()
      ensures fresh(newAns) && (ok <==> AllValid(resp.Answers()))
      ensures ok ==> newAns.Length == resp.answerLen && Filled(newAns, newAns.Length)
      ensures ok ==> Synthesis(dns64Prefs[0], resp.Answers(), soaTTL, Contents(newAns, newAns.Length))
    {
      newAns := new Option<RR>[resp.answerLen](_ => None);
      for i := 0 to resp.answerLen
        invariant Filled(newAns, i) && AllValid(resp.Answers()[..i])
        invariant forall k :: 0 <= k < i ==> SynthRR(dns64Prefs[0], resp.Answers()[k], soaTTL) == newAns[k]
      {
        var rr := SynthRecord(resp.answer[i].value, soaTTL);
        assert resp.Answers()[i] == resp.answer[i].value;
        if rr.None? { return newAns, false; }
        newAns[i] := rr;
      }
      assert resp.Answers()[..resp.answerLen] == resp.Answers();
      return newAns, true;
    }

    /** Rewrites `origResp` from `resp`, the answer to the A query, or leaves it alone. */
    method SynthDNS64(name: string, origResp: Message, resp: Message) returns (ok: bool)
      requires dns64Prefs != [] && AllStored(dns64Prefs) && origResp != resp && origResp.Valid() && resp.Valid()
      modifies origResp
      ensures origResp.Valid() && resp.Valid()
      ensures ok <==> resp.Answers() != [] && AllValid(resp.Answers())
      ensures ok ==> exists ttl ::
                && IsSOATTL(old(origResp.ns), name, ttl)
                && Synthesis(dns64Prefs[0], resp.Answers(), ttl, origResp.Answers())
      ensures ok ==> origResp.ns == resp.ns && origResp.extra == resp.extra && origResp.rcode == old(origResp.rcode)
      ensures !ok ==> unchanged(origResp) && origResp.Answers() == old(origResp.Answers())
    {
      if resp.answerLen == 0 { return false; }
      var soaTTL := SOATTL(name, origResp.ns);
      var newAns;
      newAns, ok := SynthAll(resp, soaTTL);
      if !ok { return false; }
      origResp.answer := newAns;
      origResp.answerLen := newAns.Length;
      origResp.ns := resp.ns;
      origResp.extra := resp.extra;
      return true;
    }
  }

  method SOATTL(name: string, ns: seq<RR>) returns (ttl: int)
    ensures IsSOATTL(ns, name, ttl)
  {
    ttl := MAX_DNS64_SYN_TTL;
    for i := 0 to |ns|
      invariant ttl == MAX_DNS64_SYN_TTL && NoSOABefore(ns, name, i)
    {
      if ns[i].rrtype == TYPE_SOA && ns[i].name == name { return ns[i].ttl; }
    }
  }

  /** Without an SOA record of the queried name the TTL is 600, else that of the first such record. */
  lemma SOATTLMeans(before: seq<RR>, soa: RR, after: seq<RR>, name: string, ttl: int)
    requires forall i :: 0 <= i < |before| ==> before[i].rrtype != TYPE_SOA || before[i].name != name
    ensures IsSOATTL(before, name, ttl) <==> ttl == 600
    ensures soa.rrtype == TYPE_SOA && soa.name == name ==>
              (IsSOATTL(before + [soa] + after, name, ttl) <==> ttl == soa.ttl)
  {
    var all := before + [soa] + after;
    assert forall i :: 0 <= i < |before| ==> all[i] == before[i];
    assert all[|before|] == soa && NoSOABefore(all, name, |before|);
  }

  lemma FilteredSnoc(prefs: seq<Prefix>, rrs: seq<RR>, rr: RR)
    ensures Filtered(prefs, rrs + [rr]) == Filtered(prefs, rrs) + if Excluded(prefs, rr) then [] else [rr]
  {
    assert (rrs + [rr])[..|rrs|] == rrs;
  }

  lemma HasAnswersSnoc(prefs: seq<Prefix>, rrs: seq<RR>, rr: RR)
    ensures HasAnswers(prefs, rrs + [rr]) <==> HasAnswers(prefs, rrs) || Native(prefs, rr)
  {
    var all := rrs + [rr];
    assert all[|rrs|] == rr;
    if HasAnswers(prefs, rrs) {
      var i :| 0 <= i < |rrs| && Native(prefs, rrs[i]);
      assert all[i] == rrs[i];
    }
  }

  // What is excluded.

  /** An address lies in a prefix exactly if it is of the prefix's family and agrees with it in each of
      its first bits. */
  lemma ContainsIff(p: Prefix, addr: IP)
    ensures Contains(p, addr) <==>
            && p.bits >= 0 && |addr| == |p.addr|
            && forall i :: 0 <= i < p.bits && i < 8 * |addr| ==> Bit(addr, i) == Bit(p.addr, i)
  {
    if p.bits >= 0 && |addr| == |p.addr| { MaskedSameIff(addr, p.addr, p.bits); }
  }

  /** The address disagrees with the prefix somewhere, or is of another family. */
  ghost predicate Outside(p: Prefix, addr: IP) {
    p.bits < 0 || |addr| != |p.addr| || exists i :: 0 <= i < p.bits && i < 8 * |addr| && Bit(addr, i) != Bit(p.addr, i)
  }

  /** The family and bytes of the address of an AAAA record: the long form of an IPv4 address counts as
      that address, and only four or sixteen bytes are an address. */
  lemma NoMappedExactly(ip: seq<byte>, a: IP)
    ensures NoMapped(ip) == Some(a) <==> ProperIP(a) && (ip == a || (|a| == 4 && ip == V4_IN_V6_PREFIX + a))
    ensures NoMapped(ip).None? <==> |ip| != 4 && |ip| != 16
  {
    To4Exactly(ip, a);
  }

  /** Which records the filter drops: AAAA records whose address has a wrong length or lies in a
      prefix. */
  lemma ExcludedIff(prefs: seq<Prefix>, rr: RR, a: IP)
    requires rr.data.AAAA? && ProperIP(a) && (rr.data.ip == a || (|a| == 4 && rr.data.ip == V4_IN_V6_PREFIX + a))
    ensures !Excluded(prefs, rr) <==> forall k :: 0 <= k < |prefs| ==> Outside(prefs[k], a)
  {
    NoMappedExactly(rr.data.ip, a);
    forall k | 0 <= k < |prefs| ensures Contains(prefs[k], a) <==> !Outside(prefs[k], a) {
      ContainsIff(prefs[k], a);
    }
  }

  /** The filter goes record by record, and an AAAA record outside every prefix stays and counts as an
      answer. */
  lemma OutsideStays(prefs: seq<Prefix>, before: seq<RR>, rr: RR, after: seq<RR>, a: IP)
    requires rr.data.AAAA? && ProperIP(a) && (rr.data.ip == a || (|a| == 4 && rr.data.ip == V4_IN_V6_PREFIX + a))
    requires forall k :: 0 <= k < |prefs| ==> Outside(prefs[k], a)
    ensures Filtered(prefs, before + [rr] + after) == Filtered(prefs, before) + [rr] + Filtered(prefs, after)
    ensures HasAnswers(prefs, before + [rr] + after)
  {
    ExcludedIff(prefs, rr, a);
    FilteredConcat(prefs, before + [rr], after);
    FilteredSnoc(prefs, before, rr);
    assert (before + [rr] + after)[|before|] == rr;
  }

  /** One inside goes, and so does a malformed one. */
  lemma InsideGoes(prefs: seq<Prefix>, before: seq<RR>, rr: RR, after: seq<RR>, k: nat)
    requires rr.data.AAAA? && |rr.data.ip| == 16 && rr.data.ip[..12] != V4_IN_V6_PREFIX
    requires k < |prefs| && prefs[k].bits >= 0 && |prefs[k].addr| == 16
    requires forall i :: 0 <= i < prefs[k].bits && i < 128 ==> Bit(rr.data.ip, i) == Bit(prefs[k].addr, i)
    ensures Filtered(prefs, before + [rr] + after) == Filtered(prefs, before) + Filtered(prefs, after)
  {
    ContainsIff(prefs[k], rr.data.ip);
    NoMappedExactly(rr.data.ip, rr.data.ip);
    FilteredConcat(prefs, before + [rr], after);
    FilteredSnoc(prefs, before, rr);
  }

  lemma OthersStay(prefs: seq<Prefix>, before: seq<RR>, rr: RR, after: seq<RR>)
    requires rr.data.AAAA? ==> |rr.data.ip| != 4 && |rr.data.ip| != 16
    ensures Filtered(prefs, before + [rr] + after) ==
            Filtered(prefs, before) + (if rr.data.AAAA? then [] else [rr]) + Filtered(prefs, after)
  {
    FilteredConcat(prefs, before + [rr], after);
    FilteredSnoc(prefs, before, rr);
  }

  lemma {:induction false} KeptConcat(keep: RR -> bool, a: seq<RR>, b: seq<RR>)
    ensures Kept(keep, a + b) == Kept(keep, a) + Kept(keep, b)
  {
    if b == [] {
      assert a + b == a;
    } else {
      assert (a + b)[..|a + b| - 1] == a + b[..|b| - 1];
      KeptConcat(keep, a, b[..|b| - 1]);
    }
  }

  lemma FilteredConcat(prefs: seq<Prefix>, a: seq<RR>, b: seq<RR>)
    ensures Filtered(prefs, a + b) == Filtered(prefs, a) + Filtered(prefs, b)
  {
    KeptConcat(Staying(prefs), a, b);
  }

  // What synthesis and exclusion have to do with each other.

  /** The first 12 bytes decide about membership in a prefix of at most 96 bits. */
  lemma PrefixDecides(a: IP, b: IP, bits: nat)
    requires |a| == |b| == 16 && a[..12] == b[..12] && bits <= 96
    ensures Masked(a, bits) == Masked(b, bits)
  {
    forall i | 0 <= i < 16 ensures Masked(a, bits)[i] == Masked(b, bits)[i] {
      if i < 12 {
        assert a[i] == a[..12][i] == b[..12][i] == b[i];
      } else {
        MaskedTailZero(a, bits, i);
        MaskedTailZero(b, bits, i);
      }
    }
  }

  lemma AnyContainsSplit(prefs: seq<Prefix>, ip: IP)
    requires prefs != []
    ensures AnyContains(prefs, ip) <==> Contains(prefs[0], ip) || AnyContains(prefs[1..], ip)
  {
    assert forall i :: 0 < i < |prefs| ==> prefs[i] == prefs[1..][i - 1];
    assert forall i :: 0 <= i < |prefs[1..]| ==> prefs[1..][i] == prefs[i + 1];
  }

  predicate IsMapped(p: Prefix) { |p.addr| == 16 && p.addr[..12] == V4_IN_V6_PREFIX }

  /** The first prefix is not the IPv4-mapped one, and it is valid or another one contains the address
      that an invalid prefix gives `v4`. */
  predicate Excludes(prefs: seq<Prefix>, v4: IP)
    requires prefs != []
  {
    !IsMapped(prefs[0]) && (prefs[0].bits >= 0 || AnyContains(prefs[1..], Zeros(12) + v4))
  }

  /** A synthesized address is excluded exactly when its prefix is not the IPv4-mapped one and is
      valid, or another configured prefix happens to contain it. */
  lemma SynthesizedExcludedIff(prefs: seq<Prefix>, rr: RR, soaTTL: int)
    requires prefs != [] && AllStored(prefs) && rr.data.A? && To4(rr.data.ip).Some?
    ensures var s := SynthRR(prefs[0], rr, soaTTL);
            s.Some? && (Excluded(prefs, s.value) <==> Excludes(prefs, To4(rr.data.ip).value))
  {
    var p := prefs[0];
    var ip := Embedded(p, To4(rr.data.ip).value);
    if IsMapped(p) {
      assert To4(ip).Some?;
      assert !AnyContains(prefs, To4(ip).value);
    } else {
      assert |p.addr| == 0 ==> ip[..12][10] == 0 && V4_IN_V6_PREFIX[10] == 0xff;
      assert ip[..12] != V4_IN_V6_PREFIX;
      assert NoMapped(ip) == Some(ip);
      AnyContainsSplit(prefs, ip);
      assert p.bits < 0 ==> ip == Zeros(12) + To4(rr.data.ip).value;
      if p.bits >= 0 { PrefixDecides(ip, p.addr, p.bits); }
    }
  }

  /** Among the configured prefixes only ::ffff:0:0/96 is stored as the IPv4-mapped one. */
  lemma MappedOnlyIf96(p: Prefix)
    requires WellFormed(p) && Usable(p)
    ensures IsMapped(MaskedPrefix(p)) <==> p.bits == 96 && p.addr[..12] == V4_IN_V6_PREFIX
  {
    if p.bits >= 0 {
      var m := Masked(p.addr, p.bits);
      if p.bits < 96 {
        MaskedCuts(p.addr, p.bits, 11);
        assert m[..12][11] == m[11] && V4_IN_V6_PREFIX[11] == 0xff;
      } else {
        forall i | 0 <= i < 12 ensures m[i] == p.addr[i] { MaskedKeeps(p.addr, p.bits, i); }
        assert m[..12] == p.addr[..12];
      }
    }
  }

  /** Synthesis keeps order, passes other records through, and hides each address in the first
      prefix with the smaller TTL; the address can be read back. */
  lemma SynthesisMeans(p: Prefix, answer: seq<RR>, soaTTL: int, out: seq<RR>, i: nat)
    requires Stored(p) && Synthesis(p, answer, soaTTL, out) && i < |answer|
    ensures !answer[i].data.A? ==> out[i] == answer[i]
    ensures answer[i].data.A? ==>
              && out[i].data.AAAA? && To4(answer[i].data.ip) == Some(out[i].data.ip[12..])
              && (p.bits >= 0 ==> Contains(p, out[i].data.ip))
              && out[i].name == answer[i].name && out[i].rrtype == TYPE_AAAA && out[i].class_ == answer[i].class_
              && out[i].ttl <= answer[i].ttl && out[i].ttl <= soaTTL
              && (out[i].ttl == answer[i].ttl || out[i].ttl == soaTTL)
  {
    assert SynthRR(p, answer[i], soaTTL) == Some(out[i]);
    if answer[i].data.A? && p.bits >= 0 {
      PrefixDecides(out[i].data.ip, p.addr, p.bits);
    }
  }

  /** A second DNS64 with the same prefixes takes a synthesized answer for one without AAAA
      records, unless there were AAAA records before or the first prefix cannot exclude. */
  lemma SynthesizedAgain(prefs: seq<Prefix>, answer: seq<RR>, soaTTL: int, out: seq<RR>)
    requires prefs != [] && AllStored(prefs) && prefs[0].bits >= 0 && !IsMapped(prefs[0])
    requires Synthesis(prefs[0], answer, soaTTL, out)
    requires forall i :: 0 <= i < |answer| ==> !answer[i].data.AAAA?
    ensures !HasAnswers(prefs, out)
  {
    forall i | 0 <= i < |out| && out[i].data.AAAA? ensures Excluded(prefs, out[i]) {
      assert SynthRR(prefs[0], answer[i], soaTTL) == Some(out[i]);
      SynthesizedExcludedIff(prefs, answer[i], soaTTL);
    }
  }

  const SOME_ADDRESS: IP := [192, 0, 2, 1]

  const MAPPED := Prefix(V4_IN_V6_PREFIX + Zeros(4), 96)

  /** With ::ffff:0:0/96 as the prefix a synthesized address counts as IPv4 and is not excluded. */
  lemma MappedPrefixExample(name: string, ttl: int, soaTTL: int)
    ensures MaskedPrefix(MAPPED) == MAPPED && Stored(MAPPED)
    ensures var s := SynthRR(MAPPED, RR(name, TYPE_A, CLASS_INET, ttl, A(SOME_ADDRESS)), soaTTL);
            s.Some? && !Excluded([MAPPED], s.value)
  {
    MappedIsMasked();
    MappedNotExcluded(MAPPED, RR(name, TYPE_A, CLASS_INET, ttl, A(SOME_ADDRESS)), soaTTL);
  }

  lemma MappedIsMasked()
    ensures MaskedPrefix(MAPPED) == MAPPED
  {
    forall i | 0 <= i < 16 ensures Masked(MAPPED.addr, 96)[i] == MAPPED.addr[i] {
      if i < 12 { MaskedKeeps(MAPPED.addr, 96, i); } else { MaskedTailZero(MAPPED.addr, 96, i); }
    }
  }

  lemma MappedNotExcluded(p: Prefix, rr: RR, soaTTL: int)
    requires |p.addr| == 16 && p.addr[..12] == V4_IN_V6_PREFIX && p.bits == 96 && rr.data.A? && To4(rr.data.ip).Some?
    ensures Stored(MaskedPrefix(p))
    ensures var s := SynthRR(MaskedPrefix(p), rr, soaTTL); s.Some? && !Excluded([MaskedPrefix(p)], s.value)
  {
    MaskedIsStored(p);
    MappedOnlyIf96(p);
    SynthesizedExcludedIff([MaskedPrefix(p)], rr, soaTTL);
  }

  /** Nor is one synthesized with an invalid prefix, which is accepted and stored as the zero prefix. */
  lemma InvalidPrefixExample(name: string, ttl: int, soaTTL: int)
    ensures var p := Prefix(Zeros(16), -1);
            var s := SynthRR(ZERO_PREFIX, RR(name, TYPE_A, CLASS_INET, ttl, A(SOME_ADDRESS)), soaTTL);
            WellFormed(p) && Usable(p) && MaskedPrefix(p) == ZERO_PREFIX && s.Some? && !Excluded([ZERO_PREFIX], s.value)
  {
    SynthesizedExcludedIff([ZERO_PREFIX], RR(name, TYPE_A, CLASS_INET, ttl, A(SOME_ADDRESS)), soaTTL);
  }
}
