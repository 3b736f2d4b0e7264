/** How long an answer may be kept, and the filtering of DNSSEC records. */
module CacheItem {
  import opened Bytes
  import opened DnsConstants

  const MAX_UINT32 := 0xFFFF_FFFF
  const SERVFAIL_MAX_CACHE_TTL := 30

  /** A resource record: its type, its TTL and everything else. */
  datatype RR = RR(rrtype: int, ttl: int, body: seq<byte>)

  datatype Msg = Msg(
    id: int,
    questions: seq<int>,
    rcode: int,
    truncated: bool,
    ad: bool,
    ra: bool,
    answer: seq<RR>,
    ns: seq<RR>,
    extra: seq<RR>)

  ghost predicate ValidMsg(m: Msg) {
    forall r :: r in Records(m) ==> 0 <= r.ttl <= MAX_UINT32
  }

  // How long an answer may be kept.

  function MinTTL(r: RR, ttl: int): int {
    if r.rrtype == TYPE_OPT then ttl else if r.ttl < ttl then r.ttl else ttl
  }

  /** The least of `ttl` and the TTLs of the records that are not OPT. */
  function LeastFrom(ttl: int, rrs: seq<RR>): int {
    if rrs == [] then ttl else MinTTL(rrs[|rrs| - 1], LeastFrom(ttl, rrs[..|rrs| - 1]))
  }

  lemma {:induction false} LeastIsLeast(ttl: int, rrs: seq<RR>)
    ensures LeastFrom(ttl, rrs) <= ttl
    ensures forall r :: r in rrs && r.rrtype != TYPE_OPT ==> LeastFrom(ttl, rrs) <= r.ttl
    ensures LeastFrom(ttl, rrs) == ttl || exists r :: r in rrs && r.rrtype != TYPE_OPT && LeastFrom(ttl, rrs) == r.ttl
  {
    if rrs == [] {
    } else {
      var front, last := rrs[..|rrs| - 1], rrs[|rrs| - 1];
      LeastIsLeast(ttl, front);
      assert rrs == front + [last];
    }
  }

  lemma {:induction false} LeastConcat(ttl: int, a: seq<RR>, b: seq<RR>)
    ensures LeastFrom(ttl, a + b) == LeastFrom(LeastFrom(ttl, a), b)
  {
    if b == [] {
      assert a + b == a;
    } else {
      assert (a + b)[..|a + b| - 1] == a + b[..|b| - 1];
      LeastConcat(ttl, a, b[..|b| - 1]);
    }
  }

  lemma {:induction false} LeastNonNegative(ttl: int, rrs: seq<RR>)
    requires ttl >= 0 && forall r :: r in rrs ==> 0 <= r.ttl
    ensures LeastFrom(ttl, rrs) >= 0
    ensures ttl == 0 ==> LeastFrom(ttl, rrs) == 0
  {
    if rrs == [] {
    } else {
      LeastNonNegative(ttl, rrs[..|rrs| - 1]);
      assert rrs[|rrs| - 1] in rrs;
    }
  }

  /** All records of a message. */
  function Records(m: Msg): seq<RR> { m.answer + m.ns + m.extra }

  function TTLOf(m: Msg): int {
    var ttl := LeastFrom(MAX_UINT32, Records(m));
    if ttl == 0 then 0
    else if m.rcode == RCODE_SERVER_FAILURE && ttl > SERVFAIL_MAX_CACHE_TTL then SERVFAIL_MAX_CACHE_TTL
    else if ttl == MAX_UINT32 then 0
    else ttl
  }

  /** The inner loop of `calculateTTL`, with its early exit on zero. */
  method SectionTTL(rrs: seq<RR>, initial: int) returns (ttl: int)
    requires initial > 0 && forall r :: r in rrs ==> 0 <= r.ttl
    ensures ttl == LeastFrom(initial, rrs) && ttl >= 0
  {
    ttl := initial;
    for i := 0 to |rrs|
      invariant ttl == LeastFrom(initial, rrs[..i]) && ttl > 0
    {
      assert rrs[..i + 1][..i] == rrs[..i];
      assert rrs[i] in rrs;
      ttl := MinTTL(rrs[i], ttl);
      if ttl == 0 {
        assert rrs == rrs[..i + 1] + rrs[i + 1..];
        LeastConcat(initial, rrs[..i + 1], rrs[i + 1..]);
        LeastNonNegative(0, rrs[i + 1..]);
        return 0;
      }
    }
    assert rrs[..|rrs|] == rrs;
  }

  lemma LeastBySections(m: Msg)
    requires ValidMsg(m)
    ensures var a := LeastFrom(MAX_UINT32, m.answer);
            var b := LeastFrom(a, m.ns);
            && LeastFrom(b, m.extra) == LeastFrom(MAX_UINT32, Records(m))
            && (a == 0 || b == 0 ==> LeastFrom(MAX_UINT32, Records(m)) == 0)
  {
    LeastConcat(MAX_UINT32, m.answer, m.ns);
    LeastConcat(MAX_UINT32, m.answer + m.ns, m.extra);
    LeastNonNegative(0, m.ns);
    LeastNonNegative(0, m.extra);
  }

  method CalculateTTL(m: Msg) returns (ttl: int)
    requires ValidMsg(m)
    ensures ttl == TTLOf(m)
  {
    LeastBySections(m);
    ttl := SectionTTL(m.answer, MAX_UINT32);
    if ttl == 0 { return; }
    ttl := SectionTTL(m.ns, ttl);
    if ttl == 0 { return; }
    ttl := SectionTTL(m.extra, ttl);
    if ttl == 0 { return; }
    if m.rcode == RCODE_SERVER_FAILURE && ttl > SERVFAIL_MAX_CACHE_TTL {
      ttl := SERVFAIL_MAX_CACHE_TTL;
    } else if ttl == MAX_UINT32 {
      ttl := 0;
    }
  }

  ghost predicate HasIP(m: Msg) {
    exists r :: r in m.answer && (r.rrtype == TYPE_A || r.rrtype == TYPE_AAAA)
  }

  /** Section 5 of RFC 2308: a start of authority, and no name server, in the authority section. */
  ghost predicate Negative(m: Msg) {
    && (exists r :: r in m.ns && r.rrtype == TYPE_SOA)
    && (forall r :: r in m.ns ==> r.rrtype != TYPE_NS)
  }

  method HasIPAns(m: Msg) returns (ok: bool)
    ensures ok <==> HasIP(m)
  {
    for i := 0 to |m.answer|
      invariant forall k :: 0 <= k < i ==> m.answer[k].rrtype != TYPE_A && m.answer[k].rrtype != TYPE_AAAA
    {
      var t := m.answer[i].rrtype;
      if t == TYPE_A || t == TYPE_AAAA {
        assert m.answer[i] in m.answer;
        return true;
      }
    }
    ok := false;
  }

  method IsCacheableNegative(m: Msg) returns (ok: bool)
    ensures ok <==> Negative(m)
  {
    ok := false;
    for i := 0 to |m.ns|
      invariant ok <==> exists k :: 0 <= k < i && m.ns[k].rrtype == TYPE_SOA
      invariant forall k :: 0 <= k < i ==> m.ns[k].rrtype != TYPE_NS
    {
      var t := m.ns[i].rrtype;
      if t == TYPE_SOA {
        ok := true;
      } else if t == TYPE_NS {
        assert m.ns[i] in m.ns;
        return false;
      }
    }
    if ok {
      var k :| 0 <= k < |m.ns| && m.ns[k].rrtype == TYPE_SOA;
      assert m.ns[k] in m.ns;
    }
  }

  /** The lifetime of an answer, in seconds; zero when it is not to be cached. */
  ghost function Lifetime(m: Msg): int {
    if m.truncated || |m.questions| != 1 then 0
    else if m.rcode == RCODE_SUCCESS then
      (if (m.questions[0] != TYPE_A && m.questions[0] != TYPE_AAAA) || HasIP(m) || Negative(m) then TTLOf(m) else 0)
    else if m.rcode == RCODE_NAME_ERROR then (if Negative(m) then TTLOf(m) else 0)
    else if m.rcode == RCODE_SERVER_FAILURE then TTLOf(m)
    else 0
  }

  method CacheTTL(m: Msg) returns (ttl: int)
    requires ValidMsg(m)
    ensures ttl == Lifetime(m)
  {
    if m.truncated || |m.questions| != 1 { return 0; }
    ttl := CalculateTTL(m);
    if ttl == 0 { return 0; }
    if m.rcode == RCODE_SUCCESS {
      var hasIP := HasIPAns(m);
      var negative := IsCacheableNegative(m);
      if (m.questions[0] != TYPE_A && m.questions[0] != TYPE_AAAA) || hasIP || negative { return ttl; }
      return 0;
    } else if m.rcode == RCODE_NAME_ERROR {
      var negative := IsCacheableNegative(m);
      if negative { return ttl; }
      return 0;
    } else if m.rcode == RCODE_SERVER_FAILURE {
      return ttl;
    }
    ttl := 0;
  }

  /** A cached answer outlives none of its records, and a server failure lives 30 seconds at most. */
  lemma LifetimeBounded(m: Msg)
    requires ValidMsg(m)
    ensures 0 <= Lifetime(m) < MAX_UINT32
    ensures forall r :: r in Records(m) && r.rrtype != TYPE_OPT ==> Lifetime(m) <= r.ttl
    ensures m.rcode == RCODE_SERVER_FAILURE ==> Lifetime(m) <= SERVFAIL_MAX_CACHE_TTL
  {
    LeastIsLeast(MAX_UINT32, Records(m));
    LeastNonNegative(MAX_UINT32, Records(m));
  }

  /** The code and the sections of an answer let it be cached. */
  ghost predicate ContentAllows(m: Msg)
    requires |m.questions| == 1
  {
    var negative := (exists r :: r in m.ns && r.rrtype == TYPE_SOA) && forall r :: r in m.ns ==> r.rrtype != TYPE_NS;
    var address := exists r :: r in m.answer && (r.rrtype == TYPE_A || r.rrtype == TYPE_AAAA);
    || m.rcode == RCODE_SERVER_FAILURE
    || (m.rcode == RCODE_NAME_ERROR && negative)
    || (m.rcode == RCODE_SUCCESS && (m.questions[0] !in {TYPE_A, TYPE_AAAA} || address || negative))
  }

  predicate Counted(m: Msg, r: RR) { r in m.answer + m.ns + m.extra && r.rrtype != TYPE_OPT }

  /** Exactly which answers are cached: no name error and no empty A or AAAA answer without a start of
      authority or with a name server, none with a TTL of zero, and none but a server failure that has
      no TTL to go by. */
  lemma CachedIff(m: Msg)
    requires ValidMsg(m)
    ensures Lifetime(m) > 0 <==>
            && !m.truncated && |m.questions| == 1 && ContentAllows(m)
            && (forall r :: Counted(m, r) ==> r.ttl > 0)
            && (m.rcode == RCODE_SERVER_FAILURE || exists r :: Counted(m, r) && r.ttl < MAX_UINT32)
  {
    LeastIsLeast(MAX_UINT32, Records(m));
    LeastNonNegative(MAX_UINT32, Records(m));
    if !m.truncated && |m.questions| == 1 { ContentDecides(m); }
    if LeastFrom(MAX_UINT32, Records(m)) == 0 {
      var r :| r in Records(m) && r.rrtype != TYPE_OPT && r.ttl == 0;
      assert Counted(m, r);
    }
  }

  lemma ContentDecides(m: Msg)
    requires !m.truncated && |m.questions| == 1
    ensures Lifetime(m) == if ContentAllows(m) then TTLOf(m) else 0
  {
  }

  /** A cached answer is kept for the least of its TTLs, a server failure for 30 seconds if that is
      less. */
  lemma CachedForLeast(m: Msg)
    requires ValidMsg(m) && Lifetime(m) > 0
    ensures || (exists r :: Counted(m, r) && Lifetime(m) == r.ttl)
            || (m.rcode == RCODE_SERVER_FAILURE && Lifetime(m) == 30)
    ensures forall r :: Counted(m, r) ==> Lifetime(m) <= r.ttl
    ensures m.rcode == RCODE_SERVER_FAILURE ==> Lifetime(m) <= 30
  {
    LeastIsLeast(MAX_UINT32, Records(m));
    var least := LeastFrom(MAX_UINT32, Records(m));
    if least < MAX_UINT32 {
      var r :| r in Records(m) && r.rrtype != TYPE_OPT && least == r.ttl;
      assert Counted(m, r);
    }
  }

  // Filtering.

  predicate IsDNSSEC(t: int) {
    t in {TYPE_NSEC, TYPE_NSEC3, TYPE_DS, TYPE_RRSIG, TYPE_SIG, TYPE_DNSKEY}
  }

  /** Section 3.2.1 of RFC 4035: DNSSEC records not asked for are left out; so is OPT. */
  predicate KeptType(t: int, do: bool, except: int) {
    !((!do && IsDNSSEC(t) && t != except) || t == TYPE_OPT)
  }

  predicate Kept(r: RR, do: bool, except: int) { KeptType(r.rrtype, do, except) }

  function WithTTL(r: RR, ttl: int): RR {
    if ttl != 0 then r.(ttl := ttl) else r
  }

  /** The kept records in order, with their TTL set unless `ttl` is zero. */
  function Filtered(rrs: seq<RR>, do: bool, ttl: int, except: int): seq<RR> {
    if rrs == [] then []
    else
      var last := rrs[|rrs| - 1];
      Filtered(rrs[..|rrs| - 1], do, ttl, except) + if Kept(last, do, except) then [WithTTL(last, ttl)] else []
  }

  /** A record as the program holds it: shared by reference, with a TTL that can be overwritten. */
  class Record {
    const rrtype: int
    var ttl: int
    const body: seq<byte>

    constructor (r: RR)
      ensures Value() == r
    {
      rrtype, ttl, body := r.rrtype, r.ttl, r.body;
    }

    function Value(): RR
      reads this
    {
      RR(rrtype, ttl, body)
    }
  }

  ghost function Values(rs: seq<Record>): (vs: seq<RR>)
    reads rs
    ensures |vs| == |rs|
    ensures forall i :: 0 <= i < |rs| ==> vs[i] == rs[i].Value()
  {
    seq(|rs|, i requires 0 <= i < |rs| reads rs => rs[i].Value())
  }

  /** The TTLs of those of the first `n` records that are kept are overwritten, the others are as they were. */
  ghost predicate Overwritten(rrs: seq<Record>, n: nat, was: seq<RR>, do: bool, ttl: int, except: int)
    requires n <= |rrs| == |was|
    reads rrs
  {
    forall k :: 0 <= k < |rrs| ==>
      rrs[k].Value() == if rrs[k] in rrs[..n] && Kept(was[k], do, except) then WithTTL(was[k], ttl) else was[k]
  }

  lemma SkipRecord(rrs: seq<Record>, i: nat, was: seq<RR>, do: bool, ttl: int, except: int)
    requires i < |rrs| == |was| && !Kept(was[i], do, except) && Overwritten(rrs, i, was, do, ttl, except)
    ensures Overwritten(rrs, i + 1, was, do, ttl, except)
  {
    assert rrs[..i + 1] == rrs[..i] + [rrs[i]];
  }

  /** Record `i` is kept: its TTL is overwritten, and a copy of it is made. */
  method CopyRecord(rrs: seq<Record>, i: nat, do: bool, ttl: int, except: int, ghost was: seq<RR>) returns (c: Record)
    requires i < |rrs| == |was| && Kept(was[i], do, except) && Overwritten(rrs, i, was, do, ttl, except)
    modifies rrs[i]
    ensures Overwritten(rrs, i + 1, was, do, ttl, except)
    ensures fresh(c) && c.Value() == WithTTL(was[i], ttl)
  {
    var r := rrs[i];
    assert rrs[..i + 1] == rrs[..i] + [r];
    if ttl != 0 { r.ttl := ttl; }
    c := new Record(r.Value());
  }

  /** After `i` records, `copies` are copies of those kept. */
  ghost predicate Gathered(rrs: seq<Record>, i: nat, do: bool, ttl: int, except: int, was: seq<RR>, copies: seq<Record>)
    requires i <= |rrs| == |was|
    reads rrs, copies
  {
    Values(copies) == Filtered(was[..i], do, ttl, except) && Overwritten(rrs, i, was, do, ttl, except)
  }

  /** Record `i`: if it is kept, a copy of it joins the others. */
  method GatherRecord(rrs: seq<Record>, i: nat, do: bool, ttl: int, except: int, ghost was: seq<RR>,
                      copies: seq<Record>)
    returns (more: seq<Record>)
    requires i < |rrs| == |was| && Gathered(rrs, i, do, ttl, except, was, copies) && rrs[i] !in copies
    modifies rrs[i]
    ensures Gathered(rrs, i + 1, do, ttl, except, was, more)
    ensures forall c :: c in more ==> c in copies || fresh(c)
  {
    var r := rrs[i];
    FilteredSnoc(was[..i], was[i], do, ttl, except);
    assert was[..i + 1] == was[..i] + [was[i]] && r.rrtype == was[i].rrtype;
    if (!do && IsDNSSEC(r.rrtype) && r.rrtype != except) || r.rrtype == TYPE_OPT {
      SkipRecord(rrs, i, was, do, ttl, except);
      return copies;
    }
    var c := CopyRecord(rrs, i, do, ttl, except, was);
    more := copies + [c];
    assert Values(more) == Values(copies) + [c.Value()];
  }

  /** Copies of the kept records are returned, in order, with their TTL overwritten unless `ttl` is
      zero. The TTL of the originals is overwritten too, so every other holder sees it; records that
      are not kept stay as they are. */
  method FilterRRSlice(rrs: seq<Record>, do: bool, ttl: int, except: int) returns (filtered: seq<Record>)
    modifies rrs
    ensures forall r :: r in filtered ==> fresh(r)
    ensures Values(filtered) == Filtered(old(Values(rrs)), do, ttl, except)
    ensures forall r :: r in rrs ==> r.ttl == if KeptType(r.rrtype, do, except) && ttl != 0 then ttl else old(r.ttl)
  {
    ghost var was := Values(rrs);
    filtered := [];
    for i := 0 to |rrs|
      invariant Gathered(rrs, i, do, ttl, except, was, filtered)
      invariant forall r :: r in filtered ==> fresh(r)
    {
      filtered := GatherRecord(rrs, i, do, ttl, except, was, filtered);
    }
    assert was[..|rrs|] == was;
  }

  /** `dst` with the filtered sections of `m`, and the AD bit only if the request asked for it. */
  function FilterMsg(dst: Msg, m: Msg, ad: bool, do: bool, ttl: int): Msg
    requires |m.questions| > 0
  {
    dst.(ad := dst.ad && (ad || do),
         answer := Filtered(m.answer, do, ttl, m.questions[0]),
         ns := Filtered(m.ns, do, ttl, TYPE_NONE),
         extra := Filtered(m.extra, do, ttl, TYPE_NONE))
  }

  lemma FilteredSnoc(front: seq<RR>, last: RR, do: bool, ttl: int, except: int)
    ensures Filtered(front + [last], do, ttl, except) ==
            Filtered(front, do, ttl, except) + if Kept(last, do, except) then [WithTTL(last, ttl)] else []
  {
    assert (front + [last])[..|front|] == front;
  }

  /** Filtering goes record by record. */
  lemma {:induction false} FilteredConcat(a: seq<RR>, b: seq<RR>, do: bool, ttl: int, except: int)
    ensures Filtered(a + b, do, ttl, except) == Filtered(a, do, ttl, except) + Filtered(b, do, ttl, except)
  {
    if b == [] {
      assert a + b == a;
    } else {
      var front, last := b[..|b| - 1], b[|b| - 1];
      FilteredConcat(a, front, do, ttl, except);
      FilteredSnoc(a + front, last, do, ttl, except);
      assert a + b == a + front + [last];
    }
  }

  /** Section 3.2.1 of RFC 4035, by record type: a client that did not set DO gets no record of the
      DNSSEC types but those it asked for by name; no client gets an OPT record. */
  lemma FilteredOne(r: RR, do: bool, ttl: int, except: int)
    ensures Filtered([r], do, ttl, except) ==
            if r.rrtype == TYPE_OPT then []
            else if !do && r.rrtype != except &&
                    r.rrtype in [TYPE_SIG, TYPE_DS, TYPE_RRSIG, TYPE_NSEC, TYPE_DNSKEY, TYPE_NSEC3] then []
            else [RR(r.rrtype, if ttl == 0 then r.ttl else ttl, r.body)]
  {
    assert [r][..0] == [];
  }

  /** Filtering with a raised DO bit and then with the client's own is one filtering with the
      client's. */
  lemma {:induction false} FilterTwice(rrs: seq<RR>, raised: bool, do: bool, ttl: int, except: int)
    requires do ==> raised
    ensures Filtered(Filtered(rrs, raised, ttl, except), do, 0, except) == Filtered(rrs, do, ttl, except)
  {
    if rrs == [] {
    } else {
      var front, last := rrs[..|rrs| - 1], rrs[|rrs| - 1];
      FilterTwice(front, raised, do, ttl, except);
      var once := Filtered(front, raised, ttl, except);
      if Kept(last, raised, except) {
        FilteredSnoc(once, WithTTL(last, ttl), do, 0, except);
      } else {
        assert once + [] == once;
      }
    }
  }

  function Retimed(rrs: seq<RR>, ttl: int): seq<RR> {
    seq(|rrs|, i requires 0 <= i < |rrs| => WithTTL(rrs[i], ttl))
  }

  /** Setting the TTL while filtering is setting it afterwards: nothing else depends on it. */
  lemma {:induction false} FilterThenRetime(rrs: seq<RR>, do: bool, ttl: int, except: int)
    ensures Filtered(rrs, do, ttl, except) == Retimed(Filtered(rrs, do, 0, except), ttl)
  {
    if rrs == [] {
    } else {
      FilterThenRetime(rrs[..|rrs| - 1], do, ttl, except);
    }
  }

  lemma {:induction false} FilteredFrom(rrs: seq<RR>, do: bool, except: int)
    ensures forall r :: r in Filtered(rrs, do, 0, except) ==> r in rrs && r.rrtype != TYPE_OPT
  {
    if rrs == [] {
    } else {
      FilteredFrom(rrs[..|rrs| - 1], do, except);
      assert rrs == rrs[..|rrs| - 1] + [rrs[|rrs| - 1]];
    }
  }
}
