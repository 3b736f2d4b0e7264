/** What can ever be served from the cache: a safety theorem over whole runs. */
module EcsSafety {
  import opened Bytes
  import opened IpNet
  import opened CacheKey
  import opened SubnetCache

  ghost predicate ValidEvent(ev: Event) {
    ev.Respond? ==> ValidRequest(ev.e.req)
  }

  ghost predicate ValidRun(events: seq<Event>) {
    forall i :: 0 <= i < |events| ==> ValidEvent(events[i])
  }

  /** The stores after a run from empty. */
  ghost function Run(ecsEnabled: bool, events: seq<Event>): Store
    requires ValidRun(events)
  {
    if events == [] then Store(map[], map[])
    else Step(ecsEnabled, Run(ecsEnabled, events[..|events| - 1]), events[|events| - 1])
  }

  /** `e` was stored under subnet `s` as `data`. */
  ghost predicate StoredFor(ecsEnabled: bool, e: Exchange, s: Subnet, data: Data) {
    var p := Placement(ecsEnabled, e);
    p.For? && CacheSubnet(Some(p.net)) == Some(s) && e.packed == Some(data)
  }

  /** No event from `i` on empties the subnet cache or removes the key from it. */
  ghost predicate SubnetKeptSince(events: seq<Event>, i: nat, key: seq<byte>) {
    forall k :: i <= k < |events| ==> !events[k].ClearSubnet? && events[k] != RemoveSubnet(key)
  }

  ghost predicate GeneralKeptSince(events: seq<Event>, i: nat, key: seq<byte>) {
    forall k :: i <= k < |events| ==> !events[k].ClearGeneral? && events[k] != RemoveGeneral(key)
  }

  lemma {:induction false} SubnetEntryHasOrigin(ecsEnabled: bool, events: seq<Event>, key: seq<byte>)
    returns (i: nat, s: Subnet)
    requires ValidRun(events) && key in Run(ecsEnabled, events).subnet
    ensures i < |events| && events[i].Respond? && s.prefix <= 128 && Canonical(s)
    ensures key == MsgToKeyWithSubnet(events[i].e.req, s)
    ensures StoredFor(ecsEnabled, events[i].e, s, Run(ecsEnabled, events).subnet[key])
    ensures SubnetKeptSince(events, i, key)
  {
    var n := |events| - 1;
    assert ValidEvent(events[n]);
    var written;
    written, s := SubnetEntryStep(ecsEnabled, Run(ecsEnabled, events[..n]), events[n], key);
    if written {
      i := n;
    } else {
      i, s := SubnetEntryHasOrigin(ecsEnabled, events[..n], key);
      KeptSnoc(events, i, key);
    }
  }

  lemma KeptSnoc(events: seq<Event>, i: nat, key: seq<byte>)
    requires events != [] && SubnetKeptSince(events[..|events| - 1], i, key)
    requires !events[|events| - 1].ClearSubnet? && events[|events| - 1] != RemoveSubnet(key)
    ensures SubnetKeptSince(events, i, key)
  {
    assert forall k :: 0 <= k < |events| - 1 ==> events[k] == events[..|events| - 1][k];
  }

  /** An entry present after a step was written by it or present before. */
  lemma SubnetEntryStep(ecsEnabled: bool, st: Store, ev: Event, key: seq<byte>) returns (written: bool, s: Subnet)
    requires ValidEvent(ev) && key in Step(ecsEnabled, st, ev).subnet
    ensures !ev.ClearSubnet? && ev != RemoveSubnet(key)
    ensures !written ==> key in st.subnet && st.subnet[key] == Step(ecsEnabled, st, ev).subnet[key]
    ensures written ==> ev.Respond? && s.prefix <= 128 && Canonical(s) && key == MsgToKeyWithSubnet(ev.e.req, s)
    ensures written ==> StoredFor(ecsEnabled, ev.e, s, Step(ecsEnabled, st, ev).subnet[key])
  {
    written := !(key in st.subnet && st.subnet[key] == Step(ecsEnabled, st, ev).subnet[key]);
    s := Subnet([], 0);
    if written {
      var net := Placement(ecsEnabled, ev.e).net;
      s := CacheSubnet(Some(net)).value;
      CacheSubnetFits(net);
    }
  }

  lemma {:induction false} GeneralEntryHasOrigin(ecsEnabled: bool, events: seq<Event>, key: seq<byte>) returns (i: nat)
    requires ValidRun(events) && key in Run(ecsEnabled, events).general
    ensures i < |events| && events[i].Respond? && key == MsgToKey(events[i].e.req)
    ensures Placement(ecsEnabled, events[i].e).General?
    ensures events[i].e.packed == Some(Run(ecsEnabled, events).general[key])
    ensures GeneralKeptSince(events, i, key)
  {
    var n := |events| - 1;
    var before := Run(ecsEnabled, events[..n]);
    if key in before.general && before.general[key] == Run(ecsEnabled, events).general[key] {
      i := GeneralEntryHasOrigin(ecsEnabled, events[..n], key);
    } else {
      i := n;
    }
  }

  function Min(a: int, b: int): int { if a < b then a else b }

  /** The subnet `s` an answer is stored for has length min(scope, source) and is that many bits
      of the address in the answer. */
  ghost predicate ScopeRespected(ecs: Ecs, s: Subnet) {
    && s.prefix == Min(ecs.scope, Ones(ecs.net))
    && (s.prefix > 0 ==> ecs.net.ip.Some? && |s.ip| == |ecs.net.ip.value| && s.ip == Masked(ecs.net.ip.value, s.prefix))
  }

  predicate KnownFamily(o: EcsOption) { o.family == 1 || o.family == 2 }

  /** Option `o` gives the subnet `a/p`, with an IPv4 address in either form. */
  predicate Gives(o: EcsOption, a: IP, p: nat) {
    && ProperIP(a) && o.sourceNetmask == p <= 8 * |a|
    && if |a| == 4 then o.family == 1 && (o.address == Some(a) || o.address == Some(V4_IN_V6_PREFIX + a))
       else o.family == 2 && o.address == Some(a)
  }

  /** The subnet of a message is that of its first option of a known family: the address in the
      form of its family, as many leading ones as its source prefix length, and its scope. */
  lemma {:induction false} EcsIsFirstKnown(options: seq<EcsOption>) returns (i: nat)
    ensures i <= |options| && forall k :: 0 <= k < i ==> !KnownFamily(options[k])
    ensures i == |options| <==> EcsFromMsg(options).None?
    ensures i < |options| ==>
              var o, ecs := options[i], EcsFromMsg(options).value;
              && KnownFamily(o) && ecs.scope == o.scope
              && (o.sourceNetmask <= (if o.family == 1 then 32 else 128) ==> Ones(ecs.net) == o.sourceNetmask)
              && (o.address.None? ==> ecs.net.ip.None?)
              && (o.family == 2 ==> ecs.net.ip == o.address)
              && (o.family == 1 && o.address.Some? ==> forall a :: ecs.net.ip == Some(a) <==>
                    |a| == 4 && (o.address.value == a || o.address.value == V4_IN_V6_PREFIX + a))
    ensures i < |options| ==>
              forall a, p: nat :: Gives(options[i], a, p) ==>
                EcsFromMsg(options) == Some(Ecs(NetOf(a, p), options[i].scope))
  {
    i := 0;
    if options == [] {
    } else {
      var o := options[0];
      if KnownFamily(o) {
        var l := if o.family == 1 then 4 else 16;
        if o.sourceNetmask <= 8 * l { SizeComplete(o.sourceNetmask, l); }
        if o.address.Some? { forall a { To4Exactly(o.address.value, a); } }
      } else {
        i := EcsIsFirstKnown(options[1..]);
        i := i + 1;
      }
    }
  }

  /** The shape of the subnet read from an option: the mask and the address belong together. */
  lemma {:induction false} EcsShape(options: seq<EcsOption>)
    requires EcsFromMsg(options).Some?
    ensures var n := EcsFromMsg(options).value.net;
            && (n.mask.Some? ==> |n.mask.value| == 16 || (|n.mask.value| == 4 && (n.ip.Some? ==> |n.ip.value| == 4)))
            && 0 <= Ones(n) && (n.mask.None? ==> Ones(n) == 0)
            && (n.mask.Some? ==> Ones(n) <= 8 * |n.mask.value| && Size(n.mask.value) == (Ones(n), 8 * |n.mask.value|))
  {
    var o := options[0];
    if o.family == 1 {
      if o.sourceNetmask <= 32 { SizeComplete(o.sourceNetmask, 4); }
    } else if o.family == 2 {
      if o.sourceNetmask <= 128 { SizeComplete(o.sourceNetmask, 16); }
    } else {
      EcsShape(options[1..]);
    }
  }

  /** Storing an answer whose scope is not shorter: the option's own subnet, as it is. */
  lemma UnscopedStored(n: IPNet, s: Subnet)
    requires n.mask.Some? ==> |n.mask.value| == 16 || (|n.mask.value| == 4 && (n.ip.Some? ==> |n.ip.value| == 4))
    requires CacheSubnet(Some(n)) == Some(s)
    ensures s.prefix == Ones(n)
    ensures s.prefix > 0 ==> n.ip.Some? && |s.ip| == |n.ip.value| && s.ip == Masked(n.ip.value, s.prefix)
  {
    CacheSubnetMasks(n);
  }

  /** Storing an answer with a shorter scope: masking the address first changes nothing. */
  lemma ScopedStored(ecs: Ecs, reqOnes: int, s: Subnet)
    requires var m, ip := ecs.net.mask, ecs.net.ip;
             m.Some? && (|m.value| == 16 || (|m.value| == 4 && (ip.Some? ==> |ip.value| == 4)))
    requires Size(ecs.net.mask.value).1 == 8 * |ecs.net.mask.value| && ecs.scope < reqOnes <= 8 * |ecs.net.mask.value|
    requires CacheSubnet(Some(ScopedNet(ecs, reqOnes))) == Some(s)
    ensures s.prefix == ecs.scope
    ensures s.prefix > 0 ==>
              ecs.net.ip.Some? && |s.ip| == |ecs.net.ip.value| && s.ip == Masked(ecs.net.ip.value, s.prefix)
  {
    var net, l := ScopedNet(ecs, reqOnes), |ecs.net.mask.value|;
    SizeComplete(ecs.scope, l);
    CacheSubnetMasks(net);
    assert net.mask == Some(MaskBytes(ecs.scope, l));
    assert net.ip.Some?;
    if ecs.net.ip.Some? { MaskedIdempotent(ecs.net.ip.value, ecs.scope); }
  }

  /** Section 7.3.1 of RFC 7871 on what is stored: an answer with a matching option goes under
      min(scope, source) bits of its address; one without the option goes under `/0`. */
  lemma StoredScope(ecsEnabled: bool, e: Exchange, s: Subnet, data: Data)
    requires StoredFor(ecsEnabled, e, s, data)
    ensures e.reqEcs.Some?
    ensures var ecs := EcsFromMsg(e.options);
            if ecs.None? then s.prefix == 0
            else EcsMatches(ecs.value.net, e.reqEcs.value) && ScopeRespected(ecs.value, s)
  {
    var ecs := EcsFromMsg(e.options);
    if ecs.Some? {
      EcsShape(e.options);
      var reqOnes := Ones(e.reqEcs.value);
      if ecs.value.scope < reqOnes { ScopedStored(ecs.value, reqOnes, s); } else { UnscopedStored(ecs.value.net, s); }
    }
  }

  /** The answer of exchange `e` may be served to a client asking `q` from `client` at prefix
      length `p`: same question and DO bit, and a subnet that covers the client. */
  ghost predicate Covers(e: Exchange, q: Request, client: Subnet, p: nat) {
    && SameQuestion(e.req, q) && e.reqEcs.Some? && p <= client.prefix
    && match EcsFromMsg(e.options)
       case None => p == 0
       case Some(ecs) =>
         && EcsMatches(ecs.net, e.reqEcs.value)
         && p == Min(ecs.scope, Ones(ecs.net))
         && (p > 0 ==> ecs.net.ip.Some? && SamePrefix(ecs.net.ip.value, client.ip, p))
  }

  lemma MaskIPOf(a: IP, p: nat)
    requires ProperIP(a) && p <= 8 * |a|
    ensures MaskIP(a, MaskBytes(p, |a|)) == Some(Masked(a, p))
  {
  }

  /** Section 7.3 of RFC 7871: the answer repeats the source prefix length of the request, and so many
      bits of its address. */
  lemma EcsMatchesIff(a: IP, p: nat, b: IP, r: nat)
    requires ProperIP(a) && p <= 8 * |a| && ProperIP(b) && r <= 8 * |b|
    ensures EcsMatches(NetOf(a, p), NetOf(b, r)) <==> p == r && SamePrefix(a, b, p)
    ensures |b| == 4 ==> (EcsMatches(NetOf(a, p), IPNet(Some(V4_IN_V6_PREFIX + b), Some(MaskBytes(r, 4)))) <==>
                          p == r && SamePrefix(a, b, p))
  {
    if |b| == 4 { assert (V4_IN_V6_PREFIX + b)[..12] == V4_IN_V6_PREFIX && (V4_IN_V6_PREFIX + b)[12..] == b; }
    SizeComplete(p, |a|);
    SizeComplete(r, |b|);
    MaskIPOf(a, p);
    MaskIPOf(b, r);
    if |a| == |b| {
      if p == r { MaskedSameIff(a, b, p); }
    } else if p == r {
      if |a| == 4 { OtherFamily(a, b, p); } else { OtherFamily(b, a, p); }
    }
  }

  /** A prefix of at most 32 bits of a long address is not the long form of a short one. */
  lemma OtherFamily(a: IP, b: IP, p: nat)
    requires |a| == 4 && |b| == 16 && p <= 32
    ensures !IpEqual(Masked(a, p), Masked(b, p)) && !IpEqual(Masked(b, p), Masked(a, p))
  {
    MaskedTailZero(b, p, 10);
    assert (V4_IN_V6_PREFIX + Masked(a, p))[10] == 0xff;
  }

  lemma ScopedSubnet(a: IP, p: nat, scope: byte, reqOnes: int)
    requires ProperIP(a) && p <= 8 * |a| && reqOnes == p
    ensures var m := Min(scope, p);
            CacheSubnet(Some(ScopedNet(Ecs(NetOf(a, p), scope), reqOnes))) == Some(Subnet(Masked(a, m), m))
  {
    SizeComplete(p, |a|);
    if scope < p {
      MaskIPOf(a, scope);
      MaskedProper(a, scope);
      MaskedIdempotent(a, scope);
      CacheSubnetOf(Masked(a, scope), scope);
    } else {
      CacheSubnetOf(a, p);
    }
  }

  lemma MaskedProper(a: IP, p: nat)
    requires ProperIP(a) && p <= 8 * |a|
    ensures ProperIP(Masked(a, p))
  {
    if |a| == 16 {
      var i :| 0 <= i < 12 && a[..12][i] != V4_IN_V6_PREFIX[i];
      if p >= 96 { MaskedKeeps(a, p, i); } else { MaskedCuts(a, p, 11); }
      assert Masked(a, p)[..12][if p >= 96 then i else 11] != V4_IN_V6_PREFIX[if p >= 96 then i else 11];
    }
  }

  /** Exactly what becomes of an answer whose first known option gives `a/p`, to a request from `b/r`:
      it is stored for the first min(scope, p) bits of `a` if it repeats the request's subnet, else
      not at all. */
  lemma AnswerStoredIff(e: Exchange, i: nat, a: IP, p: nat, b: IP, r: nat, data: Data)
    requires i < |e.options| && Gives(e.options[i], a, p) && forall k :: 0 <= k < i ==> !KnownFamily(e.options[k])
    requires ProperIP(b) && r <= 8 * |b| && e.reqEcs == Some(NetOf(b, r)) && e.packed == Some(data)
    ensures var m := Min(e.options[i].scope, p);
            if p == r && SamePrefix(a, b, p) then StoredFor(true, e, Subnet(Masked(a, m), m), data)
            else Placement(true, e).Nowhere?
  {
    var j := EcsIsFirstKnown(e.options);
    assert i == j;
    EcsMatchesIff(a, p, b, r);
    SizeComplete(r, |b|);
    if p == r { ScopedSubnet(a, p, e.options[i].scope, Ones(NetOf(b, r))); }
  }

  /** The other answers: without a subnet in the request, or with the feature off, they go to the
      general cache; without one in the answer only, they are stored for every client. */
  lemma OtherAnswersStored(ecsEnabled: bool, e: Exchange, data: Data)
    requires e.packed == Some(data)
    ensures !ecsEnabled || e.reqEcs.None? ==> Placement(ecsEnabled, e).General?
    ensures ecsEnabled && e.reqEcs.Some? && (forall k :: 0 <= k < |e.options| ==> !KnownFamily(e.options[k])) ==>
              StoredFor(ecsEnabled, e, Subnet([], 0), data)
  {
    var j := EcsIsFirstKnown(e.options);
  }

  lemma CoversBySubnet(ecsEnabled: bool, e: Exchange, s: Subnet, data: Data, q: Request, client: Subnet, p: nat)
    requires StoredFor(ecsEnabled, e, s, data) && SameQuestion(e.req, q) && p <= client.prefix
    requires SameSubnet(s, Subnet(Masked(client.ip, p), p))
    ensures Covers(e, q, client, p)
  {
    StoredScope(ecsEnabled, e, s, data);
    if p > 0 { MaskedSameIff(EcsFromMsg(e.options).value.net.ip.value, client.ip, p); }
  }

  /** After any run, whatever the subnet lookup finds was stored by an earlier answer to the same
      question that covers the requesting client, and has not been cleared or removed since. The
      exception are names that start with twelve NUL bytes, for which keys can collide. */
  lemma ServedSubnetItemCovers(ecsEnabled: bool, events: seq<Event>, q: Request, n: IPNet, p: nat) returns (i: nat)
    requires ValidRun(events) && ValidRequest(q)
    requires ClientSubnet(n).Some? && ClientSubnet(n).value.prefix <= 128
    requires Longest(Run(ecsEnabled, events).subnet, q, ClientSubnet(n).value, p)
    ensures i < |events| && events[i].Respond?
    ensures Covers(events[i].e, q, ClientSubnet(n).value, p) || NulPrefixed(q.name) || NulPrefixed(events[i].e.req.name)
    ensures var r := events[i].e.req; r.doBit == q.doBit && r.qtype == q.qtype && r.qclass == q.qclass
    ensures events[i].e.packed == Some(Run(ecsEnabled, events).subnet[KeyAt(q, ClientSubnet(n).value.ip, p)])
    ensures SubnetKeptSince(events, i, KeyAt(q, ClientSubnet(n).value.ip, p))
  {
    var client := ClientSubnet(n).value;
    var key := KeyAt(q, client.ip, p);
    var s;
    i, s := SubnetEntryHasOrigin(ecsEnabled, events, key);
    var t := Subnet(Masked(client.ip, p), p);
    MaskedIdempotent(client.ip, p);
    if n.mask.Some? { ClientSubnetFits(n); }
    KeyParts(events[i].e.req, s, q, t);
    HeaderInjective(events[i].e.req, q);
    if !NulPrefixed(q.name) && !NulPrefixed(events[i].e.req.name) {
      SubnetKeyInjective(events[i].e.req, s, q, t);
      CoversBySubnet(ecsEnabled, events[i].e, s, Run(ecsEnabled, events).subnet[key], q, client, p);
    }
  }

  /** The same for the general cache: only answers to the same question, and none that was given
      for a client subnet. */
  lemma ServedGeneralItemMatches(ecsEnabled: bool, events: seq<Event>, q: Request) returns (i: nat)
    requires ValidRun(events) && ValidRequest(q)
    requires MsgToKey(q) in Run(ecsEnabled, events).general
    ensures i < |events| && events[i].Respond? && SameQuestion(events[i].e.req, q)
    ensures events[i].e.packed == Some(Run(ecsEnabled, events).general[MsgToKey(q)])
    ensures GeneralKeptSince(events, i, MsgToKey(q))
    ensures ecsEnabled ==> events[i].e.reqEcs.None?
  {
    i := GeneralEntryHasOrigin(ecsEnabled, events, MsgToKey(q));
    GeneralKeyInjective(events[i].e.req, q);
  }

  /** A lookup finds something whenever some stored prefix covers the client. */
  lemma {:induction false} LongestExists(items: Items, q: Request, client: Subnet, r: nat) returns (p: nat)
    requires ValidRequest(q) && client.prefix <= 128
    requires r <= client.prefix && KeyAt(q, client.ip, r) in items
    ensures p >= r && Longest(items, q, client, p)
    decreases client.prefix - r
  {
    if NoneAbove(items, q, client, r) {
      p := r;
    } else {
      var r' :| r < r' <= client.prefix && KeyAt(q, client.ip, r') in items;
      p := LongestExists(items, q, client, r');
    }
  }

  /** The converse of the safety theorem: an answer just stored for a subnet is found by every
      client of that subnet that asks the same question, unless a longer prefix is. */
  lemma StoredIsFound(ecsEnabled: bool, events: seq<Event>, e: Exchange, s: Subnet, data: Data, q: Request,
                      client: Subnet)
    returns (p: nat)
    requires ValidRun(events + [Respond(e)]) && StoredFor(ecsEnabled, e, s, data)
    requires ValidRequest(q) && SameQuestion(e.req, q)
    requires s.prefix <= client.prefix <= 128 && (s.prefix > 0 ==> Masked(client.ip, s.prefix) == s.ip)
    ensures var items := Run(ecsEnabled, events + [Respond(e)]).subnet;
            && p >= s.prefix && Longest(items, q, client, p)
            && (p == s.prefix ==> items[KeyAt(q, client.ip, p)] == data)
  {
    var all := events + [Respond(e)];
    assert all[..|events|] == events && ValidEvent(all[|events|]);
    var key := KeyAt(q, client.ip, s.prefix);
    SameNameIff(e.req.name, q.name);
    assert key == MsgToKeyWithSubnet(e.req, s);
    p := LongestExists(Run(ecsEnabled, all).subnet, q, client, s.prefix);
  }

  /** And one just stored in the general cache is found by everyone who asks the same question. */
  lemma GeneralStoredIsFound(ecsEnabled: bool, events: seq<Event>, e: Exchange, data: Data, q: Request)
    requires ValidRun(events + [Respond(e)]) && Placement(ecsEnabled, e).General? && e.packed == Some(data)
    requires ValidRequest(q) && SameQuestion(e.req, q)
    ensures var items := Run(ecsEnabled, events + [Respond(e)]).general;
            MsgToKey(q) in items && items[MsgToKey(q)] == data
  {
    var all := events + [Respond(e)];
    assert all[..|events|] == events && ValidEvent(all[|events|]);
    GeneralKeyInjective(e.req, q);
  }
}
