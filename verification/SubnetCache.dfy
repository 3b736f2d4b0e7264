/** The response cache with client subnets: storing by scope, and longest-prefix lookup. */
module SubnetCache {
  import opened Bytes
  import opened IpNet
  import opened CacheKey

  type Data = seq<byte>
  type Items = map<seq<byte>, Data>

  /** A client-subnet option of a message. */
  datatype EcsOption = EcsOption(family: int, address: Option<IP>, sourceNetmask: byte, scope: byte)

  datatype Ecs = Ecs(net: IPNet, scope: byte)

  /** The subnet of the first option of a known family. */
  function EcsFromMsg(options: seq<EcsOption>): Option<Ecs> {
    if options == [] then None
    else
      var o := options[0];
      if o.family == 1 then
        Some(Ecs(IPNet(if o.address.Some? then To4(o.address.value) else None, CIDRMask(o.sourceNetmask, 32)), o.scope))
      else if o.family == 2 then
        Some(Ecs(IPNet(o.address, CIDRMask(o.sourceNetmask, 128)), o.scope))
      else EcsFromMsg(options[1..])
  }

  /** The loop over the options of a message. */
  method FindEcs(options: seq<EcsOption>) returns (ecs: Option<Ecs>)
    ensures ecs == EcsFromMsg(options)
  {
    assert options[0..] == options;
    for i := 0 to |options|
      invariant EcsFromMsg(options[i..]) == EcsFromMsg(options)
    {
      assert options[i..][1..] == options[i + 1..];
      var o := options[i];
      var ip, mask;
      if o.family == 1 {
        ip := if o.address.Some? then To4(o.address.value) else None;
        mask := CIDRMask(o.sourceNetmask, 32);
      } else if o.family == 2 {
        ip := o.address;
        mask := CIDRMask(o.sourceNetmask, 128);
      } else {
        continue;
      }
      return Some(Ecs(IPNet(ip, mask), o.scope));
    }
    return None;
  }

  function OrEmpty(o: Option<seq<byte>>): seq<byte> {
    if o.Some? then o.value else []
  }

  /** The number of leading ones of a mask, as `Mask.Size` gives it. */
  function Ones(n: IPNet): int { Size(OrEmpty(n.mask)).0 }

  /** Go's `IP.Equal`: the two forms of an IPv4 address are the same. */
  predicate IpEqual(a: IP, b: IP) {
    a == b || (|a| == 4 && b == V4_IN_V6_PREFIX + a) || (|b| == 4 && a == V4_IN_V6_PREFIX + b)
  }

  /** Section 7.3 of RFC 7871: the response repeats the query's source prefix length and address. */
  predicate EcsMatches(ecs: IPNet, reqEcs: IPNet) {
    && Ones(ecs) == Ones(reqEcs)
    && IpEqual(OrEmpty(MaskIP(OrEmpty(ecs.ip), OrEmpty(ecs.mask))),
               OrEmpty(MaskIP(OrEmpty(reqEcs.ip), OrEmpty(reqEcs.mask))))
  }

  /** One answered request: the request, its subnet, the answer's options, and the packed item
      (`None` when the answer is not cacheable). */
  datatype Exchange = Exchange(req: Request, reqEcs: Option<IPNet>, options: seq<EcsOption>, packed: Option<Data>)

  /** The subnet an answer is stored for when its scope is shorter than the source. */
  function ScopedNet(ecs: Ecs, reqOnes: int): IPNet {
    if ecs.scope < reqOnes then
      var mask := CIDRMask(ecs.scope, Size(OrEmpty(ecs.net.mask)).1);
      IPNet(MaskIP(OrEmpty(ecs.net.ip), OrEmpty(mask)), mask)
    else ecs.net
  }

  /** Where `cacheResp` puts an answer: nowhere, in the general cache, or under a subnet. */
  datatype Place = Nowhere | General | For(net: IPNet)

  function Placement(ecsEnabled: bool, e: Exchange): Place {
    if !ecsEnabled then General
    else
      var ecs := EcsFromMsg(e.options);
      if ecs.Some? && e.reqEcs.Some? then
        if !EcsMatches(ecs.value.net, e.reqEcs.value) then Nowhere
        else For(ScopedNet(ecs.value, Ones(e.reqEcs.value)))
      else if e.reqEcs.Some? then For(IPNet(None, None))
      else General
  }

  datatype Store = Store(general: Items, subnet: Items)

  function SetSubnet(items: Items, req: Request, net: IPNet, packed: Option<Data>): Items
    requires ValidRequest(req)
  {
    if packed.None? || CacheSubnet(Some(net)).None? then items
    else
      CacheSubnetFits(net);
      items[MsgToKeyWithSubnet(req, CacheSubnet(Some(net)).value) := packed.value]
  }

  function CacheResp(ecsEnabled: bool, st: Store, e: Exchange): Store
    requires ValidRequest(e.req)
  {
    match Placement(ecsEnabled, e)
    case Nowhere => st
    case General => if e.packed.None? then st else st.(general := st.general[MsgToKey(e.req) := e.packed.value])
    case For(net) => st.(subnet := SetSubnet(st.subnet, e.req, net, e.packed))
  }

  /** Everything that changes the stores. Removal stands for an eviction by the foreign cache and
      for the deletion of an unusable item by a lookup. */
  datatype Event =
    | Respond(e: Exchange)
    | RemoveGeneral(key: seq<byte>)
    | RemoveSubnet(key: seq<byte>)
    | ClearGeneral
    | ClearSubnet

  /** What an event does to the stores. */
  function Step(ecsEnabled: bool, st: Store, ev: Event): Store
    requires ev.Respond? ==> ValidRequest(ev.e.req)
  {
    match ev
    case Respond(e) => CacheResp(ecsEnabled, st, e)
    case RemoveGeneral(key) => st.(general := st.general - {key})
    case RemoveSubnet(key) => st.(subnet := st.subnet - {key})
    case ClearGeneral => st.(general := map[])
    case ClearSubnet => st.(subnet := map[])
  }

  // Longest-prefix match.

  /** The key under which an entry for the first `p` bits of the client's address is stored. */
  function KeyAt(q: Request, addr: IP, p: nat): seq<byte>
    requires ValidRequest(q) && p <= 128
  {
    MsgToKeyWithSubnet(q, Subnet(Masked(addr, p), p))
  }

  /** Nothing longer than `p`, up to the client's prefix length, is stored for the client. */
  ghost predicate NoneAbove(items: Items, q: Request, client: Subnet, p: int)
    requires ValidRequest(q) && client.prefix <= 128
  {
    forall r: nat :: p < r <= client.prefix ==> KeyAt(q, client.ip, r) !in items
  }

  /** `p` is the greatest stored prefix length, up to the client's, that covers the client. */
  ghost predicate Longest(items: Items, q: Request, client: Subnet, p: nat)
    requires ValidRequest(q) && client.prefix <= 128
  {
    p <= client.prefix && KeyAt(q, client.ip, p) in items && NoneAbove(items, q, client, p)
  }

  /** One iteration of the loop, on the key bytes: set the length byte, then drop the address
      or clear its last network bit. */
  function Shorten(k: seq<byte>, m: nat, ipLen: nat): seq<byte>
    requires m <= 128 && KEY_IP_INDEX + ipLen <= |k| && m < 8 * ipLen
  {
    var k' := k[KEY_MASK_INDEX := m];
    if m == 0 then k'[..KEY_IP_INDEX] + k'[KEY_IP_INDEX + ipLen..]
    else k'[KEY_IP_INDEX + m / 8 := AndNot(k'[KEY_IP_INDEX + m / 8], LowBit(7 - m % 8))]
  }

  lemma UpdateMiddle(a: seq<byte>, b: seq<byte>, c: seq<byte>, i: nat, v: byte)
    requires i < |b|
    ensures (a + b + c)[|a| + i] == b[i]
    ensures (a + b + c)[|a| + i := v] == a + b[i := v] + c
  {
  }

  lemma DropMiddle(a: seq<byte>, b: seq<byte>, c: seq<byte>)
    ensures (a + b + c)[..|a|] + (a + b + c)[|a| + |b|..] == a + c
  {
  }

  lemma ShortenParts(h: seq<byte>, ip: IP, name: seq<byte>, m: nat)
    requires |h| == KEY_MASK_INDEX && m < 128 && m < 8 * |ip|
    ensures Shorten(h + [m + 1] + ip + name, m, |ip|) ==
            if m == 0 then h + [0] + name else h + [m] + ip[m / 8 := AndNot(ip[m / 8], LowBit(7 - m % 8))] + name
  {
    var k := h + [m + 1] + ip + name;
    assert k == h + [m + 1] + (ip + name);
    UpdateMiddle(h, [m + 1], ip + name, 0, m);
    assert [m + 1][0 := m] == [m];
    assert k[KEY_MASK_INDEX := m] == (h + [m]) + ip + name;
    if m == 0 {
      DropMiddle(h + [m], ip, name);
    } else {
      UpdateMiddle(h + [m], ip, name, m / 8, AndNot(ip[m / 8], LowBit(7 - m % 8)));
    }
  }

  lemma KeyAtShape(q: Request, addr: IP, p: nat)
    requires ValidRequest(q) && p <= 128
    ensures KeyAt(q, addr, p) == Header(q) + [p] + (if p == 0 then [] else Masked(addr, p)) + LowerName(q.name)
    ensures p == 0 ==> KeyAt(q, addr, p) == Header(q) + [0] + LowerName(q.name)
  {
    assert Header(q) + [0] + [] == Header(q) + [0];
  }

  /** The bit-clearing step keeps the key that of the address masked to the current length. */
  lemma ShortenKeepsKey(q: Request, addr: IP, m: nat)
    requires ValidRequest(q) && m < 128 && m < 8 * |addr|
    ensures |KeyAt(q, addr, m + 1)| >= KEY_IP_INDEX + |addr|
    ensures Shorten(KeyAt(q, addr, m + 1), m, |addr|) == KeyAt(q, addr, m)
  {
    var h, name := Header(q), LowerName(q.name);
    ShortenParts(h, Masked(addr, m + 1), name, m);
    KeyAtShape(q, addr, m + 1);
    KeyAtShape(q, addr, m);
    if m > 0 { MaskedStep(addr, m); }
  }

  lemma NoneAboveStep(items: Items, q: Request, client: Subnet, m: nat)
    requires ValidRequest(q) && client.prefix <= 128 && 0 < m <= client.prefix
    requires NoneAbove(items, q, client, m) && KeyAt(q, client.ip, m) !in items
    ensures NoneAbove(items, q, client, m - 1)
  {
  }

  /** One round of the search: the key for one bit less. */
  method ShortenKey(k: seq<byte>, m: nat, ipLen: nat, ghost req: Request, ghost addr: IP) returns (r: seq<byte>)
    requires ValidRequest(req) && m < 128 && m < 8 * |addr| && ipLen == |addr|
    requires k == KeyAt(req, addr, m + 1)
    ensures r == KeyAt(req, addr, m)
  {
    ShortenKeepsKey(req, addr, m);
    r := Shorten(k, m, ipLen);
  }

  /** The longest-prefix search of `getWithSubnet`: starting from the client's own subnet it
      edits the key one bit at a time, and stops at the greatest stored prefix length that
      covers the client, or at `/0` when none does. */
  method LongestPrefix(items: Items, req: Request, s: Subnet, ghost client: Subnet)
    returns (k: seq<byte>, found: bool, m: nat)
    requires ValidRequest(req) && client.prefix <= 128
    requires client.prefix > 0 ==> client.prefix <= 8 * |client.ip|
    requires s == Subnet(Masked(client.ip, client.prefix), client.prefix)
    ensures m <= client.prefix && k == KeyAt(req, client.ip, m)
    ensures found ==> Longest(items, req, client, m)
    ensures !found ==> NoneAbove(items, req, client, -1)
  {
    m := s.prefix;
    var ipLen := |s.ip|;
    k := MsgToKeyWithSubnet(req, s);
    found := k in items;
    while m > 0 && !found
      invariant m <= client.prefix && k == KeyAt(req, client.ip, m)
      invariant found == (k in items)
      invariant NoneAbove(items, req, client, m)
    {
      NoneAboveStep(items, req, client, m);
      m := m - 1;
      k := ShortenKey(k, m, ipLen, req, client.ip);
      found := k in items;
    }
  }

  /** What a subnet lookup answers and leaves behind: the longest covering entry if it is usable,
      and the removal of that entry if it is not. */
  ghost predicate Outcome(ecsEnabled: bool, before: Store, after: Store, q: Request, client: Subnet,
                          usable: Data -> bool,
                          data: Option<Data>)
    requires ValidRequest(q) && client.prefix <= 128
  {
    || (NoneAbove(before.subnet, q, client, -1) && data.None? && after == before)
    || exists p: nat ::
         && Longest(before.subnet, q, client, p)
         && FoundAt(ecsEnabled, before, after, KeyAt(q, client.ip, p), usable, data)
  }

  predicate FoundAt(ecsEnabled: bool, before: Store, after: Store, key: seq<byte>, usable: Data -> bool,
                    data: Option<Data>) {
    && key in before.subnet
    && if usable(before.subnet[key]) then data == Some(before.subnet[key]) && after == before
       else data.None? && after == Step(ecsEnabled, before, RemoveSubnet(key))
  }

  class Cache {
    const withEcs: bool
    var items: Items
    var itemsWithSubnet: Items

    function View(): Store
      reads this
    {
      Store(items, itemsWithSubnet)
    }

    constructor (withEcs: bool)
      ensures this.withEcs == withEcs && View() == Store(map[], map[])
    {
      this.withEcs, items, itemsWithSubnet := withEcs, map[], map[];
    }

    method Set(req: Request, packed: Option<Data>)
      requires ValidRequest(req)
      modifies this`items
      ensures items == if packed.None? then old(items) else old(items)[MsgToKey(req) := packed.value]
    {
      if packed.None? { return; }
      items := items[MsgToKey(req) := packed.value];
    }

    method SetWithSubnet(req: Request, net: IPNet, packed: Option<Data>)
      requires ValidRequest(req)
      modifies this`itemsWithSubnet
      ensures itemsWithSubnet == SetSubnet(old(itemsWithSubnet), req, net, packed)
    {
      if packed.None? { return; }
      var s := CacheSubnet(Some(net));
      if s.None? { return; }
      CacheSubnetFits(net);
      itemsWithSubnet := itemsWithSubnet[MsgToKeyWithSubnet(req, s.value) := packed.value];
    }

    /** Stores an answer: mismatched subnets are dropped, scopes shorter than the source are
        stored for the whole scope, answers without the option for every client. */
    method StoreResponse(e: Exchange)
      requires ValidRequest(e.req)
      modifies this
      ensures View() == Step(withEcs, old(View()), Respond(e))
    {
      if !withEcs {
        Set(e.req, e.packed);
        return;
      }
      var ecs := FindEcs(e.options);
      if ecs.Some? && e.reqEcs.Some? {
        var net, scope := ecs.value.net, ecs.value.scope;
        var (_, bits) := Size(OrEmpty(net.mask));
        var reqOnes := Ones(e.reqEcs.value);
        if !EcsMatches(net, e.reqEcs.value) { return; }
        if scope < reqOnes {
          var mask := CIDRMask(scope, bits);
          net := IPNet(MaskIP(OrEmpty(net.ip), OrEmpty(mask)), mask);
        }
        SetWithSubnet(e.req, net, e.packed);
      } else if e.reqEcs.Some? {
        SetWithSubnet(e.req, IPNet(None, None), e.packed);
      } else {
        Set(e.req, e.packed);
      }
    }

    /** General lookup: an unusable item is deleted. */
    method Get(req: Request, usable: Data -> bool) returns (data: Option<Data>)
      requires ValidRequest(req)
      modifies this`items
      ensures var k := MsgToKey(req);
              && data == (if k in old(items) && usable(old(items)[k]) then Some(old(items)[k]) else None)
              && View() == if k in old(items) && data.None?
                           then Step(withEcs, old(View()), RemoveGeneral(k)) else old(View())
    {
      var k := MsgToKey(req);
      if k !in items { return None; }
      if usable(items[k]) { return Some(items[k]); }
      items := items - {k};
      data := None;
    }

    /** Subnet lookup: the stored entry with the greatest prefix length that covers the client,
        or none when there is none; an unusable item is deleted. */
    method GetWithSubnet(req: Request, n: Option<IPNet>, usable: Data -> bool) returns (data: Option<Data>)
      requires ValidRequest(req)
      modifies this`itemsWithSubnet
      ensures (!withEcs || CacheSubnet(n).None?) ==> data.None? && View() == old(View())
      ensures withEcs && CacheSubnet(n).Some? ==>
                var client := ClientSubnet(n.value).value;
                client.prefix <= 128 && Outcome(withEcs, old(View()), View(), req, client, usable, data)
    {
      if !withEcs { return None; }
      var s := CacheSubnet(n);
      if s.None? { return None; }
      ghost var client := ClientSubnet(n.value).value;
      CacheSubnetMasks(n.value);
      if n.value.mask.Some? { ClientSubnetFits(n.value); }
      var k, found, m := LongestPrefix(itemsWithSubnet, req, s.value, client);
      if !found { return None; }
      var d := itemsWithSubnet[k];
      if usable(d) { return Some(d); }
      itemsWithSubnet := itemsWithSubnet - {k};
      data := None;
    }

    method ClearItems()
      modifies this`items
      ensures View() == Step(withEcs, old(View()), ClearGeneral)
    {
      items := map[];
    }

    method ClearItemsWithSubnet()
      modifies this`itemsWithSubnet
      ensures View() == Step(withEcs, old(View()), ClearSubnet)
    {
      itemsWithSubnet := map[];
    }
  }
}
