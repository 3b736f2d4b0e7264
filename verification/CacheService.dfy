/** What a client gets from the cache after any run: keys, subnets, packing, time and filtering
    together. */
module CacheService {
  import opened Bytes
  import opened IpNet
  import opened CacheKey
  import opened SubnetCache
  import opened EcsSafety
  import opened CacheItem
  import opened CacheHit

  /** An answer to a request, from upstream `u` at time `t0`. */
  datatype Answer = Answer(m: Msg, u: seq<byte>, t0: int, req: Request, reqEcs: Option<IPNet>, options: seq<EcsOption>)

  /** An answer the resolver accepted: it repeats the question type, and its time is representable. */
  ghost predicate Proper(a: Answer) {
    && ValidRequest(a.req) && ValidMsg(a.m) && (|a.m.questions| == 1 ==> a.m.questions[0] == a.req.qtype)
    && IsInt64(Unix(a.t0)) && IsInt64(Unix(a.t0) + MAX_UINT32)
  }

  /** The bytes stored for an answer, if it can be cached and packed. */
  ghost function PackedAnswer(c: Codec, a: Answer): Option<Data> {
    var p := Pack(c, a.m, a.u, Lifetime(a.m), a.t0);
    if Lifetime(a.m) == 0 || p.None? then None else Some(Layout(p.value))
  }

  datatype ServiceEvent =
    | Answered(a: Answer)
    | RemovedGeneral(key: seq<byte>)
    | RemovedSubnet(key: seq<byte>)
    | ClearedGeneral
    | ClearedSubnet

  ghost predicate ProperRun(events: seq<ServiceEvent>) {
    forall i :: 0 <= i < |events| && events[i].Answered? ==> Proper(events[i].a)
  }

  ghost function EventOf(c: Codec, ev: ServiceEvent): Event {
    match ev
    case Answered(a) => Respond(Exchange(a.req, a.reqEcs, a.options, PackedAnswer(c, a)))
    case RemovedGeneral(key) => RemoveGeneral(key)
    case RemovedSubnet(key) => RemoveSubnet(key)
    case ClearedGeneral => ClearGeneral
    case ClearedSubnet => ClearSubnet
  }

  ghost function EventsOf(c: Codec, events: seq<ServiceEvent>): (r: seq<Event>)
    ensures |r| == |events| && forall i :: 0 <= i < |events| ==> r[i] == EventOf(c, events[i])
    ensures ProperRun(events) ==> ValidRun(r)
  {
    seq(|events|, i requires 0 <= i < |events| => EventOf(c, events[i]))
  }

  /** A request as it reaches the cache: its DO bit may have been raised above the client's own. */
  datatype Client = Client(req: Request, id: int, ad: bool, do: bool)

  function QueryOf(k: Client): Query { Query(k.id, k.req.qtype, k.ad, k.req.doBit) }

  /** What the client is sent at `now` from the stored bytes. */
  ghost function Served(c: Codec, cfg: Settings, data: Data, k: Client, now: int): Option<Msg> {
    var item := UnpackItem(c, cfg, data, QueryOf(k), now);
    if item.None? || item.value.m.questions == [] then None else Some(HitReply(item.value, k.ad, k.do))
  }

  /** The reply to a hit on answer `a`: there is one exactly if a TTL is due, and then it is the fresh
      reply with the same content, with that TTL. */
  ghost predicate RepliesLike(c: Codec, cfg: Settings, a: Answer, data: Data, k: Client, now: int) {
    var hit, ttl := Served(c, cfg, data, k, now), TTLAt(cfg, Expiry(a.m, a.t0), now);
    && |a.m.questions| == 1 && (hit.Some? <==> ttl.Some?)
    && (hit.Some? ==> SameButTTL(hit.value, FreshReply(a.m, k.ad, k.do), ttl.value))
    && (hit.Some? ==> RepliesFrom(hit.value, a.m, QueryOf(k), k.do, ttl.value))
    && (hit.Some? ==> hit.value.id == k.id && hit.value.questions == [k.req.qtype] && !hit.value.truncated)
  }

  lemma StoredReplies(c: Codec, cfg: Settings, a: Answer, data: Data, k: Client, now: int)
    requires Inverse(c) && Proper(a) && PackedAnswer(c, a) == Some(data)
    requires a.req.qtype == k.req.qtype && (k.do ==> k.req.doBit)
    ensures RepliesLike(c, cfg, a, data, k, now)
  {
    LifetimeBounded(a.m);
    var q := QueryOf(k);
    assert Stored(c, a.m, a.u, a.t0, q, k.do);
    StoredBytes(c, cfg, a.m, a.u, a.t0, q, k.do, now);
    HitMeans(c, cfg, a.m, a.u, a.t0, q, k.do, now);
  }

  /** After any run, whatever the subnet lookup finds is served, at any later time, as the fresh reply
      of an earlier answer to the same question whose subnet covers the client, with the TTL due. */
  lemma SubnetHitServed(c: Codec, cfg: Settings, ecsEnabled: bool, events: seq<ServiceEvent>, k: Client, n: IPNet,
                        p: nat, now: int)
    returns (i: nat)
    requires Inverse(c) && ProperRun(events) && ValidRequest(k.req) && (k.do ==> k.req.doBit)
    requires ClientSubnet(n).Some? && ClientSubnet(n).value.prefix <= 128
    requires Longest(Run(ecsEnabled, EventsOf(c, events)).subnet, k.req, ClientSubnet(n).value, p)
    ensures i < |events| && events[i].Answered?
    ensures var a, e := events[i].a, EventOf(c, events[i]).e;
            Covers(e, k.req, ClientSubnet(n).value, p) || NulPrefixed(k.req.name) || NulPrefixed(a.req.name)
    ensures var data := Run(ecsEnabled, EventsOf(c, events)).subnet[KeyAt(k.req, ClientSubnet(n).value.ip, p)];
            RepliesLike(c, cfg, events[i].a, data, k, now)
  {
    i := ServedSubnetItemCovers(ecsEnabled, EventsOf(c, events), k.req, n, p);
    var data := Run(ecsEnabled, EventsOf(c, events)).subnet[KeyAt(k.req, ClientSubnet(n).value.ip, p)];
    StoredReplies(c, cfg, events[i].a, data, k, now);
  }

  /** The same for the general cache, whose entries were not given for a client subnet. */
  lemma GeneralHitServed(c: Codec, cfg: Settings, ecsEnabled: bool, events: seq<ServiceEvent>, k: Client, now: int)
    returns (i: nat)
    requires Inverse(c) && ProperRun(events) && ValidRequest(k.req) && (k.do ==> k.req.doBit)
    requires MsgToKey(k.req) in Run(ecsEnabled, EventsOf(c, events)).general
    ensures i < |events| && events[i].Answered? && SameQuestion(events[i].a.req, k.req)
    ensures ecsEnabled ==> events[i].a.reqEcs.None?
    ensures RepliesLike(c, cfg, events[i].a, Run(ecsEnabled, EventsOf(c, events)).general[MsgToKey(k.req)], k, now)
  {
    i := ServedGeneralItemMatches(ecsEnabled, EventsOf(c, events), k.req);
    StoredReplies(c, cfg, events[i].a, Run(ecsEnabled, EventsOf(c, events)).general[MsgToKey(k.req)], k, now);
  }
}
