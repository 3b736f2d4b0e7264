/** The packed form of an item, reading it back at a later time, and what a cache hit replies. */
module CacheHit {
  import opened Bytes
  import opened CacheItem
  import opened DnsConstants

  /** Wire packing of messages: foreign, an inverse pair on whatever it packs. */
  datatype Codec = Codec(pack: Msg -> Option<seq<byte>>, unpack: seq<byte> -> Option<Msg>)

  ghost predicate Inverse(c: Codec) {
    forall m :: c.pack(m).Some? ==> c.pack(m).value != [] && c.unpack(c.pack(m).value) == Some(m)
  }

  /** Settings of the cache; durations are in nanoseconds. */
  datatype Settings = Settings(optimistic: bool, optimisticTTL: nat, optimisticMaxAge: nat, optimisticSeconds: int)

  /** `optimisticSeconds` is `optimisticTTL` converted to whole seconds in 32 bits. What becomes of a
      duration that does not fit depends on the platform. */
  predicate ValidSettings(cfg: Settings) {
    && 0 <= cfg.optimisticSeconds <= MAX_UINT32
    && (cfg.optimisticTTL / SECOND <= MAX_UINT32 ==> cfg.optimisticSeconds == cfg.optimisticTTL / SECOND)
  }

  /** A request, as far as a cached reply depends on it. */
  datatype Query = Query(id: int, qtype: int, ad: bool, do: bool)

  const SECOND := 1_000_000_000

  /** Unix seconds of an instant given in nanoseconds. */
  function Unix(t: int): int { t / SECOND }

  const EXP_TIME_SZ := 8
  const MIN_PACKED_LEN := 10

  /** The `k` low bytes of the two's complement form of `n`, most significant first. */
  function BigEndian(n: int, k: nat): (s: seq<byte>)
    ensures |s| == k
    decreases k
  {
    if k == 0 then [] else BigEndian(n / 256, k - 1) + [n % 256]
  }

  /** The bytes read as a signed number. */
  function Signed(s: seq<byte>): int
    requires |s| > 0
  {
    var last: int := s[|s| - 1];
    if |s| == 1 then (if last < 128 then last else last - 256) else Signed(s[..|s| - 1]) * 256 + last
  }

  function Bound(k: nat): int
    requires k > 0
  {
    if k == 1 then 128 else 256 * Bound(k - 1)
  }

  lemma {:induction false} SignedRoundTrip(n: int, k: nat)
    requires k > 0 && -Bound(k) <= n < Bound(k)
    ensures Signed(BigEndian(n, k)) == n
    decreases k
  {
    var s := BigEndian(n, k);
    if k == 1 {
      assert s == [n % 256];
    } else {
      SignedRoundTrip(n / 256, k - 1);
      assert s[..k - 1] == BigEndian(n / 256, k - 1);
    }
  }

  /** What an item holds: when it expires, the packed message, and the upstream's address. */
  datatype Parts = Parts(expire: int, message: seq<byte>, upstream: seq<byte>)

  function Layout(p: Parts): seq<byte>
    requires |p.message| <= 0xFFFF
  {
    BigEndian(p.expire, EXP_TIME_SZ) + BE16(|p.message|) + p.message + p.upstream
  }

  /** Go's `Buffer.Next` on what follows position `from`. */
  function Next(data: seq<byte>, from: nat, n: nat): seq<byte>
    requires from <= |data|
  {
    if from + n <= |data| then data[from..from + n] else data[from..]
  }

  function PartsOf(data: seq<byte>): Parts
    requires |data| >= MIN_PACKED_LEN
  {
    var message := Next(data, MIN_PACKED_LEN, U16(data[EXP_TIME_SZ..MIN_PACKED_LEN]));
    Parts(Signed(data[..EXP_TIME_SZ]), message, data[MIN_PACKED_LEN + |message|..])
  }

  predicate IsInt64(n: int) { -Bound(EXP_TIME_SZ) <= n < Bound(EXP_TIME_SZ) }

  /** The bytes give the parts back. */
  lemma LayoutRoundTrip(p: Parts)
    requires IsInt64(p.expire) && |p.message| <= 0xFFFF
    ensures |Layout(p)| >= MIN_PACKED_LEN && PartsOf(Layout(p)) == p
  {
    SignedRoundTrip(p.expire, EXP_TIME_SZ);
    BE16RoundTrip(|p.message|);
    PackedParts(BigEndian(p.expire, EXP_TIME_SZ), BE16(|p.message|), p.message, p.upstream);
  }

  lemma PackedParts(head: seq<byte>, len: seq<byte>, pm: seq<byte>, u: seq<byte>)
    requires |head| == 8 && |len| == 2
    ensures var data := head + len + pm + u;
            data[..8] == head && data[8..10] == len && data[10..10 + |pm|] == pm && data[10 + |pm|..] == u
  {
  }

  /** The item that is stored. */
  function Pack(c: Codec, m: Msg, u: seq<byte>, ttl: int, now: int): Option<Parts> {
    var pm := c.pack(m);
    if pm.None? || |pm.value| > 0xFFFF then None else Some(Parts(Unix(now) + ttl, pm.value, u))
  }

  datatype Item = Item(m: Msg, u: seq<byte>)

  /** The TTL a stored item is returned with; `None` when it is not returned at all. */
  function TTLAt(cfg: Settings, expire: int, now: int): Option<int> {
    if now > expire * SECOND then
      if !cfg.optimistic || now > expire * SECOND + cfg.optimisticMaxAge then None
      else Some(cfg.optimisticSeconds)
    else
      var seconds := expire - Unix(now);
      Some(if seconds < 0 then 0 else if seconds > MAX_UINT32 then MAX_UINT32 else seconds)
  }

  /** The three ages of an item. */
  lemma TTLByAge(cfg: Settings, expire: int, now: int)
    ensures now < expire * SECOND && expire - Unix(now) <= MAX_UINT32 ==>
            expire - Unix(now) >= 1 && TTLAt(cfg, expire, now) == Some(expire - Unix(now))
    ensures now == expire * SECOND ==> TTLAt(cfg, expire, now) == Some(0)
    ensures now > expire * SECOND ==>
            (TTLAt(cfg, expire, now).Some? <==> cfg.optimistic && now <= expire * SECOND + cfg.optimisticMaxAge)
    ensures now > expire * SECOND && TTLAt(cfg, expire, now).Some? ==>
              TTLAt(cfg, expire, now).value == cfg.optimisticSeconds
  {
  }

  /** An empty reply to `q` with the code and flags of `m`. */
  function ReplyTo(q: Query, m: Msg): Msg {
    Msg(q.id, [q.qtype], m.rcode, false, m.ad, m.ra, [], [], [])
  }

  /** What the parts of an item give to a request. */
  function ItemOf(c: Codec, cfg: Settings, p: Parts, q: Query, now: int): Option<Item> {
    var ttl := TTLAt(cfg, p.expire, now);
    if ttl.None? || p.message == [] then None
    else
      var m := c.unpack(p.message);
      if m.None? || m.value.questions == [] then None
      else Some(Item(FilterMsg(ReplyTo(q, m.value), m.value, q.ad, q.do, ttl.value), p.upstream))
  }

  function UnpackItem(c: Codec, cfg: Settings, data: seq<byte>, q: Query, now: int): Option<Item> {
    if |data| < MIN_PACKED_LEN then None else ItemOf(c, cfg, PartsOf(data), q, now)
  }

  /** Reading the bytes of an item back is reading its parts. */
  lemma UnpackLayout(c: Codec, cfg: Settings, p: Parts, q: Query, now: int)
    requires IsInt64(p.expire) && |p.message| <= 0xFFFF
    ensures UnpackItem(c, cfg, Layout(p), q, now) == ItemOf(c, cfg, p, q, now)
  {
    LayoutRoundTrip(p);
  }

  /** Reading back what was packed gives the stored message, filtered for the request, and the
      upstream, with the TTL due at the time of reading. */
  lemma UnpackPacked(c: Codec, cfg: Settings, m: Msg, u: seq<byte>, ttl: int, t0: int, q: Query, t1: int)
    requires Inverse(c) && |m.questions| == 1
    requires Pack(c, m, u, ttl, t0).Some?
    ensures var left := TTLAt(cfg, Unix(t0) + ttl, t1);
            ItemOf(c, cfg, Pack(c, m, u, ttl, t0).value, q, t1) ==
            if left.None? then None else Some(Item(FilterMsg(ReplyTo(q, m), m, q.ad, q.do, left.value), u))
  {
  }

  /** What the proxy sends back on a hit: the item, filtered once more with the client's own bits. */
  function HitReply(item: Item, ad: bool, do: bool): Msg
    requires |item.m.questions| > 0
  {
    FilterMsg(item.m, item.m, ad, do, 0)
  }

  /** What the proxy sends back for a fresh answer `m`. */
  function FreshReply(m: Msg, ad: bool, do: bool): Msg
    requires |m.questions| > 0
  {
    FilterMsg(m, m, ad, do, 0)
  }

  /** The same records in the same order in all sections, with the TTL set unless it is zero. */
  predicate SameButTTL(hit: Msg, direct: Msg, ttl: int) {
    && hit.rcode == direct.rcode && hit.ad == direct.ad && hit.ra == direct.ra
    && hit.answer == Retimed(direct.answer, ttl)
    && hit.ns == Retimed(direct.ns, ttl)
    && hit.extra == Retimed(direct.extra, ttl)
  }

  /** The reply to `q`, under its ID and for its question, with the code, flags and records of the stored
      `m` that the client is to get. */
  predicate RepliesFrom(hit: Msg, m: Msg, q: Query, do: bool, ttl: int) {
    && hit.id == q.id && hit.questions == [q.qtype] && !hit.truncated
    && hit.rcode == m.rcode && hit.ra == m.ra && hit.ad == (m.ad && (q.ad || do))
    && hit.answer == Filtered(m.answer, do, ttl, q.qtype)
    && hit.ns == Filtered(m.ns, do, ttl, TYPE_NONE)
    && hit.extra == Filtered(m.extra, do, ttl, TYPE_NONE)
  }

  /** Cache transparency: a hit differs from the fresh reply with the same content only in TTLs,
      although it was filtered once with the raised DO bit and once with the client's. The AD bit is
      given only to a client that set AD or DO. */
  lemma HitIsTransparent(m: Msg, q: Query, do: bool, ttl: int, u: seq<byte>)
    requires |m.questions| == 1 && m.questions[0] == q.qtype
    requires do ==> q.do
    ensures var item := Item(FilterMsg(ReplyTo(q, m), m, q.ad, q.do, ttl), u);
            && SameButTTL(HitReply(item, q.ad, do), FreshReply(m, q.ad, do), ttl)
            && RepliesFrom(HitReply(item, q.ad, do), m, q, do, ttl)
  {
    FilterTwice(m.answer, q.do, do, ttl, q.qtype);
    FilterTwice(m.ns, q.do, do, ttl, TYPE_NONE);
    FilterTwice(m.extra, q.do, do, ttl, TYPE_NONE);
    FilterThenRetime(m.answer, do, ttl, q.qtype);
    FilterThenRetime(m.ns, do, ttl, TYPE_NONE);
    FilterThenRetime(m.extra, do, ttl, TYPE_NONE);
  }

  /** Every record of the reply carries this TTL. */
  ghost predicate AllTTL(m: Msg, ttl: int) {
    forall r :: r in Records(m) ==> r.ttl == ttl
  }

  lemma RetimedTTL(hit: Msg, direct: Msg, ttl: int)
    requires SameButTTL(hit, direct, ttl) && ttl != 0
    ensures AllTTL(hit, ttl)
  {
    assert forall r :: r in Retimed(direct.answer, ttl) ==> r.ttl == ttl;
    assert forall r :: r in Retimed(direct.ns, ttl) ==> r.ttl == ttl;
    assert forall r :: r in Retimed(direct.extra, ttl) ==> r.ttl == ttl;
  }

  /** An answer that was stored at `t0`, and a later request for the same type. */
  ghost predicate Stored(c: Codec, m: Msg, u: seq<byte>, t0: int, q: Query, do: bool) {
    && Inverse(c) && ValidMsg(m) && Lifetime(m) > 0 && m.questions == [q.qtype] && (do ==> q.do)
    && IsInt64(Unix(t0)) && IsInt64(Unix(t0) + MAX_UINT32)
    && Pack(c, m, u, Lifetime(m), t0).Some?
  }

  /** The second at which an answer stored at `t0` expires. */
  ghost function Expiry(m: Msg, t0: int): int { Unix(t0) + Lifetime(m) }

  /** What a client is sent at `t1` from the item stored at `t0`, if anything. */
  ghost function HitAt(c: Codec, cfg: Settings, m: Msg, u: seq<byte>, t0: int, q: Query, do: bool, t1: int): Option<Msg>
    requires Stored(c, m, u, t0, q, do)
  {
    ReplyFrom(c, cfg, Pack(c, m, u, Lifetime(m), t0).value, q, do, t1)
  }

  /** The stored bytes hold the parts. */
  lemma StoredBytes(c: Codec, cfg: Settings, m: Msg, u: seq<byte>, t0: int, q: Query, do: bool, t1: int)
    requires Stored(c, m, u, t0, q, do)
    ensures var p := Pack(c, m, u, Lifetime(m), t0).value;
            |p.message| <= 0xFFFF && UnpackItem(c, cfg, Layout(p), q, t1) == ItemOf(c, cfg, p, q, t1)
  {
    LifetimeBounded(m);
    UnpackLayout(c, cfg, Pack(c, m, u, Lifetime(m), t0).value, q, t1);
  }

  /** The reply to a request from the parts of an item. */
  function ReplyFrom(c: Codec, cfg: Settings, p: Parts, q: Query, do: bool, now: int): Option<Msg> {
    var item := ItemOf(c, cfg, p, q, now);
    if item.None? || item.value.m.questions == [] then None else Some(HitReply(item.value, q.ad, do))
  }

  lemma ReplyMeans(c: Codec, cfg: Settings, m: Msg, u: seq<byte>, life: int, t0: int, q: Query, do: bool, t1: int)
    requires Inverse(c) && m.questions == [q.qtype] && (do ==> q.do) && Pack(c, m, u, life, t0).Some?
    ensures var ttl := TTLAt(cfg, Unix(t0) + life, t1);
            var hit := ReplyFrom(c, cfg, Pack(c, m, u, life, t0).value, q, do, t1);
            && (hit.Some? <==> ttl.Some?)
            && (hit.Some? ==> SameButTTL(hit.value, FreshReply(m, q.ad, do), ttl.value))
            && (hit.Some? ==> RepliesFrom(hit.value, m, q, do, ttl.value))
  {
    UnpackPacked(c, cfg, m, u, life, t0, q, t1);
    var ttl := TTLAt(cfg, Unix(t0) + life, t1);
    if ttl.Some? { HitIsTransparent(m, q, do, ttl.value, u); }
  }

  /** Packing, reading back and filtering twice amount to the direct reply, retimed. */
  lemma HitMeans(c: Codec, cfg: Settings, m: Msg, u: seq<byte>, t0: int, q: Query, do: bool, t1: int)
    requires Stored(c, m, u, t0, q, do)
    ensures var ttl, hit := TTLAt(cfg, Expiry(m, t0), t1), HitAt(c, cfg, m, u, t0, q, do, t1);
            && (hit.Some? <==> ttl.Some?)
            && (hit.Some? ==> SameButTTL(hit.value, FreshReply(m, q.ad, do), ttl.value))
            && (hit.Some? ==> RepliesFrom(hit.value, m, q, do, ttl.value))
  {
    ReplyMeans(c, cfg, m, u, Lifetime(m), t0, q, do, t1);
  }

  /** Strictly before expiry a stored answer is served with the whole seconds left as TTL: at
      least one, at most the TTL of any stored record (30 for a server failure), and otherwise
      exactly as a fresh answer. */
  lemma HitBeforeExpiry(c: Codec, cfg: Settings, m: Msg, u: seq<byte>, t0: int, q: Query, do: bool, t1: int)
    requires Stored(c, m, u, t0, q, do)
    requires t0 <= t1 < Expiry(m, t0) * SECOND
    ensures var hit, left := HitAt(c, cfg, m, u, t0, q, do, t1), Expiry(m, t0) - Unix(t1);
            && hit.Some? && SameButTTL(hit.value, FreshReply(m, q.ad, do), left) && AllTTL(hit.value, left)
            && 1 <= left <= Lifetime(m)
            && (forall r :: r in Records(m) && r.rrtype != TYPE_OPT ==> left <= r.ttl)
            && (m.rcode == RCODE_SERVER_FAILURE ==> left <= SERVFAIL_MAX_CACHE_TTL)
  {
    var left := Expiry(m, t0) - Unix(t1);
    assert 1 <= left <= Lifetime(m) < MAX_UINT32 by { LifetimeBounded(m); }
    TTLByAge(cfg, Expiry(m, t0), t1);
    HitMeans(c, cfg, m, u, t0, q, do, t1);
    RetimedTTL(HitAt(c, cfg, m, u, t0, q, do, t1).value, FreshReply(m, q.ad, do), left);
    LifetimeBounded(m);
  }

  lemma FreshRecords(m: Msg, ad: bool, do: bool)
    requires |m.questions| == 1
    ensures forall r :: r in Records(FreshReply(m, ad, do)) ==> r in Records(m) && r.rrtype != TYPE_OPT
  {
    FilteredFrom(m.answer, do, m.questions[0]);
    FilteredFrom(m.ns, do, TYPE_NONE);
    FilteredFrom(m.extra, do, TYPE_NONE);
  }

  /** Zero seconds stand for "do not set": the records keep the TTLs they were stored with, none
      of which is zero. */
  lemma ZeroKeepsTTLs(m: Msg, ad: bool, do: bool, hit: Msg)
    requires ValidMsg(m) && Lifetime(m) > 0 && |m.questions| == 1
    requires SameButTTL(hit, FreshReply(m, ad, do), 0)
    ensures Records(hit) == Records(FreshReply(m, ad, do))
    ensures AllTTL(hit, 0) <==> Records(hit) == []
  {
    var direct := FreshReply(m, ad, do);
    assert Retimed(direct.answer, 0) == direct.answer;
    assert Retimed(direct.ns, 0) == direct.ns && Retimed(direct.extra, 0) == direct.extra;
    LifetimeBounded(m);
    FreshRecords(m, ad, do);
    if Records(direct) != [] { assert Records(direct)[0] in Records(direct); }
  }

  /** At the exact instant of expiry the item is still served, but with the TTLs it was stored
      with.  So the seconds left, zero, are the TTL there only of a reply without records. */
  lemma HitAtExpiry(c: Codec, cfg: Settings, m: Msg, u: seq<byte>, t0: int, q: Query, do: bool)
    requires Stored(c, m, u, t0, q, do)
    ensures var hit := HitAt(c, cfg, m, u, t0, q, do, Expiry(m, t0) * SECOND);
            && hit.Some? && SameButTTL(hit.value, FreshReply(m, q.ad, do), 0)
            && Records(hit.value) == Records(FreshReply(m, q.ad, do))
            && (AllTTL(hit.value, 0) <==> Records(FreshReply(m, q.ad, do)) == [])
  {
    TTLByAge(cfg, Expiry(m, t0), Expiry(m, t0) * SECOND);
    HitMeans(c, cfg, m, u, t0, q, do, Expiry(m, t0) * SECOND);
    ZeroKeepsTTLs(m, q.ad, do, HitAt(c, cfg, m, u, t0, q, do, Expiry(m, t0) * SECOND).value);
  }

  /** After expiry an answer is served exactly by an optimistic cache within the maximum age. Its
      TTL is the optimistic one exactly if that is at least a second or there is no record. */
  lemma HitAfterExpiry(c: Codec, cfg: Settings, m: Msg, u: seq<byte>, t0: int, q: Query, do: bool, t1: int)
    requires Stored(c, m, u, t0, q, do)
    requires t1 > Expiry(m, t0) * SECOND
    requires ValidSettings(cfg)
    ensures var hit, ttl := HitAt(c, cfg, m, u, t0, q, do, t1), cfg.optimisticSeconds;
            && (hit.Some? <==> cfg.optimistic && t1 <= Expiry(m, t0) * SECOND + cfg.optimisticMaxAge)
            && (hit.Some? ==> SameButTTL(hit.value, FreshReply(m, q.ad, do), ttl))
            && (hit.Some? ==> (AllTTL(hit.value, ttl) <==> ttl >= 1 || Records(FreshReply(m, q.ad, do)) == []))
            && (cfg.optimisticTTL / SECOND <= MAX_UINT32 ==> (ttl >= 1 <==> cfg.optimisticTTL >= SECOND))
  {
    TTLByAge(cfg, Expiry(m, t0), t1);
    HitMeans(c, cfg, m, u, t0, q, do, t1);
    var hit, ttl := HitAt(c, cfg, m, u, t0, q, do, t1), cfg.optimisticSeconds;
    if hit.Some? {
      if ttl == 0 {
        ZeroKeepsTTLs(m, q.ad, do, hit.value);
      } else {
        RetimedTTL(hit.value, FreshReply(m, q.ad, do), ttl);
      }
    }
  }

  // Two items that are served with the TTL they were stored with, a minute.

  const MINUTE_RECORD := RR(TYPE_A, 60, [])
  const MINUTE_ANSWER := Msg(0, [TYPE_A], RCODE_SUCCESS, false, false, false, [MINUTE_RECORD], [], [])

  lemma MinuteLifetime(c: Codec, u: seq<byte>, q: Query, do: bool)
    requires Inverse(c) && Pack(c, MINUTE_ANSWER, u, 60, 0).Some? && q.qtype == TYPE_A && (do ==> q.do)
    ensures Lifetime(MINUTE_ANSWER) == 60 && Stored(c, MINUTE_ANSWER, u, 0, q, do)
  {
    var m := MINUTE_ANSWER;
    assert Records(m) == [MINUTE_RECORD];
    assert LeastFrom(MAX_UINT32, [MINUTE_RECORD]) == MinTTL(MINUTE_RECORD, LeastFrom(MAX_UINT32, []));
    assert MINUTE_RECORD in m.answer;
  }

  lemma MinuteReply(ad: bool, do: bool)
    ensures FreshReply(MINUTE_ANSWER, ad, do).answer == [MINUTE_RECORD]
  {
    assert [MINUTE_RECORD] == [] + [MINUTE_RECORD];
    FilteredSnoc([], MINUTE_RECORD, do, 0, TYPE_A);
  }

  /** At the instant at which no second is left, the record still has its minute. */
  lemma ExpiryExample(c: Codec, cfg: Settings, u: seq<byte>, q: Query, do: bool)
    requires Inverse(c) && Pack(c, MINUTE_ANSWER, u, 60, 0).Some? && q.qtype == TYPE_A && (do ==> q.do)
    ensures Stored(c, MINUTE_ANSWER, u, 0, q, do)
    ensures var hit := HitAt(c, cfg, MINUTE_ANSWER, u, 0, q, do, 60 * SECOND);
            hit.Some? && hit.value.answer == [MINUTE_RECORD] && !AllTTL(hit.value, 0)
  {
    MinuteLifetime(c, u, q, do);
    MinuteOver(c, cfg, MINUTE_ANSWER, u, q, do);
    ServedMinute(HitAt(c, cfg, MINUTE_ANSWER, u, 0, q, do, 60 * SECOND).value, q.ad, do);
  }

  lemma MinuteOver(c: Codec, cfg: Settings, m: Msg, u: seq<byte>, q: Query, do: bool)
    requires Stored(c, m, u, 0, q, do) && Lifetime(m) == 60
    ensures var hit := HitAt(c, cfg, m, u, 0, q, do, 60 * SECOND);
            hit.Some? && SameButTTL(hit.value, FreshReply(m, q.ad, do), 0)
  {
    HitAtExpiry(c, cfg, m, u, 0, q, do);
  }

  /** Long after expiry, with an optimistic TTL of half a second, it has its minute again. */
  lemma OptimisticExample(c: Codec, u: seq<byte>, q: Query, do: bool)
    requires Inverse(c) && Pack(c, MINUTE_ANSWER, u, 60, 0).Some? && q.qtype == TYPE_A && (do ==> q.do)
    ensures Stored(c, MINUTE_ANSWER, u, 0, q, do)
    ensures var cfg := Settings(true, SECOND / 2, 3600 * SECOND, 0);
            var hit := HitAt(c, cfg, MINUTE_ANSWER, u, 0, q, do, 600 * SECOND);
            ValidSettings(cfg) && hit.Some? && hit.value.answer == [MINUTE_RECORD] && !AllTTL(hit.value, 0)
  {
    var cfg := Settings(true, SECOND / 2, 3600 * SECOND, 0);
    MinuteLifetime(c, u, q, do);
    HitAfterExpiry(c, cfg, MINUTE_ANSWER, u, 0, q, do, 600 * SECOND);
    ServedMinute(HitAt(c, cfg, MINUTE_ANSWER, u, 0, q, do, 600 * SECOND).value, q.ad, do);
  }

  lemma ServedMinute(hit: Msg, ad: bool, do: bool)
    requires SameButTTL(hit, FreshReply(MINUTE_ANSWER, ad, do), 0)
    ensures hit.answer == [MINUTE_RECORD] && !AllTTL(hit, 0)
  {
    MinuteReply(ad, do);
    assert Retimed([MINUTE_RECORD], 0) == [MINUTE_RECORD];
    assert MINUTE_RECORD in Records(hit);
  }
}
