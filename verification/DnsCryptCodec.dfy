/** Encrypted DNSCrypt queries and responses, and the exchange they make up. */
module DnsCryptCodec {
  import opened Bytes
  import opened Padding
  import opened SecretBox
  import opened Slices

  const CLIENT_MAGIC_SIZE := 8
  const RESOLVER_MAGIC_SIZE := 8
  const HALF_NONCE := 12
  const QUERY_HEADER := CLIENT_MAGIC_SIZE + KEY_SIZE + HALF_NONCE
  const RESPONSE_HEADER := RESOLVER_MAGIC_SIZE + NONCE_SIZE
  const MIN_BODY := TAG_SIZE + MIN_DNS_PACKET_SIZE

  type Magic = s: seq<byte> | |s| == CLIENT_MAGIC_SIZE witness seq(CLIENT_MAGIC_SIZE, _ => 0)

  const RESOLVER_MAGIC: Magic := [0x72, 0x36, 0x66, 0x6e, 0x76, 0x57, 0x6a, 0x38]
  const ZERO_NONCE: Nonce := Zeros(NONCE_SIZE)
  const ZERO_KEY: Key := Zeros(KEY_SIZE)

  datatype Construction = XSalsa20Poly1305 | XChacha20Poly1305 | Unsupported

  datatype Error =
    | ErrInvalidQuery | ErrInvalidClientMagic | ErrInvalidResponse | ErrInvalidResolverMagic | ErrUnexpectedNonce
    | ErrESVersion | ErrWeakKey | ErrCipherTextTooShort | ErrAuthenticationFail | ErrInvalidPadding

  datatype Result<+T> = Ok(value: T) | Err(error: Error)

  /** The foreign cryptography: the primitives of the XChaCha box, the whole XSalsa box, the public
      key of a secret key, and key agreement, which can find a public key too weak. */
  datatype Suite = Suite(
    chacha: Primitives,
    salsaSeal: (Key, Nonce, seq<byte>) -> seq<byte>,
    salsaOpen: (Key, Nonce, seq<byte>) -> Option<seq<byte>>,
    public: Key -> Key,
    agree: (Construction, Key, Key) -> Option<Key>)

  /** The laws of the foreign parts. Those of the XChaCha box are proved. */
  ghost predicate Lawful(c: Suite) {
    && (forall k: Key, n: Nonce, b: seq<byte>, m: seq<byte> ::
          c.salsaOpen(k, n, b) == Some(m) <==> b == c.salsaSeal(k, n, m))
    && (forall k: Key, n: Nonce, m: seq<byte> :: |c.salsaSeal(k, n, m)| == TAG_SIZE + |m|)
    && (forall es: Construction, a: Key, b: Key :: c.agree(es, a, c.public(b)) == c.agree(es, b, c.public(a)))
  }

  /** `computeSharedKey`. */
  function SharedKey(c: Suite, es: Construction, secret: Key, public: Key): Result<Key> {
    if es.Unsupported? then Err(ErrESVersion)
    else if c.agree(es, secret, public).None? then Err(ErrWeakKey)
    else Ok(c.agree(es, secret, public).value)
  }

  function Sealed(c: Suite, es: Construction, key: Key, nonce: Nonce, message: seq<byte>): Result<seq<byte>> {
    match es
    case XChacha20Poly1305 => Ok(Box(c.chacha, key, nonce, message))
    case XSalsa20Poly1305 => Ok(c.salsaSeal(key, nonce, message))
    case Unsupported => Err(ErrESVersion)
  }

  /** `invalid` is the error the caller reports when the XSalsa box does not open. */
  function Unsealed(c: Suite, es: Construction, key: Key, nonce: Nonce, box: seq<byte>,
                    invalid: Error): Result<seq<byte>> {
    match es
    case XChacha20Poly1305 =>
      (match Unbox(c.chacha, key, nonce, box)
       case Message(m) => Ok(m)
       case CipherTextTooShort => Err(ErrCipherTextTooShort)
       case AuthenticationFail => Err(ErrAuthenticationFail))
    case XSalsa20Poly1305 =>
      var m := c.salsaOpen(key, nonce, box);
      if m.Some? then Ok(m.value) else Err(invalid)
    case Unsupported => Err(ErrESVersion)
  }

  lemma UnsealedExactly(c: Suite, es: Construction, key: Key, nonce: Nonce, box: seq<byte>, invalid: Error,
                        message: seq<byte>)
    requires Lawful(c)
    ensures Unsealed(c, es, key, nonce, box, invalid) == Ok(message) <==> Sealed(c, es, key, nonce, message) == Ok(box)
  {
    OpensExactlyItsBox(c.chacha, key, nonce, box, message);
    assert c.salsaOpen(key, nonce, box) == Some(message) <==> box == c.salsaSeal(key, nonce, message);
  }

  lemma SealedLength(c: Suite, es: Construction, key: Key, nonce: Nonce, message: seq<byte>)
    requires Lawful(c) && !es.Unsupported?
    ensures var b := Sealed(c, es, key, nonce, message); b.Ok? && |b.value| == TAG_SIZE + |message|
  {
  }

  method SealWith(c: Suite, es: Construction, out: seq<byte>, key: Key, nonce: Nonce, message: seq<byte>)
    returns (r: Result<seq<byte>>)
    ensures match Sealed(c, es, key, nonce, message)
            case Ok(box) => r == Ok(out + box)
            case Err(e) => r == Err(e)
  {
    match es
    case XChacha20Poly1305 =>
      var buf := Make(out);
      var res := Seal(c.chacha, buf, nonce, message, key);
      r := Ok(res.buf[..res.len]);
    case XSalsa20Poly1305 => r := Ok(out + c.salsaSeal(key, nonce, message));
    case Unsupported => r := Err(ErrESVersion);
  }

  method OpenWith(c: Suite, es: Construction, key: Key, nonce: Nonce, box: seq<byte>, invalid: Error)
    returns (r: Result<seq<byte>>)
    ensures r == Unsealed(c, es, key, nonce, box, invalid)
  {
    match es
    case XChacha20Poly1305 =>
      var out := Make([]);
      var m, _ := Open(c.chacha, out, nonce, box, key);
      match m {
        case Message(text) => r := Ok(text);
        case CipherTextTooShort => r := Err(ErrCipherTextTooShort);
        case AuthenticationFail => r := Err(ErrAuthenticationFail);
      }
    case XSalsa20Poly1305 =>
      var m := c.salsaOpen(key, nonce, box);
      r := if m.Some? then Ok(m.value) else Err(invalid);
    case Unsupported => r := Err(ErrESVersion);
  }

  /** Opening a box and removing the padding. */
  ghost function Recovered(c: Suite, es: Construction, key: Key, nonce: Nonce, box: seq<byte>,
                           invalid: Error): Result<seq<byte>> {
    match Unsealed(c, es, key, nonce, box, invalid)
    case Err(e) => Err(e)
    case Ok(padded) => if Unpadded(padded).Some? then Ok(Unpadded(padded).value) else Err(ErrInvalidPadding)
  }

  /** `box` is `message` sealed by the construction. */
  predicate Seals(c: Suite, es: Construction, key: Key, nonce: Nonce, message: seq<byte>, box: seq<byte>) {
    || (es == XChacha20Poly1305 && box == Box(c.chacha, key, nonce, message))
    || (es == XSalsa20Poly1305 && box == c.salsaSeal(key, nonce, message))
  }

  /** `box` is some padding of `packet`, sealed. */
  ghost predicate SealsPadding(c: Suite, es: Construction, key: Key, nonce: Nonce, packet: seq<byte>, box: seq<byte>) {
    exists x :: IsPaddingOf(x, packet) && Seals(c, es, key, nonce, x, box)
  }

  /** Exactly the sealed paddings of a packet of at least 17 bytes recover that packet. */
  lemma RecoveredExactly(c: Suite, es: Construction, key: Key, nonce: Nonce, box: seq<byte>, invalid: Error,
                         packet: seq<byte>)
    requires Lawful(c)
    ensures Recovered(c, es, key, nonce, box, invalid) == Ok(packet) <==>
            |packet| >= MIN_DNS_PACKET_SIZE && SealsPadding(c, es, key, nonce, packet, box)
  {
    var u := Unsealed(c, es, key, nonce, box, invalid);
    if u.Ok? {
      UnsealedExactly(c, es, key, nonce, box, invalid, u.value);
    }
    forall x | IsPaddingOf(x, packet) && Seals(c, es, key, nonce, x, box) && |packet| >= MIN_DNS_PACKET_SIZE
      ensures Recovered(c, es, key, nonce, box, invalid) == Ok(packet)
    {
      UnsealedExactly(c, es, key, nonce, box, invalid, x);
      UnpaddedUnique(x, packet);
    }
  }

  /** A sealed padded packet is recovered if it has 17 bytes, and refused for its padding if not. */
  lemma SealedIsRecovered(c: Suite, es: Construction, key: Key, nonce: Nonce, packet: seq<byte>, invalid: Error)
    requires Lawful(c) && !es.Unsupported?
    ensures var box := Sealed(c, es, key, nonce, Padded(packet));
            && box.Ok? && |box.value| >= MIN_BODY
            && Recovered(c, es, key, nonce, box.value, invalid)
            == if |packet| >= MIN_DNS_PACKET_SIZE then Ok(packet) else Err(ErrInvalidPadding)
  {
    SealedLength(c, es, key, nonce, Padded(packet));
    var box := Sealed(c, es, key, nonce, Padded(packet)).value;
    UnsealedExactly(c, es, key, nonce, box, invalid, Padded(packet));
    PadThenUnpad(packet);
  }

  // Queries.

  function ClientNonce(now: seq<byte>, random: seq<byte>, tail: seq<byte>): Nonce
    requires |now| == 8 && |random| == 4 && |tail| == HALF_NONCE
  {
    now + random + tail
  }

  function QueryWire(magic: Magic, pk: Key, nonce: Nonce, box: seq<byte>): seq<byte> {
    magic + pk + nonce[..HALF_NONCE] + box
  }

  predicate IsQuery(query: seq<byte>, magic: Magic) {
    |query| >= QUERY_HEADER + MIN_BODY && query[..CLIENT_MAGIC_SIZE] == magic
  }

  function QueryPk(query: seq<byte>): Key
    requires |query| >= QUERY_HEADER
  {
    query[CLIENT_MAGIC_SIZE..CLIENT_MAGIC_SIZE + KEY_SIZE]
  }

  function QueryNonce(query: seq<byte>, tail: seq<byte>): Nonce
    requires |query| >= QUERY_HEADER && |tail| == HALF_NONCE
  {
    query[CLIENT_MAGIC_SIZE + KEY_SIZE..QUERY_HEADER] + tail
  }

  /** What `decrypt` finds in a query, given the magic it expects and the rest of its nonce. */
  ghost function QueryPacket(c: Suite, es: Construction, magic: Magic, secret: Key, tail: seq<byte>,
                             query: seq<byte>): Result<seq<byte>>
    requires |tail| == HALF_NONCE
  {
    if |query| < QUERY_HEADER + MIN_BODY then Err(ErrInvalidQuery)
    else if query[..CLIENT_MAGIC_SIZE] != magic then Err(ErrInvalidClientMagic)
    else
      match SharedKey(c, es, secret, QueryPk(query))
      case Err(e) => Err(e)
      case Ok(key) => Recovered(c, es, key, QueryNonce(query, tail), query[QUERY_HEADER..], ErrInvalidQuery)
  }

  class EncryptedQuery {
    const esVersion: Construction
    const clientMagic: Magic
    var clientPk: Key
    var nonce: Nonce

    constructor (es: Construction, magic: Magic, pk: Key)
      ensures esVersion == es && clientMagic == magic && clientPk == pk && nonce == ZERO_NONCE
    {
      esVersion, clientMagic, clientPk, nonce := es, magic, pk, ZERO_NONCE;
    }

    /** `now` is the big-endian clock and `random` the random bytes drawn. */
    method Encrypt(c: Suite, now: seq<byte>, random: seq<byte>, packet: seq<byte>, sharedKey: Key)
      returns (query: Result<seq<byte>>, clientNonce: Nonce)
      requires |now| == 8 && |random| == 4
      modifies this
      ensures nonce == ClientNonce(now, random, old(nonce)[HALF_NONCE..]) && clientPk == old(clientPk)
      ensures nonce[..8] == now && nonce[8..12] == random && nonce[12..] == old(nonce)[12..]
      ensures match Sealed(c, esVersion, sharedKey, nonce, Padded(packet))
              case Ok(box) => query == Ok(QueryWire(clientMagic, clientPk, nonce, box)) && clientNonce == nonce
              case Err(e) => query == Err(e) && clientNonce == ZERO_NONCE
    {
      nonce := now + nonce[8..];
      nonce := nonce[..8] + random + nonce[12..];
      var out := clientMagic + clientPk + nonce[..HALF_NONCE];
      var buf := Make(packet);
      var padded := Pad(buf);
      clientNonce := nonce;
      query := SealWith(c, esVersion, out, sharedKey, clientNonce, padded.buf[..padded.len]);
      if query.Err? { clientNonce := ZERO_NONCE; }
    }

    method Decrypt(c: Suite, query: seq<byte>, serverSecretKey: Key) returns (packet: Result<seq<byte>>)
      modifies this
      ensures packet == QueryPacket(c, esVersion, clientMagic, serverSecretKey, old(nonce)[HALF_NONCE..], query)
      ensures var ours := IsQuery(query, clientMagic);
              && clientPk == (if ours then QueryPk(query) else old(clientPk))
              && nonce == if ours && SharedKey(c, esVersion, serverSecretKey, clientPk).Ok?
                          then QueryNonce(query, old(nonce)[HALF_NONCE..]) else old(nonce)
    {
      if |query| < QUERY_HEADER + MIN_BODY { return Err(ErrInvalidQuery); }
      if query[..CLIENT_MAGIC_SIZE] != clientMagic { return Err(ErrInvalidClientMagic); }
      var idx := CLIENT_MAGIC_SIZE;
      clientPk := query[idx..idx + KEY_SIZE];
      var sharedKey := SharedKey(c, esVersion, serverSecretKey, clientPk);
      if sharedKey.Err? { return Err(sharedKey.error); }
      idx := idx + KEY_SIZE;
      nonce := query[idx..idx + HALF_NONCE] + nonce[HALF_NONCE..];
      idx := idx + HALF_NONCE;
      packet := OpenWith(c, esVersion, sharedKey.value, nonce, query[idx..], ErrInvalidQuery);
      if packet.Err? { return; }
      var unpadded := Unpad(packet.value);
      packet := if unpadded.Some? then Ok(unpadded.value) else Err(ErrInvalidPadding);
    }
  }

  // Responses.

  function ServerNonce(client: Nonce, random: seq<byte>, now: seq<byte>): Nonce
    requires |now| == 8 && |random| == 4
  {
    client[..HALF_NONCE] + random + now
  }

  function ResponseWire(nonce: Nonce, box: seq<byte>): seq<byte> {
    RESOLVER_MAGIC + nonce + box
  }

  predicate IsResponse(response: seq<byte>) {
    |response| >= RESPONSE_HEADER + MIN_BODY && response[..RESOLVER_MAGIC_SIZE] == RESOLVER_MAGIC
  }

  /** What `decrypt` finds in a response to the query with the given nonce. */
  ghost function ResponsePacket(c: Suite, es: Construction, key: Key, clientNonce: Nonce,
                                response: seq<byte>): Result<seq<byte>> {
    if |response| < RESPONSE_HEADER + MIN_BODY then Err(ErrInvalidResponse)
    else if response[..RESOLVER_MAGIC_SIZE] != RESOLVER_MAGIC then Err(ErrInvalidResolverMagic)
    else
      var nonce: Nonce := response[RESOLVER_MAGIC_SIZE..RESPONSE_HEADER];
      if nonce[..HALF_NONCE] != clientNonce[..HALF_NONCE] then Err(ErrUnexpectedNonce)
      else Recovered(c, es, key, nonce, response[RESPONSE_HEADER..], ErrInvalidResponse)
  }

  class EncryptedResponse {
    const esVersion: Construction
    var nonce: Nonce

    constructor (es: Construction, start: Nonce)
      ensures esVersion == es && nonce == start
    {
      esVersion, nonce := es, start;
    }

    method Encrypt(c: Suite, random: seq<byte>, now: seq<byte>, packet: seq<byte>, sharedKey: Key)
      returns (response: Result<seq<byte>>)
      requires |now| == 8 && |random| == 4
      modifies this
      ensures nonce == ServerNonce(old(nonce), random, now)
      ensures nonce[..12] == old(nonce)[..12] && nonce[12..16] == random && nonce[16..] == now
      ensures match Sealed(c, esVersion, sharedKey, nonce, Padded(packet))
              case Ok(box) => response == Ok(ResponseWire(nonce, box))
              case Err(e) => response == Err(e)
    {
      nonce := nonce[..12] + random + nonce[16..];
      nonce := nonce[..16] + now;
      var out := RESOLVER_MAGIC + nonce;
      var buf := Make(packet);
      var padded := Pad(buf);
      response := SealWith(c, esVersion, out, sharedKey, nonce, padded.buf[..padded.len]);
    }

    method Decrypt(c: Suite, response: seq<byte>, sharedKey: Key, clientNonce: Nonce)
      returns (packet: Result<seq<byte>>)
      modifies this
      ensures packet == ResponsePacket(c, esVersion, sharedKey, clientNonce, response)
      ensures nonce == if IsResponse(response) then response[RESOLVER_MAGIC_SIZE..RESPONSE_HEADER] else old(nonce)
    {
      if |response| < RESPONSE_HEADER + MIN_BODY { return Err(ErrInvalidResponse); }
      if response[..RESOLVER_MAGIC_SIZE] != RESOLVER_MAGIC { return Err(ErrInvalidResolverMagic); }
      nonce := response[RESOLVER_MAGIC_SIZE..RESPONSE_HEADER];
      if nonce[..HALF_NONCE] != clientNonce[..HALF_NONCE] { return Err(ErrUnexpectedNonce); }
      packet := OpenWith(c, esVersion, sharedKey, nonce, response[RESPONSE_HEADER..], ErrInvalidResponse);
      if packet.Err? { return; }
      var unpadded := Unpad(packet.value);
      packet := if unpadded.Some? then Ok(unpadded.value) else Err(ErrInvalidPadding);
    }
  }

  // The exchange.

  lemma QueryWireParts(magic: Magic, pk: Key, nonce: Nonce, box: seq<byte>)
    ensures var w := QueryWire(magic, pk, nonce, box);
            && |w| == QUERY_HEADER + |box| && w[..CLIENT_MAGIC_SIZE] == magic
            && QueryPk(w) == pk && QueryNonce(w, nonce[HALF_NONCE..]) == nonce && w[QUERY_HEADER..] == box
  {
    var w := QueryWire(magic, pk, nonce, box);
    assert w[CLIENT_MAGIC_SIZE + KEY_SIZE..QUERY_HEADER] == nonce[..HALF_NONCE];
  }

  lemma ResponseWireParts(nonce: Nonce, box: seq<byte>)
    ensures var w := ResponseWire(nonce, box);
            && |w| == RESPONSE_HEADER + |box| && w[..RESOLVER_MAGIC_SIZE] == RESOLVER_MAGIC
            && w[RESOLVER_MAGIC_SIZE..RESPONSE_HEADER] == nonce && w[RESPONSE_HEADER..] == box
  {
  }

  /** The server finds the client's packet in the query exactly when it has at least 17 bytes. */
  lemma QueryRoundTrip(c: Suite, es: Construction, magic: Magic, clientSk: Key, serverSk: Key, nonce: Nonce,
                       packet: seq<byte>)
    requires Lawful(c) && SharedKey(c, es, clientSk, c.public(serverSk)).Ok?
    ensures var box := Sealed(c, es, SharedKey(c, es, clientSk, c.public(serverSk)).value, nonce, Padded(packet));
            && box.Ok?
            && var wire := QueryWire(magic, c.public(clientSk), nonce, box.value);
            QueryPacket(c, es, magic, serverSk, nonce[HALF_NONCE..], wire)
            == if |packet| >= MIN_DNS_PACKET_SIZE then Ok(packet) else Err(ErrInvalidPadding)
  {
    var key := SharedKey(c, es, clientSk, c.public(serverSk)).value;
    SealedIsRecovered(c, es, key, nonce, packet, ErrInvalidQuery);
    var box := Sealed(c, es, key, nonce, Padded(packet)).value;
    QueryWireParts(magic, c.public(clientSk), nonce, box);
    assert SharedKey(c, es, serverSk, c.public(clientSk)) == Ok(key);
  }

  /** The client finds the server's packet in the response to its own nonce. */
  lemma ResponseRoundTrip(c: Suite, es: Construction, key: Key, clientNonce: Nonce, random: seq<byte>,
                          now: seq<byte>, packet: seq<byte>)
    requires Lawful(c) && !es.Unsupported? && |now| == 8 && |random| == 4
    ensures var nonce := ServerNonce(clientNonce, random, now);
            var box := Sealed(c, es, key, nonce, Padded(packet));
            && box.Ok?
            && ResponsePacket(c, es, key, clientNonce, ResponseWire(nonce, box.value))
            == if |packet| >= MIN_DNS_PACKET_SIZE then Ok(packet) else Err(ErrInvalidPadding)
  {
    var nonce := ServerNonce(clientNonce, random, now);
    SealedIsRecovered(c, es, key, nonce, packet, ErrInvalidResponse);
    ResponseWireParts(nonce, Sealed(c, es, key, nonce, Padded(packet)).value);
  }

  /** The response is the sealed padding of `packet`, under a nonce that starts like the query's. */
  ghost predicate IsResponseFor(c: Suite, es: Construction, key: Key, clientNonce: Nonce, response: seq<byte>,
                                packet: seq<byte>) {
    exists nonce: Nonce, box ::
      && nonce[..HALF_NONCE] == clientNonce[..HALF_NONCE]
      && SealsPadding(c, es, key, nonce, packet, box)
      && response == [0x72, 0x36, 0x66, 0x6e, 0x76, 0x57, 0x6a, 0x38] + nonce + box
  }

  lemma SealsPaddingLength(c: Suite, es: Construction, key: Key, nonce: Nonce, packet: seq<byte>, box: seq<byte>)
    requires Lawful(c) && SealsPadding(c, es, key, nonce, packet, box)
    ensures |box| > TAG_SIZE + |packet|
  {
    var x :| IsPaddingOf(x, packet) && Seals(c, es, key, nonce, x, box);
    SealedLength(c, es, key, nonce, x);
  }

  /** Exactly what the client accepts: the sealed padding of the packet in answer to its own nonce. */
  lemma AcceptedResponseExactly(c: Suite, es: Construction, key: Key, clientNonce: Nonce, response: seq<byte>,
                                packet: seq<byte>)
    requires Lawful(c)
    ensures ResponsePacket(c, es, key, clientNonce, response) == Ok(packet) <==>
            |packet| >= MIN_DNS_PACKET_SIZE && IsResponseFor(c, es, key, clientNonce, response, packet)
  {
    if IsResponse(response) {
      var nonce: Nonce, box := response[RESOLVER_MAGIC_SIZE..RESPONSE_HEADER], response[RESPONSE_HEADER..];
      assert response == ResponseWire(nonce, box);
      RecoveredExactly(c, es, key, nonce, box, ErrInvalidResponse, packet);
    }
    forall nonce: Nonce, box | SealsPadding(c, es, key, nonce, packet, box) && response == ResponseWire(nonce, box)
      ensures |packet| >= MIN_DNS_PACKET_SIZE ==> IsResponse(response)
      ensures |response| >= RESPONSE_HEADER && response[RESOLVER_MAGIC_SIZE..RESPONSE_HEADER] == nonce
      ensures |response| >= RESPONSE_HEADER && response[RESPONSE_HEADER..] == box
    {
      SealsPaddingLength(c, es, key, nonce, packet, box);
      ResponseWireParts(nonce, box);
    }
  }

  /** The query is the magic, a public key and half a nonce, and the sealed padding of `packet` under the
      key agreed on and that nonce. */
  ghost predicate IsQueryFor(c: Suite, es: Construction, magic: Magic, secret: Key, tail: seq<byte>, query: seq<byte>,
                             packet: seq<byte>)
    requires |tail| == HALF_NONCE
  {
    exists pk: Key, half: seq<byte>, box ::
      && |half| == HALF_NONCE && query == magic + pk + half + box
      && SharedKey(c, es, secret, pk).Ok?
      && SealsPadding(c, es, SharedKey(c, es, secret, pk).value, half + tail, packet, box)
  }

  lemma QueryParts(query: seq<byte>, magic: Magic, pk: Key, half: seq<byte>, box: seq<byte>)
    requires |half| == HALF_NONCE && query == magic + pk + half + box
    ensures |query| == QUERY_HEADER + |box| && query[..CLIENT_MAGIC_SIZE] == magic && QueryPk(query) == pk
    ensures query[CLIENT_MAGIC_SIZE + KEY_SIZE..QUERY_HEADER] == half && query[QUERY_HEADER..] == box
  {
  }

  /** Exactly what the server accepts: its magic, a public key it can agree with, and under that
      key the sealed padding of the packet. */
  lemma AcceptedQueryExactly(c: Suite, es: Construction, magic: Magic, secret: Key, tail: seq<byte>,
                             query: seq<byte>, packet: seq<byte>)
    requires Lawful(c) && |tail| == HALF_NONCE
    ensures QueryPacket(c, es, magic, secret, tail, query) == Ok(packet) <==>
            |packet| >= MIN_DNS_PACKET_SIZE && IsQueryFor(c, es, magic, secret, tail, query, packet)
  {
    if IsQuery(query, magic) && SharedKey(c, es, secret, QueryPk(query)).Ok? {
      var key := SharedKey(c, es, secret, QueryPk(query)).value;
      var half := query[CLIENT_MAGIC_SIZE + KEY_SIZE..QUERY_HEADER];
      assert query == magic + QueryPk(query) + half + query[QUERY_HEADER..];
      RecoveredExactly(c, es, key, QueryNonce(query, tail), query[QUERY_HEADER..], ErrInvalidQuery, packet);
    }
    forall pk: Key, half: seq<byte>, box |
      && |half| == HALF_NONCE && query == magic + pk + half + box && SharedKey(c, es, secret, pk).Ok?
      && SealsPadding(c, es, SharedKey(c, es, secret, pk).value, half + tail, packet, box)
      && |packet| >= MIN_DNS_PACKET_SIZE
      ensures QueryPacket(c, es, magic, secret, tail, query) == Ok(packet)
    {
      QueryAccepted(c, es, magic, secret, tail, query, packet, pk, half, box);
    }
  }

  lemma QueryAccepted(c: Suite, es: Construction, magic: Magic, secret: Key, tail: seq<byte>, query: seq<byte>,
                      packet: seq<byte>, pk: Key, half: seq<byte>, box: seq<byte>)
    requires Lawful(c) && |tail| == HALF_NONCE && |packet| >= MIN_DNS_PACKET_SIZE
    requires |half| == HALF_NONCE && query == magic + pk + half + box && SharedKey(c, es, secret, pk).Ok?
    requires SealsPadding(c, es, SharedKey(c, es, secret, pk).value, half + tail, packet, box)
    ensures QueryPacket(c, es, magic, secret, tail, query) == Ok(packet)
  {
    var key := SharedKey(c, es, secret, pk).value;
    QueryParts(query, magic, pk, half, box);
    SealsPaddingLength(c, es, key, half + tail, packet, box);
    RecoveredExactly(c, es, key, half + tail, box, ErrInvalidQuery, packet);
  }

  /** Why a query is refused before it is opened: fewer than 85 bytes, another magic, a weak key. */
  lemma QueryRefused(c: Suite, es: Construction, magic: Magic, other: Magic, secret: Key, tail: seq<byte>, pk: Key,
                     half: seq<byte>, box: seq<byte>)
    requires |tail| == HALF_NONCE && |half| == HALF_NONCE
    ensures var p := QueryPacket(c, es, magic, secret, tail, other + pk + half + box);
            && (|box| < 33 ==> p == Err(ErrInvalidQuery))
            && (|box| >= 33 && other != magic ==> p == Err(ErrInvalidClientMagic))
            && (|box| >= 33 && other == magic && !es.Unsupported? && c.agree(es, secret, pk).None? ==>
                  p == Err(ErrWeakKey))
  {
    QueryParts(other + pk + half + box, other, pk, half, box);
  }

  /** Why a response is: fewer than 65 bytes, another magic, or an answer to another query. */
  lemma ResponseRefused(c: Suite, es: Construction, key: Key, clientNonce: Nonce, magic: Magic, nonce: Nonce,
                        box: seq<byte>)
    ensures var p := ResponsePacket(c, es, key, clientNonce, magic + nonce + box);
            && (|box| < 33 ==> p == Err(ErrInvalidResponse))
            && (|box| >= 33 && magic != RESOLVER_MAGIC ==> p == Err(ErrInvalidResolverMagic))
            && (|box| >= 33 && magic == RESOLVER_MAGIC && nonce[..12] != clientNonce[..12] ==>
                  p == Err(ErrUnexpectedNonce))
  {
    var w := magic + nonce + box;
    assert w[..8] == magic && w[8..32] == nonce;
  }

  /** Client and server together, as the two programs call these objects. */
  method RunExchange(c: Suite, es: Construction, magic: Magic, clientSk: Key, serverSk: Key,
                     now: seq<byte>, random: seq<byte>, question: seq<byte>,
                     serverNow: seq<byte>, serverRandom: seq<byte>, answer: seq<byte>)
    returns (heard: Result<seq<byte>>, got: Result<seq<byte>>)
    requires Lawful(c) && SharedKey(c, es, clientSk, c.public(serverSk)).Ok?
    requires |now| == |serverNow| == 8 && |random| == |serverRandom| == 4
    ensures |question| >= MIN_DNS_PACKET_SIZE ==> heard == Ok(question)
    ensures |question| >= MIN_DNS_PACKET_SIZE && |answer| >= MIN_DNS_PACKET_SIZE ==> got == Ok(answer)
    ensures |question| < MIN_DNS_PACKET_SIZE ==> heard == Err(ErrInvalidPadding) == got
    ensures |question| >= MIN_DNS_PACKET_SIZE > |answer| ==> got == Err(ErrInvalidPadding)
  {
    var clientKey := SharedKey(c, es, clientSk, c.public(serverSk)).value;
    var q := new EncryptedQuery(es, magic, c.public(clientSk));
    var query, clientNonce := q.Encrypt(c, now, random, question, clientKey);
    QueryRoundTrip(c, es, magic, clientSk, serverSk, q.nonce, question);
    var s := new EncryptedQuery(es, magic, ZERO_KEY);
    heard := s.Decrypt(c, query.value, serverSk);
    if heard.Err? { return heard, heard; }
    QueryWireParts(magic, c.public(clientSk), clientNonce, query.value[QUERY_HEADER..]);
    var r := new EncryptedResponse(es, s.nonce);
    var serverKey := SharedKey(c, es, serverSk, s.clientPk);
    var response := r.Encrypt(c, serverRandom, serverNow, answer, serverKey.value);
    ResponseRoundTrip(c, es, clientKey, clientNonce, serverRandom, serverNow, answer);
    var d := new EncryptedResponse(es, ZERO_NONCE);
    got := d.Decrypt(c, response.value, clientKey, clientNonce);
  }

  /** The empty packet is sealed but refused by the server, for its padding. */
  lemma ShortPacketExample(c: Suite, es: Construction, magic: Magic, clientSk: Key, serverSk: Key, nonce: Nonce)
    requires Lawful(c) && SharedKey(c, es, clientSk, c.public(serverSk)).Ok?
    ensures var box := Sealed(c, es, SharedKey(c, es, clientSk, c.public(serverSk)).value, nonce, Padded([]));
            && box.Ok?
            && var wire := QueryWire(magic, c.public(clientSk), nonce, box.value);
            QueryPacket(c, es, magic, serverSk, nonce[HALF_NONCE..], wire) == Err(ErrInvalidPadding)
  {
    QueryRoundTrip(c, es, magic, clientSk, serverSk, nonce, []);
  }
}
