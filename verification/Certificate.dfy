/** DNSCrypt certificates: wire form, signed part, and the choice among those a server offers. */
module Certificate {
  import opened Bytes
  import opened Slices
  import opened TxtString

  const CERT_BYTE_LENGTH := 124
  const SIGNED_LENGTH := 52
  const CERT_MAGIC: seq<byte> := [0x44, 0x4e, 0x53, 0x43]
  const X_SALSA := 1
  const X_CHACHA := 2

  type u16 = n: int | 0 <= n < 0x10000
  type u32 = n: int | 0 <= n < 0x1_0000_0000
  type Bytes8 = s: seq<byte> | |s| == 8 witness seq(8, _ => 0)
  type Bytes32 = s: seq<byte> | |s| == 32 witness seq(32, _ => 0)
  type Bytes64 = s: seq<byte> | |s| == 64 witness seq(64, _ => 0)

  /** The serialized fields. */
  datatype Cert = Cert(
    serial: u32,
    esVersion: u16,
    signature: Bytes64,
    resolverPk: Bytes32,
    clientMagic: Bytes8,
    notBefore: u32,
    notAfter: u32)

  const EMPTY := Cert(0, 0, seq(64, _ => 0), seq(32, _ => 0), seq(8, _ => 0), 0, 0)

  datatype Error = ErrCertTooShort | ErrCertMagic | ErrESVersion

  datatype Parse = Parsed(cert: Cert) | Failed(error: Error)

  predicate Supported(es: int) { es == X_SALSA || es == X_CHACHA }

  /** What is signed. */
  function SignedPart(c: Cert): (s: seq<byte>)
    ensures |s| == SIGNED_LENGTH
  {
    c.resolverPk + c.clientMagic + BE32(c.serial) + BE32(c.notBefore) + BE32(c.notAfter)
  }

  function Wire(c: Cert): (s: seq<byte>)
    ensures |s| == CERT_BYTE_LENGTH
  {
    CERT_MAGIC + BE16(c.esVersion) + [0, 0] + c.signature + SignedPart(c)
  }

  /** The fields found in a wire form of the right length. */
  function Fields(b: seq<byte>): Cert
    requires |b| >= CERT_BYTE_LENGTH
  {
    Cert(U32(b[112..116]), U16(b[4..6]), b[8..72], b[72..104], b[104..112], U32(b[116..120]), U32(b[120..124]))
  }

  function ParseWire(b: seq<byte>): Parse {
    if |b| < CERT_BYTE_LENGTH then Failed(ErrCertTooShort)
    else if b[..4] != CERT_MAGIC then Failed(ErrCertMagic)
    else if !Supported(U16(b[4..6])) then Failed(ErrESVersion)
    else Parsed(Fields(b))
  }

  /** The period of validity is not empty or a single instant, and `now` lies in it. */
  predicate InDate(c: Cert, now: int) {
    c.notBefore < c.notAfter && c.notBefore <= now <= c.notAfter
  }

  /** Writes a field behind what has been written. */
  method Put(dst: array<byte>, at: nat, src: seq<byte>)
    requires at + |src| <= dst.Length
    modifies dst
    ensures dst[..at + |src|] == old(dst[..at]) + src
    ensures dst[at + |src|..] == old(dst[at + |src|..])
  {
    Copy(dst, at, src);
    SplicedVisible(old(dst[..]), at, src);
  }

  /** The object. `resolverSk` is never serialized. */
  class Holder {
    var cert: Cert
    var resolverSk: Bytes32

    constructor (c: Cert, sk: Bytes32)
      ensures cert == c && resolverSk == sk
    {
      cert, resolverSk := c, sk;
    }

    /** Writes the serial number and the period to the end of `dst`, from `at` on. */
    method WriteNumbers(dst: array<byte>, at: nat)
      requires at + 12 == dst.Length
      modifies dst
      ensures dst[..] == old(dst[..at]) + BE32(cert.serial) + BE32(cert.notBefore) + BE32(cert.notAfter)
    {
      Put(dst, at, BE32(cert.serial));
      Put(dst, at + 4, BE32(cert.notBefore));
      Put(dst, at + 8, BE32(cert.notAfter));
      assert dst[..] == dst[..at + 12];
    }

    /** Writes the signed part to the end of `dst`, from `at` on. */
    method WriteSigned(dst: array<byte>, at: nat)
      requires at + SIGNED_LENGTH == dst.Length
      modifies dst
      ensures dst[..] == old(dst[..at]) + SignedPart(cert)
    {
      Put(dst, at, cert.resolverPk);
      Put(dst, at + 32, cert.clientMagic);
      WriteNumbers(dst, at + 40);
    }

    method MarshalBinary() returns (serialized: array<byte>)
      ensures fresh(serialized) && serialized[..] == Wire(cert)
    {
      serialized := new byte[CERT_BYTE_LENGTH](_ => 0);
      Put(serialized, 0, CERT_MAGIC);
      Put(serialized, 4, BE16(cert.esVersion));
      Put(serialized, 6, [0, 0]);
      Put(serialized, 8, cert.signature);
      WriteSigned(serialized, 72);
    }

    /** On an error nothing is changed. */
    method UnmarshalBinary(b: seq<byte>) returns (err: Option<Error>)
      modifies this
      ensures resolverSk == old(resolverSk)
      ensures match ParseWire(b)
              case Parsed(c) => err == None && cert == c
              case Failed(e) => err == Some(e) && cert == old(cert)
    {
      if |b| < CERT_BYTE_LENGTH { return Some(ErrCertTooShort); }
      if b[..4] != CERT_MAGIC { return Some(ErrCertMagic); }
      var esVersion := U16(b[4..6]);
      if esVersion != X_SALSA && esVersion != X_CHACHA { return Some(ErrESVersion); }
      cert := cert.(esVersion := esVersion);
      cert := cert.(signature := b[8..72]);
      cert := cert.(resolverPk := b[72..104]);
      cert := cert.(clientMagic := b[104..112]);
      cert := cert.(serial := U32(b[112..116]));
      cert := cert.(notBefore := U32(b[116..120]));
      cert := cert.(notAfter := U32(b[120..CERT_BYTE_LENGTH]));
      return None;
    }

    method VerifyDate(now: int) returns (ok: bool)
      ensures ok <==> InDate(cert, now)
    {
      if cert.notBefore >= cert.notAfter { return false; }
      if now > cert.notAfter || now < cert.notBefore { return false; }
      return true;
    }

    /** `verify` is the foreign signature check of key, message and signature. */
    method VerifySignature(verify: (seq<byte>, seq<byte>, Bytes64) -> bool, publicKey: seq<byte>) returns (ok: bool)
      ensures ok == verify(publicKey, Wire(cert)[72..], cert.signature)
    {
      var b := new byte[SIGNED_LENGTH](_ => 0);
      WriteSigned(b, 0);
      WireParts(cert);
      assert b[..] == SignedPart(cert);
      ok := verify(publicKey, b[..], cert.signature);
    }

    /** `sign` is the foreign signature of a message under a private key. */
    method Sign(sign: (seq<byte>, seq<byte>) -> Bytes64, privateKey: seq<byte>)
      modifies this
      ensures cert == old(cert).(signature := sign(privateKey, SignedPart(old(cert)))) && resolverSk == old(resolverSk)
    {
      var b := new byte[SIGNED_LENGTH](_ => 0);
      WriteSigned(b, 0);
      assert b[..] == SignedPart(cert);
      cert := cert.(signature := sign(privateKey, b[..]));
    }
  }

  /** Where each field lies; the signed bytes are exactly bytes 72 to 124. */
  lemma WireParts(c: Cert)
    ensures var b := Wire(c);
            && b[..4] == CERT_MAGIC && b[4..6] == BE16(c.esVersion) && b[6..8] == [0, 0] && b[8..72] == c.signature
            && b[72..] == SignedPart(c)
            && b[72..104] == c.resolverPk && b[104..112] == c.clientMagic
            && b[112..116] == BE32(c.serial) && b[116..120] == BE32(c.notBefore) && b[120..124] == BE32(c.notAfter)
  {
    var head, s := CERT_MAGIC + BE16(c.esVersion) + [0, 0] + c.signature, SignedPart(c);
    assert Wire(c) == head + s && |head| == 72;
    assert s[..32] == c.resolverPk && s[32..40] == c.clientMagic && s[40..44] == BE32(c.serial);
    assert s[44..48] == BE32(c.notBefore) && s[48..52] == BE32(c.notAfter);
  }

  /** Marshalling and parsing restores every field, exactly for the supported constructions. */
  lemma WireRoundTrip(c: Cert)
    ensures ParseWire(Wire(c)) == if Supported(c.esVersion) then Parsed(c) else Failed(ErrESVersion)
  {
    WireParts(c);
    FieldsExactly(Wire(c), c);
  }

  /** An accepted wire form is what its certificate marshals to, except for the minor version and
      whatever follows the 124 bytes. */
  lemma AcceptedWire(b: seq<byte>)
    requires ParseWire(b).Parsed?
    ensures Wire(ParseWire(b).cert) == b[..6] + [0, 0] + b[8..CERT_BYTE_LENGTH]
  {
  }

  /** Through the text of a TXT record: the same fields, and the same verdict on the signature. */
  lemma TextTransparent(c: Cert, verify: (seq<byte>, seq<byte>, Bytes64) -> bool, publicKey: seq<byte>)
    requires Supported(c.esVersion)
    ensures var p := ParseWire(Unpacked(Packed(Wire(c))));
            && p == Parsed(c)
            && verify(publicKey, SignedPart(p.cert), p.cert.signature)
            == verify(publicKey, Wire(c)[72..], Wire(c)[8..72])
  {
    TextRoundTrip(Wire(c));
    WireRoundTrip(c);
    WireParts(c);
  }

  // Choosing a certificate.

  /** The checks a client makes: its clock, the provider's key and the signature check. */
  datatype Client = Client(now: int, serverPk: seq<byte>, verify: (seq<byte>, seq<byte>, Bytes64) -> bool)

  predicate Valid(k: Client, c: Cert) {
    InDate(c, k.now) && k.verify(k.serverPk, SignedPart(c), c.signature)
  }

  function Join(txt: seq<seq<byte>>): seq<byte> {
    if txt == [] then [] else txt[0] + Join(txt[1..])
  }

  /** The usable certificate in one record; `None` also for a record that is not TXT. */
  function Offer(k: Client, rr: Option<seq<seq<byte>>>): Option<Cert> {
    if rr.None? then None
    else
      var p := ParseWire(Unpacked(Join(rr.value)));
      if p.Parsed? && Valid(k, p.cert) then Some(p.cert) else None
  }

  /** Exactly which bytes offer which certificate: the magic, a known construction, the fields at their
      places, a date within a period that is not empty, and a signature of the bytes from 72 on. */
  lemma OfferExactly(k: Client, rr: Option<seq<seq<byte>>>, c: Cert)
    ensures Offer(k, rr) == Some(c) <==>
            && rr.Some? && |Unpacked(Join(rr.value))| >= 124
            && var b := Unpacked(Join(rr.value));
            && b[..4] == [0x44, 0x4e, 0x53, 0x43]
            && (c.esVersion == 1 || c.esVersion == 2) && b[4..6] == BE16(c.esVersion)
            && b[8..72] == c.signature && b[72..104] == c.resolverPk && b[104..112] == c.clientMagic
            && b[112..116] == BE32(c.serial) && b[116..120] == BE32(c.notBefore) && b[120..124] == BE32(c.notAfter)
            && c.notBefore < c.notAfter && c.notBefore <= k.now <= c.notAfter
            && k.verify(k.serverPk, b[72..124], b[8..72])
  {
    if rr.Some? && |Unpacked(Join(rr.value))| >= 124 {
      var b := Unpacked(Join(rr.value));
      FieldsExactly(b, c);
      SignedBytes(b);
    }
  }

  lemma SignedBytes(b: seq<byte>)
    requires |b| >= CERT_BYTE_LENGTH
    ensures SignedPart(Fields(b)) == b[72..124]
  {
    assert b[112..124] == b[112..116] + b[116..120] + b[120..124];
    assert b[72..124] == b[72..104] + b[104..112] + b[112..124];
  }

  lemma FieldsExactly(b: seq<byte>, c: Cert)
    requires |b| >= CERT_BYTE_LENGTH
    ensures Fields(b) == c <==>
            && b[4..6] == BE16(c.esVersion)
            && b[8..72] == c.signature && b[72..104] == c.resolverPk && b[104..112] == c.clientMagic
            && b[112..116] == BE32(c.serial) && b[116..120] == BE32(c.notBefore) && b[120..124] == BE32(c.notAfter)
  {
    BE16RoundTrip(c.esVersion);
    BE32RoundTrip(c.serial);
    BE32RoundTrip(c.notBefore);
    BE32RoundTrip(c.notAfter);
  }

  /** The order of preference: the serial number, then the construction. */
  predicate Above(c: Cert, d: Cert) {
    c.serial > d.serial || (c.serial == d.serial && c.esVersion > d.esVersion)
  }

  /** `best` is the first of the most preferred certificates offered. */
  ghost predicate Best(offers: seq<Option<Cert>>, best: Option<Cert>) {
    match best
    case None => forall i :: 0 <= i < |offers| ==> offers[i].None?
    case Some(c) => exists j :: 0 <= j < |offers| && FirstBest(offers, j, c)
  }

  ghost predicate FirstBest(offers: seq<Option<Cert>>, j: nat, c: Cert)
    requires j < |offers|
  {
    && offers[j] == Some(c)
    && (forall i :: 0 <= i < |offers| && offers[i].Some? ==> !Above(offers[i].value, c))
    && (forall i :: 0 <= i < j && offers[i].Some? ==> Above(c, offers[i].value))
  }

  function Offers(k: Client, answer: seq<Option<seq<seq<byte>>>>): (offers: seq<Option<Cert>>)
    ensures |offers| == |answer| && forall i :: 0 <= i < |answer| ==> offers[i] == Offer(k, answer[i])
  {
    seq(|answer|, i requires 0 <= i < |answer| => Offer(k, answer[i]))
  }

  method CertHasHigherPriority(prev: Cert, current: Cert) returns (higher: bool)
    ensures higher <==> Above(current, prev)
  {
    if prev.serial > current.serial { return false; }
    if prev.serial < current.serial { return true; }
    return !(current.esVersion <= prev.esVersion);
  }

  /** One record: `found` is its usable certificate. */
  method ReadRecord(k: Client, rr: Option<seq<seq<byte>>>) returns (found: Option<Cert>)
    ensures found == Offer(k, rr)
  {
    if rr.None? { return None; }
    var text := UnpackTxtString(Join(rr.value));
    var current := new Holder(EMPTY, seq(32, _ => 0));
    var err := current.UnmarshalBinary(text);
    if err.Some? { return None; }
    var inDate := current.VerifyDate(k.now);
    if !inDate { return None; }
    var signed := current.VerifySignature(k.verify, k.serverPk);
    WireParts(current.cert);
    return if signed then Some(current.cert) else None;
  }

  /** The usable certificate with the highest serial number and then construction, the first of
      equals; none only if no record has a usable one. */
  method ParseAnswer(k: Client, answer: seq<Option<seq<seq<byte>>>>) returns (cert: Option<Cert>)
    ensures Best(Offers(k, answer), cert)
    ensures cert.None? ==> forall i :: 0 <= i < |answer| ==> Offer(k, answer[i]).None?
    ensures cert.Some? ==>
              && cert.value.notBefore <= k.now <= cert.value.notAfter
              && (exists j :: 0 <= j < |answer| && Offer(k, answer[j]) == cert)
              && forall i, d :: 0 <= i < |answer| && Offer(k, answer[i]) == Some(d) ==>
                   d.serial < cert.value.serial ||
                   (d.serial == cert.value.serial && d.esVersion <= cert.value.esVersion)
  {
    cert := None;
    ghost var offers := Offers(k, answer);
    for i := 0 to |answer|
      invariant Best(offers[..i], cert)
    {
      var current := ReadRecord(k, answer[i]);
      BestSnoc(offers[..i], current, cert);
      assert offers[..i] + [current] == offers[..i + 1];
      if current.Some? {
        var higher := true;
        if cert.Some? { higher := CertHasHigherPriority(cert.value, current.value); }
        if higher { cert := current; }
      }
    }
    assert offers[..|answer|] == offers;
    BestMeans(k, answer, cert);
  }

  lemma BestMeans(k: Client, answer: seq<Option<seq<seq<byte>>>>, cert: Option<Cert>)
    requires Best(Offers(k, answer), cert)
    ensures cert.None? ==> forall i :: 0 <= i < |answer| ==> Offer(k, answer[i]).None?
    ensures cert.Some? ==>
              && cert.value.notBefore <= k.now <= cert.value.notAfter
              && (exists j :: 0 <= j < |answer| && Offer(k, answer[j]) == cert)
              && forall i, d :: 0 <= i < |answer| && Offer(k, answer[i]) == Some(d) ==>
                   d.serial < cert.value.serial ||
                   (d.serial == cert.value.serial && d.esVersion <= cert.value.esVersion)
  {
    var offers := Offers(k, answer);
    forall i | 0 <= i < |answer| ensures offers[i] == Offer(k, answer[i]) {}
    if cert.Some? {
      var j :| 0 <= j < |offers| && FirstBest(offers, j, cert.value);
      OfferExactly(k, answer[j], cert.value);
      assert Offer(k, answer[j]) == cert;
      forall i, d | 0 <= i < |answer| && Offer(k, answer[i]) == Some(d)
        ensures d.serial < cert.value.serial ||
                (d.serial == cert.value.serial && d.esVersion <= cert.value.esVersion)
      {
        assert offers[i] == Some(d);
      }
    }
  }

  function Better(best: Option<Cert>, o: Option<Cert>): Option<Cert> {
    if o.Some? && (best.None? || Above(o.value, best.value)) then o else best
  }

  lemma BestSnoc(offers: seq<Option<Cert>>, o: Option<Cert>, best: Option<Cert>)
    requires Best(offers, best)
    ensures Best(offers + [o], Better(best, o))
  {
    var all := offers + [o];
    if best.Some? {
      var j :| 0 <= j < |offers| && FirstBest(offers, j, best.value);
      if Better(best, o) == best {
        assert FirstBest(all, j, best.value);
      } else {
        assert FirstBest(all, |offers|, o.value);
      }
    } else if o.Some? {
      assert FirstBest(all, |offers|, o.value);
    }
  }
}
