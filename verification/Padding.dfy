/** ISO/IEC 7816-4 padding of DNSCrypt packets. */
module Padding {
  import opened Bytes
  import opened Slices

  const MIN_UDP_QUESTION_SIZE := 256
  const MIN_DNS_PACKET_SIZE := 17

  /** A length that a padded packet of `n` bytes may have: a multiple of 64, at least 256, beyond
      the marker byte. */
  predicate PaddedFits(n: nat, size: nat) {
    size % 64 == 0 && size > n + 1 && size >= 256
  }

  function PaddedSize(n: nat): (size: nat)
    ensures PaddedFits(n, size)
    ensures forall m: nat :: PaddedFits(n, m) ==> size <= m
  {
    var size := n + 1 + (64 - (n + 1) % 64);
    if MIN_UDP_QUESTION_SIZE > size then MIN_UDP_QUESTION_SIZE else size
  }

  function Padded(packet: seq<byte>): (padded: seq<byte>)
    ensures |padded| == PaddedSize(|packet|)
  {
    packet + [0x80] + Zeros(PaddedSize(|packet|) - |packet| - 1)
  }

  lemma ZerosSnoc(n: nat)
    ensures Zeros(n) + [0] == Zeros(n + 1)
  {
  }

  /** The loop: zeros are appended up to a size. */
  method AppendZeros(s: Slice, size: nat) returns (r: Slice)
    requires Fits(s) && s.len <= size
    modifies s.buf
    ensures Fits(r) && Visible(r) == old(Visible(s)) + Zeros(size - s.len)
    ensures r.buf == s.buf || fresh(r.buf)
    ensures forall i :: 0 <= i < s.buf.Length && !(s.len <= i < size) ==> s.buf[i] == old(s.buf[i])
  {
    r := s;
    while r.len < size
      invariant Fits(r) && s.len <= r.len <= size && (r.buf == s.buf || fresh(r.buf))
      invariant Visible(r) == old(Visible(s)) + Zeros(r.len - s.len)
      invariant forall i :: 0 <= i < s.buf.Length && !(s.len <= i < r.len) ==> s.buf[i] == old(s.buf[i])
    {
      ZerosSnoc(r.len - s.len);
      r := Append(r, 0);
    }
  }

  /** Appends the marker and zeros. The padding lands in the spare capacity of the caller's array as far
      as there is any, and in a new array beyond; what the caller sees stays as it was. */
  method Pad(packet: Slice) returns (padded: Slice)
    requires Fits(packet)
    modifies packet.buf
    ensures Fits(padded) && Visible(padded) == Padded(old(Visible(packet)))
    ensures Visible(packet) == old(Visible(packet))
    ensures padded.buf == packet.buf || fresh(padded.buf)
    ensures forall i :: padded.len <= i < packet.buf.Length ==> packet.buf[i] == old(packet.buf[i])
  {
    var minQuestionSize := packet.len + 1 + (64 - (packet.len + 1) % 64);
    if MIN_UDP_QUESTION_SIZE > minQuestionSize {
      minQuestionSize := MIN_UDP_QUESTION_SIZE;
    }
    var marked := Append(packet, 0x80);
    padded := AppendZeros(marked, minQuestionSize);
  }

  /** `padded` is `packet`, the marker 0x80, and any number of zero bytes. */
  ghost predicate IsPaddingOf(padded: seq<byte>, packet: seq<byte>) {
    |packet| < |padded| && padded == packet + [0x80] + Zeros(|padded| - |packet| - 1)
  }

  /** The marker is the last byte that is not zero, so a packet is determined by its padding. */
  lemma PaddingHasMarker(padded: seq<byte>, packet: seq<byte>, i: nat)
    requires IsPaddingOf(padded, packet)
    requires i < |padded| && padded[i] != 0 && forall j :: i < j < |padded| ==> padded[j] == 0
    ensures i == |packet| && padded[i] == 0x80 && packet == padded[..i]
  {
    assert padded[|packet|] == 0x80;
  }

  /** The packet of at least 17 bytes that `padded` is a padding of, if there is one. */
  ghost function Unpadded(padded: seq<byte>): (packet: Option<seq<byte>>)
    ensures packet.Some? ==> IsPaddingOf(padded, packet.value) && |packet.value| >= MIN_DNS_PACKET_SIZE
    ensures packet.None? ==> forall p :: IsPaddingOf(padded, p) ==> |p| < MIN_DNS_PACKET_SIZE
  {
    if p :| IsPaddingOf(padded, p) && |p| >= MIN_DNS_PACKET_SIZE then Some(p) else None
  }

  lemma UnpaddedUnique(padded: seq<byte>, packet: seq<byte>)
    requires IsPaddingOf(padded, packet) && |packet| >= MIN_DNS_PACKET_SIZE
    ensures Unpadded(padded) == Some(packet)
  {
    PaddingHasMarker(padded, Unpadded(padded).value, |packet|);
    PaddingHasMarker(padded, packet, |packet|);
  }

  method Unpad(padded: seq<byte>) returns (packet: Option<seq<byte>>)
    ensures packet == Unpadded(padded)
  {
    var i := |padded|;
    while true
      invariant 0 <= i <= |padded|
      invariant forall j :: i <= j < |padded| ==> padded[j] == 0
      decreases i
    {
      if i == 0 {
        assert forall p :: IsPaddingOf(padded, p) ==> padded[|p|] == 0x80;
        return None;
      }
      i := i - 1;
      if padded[i] == 0x80 {
        assert IsPaddingOf(padded, padded[..i]);
        if i < MIN_DNS_PACKET_SIZE {
          forall p | IsPaddingOf(padded, p) ensures |p| == i { PaddingHasMarker(padded, p, i); }
          return None;
        }
        UnpaddedUnique(padded, padded[..i]);
        return Some(padded[..i]);
      } else if padded[i] != 0 {
        forall p | IsPaddingOf(padded, p) ensures false { PaddingHasMarker(padded, p, i); }
        return None;
      }
    }
  }

  /** Padding is undone exactly for packets of at least 17 bytes. */
  lemma PadThenUnpad(packet: seq<byte>)
    ensures Unpadded(Padded(packet)) == if |packet| >= MIN_DNS_PACKET_SIZE then Some(packet) else None
  {
    var padded := Padded(packet);
    assert IsPaddingOf(padded, packet);
    if |packet| >= MIN_DNS_PACKET_SIZE {
      UnpaddedUnique(padded, packet);
    } else if Unpadded(padded).Some? {
      PaddingHasMarker(padded, Unpadded(padded).value, |packet|);
    }
  }
}
