/** Byte slices that share a backing array, as far as appending to them goes. */
module Slices {
  import opened Bytes

  /** A slice from the start of its backing array, whose length is the slice's capacity. */
  datatype Slice = Slice(buf: array<byte>, len: nat)

  predicate Fits(s: Slice) { s.len <= s.buf.Length }

  function Visible(s: Slice): seq<byte>
    requires Fits(s)
    reads s.buf
  {
    s.buf[..s.len]
  }

  /** `s` with `bytes` written over it from `at` on. */
  function Spliced(s: seq<byte>, at: nat, bytes: seq<byte>): (r: seq<byte>)
    requires at + |bytes| <= |s|
    ensures |r| == |s|
  {
    s[..at] + bytes + s[at + |bytes|..]
  }

  /** Two adjoining writes, in either order, are one write. */
  lemma SplicedTwice(s: seq<byte>, at: nat, a: seq<byte>, b: seq<byte>)
    requires at + |a| + |b| <= |s|
    ensures Spliced(Spliced(s, at, a), at + |a|, b) == Spliced(s, at, a + b)
    ensures Spliced(Spliced(s, at + |a|, b), at, a) == Spliced(s, at, a + b)
  {
  }

  /** A write reaches the end of what is visible and leaves the rest. */
  lemma SplicedVisible(s: seq<byte>, at: nat, bytes: seq<byte>)
    requires at + |bytes| <= |s|
    ensures var r := Spliced(s, at, bytes);
            && r[..at + |bytes|] == s[..at] + bytes && r[..at] == s[..at] && r[at..at + |bytes|] == bytes
            && forall i :: at + |bytes| <= i < |s| ==> r[i] == s[i]
  {
  }

  /** Go's `copy` of all of `src` into an array from `at` on. */
  method Copy(dst: array<byte>, at: nat, src: seq<byte>)
    requires at + |src| <= dst.Length
    modifies dst
    ensures dst[..] == Spliced(old(dst[..]), at, src)
  {
    for i := 0 to |src|
      invariant forall j :: 0 <= j < i ==> dst[at + j] == src[j]
      invariant forall j :: 0 <= j < at || at + i <= j < dst.Length ==> dst[j] == old(dst[j])
    {
      dst[at + i] := src[i];
    }
  }

  /** A slice of its own with the given bytes and no spare capacity. */
  method Make(bytes: seq<byte>) returns (s: Slice)
    ensures fresh(s.buf) && Fits(s) && Visible(s) == bytes
  {
    var buf := new byte[|bytes|](i requires 0 <= i < |bytes| => bytes[i]);
    s := Slice(buf, |bytes|);
  }

  /** Go's `append` of one byte: in place if there is room, else in a larger array. */
  method Append(s: Slice, b: byte) returns (r: Slice)
    requires Fits(s)
    modifies s.buf
    ensures Fits(r) && Visible(r) == old(Visible(s)) + [b]
    ensures if s.len < s.buf.Length then r.buf == s.buf else fresh(r.buf)
    ensures forall i :: 0 <= i < s.buf.Length && i != s.len ==> s.buf[i] == old(s.buf[i])
  {
    if s.len < s.buf.Length {
      s.buf[s.len] := b;
      return Slice(s.buf, s.len + 1);
    }
    var buf := new byte[2 * s.len + 1](i requires 0 <= i reads s.buf => if i < s.buf.Length then s.buf[i] else 0);
    buf[s.len] := b;
    r := Slice(buf, s.len + 1);
  }

  /** `sliceForAppend`: room for `n` more bytes, in place if the capacity allows it. */
  method SliceForAppend(s: Slice, n: nat) returns (head: Slice)
    requires Fits(s)
    ensures Fits(head) && head.len == s.len + n && head.buf[..s.len] == Visible(s)
    ensures if s.len + n <= s.buf.Length then head.buf == s.buf else fresh(head.buf)
  {
    var total := s.len + n;
    if s.buf.Length >= total { return Slice(s.buf, total); }
    var buf := new byte[total](i requires 0 <= i reads s.buf => if i < s.buf.Length then s.buf[i] else 0);
    head := Slice(buf, total);
  }
}
