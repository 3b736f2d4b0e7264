/** The XChaCha20-Poly1305 secret box over any key stream and any one-time authenticator. */
module SecretBox {
  import opened Bytes
  import opened Slices

  const KEY_SIZE := 32
  const NONCE_SIZE := 24
  const TAG_SIZE := 16
  const BLOCK_SIZE := 64

  type Key = s: seq<byte> | |s| == KEY_SIZE witness seq(KEY_SIZE, _ => 0)
  type Nonce = s: seq<byte> | |s| == NONCE_SIZE witness seq(NONCE_SIZE, _ => 0)
  type Tag = s: seq<byte> | |s| == TAG_SIZE witness seq(TAG_SIZE, _ => 0)

  /** `stream` gives byte `i` of the key stream, `mac` authenticates a message under a key. */
  datatype Primitives = Primitives(stream: (Key, Nonce, nat) -> byte, mac: (Key, seq<byte>) -> Tag)

  datatype Opened = Message(message: seq<byte>) | CipherTextTooShort | AuthenticationFail

  /** The key stream from byte `at` on, combined with `text`. */
  function Combined(stream: nat -> byte, at: nat, text: seq<byte>): (r: seq<byte>)
    ensures |r| == |text|
    ensures forall i :: 0 <= i < |text| ==> r[i] == Xor(text[i], stream(at + i))
  {
    seq(|text|, i requires 0 <= i < |text| => Xor(text[i], stream(at + i)))
  }

  function StreamOf(p: Primitives, key: Key, nonce: Nonce): nat -> byte {
    i => p.stream(key, nonce, i)
  }

  function PolyKey(stream: nat -> byte): Key {
    var key: seq<byte> := seq(KEY_SIZE, i requires 0 <= i < KEY_SIZE => stream(i));
    key
  }

  /** What a box is: the first 32 bytes of the key stream authenticate the rest of it combined
      with the message. */
  function Box(p: Primitives, key: Key, nonce: Nonce, message: seq<byte>): seq<byte> {
    var stream := StreamOf(p, key, nonce);
    var ciphertext := Combined(stream, KEY_SIZE, message);
    p.mac(PolyKey(stream), ciphertext) + ciphertext
  }

  function Unbox(p: Primitives, key: Key, nonce: Nonce, box: seq<byte>): Opened {
    var stream := StreamOf(p, key, nonce);
    if |box| < TAG_SIZE then CipherTextTooShort
    else if p.mac(PolyKey(stream), box[TAG_SIZE..]) != box[..TAG_SIZE] then AuthenticationFail
    else Message(Combined(stream, KEY_SIZE, box[TAG_SIZE..]))
  }

  lemma CombinedTwice(stream: nat -> byte, at: nat, text: seq<byte>)
    ensures Combined(stream, at, Combined(stream, at, text)) == text
  {
    forall i | 0 <= i < |text| ensures Xor(Xor(text[i], stream(at + i)), stream(at + i)) == text[i] {
      XorInverts(text[i], stream(at + i));
    }
  }

  /** The box: 16 bytes of tag, of the bytes behind them under the first 32 bytes of the key stream. */
  lemma BoxTag(p: Primitives, key: Key, nonce: Nonce, message: seq<byte>, polyKey: Key)
    requires forall i :: 0 <= i < 32 ==> polyKey[i] == p.stream(key, nonce, i)
    ensures var b := Box(p, key, nonce, message); |b| == 16 + |message| && b[..16] == p.mac(polyKey, b[16..])
  {
    var stream := StreamOf(p, key, nonce);
    assert PolyKey(stream) == polyKey;
    assert Box(p, key, nonce, message)[16..] == Combined(stream, KEY_SIZE, message);
  }

  /** Behind the tag, each bit of the message added to that of the key stream from its byte 32 on. */
  lemma BoxBits(p: Primitives, key: Key, nonce: Nonce, message: seq<byte>, i: nat, k: nat)
    requires i < |message| && k < 8
    ensures |Box(p, key, nonce, message)| == 16 + |message|
    ensures BitAt(Box(p, key, nonce, message)[16 + i], k)
         == (BitAt(message[i], k) + BitAt(p.stream(key, nonce, 32 + i), k)) % 2
  {
    XorAt(message[i], p.stream(key, nonce, 32 + i), k);
  }

  /** Opening succeeds with a message exactly on the box of that message. */
  lemma OpensExactlyItsBox(p: Primitives, key: Key, nonce: Nonce, box: seq<byte>, message: seq<byte>)
    ensures Unbox(p, key, nonce, box) == Message(message) <==> box == Box(p, key, nonce, message)
  {
    var stream := StreamOf(p, key, nonce);
    CombinedTwice(stream, KEY_SIZE, message);
    if Unbox(p, key, nonce, box) == Message(message) {
      CombinedTwice(stream, KEY_SIZE, box[TAG_SIZE..]);
      assert box == box[..TAG_SIZE] + box[TAG_SIZE..];
    }
  }

  /** The stream cipher: XORKeyStream advances it, SetCounter moves it to the start of a block. */
  class Cipher {
    const stream: nat -> byte
    var at: nat

    constructor (p: Primitives, key: Key, nonce: Nonce)
      ensures at == 0 && stream == StreamOf(p, key, nonce)
    {
      stream, at := StreamOf(p, key, nonce), 0;
    }

    method SetCounter(counter: nat)
      modifies this
      ensures at == BLOCK_SIZE * counter
    {
      at := BLOCK_SIZE * counter;
    }

    /** Writes `src` combined with the key stream to `dst` from `off` on. */
    method XORKeyStream(dst: array<byte>, off: nat, src: seq<byte>)
      requires off + |src| <= dst.Length
      modifies this, dst
      ensures dst[..] == Spliced(old(dst[..]), off, Combined(stream, old(at), src))
      ensures at == old(at) + |src|
    {
      var i := 0;
      while i < |src|
        invariant 0 <= i <= |src| && at == old(at) + i
        invariant forall j :: 0 <= j < i ==> dst[off + j] == Xor(src[j], stream(old(at) + j))
        invariant forall j :: 0 <= j < off || off + i <= j < dst.Length ==> dst[j] == old(dst[j])
      {
        dst[off + i] := Xor(src[i], stream(at));
        at := at + 1;
        i := i + 1;
      }
    }
  }

  /** The first key stream block. */
  method FirstBlock(cipher: Cipher) returns (block: array<byte>)
    requires cipher.at == 0
    modifies cipher
    ensures fresh(block) && block.Length == BLOCK_SIZE
    ensures forall i :: 0 <= i < BLOCK_SIZE ==> block[i] == cipher.stream(i)
  {
    block := new byte[BLOCK_SIZE](_ => 0);
    ghost var zeros := block[..];
    cipher.XORKeyStream(block, 0, block[..]);
    SplicedVisible(zeros, 0, Combined(cipher.stream, 0, zeros));
    forall i | 0 <= i < BLOCK_SIZE ensures block[..][i] == cipher.stream(i) {
      XorZero(cipher.stream(i));
    }
  }

  /** Combines `text` into `out` from `off` on: its first 32 bytes with the second half of the
      first block, the rest from the second block on. */
  method Combine(cipher: Cipher, block: array<byte>, out: array<byte>, off: nat, text: seq<byte>)
    requires block.Length == BLOCK_SIZE && forall i :: 0 <= i < BLOCK_SIZE ==> block[i] == cipher.stream(i)
    requires off + |text| <= out.Length && out != block
    modifies cipher, out
    ensures out[..] == Spliced(old(out[..]), off, Combined(cipher.stream, KEY_SIZE, text))
  {
    var first := if |text| > BLOCK_SIZE - KEY_SIZE then BLOCK_SIZE - KEY_SIZE else |text|;
    CombineFirst(cipher, block, out, off, text[..first]);
    cipher.SetCounter(1);
    cipher.XORKeyStream(out, off + first, text[first..]);
    CombinedSplit(cipher.stream, text, first);
    SplicedTwice(old(out[..]), off, Combined(cipher.stream, KEY_SIZE, text[..first]),
                 Combined(cipher.stream, BLOCK_SIZE, text[first..]));
  }

  lemma CombinedSplit(stream: nat -> byte, text: seq<byte>, first: nat)
    requires first == |text| || first == BLOCK_SIZE - KEY_SIZE <= |text|
    ensures Combined(stream, KEY_SIZE, text)
         == Combined(stream, KEY_SIZE, text[..first]) + Combined(stream, BLOCK_SIZE, text[first..])
  {
  }

  /** The loop over the first block. */
  method CombineFirst(cipher: Cipher, block: array<byte>, out: array<byte>, off: nat, text: seq<byte>)
    requires block.Length == BLOCK_SIZE && forall i :: 0 <= i < BLOCK_SIZE ==> block[i] == cipher.stream(i)
    requires off + |text| <= out.Length && |text| <= BLOCK_SIZE - KEY_SIZE && out != block
    modifies out
    ensures out[..] == Spliced(old(out[..]), off, Combined(cipher.stream, KEY_SIZE, text))
  {
    for i := 0 to |text|
      invariant forall j :: 0 <= j < i ==> out[off + j] == Xor(text[j], cipher.stream(KEY_SIZE + j))
      invariant forall j :: 0 <= j < off || off + i <= j < out.Length ==> out[j] == old(out[j])
    {
      out[off + i] := Xor(text[i], block[BLOCK_SIZE - KEY_SIZE + i]);
    }
  }

  /** The box is appended. It lands in the spare capacity of the caller's array if it fits there; what
      the caller sees, and what lies behind the box, stays as it was. */
  method Seal(p: Primitives, out: Slice, nonce: Nonce, message: seq<byte>, key: Key) returns (res: Slice)
    requires Fits(out)
    modifies out.buf
    ensures Fits(res) && Visible(res) == old(Visible(out)) + Box(p, key, nonce, message)
    ensures Visible(out) == old(Visible(out))
    ensures if out.len + TAG_SIZE + |message| <= out.buf.Length then res.buf == out.buf else fresh(res.buf)
    ensures forall i :: res.len <= i < out.buf.Length ==> out.buf[i] == old(out.buf[i])
  {
    var cipher := new Cipher(p, key, nonce);
    var block := FirstBlock(cipher);
    var polyKey := block[..KEY_SIZE];
    assert polyKey == PolyKey(cipher.stream);
    res := SliceForAppend(out, TAG_SIZE + |message|);
    ghost var room := res.buf[..];
    var from := out.len + TAG_SIZE;
    Combine(cipher, block, res.buf, from, message);
    ghost var ciphertext := Combined(cipher.stream, KEY_SIZE, message);
    SplicedVisible(room, from, ciphertext);
    var tag := p.mac(polyKey, res.buf[from..res.len]);
    Copy(res.buf, out.len, tag);
    SplicedTwice(room, out.len, tag, ciphertext);
    SplicedVisible(room, out.len, tag + ciphertext);
  }

  /** The message is appended in the same way; a box that does not open gives no slice and changes
      nothing. */
  method Open(p: Primitives, out: Slice, nonce: Nonce, box: seq<byte>, key: Key)
    returns (r: Opened, res: Option<Slice>)
    requires Fits(out)
    modifies out.buf
    ensures r == Unbox(p, key, nonce, box) && (res.Some? <==> r.Message?) && Visible(out) == old(Visible(out))
    ensures r.Message? ==> Fits(res.value) && Visible(res.value) == old(Visible(out)) + r.message
    ensures r.Message? ==>
              && (if out.len + |r.message| <= out.buf.Length then res.value.buf == out.buf else fresh(res.value.buf))
              && forall i :: res.value.len <= i < out.buf.Length ==> out.buf[i] == old(out.buf[i])
    ensures !r.Message? ==> out.buf[..] == old(out.buf[..])
  {
    if |box| < TAG_SIZE { return CipherTextTooShort, None; }
    var cipher := new Cipher(p, key, nonce);
    var block := FirstBlock(cipher);
    var polyKey := block[..KEY_SIZE];
    assert polyKey == PolyKey(cipher.stream);
    var ciphertext := box[TAG_SIZE..];
    if p.mac(polyKey, ciphertext) != box[..TAG_SIZE] { return AuthenticationFail, None; }
    var longer := SliceForAppend(out, |ciphertext|);
    ghost var room := longer.buf[..];
    Combine(cipher, block, longer.buf, out.len, ciphertext);
    SplicedVisible(room, out.len, Combined(cipher.stream, KEY_SIZE, ciphertext));
    r, res := Message(longer.buf[out.len..longer.len]), Some(longer);
  }
}
