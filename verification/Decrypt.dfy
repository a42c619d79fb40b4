/** Encrypted transfer: an IV, then the bytes under a counter-mode keystream, in whatever chunks arrive. */
module Decrypt {
  import opened Options
  import opened Octets

  /** The keystream AES-256-CTR makes of an IV under the shared key, by byte position. */
  type Keystream = (Bytes, nat) -> bv8

  const IV_BYTES := 16

  /** Counter mode: the byte at position `from + i` is combined with that byte of the keystream. */
  function Masked(ks: Keystream, iv: Bytes, from: nat, data: Bytes): (r: Bytes)
    ensures |r| == |data|
  {
    seq(|data|, i requires 0 <= i < |data| => data[i] ^ ks(iv, from + i))
  }

  function Concat(chunks: seq<Bytes>): Bytes {
    if chunks == [] then [] else Concat(chunks[..|chunks| - 1]) + chunks[|chunks| - 1]
  }

  /** What goes over the wire for a file. */
  function Sent(ks: Keystream, iv: Bytes, plain: Bytes): Bytes {
    iv + Masked(ks, iv, 0, plain)
  }

  /** What a received stream decrypts to. */
  function Received(ks: Keystream, stream: Bytes): Bytes {
    if |stream| < IV_BYTES then [] else Masked(ks, stream[..IV_BYTES], 0, stream[IV_BYTES..])
  }

  lemma MaskedTwice(ks: Keystream, iv: Bytes, from: nat, data: Bytes)
    ensures Masked(ks, iv, from, Masked(ks, iv, from, data)) == data
  {
    forall i | 0 <= i < |data| ensures Masked(ks, iv, from, Masked(ks, iv, from, data))[i] == data[i] {
      XorTwice(data[i], ks(iv, from + i));
    }
  }

  lemma XorTwice(a: bv8, b: bv8)
    ensures (a ^ b) ^ b == a
  {
  }

  lemma MaskedTogether(ks: Keystream, iv: Bytes, from: nat, a: Bytes, b: Bytes)
    ensures Masked(ks, iv, from, a + b) == Masked(ks, iv, from, a) + Masked(ks, iv, from + |a|, b)
  {
    forall i | 0 <= i < |a + b|
      ensures Masked(ks, iv, from, a + b)[i] == (Masked(ks, iv, from, a) + Masked(ks, iv, from + |a|, b))[i]
    {
      assert i >= |a| ==> from + |a| + (i - |a|) == from + i;
    }
  }

  lemma ConcatOneMore(chunks: seq<Bytes>, i: nat)
    requires i < |chunks|
    ensures Concat(chunks[..i + 1]) == Concat(chunks[..i]) + chunks[i]
  {
    assert chunks[..i + 1][..i] == chunks[..i];
  }

  /** createCipheriv / createDecipheriv: one running position in the keystream. */
  class CtrCipher {
    const ks: Keystream
    const iv: Bytes
    var position: nat

    constructor (ks: Keystream, iv: Bytes)
      ensures this.ks == ks && this.iv == iv && position == 0
    {
      this.ks, this.iv, position := ks, iv, 0;
    }

    method Update(chunk: Bytes) returns (r: Bytes)
      modifies this
      ensures r == Masked(ks, iv, old(position), chunk) && position == old(position) + |chunk|
    {
      r := Masked(ks, iv, position, chunk);
      position := position + |chunk|;
    }
  }

  /** getFile(): the IV first, then the file through the cipher, chunk by chunk. */
  method SendFile(ks: Keystream, iv: Bytes, fileChunks: seq<Bytes>) returns (wire: seq<Bytes>)
    ensures Concat(wire) == Sent(ks, iv, Concat(fileChunks))
  {
    var cipher := new CtrCipher(ks, iv);
    wire := [iv];
    assert [iv][..0] == [];
    var i := 0;
    while i < |fileChunks|
      invariant 0 <= i <= |fileChunks|
      invariant Concat(wire) == Sent(ks, iv, Concat(fileChunks[..i]))
      invariant cipher.ks == ks && cipher.iv == iv && cipher.position == |Concat(fileChunks[..i])|
    {
      ConcatOneMore(fileChunks, i);
      MaskedTogether(ks, iv, 0, Concat(fileChunks[..i]), fileChunks[i]);
      var piece := cipher.Update(fileChunks[i]);
      assert (wire + [piece])[..|wire|] == wire;
      wire := wire + [piece];
      i := i + 1;
    }
    assert fileChunks[..i] == fileChunks;
  }

  /** decryptResponseStream(), with its growing IV buffer and the decipher it starts when that is full. */
  class ResponseDecryptor {
    const ks: Keystream
    var ivBuffer: Bytes
    var decipher: Option<CtrCipher>
    var output: Bytes
    ghost var received: Bytes

    ghost predicate Valid()
      reads this, if decipher.Some? then {decipher.value} else {}
    {
      && output == Received(ks, received)
      && ivBuffer == (if |received| < IV_BYTES then received else received[..IV_BYTES])
      && (decipher.Some? <==> |received| >= IV_BYTES)
      && (decipher.Some? ==>
          decipher.value.ks == ks && decipher.value.iv == ivBuffer && decipher.value.position == |output|)
    }

    ghost function Repr(): set<object>
      reads this
    {
      {this} + if decipher.Some? then {decipher.value} else {}
    }

    constructor (ks: Keystream)
      ensures Valid() && this.ks == ks && received == [] && fresh(Repr())
    {
      this.ks, ivBuffer, decipher, output, received := ks, [], None, [], [];
    }

    /** The 'data' handler, whatever the size of the chunk. */
    method OnData(chunk: Bytes)
      requires Valid()
      modifies Repr()
      ensures Valid() && received == old(received) + chunk && fresh(Repr() - old(Repr()))
    {
      ghost var before := received;
      ReceivingMore(ks, received, chunk);
      var rest := chunk;
      if |ivBuffer| < IV_BYTES {
        var needed := IV_BYTES - |ivBuffer|;
        var segment := if |chunk| <= needed then chunk else chunk[..needed];
        ivBuffer := ivBuffer + segment;
        rest := chunk[|segment|..];
        if |ivBuffer| == IV_BYTES {
          var d := new CtrCipher(ks, ivBuffer);
          decipher := Some(d);
        }
      }
      received := received + chunk;
      if decipher.Some? && |rest| > 0 {
        var piece := decipher.value.Update(rest);
        output := output + piece;
      }
      assert ivBuffer == (if |received| < IV_BYTES then received else received[..IV_BYTES]);
    }
  }

  /** What one more chunk adds to the output. */
  lemma ReceivingMore(ks: Keystream, before: Bytes, chunk: Bytes)
    ensures var all := before + chunk;
            Received(ks, all) ==
            if |all| < IV_BYTES then []
            else if |before| >= IV_BYTES then
              Received(ks, before) + Masked(ks, before[..IV_BYTES], |before| - IV_BYTES, chunk)
            else Masked(ks, all[..IV_BYTES], 0, chunk[IV_BYTES - |before|..])
  {
    var all := before + chunk;
    if |before| >= IV_BYTES {
      assert all[..IV_BYTES] == before[..IV_BYTES] && all[IV_BYTES..] == before[IV_BYTES..] + chunk;
      MaskedTogether(ks, before[..IV_BYTES], 0, before[IV_BYTES..], chunk);
    } else if |all| >= IV_BYTES {
      assert all[IV_BYTES..] == chunk[IV_BYTES - |before|..];
    }
  }

  /** The whole transfer: the output depends on the bytes received only, not on how they were split. */
  method DecryptResponseStream(ks: Keystream, chunks: seq<Bytes>) returns (output: Bytes)
    ensures output == Received(ks, Concat(chunks))
  {
    var d := new ResponseDecryptor(ks);
    var i := 0;
    while i < |chunks|
      invariant 0 <= i <= |chunks|
      invariant d.Valid() && d.ks == ks && d.received == Concat(chunks[..i])
      invariant fresh(d.Repr())
    {
      ConcatOneMore(chunks, i);
      d.OnData(chunks[i]);
      i := i + 1;
    }
    assert chunks[..i] == chunks;
    output := d.output;
  }

  /** Chunks put together are what they are chunks of. */
  lemma {:induction false} ConcatTogether(a: seq<Bytes>, b: seq<Bytes>, chunk: Bytes)
    ensures Concat([]) == [] && Concat([chunk]) == chunk
    ensures Concat(a + b) == Concat(a) + Concat(b)
    decreases |b|
  {
    assert [chunk][..0] == [];
    if b == [] {
      assert a + b == a;
    } else {
      var n := |b| - 1;
      assert (a + b)[..|a + b| - 1] == a + b[..n];
      ConcatTogether(a, b[..n], chunk);
    }
  }

  /** On the wire: the IV as it is, then each byte of the file under the keystream byte of its position. */
  lemma EveryByteIsMasked(ks: Keystream, iv: Bytes, plain: Bytes)
    requires |iv| == 16
    ensures |Sent(ks, iv, plain)| == 16 + |plain| && Sent(ks, iv, plain)[..16] == iv
    ensures forall i :: 0 <= i < |plain| ==> Sent(ks, iv, plain)[16 + i] == plain[i] ^ ks(iv, i)
  {
    forall i | 0 <= i < |plain| ensures Sent(ks, iv, plain)[16 + i] == plain[i] ^ ks(iv, i) {
      assert Masked(ks, iv, 0, plain)[i] == plain[i] ^ ks(iv, 0 + i);
    }
  }

  /** However iv and ciphertext are cut up, empty chunks and a split IV included, the plaintext comes out. */
  lemma EverySplittingDecrypts(ks: Keystream, iv: Bytes, plain: Bytes, chunks: seq<Bytes>)
    requires |iv| == IV_BYTES && Concat(chunks) == Sent(ks, iv, plain)
    ensures Received(ks, Concat(chunks)) == plain
  {
    assert Sent(ks, iv, plain)[..IV_BYTES] == iv && Sent(ks, iv, plain)[IV_BYTES..] == Masked(ks, iv, 0, plain);
    MaskedTwice(ks, iv, 0, plain);
  }

  /** A transfer cut off anywhere has written a prefix of the plaintext: nothing at all within the IV. */
  lemma ACutOffTransferIsAPrefix(ks: Keystream, iv: Bytes, plain: Bytes, n: nat)
    requires |iv| == IV_BYTES && n <= |Sent(ks, iv, plain)|
    ensures Received(ks, Sent(ks, iv, plain)[..n]) == if n <= IV_BYTES then [] else plain[..n - IV_BYTES]
  {
    if n >= IV_BYTES {
      var k := n - IV_BYTES;
      assert Sent(ks, iv, plain)[..n] == Sent(ks, iv, plain[..k]);
      EverySplittingDecrypts(ks, iv, plain[..k], [Sent(ks, iv, plain[..k])]);
    }
  }
}
