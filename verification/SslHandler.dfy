/** Message encryption and signatures: blocks of RSA, base64 for each, '#'
    between them, and C-string truncation on the way back. */
module SslHandler {
  import opened Text
  import opened Base64
  import opened Rsa

  /** What one `RSA_*_encrypt` and the following `encodeBase64` may read past
      their buffers, and the randomness of the padding. */
  datatype Writing = Writing(junk: nat -> ByteChar, padding: nat, pastBlock: nat -> byte)

  /** What one `decodeBase64` and the following `RSA_*_decrypt` may read past
      their buffers. */
  datatype Reading = Reading(pastText: nat -> char, pastBytes: nat -> byte)

  // ---------- specification ----------

  /** `n` characters read from `sub.c_str()`: the string, its NUL, then junk. */
  function PlainBlock(sub: string, n: nat, junk: nat -> ByteChar): (block: string)
    ensures |block| == n
    ensures |sub| <= n ==> block[..|sub|] == sub
    ensures |sub| < n ==> block[|sub|] == '\0'
  {
    seq(n, i requires 0 <= i < n =>
      if i < |sub| then sub[i] else if i == |sub| then '\0' else junk(i) as char)
  }

  /** `n` bytes read from the `c_str()` of a decoded string. */
  function CipherBlock(bytes: seq<byte>, n: nat, past: nat -> byte): (block: seq<byte>)
    ensures |block| == n
  {
    seq(n, i requires 0 <= i < n =>
      if i < |bytes| then bytes[i] else if i == |bytes| then 0 else past(i))
  }

  /** The zeroed buffer after a decryption wrote `out` into it. */
  function ZeroPadded(out: string, n: nat): string {
    out + seq(if |out| < n then n - |out| else 0, _ => '\0')
  }

  /** One block of `encryptMessage`. */
  function Cipher(c: Crypto, sub: string, pk: string, w: Writing): string {
    Encode(c.PublicEncrypt(pk, PlainBlock(sub, c.Size(pk) - 11, w.junk), w.padding), w.pastBlock)
  }

  function EncryptFrom(c: Crypto, message: string, pk: string, w: nat -> Writing, iter: nat): (blocks: seq<string>)
    ensures message != "" ==> blocks != []
    decreases |message|
  {
    if message == "" then []
    else
      var n := ChunkLength(message, c.Size(pk) - 11);
      [Cipher(c, message[..n], pk, w(iter))] + EncryptFrom(c, message[n..], pk, w, iter + 1)
  }

  function ChunkLength(message: string, limit: nat): (n: nat)
    requires limit > 0
    ensures n <= |message| && n <= limit && (message != "" ==> n > 0)
  {
    if |message| < limit then |message| else limit
  }

  function Encrypt(c: Crypto, message: string, pk: string, w: nat -> Writing): string {
    Join(EncryptFrom(c, message, pk, w, 0), '#')
  }

  /** One block of `decryptMessage`. */
  function Plain(c: Crypto, key: PrivateKey, segment: string, r: Reading): (s: string)
    ensures NulFree(s)
  {
    var n := c.Size(c.PublicKey(key));
    CString(ZeroPadded(c.PrivateDecrypt(key, CipherBlock(Decode(segment, r.pastText), n, r.pastBytes)), n))
  }

  function DecryptFrom(c: Crypto, key: PrivateKey, segments: seq<string>, r: nat -> Reading, i: nat): (s: string)
    ensures NulFree(s)
    decreases |segments|
  {
    if segments == [] then "" else Plain(c, key, segments[0], r(i)) + DecryptFrom(c, key, segments[1..], r, i + 1)
  }

  function Decrypt(c: Crypto, key: PrivateKey, text: string, r: nat -> Reading): (s: string)
    ensures NulFree(s)
  {
    DecryptFrom(c, key, Split(text, '#'), r, 0)
  }

  function Sign(c: Crypto, key: PrivateKey, message: string, w: Writing): string {
    Encode(c.PrivateEncrypt(key, PlainBlock(c.Sha256(message), c.Size(c.PublicKey(key)) - 11, w.junk)), w.pastBlock)
  }

  predicate Verify(c: Crypto, message: string, signature: string, pk: string, r: Reading) {
    var n := c.Size(pk);
    CString(ZeroPadded(c.PublicDecrypt(pk, CipherBlock(Decode(signature, r.pastText), n, r.pastBytes)), n))
    == c.Sha256(message)
  }

  // ---------- the class ----------

  class SslHandler {
    const crypto: Crypto
    const privateKey: PrivateKey
    const publicKey: string
    const hashId: string

    ghost predicate Valid() {
      publicKey == crypto.PublicKey(privateKey) && hashId == crypto.Sha256(publicKey)
    }

    constructor (crypto: Crypto, generated: PrivateKey)
      ensures Valid() && this.crypto == crypto && privateKey == generated
    {
      this.crypto := crypto;
      privateKey := generated;
      publicKey := crypto.PublicKey(generated);
      hashId := crypto.HashId(generated);
    }

    /** One turn of the loop below: pad, encrypt, encode. */
    method EncryptBlock(substring: string, pk: string, w: Writing) returns (encoded: string)
      ensures encoded == Cipher(crypto, substring, pk, w)
    {
      var block := crypto.PublicEncrypt(pk, PlainBlock(substring, crypto.Size(pk) - 11, w.junk), w.padding);
      encoded := EncodeBase64(block, w.pastBlock);
    }

    method EncryptMessage(message: string, pk: string, w: nat -> Writing) returns (encrypted: string)
      ensures encrypted == Encrypt(crypto, message, pk, w)
    {
      var blockLength := crypto.Size(pk) - 11;
      var iter, rest := 0, message;
      ghost var all := EncryptFrom(crypto, message, pk, w, 0);
      encrypted := "";
      while rest != ""
        invariant iter <= |all| && all[iter..] == EncryptFrom(crypto, rest, pk, w, iter)
        invariant encrypted == Join(all[..iter], '#')
        decreases |rest|
      {
        var n := ChunkLength(rest, blockLength);
        var encoded := EncryptBlock(rest[..n], pk, w(iter));
        JoinNext(all, iter, '#');
        if iter != 0 {
          encrypted := encrypted + ['#'];
        }
        encrypted := encrypted + encoded;
        iter, rest := iter + 1, rest[n..];
      }
      assert all[..iter] == all;
    }

    method DecryptMessage(text: string, r: nat -> Reading) returns (decrypted: string)
      requires Valid()
      ensures decrypted == Decrypt(crypto, privateKey, text, r)
    {
      var limit := crypto.Size(publicKey);
      var blocks := Segments(text, '#');
      decrypted := "";
      var i := 0;
      while i < |blocks|
        invariant 0 <= i <= |blocks|
        invariant decrypted + DecryptFrom(crypto, privateKey, blocks[i..], r, i) ==
                  DecryptFrom(crypto, privateKey, blocks, r, 0)
      {
        var decoded := DecodeBase64(blocks[i], r(i).pastText);
        var block := ZeroPadded(crypto.PrivateDecrypt(privateKey, CipherBlock(decoded, limit, r(i).pastBytes)), limit);
        assert blocks[i..][1..] == blocks[i + 1..];
        decrypted := Append(decrypted, CString(block), DecryptFrom(crypto, privateKey, blocks[i + 1..], r, i + 1));
        i := i + 1;
      }
    }

    method SignMessage(message: string, w: Writing) returns (signature: string)
      requires Valid()
      ensures signature == Sign(crypto, privateKey, message, w)
    {
      var blockLength := crypto.Size(publicKey) - 11;
      var block := crypto.PrivateEncrypt(privateKey, PlainBlock(crypto.Sha256(message), blockLength, w.junk));
      signature := EncodeBase64(block, w.pastBlock);
    }

    method VerifyMessage(message: string, signature: string, pk: string, r: Reading) returns (valid: bool)
      ensures valid == Verify(crypto, message, signature, pk, r)
    {
      var limit := crypto.Size(pk);
      var decoded := DecodeBase64(signature, r.pastText);
      var block := ZeroPadded(crypto.PublicDecrypt(pk, CipherBlock(decoded, limit, r.pastBytes)), limit);
      valid := CString(block) == crypto.Sha256(message);
    }
  }

  lemma {:induction false} JoinLast(fields: seq<string>, last: string, d: char)
    ensures Join(fields + [last], d) == if fields == [] then last else Join(fields, d) + [d] + last
  {
    if |fields| > 1 {
      assert (fields + [last])[1..] == fields[1..] + [last];
      JoinLast(fields[1..], last, d);
    }
  }

  lemma JoinNext(fields: seq<string>, i: nat, d: char)
    requires i < |fields|
    ensures fields[i..][1..] == fields[i + 1..]
    ensures Join(fields[..i + 1], d) == if i == 0 then fields[0] else Join(fields[..i], d) + [d] + fields[i]
  {
    assert fields[..i + 1] == fields[..i] + [fields[i]];
    JoinLast(fields[..i], fields[i], d);
  }

  // ---------- blocks, for every key ----------

  function Concat(parts: seq<string>): string {
    if parts == [] then "" else parts[0] + Concat(parts[1..])
  }

  /** A message cut into pieces of `limit`, the last one possibly shorter. */
  function Chunks(message: string, limit: nat): (chunks: seq<string>)
    requires limit > 0
    decreases |message|
  {
    if message == "" then []
    else
      var n := ChunkLength(message, limit);
      [message[..n]] + Chunks(message[n..], limit)
  }

  lemma {:induction false} ChunksJoin(message: string, limit: nat)
    requires limit > 0
    ensures Concat(Chunks(message, limit)) == message
    decreases |message|
  {
    if message != "" {
      var n := ChunkLength(message, limit);
      ChunksJoin(message[n..], limit);
      assert message == message[..n] + message[n..];
    }
  }

  /** All pieces have `limit` characters, save the last. */
  lemma {:induction false} ChunkSizes(message: string, limit: nat, i: nat)
    requires limit > 0 && i < |Chunks(message, limit)|
    ensures var chunks := Chunks(message, limit);
            if i < |chunks| - 1 then |chunks[i]| == limit else 0 < |chunks[i]| <= limit
    decreases |message|
  {
    var n := ChunkLength(message, limit);
    if i > 0 {
      ChunkSizes(message[n..], limit, i - 1);
    }
  }

  /** Something made of every piece and its number. */
  function Mapped(pieces: seq<string>, f: (string, nat) -> string, iter: nat): (all: seq<string>)
    ensures |all| == |pieces|
  {
    if pieces == [] then [] else [f(pieces[0], iter)] + Mapped(pieces[1..], f, iter + 1)
  }

  lemma {:induction false} MappedAt(pieces: seq<string>, f: (string, nat) -> string, iter: nat, i: nat)
    requires i < |pieces|
    ensures Mapped(pieces, f, iter)[i] == f(pieces[i], iter + i)
  {
    if i > 0 {
      MappedAt(pieces[1..], f, iter + 1, i - 1);
    }
  }

  /** Whatever the size of the key, block `i` is the cipher of piece `i`, each with
      padding and over-reads of its own. */
  lemma {:induction false} BlocksAreCiphers(c: Crypto, message: string, pk: string, w: nat -> Writing, iter: nat,
                                            f: (string, nat) -> string)
    requires forall s: string, i: nat :: f(s, i) == Cipher(c, s, pk, w(i))
    ensures EncryptFrom(c, message, pk, w, iter) == Mapped(Chunks(message, c.Size(pk) - 11), f, iter)
    decreases |message|
  {
    if message != "" {
      var n := ChunkLength(message, c.Size(pk) - 11);
      BlocksAreCiphers(c, message[n..], pk, w, iter + 1, f);
      assert f(message[..n], iter) == Cipher(c, message[..n], pk, w(iter));
    }
  }

  // ---------- any text that decodes ----------

  lemma {:induction false} DecryptFromIs(c: Crypto, key: PrivateKey, segments: seq<string>, r: nat -> Reading, i: nat,
                                         f: (string, nat) -> string)
    requires forall s: string, k: nat :: f(s, k) == Plain(c, key, s, r(k))
    ensures DecryptFrom(c, key, segments, r, i) == Concat(Mapped(segments, f, i))
    decreases |segments|
  {
    if segments != [] {
      DecryptFromIs(c, key, segments[1..], r, i + 1, f);
      assert f(segments[0], i) == Plain(c, key, segments[0], r(i));
      assert Mapped(segments, f, i)[1..] == Mapped(segments[1..], f, i + 1);
    }
  }

  /** Every segment is decrypted, empty ones included, and nothing comes between. */
  lemma DecryptIsConcat(c: Crypto, key: PrivateKey, segments: seq<string>, r: nat -> Reading,
                        f: (string, nat) -> string)
    requires Splittable(segments, '#')
    requires forall s: string, k: nat :: f(s, k) == Plain(c, key, s, r(k))
    ensures Decrypt(c, key, Join(segments, '#'), r) == Concat(Mapped(segments, f, 0))
  {
    SplitJoin(segments, '#');
    DecryptFromIs(c, key, segments, r, 0, f);
  }

  /** A decoded text shorter than a block is read on into its NUL and beyond. */
  lemma CipherBlockReads(bytes: seq<byte>, n: nat, past: nat -> byte, i: nat)
    requires i < n
    ensures CipherBlock(bytes, n, past)[i] == if i < |bytes| then bytes[i] else if i == |bytes| then 0 else past(i)
  {
  }

  lemma BlockIsPrefix(y: seq<byte>, decoded: seq<byte>, past: nat -> byte)
    requires y <= decoded
    ensures CipherBlock(decoded, |y|, past) == y
  {
  }

  lemma ShortOutput(out: string, n: nat)
    requires |out| < n
    ensures CString(ZeroPadded(out, n)) == CString(out)
  {
    BufferHolds(CString(out), out, n);
    CStringOfNulFree(CString(out));
  }

  /** Whatever encoding of a block is sent, however it was padded: the block counts. */
  lemma PlainOfAnyEncoding(c: Crypto, key: PrivateKey, segment: string, r: Reading, y: seq<byte>)
    requires c.Laws() && |y| == KEY_BYTES && y <= Decode(segment, r.pastText)
    ensures Plain(c, key, segment, r) == CString(c.PrivateDecrypt(key, y))
  {
    BlockIsPrefix(y, Decode(segment, r.pastText), r.pastBytes);
    ShortOutput(c.PrivateDecrypt(key, y), KEY_BYTES);
  }

  lemma VerifyOfAnyEncoding(c: Crypto, message: string, signature: string, pk: string, r: Reading, y: seq<byte>)
    requires c.Laws() && |y| == c.Size(pk) && y <= Decode(signature, r.pastText)
    ensures Verify(c, message, signature, pk, r) <==> CString(c.PublicDecrypt(pk, y)) == c.Sha256(message)
  {
    BlockIsPrefix(y, Decode(signature, r.pastText), r.pastBytes);
    ShortOutput(c.PublicDecrypt(pk, y), c.Size(pk));
  }

  // ---------- encryption round trip ----------

  /** What survives the way through the blocks: each chunk up to its first NUL. */
  function Survives(message: string, limit: nat): string
    requires limit > 0
    decreases |message|
  {
    if message == "" then ""
    else
      var n := ChunkLength(message, limit);
      CString(message[..n]) + Survives(message[n..], limit)
  }

  lemma {:induction false} SurvivesExactly(message: string, limit: nat)
    requires limit > 0
    ensures NulFree(message) ==> Survives(message, limit) == message
    ensures !NulFree(message) ==> |Survives(message, limit)| < |message|
    decreases |message|
  {
    if message != "" {
      var n := ChunkLength(message, limit);
      SurvivesExactly(message[n..], limit);
      assert message == message[..n] + message[n..];
      if NulFree(message[..n]) {
        CStringOfNulFree(message[..n]);
      }
    }
  }

  /** The bytes the decryption reads are the block that was encoded. */
  lemma BlockComesBack(block: seq<byte>, past: nat -> byte, r: Reading)
    ensures CipherBlock(Decode(Encode(block, past), r.pastText), |block|, r.pastBytes) == block
  {
    DecodeEncodePrefix(block, past, r.pastText);
  }

  lemma PlainBlockIsBytes(sub: string, n: nat, junk: nat -> ByteChar)
    requires ByteText(sub)
    ensures ByteText(PlainBlock(sub, n, junk))
  {
  }

  /** The zero-filled buffer ends the string where the block read from it does. */
  lemma BufferHolds(sub: string, block: string, n: nat)
    requires |sub| <= |block| < n && block[..|sub|] == sub
    requires |sub| < |block| ==> block[|sub|] == '\0'
    ensures CString(ZeroPadded(block, n)) == CString(sub)
  {
    var tail := ZeroPadded(block, n)[|sub|..];
    CStringIgnoresTail(sub, tail);
    assert ZeroPadded(block, n) == sub + tail;
  }

  lemma BlockRoundTrip(c: Crypto, key: PrivateKey, sub: string, w: Writing, r: Reading)
    requires c.Laws() && ByteText(sub) && |sub| <= KEY_BYTES - 11
    ensures Plain(c, key, Cipher(c, sub, c.PublicKey(key), w), r) == CString(sub)
  {
    var pk := c.PublicKey(key);
    var block := PlainBlock(sub, KEY_BYTES - 11, w.junk);
    PlainBlockIsBytes(sub, KEY_BYTES - 11, w.junk);
    BlockComesBack(c.PublicEncrypt(pk, block, w.padding), w.pastBlock, r);
    BufferHolds(sub, block, KEY_BYTES);
  }

  lemma {:induction false} RoundTripFrom(c: Crypto, key: PrivateKey, message: string, w: nat -> Writing,
                                         r: nat -> Reading, iter: nat)
    requires c.Laws() && ByteText(message)
    ensures DecryptFrom(c, key, EncryptFrom(c, message, c.PublicKey(key), w, iter), r, iter) ==
            Survives(message, KEY_BYTES - 11)
    decreases |message|
  {
    if message != "" {
      var n := ChunkLength(message, KEY_BYTES - 11);
      var blocks := EncryptFrom(c, message, c.PublicKey(key), w, iter);
      assert blocks[1..] == EncryptFrom(c, message[n..], c.PublicKey(key), w, iter + 1);
      BlockRoundTrip(c, key, message[..n], w(iter), r(iter));
      RoundTripFrom(c, key, message[n..], w, r, iter + 1);
    }
  }

  predicate BlockShaped(s: string) {
    s != "" && forall x <- s :: InAlphabet(x) || x == '='
  }

  predicate AllShaped(blocks: seq<string>) {
    forall i | 0 <= i < |blocks| :: BlockShaped(blocks[i])
  }

  /** Blocks hold the base64 alphabet and '=', and are never empty. */
  lemma CipherShape(c: Crypto, sub: string, pk: string, w: Writing)
    ensures BlockShaped(Cipher(c, sub, pk, w))
  {
    var block := c.PublicEncrypt(pk, PlainBlock(sub, c.Size(pk) - 11, w.junk), w.padding);
    EncodeAlphabet(block, w.pastBlock);
    EncodeLength(block, w.pastBlock);
  }

  lemma {:induction false} EncryptFromShape(c: Crypto, message: string, pk: string, w: nat -> Writing, iter: nat)
    ensures AllShaped(EncryptFrom(c, message, pk, w, iter))
    decreases |message|
  {
    if message != "" {
      var n := ChunkLength(message, c.Size(pk) - 11);
      CipherShape(c, message[..n], pk, w(iter));
      EncryptFromShape(c, message[n..], pk, w, iter + 1);
    }
  }

  /** What the receiver reads, for every message: each 501-byte chunk up to its
      first NUL, whatever is over-read on either side. */
  lemma DecryptEncrypt(c: Crypto, key: PrivateKey, message: string, w: nat -> Writing, r: nat -> Reading)
    requires c.Laws() && ByteText(message)
    ensures Decrypt(c, key, Encrypt(c, message, c.PublicKey(key), w), r) == Survives(message, KEY_BYTES - 11)
  {
    var blocks := EncryptFrom(c, message, c.PublicKey(key), w, 0);
    EncryptFromShape(c, message, c.PublicKey(key), w, 0);
    assert Splittable(blocks, '#');
    SplitJoin(blocks, '#');
    RoundTripFrom(c, key, message, w, r, 0);
  }

  /** Decryption undoes encryption exactly for the messages without a NUL. */
  lemma EncryptionRoundTrip(c: Crypto, key: PrivateKey, message: string, w: nat -> Writing, r: nat -> Reading)
    requires c.Laws() && ByteText(message)
    ensures Decrypt(c, key, Encrypt(c, message, c.PublicKey(key), w), r) == message <==> NulFree(message)
  {
    DecryptEncrypt(c, key, message, w, r);
    SurvivesExactly(message, KEY_BYTES - 11);
  }

  // ---------- layer separation and lengths ----------

  predicate Armoured(s: string) {
    forall x <- s :: InAlphabet(x) || x == '=' || x == '#'
  }

  lemma {:induction false} JoinArmoured(blocks: seq<string>)
    requires AllShaped(blocks)
    ensures Armoured(Join(blocks, '#')) && (blocks != [] ==> Join(blocks, '#') != "")
  {
    if |blocks| > 1 {
      JoinArmoured(blocks[1..]);
    }
  }

  /** An encrypted text holds only the base64 alphabet, '=' and '#': it can be
      joined with '%' and it crosses a C string whole. */
  lemma EncryptArmoured(c: Crypto, message: string, pk: string, w: nat -> Writing)
    ensures var s := Encrypt(c, message, pk, w);
            && Armoured(s) && '%' !in s && NulFree(s) && ByteText(s)
            && (message != "" ==> s != "")
  {
    var s := Encrypt(c, message, pk, w);
    EncryptFromShape(c, message, pk, w, 0);
    JoinArmoured(EncryptFrom(c, message, pk, w, 0));
    forall i | 0 <= i < |s|
      ensures s[i] as int < 256
    {
      assert s[i] in s;
    }
  }

  lemma SignArmoured(c: Crypto, key: PrivateKey, message: string, w: Writing)
    ensures var s := Sign(c, key, message, w);
            Armoured(s) && '%' !in s && NulFree(s) && ByteText(s) && s != ""
  {
    var block := c.PrivateEncrypt(key, PlainBlock(c.Sha256(message), c.Size(c.PublicKey(key)) - 11, w.junk));
    EncodeAlphabet(block, w.pastBlock);
    EncodeLength(block, w.pastBlock);
    var s := Sign(c, key, message, w);
    forall i | 0 <= i < |s|
      ensures s[i] as int < 256
    {
      assert s[i] in s;
    }
  }

  lemma {:induction false} JoinLength(blocks: seq<string>)
    requires forall i | 0 <= i < |blocks| :: |blocks[i]| == 686
    requires blocks != []
    ensures |Join(blocks, '#')| == 687 * |blocks| - 1
  {
    if |blocks| > 1 {
      JoinLength(blocks[1..]);
    }
  }

  lemma CipherLength(c: Crypto, sub: string, pk: string, w: Writing)
    requires c.Laws() && c.Size(pk) == KEY_BYTES
    ensures |Cipher(c, sub, pk, w)| == 686
  {
    var block := c.PublicEncrypt(pk, PlainBlock(sub, KEY_BYTES - 11, w.junk), w.padding);
    assert |block| == 512;
    EncodeLengthOfKeyBlock(block, w.pastBlock);
  }

  lemma {:induction false} CipherLengths(c: Crypto, message: string, pk: string, w: nat -> Writing, iter: nat)
    requires c.Laws() && c.Size(pk) == KEY_BYTES
    ensures forall i | 0 <= i < |EncryptFrom(c, message, pk, w, iter)| ::
              |EncryptFrom(c, message, pk, w, iter)[i]| == 686
    decreases |message|
  {
    if message != "" {
      var n := ChunkLength(message, KEY_BYTES - 11);
      CipherLength(c, message[..n], pk, w(iter));
      CipherLengths(c, message[n..], pk, w, iter + 1);
    }
  }

  /** A section of n blocks under a 4096-bit key has 687 n - 1 characters. */
  lemma SectionLength(c: Crypto, message: string, pk: string, w: nat -> Writing)
    requires c.Laws() && c.Size(pk) == KEY_BYTES && message != ""
    ensures |Encrypt(c, message, pk, w)| == 687 * |EncryptFrom(c, message, pk, w, 0)| - 1
    ensures |Encrypt(c, message, pk, w)| % 3 == 2
  {
    CipherLengths(c, message, pk, w, 0);
    JoinLength(EncryptFrom(c, message, pk, w, 0));
    SectionRemainder(|EncryptFrom(c, message, pk, w, 0)|);
  }

  lemma SectionRemainder(n: nat)
    ensures (687 * n - 1) % 3 == 2
  {
    assert 687 * n - 1 == 3 * (229 * n - 1) + 2;
  }

  // ---------- signatures ----------

  lemma HashHasNoNul(c: Crypto, message: string)
    requires c.Laws()
    ensures NulFree(c.Sha256(message)) && ByteText(c.Sha256(message)) && |c.Sha256(message)| == 64
    ensures '%' !in c.Sha256(message) && '#' !in c.Sha256(message)
  {
    var hash := c.Sha256(message);
    forall i | 0 <= i < |hash|
      ensures hash[i] as int < 256
    {
      assert hash[i] in hash;
    }
  }

  /** A signature verifies for exactly the messages with the signed digest,
      whatever lies past the 64 digits or past any buffer. */
  lemma SignatureRoundTrip(c: Crypto, key: PrivateKey, signed: string, shown: string, w: Writing, r: Reading)
    requires c.Laws()
    ensures Verify(c, shown, Sign(c, key, signed, w), c.PublicKey(key), r) <==> c.Sha256(shown) == c.Sha256(signed)
  {
    var hash := c.Sha256(signed);
    var plain := PlainBlock(hash, KEY_BYTES - 11, w.junk);
    HashHasNoNul(c, signed);
    PlainBlockIsBytes(hash, KEY_BYTES - 11, w.junk);
    BlockComesBack(c.PrivateEncrypt(key, plain), w.pastBlock, r);
    BufferHolds(hash, plain, KEY_BYTES);
    CStringOfNulFree(hash);
  }
}
