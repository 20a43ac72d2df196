/** RSA and SHA-256 as abstract functions with the laws the program relies on:
    PKCS#1 v1.5 padding (RFC 8017, section 7.2.1) takes 11 bytes of a block. */
module Rsa {
  import opened Text
  import opened Base64

  /** The identity of a generated key pair. */
  type PrivateKey = nat

  /** RSA_size of a key: more than the padding. */
  type KeySize = n: int | n > 11 witness 512

  /** A C++ `char`, and the strings made of them. */
  type ByteChar = c: char | c as int < 256 witness 'a'

  predicate ByteText(s: string) {
    forall i | 0 <= i < |s| :: s[i] as int < 256
  }

  const KEY_BYTES: KeySize := 512

  datatype Crypto = Crypto(
    PublicKey: PrivateKey -> string,
    Size: string -> KeySize,
    PublicEncrypt: (string, string, nat) -> seq<byte>,
    PrivateDecrypt: (PrivateKey, seq<byte>) -> string,
    PrivateEncrypt: (PrivateKey, string) -> seq<byte>,
    PublicDecrypt: (string, seq<byte>) -> string,
    Sha256: string -> string)
  {
    /** Encryption of a full block can be undone by the key's owner, whatever
        randomness the padding draws; a failed decryption writes at most a block. */
    ghost predicate EncryptionLaws() {
      && (forall key :: Size(PublicKey(key)) == KEY_BYTES)
      && (forall pk, x, r :: |x| == Size(pk) - 11 ==> |PublicEncrypt(pk, x, r)| == Size(pk))
      && (forall key, x, r :: |x| == KEY_BYTES - 11 && ByteText(x) ==>
            PrivateDecrypt(key, PublicEncrypt(PublicKey(key), x, r)) == x)
      && (forall key, y :: |PrivateDecrypt(key, y)| <= KEY_BYTES - 11)
    }

    /** The public key opens what the private key closed. */
    ghost predicate SignatureLaws() {
      && (forall key, x :: |x| == KEY_BYTES - 11 ==> |PrivateEncrypt(key, x)| == KEY_BYTES)
      && (forall key, x :: |x| == KEY_BYTES - 11 && ByteText(x) ==>
            PublicDecrypt(PublicKey(key), PrivateEncrypt(key, x)) == x)
      && (forall pk, y :: |PublicDecrypt(pk, y)| <= Size(pk) - 11)
    }

    /** Digests are 64 hexadecimal digits; a PEM key is nonempty text without NUL. */
    ghost predicate TextLaws() {
      && (forall s :: |Sha256(s)| == 64 && forall d <- Sha256(s) :: '0' <= d <= '9' || 'a' <= d <= 'f')
      && (forall key :: PublicKey(key) != "" && NulFree(PublicKey(key)))
    }

    ghost predicate Laws() {
      EncryptionLaws() && SignatureLaws() && TextLaws()
    }

    function HashId(key: PrivateKey): string {
      Sha256(PublicKey(key))
    }
  }

  // ---------- the laws can be met ----------

  function ToBytes(x: string): (y: seq<byte>)
    ensures |y| == |x|
  {
    seq(|x|, i requires 0 <= i < |x| => if x[i] as int < 256 then x[i] as int else 0)
  }

  function ToText(y: seq<byte>): (x: string)
    ensures |x| == |y|
  {
    seq(|y|, i requires 0 <= i < |y| => y[i] as char)
  }

  function PlainKey(key: PrivateKey): string {
    if key == 0 then "PEM0" else if key == 1 then "PEM1" else "PEM2"
  }

  /** A digest that tells those keys apart. */
  function PlainDigest(s: string): string {
    var digit := if s == "PEM0" then '0' else if s == "PEM1" then '1' else '2';
    seq(64, _ => digit)
  }

  /** A block cipher that protects nothing but obeys every law. */
  function PlainCrypto(): Crypto {
    var close := (x: string) => ToBytes(x) + seq(11, _ => 0);
    var open := (y: seq<byte>) => ToText(y[..if |y| < 501 then |y| else 501]);
    Crypto(PlainKey, _ => 512, (pk, x, r) => close(x), (key, y) => open(y),
           (key, x) => close(x), (pk, y) => open(y), PlainDigest)
  }

  lemma OpenAfterClose(x: string)
    requires |x| == 501 && ByteText(x)
    ensures ToText((ToBytes(x) + seq(11, _ => 0))[..501]) == x
  {
    var block := ToBytes(x) + seq(11, _ => 0);
    assert block[..501] == ToBytes(x);
    assert forall i | 0 <= i < 501 :: ToText(ToBytes(x))[i] == x[i];
  }

  /** No theorem that assumes the laws is vacuous. */
  lemma LawsAreSatisfiable()
    ensures PlainCrypto().Laws()
  {
    forall x | |x| == 501 && ByteText(x)
      ensures ToText((ToBytes(x) + seq(11, _ => 0))[..501]) == x
    {
      OpenAfterClose(x);
    }
  }
}
