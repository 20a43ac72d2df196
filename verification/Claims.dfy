/** What a handler takes for proof: who a secret packet claims to be from, which
    block its signature opens, and which listed keys are checked against ids. */
module Claims {
  import opened Text
  import opened Base64
  import opened Rsa
  import opened SslHandler
  import opened Directory
  import opened Onion
  import opened Stages
  import opened Transit
  import Sending

  // ---------- the claim in an R packet ----------

  /** The entry of the named sender, the message shown, and the RSA block that
      `verifyMessage` hands to the sender's listed key. */
  datatype Claim = Claim(sender: User, shown: string, block: seq<byte>)

  function ClaimOf(c: Crypto, key: PrivateKey, users: seq<User>, text: string, site: Site): Option<Claim> {
    var segments := Split(text, '%');
    if |segments| < 2 || segments[0] != "R" then None
    else
      var blocks := Split(Decrypt(c, key, segments[1], site.readings), '%');
      if |blocks| < 3 then None
      else
        match Lookup(users, blocks[0])
        case None => None
        case Some(sender) => Some(Claim(sender, blocks[1], SignedBlock(c, sender.publicKey, blocks[2], site.check)))
  }

  function SignedBlock(c: Crypto, pk: string, signature: string, r: Reading): seq<byte> {
    CipherBlock(Decode(signature, r.pastText), c.Size(pk), r.pastBytes)
  }

  /** The text that a block opens to under a key. */
  function OpensTo(c: Crypto, pk: string, block: seq<byte>): string {
    CString(ZeroPadded(c.PublicDecrypt(pk, block), c.Size(pk)))
  }

  /** An accepted packet made a claim, and its block opens to the digest of what
      was shown. */
  lemma AcceptedClaim(c: Crypto, key: PrivateKey, users: seq<User>, text: string, site: Site)
    requires Peel(c, key, users, text, site).Accept?
    ensures var a, claim := Peel(c, key, users, text, site), ClaimOf(c, key, users, text, site);
            && claim.Some? && claim.value.sender == a.sender && claim.value.shown == a.message
            && OpensTo(c, a.sender.publicKey, claim.value.block) == c.Sha256(a.message)
  {
  }

  /** What `signMessage` makes of a digest. */
  function DigestBlock(c: Crypto, k: PrivateKey, message: string, junk: nat -> ByteChar): seq<byte> {
    c.PrivateEncrypt(k, PlainBlock(c.Sha256(message), KEY_BYTES - 11, junk))
  }

  /** A block made of a digest opens to that digest under the matching key. */
  lemma MadeOpens(c: Crypto, k: PrivateKey, signed: string, junk: nat -> ByteChar)
    requires c.Laws()
    ensures OpensTo(c, c.PublicKey(k), DigestBlock(c, k, signed, junk)) == c.Sha256(signed)
  {
    var hash := c.Sha256(signed);
    var plain := PlainBlock(hash, KEY_BYTES - 11, junk);
    HashHasNoNul(c, signed);
    PlainBlockIsBytes(hash, KEY_BYTES - 11, junk);
    BufferHolds(hash, plain, KEY_BYTES);
    CStringOfNulFree(hash);
  }

  // ---------- a packet that anyone can form ----------

  /** A secret packet that names `id` as its sender and is signed by key pair `k`,
      sealed for the peer with `key`. */
  function Shown(c: Crypto, key: PrivateKey, id: string, k: PrivateKey, message: string, w: Writing,
                 sealing: nat -> Writing): string
  {
    PacketR(Encrypt(c, id + "%" + message + "%" + Sign(c, k, message, w), c.PublicKey(key), sealing))
  }

  /** The handler credits the listed sender `u` with any message that the key
      listed for `u` has signed. */
  lemma AcceptsListedKey(c: Crypto, key: PrivateKey, users: seq<User>, u: User, k: PrivateKey, message: string,
                         w: Writing, sealing: nat -> Writing, site: Site)
    requires c.Laws() && Lookup(users, u.hashId) == Some(u) && Id(u.hashId) && u.publicKey == c.PublicKey(k)
    requires Unseparated(message) && ByteText(message)
    ensures Peel(c, key, users, Shown(c, key, u.hashId, k, message, w, sealing), site) == Accept(u, message)
  {
    SignArmoured(c, k, message, w);
    PlainPeelR(c, key, users, site, u.hashId, message, Sign(c, k, message, w), sealing);
    SignatureRoundTrip(c, k, message, message, w, site.check);
  }

  lemma ClaimFrom(c: Crypto, key: PrivateKey, users: seq<User>, u: User, secret: string, message: string,
                  signature: string, site: Site)
    requires Lookup(users, u.hashId) == Some(u) && Split(PacketR(secret), '%') == ["R", secret]
    requires Split(Decrypt(c, key, secret, site.readings), '%') == [u.hashId, message, signature]
    ensures ClaimOf(c, key, users, PacketR(secret), site) ==
            Some(Claim(u, message, SignedBlock(c, u.publicKey, signature, site.check)))
  {
  }

  lemma SignatureHoldsBlock(c: Crypto, k: PrivateKey, message: string, w: Writing, r: Reading)
    requires c.Laws()
    ensures SignedBlock(c, c.PublicKey(k), Sign(c, k, message, w), r) == DigestBlock(c, k, message, w.junk)
  {
    BlockComesBack(DigestBlock(c, k, message, w.junk), w.pastBlock, r);
  }

  lemma ShownClaim(c: Crypto, key: PrivateKey, users: seq<User>, u: User, k: PrivateKey, message: string,
                   w: Writing, sealing: nat -> Writing, site: Site)
    requires c.Laws() && Lookup(users, u.hashId) == Some(u) && Id(u.hashId) && u.publicKey == c.PublicKey(k)
    requires Unseparated(message) && ByteText(message)
    ensures ClaimOf(c, key, users, Shown(c, key, u.hashId, k, message, w, sealing), site) ==
            Some(Claim(u, message, DigestBlock(c, k, message, w.junk)))
  {
    var signature := Sign(c, k, message, w);
    SignArmoured(c, k, message, w);
    PlainSecretFields(c, key, u.hashId, message, signature, sealing, site.readings);
    var secret := Encrypt(c, u.hashId + "%" + message + "%" + signature, c.PublicKey(key), sealing);
    ClaimFrom(c, key, users, u, secret, message, signature, site);
    SignatureHoldsBlock(c, k, message, w, site.check);
  }

  // ---------- the check that R leaves out ----------

  /** Whatever the holder of the key listed for `u` signs, the handler takes for
      the word of a key pair with the id of `u`. */
  ghost predicate BindsSender(c: Crypto, key: PrivateKey, users: seq<User>, u: User) {
    forall k: PrivateKey, message: string, w: Writing, sealing: nat -> Writing, site: Site ::
      c.PublicKey(k) == u.publicKey &&
      Peel(c, key, users, Shown(c, key, u.hashId, k, message, w, sealing), site) == Accept(u, message) ==>
        c.HashId(k) == u.hashId
  }

  /** R accepts messages for a listed sender only from key pairs with that
      sender's id exactly when the entry's key hashes to its id, which R never
      checks. */
  lemma BindsSenderExactly(c: Crypto, key: PrivateKey, users: seq<User>, u: User, listed: PrivateKey,
                           w: Writing, sealing: nat -> Writing, site: Site)
    requires c.Laws() && Lookup(users, u.hashId) == Some(u) && Id(u.hashId) && u.publicKey == c.PublicKey(listed)
    ensures BindsSender(c, key, users, u) <==> KeyMatches(c, u)
  {
    AcceptsListedKey(c, key, users, u, listed, "", w, sealing, site);
  }

  /** Peer 0 listed with the key of peer 1. */
  function Swapped(): User { User(PlainCrypto().HashId(0), "h", 8, PlainCrypto().PublicKey(1)) }

  /** That list at R: a message that only key 1 signed is accepted as peer 0's. */
  lemma SwappedAccepted(c: Crypto, key: PrivateKey, u: User, message: string, w: Writing, sealing: nat -> Writing,
                        site: Site)
    requires c == PlainCrypto() && u == Swapped() && Unseparated(message) && ByteText(message)
    ensures Peel(c, key, [u], Shown(c, key, c.HashId(0), 1, message, w, sealing), site) == Accept(u, message)
    ensures u.hashId == c.HashId(0) && c.HashId(1) != c.HashId(0) && !BindsSender(c, key, [u], u)
  {
    LawsAreSatisfiable();
    HashHasNoNul(c, c.PublicKey(0));
    assert c.HashId(0)[0] == '0' && c.HashId(1)[0] == '1';
    assert Lookup([u], u.hashId) == Some(u);
    AcceptsListedKey(c, key, [u], u, 1, message, w, sealing, site);
    BindsSenderExactly(c, key, [u], u, 1, w, sealing, site);
  }

  // ---------- the check that P3 leaves out ----------

  /** P3 with the key check of P1 and P2. */
  function CheckedLast(c: Crypto, key: PrivateKey, users: seq<User>, segments: seq<string>, site: Site): Action {
    match LastEntry(c, key, users, segments, site)
    case None => PeelLast(c, key, users, segments, site)
    case Some(receiver) => if KeyMatches(c, receiver) then PeelLast(c, key, users, segments, site) else Refuse
  }

  /** The entry P3 looks up, if it gets that far. */
  function LastEntry(c: Crypto, key: PrivateKey, users: seq<User>, segments: seq<string>, site: Site): Option<User> {
    if |segments| < 2 then None
    else
      var blocks := Split(Decrypt(c, key, segments[1], site.readings), '%');
      if blocks == [] then None else Lookup(users, blocks[0])
  }

  /** P3 acts as if it checked exactly when the receiver it finds has no
      mismatching key; else it does not refuse. */
  lemma LastChecksExactly(c: Crypto, key: PrivateKey, users: seq<User>, segments: seq<string>, site: Site)
    ensures var entry := LastEntry(c, key, users, segments, site);
            PeelLast(c, key, users, segments, site) == CheckedLast(c, key, users, segments, site) <==>
            (entry.None? || KeyMatches(c, entry.value))
  {
  }

  /** The list `[Swapped()]` at P3: the packet for peer 0 goes to the entry with the
      key of peer 1, where a handler that checked would refuse. */
  lemma SwappedPassedOn(c: Crypto, key: PrivateKey, u: User, w: nat -> Writing, secret: string, site: Site)
    requires c == PlainCrypto() && u == Swapped() && Section(secret)
    ensures var s3 := Encrypt(c, u.hashId + "%" + secret, c.PublicKey(key), w);
            && Peel(c, key, [u], PacketP3(s3), site) == Forward(u, PacketR(secret))
            && CheckedLast(c, key, [u], ["P3", s3], site) == Refuse
  {
    SwappedEntry(c, u);
    P3PassesOn(c, key, [u], u, w, secret, site);
  }

  lemma SwappedEntry(c: Crypto, u: User)
    requires c == PlainCrypto() && u == Swapped()
    ensures c.Laws() && Id(u.hashId) && Lookup([u], u.hashId) == Some(u) && !KeyMatches(c, u)
  {
    LawsAreSatisfiable();
    HashHasNoNul(c, c.PublicKey(0));
    assert c.HashId(0)[0] == '0' && c.HashId(1)[0] == '1';
  }

  lemma P3PassesOn(c: Crypto, key: PrivateKey, users: seq<User>, u: User, w: nat -> Writing, secret: string, site: Site)
    requires c.Laws() && Id(u.hashId) && Lookup(users, u.hashId) == Some(u) && Section(secret)
    ensures var s3 := Encrypt(c, u.hashId + "%" + secret, c.PublicKey(key), w);
            && Peel(c, key, users, PacketP3(s3), site) == Forward(u, PacketR(secret))
            && LastEntry(c, key, users, ["P3", s3], site) == Some(u)
  {
    var inner := u.hashId + "%" + secret;
    InnerIsText(u.hashId, secret);
    EncryptionRoundTrip(c, key, inner, w, site.readings);
    SplitTwo(u.hashId, secret, '%');
    PeelP3(c, key, users, site, u.hashId, w, secret);
  }

  /** A packet the program formed, at the peers it is for: hops 1 and 2 pass on to a
      listed peer whose key matches its id and refuse otherwise; hop 3 passes on to
      any listed receiver, at the address listed, and it passes on the same text. */
  lemma HopsCheckButLast(c: Crypto, env: Env, net: Net, p: Sending.Parcel, k: nat, j: nat)
    requires c.Laws() && Sending.KeysGenuine(c, env(4).users, net) && Sending.Packed(c, env, p)
    requires 1 <= k <= 3 && j < |net| && c.HashId(net[j].key) == Sending.Layers(c, env, p)[k].id
    ensures var layers := Sending.Layers(c, env, p);
            Peel(c, net[j].key, env(k).users, layers[k].text, env(k)) ==
            Sending.PassOn(c, Lookup(env(k).users, layers[k - 1].id), layers[k - 1].text, k > 1)
  {
    Sending.LayerPeels(c, env, net, p, k, j);
    Sending.LayerPassesOn(c, env, p, k);
  }

  // ---------- messages with a NUL ----------

  lemma SurvivesHead(message: string, limit: nat, first: string, tail: string)
    requires limit > 0 && |message| > limit && message == first + tail && |first| == limit && NulFree(tail)
    ensures Survives(message, limit) == CString(first) + tail
  {
    assert message[..limit] == first && message[limit..] == tail;
    SurvivesExactly(tail, limit);
  }

  /** The first NUL ends a string, whatever comes after. */
  lemma {:induction false} CStringOfNul(before: string, middle: string, after: string)
    requires NulFree(before) && !NulFree(middle)
    ensures CString(before + middle + after) == before + CString(middle)
    decreases |before| + |middle|
  {
    var s := before + middle + after;
    if before != "" {
      assert s[1..] == before[1..] + middle + after;
      CStringOfNul(before[1..], middle, after);
    } else if middle[0] != '\0' {
      assert s[1..] == "" + middle[1..] + after;
      assert middle == [middle[0]] + middle[1..];
      CStringOfNul("", middle[1..], after);
    }
  }

  lemma HeadAndTail(id: string, message: string, head: string, tail: string)
    ensures id + "%" + message + "%" + (head + tail) == id + "%" + message + "%" + head + tail
    ensures id + "%" + message + "%" + head == id + "%" + message + ("%" + head)
  {
  }

  lemma HeadEndsAtNul(id: string, message: string, head: string)
    requires NulFree(id) && !NulFree(message)
    ensures CString(id + "%" + message + "%" + head) == id + "%" + CString(message)
  {
    HeadAndTail(id, message, head, "");
    CStringOfNul(id + "%", message, "%" + head);
  }

  /** A secret text cut at the NUL of its message: the second '%' and all of its
      first block behind the NUL are gone. */
  lemma NulCuts(id: string, message: string, head: string, tail: string)
    requires NulFree(id) && NulFree(tail) && !NulFree(message) && tail != ""
    requires |id| + |message| + 2 + |head| == KEY_BYTES - 11
    ensures Survives(id + "%" + message + "%" + (head + tail), KEY_BYTES - 11) == id + "%" + CString(message) + tail
  {
    HeadAndTail(id, message, head, tail);
    HeadEndsAtNul(id, message, head);
    SurvivesHead(id + "%" + message + "%" + head + tail, KEY_BYTES - 11, id + "%" + message + "%" + head, tail);
  }

  lemma SignLength(c: Crypto, k: PrivateKey, message: string, w: Writing)
    requires c.Laws()
    ensures |Sign(c, k, message, w)| == 686
  {
    EncodeLengthOfKeyBlock(DigestBlock(c, k, message, w.junk), w.pastBlock);
  }

  lemma TwoFieldsUndefined(c: Crypto, key: PrivateKey, users: seq<User>, secret: string, id: string, rest: string,
                           site: Site)
    requires Split(PacketR(secret), '%') == ["R", secret] && Lookup(users, id).Some?
    requires Split(Decrypt(c, key, secret, site.readings), '%') == [id, rest]
    ensures Peel(c, key, users, PacketR(secret), site) == Undefined
  {
  }

  lemma NulCutsFields(id: string, message: string, signature: string) returns (rest: string)
    requires Id(id) && |id| == 64 && Id(signature) && |signature| == 686
    requires '%' !in message && !NulFree(message) && |message| <= 435
    ensures Split(Survives(id + "%" + message + "%" + signature, KEY_BYTES - 11), '%') == [id, rest]
  {
    var cut := KEY_BYTES - 11 - |id| - |message| - 2;
    var head, tail := signature[..cut], signature[cut..];
    assert signature == head + tail;
    NulCuts(id, message, head, tail);
    rest := CString(message) + tail;
    assert id + "%" + CString(message) + tail == id + "%" + rest;
    SplitTwo(id, rest, '%');
  }

  lemma ThreeAreBytes(a: string, b: string, d: string)
    requires ByteText(a) && ByteText(b) && ByteText(d)
    ensures ByteText(a + "%" + b + "%" + d)
  {
  }

  lemma NulSecretFields(c: Crypto, key: PrivateKey, id: string, message: string, signature: string,
                        sealing: nat -> Writing, r: nat -> Reading) returns (rest: string)
    requires c.Laws() && Id(id) && |id| == 64 && Id(signature) && |signature| == 686
    requires '%' !in message && !NulFree(message) && ByteText(message) && |message| <= 435
    ensures var secret := Encrypt(c, id + "%" + message + "%" + signature, c.PublicKey(key), sealing);
            && Split(PacketR(secret), '%') == ["R", secret]
            && Split(Decrypt(c, key, secret, r), '%') == [id, rest]
  {
    var text := id + "%" + message + "%" + signature;
    ThreeAreBytes(id, message, signature);
    EncryptIsSection(c, text, c.PublicKey(key), sealing);
    SplitR(Encrypt(c, text, c.PublicKey(key), sealing));
    rest := NulCutsFields(id, message, signature);
    DecryptEncrypt(c, key, text, sealing, r);
  }

  /** A short message with a NUL, sent as the program sends it to a peer that lists
      the sender: the handler reads its signature past the last field. */
  lemma NulMessageUndefined(c: Crypto, key: PrivateKey, users: seq<User>, id: string, k: PrivateKey, message: string,
                            w: Writing, sealing: nat -> Writing, site: Site)
    requires c.Laws() && Id(id) && |id| == 64 && Lookup(users, id).Some?
    requires '%' !in message && !NulFree(message) && ByteText(message) && |message| <= 435
    ensures Peel(c, key, users, Shown(c, key, id, k, message, w, sealing), site) == Undefined
  {
    var signature := Sign(c, k, message, w);
    SignArmoured(c, k, message, w);
    SignLength(c, k, message, w);
    var rest := NulSecretFields(c, key, id, message, signature, sealing, site.readings);
    var secret := Encrypt(c, id + "%" + message + "%" + signature, c.PublicKey(key), sealing);
    TwoFieldsUndefined(c, key, users, secret, id, rest, site);
  }
}
