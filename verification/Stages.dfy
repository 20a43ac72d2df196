/** What each hop makes of its own layer of a packet that `formPacketandSend`
    formed, and why every packet crosses its connection. */
module Stages {
  import opened Text
  import opened Rsa
  import opened SslHandler
  import opened Framing
  import opened Directory
  import opened Onion

  // ---------- packets never hit the framing edge ----------

  lemma NotMultiple(n: nat)
    requires n % 3 != 0
    ensures n % (CHUNK_SIZE - 1) != 0
  {
    assert n == 3 * (341 * (n / 1023)) + n % 1023;
  }

  /** A section under a 4096-bit key: text of length 2 mod 3. */
  predicate Section(s: string) {
    '%' !in s && NulFree(s) && ByteText(s) && s != "" && |s| % 3 == 2
  }

  lemma EncryptIsSection(c: Crypto, message: string, pk: string, w: nat -> Writing)
    requires c.Laws() && c.Size(pk) == KEY_BYTES && message != ""
    ensures Section(Encrypt(c, message, pk, w))
  {
    EncryptArmoured(c, message, pk, w);
    SectionLength(c, message, pk, w);
  }

  /** The packets of the four stages. */
  function PacketR(secret: string): string { "R%" + secret }
  function PacketP3(s3: string): string { "P3%" + s3 }
  function PacketP2(s2: string, s3: string): string { "P2%" + s2 + "%" + s3 }
  function PacketP1(s1: string, s2: string, s3: string): string { "P1%" + s1 + "%" + s2 + "%" + s3 }

  /** Whatever the message length, no packet length is a multiple of 1023: each
      packet crosses its connection whole. */
  lemma PacketsCross(s1: string, s2: string, s3: string, secret: string)
    requires Section(s1) && Section(s2) && Section(s3) && Section(secret)
    ensures Framed(PacketR(secret)) && Framed(PacketP3(s3)) && Framed(PacketP2(s2, s3)) && Framed(PacketP1(s1, s2, s3))
  {
    NotMultiple(|PacketR(secret)|);
    NotMultiple(|PacketP3(s3)|);
    NotMultiple(|PacketP2(s2, s3)|);
    NotMultiple(|PacketP1(s1, s2, s3)|);
  }

  // ---------- ranks and fields ----------

  lemma SplitP1(s1: string, s2: string, s3: string)
    requires Section(s1) && Section(s2) && Section(s3)
    ensures Split(PacketP1(s1, s2, s3), '%') == ["P1", s1, s2, s3]
  {
    assert PacketP1(s1, s2, s3) == "P1" + "%" + (s1 + "%" + s2 + "%" + s3);
    SplitCons("P1", '%', s1 + "%" + s2 + "%" + s3);
    SplitThree(s1, s2, s3, '%');
  }

  lemma SplitP2(s2: string, s3: string)
    requires Section(s2) && Section(s3)
    ensures Split(PacketP2(s2, s3), '%') == ["P2", s2, s3]
  {
    SplitThree("P2", s2, s3, '%');
    assert PacketP2(s2, s3) == "P2" + "%" + s2 + "%" + s3;
  }

  lemma SplitP3(s3: string)
    requires Section(s3)
    ensures Split(PacketP3(s3), '%') == ["P3", s3]
  {
    SplitTwo("P3", s3, '%');
    assert PacketP3(s3) == "P3" + "%" + s3;
  }

  lemma SplitR(secret: string)
    requires Section(secret)
    ensures Split(PacketR(secret), '%') == ["R", secret]
  {
    SplitTwo("R", secret, '%');
    assert PacketR(secret) == "R" + "%" + secret;
  }

  /** Every packet crosses its connection and arrives at its own stage. */
  lemma PacketsArrive(s1: string, s2: string, s3: string, secret: string)
    requires Section(s1) && Section(s2) && Section(s3) && Section(secret)
    ensures Framed(PacketR(secret)) && Rank(PacketR(secret)) == 0
    ensures Framed(PacketP3(s3)) && Rank(PacketP3(s3)) == 1
    ensures Framed(PacketP2(s2, s3)) && Rank(PacketP2(s2, s3)) == 2
    ensures Framed(PacketP1(s1, s2, s3)) && Rank(PacketP1(s1, s2, s3)) == 3
  {
    PacketsCross(s1, s2, s3, secret);
    SplitP1(s1, s2, s3);
    SplitP2(s2, s3);
    SplitP3(s3);
    SplitR(secret);
  }

  /** The four packets of every message, of any length and any content, cross. */
  lemma FormedPacketsCross(c: Crypto, key: PrivateKey, receiverId: string, message: string, route: Route, draws: Draws)
    requires c.Laws() && RouteKeysMatch(c, route)
    requires forall u <- [route.receiver, route.peer1, route.peer2, route.peer3] :: c.Size(u.publicKey) == KEY_BYTES
    ensures var s2 := Encrypt(c, route.peer3.hashId, route.peer2.publicKey, draws.section2);
            var s3 := Section3(c, key, receiverId, message, route, draws);
            && Framed(FormPacket(c, key, receiverId, message, route, draws)) && Framed(PacketP2(s2, s3))
            && Rank(FormPacket(c, key, receiverId, message, route, draws)) == 3
            && Framed(PacketP3(s3)) && Framed(PacketR(SecretPacket(c, key, message, route.receiver.publicKey, draws)))
  {
    var keys := [route.receiver, route.peer1, route.peer2, route.peer3];
    assert keys[0] in keys && keys[1] in keys && keys[2] in keys && keys[3] in keys;
    var s1 := Encrypt(c, route.peer2.hashId, route.peer1.publicKey, draws.section1);
    var s2 := Encrypt(c, route.peer3.hashId, route.peer2.publicKey, draws.section2);
    var secret := SecretPacket(c, key, message, route.receiver.publicKey, draws);
    EncryptIsSection(c, route.peer2.hashId, route.peer1.publicKey, draws.section1);
    EncryptIsSection(c, route.peer3.hashId, route.peer2.publicKey, draws.section2);
    EncryptIsSection(c, SecretText(c, key, message, draws), route.receiver.publicKey, draws.secret);
    EncryptIsSection(c, receiverId + "%" + secret, route.peer3.publicKey, draws.section3);
    var s3 := Section3(c, key, receiverId, message, route, draws);
    PacketsArrive(s1, s2, s3, secret);
  }

  // ---------- what each stage does ----------

  /** P1 and P2: refuse an unknown or mismatching next hop, else pass on. */
  function HopAction(c: Crypto, users: seq<User>, nextId: string, packet: string): Action {
    match Lookup(users, nextId)
    case None => Refuse
    case Some(next) => if KeyMatches(c, next) then Forward(next, packet) else Refuse
  }

  function LastAction(users: seq<User>, receiverId: string, packet: string): Action {
    match Lookup(users, receiverId)
    case None => Refuse
    case Some(receiver) => Forward(receiver, packet)
  }

  function SecretAction(c: Crypto, users: seq<User>, senderId: string, message: string, signature: string,
                        site: Site): Action
  {
    match Lookup(users, senderId)
    case None => Refuse
    case Some(sender) =>
      if Verify(c, message, signature, sender.publicKey, site.check) then Accept(sender, message) else Refuse
  }

  /** An id as hops encrypt it: 64 digits, no separator, no NUL. */
  predicate Id(s: string) {
    NulFree(s) && ByteText(s) && '%' !in s && s != ""
  }

  lemma IdComesBack(c: Crypto, key: PrivateKey, id: string, w: nat -> Writing, r: nat -> Reading)
    requires c.Laws() && Id(id)
    ensures Decrypt(c, key, Encrypt(c, id, c.PublicKey(key), w), r) == id
  {
    EncryptionRoundTrip(c, key, id, w, r);
  }

  lemma PeelP1(c: Crypto, key: PrivateKey, users: seq<User>, site: Site, id: string, w: nat -> Writing, s2: string,
               s3: string)
    requires c.Laws() && Id(id) && Section(s2) && Section(s3)
    ensures Peel(c, key, users, PacketP1(Encrypt(c, id, c.PublicKey(key), w), s2, s3), site) ==
            HopAction(c, users, id, PacketP2(s2, s3))
  {
    EncryptIsSection(c, id, c.PublicKey(key), w);
    SplitP1(Encrypt(c, id, c.PublicKey(key), w), s2, s3);
    IdComesBack(c, key, id, w, site.readings);
  }

  lemma PeelP2(c: Crypto, key: PrivateKey, users: seq<User>, site: Site, id: string, w: nat -> Writing, s3: string)
    requires c.Laws() && Id(id) && Section(s3)
    ensures Peel(c, key, users, PacketP2(Encrypt(c, id, c.PublicKey(key), w), s3), site) ==
            HopAction(c, users, id, PacketP3(s3))
  {
    EncryptIsSection(c, id, c.PublicKey(key), w);
    SplitP2(Encrypt(c, id, c.PublicKey(key), w), s3);
    IdComesBack(c, key, id, w, site.readings);
  }

  lemma InnerIsText(a: string, b: string)
    requires NulFree(a) && ByteText(a) && NulFree(b) && ByteText(b)
    ensures NulFree(a + "%" + b) && ByteText(a + "%" + b)
  {
  }

  lemma LastOn(c: Crypto, key: PrivateKey, users: seq<User>, site: Site, segments: seq<string>, blocks: seq<string>)
    requires |segments| >= 2 && |blocks| >= 2 && Split(Decrypt(c, key, segments[1], site.readings), '%') == blocks
    ensures PeelLast(c, key, users, segments, site) == LastAction(users, blocks[0], PacketR(blocks[1]))
  {
  }

  lemma PeelP3(c: Crypto, key: PrivateKey, users: seq<User>, site: Site, id: string, w: nat -> Writing, secret: string)
    requires c.Laws() && Id(id) && Section(secret)
    ensures Peel(c, key, users, PacketP3(Encrypt(c, id + "%" + secret, c.PublicKey(key), w)), site) ==
            LastAction(users, id, PacketR(secret))
  {
    var inner := id + "%" + secret;
    InnerIsText(id, secret);
    EncryptIsSection(c, inner, c.PublicKey(key), w);
    EncryptionRoundTrip(c, key, inner, w, site.readings);
    PeelOpened(c, key, users, site, Encrypt(c, inner, c.PublicKey(key), w), id, secret);
  }

  lemma PeelOpened(c: Crypto, key: PrivateKey, users: seq<User>, site: Site, s3: string, id: string, secret: string)
    requires Section(s3) && Id(id) && Section(secret)
    requires Decrypt(c, key, s3, site.readings) == id + "%" + secret
    ensures Peel(c, key, users, PacketP3(s3), site) == LastAction(users, id, PacketR(secret))
  {
    SplitTwo(id, secret, '%');
    LastOn(c, key, users, site, ["P3", s3], [id, secret]);
    SplitP3(s3);
  }

  lemma SecretOn(c: Crypto, key: PrivateKey, users: seq<User>, site: Site, segments: seq<string>, fields: seq<string>)
    requires |segments| >= 2 && segments[0] == "R" && |fields| >= 3
    requires Split(Decrypt(c, key, segments[1], site.readings), '%') == fields
    ensures PeelSecret(c, key, users, segments, site) ==
            SecretAction(c, users, fields[0], fields[1], fields[2], site)
  {
  }

  /** What a secret text holds for its reader. */
  function SecretParts(id: string, message: string, signature: string): (parts: seq<string>)
    requires '%' !in id && signature != ""
    ensures |parts| >= 3 && parts[0] == id
  {
    ThreeParts(id, message, signature);
    Split(id + "%" + message + "%" + signature, '%')
  }

  lemma FieldsOfAny(tag: string, s1: string, rest: string)
    requires '%' !in tag && '%' !in s1
    ensures Split(tag + "%" + s1 + "%" + rest, '%') == [tag, s1] + Split(rest, '%')
  {
    assert tag + "%" + s1 + "%" + rest == tag + "%" + (s1 + "%" + rest);
    SplitCons(tag, '%', s1 + "%" + rest);
    SplitCons(s1, '%', rest);
  }

  lemma PartsWhole(id: string, message: string, signature: string)
    requires '%' !in id && '%' !in message && signature != ""
    ensures Split(id + "%" + message + "%" + signature, '%') == [id, message] + Split(signature, '%')
  {
    FieldsOfAny(id, message, signature);
  }

  lemma PartsCut(id: string, message: string, signature: string)
    requires '%' !in id && '%' in message && signature != ""
    ensures var i := Find(message, '%');
            i < |message| && Split(id + "%" + message + "%" + signature, '%') ==
                             [id, message[..i]] + Split(message[i + 1..] + "%" + signature, '%')
  {
    var i := Find(message, '%');
    var head, rest := message[..i], message[i + 1..];
    CutText(id, message, i, signature);
    FieldsOfAny(id, head, rest + "%" + signature);
  }

  lemma CutText(id: string, message: string, i: nat, signature: string)
    requires i < |message| && message[i] == '%'
    ensures id + "%" + message + "%" + signature ==
            id + "%" + message[..i] + "%" + (message[i + 1..] + "%" + signature)
  {
    assert message == message[..i] + "%" + message[i + 1..];
  }

  /** At least three fields, whatever the message: the id, the message up to its
      first '%', and what comes next. */
  lemma ThreeParts(id: string, message: string, signature: string)
    requires '%' !in id && signature != ""
    ensures var parts := Split(id + "%" + message + "%" + signature, '%');
            && |parts| >= 3 && parts[0] == id && parts[1] == message[..Find(message, '%')]
            && ('%' !in message && '%' !in signature ==> parts == [id, message, signature])
  {
    if '%' in message {
      PartsCut(id, message, signature);
    } else {
      PartsWhole(id, message, signature);
      assert message[..|message|] == message;
      if '%' !in signature {
        SplitSingle(signature, '%');
      }
    }
  }

  /** What the receiver finds in a secret packet sealed for it, for every message
      without a NUL. */
  lemma SecretFields(c: Crypto, key: PrivateKey, id: string, message: string, signature: string,
                     w: nat -> Writing, r: nat -> Reading)
    requires c.Laws() && Id(id) && Id(signature) && NulFree(message) && ByteText(message)
    ensures var secret := Encrypt(c, id + "%" + message + "%" + signature, c.PublicKey(key), w);
            && Split(PacketR(secret), '%') == ["R", secret]
            && Split(Decrypt(c, key, secret, r), '%') == SecretParts(id, message, signature)
  {
    var inner := id + "%" + message + "%" + signature;
    InnerIsText(id, message);
    InnerIsText(id + "%" + message, signature);
    EncryptIsSection(c, inner, c.PublicKey(key), w);
    EncryptionRoundTrip(c, key, inner, w, r);
    SplitR(Encrypt(c, inner, c.PublicKey(key), w));
  }

  /** R on any message without a NUL: the first three fields decide, and any more
      are left alone. */
  lemma PeelR(c: Crypto, key: PrivateKey, users: seq<User>, site: Site, id: string, message: string,
              signature: string, w: nat -> Writing)
    requires c.Laws() && Id(id) && Id(signature) && NulFree(message) && ByteText(message)
    ensures var parts := SecretParts(id, message, signature);
            Peel(c, key, users, PacketR(Encrypt(c, id + "%" + message + "%" + signature, c.PublicKey(key), w)), site)
            == SecretAction(c, users, parts[0], parts[1], parts[2], site)
  {
    var secret := Encrypt(c, id + "%" + message + "%" + signature, c.PublicKey(key), w);
    SecretFields(c, key, id, message, signature, w, site.readings);
    SecretOn(c, key, users, site, ["R", secret], SecretParts(id, message, signature));
  }

  /** For a message without '%' those are the three that were joined. */
  lemma PlainSecretFields(c: Crypto, key: PrivateKey, id: string, message: string, signature: string,
                          w: nat -> Writing, r: nat -> Reading)
    requires c.Laws() && Id(id) && Id(signature) && '%' !in message && NulFree(message) && ByteText(message)
    ensures var secret := Encrypt(c, id + "%" + message + "%" + signature, c.PublicKey(key), w);
            && Split(PacketR(secret), '%') == ["R", secret]
            && Split(Decrypt(c, key, secret, r), '%') == [id, message, signature]
  {
    SecretFields(c, key, id, message, signature, w, r);
    ThreeParts(id, message, signature);
  }

  lemma PlainPeelR(c: Crypto, key: PrivateKey, users: seq<User>, site: Site, id: string, message: string,
                   signature: string, w: nat -> Writing)
    requires c.Laws() && Id(id) && Id(signature) && '%' !in message && NulFree(message) && ByteText(message)
    ensures Peel(c, key, users, PacketR(Encrypt(c, id + "%" + message + "%" + signature, c.PublicKey(key), w)), site)
            == SecretAction(c, users, id, message, signature, site)
  {
    PeelR(c, key, users, site, id, message, signature, w);
    ThreeParts(id, message, signature);
  }

  // ---------- any packet at all ----------

  /** Nothing, or further fields. */
  predicate MoreFields(extra: string) {
    extra == "" || extra[0] == '%'
  }

  lemma FirstOfMore(a: string, extra: string)
    requires '%' !in a && a != "" && MoreFields(extra)
    ensures Split(a + extra, '%') != [] && Split(a + extra, '%')[0] == a
  {
    if extra == "" {
      assert a + extra == a;
      SplitSingle(a, '%');
    } else {
      assert a + extra == a + "%" + extra[1..];
      SplitCons(a, '%', extra[1..]);
    }
  }

  /** What the tags make of the fields of a text. */
  lemma PeelFields(c: Crypto, key: PrivateKey, users: seq<User>, site: Site, text: string, fields: seq<string>)
    requires Split(text, '%') == fields && |fields| >= 2
    ensures fields[0] == "P1" && |fields| >= 4 ==>
              Peel(c, key, users, text, site) ==
              HopAction(c, users, Decrypt(c, key, fields[1], site.readings), PacketP2(fields[2], fields[3]))
    ensures fields[0] == "P2" && |fields| >= 3 ==>
              Peel(c, key, users, text, site) ==
              HopAction(c, users, Decrypt(c, key, fields[1], site.readings), PacketP3(fields[2]))
    ensures fields[0] == "P3" ==> Peel(c, key, users, text, site) == PeelLast(c, key, users, fields, site)
    ensures fields[0] == "R" ==> Peel(c, key, users, text, site) == PeelSecret(c, key, users, fields, site)
  {
  }

  lemma P1Fields(s1: string, s2: string, s3: string, extra: string) returns (fields: seq<string>)
    requires '%' !in s1 && '%' !in s2 && '%' !in s3 && s3 != "" && MoreFields(extra)
    ensures fields == Split(PacketP1(s1, s2, s3) + extra, '%')
    ensures |fields| >= 4 && fields[..4] == ["P1", s1, s2, s3]
  {
    assert PacketP1(s1, s2, s3) + extra == "P1" + "%" + s1 + "%" + (s2 + "%" + (s3 + extra));
    FieldsOfAny("P1", s1, s2 + "%" + (s3 + extra));
    SplitCons(s2, '%', s3 + extra);
    FirstOfMore(s3, extra);
    fields := Split(PacketP1(s1, s2, s3) + extra, '%');
  }

  lemma P2Fields(s2: string, s3: string, extra: string) returns (fields: seq<string>)
    requires '%' !in s2 && '%' !in s3 && s3 != "" && MoreFields(extra)
    ensures fields == Split(PacketP2(s2, s3) + extra, '%')
    ensures |fields| >= 3 && fields[..3] == ["P2", s2, s3]
  {
    assert PacketP2(s2, s3) + extra == "P2" + "%" + s2 + "%" + (s3 + extra);
    FieldsOfAny("P2", s2, s3 + extra);
    FirstOfMore(s3, extra);
    fields := Split(PacketP2(s2, s3) + extra, '%');
  }

  lemma SectionOfAny(tag: string, s: string, extra: string) returns (fields: seq<string>)
    requires '%' !in tag && '%' !in s && s != "" && MoreFields(extra)
    ensures fields == Split(tag + "%" + s + extra, '%')
    ensures |fields| >= 2 && fields[..2] == [tag, s]
  {
    assert tag + "%" + s + extra == tag + "%" + (s + extra);
    SplitCons(tag, '%', s + extra);
    FirstOfMore(s, extra);
    fields := Split(tag + "%" + s + extra, '%');
  }

  lemma FieldAt(fields: seq<string>, n: nat, front: seq<string>, i: nat)
    requires i < n <= |fields| && fields[..n] == front
    ensures fields[i] == front[i]
  {
  }

  /** P1 looks at its own section, whatever it decrypts to, and passes on the next
      two fields and no more. */
  lemma AnyP1(c: Crypto, key: PrivateKey, users: seq<User>, site: Site, s1: string, s2: string, s3: string,
              extra: string, text: string)
    requires '%' !in s1 && '%' !in s2 && '%' !in s3 && s3 != "" && MoreFields(extra)
    requires text == PacketP1(s1, s2, s3) + extra
    ensures Peel(c, key, users, text, site) ==
            HopAction(c, users, Decrypt(c, key, s1, site.readings), PacketP2(s2, s3))
  {
    var fields := P1Fields(s1, s2, s3, extra);
    var front := ["P1", s1, s2, s3];
    FieldAt(fields, 4, front, 0);
    FieldAt(fields, 4, front, 1);
    FieldAt(fields, 4, front, 2);
    FieldAt(fields, 4, front, 3);
    PeelFields(c, key, users, site, text, fields);
  }

  lemma AnyP2(c: Crypto, key: PrivateKey, users: seq<User>, site: Site, s2: string, s3: string, extra: string,
              text: string)
    requires '%' !in s2 && '%' !in s3 && s3 != "" && MoreFields(extra) && text == PacketP2(s2, s3) + extra
    ensures Peel(c, key, users, text, site) ==
            HopAction(c, users, Decrypt(c, key, s2, site.readings), PacketP3(s3))
  {
    var fields := P2Fields(s2, s3, extra);
    var front := ["P2", s2, s3];
    FieldAt(fields, 3, front, 0);
    FieldAt(fields, 3, front, 1);
    FieldAt(fields, 3, front, 2);
    PeelFields(c, key, users, site, text, fields);
  }

  lemma AnyP3(c: Crypto, key: PrivateKey, users: seq<User>, site: Site, s: string, extra: string, text: string,
              blocks: seq<string>)
    requires '%' !in s && s != "" && MoreFields(extra) && text == "P3" + "%" + s + extra
    requires blocks == Split(Decrypt(c, key, s, site.readings), '%') && |blocks| >= 2
    ensures Peel(c, key, users, text, site) == LastAction(users, blocks[0], PacketR(blocks[1]))
  {
    var fields := SectionOfAny("P3", s, extra);
    FieldAt(fields, 2, ["P3", s], 0);
    FieldAt(fields, 2, ["P3", s], 1);
    PeelFields(c, key, users, site, text, fields);
    LastOn(c, key, users, site, fields, blocks);
  }

  lemma AnyR(c: Crypto, key: PrivateKey, users: seq<User>, site: Site, s: string, extra: string, text: string,
             blocks: seq<string>)
    requires '%' !in s && s != "" && MoreFields(extra) && text == "R" + "%" + s + extra
    requires blocks == Split(Decrypt(c, key, s, site.readings), '%') && |blocks| >= 3
    ensures Peel(c, key, users, text, site) == SecretAction(c, users, blocks[0], blocks[1], blocks[2], site)
  {
    var fields := SectionOfAny("R", s, extra);
    FieldAt(fields, 2, ["R", s], 0);
    FieldAt(fields, 2, ["R", s], 1);
    PeelFields(c, key, users, site, text, fields);
    SecretOn(c, key, users, site, fields, blocks);
  }

  /** An unknown id, or at P1 and P2 a key that does not match, is refused before any
      further field is read. */
  lemma UnknownRefused(c: Crypto, key: PrivateKey, users: seq<User>, site: Site, text: string)
    requires |Split(text, '%')| >= 2
    ensures var segments := Split(text, '%');
            var nextId := Decrypt(c, key, segments[1], site.readings);
            var fields := Split(nextId, '%');
            && (segments[0] in {"P1", "P2"} ==>
                  (Lookup(users, nextId).None? || !KeyMatches(c, Lookup(users, nextId).value) ==>
                     Peel(c, key, users, text, site) == Refuse))
            && (segments[0] in {"P3", "R"} && fields != [] && Lookup(users, fields[0]).None? ==>
                  Peel(c, key, users, text, site) == Refuse)
  {
  }

  /** A text with any other tag is left without an answer. */
  lemma UnknownTagIgnored(c: Crypto, key: PrivateKey, users: seq<User>, site: Site, text: string)
    requires Split(text, '%') != [] && Split(text, '%')[0] !in {"P1", "P2", "P3", "R"}
    ensures Peel(c, key, users, text, site) == Ignore
  {
  }
}
