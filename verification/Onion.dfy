/** What a peer does with one packet, and with the reply that comes back. */
module Onion {
  import opened Text
  import opened Rsa
  import opened SslHandler
  import opened Framing
  import opened Directory
  import Registry

  datatype Message = Message(sender: string, receiver: string, message: string)

  /** What one handler run, or one send, meets outside the peer: the relay's
      vector when LIST is answered, who listens at an address (None refuses the
      connection), and what its decodings over-read. */
  datatype Site = Site(users: seq<User>, listening: (string, nat) -> Option<nat>,
                       readings: nat -> Reading, check: Reading)

  // ---------- the user list ----------

  /** A list; a wait without end; an exception; or undefined behaviour, the last
      two with the entries pushed before. */
  datatype Fetched = Fetched(users: seq<User>) | Hung | Thrown(users: seq<User>) | Garbled(users: seq<User>)

  function AsFetched(parsed: Parsed): Fetched {
    match parsed.ending
    case Whole => Fetched(parsed.users)
    case Threw => Thrown(parsed.users)
    case Misread => Garbled(parsed.users)
  }

  /** What the relay sends back on a command, if the command reaches it. */
  function RelayReply(users: seq<User>, command: string): Option<string> {
    match Transfer(command)
    case None => None
    case Some(text) =>
      match Registry.Process(users, "", "", text)
      case None => None
      case Some(processed) => processed.reply
  }

  /** `updateList`: the relay answers LIST, the frames cross, the peer parses. */
  function Fetch(users: seq<User>): Fetched {
    ReadList(ReplyRead(users))
  }

  /** What the peer reads of the answer to LIST, if it ever ends. */
  function ReplyRead(users: seq<User>): Option<string> {
    match RelayReply(users, "LIST")
    case None => None
    case Some(reply) => Transfer(reply)
  }

  function ReadList(read: Option<string>): Fetched {
    match read
    case None => Hung
    case Some(text) => AsFetched(ParseList(text))
  }

  lemma RelayListed(users: seq<User>)
    ensures RelayReply(users, "LIST") == Some(PrintList(users))
  {
    ShortTextCrosses("LIST");
    Registry.ListReplies(users, "", "");
  }

  /** The relay's answer is its printed vector. */
  lemma FetchReads(users: seq<User>)
    ensures Fetch(users) == ReadList(Transfer(PrintList(users)))
  {
    RelayListed(users);
  }

  /** A list whose LIST reply survives framing and parsing. */
  predicate Fetchable(users: seq<User>) {
    Printable(users) && Framed(PrintList(users))
  }

  /** The peer ends up with the relay's list exactly when that list can be
      printed and its text does not hit the framing edge. */
  lemma FetchExact(users: seq<User>)
    requires NulFree(PrintList(users))
    ensures Fetch(users) == Fetched(users) <==> Fetchable(users)
  {
    FetchReads(users);
    TransferExact(PrintList(users));
    DirectoryRoundTrip(users);
  }

  /** The peer waits for ever exactly when the text hits the framing edge. */
  lemma FetchHangs(users: seq<User>)
    requires NulFree(PrintList(users))
    ensures Fetch(users) == Hung <==> |PrintList(users)| % (CHUNK_SIZE - 1) == 0
  {
    FetchReads(users);
    TransferExact(PrintList(users));
  }

  /** With one peer registered, the sizes of its four fields decide. */
  lemma SingleEntryHangs(u: User)
    requires NulFree(PrintEntry(u))
    ensures Fetch([u]) == Hung <==> EntryLength(u) % (CHUNK_SIZE - 1) == 0
  {
    PrintListOfOne(u);
    PrintEntryLength(u);
    FetchHangs([u]);
  }

  /** Every printable entry that fills its frames, alone in the list: it would parse,
      and every peer that asks waits for ever. */
  lemma FullFrameListHangs(u: User)
    requires EntryPrintable(u) && u.publicKey != "" && EntryLength(u) % (CHUNK_SIZE - 1) == 0
    requires NulFree(u.hashId) && NulFree(u.ip) && NulFree(u.publicKey)
    ensures Printable([u]) && Fetch([u]) == Hung
  {
    PrintedEntryNulFree(u);
    SingleEntryHangs(u);
  }

  /** There are such entries. */
  lemma FullFrameEntry(key: string)
    requires |key| == 1017 && NulFree(key) && '#' !in key
    ensures var u := User("a", "h", 8, key);
            && EntryPrintable(u) && u.publicKey != "" && EntryLength(u) % (CHUNK_SIZE - 1) == 0
            && NulFree(u.hashId) && NulFree(u.ip) && NulFree(u.publicKey)
  {
    assert ToString(8) == "8";
    assert EntryLength(User("a", "h", 8, key)) == 1023;
  }

  // ---------- one layer ----------

  /** The stages a packet goes through, outermost first. */
  function Rank(text: string): (r: nat)
    ensures r <= 3
  {
    var segments := Split(text, '%');
    if segments == [] then 0
    else if segments[0] == "P1" then 3
    else if segments[0] == "P2" then 2
    else if segments[0] == "P3" then 1
    else 0
  }

  /** What `process` decides before any reply arrives: SIGFAULT; store and
      confirm; pass a packet on; nothing (an unknown tag); or an access past the
      fields that the packet has. */
  datatype Action =
    | Refuse
    | Accept(sender: User, message: string)
    | Forward(next: User, packet: string)
    | Ignore
    | Undefined

  predicate KeyMatches(c: Crypto, u: User) {
    c.Sha256(u.publicKey) == u.hashId
  }

  /** P1 and P2: one id to decrypt, a key to check, the rest to pass on. */
  function PeelHop(c: Crypto, key: PrivateKey, users: seq<User>, segments: seq<string>, site: Site,
                   inner: bool): Action
  {
    if |segments| < 2 then Undefined
    else
      match Lookup(users, Decrypt(c, key, segments[1], site.readings))
      case None => Refuse
      case Some(next) =>
        if !KeyMatches(c, next) then Refuse
        else if inner then
          if |segments| < 3 then Undefined else Forward(next, "P3%" + segments[2])
        else
          if |segments| < 4 then Undefined else Forward(next, "P2%" + segments[2] + "%" + segments[3])
  }

  /** P3: the receiver's id and the secret packet; no key check here. */
  function PeelLast(c: Crypto, key: PrivateKey, users: seq<User>, segments: seq<string>, site: Site): Action {
    if |segments| < 2 then Undefined
    else
      var blocks := Split(Decrypt(c, key, segments[1], site.readings), '%');
      if blocks == [] then Undefined
      else
        match Lookup(users, blocks[0])
        case None => Refuse
        case Some(receiver) =>
          if |blocks| < 2 then Undefined else Forward(receiver, "R%" + blocks[1])
  }

  /** R: sender, message, signature; the sender's listed key decides. */
  function PeelSecret(c: Crypto, key: PrivateKey, users: seq<User>, segments: seq<string>, site: Site): Action {
    if |segments| < 2 then Undefined
    else
      var blocks := Split(Decrypt(c, key, segments[1], site.readings), '%');
      if blocks == [] then Undefined
      else
        match Lookup(users, blocks[0])
        case None => Refuse
        case Some(sender) =>
          if |blocks| < 3 then Undefined
          else if Verify(c, blocks[1], blocks[2], sender.publicKey, site.check) then Accept(sender, blocks[1])
          else Refuse
  }

  function Peel(c: Crypto, key: PrivateKey, users: seq<User>, text: string, site: Site): Action {
    var segments := Split(text, '%');
    if segments == [] then Ignore
    else if segments[0] == "P1" then PeelHop(c, key, users, segments, site, false)
    else if segments[0] == "P2" then PeelHop(c, key, users, segments, site, true)
    else if segments[0] == "P3" then PeelLast(c, key, users, segments, site)
    else if segments[0] == "R" then PeelSecret(c, key, users, segments, site)
    else Ignore
  }

  /** An accepted message is a field of a decrypted text, its sender a listed user. */
  lemma AcceptedText(c: Crypto, key: PrivateKey, users: seq<User>, text: string, site: Site)
    ensures var a := Peel(c, key, users, text, site);
            a.Accept? ==> a.sender in users && '%' !in a.message && NulFree(a.message)
  {
    var segments := Split(text, '%');
    if |segments| > 1 {
      var secret := Decrypt(c, key, segments[1], site.readings);
      var blocks := Split(secret, '%');
      if |blocks| > 1 {
        FieldNulFree(secret, '%', 1);
        assert blocks[1] in blocks;
      }
    }
  }

  const SUCCESS := "SUCCESS"

  /** The tag a packet starts with decides its rank. */
  lemma RankOfTagged(tag: string, body: string)
    requires '%' !in tag
    ensures Split(tag + "%" + body, '%') == [tag] + Split(body, '%')
  {
    SplitCons(tag, '%', body);
  }

  lemma RankP2(a: string, b: string)
    ensures Rank("P2%" + a + "%" + b) == 2
  {
    RankOfTagged("P2", a + "%" + b);
    assert "P2%" + a + "%" + b == "P2" + "%" + (a + "%" + b);
  }

  lemma RankP3(a: string)
    ensures Rank("P3%" + a) == 1
  {
    RankOfTagged("P3", a);
    assert "P3%" + a == "P3" + "%" + a;
  }

  lemma RankR(a: string)
    ensures Rank("R%" + a) == 0
  {
    RankOfTagged("R", a);
    assert "R%" + a == "R" + "%" + a;
  }

  lemma FieldNulFree(text: string, d: char, i: nat)
    requires NulFree(text) && i < |Split(text, d)|
    ensures NulFree(Split(text, d)[i])
  {
    var field := Split(text, d)[i];
    assert field in Split(text, d);
  }

  lemma TaggedNulFree(tag: string, a: string)
    requires NulFree(tag) && NulFree(a)
    ensures NulFree(tag + a)
  {
  }

  lemma HopDescends(c: Crypto, key: PrivateKey, users: seq<User>, text: string, site: Site, inner: bool)
    requires NulFree(text)
    ensures var a := PeelHop(c, key, users, Split(text, '%'), site, inner);
            a.Forward? ==> NulFree(a.packet) && Rank(a.packet) == (if inner then 1 else 2)
  {
    var segments := Split(text, '%');
    if inner && |segments| > 2 {
      FieldNulFree(text, '%', 2);
      TaggedNulFree("P3%", segments[2]);
      RankP3(segments[2]);
    } else if !inner && |segments| > 3 {
      FieldNulFree(text, '%', 2);
      FieldNulFree(text, '%', 3);
      TaggedNulFree("P2%", segments[2]);
      TaggedNulFree("P2%" + segments[2], "%");
      TaggedNulFree("P2%" + segments[2] + "%", segments[3]);
      RankP2(segments[2], segments[3]);
    }
  }

  lemma LastDescends(c: Crypto, key: PrivateKey, users: seq<User>, text: string, site: Site)
    ensures var a := PeelLast(c, key, users, Split(text, '%'), site);
            a.Forward? ==> NulFree(a.packet) && Rank(a.packet) == 0
  {
    var segments := Split(text, '%');
    if |segments| > 1 {
      var section := Decrypt(c, key, segments[1], site.readings);
      if |Split(section, '%')| > 1 {
        FieldNulFree(section, '%', 1);
        RankR(Split(section, '%')[1]);
      }
    }
  }

  /** A forwarded packet is one stage further in and holds no NUL. */
  lemma ForwardDescends(c: Crypto, key: PrivateKey, users: seq<User>, text: string, site: Site)
    requires NulFree(text)
    ensures var a := Peel(c, key, users, text, site);
            a.Forward? ==> a.packet != "" && NulFree(a.packet) && Rank(a.packet) + 1 == Rank(text)
  {
    HopDescends(c, key, users, text, site, false);
    HopDescends(c, key, users, text, site, true);
    LastDescends(c, key, users, text, site);
  }

  lemma ShortTextCrosses(s: string)
    requires NulFree(s) && 0 < |s| < CHUNK_SIZE - 1
    ensures Transfer(s) == Some(s)
  {
    TransferExact(s);
  }

  /** Both replies fit one frame. */
  lemma RepliesCross()
    ensures Transfer(SUCCESS) == Some(SUCCESS) && Transfer(SIGFAULT) == Some(SIGFAULT)
  {
    ShortTextCrosses(SUCCESS);
    ShortTextCrosses(SIGFAULT);
  }

  // ---------- forming a packet ----------

  /** The random choices and over-reads of one `formPacketandSend`. */
  datatype Draws = Draws(hop1: nat, hop2: nat, hop3: nat, section1: nat -> Writing, section2: nat -> Writing,
                         section3: nat -> Writing, secret: nat -> Writing, signature: Writing)

  datatype Route = Route(receiver: User, peer1: User, peer2: User, peer3: User)

  function Choose(users: seq<User>, receiver: User, draws: Draws): Route
    requires users != []
  {
    Route(receiver, users[draws.hop1 % |users|], users[draws.hop2 % |users|], users[draws.hop3 % |users|])
  }

  /** Each hop is the entry that its own draw names. */
  lemma RouteDrawn(users: seq<User>, receiver: User, draws: Draws, h: nat, i: nat, j: nat)
    requires h < |users| && i < |users| && j < |users|
    requires draws.hop1 % |users| == h && draws.hop2 % |users| == i && draws.hop3 % |users| == j
    ensures Choose(users, receiver, draws) == Route(receiver, users[h], users[i], users[j])
  {
  }

  /** Draws can name any three entries, in any coincidence. */
  lemma AnyRouteDrawn(users: seq<User>, receiver: User, draws: Draws, h: nat, i: nat, j: nat)
    requires h < |users| && i < |users| && j < |users|
    ensures Choose(users, receiver, draws.(hop1 := h, hop2 := i, hop3 := j)) ==
            Route(receiver, users[h], users[i], users[j])
  {
    RouteDrawn(users, receiver, draws.(hop1 := h, hop2 := i, hop3 := j), h, i, j);
  }

  predicate RouteKeysMatch(c: Crypto, route: Route) {
    && KeyMatches(c, route.peer1) && KeyMatches(c, route.peer2)
    && KeyMatches(c, route.peer3) && KeyMatches(c, route.receiver)
  }

  function SecretText(c: Crypto, key: PrivateKey, message: string, draws: Draws): string {
    c.HashId(key) + "%" + message + "%" + Sign(c, key, message, draws.signature)
  }

  function SecretPacket(c: Crypto, key: PrivateKey, message: string, receiverKey: string, draws: Draws): string {
    Encrypt(c, SecretText(c, key, message, draws), receiverKey, draws.secret)
  }

  function Section1(c: Crypto, route: Route, draws: Draws): string {
    Encrypt(c, route.peer2.hashId, route.peer1.publicKey, draws.section1)
  }

  function Section2(c: Crypto, route: Route, draws: Draws): string {
    Encrypt(c, route.peer3.hashId, route.peer2.publicKey, draws.section2)
  }

  function Section3(c: Crypto, key: PrivateKey, receiverId: string, message: string, route: Route,
                    draws: Draws): string
  {
    Encrypt(c, receiverId + "%" + SecretPacket(c, key, message, route.receiver.publicKey, draws),
            route.peer3.publicKey, draws.section3)
  }

  function FormPacket(c: Crypto, key: PrivateKey, receiverId: string, message: string, route: Route,
                      draws: Draws): string
  {
    "P1%" + Section1(c, route, draws) + "%" + Section2(c, route, draws) + "%" +
    Section3(c, key, receiverId, message, route, draws)
  }

  lemma PacketIsNulFree(c: Crypto, key: PrivateKey, receiverId: string, message: string, route: Route, draws: Draws)
    ensures NulFree(FormPacket(c, key, receiverId, message, route, draws))
  {
    EncryptArmoured(c, route.peer2.hashId, route.peer1.publicKey, draws.section1);
    EncryptArmoured(c, route.peer3.hashId, route.peer2.publicKey, draws.section2);
    EncryptArmoured(c, receiverId + "%" + SecretPacket(c, key, message, route.receiver.publicKey, draws),
                    route.peer3.publicKey, draws.section3);
  }

  /** What `formPacketandSend` decides before it connects: nothing defined, for an
      unknown receiver or an empty list; give up on a key that does not hash to
      its id; or a packet for the first hop. */
  datatype Plan = NoPlan | BadKey | Packet(next: User, packet: string)

  function Form(c: Crypto, key: PrivateKey, users: seq<User>, receiverId: string, message: string, draws: Draws): Plan {
    match Lookup(users, receiverId)
    case None => NoPlan
    case Some(receiver) =>
      var route := Choose(users, receiver, draws);
      if !RouteKeysMatch(c, route) then BadKey
      else Packet(route.peer1, FormPacket(c, key, receiverId, message, route, draws))
  }

  lemma FormedIsNulFree(c: Crypto, key: PrivateKey, users: seq<User>, receiverId: string, message: string, draws: Draws)
    ensures var plan := Form(c, key, users, receiverId, message, draws);
            plan.Packet? ==> plan.packet != "" && NulFree(plan.packet)
  {
    match Lookup(users, receiverId)
    case None =>
    case Some(receiver) => PacketIsNulFree(c, key, receiverId, message, Choose(users, receiver, draws), draws);
  }
}
