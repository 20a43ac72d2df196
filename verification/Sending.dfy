/** `formPacketandSend` through the whole stack: the fate of every packed message
    in any surroundings, and all-or-nothing reporting. */
module Sending {
  import opened Text
  import opened Rsa
  import opened SslHandler
  import opened Framing
  import opened Directory
  import opened Onion
  import opened Stages
  import opened Transit
  import opened Delivery

  /** One message with everything the sender chose for it. */
  datatype Parcel = Parcel(key: PrivateKey, receiverId: string, message: string, route: Route, draws: Draws)

  function Signature(c: Crypto, p: Parcel): string {
    Sign(c, p.key, p.message, p.draws.signature)
  }

  function Secret(c: Crypto, p: Parcel): string {
    SecretPacket(c, p.key, p.message, p.route.receiver.publicKey, p.draws)
  }

  function S3(c: Crypto, p: Parcel): string {
    Section3(c, p.key, p.receiverId, p.message, p.route, p.draws)
  }

  function S2(c: Crypto, p: Parcel): string {
    Section2(c, p.route, p.draws)
  }

  function S1(c: Crypto, p: Parcel): string {
    Section1(c, p.route, p.draws)
  }

  /** What the first hop receives. */
  function Outermost(c: Crypto, p: Parcel): string {
    FormPacket(c, p.key, p.receiverId, p.message, p.route, p.draws)
  }

  /** The fields that the receiver finds: sender, text and signature where the
      message has no '%', else the pieces that it cuts the message into. */
  function Part(c: Crypto, p: Parcel, i: nat): string {
    var parts := Split(SecretText(c, p.key, p.message, p.draws), '%');
    if i < |parts| then parts[i] else ""
  }

  /** What the receiver takes for the message: all before its first '%'. */
  function Heard(c: Crypto, p: Parcel): string {
    Part(c, p, 1)
  }

  /** The four layers, the receiver's first. */
  function Layers(c: Crypto, env: Env, p: Parcel): (layers: seq<Layer>)
    ensures |layers| == 4
  {
    var r, p3, p2 := PacketR(Secret(c, p)), PacketP3(S3(c, p)), PacketP2(S2(c, p), S3(c, p));
    [Layer(p.receiverId, r, SecretAction(c, env(0).users, Part(c, p, 0), Part(c, p, 1), Part(c, p, 2), env(0))),
     Layer(p.route.peer3.hashId, p3, LastAction(env(1).users, p.receiverId, r)),
     Layer(p.route.peer2.hashId, p2, HopAction(c, env(2).users, p.route.peer3.hashId, p3)),
     Layer(p.route.peer1.hashId, Outermost(c, p), HopAction(c, env(3).users, p.route.peer2.hashId, p2))]
  }

  // ---------- what may and may not go wrong ----------

  /** Every LIST reply arrives and parses. */
  predicate ListsArrive(env: Env) {
    forall k: nat | k <= 4 :: Fetchable(env(k).users)
  }

  /** The sender's list arrives and parses; those that handlers meet do too, or
      make `stoi` throw. */
  predicate ListsEnd(env: Env) {
    Fetchable(env(4).users) && forall k: nat | k <= 3 :: Fetchable(env(k).users) || Fetch(env(k).users).Thrown?
  }

  /** Every address in a list that arrives refuses or leads to the peer with that id. */
  ghost predicate AddressesHonest(m: Machine, env: Env, net: Net) {
    forall k: nat, u: User | k <= 4 && u in env(k).users && Fetchable(env(k).users) :: Routed(m, env(k), u, net)
  }

  /** In the sender's list a key that hashes to its id is a 4096-bit key, and the
      key of every peer with that id. */
  ghost predicate KeysGenuine(c: Crypto, users: seq<User>, net: Net) {
    forall u: User | u in users && KeyMatches(c, u) ::
      c.Size(u.publicKey) == KEY_BYTES &&
      forall j | 0 <= j < |net| && c.HashId(net[j].key) == u.hashId :: c.PublicKey(net[j].key) == u.publicKey
  }

  /** Throwing lists, missing entries, mismatching keys, refused connections and any
      key in the receiver's list remain possible at every stage. */
  ghost predicate Surroundings(m: Machine, c: Crypto, env: Env, net: Net) {
    ListsEnd(env) && AddressesHonest(m, env, net) && KeysGenuine(c, env(4).users, net)
  }

  predicate RouteListed(users: seq<User>, route: Route) {
    route.receiver in users && route.peer1 in users && route.peer2 in users && route.peer3 in users
  }

  /** A parcel for a listed receiver over listed hops whose keys match their ids,
      with any message but one with a NUL. */
  ghost predicate Packed(c: Crypto, env: Env, p: Parcel) {
    && RouteListed(env(4).users, p.route) && RouteKeysMatch(c, p.route)
    && p.route.receiver.hashId == p.receiverId
    && NulFree(p.message) && ByteText(p.message)
  }

  // ---------- the four stages ----------

  lemma HashIsId(c: Crypto, s: string)
    requires c.Laws()
    ensures Id(c.Sha256(s))
  {
    HashHasNoNul(c, s);
  }

  lemma SectionsHold(c: Crypto, env: Env, net: Net, p: Parcel)
    requires c.Laws() && KeysGenuine(c, env(4).users, net) && Packed(c, env, p)
    ensures Section(S1(c, p)) && Section(S2(c, p)) && Section(S3(c, p)) && Section(Secret(c, p))
    ensures Id(p.route.peer1.hashId) && Id(p.route.peer2.hashId) && Id(p.route.peer3.hashId) && Id(p.receiverId)
    ensures Id(c.HashId(p.key)) && Id(Signature(c, p))
  {
    HashIsId(c, p.route.peer1.publicKey);
    HashIsId(c, p.route.peer2.publicKey);
    HashIsId(c, p.route.peer3.publicKey);
    HashIsId(c, p.route.receiver.publicKey);
    HashIsId(c, c.PublicKey(p.key));
    SignArmoured(c, p.key, p.message, p.draws.signature);
    EncryptIsSection(c, p.route.peer2.hashId, p.route.peer1.publicKey, p.draws.section1);
    EncryptIsSection(c, p.route.peer3.hashId, p.route.peer2.publicKey, p.draws.section2);
    EncryptIsSection(c, SecretText(c, p.key, p.message, p.draws), p.route.receiver.publicKey, p.draws.secret);
    EncryptIsSection(c, p.receiverId + "%" + Secret(c, p), p.route.peer3.publicKey, p.draws.section3);
  }

  /** The receiver always finds three fields, the first being the sender's id. */
  lemma PartsHold(c: Crypto, p: Parcel)
    requires c.Laws() && Id(c.HashId(p.key)) && Id(Signature(c, p))
    ensures var parts := SecretParts(c.HashId(p.key), p.message, Signature(c, p));
            Part(c, p, 0) == parts[0] == c.HashId(p.key) && Part(c, p, 1) == parts[1] && Part(c, p, 2) == parts[2]
    ensures Heard(c, p) == p.message[..Find(p.message, '%')]
    ensures '%' !in p.message ==> Heard(c, p) == p.message && Part(c, p, 2) == Signature(c, p)
  {
    ThreeParts(c.HashId(p.key), p.message, Signature(c, p));
    assert p.message[..|p.message|] == p.message;
  }

  lemma ListEndsOnMachine(m: Machine, c: Crypto, env: Env, k: nat)
    requires Runs(m, c) && (Fetchable(env(k).users) || Fetch(env(k).users).Thrown?)
    ensures ListEnds(m, env, k)
    ensures m.fetch(env(k).users).Fetched? ==> Fetchable(env(k).users) && ListAt(m, env, k) == env(k).users
  {
    assert Case(env(k).users);
    if Fetchable(env(k).users) {
      FetchExact(env(k).users);
    }
  }

  /** A stage whose peel is known, for the program's machine. */
  lemma StageFrom(m: Machine, c: Crypto, env: Env, net: Net, layers: seq<Layer>, k: nat, sid: string, message: string)
    requires Runs(m, c) && k < |layers| && (Fetchable(env(k).users) || Fetch(env(k).users).Thrown?)
    requires Framed(layers[k].text) && Rank(layers[k].text) == k
    requires forall j | 0 <= j < |net| && c.HashId(net[j].key) == layers[k].id ::
               Peel(c, net[j].key, env(k).users, layers[k].text, env(k)) == layers[k].action
    requires Fetchable(env(k).users) ==> ActionFits(m, env, net, layers, k, sid, message)
    ensures StageScripted(m, env, net, layers, k, sid, message)
  {
    var text := layers[k].text;
    assert Case(text);
    ListEndsOnMachine(m, c, env, k);
    TransferExact(text);
    forall j | 0 <= j < |net| && m.id(net[j].key) == layers[k].id
      ensures m.peel(net[j].key, env(k).users, text, env(k)) == layers[k].action
    {
      assert Case(net[j].key) && Case((net[j].key, env(k).users, text, env(k)));
    }
  }

  /** Every layer crosses its connection and arrives at its own stage. */
  lemma LayersCross(c: Crypto, env: Env, net: Net, p: Parcel, k: nat)
    requires c.Laws() && KeysGenuine(c, env(4).users, net) && Packed(c, env, p) && k < 4
    ensures Framed(Layers(c, env, p)[k].text) && Rank(Layers(c, env, p)[k].text) == k
  {
    SectionsHold(c, env, net, p);
    var s1, s2, s3, r := S1(c, p), S2(c, p), S3(c, p), Secret(c, p);
    PacketsArrive(s1, s2, s3, r);
    assert Layers(c, env, p)[k].text ==
           if k == 0 then PacketR(r) else if k == 1 then PacketP3(s3)
           else if k == 2 then PacketP2(s2, s3) else PacketP1(s1, s2, s3);
  }

  lemma PeelsR(c: Crypto, env: Env, net: Net, p: Parcel, key: PrivateKey)
    requires c.Laws() && KeysGenuine(c, env(4).users, net) && Packed(c, env, p)
    requires c.PublicKey(key) == p.route.receiver.publicKey
    ensures Peel(c, key, env(0).users, PacketR(Secret(c, p)), env(0)) ==
            SecretAction(c, env(0).users, Part(c, p, 0), Part(c, p, 1), Part(c, p, 2), env(0))
  {
    SectionsHold(c, env, net, p);
    PartsHold(c, p);
    PeelR(c, key, env(0).users, env(0), c.HashId(p.key), p.message, Signature(c, p), p.draws.secret);
  }

  lemma PeelsP3(c: Crypto, env: Env, net: Net, p: Parcel, key: PrivateKey)
    requires c.Laws() && KeysGenuine(c, env(4).users, net) && Packed(c, env, p)
    requires c.PublicKey(key) == p.route.peer3.publicKey
    ensures Peel(c, key, env(1).users, PacketP3(S3(c, p)), env(1)) ==
            LastAction(env(1).users, p.receiverId, PacketR(Secret(c, p)))
  {
    SectionsHold(c, env, net, p);
    PeelP3(c, key, env(1).users, env(1), p.receiverId, p.draws.section3, Secret(c, p));
  }

  lemma PeelsP2(c: Crypto, env: Env, net: Net, p: Parcel, key: PrivateKey)
    requires c.Laws() && KeysGenuine(c, env(4).users, net) && Packed(c, env, p)
    requires c.PublicKey(key) == p.route.peer2.publicKey
    ensures Peel(c, key, env(2).users, PacketP2(S2(c, p), S3(c, p)), env(2)) ==
            HopAction(c, env(2).users, p.route.peer3.hashId, PacketP3(S3(c, p)))
  {
    SectionsHold(c, env, net, p);
    PeelP2(c, key, env(2).users, env(2), p.route.peer3.hashId, p.draws.section2, S3(c, p));
  }

  lemma PeelsP1(c: Crypto, env: Env, net: Net, p: Parcel, key: PrivateKey)
    requires c.Laws() && KeysGenuine(c, env(4).users, net) && Packed(c, env, p)
    requires c.PublicKey(key) == p.route.peer1.publicKey
    ensures Peel(c, key, env(3).users, PacketP1(S1(c, p), S2(c, p), S3(c, p)), env(3)) ==
            HopAction(c, env(3).users, p.route.peer2.hashId, PacketP2(S2(c, p), S3(c, p)))
  {
    SectionsHold(c, env, net, p);
    PeelP1(c, key, env(3).users, env(3), p.route.peer2.hashId, p.draws.section1, S2(c, p), S3(c, p));
  }

  /** The peer a layer is for does with it what the layer says. */
  lemma LayerPeels(c: Crypto, env: Env, net: Net, p: Parcel, k: nat, j: nat)
    requires c.Laws() && KeysGenuine(c, env(4).users, net) && Packed(c, env, p)
    requires k < 4 && j < |net| && c.HashId(net[j].key) == Layers(c, env, p)[k].id
    ensures Peel(c, net[j].key, env(k).users, Layers(c, env, p)[k].text, env(k)) == Layers(c, env, p)[k].action
  {
    if k == 0 {
      PeelsR(c, env, net, p, net[j].key);
    } else if k == 1 {
      PeelsP3(c, env, net, p, net[j].key);
    } else if k == 2 {
      PeelsP2(c, env, net, p, net[j].key);
    } else {
      PeelsP1(c, env, net, p, net[j].key);
    }
  }

  /** What a hop does that looks up `next` and has `packet` to pass on. */
  function PassOn(c: Crypto, next: Option<User>, packet: string, checks: bool): Action {
    match next
    case None => Refuse
    case Some(u) => if checks && !KeyMatches(c, u) then Refuse else Forward(u, packet)
  }

  lemma LayerPassesOn(c: Crypto, env: Env, p: Parcel, k: nat)
    requires 1 <= k <= 3
    ensures var layers := Layers(c, env, p);
            layers[k].action == PassOn(c, Lookup(env(k).users, layers[k - 1].id), layers[k - 1].text, k > 1)
  {
  }

  lemma LayerIds(c: Crypto, env: Env, p: Parcel)
    ensures var layers := Layers(c, env, p);
            && layers[0].id == p.receiverId && layers[1].id == p.route.peer3.hashId
            && layers[2].id == p.route.peer2.hashId && layers[3].id == p.route.peer1.hashId
  {
  }

  /** A stage that forwards passes on the next layer, to the peer it is for. */
  lemma LayerForwards(c: Crypto, env: Env, p: Parcel, k: nat)
    requires k < 4
    ensures var layers, a := Layers(c, env, p), Layers(c, env, p)[k].action;
            if k == 0 then a == SecretAction(c, env(0).users, Part(c, p, 0), Part(c, p, 1), Part(c, p, 2), env(0))
            else a.Refuse? || (a.Forward? && a.packet == layers[k - 1].text && a.next.hashId == layers[k - 1].id &&
                               a.next in env(k).users)
  {
  }

  lemma LayerFits(m: Machine, c: Crypto, env: Env, net: Net, p: Parcel, k: nat)
    requires Surroundings(m, c, env, net) && k < 4 && Fetchable(env(k).users) && Part(c, p, 0) == c.HashId(p.key)
    ensures ActionFits(m, env, net, Layers(c, env, p), k, c.HashId(p.key), Heard(c, p))
  {
    LayerForwards(c, env, p, k);
  }

  lemma SenderNamed(c: Crypto, env: Env, net: Net, p: Parcel)
    requires c.Laws() && KeysGenuine(c, env(4).users, net) && Packed(c, env, p)
    ensures Part(c, p, 0) == c.HashId(p.key)
  {
    SectionsHold(c, env, net, p);
    PartsHold(c, p);
  }

  lemma LayerScripted(m: Machine, c: Crypto, env: Env, net: Net, p: Parcel, k: nat)
    requires Runs(m, c) && c.Laws() && Surroundings(m, c, env, net) && Packed(c, env, p) && k < 4
    ensures StageScripted(m, env, net, Layers(c, env, p), k, c.HashId(p.key), Heard(c, p))
  {
    var layers := Layers(c, env, p);
    forall j | 0 <= j < |net| && c.HashId(net[j].key) == layers[k].id
      ensures Peel(c, net[j].key, env(k).users, layers[k].text, env(k)) == layers[k].action
    {
      LayerPeels(c, env, net, p, k, j);
    }
    SenderNamed(c, env, net, p);
    LayersCross(c, env, net, p, k);
    if Fetchable(env(k).users) {
      LayerFits(m, c, env, net, p, k);
    }
    StageFrom(m, c, env, net, layers, k, c.HashId(p.key), Heard(c, p));
  }

  lemma ParcelScripted(m: Machine, c: Crypto, env: Env, net: Net, p: Parcel)
    requires Runs(m, c) && c.Laws() && Surroundings(m, c, env, net) && Packed(c, env, p)
    ensures Scripted(m, env, net, Layers(c, env, p), c.HashId(p.key), Heard(c, p))
  {
    forall k: nat | k < 4
      ensures StageScripted(m, env, net, Layers(c, env, p), k, c.HashId(p.key), Heard(c, p))
    {
      LayerScripted(m, c, env, net, p, k);
    }
  }

  // ---------- the fate of a send ----------

  /** The sender's record of what it sent. */
  function Record(sid: string, rid: string, message: string): seq<Message> {
    [Message(sid, rid, message)]
  }

  /** Every list after a delivered message: the receipt of what was heard at `r`,
      the record of the message at the sender, both for a peer that is both; nothing
      anywhere else. */
  ghost predicate ListsAfter(net: Net, after: Net, self: nat, r: nat, sid: string, rid: string, message: string,
                             heard: string) {
    && |after| == |net|
    && forall j | 0 <= j < |net| ::
         after[j].messages == net[j].messages + (if j == r then Receipt(sid, rid, heard) else [])
                                              + (if j == self then Record(sid, rid, message) else [])
  }

  ghost predicate Untouched(net: Net, after: Net) {
    |after| == |net| && forall j | 0 <= j < |net| :: after[j].messages == net[j].messages
  }

  /** Only the sender's record is new. */
  ghost predicate OnlyRecorded(net: Net, after: Net, self: nat, sid: string, rid: string, message: string) {
    && |after| == |net|
    && forall j | 0 <= j < |net| ::
         after[j].messages == net[j].messages + (if j == self then Record(sid, rid, message) else [])
  }

  /** What a send with a given fate returns, whether anybody accepted, and all the
      lists. The end of another peer's process reads as success. */
  ghost predicate Fared(m: Machine, net: Net, self: nat, s: SendRun, rid: string, message: string,
                        heard: string, fate: Fate)
    requires self < |net|
  {
    var sid := m.id(net[self].key);
    && (Accepted(s.visits) <==> fate.Got?)
    && match fate
       case Refused => s.result == Returned(true) && Untouched(net, s.net)
       case Got(r) =>
         && s.result == Returned(false) && r < |net| && m.id(net[r].key) == rid
         && ListsAfter(net, s.net, self, r, sid, rid, message, heard)
       case Died(at) =>
         if at == self then s.result == Exited && Untouched(net, s.net)
         else s.result == Returned(false) && OnlyRecorded(net, s.net, self, sid, rid, message)
  }

  lemma ReportFares(m: Machine, net: Net, here: Net, self: nat, rid: string, message: string, heard: string, d: Trip,
                    fate: Fate)
    requires self < |net| == |here| && SameKeys(net, here) && SameMessages(net, here, |net|)
    requires Settled(m, here, d, m.id(net[self].key), rid, heard, fate) && !d.outcome.Ended?
    ensures Fared(m, net, self, Report(m, self, rid, message, d), rid, message, heard, fate)
  {
    if fate.Got? {
      var s := Report(m, self, rid, message, d);
      assert m.id(net[fate.at].key) == rid;
      assert ListsAfter(net, s.net, self, fate.at, m.id(net[self].key), rid, message, heard);
    }
  }

  /** The fate of a parcel, from keys, lists and listeners alone. */
  function ParcelFate(m: Machine, c: Crypto, env: Env, peers: nat, p: Parcel): Fate {
    if !RouteKeysMatch(c, p.route) then Refused
    else FateAt(m, env, Layers(c, env, p), peers, 3, Listener(env(4), p.route.peer1, peers))
  }

  /** Whether a parcel gets through: the keys match, the first hop answers, and
      every stage opens. */
  predicate GetsThrough(c: Crypto, env: Env, peers: nat, p: Parcel) {
    && RouteKeysMatch(c, p.route) && Listener(env(4), p.route.peer1, peers).Some?
    && Opens(env, Layers(c, env, p), peers, 3)
  }

  lemma ParcelSettles(m: Machine, c: Crypto, env: Env, net: Net, p: Parcel)
    requires Runs(m, c) && m.Lawful() && c.Laws() && Surroundings(m, c, env, net) && Packed(c, env, p)
    requires NulFree(Outermost(c, p))
    ensures var d := Deliver(m, env, net, env(4), p.route.peer1, Outermost(c, p));
            && Settled(m, net, d, c.HashId(p.key), p.receiverId, Heard(c, p), ParcelFate(m, c, env, |net|, p))
            && !d.outcome.Ended?
  {
    ParcelScripted(m, c, env, net, p);
    DeliverLayer(m, env, net, Layers(c, env, p), 3, env(4), p.route.peer1, c.HashId(p.key), Heard(c, p));
  }

  function ParcelOf(users: seq<User>, key: PrivateKey, receiverId: string, message: string, draws: Draws): Parcel
    requires Lookup(users, receiverId).Some?
  {
    Parcel(key, receiverId, message, Choose(users, Lookup(users, receiverId).value, draws), draws)
  }

  lemma FormedIsOutermost(c: Crypto, users: seq<User>, key: PrivateKey, receiverId: string, message: string,
                          draws: Draws)
    requires Lookup(users, receiverId).Some?
    ensures var p := ParcelOf(users, key, receiverId, message, draws);
            Form(c, key, users, receiverId, message, draws) ==
            if RouteKeysMatch(c, p.route) then Packet(p.route.peer1, Outermost(c, p)) else BadKey
  {
  }

  lemma ProgramForms(m: Machine, c: Crypto, users: seq<User>, key: PrivateKey, receiverId: string, message: string,
                     draws: Draws)
    requires Runs(m, c) && Lookup(users, receiverId).Some?
    ensures var p := ParcelOf(users, key, receiverId, message, draws);
            m.form(key, users, receiverId, message, draws) ==
            if RouteKeysMatch(c, p.route) then Packet(p.route.peer1, Outermost(c, p)) else BadKey
  {
    assert Case((key, users, receiverId, message, draws));
    FormedIsOutermost(c, users, key, receiverId, message, draws);
  }

  /** A send whose list arrived and whose packet settles fares like the packet. */
  lemma SendFares(m: Machine, env: Env, net: Net, self: nat, rid: string, message: string, heard: string, draws: Draws,
                  users: seq<User>, next: User, packet: string, fate: Fate)
    requires m.Lawful() && self < |net| && NulFree(packet) && m.fetch(env(4).users) == Fetched(users)
    requires m.form(net[self].key, users, rid, message, draws) == Packet(next, packet)
    requires var here := WithList(net, self, users);
             var d := Deliver(m, env, here, env(4), next, packet);
             Settled(m, here, d, m.id(net[self].key), rid, heard, fate) && !d.outcome.Ended?
    ensures Fared(m, net, self, Send(m, env, net, self, rid, message, draws), rid, message, heard, fate)
  {
    var here := WithList(net, self, users);
    ReportFares(m, net, here, self, rid, message, heard, Deliver(m, env, here, env(4), next, packet), fate);
  }

  lemma SendGivesUp(m: Machine, env: Env, net: Net, self: nat, rid: string, message: string, heard: string,
                    draws: Draws, users: seq<User>)
    requires m.Lawful() && self < |net| && m.fetch(env(4).users) == Fetched(users)
    requires m.form(net[self].key, users, rid, message, draws) == BadKey
    ensures Fared(m, net, self, Send(m, env, net, self, rid, message, draws), rid, message, heard, Refused)
  {
  }

  lemma SurroundingsKeep(m: Machine, c: Crypto, env: Env, net: Net, after: Net)
    requires Surroundings(m, c, env, net) && SameKeys(net, after)
    ensures Surroundings(m, c, env, after)
  {
    forall k: nat, u: User | k <= 4 && u in env(k).users && Fetchable(env(k).users)
      ensures Routed(m, env(k), u, after)
    {
      assert Routed(m, env(k), u, net);
    }
  }

  lemma ParcelIsPacked(c: Crypto, env: Env, key: PrivateKey, receiverId: string, message: string, draws: Draws)
    requires Lookup(env(4).users, receiverId).Some? && NulFree(message) && ByteText(message)
    ensures var p := ParcelOf(env(4).users, key, receiverId, message, draws);
            RouteKeysMatch(c, p.route) ==> Packed(c, env, p)
  {
  }

  /** The delivery as it starts, with the sender's list refreshed. */
  lemma RefreshedSettles(m: Machine, c: Crypto, env: Env, net: Net, self: nat, p: Parcel)
    requires Runs(m, c) && m.Lawful() && c.Laws() && self < |net| && net[self].key == p.key
    requires Surroundings(m, c, env, net) && Packed(c, env, p) && NulFree(Outermost(c, p))
    ensures var here := WithList(net, self, env(4).users);
            var d := Deliver(m, env, here, env(4), p.route.peer1, Outermost(c, p));
            && Settled(m, here, d, m.id(p.key), p.receiverId, Heard(c, p), ParcelFate(m, c, env, |net|, p))
            && !d.outcome.Ended?
  {
    var here := WithList(net, self, env(4).users);
    SurroundingsKeep(m, c, env, net, here);
    ParcelSettles(m, c, env, here, p);
    IdOf(m, c, p.key);
  }

  lemma ParcelFares(m: Machine, c: Crypto, env: Env, net: Net, self: nat, p: Parcel)
    requires Runs(m, c) && m.Lawful() && c.Laws() && self < |net| && net[self].key == p.key
    requires Surroundings(m, c, env, net) && Packed(c, env, p)
    requires m.form(p.key, env(4).users, p.receiverId, p.message, p.draws) == Packet(p.route.peer1, Outermost(c, p))
    ensures Fared(m, net, self, Send(m, env, net, self, p.receiverId, p.message, p.draws), p.receiverId, p.message,
                  Heard(c, p), ParcelFate(m, c, env, |net|, p))
  {
    PacketIsNulFree(c, p.key, p.receiverId, p.message, p.route, p.draws);
    RefreshedSettles(m, c, env, net, self, p);
    ListFetched(m, c, env(4).users);
    SendFares(m, env, net, self, p.receiverId, p.message, Heard(c, p), p.draws, env(4).users, p.route.peer1,
              Outermost(c, p), ParcelFate(m, c, env, |net|, p));
  }

  lemma IdOf(m: Machine, c: Crypto, key: PrivateKey)
    requires Runs(m, c)
    ensures m.id(key) == c.HashId(key)
  {
    assert Case(key);
  }

  lemma ListFetched(m: Machine, c: Crypto, users: seq<User>)
    requires Runs(m, c) && Fetchable(users)
    ensures m.fetch(users) == Fetched(users)
  {
    assert Case(users);
    FetchExact(users);
  }

  /** With lists that throw, entries, keys and listeners failing at any stage in any
      way short of leading astray, a listed receiver and any message without a NUL:
      the send ends as the parcel's fate says, which can be told from lists, keys
      and listeners beforehand; what a receiver stores is the message up to its
      first '%'. */
  lemma SendHasFate(m: Machine, c: Crypto, env: Env, net: Net, self: nat, receiverId: string, message: string,
                    draws: Draws)
    requires Runs(m, c) && c.Laws() && self < |net|
    requires Surroundings(m, c, env, net) && Lookup(env(4).users, receiverId).Some?
    requires NulFree(message) && ByteText(message)
    ensures m.Lawful()
    ensures var p := ParcelOf(env(4).users, net[self].key, receiverId, message, draws);
            Fared(m, net, self, Send(m, env, net, self, receiverId, message, draws), receiverId, message,
                  message[..Find(message, '%')], ParcelFate(m, c, env, |net|, p))
  {
    var users := env(4).users;
    var p := ParcelOf(users, net[self].key, receiverId, message, draws);
    ProgramIsLawful(m, c);
    HeardIsCut(c, p);
    ProgramForms(m, c, users, net[self].key, receiverId, message, draws);
    if RouteKeysMatch(c, p.route) {
      ParcelIsPacked(c, env, net[self].key, receiverId, message, draws);
      ParcelFares(m, c, env, net, self, p);
    } else {
      ListFetched(m, c, users);
      SendGivesUp(m, env, net, self, receiverId, message, Heard(c, p), draws, users);
    }
  }

  lemma HeardIsCut(c: Crypto, p: Parcel)
    requires c.Laws()
    ensures Heard(c, p) == p.message[..Find(p.message, '%')]
  {
    HashIsId(c, c.PublicKey(p.key));
    SignArmoured(c, p.key, p.message, p.draws.signature);
    PartsHold(c, p);
  }

  /** Such a send returns 0 without an acceptance exactly when its fate is the end
      of another peer's process. */
  lemma FalseZeroExactly(m: Machine, c: Crypto, env: Env, net: Net, self: nat, receiverId: string, message: string,
                         draws: Draws)
    requires Runs(m, c) && c.Laws() && self < |net|
    requires Surroundings(m, c, env, net) && Lookup(env(4).users, receiverId).Some?
    requires NulFree(message) && ByteText(message)
    ensures m.Lawful()
    ensures var s := Send(m, env, net, self, receiverId, message, draws);
            var fate := ParcelFate(m, c, env, |net|, ParcelOf(env(4).users, net[self].key, receiverId, message, draws));
            s.result == Returned(false) && !Accepted(s.visits) <==> fate.Died? && fate.at != self
  {
    SendHasFate(m, c, env, net, self, receiverId, message, draws);
  }

  // ---------- all or nothing ----------

  /** A send that was told the truth: what it returns, who accepted, all the lists. */
  ghost predicate Reported(m: Machine, net: Net, self: nat, s: SendRun, rid: string, message: string, open: bool)
    requires self < |net|
  {
    var sid := m.id(net[self].key);
    && s.result == Returned(!open)
    && (Accepted(s.visits) <==> open)
    && (!open ==> Untouched(net, s.net))
    && (open ==> exists r :: 0 <= r < |net| && m.id(net[r].key) == rid &&
                             ListsAfter(net, s.net, self, r, sid, rid, message, message))
  }

  lemma ParcelFateOpens(m: Machine, c: Crypto, env: Env, peers: nat, p: Parcel)
    requires Runs(m, c) && ListsArrive(env)
    ensures var fate := ParcelFate(m, c, env, peers, p);
            !fate.Died? && (fate.Got? <==> GetsThrough(c, env, peers, p))
  {
    forall k: nat | k <= 3
      ensures !m.fetch(env(k).users).Thrown?
    {
      ListFetched(m, c, env(k).users);
    }
    var to := Listener(env(4), p.route.peer1, peers);
    if to.Some? {
      FateOpens(m, env, Layers(c, env, p), peers, 3, to.value);
    }
  }

  lemma HeardWhole(message: string)
    requires '%' !in message
    ensures message[..Find(message, '%')] == message
  {
    assert message[..|message|] == message;
  }

  lemma FaredReported(m: Machine, net: Net, self: nat, s: SendRun, rid: string, message: string, fate: Fate)
    requires self < |net| && Fared(m, net, self, s, rid, message, message, fate) && !fate.Died?
    ensures Reported(m, net, self, s, rid, message, fate.Got?)
  {
  }

  /** Where every list arrives: the send returns; it returns 0 exactly when the
      receiver accepted the signature, which is exactly when every stage of the
      route opens; and when it returns 1, no message list anywhere has changed. */
  lemma AllOrNothing(m: Machine, c: Crypto, env: Env, net: Net, self: nat, receiverId: string, message: string,
                     draws: Draws)
    requires Runs(m, c) && c.Laws() && self < |net|
    requires Surroundings(m, c, env, net) && ListsArrive(env) && Lookup(env(4).users, receiverId).Some?
    requires Unseparated(message) && ByteText(message)
    ensures m.Lawful()
    ensures var p := ParcelOf(env(4).users, net[self].key, receiverId, message, draws);
            Reported(m, net, self, Send(m, env, net, self, receiverId, message, draws), receiverId, message,
                     GetsThrough(c, env, |net|, p))
  {
    var p := ParcelOf(env(4).users, net[self].key, receiverId, message, draws);
    SendHasFate(m, c, env, net, self, receiverId, message, draws);
    HeardWhole(message);
    ParcelFateOpens(m, c, env, |net|, p);
    FaredReported(m, net, self, Send(m, env, net, self, receiverId, message, draws), receiverId, message,
                  ParcelFate(m, c, env, |net|, p));
  }
}
