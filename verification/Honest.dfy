/** One honest directory and every peer reachable: exact end-to-end delivery. */
module Honest {
  import opened Text
  import opened Rsa
  import opened SslHandler
  import opened Directory
  import opened Onion
  import opened Stages
  import opened Transit
  import opened Delivery
  import opened Sending

  /** Every entry carries the 4096-bit key of the peers with its id. */
  ghost predicate HonestList(c: Crypto, net: Net, users: seq<User>) {
    && (forall u: User | u in users :: KeyMatches(c, u) && c.Size(u.publicKey) == KEY_BYTES)
    && (forall u: User, j | u in users && 0 <= j < |net| && c.HashId(net[j].key) == u.hashId ::
          c.PublicKey(net[j].key) == u.publicKey)
  }

  /** At the ip and port of an entry, a peer with its id accepts connections. */
  ghost predicate Answers(c: Crypto, site: Site, net: Net, u: User) {
    && 0 <= u.port < 65536
    && exists j :: 0 <= j < |net| && site.listening(u.ip, u.port) == Some(j) && c.HashId(net[j].key) == u.hashId
  }

  /** At every stage the relay answers with this list, and everybody listed answers. */
  ghost predicate Reachable(c: Crypto, env: Env, net: Net, users: seq<User>) {
    && (forall k: nat | k <= 4 :: env(k).users == users)
    && (forall k: nat, u: User | k <= 4 && u in users :: Answers(c, env(k), net, u))
  }

  /** One honest list whose reply arrives, and every peer reachable. */
  ghost predicate HonestDirectory(c: Crypto, env: Env, net: Net, users: seq<User>) {
    Fetchable(users) && HonestList(c, net, users) && Reachable(c, env, net, users)
  }

  // ---------- such a directory exists ----------

  function ToyUser(key: PrivateKey): User {
    var c := PlainCrypto();
    User(c.HashId(key), if key == 0 then "h" else "i", if key == 0 then 8 else 9, c.PublicKey(key))
  }

  function ToyDirectory(): seq<User> { [ToyUser(0), ToyUser(1)] }

  function ToyNet(): Net { [Peer(0, [], []), Peer(1, [], [])] }

  function ToyListening(ip: string, port: nat): Option<nat> {
    if ip == "h" && port == 8 then Some(0) else if ip == "i" && port == 9 then Some(1) else None
  }

  function ToyEnv(reading: Reading): Env {
    k => Site(ToyDirectory(), ToyListening, i => reading, reading)
  }

  lemma JoinCons(f: string, rest: seq<string>)
    requires rest != []
    ensures Join([f] + rest, '#') == f + "#" + Join(rest, '#')
  {
    assert ([f] + rest)[1..] == rest;
  }

  lemma JoinFour(a: string, b: string, d: string, e: string, rest: seq<string>)
    requires rest != []
    ensures Join([a, b, d, e] + rest, '#') == a + "#" + (b + "#" + (d + "#" + (e + "#" + Join(rest, '#'))))
  {
    JoinCons(e, rest);
    JoinCons(d, [e] + rest);
    JoinCons(b, [d] + ([e] + rest));
    JoinCons(a, [b] + ([d] + ([e] + rest)));
    assert [a] + ([b] + ([d] + ([e] + rest))) == [a, b, d, e] + rest;
  }

  lemma JoinLastFour(a: string, b: string, d: string, e: string)
    ensures Join([a, b, d, e], '#') == a + "#" + (b + "#" + (d + "#" + e))
  {
    JoinCons(d, [e]);
    JoinCons(b, [d, e]);
    JoinCons(a, [b, d, e]);
    assert [d] + [e] == [d, e] && [b] + [d, e] == [b, d, e] && [a] + [b, d, e] == [a, b, d, e];
  }

  lemma FieldsOfTwo(a: User, b: User)
    ensures Fields([a, b]) == EntryFields(a) + EntryFields(b)
  {
    assert [a, b][1..] == [b] && [b][1..] == [];
    assert Fields([b]) == EntryFields(b) + Fields([]);
  }

  /** A printed list of two entries with one-digit ports. */
  lemma TwoArrive(a: User, b: User)
    requires EntryPrintable(a) && EntryPrintable(b) && b.publicKey != ""
    requires forall u <- [a, b] :: NulFree(u.hashId) && NulFree(u.ip) && NulFree(u.publicKey) && 0 <= u.port < 10
    requires |a.hashId| + |a.ip| + |a.publicKey| + |b.hashId| + |b.ip| + |b.publicKey| < 1000
    ensures Fetchable([a, b])
  {
    var p, q := ToString(a.port), ToString(b.port);
    assert a in [a, b] && b in [a, b];
    assert p == [DigitOf(a.port)] && q == [DigitOf(b.port)];
    FieldsOfTwo(a, b);
    JoinLastFour(b.hashId, b.ip, q, b.publicKey);
    JoinFour(a.hashId, a.ip, p, a.publicKey, [b.hashId, b.ip, q, b.publicKey]);
    var text := PrintList([a, b]);
    assert text ==
           a.hashId + "#" + (a.ip + "#" + (p + "#" + (a.publicKey + "#" +
           (b.hashId + "#" + (b.ip + "#" + (q + "#" + b.publicKey))))));
    assert 0 < |text| < 1023;
    assert NulFree(p) && NulFree(q);
  }

  lemma ToyUsers()
    ensures forall u <- ToyDirectory() ::
              EntryPrintable(u) && NulFree(u.hashId) && NulFree(u.ip) && NulFree(u.publicKey)
    ensures forall u <- ToyDirectory() :: |u.hashId| == 64 && |u.ip| == 1 && |u.publicKey| == 4
    ensures ToyUser(0).hashId != ToyUser(1).hashId
  {
    assert ToyUser(0).hashId[0] == '0' && ToyUser(1).hashId[0] == '1';
  }

  lemma ToyAddresses(c: Crypto, reading: Reading, k: nat, u: User)
    requires c == PlainCrypto() && u in ToyDirectory()
    ensures Answers(c, ToyEnv(reading)(k), ToyNet(), u)
  {
    var j := if u == ToyUser(0) then 0 else 1;
    assert ToyEnv(reading)(k).listening(u.ip, u.port) == Some(j);
    assert ToyNet()[j].key == j;
  }

  lemma ToyKeys(u: User, key: PrivateKey)
    requires u in ToyDirectory() && key <= 1
    ensures KeyMatches(PlainCrypto(), u) && PlainCrypto().Size(u.publicKey) == KEY_BYTES
    ensures PlainCrypto().HashId(key) == u.hashId ==> PlainCrypto().PublicKey(key) == u.publicKey
  {
    ToyUsers();
  }

  lemma ToyKeysMatch(net: Net, users: seq<User>)
    requires net == ToyNet() && users == ToyDirectory()
    ensures forall u: User | u in users :: KeyMatches(PlainCrypto(), u) && PlainCrypto().Size(u.publicKey) == KEY_BYTES
    ensures forall u: User, j | u in users && 0 <= j < |net| && PlainCrypto().HashId(net[j].key) == u.hashId ::
              PlainCrypto().PublicKey(net[j].key) == u.publicKey
  {
    forall u: User | u in users
      ensures KeyMatches(PlainCrypto(), u) && PlainCrypto().Size(u.publicKey) == KEY_BYTES
    {
      ToyKeys(u, 0);
    }
    forall u: User, j | u in users && 0 <= j < |net| && PlainCrypto().HashId(net[j].key) == u.hashId
      ensures PlainCrypto().PublicKey(net[j].key) == u.publicKey
    {
      ToyKeys(u, net[j].key);
    }
  }

  lemma ToyReachable(c: Crypto, reading: Reading)
    requires c == PlainCrypto()
    ensures forall k: nat, u: User | k <= 4 && u in ToyDirectory() :: Answers(c, ToyEnv(reading)(k), ToyNet(), u)
  {
    forall k: nat, u: User | k <= 4 && u in ToyDirectory()
      ensures Answers(c, ToyEnv(reading)(k), ToyNet(), u)
    {
      ToyAddresses(c, reading, k, u);
    }
  }

  lemma ToyIsHonest(c: Crypto, net: Net, users: seq<User>)
    requires c == PlainCrypto() && net == ToyNet() && users == ToyDirectory()
    ensures HonestList(c, net, users)
  {
    ToyKeysMatch(net, users);
  }

  lemma ToyIsReachable(c: Crypto, reading: Reading, env: Env, net: Net, users: seq<User>)
    requires c == PlainCrypto() && env == ToyEnv(reading) && net == ToyNet() && users == ToyDirectory()
    ensures Reachable(c, env, net, users)
  {
    ToyReachable(c, reading);
  }

  lemma ToyNames(c: Crypto, net: Net, users: seq<User>)
    requires c == PlainCrypto() && net == ToyNet() && users == ToyDirectory()
    ensures c.Laws() && |users| == |net| == 2
    ensures users[0].hashId == c.HashId(net[0].key) != users[1].hashId == c.HashId(net[1].key)
  {
    LawsAreSatisfiable();
    assert c.HashId(0)[0] == '0' && c.HashId(1)[0] == '1';
  }

  /** The assumptions of this module can be met, by two peers with different ids. */
  lemma HonestDirectoryExists(c: Crypto, reading: Reading, env: Env, net: Net, users: seq<User>)
    requires c == PlainCrypto()
    requires env == ToyEnv(reading) && net == ToyNet() && users == ToyDirectory()
    ensures c.Laws() && HonestDirectory(c, env, net, users) && |users| == |net| == 2
    ensures users[0].hashId == c.HashId(net[0].key) != users[1].hashId == c.HashId(net[1].key)
  {
    ToyNames(c, net, users);
    ToyArrives(users);
    ToyIsHonest(c, net, users);
    ToyIsReachable(c, reading, env, net, users);
  }

  lemma ToyArrives(users: seq<User>)
    requires users == ToyDirectory()
    ensures Fetchable(users)
  {
    ToyUsers();
    TwoArrive(ToyUser(0), ToyUser(1));
  }

  lemma ToyEntries(c: Crypto, users: seq<User>)
    requires c == PlainCrypto() && users == ToyDirectory()
    ensures forall u <- users :: KeyMatches(c, u)
    ensures Lookup(users, c.HashId(0)) == Some(ToyUser(0)) && Lookup(users, c.HashId(1)).Some?
    ensures ToyUser(0).hashId == c.HashId(0) && ToyUser(0).publicKey == c.PublicKey(0)
  {
    ToyKeysMatch(ToyNet(), users);
  }

  lemma ToyIdsApart(c: Crypto)
    requires c == PlainCrypto()
    ensures c.Laws() && Id(c.HashId(0)) && c.HashId(0) != c.HashId(2) && c.HashId(1) != c.HashId(2)
  {
    LawsAreSatisfiable();
    HashHasNoNul(c, c.PublicKey(0));
    assert c.HashId(0)[0] == '0' && c.HashId(1)[0] == '1' && c.HashId(2)[0] == '2';
  }

  lemma ToyIds(m: Machine, c: Crypto, net: Net)
    requires c == PlainCrypto() && Runs(m, c) && net == ToyNet()
    ensures |net| == 2 && m.id(net[0].key) == c.HashId(0) && m.id(net[1].key) == c.HashId(1)
    ensures c.PublicKey(net[1].key) == c.PublicKey(1)
    ensures net[0].messages == [] && net[1].messages == []
  {
    IdOf(m, c, 0);
    IdOf(m, c, 1);
  }

  // ---------- delivery ----------

  lemma AnswersRoutes(m: Machine, c: Crypto, site: Site, net: Net, u: User)
    requires Runs(m, c) && Answers(c, site, net, u)
    ensures Listener(site, u, |net|).Some? && Routed(m, site, u, net)
  {
    var j :| 0 <= j < |net| && site.listening(u.ip, u.port) == Some(j) && c.HashId(net[j].key) == u.hashId;
    SamePort(u.port, u.port);
    IdOf(m, c, net[j].key);
  }

  lemma HonestSurroundings(m: Machine, c: Crypto, env: Env, net: Net, users: seq<User>)
    requires Runs(m, c) && HonestDirectory(c, env, net, users)
    ensures Surroundings(m, c, env, net) && ListsArrive(env)
    ensures forall k: nat, u: User | k <= 4 && u in users :: Listener(env(k), u, |net|).Some?
  {
    forall k: nat, u: User | k <= 4 && u in users
      ensures Listener(env(k), u, |net|).Some? && Routed(m, env(k), u, net)
    {
      AnswersRoutes(m, c, env(k), net, u);
    }
  }

  /** The receiver's list holds the sender's key: the signature field decides. */
  lemma SecretDecides(c: Crypto, env: Env, net: Net, users: seq<User>, self: nat, p: Parcel)
    requires HonestList(c, net, users) && Part(c, p, 0) == c.HashId(p.key)
    requires self < |net| && p.key == net[self].key && Lookup(users, c.HashId(p.key)).Some?
    ensures var a := SecretAction(c, users, Part(c, p, 0), Part(c, p, 1), Part(c, p, 2), env(0));
            if Verify(c, Heard(c, p), Part(c, p, 2), c.PublicKey(p.key), env(0).check) then a.Accept? else a.Refuse?
  {
    var u := Lookup(users, c.HashId(p.key)).value;
    assert u in users;
  }

  lemma ListedPassesOn(c: Crypto, net: Net, users: seq<User>, id: string, packet: string, checks: bool)
    requires HonestList(c, net, users) && exists u <- users :: u.hashId == id
    ensures var a := PassOn(c, Lookup(users, id), packet, checks); a.Forward? && a.next in users
  {
    assert Lookup(users, id).Some?;
  }

  lemma OpensTo(env: Env, layers: seq<Layer>, peers: nat)
    requires |layers| == 4
    requires forall k | 1 <= k <= 3 ::
               layers[k].action.Forward? && Listener(env(k), layers[k].action.next, peers).Some?
    requires layers[0].action.Accept? || layers[0].action.Refuse?
    ensures Opens(env, layers, peers, 3) <==> layers[0].action.Accept?
  {
    assert Opens(env, layers, peers, 1) <==> Opens(env, layers, peers, 0);
    assert Opens(env, layers, peers, 2) <==> Opens(env, layers, peers, 1);
  }

  /** The peer that stage `k` looks up is listed. */
  lemma NextIsListed(c: Crypto, env: Env, users: seq<User>, p: Parcel, k: nat)
    requires RouteListed(users, p.route) && p.route.receiver.hashId == p.receiverId && 1 <= k <= 3
    ensures exists u <- users :: u.hashId == Layers(c, env, p)[k - 1].id
  {
    LayerIds(c, env, p);
    assert p.route.receiver in users && p.route.peer3 in users && p.route.peer2 in users;
  }

  lemma HonestLayers(c: Crypto, env: Env, net: Net, users: seq<User>, p: Parcel, k: nat)
    requires HonestList(c, net, users) && env(k).users == users && RouteListed(users, p.route) && 1 <= k <= 3
    requires p.route.receiver.hashId == p.receiverId
    ensures var a := Layers(c, env, p)[k].action; a.Forward? && a.next in users
  {
    LayerPassesOn(c, env, p, k);
    NextIsListed(c, env, users, p, k);
    ListedPassesOn(c, net, users, Layers(c, env, p)[k - 1].id, Layers(c, env, p)[k - 1].text, k > 1);
  }

  /** Every hop passes on, whichever the sender drew, itself and the receiver
      included: what the receiver finds for a signature decides. */
  lemma HonestGetsThrough(m: Machine, c: Crypto, env: Env, net: Net, users: seq<User>, self: nat, p: Parcel)
    requires Runs(m, c) && c.Laws() && HonestDirectory(c, env, net, users)
    requires self < |net| && p.key == net[self].key && Lookup(users, c.HashId(p.key)).Some?
    requires RouteListed(users, p.route) && p.route.receiver.hashId == p.receiverId && Part(c, p, 0) == c.HashId(p.key)
    ensures GetsThrough(c, env, |net|, p) <==>
            Verify(c, Heard(c, p), Part(c, p, 2), c.PublicKey(p.key), env(0).check)
  {
    var layers := Layers(c, env, p);
    HonestSurroundings(m, c, env, net, users);
    assert env(0).users == users;
    SecretDecides(c, env, net, users, self, p);
    forall k | 1 <= k <= 3
      ensures layers[k].action.Forward? && Listener(env(k), layers[k].action.next, |net|).Some?
    {
      HonestLayers(c, env, net, users, p, k);
    }
    OpensTo(env, layers, |net|);
  }

  lemma PartsOf(c: Crypto, p: Parcel)
    requires c.Laws()
    ensures Part(c, p, 0) == c.HashId(p.key) && Heard(c, p) == p.message[..Find(p.message, '%')]
    ensures '%' !in p.message ==> Heard(c, p) == p.message && Part(c, p, 2) == Signature(c, p)
  {
    HashIsId(c, c.PublicKey(p.key));
    SignArmoured(c, p.key, p.message, p.draws.signature);
    PartsHold(c, p);
  }

  lemma FaredHonest(m: Machine, c: Crypto, net: Net, self: nat, s: SendRun, rid: string, message: string,
                    heard: string, fate: Fate)
    requires Runs(m, c) && self < |net| && Fared(m, net, self, s, rid, message, heard, fate) && !fate.Died?
    ensures if fate.Got? then
              && s.result == Returned(false)
              && exists r :: 0 <= r < |net| && c.HashId(net[r].key) == rid &&
                             ListsAfter(net, s.net, self, r, c.HashId(net[self].key), rid, message, heard)
            else
              s.result == Returned(true) && Untouched(net, s.net)
  {
    IdOf(m, c, net[self].key);
    if fate.Got? {
      IdOf(m, c, net[fate.at].key);
    }
  }

  /** Every message without a NUL, over every draw of hops: the send returns 0
      exactly when what stands up to the first '%' verifies against what the
      receiver takes for its signature; then that text is all the receiver gains,
      and the sender records the message; otherwise no list anywhere changes. */
  lemma HonestSend(m: Machine, c: Crypto, env: Env, net: Net, users: seq<User>, self: nat, receiverId: string,
                   message: string, draws: Draws)
    requires Runs(m, c) && c.Laws() && self < |net|
    requires HonestDirectory(c, env, net, users)
    requires Lookup(users, c.HashId(net[self].key)).Some? && Lookup(users, receiverId).Some?
    requires NulFree(message) && ByteText(message)
    ensures m.Lawful()
    ensures var s := Send(m, env, net, self, receiverId, message, draws);
            var p := ParcelOf(users, net[self].key, receiverId, message, draws);
            var sid, heard := c.HashId(net[self].key), message[..Find(message, '%')];
            if Verify(c, heard, Part(c, p, 2), c.PublicKey(net[self].key), env(0).check) then
              && s.result == Returned(false)
              && exists r :: 0 <= r < |net| && c.HashId(net[r].key) == receiverId &&
                             ListsAfter(net, s.net, self, r, sid, receiverId, message, heard)
            else
              s.result == Returned(true) && Untouched(net, s.net)
  {
    var p := ParcelOf(users, net[self].key, receiverId, message, draws);
    HonestSurroundings(m, c, env, net, users);
    PartsOf(c, p);
    HonestGetsThrough(m, c, env, net, users, self, p);
    SendHasFate(m, c, env, net, self, receiverId, message, draws);
    ParcelFateOpens(m, c, env, |net|, p);
    FaredHonest(m, c, net, self, Send(m, env, net, self, receiverId, message, draws), receiverId, message,
                message[..Find(message, '%')], ParcelFate(m, c, env, |net|, p));
  }

  /** For every message without '%' and NUL and every draw of hops: the send
      returns 0, the receiver gains exactly the message, the sender's record
      gains it too, a message to oneself is recorded once, and no other list
      anywhere changes. */
  lemma EndToEnd(m: Machine, c: Crypto, env: Env, net: Net, users: seq<User>, self: nat, receiverId: string,
                 message: string, draws: Draws)
    requires Runs(m, c) && c.Laws() && self < |net|
    requires HonestDirectory(c, env, net, users)
    requires Lookup(users, c.HashId(net[self].key)).Some? && Lookup(users, receiverId).Some?
    requires Unseparated(message) && ByteText(message)
    ensures m.Lawful()
    ensures var s := Send(m, env, net, self, receiverId, message, draws);
            var sid := c.HashId(net[self].key);
            && s.result == Returned(false)
            && exists r :: 0 <= r < |net| && c.HashId(net[r].key) == receiverId &&
                           ListsAfter(net, s.net, self, r, sid, receiverId, message, message)
  {
    var p := ParcelOf(users, net[self].key, receiverId, message, draws);
    HonestSend(m, c, env, net, users, self, receiverId, message, draws);
    PartsOf(c, p);
    SignatureRoundTrip(c, p.key, message, message, draws.signature, env(0).check);
  }

  // ---------- exactly which messages are delivered ----------

  /** Unless a step was undefined, a send leaves at most one new entry with each
      other peer, and never one with a '%' or a NUL in it. */
  lemma SendStores(m: Machine, env: Env, net: Net, self: nat, receiverId: string, message: string, draws: Draws, j: nat)
    requires m.Lawful() && AcceptsUnseparated(m) && self < |net| && j < |net| && j != self
    ensures var s := Send(m, env, net, self, receiverId, message, draws);
            |s.net| == |net| && (s.result != Unspecified ==> StoresAtMostOne(m, net[j], s.net[j]))
  {
    if m.fetch(env(4).users).Fetched? {
      var users := m.fetch(env(4).users).users;
      var here := WithList(net, self, users);
      var plan := m.form(net[self].key, users, receiverId, message, draws);
      if plan.Packet? {
        DeliverStores(m, env, here, env(4), plan.next, plan.packet);
      }
    }
  }

  /** Another peer ends up with exactly the message that was sent. */
  ghost predicate ReceivedExactly(c: Crypto, net: Net, after: Net, self: nat, receiverId: string, message: string)
    requires self < |net|
  {
    |after| == |net| &&
    exists r :: 0 <= r < |net| && r != self && c.HashId(net[r].key) == receiverId &&
                after[r].messages == net[r].messages + [Message(c.HashId(net[self].key), receiverId, message)]
  }

  lemma ReceivedIsUnseparated(m: Machine, c: Crypto, env: Env, net: Net, self: nat, receiverId: string,
                              message: string, draws: Draws)
    requires Runs(m, c) && m.Lawful() && self < |net|
    requires var s := Send(m, env, net, self, receiverId, message, draws);
             s.result != Unspecified && ReceivedExactly(c, net, s.net, self, receiverId, message)
    ensures Unseparated(message)
  {
    var s := Send(m, env, net, self, receiverId, message, draws);
    var sid := c.HashId(net[self].key);
    var r :| 0 <= r < |net| && r != self && c.HashId(net[r].key) == receiverId &&
             s.net[r].messages == net[r].messages + [Message(sid, receiverId, message)];
    ProgramAcceptsUnseparated(m, c);
    SendStores(m, env, net, self, receiverId, message, draws, r);
    OnlyEntry(m, net[r], s.net[r], Message(sid, receiverId, message));
  }

  lemma UnseparatedIsReceived(m: Machine, c: Crypto, env: Env, net: Net, users: seq<User>, self: nat,
                              receiverId: string, message: string, draws: Draws)
    requires Runs(m, c) && m.Lawful() && c.Laws() && self < |net|
    requires HonestDirectory(c, env, net, users)
    requires Lookup(users, c.HashId(net[self].key)).Some? && Lookup(users, receiverId).Some?
    requires receiverId != c.HashId(net[self].key) && Unseparated(message) && ByteText(message)
    ensures ReceivedExactly(c, net, Send(m, env, net, self, receiverId, message, draws).net, self, receiverId, message)
  {
    var s := Send(m, env, net, self, receiverId, message, draws);
    var sid := c.HashId(net[self].key);
    EndToEnd(m, c, env, net, users, self, receiverId, message, draws);
    var r :| 0 <= r < |net| && c.HashId(net[r].key) == receiverId &&
             ListsAfter(net, s.net, self, r, sid, receiverId, message, message);
    assert s.net[r].messages == net[r].messages + [Message(sid, receiverId, message)] + [];
  }

  /** Among all byte strings without a NUL, those that reach another peer unaltered
      are exactly the ones without '%'. With a NUL, none does, unless the send meets
      an undefined step. */
  lemma ExactDelivery(m: Machine, c: Crypto, env: Env, net: Net, users: seq<User>, self: nat, receiverId: string,
                      message: string, draws: Draws)
    requires Runs(m, c) && c.Laws() && self < |net|
    requires HonestDirectory(c, env, net, users)
    requires Lookup(users, c.HashId(net[self].key)).Some? && Lookup(users, receiverId).Some?
    requires receiverId != c.HashId(net[self].key) && ByteText(message)
    ensures m.Lawful()
    ensures var s := Send(m, env, net, self, receiverId, message, draws);
            var received := ReceivedExactly(c, net, s.net, self, receiverId, message);
            && (NulFree(message) ==> s.result.Returned? && (received <==> '%' !in message))
            && (!NulFree(message) && s.result != Unspecified ==> !received)
  {
    ProgramIsLawful(m, c);
    var s := Send(m, env, net, self, receiverId, message, draws);
    if NulFree(message) {
      HonestSend(m, c, env, net, users, self, receiverId, message, draws);
    }
    if Unseparated(message) {
      UnseparatedIsReceived(m, c, env, net, users, self, receiverId, message, draws);
    } else if s.result != Unspecified && ReceivedExactly(c, net, s.net, self, receiverId, message) {
      ReceivedIsUnseparated(m, c, env, net, self, receiverId, message, draws);
    }
  }

  lemma OnlyEntry(m: Machine, p: Peer, after: Peer, e: Message)
    requires StoresAtMostOne(m, p, after) && after.messages == p.messages + [e]
    ensures Unseparated(e.message)
  {
    assert after.messages[|p.messages|] == e;
    if after.messages != p.messages {
      var f: Message :| after.messages == p.messages + [f] && Unseparated(f.message);
      assert (p.messages + [f])[|p.messages|] == f;
    }
  }
}
