/** The relay and the peers together: what the registry holds after any run of
    well-behaved sessions is a list under which every message gets through. */
module Together {
  import opened Text
  import opened Rsa
  import opened SslHandler
  import opened Framing
  import opened Directory
  import opened Onion
  import opened Transit
  import opened Sending
  import Honest
  import Registry

  // ---------- what peers register ----------

  /** What a peer sends, and the fields that the relay finds, as a PEM key has no '#'. */
  function RegisterText(c: Crypto, key: PrivateKey, port: Int32): string {
    Registry.RegisterText(c.HashId(key), port, c.PublicKey(key))
  }

  function RegisterFields(c: Crypto, key: PrivateKey, port: Int32): seq<string> {
    ["REGISTER", c.HashId(key), ToString(port), c.PublicKey(key)]
  }

  lemma RegisterTextSplits(c: Crypto, key: PrivateKey, port: Int32)
    requires c.Laws() && '#' !in c.PublicKey(key)
    ensures Split(RegisterText(c, key, port), '#') == RegisterFields(c, key, port)
  {
    HashHasNoNul(c, c.PublicKey(key));
    Registry.RegisterFields(c.HashId(key), port, c.PublicKey(key));
  }

  /** A REGISTER with the id, a port and the public key of some peer. */
  ghost predicate OwnRegister(c: Crypto, net: Net, text: string) {
    exists j, port: Int32 :: 0 <= j < |net| && Split(text, '#') == RegisterFields(c, net[j].key, port)
  }

  /** Every REGISTER is of that kind, and addresses are plain. */
  ghost predicate PeersOnly(c: Crypto, net: Net, e: Registry.Event) {
    && (e.Hear? && Registry.IsRegister(e.text) ==> OwnRegister(c, net, e.text))
    && (e.Connect? ==> '#' !in e.ip)
  }

  /** An entry that prints, with the id and the public key of some peer. */
  ghost predicate Owned(c: Crypto, net: Net, u: User) {
    && EntryPrintable(u)
    && exists j :: 0 <= j < |net| && u.hashId == c.HashId(net[j].key) && u.publicKey == c.PublicKey(net[j].key)
  }

  ghost predicate OwnedWorld(c: Crypto, net: Net, w: Registry.World) {
    && (forall i | 0 <= i < |w.log| :: Owned(c, net, w.log[i].user))
    && (forall sid <- w.sessions :: '#' !in w.sessions[sid].ip)
  }

  lemma RegisterOwned(c: Crypto, net: Net, w: Registry.World, sid: nat, text: string, next: Registry.World)
    requires Registry.Enabled(w, Registry.Hear(sid, text)) && OwnedWorld(c, net, w)
    requires text != SIGFAULT && Registry.IsRegister(text) && OwnRegister(c, net, text)
    requires Registry.Step(w, Registry.Hear(sid, text)) == Some(next)
    ensures OwnedWorld(c, net, next)
  {
    var segments := Split(text, '#');
    var j, port: Int32 :| 0 <= j < |net| && segments == RegisterFields(c, net[j].key, port);
    var entry := next.log[|w.log|].user;
    assert segments[1] in segments && segments[3] in segments;
    assert entry.hashId == c.HashId(net[j].key) && entry.publicKey == c.PublicKey(net[j].key);
    assert Owned(c, net, entry);
  }

  lemma StepOwned(c: Crypto, net: Net, w: Registry.World, e: Registry.Event, next: Registry.World)
    requires OwnedWorld(c, net, w) && PeersOnly(c, net, e)
    requires Registry.Enabled(w, e) && Registry.Step(w, e) == Some(next)
    ensures OwnedWorld(c, net, next)
  {
    if e.Hear? && e.text != SIGFAULT && Registry.IsRegister(e.text) {
      RegisterOwned(c, net, w, e.sid, e.text, next);
    }
  }

  lemma {:induction false} RunOwned(c: Crypto, net: Net, w: Registry.World, events: seq<Registry.Event>,
                                    end: Registry.World)
    requires OwnedWorld(c, net, w) && forall e <- events :: PeersOnly(c, net, e)
    requires Registry.Run(w, events) == Some(end)
    ensures OwnedWorld(c, net, end)
    decreases |events|
  {
    if events != [] {
      var next := Registry.Step(w, events[0]).value;
      StepOwned(c, net, w, events[0], next);
      RunOwned(c, net, next, events[1..], end);
    }
  }

  // ---------- what the vector then is ----------

  lemma {:induction false} LiveAreOwned(c: Crypto, net: Net, log: seq<Registry.Registration>,
                                        sessions: map<nat, Registry.Session>)
    requires forall i | 0 <= i < |log| :: Owned(c, net, log[i].user)
    ensures forall u <- Registry.LiveUsers(log, sessions) :: Owned(c, net, u)
  {
    if log != [] {
      LiveAreOwned(c, net, log[1..], sessions);
    }
  }

  lemma {:induction false} LiveIsIn(log: seq<Registry.Registration>, sessions: map<nat, Registry.Session>, i: nat)
    requires i < |log| && Registry.IsLive(sessions, log[i].sid)
    ensures log[i].user in Registry.LiveUsers(log, sessions)
  {
    if i > 0 {
      LiveIsIn(log[1..], sessions, i - 1);
    }
  }

  /** A live session that registered is listed. */
  lemma LiveIsListed(w: Registry.World, sid: nat)
    requires Registry.RegistryInvariant(w) && Registry.IsLive(w.sessions, sid) && w.sessions[sid].hashId != ""
    ensures Lookup(w.users, w.sessions[sid].hashId).Some?
  {
    var i :| 0 <= i < |w.log| && w.log[i].sid == sid;
    LiveIsIn(w.log, w.sessions, i);
    assert w.log[i].user.hashId == w.sessions[sid].hashId;
  }

  /** No two peers have one id and different keys. */
  ghost predicate IdsApart(c: Crypto, net: Net) {
    forall i, j | 0 <= i < |net| && 0 <= j < |net| && c.HashId(net[i].key) == c.HashId(net[j].key) ::
      c.PublicKey(net[i].key) == c.PublicKey(net[j].key)
  }

  lemma OwnedIsHonest(c: Crypto, net: Net, users: seq<User>)
    requires c.Laws() && IdsApart(c, net) && forall u <- users :: Owned(c, net, u)
    ensures Honest.HonestList(c, net, users) && Printable(users)
  {
    forall u: User | u in users
      ensures KeyMatches(c, u) && c.Size(u.publicKey) == KEY_BYTES && EntryPrintable(u) && u.publicKey != ""
      ensures forall j | 0 <= j < |net| && c.HashId(net[j].key) == u.hashId :: c.PublicKey(net[j].key) == u.publicKey
    {
      var i :| 0 <= i < |net| && u.hashId == c.HashId(net[i].key) && u.publicKey == c.PublicKey(net[i].key);
    }
  }

  /** After any disciplined run in which only peers register, and each its own id
      and key: the registry is an honest list that prints and parses. */
  lemma RegisteredIsHonest(c: Crypto, net: Net, events: seq<Registry.Event>, w: Registry.World)
    requires c.Laws() && IdsApart(c, net) && forall e <- events :: PeersOnly(c, net, e)
    requires Registry.DisciplinedRun(Registry.INITIAL, events) && Registry.Run(Registry.INITIAL, events) == Some(w)
    ensures Registry.RegistryInvariant(w) && Honest.HonestList(c, net, w.users) && Printable(w.users)
  {
    Registry.InitiallyEmpty();
    Registry.RegistryIsLiveSessions(Registry.INITIAL, events);
    RunOwned(c, net, Registry.INITIAL, events, w);
    LiveAreOwned(c, net, w.log, w.sessions);
    OwnedIsHonest(c, net, w.users);
  }

  /** A live session that asks for the list: the world stays as it is, and what the
      peer ends up with is what it reads of the relay's reply, the vector itself if
      that prints and is framed. */
  lemma SessionFetches(w: Registry.World, sid: nat)
    requires sid in w.sessions && w.sessions[sid].phase.Open?
    ensures Registry.Step(w, Registry.Hear(sid, "LIST")) == Some(w)
    ensures var s := w.sessions[sid];
            var answer := Registry.Process(w.users, s.hashId, s.ip, "LIST");
            && answer.Some? && answer.value.reply.Some?
            && Fetch(w.users) == ReadList(Transfer(answer.value.reply.value))
            && (Fetchable(w.users) ==> Fetch(w.users) == Fetched(w.users))
  {
    var s := w.sessions[sid];
    Registry.ListReplies(w.users, s.hashId, s.ip);
    SplitSingle("LIST", '#');
    assert w.sessions[sid := Registry.Session(s.ip, s.hashId, Registry.Open)] == w.sessions;
    FetchReads(w.users);
    if Fetchable(w.users) {
      FetchExact(w.users);
    }
  }

  // ---------- delivery between registered peers ----------

  /** A live session of the peer with this id. */
  predicate Registered(w: Registry.World, sid: nat, id: string) {
    Registry.IsLive(w.sessions, sid) && w.sessions[sid].hashId == id != ""
  }

  /** Between any two peers whose sessions are live, over any hops, a message without
      '%' and NUL is delivered exactly, if the relay's reply is framed and everybody
      listed is reachable while it travels. */
  lemma RegisteredPeersDeliver(m: Machine, c: Crypto, env: Env, net: Net, events: seq<Registry.Event>,
                               w: Registry.World, self: nat, from: nat, to: nat, receiverId: string, message: string,
                               draws: Draws)
    requires Runs(m, c) && c.Laws() && self < |net| && IdsApart(c, net) && forall e <- events :: PeersOnly(c, net, e)
    requires Registry.DisciplinedRun(Registry.INITIAL, events) && Registry.Run(Registry.INITIAL, events) == Some(w)
    requires Framed(PrintList(w.users)) && Honest.Reachable(c, env, net, w.users)
    requires Registered(w, from, c.HashId(net[self].key)) && Registered(w, to, receiverId)
    requires Unseparated(message) && ByteText(message)
    ensures m.Lawful()
    ensures var s := Send(m, env, net, self, receiverId, message, draws);
            var sid := c.HashId(net[self].key);
            && s.result == Returned(false)
            && exists r :: 0 <= r < |net| && c.HashId(net[r].key) == receiverId &&
                           ListsAfter(net, s.net, self, r, sid, receiverId, message, message)
  {
    RegisteredIsHonest(c, net, events, w);
    LiveIsListed(w, from);
    LiveIsListed(w, to);
    Honest.EndToEnd(m, c, env, net, w.users, self, receiverId, message, draws);
  }
}
