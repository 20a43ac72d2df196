/** What the value that `formPacketandSend` returns says, and when it misleads:
    a handler whose process ends reads upstream like one that succeeded. */
module Reports {
  import opened Text
  import opened Rsa
  import opened SslHandler
  import opened Framing
  import opened Directory
  import opened Onion
  import opened Stages
  import opened Transit
  import opened Sending
  import Honest

  /** No list that any handler may meet makes `stoi` throw. */
  predicate ListsParse(m: Machine, env: Env) {
    forall k: nat | k <= 3 :: !m.fetch(env(k).users).Thrown?
  }

  /** Where lists parse, 0 is returned exactly for the messages whose signature a
      receiver accepted. */
  lemma ZeroIsAcceptance(m: Machine, env: Env, net: Net, self: nat, receiverId: string, message: string, draws: Draws)
    requires m.Lawful() && self < |net| && ListsParse(m, env)
    ensures var s := Send(m, env, net, self, receiverId, message, draws);
            s.result == Returned(false) <==> Accepted(s.visits)
  {
    ZeroMeansAccepted(m, env, net, self, receiverId, message, draws);
    SendRanks(m, env, net, self, receiverId, message, draws);
  }

  lemma SendRanks(m: Machine, env: Env, net: Net, self: nat, receiverId: string, message: string, draws: Draws)
    requires m.Lawful() && self < |net|
    ensures var visits := Send(m, env, net, self, receiverId, message, draws).visits;
            forall i | 0 <= i < |visits| :: visits[i].rank <= 3
  {
    if m.fetch(env(4).users).Fetched? {
      var users := m.fetch(env(4).users).users;
      var plan := m.form(net[self].key, users, receiverId, message, draws);
      if plan.Packet? {
        DeliverChained(m, env, WithList(net, self, users), env(4), plan.next, plan.packet);
      }
    }
  }

  /** A first hop whose process ends on its list: the sender reads an empty reply. */
  lemma HopEnds(m: Machine, env: Env, net: Net, site: Site, next: User, packet: string, j: nat)
    requires m.Lawful() && packet != "" && NulFree(packet) && m.carry(packet) == Some(packet)
    requires Listener(site, next, |net|) == Some(j) && m.fetch(env(m.rank(packet)).users).Thrown?
    ensures var d := Deliver(m, env, net, site, next, packet);
            && d.outcome == Replied("") && d.dead == Some(j) && !Accepted(d.visits)
            && SameMessages(net, d.net, |net|)
  {
  }

  lemma SendMisreports(m: Machine, env: Env, net: Net, self: nat, rid: string, message: string, draws: Draws, j: nat)
    requires m.Lawful() && self < |net| && m.fetch(env(4).users).Fetched?
    requires var plan := m.form(net[self].key, m.fetch(env(4).users).users, rid, message, draws);
             && plan.Packet? && m.carry(plan.packet) == Some(plan.packet)
             && Listener(env(4), plan.next, |net|) == Some(j) && j != self
             && m.fetch(env(m.rank(plan.packet)).users).Thrown?
    ensures var s := Send(m, env, net, self, rid, message, draws);
            && s.result == Returned(false) && !Accepted(s.visits)
            && OnlyRecorded(net, s.net, self, m.id(net[self].key), rid, message)
  {
    var users := m.fetch(env(4).users).users;
    var plan := m.form(net[self].key, users, rid, message, draws);
    HopEnds(m, env, WithList(net, self, users), env(4), plan.next, plan.packet, j);
  }

  /** The packet of any message over a route with matching keys is on its way. */
  lemma FormedCrosses(m: Machine, c: Crypto, users: seq<User>, net: Net, p: Parcel)
    requires Runs(m, c) && c.Laws() && KeysGenuine(c, users, net) && RouteListed(users, p.route)
    requires RouteKeysMatch(c, p.route)
    ensures NulFree(Outermost(c, p)) && m.carry(Outermost(c, p)) == Some(Outermost(c, p))
    ensures m.rank(Outermost(c, p)) == 3
  {
    var packet := Outermost(c, p);
    FormedPacketsCross(c, p.key, p.receiverId, p.message, p.route, p.draws);
    TransferExact(packet);
    assert Case(packet);
  }

  lemma ListThrown(m: Machine, c: Crypto, users: seq<User>)
    requires Runs(m, c) && Fetch(users).Thrown?
    ensures m.fetch(users).Thrown?
  {
    assert Case(users);
  }

  /** Any message: if the list makes `stoi` throw at the first hop, and that hop
      is another peer that answers, then the send returns 0 and records the
      message, although nobody accepted it and no other list has changed. */
  lemma FalseSuccess(m: Machine, c: Crypto, env: Env, net: Net, self: nat, rid: string, message: string, draws: Draws,
                     j: nat)
    requires Runs(m, c) && c.Laws() && self < |net|
    requires Fetchable(env(4).users) && KeysGenuine(c, env(4).users, net) && Lookup(env(4).users, rid).Some?
    requires var p := ParcelOf(env(4).users, net[self].key, rid, message, draws);
             RouteKeysMatch(c, p.route) && Listener(env(4), p.route.peer1, |net|) == Some(j) && j != self
    requires Fetch(env(3).users).Thrown?
    ensures m.Lawful()
    ensures var s := Send(m, env, net, self, rid, message, draws);
            && s.result == Returned(false) && !Accepted(s.visits)
            && OnlyRecorded(net, s.net, self, c.HashId(net[self].key), rid, message)
  {
    var p := ParcelOf(env(4).users, net[self].key, rid, message, draws);
    ProgramIsLawful(m, c);
    ListFetched(m, c, env(4).users);
    ListThrown(m, c, env(3).users);
    IdOf(m, c, p.key);
    ProgramForms(m, c, env(4).users, p.key, rid, message, draws);
    FormedCrosses(m, c, env(4).users, net, p);
    SendMisreports(m, env, net, self, rid, message, draws, j);
  }

  lemma HonestRoute(m: Machine, c: Crypto, honest: Env, net: Net, users: seq<User>, rid: string, draws: Draws)
    requires Honest.HonestDirectory(c, honest, net, users) && Lookup(users, rid).Some?
    ensures honest(4).users == users && Fetchable(users) && KeysGenuine(c, users, net)
    ensures RouteKeysMatch(c, Choose(users, Lookup(users, rid).value, draws))
  {
  }

  /** The same where the sender's list is honest. */
  lemma HonestFalseSuccess(m: Machine, c: Crypto, honest: Env, env: Env, net: Net, users: seq<User>, self: nat,
                           rid: string, message: string, draws: Draws, j: nat)
    requires Runs(m, c) && c.Laws() && self < |net|
    requires Honest.HonestDirectory(c, honest, net, users) && env(4) == honest(4)
    requires Lookup(users, rid).Some? && Fetch(env(3).users).Thrown?
    requires Listener(env(4), users[draws.hop1 % |users|], |net|) == Some(j) && j != self
    ensures m.Lawful()
    ensures var s := Send(m, env, net, self, rid, message, draws);
            && s.result == Returned(false) && !Accepted(s.visits)
            && OnlyRecorded(net, s.net, self, c.HashId(net[self].key), rid, message)
  {
    HonestRoute(m, c, honest, net, users, rid, draws);
    FalseSuccess(m, c, env, net, self, rid, message, draws, j);
  }

  // ---------- such a list ----------

  /** An id with a '#' in it shifts the fields: "h" stands where the port should. */
  function Shifted(): seq<User> { [User("a#b", "h", 8, "k")] }

  lemma ShiftedText(a: string, b: string, d: string, e: string, f: string)
    ensures (a + "#" + b) + "#" + d + "#" + e + "#" + f == a + "#" + (b + "#" + (d + "#" + (e + "#" + f)))
  {
  }

  lemma ShiftedFields()
    ensures Split(PrintEntry(User("a#b", "h", 8, "k")), '#') == ["a", "b", "h", "8", "k"]
  {
    var fields := ["a", "b", "h", "8"] + ["k"];
    Honest.JoinFour("a", "b", "h", "8", ["k"]);
    ShiftedText("a", "b", "h", "8", "k");
    assert "a" + "#" + "b" == "a#b" && ToString(8) == "8";
    assert Splittable(fields, '#');
    SplitJoin(fields, '#');
  }

  lemma ShiftedParses(segments: seq<string>)
    requires segments == ["a", "b", "h", "8", "k"]
    ensures ParseFields(segments) == Parsed([], Threw)
  {
    assert !IsSpace("h"[0]) && !IsDigit("h"[0]);
  }

  lemma ShortEntryArrives(u: User)
    requires NulFree(u.hashId) && NulFree(u.ip) && NulFree(u.publicKey) && 0 <= u.port < 10
    requires |u.hashId| + |u.ip| + |u.publicKey| < 1000
    ensures Transfer(PrintList([u])) == Some(PrintEntry(u))
  {
    assert ToString(u.port) == [DigitOf(u.port)];
    PrintListOfOne(u);
    PrintEntryLength(u);
    ShortTextCrosses(PrintEntry(u));
  }

  lemma ShortEntryFetched(u: User)
    requires NulFree(u.hashId) && NulFree(u.ip) && NulFree(u.publicKey) && 0 <= u.port < 10
    requires |u.hashId| + |u.ip| + |u.publicKey| < 1000 && EntryPrintable(u) && u.publicKey != ""
    ensures Fetch([u]) == Fetched([u])
  {
    ShortEntryArrives(u);
    FetchReads([u]);
    PrintListOfOne(u);
    DirectoryRoundTrip([u]);
  }

  lemma ShiftedThrows()
    ensures Fetch(Shifted()) == Thrown([])
  {
    var u := User("a#b", "h", 8, "k");
    ShortEntryArrives(u);
    FetchReads([u]);
    ShiftedFields();
    ShiftedParses(Split(PrintEntry(u), '#'));
  }

  function ShiftedEnv(reading: Reading): Env {
    k => if k == 4 then Honest.ToyEnv(reading)(4) else Honest.ToyEnv(reading)(4).(users := Shifted())
  }

  lemma ShiftedListener(reading: Reading, u: User)
    requires u == Honest.ToyUser(1)
    ensures Listener(ShiftedEnv(reading)(4), u, 2) == Some(1)
  {
    var site := ShiftedEnv(reading)(4);
    assert site == Honest.ToyEnv(reading)(4);
    assert u.port % 65536 == 9;
    assert site.listening(u.ip, 9) == Some(1);
  }

  /** Peer 0 sends to peer 1 over peer 1, who meets that list. */
  lemma FalseSuccessExists(m: Machine, c: Crypto, reading: Reading, env: Env, net: Net, message: string, draws: Draws)
    requires c == PlainCrypto() && Runs(m, c) && env == ShiftedEnv(reading) && net == Honest.ToyNet()
    requires draws.hop1 % 2 == 1
    ensures m.Lawful()
    ensures var s := Send(m, env, net, 0, c.HashId(1), message, draws);
            && s.result == Returned(false) && !Accepted(s.visits)
            && OnlyRecorded(net, s.net, 0, c.HashId(0), c.HashId(1), message)
  {
    var users := Honest.ToyDirectory();
    Honest.HonestDirectoryExists(c, reading, Honest.ToyEnv(reading), net, users);
    ShiftedThrows();
    ShiftedListener(reading, users[draws.hop1 % |users|]);
    HonestFalseSuccess(m, c, Honest.ToyEnv(reading), env, net, users, 0, c.HashId(1), message, draws, 1);
  }
}
