/** The peers as objects: handler threads that update a shared user list and
    message list in place, each call proved against the run it specifies. */
module Network {
  import opened Text
  import opened Rsa
  import opened SslHandler
  import opened Framing
  import opened Directory
  import opened Onion
  import opened Transit
  import Registry

  class PeerNode {
    const ssl: SslHandler
    var userList: seq<User>
    var messages: seq<Message>

    constructor (ssl: SslHandler)
      ensures this.ssl == ssl && userList == [] && messages == []
    {
      this.ssl := ssl;
      userList, messages := [], [];
    }

    ghost function State(): Peer
      reads this
    {
      Peer(ssl.privateKey, userList, messages)
    }

    /** LIST over the main connection, answered by this session's handler at the
        relay; the entries parsed replace the list, up to where the parse ended. */
    method UpdateList(relayUsers: seq<User>) returns (status: Fetched)
      modifies this`userList
      ensures status == Fetch(relayUsers)
      ensures userList == if status.Hung? then old(userList) else status.users
    {
      var read := AskList(relayUsers);
      if read.None? {
        return Hung;
      }
      var parsed := Parse(read.value);
      userList := parsed.users;
      status := AsFetched(parsed);
    }

    /** The same in a machine's terms. */
    method UpdateListOn(ghost m: Machine, relayUsers: seq<User>) returns (status: Fetched)
      requires Runs(m, ssl.crypto)
      modifies this`userList
      ensures status == m.fetch(relayUsers)
      ensures userList == if status.Hung? then old(userList) else status.users
    {
      status := UpdateList(relayUsers);
      assert Case(relayUsers);
    }

    /** The command, and what comes back over the connection. */
    method AskList(relayUsers: seq<User>) returns (read: Option<string>)
      ensures read == ReplyRead(relayUsers)
    {
      var sent := RelayAnswer("LIST", relayUsers);
      var main := new Connection(Delivered(sent));
      var reply := main.SendCommand("LIST");
      assert main.sent == [] + Frames("LIST") == Frames("LIST");
      read := match reply case Text(t) => Some(t) case Blocked => None;
    }

    /** The relay's end of it: what the handler that hears the command sends. */
    method RelayAnswer(command: string, relayUsers: seq<User>) returns (sent: seq<Frame>)
      ensures var reply := RelayReply(relayUsers, command);
              sent == if reply.Some? then Frames(reply.value) else []
    {
      var vector := new Registry.UserVector();
      vector.user := relayUsers;
      var conn := new Connection(Delivered(Frames(command)));
      var relay := new Registry.RelayHandler(vector, conn, "");
      var heard := conn.ReceiveMessage();
      if heard.Blocked? {
        return [];
      }
      var ends := relay.HandleText(heard.text);
      sent := if ends.Some? then conn.sent else [];
    }

    method DecideHop(segments: seq<string>, site: Site, inner: bool) returns (a: Action)
      requires ssl.Valid()
      ensures a == PeelHop(ssl.crypto, ssl.privateKey, userList, segments, site, inner)
    {
      if |segments| < 2 {
        return Undefined;
      }
      var nextHashId := ssl.DecryptMessage(segments[1], site.readings);
      var known := UserExists(userList, nextHashId);
      if !known {
        return Refuse;
      }
      var next := GetUser(userList, nextHashId);
      if ssl.crypto.Sha256(next.publicKey) != next.hashId {
        return Refuse;
      }
      if inner {
        return if |segments| < 3 then Undefined else Forward(next, "P3%" + segments[2]);
      }
      a := if |segments| < 4 then Undefined else Forward(next, "P2%" + segments[2] + "%" + segments[3]);
    }

    method DecideLast(segments: seq<string>, site: Site) returns (a: Action)
      requires ssl.Valid()
      ensures a == PeelLast(ssl.crypto, ssl.privateKey, userList, segments, site)
    {
      if |segments| < 2 {
        return Undefined;
      }
      var section := ssl.DecryptMessage(segments[1], site.readings);
      var blocks := Segments(section, '%');
      if blocks == [] {
        return Undefined;
      }
      var known := UserExists(userList, blocks[0]);
      if !known {
        return Refuse;
      }
      var receiver := GetUser(userList, blocks[0]);
      a := if |blocks| < 2 then Undefined else Forward(receiver, "R%" + blocks[1]);
    }

    method DecideSecret(segments: seq<string>, site: Site) returns (a: Action)
      requires ssl.Valid()
      ensures a == PeelSecret(ssl.crypto, ssl.privateKey, userList, segments, site)
    {
      if |segments| < 2 {
        return Undefined;
      }
      var secretPacket := ssl.DecryptMessage(segments[1], site.readings);
      var blocks := Segments(secretPacket, '%');
      if blocks == [] {
        return Undefined;
      }
      var known := UserExists(userList, blocks[0]);
      if !known {
        return Refuse;
      }
      var sender := GetUser(userList, blocks[0]);
      if |blocks| < 3 {
        return Undefined;
      }
      var valid := ssl.VerifyMessage(blocks[1], blocks[2], sender.publicKey, site.check);
      a := if valid then Accept(sender, blocks[1]) else Refuse;
    }

    /** The branches of `process` on the tag, up to the reply or the forwarding. */
    method Decide(text: string, site: Site) returns (a: Action)
      requires ssl.Valid()
      ensures a == Peel(ssl.crypto, ssl.privateKey, userList, text, site)
    {
      var segments := Segments(text, '%');
      if segments == [] {
        return Ignore;
      }
      if segments[0] == "P1" {
        a := DecideHop(segments, site, false);
      } else if segments[0] == "P2" {
        a := DecideHop(segments, site, true);
      } else if segments[0] == "P3" {
        a := DecideLast(segments, site);
      } else if segments[0] == "R" {
        a := DecideSecret(segments, site);
      } else {
        a := Ignore;
      }
    }

    /** `messages->push_back`, unless the message is the peer's own. */
    method Keep(sender: User, message: string)
      requires ssl.Valid()
      modifies this`messages
      ensures var own := ssl.crypto.HashId(ssl.privateKey);
              messages == if sender.hashId == own then old(messages)
                          else old(messages) + [Message(sender.hashId, own, message)]
    {
      if sender.hashId != ssl.hashId {
        messages := messages + [Message(sender.hashId, ssl.hashId, message)];
      }
    }

    /** Hop choice, key checks and layers of `formPacketandSend`. */
    method FormPlan(receiverHashId: string, message: string, draws: Draws) returns (plan: Plan)
      requires ssl.Valid()
      ensures plan == Form(ssl.crypto, ssl.privateKey, userList, receiverHashId, message, draws)
    {
      var known := UserExists(userList, receiverHashId);
      if !known {
        return NoPlan;
      }
      var receiver := GetUser(userList, receiverHashId);
      var peer1 := userList[draws.hop1 % |userList|];
      var peer2 := userList[draws.hop2 % |userList|];
      var peer3 := userList[draws.hop3 % |userList|];
      if !(ssl.crypto.Sha256(peer1.publicKey) == peer1.hashId && ssl.crypto.Sha256(peer2.publicKey) == peer2.hashId &&
           ssl.crypto.Sha256(peer3.publicKey) == peer3.hashId &&
           ssl.crypto.Sha256(receiver.publicKey) == receiver.hashId) {
        return BadKey;
      }
      var packet := FormSections(receiverHashId, message, Route(receiver, peer1, peer2, peer3), draws);
      plan := Packet(peer1, packet);
    }

    method FormSections(receiverHashId: string, message: string, route: Route, draws: Draws) returns (packet: string)
      requires ssl.Valid()
      ensures packet == FormPacket(ssl.crypto, ssl.privateKey, receiverHashId, message, route, draws)
    {
      var peer1Section := ssl.EncryptMessage(route.peer2.hashId, route.peer1.publicKey, draws.section1);
      var peer2Section := ssl.EncryptMessage(route.peer3.hashId, route.peer2.publicKey, draws.section2);
      var signature := ssl.SignMessage(message, draws.signature);
      var secretPacket := ssl.EncryptMessage(ssl.hashId + "%" + message + "%" + signature,
                                             route.receiver.publicKey, draws.secret);
      var peer3Section := ssl.EncryptMessage(receiverHashId + "%" + secretPacket,
                                             route.peer3.publicKey, draws.section3);
      packet := "P1%" + peer1Section + "%" + peer2Section + "%" + peer3Section;
    }
  }

  class Network {
    const crypto: Crypto
    const peers: seq<PeerNode>

    constructor (crypto: Crypto, peers: seq<PeerNode>)
      ensures this.crypto == crypto && this.peers == peers
    {
      this.crypto, this.peers := crypto, peers;
    }

    ghost predicate Valid() {
      && (forall i, j | 0 <= i < j < |peers| :: peers[i] != peers[j])
      && (forall i | 0 <= i < |peers| :: peers[i].ssl.crypto == crypto && peers[i].ssl.Valid())
    }

    /** What all peers hold. */
    ghost function State(): (net: Net)
      reads peers
      ensures |net| == |peers|
    {
      seq(|peers|, i requires 0 <= i < |peers| reads peers => peers[i].State())
    }

    /** `updateList` of one peer. */
    method UpdateListAt(ghost m: Machine, self: nat, relayUsers: seq<User>) returns (status: Fetched)
      requires Valid() && Runs(m, crypto) && self < |peers|
      modifies peers
      ensures status == m.fetch(relayUsers)
      ensures State() == if status.Hung? then old(State()) else WithList(old(State()), self, status.users)
    {
      ghost var before := State();
      status := peers[self].UpdateListOn(m, relayUsers);
      assert State() == if status.Hung? then before else WithList(before, self, status.users);
    }

    method DecideAt(ghost m: Machine, self: nat, text: string, site: Site) returns (a: Action)
      requires Valid() && Runs(m, crypto) && self < |peers|
      ensures a == m.peel(State()[self].key, State()[self].userList, text, site)
    {
      a := peers[self].Decide(text, site);
      assert Case((State()[self].key, State()[self].userList, text, site));
    }

    method KeepAt(ghost m: Machine, self: nat, sender: User, message: string)
      requires Valid() && Runs(m, crypto) && self < |peers|
      modifies peers
      ensures State() == old(State())[self := Store(m, old(State())[self], sender.hashId, message)]
    {
      ghost var before := State();
      assert Case(before[self].key);
      peers[self].Keep(sender, message);
      assert State() == before[self := Store(m, before[self], sender.hashId, message)];
    }

    method FormPlanAt(ghost m: Machine, self: nat, receiverHashId: string, message: string,
                      draws: Draws) returns (plan: Plan)
      requires Valid() && Runs(m, crypto) && self < |peers|
      ensures plan == m.form(State()[self].key, State()[self].userList, receiverHashId, message, draws)
    {
      plan := peers[self].FormPlan(receiverHashId, message, draws);
      assert Case((State()[self].key, State()[self].userList, receiverHashId, message, draws));
    }

    /** The sender's record of a message it sent. */
    method LogAt(ghost m: Machine, self: nat, receiverHashId: string, message: string)
      requires Valid() && Runs(m, crypto) && self < |peers|
      modifies peers
      ensures State() == old(State())[self := Log(m, old(State())[self], receiverHashId, message)]
    {
      ghost var before := State();
      assert Case(before[self].key);
      var node := peers[self];
      node.messages := node.messages + [Message(node.ssl.hashId, receiverHashId, message)];
      assert State() == before[self := Log(m, before[self], receiverHashId, message)];
    }

    method SiteFor(ghost m: Machine, env: Env, text: string) returns (site: Site)
      requires Runs(m, crypto)
      ensures site == env(m.rank(text))
    {
      site := env(Rank(text));
      assert Case(text);
    }

    /** One handler run with everything it causes, in place; `dead` is the peer
        whose process ended on the way. */
    method Process(ghost m: Machine, env: Env, self: nat, text: string)
      returns (outcome: Outcome, ghost visits: seq<Visit>, dead: Option<nat>)
      requires Valid() && Runs(m, crypto) && m.Lawful() && self < |peers| && NulFree(text)
      modifies peers
      ensures Trip(State(), outcome, visits, dead) == Transit.Process(m, env, old(State()), self, text)
      decreases m.rank(text), 1
    {
      ghost var rank := m.rank(text);
      visits, dead := [Visit(self, rank, false, [])], None;
      if text == "" {
        return Stuck, visits, None;
      }
      var site := SiteFor(m, env, text);
      var status := UpdateListAt(m, self, site.users);
      if !status.Fetched? {
        outcome, dead := FetchFailure(self, status);
        return;
      }
      var a := DecideAt(m, self, text, site);
      match a {
        case Refuse =>
          outcome, visits := Replied(SIGFAULT), [Visit(self, rank, false, [SIGFAULT])];
        case Accept(sender, message) =>
          KeepAt(m, self, sender, message);
          outcome, visits := Replied(SUCCESS), [Visit(self, rank, true, [SUCCESS])];
        case Ignore =>
          outcome := Stuck;
        case Undefined =>
          outcome := Unknown;
        case Forward(next, packet) =>
          outcome, visits, dead := PassOn(m, env, self, rank, site, next, packet);
      }
    }

    /** The end of a forwarding run: the exchange, then a reply of its own. */
    method PassOn(ghost m: Machine, env: Env, self: nat, ghost rank: nat, site: Site, next: User, packet: string)
      returns (outcome: Outcome, ghost visits: seq<Visit>, dead: Option<nat>)
      requires Valid() && Runs(m, crypto) && m.Lawful() && NulFree(packet)
      modifies peers
      ensures Trip(State(), outcome, visits, dead) ==
              Conclude(self, rank, Transit.Deliver(m, env, old(State()), site, next, packet))
      decreases m.rank(packet), 3
    {
      ghost var below: seq<Visit>;
      outcome, below, dead := Deliver(m, env, site, next, packet);
      visits := Conclude(self, rank, Trip(State(), outcome, below, dead)).visits;
      outcome := ReplyAfter(self, outcome, dead);
    }

    /** An exception ends the peer's process; a read past the fields is undefined. */
    method FetchFailure(self: nat, status: Fetched) returns (outcome: Outcome, dead: Option<nat>)
      requires !status.Fetched?
      ensures outcome == match status case Hung => Stuck case Thrown(_) => Ended case _ => Unknown
      ensures dead == if status.Thrown? then Some(self) else None
    {
      match status {
        case Hung => return Stuck, None;
        case Thrown(_) => return Ended, Some(self);
        case _ => return Unknown, None;
      }
    }

    /** What a forwarding run sends back. */
    method ReplyAfter(self: nat, down: Outcome, dead: Option<nat>) returns (outcome: Outcome)
      ensures forall rank, net, visits ::
                outcome == Conclude(self, rank, Trip(net, down, visits, dead)).outcome
    {
      if !down.Replied? {
        return down;
      }
      if dead == Some(self) {
        return Ended;
      }
      outcome := Replied(if down.reply == SIGFAULT then SIGFAULT else SUCCESS);
    }

    /** `sendMessage(text, ip, port)`: connect, greeting, command and reply. */
    method Deliver(ghost m: Machine, env: Env, site: Site, next: User, packet: string)
      returns (outcome: Outcome, ghost visits: seq<Visit>, dead: Option<nat>)
      requires Valid() && Runs(m, crypto) && m.Lawful() && NulFree(packet)
      modifies peers
      ensures Trip(State(), outcome, visits, dead) == Transit.Deliver(m, env, old(State()), site, next, packet)
      decreases m.rank(packet), 2
    {
      visits, dead := [], None;
      var to := Listener(site, next, |peers|);
      if to.None? {
        return Replied(SIGFAULT), visits, None;
      }
      var far, text := Hear(m, packet);
      if text.None? {
        return Stuck, visits, None;
      }
      outcome, visits, dead := Process(m, env, to.value, text.value);
      outcome := Reread(m, far, packet, outcome);
    }

    /** The handler at the far end greets and reads the packet. */
    method Hear(ghost m: Machine, packet: string) returns (far: Connection, text: Option<string>)
      requires Runs(m, crypto)
      ensures fresh(far) && far.sent == Frames(GREETING) && text == m.carry(packet)
    {
      far, text := HearCommand(packet);
      assert Case(packet);
    }

    /** What the sender reads, after the handler's run ended as it did. */
    method Reread(ghost m: Machine, far: Connection, packet: string, ended: Outcome) returns (outcome: Outcome)
      requires Runs(m, crypto) && far.sent == Frames(GREETING)
      modifies far
      ensures forall net, visits, dead :: outcome == Answered(m, Trip(net, ended, visits, dead)).outcome
    {
      var answer := match ended case Replied(reply) => Reply(reply) case Ended => Shut case _ => Silent;
      AnswerHeard(answer);
      if ended.Replied? {
        assert Case(ended.reply);
      }
      var reply := AskCommand(far, packet, answer);
      outcome := match reply case Text(t) => Replied(t) case Blocked => if ended.Unknown? then Unknown else Stuck;
    }

    /** `formPacketandSend`, in place. */
    method FormPacketAndSend(ghost m: Machine, env: Env, self: nat, receiverHashId: string, message: string,
                             draws: Draws)
      returns (result: Result, ghost visits: seq<Visit>)
      requires Valid() && Runs(m, crypto) && m.Lawful() && self < |peers|
      modifies peers
      ensures SendRun(State(), result, visits) == Send(m, env, old(State()), self, receiverHashId, message, draws)
    {
      visits := [];
      var site := env(4);
      var status := UpdateListAt(m, self, site.users);
      match status {
        case Hung => return Waiting, visits;
        case Thrown(_) => return Exited, visits;
        case Garbled(_) => return Unspecified, visits;
        case Fetched(_) =>
      }
      var plan := FormPlanAt(m, self, receiverHashId, message, draws);
      if plan.NoPlan? {
        return Unspecified, visits;
      }
      if plan.BadKey? {
        return Returned(true), visits;
      }
      var outcome, dead;
      outcome, visits, dead := Deliver(m, env, site, plan.next, plan.packet);
      match outcome {
        case Stuck => return Waiting, visits;
        case Unknown => return Unspecified, visits;
        case Ended => return Exited, visits;
        case Replied(reply) =>
          if dead == Some(self) {
            return Exited, visits;
          }
          if reply == SIGFAULT {
            return Returned(true), visits;
          }
      }
      LogAt(m, self, receiverHashId, message);
      result := Returned(false);
    }
  }
}
