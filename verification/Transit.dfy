/** Packets between peers: who runs when, and what every sender gets back. The
    peers' own code enters as a `Machine`; `Chat` is the one of this program. */
module Transit {
  import opened Text
  import opened Rsa
  import opened Framing
  import opened Directory
  import opened Onion

  /** One peer: its key pair, the user list and the messages its threads share. */
  datatype Peer = Peer(key: PrivateKey, userList: seq<User>, messages: seq<Message>)

  type Net = seq<Peer>

  /** What a peer's code computes from what it is given: its id; the list after
      `updateList`; the decision on a packet; the packet for a message; what the
      far end of a connection reads of a text; and the stage of a packet. */
  datatype Machine = Machine(
    id: PrivateKey -> string,
    fetch: seq<User> -> Fetched,
    peel: (PrivateKey, seq<User>, string, Site) -> Action,
    form: (PrivateKey, seq<User>, string, string, Draws) -> Plan,
    carry: string -> Option<string>,
    rank: string -> nat)
  {
    /** Connections alter nothing, and replies cross them. */
    ghost predicate Carries() {
      && (forall s :: NulFree(s) ==> carry(s) == None || carry(s) == Some(s))
      && carry(SUCCESS) == Some(SUCCESS) && carry(SIGFAULT) == Some(SIGFAULT)
    }

    /** Forwarding goes one stage further in, of at most four. */
    ghost predicate Descends() {
      && (forall s :: rank(s) <= 3)
      && forall key: PrivateKey, users, text, site :: NulFree(text) && peel(key, users, text, site).Forward? ==>
        var packet := peel(key, users, text, site).packet;
        packet != "" && NulFree(packet) && rank(packet) + 1 == rank(text)
    }

    ghost predicate Forms() {
      forall key: PrivateKey, users, id, message, draws :: form(key, users, id, message, draws).Packet? ==>
        form(key, users, id, message, draws).packet != "" && NulFree(form(key, users, id, message, draws).packet)
    }

    ghost predicate Lawful() {
      Carries() && Descends() && Forms()
    }
  }

  /** Names a case; the equations below are only looked up for named cases. */
  predicate Case<T>(x: T) {
    true
  }

  /** The machine is the program of this repository. */
  ghost predicate Runs(m: Machine, c: Crypto) {
    && (forall key: PrivateKey {:trigger Case(key)} :: m.id(key) == c.HashId(key))
    && (forall users: seq<User> {:trigger Case(users)} :: m.fetch(users) == Fetch(users))
    && (forall key: PrivateKey, users: seq<User>, text: string, site: Site {:trigger Case((key, users, text, site))} ::
          m.peel(key, users, text, site) == Peel(c, key, users, text, site))
    && (forall key: PrivateKey, users: seq<User>, id: string, message: string, draws: Draws
          {:trigger Case((key, users, id, message, draws))} ::
          m.form(key, users, id, message, draws) == Form(c, key, users, id, message, draws))
    && (forall s: string {:trigger Case(s)} :: m.carry(s) == Transfer(s) && m.rank(s) == Rank(s))
  }

  function Chat(c: Crypto): Machine {
    Machine((key: PrivateKey) => c.HashId(key),
            Fetch,
            (key: PrivateKey, users: seq<User>, text: string, site: Site) => Peel(c, key, users, text, site),
            (key: PrivateKey, users: seq<User>, id: string, message: string, draws: Draws) =>
              Form(c, key, users, id, message, draws),
            Transfer,
            Rank)
  }

  lemma ChatRuns(c: Crypto)
    ensures Runs(Chat(c), c)
  {
  }

  lemma RunsCarries(m: Machine, c: Crypto)
    requires Runs(m, c)
    ensures m.Carries()
  {
    forall s | NulFree(s)
      ensures m.carry(s) == None || m.carry(s) == Some(s)
    {
      assert Case(s);
      TransferExact(s);
    }
    assert Case(SUCCESS) && Case(SIGFAULT);
    RepliesCross();
  }

  lemma RunsDescends(m: Machine, c: Crypto)
    requires Runs(m, c)
    ensures m.Descends()
  {
    forall key: PrivateKey, users, text, site | NulFree(text)
      ensures var a := m.peel(key, users, text, site);
              a.Forward? ==> a.packet != "" && NulFree(a.packet) && m.rank(a.packet) + 1 == m.rank(text)
    {
      assert Case((key, users, text, site)) && Case(text);
      var a := m.peel(key, users, text, site);
      if a.Forward? {
        assert Case(a.packet);
      }
      ForwardDescends(c, key, users, text, site);
    }
    forall s: string
      ensures m.rank(s) <= 3
    {
      assert Case(s);
      assert m.rank(s) == Rank(s);
    }
  }

  lemma RunsForms(m: Machine, c: Crypto)
    requires Runs(m, c)
    ensures m.Forms()
  {
    forall key: PrivateKey, users, id, message, draws
      ensures var plan := m.form(key, users, id, message, draws);
              plan.Packet? ==> plan.packet != "" && NulFree(plan.packet)
    {
      assert Case((key, users, id, message, draws));
      FormedIsNulFree(c, key, users, id, message, draws);
    }
  }

  lemma ProgramIsLawful(m: Machine, c: Crypto)
    requires Runs(m, c)
    ensures m.Lawful()
  {
    RunsCarries(m, c);
    RunsDescends(m, c);
    RunsForms(m, c);
  }

  // ---------- one packet ----------

  /** The peer after it accepted a message: nothing is stored for its own. */
  function Store(m: Machine, p: Peer, sender: string, message: string): Peer {
    if sender == m.id(p.key) then p
    else p.(messages := p.messages + [Message(sender, m.id(p.key), message)])
  }

  /** What the sender of a packet gets: a reply; the end of the process that was
      to reply, by an exception; a wait without end, because the packet never ends
      for its reader or nobody replies; or undefined behaviour. */
  datatype Outcome = Replied(reply: string) | Ended | Stuck | Unknown

  /** One handler run: where, at which stage, whether it accepted a signature,
      and what it sent back on its connection. */
  datatype Visit = Visit(node: nat, rank: nat, accepted: bool, replies: seq<string>)

  /** `dead` is the peer whose whole process ended on the way, if one did. */
  datatype Trip = Trip(net: Net, outcome: Outcome, visits: seq<Visit>, dead: Option<nat>)

  /** Surroundings by stage: 4 for the sender, 3 for P1 down to 0 for R. */
  type Env = nat -> Site

  /** Who answers at an entry's address: `htons` of an int that went through a short. */
  function Listener(site: Site, u: User, peers: nat): Option<nat> {
    match site.listening(u.ip, u.port % 65536)
    case None => None
    case Some(j) => if j < peers then Some(j) else None
  }

  /** One run of `process` at `self`, with everything it causes downstream. */
  function Process(m: Machine, env: Env, net: Net, self: nat, text: string): (d: Trip)
    requires m.Lawful() && self < |net| && NulFree(text)
    ensures |d.net| == |net|
    decreases m.rank(text), 1
  {
    var site := env(m.rank(text));
    var silent := [Visit(self, m.rank(text), false, [])];
    if text == "" then Trip(net, Stuck, silent, None)
    else
      match m.fetch(site.users)
      case Hung => Trip(net, Stuck, silent, None)
      case Thrown(users) => Trip(WithList(net, self, users), Ended, silent, Some(self))
      case Garbled(users) => Trip(WithList(net, self, users), Unknown, silent, None)
      case Fetched(users) =>
        var here := WithList(net, self, users);
        match m.peel(net[self].key, users, text, site)
        case Refuse => Trip(here, Replied(SIGFAULT), [Visit(self, m.rank(text), false, [SIGFAULT])], None)
        case Accept(sender, message) =>
          Trip(here[self := Store(m, here[self], sender.hashId, message)], Replied(SUCCESS),
               [Visit(self, m.rank(text), true, [SUCCESS])], None)
        case Ignore => Trip(here, Stuck, silent, None)
        case Undefined => Trip(here, Unknown, silent, None)
        case Forward(next, packet) => Conclude(self, m.rank(text), Deliver(m, env, here, site, next, packet))
  }

  function WithList(net: Net, self: nat, users: seq<User>): (after: Net)
    requires self < |net|
    ensures |after| == |net|
  {
    net[self := net[self].(userList := users)]
  }

  /** A forwarding run after its exchange: anything but SIGFAULT is success,
      unless the run's own process has ended meanwhile. */
  function Conclude(self: nat, rank: nat, down: Trip): Trip {
    var silent := [Visit(self, rank, false, [])] + down.visits;
    if !down.outcome.Replied? then Trip(down.net, down.outcome, silent, down.dead)
    else if down.dead == Some(self) then Trip(down.net, Ended, silent, down.dead)
    else
      var reply := if down.outcome.reply == SIGFAULT then SIGFAULT else SUCCESS;
      Trip(down.net, Replied(reply), [Visit(self, rank, false, [reply])] + down.visits, down.dead)
  }

  /** `sendMessage` to an address: refused, or one exchange with the handler
      there. A connection that its process leaves closed reads as an empty reply. */
  function Deliver(m: Machine, env: Env, net: Net, site: Site, next: User, packet: string): (d: Trip)
    requires m.Lawful() && NulFree(packet)
    ensures |d.net| == |net|
    decreases m.rank(packet), 2
  {
    match Listener(site, next, |net|)
    case None => Trip(net, Replied(SIGFAULT), [], None)
    case Some(to) =>
      match m.carry(packet)
      case None => Trip(net, Stuck, [], None)
      case Some(text) => Answered(m, Process(m, env, net, to, text))
  }

  function Answered(m: Machine, d: Trip): (a: Trip)
    ensures a.net == d.net && a.visits == d.visits && a.dead == d.dead
  {
    match d.outcome
    case Replied(reply) =>
      (match m.carry(reply)
       case None => d.(outcome := Stuck)
       case Some(read) => d.(outcome := Replied(read)))
    case Ended => d.(outcome := Replied(""))
    case _ => d
  }

  // ---------- one message ----------

  /** 0 and 1 as `formPacketandSend` returns them; a wait without end; the end of
      the sender's own process; undefined behaviour. */
  datatype Result = Returned(failed: bool) | Waiting | Exited | Unspecified

  datatype SendRun = SendRun(net: Net, result: Result, visits: seq<Visit>)

  /** The sender's own record of a message it sent. */
  function Log(m: Machine, p: Peer, receiverId: string, message: string): Peer {
    p.(messages := p.messages + [Message(m.id(p.key), receiverId, message)])
  }

  /** `formPacketandSend`. */
  function Send(m: Machine, env: Env, net: Net, self: nat, receiverId: string, message: string, draws: Draws): SendRun
    requires m.Lawful() && self < |net|
  {
    match m.fetch(env(4).users)
    case Hung => SendRun(net, Waiting, [])
    case Thrown(users) => SendRun(WithList(net, self, users), Exited, [])
    case Garbled(users) => SendRun(WithList(net, self, users), Unspecified, [])
    case Fetched(users) =>
      var here := WithList(net, self, users);
      match m.form(net[self].key, users, receiverId, message, draws)
      case NoPlan => SendRun(here, Unspecified, [])
      case BadKey => SendRun(here, Returned(true), [])
      case Packet(next, packet) =>
        Report(m, self, receiverId, message, Deliver(m, env, here, env(4), next, packet))
  }

  /** The end of `formPacketandSend`. */
  function Report(m: Machine, self: nat, receiverId: string, message: string, d: Trip): SendRun
    requires self < |d.net|
  {
    match d.outcome
    case Stuck => SendRun(d.net, Waiting, d.visits)
    case Unknown => SendRun(d.net, Unspecified, d.visits)
    case Ended => SendRun(d.net, Exited, d.visits)
    case Replied(reply) =>
      if d.dead == Some(self) then SendRun(d.net, Exited, d.visits)
      else if reply == SIGFAULT then SendRun(d.net, Returned(true), d.visits)
      else SendRun(d.net[self := Log(m, d.net[self], receiverId, message)], Returned(false), d.visits)
  }

  // ---------- any packet, any surroundings ----------

  /** The runs of one packet: one a stage, outermost first. */
  predicate Chained(visits: seq<Visit>, top: nat) {
    |visits| <= top + 1 && forall i | 0 <= i < |visits| :: visits[i].rank == top - i
  }

  /** What a run sends back when its packet comes to an end: SUCCESS or SIGFAULT,
      once; SUCCESS, if a process ended below it; nothing, if it is in that process. */
  predicate RepliedFor(v: Visit, dead: Option<nat>) {
    match dead
    case None => v.replies == [SUCCESS] || v.replies == [SIGFAULT]
    case Some(j) => v.replies == if v.node == j then [] else [SUCCESS]
  }

  predicate RepliesFit(visits: seq<Visit>, finished: bool, dead: Option<nat>) {
    forall i | 0 <= i < |visits| ::
      if finished then RepliedFor(visits[i], dead) else visits[i].replies == []
  }

  ghost predicate Accepted(visits: seq<Visit>) {
    exists i | 0 <= i < |visits| :: visits[i].accepted
  }

  /** The list that the last run of a packet met made `stoi` throw. */
  predicate LastThrew(m: Machine, env: Env, visits: seq<Visit>) {
    visits != [] && m.fetch(env(visits[|visits| - 1].rank).users).Thrown?
  }

  /** A trip after all its runs: it ended with an acceptance exactly when SUCCESS
      came back and no process ended, which is when the last list parsed. */
  ghost predicate Explained(m: Machine, env: Env, d: Trip, text: string) {
    && (d.dead.Some? ==> d.visits != [] && d.dead.value == Last(d.visits) && text != "")
    && (text != "" ==> (d.dead.Some? <==> LastThrew(m, env, d.visits)))
    && (Accepted(d.visits) <==> d.outcome == Replied(SUCCESS) && d.dead.None?)
  }

  /** Where a chain of runs may have stored something: its last run. */
  function Last(visits: seq<Visit>): nat {
    if visits == [] then 0 else visits[|visits| - 1].node
  }

  predicate Finished(outcome: Outcome) {
    outcome.Replied? || outcome.Ended?
  }

  lemma ConcludeExplained(m: Machine, env: Env, self: nat, rank: nat, down: Trip, packet: string, text: string)
    requires Explained(m, env, down, packet) && packet != "" && text != ""
    requires down.visits == [] ==> !m.fetch(env(rank).users).Thrown?
    requires down.outcome.Replied? ==> down.outcome.reply in {SUCCESS, SIGFAULT} || down.dead.Some?
    ensures Explained(m, env, Conclude(self, rank, down), text)
  {
    var visits := Conclude(self, rank, down).visits;
    assert forall i | 0 < i < |visits| :: visits[i] == down.visits[i - 1];
    if down.visits != [] {
      assert visits[|visits| - 1] == down.visits[|down.visits| - 1];
    }
    if Accepted(down.visits) {
      var i :| 0 <= i < |down.visits| && down.visits[i].accepted;
      assert visits[i + 1].accepted;
    }
  }

  lemma ConcludeFits(self: nat, rank: nat, down: Trip)
    requires rank > 0 && Chained(down.visits, rank - 1) && RepliesFit(down.visits, down.outcome.Replied?, down.dead)
    requires !down.outcome.Ended?
    requires down.dead.Some? ==> down.outcome.Replied? && down.outcome.reply in {"", SUCCESS}
    ensures var d := Conclude(self, rank, down);
            Chained(d.visits, rank) && RepliesFit(d.visits, Finished(d.outcome), d.dead)
  {
    var visits := Conclude(self, rank, down).visits;
    assert forall i | 0 < i < |visits| :: visits[i] == down.visits[i - 1];
  }

  lemma {:induction false} ProcessChained(m: Machine, env: Env, net: Net, self: nat, text: string)
    requires m.Lawful() && self < |net| && NulFree(text)
    ensures var d := Process(m, env, net, self, text);
            && d.visits != [] && d.visits[0].node == self && d.visits[0].rank == m.rank(text)
            && Chained(d.visits, m.rank(text)) && RepliesFit(d.visits, Finished(d.outcome), d.dead)
            && (d.outcome.Ended? <==> d.dead == Some(self)) && (d.dead.Some? ==> Finished(d.outcome))
            && (d.outcome.Replied? ==> d.visits[0].replies == [d.outcome.reply])
    decreases m.rank(text), 1
  {
    var site := env(m.rank(text));
    if text != "" && m.fetch(site.users).Fetched? {
      var users := m.fetch(site.users).users;
      var a := m.peel(net[self].key, users, text, site);
      if a.Forward? {
        DeliverChained(m, env, WithList(net, self, users), site, a.next, a.packet);
        ConcludeFits(self, m.rank(text), Deliver(m, env, WithList(net, self, users), site, a.next, a.packet));
      }
    }
  }

  lemma {:induction false} DeliverChained(m: Machine, env: Env, net: Net, site: Site, next: User, packet: string)
    requires m.Lawful() && NulFree(packet)
    ensures var d := Deliver(m, env, net, site, next, packet);
            && !d.outcome.Ended?
            && Chained(d.visits, m.rank(packet)) && RepliesFit(d.visits, d.outcome.Replied?, d.dead)
            && (d.outcome.Replied? && d.dead.None? ==> d.outcome.reply in {SUCCESS, SIGFAULT})
            && (d.dead.Some? ==> d.outcome.Replied? && d.outcome.reply in {"", SUCCESS})
    decreases m.rank(packet), 2
  {
    var to := Listener(site, next, |net|);
    if to.Some? && m.carry(packet).Some? {
      ProcessChained(m, env, net, to.value, packet);
      var d := Process(m, env, net, to.value, packet);
      assert d.outcome.Replied? ==> RepliedFor(d.visits[0], d.dead);
    }
  }

  predicate SameKeys(net: Net, after: Net) {
    |after| == |net| && forall j | 0 <= j < |net| :: after[j].key == net[j].key
  }

  predicate SameMessages(net: Net, after: Net, except_: nat) {
    |after| == |net| && forall j | 0 <= j < |net| && j != except_ :: after[j].messages == net[j].messages
  }

  predicate Unseparated(message: string) {
    '%' !in message && NulFree(message)
  }

  /** A machine that never accepts a message with a separator or a NUL in it. */
  ghost predicate AcceptsUnseparated(m: Machine) {
    forall key: PrivateKey, users, text, site :: m.peel(key, users, text, site).Accept? ==>
      Unseparated(m.peel(key, users, text, site).message)
  }

  lemma ProgramAcceptsUnseparated(m: Machine, c: Crypto)
    requires Runs(m, c)
    ensures AcceptsUnseparated(m)
  {
    forall key: PrivateKey, users, text, site | m.peel(key, users, text, site).Accept?
      ensures Unseparated(m.peel(key, users, text, site).message)
    {
      assert Case((key, users, text, site));
      AcceptedText(c, key, users, text, site);
    }
  }

  /** The peer as it was, or with one more entry: from another, to itself. */
  ghost predicate StoresAtMostOne(m: Machine, p: Peer, after: Peer) {
    || after.messages == p.messages
    || exists e: Message ::
         && after.messages == p.messages + [e]
         && e.receiver == m.id(p.key) && e.sender != e.receiver && Unseparated(e.message)
  }

  /** One packet stores at most one entry in the whole network, at its last run. */
  ghost predicate OneStored(m: Machine, net: Net, d: Trip) {
    && SameKeys(net, d.net)
    && SameMessages(net, d.net, Last(d.visits))
    && (Last(d.visits) < |net| ==> StoresAtMostOne(m, net[Last(d.visits)], d.net[Last(d.visits)]))
  }

  lemma ForwardStores(m: Machine, net: Net, here: Net, self: nat, rank: nat, down: Trip)
    requires self < |net| == |here| && SameKeys(net, here) && SameMessages(net, here, |net|)
    requires OneStored(m, here, down) && (down.visits == [] ==> down.net == here)
    ensures OneStored(m, net, Conclude(self, rank, down))
  {
    var visits := Conclude(self, rank, down).visits;
    if down.visits != [] {
      assert visits[|visits| - 1] == down.visits[|down.visits| - 1];
    }
  }

  lemma AcceptStores(m: Machine, p: Peer, sender: string, message: string)
    requires Unseparated(message)
    ensures StoresAtMostOne(m, p, Store(m, p, sender, message))
  {
    var e := Message(sender, m.id(p.key), message);
    if sender != m.id(p.key) {
      assert Store(m, p, sender, message).messages == p.messages + [e];
    }
  }

  /** Unless a step was undefined. */
  lemma {:induction false} ProcessStores(m: Machine, env: Env, net: Net, self: nat, text: string)
    requires m.Lawful() && AcceptsUnseparated(m) && self < |net| && NulFree(text)
    ensures var d := Process(m, env, net, self, text); !d.outcome.Unknown? ==> OneStored(m, net, d)
    decreases m.rank(text), 1
  {
    var site := env(m.rank(text));
    if text != "" && m.fetch(site.users).Fetched? {
      var users := m.fetch(site.users).users;
      var here := WithList(net, self, users);
      var a := m.peel(net[self].key, users, text, site);
      if a.Forward? {
        var down := Deliver(m, env, here, site, a.next, a.packet);
        DeliverStores(m, env, here, site, a.next, a.packet);
        if !down.outcome.Unknown? {
          ForwardStores(m, net, here, self, m.rank(text), down);
        }
      } else if a.Accept? {
        AcceptStores(m, here[self], a.sender.hashId, a.message);
      }
    }
  }

  lemma {:induction false} DeliverStores(m: Machine, env: Env, net: Net, site: Site, next: User, packet: string)
    requires m.Lawful() && AcceptsUnseparated(m) && NulFree(packet)
    ensures var d := Deliver(m, env, net, site, next, packet);
            (!d.outcome.Unknown? ==> OneStored(m, net, d)) && (d.visits == [] ==> d.net == net)
    decreases m.rank(packet), 2
  {
    var to := Listener(site, next, |net|);
    if to.Some? && m.carry(packet).Some? {
      ProcessChained(m, env, net, to.value, packet);
      ProcessStores(m, env, net, to.value, packet);
    }
  }

  /** Whatever text a peer receives, whatever the lists and addresses at every
      stage: at most four handler runs follow, even when peers repeat, each one
      stage further in. If the packet comes to an end, every run replies exactly
      once, with SUCCESS or SIGFAULT, save that a process which an exception ends
      replies to nobody and turns every other reply into SUCCESS. If it waits for
      ever, no run replies. Of a run that is undefined only the runs are told. */
  lemma ForwardingTerminates(m: Machine, env: Env, net: Net, self: nat, text: string)
    requires m.Lawful() && self < |net| && NulFree(text)
    ensures var d := Process(m, env, net, self, text);
            && 1 <= |d.visits| <= m.rank(text) + 1 <= 4
            && d.visits[0].node == self
            && (forall i | 0 <= i < |d.visits| :: d.visits[i].rank == m.rank(text) - i)
            && (!d.outcome.Unknown? ==> RepliesFit(d.visits, Finished(d.outcome), d.dead))
            && (d.outcome.Replied? ==> d.visits[0].replies == [d.outcome.reply])
            && (d.outcome.Ended? <==> d.dead == Some(self))
  {
    ProcessChained(m, env, net, self, text);
  }

  // ---------- where a packet goes, and what never ends ----------

  /** The peer that runs first is the one that listens at the entry's ip and port,
      the port as 16 bits hold it. */
  lemma DeliverGoesTo(m: Machine, env: Env, net: Net, site: Site, next: User, packet: string, port: nat, j: nat)
    requires m.Lawful() && NulFree(packet) && m.carry(packet).Some?
    requires port < 65536 && (next.port - port) % 65536 == 0
    requires site.listening(next.ip, port) == Some(j) && j < |net|
    ensures var d := Deliver(m, env, net, site, next, packet);
            && d.visits != [] && d.visits[0].node == j
            && Deliver(m, env, net, site, next, packet) ==
               Answered(m, Process(m, env, net, j, m.carry(packet).value))
  {
    SamePort(next.port, port);
    ProcessChained(m, env, net, j, m.carry(packet).value);
  }

  lemma SamePort(given: int, port: nat)
    requires port < 65536 && (given - port) % 65536 == 0
    ensures given % 65536 == port
  {
    assert given == (given - port) / 65536 * 65536 + port;
  }

  /** Where nobody listens, the answer is SIGFAULT and nobody runs. */
  lemma DeliverRefused(m: Machine, env: Env, net: Net, site: Site, next: User, packet: string, port: nat)
    requires m.Lawful() && NulFree(packet) && port < 65536 && (next.port - port) % 65536 == 0
    requires site.listening(next.ip, port) == None
    ensures Deliver(m, env, net, site, next, packet) == Trip(net, Replied(SIGFAULT), [], None)
  {
    SamePort(next.port, port);
  }

  /** A packet that does not end for its reader keeps its sender waiting. */
  lemma DeliverWaits(m: Machine, env: Env, net: Net, site: Site, next: User, packet: string)
    requires m.Lawful() && NulFree(packet) && m.carry(packet) == None && Listener(site, next, |net|).Some?
    ensures Deliver(m, env, net, site, next, packet) == Trip(net, Stuck, [], None)
  {
  }

  /** A handler that hears nothing, whose list never ends, or that does not know the
      tag, replies to nobody and stores nothing. */
  lemma ProcessWaits(m: Machine, env: Env, net: Net, self: nat, text: string)
    requires m.Lawful() && self < |net| && NulFree(text)
    requires var fetched := m.fetch(env(m.rank(text)).users);
             || text == "" || fetched.Hung?
             || (fetched.Fetched? && m.peel(net[self].key, fetched.users, text, env(m.rank(text))).Ignore?)
    ensures var d := Process(m, env, net, self, text);
            && d.outcome == Stuck && d.visits == [Visit(self, m.rank(text), false, [])] && d.dead == None
            && SameMessages(net, d.net, |net|)
  {
  }

  /** A sender whose list never ends waits, and so does one whose packet meets a
      handler that waits; nothing is recorded. */
  lemma SendWaits(m: Machine, env: Env, net: Net, self: nat, receiverId: string, message: string, draws: Draws)
    requires m.Lawful() && self < |net| && m.fetch(env(4).users) == Hung
    ensures Send(m, env, net, self, receiverId, message, draws) == SendRun(net, Waiting, [])
  {
  }

  /** Every handler run replaces its peer's list, also where it then refuses; a run
      that forwards nothing leaves all other lists alone. */
  lemma ProcessRefreshes(m: Machine, env: Env, net: Net, self: nat, text: string)
    requires m.Lawful() && self < |net| && NulFree(text) && text != ""
    requires m.fetch(env(m.rank(text)).users).Fetched?
    requires !m.peel(net[self].key, m.fetch(env(m.rank(text)).users).users, text, env(m.rank(text))).Forward?
    ensures var after := Process(m, env, net, self, text).net;
            && after[self].userList == m.fetch(env(m.rank(text)).users).users
            && forall j | 0 <= j < |net| && j != self :: after[j] == net[j]
  {
  }

  /** So does every send, also one that gives up on a key. */
  lemma SendRefreshes(m: Machine, env: Env, net: Net, self: nat, receiverId: string, message: string, draws: Draws)
    requires m.Lawful() && self < |net| && m.fetch(env(4).users).Fetched?
    requires m.form(net[self].key, m.fetch(env(4).users).users, receiverId, message, draws) == BadKey
    ensures Send(m, env, net, self, receiverId, message, draws) ==
            SendRun(WithList(net, self, m.fetch(env(4).users).users), Returned(true), [])
  {
  }

  // ---------- what a returned 0 means ----------

  lemma {:induction false} ProcessExplained(m: Machine, env: Env, net: Net, self: nat, text: string)
    requires m.Lawful() && self < |net| && NulFree(text)
    ensures Explained(m, env, Process(m, env, net, self, text), text)
    decreases m.rank(text), 1
  {
    var site := env(m.rank(text));
    if text != "" && m.fetch(site.users).Fetched? {
      var users := m.fetch(site.users).users;
      var a := m.peel(net[self].key, users, text, site);
      if a.Forward? {
        var down := Deliver(m, env, WithList(net, self, users), site, a.next, a.packet);
        DeliverExplained(m, env, WithList(net, self, users), site, a.next, a.packet);
        DeliverChained(m, env, WithList(net, self, users), site, a.next, a.packet);
        ConcludeExplained(m, env, self, m.rank(text), down, a.packet, text);
      } else if a.Accept? {
        assert Process(m, env, net, self, text).visits[0].accepted;
      }
    }
  }

  lemma {:induction false} DeliverExplained(m: Machine, env: Env, net: Net, site: Site, next: User, packet: string)
    requires m.Lawful() && NulFree(packet)
    ensures Explained(m, env, Deliver(m, env, net, site, next, packet), packet)
    decreases m.rank(packet), 2
  {
    var to := Listener(site, next, |net|);
    if to.Some? && m.carry(packet).Some? {
      ProcessExplained(m, env, net, to.value, packet);
      ProcessChained(m, env, net, to.value, packet);
    }
  }

  /** For every send in every surroundings: an acceptance always comes back as 0;
      a returned 0 means an acceptance exactly when the list that the last handler
      of the packet met did not make `stoi` throw. */
  lemma ZeroMeansAccepted(m: Machine, env: Env, net: Net, self: nat, receiverId: string, message: string, draws: Draws)
    requires m.Lawful() && self < |net|
    ensures var s := Send(m, env, net, self, receiverId, message, draws);
            && (Accepted(s.visits) ==> s.result == Returned(false))
            && (s.result == Returned(false) ==> (Accepted(s.visits) <==> !LastThrew(m, env, s.visits)))
  {
    if m.fetch(env(4).users).Fetched? {
      var users := m.fetch(env(4).users).users;
      var plan := m.form(net[self].key, users, receiverId, message, draws);
      if plan.Packet? {
        DeliverExplained(m, env, WithList(net, self, users), env(4), plan.next, plan.packet);
        DeliverChained(m, env, WithList(net, self, users), env(4), plan.next, plan.packet);
      }
    }
  }

  // ---------- what changes without an acceptance ----------

  /** Keys stay, and unless a signature was accepted or a step was undefined so do
      all lists. */
  ghost predicate Unaccepted(net: Net, d: Trip) {
    && SameKeys(net, d.net)
    && (!Accepted(d.visits) && !d.outcome.Unknown? ==> SameMessages(net, d.net, |net|))
  }

  lemma ConcludeUnaccepted(net: Net, here: Net, self: nat, rank: nat, down: Trip)
    requires SameKeys(net, here) && SameMessages(net, here, |net|) && Unaccepted(here, down)
    ensures Unaccepted(net, Conclude(self, rank, down))
  {
    var visits := Conclude(self, rank, down).visits;
    if i :| 0 <= i < |down.visits| && down.visits[i].accepted {
      assert visits[i + 1].accepted;
    }
  }

  lemma {:induction false} ProcessUnaccepted(m: Machine, env: Env, net: Net, self: nat, text: string)
    requires m.Lawful() && self < |net| && NulFree(text)
    ensures Unaccepted(net, Process(m, env, net, self, text))
    decreases m.rank(text), 1
  {
    var site := env(m.rank(text));
    if text != "" && m.fetch(site.users).Fetched? {
      var users := m.fetch(site.users).users;
      var here := WithList(net, self, users);
      var a := m.peel(net[self].key, users, text, site);
      if a.Forward? {
        DeliverUnaccepted(m, env, here, site, a.next, a.packet);
        ConcludeUnaccepted(net, here, self, m.rank(text), Deliver(m, env, here, site, a.next, a.packet));
      } else if a.Accept? {
        assert Process(m, env, net, self, text).visits[0].accepted;
      }
    }
  }

  lemma {:induction false} DeliverUnaccepted(m: Machine, env: Env, net: Net, site: Site, next: User, packet: string)
    requires m.Lawful() && NulFree(packet)
    ensures Unaccepted(net, Deliver(m, env, net, site, next, packet))
    decreases m.rank(packet), 2
  {
    var to := Listener(site, next, |net|);
    if to.Some? && m.carry(packet).Some? {
      ProcessUnaccepted(m, env, net, to.value, packet);
    }
  }

  /** The sender's own list after a send that returned 0 has the record in
      addition; in any other list, and after any other send, nothing is new. */
  predicate OnlyLogged(m: Machine, net: Net, s: SendRun, self: nat, receiverId: string, message: string)
    requires self < |net|
  {
    var record := if s.result == Returned(false) then [Message(m.id(net[self].key), receiverId, message)] else [];
    SameMessages(net, s.net, self) && s.net[self].messages == net[self].messages + record
  }

  /** For every send in every surroundings, of any message: if no receiver accepted
      a signature, no list anywhere changes but for the sender's record of a 0; so
      unless 0 is returned, no list changes at all. */
  lemma NothingUnlessAccepted(m: Machine, env: Env, net: Net, self: nat, receiverId: string, message: string,
                              draws: Draws)
    requires m.Lawful() && self < |net|
    ensures var s := Send(m, env, net, self, receiverId, message, draws);
            s.result != Unspecified ==>
              && (!Accepted(s.visits) ==> OnlyLogged(m, net, s, self, receiverId, message))
              && (s.result != Returned(false) ==> SameMessages(net, s.net, |net|))
  {
    ZeroMeansAccepted(m, env, net, self, receiverId, message, draws);
    if m.fetch(env(4).users).Fetched? {
      var users := m.fetch(env(4).users).users;
      var plan := m.form(net[self].key, users, receiverId, message, draws);
      if plan.Packet? {
        var here := WithList(net, self, users);
        DeliverUnaccepted(m, env, here, env(4), plan.next, plan.packet);
        LoggedOnly(m, net, here, self, receiverId, message, Deliver(m, env, here, env(4), plan.next, plan.packet));
      }
    }
  }

  lemma LoggedOnly(m: Machine, net: Net, here: Net, self: nat, receiverId: string, message: string, d: Trip)
    requires self < |net| && SameKeys(net, here) && SameMessages(net, here, |net|) && Unaccepted(here, d)
    ensures var s := Report(m, self, receiverId, message, d);
            s.result != Unspecified && !Accepted(s.visits) ==> OnlyLogged(m, net, s, self, receiverId, message)
  {
  }
}
