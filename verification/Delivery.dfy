/** Packets whose layers are known: how each one ends, from the lists and the
    listeners that its stages meet. */
module Delivery {
  import opened Text
  import opened Framing
  import opened Directory
  import opened Onion
  import opened Transit

  // ---------- a packet whose layers are known ----------

  /** A stage of a packet: whose it is, the text that peer receives, and what
      the peer with that id does with it. */
  datatype Layer = Layer(id: string, text: string, action: Action)

  function ListAt(m: Machine, env: Env, k: nat): seq<User> {
    match m.fetch(env(k).users)
    case Fetched(users) => users
    case _ => []
  }

  /** An address leads to the peer of that id, or refuses. */
  predicate Routed(m: Machine, site: Site, u: User, net: Net) {
    var to := Listener(site, u, |net|);
    to.Some? ==> m.id(net[to.value].key) == u.hashId
  }

  /** The list of a stage arrives, or makes `stoi` throw. */
  predicate ListEnds(m: Machine, env: Env, k: nat) {
    m.fetch(env(k).users).Fetched? || m.fetch(env(k).users).Thrown?
  }

  ghost predicate StageScripted(m: Machine, env: Env, net: Net, layers: seq<Layer>, k: nat, sid: string,
                                message: string)
    requires k < |layers|
  {
    var l := layers[k];
    && ListEnds(m, env, k) && m.rank(l.text) == k
    && l.text != "" && NulFree(l.text) && m.carry(l.text) == Some(l.text)
    && (m.fetch(env(k).users).Fetched? ==>
          && ActionFits(m, env, net, layers, k, sid, message)
          && forall j | 0 <= j < |net| && m.id(net[j].key) == l.id ::
               m.peel(net[j].key, ListAt(m, env, k), l.text, env(k)) == l.action)
  }

  /** A refusal, the acceptance of the message at the last stage, or passing on
      the next layer's text to an address that is the next peer's or refuses. */
  predicate ActionFits(m: Machine, env: Env, net: Net, layers: seq<Layer>, k: nat, sid: string, message: string)
    requires k < |layers|
  {
    match layers[k].action
    case Refuse => true
    case Accept(sender, accepted) => k == 0 && sender.hashId == sid && accepted == message
    case Forward(next, packet) =>
      k > 0 && packet == layers[k - 1].text && next.hashId == layers[k - 1].id && Routed(m, env(k), next, net)
    case _ => false
  }

  ghost predicate Scripted(m: Machine, env: Env, net: Net, layers: seq<Layer>, sid: string, message: string) {
    layers != [] && forall k | 0 <= k < |layers| :: StageScripted(m, env, net, layers, k, sid, message)
  }

  /** How a packet ends: accepted at a peer, refused by somebody, or in the end of
      a peer's process. */
  datatype Fate = Got(at: nat) | Refused | Died(at: nat)

  /** The fate of a packet that stage `k` meets at peer `at`, from lists, listeners
      and layers alone. */
  function FateOf(m: Machine, env: Env, layers: seq<Layer>, peers: nat, k: nat, at: nat): (fate: Fate)
    requires k < |layers|
  {
    if m.fetch(env(k).users).Thrown? then Died(at)
    else
      match layers[k].action
      case Accept(_, _) => Got(at)
      case Forward(next, _) =>
        if k == 0 then Refused
        else
          (match Listener(env(k), next, peers)
           case None => Refused
           case Some(to) => FateOf(m, env, layers, peers, k - 1, to))
      case _ => Refused
  }

  /** Whether stage `k` ends in an accepted signature: every hop forwards to an
      address that answers, and the receiver accepts. */
  predicate Opens(env: Env, layers: seq<Layer>, peers: nat, k: nat)
    requires k < |layers|
  {
    match layers[k].action
    case Accept(_, _) => true
    case Forward(next, _) => k > 0 && Listener(env(k), next, peers).Some? && Opens(env, layers, peers, k - 1)
    case _ => false
  }

  /** Where no list throws, a packet is accepted or refused, as its stages open. */
  lemma {:induction false} FateOpens(m: Machine, env: Env, layers: seq<Layer>, peers: nat, k: nat, at: nat)
    requires k < |layers| && forall i: nat | i <= k :: !m.fetch(env(i).users).Thrown?
    ensures var fate := FateOf(m, env, layers, peers, k, at);
            !fate.Died? && (fate.Got? <==> Opens(env, layers, peers, k))
  {
    match layers[k].action
    case Forward(next, _) =>
      var to := Listener(env(k), next, peers);
      if k > 0 && to.Some? {
        FateOpens(m, env, layers, peers, k - 1, to.value);
      }
    case _ =>
  }

  /** What the receiver adds to its list; nothing for a message of its own. */
  function Receipt(sid: string, rid: string, message: string): seq<Message> {
    if sid == rid then [] else [Message(sid, rid, message)]
  }

  /** A trip that ended as its fate says: who accepted, whose process ended, what
      came back, and every list. */
  ghost predicate Settled(m: Machine, net: Net, d: Trip, sid: string, rid: string, message: string, fate: Fate) {
    && SameKeys(net, d.net) && (Accepted(d.visits) <==> fate.Got?)
    && d.dead == (if fate.Died? then Some(fate.at) else None)
    && (fate.Refused? ==> d.outcome == Replied(SIGFAULT))
    && (fate.Died? ==> d.outcome.Ended? || d.outcome == Replied("") || d.outcome == Replied(SUCCESS))
    && (!fate.Got? ==> SameMessages(net, d.net, |net|))
    && (fate.Got? ==>
          && d.outcome == Replied(SUCCESS) && fate.at < |net| && m.id(net[fate.at].key) == rid
          && SameMessages(net, d.net, fate.at)
          && d.net[fate.at].messages == net[fate.at].messages + Receipt(sid, rid, message))
  }

  lemma ForwardSettles(m: Machine, net: Net, here: Net, self: nat, rank: nat, down: Trip,
                       sid: string, rid: string, message: string, fate: Fate)
    requires self < |net| == |here| && SameKeys(net, here) && SameMessages(net, here, |net|)
    requires Settled(m, here, down, sid, rid, message, fate) && !down.outcome.Ended?
    ensures Settled(m, net, Conclude(self, rank, down), sid, rid, message, fate)
  {
    var visits := Conclude(self, rank, down).visits;
    if fate.Got? {
      var i :| 0 <= i < |down.visits| && down.visits[i].accepted;
      assert visits[i + 1].accepted;
    } else {
      assert forall i | 0 < i < |visits| :: visits[i] == down.visits[i - 1];
    }
  }

  function FateAt(m: Machine, env: Env, layers: seq<Layer>, peers: nat, k: nat, to: Option<nat>): Fate
    requires k < |layers|
  {
    match to
    case None => Refused
    case Some(at) => FateOf(m, env, layers, peers, k, at)
  }

  lemma AnsweredSettles(m: Machine, net: Net, d: Trip, sid: string, rid: string, message: string, fate: Fate)
    requires m.Lawful() && Settled(m, net, d, sid, rid, message, fate) && d.outcome != Replied("")
    ensures Settled(m, net, Answered(m, d), sid, rid, message, fate) && !Answered(m, d).outcome.Ended?
  {
  }

  lemma AcceptSettles(m: Machine, net: Net, here: Net, self: nat, rank: nat, sender: User, sid: string, message: string)
    requires self < |net| == |here| && here == net[self := net[self].(userList := here[self].userList)]
    requires sender.hashId == sid
    ensures Settled(m, net, Trip(here[self := Store(m, here[self], sid, message)], Replied(SUCCESS),
                                     [Visit(self, rank, true, [SUCCESS])], None),
                    sid, m.id(net[self].key), message, Got(self))
  {
    var visits := [Visit(self, rank, true, [SUCCESS])];
    assert visits[0].accepted;
  }

  lemma SameKeysScripted(m: Machine, env: Env, net: Net, after: Net, layers: seq<Layer>, sid: string, message: string)
    requires SameKeys(net, after) && Scripted(m, env, net, layers, sid, message)
    ensures Scripted(m, env, after, layers, sid, message)
  {
    forall k | 0 <= k < |layers|
      ensures StageScripted(m, env, after, layers, k, sid, message)
    {
      assert StageScripted(m, env, net, layers, k, sid, message);
    }
  }

  /** By stages, from the receiver outwards: a run on a known packet ends as the
      packet's fate says, and answers itself unless its own process ended. */
  lemma {:induction false} ProcessSettles(m: Machine, env: Env, net: Net, layers: seq<Layer>, k: nat, self: nat,
                                          sid: string, message: string)
    requires m.Lawful() && Scripted(m, env, net, layers, sid, message)
    requires k < |layers| && self < |net| && m.id(net[self].key) == layers[k].id
    requires NulFree(layers[k].text)
    ensures var d := Process(m, env, net, self, layers[k].text);
            && Settled(m, net, d, sid, layers[0].id, message, FateOf(m, env, layers, |net|, k, self))
            && d.outcome != Replied("")
    decreases k, 0
  {
    assert StageScripted(m, env, net, layers, k, sid, message);
    if m.fetch(env(k).users).Fetched? {
      var users := m.fetch(env(k).users).users;
      var here := WithList(net, self, users);
      match layers[k].action
      case Refuse =>
      case Accept(sender, _) => AcceptSettles(m, net, here, self, k, sender, sid, message);
      case Forward(next, packet) =>
        SameKeysScripted(m, env, net, here, layers, sid, message);
        DeliverLayer(m, env, here, layers, k - 1, env(k), next, sid, message);
        ForwardSettles(m, net, here, self, k, Deliver(m, env, here, env(k), next, packet), sid, layers[0].id, message,
                       FateOf(m, env, layers, |net|, k, self));
    }
  }

  lemma {:induction false} DeliverLayer(m: Machine, env: Env, net: Net, layers: seq<Layer>, k: nat, site: Site,
                                        next: User, sid: string, message: string)
    requires m.Lawful() && Scripted(m, env, net, layers, sid, message)
    requires k < |layers| && next.hashId == layers[k].id && Routed(m, site, next, net)
    requires NulFree(layers[k].text)
    ensures var d := Deliver(m, env, net, site, next, layers[k].text);
            && Settled(m, net, d, sid, layers[0].id, message,
                       FateAt(m, env, layers, |net|, k, Listener(site, next, |net|)))
            && !d.outcome.Ended?
    decreases k, 1
  {
    assert StageScripted(m, env, net, layers, k, sid, message);
    var to := Listener(site, next, |net|);
    if to.Some? {
      ProcessSettles(m, env, net, layers, k, to.value, sid, message);
      AnsweredSettles(m, net, Process(m, env, net, to.value, layers[k].text), sid, layers[0].id, message,
                      FateOf(m, env, layers, |net|, k, to.value));
    }
  }
}
