/** Runs of the whole network against any traffic: packets may be made up,
    repeated, reordered or lost, and replies may say anything. */
module Authenticity {
  import opened Text
  import opened Base64
  import opened Rsa
  import opened SslHandler
  import opened Framing
  import opened Directory
  import opened Onion
  import opened Transit
  import opened Stages
  import opened Claims
  import Honest
  import Reports

  /** A handler run on any text (what comes back from a forwarded packet changes
      nothing it keeps); a user's send up to its packet; the reply to a send. */
  datatype Event =
    | Handle(node: nat, text: string, site: Site)
    | Submit(node: nat, receiverId: string, message: string, site: Site, draws: Draws)
    | Finish(node: nat, receiverId: string, message: string, reply: string)

  /** The peers, and the history that the entries answer to: every message that
      a peer passed to `signMessage`, the sends still waiting for a reply, and
      the records of sends whose reply was not SIGFAULT. */
  datatype Ledger = Ledger(net: Net, signed: set<(nat, string)>, waiting: set<(nat, string, string)>,
                           confirmed: set<(nat, Message)>)

  function Step(m: Machine, l: Ledger, e: Event): (next: Ledger)
    ensures |next.net| == |l.net|
  {
    if e.node >= |l.net| then l
    else
      var p := l.net[e.node];
      match e
      case Handle(node, text, site) =>
        if text == "" || m.fetch(site.users).Hung? then l
        else
          var users := m.fetch(site.users).users;
          var here := p.(userList := users);
          var a := m.peel(p.key, users, text, site);
          var accepts := m.fetch(site.users).Fetched? && a.Accept?;
          l.(net := l.net[node := if accepts then Store(m, here, a.sender.hashId, a.message) else here])
      case Submit(node, receiverId, message, site, draws) =>
        if m.fetch(site.users).Hung? then l
        else
          var users := m.fetch(site.users).users;
          var net := l.net[node := p.(userList := users)];
          if m.fetch(site.users).Fetched? && m.form(p.key, users, receiverId, message, draws).Packet? then
            l.(net := net, signed := l.signed + {(node, message)}, waiting := l.waiting + {(node, receiverId, message)})
          else
            l.(net := net)
      case Finish(node, receiverId, message, reply) =>
        if (node, receiverId, message) !in l.waiting then l
        else
          var done := l.(waiting := l.waiting - {(node, receiverId, message)});
          if reply == SIGFAULT then done
          else done.(net := l.net[node := Log(m, p, receiverId, message)],
                     confirmed := l.confirmed + {(node, Message(m.id(p.key), receiverId, message))})
  }

  function Run(m: Machine, l: Ledger, events: seq<Event>): (end: Ledger)
    ensures |end.net| == |l.net|
    decreases |events|
  {
    if events == [] then l else Run(m, Step(m, l, events[0]), events[1..])
  }

  // ---------- what is assumed of a run ----------

  /** Some peer with this public key passed the message to `signMessage` before. */
  ghost predicate SignedUnder(c: Crypto, l: Ledger, pk: string, message: string) {
    exists k :: 0 <= k < |l.net| && c.PublicKey(l.net[k].key) == pk && (k, message) in l.signed
  }

  /** A peer with this public key made the block when it signed something. */
  ghost predicate MadeUnder(c: Crypto, l: Ledger, pk: string, block: seq<byte>) {
    exists s, junk :: s in l.signed && s.0 < |l.net| && c.PublicKey(l.net[s.0].key) == pk &&
                      block == DigestBlock(c, l.net[s.0].key, s.1, junk)
  }

  /** The ideal of a signature: a block that was not made by signing does not open
      to 64 characters; and nothing shown collides with anything signed. */
  ghost predicate Unforged(c: Crypto, l: Ledger, claim: Claim) {
    && (MadeUnder(c, l, claim.sender.publicKey, claim.block) || |OpensTo(c, claim.sender.publicKey, claim.block)| != 64)
    && forall s <- l.signed :: c.Sha256(s.1) == c.Sha256(claim.shown) ==> s.1 == claim.shown
  }

  /** Whatever claim the text makes at this handler is not forged. */
  ghost predicate ForgeryFree(m: Machine, c: Crypto, l: Ledger, e: Event) {
    e.Handle? && e.node < |l.net| && m.fetch(e.site.users).Fetched? ==>
      var claim := ClaimOf(c, l.net[e.node].key, m.fetch(e.site.users).users, e.text, e.site);
      claim.Some? ==> Unforged(c, l, claim.value)
  }

  /** Every key in the handler's list hashes to its id. */
  predicate ListedKeysMatch(m: Machine, c: Crypto, e: Event) {
    e.Handle? && m.fetch(e.site.users).Fetched? ==> forall u <- m.fetch(e.site.users).users :: KeyMatches(c, u)
  }

  /** No step is undefined: nothing is claimed of a peer, or a network, after one. */
  predicate Defined(m: Machine, l: Ledger, e: Event) {
    if e.node >= |l.net| then true
    else
      match e
      case Handle(node, text, site) =>
        text != "" ==>
          && !m.fetch(site.users).Garbled?
          && (m.fetch(site.users).Fetched? ==>
                !m.peel(l.net[node].key, m.fetch(site.users).users, text, site).Undefined?)
      case Submit(node, receiverId, message, site, draws) =>
        && !m.fetch(site.users).Garbled?
        && (m.fetch(site.users).Fetched? ==>
              !m.form(l.net[node].key, m.fetch(site.users).users, receiverId, message, draws).NoPlan?)
      case Finish(_, _, _, _) => true
  }

  ghost predicate Fair(m: Machine, c: Crypto, l: Ledger, e: Event) {
    Defined(m, l, e) && ForgeryFree(m, c, l, e) && ListedKeysMatch(m, c, e)
  }

  ghost predicate FairRun(m: Machine, c: Crypto, l: Ledger, events: seq<Event>)
    decreases |events|
  {
    events != [] ==> Fair(m, c, l, events[0]) && FairRun(m, c, Step(m, l, events[0]), events[1..])
  }

  /** A block that verifies as the digest of `shown` was made by signing `shown`. */
  lemma OpenedIsSigned(c: Crypto, l: Ledger, claim: Claim)
    requires c.Laws() && Unforged(c, l, claim)
    requires OpensTo(c, claim.sender.publicKey, claim.block) == c.Sha256(claim.shown)
    ensures SignedUnder(c, l, claim.sender.publicKey, claim.shown)
  {
    HashHasNoNul(c, claim.shown);
    var s, junk :| s in l.signed && s.0 < |l.net| && c.PublicKey(l.net[s.0].key) == claim.sender.publicKey &&
                   claim.block == DigestBlock(c, l.net[s.0].key, s.1, junk);
    MadeOpens(c, l.net[s.0].key, s.1, junk);
    assert s == (s.0, claim.shown);
  }

  /** An accepted message was signed under the key that the list has for its sender. */
  lemma AcceptedIsSigned(m: Machine, c: Crypto, l: Ledger, e: Event)
    requires Runs(m, c) && c.Laws() && e.Handle? && e.node < |l.net| && ForgeryFree(m, c, l, e)
    requires m.fetch(e.site.users).Fetched?
    requires m.peel(l.net[e.node].key, m.fetch(e.site.users).users, e.text, e.site).Accept?
    ensures var a := m.peel(l.net[e.node].key, m.fetch(e.site.users).users, e.text, e.site);
            SignedUnder(c, l, a.sender.publicKey, a.message)
  {
    var key, users := l.net[e.node].key, m.fetch(e.site.users).users;
    assert Case((key, users, e.text, e.site));
    AcceptedClaim(c, key, users, e.text, e.site);
    OpenedIsSigned(c, l, ClaimOf(c, key, users, e.text, e.site).value);
  }

  // ---------- authenticity ----------

  /** A peer with this id passed the message to `signMessage`. */
  ghost predicate SignedBy(m: Machine, l: Ledger, id: string, message: string) {
    exists k :: 0 <= k < |l.net| && m.id(l.net[k].key) == id && (k, message) in l.signed
  }

  /** An entry of the owner's is the record of a confirmed send of its own; any
      other names the owner as receiver and was signed by the peer it names. */
  ghost predicate Justified(m: Machine, l: Ledger, j: nat, e: Message)
    requires j < |l.net|
  {
    var own := m.id(l.net[j].key);
    if e.sender == own then (j, e) in l.confirmed && (j, e.message) in l.signed
    else e.receiver == own && SignedBy(m, l, e.sender, e.message)
  }

  ghost predicate Authentic(m: Machine, l: Ledger) {
    && (forall j, i | 0 <= j < |l.net| && 0 <= i < |l.net[j].messages| :: Justified(m, l, j, l.net[j].messages[i]))
    && (forall w <- l.waiting :: (w.0, w.2) in l.signed)
  }

  /** The history only grows, keys stay, and lists only gain entries at the end. */
  predicate Extends(l: Ledger, next: Ledger) {
    && SameKeys(l.net, next.net) && l.signed <= next.signed && l.confirmed <= next.confirmed
    && forall j | 0 <= j < |l.net| :: l.net[j].messages <= next.net[j].messages
  }

  lemma StepExtends(m: Machine, l: Ledger, e: Event)
    ensures Extends(l, Step(m, l, e))
  {
  }

  lemma StillJustified(m: Machine, l: Ledger, next: Ledger, j: nat, e: Message)
    requires Extends(l, next) && j < |l.net| && Justified(m, l, j, e)
    ensures Justified(m, next, j, e)
  {
    if e.sender != m.id(l.net[j].key) {
      var k :| 0 <= k < |l.net| && m.id(l.net[k].key) == e.sender && (k, e.message) in l.signed;
      assert m.id(next.net[k].key) == e.sender;
    }
  }

  /** A step that adds at most one justified entry keeps the whole ledger authentic. */
  lemma OneMoreEntry(m: Machine, l: Ledger, next: Ledger, node: nat, added: seq<Message>)
    requires Authentic(m, l) && Extends(l, next) && node < |l.net|
    requires forall j | 0 <= j < |l.net| ::
               next.net[j].messages == if j == node then l.net[j].messages + added else l.net[j].messages
    requires forall i | 0 <= i < |added| :: Justified(m, next, node, added[i])
    requires forall w <- next.waiting :: (w.0, w.2) in next.signed
    ensures Authentic(m, next)
  {
    forall j, i | 0 <= j < |next.net| && 0 <= i < |next.net[j].messages|
      ensures Justified(m, next, j, next.net[j].messages[i])
    {
      if i < |l.net[j].messages| {
        StillJustified(m, l, next, j, l.net[j].messages[i]);
      }
    }
  }

  predicate SameHistory(l: Ledger, next: Ledger) {
    next.signed == l.signed && next.waiting == l.waiting && next.confirmed == l.confirmed
  }

  lemma SameSigners(m: Machine, l: Ledger, next: Ledger, id: string, message: string)
    requires SameKeys(l.net, next.net) && next.signed == l.signed
    ensures SignedBy(m, next, id, message) <==> SignedBy(m, l, id, message)
  {
    if k :| 0 <= k < |l.net| && m.id(l.net[k].key) == id && (k, message) in l.signed {
      assert m.id(next.net[k].key) == id;
    }
    if k :| 0 <= k < |next.net| && m.id(next.net[k].key) == id && (k, message) in next.signed {
      assert m.id(l.net[k].key) == id;
    }
  }

  /** Whoever sent it, an accepted message was signed by a peer with its id. */
  lemma AcceptedIsJustified(m: Machine, c: Crypto, l: Ledger, e: Event)
    requires Runs(m, c) && c.Laws() && e.Handle? && Fair(m, c, l, e) && e.node < |l.net|
    requires m.fetch(e.site.users).Fetched?
    requires m.peel(l.net[e.node].key, m.fetch(e.site.users).users, e.text, e.site).Accept?
    ensures var a := m.peel(l.net[e.node].key, m.fetch(e.site.users).users, e.text, e.site);
            SignedBy(m, l, a.sender.hashId, a.message)
  {
    AcceptedIsSigned(m, c, l, e);
    SenderSigned(m, c, l, m.fetch(e.site.users).users, e.text, e.site, l.net[e.node].key);
  }

  /** A step that stores `a` from another sender, and changes no other list. */
  lemma StoringKeeps(m: Machine, l: Ledger, next: Ledger, node: nat, sender: string, message: string)
    requires Authentic(m, l) && Extends(l, next) && SameHistory(l, next) && node < |l.net|
    requires SignedBy(m, l, sender, message) && sender != m.id(l.net[node].key)
    requires forall j | 0 <= j < |l.net| ::
               next.net[j].messages == l.net[j].messages +
               (if j == node then [Message(sender, m.id(l.net[node].key), message)] else [])
    ensures Authentic(m, next)
  {
    SameSigners(m, l, next, sender, message);
    OneMoreEntry(m, l, next, node, [Message(sender, m.id(l.net[node].key), message)]);
  }

  lemma HandleKeeps(m: Machine, c: Crypto, l: Ledger, e: Event, next: Ledger)
    requires Runs(m, c) && c.Laws() && Authentic(m, l) && e.Handle? && Fair(m, c, l, e) && e.node < |l.net|
    requires next == Step(m, l, e)
    ensures Authentic(m, next)
  {
    StepExtends(m, l, e);
    if e.text != "" && m.fetch(e.site.users).Fetched? {
      var key := l.net[e.node].key;
      var a := m.peel(key, m.fetch(e.site.users).users, e.text, e.site);
      if a.Accept? && a.sender.hashId != m.id(key) {
        AcceptedIsJustified(m, c, l, e);
        StoringKeeps(m, l, next, e.node, a.sender.hashId, a.message);
      } else {
        OneMoreEntry(m, l, next, e.node, []);
      }
    }
  }

  /** The accepted key is the listed key of the sender's id, so whoever signed
      under it has that id. */
  lemma SenderSigned(m: Machine, c: Crypto, l: Ledger, users: seq<User>, text: string, site: Site, key: PrivateKey)
    requires Runs(m, c) && m.peel(key, users, text, site).Accept?
    requires forall u <- users :: KeyMatches(c, u)
    requires var a := m.peel(key, users, text, site); SignedUnder(c, l, a.sender.publicKey, a.message)
    ensures var a := m.peel(key, users, text, site);
            exists k :: 0 <= k < |l.net| && m.id(l.net[k].key) == a.sender.hashId && (k, a.message) in l.signed
  {
    var a := m.peel(key, users, text, site);
    AcceptedIsListed(m, c, key, users, text, site);
    var k :| 0 <= k < |l.net| && c.PublicKey(l.net[k].key) == a.sender.publicKey && (k, a.message) in l.signed;
    assert Case(l.net[k].key);
    assert m.id(l.net[k].key) == a.sender.hashId;
  }

  lemma AcceptedIsListed(m: Machine, c: Crypto, key: PrivateKey, users: seq<User>, text: string, site: Site)
    requires Runs(m, c)
    ensures var a := m.peel(key, users, text, site); a.Accept? ==> a.sender in users
  {
    assert Case((key, users, text, site));
    AcceptedText(c, key, users, text, site);
  }

  lemma OwnEventKeeps(m: Machine, c: Crypto, l: Ledger, e: Event)
    requires Authentic(m, l) && !e.Handle? && e.node < |l.net|
    ensures Authentic(m, Step(m, l, e))
  {
    var next := Step(m, l, e);
    StepExtends(m, l, e);
    if e.Finish? && (e.node, e.receiverId, e.message) in l.waiting && e.reply != SIGFAULT {
      var entry := Message(m.id(l.net[e.node].key), e.receiverId, e.message);
      OneMoreEntry(m, l, next, e.node, [entry]);
    } else {
      OneMoreEntry(m, l, next, e.node, []);
    }
  }

  /** Over every fair run, whatever packets and replies the network produces:
      every stored entry of another sender names the owner as its receiver and
      carries a message which a peer with the sender's id signed earlier; every
      entry of the owner's own records a send of its own that was not refused. */
  lemma {:induction false} AuthenticRun(m: Machine, c: Crypto, l: Ledger, events: seq<Event>)
    requires Runs(m, c) && c.Laws() && Authentic(m, l) && FairRun(m, c, l, events)
    ensures Authentic(m, Run(m, l, events)) && Extends(l, Run(m, l, events))
    decreases |events|
  {
    if events != [] {
      var next := Step(m, l, events[0]);
      StepExtends(m, l, events[0]);
      if events[0].node < |l.net| {
        if events[0].Handle? {
          HandleKeeps(m, c, l, events[0], next);
        } else {
          OwnEventKeeps(m, c, l, events[0]);
        }
      }
      AuthenticRun(m, c, next, events[1..]);
      ExtendsTransitively(l, next, Run(m, next, events[1..]));
    }
  }

  lemma ExtendsTransitively(l: Ledger, middle: Ledger, end: Ledger)
    requires Extends(l, middle) && Extends(middle, end)
    ensures Extends(l, end)
  {
  }

  /** A network in which nobody has received or sent anything yet. */
  lemma FreshIsAuthentic(m: Machine, net: Net)
    requires forall j | 0 <= j < |net| :: net[j].messages == []
    ensures Authentic(m, Ledger(net, {}, {}, {}))
  {
  }

  // ---------- what signatures do not bind ----------

  /** A secret packet that some peer forms around a message signed earlier by
      `signer`, naming the sender of `entry`, and shows to the handler at `node`. */
  datatype Showing = Showing(node: nat, entry: User, signer: nat, message: string, w: Writing,
                             sealing: nat -> Writing, site: Site)

  function ShowEvent(c: Crypto, l: Ledger, s: Showing): Event
    requires s.node < |l.net| && s.signer < |l.net|
  {
    Handle(s.node, Shown(c, l.net[s.node].key, s.entry.hashId, l.net[s.signer].key, s.message, s.w, s.sealing), s.site)
  }

  /** The handler's list has that entry for its id, with the signer's key. */
  ghost predicate Showable(m: Machine, c: Crypto, l: Ledger, s: Showing) {
    && s.node < |l.net| && s.signer < |l.net| && (s.signer, s.message) in l.signed
    && (forall t <- l.signed :: c.Sha256(t.1) == c.Sha256(s.message) ==> t.1 == s.message)
    && m.fetch(s.site.users).Fetched? && Lookup(m.fetch(s.site.users).users, s.entry.hashId) == Some(s.entry)
    && Id(s.entry.hashId) && s.entry.publicKey == c.PublicKey(l.net[s.signer].key)
    && Unseparated(s.message) && ByteText(s.message)
    && s.entry.hashId != m.id(l.net[s.node].key)
  }

  function Entry(m: Machine, l: Ledger, s: Showing): Message
    requires s.node < |l.net|
  {
    Message(s.entry.hashId, m.id(l.net[s.node].key), s.message)
  }

  /** The signature that such a packet shows is not forged. */
  lemma ShownIsUnforged(m: Machine, c: Crypto, l: Ledger, s: Showing)
    requires c.Laws() && Showable(m, c, l, s)
    ensures ForgeryFree(m, c, l, ShowEvent(c, l, s))
  {
    var k := l.net[s.signer].key;
    ShownClaim(c, l.net[s.node].key, m.fetch(s.site.users).users, s.entry, k, s.message, s.w, s.sealing, s.site);
    assert (s.signer, s.message) in l.signed;
    assert MadeUnder(c, l, s.entry.publicKey, DigestBlock(c, k, s.message, s.w.junk));
  }

  lemma ShownIsAccepted(m: Machine, c: Crypto, l: Ledger, s: Showing)
    requires Runs(m, c) && c.Laws() && Showable(m, c, l, s)
    ensures m.peel(l.net[s.node].key, m.fetch(s.site.users).users, ShowEvent(c, l, s).text, s.site)
            == Accept(s.entry, s.message)
  {
    var key, users := l.net[s.node].key, m.fetch(s.site.users).users;
    AcceptsListedKey(c, key, users, s.entry, l.net[s.signer].key, s.message, s.w, s.sealing, s.site);
    assert Case((key, users, ShowEvent(c, l, s).text, s.site));
  }

  /** The handler stores the message as the entry's. */
  lemma ShownIsStored(m: Machine, c: Crypto, l: Ledger, s: Showing, next: Ledger)
    requires Runs(m, c) && c.Laws() && Showable(m, c, l, s) && next == Step(m, l, ShowEvent(c, l, s))
    ensures SameKeys(l.net, next.net) && SameHistory(l, next) && SameMessages(l.net, next.net, s.node)
    ensures next.net[s.node].messages == l.net[s.node].messages + [Entry(m, l, s)]
  {
    ShownIsAccepted(m, c, l, s);
    assert ShowEvent(c, l, s).text != "";
  }

  /** Such a step keeps the network authentic exactly when a peer with the entry's
      id signed the message, which a handler that compared the listed key with the
      id would ensure. */
  lemma ShownAuthenticExactly(m: Machine, c: Crypto, l: Ledger, s: Showing, next: Ledger)
    requires Runs(m, c) && c.Laws() && Authentic(m, l) && Showable(m, c, l, s) && next == Step(m, l, ShowEvent(c, l, s))
    ensures Authentic(m, next) <==> SignedBy(m, l, s.entry.hashId, s.message)
    ensures KeyMatches(c, s.entry) ==> SignedBy(m, l, s.entry.hashId, s.message)
  {
    var last := |l.net[s.node].messages|;
    ShownIsStored(m, c, l, s, next);
    StepExtends(m, l, ShowEvent(c, l, s));
    assert next.net[s.node].messages[last] == Entry(m, l, s);
    SameSigners(m, l, next, s.entry.hashId, s.message);
    if SignedBy(m, l, s.entry.hashId, s.message) {
      StoringKeeps(m, l, next, s.node, s.entry.hashId, s.message);
    } else {
      assert !Justified(m, next, s.node, next.net[s.node].messages[last]);
    }
    if KeyMatches(c, s.entry) {
      assert Case(l.net[s.signer].key);
    }
  }

  /** Peer 1 signed a message; its own list shows peer 0 with the key of peer 1. */
  ghost predicate SwappedScene(m: Machine, c: Crypto, l: Ledger, s: Showing) {
    && c == PlainCrypto() && Runs(m, c) && l == Ledger(Honest.ToyNet(), {(1, s.message)}, {}, {})
    && s.node == 1 && s.signer == 1 && s.entry == Swapped() && s.site.users == [Swapped()]
    && Unseparated(s.message) && ByteText(s.message)
  }

  lemma SwappedFetched(m: Machine, c: Crypto, u: User)
    requires c == PlainCrypto() && Runs(m, c) && u == Swapped()
    ensures m.fetch([u]) == Fetched([u]) && Lookup([u], u.hashId) == Some(u) && Id(u.hashId)
    ensures c.HashId(0) != c.HashId(1) && u.hashId == c.HashId(0) && u.publicKey == c.PublicKey(1)
  {
    LawsAreSatisfiable();
    HashHasNoNul(c, c.PublicKey(0));
    assert c.HashId(0)[0] == '0' && c.HashId(1)[0] == '1';
    Reports.ShortEntryFetched(u);
    assert Case([u]);
  }

  lemma SwappedShowable(m: Machine, c: Crypto, l: Ledger, s: Showing)
    requires SwappedScene(m, c, l, s)
    ensures c.Laws() && Showable(m, c, l, s)
  {
    LawsAreSatisfiable();
    SwappedFetched(m, c, s.entry);
    Honest.ToyIds(m, c, l.net);
  }

  lemma SwappedUnsigned(m: Machine, c: Crypto, l: Ledger, s: Showing)
    requires SwappedScene(m, c, l, s)
    ensures Authentic(m, l) && !SignedBy(m, l, s.entry.hashId, s.message)
  {
    SwappedFetched(m, c, s.entry);
    Honest.ToyIds(m, c, l.net);
  }

  /** Where nobody with the entry's id signed the message, the step that stores it
      needs no forgery. */
  lemma UnsignedIsStored(m: Machine, c: Crypto, l: Ledger, s: Showing, next: Ledger)
    requires Runs(m, c) && c.Laws() && Authentic(m, l) && Showable(m, c, l, s) && next == Step(m, l, ShowEvent(c, l, s))
    requires !SignedBy(m, l, s.entry.hashId, s.message)
    ensures ForgeryFree(m, c, l, ShowEvent(c, l, s)) && !Authentic(m, next)
  {
    ShownIsUnforged(m, c, l, s);
    ShownAuthenticExactly(m, c, l, s, next);
  }

  /** Without any forgery, peer 1 then stores, as from peer 0, a message that peer
      0 never signed. */
  lemma SwappedBreaks(m: Machine, c: Crypto, l: Ledger, s: Showing, next: Ledger)
    requires SwappedScene(m, c, l, s) && |l.net| == 2 && next == Step(m, l, ShowEvent(c, l, s))
    ensures Authentic(m, l) && ForgeryFree(m, c, l, ShowEvent(c, l, s)) && !Authentic(m, next)
  {
    SwappedShowable(m, c, l, s);
    SwappedUnsigned(m, c, l, s);
    UnsignedIsStored(m, c, l, s, next);
  }

  lemma RunTwo(m: Machine, c: Crypto, l: Ledger, a: Event, b: Event)
    ensures Run(m, l, [a, b]) == Step(m, Step(m, l, a), b)
    ensures FairRun(m, c, l, [a, b]) <==> Fair(m, c, l, a) && Fair(m, c, Step(m, l, a), b)
  {
    var next := Step(m, l, a);
    assert [a, b][1..] == [b] && [b][1..] == [];
    assert Run(m, next, [b]) == Run(m, Step(m, next, b), []);
    assert FairRun(m, c, next, [b]) <==> Fair(m, c, next, b) && FairRun(m, c, Step(m, next, b), []);
  }

  lemma ShownIsFair(m: Machine, c: Crypto, l: Ledger, s: Showing)
    requires Runs(m, c) && c.Laws() && Showable(m, c, l, s)
    requires forall u <- m.fetch(s.site.users).users :: KeyMatches(c, u)
    ensures Fair(m, c, l, ShowEvent(c, l, s))
  {
    ShownIsAccepted(m, c, l, s);
    ShownIsUnforged(m, c, l, s);
  }

  lemma StillShowable(m: Machine, c: Crypto, l: Ledger, s: Showing, once: Ledger)
    requires Showable(m, c, l, s) && SameKeys(l.net, once.net) && SameHistory(l, once)
    ensures Showable(m, c, once, s) && ShowEvent(c, once, s) == ShowEvent(c, l, s)
    ensures Entry(m, once, s) == Entry(m, l, s)
  {
  }

  /** Shown twice, stored twice. */
  lemma ShownTwice(m: Machine, c: Crypto, l: Ledger, s: Showing, e: Event, twice: Ledger)
    requires Runs(m, c) && c.Laws() && Showable(m, c, l, s) && e == ShowEvent(c, l, s) && twice == Run(m, l, [e, e])
    requires forall u <- m.fetch(s.site.users).users :: KeyMatches(c, u)
    ensures FairRun(m, c, l, [e, e])
    ensures twice.net[s.node].messages == l.net[s.node].messages + [Entry(m, l, s), Entry(m, l, s)]
  {
    var once := Step(m, l, e);
    ShownIsStored(m, c, l, s, once);
    StillShowable(m, c, l, s, once);
    RunTwo(m, c, l, e, e);
    ShownIsStored(m, c, once, s, twice);
    ShownIsFair(m, c, l, s);
    ShownIsFair(m, c, once, s);
  }

  /** The submit forms a packet. */
  predicate Submits(m: Machine, l: Ledger, submit: Event) {
    && submit.Submit? && submit.node < |l.net| && m.fetch(submit.site.users).Fetched?
    && m.form(l.net[submit.node].key, m.fetch(submit.site.users).users, submit.receiverId, submit.message,
              submit.draws).Packet?
  }

  lemma SubmitSigns(m: Machine, l: Ledger, submit: Event, start: Ledger)
    requires Submits(m, l, submit) && start == Step(m, l, submit)
    ensures SameKeys(l.net, start.net) && SameMessages(l.net, start.net, |l.net|) && Defined(m, l, submit)
    ensures start.signed == l.signed + {(submit.node, submit.message)}
  {
  }

  /** A signature binds neither the receiver nor the occasion: a message that was
      submitted for one peer can be stored at another, and twice. */
  lemma ReplayStores(m: Machine, c: Crypto, l: Ledger, submit: Event, start: Ledger, s: Showing, e: Event,
                     end: Ledger)
    requires Runs(m, c) && c.Laws() && Submits(m, l, submit) && submit.node == s.signer && submit.message == s.message
    requires start == Step(m, l, submit) && Showable(m, c, start, s) && e == ShowEvent(c, start, s)
    requires end == Run(m, l, [submit, e, e]) && submit.receiverId != m.id(start.net[s.node].key)
    requires forall u <- m.fetch(s.site.users).users :: KeyMatches(c, u)
    ensures s.node < |l.net| && FairRun(m, c, l, [submit, e, e])
    ensures end.net[s.node].messages == l.net[s.node].messages + [Entry(m, l, s), Entry(m, l, s)]
  {
    SubmitSigns(m, l, submit, start);
    ShownTwice(m, c, start, s, e, Run(m, start, [e, e]));
    assert [submit, e, e][1..] == [e, e];
  }

  // ---------- three peers and a replay ----------

  /** Peer 0 submits a message for peer 1; it is shown to peer 2, whose list has
      peer 0. Nobody has stored or sent anything before. */
  ghost predicate ReplayScene(m: Machine, c: Crypto, l: Ledger, submit: Event, s: Showing) {
    && c == PlainCrypto() && Runs(m, c) && l == Ledger([Peer(0, [], []), Peer(1, [], []), Peer(2, [], [])], {}, {}, {})
    && submit.Submit? && submit.node == 0 && submit.receiverId == c.HashId(1) && submit.message == s.message
    && submit.site.users == Honest.ToyDirectory() && s.site.users == Honest.ToyDirectory()
    && s.node == 2 && s.signer == 0 && s.entry == Honest.ToyUser(0)
    && Unseparated(s.message) && ByteText(s.message)
  }

  lemma ListOnMachine(m: Machine, c: Crypto, users: seq<User>)
    requires Runs(m, c) && Fetchable(users)
    ensures m.fetch(users) == Fetched(users)
  {
    assert Case(users);
    FetchExact(users);
  }

  lemma RouteMatches(c: Crypto, users: seq<User>, receiver: User, draws: Draws)
    requires receiver in users && forall u <- users :: KeyMatches(c, u)
    ensures RouteKeysMatch(c, Choose(users, receiver, draws))
  {
    var route := Choose(users, receiver, draws);
    assert route.peer1 in users && route.peer2 in users && route.peer3 in users;
  }

  lemma FormsPacket(c: Crypto, key: PrivateKey, users: seq<User>, receiverId: string, message: string, draws: Draws)
    requires Lookup(users, receiverId).Some? && forall u <- users :: KeyMatches(c, u)
    ensures Form(c, key, users, receiverId, message, draws).Packet?
  {
    match Lookup(users, receiverId)
    case Some(receiver) => RouteMatches(c, users, receiver, draws);
  }

  /** With that list a submit for a listed peer forms a packet. */
  lemma ListedSubmits(m: Machine, c: Crypto, l: Ledger, submit: Event, users: seq<User>)
    requires Runs(m, c) && submit.Submit? && submit.node < |l.net| && submit.site.users == users
    requires m.fetch(users) == Fetched(users) && Lookup(users, submit.receiverId).Some?
    requires forall u <- users :: KeyMatches(c, u)
    ensures Submits(m, l, submit)
  {
    FormsPacket(c, l.net[submit.node].key, users, submit.receiverId, submit.message, submit.draws);
    assert Case((l.net[submit.node].key, users, submit.receiverId, submit.message, submit.draws));
  }

  lemma SceneSubmits(m: Machine, c: Crypto, l: Ledger, submit: Event, s: Showing)
    requires ReplayScene(m, c, l, submit, s)
    ensures Submits(m, l, submit) && m.fetch(s.site.users) == Fetched(s.site.users)
    ensures forall u <- m.fetch(s.site.users).users :: KeyMatches(c, u)
  {
    Honest.ToyArrives(submit.site.users);
    Honest.ToyEntries(c, submit.site.users);
    ListOnMachine(m, c, submit.site.users);
    ListedSubmits(m, c, l, submit, submit.site.users);
  }

  lemma SceneEntry(m: Machine, c: Crypto, l: Ledger, submit: Event, s: Showing)
    requires ReplayScene(m, c, l, submit, s)
    ensures c.Laws() && Lookup(s.site.users, s.entry.hashId) == Some(s.entry) && Id(s.entry.hashId)
    ensures s.entry.publicKey == c.PublicKey(0) && s.entry.hashId != m.id(2) && submit.receiverId != m.id(2)
  {
    Honest.ToyEntries(c, s.site.users);
    Honest.ToyIdsApart(c);
    assert Case<PrivateKey>(2);
  }

  lemma SceneShows(m: Machine, c: Crypto, l: Ledger, submit: Event, start: Ledger, s: Showing)
    requires ReplayScene(m, c, l, submit, s) && start == Step(m, l, submit)
    ensures c.Laws() && Submits(m, l, submit) && Showable(m, c, start, s)
    ensures submit.receiverId != m.id(start.net[s.node].key)
    ensures forall u <- m.fetch(s.site.users).users :: KeyMatches(c, u)
  {
    SceneSubmits(m, c, l, submit, s);
    SubmitSigns(m, l, submit, start);
    SceneEntry(m, c, l, submit, s);
    assert start.net[2].key == 2 && start.net[0].key == 0;
  }

  /** In a fair run of three peers, a message for peer 1 is stored at peer 2, twice. */
  lemma ReplayHappens(m: Machine, c: Crypto, l: Ledger, submit: Event, start: Ledger, s: Showing, e: Event,
                      end: Ledger)
    requires ReplayScene(m, c, l, submit, s) && start == Step(m, l, submit) && |start.net| == 3
    requires e == ShowEvent(c, start, s) && end == Run(m, l, [submit, e, e])
    ensures submit.receiverId == c.HashId(1) && FairRun(m, c, l, [submit, e, e])
    ensures end.net[2].messages == [Entry(m, l, s), Entry(m, l, s)]
  {
    SceneShows(m, c, l, submit, start, s);
    ReplayStores(m, c, l, submit, start, s, e, end);
    assert l.net[2].messages == [];
  }

  // ---------- a send through the network is such a run ----------

  /** The handler runs that one packet causes, as events. */
  function ProcessEvents(m: Machine, env: Env, net: Net, self: nat, text: string): seq<Event>
    requires m.Lawful() && self < |net| && NulFree(text)
    decreases m.rank(text), 1
  {
    var site := env(m.rank(text));
    [Handle(self, text, site)] +
    if text == "" || !m.fetch(site.users).Fetched? then []
    else
      var users := m.fetch(site.users).users;
      match m.peel(net[self].key, users, text, site)
      case Forward(next, packet) => DeliverEvents(m, env, WithList(net, self, users), site, next, packet)
      case _ => []
  }

  function DeliverEvents(m: Machine, env: Env, net: Net, site: Site, next: User, packet: string): seq<Event>
    requires m.Lawful() && NulFree(packet)
    decreases m.rank(packet), 2
  {
    var to := Listener(site, next, |net|);
    if to.None? || m.carry(packet).None? then [] else ProcessEvents(m, env, net, to.value, packet)
  }

  lemma {:induction false} ProcessIsRun(m: Machine, env: Env, l: Ledger, self: nat, text: string)
    requires m.Lawful() && self < |l.net| && NulFree(text)
    ensures var end := Run(m, l, ProcessEvents(m, env, l.net, self, text));
            end.net == Process(m, env, l.net, self, text).net && SameHistory(l, end)
    decreases m.rank(text), 1
  {
    var site := env(m.rank(text));
    var first := Handle(self, text, site);
    var events := ProcessEvents(m, env, l.net, self, text);
    assert events[0] == first;
    if text != "" && m.fetch(site.users).Fetched? {
      var users := m.fetch(site.users).users;
      var a := m.peel(l.net[self].key, users, text, site);
      if a.Forward? {
        var middle := Step(m, l, first);
        DeliverIsRun(m, env, middle, site, a.next, a.packet);
        assert events[1..] == DeliverEvents(m, env, middle.net, site, a.next, a.packet);
      } else {
        assert events[1..] == [];
      }
    } else {
      assert events[1..] == [];
    }
  }

  lemma {:induction false} DeliverIsRun(m: Machine, env: Env, l: Ledger, site: Site, next: User, packet: string)
    requires m.Lawful() && NulFree(packet)
    ensures var end := Run(m, l, DeliverEvents(m, env, l.net, site, next, packet));
            end.net == Deliver(m, env, l.net, site, next, packet).net && SameHistory(l, end)
    decreases m.rank(packet), 2
  {
    var to := Listener(site, next, |l.net|);
    if to.Some? && m.carry(packet).Some? {
      ProcessIsRun(m, env, l, to.value, packet);
    }
  }

  /** The reply that `formPacketandSend` acts on, "SIGFAULT" where it never returns. */
  function ReplyOf(d: Trip, self: nat): string {
    if d.outcome.Replied? && d.dead != Some(self) then d.outcome.reply else SIGFAULT
  }

  function SendEvents(m: Machine, env: Env, net: Net, self: nat, receiverId: string, message: string,
                      draws: Draws): seq<Event>
    requires m.Lawful() && self < |net|
  {
    var site := env(4);
    [Submit(self, receiverId, message, site, draws)] +
    if !m.fetch(site.users).Fetched? then []
    else
      var users := m.fetch(site.users).users;
      var here := WithList(net, self, users);
      match m.form(net[self].key, users, receiverId, message, draws)
      case Packet(next, packet) =>
        DeliverEvents(m, env, here, site, next, packet) +
        [Finish(self, receiverId, message, ReplyOf(Deliver(m, env, here, site, next, packet), self))]
      case _ => []
  }

  lemma {:induction false} RunConcat(m: Machine, l: Ledger, a: seq<Event>, b: seq<Event>)
    ensures Run(m, l, a + b) == Run(m, Run(m, l, a), b)
    decreases |a|
  {
    if a == [] {
      assert a + b == b;
    } else {
      assert (a + b)[1..] == a[1..] + b;
      RunConcat(m, Step(m, l, a[0]), a[1..], b);
    }
  }

  /** A whole `formPacketandSend`, with every handler run it causes, is a run of
      events: what holds over every run holds of the network of classes. */
  lemma SendIsRun(m: Machine, env: Env, l: Ledger, self: nat, receiverId: string, message: string, draws: Draws)
    requires m.Lawful() && self < |l.net|
    ensures Run(m, l, SendEvents(m, env, l.net, self, receiverId, message, draws)).net ==
            Send(m, env, l.net, self, receiverId, message, draws).net
  {
    var site := env(4);
    var submit := Submit(self, receiverId, message, site, draws);
    var events := SendEvents(m, env, l.net, self, receiverId, message, draws);
    var start := Step(m, l, submit);
    assert events[0] == submit;
    if m.fetch(site.users).Fetched? {
      var users := m.fetch(site.users).users;
      var plan := m.form(l.net[self].key, users, receiverId, message, draws);
      if plan.Packet? {
        var d := Deliver(m, env, start.net, site, plan.next, plan.packet);
        var deliveries := DeliverEvents(m, env, start.net, site, plan.next, plan.packet);
        var finish := Finish(self, receiverId, message, ReplyOf(d, self));
        assert events[1..] == deliveries + [finish];
        DeliverIsRun(m, env, start, site, plan.next, plan.packet);
        RunConcat(m, start, deliveries, [finish]);
        assert [finish][1..] == [];
      } else {
        assert events[1..] == [];
      }
    } else {
      assert events[1..] == [];
    }
  }
}
