/** What a packet tells whom: the packet as a term over ideal cryptography, and
    everything that can be derived from it with a set of private keys. */
module Locality {
  import opened Text
  import opened Directory
  import opened Rsa
  import opened SslHandler
  import opened Onion
  import opened Stages
  import Transit
  import Sending

  /** Peers are numbers; `Name` is a hash id, `Body` the message text. */
  datatype Term =
    | Name(peer: nat)
    | Body
    | Pair(first: Term, second: Term)
    | Digest(of: Term)
    | Sealed(owner: nat, content: Term, use: nat)
    | Signature(owner: nat, content: Term)

  // ---------- derivation ----------

  /** How an onlooker gets at a term: it was seen, or it is part of a pair, the
      content of something sealed for a key it holds or of any signature, or
      something it builds itself. */
  datatype Proof =
    | Seen(i: nat)
    | First(of: Proof)
    | Second(of: Proof)
    | Unseal(of: Proof)
    | Unsign(of: Proof)
    | Both(a: Proof, b: Proof)
    | Hash(of: Proof)
    | Seal(owner: nat, use: nat, of: Proof)
    | SignAs(owner: nat, of: Proof)

  datatype Conclusion = Nothing | Derived(term: Term)

  function Conclude(proof: Proof, seen: seq<Term>, keys: set<nat>): Conclusion {
    match proof
    case Seen(i) => if i < |seen| then Derived(seen[i]) else Nothing
    case First(p) =>
      (match Conclude(p, seen, keys) case Derived(Pair(a, _)) => Derived(a) case _ => Nothing)
    case Second(p) =>
      (match Conclude(p, seen, keys) case Derived(Pair(_, b)) => Derived(b) case _ => Nothing)
    case Unseal(p) =>
      (match Conclude(p, seen, keys)
       case Derived(Sealed(owner, t, _)) => if owner in keys then Derived(t) else Nothing
       case _ => Nothing)
    case Unsign(p) =>
      (match Conclude(p, seen, keys) case Derived(Signature(_, t)) => Derived(t) case _ => Nothing)
    case Both(p, q) =>
      (match (Conclude(p, seen, keys), Conclude(q, seen, keys))
       case (Derived(a), Derived(b)) => Derived(Pair(a, b))
       case _ => Nothing)
    case Hash(p) =>
      (match Conclude(p, seen, keys) case Derived(t) => Derived(Digest(t)) case _ => Nothing)
    case Seal(owner, use, p) =>
      (match Conclude(p, seen, keys) case Derived(t) => Derived(Sealed(owner, t, use)) case _ => Nothing)
    case SignAs(owner, p) =>
      (match Conclude(p, seen, keys)
       case Derived(t) => if owner in keys then Derived(Signature(owner, t)) else Nothing
       case _ => Nothing)
  }

  ghost predicate Derivable(t: Term, seen: seq<Term>, keys: set<nat>) {
    exists proof :: Conclude(proof, seen, keys) == Derived(t)
  }

  /** The names and the body that show in a term to a holder of `keys`. */
  function Shows(t: Term, keys: set<nat>): set<Term> {
    match t
    case Name(_) => {t}
    case Body => {t}
    case Pair(a, b) => Shows(a, keys) + Shows(b, keys)
    case Digest(_) => {}
    case Sealed(owner, content, _) => if owner in keys then Shows(content, keys) else {}
    case Signature(_, content) => Shows(content, keys)
  }

  function ShowsAny(seen: seq<Term>, keys: set<nat>): set<Term> {
    if seen == [] then {} else Shows(seen[0], keys) + ShowsAny(seen[1..], keys)
  }

  lemma {:induction false} SeenShows(seen: seq<Term>, keys: set<nat>, i: nat)
    requires i < |seen|
    ensures Shows(seen[i], keys) <= ShowsAny(seen, keys)
  {
    if i > 0 {
      SeenShows(seen[1..], keys, i - 1);
    }
  }

  /** No derivation brings out anything that does not show. */
  lemma {:induction false} DerivedShows(proof: Proof, seen: seq<Term>, keys: set<nat>)
    ensures Conclude(proof, seen, keys).Derived? ==>
              Shows(Conclude(proof, seen, keys).term, keys) <= ShowsAny(seen, keys)
  {
    match proof
    case Seen(i) => if i < |seen| { SeenShows(seen, keys, i); }
    case First(p) => DerivedShows(p, seen, keys);
    case Second(p) => DerivedShows(p, seen, keys);
    case Unseal(p) => DerivedShows(p, seen, keys);
    case Unsign(p) => DerivedShows(p, seen, keys);
    case Both(p, q) => DerivedShows(p, seen, keys); DerivedShows(q, seen, keys);
    case Hash(p) =>
    case Seal(_, _, p) => DerivedShows(p, seen, keys);
    case SignAs(_, p) => DerivedShows(p, seen, keys);
  }

  /** Everything that shows in a derived term can be derived. */
  lemma {:induction false} ShownDerivable(proof: Proof, t: Term, atom: Term, seen: seq<Term>,
                                          keys: set<nat>) returns (found: Proof)
    requires Conclude(proof, seen, keys) == Derived(t) && atom in Shows(t, keys)
    ensures Conclude(found, seen, keys) == Derived(atom)
    decreases t
  {
    match t
    case Name(_) => found := proof;
    case Body => found := proof;
    case Pair(a, b) =>
      if atom in Shows(a, keys) {
        found := ShownDerivable(First(proof), a, atom, seen, keys);
      } else {
        found := ShownDerivable(Second(proof), b, atom, seen, keys);
      }
    case Sealed(_, content, _) => found := ShownDerivable(Unseal(proof), content, atom, seen, keys);
    case Signature(_, content) => found := ShownDerivable(Unsign(proof), content, atom, seen, keys);
  }

  lemma {:induction false} SomewhereShown(seen: seq<Term>, keys: set<nat>, atom: Term) returns (i: nat)
    requires atom in ShowsAny(seen, keys)
    ensures i < |seen| && atom in Shows(seen[i], keys)
  {
    if atom in Shows(seen[0], keys) {
      i := 0;
    } else {
      i := SomewhereShown(seen[1..], keys, atom);
      i := i + 1;
    }
  }

  /** The ids and the body that can be derived are exactly those that show. */
  lemma DerivableExactly(atom: Term, seen: seq<Term>, keys: set<nat>)
    requires atom.Name? || atom.Body?
    ensures Derivable(atom, seen, keys) <==> atom in ShowsAny(seen, keys)
  {
    if proof :| Conclude(proof, seen, keys) == Derived(atom) {
      DerivedShows(proof, seen, keys);
    }
    if atom in ShowsAny(seen, keys) {
      var i := SomewhereShown(seen, keys, atom);
      var proof := ShownDerivable(Seen(i), seen[i], atom, seen, keys);
    }
  }

  // ---------- the packet ----------

  /** Sender, hops and receiver of one message, in any coincidence. */
  datatype Journey = Journey(sender: nat, hop1: nat, hop2: nat, hop3: nat, receiver: nat)

  function SecretTerm(j: Journey): Term {
    Sealed(j.receiver, Pair(Name(j.sender), Pair(Body, Signature(j.sender, Digest(Body)))), 0)
  }

  function Section3Term(j: Journey): Term { Sealed(j.hop3, Pair(Name(j.receiver), SecretTerm(j)), 3) }
  function Section2Term(j: Journey): Term { Sealed(j.hop2, Name(j.hop3), 2) }
  function Section1Term(j: Journey): Term { Sealed(j.hop1, Name(j.hop2), 1) }

  /** What travels to hop 1, hop 2, hop 3 and the receiver. */
  function Link(j: Journey, stage: nat): seq<Term>
    requires stage < 4
  {
    if stage == 3 then [Section1Term(j), Section2Term(j), Section3Term(j)]
    else if stage == 2 then [Section2Term(j), Section3Term(j)]
    else if stage == 1 then [Section3Term(j)]
    else [SecretTerm(j)]
  }

  lemma OneShows(a: Term, keys: set<nat>)
    ensures ShowsAny([a], keys) == Shows(a, keys)
  {
    assert [a][1..] == [];
  }

  lemma ConsShows(a: Term, rest: seq<Term>, keys: set<nat>)
    ensures ShowsAny([a] + rest, keys) == Shows(a, keys) + ShowsAny(rest, keys)
  {
    assert ([a] + rest)[1..] == rest;
  }

  /** What shows in the section for hop 3 and in the packet inside it. */
  function InnerShows(j: Journey, keys: set<nat>): set<Term> {
    if j.receiver in keys then {Name(j.sender), Body} else {}
  }

  function LastShows(j: Journey, keys: set<nat>): set<Term> {
    if j.hop3 in keys then {Name(j.receiver)} + InnerShows(j, keys) else {}
  }

  lemma SecretShows(j: Journey, keys: set<nat>)
    ensures Shows(SecretTerm(j), keys) == InnerShows(j, keys)
  {
    assert Shows(Signature(j.sender, Digest(Body)), keys) == {};
    assert Shows(Pair(Body, Signature(j.sender, Digest(Body))), keys) == {Body};
    assert Shows(Pair(Name(j.sender), Pair(Body, Signature(j.sender, Digest(Body)))), keys) == {Name(j.sender), Body};
  }

  lemma Section3Shows(j: Journey, keys: set<nat>)
    ensures Shows(Section3Term(j), keys) == LastShows(j, keys)
  {
    SecretShows(j, keys);
    assert Shows(Name(j.receiver), keys) == {Name(j.receiver)};
  }

  /** What shows on each link to a holder of `keys`. */
  lemma LinkShows(j: Journey, keys: set<nat>)
    ensures ShowsAny(Link(j, 0), keys) == InnerShows(j, keys)
    ensures ShowsAny(Link(j, 1), keys) == LastShows(j, keys)
    ensures ShowsAny(Link(j, 2), keys) == (if j.hop2 in keys then {Name(j.hop3)} else {}) + LastShows(j, keys)
    ensures ShowsAny(Link(j, 3), keys) ==
              (if j.hop1 in keys then {Name(j.hop2)} else {}) +
              ((if j.hop2 in keys then {Name(j.hop3)} else {}) + LastShows(j, keys))
  {
    SecretShows(j, keys);
    Section3Shows(j, keys);
    OneShows(SecretTerm(j), keys);
    OneShows(Section3Term(j), keys);
    assert Link(j, 2) == [Section2Term(j)] + Link(j, 1);
    ConsShows(Section2Term(j), Link(j, 1), keys);
    assert Link(j, 3) == [Section1Term(j)] + Link(j, 2);
    ConsShows(Section1Term(j), Link(j, 2), keys);
  }

  /** With pairwise distinct hops and receiver, each of them learns one id from
      the packet it receives: hop 1 that of hop 2, hop 2 that of hop 3, hop 3
      that of the receiver; the receiver alone learns the sender and the text. */
  lemma HopLocality(j: Journey, atom: Term)
    requires atom.Name? || atom.Body?
    requires |{j.hop1, j.hop2, j.hop3, j.receiver}| == 4
    ensures Derivable(atom, Link(j, 3), {j.hop1}) <==> atom == Name(j.hop2)
    ensures Derivable(atom, Link(j, 2), {j.hop2}) <==> atom == Name(j.hop3)
    ensures Derivable(atom, Link(j, 1), {j.hop3}) <==> atom == Name(j.receiver)
    ensures Derivable(atom, Link(j, 0), {j.receiver}) <==> atom == Name(j.sender) || atom == Body
  {
    FourExactly(j.hop1, j.hop2, j.hop3, j.receiver);
    HopLearns(j, 3, j.hop1, atom);
    HopLearns(j, 2, j.hop2, atom);
    HopLearns(j, 1, j.hop3, atom);
    HopLearns(j, 0, j.receiver, atom);
  }

  /** What the holder of one key learns from one link, whoever coincides. */
  lemma HopLearns(j: Journey, stage: nat, who: nat, atom: Term)
    requires stage < 4 && (atom.Name? || atom.Body?)
    ensures Derivable(atom, Link(j, stage), {who}) <==>
              || (stage == 3 && who == j.hop1 && atom == Name(j.hop2))
              || (stage >= 2 && who == j.hop2 && atom == Name(j.hop3))
              || (stage >= 1 && who == j.hop3 && atom == Name(j.receiver))
              || ((stage == 0 || who == j.hop3) && who == j.receiver && (atom == Name(j.sender) || atom == Body))
  {
    DerivableExactly(atom, Link(j, stage), {who});
    LinkShows(j, {who});
  }

  lemma FourExactly<T>(a: T, b: T, d: T, e: T)
    ensures |{a, b, d, e}| == 4 <==> a != b && a != d && a != e && b != d && b != e && d != e
  {
    assert a == b ==> {a, b, d, e} == {b, d, e};
    assert a == d ==> {a, b, d, e} == {b, d, e};
    assert a == e ==> {a, b, d, e} == {b, d, e};
    assert b == d ==> {a, b, d, e} == {a, d, e};
    assert b == e ==> {a, b, d, e} == {a, d, e};
    assert d == e ==> {a, b, d, e} == {a, b, e};
  }

  /** Everything that one message puts on any link. */
  function AllLinks(j: Journey): seq<Term> {
    Link(j, 3) + Link(j, 0)
  }

  lemma {:induction false} ShowsConcat(a: seq<Term>, b: seq<Term>, keys: set<nat>)
    ensures ShowsAny(a + b, keys) == ShowsAny(a, keys) + ShowsAny(b, keys)
  {
    if a == [] {
      assert a + b == b;
    } else {
      assert (a + b)[1..] == a[1..] + b;
      ShowsConcat(a[1..], b, keys);
    }
  }

  /** Seeing every link and holding any private keys, one derives the message or
      the sender's name as its sender exactly with the receiver's key. */
  lemma MessageNeedsReceiver(j: Journey, keys: set<nat>)
    ensures Derivable(Body, AllLinks(j), keys) <==> j.receiver in keys
    ensures j.sender !in {j.hop2, j.hop3, j.receiver} ==>
              (Derivable(Name(j.sender), AllLinks(j), keys) <==> j.receiver in keys)
  {
    DerivableExactly(Body, AllLinks(j), keys);
    DerivableExactly(Name(j.sender), AllLinks(j), keys);
    ShowsConcat(Link(j, 3), Link(j, 0), keys);
    LinkShows(j, keys);
  }

  // ---------- the term is the packet ----------

  /** Names, keys, text and over-reads that turn a term into what is sent. */
  datatype Rendering = Rendering(crypto: Crypto, id: nat -> string, publicKey: nat -> string,
                                 privateKey: nat -> PrivateKey,
                                 message: string, writing: nat -> (nat -> Writing), signing: Writing)

  function Render(r: Rendering, t: Term): string {
    match t
    case Name(i) => r.id(i)
    case Body => r.message
    case Pair(a, b) => Render(r, a) + "%" + Render(r, b)
    case Digest(x) => r.crypto.Sha256(Render(r, x))
    case Sealed(owner, content, use) => Encrypt(r.crypto, Render(r, content), r.publicKey(owner), r.writing(use))
    case Signature(owner, content) =>
      (match content
       case Digest(x) => Sign(r.crypto, r.privateKey(owner), Render(r, x), r.signing)
       case _ => "")
  }

  function People(j: Journey): set<nat> { {j.sender, j.hop1, j.hop2, j.hop3, j.receiver} }

  /** A rendering that fits a send: who the peers are, one number to each public
      key, and what was drawn. */
  ghost predicate Fits(r: Rendering, j: Journey, p: Sending.Parcel) {
    && r.message == p.message && r.privateKey(j.sender) == p.key && r.id(j.sender) == r.crypto.HashId(p.key)
    && r.publicKey(j.sender) == r.crypto.PublicKey(p.key)
    && r.id(j.receiver) == p.receiverId && r.publicKey(j.receiver) == p.route.receiver.publicKey
    && r.publicKey(j.hop1) == p.route.peer1.publicKey
    && r.id(j.hop2) == p.route.peer2.hashId && r.publicKey(j.hop2) == p.route.peer2.publicKey
    && r.id(j.hop3) == p.route.peer3.hashId && r.publicKey(j.hop3) == p.route.peer3.publicKey
    && r.writing(0) == p.draws.secret && r.writing(1) == p.draws.section1
    && r.writing(2) == p.draws.section2 && r.writing(3) == p.draws.section3 && r.signing == p.draws.signature
    && forall a <- People(j), b <- People(j) :: r.publicKey(a) == r.publicKey(b) ==> a == b
  }

  function FirstOf(keys: seq<string>, pk: string): (i: nat)
    requires pk in keys
    ensures i < |keys| && keys[i] == pk
  {
    if keys[0] == pk then 0 else 1 + FirstOf(keys[1..], pk)
  }

  function RouteNumbers(keys: seq<string>): (j: Journey)
    requires |keys| == 5
  {
    var number := (k: nat) => if k < 5 then FirstOf(keys, keys[k]) else 0;
    Journey(number(0), number(1), number(2), number(3), number(4))
  }

  lemma NumberedOnce(keys: seq<string>, a: nat)
    requires |keys| == 5 && a in People(RouteNumbers(keys))
    ensures a < 5 && a == FirstOf(keys, keys[a])
  {
  }

  function NumberedBy(c: Crypto, p: Sending.Parcel, keys: seq<string>): Rendering {
    var pk := (i: nat) => if i < |keys| then keys[i] else "";
    Rendering(c, (i: nat) => c.Sha256(pk(i)), pk, _ => p.key, p.message,
              (use: nat) => SealingFor(p.draws, use), p.draws.signature)
  }

  function SealingFor(draws: Draws, use: nat): nat -> Writing {
    if use == 0 then draws.secret
    else if use == 1 then draws.section1
    else if use == 2 then draws.section2
    else draws.section3
  }

  /** Every parcel the program packs has a fitting rendering: peers are numbered by
      their public keys. */
  lemma RenderingExists(c: Crypto, env: Transit.Env, p: Sending.Parcel) returns (r: Rendering, j: Journey)
    requires Sending.Packed(c, env, p)
    ensures r.crypto == c && Fits(r, j, p)
  {
    var keys := [c.PublicKey(p.key), p.route.peer1.publicKey, p.route.peer2.publicKey, p.route.peer3.publicKey,
                 p.route.receiver.publicKey];
    j, r := RouteNumbers(keys), NumberedBy(c, p, keys);
    forall a <- People(j), b <- People(j) | r.publicKey(a) == r.publicKey(b)
      ensures a == b
    {
      NumberedOnce(keys, a);
      NumberedOnce(keys, b);
    }
  }

  function Rendered(r: Rendering, j: Journey, stage: nat, i: nat): string
    requires stage < 4 && i < |Link(j, stage)|
  {
    Render(r, Link(j, stage)[i])
  }

  /** A link's terms as the text on that link. */
  function Wire(r: Rendering, j: Journey, stage: nat): string
    requires stage < 4
  {
    if stage == 3 then PacketP1(Rendered(r, j, 3, 0), Rendered(r, j, 3, 1), Rendered(r, j, 3, 2))
    else if stage == 2 then PacketP2(Rendered(r, j, 2, 0), Rendered(r, j, 2, 1))
    else if stage == 1 then PacketP3(Rendered(r, j, 1, 0))
    else PacketR(Rendered(r, j, 0, 0))
  }

  lemma RenderPair(r: Rendering, a: Term, b: Term)
    ensures Render(r, Pair(a, b)) == Render(r, a) + "%" + Render(r, b)
  {
  }

  lemma RenderSealed(r: Rendering, owner: nat, content: Term, use: nat)
    ensures Render(r, Sealed(owner, content, use)) ==
            Encrypt(r.crypto, Render(r, content), r.publicKey(owner), r.writing(use))
  {
  }

  lemma RenderSigned(r: Rendering, owner: nat)
    ensures Render(r, Signature(owner, Digest(Body))) == Sign(r.crypto, r.privateKey(owner), r.message, r.signing)
  {
    assert Render(r, Body) == r.message;
  }

  lemma JoinThree(a: string, b: string, s: string)
    ensures a + "%" + (b + "%" + s) == a + "%" + b + "%" + s
  {
  }

  lemma RenderSecretText(r: Rendering, sender: nat, draws: Draws)
    requires r.id(sender) == r.crypto.HashId(r.privateKey(sender)) && r.signing == draws.signature
    ensures Render(r, Pair(Name(sender), Pair(Body, Signature(sender, Digest(Body))))) ==
            SecretText(r.crypto, r.privateKey(sender), r.message, draws)
  {
    RenderSigned(r, sender);
    RenderPair(r, Body, Signature(sender, Digest(Body)));
    RenderPair(r, Name(sender), Pair(Body, Signature(sender, Digest(Body))));
    assert Render(r, Body) == r.message && Render(r, Name(sender)) == r.id(sender);
    JoinThree(r.id(sender), r.message, Sign(r.crypto, r.privateKey(sender), r.message, draws.signature));
  }

  /** The sections the program forms are the renderings of their terms. */
  lemma SectionsAreRendered(r: Rendering, j: Journey, p: Sending.Parcel)
    requires Fits(r, j, p)
    ensures Render(r, SecretTerm(j)) == Sending.Secret(r.crypto, p)
    ensures Render(r, Section3Term(j)) == Sending.S3(r.crypto, p)
    ensures Render(r, Section2Term(j)) == Sending.S2(r.crypto, p)
    ensures Render(r, Section1Term(j)) == Sending.S1(r.crypto, p)
  {
    var inner := Pair(Name(j.sender), Pair(Body, Signature(j.sender, Digest(Body))));
    RenderSecretText(r, j.sender, p.draws);
    RenderSealed(r, j.receiver, inner, 0);
    RenderPair(r, Name(j.receiver), SecretTerm(j));
    RenderSealed(r, j.hop3, Pair(Name(j.receiver), SecretTerm(j)), 3);
    RenderSealed(r, j.hop2, Name(j.hop3), 2);
    RenderSealed(r, j.hop1, Name(j.hop2), 1);
  }

  /** What each stage of a delivery receives is the rendering of its link. */
  lemma LinksAreRendered(r: Rendering, j: Journey, env: Transit.Env, p: Sending.Parcel, stage: nat)
    requires Fits(r, j, p) && stage < 4
    ensures Sending.Layers(r.crypto, env, p)[stage].text == Wire(r, j, stage)
  {
    SectionsAreRendered(r, j, p);
  }

  /** The public keys of the hops and the receiver of a parcel. */
  function RouteKeys(p: Sending.Parcel): set<string> {
    {p.route.peer1.publicKey, p.route.peer2.publicKey, p.route.peer3.publicKey, p.route.receiver.publicKey}
  }

  lemma DistinctNumbers(r: Rendering, j: Journey, p: Sending.Parcel)
    requires Fits(r, j, p)
    ensures |RouteKeys(p)| == 4 <==> |{j.hop1, j.hop2, j.hop3, j.receiver}| == 4
  {
    FourExactly(j.hop1, j.hop2, j.hop3, j.receiver);
    FourExactly(p.route.peer1.publicKey, p.route.peer2.publicKey, p.route.peer3.publicKey, p.route.receiver.publicKey);
  }

  /** The packets of every parcel whose hops and receiver have distinct keys tell
      each of them one id, and the receiver the sender and the text. */
  lemma PacketLocality(c: Crypto, env: Transit.Env, p: Sending.Parcel, atom: Term) returns (r: Rendering, j: Journey)
    requires Sending.Packed(c, env, p) && |RouteKeys(p)| == 4 && (atom.Name? || atom.Body?)
    ensures r.crypto == c && Fits(r, j, p)
    ensures forall stage | 0 <= stage < 4 :: Sending.Layers(c, env, p)[stage].text == Wire(r, j, stage)
    ensures Derivable(atom, Link(j, 3), {j.hop1}) <==> atom == Name(j.hop2)
    ensures Derivable(atom, Link(j, 2), {j.hop2}) <==> atom == Name(j.hop3)
    ensures Derivable(atom, Link(j, 1), {j.hop3}) <==> atom == Name(j.receiver)
    ensures Derivable(atom, Link(j, 0), {j.receiver}) <==> atom == Name(j.sender) || atom == Body
  {
    r, j := RenderingExists(c, env, p);
    forall stage | 0 <= stage < 4
      ensures Sending.Layers(c, env, p)[stage].text == Wire(r, j, stage)
    {
      LinksAreRendered(r, j, env, p, stage);
    }
    DistinctNumbers(r, j, p);
    HopLocality(j, atom);
  }

  // ---------- packets the program forms ----------

  function Keys(users: seq<User>): set<string> {
    set u | u in users :: u.publicKey
  }

  lemma KeyOwner(users: seq<User>, pk: string) returns (i: nat)
    requires pk in Keys(users)
    ensures i < |users| && users[i].publicKey == pk
  {
    i :| 0 <= i < |users| && users[i].publicKey == pk;
  }

  lemma ThreeMore(keys: set<string>, k: string) returns (a: string, b: string, d: string)
    requires |keys| >= 4
    ensures {a, b, d} <= keys && |{a, b, d, k}| == 4
  {
    var s1 := keys - {k};
    assert |s1| >= 3 by {
      assert keys <= s1 + {k};
      SubsetSize(keys, s1 + {k});
    }
    a :| a in s1;
    var s2 := s1 - {a};
    assert |s2| >= 2;
    b :| b in s2;
    var s3 := s2 - {b};
    assert |s3| >= 1;
    d :| d in s3;
    FourExactly(a, b, d, k);
  }

  lemma {:induction false} SubsetSize<T>(small: set<T>, large: set<T>)
    requires small <= large
    ensures |small| <= |large|
  {
    if small != {} {
      var x :| x in small;
      SubsetSize(small - {x}, large - {x});
    }
  }

  /** From any list with four distinct keys, some draws make hops and receiver
      distinct. */
  lemma DistinctDraws(users: seq<User>, receiver: User, draws: Draws) returns (chosen: Draws)
    requires |Keys(users)| >= 4
    ensures users != []
    ensures var route := Choose(users, receiver, chosen);
            |{route.peer1.publicKey, route.peer2.publicKey, route.peer3.publicKey, receiver.publicKey}| == 4
  {
    var a, b, d := ThreeMore(Keys(users), receiver.publicKey);
    var h := KeyOwner(users, a);
    var i := KeyOwner(users, b);
    var j := KeyOwner(users, d);
    chosen := draws.(hop1 := h, hop2 := i, hop3 := j);
    AnyRouteDrawn(users, receiver, draws, h, i, j);
  }

  /** With honest keys, a packet is then formed whose links tell each hop one id, and
      only the receiver the sender and the text. */
  lemma SomePacketTellsLittle(c: Crypto, env: Transit.Env, key: PrivateKey, receiverId: string, message: string,
                              draws: Draws, atom: Term)
    returns (p: Sending.Parcel, r: Rendering, j: Journey)
    requires Lookup(env(4).users, receiverId).Some? && |Keys(env(4).users)| >= 4
    requires (forall u <- env(4).users :: KeyMatches(c, u)) && NulFree(message) && ByteText(message)
    requires atom.Name? || atom.Body?
    ensures p.key == key && p.receiverId == receiverId && p.message == message
    ensures Form(c, key, env(4).users, receiverId, message, p.draws) == Packet(p.route.peer1, Wire(r, j, 3))
    ensures r.crypto == c && Fits(r, j, p) && |{j.hop1, j.hop2, j.hop3, j.receiver}| == 4
    ensures forall stage | 0 <= stage < 4 :: Sending.Layers(c, env, p)[stage].text == Wire(r, j, stage)
    ensures Derivable(atom, Link(j, 3), {j.hop1}) <==> atom == Name(j.hop2)
    ensures Derivable(atom, Link(j, 2), {j.hop2}) <==> atom == Name(j.hop3)
    ensures Derivable(atom, Link(j, 1), {j.hop3}) <==> atom == Name(j.receiver)
    ensures Derivable(atom, Link(j, 0), {j.receiver}) <==> atom == Name(j.sender) || atom == Body
  {
    var users := env(4).users;
    var receiver := Lookup(users, receiverId).value;
    var chosen := DistinctDraws(users, receiver, draws);
    p := Sending.ParcelOf(users, key, receiverId, message, chosen);
    AllMatch(c, users, receiver, chosen);
    Sending.ParcelIsPacked(c, env, key, receiverId, message, chosen);
    Sending.FormedIsOutermost(c, users, key, receiverId, message, chosen);
    r, j := PacketLocality(c, env, p, atom);
    DistinctNumbers(r, j, p);
    OutermostIsFirst(c, env, p);
  }

  lemma AllMatch(c: Crypto, users: seq<User>, receiver: User, draws: Draws)
    requires users != [] && receiver in users && forall u <- users :: KeyMatches(c, u)
    ensures RouteKeysMatch(c, Choose(users, receiver, draws))
  {
    var route := Choose(users, receiver, draws);
    assert route.peer1 in users && route.peer2 in users && route.peer3 in users;
  }

  lemma OutermostIsFirst(c: Crypto, env: Transit.Env, p: Sending.Parcel)
    ensures Sending.Layers(c, env, p)[3].text == Sending.Outermost(c, p)
  {
  }
}
