/** The main results for `Chat`, the machine that is this program. */
module Program {
  import opened Text
  import opened Rsa
  import opened Directory
  import opened Onion
  import opened Transit
  import opened Sending
  import opened Honest
  import opened Reports

  lemma Lawful(c: Crypto)
    ensures Runs(Chat(c), c) && Chat(c).Lawful()
  {
    ChatRuns(c);
    ProgramIsLawful(Chat(c), c);
  }

  /** `Sending.AllOrNothing` of the program. */
  lemma ChatAllOrNothing(m: Machine, c: Crypto, env: Env, net: Net, self: nat, receiverId: string, message: string,
                         draws: Draws)
    requires m == Chat(c) && c.Laws() && self < |net|
    requires Surroundings(m, c, env, net) && ListsArrive(env) && Lookup(env(4).users, receiverId).Some?
    requires Unseparated(message) && ByteText(message)
    ensures m.Lawful()
    ensures var p := ParcelOf(env(4).users, net[self].key, receiverId, message, draws);
            Reported(m, net, self, Send(m, env, net, self, receiverId, message, draws), receiverId, message,
                     GetsThrough(c, env, |net|, p))
  {
    ChatRuns(c);
    AllOrNothing(m, c, env, net, self, receiverId, message, draws);
  }

  /** `Sending.SendHasFate` of the program. */
  lemma ChatSendHasFate(m: Machine, c: Crypto, env: Env, net: Net, self: nat, receiverId: string, message: string,
                        draws: Draws)
    requires m == Chat(c) && c.Laws() && self < |net|
    requires Surroundings(m, c, env, net) && Lookup(env(4).users, receiverId).Some?
    requires NulFree(message) && ByteText(message)
    ensures m.Lawful()
    ensures var p := ParcelOf(env(4).users, net[self].key, receiverId, message, draws);
            Fared(m, net, self, Send(m, env, net, self, receiverId, message, draws), receiverId, message,
                  message[..Find(message, '%')], ParcelFate(m, c, env, |net|, p))
  {
    ChatRuns(c);
    SendHasFate(m, c, env, net, self, receiverId, message, draws);
  }

  /** `Honest.EndToEnd` of the program. */
  lemma ChatEndToEnd(m: Machine, c: Crypto, env: Env, net: Net, users: seq<User>, self: nat, receiverId: string,
                     message: string, draws: Draws)
    requires m == Chat(c) && c.Laws() && self < |net| && HonestDirectory(c, env, net, users)
    requires Lookup(users, c.HashId(net[self].key)).Some? && Lookup(users, receiverId).Some?
    requires Unseparated(message) && ByteText(message)
    ensures m.Lawful()
    ensures var s := Send(m, env, net, self, receiverId, message, draws);
            var sid := c.HashId(net[self].key);
            && s.result == Returned(false)
            && exists r :: 0 <= r < |net| && c.HashId(net[r].key) == receiverId &&
                           ListsAfter(net, s.net, self, r, sid, receiverId, message, message)
  {
    ChatRuns(c);
    EndToEnd(m, c, env, net, users, self, receiverId, message, draws);
  }

  /** `Reports.ZeroIsAcceptance` of the program: no assumption on keys, ids,
      addresses or messages. */
  lemma ChatZeroIsAcceptance(m: Machine, c: Crypto, env: Env, net: Net, self: nat, receiverId: string, message: string,
                             draws: Draws)
    requires m == Chat(c) && self < |net|
    requires forall k: nat | k <= 3 :: !Fetch(env(k).users).Thrown?
    ensures m.Lawful()
    ensures var s := Send(m, env, net, self, receiverId, message, draws);
            s.result == Returned(false) <==> Accepted(s.visits)
  {
    Lawful(c);
    ZeroIsAcceptance(m, env, net, self, receiverId, message, draws);
  }
}
