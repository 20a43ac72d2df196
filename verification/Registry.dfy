/** The relay: one shared user vector, one handler thread a session. A step of a
    handler is atomic; steps of different sessions interleave freely. */
module Registry {
  import opened Text
  import opened Framing
  import opened Directory

  // ---------- specification of one handler ----------

  /** Erases the first entry with an id. */
  function EraseFirst(users: seq<User>, id: string): seq<User> {
    if users == [] then []
    else if users[0].hashId == id then users[1..]
    else [users[0]] + EraseFirst(users[1..], id)
  }

  /** What `process` leaves behind: the vector, the session's id, whether the
      session ends, and the reply if there is one. */
  datatype Processed = Processed(users: seq<User>, hashId: string, ends: bool, reply: Option<string>)

  /** None is undefined: `segments[0]` of an empty text, a missing field of
      REGISTER, or a port that `stoi` rejects. */
  function Process(users: seq<User>, hashId: string, ip: string, text: string): Option<Processed> {
    var segments := Split(text, '#');
    if segments == [] then None
    else if segments[0] == "EXIT" then
      Some(Processed(EraseFirst(users, hashId), hashId, true, Some("Bye")))
    else if segments[0] == "REGISTER" then
      if |segments| < 4 || StoI(segments[2]).None? then None
      else
        var entry := User(segments[1], ip, StoI(segments[2]).value, segments[3]);
        Some(Processed(users + [entry], segments[1], false, Some("Register Successful")))
    else if segments[0] == "LIST" then
      Some(Processed(users, hashId, false, Some(PrintList(users))))
    else
      Some(Processed(users, hashId, false, None))
  }

  // ---------- what each command does ----------

  /** What a peer sends to register. */
  function RegisterText(id: string, port: Int32, pk: string): string {
    "REGISTER" + "#" + (id + "#" + (ToString(port) + "#" + pk))
  }

  lemma RegisterFields(id: string, port: Int32, pk: string)
    requires '#' !in id && '#' !in pk && pk != ""
    ensures Split(RegisterText(id, port, pk), '#') == ["REGISTER", id, ToString(port), pk]
  {
    StoIToString(port);
    SplitFour("REGISTER", id, ToString(port), pk, '#');
  }

  /** REGISTER: an entry with the id, port and key announced and the address that the
      session came from, at the end of the vector; the session takes the id. */
  lemma RegisterAnswers(users: seq<User>, hashId: string, ip: string, id: string, port: Int32, pk: string)
    requires '#' !in id && '#' !in pk && pk != ""
    ensures Process(users, hashId, ip, RegisterText(id, port, pk)) ==
            Some(Processed(users + [User(id, ip, port, pk)], id, false, Some("Register Successful")))
  {
    RegisterFields(id, port, pk);
    StoIToString(port);
  }

  /** EXIT, whatever follows it: the first entry with the session's id goes. */
  lemma ExitAnswers(users: seq<User>, hashId: string, ip: string, text: string, i: nat)
    requires Split(text, '#') != [] && Split(text, '#')[0] == "EXIT"
    requires i < |users| && users[i].hashId == hashId && forall j | 0 <= j < i :: users[j].hashId != hashId
    ensures Process(users, hashId, ip, text) == Some(Processed(users[..i] + users[i + 1..], hashId, true, Some("Bye")))
  {
    EraseFirstAt(users, hashId, i);
  }

  lemma {:induction false} EraseFirstAt(users: seq<User>, id: string, i: nat)
    requires i < |users| && users[i].hashId == id && forall j | 0 <= j < i :: users[j].hashId != id
    ensures EraseFirst(users, id) == users[..i] + users[i + 1..]
  {
    if i > 0 {
      EraseFirstAt(users[1..], id, i - 1);
    }
  }

  /** Any other first field: nothing changes and nothing is sent. */
  lemma OthersIgnored(users: seq<User>, hashId: string, ip: string, text: string)
    requires Split(text, '#') != [] && Split(text, '#')[0] !in {"EXIT", "REGISTER", "LIST"}
    ensures Process(users, hashId, ip, text) == Some(Processed(users, hashId, false, None))
  {
  }

  /** LIST: the vector stays, and it is what the reply says. */
  lemma ListReplies(users: seq<User>, hashId: string, ip: string)
    ensures Process(users, hashId, ip, "LIST") == Some(Processed(users, hashId, false, Some(PrintList(users))))
  {
    SplitSingle("LIST", '#');
  }

  /** Whoever reads the reply to LIST over a connection reads the vector, if it prints
      and its text is framed. */
  lemma ListAnswers(users: seq<User>, hashId: string, ip: string, answer: Processed)
    requires Process(users, hashId, ip, "LIST") == Some(answer)
    ensures answer.users == users && answer.reply.Some? && !answer.ends && answer.hashId == hashId
    ensures Printable(users) && Framed(PrintList(users)) ==>
              && Transfer(answer.reply.value).Some?
              && ParseList(Transfer(answer.reply.value).value) == Parsed(users, Whole)
  {
    ListReplies(users, hashId, ip);
    if Framed(PrintList(users)) {
      TransferExact(PrintList(users));
    }
    DirectoryRoundTrip(users);
  }

  /** Fields beyond those that a command needs change nothing. */
  lemma ExtraFieldsIgnored(users: seq<User>, hashId: string, ip: string, text: string, extra: string)
    requires text != "" && text[|text| - 1] != '#'
    requires IsRegister(text) ==> |Split(text, '#')| >= 4
    ensures Process(users, hashId, ip, text + "#" + extra) == Process(users, hashId, ip, text)
  {
    SplitAppend(text, '#', extra);
    FirstFields(Split(text, '#'), Split(extra, '#'));
  }

  lemma FirstFields(fields: seq<string>, more: seq<string>)
    requires fields != []
    ensures (fields + more)[0] == fields[0]
    ensures |fields| >= 4 ==> forall i | 0 <= i < 4 :: (fields + more)[i] == fields[i]
  {
  }

  // ---------- the classes ----------

  class UserVector {
    var user: seq<User>

    constructor ()
      ensures user == []
    {
      user := [];
    }

    /** The erase loop that EXIT and the end of every session run. */
    method EraseFirstOf(id: string)
      modifies this
      ensures user == EraseFirst(old(user), id)
    {
      var i := 0;
      while i < |user|
        invariant 0 <= i <= |user| && user == old(user)
        invariant EraseFirst(user, id) == user[..i] + EraseFirst(user[i..], id)
      {
        EraseNext(user, i, id);
        if user[i].hashId == id {
          user := user[..i] + user[i + 1..];
          return;
        }
        i := i + 1;
      }
      assert user[i..] == [] && user[..i] == user;
    }
  }

  lemma EraseNext(users: seq<User>, i: nat, id: string)
    requires i < |users|
    ensures users[..i] + EraseFirst(users[i..], id) ==
            if users[i].hashId == id then users[..i] + users[i + 1..]
            else users[..i + 1] + EraseFirst(users[i + 1..], id)
  {
    assert users[i..][1..] == users[i + 1..];
    assert users[..i + 1] == users[..i] + [users[i]];
  }

  class RelayHandler {
    const users: UserVector
    const conn: Connection
    const ip: string
    var hashId: string

    constructor (users: UserVector, conn: Connection, ip: string)
      ensures this.users == users && this.conn == conn && this.ip == ip && hashId == ""
    {
      this.users, this.conn, this.ip := users, conn, ip;
      hashId := "";
    }

    method HandleText(text: string) returns (ends: Option<bool>)
      modifies this`hashId, users, conn`sent
      ensures match Process(old(users.user), old(hashId), ip, text)
              case None => ends == None
              case Some(p) =>
                && ends == Some(p.ends) && users.user == p.users && hashId == p.hashId
                && conn.sent == old(conn.sent) + (if p.reply.Some? then Frames(p.reply.value) else [])
    {
      var segments := Segments(text, '#');
      if segments == [] {
        return None;
      }
      if segments[0] == "EXIT" {
        conn.SendMessage("Bye");
        users.EraseFirstOf(hashId);
        return Some(true);
      } else if segments[0] == "REGISTER" {
        if |segments| < 4 || StoI(segments[2]).None? {
          return None;
        }
        hashId := segments[1];
        users.user := users.user + [User(segments[1], ip, StoI(segments[2]).value, segments[3])];
        conn.SendMessage("Register Successful");
      } else if segments[0] == "LIST" {
        var dataString := Print(users.user);
        conn.SendMessage(dataString);
      }
      ends := Some(false);
    }

    /** The end of `handler`: the erase loop once more. */
    method Finish()
      modifies users
      ensures users.user == EraseFirst(old(users.user), hashId)
    {
      users.EraseFirstOf(hashId);
    }
  }

  // ---------- all sessions together ----------

  /** Receiving; its receive failed; EXIT ran the first erase; the final erase ran. */
  datatype Phase = Open | Lost | Exited | Gone

  datatype Session = Session(ip: string, hashId: string, phase: Phase)

  datatype Registration = Registration(sid: nat, user: User)

  /** The two erase loops: in `process` on EXIT, and at the end of `handler`. */
  datatype Loop = AtExit | AtEnd

  datatype Erasure = Erasure(sid: nat, loop: Loop, entry: User)

  /** The vector and the sessions, with the history of both: every registration in
      order, and what each run of an erase loop took out. */
  datatype World = World(users: seq<User>, sessions: map<nat, Session>,
                         log: seq<Registration>, erased: seq<Erasure>)

  const INITIAL := World([], map[], [], [])

  /** What one run of an erase loop for `id` takes out: the entry it finds first. */
  function Found(users: seq<User>, id: string): seq<User> {
    match Lookup(users, id)
    case None => []
    case Some(entry) => [entry]
  }

  function Erasing(sid: nat, loop: Loop, users: seq<User>, id: string): seq<Erasure> {
    var found := Found(users, id);
    if found == [] then [] else [Erasure(sid, loop, found[0])]
  }

  /** A connection is accepted; a session receives a text (SIGFAULT is a
      failed receive); a session that ended runs its final erase loop. */
  datatype Event = Connect(sid: nat, ip: string) | Hear(sid: nat, text: string) | Teardown(sid: nat)

  predicate Enabled(w: World, e: Event) {
    match e
    case Connect(sid, _) => sid !in w.sessions
    case Hear(sid, _) => sid in w.sessions && w.sessions[sid].phase.Open?
    case Teardown(sid) => sid in w.sessions && (w.sessions[sid].phase.Lost? || w.sessions[sid].phase.Exited?)
  }

  /** None is undefined behaviour of the relay. */
  function Step(w: World, e: Event): Option<World>
    requires Enabled(w, e)
  {
    match e
    case Connect(sid, ip) => Some(w.(sessions := w.sessions[sid := Session(ip, "", Open)]))
    case Hear(sid, text) =>
      var s := w.sessions[sid];
      if text == SIGFAULT then Some(w.(sessions := w.sessions[sid := s.(phase := Lost)]))
      else
        (match Process(w.users, s.hashId, s.ip, text)
         case None => None
         case Some(p) =>
           var phase := if p.ends then Exited else Open;
           Some(World(p.users, w.sessions[sid := Session(s.ip, p.hashId, phase)],
                      if IsRegister(text) then w.log + [Registration(sid, p.users[|p.users| - 1])] else w.log,
                      if p.ends then w.erased + Erasing(sid, AtExit, w.users, s.hashId) else w.erased)))
    case Teardown(sid) =>
      var s := w.sessions[sid];
      Some(World(EraseFirst(w.users, s.hashId), w.sessions[sid := s.(phase := Gone)], w.log,
                 w.erased + Erasing(sid, AtEnd, w.users, s.hashId)))
  }

  predicate IsRegister(text: string) {
    Split(text, '#') != [] && Split(text, '#')[0] == "REGISTER"
  }

  /** The world after a run; None when a step was not possible or undefined. */
  function Run(w: World, events: seq<Event>): Option<World>
    decreases |events|
  {
    if events == [] then Some(w)
    else if !Enabled(w, events[0]) then None
    else
      match Step(w, events[0])
      case None => None
      case Some(next) => Run(next, events[1..])
  }

  // ---------- which runs are defined ----------

  /** A REGISTER with a field missing, or with a port that `stoi` rejects. */
  predicate BadRegister(text: string) {
    IsRegister(text) && (|Split(text, '#')| < 4 || StoI(Split(text, '#')[2]).None?)
  }

  /** The text of a connection that the other side closed is empty. */
  lemma ClosedReadsEmpty()
    ensures Receive([Closed]) == (Text(""), [Closed])
  {
  }

  /** A step is undefined exactly when a handler reads from a closed connection,
      or such a REGISTER. */
  lemma UndefinedExactly(w: World, e: Event)
    requires Enabled(w, e)
    ensures Step(w, e).None? <==> e.Hear? && (e.text == "" || BadRegister(e.text))
  {
  }

  predicate EnabledRun(w: World, events: seq<Event>)
    decreases |events|
  {
    events != [] ==>
      && Enabled(w, events[0])
      && (Step(w, events[0]).Some? ==> EnabledRun(Step(w, events[0]).value, events[1..]))
  }

  /** Every run of steps that are possible in turn is defined exactly when no
      handler hears one of those texts. */
  lemma {:induction false} RunDefinedExactly(w: World, events: seq<Event>)
    requires EnabledRun(w, events)
    ensures Run(w, events).Some? <==>
              forall e <- events | e.Hear? :: e.text != "" && !BadRegister(e.text)
    decreases |events|
  {
    if events != [] {
      UndefinedExactly(w, events[0]);
      assert events == [events[0]] + events[1..];
      if Step(w, events[0]).Some? {
        RunDefinedExactly(Step(w, events[0]).value, events[1..]);
      }
    }
  }

  /** A session that connects and leaves without EXIT ends the relay's defined runs. */
  lemma CleanDisconnect(sid: nat, ip: string)
    ensures EnabledRun(INITIAL, [Connect(sid, ip), Hear(sid, "")])
    ensures Run(INITIAL, [Connect(sid, ip), Hear(sid, "")]) == None
  {
    var events := [Connect(sid, ip), Hear(sid, "")];
    var next := Step(INITIAL, events[0]).value;
    assert events[1..] == [Hear(sid, "")];
    assert Enabled(next, Hear(sid, "")) && Step(next, Hear(sid, "")) == None;
  }

  // ---------- the registry invariant ----------

  /** A session registers at most once, under a nonempty id that no other session used. */
  predicate Disciplined(w: World, e: Event) {
    e.Hear? && IsRegister(e.text) ==>
      && (forall i | 0 <= i < |w.log| :: w.log[i].sid != e.sid)
      && |Split(e.text, '#')| > 1 && Split(e.text, '#')[1] != ""
      && (forall i | 0 <= i < |w.log| :: w.log[i].user.hashId != Split(e.text, '#')[1])
  }

  predicate DisciplinedRun(w: World, events: seq<Event>)
    decreases |events|
  {
    events != [] ==>
      && Disciplined(w, events[0])
      && (Enabled(w, events[0]) && Step(w, events[0]).Some? ==>
            DisciplinedRun(Step(w, events[0]).value, events[1..]))
  }

  /** A session is live until its handler erases for the first time: on EXIT, or
      at the end of a lost connection. */
  predicate IsLive(sessions: map<nat, Session>, sid: nat) {
    sid in sessions && (sessions[sid].phase.Open? || sessions[sid].phase.Lost?)
  }

  /** The entries of the live registered sessions, in registration order. */
  function LiveUsers(log: seq<Registration>, sessions: map<nat, Session>): seq<User> {
    if log == [] then []
    else Own(sessions, log[0]) + LiveUsers(log[1..], sessions)
  }

  ghost predicate Distinct(log: seq<Registration>) {
    forall i, j | 0 <= i < j < |log| ::
      log[i].sid != log[j].sid && log[i].user.hashId != log[j].user.hashId
  }

  ghost predicate Consistent(w: World) {
    && Distinct(w.log)
    && (forall i | 0 <= i < |w.log| ::
          && w.log[i].sid in w.sessions
          && w.sessions[w.log[i].sid].hashId == w.log[i].user.hashId != "")
    && (forall sid <- w.sessions | w.sessions[sid].hashId != "" ::
          exists i | 0 <= i < |w.log| :: w.log[i].sid == sid)
  }

  /** The vector holds exactly the entries of the live registered sessions. */
  ghost predicate RegistryInvariant(w: World) {
    Consistent(w) && w.users == LiveUsers(w.log, w.sessions)
  }

  function Own(sessions: map<nat, Session>, r: Registration): seq<User> {
    if IsLive(sessions, r.sid) then [r.user] else []
  }

  lemma {:induction false} LiveAppend(log: seq<Registration>, r: Registration, sessions: map<nat, Session>)
    ensures LiveUsers(log + [r], sessions) == LiveUsers(log, sessions) + Own(sessions, r)
  {
    if log == [] {
      assert (log + [r])[1..] == [];
    } else {
      var head, middle := Own(sessions, log[0]), LiveUsers(log[1..], sessions);
      LiveAppend(log[1..], r, sessions);
      assert (log + [r])[1..] == log[1..] + [r];
      assert head + (middle + Own(sessions, r)) == head + middle + Own(sessions, r);
    }
  }

  lemma {:induction false} LiveSame(log: seq<Registration>, s: map<nat, Session>, t: map<nat, Session>)
    requires forall i | 0 <= i < |log| :: IsLive(s, log[i].sid) == IsLive(t, log[i].sid)
    ensures LiveUsers(log, s) == LiveUsers(log, t)
  {
    if log != [] {
      LiveSame(log[1..], s, t);
    }
  }

  /** Closing a registered session takes exactly its entry out: the erase loop,
      which looks for the id, finds that entry and no other. */
  lemma {:induction false} CloseErases(log: seq<Registration>, s: map<nat, Session>, t: map<nat, Session>, p: nat)
    requires Distinct(log) && p < |log|
    requires IsLive(s, log[p].sid) && !IsLive(t, log[p].sid)
    requires forall i | 0 <= i < |log| && i != p :: IsLive(s, log[i].sid) == IsLive(t, log[i].sid)
    ensures LiveUsers(log, t) == EraseFirst(LiveUsers(log, s), log[p].user.hashId)
  {
    var id := log[p].user.hashId;
    var head, rest := Own(s, log[0]), LiveUsers(log[1..], s);
    if p == 0 {
      LiveSame(log[1..], s, t);
      assert (head + rest)[1..] == rest;
    } else {
      CloseErases(log[1..], s, t, p - 1);
      if head != [] {
        assert (head + rest)[1..] == rest && log[0].user.hashId != id;
      } else {
        assert head + rest == rest;
      }
    }
  }

  lemma {:induction false} EraseAbsent(users: seq<User>, id: string)
    requires forall i | 0 <= i < |users| :: users[i].hashId != id
    ensures EraseFirst(users, id) == users
  {
    if users != [] {
      EraseAbsent(users[1..], id);
    }
  }

  /** An id no live session holds is not in the vector: erasing it does nothing. */
  lemma {:induction false} AbsentId(log: seq<Registration>, s: map<nat, Session>, id: string)
    requires forall i | 0 <= i < |log| :: log[i].user.hashId != id || !IsLive(s, log[i].sid)
    ensures EraseFirst(LiveUsers(log, s), id) == LiveUsers(log, s)
  {
    if log != [] {
      AbsentId(log[1..], s, id);
      var rest := LiveUsers(log[1..], s);
      if IsLive(s, log[0].sid) {
        assert ([log[0].user] + rest)[1..] == rest;
      } else {
        assert LiveUsers(log, s) == rest;
      }
    }
  }

  lemma CloseKeeps(w: World, sid: nat, phase: Phase)
    requires RegistryInvariant(w) && IsLive(w.sessions, sid) && (phase.Exited? || phase.Gone?)
    ensures var t := w.sessions[sid := w.sessions[sid].(phase := phase)];
            EraseFirst(w.users, w.sessions[sid].hashId) == LiveUsers(w.log, t)
  {
    var t := w.sessions[sid := w.sessions[sid].(phase := phase)];
    var id := w.sessions[sid].hashId;
    if p: nat :| p < |w.log| && w.log[p].sid == sid {
      CloseErases(w.log, w.sessions, t, p);
    } else {
      AbsentId(w.log, w.sessions, id);
      LiveSame(w.log, w.sessions, t);
    }
  }

  /** REGISTER: a new entry, and the session takes its id. */
  lemma RegisterKeeps(w: World, sid: nat, entry: User, next: World)
    requires RegistryInvariant(w) && IsLive(w.sessions, sid) && entry.hashId != ""
    requires forall i | 0 <= i < |w.log| :: w.log[i].sid != sid && w.log[i].user.hashId != entry.hashId
    requires next.users == w.users + [entry] && next.log == w.log + [Registration(sid, entry)]
    requires next.sessions == w.sessions[sid := Session(w.sessions[sid].ip, entry.hashId, Open)]
    ensures RegistryInvariant(next)
  {
    LiveAppend(w.log, Registration(sid, entry), next.sessions);
    LiveSame(w.log, w.sessions, next.sessions);
    RegisterConsistent(w, sid, entry, next.sessions);
  }

  lemma RegisterConsistent(w: World, sid: nat, entry: User, t: map<nat, Session>)
    requires Consistent(w) && sid in w.sessions && entry.hashId != ""
    requires forall i | 0 <= i < |w.log| :: w.log[i].sid != sid && w.log[i].user.hashId != entry.hashId
    requires t == w.sessions[sid := Session(w.sessions[sid].ip, entry.hashId, Open)]
    ensures Consistent(World(w.users + [entry], t, w.log + [Registration(sid, entry)], w.erased))
  {
    var log := w.log + [Registration(sid, entry)];
    assert log[|w.log|].sid == sid;
    forall other <- t | t[other].hashId != ""
      ensures exists i | 0 <= i < |log| :: log[i].sid == other
    {
      if other != sid {
        var i :| 0 <= i < |w.log| && w.log[i].sid == other;
        assert log[i].sid == other;
      }
    }
  }

  lemma OthersConsistent(w: World, next: World, sid: nat)
    requires Consistent(w) && next.log == w.log
    requires next.sessions.Keys == w.sessions.Keys + {sid}
    requires forall k <- w.sessions :: next.sessions[k].hashId == w.sessions[k].hashId
    requires sid !in w.sessions ==> next.sessions[sid].hashId == ""
    ensures Consistent(next)
  {
  }

  lemma ConnectKeeps(w: World, sid: nat, ip: string)
    requires RegistryInvariant(w) && sid !in w.sessions
    ensures RegistryInvariant(Step(w, Connect(sid, ip)).value)
  {
    var next := Step(w, Connect(sid, ip)).value;
    OthersConsistent(w, next, sid);
    LiveSame(w.log, w.sessions, next.sessions);
  }

  lemma TeardownKeeps(w: World, sid: nat)
    requires RegistryInvariant(w) && Enabled(w, Teardown(sid))
    ensures RegistryInvariant(Step(w, Teardown(sid)).value)
  {
    var next := Step(w, Teardown(sid)).value;
    OthersConsistent(w, next, sid);
    if w.sessions[sid].phase.Lost? {
      CloseKeeps(w, sid, Gone);
    } else {
      LiveSame(w.log, w.sessions, next.sessions);
      ExitedIsAbsent(w, sid);
    }
  }

  /** After EXIT the id is nowhere in the vector: the second erase loop of the
      same session finds nothing. */
  lemma ExitedIsAbsent(w: World, sid: nat)
    requires RegistryInvariant(w) && sid in w.sessions && !IsLive(w.sessions, sid)
    ensures EraseFirst(w.users, w.sessions[sid].hashId) == w.users
  {
    var id := w.sessions[sid].hashId;
    forall i | 0 <= i < |w.log| && w.log[i].user.hashId == id
      ensures !IsLive(w.sessions, w.log[i].sid)
    {
      var j :| 0 <= j < |w.log| && w.log[j].sid == sid;
    }
    AbsentId(w.log, w.sessions, id);
  }

  /** EXIT: the first erase loop. */
  lemma ExitKeeps(w: World, sid: nat, next: World)
    requires RegistryInvariant(w) && IsLive(w.sessions, sid)
    requires next.log == w.log && next.users == EraseFirst(w.users, w.sessions[sid].hashId)
    requires next.sessions == w.sessions[sid := w.sessions[sid].(phase := Exited)]
    ensures RegistryInvariant(next)
  {
    OthersConsistent(w, next, sid);
    CloseKeeps(w, sid, Exited);
  }

  /** A text that changes no entry, or a failed receive. */
  lemma QuietKeeps(w: World, sid: nat, phase: Phase, next: World)
    requires RegistryInvariant(w) && IsLive(w.sessions, sid)
    requires phase.Open? || phase.Lost?
    requires next.log == w.log && next.users == w.users
    requires next.sessions == w.sessions[sid := w.sessions[sid].(phase := phase)]
    ensures RegistryInvariant(next)
  {
    OthersConsistent(w, next, sid);
    LiveSame(w.log, w.sessions, next.sessions);
  }

  lemma RegisteredEntry(w: World, sid: nat, text: string, next: World) returns (entry: User)
    requires Enabled(w, Hear(sid, text)) && Step(w, Hear(sid, text)) == Some(next)
    requires text != SIGFAULT && IsRegister(text)
    ensures entry.hashId == Split(text, '#')[1]
    ensures next.users == w.users + [entry] && next.log == w.log + [Registration(sid, entry)]
    ensures next.sessions == w.sessions[sid := Session(w.sessions[sid].ip, entry.hashId, Open)]
  {
    var segments := Split(text, '#');
    entry := User(segments[1], w.sessions[sid].ip, StoI(segments[2]).value, segments[3]);
  }

  lemma HearKeeps(w: World, sid: nat, text: string, next: World)
    requires RegistryInvariant(w) && Enabled(w, Hear(sid, text)) && Disciplined(w, Hear(sid, text))
    requires Step(w, Hear(sid, text)) == Some(next)
    ensures RegistryInvariant(next)
  {
    if text == SIGFAULT {
      QuietKeeps(w, sid, Lost, next);
    } else if IsRegister(text) {
      var entry := RegisteredEntry(w, sid, text, next);
      RegisterKeeps(w, sid, entry, next);
    } else if Split(text, '#')[0] == "EXIT" {
      ExitKeeps(w, sid, next);
    } else {
      QuietKeeps(w, sid, Open, next);
    }
  }

  /** Over every interleaving of disciplined sessions, after every step, the
      vector is exactly the entries of the live registered sessions in
      registration order, although EXIT erases twice and a loss erases once. */
  lemma {:induction false} RegistryIsLiveSessions(w: World, events: seq<Event>)
    requires RegistryInvariant(w) && DisciplinedRun(w, events)
    ensures Run(w, events).Some? ==> RegistryInvariant(Run(w, events).value)
    decreases |events|
  {
    if events != [] && Enabled(w, events[0]) && Step(w, events[0]).Some? {
      var next := Step(w, events[0]).value;
      match events[0] {
        case Connect(sid, ip) => ConnectKeeps(w, sid, ip);
        case Hear(sid, text) => HearKeeps(w, sid, text, next);
        case Teardown(sid) => TeardownKeeps(w, sid);
      }
      RegistryIsLiveSessions(next, events[1..]);
    }
  }

  // ---------- accounting without any discipline ----------

  /** `kept` is `log` without the entries of `gone`, in the order of `log`. */
  ghost predicate Without(log: seq<Registration>, kept: seq<User>, gone: multiset<User>) {
    if log == [] then kept == [] && gone == multiset{}
    else
      || (kept != [] && kept[0] == log[0].user && Without(log[1..], kept[1..], gone))
      || (log[0].user in gone && Without(log[1..], kept, gone - multiset{log[0].user}))
  }

  lemma {:induction false} WithoutAppend(log: seq<Registration>, kept: seq<User>, gone: multiset<User>, r: Registration)
    requires Without(log, kept, gone)
    ensures Without(log + [r], kept + [r.user], gone)
  {
    if log == [] {
      assert (log + [r])[1..] == [] && (kept + [r.user])[1..] == [];
    } else {
      assert (log + [r])[1..] == log[1..] + [r];
      if kept != [] && kept[0] == log[0].user && Without(log[1..], kept[1..], gone) {
        WithoutAppend(log[1..], kept[1..], gone, r);
        assert (kept + [r.user])[1..] == kept[1..] + [r.user];
      } else {
        WithoutAppend(log[1..], kept, gone - multiset{log[0].user}, r);
      }
    }
  }

  lemma {:induction false} WithoutErase(log: seq<Registration>, kept: seq<User>, gone: multiset<User>, id: string)
    requires Without(log, kept, gone)
    ensures Without(log, EraseFirst(kept, id), gone + multiset(Found(kept, id)))
  {
    if log != [] {
      var u := log[0].user;
      if kept != [] && kept[0] == u && Without(log[1..], kept[1..], gone) {
        if u.hashId == id {
          assert gone + multiset{u} - multiset{u} == gone;
        } else {
          WithoutErase(log[1..], kept[1..], gone, id);
          var left := EraseFirst(kept, id);
          assert left[0] == u && left[1..] == EraseFirst(kept[1..], id);
        }
      } else {
        WithoutErase(log[1..], kept, gone - multiset{u}, id);
        assert gone - multiset{u} + multiset(Found(kept, id)) == gone + multiset(Found(kept, id)) - multiset{u};
      }
    }
  }

  lemma HeadCounts(kept: seq<User>)
    requires kept != []
    ensures multiset(kept) == multiset{kept[0]} + multiset(kept[1..])
  {
    assert kept == [kept[0]] + kept[1..];
  }

  lemma PutBack(gone: multiset<User>, u: User, rest: multiset<User>)
    requires u in gone
    ensures multiset{u} + (rest + (gone - multiset{u})) == rest + gone
  {
  }

  lemma {:induction false} WithoutCounts(log: seq<Registration>, kept: seq<User>, gone: multiset<User>)
    requires Without(log, kept, gone)
    ensures Entries(log) == multiset(kept) + gone
  {
    if log != [] {
      var u := log[0].user;
      if kept != [] && kept[0] == u && Without(log[1..], kept[1..], gone) {
        WithoutCounts(log[1..], kept[1..], gone);
        HeadCounts(kept);
      } else {
        WithoutCounts(log[1..], kept, gone - multiset{u});
        PutBack(gone, u, multiset(kept));
      }
    }
  }

  function Entries(log: seq<Registration>): multiset<User> {
    if log == [] then multiset{} else multiset{log[0].user} + Entries(log[1..])
  }

  /** All the entries that erase loops took out. */
  function ErasedEntries(erased: seq<Erasure>): multiset<User> {
    if erased == [] then multiset{}
    else ErasedEntries(erased[..|erased| - 1]) + multiset{erased[|erased| - 1].entry}
  }

  /** Every erasure took out an entry with its session's id, in a loop that this
      session has run, and no loop of a session took out two entries. */
  predicate Traced(w: World) {
    && (forall i | 0 <= i < |w.erased| ::
          var r := w.erased[i];
          && r.sid in w.sessions && r.entry.hashId == w.sessions[r.sid].hashId
          && (w.sessions[r.sid].phase.Gone? || (r.loop.AtExit? && w.sessions[r.sid].phase.Exited?)))
    && (forall i, j | 0 <= i < j < |w.erased| ::
          w.erased[i].sid != w.erased[j].sid || w.erased[i].loop != w.erased[j].loop)
  }

  /** The vector is the registrations, in order, without exactly the erased entries. */
  ghost predicate Accounted(w: World) {
    Without(w.log, w.users, ErasedEntries(w.erased)) && Traced(w)
  }

  lemma ErasingEntries(erased: seq<Erasure>, sid: nat, loop: Loop, users: seq<User>, id: string)
    ensures ErasedEntries(erased + Erasing(sid, loop, users, id)) == ErasedEntries(erased) + multiset(Found(users, id))
  {
    var more := Erasing(sid, loop, users, id);
    if more == [] {
      assert erased + more == erased;
    } else {
      assert (erased + more)[..|erased|] == erased;
    }
  }

  lemma EraseAccounts(w: World, sid: nat, loop: Loop, id: string, next: World)
    requires Without(w.log, w.users, ErasedEntries(w.erased))
    requires next.log == w.log && next.users == EraseFirst(w.users, id)
    requires next.erased == w.erased + Erasing(sid, loop, w.users, id)
    ensures Without(next.log, next.users, ErasedEntries(next.erased))
  {
    WithoutErase(w.log, w.users, ErasedEntries(w.erased), id);
    ErasingEntries(w.erased, sid, loop, w.users, id);
  }

  lemma StepAccounts(w: World, e: Event, next: World)
    requires Accounted(w) && Enabled(w, e) && Step(w, e) == Some(next)
    ensures Without(next.log, next.users, ErasedEntries(next.erased))
  {
    match e
    case Connect(_, _) =>
    case Teardown(sid) =>
      EraseAccounts(w, sid, AtEnd, w.sessions[sid].hashId, next);
    case Hear(sid, text) =>
      if text != SIGFAULT {
        var segments := Split(text, '#');
        if segments[0] == "EXIT" {
          EraseAccounts(w, sid, AtExit, w.sessions[sid].hashId, next);
        } else if segments[0] == "REGISTER" {
          WithoutAppend(w.log, w.users, ErasedEntries(w.erased), next.log[|w.log|]);
        }
      }
  }

  lemma StepTraced(w: World, e: Event, next: World)
    requires Traced(w) && Enabled(w, e) && Step(w, e) == Some(next)
    ensures Traced(next)
  {
    if e.Connect? {
      assert next.erased == w.erased;
    } else {
      assert forall i | 0 <= i < |w.erased| :: next.erased[i] == w.erased[i];
    }
  }

  /** Over every run, with any ids: the vector is the registrations, in order,
      without exactly the entries that erase loops took out; each of those had the
      id of the session whose loop it was, and no loop took out two. */
  lemma {:induction false} RegistryAccounts(w: World, events: seq<Event>)
    requires Accounted(w)
    ensures Run(w, events).Some? ==>
              var v := Run(w, events).value;
              Accounted(v) && Entries(v.log) == multiset(v.users) + ErasedEntries(v.erased)
    decreases |events|
  {
    if events == [] {
      WithoutCounts(w.log, w.users, ErasedEntries(w.erased));
    } else if Enabled(w, events[0]) && Step(w, events[0]).Some? {
      StepAccounts(w, events[0], Step(w, events[0]).value);
      StepTraced(w, events[0], Step(w, events[0]).value);
      RegistryAccounts(Step(w, events[0]).value, events[1..]);
    }
  }

  /** Before the first connection both hold. */
  lemma InitiallyEmpty()
    ensures RegistryInvariant(INITIAL) && Accounted(INITIAL)
  {
  }

  function Count(users: seq<User>, id: string): nat {
    if users == [] then 0 else (if users[0].hashId == id then 1 else 0) + Count(users[1..], id)
  }

  function Others(users: seq<User>, id: string): seq<User> {
    if users == [] then [] else (if users[0].hashId == id then [] else [users[0]]) + Others(users[1..], id)
  }

  lemma {:induction false} EraseCounts(users: seq<User>, id: string)
    ensures Count(EraseFirst(users, id), id) == if Count(users, id) > 0 then Count(users, id) - 1 else 0
    ensures Others(EraseFirst(users, id), id) == Others(users, id)
  {
    if users != [] {
      EraseCounts(users[1..], id);
      var left := EraseFirst(users, id);
      if users[0].hashId != id {
        assert left[0] == users[0] && left[1..] == EraseFirst(users[1..], id);
      }
    }
  }

  lemma {:induction false} EraseOther(users: seq<User>, other: string, id: string)
    requires other != id
    ensures Count(EraseFirst(users, other), id) == Count(users, id)
  {
    if users != [] && users[0].hashId != other {
      EraseOther(users[1..], other, id);
      var left := EraseFirst(users, other);
      assert left[0] == users[0] && left[1..] == EraseFirst(users[1..], other);
    }
  }

  lemma {:induction false} CountAppend(users: seq<User>, u: User, id: string)
    requires u.hashId != id
    ensures Count(users + [u], id) == Count(users, id)
  {
    if users == [] {
      assert (users + [u])[1..] == [];
    } else {
      assert (users + [u])[1..] == users[1..] + [u];
      CountAppend(users[1..], u, id);
    }
  }

  /** A step of another session that leaves the entries with `id` alone. */
  predicate Spares(w: World, e: Event, sid: nat, id: string) {
    match e
    case Connect(_, _) => true
    case Teardown(other) => other != sid && other in w.sessions && w.sessions[other].hashId != id
    case Hear(other, text) =>
      && other != sid && other in w.sessions
      && (text != SIGFAULT ==>
            var segments := Split(text, '#');
            && (segments != [] && segments[0] == "EXIT" ==> w.sessions[other].hashId != id)
            && (|segments| > 1 && segments[0] == "REGISTER" ==> segments[1] != id))
  }

  predicate SparesRun(w: World, events: seq<Event>, sid: nat, id: string)
    decreases |events|
  {
    events != [] ==>
      && Spares(w, events[0], sid, id)
      && (Enabled(w, events[0]) && Step(w, events[0]).Some? ==>
            SparesRun(Step(w, events[0]).value, events[1..], sid, id))
  }

  lemma SparedStep(w: World, e: Event, sid: nat, id: string, next: World)
    requires sid in w.sessions && Enabled(w, e) && Spares(w, e, sid, id) && Step(w, e) == Some(next)
    ensures Count(next.users, id) == Count(w.users, id)
    ensures sid in next.sessions && next.sessions[sid] == w.sessions[sid]
  {
    match e
    case Connect(_, _) =>
    case Teardown(other) => EraseOther(w.users, w.sessions[other].hashId, id);
    case Hear(other, text) =>
      if text != SIGFAULT {
        if Split(text, '#')[0] == "EXIT" {
          EraseOther(w.users, w.sessions[other].hashId, id);
        } else if IsRegister(text) {
          var entry := RegisteredEntry(w, other, text, next);
          CountAppend(w.users, entry, id);
        }
      }
  }

  lemma {:induction false} SparedRun(w: World, events: seq<Event>, sid: nat, id: string, later: World)
    requires sid in w.sessions && SparesRun(w, events, sid, id) && Run(w, events) == Some(later)
    ensures Count(later.users, id) == Count(w.users, id)
    ensures sid in later.sessions && later.sessions[sid] == w.sessions[sid]
    decreases |events|
  {
    if events != [] {
      SparedStep(w, events[0], sid, id, Step(w, events[0]).value);
      SparedRun(Step(w, events[0]).value, events[1..], sid, id, later);
    }
  }

  /** A session that exits and is torn down removes min(2, count) entries with its
      id, one whose receive failed removes min(1, count), whatever steps of other
      sessions that leave those entries alone come in between; neither loop moves
      any other entry. */
  lemma SessionEndRemoves(w: World, sid: nat, text: string, middle: World, between: seq<Event>, later: World,
                          end: World)
    requires Enabled(w, Hear(sid, text)) && Step(w, Hear(sid, text)) == Some(middle)
    requires text == SIGFAULT || Split(text, '#')[0] == "EXIT"
    requires SparesRun(middle, between, sid, w.sessions[sid].hashId) && Run(middle, between) == Some(later)
    requires Enabled(later, Teardown(sid)) && Step(later, Teardown(sid)) == Some(end)
    ensures var id := w.sessions[sid].hashId;
            var limit := if text == SIGFAULT then 1 else 2;
            && Count(end.users, id) == (if Count(w.users, id) > limit then Count(w.users, id) - limit else 0)
            && Others(middle.users, id) == Others(w.users, id) && Others(end.users, id) == Others(later.users, id)
            && end.sessions[sid].phase == Gone
  {
    var id := w.sessions[sid].hashId;
    EraseCounts(w.users, id);
    SparedRun(middle, between, sid, id, later);
    EraseCounts(later.users, id);
  }

  /** A connection is accepted: a session without an id, from that address. */
  lemma ConnectOpens(w: World, sid: nat, ip: string)
    requires Enabled(w, Connect(sid, ip))
    ensures var next := Step(w, Connect(sid, ip)).value;
            && next.sessions == w.sessions[sid := Session(ip, "", Open)]
            && next.users == w.users && next.log == w.log && next.erased == w.erased
  {
  }

  /** A session's REGISTER: its entry, with the address it came from, at the end. */
  lemma RegisterStep(w: World, sid: nat, id: string, port: Int32, pk: string)
    requires sid in w.sessions && w.sessions[sid].phase.Open? && '#' !in id && '#' !in pk && pk != ""
    ensures var next := Step(w, Hear(sid, RegisterText(id, port, pk)));
            && next.Some? && next.value.users == w.users + [User(id, w.sessions[sid].ip, port, pk)]
            && next.value.sessions == w.sessions[sid := Session(w.sessions[sid].ip, id, Open)]
  {
    RegisterAnswers(w.users, w.sessions[sid].hashId, w.sessions[sid].ip, id, port, pk);
    RegisterFields(id, port, pk);
    assert RegisterText(id, port, pk)[0] == 'R';
  }

  lemma RunTwo(w: World, a: Event, b: Event)
    requires Enabled(w, a) && Step(w, a).Some? && Enabled(Step(w, a).value, b)
    ensures Run(w, [a, b]) == Step(Step(w, a).value, b)
  {
    var next := Step(w, a).value;
    assert [a, b][1..] == [b] && [b][1..] == [];
    assert Run(next, [b]) == if Step(next, b).Some? then Run(Step(next, b).value, []) else None;
  }

  /** From connecting to REGISTER: the entry listed has the session's address. */
  lemma RegisterLists(w: World, sid: nat, ip: string, id: string, port: Int32, pk: string)
    requires Enabled(w, Connect(sid, ip)) && '#' !in id && '#' !in pk && pk != ""
    ensures var end := Run(w, [Connect(sid, ip), Hear(sid, RegisterText(id, port, pk))]);
            && end.Some? && end.value.users == w.users + [User(id, ip, port, pk)]
            && end.value.sessions == w.sessions[sid := Session(ip, id, Open)]
  {
    var next := Step(w, Connect(sid, ip)).value;
    RegisterStep(next, sid, id, port, pk);
    RunTwo(w, Connect(sid, ip), Hear(sid, RegisterText(id, port, pk)));
    assert next.sessions[sid := Session(ip, id, Open)] == w.sessions[sid := Session(ip, id, Open)];
  }

  /** A session whose receive fails is lost, and its end removes min(1, count)
      entries with its id. */
  lemma FailedReceiveLoses(w: World, sid: nat, text: string, lost: World, end: World)
    requires sid in w.sessions && w.sessions[sid].phase.Open? && Receive([Failed]).0 == Text(text)
    requires Step(w, Hear(sid, text)) == Some(lost)
    ensures lost == w.(sessions := w.sessions[sid := w.sessions[sid].(phase := Lost)]) && Enabled(lost, Teardown(sid))
    ensures Step(lost, Teardown(sid)) == Some(end) ==>
              var id := w.sessions[sid].hashId;
              && Count(end.users, id) == (if Count(w.users, id) > 1 then Count(w.users, id) - 1 else 0)
              && Others(end.users, id) == Others(w.users, id)
  {
    FailedReadsSigfault("", []);
    assert [Failed] + [] == [Failed];
    EraseCounts(w.users, w.sessions[sid].hashId);
  }

  /** Such a session is always enabled to be torn down. */
  lemma TeardownEnabled(w: World, sid: nat, text: string, middle: World, between: seq<Event>, later: World)
    requires Enabled(w, Hear(sid, text)) && Step(w, Hear(sid, text)) == Some(middle)
    requires text == SIGFAULT || Split(text, '#')[0] == "EXIT"
    requires SparesRun(middle, between, sid, w.sessions[sid].hashId) && Run(middle, between) == Some(later)
    ensures Enabled(later, Teardown(sid))
  {
    SparedRun(middle, between, sid, w.sessions[sid].hashId, later);
  }
}
