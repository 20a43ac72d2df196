/** The 1024-byte framing under every conversation: 1023 characters and a NUL a
    frame, and a frame with fewer than 1023 characters ends the message. */
module Framing {
  import opened Text

  const CHUNK_SIZE := 1024

  /** What a failed receive returns, which is also what a peer replies to refuse. */
  const SIGFAULT := "SIGFAULT"

  /** Every frame the program sends ends in the NUL of its zeroed buffer. */
  type Frame = f: string | |f| == CHUNK_SIZE && f[CHUNK_SIZE - 1] == '\0'
    witness seq(1024, _ => '\0')

  /** What one `recv` can come back with; each call yields one whole frame. */
  datatype Incoming = Data(frame: Frame) | Closed | Failed

  /** A receive that finds nothing more to read waits for ever. */
  datatype Received = Text(text: string) | Blocked

  // ---------- specification ----------

  /** memset, then strncpy: a NUL in the piece ends what is copied. */
  function FrameOf(piece: string): (frame: Frame)
    requires |piece| < CHUNK_SIZE
    ensures CString(frame) == CString(piece)
  {
    var content := CString(piece);
    var frame := content + seq(CHUNK_SIZE - |content|, _ => '\0');
    CStringOfTerminated(content, frame[|content|..]);
    assert frame == content + frame[|content|..];
    frame
  }

  /** How many characters go into the first frame. */
  function PieceLength(s: string): (n: nat)
    ensures n <= |s| && n < CHUNK_SIZE && (s != "" ==> n > 0)
  {
    if |s| < CHUNK_SIZE then |s| else CHUNK_SIZE - 1
  }

  function Frames(s: string): (frames: seq<Frame>)
    ensures s != "" ==> frames != []
    decreases |s|
  {
    if s == "" then []
    else
      var n := PieceLength(s);
      [FrameOf(s[..n])] + Frames(s[n..])
  }

  function Delivered(frames: seq<Frame>): (queue: seq<Incoming>)
    ensures |queue| == |frames|
  {
    seq(|frames|, i requires 0 <= i < |frames| => Data(frames[i]))
  }

  /** The receive loop with `acc` collected so far: the text, and what is left. */
  function ReceiveFrom(acc: string, queue: seq<Incoming>): (Received, seq<Incoming>)
    decreases |queue|
  {
    if queue == [] then (Blocked, [])
    else
      match queue[0]
      case Failed => (Text(SIGFAULT), queue[1..])
      case Closed => (Text(acc), queue)
      case Data(frame) =>
        var piece := CString(frame);
        if |piece| < CHUNK_SIZE - 1 then (Text(acc + piece), queue[1..])
        else ReceiveFrom(acc + piece, queue[1..])
  }

  function Receive(queue: seq<Incoming>): (Received, seq<Incoming>) {
    ReceiveFrom("", queue)
  }

  // ---------- a connection ----------

  class Connection {
    var incoming: seq<Incoming>
    var sent: seq<Frame>

    constructor (incoming: seq<Incoming>)
      ensures this.incoming == incoming && sent == []
    {
      this.incoming := incoming;
      sent := [];
    }

    method SendMessage(s: string)
      modifies this`sent
      ensures sent == old(sent) + Frames(s)
    {
      var rest := s;
      while rest != ""
        invariant sent + Frames(rest) == old(sent) + Frames(s)
        decreases |rest|
      {
        var n := PieceLength(rest);
        sent := Append(sent, [FrameOf(rest[..n])], Frames(rest[n..]));
        rest := rest[n..];
      }
    }

    method ReceiveMessage() returns (received: Received)
      modifies this`incoming
      ensures (received, incoming) == Receive(old(incoming))
    {
      var receiveString := "";
      while incoming != []
        invariant ReceiveFrom(receiveString, incoming) == Receive(old(incoming))
        decreases |incoming|
      {
        match incoming[0] {
          case Failed =>
            incoming := incoming[1..];
            return Text(SIGFAULT);
          case Closed =>
            return Text(receiveString);
          case Data(frame) =>
            incoming := incoming[1..];
            var piece := CString(frame);
            receiveString := receiveString + piece;
            if |piece| < CHUNK_SIZE - 1 {
              return Text(receiveString);
            }
        }
      }
      received := Blocked;
    }

    /** `bind` reads one frame: the greeting of the other side. */
    method Bind()
      requires incoming != []
      modifies this`incoming
      ensures incoming == if old(incoming[0]).Closed? then old(incoming) else old(incoming)[1..]
    {
      if !incoming[0].Closed? {
        incoming := incoming[1..];
      }
    }

    method SendCommand(command: string) returns (reply: Received)
      modifies this
      ensures sent == old(sent) + Frames(command)
      ensures (reply, incoming) == Receive(old(incoming))
    {
      SendMessage(command);
      reply := ReceiveMessage();
    }
  }

  // ---------- how a receive ends ----------

  /** A failed receive drops what came before it and reads as SIGFAULT. */
  lemma FailedReadsSigfault(acc: string, rest: seq<Incoming>)
    ensures ReceiveFrom(acc, [Failed] + rest) == (Text("SIGFAULT"), rest)
  {
  }

  /** A closed connection ends the message with what came before. */
  lemma ClosedEndsMessage(acc: string, rest: seq<Incoming>)
    ensures ReceiveFrom(acc, [Closed] + rest) == (Text(acc), [Closed] + rest)
  {
  }

  /** Over any number of full frames, the failure alone is what comes back, and a
      closed connection brings back all of them. */
  lemma {:induction false} FramesThenEnd(acc: string, s: string, rest: seq<Incoming>)
    requires NulFree(s) && !EndsShort(|s|)
    ensures ReceiveFrom(acc, Delivered(Frames(s)) + ([Failed] + rest)) == (Text("SIGFAULT"), rest)
    ensures ReceiveFrom(acc, Delivered(Frames(s)) + ([Closed] + rest)) == (Text(acc + s), [Closed] + rest)
  {
    ReceiveAllFrames(acc, s, [Failed] + rest);
    ReceiveAllFrames(acc, s, [Closed] + rest);
    FailedReadsSigfault(acc + s, rest);
    ClosedEndsMessage(acc + s, rest);
  }

  /** A frame is its text and zeros up to 1024. */
  lemma FrameIsZeroFilled(piece: string, i: nat)
    requires NulFree(piece) && |piece| < CHUNK_SIZE && i < CHUNK_SIZE
    ensures FrameOf(piece)[i] == if i < |piece| then piece[i] else '\0'
  {
    CStringOfNulFree(piece);
  }

  // ---------- message boundaries ----------

  /** A string whose last frame is short and that no NUL cuts. */
  predicate Framed(s: string) {
    NulFree(s) && |s| % (CHUNK_SIZE - 1) != 0
  }

  lemma ReceiveOne(acc: string, piece: string, queue: seq<Incoming>)
    requires NulFree(piece) && |piece| < CHUNK_SIZE
    ensures ReceiveFrom(acc, [Data(FrameOf(piece))] + queue) ==
            if |piece| < CHUNK_SIZE - 1 then (Text(acc + piece), queue) else ReceiveFrom(acc + piece, queue)
  {
    CStringOfNulFree(piece);
    assert ([Data(FrameOf(piece))] + queue)[1..] == queue;
  }

  lemma DeliveredCons(frame: Frame, frames: seq<Frame>, rest: seq<Incoming>)
    ensures Delivered([frame] + frames) + rest == [Data(frame)] + (Delivered(frames) + rest)
  {
  }

  /** Whether the last of the frames of `n` characters is short. */
  predicate EndsShort(n: nat) {
    if n < CHUNK_SIZE - 1 then n > 0 else EndsShort(n - (CHUNK_SIZE - 1))
  }

  lemma {:induction false} EndsShortIsRemainder(n: nat)
    ensures EndsShort(n) <==> n % (CHUNK_SIZE - 1) != 0
  {
    if n >= CHUNK_SIZE - 1 {
      EndsShortIsRemainder(n - (CHUNK_SIZE - 1));
    }
  }

  lemma Regroup(acc: string, s: string, n: nat)
    requires n <= |s|
    ensures acc + s[..n] + s[n..] == acc + s
  {
  }

  lemma {:induction false} ReceiveAllFrames(acc: string, s: string, rest: seq<Incoming>)
    requires NulFree(s)
    ensures ReceiveFrom(acc, Delivered(Frames(s)) + rest) ==
            if EndsShort(|s|) then (Text(acc + s), rest) else ReceiveFrom(acc + s, rest)
    decreases |s|
  {
    if s == "" {
      assert Delivered(Frames(s)) + rest == rest && acc + s == acc;
    } else {
      var n := PieceLength(s);
      var piece, tail := s[..n], s[n..];
      var queue := Delivered(Frames(tail)) + rest;
      DeliveredCons(FrameOf(piece), Frames(tail), rest);
      assert Delivered(Frames(s)) + rest == [Data(FrameOf(piece))] + queue;
      ReceiveOne(acc, piece, queue);
      if n < CHUNK_SIZE - 1 {
        assert piece == s && queue == rest;
      } else {
        ReceiveAllFrames(acc + piece, tail, rest);
        Regroup(acc, s, n);
      }
    }
  }

  /** Frames of a NUL-free string put the string into the accumulator; then a
      short last frame ends the message and a full one runs on into `rest`. */
  lemma ReceiveFrames(acc: string, s: string, rest: seq<Incoming>)
    requires NulFree(s)
    ensures ReceiveFrom(acc, Delivered(Frames(s)) + rest) ==
            if Framed(s) then (Text(acc + s), rest) else ReceiveFrom(acc + s, rest)
  {
    ReceiveAllFrames(acc, s, rest);
    EndsShortIsRemainder(|s|);
  }

  lemma {:induction false} ReceivedIsNulFree(acc: string, queue: seq<Incoming>)
    requires NulFree(acc)
    ensures ReceiveFrom(acc, queue).0.Text? ==> NulFree(ReceiveFrom(acc, queue).0.text)
    decreases |queue|
  {
    if queue != [] && queue[0].Data? {
      ReceivedIsNulFree(acc + CString(queue[0].frame), queue[1..]);
    }
  }

  lemma ReceiveFramed(s: string, rest: seq<Incoming>)
    requires Framed(s)
    ensures Receive(Delivered(Frames(s)) + rest) == (Text(s), rest)
  {
    ReceiveFrames("", s, rest);
    assert "" + s == s;
  }

  /** A string crosses the connection whole, whatever follows it, exactly when
      it holds no NUL and its length is no multiple of 1023. */
  lemma FramingIsExact(s: string)
    ensures (forall rest :: Receive(Delivered(Frames(s)) + rest) == (Text(s), rest)) <==> Framed(s)
  {
    if Framed(s) {
      forall rest
        ensures Receive(Delivered(Frames(s)) + rest) == (Text(s), rest)
      {
        ReceiveFramed(s, rest);
      }
    } else {
      var queue := Delivered(Frames(s)) + [];
      if NulFree(s) {
        ReceiveFrames("", s, []);
      } else {
        ReceivedIsNulFree("", queue);
      }
      assert Receive(queue) != (Text(s), []);
    }
  }

  /** A nonempty message with a length divisible by 1023 is not ended by its own
      frames: the receiver goes on with whatever the next frames hold. */
  lemma FullLastFrameRunsOn(s: string, next: string, rest: seq<Incoming>)
    requires NulFree(s) && s != "" && |s| % (CHUNK_SIZE - 1) == 0 && Framed(next)
    ensures Receive(Delivered(Frames(s)) + (Delivered(Frames(next)) + rest)) == (Text(s + next), rest)
    ensures Receive(Delivered(Frames(s))) == (Blocked, [])
  {
    ReceiveFrames("", s, Delivered(Frames(next)) + rest);
    assert "" + s == s;
    ReceiveFrames(s, next, rest);
    ReceiveFrames("", s, []);
    assert Delivered(Frames(s)) + [] == Delivered(Frames(s));
  }

  /** Everything a sender puts on one connection. */
  function Stream(messages: seq<string>): seq<Incoming> {
    if messages == [] then [] else Delivered(Frames(messages[0])) + Stream(messages[1..])
  }

  /** `n` receives in a row. */
  function ReceiveMany(n: nat, queue: seq<Incoming>): (seq<Received>, seq<Incoming>) {
    if n == 0 then ([], queue)
    else
      var (first, rest) := Receive(queue);
      var (others, left) := ReceiveMany(n - 1, rest);
      ([first] + others, left)
  }

  predicate AllFramed(messages: seq<string>) {
    forall i | 0 <= i < |messages| :: Framed(messages[i])
  }

  function AsReceived(messages: seq<string>): seq<Received> {
    if messages == [] then [] else [Text(messages[0])] + AsReceived(messages[1..])
  }

  lemma Associate<T>(a: seq<T>, b: seq<T>, c: seq<T>)
    ensures (a + b) + c == a + (b + c)
  {
  }

  lemma StreamCons(messages: seq<string>, rest: seq<Incoming>)
    requires messages != []
    ensures Stream(messages) + rest == Delivered(Frames(messages[0])) + (Stream(messages[1..]) + rest)
  {
    Associate(Delivered(Frames(messages[0])), Stream(messages[1..]), rest);
  }

  /** A whole conversation keeps its message boundaries and its order. */
  lemma {:induction false} StreamKeepsBoundaries(messages: seq<string>, rest: seq<Incoming>)
    requires AllFramed(messages)
    ensures ReceiveMany(|messages|, Stream(messages) + rest) == (AsReceived(messages), rest)
  {
    if messages == [] {
      assert Stream(messages) + rest == rest;
    } else {
      StreamCons(messages, rest);
      ReceiveFramed(messages[0], Stream(messages[1..]) + rest);
      StreamKeepsBoundaries(messages[1..], rest);
    }
  }

  lemma OneFrame(s: string)
    requires 0 < |s| < CHUNK_SIZE
    ensures Frames(s) == [FrameOf(s)] + []
  {
    assert s[..|s|] == s;
  }

  /** `bind` takes the greeting off the stream, so the replies line up with the
      commands that follow on the same connection. */
  lemma GreetingThenReplies(greeting: string, replies: seq<string>)
    requires 0 < |greeting| < CHUNK_SIZE
    requires AllFramed(replies)
    ensures Stream([greeting] + replies) != [] && Stream([greeting] + replies)[0].Data?
    ensures ReceiveMany(|replies|, Stream([greeting] + replies)[1..]) == (AsReceived(replies), [])
  {
    assert ([greeting] + replies)[1..] == replies;
    OneFrame(greeting);
    DeliveredCons(FrameOf(greeting), [], Stream(replies));
    assert Stream([greeting] + replies) == [Data(FrameOf(greeting))] + (Stream(replies) + []);
    StreamKeepsBoundaries(replies, []);
  }

  // ---------- one message over a fresh connection ----------

  /** What the other side reads of one message; None when it waits for ever. */
  function Transfer(s: string): (read: Option<string>) {
    match Receive(Delivered(Frames(s))).0
    case Text(t) => Some(t)
    case Blocked => None
  }

  /** Without NULs nothing is ever altered: it arrives, or the reader hangs. */
  lemma TransferExact(s: string)
    requires NulFree(s)
    ensures Transfer(s) == if Framed(s) then Some(s) else None
  {
    ReceiveFrames("", s, []);
    assert "" + s == s && Delivered(Frames(s)) + [] == Delivered(Frames(s));
  }

  // ---------- one command over a fresh connection ----------

  /** What a peer's handler sends before it reads. */
  const GREETING := "Handler Assigned\n"

  /** What becomes of the handler's end: a reply, an orderly close, a reset, or
      nothing for as long as the other side waits. */
  datatype Answer = Reply(text: string) | Shut | Reset | Silent

  function AnswerFrames(answer: Answer): seq<Incoming> {
    match answer
    case Reply(text) => Delivered(Frames(text))
    case Shut => [Closed]
    case Reset => [Failed]
    case Silent => []
  }

  lemma GreetingFirst(greeting: string, frames: seq<Frame>, rest: seq<Incoming>)
    requires 0 < |greeting| < CHUNK_SIZE
    ensures Delivered(Frames(greeting) + frames) + rest == [Data(FrameOf(greeting))] + (Delivered(frames) + rest)
  {
    OneFrame(greeting);
    assert Frames(greeting) + frames == [FrameOf(greeting)] + frames;
    DeliveredCons(FrameOf(greeting), frames, rest);
  }

  /** The handler's side: it greets, then reads the command. */
  method HearCommand(command: string) returns (far: Connection, text: Option<string>)
    ensures fresh(far) && far.sent == Frames(GREETING)
    ensures text == Transfer(command)
  {
    far := new Connection(Delivered(Frames(command)));
    far.SendMessage(GREETING);
    var received := far.ReceiveMessage();
    text := match received case Text(t) => Some(t) case Blocked => None;
    assert [] + Frames(GREETING) == Frames(GREETING);
  }

  /** The asking side: `bind` takes the greeting, `sendCommand` sends the frames
      that the handler heard and reads what it answered. */
  method AskCommand(far: Connection, command: string, answer: Answer) returns (reply: Received)
    requires far.sent == Frames(GREETING)
    modifies far`sent
    ensures reply == Receive(AnswerFrames(answer)).0
  {
    ghost var frames := if answer.Reply? then Frames(answer.text) else [];
    if answer.Reply? {
      far.SendMessage(answer.text);
    }
    assert far.sent == Frames(GREETING) + frames;
    var end := if answer.Shut? then [Closed] else if answer.Reset? then [Failed] else [];
    var near := new Connection(Delivered(far.sent) + end);
    GreetingFirst(GREETING, frames, end);
    near.Bind();
    assert near.incoming == Delivered(frames) + end == AnswerFrames(answer);
    reply := near.SendCommand(command);
    assert near.sent == [] + Frames(command) == Frames(command);
  }

  /** A reply as `Transfer` says; a closed connection as an empty reply; a reset as
      SIGFAULT; a silent handler as a wait without end. */
  lemma AnswerHeard(answer: Answer)
    ensures Receive(AnswerFrames(answer)).0 ==
            match answer
            case Reply(text) => (if Transfer(text).Some? then Text(Transfer(text).value) else Blocked)
            case Shut => Text("")
            case Reset => Text("SIGFAULT")
            case Silent => Blocked
  {
  }
}
