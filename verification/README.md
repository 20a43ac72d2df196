# chatNT: a verified model of the onion message pipeline and the relay registry

chatNT peers send each other short messages through three other peers. The
sender wraps a message in four layers of RSA and base64 (`P1`, `P2`, `P3`, `R`);
every handler peels one layer, forwards what is inside, waits for the reply and
passes `SUCCESS` or `SIGFAULT` back. A relay keeps the list of registered peers
and prints it on `LIST`. The Dafny files model that pipeline from the bits of
base64 up to whole runs of the network, and prove what the program promises:
a message arrives exactly once or no list changes anywhere; stored messages are
authentic; hops learn one id each; the registry holds exactly the live sessions.

The theorems to start from:

- `Honest.EndToEnd`, `Honest.HonestSend`, `Honest.ExactDelivery`: exact delivery
  through every layer, for every draw of hops; what becomes of every message without
  a NUL; and exactly which messages arrive as they were sent; and
  `Together.RegisteredPeersDeliver`: between any two live sessions of the relay,
  after any run of well-behaved sessions.
- `Sending.SendHasFate`: with throwing lists, refused connections, missing entries,
  mismatching keys and failing signatures allowed at every stage, what a send
  returns, who accepted and every list follow from a fate that is computed from
  lists, keys and listeners beforehand. `Sending.AllOrNothing` is the case where
  every list arrives, `Sending.FalseZeroExactly` says when a returned 0 misleads.
- `Transit.ForwardingTerminates`, `Transit.ZeroMeansAccepted`,
  `Transit.NothingUnlessAccepted`: any packet and any send at all, in any
  surroundings.
- `Authenticity.AuthenticRun`: every run, against made-up, repeated and
  reordered packets and replies; with `Claims.BindsSenderExactly`,
  `Authenticity.ShownAuthenticExactly` and `Authenticity.ReplayStores` for what the
  handlers do not check and what signatures do not bind.
- `Locality.HopLocality`, `Locality.MessageNeedsReceiver`: what a packet tells
  whom, and `Locality.PacketLocality`: the packets of every parcel are those terms;
  `Locality.SomePacketTellsLittle`: from any list with four keys such a packet is formed.
- `Registry.RegistryIsLiveSessions`, `Registry.RegistryAccounts`: the relay over
  all interleavings, with and without well-behaved clients.
- `Program`: the main results restated for the program itself, as explained below.
- `SslHandler.EncryptionRoundTrip`, `SslHandler.SignatureRoundTrip`,
  `Framing.FramingIsExact`, `Directory.DirectoryRoundTrip`,
  `Base64.DecodeEncodePrefix`, `Base64.DecodeConforms`: the encodings, each with
  the exact condition under which it gives back what went in.

## How the modules fit together

| module | part of the program |
|---|---|
| `Text` | `std::string` seen as a C string, `getline` with a delimiter |
| `Base64` | `peer/base64.cpp` |
| `Rsa` | RSA, SHA-256 and PEM as abstract functions with laws |
| `SslHandler` | `peer/ssl_handler.cpp` |
| `Framing` | the 1024-byte frames of `peer/socket_control.cpp` and both handlers |
| `Directory` | the user list: `to_string`, `stoi`, printing, parsing, lookup |
| `Registry` | `relay/handler_thread.cpp` |
| `Onion` | one layer of `process`, and the packet of `formPacketandSend` |
| `Transit` | packets between peers: `process`, forwarding, replies, `formPacketandSend` |
| `Stages` | the layers of a formed packet, and why each crosses its connection |
| `Delivery` | how a packet with known layers ends, stage by stage |
| `Sending` | `formPacketandSend` through the whole stack: the fate of a send |
| `Honest` | one honest directory: end-to-end and exact delivery |
| `Reports` | what the value that `formPacketandSend` returns says |
| `Network` | the peers as objects that update their lists in place |
| `Claims` | what the R handler takes for proof, and which listed keys are checked |
| `Authenticity` | runs of the whole network against any traffic |
| `Locality` | the packet as a term over ideal cryptography |
| `Program` | the main results for the program's own machine |
| `Together` | the relay's runs and the peers' sends composed |

Code that works in place is a class or a method with a loop (`EncodeBase64`,
`DecodeBase64`, `SslHandler`, `Connection`, `Print`, `Parse`, `UserVector`,
`RelayHandler`, `PeerNode`, `Network`); each is proved equal to a function, and
the theorems are about those functions.

A `Transit.Machine` is a record of what a peer's code computes. The predicate
`Transit.Runs(m, c)` says that the machine is this program over the cryptography
`c`; `Transit.Chat(c)` is that machine (`Transit.ChatRuns`), and
`Transit.ProgramIsLawful` derives the three laws that the traffic functions need
from it. Theorems are stated for every `m` with `Runs(m, c)`, and `Program` restates
the main ones for `Chat(c)`. The reason for the detour is proof economy only: the
traffic proofs do not look inside base64.

An `Env` gives the surroundings of each stage of one message: 4 for the sender,
3 for the `P1` handler, down to 0 for the `R` handler. Each stage may meet a
different registry, different listeners and different over-reads.

## Modelling assumptions

- Each `recv` returns one whole 1024-byte frame. A handler or registry step is
  atomic, since the code has no locks; steps interleave freely. A forwarded
  packet is handled while the forwarding handler waits.
- A C++ `char` is a Dafny `char`; raw RSA blocks are sequences of bytes. Where
  the size of a `char` matters, strings are `ByteText`, all characters below 256.
  Bit masks and shifts are written with `/` and `%`.
- RSA and SHA-256 are the functions of `Rsa.Crypto` under `Laws()`: decryption
  with the matching key undoes encryption of a full block, the same for
  signatures, keys made by the program have 512 bytes, digests are 64 hexadecimal
  digits. `Rsa.LawsAreSatisfiable` gives functions that meet all of them, and
  `Honest.HonestDirectoryExists` a network that meets the assumptions of `Honest`.
- What the code reads past a buffer, the padding randomness and the results of
  `rand()` are arguments (`Writing`, `Reading`, `Draws`), and all theorems hold
  for every value of them.
- Whoever listens at an address runs this program; `Listener` counts anybody else as
  a refused connection. `Authenticity` alone allows foreign packets and replies.
- An exception that nobody catches (`stoi` of no number) ends the peer's process:
  `Threw`, `Thrown`, `Ended`, `Exited`. Its connections close, and a `recv` on a
  closed connection returns 0, which reads as an empty text. A connection that is
  reset instead would read as SIGFAULT (`Framing.AnswerHeard`); the network does not
  produce one.
- Undefined behaviour (a field past the split fields, `getUser` of an absent id,
  `rand()` modulo zero) is `Misread`, `Garbled`, `Undefined`, `Unknown`,
  `Unspecified`, or `None` at the relay. Nothing is claimed of a packet, a send or a
  run after such a step: the theorems about any packet, any send and any run say so
  in their contracts (`Unknown`, `Unspecified`, `Authenticity.Defined`,
  `Registry.Run`), and the delivery theorems show that there is none. A receive that
  never ends is `Blocked`, `Hung`, `Stuck` or `Waiting`.
- Authenticity assumes of a run (`Fair`) that every listed key hashes to its id and
  that signatures are ideal (`Unforged`): an RSA block shown to a handler was made by
  signing, or does not open to 64 characters, and nothing shown has the digest of
  something else that was signed. That accepted messages were signed is derived from
  `verifyMessage` (`Authenticity.AcceptedIsSigned`). `HonestDirectory` and
  `KeysGenuine` assume that ids are those of the peers' own keys.

## Conditions the proofs brought out

- Decryption undoes encryption exactly for messages without a NUL. A message with
  one loses, in each 501-byte chunk, everything from the NUL on (`DecryptEncrypt`).
  Up to 435 characters this takes the separator before the signature away, and the
  receiver reads past the last field (`Claims.NulMessageUndefined`).
- A string crosses a connection whole, whatever follows it, exactly when it has no
  NUL and its length is not a multiple of 1023. No packet of the program has such
  a length (`Stages.FormedPacketsCross`), but the reply to `LIST` can: then the peer
  that asked waits for ever (`Onion.FetchHangs`, with one-entry lists in
  `Onion.SingleEntryHangs` and a family of inputs in `Onion.FullFrameEntry`).
  This is why delivery assumes a `Fetchable` list.
- A handler whose process ends while a packet waits for it looks like success
  upstream: `sendCommand` returns an empty text, which is not SIGFAULT. A packed send
  returns 0 without an acceptance exactly when its fate is the end of another peer's
  process (`Sending.FalseZeroExactly`); `Reports.FalseSuccessExists` is a network of
  two peers where that happens.
- A printed list parses back to itself exactly when no field holds a `#` and the
  last public key is not empty.
- Among messages without a NUL, another peer receives exactly the message sent
  exactly when it holds no `%`. With one, the receiver sees only what stands before
  it, and accepts that exactly when what follows it up to the next `%` verifies as
  its signature (`Honest.HonestSend`); otherwise the send returns 1 and no list changes.
- A clean disconnect makes the relay's receive return an empty string
  (`Registry.ClosedReadsEmpty`), and `process` then reads the first segment of no
  segments. `Registry.UndefinedExactly` gives all undefined steps of the relay,
  `Registry.RunDefinedExactly` the runs without one, and `Registry.CleanDisconnect`
  the shortest run into one.
- `README.md` of the repository says at line 55 that peers validate a listed hash id
  against the public key. `P1`, `P2` and `formPacketandSend` do; `P3`
  (`peer/handler_thread.cpp:146-156`) and `R` (`peer/handler_thread.cpp:179-190`) do
  not. At R, messages accepted for a sender come only from key pairs with that
  sender's id if and only if the entry's key hashes to its id
  (`Claims.BindsSenderExactly`); `Claims.SwappedAccepted` and
  `Authenticity.SwappedBreaks` give a list under which a peer stores, without any
  forgery, a message as from somebody who never signed it. At P3, the missing check
  lets the packet go on to any listed receiver, where hops 1 and 2 would refuse; what
  travels is the same text, sealed for the key that the sender chose
  (`Claims.LastChecksExactly`, `Claims.SwappedPassedOn`, `Claims.HopsCheckButLast`).
- A signature binds neither receiver nor occasion: a message submitted for one peer
  can be stored at another, and twice (`Authenticity.ReplayStores`, with three peers
  in `Authenticity.ReplayHappens`).

## Model

| member | source | states |
|---|---|---|
| Text.Segments | peer/handler_thread.cpp:63-71 | the `getline` loop yields exactly the fields of `Split`; a trailing delimiter opens no further field |
| Text.SplitUndoesJoin | peer/ssl_handler.cpp:104-112 | splitting gives back the joined fields if and only if no field holds the delimiter and the last is not empty |
| Text.SplitAppend | relay/handler_thread.cpp:59-67 | fields behind a text that does not end in the delimiter come behind its own fields |
| Base64.CharOfIndexesCharset | peer/base64.cpp:7-8 | the character chosen by ranges is the entry of the 64-character table |
| Base64.TransformExactly | peer/base64.cpp:11-24 | every character of the table maps to its place, every other character to 0 |
| Base64.EncodeBase64 | peer/base64.cpp:27-42 | the loop computes `Encode` for every buffer and every content of the bytes it over-reads |
| Base64.DecodeBase64 | peer/base64.cpp:45-72 | the loop computes `Decode` for every string and whatever follows it in memory |
| Base64.GroupBack | peer/base64.cpp:31-38 | the shifted and masked sums of three bytes decode to those bytes, and to a prefix of them when '=' takes the last place or the last two |
| Base64.EncodeLength | peer/base64.cpp:29-41 | the encoded length is 4 * ceil(n / 3) + 2 |
| Base64.EncodeAlphabet | peer/base64.cpp:33-40 | only characters of the table and '=' appear |
| Base64.DecodeEncodePrefix | peer/base64.cpp:27-72 | the first n bytes decoded from an encoded n-byte buffer are that buffer, for every n and all over-read values on both sides |
| Base64.DecodeConforms | peer/base64.cpp:45-72 | the decoder inverts the padded encoding of RFC 4648, section 4, defined independently by 24-bit groups, for every byte string |
| Base64.EncodeIsStandard | peer/base64.cpp:31-41 | the program's encoding is the standard one of the buffer with the bytes it over-reads, and "==" after it in every case |
| Base64.DecodeIsWhole | peer/base64.cpp:56-70 | a text whose length is no multiple of 4 decodes as the text with the NUL and the characters it over-reads |
| Base64.DecodeGroupIsBits | peer/base64.cpp:58-68 | any four characters decode to the bytes of their 24 bits, up to the first '=' in third or fourth place |
| Rsa.LawsAreSatisfiable | peer/ssl_handler.cpp:66-169 | the laws assumed of RSA and SHA-256 are consistent |
| SslHandler.SslHandler.EncryptMessage | peer/ssl_handler.cpp:66-97 | the block loop computes `Encrypt`: chunks of key size less 11, base64 of each, '#' between them |
| SslHandler.SslHandler.DecryptMessage | peer/ssl_handler.cpp:100-126 | the block loop computes `Decrypt`: every segment decrypted into a zeroed buffer and cut at its first NUL |
| SslHandler.SslHandler.SignMessage | peer/ssl_handler.cpp:129-144 | computes `Sign`: the digest padded with over-read characters to a full block |
| SslHandler.SslHandler.VerifyMessage | peer/ssl_handler.cpp:147-169 | computes `Verify`: the opened block up to its first NUL is the message's digest |
| SslHandler.DecryptEncrypt | peer/ssl_handler.cpp:66-126 | for every message, decryption of its encryption is the concatenation of its 501-byte chunks, each up to its first NUL, whatever is over-read |
| SslHandler.EncryptionRoundTrip | peer/ssl_handler.cpp:66-126 | decryption undoes encryption if and only if the message has no NUL, for every length |
| SslHandler.SignatureRoundTrip | peer/ssl_handler.cpp:129-169 | a signature verifies for exactly the messages with the signed digest, through padding, base64 and truncation |
| SslHandler.BlocksAreCiphers | peer/ssl_handler.cpp:80-92 | for every key size, block i is the cipher of piece i of the message, with padding and over-reads of its own |
| SslHandler.ChunkSizes | peer/ssl_handler.cpp:80-82 | every piece but the last has the key size less 11 characters, the last at least one |
| SslHandler.ChunksJoin | peer/ssl_handler.cpp:80-82 | the pieces in order are the message |
| SslHandler.DecryptIsConcat | peer/ssl_handler.cpp:115-123 | every segment is decrypted, empty ones included, and the results are joined with nothing between |
| SslHandler.PlainOfAnyEncoding | peer/ssl_handler.cpp:118-122 | whatever encoding of a 512-byte block is received, the segment decrypts to that block's text up to its first NUL |
| SslHandler.VerifyOfAnyEncoding | peer/ssl_handler.cpp:161-168 | whatever encoding of a block is received, it verifies if and only if the opened block up to its first NUL is the digest |
| SslHandler.EncryptArmoured | peer/ssl_handler.cpp:77-97 | encrypted texts hold only the base64 alphabet, '=' and '#', so that '%' separates them |
| SslHandler.SectionLength | peer/ssl_handler.cpp:72-96 | a section of n blocks under a 4096-bit key has 687 n - 1 characters, 2 modulo 3 |
| Framing.Connection.SendMessage | peer/handler_thread.cpp:236-249 | the chunk loop appends exactly the frames of the string |
| Framing.Connection.ReceiveMessage | peer/handler_thread.cpp:213-233 | the receive loop consumes and returns what `Receive` does, including a failed and a closed connection |
| Framing.FailedReadsSigfault | peer/handler_thread.cpp:221-225 | a failed receive returns SIGFAULT, whatever was collected before |
| Framing.ClosedEndsMessage | peer/handler_thread.cpp:221-230 | a closed connection returns what was collected before |
| Framing.FramesThenEnd | peer/socket_control.cpp:106-119 | both after any number of full frames |
| Framing.FrameIsZeroFilled | peer/handler_thread.cpp:243-246 | a frame is its text and zeros up to 1024 |
| Framing.Connection.Bind | peer/socket_control.cpp:79-84 | takes one frame off the stream |
| Framing.Connection.SendCommand | peer/socket_control.cpp:89-121 | sends the frames of the command, then receives |
| Framing.FramingIsExact | peer/handler_thread.cpp:213-249 | a string is received as sent, with the rest untouched whatever it is, if and only if it has no NUL and its length is no multiple of 1023 |
| Framing.FullLastFrameRunsOn | peer/socket_control.cpp:103-120 | a nonempty string whose length is a multiple of 1023 is read together with the next message, or never ends |
| Framing.StreamKeepsBoundaries | relay/handler_thread.cpp:113-149 | any sequence of framed strings sent and then received is the same sequence |
| Framing.GreetingThenReplies | peer/socket_control.cpp:79-121 | once `bind` took the greeting, the replies line up one by one |
| Framing.TransferExact | peer/handler_thread.cpp:213-249 | a NUL-free string arrives unaltered or its reader waits for ever, exactly by its length |
| Framing.HearCommand | peer/handler_thread.cpp:23-30 | the handler's end of a new connection: the greeting goes out, and the command is read as `Transfer` says |
| Framing.AskCommand | peer/handler_thread.cpp:252-261 | the sender's end: behind the greeting that `bind` takes, `sendCommand` reads exactly what the handler answered |
| Framing.AnswerHeard | peer/socket_control.cpp:103-120 | a reply reads as `Transfer` says, a closed connection as an empty text, a reset one as SIGFAULT, a silent one as a wait without end |
| Directory.StoIToString | peer/handler_thread.cpp:312 | `stoi` reads every int back that `to_string` printed |
| Directory.StoIReads | relay/handler_thread.cpp:90 | blanks, a sign or none, digits and anything after them: the signed decimal number if an int holds it, else an exception |
| Directory.StoIThrows | relay/handler_thread.cpp:90 | blanks, a sign or none and then no digit: an exception |
| Directory.Print | relay/handler_thread.cpp:98-106 | the printing loop computes the joined fields of all entries |
| Directory.Parse | peer/handler_thread.cpp:296-315 | the parsing loop computes `ParseList`: the entries pushed, and whether it ends with the text, in the exception of `stoi`, or past the last field |
| Directory.DirectoryRoundTrip | peer/peer_control.cpp:76-96 | a printed list parses back to the same list in the same order if and only if no field holds '#' and the last public key is not empty |
| Directory.ParseBroken | peer/handler_thread.cpp:307-315 | whole entries and then too few fields, or a port that `stoi` rejects: the entries are pushed, and the parse ends in a misread or in the exception, in the order the fields are read |
| Directory.UserExists | peer/handler_thread.cpp:276-286 | true exactly when some entry has the id |
| Directory.GetUser | peer/handler_thread.cpp:264-273 | the entry that `Lookup` finds, given that there is one |
| Directory.LookupFirst | peer/handler_thread.cpp:266-272 | that is the first entry with the id |
| Registry.UserVector.EraseFirstOf | relay/handler_thread.cpp:73-80 | the erase loop removes exactly the first entry with the id |
| Registry.RelayHandler.HandleText | relay/handler_thread.cpp:57-110 | EXIT, REGISTER, LIST and unknown commands: the new vector, id, end of session and frames sent are those of `Process` |
| Registry.RegisterAnswers | relay/handler_thread.cpp:83-94 | REGISTER lists the id, port and key announced under the session's own address, at the end, takes the id for the session and confirms |
| Registry.ExitAnswers | relay/handler_thread.cpp:70-82 | EXIT, whatever follows it, removes the first entry with the session's id, says Bye and ends the session |
| Registry.ListAnswers | relay/handler_thread.cpp:95-108 | LIST keeps the vector, and what is read of its reply parses back to the vector, if that prints and is framed |
| Registry.OthersIgnored | relay/handler_thread.cpp:70-109 | any other command changes nothing and gets no reply |
| Registry.ExtraFieldsIgnored | relay/handler_thread.cpp:59-109 | fields beyond those a command needs change nothing |
| Registry.ConnectOpens | relay/handler_thread.cpp:22-27 | an accepted connection is a session without an id, from its address |
| Registry.RegisterStep | relay/handler_thread.cpp:83-94 | a session's REGISTER lists its id, port and key under the session's own address and gives the session the id |
| Registry.RegisterLists | relay/handler_thread.cpp:83-94 | from connecting to REGISTER: the entry listed has the session's address |
| Registry.FailedReceiveLoses | relay/handler_thread.cpp:29-49 | a session whose receive fails is lost, and its end removes min(1, count) entries with its id |
| Registry.RelayHandler.Finish | relay/handler_thread.cpp:42-49 | the final erase loop removes the first entry with the session's id |
| Registry.RegistryIsLiveSessions | relay/handler_thread.cpp:22-110 | if sessions register at most once under distinct nonempty ids, then after every step of every interleaving the vector is the entries of the live registered sessions in registration order |
| Registry.ExitedIsAbsent | relay/handler_thread.cpp:42-49 | after EXIT the second erase loop of the session finds nothing |
| Registry.InitiallyEmpty | relay/handler_thread.cpp:22-27 | the invariant and the accounting hold before any session |
| Registry.ClosedReadsEmpty | relay/handler_thread.cpp:121-130 | a receive from a closed connection returns the empty text |
| Registry.UndefinedExactly | relay/handler_thread.cpp:59-94 | a possible step of the relay is undefined if and only if a handler hears the empty text, or a REGISTER with fewer than four fields or a port that `stoi` rejects |
| Registry.RunDefinedExactly | relay/handler_thread.cpp:22-94 | a run of possible steps is defined if and only if no handler hears such a text |
| Registry.CleanDisconnect | relay/handler_thread.cpp:27-70 | a session that connects and closes leads into an undefined step |
| Registry.RegistryAccounts | relay/handler_thread.cpp:42-94 | with any ids, over every run: the vector is the registrations in order without exactly the entries that runs of the two erase loops took out, as multisets registered = listed + erased; every erased entry had the id of the session whose loop it was, and no loop of a session took out two |
| Registry.SessionEndRemoves | relay/handler_thread.cpp:42-82 | EXIT and teardown remove min(2, count) entries with the session's id, a failed receive min(1, count), with any steps of other sessions in between that leave those entries alone; neither loop moves any other entry |
| Registry.TeardownEnabled | relay/handler_thread.cpp:27-49 | after such steps the session can always be torn down |
| Onion.FetchExact | peer/handler_thread.cpp:289-316 | `updateList` leaves the relay's own list at the peer if and only if that list is printable and its text is framed |
| Onion.FetchReads | peer/handler_thread.cpp:289-293 | what `updateList` reads is the relay's answer to LIST, the printed vector |
| Onion.FetchHangs | peer/handler_thread.cpp:289-293 | the peer that asks for the list waits for ever if and only if the length of the printed list is a multiple of 1023 |
| Onion.SingleEntryHangs | relay/handler_thread.cpp:98-107 | with one peer registered, the sizes of its four fields decide that |
| Onion.FullFrameListHangs | relay/handler_thread.cpp:98-107 | every printable entry whose text fills its frames, alone in the list, makes every peer that asks wait for ever |
| Onion.FullFrameEntry | relay/handler_thread.cpp:98-107 | such entries, one for every key of 1017 characters |
| Onion.AcceptedText | peer/handler_thread.cpp:166-201 | an accepted message holds no '%' and no NUL and its sender is a listed user |
| Onion.ForwardDescends | peer/handler_thread.cpp:79-156 | on any packet, what is forwarded is not empty, has the next lower tag and holds no NUL |
| Onion.RepliesCross | peer/handler_thread.cpp:97-104 | both replies cross a connection unaltered |
| Onion.RouteDrawn | peer/peer_control.cpp:132-134 | each hop is the entry that its own draw names |
| Onion.AnyRouteDrawn | peer/peer_control.cpp:132-134 | draws can name any three entries, in any coincidence |
| Onion.FormedIsNulFree | peer/peer_control.cpp:125-152 | a formed packet holds no NUL, for any message |
| Stages.FormedPacketsCross | peer/peer_control.cpp:144-152 | under 4096-bit keys the P1, P2, P3 and R packets of any message of any length never have a length divisible by 1023, so each crosses its connection whole |
| Stages.PeelP1 | peer/handler_thread.cpp:79-96 | hop 1 reads the id of hop 2 and passes on exactly the P2 packet |
| Stages.PeelP2 | peer/handler_thread.cpp:106-123 | hop 2 reads the id of hop 3 and passes on exactly the P3 packet |
| Stages.PeelP3 | peer/handler_thread.cpp:133-156 | hop 3 reads the receiver's id and passes on exactly the secret packet |
| Stages.PeelR | peer/handler_thread.cpp:166-207 | for every message without a NUL the receiver finds at least three fields, the first three decide, and it always answers |
| Stages.ThreeParts | peer/handler_thread.cpp:170-177 | those fields are the sender's id, the message up to its first '%', and what comes next |
| Stages.AnyP1 | peer/handler_thread.cpp:79-96 | on any P1 packet the first section decides, the next two fields are passed on and no more |
| Stages.AnyP2 | peer/handler_thread.cpp:106-123 | on any P2 packet the first section decides and the next field is passed on |
| Stages.AnyP3 | peer/handler_thread.cpp:133-156 | on any P3 packet the first two fields of the decrypted section are receiver and secret packet |
| Stages.AnyR | peer/handler_thread.cpp:166-207 | on any R packet the first three fields of the decrypted text decide |
| Stages.UnknownRefused | peer/handler_thread.cpp:82-94 | an unknown id, or at P1 and P2 a mismatching key, is refused before any further field is read |
| Stages.UnknownTagIgnored | peer/handler_thread.cpp:79-209 | any other tag gets no answer |
| Transit.ProgramIsLawful | peer/handler_thread.cpp:59-261 | connections alter nothing, forwarding descends, formed packets are NUL-free, for every cryptography |
| Transit.ForwardingTerminates | peer/handler_thread.cpp:59-210 | any text causes at most four handler runs, each one tag lower, even when peers repeat; if the packet comes to an end every run replies exactly once with SUCCESS or SIGFAULT, save that a process which an exception ends replies to nobody and turns every other reply into SUCCESS; if it waits for ever no run replies; nothing is said of replies where a step is undefined |
| Transit.DeliverGoesTo | peer/socket_control.cpp:65-72 | the peer that runs is the one that listens at the entry's ip and at its port modulo 65536 |
| Transit.DeliverRefused | peer/handler_thread.cpp:255-258 | where nobody listens there, the answer is SIGFAULT and nobody runs |
| Transit.DeliverWaits | peer/socket_control.cpp:103-120 | a packet that does not end for its reader keeps its sender waiting |
| Transit.ProcessWaits | peer/handler_thread.cpp:59-79 | an empty text, a list that never ends or an unknown tag: no reply, nothing stored |
| Transit.ProcessRefreshes | peer/handler_thread.cpp:75-76 | a handler run that forwards nothing leaves its peer with the list just fetched, whatever it replies, and all other peers as they were |
| Transit.SendRefreshes | peer/peer_control.cpp:127-141 | a send that gives up on a key returns 1 with the list just fetched and nobody run |
| Transit.SendWaits | peer/peer_control.cpp:127-128 | a sender whose list never ends waits, and nothing changes |
| Transit.ZeroMeansAccepted | peer/peer_control.cpp:152-165 | for every send in any surroundings: an acceptance always comes back as 0, and a returned 0 means an acceptance if and only if the list that the last handler in the trace met did not make `stoi` throw |
| Transit.NothingUnlessAccepted | peer/peer_control.cpp:152-165 | for every send of any message in any surroundings without undefined steps: unless 0 is returned no list anywhere changes, and without an acceptance none but the sender's record of a 0 |
| Transit.ProcessStores | peer/handler_thread.cpp:190-200 | one packet, unless it meets an undefined step, stores at most one entry in the whole network, at the last run, from another sender, to its owner |
| Transit.ProgramAcceptsUnseparated | peer/handler_thread.cpp:170-197 | no handler stores a message with '%' or NUL |
| Delivery.ProcessSettles | peer/handler_thread.cpp:59-210 | by stages: a packet whose layers are known ends as its fate says, computed from lists, listeners and layers: SUCCESS and one receipt at the peer named, SIGFAULT and no list changed, or the end of the process of the peer named |
| Sending.LayerPeels | peer/peer_control.cpp:143-152 | each peer does with its layer of a formed packet what the sender meant, for every over-read |
| Sending.SendHasFate | peer/peer_control.cpp:125-166 | for every message without a NUL, with lists that throw and failures of every other kind at any stage: the value returned, the acceptance and all message lists are those of the parcel's fate, which keys, lists and listeners decide beforehand; what is stored is the message up to its first '%' |
| Sending.FalseZeroExactly | peer/handler_thread.cpp:96-104 | such a send returns 0 without an acceptance if and only if its fate is the end of the process of a peer other than the sender, at whichever hop |
| Sending.AllOrNothing | peer/peer_control.cpp:125-166 | where every list arrives, with failures at any stage, the send returns; it returns 0 if and only if the receiver accepted the signature, and that if and only if all keys match and every stage opens; on 1 no message list anywhere changed |
| Honest.EndToEnd | peer/peer_control.cpp:125-166 | with one honest directory and a peer listening at the ip and port of every entry, for every message without '%' and NUL and all hops: returns 0, the receiver gains exactly the message, the sender its record, a self-send one entry in all, all other lists are unchanged |
| Honest.HonestSend | peer/handler_thread.cpp:189-206 | there, for every message without a NUL: it returns 0 if and only if the text up to the first '%' verifies against the field after it; then that text is what the receiver gains; else no list changes |
| Honest.ExactDelivery | peer/handler_thread.cpp:166-200 | a message without a NUL always makes the send return, and another peer ends up with exactly it if and only if it has no '%'; one with a NUL never arrives as it was, unless a step is undefined |
| Honest.SendStores | peer/handler_thread.cpp:190-200 | a send of anything, unless it meets an undefined step, leaves at most one entry at any other peer, and never one with '%' or NUL |
| Honest.HonestDirectoryExists | peer/handler_thread.cpp:289-316 | the assumptions of the delivery theorems are met by a network of two peers |
| Reports.ZeroIsAcceptance | peer/peer_control.cpp:152-165 | where no list makes `stoi` throw and every listener is a peer of this program, 0 is returned exactly for the messages that a receiver accepted, whatever the keys, ids and addresses |
| Reports.FalseSuccess | peer/handler_thread.cpp:96-104 | any message, sent over a first hop whose list makes `stoi` throw: the send returns 0 and records it, nobody accepted it, no other list changed |
| Reports.FalseSuccessExists | peer/handler_thread.cpp:305-315 | two peers and a list where that happens |
| Network.PeerNode.UpdateList | peer/handler_thread.cpp:289-316 | "LIST" over the main connection, answered by the relay's handler: the shared list becomes the entries parsed, also where the parse ends early, and stays as it was where the reply never ends |
| Network.PeerNode.AskList | peer/handler_thread.cpp:291-293 | what is read of the relay's answer to "LIST" |
| Network.PeerNode.RelayAnswer | relay/handler_thread.cpp:95-108 | the frames that the relay's handler sends on a command |
| Network.PeerNode.DecideHop | peer/handler_thread.cpp:79-132 | the P1 and P2 branches compute `PeelHop` from the peer's own list and key |
| Network.PeerNode.DecideLast | peer/handler_thread.cpp:133-156 | the P3 branch computes `PeelLast` |
| Network.PeerNode.DecideSecret | peer/handler_thread.cpp:166-206 | the R branch computes `PeelSecret` |
| Network.PeerNode.Keep | peer/handler_thread.cpp:192-200 | the message list gains exactly the message, or nothing for the peer's own |
| Network.PeerNode.FormPlan | peer/peer_control.cpp:130-151 | hop choice, key checks and layers compute `Form` |
| Network.Network.Process | peer/handler_thread.cpp:59-210 | a handler run with all it causes, in place, leaves every list of every peer as `Transit.Process` says, with the same reply and the same process ended, if any |
| Network.Network.Deliver | peer/handler_thread.cpp:252-261 | connect, greeting, command and reply: SIGFAULT for a refused connection, an empty reply for one that its process leaves closed |
| Network.Network.FormPacketAndSend | peer/peer_control.cpp:125-166 | the send, in place, leaves every list of every peer and returns as `Transit.Send` says |
| Claims.AcceptedClaim | peer/handler_thread.cpp:166-201 | an accepted packet showed a signature whose block opens, under the sender's listed key, to the digest of the message |
| Claims.AcceptsListedKey | peer/handler_thread.cpp:186-200 | for every list, entry and message, R credits the entry's id with what the entry's key signed |
| Claims.BindsSenderExactly | peer/handler_thread.cpp:179-190 | R accepts messages for a listed sender only from key pairs with its id if and only if the listed key hashes to that id |
| Claims.SwappedAccepted | peer/handler_thread.cpp:179-190 | a list under which R accepts, as from peer 0, every message that only the key of peer 1 signed |
| Claims.LastChecksExactly | peer/handler_thread.cpp:146-156 | P3 acts as if it checked the key if and only if the receiver it looks up has a matching key or is not listed |
| Claims.SwappedPassedOn | peer/handler_thread.cpp:146-156 | a list under which P3 passes a packet on to an entry whose key does not match, where a check would refuse |
| Claims.HopsCheckButLast | peer/handler_thread.cpp:82-156 | the peers of a formed packet: hops 1 and 2 pass on to listed peers with matching keys and refuse otherwise, hop 3 to any listed receiver, each the same next packet |
| Claims.NulMessageUndefined | peer/handler_thread.cpp:169-189 | a message of up to 435 characters with a NUL and no '%', sent to a peer that lists the sender, makes R read past the last field |
| Authenticity.AuthenticRun | peer/handler_thread.cpp:166-207 | over every run without undefined steps, with listed keys matching ids and ideal signatures, every entry from another sender names the owner as receiver and was passed to `signMessage` by a peer with the sender's id; every entry of the owner's own is from its own send with a reply other than SIGFAULT; lists only grow at the end |
| Authenticity.AcceptedIsSigned | peer/ssl_handler.cpp:147-169 | from ideal blocks, through base64, padding and truncation: an accepted message was signed under the key listed for its sender |
| Authenticity.ShownAuthenticExactly | peer/handler_thread.cpp:179-200 | a packet formed around a genuine signature, naming any listed entry with the signer's key, keeps the network authentic if and only if a peer with the entry's id signed the message; a matching key ensures that |
| Authenticity.SwappedBreaks | peer/handler_thread.cpp:179-200 | a network and a list where such a step, without any forgery, stores a message as from a peer that never signed it |
| Authenticity.ReplayStores | peer/handler_thread.cpp:189-200 | in a fair run, a message submitted for one peer is stored at another, and twice |
| Authenticity.ReplayHappens | peer/handler_thread.cpp:189-200 | such a run of three peers: submitted by peer 0 for peer 1, stored twice at peer 2 |
| Authenticity.FreshIsAuthentic | peer/peer_control.cpp:22-25 | peers start in an authentic state |
| Authenticity.SendIsRun | peer/peer_control.cpp:125-166 | a whole send with every handler run it causes is such a run |
| Locality.DerivableExactly | peer/handler_thread.cpp:82-156 | the ids and texts derivable from terms with a set of private keys are exactly those that show when that set opens what it can |
| Locality.HopLearns | peer/handler_thread.cpp:82-156 | for any coincidence of hops, exactly what the holder of one key learns from one link |
| Locality.HopLocality | peer/peer_control.cpp:143-152 | with distinct hops and receiver each hop derives exactly one id, that of the next peer, and only the receiver derives the sender and the text |
| Locality.MessageNeedsReceiver | peer/peer_control.cpp:146-152 | from all links and any private keys, the text can be derived if and only if the receiver's key is among them; the sender's id likewise, when the sender is not also hop 2, hop 3 or the receiver |
| Locality.LinksAreRendered | peer/peer_control.cpp:143-152 | the packets of a delivery are the renderings of those terms, link by link, with one number to each public key |
| Locality.RenderingExists | peer/peer_control.cpp:130-152 | every parcel the program packs has such a rendering |
| Locality.PacketLocality | peer/peer_control.cpp:143-152 | for every packed parcel whose hops and receiver have distinct keys, the four packets on its links tell each hop exactly one id, and the receiver the sender and the text |
| Locality.SomePacketTellsLittle | peer/peer_control.cpp:130-152 | from every list with four distinct, matching keys, some draws make the program form a packet of which that holds |
| Program.ChatAllOrNothing | peer/peer_control.cpp:125-166 | `Sending.AllOrNothing` of the program's own machine |
| Program.ChatSendHasFate | peer/peer_control.cpp:125-166 | `Sending.SendHasFate` of the program's own machine |
| Program.ChatEndToEnd | peer/peer_control.cpp:125-166 | `Honest.EndToEnd` of the program's own machine |
| Program.ChatZeroIsAcceptance | peer/peer_control.cpp:152-165 | `Reports.ZeroIsAcceptance` of the program's own machine, under the same assumption on listeners |
| Together.RegisterTextSplits | peer/peer_control.cpp:46 | the relay finds in a peer's REGISTER exactly its id, port and public key |
| Together.SessionFetches | relay/handler_thread.cpp:95-108 | a live session that asks for the list leaves the relay as it is, and its peer ends up with the vector, if that prints and is framed |
| Together.RegisteredIsHonest | relay/handler_thread.cpp:83-94 | after every disciplined run in which only peers register, each its own id and key, the vector is an honest list that prints and parses |
| Together.RegisteredPeersDeliver | peer/peer_control.cpp:125-166 | between any two peers with live sessions after such a run, over any hops, every message without '%' and NUL is delivered exactly, if the reply to LIST is framed and a peer listens at the ip and port of every entry |

## Left out

- The terminal interface (`peer/ui_utils.cpp`, `peer/peer.cpp`) and both loggers: no state to keep.
- Socket creation, port probing, accept loops and thread start-up: a connection is a queue of frames, an address a listener or a refusal.
- The receive loop of the peer's `handler` (`peer/handler_thread.cpp:23-46`) beyond one text per connection: senders open a connection for each packet.
- The start-up REGISTER of a peer and the closing EXIT (`peer/peer_control.cpp:45-67`): the relay's side of both is in `Registry`.
- `recv` returning part of a frame, and data races on the shared vectors: assumed away as said above; so is another handler's view of `userList` between `clear` and the last `push_back`.
- Key generation, PEM, PKCS#1 and SHA-256 themselves: abstract functions with laws; a malformed PEM key is not modelled.
- Memory release, leaked sockets and `delete this`: no bearing on the properties.
- Time: correlating traffic by when it is seen is outside the term model of `Locality`.
- Network.PeerNode.FormPlan: stops before an unknown receiver or an empty list, where the source is undefined, and reports that no plan exists.
- Framing.Connection.Bind: requires something to receive, because the source waits until there is.
- Transit.ForwardingTerminates: tells the runs but no replies where a step is undefined, as the source promises nothing there.
- Transit.ProcessStores: says nothing of a packet that meets an undefined step.
- Transit.NothingUnlessAccepted: says nothing of a send that meets an undefined step.
- Honest.SendStores: says nothing of a send that meets an undefined step.
- Honest.ExactDelivery: says nothing of a message with a NUL whose send meets an undefined step; `Claims.NulMessageUndefined` shows that there are such messages.
- Authenticity.AuthenticRun: says nothing of a run with an undefined step.
- Directory.GetUser: requires a listed id, as every handler checks first; in `formPacketandSend`, which does not check, an unlisted id is `NoPlan`.
- Authenticity.AuthenticRun: that blocks shown to handlers are made by signing is an assumption about the run, since nothing about RSA itself is proved.
- What becomes of a peer whose process has ended: within one packet nothing reaches it again, and its lists are reported as it last held them.
