# A verified model of the GG server

A Dafny model of an instant messaging server for the Gadu-Gadu protocol, written in C, and
proofs about it. `dafny verify dfyconfig.toml` checks everything.

The model has three parts.

**Digests and login hashes.** `Sha1Spec` and `Md5Spec` state the standards (FIPS 180-4
sections 4.1.1, 4.2.1, 5.1.1, 5.3.1 and 6.1.2; RFC 1321 sections 3.1 to 3.5) as "pad, cut
into blocks, fold". `Sha1.Context` and `Md5.Context` are the incremental contexts of the
program, with the same fields and the same loops: SHA-1 copies in bulk and keeps a two-word
bit counter with a carry test, MD5 takes one byte at a time and rotates four locals. A ghost
field holds the message fed so far, and `Valid` ties the state to it. `Protocol` has the
GG32 hash, the SHA-1 login hash and the two authorization checks, and `Users` the user
table they read. `KnownSha1` and `KnownMd5` compute the published digests of "abc", so that no
constant, rotation or byte order of the two standards can be misread.

**The session server.** `Sessions` is a state machine on values: the slot table, the user
table and everything sent so far; its events are accepting a connection, delivering a packet
to a session, closing a session, and registering a user. `Lifecycle`, `Numbers`, `Presence`,
`Absence`, `Messages` and `Contacts` prove what holds of all its runs, and `Schedules` builds
runs in which what one would expect fails. `Logins` and `Outcomes`, on top of `Deliveries`, say
packet by packet what the table is afterwards and which bytes each connection gets, in terms of
the fields of the packets alone. `Clients` and
`ChatServer` are the program as it is written, with client objects in an array, growable
contact arrays and loops over both; each of their methods is proved to do what the state
machine says, so the theorems on runs speak about them. `Network` ties the packets of the
state machine to the bytes of the send() calls.

**Parsers.** `HttpUtils` has the query and URL decoding loops, `Wire` the packet format and
the framing of a stream.

## What the theorems say

* The digests of any message, in any split into update calls, are those of the standards;
  the 80 and the 64 rounds can be undone.
* Whoever registers can log in with that password for ever, whatever is registered later,
  and nothing else is accepted: over every run, from the registration, over the greeting the
  client is sent, to the login that answers it.
* After every packet, each connection has got exactly the packets that the sender's and the
  receiver's fields call for, down to the last byte of a description.
* Presence agreement: what a session was last told about a contact it asked for is that
  contact's current status, or that the contact is not available if it is not logged in; and
  exactly on which runs.
* One session per number, the life of a session, the exact count of the slot table.
* Every DELIVERED acknowledgement belongs to one message that carries the bytes of the same
  request, and the other way round.
* A contact list, a list of packets, or an escaped byte string arrives as it was sent,
  whatever the split.

## The schedule

`client_find` returns the lowest slot with a number, whether that session is marked for
removal or not (src/chat/client.c:110-116), and a superseded session notices its mark only
after its next receive (src/chat/chat_server.c:22-24). So some things are not true of every
schedule, and the model says exactly when they are. Each condition can be read off before the
event; none mentions the outcome.

*One session per number.* `Numbers.RunUniqueIff`: over any run, no two unmarked sessions
share a number in any state iff every login of the run is safe, that is, `client_find`
returns the unmarked session of the number whenever there is one. `Numbers.StepUniqueIff`
says the same of each single event. `Schedules.ThreeLogins` builds a run that fails, for
every registered number with a password.

*Presence agreement.* `Presence.RunPresenceIff`: over any run, numbers stay apart and every
session was last told the current status of each logged-in contact it got an answer about,
in every state, iff every login is safe and every answer tells right, that is, what
`client_find` finds under the number of a logged-in contact that a NOTIFY_LAST or ADD_NOTIFY
asks about has the status of that contact. `Presence.StepPresenceIff` says the same of each
single event. Answers are the only thing that can go wrong: `Presence.HandleInforms` holds
of every packet on every reachable table. `Schedules.WrongAnswer` builds a run that fails: x
logs in, sets a status and logs in once more, and y asks about x before the first session of
x is reaped.

*Contacts that are gone.* `Absence.RunKnowledgeIff` adds the contacts that nobody is logged
in as: they are known to be gone as well iff, besides, answers about them say so and no
connection of a logged-in session is closed while another session has an answer about it.
`client_destroy` means to tell the contacts (src/chat/client.c:87-97), but no client has a
status_write function, so it tells nobody; `Schedules.DroppedContact` builds a run that fails.

*Messages.* `Messages.MessageReachesIff`: a message for a number that has an unmarked session
goes to that session iff `client_find` returns it; the ack is DELIVERED either way.

All of this holds on runs that reap a marked session before the next packet is handled and
drop no logged-in session: `Numbers.OneSessionPerUin`, `Presence.ReapFirstIsRight`,
`Absence.OrderlyIsTold` and `Messages.ReapFirstReaches`.

The lifecycle, slot count, message and contact list theorems need no hypothesis on the
schedule, nor does `Presence.StatusChangeIsTold`, which says what watchers know right after
a session changed its status.

## Reading guide

* A session is known by its descriptor. The program never closes the descriptor of a session
  it accepted, so a new connection has one that no session in the table has
  (`Sessions.Enabled`).
* The GG32 branch of the 7.0 login passes the address of the hash field where its value is
  meant (src/chat/handlers.c:232). The model takes that number from `Env`, as it takes the
  two readings of the clock.
* Shifting a 32-bit word by 32 gives 0, so that a rotation by 0 leaves the word as it is,
  in `gg_login_hash` too (src/chat/protocol.c:31-32, `Protocol.NoRotation`).
* Bytes are bit-vectors in the digest modules and numbers on the wire.
* The header documents `get_param` with a query whose first key is the name asked for
  (src/http/http_utils.h:5). The code finds the first pair whose key *ends* in the name, and
  the model follows the code. `HttpUtils.OtherValueReturned` has the inputs that get another
  value, and `HttpUtils.ExactLookup` says exactly when that happens.

## Model

| member | source | states |
|---|---|---|
| Sha1.DigestChunks | src/hash/sha1.h:69-123 | for every list of chunks, init, one update per chunk and final give the FIPS 180-4 digest of the concatenation |
| Sha1.Context.Update | src/hash/sha1.h:79-102 | any chunk is appended to the message the context stands for: state is the fold over whole blocks, buffer the rest, counter the length in bits |
| Sha1.Context.Final | src/hash/sha1.h:104-123 | the twenty bytes are the digest of everything fed |
| Sha1.Context.PadZeros | src/hash/sha1.h:112-116 | the loop ends, after 0x80 and the smallest number of zero bytes that leaves eight bytes to a whole block |
| Sha1.Context.AddToCount | src/hash/sha1.h:84-87 | split addition and carry keep the two words at 8 times the bytes fed modulo 2^64 |
| Sha1.Context.CountLemma | src/hash/sha1.h:84-87 | the arithmetic of the two words and the carry test, for every length |
| Sha1.Context.Transform | src/hash/sha1.h:23-67 | one block is compressed as FIPS 180-4 section 6.1.2 says |
| Sha1.NextAIsRound | src/hash/sha1.h:44-60 | the four written-out round formulas are Ch, Parity, Maj and Parity of the standard |
| KnownSha1.DigestOfAbc | src/hash/sha1.h:23-123 | the digest of "abc" is the one the standard publishes, computed through all 80 rounds |
| Sha1Spec.RoundInverse | src/hash/sha1.h:44-60 | one round, with any word, is undone by its inverse, and undoes it |
| Sha1Spec.RoundsBijective | src/hash/sha1.h:44-60 | for every block the 80 rounds are a bijection of the five registers |
| Blocks.ZeroBytesSmallest | src/hash/sha1.h:114-116 | counting up finds the smallest solution of the padding equation, and its closed form |
| Md5.File | src/hash/md5.c:207-223 | for every split into chunks shorter than 2^32 bytes the digest is that of RFC 1321 of the concatenation |
| Md5.Context.Update | src/hash/md5.c:84-111 | the byte-fed loop appends the chunk to the message the context stands for |
| Md5.Context.Finalize | src/hash/md5.c:117-146 | closed-form padding, undone size and last block give the RFC 1321 digest of everything fed |
| Md5.Context.Step | src/hash/md5.c:151-192 | four rotating locals, with the program's own tables S and K and functions F to I, do the 64 in-place operations [abcd k s i] of section 3.4 and the final addition |
| Md5.NewWordAsWritten | src/hash/md5.c:16-36 | the new value of BB is the new word of the standard: the tables S and K and the four functions are those of section 3.4 |
| Md5.SeenNext | src/hash/md5.c:181-185 | one turn of the rotating registers is one in-place operation seen from the next position |
| Md5.IndexIsRfc | src/hash/md5.c:162-179 | the computed word indices are the table k of section 3.4, for all 64 operations |
| Md5.Context.PaddingLength | src/hash/md5.c:119-124 | the closed form equals one byte plus the zero bytes that the SHA-1 loop counts, for every length |
| Md5.CounterReaches | src/hash/md5.c:90 | the loop counter of the update, incremented modulo 2^32, ever reaches the end of a chunk iff the chunk is shorter than 2^32 |
| KnownMd5.DigestOfAbc | src/hash/md5.c:16-192 | the digest of "abc" is the one of the test suite of RFC 1321, computed through all 64 operations |
| Md5Spec.OperationInverse | src/hash/md5.c:181-185 | each operation is undone by its inverse, and undoes it |
| Md5Spec.OperationsBijective | src/hash/md5.c:161-186 | for every block the 64 operations are a bijection of the four registers |
| Protocol.GgLoginHash | src/chat/protocol.c:18-35 | the loop, which runs to the NUL of the buffer, computes a fold over adjacent byte pairs of the C string; Protocol.StepUndone and Protocol.KnownHashes fix its step |
| Protocol.MixInverse | src/chat/protocol.c:23-30 | the word arithmetic of a byte is undone by its inverse, written out, and undoes it |
| Protocol.RotatesBits | src/chat/protocol.c:31-32 | the rotation moves each bit up by the low five bits of the word, around its end |
| Protocol.StepUndone | src/chat/protocol.c:20-33 | the step of one byte is the rotation of a word from which the inverse arithmetic, with the four words of the byte and its predecessor, gives y back |
| Protocol.KnownHashes | src/chat/protocol.c:18-35 | the hashes of "a" and "abc" for two seeds |
| Protocol.HistoryOfX | src/chat/protocol.c:22-29 | all that survives in x is the previous byte, shifted by 24 |
| Protocol.HashResumes | src/chat/protocol.c:20-33 | the hash of p ++ q is the hash of q resumed from y and the last byte of p |
| Protocol.GgLoginHashSha1 | src/chat/protocol.c:39-46 | SHA-1 of the C string in the buffer and the four little-endian seed bytes |
| Protocol.Authorize | src/chat/protocol.c:49-57 | accepts iff the account is active, has a password, and the hash is its GG32 hash |
| Protocol.Authorize70 | src/chat/protocol.c:59-73 | accepts iff the account is active, has a password, and the first twenty bytes are the digest |
| Protocol.RegisterThenLogin | src/database/users.c:86-164 | after a successful registration and any later ones, for every seed, both checks accept exactly the responses for that password (its first 63 bytes), and nothing if it is empty |
| Users.Database.GenerateUin | src/database/users.c:35-46 | the first of the first thousand draws without an active row, or 0 if there is none; Users.EveryNumberIsDrawn fixes what a draw proposes |
| Users.EveryNumberIsDrawn | src/database/users.c:39 | each number from 10000000 to 99999999 is proposed by exactly one draw below 90000000, and larger draws go round |
| Users.Database.Register | src/database/users.c:86-130 | refuses exactly when the arguments, the emails, the draws or a clash with an inactive row say so, and otherwise adds one row |
| Users.RegisteredIff | src/database/users.c:86-130 | who gets a number, written out over rows and draws: iff there is a password, no row has the email, and one of the first thousand draws is free before any clash; it is that draw, and the new row holds the arguments; everyone else gets -1 and changes nothing |
| Users.Database.FindByUin | src/database/users.c:150-164 | found iff the number has an active row; then the caller's buffers hold that row, else they are as before |
| Users.User.RowToUser | src/database/users.c:132-148 | each buffer holds what fits of its column as a terminated C string, whatever was in it |
| Users.FillBuffer | src/database/users.c:133-140 | zeroing and copying all but the last byte leaves the C string cut to the buffer |
| Users.Database.FindByEmail | src/database/users.c:166-182 | found iff an active row has this email; then the caller's buffers hold such a row, else they are as before |
| Users.RegisteredKeeps | src/database/users.c:86-130 | existing accounts stay as they are, numbers stay in range, emails stay apart, a number handed out was free |
| Users.HistoryKeeps | src/database/users.c:86-130 | the same over any list of registrations |
| Logins.LoginOutcome | src/chat/handlers.c:96-212 | the 3.1, 5.0 and 6.0 logins, without any name of the handlers: iff the account is active and the word is the GG32 hash of its nonempty password and the seed, the table has the new fields and the old session marked, and each connection gets DISCONNECTING, LOGIN_OK and the status as it should; otherwise LOGIN_FAILED and the mark |
| Logins.Login70Outcome | src/chat/handlers.c:215-277 | the same for the 7.0 login: type 1 by the GG32 hash, type 2 iff the response begins with the SHA-1 digest of password and seed, any other type does nothing |
| Logins.LoggedInIff | src/chat/handlers.c:96-212 | after a login packet the session is logged in iff its sender knows the password |
| Logins.Greets | src/chat/chat_server.c:16-18 | while fewer than 1024 are there: one new session, one new packet, to it, whose four bytes are the seed of that session in the table |
| Logins.GreetingAnswered | src/chat/chat_server.c:14-45 | over every run: a login is accepted iff it is the hash of the password and the word of the greeting that this connection was sent last |
| Logins.RegisteredLogsIn | src/database/users.c:86-130 | over every run: whoever registered a password and later answers a greeting with the number handed out is logged in iff the answer is the hash of that password, nonempty and cut to 63 bytes, and the word of the greeting |
| Deliveries.StatusPacketShows | src/chat/handlers.c:15-73 | a status packet decodes to number and status, and if there is a text to address, port, version, image size and exactly the text; without a text it has 8 bytes |
| Outcomes.StatusOutcome | src/chat/handlers.c:336-406 | NEW_STATUS: the fields are those of the packet; each watcher gets the bare status, and if the packet has a text also the long one with exactly this text; a session that leaves gets DISCONNECTING; no session gets anything else |
| Outcomes.FirstOutcome | src/chat/handlers.c:281-294 | NOTIFY_FIRST appends record k from bytes 5k to 5k+4 and sends nothing |
| Outcomes.LastOutcome | src/chat/handlers.c:297-325 | NOTIFY_LAST: one decoded answer for each entry in order, and the status of the sender to each session once for each entry client_find answers with it and once more if it is a watcher |
| Outcomes.AddOutcome | src/chat/handlers.c:410-425 | ADD_NOTIFY appends one contact and sends one packet, to the sender, with the number and the status found |
| Outcomes.RemoveOutcome | src/chat/handlers.c:427-436 | REMOVE_NOTIFY takes out the first entry with the number, or does nothing |
| Outcomes.UserlistOutcome | src/chat/handlers.c:449-472 | the reply is 6 to a get, 0 to the two puts, and nothing otherwise |
| Outcomes.Ignored | src/chat/handlers.c:493-506 | all other packets, and those that are too short, early, late, or from a marked session, change and send nothing |
| Sessions.Find | src/chat/client.c:110-116 | the lowest slot with the number, removed or not; none iff no session has it |
| Sessions.FreeSlot | src/chat/client.c:60-66 | the lowest free slot; none iff the table is full |
| Clients.Client.AddFriend | src/chat/client.c:119-135 | appends to the contact list; the capacity is 0 or 16 times a power of two |
| Clients.Client.FindFriend | src/chat/client.c:149-155 | the first entry with the number |
| Clients.Client.RemoveFriend | src/chat/client.c:137-147 | deletes the first entry with the number and keeps the order of the rest |
| Clients.WithoutRemovesOne | src/chat/client.c:137-147 | exactly one entry goes, all others keep their multiplicity |
| Clients.Client.FewCopies | src/chat/client.c:119-135 | over n additions and any removals, growing moves fewer than 2n entries |
| Lifecycle.Reachable | src/chat/handlers.c:96-506 | in every reachable state: before login a session has nothing; after it a registered number in range; if not marked, an available status; no status has the friends bit; descriptors differ; the counter is the number of occupied slots |
| Lifecycle.StepKeepsInv | src/chat/handlers.c:493-506 | every event keeps these and changes no session in a forbidden way |
| Lifecycle.HandleIsTame | src/chat/handlers.c:475-506 | a packet of one session neither fills nor empties a slot, and leaves other sessions alone or marks them |
| Lifecycle.MarkIsFinal | src/chat/chat_server.c:22-48 | over any stretch of a run: a logged-in session keeps its number, a mark is never taken back, a marked session is frozen |
| Lifecycle.FreeSlotIffRoom | src/chat/client.c:26-66 | the loop finds a slot iff the counter lets it run, so no session is lost |
| Lifecycle.CreationSucceeds | src/chat/client.c:25-69 | in every reachable state a new session gets into the table iff fewer than 1024 are there |
| Presence.StepPresenceIff | src/chat/handlers.c:76-425 | every event that is no unsafe login, on every reachable table where numbers are apart and all agrees: the next state agrees iff what client_find finds for each logged-in contact that the packet asks about has the status of that contact |
| Presence.RunPresenceIff | src/chat/handlers.c:76-425 | over every run: in all states numbers are apart and every session was last told the current status of each logged-in contact it got an answer about, iff every login is safe and every answer is right |
| Presence.PresenceSinceAsked | src/chat/handlers.c:76-425 | on every run up to the first unsafe login or wrong answer: once a session asked about a number and while it keeps it on its list, the last status it was told is the current one of the logged-in session with that number |
| Presence.PresenceAgreement | src/chat/handlers.c:76-425 | the same, with the set of answered contacts as a history variable |
| Presence.ReapFirstIsRight | src/chat/chat_server.c:22-48 | on every reap-first run all logins are safe and all answers right |
| Schedules.WrongAnswer | src/chat/handlers.c:410-425 | for any two registered numbers with passwords, a run of safe logins in which the first wrong answer tells the status of a superseded session in place of that of the logged-in one |
| Absence.StepAbsenceIff | src/chat/client.c:71-97 | every event, on every reachable table where all agrees: contacts that nobody is logged in as are still known to be gone iff the answers about them say so and no logged-in session is closed that another session has an answer about |
| Absence.RunKnowledgeIff | src/chat/client.c:71-97 | over every run: in all states every session was last told the truth about every contact it got an answer about, logged in or gone, iff logins are safe, answers are right, and nobody is dropped that others got an answer about |
| Absence.AbsenceIsTold | src/chat/handlers.c:76-425 | on such runs: of a number that nobody is logged in as, every session that got an answer about it was last told that it is not available |
| Absence.OrderlyIsTold | src/chat/chat_server.c:22-48 | reap-first runs in which no logged-in session is dropped are such runs |
| Absence.DropIsNotTold | src/chat/client.c:84-97 | closing a logged-in session: whoever has an answer about it still believes its last status |
| Schedules.DroppedContact | src/chat/client.c:84-97 | for any two registered numbers with passwords, a run of safe logins and right answers after which one is gone and the other was last told that it is available |
| Presence.StatusChangeIsTold | src/chat/handlers.c:336-406 | under any schedule: right after a status change, also a goodbye, whoever has the session on the list was last told this status |
| Presence.HandleInforms | src/chat/handlers.c:475-506 | every packet on every reachable table: all that is told is the current status of the sender, or what client_find finds for a number the sender asked about, told to the sender; what is asked is answered; what changes is told to everyone who has the sender on the list |
| Numbers.HandleSplits | src/chat/handlers.c:96-506 | a packet is a login that is accepted, which marks what client_find returns and gives the sender the number, or it changes no other session and no number |
| Numbers.StepUniqueIff | src/chat/handlers.c:96-277 | every event, on every reachable table without duplicates: it keeps numbers apart iff it is no login or client_find returns the unmarked session of the number whenever there is one |
| Numbers.RunUniqueIff | src/chat/handlers.c:96-277 | over every run: numbers are apart in all states iff every login is like that |
| Numbers.LoginKeepsUniqueIff | src/chat/handlers.c:113-124 | the same for one login |
| Numbers.OneSessionPerUin | src/chat/handlers.c:114-270 | on every reap-first run two sessions with one number are one marked and one not, and there is no third |
| Presence.ChangedStatusTells | src/chat/handlers.c:76-91 | the broadcast reaches each watcher and tells nothing but the current status of the sender |
| Presence.NotifyLastInforms | src/chat/handlers.c:297-325 | every contact on the list is answered with what client_find finds, and the other two rounds tell the current status of the sender to every watcher |
| Presence.NewStatusTells | src/chat/handlers.c:336-406 | both rounds tell the new status and reach every watcher, also when the session leaves and whatever other sessions have its number |
| Presence.LastToldAfter | src/chat/client.c:162-174 | when all that is sent to a connection about a number says v, and the receiver hears of it or knew it, v is what it was last told |
| Schedules.ThreeLogins | src/chat/handlers.c:175-212 | for every registered number with a password, a run of three logins that leaves two unmarked sessions with it |
| Messages.RequestOutcome | src/chat/messaging.c:19-70 | read off the bytes: shorter than 13 or without NUL in the text, nothing; delivered, one message with sender, both times, class and text and one ack; queued, one ack and nothing to anyone else |
| Messages.MessagesConserved | src/chat/messaging.c:10-70 | in every reachable state messages and DELIVERED acks are in bijection |
| Messages.MessageHasRequest | src/chat/messaging.c:19-70 | over every run: each message comes from one well-formed request, went to the session found under the recipient, carries its sender, class and text, and is followed by the ack of the same request |
| Messages.AckHasRequest | src/chat/messaging.c:10-70 | over every run: each DELIVERED ack answers the request that the message before it comes from |
| Messages.MessageReachesIff | src/chat/messaging.c:40-70 | on every reachable table where numbers are apart: a message for a number with a logged-in session carries the request and gets its DELIVERED ack, and goes to that session iff client_find returns it |
| Messages.ReapFirstReaches | src/chat/messaging.c:40-70 | on every reap-first run each message for a number with a logged-in session goes to that session |
| Contacts.RecordsRoundTrip | src/chat/handlers.c:286-291 | unpacking a packed list gives it back, and up to four trailing bytes are ignored |
| Contacts.ListIsFold | src/chat/handlers.c:281-436 | over every run: while a session stays logged in its list is the fold of its own packets over the list it had, whatever else happens |
| Contacts.Upload | src/chat/handlers.c:281-325 | over every run, with any events in between: any list in any number of packets is appended in order and answered with exactly one reply per entry of the whole list, in order |
| Wire.EncodedLayout | src/chat/client.c:162-174 | in the bytes of a packet the type comes first, then the length of the body, then the body |
| Wire.LowByteFirst | src/chat/client.c:162-174 | byte k of a word weighs 256^k |
| Wire.FramingRoundTrip | src/chat/client.c:162-174 | the stream of any list of packets, empty ones included, parses to that list |
| Network.BytesAreEncoded | src/chat/client.c:157-174 | for each connection the bytes of all send() calls are the encoding of the packets sent to it, in order |
| Network.WhatArrives | src/chat/client.c:157-174 | a client that parses its connection reads exactly the packets it was sent |
| Wire.ReceivedIsEncoded | src/chat/chat_server.c:21-45 | the bytes the loop consumes are the encoding of the packets it hands on |
| HttpUtils.GetParam | src/http/http_utils.c:8-27 | fails as the guards and the search say and then writes nothing; else writes the value cut to out_size - 1, a NUL, and nothing behind it |
| HttpUtils.LookupIsFirstSuffix | src/http/http_utils.c:11-22 | on every list of pairs: the value of the first pair whose key ends in the name, and nothing iff there is none |
| HttpUtils.ExactLookup | src/http/http_utils.c:11-22 | looking up the exact name of a pair returns its value iff the first key before it that ends in the name, if any, has the same value |
| HttpUtils.OtherValueReturned | src/http/http_utils.h:4-7 | the inputs that fail: when the key of another pair, before it, ends in the name, that value is returned |
| HttpUtils.LongNameIsFoundInside | src/http/http_utils.c:11-22 | a name longer than 62 bytes, on every list of pairs: its first 63 bytes are found anywhere in a key or a value, and what follows them in the pair is returned |
| HttpUtils.LongNameReturnsItsOwnEnd | src/http/http_utils.c:11-17 | so a long name alone gets the rest of itself back as part of the value |
| HttpUtils.ValueIs | src/http/http_utils.c:20-24 | a value goes on to the first ampersand or space, or to the end |
| HttpUtils.UrlDecode | src/http/http_utils.c:29-44 | for every dst_size writes the first dst_size - 1 bytes of the whole decoding, a NUL, and nothing behind it |
| HttpUtils.OddPairs | src/http/http_utils.c:33-34 | a percent sign before two characters that are no two digits: what strtol makes of spaces, signs and other characters |
| HttpUtils.DigitsAre | src/http/http_utils.c:33-34 | the sixteen digits have their values in both cases |
| HttpUtils.DecodeWritten | src/http/http_utils.c:31-42 | decoding undoes every mix of plain, plus and percent encoding; what is encoded is a C string |
| HttpUtils.EscapeRoundTrip | src/http/http_utils.c:31-42 | every byte string can be escaped and comes back |
| ChatServer.ChatServer.SendStatusWithDescr | src/chat/handlers.c:15-73 | sends the status packet of the state machine, whose bytes Deliveries.StatusPacketShows gives |
| ChatServer.ChatServer.ChangedStatus | src/chat/handlers.c:76-91 | the loop over the table sends exactly the broadcast of the state machine |
| ChatServer.ChatServer.SupersedeOld | src/chat/handlers.c:113-119 | the session found under the number is told and marked, and only that one |
| ChatServer.ChatServer.CompleteLogin | src/chat/handlers.c:113-131 | duplicate check, fields, answer and broadcast, in this order |
| ChatServer.ChatServer.GgLogin31Handler | src/chat/handlers.c:96-132 | refines the 3.1 login of the state machine, which Logins.LoginOutcome decides |
| ChatServer.ChatServer.GgLogin50Handler | src/chat/handlers.c:135-172 | refines the 5.0 login |
| ChatServer.ChatServer.GgLogin60Handler | src/chat/handlers.c:175-212 | refines the 6.0 login |
| ChatServer.ChatServer.GgLogin70Handler | src/chat/handlers.c:215-277 | refines the 7.0 login, both hash types and the unknown one |
| ChatServer.ChatServer.NotifyHandler | src/chat/handlers.c:281-294 | the record loop appends all whole records of the packet |
| ChatServer.ChatServer.NotifyEndHandler | src/chat/handlers.c:297-325 | the list, then the replies, the announcements and the broadcast |
| ChatServer.ChatServer.NewStatusHandler | src/chat/handlers.c:336-406 | refines the status change, with its extra round and the goodbye |
| ChatServer.ChatServer.NotifyAddHandler | src/chat/handlers.c:410-425 | one contact more and one reply |
| ChatServer.ChatServer.NotifyRemoveHandler | src/chat/handlers.c:427-436 | the first entry with the number is gone |
| ChatServer.ChatServer.UserlistRequestHandler | src/chat/handlers.c:449-472 | the fixed replies |
| ChatServer.ChatServer.MsgHandleSend | src/chat/messaging.c:19-70 | refines the message step of the state machine |
| ChatServer.ChatServer.HandleInputPacket | src/chat/handlers.c:475-506 | the dispatcher refines the packet step of the state machine on the whole table and all that is sent |
| ChatServer.ChatServer.HandlePacket | src/chat/chat_server.c:28-45 | one packet is the deliver step of the state machine: table, counter, users and wire |
| ChatServer.ChatServer.Register | src/database/users.c:86-130 | a registration is the sign-up step: it changes the user table and nothing else |
| ChatServer.ChatServer.AcceptClient | src/chat/chat_server.c:78-97 | refines the accept step, slot, counter and greeting; fails iff the counter is at its maximum |
| ChatServer.ChatServer.ClientCreate | src/chat/client.c:25-69 | a fresh session goes to the lowest free slot and the counter goes up by one |
| ChatServer.ChatServer.ClientDestroy | src/chat/client.c:71-82 | refines the close step: the one slot of the session is emptied and the counter goes down by one |
| ChatServer.ChatServer.ClientFind | src/chat/client.c:110-116 | the scan returns the client in the lowest slot with the number |
| ChatServer.ChatServer.WriteFullPacket | src/chat/client.c:157-174 | header and body make the bytes of the connection grow by the encoding of the packet, and those of no other connection |
| ChatServer.ChatServer.ClientThread | src/chat/chat_server.c:21-48 | the receive loop on a whole stream hands over its packets one by one until the session is marked, and then takes the session out of the table |
| ChatServer.ServedIsRun | src/chat/chat_server.c:21-48 | what one thread does is a run of the state machine: packets one by one up to the first mark or the last, then one close |
| ChatServer.StillLive | src/chat/chat_server.c:21-48 | a session stays in its slot, in a sound table, while its packets are handled |

## Left out

- Presence.PresenceSinceAsked: as long as logins are safe and answers right, see "The schedule"; and about two different sessions, because nobody is told about a change of its own status (src/chat/handlers.c:81). Sessions that are not logged in are the subject of Absence.AbsenceIsTold.
- Presence.PresenceAgreement: the same restrictions; the number 0 needs no exception because no logged-in session has it.
- Absence.AbsenceIsTold: on runs as in Absence.RunKnowledgeIff; a marked session that has its own number on the list is told nothing about itself.
- Numbers.OneSessionPerUin: on reap-first runs only; Numbers.RunUniqueIff has the exact condition for unmarked sessions.
- Messages.MessageReachesIff: messages for a number without an unmarked session; Messages.RequestOutcome says what happens to them.
- Users.User.RowToUser: the fields qa and registered_at.
- Md5.File: chunks of 2^32 bytes and more, for which the 32-bit loop counter never ends the loop (Md5.CounterReaches).
- Md5.Context.Update: the same.
- HttpUtils.LookupIsFirstSuffix: names of up to 62 bytes; HttpUtils.LongNameIsFoundInside has the longer ones.
- HttpUtils.UrlDecode: a buffer of at least one byte, because the function writes the final NUL in any case.
- ChatServer.ChatServer.ClientThread: one thread with nothing else going on; interleaved threads are the runs of the state machine, one event for each packet that is handled.
- ChatServer.ChatServer.AcceptClient: accepting, creating the session and the greeting are one step.
- ChatServer.ChatServer.ClientDestroy: only the removal from the table; releasing memory, mutexes, and the reading of the contact array after it is freed are not modelled. No client ever gets a status_write function, so the loop over the contacts sends nothing and nobody learns of a dropped connection.
- Sockets, threads and locks: every receive gets all the bytes it asks for, every send succeeds, every allocation succeeds, and a handler runs without interruption.
- Descriptions and message texts near 2^32 bytes, where adding the size of the header would wrap around.
- The return codes of the handlers, except that of gg_notify_handler; the dispatcher ignores the others.
- Timeouts, pings and the time of the last ping, which are stored and never looked at; the empty contact list packet, which does nothing.
- The quality of generate_seed and rand: a seed and the draws are parameters.
- SQLite: the user table is a map with the uniqueness rules of the schema; security questions and registration times are neither in it nor in the record a lookup fills.
- hash_password and db_verify_password, which no login uses.
- md5String, a single update with strlen bytes.
- The responses of http_utils.c, and http_server.c, fmregister.c, appsvc.c, router.c, regtoken.c and config.c: formatted text, dispatch on strings and files.
- pubdir.c, which is not finished and not built.
