# Verified model of the LocalDNS transport and resolver core

The repository tunnels a device's DNS and TCP traffic through two pieces of logic that are easy to get
wrong: a TCP connection that silently reconnects and sends its first flight again in split form, and
encrypted-DNS resolvers that rewrite queries in place, rate-limit bad servers and share connections
between goroutines. This project models that logic in Dafny and proves what it is for.

`dafny verify dfyconfig.toml` checks the whole project.

## What is modelled

**The split-and-retry connection** (`transport/split/retrier.go`)

- `TlsRecords`, `TlsSplit`: what a TLS receiver reads from a stream of records, and `splitHello`, which turns
  the first record into two inside one mutable buffer. Both segments are given as functions of the hello, and
  the receiver is proved to read the same records as without the split.
- `RetryProtocol`: the connection as a step relation. A reader, a writer, any number of closers and deadline
  setters interleave at every access to shared state; the environment chooses the outcome of every dial,
  read and write. `RetryInvariant` is the invariant of all runs, `RetryTheorems` and `RetryOutcomes` what follows
  for callers and servers, for upload and download, including one run in which the code does lose data.
- `Retriers`: the same connection as a class with the source's fields and methods, `splitHello` on its buffer
  included. Every call takes the steps of the protocol, so an object is always in a state that some run reaches.

**The encrypted-DNS query path** (`proxy/doh`, `proxy/dot`)

- `DnsNames`, `DnsMessage`, `DnsRoundTrip`, `DnsPointers`, `DnsWire`: DNS messages with name compression and EDNS
  options, packing and unpacking, the proof that unpacking inverts packing, how many pointers that takes, and the
  wire format octet by octet.
- `Padding`, `PaddingSize`, `PaddingErrors`: `AddEdnsPadding`, what it preserves, the exact size of its result for
  every query, the exact condition under which that is whole blocks, and exactly when it fails.
- `Servfails`, `Queries`, `DohResolvers`, `DotResolvers`: SERVFAIL responses and both resolvers' `doQuery` on a
  mutable query buffer. What a call sends and answers, and whether it begins a hangover, is a function of the query
  as the caller passed it, the clock, and what the network will do: the HTTP client's exchanges, or the links that
  dials lead to and what the server sends over them. `DohOutcomes`, `DotOutcomes` say in octets and numbers which
  query and which network lead to which outcome.
- `Hangovers`: the ten-second rejection window over whole runs of concurrent queries, and that each resolver's
  `doQuery` is part of such a run.
- `Framing`, `FramedStreams`, `Responders`: length-prefixed framing over streams cut into arbitrary chunks, the
  loop that dispatches queries and the exact condition under which it dispatches all of them, and concurrent
  responders writing to one client, and what an error of one costs the others.

**What these rely on**

- `IpSets`, `IpMaps`, `IpMapProtocol`, `Dials`: address sets and the map from hostnames to them, as classes and
  under any interleaving, and the loops that try addresses one after the other up to the first success.
- `TcpWraps`: the close accounting of `transport/tcp.go` under concurrent closing calls, and as an object.
- `Hostnames`: the QNAME decoder of `infra/android/bridge.go`.

## Assumptions

- The retrying connection has one reader and one writer, as its documentation asks for. A connection's `Write`
  accepts a prefix of its buffer, and fewer octets than asked for come with an error; `Read` does not return
  data together with an error; a closed half accepts nothing and a closed descriptor has no timers.
- A connection that is read follows a finite schedule that says for each Read how many octets it may deliver and
  whether it returns an error; a schedule that is used up is a connection that is gone. In the same way the dials,
  the HTTP client and the clock follow a script of what they will do. All theorems hold for every schedule and
  script. A client connection whose write came up short accepts nothing more.
- Within one map of hostnames a name always resolves to the same addresses.
- The clock of the hangover does not run backwards. Addresses are not nil.
- Parameters, scripts and nondeterministic choices stand for the network, the clock, random numbers, name lookups,
  TLS handshakes and the HTTP client. In methods, `others` tells whether other goroutines act between two critical
  sections of the call.

## Where the code differs from its documentation

The model follows the code.

- `doQuery` is documented to return a SERVFAIL response with every error (proxy/doh/doh.go:234-239). There is no
  response exactly when the query is too short, cannot be padded, its request cannot be constructed, or it is
  malformed and comes during a hangover (`DohResolvers.ErrorWithoutResponse`,
  `DohResolvers.MalformedQueryInHangover`). Over TLS every early return gives none
  (`DotResolvers.ErrorWithoutResponse`).
- Where the request cannot be constructed, `doQuery` of DNS-over-HTTPS leaves the caller's buffer with ID 0 if the
  caller had padded the query itself (`DohResolvers.BufferRestored`, `DohResolvers.QueryWhoseRequestFails`).
- An invalid reply is documented to start a hangover (proxy/doh/doh.go:43-45). Over HTTPS it does
  (`DohResolvers.InvalidReplyArms`); over TLS it does exactly if a message could be read (proxy/dot/dot.go:219-224,
  `DotResolvers.InvalidReplyArms`, `DotResolvers.UnreadReplyDoesNotArm`).
- The padding size is computed for a fully compressed message (proxy/doh/padding.go:21-24). When padding pushes
  names out of the reach of compression pointers, the result is longer than computed by the octets that these
  names then take, and it fills whole blocks if and only if that number is a multiple of 128
  (`PaddingSize.PaddingExact`, `PaddingSize.StretchedQueries`).
- The search for an OPT record looks as if it stopped at the first; its `break` leaves only the switch, so the last
  one counts (proxy/doh/padding.go:53-59).
- A replay that fails midway leaves its connection in use, and later writes go out behind the gap
  (`RetryTheorems.FailedReplayCorrupts`).
- `conn` and `hello` are documented not to be modified once the flag is closed, so that reading them needs no lock
  (transport/split/retrier.go:23-28). `Read` closes the flag first and clears `hello` afterwards, still under the
  lock (transport/split/retrier.go:154-157). For `conn`, the one read without the lock, the documentation is right
  (`RetryTheorems.RetrySafety`, `RetryTheorems.ConnFinalAfterCompletion`).
- `Accept` gives up at the first query whose length or body does not arrive in one read each. It dispatches all
  queries of a stream if and only if there is no such query (`FramedStreams.AcceptDispatchesAll`,
  `FramedStreams.ChunkedQueryIsDropped`).
- A responder closes the client's connection after it has delivered a SERVFAIL, and then no other query of that client
  that is still being asked is ever answered (`Responders.ErrorsClose`, `Responders.ErrorSilencesOthers`,
  `Responders.SecondAnswerLost`).
- `Close` of the retrying connection leaves the read half open when the write half cannot be shut down
  (transport/split/retrier.go:361-366, `Retriers.Retrier.Close`).

## Model

| member | source | states |
|---|---|---|
| TlsRecords.DeframeLossless | transport/split/retrier.go:202-226 | Reading a stream as TLS records loses nothing: records and incomplete header spell the stream again |
| TlsRecords.RecordOctets | transport/split/retrier.go:202-226 | The first record on the wire: type, version, a length of two octets, the high one first, and that many octets |
| TlsSplit.RefragmentationPreservesMeaning | transport/split/retrier.go:241-272 | For every hello, split and continuation, merging the first two records the server reads gives the record sequence of the unsplit stream; both lengths are positive and sum to the original |
| TlsSplit.SplitsRecordExactly | transport/split/retrier.go:202-250 | Which hellos are fragmented, on their octets: type 22, versions 0x0301 to 0x0304, and a cut behind the header and inside the record |
| TlsSplit.PossibleSplitExactly | transport/split/retrier.go:234-246 | Which split lengths can be drawn: 6 to 64, and at most half of the hello |
| TlsSplit.SegmentOctets | transport/split/retrier.go:250-271 | Both segments octet by octet: fragments keep type and version, announce what they carry, and together carry the hello |
| TlsSplit.PlainResent | transport/split/retrier.go:250-259 | Without a record split the two segments are the hello itself |
| TlsSplit.BrokenReplayCarriesPrefix | transport/split/retrier.go:228-273 | A replay that stops anywhere, in the middle of either segment or header, gives the server a prefix of what the records of the hello carry, and no octet of a header as content |
| TlsSplit.SplitHello | transport/split/retrier.go:228-273 | On a mutable buffer, for every draw of the split length: what is sent is the accepted prefix of both segments; without a failure the count is five more than the hello exactly if its octets are a handshake record of TLS 1.0 to 1.3 that is cut inside; no write is empty, only octets of the first segment are overwritten, and it fails exactly if a write does |
| TlsSplit.SplitSegment | transport/split/retrier.go:250-259 | The branch without a record split sends the same octets in two writes |
| TlsSplit.SplitRecord | transport/split/retrier.go:261-272 | The branch that fragments the record sends the two fragments with their own headers |
| TlsSplit.WriteSecond | transport/split/retrier.go:266-272 | Moving the header inside the buffer gives a correct second segment also where source and target overlap |
| TlsSplit.MoveHeader | transport/split/retrier.go:267 | The overlapping copy of the header |
| RetryInvariant.StepKeeps | transport/split/retrier.go:136-399 | Every step of every thread keeps the invariant on locks, phases, upload, download, half-closes and deadlines |
| RetryInvariant.RunKeeps | transport/split/retrier.go:136-399 | So does every run |
| RetryInvariant.ReplayFirstCarried | transport/split/retrier.go:228-264 | The first write of a replay, with the buffer's contents arbitrary from then on |
| RetryInvariant.ReplaySecondCarried | transport/split/retrier.go:252-272 | The second write continues the replay where the first ended |
| RetryInvariant.DialUpload | transport/split/retrier.go:167-171 | At the dial, hello is exactly what the old connection accepted |
| RetryInvariant.ResumeCounts | transport/split/retrier.go:306-317 | A write that waited counts what was accepted before and after the wait, without gap or overlap |
| RetryInvariant.AcceptedLater | transport/split/retrier.go:312-323 | Octets accepted after completion extend what the current connection carries |
| RetryTheorems.ExactlyOnceUpload | transport/split/retrier.go:136-193 | In every interleaving the accepted octets are those reported plus those of the running call; the current connection carries exactly them, the first part possibly resent in split form; after a failed dial it is the old connection, closed; and after a failed replay it carries them if and only if the replay had been accepted completely |
| RetryTheorems.ServerReadsTheUpload | transport/split/retrier.go:163-193 | Unless a replay failed, the server reads the TLS records of the uninterrupted upload, whatever follows |
| RetryTheorems.RetrySafety | transport/split/retrier.go:22-32 | The flag is closed at most once, at most one extra dial happens, hello is empty after completion, a waiting writer does not hold the mutex, and the connection used without the mutex is the final one |
| RetryTheorems.NoLockCycle | transport/split/retrier.go:276-310 | In every reachable state the owner of the mutex, or the reader if there is none, has a step |
| RetryTheorems.ConnFinalAfterCompletion | transport/split/retrier.go:22-26 | After the flag is closed the connection never changes, nobody dials, and what it has accepted only grows |
| RetryTheorems.RunSettled | transport/split/retrier.go:22-26 | The same from any state of the invariant in which the flag is closed |
| RetryTheorems.HalfCloseSurvives | transport/split/retrier.go:178-187 | The current connection has exactly the halves closed that the caller closed, and on a retried connection the write half only behind the whole hello |
| RetryTheorems.DeadlinesInForce | transport/split/retrier.go:154-158 | After completion the retry timeout is never the read deadline, and the write deadline is the caller's |
| RetryTheorems.DeliveredFromOneConnection | transport/split/retrier.go:136-193 | In every run what Read has delivered is exactly what the current connection received, and a replaced connection has delivered nothing |
| RetryOutcomes.RetriedUnlessAnswered | transport/split/retrier.go:136-193 | In every run the provisional phase ends without a second dial only if the first connection delivered something, and the server is dialled again only if it delivered nothing |
| RetryOutcomes.TimersSet | transport/split/retrier.go:188-300 | In every run the retry timeout runs on the open connection while there is something to replay and nobody holds the mutex; and when a retry reads the new connection, the deadlines of the caller are in force |
| RetryTheorems.FailedReplayCorrupts | transport/split/retrier.go:172-177 | A run in which a replay fails midway and later octets are accepted behind the gap |
| Retriers.CloserCall | transport/split/retrier.go:195-200 | An uninterrupted CloseRead or CloseWrite as a run of the protocol |
| Retriers.ReadSetterCall | transport/split/retrier.go:381-392 | An uninterrupted SetReadDeadline as a run of the protocol: without effect on the connection before completion |
| Retriers.WriteSetterCall | transport/split/retrier.go:394-399 | An uninterrupted SetWriteDeadline as a run of the protocol |
| Retriers.ProvisionalCall | transport/split/retrier.go:276-300 | A write before completion as a run of the protocol |
| Retriers.ResumedCall | transport/split/retrier.go:302-318 | The rest of a write that waited, as a run of the protocol |
| Retriers.ReplayCall | transport/split/retrier.go:172-177 | What splitHello does to a fresh connection is one or two steps of the protocol |
| Retriers.CopySettings | transport/split/retrier.go:179-192 | Copying half-closes and deadlines, whichever are set |
| Retriers.Retrier.CloseRead | transport/split/retrier.go:195-200 | The half is closed on the current connection and remembered for a replacement |
| Retriers.Retrier.CloseWrite | transport/split/retrier.go:354-359 | The half is closed on the current connection and remembered for a replacement |
| Retriers.Retrier.Close | transport/split/retrier.go:361-366 | Both halves are closed, but the read half only if the write half could be |
| Retriers.Retrier.SetReadDeadline | transport/split/retrier.go:381-392 | The deadline is remembered, and applied only after completion |
| Retriers.Retrier.SetWriteDeadline | transport/split/retrier.go:394-399 | The deadline is remembered and applied |
| Retriers.Retrier.Write | transport/split/retrier.go:276-324 | What the connection accepts is remembered before completion, and the retry timeout begins anew; an error then only makes the call wait |
| Retriers.Retrier.Resume | transport/split/retrier.go:302-318 | After the wait exactly the rest of the buffer goes to the final connection |
| Retriers.Retrier.ReadFrom | transport/split/retrier.go:327-352 | A prefix of the source's data is sent, all of it without an error, and remembered before completion; when it waits, which chunk is under way and how much of it was accepted |
| Retriers.Retrier.ResumeReadFrom | transport/split/retrier.go:302-352 | After the wait the rest of that chunk and of the source goes to the final connection, without gap or overlap |
| Retriers.Retrier.CloseOld | transport/split/retrier.go:167 | The old connection is closed |
| Retriers.Retrier.Dial | transport/split/retrier.go:168-171 | The connection is replaced if and only if the dial succeeds |
| Retriers.Retrier.SendHello | transport/split/retrier.go:172-177 | The hello is sent again through splitHello, which uses it as scratch space |
| Retriers.Retrier.Retry | transport/split/retrier.go:163-193 | The new connection carries the accepted prefix of the resent hello, and the caller's settings if that is all of it; what is returned is what the new connection delivered first; it fails exactly if the dial, the replay or the first read does |
| Retriers.Retrier.Read | transport/split/retrier.go:136-161 | Any outcome but an empty read ends the provisional phase with hello empty and no provisional deadline; it retries exactly if the read fails; what is read comes from the connection that stays; a completed call changes nothing |
| Retriers.Retrier.CarriesUpload | transport/split/retrier.go:136-193 | What is proved of every run holds of the object's connection |
| DnsNames.PackNameInverts | proxy/doh/padding.go:92-103 | A compressed name decodes to itself where it was written, and every remembered offset spells its suffix |
| DnsNames.DecodeExtends | proxy/doh/padding.go:46-49 | Later octets do not change what a name decodes to |
| DnsRoundTrip.FlagsRoundTrip | proxy/doh/doh.go:557-559 | The header bits survive packing |
| DnsRoundTrip.UnpackInvertsPack | proxy/doh/padding.go:45-103 | Unpacking inverts packing on every message that can be packed, compression included |
| DnsRoundTrip.UnpackIgnoresRest | proxy/doh/padding.go:45-103 | So it does with any octets behind the message |
| DnsPointers.PackedWithin | proxy/doh/padding.go:45-103 | What is packed is read with no more pointers for a name than names have labels |
| DnsPointers.ChainOfPointers | proxy/doh/padding.go:45-103 | For every k up to 127 a message with a name of k labels that takes k - 1 pointers |
| DnsWire.PackedHeader | proxy/doh/padding.go:45-103 | The header of a packed message octet by octet: ID, every flag at its bit, and the sizes of the sections |
| DnsWire.PointerOctets | proxy/doh/padding.go:92-103 | A pointer is 0xC000 plus the offset |
| DnsWire.LabelOctets | proxy/doh/padding.go:92-103 | A label behind its length, and a zero octet for the root |
| DnsWire.QuestionOctets | proxy/doh/padding.go:92-103 | Type and class behind the name of a question |
| DnsWire.ResourceOctets | proxy/doh/padding.go:92-103 | Type, class, TTL and length behind the name of a record, the type being 41 exactly for OPT |
| DnsWire.OptionOctets | proxy/doh/padding.go:97-103 | Code and length before the data of an option, and the options one after the other |
| DnsWire.PacksExactly | proxy/doh/padding.go:92-103 | Packing fails exactly on more than 65535 entries in a section or octets in a record, or on a name of more than 255 octets |
| DnsWire.ExampleOctets | proxy/doh/padding.go:92-103 | A message of 35 octets in which a record refers to the name of the question |
| Padding.PaddingSizeLeast | proxy/doh/padding.go:25-32 | The padding completes the last block, and no smaller number of octets does |
| Padding.AddEdnsPadding | proxy/doh/padding.go:45-104 | The loop over the additional section and the edit of the last OPT record meet the specification; a padded query comes back as the same buffer, anything else in a new one, which unpacks to the old message with one option of code 12 and zero octets added: behind the options of the last record of type 41, whose name, class and TTL stay, or in a new record for the root with class 65535 and TTL 0 |
| Padding.PaddingPreserves | proxy/doh/padding.go:60-103 | The padded query unpacks to the original one with the padding option added to its last OPT record, or to a new one |
| Padding.PaddingAddsOnlyPadding | proxy/doh/padding.go:60-103 | The same field by field: header, other sections and other records are equal, the record with the option keeps name, class, TTL and old options, and what is new is one option of code 12 with zero octets |
| Padding.LastOptExactly | proxy/doh/padding.go:53-59 | The record that is used is the last of type 41, and there is none exactly if no record has that type |
| Padding.AlreadyPaddedExactly | proxy/doh/padding.go:60-67 | A query comes back unchanged exactly if its last record of type 41 holds an option of code 12 |
| Padding.PaddingIdempotent | proxy/doh/padding.go:51-67 | Padding a padded query returns it octet for octet, whatever OPT records it has |
| PaddingSize.ItemsGrowth | proxy/doh/padding.go:92-103 | What follows the OPT record grows, when it is shifted, by exactly the octets that its lost pointers cost |
| PaddingSize.NoPointerNoOctets | proxy/doh/padding.go:92-103 | These octets are none if and only if no pointer is pushed out of reach |
| PaddingSize.GrowthExact | proxy/doh/padding.go:92-103 | Packing with padding is longer by the option and the octets lost, for every message |
| PaddingSize.PaddingExact | proxy/doh/padding.go:92-103 | The length of every padded query: the computed one, whole blocks with less than a block of padding, plus the octets lost, which are none if and only if no pointer is lost; it is whole blocks if and only if the octets lost are |
| PaddingSize.PaddingFillsBlocks | proxy/doh/padding.go:45-104 | Whole blocks for every query that has no OPT record, has it last, or stays within 16384 octets |
| PaddingSize.StretchedQuery | proxy/doh/padding.go:92-103 | For every k a query whose padded length is whole blocks if and only if k - 1 is a multiple of 128 |
| PaddingSize.StretchedQueries | proxy/doh/padding.go:92-103 | A query whose padded length is not whole blocks, and one for which it is although pointers are lost |
| PaddingErrors.PaddingFailsExactly | proxy/doh/padding.go:46-103 | Padding fails exactly on a malformed query, and on one without padding that has 65535 additional records and no OPT record, or whose last OPT record has no room for the option and the octets that complete a block of 128 |
| Servfails.UnpackedIsPackable | proxy/doh/doh.go:553-561 | Whatever can be unpacked can be packed again |
| Servfails.ServfailAnswers | proxy/doh/doh.go:551-562 | A SERVFAIL exists exactly for well-formed queries, reads back as the refusal, and carries the query's ID |
| Servfails.ServfailOctets | proxy/doh/doh.go:551-562 | The response on its octets: QR and RA set, RCODE 2, no additional records, and ID, opcode, the other flags, questions, answers and authorities as in the query |
| Servfails.ServfailErasesPadding | proxy/doh/doh.go:551-562 | The SERVFAIL for the padded query equals that for the original one |
| Servfails.PaddedKeepsId | proxy/doh/doh.go:256-264 | Padding keeps the ID, and a padded query is long enough to hold one |
| Queries.IdRestored | proxy/doh/doh.go:263-275 | Zeroing the ID and restoring it gives the message back |
| Queries.TryServfail | proxy/doh/doh.go:564-570 | A response or nil, as Servfail has it |
| DohResolvers.DohResolver.SendRequest | proxy/doh/doh.go:303-419 | What the HTTP client did is returned as response, host, server and error; after a failure with a known server its connection is closed and only its address is disconfirmed |
| DohResolvers.DohResolver.SendQuery | proxy/doh/doh.go:262-300 | From the request on: the ID comes back, the hangover begins exactly on errors of the exchange other than a failure to send, and exactly a server that answered is confirmed |
| DohResolvers.DohResolver.DoQuery | proxy/doh/doh.go:240-301 | How far the query gets is a function of the query, the clock and the HTTP client's next exchange, with the outcomes of DohOutcomes; on every path what is sent, what is answered, and what becomes of the caller's buffer, the hangover and the addresses |
| DohResolvers.ResponseCarriesId | proxy/doh/doh.go:274-296 | Every response, answer or SERVFAIL, carries the caller's ID |
| DohResolvers.SuccessIsFaithful | proxy/doh/doh.go:276-286 | Success means that the exchange ended with status 200 and a body with ID 0, of which only the ID is changed |
| DohResolvers.ErrorWithoutResponse | proxy/doh/doh.go:234-296 | Which errors come without a response, if and only if; every other error is answered with the SERVFAIL of the caller's query, before and after padding alike |
| DohResolvers.MalformedQueryInHangover | proxy/doh/doh.go:249-253 | A query of two octets that gets an error and no response during a hangover |
| DohResolvers.InvalidReplyArms | proxy/doh/doh.go:276-293 | A hangover begins if and only if the server was reached and sent back a broken body, another status than 200, or another ID |
| DohResolvers.QueryIsRun | proxy/doh/doh.go:246-293 | What doQuery does to the hangover is part of a run of its protocol |
| DohResolvers.UpstreamIdIsZero | proxy/doh/doh.go:262-265 | Every query handed upstream has ID 0 and is the padded query otherwise |
| DohResolvers.BufferRestored | proxy/doh/doh.go:255-275 | The caller's buffer is unchanged on return if and only if the request could be constructed, or the query was not padded by the caller, or its ID was 0 |
| DohResolvers.RequestFailureLosesId | proxy/doh/doh.go:263-269 | A query for which the buffer comes back without its ID |
| DohResolvers.QueryWhoseRequestFails | proxy/doh/doh.go:256-269 | A run of doQuery in which it does, for every query padded by the caller with another ID than 0 |
| DohOutcomes.QueryGate | proxy/doh/doh.go:240-269 | Before anything is sent: fewer than two octets are BadQuery; a clock before the expiration is HTTPError with the SERVFAIL of the query; otherwise it is sent exactly if it can be padded and its request constructed, and is InternalError without a response if not |
| DohOutcomes.ReplyOutcome | proxy/doh/doh.go:272-300 | After it is sent: which reply gives which error, exactly; status 200 and two zero octets give the body with the first two octets of the query, everything else the SERVFAIL; which replies begin a hangover and close the connection |
| DohOutcomes.SentOctets | proxy/doh/doh.go:262-265 | What is sent is two zero octets and the rest of the padded query |
| DohOutcomes.BufferOctets | proxy/doh/doh.go:255-275 | What the buffer holds on return: zeros for the ID exactly if the request of a padded query could not be constructed |
| DohOutcomes.AddressOutcome | proxy/doh/doh.go:297-419 | Which host learns what about the server that was used: the one that answered after redirects, confirmed with a good answer, disconfirmed without a complete one of status 200, and nothing with another ID |
| DohOutcomes.NoServerNoChange | proxy/doh/doh.go:297-300 | Without a connection nothing is learned |
| DotResolvers.DotResolver.DialPlainTcp | proxy/dot/dot.go:112-140 | Never neither a connection nor an error; known addresses are dialled in order, none twice, up to the first that works, and a failure means that all were; the confirmed one stays confirmed exactly if its dial succeeds |
| DotResolvers.DotResolver.Transact | proxy/dot/dot.go:170-226 | The one write on the connection is the frame of the query, what is returned is the message that the server's stream gives, the server is the address dialled, and the connection is closed on every path |
| DotResolvers.DotResolver.SendQuery | proxy/dot/dot.go:163-251 | From the dialling on: the ID comes back on every path, the hangover begins exactly with a message that is refused, and exactly a server that answered is confirmed |
| DotResolvers.DotResolver.DoQuery | proxy/dot/dot.go:142-252 | How far the query gets is a function of the query, the clock and the link that the dials lead to, with the outcomes of DotOutcomes; on every path what is dialled, sent and answered, with the caller's buffer unchanged |
| DotResolvers.ResponseCarriesId | proxy/dot/dot.go:228-247 | Every response carries the caller's ID |
| DotResolvers.SuccessIsFaithful | proxy/dot/dot.go:229-239 | Success means that the first frame of the server's stream has ID 0, of which only the ID is changed; a message that was read is refused only for its ID: the branch for its length is unreachable |
| DotResolvers.ErrorWithoutResponse | proxy/dot/dot.go:142-247 | Which errors come without a response, if and only if: all before a message of the server has been read, and a malformed query during a hangover |
| DotResolvers.MalformedQueryInHangover | proxy/dot/dot.go:149-155 | A query of two octets that gets an error and no response during a hangover |
| DotResolvers.InvalidReplyArms | proxy/dot/dot.go:219-245 | Of a query that was sent and whose reply was awaited: every reply but a message with ID 0 is a bad response, and it begins a hangover if and only if a message could be read |
| DotResolvers.RefusedFrameArms | proxy/dot/dot.go:219-245 | In terms of the server's stream: only a first frame with another ID begins a hangover, and on a connection that keeps delivering it does |
| DotResolvers.OnlyRepliesArm | proxy/dot/dot.go:142-245 | No query without such a reply begins one |
| DotResolvers.QueryIsRun | proxy/dot/dot.go:148-245 | What doQuery does to the hangover is part of a run of its protocol |
| DotResolvers.UnreadReplyDoesNotArm | proxy/dot/dot.go:219-224 | A run of doQuery against a server that sends the octets 0, 1, 5: a bad response and no hangover |
| DotResolvers.RefusedReplyArms | proxy/dot/dot.go:229-245 | A run against a server that answers with another ID: a hangover of ten seconds |
| DotOutcomes.QueryGate | proxy/dot/dot.go:142-161 | Before anything is dialled: fewer than two octets are BadQuery; a clock before the expiration is HTTPError with the SERVFAIL of the query; otherwise a server is dialled exactly if the query can be padded, and it is InternalError without a response if not |
| DotOutcomes.NoReplyOutcome | proxy/dot/dot.go:166-226 | Which error each failure before a message is read gives, exactly, all without a response and without a hangover |
| DotOutcomes.ReplyOutcome | proxy/dot/dot.go:219-252 | And when one is read: two zero octets give the message with the first two octets of the query, any others BadResponse, the SERVFAIL and a hangover |
| DotOutcomes.SentOctets | proxy/dot/dot.go:163-164 | What is sent is two zero octets and the rest of the padded query |
| DotOutcomes.WireOctets | proxy/dot/dot.go:170-226 | The octets on the connection: length and message in one write, or none; it is closed in the end, and the server counts as reached after the handshake |
| DotOutcomes.AddressOutcome | proxy/dot/dot.go:112-251 | Without interference the confirmed address is forgotten exactly if the first dial fails, and the server is confirmed exactly with a good answer |
| DotResolvers.KnownEmpty | proxy/dot/dot.go:99-105 | The set of addresses is empty if and only if every lookup was |
| DotResolvers.KnownExactly | proxy/dot/dot.go:85-106 | The set holds exactly the addresses that the lookups gave, those of the host first |
| DotResolvers.NewResolver | proxy/dot/dot.go:85-106 | There is no resolver if and only if neither the host nor any given name resolves; otherwise its set is what they resolve to |
| Hangovers.RunKeeps | proxy/doh/doh.go:246-253 | Over every run events are ordered in time, the expiration covers every arming, and no query is let through within a hangover |
| Hangovers.RejectedExactly | proxy/doh/doh.go:246-253 | Every hangover ends: in every run a query is turned away if and only if an arming was less than ten seconds ago |
| Hangovers.QueryRuns | proxy/doh/doh.go:246-293 | The steps of one query are possible in every state and leave the time and expiration that doQuery leaves |
| Hangovers.ExpirationNeverDecreases | proxy/doh/doh.go:288-293 | The end of the hangover only moves forward |
| Hangovers.SilenceAfterArming | proxy/doh/doh.go:246-253 | A query checked within ten seconds after an arming is rejected, in every run |
| Hangovers.OnlySentQueriesArm | proxy/doh/doh.go:249-293 | In every run a query that arms the hangover was let through by its last check before: a rejected query never arms it |
| Hangovers.RateLimit | proxy/doh/doh.go:43-46 | With at most k queries at a time, any window of length L holds at most k * (L / 10 s + 1) arming failures |
| Framing.UnframeInvertsFrames | proxy/dot/dot.go:256-266 | Framed messages are read back in order, whatever follows |
| Framing.FrameOctets | proxy/dot/dot.go:256-266 | A frame is the length in two octets, the high one first, and the message, of at most 65535 octets |
| Framing.FirstFrameOctets | proxy/dot/dot.go:268-282 | When a whole frame has arrived, and which octets its message is |
| Framing.UnframeLossless | proxy/dot/dot.go:268-282 | Reading frames loses nothing: messages and incomplete rest spell the stream |
| FramedStreams.ReadFull | proxy/dot/dot.go:270-280 | The buffer is filled over any chunking, or there is an error |
| FramedStreams.FullExactly | proxy/dot/dot.go:270-280 | How much a full read gets: all it wants, unless the stream ends or an error comes first |
| FramedStreams.MessageIsFirstFrame | proxy/dot/dot.go:268-282 | However the stream is cut, a message that is read is its first frame; and on a connection that keeps delivering a first frame of at least two octets is read |
| FramedStreams.DnsOverTcpRead | proxy/dot/dot.go:268-282 | The loop reads exactly what the stream and its schedule give: the next frame, of 2 to 65535 octets; failure means that this call met an error or a length below 2 |
| FramedStreams.DnsOverTcpWrite | proxy/dot/dot.go:256-266 | Exactly one write of the whole frame, none for an oversize message, and an error exactly if that write has one |
| FramedStreams.ReadsRecoverWrites | proxy/dot/dot.go:256-282 | Successive reads recover any sequence of messages written back to back |
| FramedStreams.NextReadAnnounced | proxy/dot/dot.go:270-276 | While a written message is left, its length is what the next read finds |
| FramedStreams.Accept | proxy/doh/doh.go:517-548 | For every stream and schedule the loop dispatches the queries that the specification says, a prefix of the frames of the stream; it consumes nothing else but at most one frame, and loses a whole frame only to an error |
| FramedStreams.AcceptDispatches | proxy/doh/doh.go:517-548 | At least k queries are dispatched if and only if each of the first k frames arrives in one read for its length and one for its body |
| FramedStreams.WholeReadsExactly | proxy/doh/doh.go:520-543 | What that means for the chunks: number 2i delivers the two octets and number 2i + 1 all of query i, both without an error |
| FramedStreams.AcceptDispatchesAll | proxy/doh/doh.go:517-548 | So all are dispatched if and only if all arrive like that |
| FramedStreams.ChunkedQueryIsDropped | proxy/doh/doh.go:531-534 | A run in which a well-framed query is not dispatched |
| Responders.ForwardQuery | proxy/doh/doh.go:483-505 | One combined write of the framed response, or nothing for a bare error or an oversize response; an error exactly if the query, the size or the write gives one |
| Responders.WritesExactly | proxy/doh/doh.go:483-505 | What is written: a response of at most 65535 octets behind its length, two zero octets for neither a response nor an error, nothing for an error without a response |
| Responders.ForwardQueryAndCheck | proxy/doh/doh.go:507-514 | The connection is closed exactly on such an error |
| Responders.RunKeeps | proxy/doh/doh.go:483-514 | Every run keeps the client's stream decodable |
| Responders.ClientDecodesResponses | proxy/doh/doh.go:483-514 | Whatever the order of the responders, the client decodes exactly the responses written in full, each for a different query, and at most a torn last frame |
| Responders.ErrorsClose | proxy/doh/doh.go:483-514 | A responder is going to close the connection if and only if its answer was an error or was not written whole |
| Responders.ErrorSilencesOthers | proxy/doh/doh.go:507-514 | Once it has, in every continuation nothing more is delivered and no query still being asked is answered |
| Responders.SecondAnswerLost | proxy/doh/doh.go:507-514 | A run in which a delivered SERVFAIL costs the second query its answer |
| IpSets.EqualIsCanonical | proxy/doh/ipmap/ipmap.go:70-77 | Address equality is an equivalence that identifies IPv4 addresses with their IPv6 form |
| IpSets.EqualOctets | proxy/doh/ipmap/ipmap.go:70-77 | Equality of four and sixteen octets: ten zeros, two octets of 255, and the four |
| IpSets.AddedAllKeeps | proxy/doh/ipmap/ipmap.go:79-99 | Adding keeps addresses pairwise different and in place, and holds all that was added and nothing else |
| IpSets.IPSet.Has | proxy/doh/ipmap/ipmap.go:70-77 | Membership up to address equality |
| IpSets.IPSet.Add | proxy/doh/ipmap/ipmap.go:88-99 | The loop adds every resolved address that is not there yet |
| IpSets.IPSet.GetAll | proxy/doh/ipmap/ipmap.go:110-118 | The shuffled copy is a permutation of the set |
| IpSets.IPSet.Confirm | proxy/doh/ipmap/ipmap.go:128-139 | The address ends up confirmed and in the set, whatever others do between the test and the update |
| IpSets.IPSet.Disconfirm | proxy/doh/ipmap/ipmap.go:143-149 | Only the given address is disconfirmed |
| IpMaps.IpMap.Get | proxy/doh/ipmap/ipmap.go:34-58 | The result is the entry of the map, entries never change, a known hostname is not resolved again, and without interference a new set holds what the hostname resolves to |
| IpMapProtocol.RunKeeps | proxy/doh/ipmap/ipmap.go:34-149 | Every interleaving keeps sets well-formed and results consistent, and loses no address |
| IpMapProtocol.GetsReturnOneSet | proxy/doh/ipmap/ipmap.go:34-58 | All completed Gets for a hostname return the same set forever |
| IpMapProtocol.SetsStaySound | proxy/doh/ipmap/ipmap.go:60-149 | No two equal addresses in a set, a confirmed address is a member, and no set shrinks |
| Dials.AttemptsComplete | proxy/doh/doh.go:116-136 | The attempts repeat no address, cover the snapshot, and are none only if there is no address |
| Dials.OnlyTheLastSucceeds | proxy/doh/doh.go:118-135 | Every dial but the last fails, and the last one succeeds unless no address is left |
| Dials.DialFallback | proxy/doh/doh.go:112-137 | For every sequence of dial outcomes the attempts are made in order up to the first success, whose connection is returned; the confirmed address stays confirmed exactly if its own dial succeeds; neither connection nor error means that there was no address |
| TcpWraps.RunKeeps | transport/tcp.go:44-76 | Every half is unmarked, owed by one closing call, or taken off the counter |
| TcpWraps.ClosedOnce | transport/tcp.go:35-76 | The counter is never negative and the listener fires at most once, only after both halves are done |
| TcpWraps.ReportFollows | transport/tcp.go:44-53 | Once both halves are marked the report can always be completed: no decrement is lost |
| TcpWraps.BothHalvesReport | transport/tcp.go:56-110 | So it is after any run that has closed both halves |
| TcpWraps.ClosingCall | transport/tcp.go:56-76 | An uninterrupted closing call as a run from any reachable state: the halves it closes are marked, and the counter is the number of halves left |
| TcpWraps.TcpWrapConn.Close | transport/tcp.go:56-60 | The wrapped connection closed, both halves done and the counter at zero, whatever was closed before |
| TcpWraps.TcpWrapConn.CloseRead | transport/tcp.go:62-68 | The wrapped connection's read half closed and done once, the write half as it was |
| TcpWraps.TcpWrapConn.CloseWrite | transport/tcp.go:70-76 | The wrapped connection's write half closed and done once, the read half as it was |
| Hostnames.ExtractHostname | infra/android/bridge.go:64-90 | Both loops stay in bounds and compute the dotted name |
| Hostnames.HostnameInvertsQname | infra/android/bridge.go:64-90 | It inverts the encoding of every name |
| Hostnames.HostnameExactly | infra/android/bridge.go:64-90 | Of any query, truncated or not, it is the whole labels up to the first octet that begins none, and nothing for fewer than 13 octets |
| Hostnames.JoinedSplits | infra/android/bridge.go:84-88 | Splitting the text at its dots gives the labels back in order, if none of them holds a dot |
| Hostnames.HostnameOfQuery | infra/android/bridge.go:64-90 | Of a packed query it returns the name of the first question, compression notwithstanding |

## Left out

- The JNI and C glue, the sessions, the engine, the TUN device, the UDP relay and the network stack: wiring, or behaviour of libraries that are not part of this model.
- HTTP, TLS handshakes, URL parsing and client certificates: arbitrary outcomes.
- The DNS message library is not part of the repository: the codec here follows section 4 of RFC 1035 and section 6.1.2 of RFC 6891.
- DnsRoundTrip.UnpackInvertsPack: RDATA other than that of OPT records is opaque, so compression of names inside RDATA is not covered; OPT options fill their RDATA exactly and names are at most 255 octets on the wire. Pointers must lead strictly backwards, and their number is not limited. A library that gives up after ten pointers, or that rejects labels with a dot, may not unpack what it packed: names of at most ten labels are safe from the former (DnsPointers.PackedWithin), a chain of twelve names is not (DnsPointers.ChainOfPointers). The theorems on padding and SERVFAIL speak of the messages this codec reads.
- RetryTheorems.NoLockCycle: no progress is claimed, because retry reads from the network while it holds the mutex (transport/split/retrier.go:192).
- RetryTheorems.HalfCloseSurvives: excludes failed replays, after which the code does not transfer half-closes (transport/split/retrier.go:175-177).
- RetryTheorems.DeadlinesInForce: a read deadline that the caller sets before completion does not survive it, because the code clears it (transport/split/retrier.go:156).
- Retriers.Retrier.Read: calls on the object do not overlap; overlapping calls are runs of RetryProtocol. Write and ReadFrom are split where they wait, the rest of them being Resume and ResumeReadFrom.
- SetDeadline of the retrier is a sequence of modelled calls; its statistics, its addresses and the choice of the timeout are not modelled.
- copyOnce: octets that a source delivers together with an error are dropped by the code and are not part of the chunks of ReadFrom.
- DohResolvers.DohResolver.DoQuery: whether http.NewRequestWithContext succeeds is a parameter, `constructs`.
- FramedStreams.Accept: goroutines are recorded as dispatched queries; their writes are the runs of Responders.
- Query, summaries and listeners of both resolvers: reporting only.
- Dials.DialFallback: over HTTPS a redirect can lead to a host without addresses, for which the result is neither a connection nor an error; that case is stated, not excluded.
- The byte counters and the duration of `transport/tcp.go`, `transport/split/conn.go`, socket summaries and address rewriting: only easy members.
