# A verified model of the RouterOS bridge server

The server keeps connections of two kinds. Its clients send framed messages: a 16-octet header
and a body. For a client it opens a session on a router over the RouterOS API: sentences of
length-prefixed words, requests and replies matched by a tag, a login in two stages. This project
models both wire formats, both incremental readers, the tag multiplexer, the session table above
it and the two ways of loading lists, and proves what they keep over every input and every run.

The files, from the bottom up:

- `Octets`, `LengthCodec`: the 64-bit length prefix with the program's own bit operations.
- `Lexing`, `Grouping`: reading items off a stream that arrives in pieces; both wire formats are
  instances.
- `SentenceCodec`: encoding sentences, and a whole-buffer reading that says what the incremental
  reader has to make of every stream.
- `Responses`, `Hex`, `Tags`: the text of sentences, the challenge codec, the tag counter.
- `Requests`, `Multiplexer`, `MultiplexerRuns`: requests and callbacks as books that every handler
  changes; handlers are atomic steps that interleave freely; theorems about every run.
- `MultiplexerSteps`, `CallTraces`: what each handler does, written out in full, and over every run.
- `Reception`, `Api`: the connection object, whose methods are proved against both the
  whole-buffer reading and the multiplexer's steps.
- `SessionLink`, `Sessions`, `SessionRuns`, `SessionTheorems`, `SessionExactness`, `SessionMishap`,
  `SessionSteps`, `SessionsService`: what a session notices of its connection, the table of sessions
  as a state machine, its invariant, the theorems, exactly when they hold, a run in which they do not,
  each step written out in full, and the service as an object whose methods are proved against the
  machine.
- `Frames`, `TcpClient`, `ServerReplies`, `Clients`: the server's own framing, a client's connection
  with its replies, what the server answers, and what the connections of clients do to their sessions.
- `Spellings`: the formats as characters and octets, so that codecs that undo each other are also the
  ones of the wire.
- `Repository`: loading a list as a stream or as a batch.

## How the program is read

- Handlers run on one thread, so each is one step. A connection's `books` field holds what the
  program keeps in closures, in the I/O context and in `read_cbs_` (posted sends, writes under way,
  registered callbacks), together with the history that the theorems speak of. A client's `out`
  field does the same for replies.
- A failed `assert` ends the program: it is the link `Aborted`, after which nothing happens.
  Assertions are taken to be on; the build files do not define `NDEBUG` themselves.
- The continuation read of a length prefix is given the one-octet buffer of the read before it
  (api.cpp:134-136), so it is clipped to one octet, and the assertion at api.cpp:148 fails for
  prefixes of three octets or more. `Delivery` has both: `Clipped` is the code as written, `Whole`
  is what the assertion intends. All theorems about the reader hold for both.
- The five-octet form does not mask its first octet (api.cpp:127-128). The model keeps this, on
  64-bit sizes; the published RouterOS API manual describes a plain 32-bit length there, and a
  sixth, reserved kind of first octet that the code answers with an error.
- A word of no octets is the terminator. A zero length spelled with more octets fails the assertion
  in api_read_state_machine.cpp:21; a length of zero is `Broken` in the whole-buffer reading.
- After an error during a response the reader's state goes from closed back to idle
  (api.cpp:111-116); only the socket keeps the connection from being open. `Api.Api.OnTerminator`
  states this.
- The dot of the parameter pattern, in the POSIX grammar of std::regex, matches anything but NUL.
- Every public method of `Api` has the effect of one multiplexer step, or, for `Receive`, of the
  steps of `AbsorbIsRun`. Its invariant `Resting` says that the history of the object is a run, and so
  does that of `SessionsService`; the theorems on runs hold of the objects (`LivesAsRuns`).
- Every read asked for is added to the reads outstanding, and is taken off when it comes back. That
  there is never a second one is proved, not built in: see `Reading` in `Api` and in `TcpClient`.
- What a step of a connection tells its session is acted on after the step. The code calls back in
  the middle of it, which only differs when a failed write calls back before it closes;
  `CallingBackEarly` shows that it comes to the same.
- The condition of `CallbacksAreClean`, that an id is opened again only when its earlier sessions
  are over, can be read off the earlier sessions when the open request comes. The code does not
  look. `CallbacksAreCleanIff` gives the exact condition over whole runs, which is about identity: no
  session's end or opening is taken for that of another session of the same id. `ReadyIsSafeFromAllIff` and
  `ReopenIsSafeIff` give the exact conditions on the earlier sessions for a ready successor and for a
  new one, `ReadyIsSafeIff` and `ReuseIsSafeIff` those on a single one. `ReadySessionIsClosed` is a run
  in which a ready session is closed for the failure of an earlier one, and `ReusedTooEarly` one in
  which a new session is dropped without a word.
- A session that has left the table lives on, and may be open, while its connect or login callbacks
  hold it, or a command that ran against it last (session_required.hpp:42).
- An open command whose id has an entry that is no longer ready is answered as pending. When a write
  of a ready session fails this lasts until the client is lost (`WriteErrorStrands`), and only then
  (`StrandedIff`).
- A five-octet length announces at least 0xF0 * 2^32 octets. The model waits for them; the program
  first resizes its buffer to that size (api.cpp:193), which may throw.

The octets of a client's stream and of a router's stream, the order of handlers, write errors, read
errors, and what user callbacks answer are arbitrary parameters of the steps.

## Model

| member | source | states |
|---|---|---|
| `LengthCodec.AppendUint` | src/plugins/eztik/routeros/src/sentence.cpp:15-23 | after what the buffer held come the low octets of the value, the most significant first |
| `LengthCodec.EncodeLength` | src/plugins/eztik/routeros/src/sentence.cpp:25-38 | after what the buffer held comes the prefix that `DecodeEncode` reads back |
| `LengthCodec.DecodeEncode` | src/plugins/eztik/routeros/src/api.cpp:108-155 | for every 64-bit length, decoding the emitted prefix, whatever follows it, gives the length below 2^28 and otherwise its low 32 bits under an unmasked 0xF0, and uses exactly the octets emitted |
| `LengthCodec.LengthSurvivesIff` | src/plugins/eztik/routeros/src/api.cpp:127-128 | a length comes back unchanged if and only if it is below 2^28 or its upper half is the unmasked octet itself |
| `LengthCodec.LengthBelow32Bits` | src/plugins/eztik/routeros/src/api.cpp:108-155 | for every length below 2^32 the decoded number is the length below 2^28 and 0xF0 * 2^32 plus the length otherwise |
| `LengthCodec.PrefixFree` | src/plugins/eztik/routeros/src/sentence.cpp:25-38 | no prefix of a length below 2^32 begins the prefix of another one |
| `LengthCodec.EncodingIsMinimal` | src/plugins/eztik/routeros/src/sentence.cpp:25-38 | no accepted spelling of a length below 2^28 is shorter than the one emitted |
| `Spellings.LengthIsSpelled1` | src/plugins/eztik/routeros/src/sentence.cpp:26-27 | for every length below 0x80 the prefix is one octet, the length |
| `Spellings.LengthIsSpelled2` | src/plugins/eztik/routeros/src/sentence.cpp:28-29 | for every length from 0x80 below 0x4000 the prefix is two octets which, as a big-endian number, are the length with the bit 0x8000 |
| `Spellings.LengthIsSpelled3` | src/plugins/eztik/routeros/src/sentence.cpp:30-31 | for every length from 0x4000 below 0x200000 it is three octets, the length with 0xC00000 |
| `Spellings.LengthIsSpelled4` | src/plugins/eztik/routeros/src/sentence.cpp:32-33 | for every length from 0x200000 below 0x10000000 it is four octets, the length with 0xE0000000 |
| `Spellings.LengthIsSpelled5` | src/plugins/eztik/routeros/src/sentence.cpp:34-37 | for every longer one it is the octet 0xF0 and then four octets, the low 32 bits of the length |
| `Spellings.FirstOctetsAreSpelled` | src/plugins/eztik/routeros/src/api.cpp:108-132 | which of its values make the first octet of a prefix a whole length, how many octets follow otherwise and what it counts for; above 0xF0 none does |
| `Spellings.LengthIsRead` | src/plugins/eztik/routeros/src/api.cpp:149-154 | a length is the number that its octets spell, the most significant first, the first one without its marker |
| `Spellings.ReadingIsSpelled` | src/plugins/eztik/routeros/src/api.cpp:103-173 | what the reader makes of the front of any stream, by the value of its first octet: a zero ends a sentence, one above 0xF0 the connection, a prefix of three octets or more fails when clipped, a length of zero always, and otherwise as many octets as the prefix says are a word |
| `SentenceCodec.WriteWord` | src/plugins/eztik/routeros/src/sentence.cpp:40-44 | appends the prefix of the size, then the word |
| `SentenceCodec.Encode` | src/plugins/eztik/routeros/src/sentence.cpp:80-85 | appends the encoding of the sentence, which `RoundTripIff` reads back |
| `Spellings.SentencesAreSpelled` | src/plugins/eztik/routeros/src/sentence.cpp:80-85 | the encoding of a sentence is each word after the prefix of its size, and then a zero octet |
| `SentenceCodec.FirstOctet` | src/plugins/eztik/routeros/src/api.cpp:108-132 | what the first octet of an item adds to a reading of the stream: a sentence, the start of a prefix, a whole prefix, or the end of the reader |
| `SentenceCodec.MoreOctets` | src/plugins/eztik/routeros/src/api.cpp:134-157 | what the rest of a prefix adds to a reading of the stream; a length of zero stops it |
| `SentenceCodec.ClippedOctet` | src/plugins/eztik/routeros/src/api.cpp:134-148 | a continuation read clipped to the one-octet buffer stops the reader for every prefix of three octets or more |
| `SentenceCodec.TextOctets` | src/plugins/eztik/routeros/src/api.cpp:166-173 | the text of a word adds exactly that word to the partial sentence |
| `SentenceCodec.ParseGrows` | src/plugins/eztik/routeros/src/api.cpp:103-173 | sentences already read stay as they are whatever arrives later, and a stopped reader reads nothing more |
| `SentenceCodec.PieceOfWord` | src/plugins/eztik/routeros/src/api.cpp:103-173 | an encoded word, whatever follows it, reads back as itself exactly when its size travels |
| `SentenceCodec.RoundTripIff` | src/plugins/eztik/routeros/src/api.cpp:103-173 | reading the encoding of a list of sentences gives that list, no partial sentence and nothing unread, if and only if every word is non-empty and of a size that travels: below 0x4000 as the reader is written, below 2^28 (or with an upper half of 0xF0) when all continuation octets are delivered |
| `SentenceCodec.EncodingInjective` | src/plugins/eztik/routeros/src/sentence.cpp:80-85 | lists of sentences of non-empty words below 2^32 with equal encodings are equal |
| `Grouping.UngroupGroup` | src/plugins/eztik/routeros/src/api.cpp:111-116 | gathering words into sentences at terminators loses nothing |
| `Grouping.GroupPieces` | src/plugins/eztik/routeros/src/api.cpp:111-116 | the words and terminators of a list of sentences are gathered into exactly that list |
| `Lexing.LexResumes` | src/plugins/eztik/routeros/src/api.cpp:190-204 | reading a stream in two chunks, at any point, comes to the same as reading it at once |
| `Responses.MatchParamIff` | src/plugins/eztik/routeros/src/sentence.cpp:46-63 | the parameter pattern matches exactly the printed forms of parameters with a non-empty key without "=" and a value without NUL, and gives back that key and value, "=" in the value included |
| `Responses.MatchPrintedTag` | src/plugins/eztik/routeros/src/sentence.cpp:65-74 | a printed tag word is recognised as a tag and not as a parameter, and its digits read back as the tag |
| `Responses.ReadPrinted` | src/plugins/eztik/routeros/include/eztik/routeros/sentence.hpp:63-67 | decimal printing of any number consists of digits and reads back as the number |
| `Responses.ParseResponse` | src/plugins/eztik/routeros/src/sentence.cpp:91-123 | the loop over the words comes to the word-by-word reading that `PrintReadBack` is about, thrown errors and the failed assertion of a second tag included |
| `Responses.FirstWinsMeaning` | src/plugins/eztik/routeros/src/sentence.cpp:115-116 | the parameter map has exactly the keys given, each with the first of its values |
| `Responses.PrintReadBack` | src/plugins/eztik/routeros/src/sentence.cpp:91-123 | a known type word, printed parameters and a printed tag anywhere among them read back as that type, that tag and the first value of each key; a tag beyond 32 bits throws |
| `Responses.KindOfIff` | src/plugins/eztik/routeros/src/sentence.cpp:96-108 | a type word is known if and only if it is one of the three, each for its own type |
| `Responses.OtherKindsThrow` | src/plugins/eztik/routeros/src/sentence.cpp:96-108 | a response with any other first word, a fatal one among them, throws whatever else it says |
| `Spellings.TagWordsAreSpelled` | src/plugins/eztik/routeros/src/sentence.cpp:47-74 | the tag pattern in octets: matched exactly by ".tag=" and at least one digit from 0 to 9, and the digits are given back |
| `Responses.OtherWordsDoNotMatter` | src/plugins/eztik/routeros/src/sentence.cpp:112-122 | a word that is neither a parameter nor a tag makes no difference, wherever it stands |
| `Responses.SecondTagFails` | src/plugins/eztik/routeros/src/sentence.cpp:117-118 | a second tag word fails the assertion, whatever follows it |
| `Spellings.WordsAreSpelled` | src/plugins/eztik/routeros/src/sentence.cpp:46-106 | the type words, the prefix of a tag word, the marks of a parameter word and the name of the challenge, as characters |
| `Spellings.NumbersAreSpelled` | src/plugins/eztik/routeros/include/eztik/routeros/sentence.hpp:63-67 | numbers are printed with their last digit last |
| `Spellings.DigitsAreSpelled` | src/plugins/eztik/routeros/include/eztik/routeros/sentence.hpp:63-67 | the ten digits, as characters |
| `Spellings.ParametersAreSpelled` | src/plugins/eztik/routeros/src/sentence.cpp:46-63 | the parameter pattern in octets: matched exactly by an equals sign, a non-empty key without one, another one, and a value without NUL |
| `Spellings.NumbersAreRead` | src/plugins/eztik/routeros/src/sentence.cpp:65-74 | the digits are those from 0 to 9, and any string of them, leading zeros or not, is read in base ten |
| `Hex.DigitValueIff` | src/plugins/eztik/routeros/src/util.cpp:15-27 | a digit has a value, below 16, if and only if it is a hexadecimal digit of either case |
| `Spellings.HexDigitsAreSpelled` | src/plugins/eztik/routeros/src/util.cpp:15-27 | the value of each digit of either case, and that nothing else has one |
| `Hex.DecodeHexString` | src/plugins/eztik/routeros/src/util.cpp:29-40 | fills a buffer of any size with the decoded pairs; too short a string leaves it alone; a bad digit throws at the first pair that has one, after the pairs before it have been written |
| `Hex.EncodeHexString` | src/plugins/eztik/routeros/src/util.cpp:42-55 | yields the encoding that `DecodeOfEncode` decodes |
| `Hex.DecodeOfEncode` | src/plugins/eztik/routeros/src/util.cpp:29-55 | decoding the encoding of any buffer returns the buffer |
| `Hex.EncodeOfDecode` | src/plugins/eztik/routeros/src/util.cpp:29-55 | encoding what a string of hexadecimal digits decodes to returns the string in lower case |
| `Spellings.HexIsSpelled` | src/plugins/eztik/routeros/src/util.cpp:51-54 | each octet is written in its place as the character of its upper half and then that of its lower half |
| `Spellings.HexCharsAreSpelled` | src/plugins/eztik/routeros/src/util.cpp:45-47 | the sixteen characters, by their codes |
| `Tags.TagIsRemainder` | src/plugins/eztik/routeros/include/eztik/routeros/api.hpp:74-76 | the tag of the nth request is n modulo 2^32 |
| `Spellings.TagsAreSpelled` | src/plugins/eztik/routeros/include/eztik/routeros/api.hpp:74-76 | and 2^32 is the width of a std::uint32_t |
| `Tags.NextTag` | src/plugins/eztik/routeros/include/eztik/routeros/api.hpp:74-76 | the counter after a wrap-around increment is the tag of the next request |
| `Tags.SameTagFarApart` | src/plugins/eztik/routeros/include/eztik/routeros/api.hpp:74-76 | two requests with one tag are only possible after 2^32 tags |
| `Requests.PlacedApply` | src/plugins/eztik/routeros/src/api.cpp:251-285 | every effect of a handler keeps the queue in order of send, written requests in flight or registered under their own tag, and no request in two places |
| `Requests.TracedApply` | src/plugins/eztik/routeros/src/api.cpp:217-285 | every effect of a handler keeps each callback's calls in step with the place of its request; a lost request is never called |
| `Requests.TracesAreLegal` | src/plugins/eztik/routeros/src/api.cpp:217-285 | calls in step with places are one error alone, or true answers and at most one other call |
| `Requests.OccupiedMeansWrapped` | src/plugins/eztik/routeros/src/api.cpp:277-278 | a tag can be occupied when its callback is to be entered only after 2^32 tags have been handed out |
| `Requests.LoginApply` | src/plugins/eztik/routeros/src/api.cpp:64-101 | every effect keeps a login at one live request at most, and at most one call of its handler |
| `Multiplexer.SecondStage` | src/plugins/eztik/routeros/src/api.cpp:80-84 | when the first stage has been answered no request of the login is live and its handler has not been called |
| `Multiplexer.NextInv` | src/plugins/eztik/routeros/src/api.cpp:44-285 | every handler, interleaved anyhow, keeps the whole invariant of places, call traces, logins and link |
| `MultiplexerRuns.CallbackLifetime` | src/plugins/eztik/routeros/src/api.cpp:217-285 | in every run, a callback is called with one error and nothing else, or with replies it answers true and then at most once more: answering false, or throwing |
| `MultiplexerRuns.AfterEnd` | src/plugins/eztik/routeros/src/api.cpp:44-52 | after a close or error, over every continuation: the connection stays closed, nothing is written, no error is reported, and callbacks hear of nothing but the missing connection |
| `MultiplexerRuns.RespondCalls` | src/plugins/eztik/routeros/src/api.cpp:217-249 | a sentence calls the callback of its addressee once and no other callback at all |
| `MultiplexerRuns.AddresseeHasTag` | src/plugins/eztik/routeros/src/api.cpp:230-244 | the addressee of a response is the registered request whose tag the response carries |
| `MultiplexerRuns.StrayEndsConnection` | src/plugins/eztik/routeros/src/api.cpp:221-240 | a sentence without addressee ends the connection and leaves all entries alone, unless it is a lone valid word |
| `MultiplexerRuns.OwnTagIsAnswered` | src/plugins/eztik/routeros/include/eztik/routeros/sentence.hpp:63-67 | a reply that repeats the printed tag word of a registered request, wherever it stands among printed parameters, is for that request |
| `MultiplexerRuns.PendingTagsDiffer` | src/plugins/eztik/routeros/include/eztik/routeros/api.hpp:74-91 | in every run in which at most 2^32 tags are handed out, made, posted, in-flight and registered requests have pairwise different tags below the counter |
| `MultiplexerRuns.OnePlaceEach` | src/plugins/eztik/routeros/src/api.cpp:251-285 | whatever run has led to a connection, each sent request is in exactly one place, posted, in flight, registered, failed or finished, or it is lost and in none; nothing is lost while at most 2^32 tags have been handed out |
| `MultiplexerRuns.KeptIffTagFree` | src/plugins/eztik/routeros/src/api.cpp:277-278 | a written request is in one place after its write has completed if and only if its tag was free |
| `MultiplexerRuns.OnePlaceIff` | src/plugins/eztik/routeros/src/api.cpp:251-285 | in every run each sent request is in exactly one place if and only if its write never completed on an occupied tag, and in none otherwise |
| `MultiplexerRuns.WireOrder` | src/plugins/eztik/routeros/src/api.cpp:54-62 | in every run requests leave the queue in the order of send, and those written are a block of consecutive sends in that order, each once |
| `MultiplexerRuns.LoginHistory` | src/plugins/eztik/routeros/src/api.cpp:64-101 | in every run, being logged in means that a reply with a 32-octet "ret" answered a first stage and later a normal reply its second stage; a login handler hears of success only then |
| `MultiplexerRuns.LoginHandlerOnce` | src/plugins/eztik/routeros/src/api.cpp:64-101 | in every run the handler of a login is called at most once |
| `MultiplexerRuns.WrappedTagLosesRequest` | src/plugins/eztik/routeros/src/api.cpp:277-278 | a run with 2^32 + 1 tags whose last write completes on an occupied tag, so that `OnePlaceIff` finds the request in no place |
| `MultiplexerSteps.SortedReaches` | src/plugins/eztik/routeros/src/api.cpp:217-240 | what is dispatched is a valid response of two words or more, as it reads, with the tag of the registered request |
| `MultiplexerSteps.UserAnswers` | src/plugins/eztik/routeros/src/api.cpp:242-244 | a reply calls the callback of its request: the call is recorded with what the callback answers, the entry goes exactly if that is false, and nothing else changes |
| `MultiplexerSteps.UserThrows` | src/plugins/eztik/routeros/src/api.cpp:246-248 | a callback that throws ends the connection with the one error for fatal responses; its entry stays |
| `MultiplexerSteps.FirstStageFails` | src/plugins/eztik/routeros/src/api.cpp:74-78 | a reply without a normal 32-octet challenge ends the login with the error for invalid responses, and drops the entry |
| `MultiplexerSteps.FirstStageThrows` | src/plugins/eztik/routeros/src/util.cpp:15-40 | a challenge that is not hexadecimal ends the connection, with a tag used up |
| `MultiplexerSteps.FirstStageGoesOn` | src/plugins/eztik/routeros/src/api.cpp:80-99 | a good challenge posts the second stage with a fresh tag, and drops the entry; the login's handler is not called |
| `MultiplexerSteps.SecondStageEnds` | src/plugins/eztik/routeros/src/api.cpp:84-96 | a normal reply logs in and tells the login's handler so; any other tells it of bad credentials; the entry goes |
| `MultiplexerSteps.InvalidEnds` | src/plugins/eztik/routeros/src/api.cpp:221-224 | a sentence that does not start with an exclamation mark ends the connection with its own error |
| `MultiplexerSteps.EmptyIsIgnored` | src/plugins/eztik/routeros/src/api.cpp:226-228 | a lone word that starts with one changes nothing |
| `MultiplexerSteps.FatalEnds` | src/plugins/eztik/routeros/src/api.cpp:246-248 | a fatal response, or one of an unknown type, whatever its tag, calls no callback and ends the connection with the error for fatal ones |
| `MultiplexerSteps.StrayEnds` | src/plugins/eztik/routeros/src/api.cpp:232-240 | a response without a tag, and one with a tag that is not registered, end the connection with different errors |
| `MultiplexerSteps.UnreadableEnds` | src/plugins/eztik/routeros/src/api.cpp:230-248 | a response whose reading throws ends the connection with the error for fatal ones, and one whose reading fails an assertion aborts |
| `MultiplexerSteps.MakingMakes` | src/plugins/eztik/routeros/include/eztik/routeros/api.hpp:78-91 | making a request takes a fresh tag and calls nobody |
| `MultiplexerSteps.SendPosts` | src/plugins/eztik/routeros/src/api.cpp:54-62 | sending appends the request to those posted |
| `MultiplexerSteps.LoginPosts` | src/plugins/eztik/routeros/src/api.cpp:64-70 | a login appends its first stage, with a fresh tag, to those posted |
| `MultiplexerSteps.LinkSteps` | src/plugins/eztik/routeros/src/api.cpp:33-52 | connecting, closing and a read error change the link, and the last reports the error once |
| `MultiplexerSteps.PostedIsSent` | src/plugins/eztik/routeros/src/api.cpp:251-267 | a posted request is written and in flight if the connection is open; otherwise its callback, and the handler of its login, are told that it is not |
| `MultiplexerSteps.WriteRegisters` | src/plugins/eztik/routeros/src/api.cpp:276-279 | a completed write registers the callback under the tag of its request, if the tag is free |
| `MultiplexerSteps.WriteFails` | src/plugins/eztik/routeros/src/api.cpp:273-275 | a failed write calls the callback with the error and closes the connection; nothing is reported |
| `MultiplexerSteps.WriteTooLate` | src/plugins/eztik/routeros/src/api.cpp:268-271 | a write that comes back to a closed connection calls the callback with the missing connection, whatever came of it |
| `CallTraces.NextCalls` | src/plugins/eztik/routeros/src/api.cpp:217-285 | what one step adds to the calls of any request's callback: its own answer to the reply that reaches it, or one error, or nothing |
| `CallTraces.CallsAreAnswers` | src/plugins/eztik/routeros/src/api.cpp:217-285 | in every run the calls of each callback are, in order, exactly its own answers to the replies that reached it and the error of its write |
| `Reception.AbsorbIsRun` | src/plugins/eztik/routeros/src/api.cpp:103-173 | handling all that a stream of octets reads as is a run of the multiplexer, so its theorems hold of it |
| `Reception.DeafAfterEnd` | src/plugins/eztik/routeros/src/api.cpp:103-116 | a connection that has ended ignores every later sentence of the stream |
| `Reception.EndIsSpelled` | src/plugins/eztik/routeros/src/api.cpp:129-132 | the end of the reader does nothing to a connection that has ended; otherwise a bad octet closes it with one error, and a failed assertion aborts |
| `Api.Api.constructor` | src/plugins/eztik/routeros/include/eztik/routeros/api.hpp:105-111 | a new connection is closed, not logged in and has handed out no tag |
| `Api.Api.AcquireUniqueTag` | src/plugins/eztik/routeros/include/eztik/routeros/api.hpp:74-76 | returns the tag of the next serial, and the counter stays the 32-bit counter of tags handed out |
| `Api.Api.MakeRequest` | src/plugins/eztik/routeros/include/eztik/routeros/api.hpp:78-91 | makes a request with the next tag; as the multiplexer's step |
| `Api.Api.Send` | src/plugins/eztik/routeros/src/api.cpp:54-62 | posts a made request; as the multiplexer's step |
| `Api.Api.Login` | src/plugins/eztik/routeros/src/api.cpp:64-70 | posts the first stage of a login; as the multiplexer's step |
| `Api.Api.RunPosted` | src/plugins/eztik/routeros/src/api.cpp:56-61 | the posted handler writes the encoding of the oldest posted request, or refuses it; as the multiplexer's step |
| `Api.Api.SendNext` | src/plugins/eztik/routeros/src/api.cpp:251-267 | the octets of the head of the queue are written if the connection is open, and its callback is told of the missing connection otherwise |
| `Api.Api.OnSent` | src/plugins/eztik/routeros/src/api.cpp:265-284 | the completion of a write registers the callback, or fails it and closes on an error; as the multiplexer's step |
| `Api.Api.CloseByOwner` | src/plugins/eztik/services/include/eztik/services/sessions.hpp:40-44 | the session's destructor closes an open connection; as the multiplexer's step |
| `Api.Api.Close` | src/plugins/eztik/routeros/src/api.cpp:44-52 | state and socket are both closed afterwards |
| `Api.Api.OnError` | src/plugins/eztik/routeros/src/api.cpp:175-181 | closes the connection if it is open and then reports the error once |
| `Api.Api.CallCallback` | src/plugins/eztik/routeros/src/api.cpp:242-244 | the callback's whole effect: of a user's callback and of the two login stages |
| `Api.Api.CallFirstStage` | src/plugins/eztik/routeros/src/api.cpp:69-100 | a reply to the first login stage ends the login, throws at a challenge that is not hexadecimal, or posts the second stage |
| `Api.Api.HandleResponse` | src/plugins/eztik/routeros/src/api.cpp:217-249 | the object does to itself what the multiplexer does for the sentence, with all error branches |
| `Api.Api.OnConnected` | src/plugins/eztik/routeros/src/api.cpp:33-41 | opens the connection and asks for the first length octet; as the multiplexer's step |
| `Api.Api.ReadNext` | src/plugins/eztik/routeros/src/api.cpp:190-204 | one more read is outstanding, and the buffer has its size; that there is no other is for the callers to show |
| `Api.Api.ReadNextWord` | src/plugins/eztik/routeros/src/api.cpp:206-215 | one more read is outstanding, of one octet, and a length is read next, unless the connection is closed |
| `Api.Api.OnReadingLength` | src/plugins/eztik/routeros/src/api.cpp:103-164 | the octet is absorbed: a zero delivers exactly the partial sentence to the multiplexer, a bad octet ends the connection with one error, any other leaves the read that the stream calls for |
| `Api.Api.AskMore` | src/plugins/eztik/routeros/src/api.cpp:134-136 | one more read is outstanding, for the rest of the prefix; if there was none, the reader is between handlers |
| `Api.Api.OnTerminator` | src/plugins/eztik/routeros/src/api.cpp:111-116 | the partial sentence is delivered and cleared; if that closed the connection, the state is idle again but the connection is not open |
| `Api.Api.WordSize` | src/plugins/eztik/routeros/src/api.cpp:149-154 | the loop computes the length that a whole-buffer reading finds |
| `Api.Api.OnMoreLength` | src/plugins/eztik/routeros/src/api.cpp:137-158 | the assertion that all octets came fails exactly when the read was clipped; otherwise the read asked for is as long as the word |
| `Api.Api.OnReadingWord` | src/plugins/eztik/routeros/src/api.cpp:166-173 | the word joins the partial sentence, and a length is read next |
| `Api.Api.HandleRead` | src/plugins/eztik/routeros/src/api_read_state_machine.cpp:10-30 | a read that has come back goes on with the stream or delivers one sentence, and leaves exactly one read outstanding if the connection is open; the exception for an invalid state is unreachable, and a read of no octets fails the assertion |
| `Api.Api.CompleteRead` | src/plugins/eztik/routeros/src/api.cpp:195-203 | the one read outstanding comes back, and with no other outstanding its handler runs |
| `Api.Api.ReadTooLate` | src/plugins/eztik/routeros/src/api.cpp:198-200 | a read that comes back when the connection is closed changes nothing |
| `Api.Api.FailRead` | src/plugins/eztik/routeros/src/api.cpp:143-146 | a failed read closes the connection and reports the error; as the multiplexer's step |
| `Api.Api.Receive` | src/plugins/eztik/routeros/src/api.cpp:103-215 | for every chunk: the connection becomes what handling, in order, every sentence of a whole-buffer reading of all octets so far makes of it; while open, the sentences delivered and the partial one are exactly those of that reading, and of the reads asked for and not come back there is exactly one, the one that the state and the stream call for |
| `Api.Api.ReceivedSentences` | src/plugins/eztik/routeros/src/api.cpp:103-173 | a connection that has read the encoding of sentences whose words travel has handled exactly those sentences |
| `Api.Api.LivesAsRuns` | src/plugins/eztik/routeros/src/api.cpp:44-285 | whatever methods have been called on a connection object, in whatever order, the theorems on callback lifetimes, login handlers, places and wire order hold of it |
| `Api.Api.PeerReads` | src/plugins/eztik/routeros/src/api.cpp:251-267 | a reader of the same format finds in all that has been written exactly the sentences of a block of consecutive sends, in the order of send, when their words travel |
| `Api.Wishes.IsPrinted` | src/plugins/eztik/routeros/include/eztik/routeros/sentence.hpp:62-76 | a request's sentence is its command, its tag word and, for each parameter in order, an equals sign, the key, an equals sign and the value, which the pattern reads back as that parameter if it is printable |
| `Api.Api.PeerReadsRequest` | src/plugins/eztik/routeros/include/eztik/routeros/sentence.hpp:62-76 | the kth sentence that the reader finds has, word for word, the command, the tag and all the parameters of the kth request written, and no others; printable parameters are read back as they were given |
| `Api.Api.AnswerReachesRequest` | src/plugins/eztik/routeros/src/api.cpp:230-244 | an answer that copies the tag word of the kth sentence read, among any printed parameters, calls the callback of the kth request written, once, and no other |
| `SessionLink.ReportedMeansClosed` | src/plugins/eztik/routeros/src/api.cpp:175-181 | a reported error finds the connection closed |
| `SessionLink.SuccessMeansReady` | src/plugins/eztik/routeros/src/api.cpp:90-93 | a login's success is told when the connection is open and logged in |
| `SessionLink.LoggedInBySuccess` | src/plugins/eztik/routeros/src/api.cpp:90-93 | a connection becomes logged in only by a step that tells a login of its success |
| `SessionLink.OnlyLastConcerns` | src/plugins/eztik/routeros/src/api.cpp:217-285 | one step of a connection tells its session at most one thing, last |
| `SessionLink.MuteNext` | src/plugins/eztik/routeros/src/api.cpp:251-285 | a closed connection with no login to send or write never tells its session anything again |
| `SessionLink.EndIsReportedUnless` | src/plugins/eztik/routeros/src/api.cpp:175-181 | a step that ends an open connection reports an error exactly when it neither completes a write nor aborts |
| `Sessions.Next` | src/plugins/eztik/services/src/sessions_service.cpp:27-109 | after every step each key of the table is the id of its session |
| `SessionRuns.NextInv` | src/plugins/eztik/services/src/sessions_service.cpp:27-109 | every step of connect handlers, connections, commands, client loss and session destruction keeps the counts of callbacks and what they were told |
| `SessionSteps.LossCloses` | src/plugins/eztik/services/src/sessions_service.cpp:32-36 | the loss of a client whose session is ready calls its close callback and takes the entry away; without a ready session only the entry goes, and without an entry nothing happens |
| `SessionSteps.OpenIsOneOfThree` | src/plugins/eztik/commands/src/api_open_command.cpp:17-29 | an open request finds a session open and logged in, or one that is not, or none, and only then makes one |
| `SessionSteps.CannotConnect` | src/plugins/eztik/services/src/sessions_service.cpp:58-64 | a session that cannot connect takes the entry of its id away, closing what is ready there, and its open callback is told the error; if there is no entry nobody is told |
| `SessionSteps.Connects` | src/plugins/eztik/services/src/sessions_service.cpp:58-69 | a session that connects posts its login as its first request, if its id still has an entry |
| `SessionSteps.ConnectionMoves` | src/plugins/eztik/services/src/sessions_service.cpp:69-108 | a step of a connection moves only that connection; an error it reports, and a failed login, take the entry of its id away, closing what is ready there; the open callback is told of a failed login always and of a successful one if there is an entry |
| `SessionSteps.CommandIsExecuted` | src/plugins/eztik/commands/src/session_required_command.cpp:10-21 | a command makes a request of the ready session of its client and of no other, and without one changes nothing |
| `SessionSteps.DroppingCloses` | src/plugins/eztik/services/include/eztik/services/sessions.hpp:40-44 | a session that is dropped closes its open connection and does nothing else |
| `SessionSteps.LossClosesOnce` | src/plugins/eztik/services/src/sessions_service.cpp:32-36 | in every run, when a client is lost whose session is ready, the close callback of that session has not been called before, is called, and is never called again |
| `SessionTheorems.CallbacksOnce` | src/plugins/eztik/services/src/sessions_service.cpp:40-77 | in every run each open callback and each close callback is called at most once, the latter only after the former was told of success |
| `SessionTheorems.CommandsNeedLogin` | src/plugins/eztik/commands/src/session_required_command.cpp:10-21 | in every run a command executes exactly when its id has a ready session, whose own login has gone through both stages |
| `SessionTheorems.GoneForGood` | src/plugins/eztik/services/src/sessions_service.cpp:27-38 | after its disconnection hook a client that opens nothing more has no session in any continuation of the run; that it opens nothing more is `LostClientsStayAway` |
| `Clients.LostClientsStayAway` | src/app/src/server.cpp:28-56 | when a client's open commands come from the requests that its connection delivers, and the disconnection hook from its error: in every interleaving with all that happens to sessions, after the hook the client asks for nothing and has no session |
| `Clients.LossIsLastEffect` | src/app/src/server.cpp:28-38 | of all that a connection does to the sessions, the disconnection is the last; that there is one if an error was reported is `LossIsHeard` |
| `Clients.LossIsHeard` | src/app/src/server.cpp:28-38 | whatever else happens to the sessions, the disconnection hook runs for a client if and only if its connection has reported an error |
| `Clients.EffectsAreOneOfThree` | src/plugins/eztik/commands/src/api_open_command.cpp:15-29 | a request opens a session, executes a command that needs one, or leaves sessions alone; a later reply leaves them alone; an error disconnects |
| `Clients.LostClientIsClosedOnce` | src/plugins/eztik/services/src/sessions_service.cpp:32-36 | in every interleaving, once a client's connection has reported its error the hook has run, and a session that was ready then has had its close callback called exactly once |
| `SessionTheorems.CallbacksAreClean` | src/plugins/eztik/services/src/sessions_service.cpp:90-109 | in every run that opens an id again only when its earlier sessions are over: success is told only of the table's entry while it is ready, and close callbacks are called only for lost clients, never for errors |
| `SessionExactness.CleanNextIff` | src/plugins/eztik/services/src/sessions_service.cpp:90-109 | one step keeps callbacks as they should be if and only if it is not misdirected: no session tells of its end while its id stands for another, ready one, or of its opening while its id stands for another |
| `SessionExactness.CallbacksAreCleanIff` | src/plugins/eztik/services/src/sessions_service.cpp:90-109 | every run has told success only of the table's ready entry, and has called close callbacks only for lost clients, if and only if no step of it was misdirected |
| `SessionExactness.ReadyIsSafeIff` | src/plugins/eztik/services/src/sessions_service.cpp:105-108 | no course of one earlier session's own handlers has the close callback of the ready session of its id called for anything but the loss of the client, if and only if the earlier one is over |
| `SessionExactness.ReadyIsSafeFromAllIff` | src/plugins/eztik/services/src/sessions_service.cpp:105-108 | no interleaving of the handlers of earlier sessions does so, if and only if all of them are over |
| `SessionMishap.ReadySessionIsClosed` | src/plugins/eztik/services/src/sessions_service.cpp:75-77 | a run in which the client of a session announced as open and ready is told that it is closed, because an earlier session of the client cannot connect |
| `SessionExactness.CallingBackEarly` | src/plugins/eztik/routeros/src/api.cpp:273-275 | a failed write calls back before the connection is closed; what the service does then is what it does after the step |
| `SessionTheorems.ReuseIsSafeIff` | src/plugins/eztik/services/src/sessions_service.cpp:75-77 | when an id is opened again, no course of one earlier session's own handlers takes the new session out of the table, if and only if the earlier one was not connecting, not open and had no login to send or write |
| `SessionExactness.ReopenIsSafeIff` | src/plugins/eztik/services/src/sessions_service.cpp:75-77 | when an id is opened again, no interleaving of the handlers of its earlier sessions takes the new one out of the table, if and only if all of them are over |
| `SessionTheorems.ReusedTooEarly` | src/plugins/eztik/services/src/sessions_service.cpp:105-108 | a run of six steps in which the write completion of a failed session takes its successor out of the table |
| `SessionTheorems.StuckUntilLost` | src/plugins/eztik/commands/src/api_open_command.cpp:17-29 | an entry whose sessions are all over stays, refuses every open as pending and executes nothing until its client is lost |
| `SessionExactness.StuckIff` | src/plugins/eztik/services/src/sessions_service.cpp:90-109 | an entry stays until its client is lost, however things go on, if and only if every session of its id is over |
| `SessionExactness.EntryLeftIff` | src/plugins/eztik/routeros/src/api.cpp:273-275 | when the connection of a ready entry ends, the entry stays if and only if a write failed or the program has aborted |
| `SessionExactness.StrandedIff` | src/plugins/eztik/routeros/src/api.cpp:273-275 | and then, after a careful run, it stays until its client is lost, however things go on, if and only if a write failed or the program has aborted |
| `SessionTheorems.WriteErrorStrands` | src/plugins/eztik/routeros/src/api.cpp:273-275 | a write error on a ready session leaves such an entry behind, because the connection closes without telling its session |
| `SessionsService.SessionsService.Create` | src/plugins/eztik/services/src/sessions_service.cpp:40-71 | the table gains exactly the new session under the id |
| `SessionsService.SessionsService.Close` | src/plugins/eztik/services/src/sessions_service.cpp:90-103 | the entry goes, and its close callback is called exactly if it is ready |
| `SessionsService.SessionsService.OnClose` | src/plugins/eztik/services/src/session.cpp:10-19 | an error closes whatever the id of the session stands for |
| `SessionsService.SessionsService.OnConnected` | src/plugins/eztik/services/src/sessions_service.cpp:52-87 | the connect handler finds the session not ready, as it asserts, and has the effect of the step that the theorems are about |
| `SessionsService.SessionsService.OnLogin` | src/plugins/eztik/services/src/sessions_service.cpp:69-85 | the login handler's assertions about readiness hold, and it has the effect that the theorems are about |
| `SessionsService.SessionsService.TellsTruth` | src/plugins/eztik/services/src/sessions_service.cpp:69-85 | when a login is told anything its session was not ready before, and it is ready afterwards exactly if it is told of success |
| `SessionsService.SessionsService.OnHandler` | src/plugins/eztik/services/src/session.cpp:10-19 | a handler of a connection runs and all it tells the session is acted on; `CallingBackEarly` shows that acting inside the handler comes to the same |
| `SessionsService.SessionsService.OpenCommand` | src/plugins/eztik/commands/src/api_open_command.cpp:15-29 | a ready session, a pending one or a new one: exactly one of the three |
| `SessionsService.SessionsService.SessionRequired` | src/plugins/eztik/commands/src/session_required_command.cpp:10-21 | executes exactly when the session is ready |
| `SessionsService.SessionsService.OnDisconnected` | src/plugins/eztik/services/src/sessions_service.cpp:27-38 | the hook leaves no entry for the id |
| `SessionsService.SessionsService.LivesAsRuns` | src/plugins/eztik/services/src/sessions_service.cpp:27-109 | whatever handlers have run on the service object, callbacks are called at most once and keys are ids of their sessions |
| `Frames.DecodeHeader` | src/net/src/message.cpp:13-27 | the four fields are the big-endian words of the first 16 octets |
| `Frames.EncodeHeader` | src/net/src/message.cpp:29-42 | the buffer holds the octets that decode to the header |
| `Frames.HeaderOfOctets` | src/net/src/message.cpp:13-42 | decoding an encoded header returns it, for all four 32-bit fields |
| `Frames.OctetsOfHeader` | src/net/src/message.cpp:13-42 | encoding a decoded header returns its 16 octets |
| `Spellings.HeadersAreSpelled` | src/net/src/message.cpp:13-27 | which four of the 16 octets make up each field, and how each octet weighs |
| `Frames.FirstMessage` | src/net/include/net/message.hpp:74-85 | a message written with its size in step reads back, whatever follows, exactly when its size is in step and its body has 1 to 0x4000 octets |
| `Frames.MessagesRoundTripIff` | src/net/src/tcp_client.cpp:48-78 | reading the octets of a list of messages gives that list and nothing unread if and only if all are so framed |
| `Spellings.MessagesAreSpelled` | src/net/src/tcp_client.cpp:48-78 | a message is a header of 16 octets and the octets it announces; more than 0x4000 end the reader, and none make the header the body |
| `TcpClient.HeaderArrives` | src/net/src/tcp_client.cpp:48-68 | what 16 header octets add to a reading of the stream: the end of the reader, a message whose body is the header, or an awaited body |
| `TcpClient.BodyArrives` | src/net/src/tcp_client.cpp:70-78 | what the announced number of octets adds: exactly one message |
| `TcpClient.TcpClient.Start` | src/net/src/tcp_client.cpp:34-39 | an idle client asks for a header |
| `TcpClient.TcpClient.OnError` | src/net/src/tcp_client.cpp:80-83 | the first and only error is reported, and the connection is closed |
| `TcpClient.TcpClient.OnReadingHeader` | src/net/src/tcp_client.cpp:48-68 | a header too large ends the connection with one error; a body of size zero delivers the header octets as body; otherwise the body is asked for |
| `TcpClient.TcpClient.OnReadingBody` | src/net/src/tcp_client.cpp:70-78 | one request more is delivered, and a header is asked for |
| `TcpClient.TcpClient.HandleRead` | src/net/src/read_state_machine.cpp:9-37 | a failed or empty read reports its error or eof once and closes; any other is absorbed |
| `TcpClient.TcpClient.CompleteRead` | src/net/src/tcp_client.cpp:24-31 | the one read outstanding comes back; once an error has been reported it delivers nothing, reports nothing and answers nothing |
| `TcpClient.TcpClient.Receive` | src/net/src/tcp_client.cpp:17-78 | for every chunk the requests delivered are the messages of a whole-buffer reading of all octets so far, and while open exactly one read is outstanding, of the size that the state calls for; the connection is closed, with exactly one error, if and only if a header announced too large a body |
| `TcpClient.RepliesGrow` | src/app/src/server.cpp:40-56 | what happens later on a connection only adds replies after those to what happened before |
| `TcpClient.RecordedEndsWithLoss` | src/net/src/tcp_client.cpp:80-83 | in the history of a connection at most one error is reported, and no request is delivered after it |
| `TcpClient.RepliesAreAnswers` | src/app/src/server.cpp:40-56 | when no command replies later, the replies are the answers to the requests, in order |
| `TcpClient.TcpClient.OnRequest` | src/app/src/server.cpp:40-56 | the request is answered by its command, whatever that posts, or with the code for an unknown command, after all earlier replies |
| `ServerReplies.UnknownIsAnswered` | src/app/src/server.cpp:51-55 | a request for a command that is not in the table gets one reply: code 1, no flags, its own tag, no body |
| `ServerReplies.KnownIsAnswered` | src/app/src/server.cpp:47-49 | any other gets what its command replies |
| `ServerReplies.PostedIsQueued` | src/net/src/tcp_client.cpp:123-143 | a reply is posted after all earlier ones, and nothing is written yet |
| `ServerReplies.SentIsWritten` | src/net/src/tcp_client.cpp:85-102 | the oldest posted reply goes out as its header, with the size of the body, and the body |
| `ServerReplies.RefusedIsTold` | src/net/src/tcp_client.cpp:91-94 | the send handler of a reply that finds the connection closed is told so, and nothing is written |
| `ServerReplies.CompletedIsTold` | src/net/src/tcp_client.cpp:102-110 | the send handler of a write is called with its result |
| `ServerReplies.UnknownEndToEnd` | src/app/src/server.cpp:40-56 | a client that asks only for unknown commands, its octets arriving in whatever pieces: the octets written are, 16 for each reply, the headers with code 1 and the tags of its first requests in order, and once all are written, of all its requests |
| `TcpClient.TcpClient.RespondLater` | src/net/src/tcp_client.cpp:123-143 | a command may reply at any later time, also when the connection has been closed; the reply comes after all earlier ones |
| `TcpClient.TcpClient.RunPosted` | src/net/src/tcp_client.cpp:123-129 | the oldest posted reply is written or refused |
| `TcpClient.TcpClient.SendNext` | src/net/src/tcp_client.cpp:85-102 | the reply's header is encoded when it is sent, and body and header go out together |
| `TcpClient.TcpClient.OnSent` | src/net/src/tcp_client.cpp:102-120 | the send handler is called once, and an error closes the connection after one report |
| `TcpClient.TcpClient.RepliesInOrder` | src/net/src/tcp_client.cpp:85-129 | the octets written are at all times the encoding of a first part of all replies, to requests and later ones, in order, for any table of commands |
| `TcpClient.EchoesReadBack` | src/plugins/core/src/echo_command.cpp:9-11 | the octets of the answers to echo requests read as replies of code 0 and flags 0 with the same tags and bodies in order |
| `TcpClient.EchoEndToEnd` | src/net/src/tcp_client.cpp:48-143 | a client that has read the octets of echo requests, in whatever pieces, and whose replies are all written, with no later ones, has written octets that the same framing reads as their echoes |
| `ServerReplies.EchoIsSpelled` | src/plugins/core/src/echo_command.cpp:9-11 | an echo reply has code 0, no flags, and the tag and the body of the request |
| `Repository.StreamLoad.OnCall` | src/plugins/eztik/data/include/eztik/data/api_repository.hpp:41-55 | the stream's handler and the wish for more, as the theorems take them |
| `Repository.BatchLoad.OnCall` | src/plugins/eztik/data/include/eztik/data/api_repository.hpp:64-79 | what is collected, the batch's handler and the wish for more, as the theorems take them |
| `Repository.LoadsAgree` | src/plugins/eztik/data/include/eztik/data/api_repository.hpp:35-80 | called alike, the batch collects exactly the models that the stream hands on, in order, and hands them on, or the error, once, when the stream ends |
| `Repository.ListIsLoaded` | src/plugins/eztik/data/include/eztik/data/api_repository.hpp:35-80 | for replies that make models and then an empty one, the stream hands on each model and then the end, and the batch the list of them all |
| `Repository.LoadsAgreeOnOffers` | src/plugins/eztik/data/include/eztik/data/api_repository.hpp:35-80 | for every sequence of replies both take the same ones, up to the first that ends the list, and agree |
| `Repository.LoadsAgreeOnRuns` | src/plugins/eztik/routeros/src/api.cpp:242-244 | in every run of a connection no call reaches a load after the one that ended it, and the two loads agree |
| `CallTraces.LoadsAgreeOnAnswers` | src/plugins/eztik/routeros/src/api.cpp:242-244 | the same of every run in which the callback answers as the load asks, on the replies that reach it |

## Left out

- Sockets, the accept loop, scheduling and partial sends: the program ignores the count of octets sent, so a write is a whole message, writes go out in the order they are started, and posted handlers run in the order they are posted.
- Send: a made request is sent at most once; the code would let a caller send the same request object again.
- That requests are answered in the end: closing leaves registered callbacks uncalled, and a callback that throws closes the connection instead.
- MD5 in `hash_password`: only the check of the challenge's size and digits, which can throw, is modelled.
- The engine behind the two word patterns: both are predicates on the word.
- Opening a connection object again: a session opens its connection once, so `Api.Api.OnConnected` asks for a connection that was never open.
- LostClientsStayAway: one connection for each client id, so ids do not wrap around; a request drives sessions as an open command, as one that needs a session, or not at all.
- Wishes: commands and parameters of requests are a parameter of `Api`, one choice for each serial.
- CallbacksOnce: sessions hold their connections as values of the multiplexer, not as `Api` objects on the heap; the destructor of a session, whenever its last owner goes, is a step that may happen at any time when the session is not connecting and not in the table.
- Respond: in the session machine a user's callback does not close its connection, because nothing but the session's destructor and the connection itself ever calls close.
- LoadsAgreeOnRuns: building a model from a reply is a parameter that may fail; it stands for any model type, and its failure for an exception.
- Callbacks that issue further requests: these are steps after the one that called them.
- Protobuf messages, logging, configuration, plugin loading, hook and service registries and error message tables: library plumbing without state that these theorems need.
