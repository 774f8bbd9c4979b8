# Call registry and lifecycle of the meeting bot

This project models the core of `BotServices`, the service object of a bot that takes part in meeting calls. The core is the `CallHandlers` registry, which maps a conversation-thread id to the handler of the call on that thread, and the four entry points that read or change it:

- **CallsOnUpdated** handles a platform batch of added and removed calls. Every added call gets a new handler under its thread, overwriting any handler already there. Then every removed call's thread is taken out. A handler that was really taken out gets one detached cleanup: media-stream shutdown, then dispose.
- **CallsOnIncoming** answers each incoming call with a new audio-only media session. The session id is the call id when it parses as a Guid, and `Guid.Empty` otherwise. It never touches the registry. The batch functions take the calls' session ids as a sequence `ids`; for the real batch that is `CallModel.SessionIds(calls)`, whose j-th entry is `Media.SessionIdFor` of the j-th call id.
- **JoinCallAsync** asks the platform to join a meeting, unless the meeting's thread is already registered. A guest identity is attached only when a display name is given.
- **EndCallByThreadIdAsync** deletes the call of a thread. When the delete fails it falls back to a forced removal by call id. It absorbs every failure except one: a null client in that fallback, which escapes.

`Dispose` and `Shutdown` manage the platform client.

Requests to the calling platform are recorded as a trace of effects: `CreateSession`, `Answer`, `Add`, `Delete`, `ForceRemove`, `Cleanup`, `Terminate` and `DisposeClient`. The platform's answers come in as parameters: whether a session was created, whether a delete succeeded, what the join-URL parser and the add-call returned, and the Guids it generated.

Files:

- `failures.dfy` (module `Failures`): the exceptions, and the `Result` and `Outcome` shapes.
- `guids.dfy` (module `Guids`): a Guid as its 32 hexadecimal digits, `Guid.ToString()` and `Guid.TryParse`.
- `media.dfy` (module `Media`): the media-session request, `CreateLocalMediaSession` and the session-id choice.
- `call_model.dfy` (module `CallModel`): each entry point as a function of the registry, with the lemmas about them.
- `bot_services.dfy` (module `Bot`): class `BotServices`. It holds the registry as a `map` field plus the effect trace. Its methods are written step by step like the source, with loops where the source loops. The handler methods (`AnswerIncomingCall`, `CallsOnIncoming`, `CallsOnUpdated`, `JoinCallAsync`, `EndCallByThreadIdAsync`) are each proved equal to their `CallModel` function. `Initialize`, `Dispose` and `Shutdown` have no such function: their contracts state the new client state and trace directly. Every method keeps the registry invariant.

A `Handler` carries a serial number, standing for the identity of each `new CallHandler` object. The registry invariant `CallModel.Valid` says two things: every entry is stored under its own call's thread, and every serial is below the next one to be handed out.

## Model

| member | source | states |
|---|---|---|
| `Failures.MessagesIdentify` | APITest/Bot/BotServices.cs:262 | The not-found message names its thread: two different threads never get the same message. No not-found message equals the already-added message of :210. |
| `Guids.TryParseExactly` | APITest/Bot/BotServices.cs:131 | Guid.TryParse yields `g` exactly for the strings that, ASCII letter case aside, are `g` printed in the N (32 digits), D (hyphenated), B (`{D}`) or P (`(D)`) format. Every other string fails to parse. |
| `Guids.ParseHexLower` | APITest/Bot/BotServices.cs:131 | A digit string parses to given digits exactly when, lower-cased, it is their printed form. |
| `Guids.ParseDLower` | APITest/Bot/BotServices.cs:131 | A 36-character string parses in the D format to `g` exactly when, lower-cased, it is `g.ToString()`. |
| `Guids.ParseHex` | APITest/Bot/BotServices.cs:131 | A digit string parses exactly when every character is a hex digit of either case, and each digit's value is kept in order. |
| `Guids.Format` | APITest/Bot/BotServices.cs:199 | Guid.ToString() prints 36 characters, with hyphens at positions 8, 13, 18 and 23. |
| `Guids.FormatAt` | APITest/Bot/BotServices.cs:199 | The k-th digit of the Guid is printed in lower case at its place in the 8-4-4-4-12 groups. |
| `Guids.FormatRoundTrip` | APITest/Bot/BotServices.cs:199 | What Guid.ToString() prints, Guid.TryParse reads back as the same Guid. |
| `Media.RequestFor` | APITest/Bot/BotServices.cs:218-230 | The session request is audio-only (send/receive, Pcm16K, no unmixed audio, inactive video) and passes the session id through. |
| `Media.CreateLocalMediaSession` | APITest/Bot/BotServices.cs:213-237 | A session is returned exactly when the client exists and the platform succeeds; it is audio-only with the given id; a platform failure or a null client is re-raised. |
| `Media.SessionIdFor` | APITest/Bot/BotServices.cs:131-133 | The session id is the call id's Guid when it parses, and Guid.Empty when it does not. A call id that spells the all-zero Guid also yields Guid.Empty. |
| `Media.SessionIdOfGuidCall` | APITest/Bot/BotServices.cs:131-133 | A call whose id is a printed Guid gets that very Guid as its media-session id. |
| `CallModel.LastIndexOf` | APITest/Bot/BotServices.cs:145-150 | Finds the last added call on a thread, the one whose handler the added loop keeps; absent exactly when no added call names the thread. |
| `CallModel.UpsertAllKeys` | APITest/Bot/BotServices.cs:145-150 | Specifies `CallModel.UpsertAll`, the added loop: afterwards the registered threads are exactly the earlier ones plus the added calls' threads. |
| `CallModel.UpsertAllAt` | APITest/Bot/BotServices.cs:145-150 | After the added loop, a named thread holds a fresh handler for its LAST added call; other threads are unchanged; no thread is lost. |
| `CallModel.UpsertAllValid` | APITest/Bot/BotServices.cs:145-150 | The added loop keeps the registry invariant: entries stay under their call's thread, with serials below the new counter. |
| `CallModel.RemoveAllKeys` | APITest/Bot/BotServices.cs:152-163 | Specifies `CallModel.RemoveAll`, the removed loop: afterwards the registered threads are exactly the earlier ones less the removed calls' threads. Every handler taken out goes to exactly one cleanup: entries left plus cleanups equal the entries before. |
| `CallModel.RemoveAllAt` | APITest/Bot/BotServices.cs:152-163 | After the removed loop, a named thread is absent and every other thread is unchanged. |
| `CallModel.RemoveAllCleaned` | APITest/Bot/BotServices.cs:152-163 | Each removed thread that was present gets exactly one cleanup, of the handler it held; an absent thread gets none; nothing else is cleaned up. |
| `CallModel.DuplicateRemovalHarmless` | APITest/Bot/BotServices.cs:152-163 | A repeated removal in a batch changes nothing and cleans up nothing, and raises no error. |
| `CallModel.UpdatedKeys` | APITest/Bot/BotServices.cs:142-164 | Specifies `CallModel.Updated`, the whole batch: the registered threads end as the earlier and added ones less the removed ones, so a thread added and removed in one batch is gone. The cleanups account for every entry taken out. |
| `CallModel.UpdatedAt` | APITest/Bot/BotServices.cs:142-164 | Whole batch, added before removed. A removed thread ends absent, even if just added. An added-only thread holds the fresh handler of its last call. Unnamed threads are unchanged. A removed thread gets one cleanup iff present after the added loop, and that is the new handler when it was added in the batch. An overwritten handler is never cleaned up. The invariant is kept. |
| `CallModel.OverwrittenInBatch` | APITest/Bot/BotServices.cs:145-150 | A handler overwritten by a later added call in the same batch is neither kept in the registry nor cleaned up. |
| `CallModel.AnswerIncoming` | APITest/Bot/BotServices.cs:131-138 | The handler for one incoming call completes exactly when the client exists and the platform creates the session. |
| `CallModel.AnswerIncomingRequests` | APITest/Bot/BotServices.cs:131-138 | Without a client the handler fails with a null reference and requests nothing. With one, it first requests an audio-only session with the call's session id. A failed creation is re-raised and nothing is answered. Otherwise the call is answered with that session. |
| `CallModel.Incoming` | APITest/Bot/BotServices.cs:95-139 | A whole incoming batch completes exactly when it is empty, or there is a client and every session was created. Without a client, a non-empty batch fails at once with a null reference and requests nothing. |
| `CallModel.IncomingFrom` | APITest/Bot/BotServices.cs:95-139 | The batch from position i completes exactly when nothing is left, or there is a client and every remaining session was created. Without a client, a non-empty rest fails at its first call and requests nothing. |
| `CallModel.IncomingRequestsOnly` | APITest/Bot/BotServices.cs:98-138 | An incoming batch only creates sessions and answers calls. Every answer uses an audio-only session. |
| `CallModel.IncomingAnswersEach` | APITest/Bot/BotServices.cs:98-138 | When every session is created, each call is answered exactly once, in order. Its session request, carrying that call's session id, comes just before the answer. The batch completes. |
| `CallModel.IncomingStopsAtFailure` | APITest/Bot/BotServices.cs:98-138 | A failed session creation for the k-th call re-raises. The calls before it are answered. Its own session request is the last request, so neither it nor any later call is answered. |
| `CallModel.GuestIdentity` | APITest/Bot/BotServices.cs:195-202 | A guest identity exists iff the display name is non-null and non-empty; it carries that display name and the printed new Guid as id. |
| `CallModel.JoinCall` | APITest/Bot/BotServices.cs:181-211 | The media session is requested before the guard either way. A registered thread fails with AlreadyAdded and issues no add-call. Otherwise exactly one add-call goes out, with the new scenario id, the parsed thread and tenant, the guest identity and an audio-only session, and the platform's answer is returned. Parser and session failures propagate without an add-call. |
| `CallModel.EndCall` | APITest/Bot/BotServices.cs:239-257 | An unknown thread requests nothing and completes. A known thread gets exactly one delete of its call. A forced removal by that call id follows only when the delete failed and the id is non-empty. The only failure is a null client in the fallback. |
| `CallModel.EndCallTwice` | APITest/Bot/BotServices.cs:239-266 | Ending a registered call deletes it. Once the platform has reported its removal, a second end-call requests nothing and completes. |
| `Bot.BotServices.constructor` | APITest/Bot/BotServices.cs:30 | A new service starts with an empty registry, no client and no requests. |
| `Bot.BotServices.Initialize` | APITest/Bot/BotServices.cs:85-87 | After Initialize the client exists. |
| `Bot.BotServices.AnswerIncomingCall` | APITest/Bot/BotServices.cs:131-138 | Makes exactly the requests of `CallModel.AnswerIncoming`, with the session id chosen from the call id, and completes as it says. |
| `Bot.BotServices.CallsOnIncoming` | APITest/Bot/BotServices.cs:95-139 | The loop leaves the registry unchanged. It makes exactly the requests of `CallModel.Incoming`, and completes as that function says. |
| `Bot.BotServices.CallsOnUpdated` | APITest/Bot/BotServices.cs:142-164 | The two loops leave the registry `CallModel.Updated` gives and append one Cleanup per handler taken out. The counter grows by the number of added calls, and the invariant is kept. |
| `Bot.BotServices.Dispose` | APITest/Bot/BotServices.cs:166-171 | Disposes of the client once if there is one; afterwards there is none. |
| `Bot.BotServices.Shutdown` | APITest/Bot/BotServices.cs:173-179 | Without a client it fails with no requests. Otherwise it requests termination and, if that succeeds, disposes of the client. |
| `Bot.BotServices.JoinCallAsync` | APITest/Bot/BotServices.cs:181-211 | Leaves the registry unchanged, makes exactly the requests of `CallModel.JoinCall` and returns its result. |
| `Bot.BotServices.EndCallByThreadIdAsync` | APITest/Bot/BotServices.cs:239-257 | Leaves the registry unchanged, makes exactly the requests of `CallModel.EndCall` and completes as it says. |
| `Bot.BotServices.GetHandlerOrThrow` | APITest/Bot/BotServices.cs:258-266 | Returns the thread's handler when registered, and a not-found failure for that thread otherwise. |

## Left out

- Concurrency. `ConcurrentDictionary` atomicity, the `Task.Run` scheduling of cleanups and the fire-and-forget answer are not modelled. Each handler invocation is one atomic step. A scheduled cleanup is a `Cleanup` entry in the trace, and an answer is an `Answer` entry whatever its outcome.
- The calling platform itself: `CreateMediaSession`, `AnswerAsync`, `AddAsync`, `DeleteAsync`, `TryForceRemove`, `TerminateAsync`, client building in `Initialize`, notification-URL composition, `JoinInfo.ParseJoinURL`, tenant resolution and `CallHandler`/`BotMediaStream`. Their results are parameters, and requests to them are trace entries.
- Bot.BotServices.JoinCallAsync: the scenario id and guest id are parameters. That `Guid.NewGuid` gives values distinct from every earlier one is randomness, so it is not stated.
- Guids.TryParse: three things .NET accepts are not modelled: the X format (`{0x…,…}`), the trimming of surrounding white space, and the `0x`/`0X` or `+` prefix that .NET's D-format parser tolerates inside a group that keeps its length (such as `0x5b1407-351d-4694-9392-03acc5870eb1`). Such strings count as non-Guids, so for such a call id the model chooses Guid.Empty as the session id where .NET uses the parsed Guid.
- The diagnostic reads in `CallsOnIncoming`: observed participant, on-behalf-of, transferor, country code and endpoint type. Their values are never used, and a null incoming context, which would make those reads throw, is not modelled.
- Logging, the web host and TLS bootstrap, the background worker with its exit codes, the file helper and the HTTP controllers.
- Media.CreateLocalMediaSession: what the platform does with `Guid.Empty` as a session id is platform behaviour. The model only passes it through.
