# Poll server state machine, in Dafny

This project models the core of a live multi-poll voting server: `PollServer`
in `src/server.ts`. One server instance owns a session. It holds a fixed
catalog of five polls, each with options and vote counters, and marks exactly
one poll active. It applies three commands: `vote`, `changePoll` and
`resetPoll`. Every accepted mutation broadcasts the full state to all
connections. A connection that opens receives the current state.

The model is functional. A state is an immutable `PollState`. Each handler
is a pure function returning a `Step`: the new state plus the sequence of
snapshots broadcast while handling the command, in order. A session is a
`Run` over a sequence of decoded messages.

Modules:

- `Search` (`search.dfy`): `Array.prototype.find` as "first position whose
  id matches". The handlers then update the element at that position, as the
  server mutates the object `find` returned.
- `Polls` (`polls.dfy`): `PollOption`, `Poll` and `PollState`; the seed
  catalog; the invariants; and three projections of a state. The Catalog is
  what never changes (ids, names, questions, option texts, order). The Tally
  is the vote counters. The Activity is the `isActive` flags. With
  `currentPollId` they determine the state (`Polls.Reassemble`), so each
  handler's contract states exactly which projections it changes and how.
- `PollServer` (`poll_server.dfy`): message decoding, the three handlers, the
  dispatcher and `onConnect`.
- `PollSession` (`poll_session.dfy`): runs of many messages, the properties
  that hold across them, and a worked session from the seed.

`resetPollVotes` broadcasts once per option it zeroes (src/server.ts:135-138),
not once per command. A poll with N options yields N snapshots, and snapshot
j shows the first j+1 counters zeroed. A poll with no options yields none.
The last snapshot always equals the final state (`PollServer.ResetPollVotes`),
so connected clients end on the same view as with a single broadcast.

The constructor does not check the invariants. The model proves that they
hold of the seed (`Polls.InitialState`) and are preserved by every command
(`PollSession.RunKeepsWellFormed`).

## Model

| member | source | states |
|---|---|---|
| `Search.FirstIndex` | src/server.ts:110 | `find` returns the first position whose id matches, and finds nothing exactly when no element has that id |
| `Search.FirstOfDistinct` | src/server.ts:110-112 | when ids are unique, `find` returns the single element with that id |
| `Polls.InitialState` | src/server.ts:26-89 | the constructed state has five polls `poll1`..`poll5`; only `poll1` is active and `currentPollId` is `"poll1"`; poll ids are unique, option ids are unique within each poll, and every counter is 0 |
| `Polls.WithVotes` | src/server.ts:114 | assigning one option's `votes` changes that one counter and nothing else: catalog, flags and `currentPollId` are unchanged |
| `Polls.Reassemble` | src/server.ts:3-20 | two states with equal catalog, counters, flags and `currentPollId` are the same state |
| `Polls.SameExceptVotesKeepsWellFormed` | src/server.ts:3-20 | changing only counters neither creates nor breaks the invariants (one active poll named by `currentPollId`, unique ids) |
| `PollServer.Decode` | src/server.ts:100-106 | the `type` field selects the command: `vote` gives a vote for the message's poll and option, `changePoll` a poll change and `resetPoll` a reset of the message's poll; exactly these three are known, and any other value is Unknown |
| `PollServer.DecodeEncode` | src/server.ts:100-106 | decoding the message for a known command gives that command back |
| `PollServer.OnConnect` | src/server.ts:92-95 | the snapshot sent to a new connection is the current state, unchanged |
| `PollServer.HandleVote` | src/server.ts:109-118 | if the first poll with `pollId` is active and has an option `optionId`, that option's counter goes up by exactly 1, nothing else changes, and one snapshot of the new state is broadcast; an unknown poll, an inactive poll or an unknown option leaves the state unchanged with no broadcast |
| `PollServer.ChangeCurrentPoll` | src/server.ts:120-129 | on an existing id, the first poll with that id becomes the only active poll and `currentPollId` becomes the id; counters and catalog are unchanged; one snapshot is broadcast. On an unknown id: no change, no broadcast |
| `PollServer.ZeroFrom` | src/server.ts:135-138 | the loop from option k on zeroes counters k..N-1 of the poll and nothing else; it broadcasts one snapshot per iteration, and snapshot j has counters k..k+j zeroed |
| `PollServer.ResetPollVotes` | src/server.ts:132-140 | on an existing id (active or not), every counter of that poll ends at 0 and every other poll is untouched; it broadcasts N snapshots for N options, snapshot j with the first j+1 counters zeroed, the last equal to the final state. On an unknown id: no change, no broadcast |
| `PollServer.Apply` | src/server.ts:100-106 | every command keeps the catalog and the invariants; an Unknown command does nothing; a command that broadcasts nothing changes nothing; the last snapshot broadcast is the new state |
| `PollServer.OnMessage` | src/server.ts:97-107 | a `vote`, `changePoll` or `resetPoll` message is handled exactly by `handleVote`, `changeCurrentPoll` or `resetPollVotes` on its ids; a message of any other `type` is ignored with no broadcast; every message keeps the catalog and the well-formedness invariant |
| `PollSession.RunKeepsWellFormed` | src/server.ts:97-140 | after any sequence of messages, exactly one poll is active, `currentPollId` is its id, and ids are still unique |
| `PollSession.RunKeepsCatalog` | src/server.ts:109-140 | no sequence of messages changes poll ids, names, questions, option ids, option texts or their order |
| `PollSession.JoinSeesLastBroadcast` | src/server.ts:92-95 | a connection opening after a run receives the last snapshot broadcast, or the starting state if nothing was broadcast |
| `PollSession.ReachableStates` | src/server.ts:26-140 | every state reachable from the constructed state is well-formed and keeps the seed catalog |
| `PollSession.ResetIdempotent` | src/server.ts:132-140 | resetting the same poll twice leaves the same state as resetting it once |
| `PollSession.VoteAcceptedIffCurrent` | src/server.ts:109-118 | in a well-formed state, a vote is accepted (one broadcast) exactly when it names the current poll and one of its options; otherwise nothing is broadcast |
| `PollSession.Walkthrough` | src/server.ts:26-140 | from the seed: vote poll1/a, vote poll2/a, change to poll2, vote poll2/a, reset poll1. Poll2 ends active and current; only poll2's `a` has a vote; 1+0+1+1+5 snapshots are broadcast |

## Left out

- PartyKit's `Server`, `Connection` and `Room` types (src/server.ts:1, 25): they are transport. `broadcastState` (src/server.ts:142-144) is modelled as appending the current state to the step's snapshot list. `onConnect` is modelled as returning the state to send to the one new connection.
- `JSON.parse` and `JSON.stringify` (src/server.ts:94, 98, 143): the wire codec. Messages arrive already decoded as `Message(kind, pollId, optionId)`. A malformed message makes `JSON.parse` throw before any handler runs, so it cannot change the state; that path is not modelled.
- Missing or non-string message fields: in the server, an absent `pollId` is `undefined`, which matches no poll, so it behaves like an unknown id. The model's fields are always strings, and an id no poll carries plays that role.
- `async` on the handlers: nothing inside awaits, so each message is one atomic step.
- Counter width: `votes` is a JavaScript number, modelled as an unbounded `nat`. Precision loss past 2^53 votes is not modelled.
- Aliasing of the mutable state object: snapshots are values. The server serialises the state at broadcast time, so each broadcast carries the state as it stood then, which is what the snapshot list records.
