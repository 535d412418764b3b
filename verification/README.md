# c2c: a verified model of the store-and-forward protocol

c2c carries messages between agent sessions on different hosts. Each host runs a ferry; a durable
hub stores envelopes and hands them out to ferries over links that can drop at any moment. This
project models the two tiers in Dafny and proves what they keep over every interleaving.

`dafny verify dfyconfig.toml` checks the whole project.

## How the model is built

- The unit of interleaving is the code between two `await`s. A handler's drain or push list, a
  delivery suspended in `inject` and a flush suspended in `send` are therefore parts of the state,
  and every other step may fall between theirs.
- Every stateful component comes twice: as a state machine on values, about which the laws are
  proved, and as a class whose methods change fields and loop as the source does, each proved to
  take exactly the machine's steps. `Mailboxes.Mailbox`, `HubServer.Hub`, `Ferries.FerryApp`,
  `Dedups.Dedup` and `HubClients.HubClient` are the classes.
- What each operation does is also said without the machine's own helpers, in the fields of rows,
  registry entries, tables, queues and JSON objects: `MailboxEffects`, `HubEffects`, `FerryEffects`
  and `SystemEffects`.
- Clocks, new message ids, registry contents, `project_for_cwd`, the outcome of an inject, the fate
  of a send and the JSON codec are parameters. They are unconstrained, but for ids that are
  new and, where expiry or the dedup window is at stake, a clock that does not go back. A ferry's
  queues, pins, attempts and acks keep their laws when its clock is set back.
- In the whole system other clients of the hub may hand in any post, fan-outs included, and
  announces; acks come from the modelled ferries alone.
- Histories (offers, acceptances, posts, rows stored) are kept beside the state to say
  what happened over a run. No step's effect on the modelled state depends on them.

| files | part |
|---|---|
| `Prelude`, `Text`, `Paths`, `Recent` | lists, strings, lists of steps, expiring maps |
| `Envelopes`, `MailboxModel`, `MailboxLaws`, `MailboxEffects`, `AckLaws`, `Mailbox` | envelopes and the durable store |
| `HubModel`, `HubLaws`, `HubEffects`, `HubServer` | the hub's handlers and connection table |
| `Dedup`, `Notify`, `Registry` | dedup window, notify cool-down, target ranking |
| `FerryModel`, `FerryQueues`, `FerryCitations`, `FerryPins`, `FerryDelivery`, `FerryEffects`, `Ferry` | the ferry's delivery machine |
| `OutboxModel`, `HubClient` | the bounded outbox and its flush loop |
| `SystemModel`, `SystemEffects`, `Provenance`, `EndToEnd`, `Conversations` | hub, links, outboxes and ferries together |
| `Wire`, `Wrapper`, `LocalPeer`, `ProjectId` | codecs and framing |

## Where the code promises less than one might expect

Each of these is a theorem here, with the exact condition where there is one.

- A failed inject does not always put the reply queue back: `FerryQueues.RefusalRestores` says when.
- A reply may cite an id its session never accepts: `FerryCitations.CitedStands` says when.
- A body that already holds an escaped tag does not survive a round trip: `Wire.BodySurvives`.
- A send pops the op it sent only if the enqueues made meanwhile fitted into the deque; otherwise
  the pop removes an op that was never sent: `OutboxModel.SendPopsItsOwnOp`.
- An ack holds until its message is deleted: `AckLaws.AckIsFinal` says exactly when a host that has
  acked an id is offered it again. A sweep cannot bring an envelope back, the cap can
  (`AckLaws.OnlyEvictionForgets`), and it happens (`AckLaws.AckCanBeForgotten`).
- Two envelopes posted under one id stand in for each other: the store keeps the first, the second
  is pushed all the same (`HubLaws.ReusedIdIsPushed`), and once a session has accepted either, the
  other is acked unseen (`FerryDelivery.TakenIdIsNotOffered`). So no loss holds by id
  unconditionally (`EndToEnd.NoIdIsLost`), and for the envelope itself if nothing else was posted
  under its id (`EndToEnd.NothingIsLost`).
- A line that is valid JSON but not an object ends `_handle` with an error after the callbacks made
  so far: `LocalPeers.Interpret`, `LocalPeers.DispatchAppend`.

## Model

| member | source | states |
|---|---|---|
| `EndToEnd.NothingIsLost` | src/c2c/ferry/app.py:86-126 | in every reachable state of hub, links, outboxes, ferries and other posting clients, with connections, ferries and the hub failing anywhere, an envelope once stored, host-directed or fan-out, if nothing else was posted under its id, has for each host it is addressed to been accepted by an inject there, or is still returned by `pending_for`, or has expired, or since its storing there was a moment at which the hub held `max_per_project` newer rows of its project |
| `EndToEnd.NoIdIsLost` | src/c2c/hub/mailbox.py:80-104 | the same for every stored envelope without a condition on ids, where the accepted envelope is some posted one under that id |
| `EndToEnd.PendingIsUnderWay` | src/c2c/hub/server.py:106-145 | in every reachable state of the whole system, what is pending for a connected host has had a deliver begun on its connection or is on a list for it |
| `Provenance.OfferedIsAddressed` | src/c2c/hub/server.py:175-183 | in every reachable state, whatever is in transit to a host, suspended in an inject, ever offered or ever accepted there, also before a restart, was posted to the hub and names that host or is a fan-out from another host |
| `Provenance.EveryState` | src/c2c/hub/mailbox.py:80-97 | in every reachable state the stored rows are among those posted, and every list, link, offer and acceptance holds only posted envelopes for its host |
| `EndToEnd.AckRowMeansAccepted` | src/c2c/hub/server.py:120-123 | in every reachable state an ack row of a host for an id means that host wrote the ack to a connection of its own, and that one of its sessions accepted an inject of a posted envelope with that id |
| `EndToEnd.EveryState` | src/c2c/ferry/hubclient.py:45-61 | the invariant chain (ack row, ack sent, record made, inject accepted; acks in transit belong to the connection's host) holds in every reachable state |
| `EndToEnd.StoredStays` | src/c2c/hub/mailbox.py:42-78 | over every run of the whole system a stored row is still there, or has expired, or was crowded out at one moment since its storing |
| `Conversations.AnswerClosesTheTurn` | src/c2c/ferry/app.py:145-157 | in every reachable state of the whole system, restarts included: a reply offered under a pin, if ferry-posted and the cited id names one envelope, answers a message which the offered session posted, and was posted from a socket to which that very message had been offered, at a host the message was for |
| `Conversations.AnswersComeFromTheAsked` | src/c2c/ferry/app.py:259-286 | without the condition on ids: the session offered a pinned reply posted the cited message, and the reply came from a socket on which a message under the cited id had been offered |
| `Conversations.EveryTalk` | src/c2c/ferry/app.py:128-157 | in every reachable state every post in an outbox, in transit or at the hub stems from a ferry's message or another client, and every message ever posted cites only what its socket was offered |
| `HubLaws.EveryRun` | src/c2c/hub/server.py:55-68 | over every interleaving of connect, announce, post, ack, sweep, send and disconnect: no missed wake-up, exact connection table, keyed and capped store |
| `HubLaws.FastPathAgrees` | src/c2c/hub/server.py:175-183 | for a stored, unexpired, unacked envelope, a registered connection is among the recipients exactly when `pending_for` would return the envelope to it, for both target kinds |
| `HubLaws.StepWakes` | src/c2c/hub/server.py:106-145 | every step keeps: each message pending for a registered connection has had a deliver begun on it or is on an unfinished list aimed at it |
| `HubLaws.PostWakes` | src/c2c/hub/server.py:132-145 | storing a post and naming its recipients in one step leaves nobody un-notified, also when the id replaces an evicted row |
| `HubLaws.AddressedIsPushed` | src/c2c/hub/server.py:139-142 | a valid post puts a deliver on the list for every registered connection it is addressed to |
| `HubLaws.ReusedIdIsPushed` | src/c2c/hub/server.py:139-142 | a valid post under a stored id leaves the store as it is and is pushed to every registered connection it is addressed to, whatever it holds |
| `HubLaws.RegisterWakes` | src/c2c/hub/server.py:59-61 | registering and taking the drain snapshot in one step covers everything pending for the new connection |
| `HubLaws.AnnounceWakes` | src/c2c/hub/server.py:124-130 | an announce that widens the project set drains what has become pending |
| `HubLaws.LeaveWakes` | src/c2c/hub/server.py:64-68 | a handler that ends, even in mid-drain, takes along only delivers aimed at itself |
| `HubLaws.StepKeepsTable` | src/c2c/hub/server.py:59-68 | every step keeps the table exact: the entry of a host is its newest connection if that one's handler runs, and absent otherwise |
| `HubLaws.StaleExitKeepsSuccessor` | src/c2c/hub/server.py:66-68 | the exit of a superseded handler leaves the table as it is |
| `HubEffects.RegisterEffect` | src/c2c/hub/server.py:59-61 | a hello puts the new connection in its host's place with the projects it named and a list of exactly what they are owed, earliest first; nothing else changes |
| `HubEffects.AnnounceEffect` | src/c2c/hub/server.py:124-130 | an announce replaces the connection's projects and gives it a list of exactly what they are owed, earliest first; nothing else changes |
| `HubEffects.AnnouncedIsDrained` | src/c2c/hub/server.py:106-108 | every row unexpired, unacked and addressed to the host under the announced projects is on the connection's list |
| `HubEffects.FanOutFollowsAnnounce` | src/c2c/hub/server.py:180-183 | a fan-out another host posts next on an announced project is pushed to the connection while it is registered |
| `HubEffects.PostEffect` | src/c2c/hub/server.py:132-145 | a valid post is stored as the mailbox does and pushed once to the current connection of the host it names, or of every host but its origin that announced its project; an invalid one does nothing |
| `HubEffects.AckEffect` | src/c2c/hub/server.py:120-123 | after an ack no query of the connection's host returns the id, under any projects and at any time; other hosts and other ids are owed what they were |
| `HubEffects.SendEffect` | src/c2c/hub/server.py:106-108 | a send begins the head of the list and takes it off; a drain whose connection has closed ends its handler instead |
| `HubEffects.ExitEffect` | src/c2c/hub/server.py:66-68 | the handler is gone and its host registered no more, unless by another connection; nothing else changes |
| `HubEffects.HousekeepingEffect` | src/c2c/hub/mailbox.py:70-78 | a sweep removes exactly the rows whose created_at plus ttl_s * 1000 is reached, a tick moves the clock, a restart ends every handler |
| `SystemEffects.AckFrameSettles` | src/c2c/hub/server.py:120-123 | reading an ack frame settles its id for the host of the connection and changes nothing else that is owed |
| `SystemEffects.AcceptanceIsAcked` | src/c2c/ferry/app.py:120-126 | an accepted inject puts its ack last in the outbox and its envelope on record |
| `SystemEffects.HeadGoesOut` | src/c2c/ferry/hubclient.py:56-58 | a send on a connection puts the outbox head last in transit there |
| `SystemEffects.DeliverTravels` | src/c2c/ferry/hubclient.py:80-86 | a deliver written by the hub is last in transit to its connection, and the client there takes the first |
| `HubServer.Hub.HandleHello` | src/c2c/hub/server.py:59-61 | registers the connection and snapshots the drain as one model step |
| `HubServer.Hub.HandleAnnounce` | src/c2c/hub/server.py:124-130 | replaces the project set and starts a drain for it as one model step |
| `HubServer.Hub.RecipientsOf` | src/c2c/hub/server.py:175-183 | each recipient once and nobody else, for both target kinds |
| `HubServer.Hub.HandlePost` | src/c2c/hub/server.py:132-145 | a refused envelope changes nothing; otherwise store and push list are those of one model step |
| `HubServer.Hub.HandleAck` | src/c2c/hub/server.py:120-123 | records the ack for the connection's own host |
| `HubServer.Hub.ResumeSend` | src/c2c/hub/server.py:107-108 | one send of a list: a closed connection ends a draining handler and is swallowed by a push |
| `HubServer.Hub.LeaveHandler` | src/c2c/hub/server.py:66-68 | the finally clause removes the table entry only if it is still this connection |
| `HubServer.Hub.constructor` | src/c2c/hub/server.py:42-46 | a new process over any consistent mailbox is the restart step of the hub that ran on it before |
| `HubServer.Hub.FirstBoot` | src/c2c/hub/__main__.py:19-22 | there is such a hub before the first process on any consistent mailbox, empty or not |
| `HubServer.Hub.Advance` | src/c2c/hub/server.py:28-29 | reading a later clock is the tick step |
| `HubServer.Hub.Sweep` | src/c2c/hub/__main__.py:25-30 | the sweeper's turn is the sweep step and counts the expired rows |
| `MailboxLaws.StreamingCap` | src/c2c/hub/mailbox.py:42-68 | after any puts into an empty mailbox, whatever the order and repetition, the rows per project are exactly the greatest `max_per_project` by (created_at, msg_id) of everything ever put |
| `MailboxLaws.StreamingCapFrom` | src/c2c/hub/mailbox.py:42-68 | the same on top of any mailbox within its cap, old rows counted with the new |
| `MailboxLaws.ArrivalOrderIsIrrelevant` | src/c2c/hub/mailbox.py:42-68 | two orders of the same envelopes leave the same table |
| `MailboxLaws.CutOnce` | src/c2c/hub/mailbox.py:60-68 | cutting to the cap, adding a row and cutting again equals cutting once at the end |
| `MailboxLaws.VictimsAreOldest` | src/c2c/hub/mailbox.py:60-68 | offset `max` into a project's rows, newest first, yields exactly the rows with at least `max` newer ones |
| `MailboxLaws.CapHolds` | src/c2c/hub/mailbox.py:42-104 | from an empty mailbox every run of puts, sweeps and acks keeps every project within its cap |
| `MailboxLaws.PutStoredIsNoOp` | src/c2c/hub/mailbox.py:45-58 | a put whose id is stored leaves both tables unchanged: the first writer wins |
| `MailboxLaws.PutKeepsNewest` | src/c2c/hub/mailbox.py:42-68 | a put of a new id keeps exactly the newest rows of what was there plus the newcomer, which may itself be the one to go |
| `MailboxLaws.SweepIsUnobservable` | src/c2c/hub/mailbox.py:70-97 | a sweep at t1 leaves `pending_for` at every t2 >= t1 identical as an ordered list for every host and project set, and removes exactly the counted rows |
| `AckLaws.AckPersists` | src/c2c/hub/mailbox.py:99-104 | an ack row outlives every run unless its message is deleted |
| `AckLaws.AckRowLives` | src/c2c/hub/mailbox.py:66-78 | an ack row is there at the end of a run exactly when the host has acked since the last deletion of the message |
| `AckLaws.AckIsFinal` | src/c2c/hub/mailbox.py:80-104 | after an ack a later `pending_for` of that host returns a row of the id if and only if the row is stored, unexpired and addressed to the host and the message was deleted with no ack since; it was then stored again |
| `AckLaws.OnlyEvictionForgets` | src/c2c/hub/mailbox.py:60-78 | with sweeps no later than the query and one envelope under the id, an acked envelope is returned again exactly when it is stored, unexpired, addressed and the cap has evicted it since the last ack: a sweep never brings it back |
| `AckLaws.AckCanBeForgotten` | src/c2c/hub/mailbox.py:60-68 | the exception is real under a forward clock and for every cap: put, ack, eviction by as many newer envelopes as the cap, their sweep and put again make the first pending for the host that had acked it |
| `AckLaws.ReusedIdIsOffered` | src/c2c/hub/mailbox.py:70-78 | so does an id used again, after the sweep, for an envelope that lives longer |
| `MailboxLaws.ListingUnique` | src/c2c/hub/mailbox.py:88 | ordering by (created_at, msg_id) leaves one answer per set of rows |
| `MailboxEffects.OlderIsEarlier` | src/c2c/hub/mailbox.py:60-65 | the order of rows is earlier created_at, then the id that is a proper prefix or smaller at the first difference |
| `MailboxEffects.PutIsLatest` | src/c2c/hub/mailbox.py:42-68 | after a put each row that went is of its project and earlier than every row of it that is kept, and goes only if exactly `max_per_project` are kept; nothing but the newcomer comes in |
| `MailboxEffects.ListingDrains` | src/c2c/hub/mailbox.py:80-97 | the query lists exactly the rows unexpired, unacked by the host and addressed to it, by created_at and then id |
| `MailboxEffects.SweepRemoves` | src/c2c/hub/mailbox.py:70-78 | a sweep keeps exactly the rows with created_at + ttl_s * 1000 after now, and the acks of those it removes go too |
| `Mailboxes.Mailbox.PutEnvelope` | src/c2c/hub/mailbox.py:42-58 | the fault is the validator's; a refused envelope or a stored id changes nothing; otherwise the rows are the newest of the old ones plus the newcomer, said both by rank and by created_at and id; acks of victims go with them |
| `Mailboxes.Mailbox.SelectOverCap` | src/c2c/hub/mailbox.py:60-65 | the victims are exactly the rows beyond the cap |
| `Mailboxes.Mailbox.DeleteAll` | src/c2c/hub/mailbox.py:66-68 | deletes the rows and every ack that names them, and nothing else |
| `Mailboxes.Mailbox.SweepExpired` | src/c2c/hub/mailbox.py:70-78 | deletes the expired rows and their acks and returns how many rows |
| `Mailboxes.Mailbox.PendingFor` | src/c2c/hub/mailbox.py:80-97 | the unexpired, unacked rows addressed to the host, oldest first, without fan-out rows of other projects |
| `Mailboxes.Mailbox.OldestFirst` | src/c2c/hub/mailbox.py:88 | the ordered query, as an insertion loop |
| `Mailboxes.Mailbox.AckMessage` | src/c2c/hub/mailbox.py:99-104 | adds the row, also for an id that is not stored |
| `FerryQueues.RepliesCiteInOrder` | src/c2c/ferry/app.py:104-150 | over every run, for each socket, the ids cited by its replies are a subsequence of the ids queued for it in attempt order, and every stored queue has 1 to 16 entries |
| `FerryQueues.CitationsAreDistinctAttempts` | src/c2c/ferry/app.py:238-257 | the cited ids sit at strictly increasing attempt positions, so each enqueue is cited at most once |
| `FerryQueues.StepKeepsFifo` | src/c2c/ferry/app.py:104-114 | deque overflow, failed-inject removal and local messages landing mid-inject keep the FIFO relation |
| `FerryQueues.RefusalRestores` | src/c2c/ferry/app.py:248-257 | a refused inject with nothing in between restores the queues exactly when the deque was not full and held the id nowhere but at its end |
| `FerryQueues.RefusedLeavesNoTrace` | src/c2c/ferry/app.py:104-114 | over every run, an id not queued beforehand is on no refused candidate's socket after its inject returns, whatever local messages did meanwhile |
| `FerryQueues.FastReply` | src/c2c/ferry/app.py:98-106 | an answer that arrives before inject returns, with no older note outstanding, is posted as a reply citing the note being delivered, with the reply lifetime |
| `FerryCitations.CitedStands` | src/c2c/ferry/app.py:104-114 | over every run, when a reply is posted, the id it cites was offered on its socket by an inject that had accepted or raised, or is the one awaited there at that moment; an id whose offers there were all refused is never cited |
| `FerryCitations.EveryRunCites` | src/c2c/ferry/app.py:238-257 | over every run each socket's queue holds no more copies of an id than offers of it there that were not refused |
| `FerryPins.PinnedRepliesGoToTheAsker` | src/c2c/ferry/app.py:259-286 | over every run, a reply whose orig_msg_id was pinned is only offered to a session with the posting session's id; the pins are the posters of posted messages, at most 1000, oldest first |
| `FerryPins.OnePoster` | src/c2c/ferry/app.py:154-157 | the asker of a message is unique |
| `FerryPins.PostedIsPinned` | src/c2c/ferry/app.py:154-157 | every message posted by a session with an id, note or reply, is pinned to it as the newest pin |
| `FerryPins.PinLifetime` | src/c2c/ferry/app.py:123-125 | for a pin that has vanished there is a step at which it goes, and that step accepts an answer to it or leaves 1000 newer pins in place; held, refused and raised attempts keep it |
| `FerryPins.EvictionDisplaces` | src/c2c/ferry/app.py:232-236 | pinning into a full dict drops the oldest pin and leaves only pins posted after it |
| `FerryDelivery.AcceptedOncePerWindow` | src/c2c/ferry/app.py:86-126 | over every run with a nondecreasing clock, the check before a second accepted inject of one id comes more than the window after the record of the first |
| `FerryDelivery.CheckIsTruthful` | src/c2c/ferry/app.py:88-92 | the dedup check hits exactly when an acceptance of the id was recorded within the window |
| `FerryDelivery.AckMeansAccepted` | src/c2c/ferry/app.py:120-126 | the ferry hands over an ack only for an id some session has accepted, whatever its clock does |
| `FerryDelivery.TakenIdIsNotOffered` | src/c2c/ferry/app.py:88-92 | a delivery is acked at once and offered to nobody exactly when some envelope under its id was accepted within the window |
| `FerryDelivery.AttemptsFollowRanking` | src/c2c/ferry/app.py:96-116 | over every run a delivery offers at most the first three candidates, in rank order, each after the refusal of the one before, and stops at the first acceptance |
| `FerryEffects.OffersFollowRank` | src/c2c/ferry/app.py:96-116 | over every run, a delivery that was no duplicate and answered no pin was offered, three times at most, down a list of exactly the entries of other processes on its project that speak protocol 1, background first and then by later statusUpdatedAt; with every offer refused there was no entry or attempt left, or the next had no socket |
| `FerryEffects.UnpinnedDelivery` | src/c2c/ferry/app.py:274-279 | a delivery not seen within the window that answers no pin begins with the best of those entries, its id last in that socket's queue; with none it is held |
| `FerryEffects.PinnedDelivery` | src/c2c/ferry/app.py:262-273 | a reply to a pinned message is offered to the first entry with the pinned session's id that speaks the protocol whenever there is one, and to nobody else |
| `FerryEffects.SomebodyIsOffered` | src/c2c/ferry/app.py:93-114 | with some entry able to take it and no acceptance of its id in the window, an unpinned delivery is in the hands of an entry no other is preferred to, unless that one has no socket |
| `FerryEffects.RefusalGoesOn` | src/c2c/ferry/app.py:113-116 | a refusal hands nothing over and goes on to the next entry, or holds |
| `FerryEffects.AcceptanceSettles` | src/c2c/ferry/app.py:120-126 | an acceptance is acked and remembered, and retires the pin it answered and no other |
| `FerryEffects.RaiseSettlesNothing` | src/c2c/ferry/app.py:107-110 | an inject that raises leaves queue, pins and dedup map as they are and hands nothing over |
| `FerryEffects.PostedExactlyWhen` | src/c2c/ferry/app.py:128-157 | a local message, its sender named with or without the scheme, is posted if and only if the first entry of another process on that socket has a project; a post takes the oldest id off that socket's queue, and a session without an id gets no pin |
| `FerryDelivery.PostedIsValid` | src/c2c/ferry/app.py:288-301 | what the ferry posts passes the hub's validation, carries the session's words under its project to the peer host, lives an hour if a reply and a week if a note, and is a reply exactly when an id is queued for the socket, citing the oldest |
| `Ferries.FerryApp.OnDeliver` | src/c2c/ferry/app.py:86-126 | the loop with its awaits yields the model's state and ops for every sequence of local messages heard and outcomes met during the injects |
| `Ferries.FerryApp.TryCandidates` | src/c2c/ferry/app.py:97-116 | the candidate loop: queue, await, break on acceptance, unqueue on refusal, hold when nobody took it |
| `Ferries.FerryApp.OnLocalMessage` | src/c2c/ferry/app.py:128-157 | one model step, whatever delivery is suspended: drop, or consume the oldest id, build, pin and post |
| `Ferries.FerryApp.FindCandidates` | src/c2c/ferry/app.py:259-279 | the pinned session alone, nobody if it is gone, else the ranking |
| `Ferries.FerryApp.PinReplyTo` | src/c2c/ferry/app.py:232-236 | insertion order kept on re-pinning; the oldest pins dropped beyond 1000 |
| `Ferries.FerryApp.TakeNextPending` | src/c2c/ferry/app.py:238-246 | the oldest id, with an emptied queue deleted |
| `Ferries.FerryApp.UnqueuePending` | src/c2c/ferry/app.py:248-257 | the first occurrence removed, with an emptied queue deleted |
| `Ferries.FerryApp.NotifyOk` | src/c2c/ferry/app.py:219-230 | grants and prunes as the cool-down table does, and touches no reply queue, pin or dedup record |
| `Ferries.FinishIsPlay` | src/c2c/ferry/app.py:96-126 | carrying a delivery to its end is a list of model steps, each allowed where it is taken |
| `Ferries.ThreeAwaitsFinish` | src/c2c/ferry/app.py:97 | a delivery never meets more awaits than it has attempts |
| `Registry.RankTargetsRanks` | src/c2c/ferry/registry.py:72-84 | background sessions first, each group by nonincreasing status time, ties in registry order |
| `Registry.RankTargetsPermutes` | src/c2c/ferry/registry.py:80-81 | a permutation of exactly the sessions of the project that speak the protocol |
| `Registry.RankingUnique` | src/c2c/ferry/registry.py:72-84 | those conditions determine the ranking |
| `Registry.FindBySocket` | src/c2c/ferry/registry.py:64-69 | the first session on that socket, named with or without the scheme |
| `Registry.SocketNamed` | src/c2c/ferry/registry.py:65 | a socket named with the scheme and one named without it are the same path |
| `Registry.FindById` | src/c2c/ferry/registry.py:106-116 | the first session with that id that speaks the protocol |
| `Registry.FirstIsEarliest` | src/c2c/ferry/registry.py:113-116 | the lookup result is the earliest match and the only such one |
| `Dedups.CheckMeansRecorded` | src/c2c/ferry/dedup.py:18-35 | over any calls under a nondecreasing clock, a check holds exactly when some record lies within the window: pruning is unobservable |
| `Dedups.Dedup.Check` | src/c2c/ferry/dedup.py:18-24 | the peek answers from the map and only prunes it |
| `Dedups.Dedup.Record` | src/c2c/ferry/dedup.py:26-30 | prunes, then notes the time |
| `Dedups.Dedup.Evict` | src/c2c/ferry/dedup.py:32-35 | the deleting loop removes exactly the entries older than the window |
| `Notify.GrantedMeansQuiet` | src/c2c/ferry/app.py:219-230 | a note is granted exactly when no earlier grant for its key is under 60000 ms old |
| `OutboxModel.Conservation` | src/c2c/ferry/hubclient.py:45-61 | over every run, ops enqueued = ops sent (each once, in order) + ops lost + ops queued + the one in flight after being pushed out; losses are exactly the enqueues that met a full deque |
| `OutboxModel.InOrderWithoutOverflow` | src/c2c/ferry/hubclient.py:53-61 | without overflow completed sends follow enqueue order and nothing is popped before its send completed |
| `OutboxModel.SendPopsItsOwnOp` | src/c2c/ferry/hubclient.py:53-61 | a send with k enqueues during it pops the op it sent if and only if the queue and the k fit into the deque; with m too many it pops the op m places behind, which is lost without having been sent |
| `HubClients.HubClient.EnqueueOp` | src/c2c/ferry/hubclient.py:45-49 | appends, dropping the oldest op of a full deque |
| `HubClients.HubClient.FlushHead` | src/c2c/ferry/hubclient.py:56-61 | one turn: read the head, await, pop unless the connection was closed, for any enqueues in between |
| `HubClients.HubClient.Flush` | src/c2c/ferry/hubclient.py:53-61 | the loop is a path of model steps; the ops delivered are those whose sends completed, as enqueued; it stops only when the deque is empty, the link is gone or a send found it closed |
| `Wire.UnescapeEscape` | src/c2c/ferry/wire.py:29-37 | for every body, unescaping the escaped body gives what unescaping the body gives |
| `Wire.BodySurvives` | src/c2c/ferry/wire.py:29-37 | a body survives the round trip exactly when it holds neither escaped tag |
| `Wire.EscapedHoldsNoTag` | src/c2c/ferry/wire.py:29-33 | an escaped body holds neither wrapper tag |
| `Wire.EscapeIsMark` | src/c2c/ferry/wire.py:29-37 | two successive replacements equal one pass over both tags, each way |
| `Wrapper.WrapperRoundTrip` | src/c2c/ferry/wire.py:40-62 | for a URI, name and mode without quotes and hop tokens without quotes or commas, parsing the built wrapper gives every field back, the body as unescaped; an empty chain, or one empty token, comes back as none |
| `Wrapper.SpelledOut` | src/c2c/ferry/wire.py:40-48 | the text built for a body without a tag and without a chain, character for character |
| `Wrapper.ParserInvertsGrammar` | src/c2c/ferry/wire.py:16-23 | the pattern matches exactly the printed wrappers, with or without one final newline, and recovers the fields they were printed from |
| `Wrapper.JoinedHeader` | src/c2c/ferry/wire.py:43-48 | the joined attribute list is the header of the grammar |
| `LocalPeers.Receive` | src/c2c/ferry/localpeer.py:73-93 | the read loop yields the concatenation exactly when the stream ends within the limit, and reads no chunk past the one that exceeds it |
| `LocalPeers.Handle` | src/c2c/ferry/localpeer.py:72-122 | the callbacks depend on the concatenation of the chunks alone |
| `LocalPeers.DispatchAppend` | src/c2c/ferry/localpeer.py:112-122 | lines are handled in order, a crash keeps the callbacks made before it and stops the rest |
| `LocalPeers.BlankLineIgnored` | src/c2c/ferry/localpeer.py:95 | blank lines have no meaning anywhere |
| `LocalPeers.CallsNeedTheToken` | src/c2c/ferry/localpeer.py:99-110 | callbacks happen only after the first non-blank line presented the receiver's token |
| `LocalPeers.AuthExactly` | src/c2c/ferry/localpeer.py:99-110 | the first line lets the rest be heard exactly when it is an auth object with the receiver's ASCII token, and raises exactly when it is one whose token, or the receiver's, is not ASCII |
| `LocalPeers.OneLine` | src/c2c/ferry/localpeer.py:112-122 | what each later line does, by the shape of its JSON: passed over, a crash, or one callback with the wrapper's fields and the object's `from` |
| `LocalPeers.SentIsReceived` | src/c2c/ferry/wire.py:65-83 | in whatever chunks it arrives, a framed user message under the receiver's token causes exactly one callback with the fields it was built from, and none under another token |
| `ProjectId.Canonical` | src/c2c/ferry/projectid.py:17-34 | every scheme, `user@host:path` and bare spelling of a well-formed host and path, with or without user, port, `.git` and surrounding whitespace, normalises to lower(host)/path |
| `ProjectId.OuterSlashesDropped` | src/c2c/ferry/projectid.py:34 | slashes before and after the path change nothing |
| `ProjectId.NoCollision` | src/c2c/ferry/projectid.py:17-34 | two well-formed spellings normalise alike exactly when they have the same lower-cased host and the same path |
| `ProjectId.Idempotent` | src/c2c/ferry/projectid.py:17-34 | normalising an id again changes nothing, given an idempotent `lower` |
| `Envelopes.OlderTotal` | src/c2c/hub/mailbox.py:60-65 | (created_at, msg_id) orders any rows with distinct ids |
| `Envelopes.ValidExactly` | src/c2c/envelope.py:25-57 | the checks let an envelope through exactly when each field is as required, spelled out |
| `Envelopes.FaultIsReal` | src/c2c/envelope.py:25-57 | the fault reported names a field that is at fault |

## Left out

- SQLite and JSON internals: the tables are a map and a set with SQL's stated meaning, and JSON is an
  abstract codec. 64-bit overflow of `expires_at` and lone surrogates are not modelled.
- Envelopes.Validate: works on envelopes already given types, so the checks that a raw dict has the
  fields and that they are strings, integers or objects are not part of it. `encode` and `decode`
  with their size limit are not modelled either.
- Tokens, key files, SHA-256 names and the hello frame's own checks; a connection starts with its host.
- The advisory status after a post, `on_hub_status` and the wording of notes. Ferry-authored notes are
  present as their only state, the cool-down map.
- The announcer, reconnect back-off, configuration and signal handling.
- `project_for_cwd`, its cache and the `git` call: the project of a directory is a parameter.
- ProjectId.Canonical: `str.lower` is a parameter, so nothing is said about which hosts are equal up
  to case; ProjectId.NoCollision asks of it only that it makes no slash out of a host without one.
- The order in which a fan-out post visits connections: any order of the recipients is allowed, and
  the laws hold for all of them.
- Reading the registry directory and judging whether a pid is alive: the session list is a parameter.
- LocalPeers.SentIsReceived: asks that the encoder writes each of the two frames on one line that the
  decoder reads back, as a JSON encoder does (section 7 of RFC 8259 forbids raw control characters
  in strings); an error raised by the callback itself is not modelled.
- The exception that a registry entry without a socket causes ends the delivery; what the client's
  task does with it afterwards is not modelled.
- `Dedup.seen`, `pick_target` and `live_projects`: one-line uses of members that are modelled.
- Liveness: redelivery happens only on hello or announce, so only safety is stated.
