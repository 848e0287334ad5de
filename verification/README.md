# Verified model of the Nux Guard, its limiters and its gateway

Nux lets authenticated peers reach local services of a *Guard* through tunnels, and stays silent to
everybody else. This project models the parts that decide who gets in, and proves what they keep.

| module | what it models |
|---|---|
| `Basics` | octets, UTF-8, identities, roles, saturating arithmetic |
| `Wire` | authentication messages, the signed payload, the bounded codec |
| `Whitelists` | the vector of authorised peers, as the finite map it stands for |
| `Tunnels` | the framed tunnel header, the registry, the Guard's decision on a stream |
| `Auth` | the challenge-response authority: whitelist, pending challenges, sessions |
| `Guards` | the whole Guard as a step machine: the service loop and its tunnel tasks, interleaved |
| `GuardRuns`, `GuardShutdown`, `GuardSilence`, `GuardAccounts`, `GuardAdmin` | what holds over whole runs of that machine |
| `GuardExact` | exactly what each event does to each table, to the deadline and to the peer, and what a table therefore holds after any run |
| `GuardScenarios` | runs of that machine that the code's comments may not lead one to expect |
| `GuardMetrics` | the shared counters as 64-bit atomics |
| `GuardLoops` | the loop and a tunnel task as objects updated in place, method by method against the machine |
| `Clients` | the client's side of the handshake, and its composition with a Guard |
| `RateLimits` | the sliding-window limiter of connections, against a naive limiter that forgets nothing |
| `WindowLimiters` | the gateway's fixed-window limiter as interleaved atomic steps |
| `Gateways` | the gateway's live whitelist against the one rebuilt from its stored rows |
| `GatewayRaces` | the same with PUT handlers that interleave |

How the parts fit: an operation that changes fields in place is a method of a class, and its
contract equates the new abstract value with a function of the old one (`Issue`, `Verify`, `OnStream`,
`AllowAt`, …), and says outright what the decision depends on. The step machine is built from the same
functions. Lemmas about those functions and about all runs of the machine carry the results, in terms
of the events and the fields rather than of those functions, so they speak of the methods as well.

One step of the machine is one event handled by the loop, or one action of one task on what tasks
and loop share. The loop's two reservations for a stream are two steps, and a finished task gives its
account up in four (gauge, outcome, peer permit, global permit) or, after a relay, six (the octets of
each direction between outcome and permits), so any interleaving in between is a run. A run starts with a new node and a new authority; a connection older than the loop is a
`Connected` event at its start.

## Assumptions

- The network delivers an authentication request only from a connected peer, and closes only
  connections that were established.
- Signatures are an arbitrary predicate over key, payload and signature. Where a result needs more it
  says so: `Binding` (a signature is accepted on one payload only), `FreshNonces`, `MonotoneClock`,
  `Honest`.
- The octet layout of messages is that of bincode 1 with `DefaultOptions`: little-endian, varint
  lengths and tags, a size limit, trailing octets refused. bincode is not part of this model;
  its layout is written out in `Wire`. UTF-8 is that of sections 3 and 4 of RFC 3629.
- Instants are natural numbers; the clocks are parameters of the operations.
- Atomics are sequentially consistent. The source asks for `Ordering::Relaxed` everywhere, which also
  allows the two atomics of the gateway's limiter to be seen updated out of order.

## Where the code and its comments differ

The model follows the code.

- `crates/nux-core/src/node.rs:709-714` presents the cap per peer as a cap on the tunnels of a peer.
  It caps each semaphore, and a peer gets a new one after its last disconnection or after losing its
  access, while tasks of its former connections may still hold permits of the old one.
  `PeerCapSinceReset` proves the cap since the last such reset, `PeerCapExact` says exactly when it
  holds over all tasks of a peer that hold permits, and `ReconnectionEvadesCap` builds, for every
  number up to the global cap, a run with that many.
- `crates/nux-core/src/auth/mod.rs:65-67` says only whitelisted peers have a pending challenge. They
  are when it is issued; a reload keeps the challenge of a peer it leaves out if that peer has no
  session. `StaleExact` says exactly when a peer off the list has one, `ChallengeOutlivesEntry` builds
  a run, and `PendingConnected` proves the bound that does hold, by the connected peers.
- `crates/nux-core/src/node.rs:773` calls the refusal of a stream during a shutdown the same silence
  as any other refusal. It does not cut the connection, the refusal outside a shutdown does.
  `ShutdownVisible` says exactly when a peer outside the whitelist can tell two Guards apart by it,
  and `ShutdownSeen` builds two that it does.
- `crates/nux-core/src/node.rs:52-55` says new authentications are refused during a shutdown. A
  challenge already issued can still be answered: `LateGrantExact` says exactly when that is granted,
  `LateGrant` bounds how often and how late, and `LateGrantHappens` builds a run.
- `nux_gateway/src/rate_limit.rs:55-58` says a race lets at worst a few requests more through, and
  never fewer. `RaceReachesBound` lets any number of whole caps through in one window, and
  `ExcessExact` says exactly when a window admits more than its cap; `RefusedOnOldCount` is a race
  that refuses too early, and `RefusalExact` says exactly when.
- `crates/nux-core/src/metrics.rs:48-63` and `crates/nux-core/src/tunnel/mod.rs:557-560`: when the
  acknowledgement is written but cannot be flushed, the tunnel counts as denied although its octet may
  have left. `AcknowledgedExact` says exactly when the tunnels counted as opened are those
  acknowledged, and `AcknowledgedButDenied` builds a run where they are not.
- A session is granted before its reply is encoded. When the roles do not fit in one message the
  client reports a denial: `HonestHandshake` says exactly when, `OversizedRoles` gives such roles.
- `nux_gateway/src/roles.rs:1-7` gives each peer its roles. For a Guard that another configuration
  lets in they depend on the order of sends, live (`OrderOfSendsDecides`), and of rows, at a restart
  (`SharedPeerDisagrees`); without such peers neither order matters (`ConcurrentPutsAgree`).

## Model

| member | source | states |
|---|---|---|
| `Wire.ChallengePayloadInjective` | crates/nux-core/src/protocol/mod.rs:51-61 | Two payloads have the same octets if and only if nonce and timestamp are the same, so a signature commits to both |
| `Wire.PayloadOctets` | crates/nux-core/src/protocol/mod.rs:56-61 | The signed octets one by one: the nonce, then the timestamp with its most significant octet first |
| `Wire.RequestRoundTrip` | crates/nux-core/src/protocol/mod.rs:65-76 | A written request followed by any octets parses to that request and leaves exactly those octets |
| `Wire.ResponseRoundTrip` | crates/nux-core/src/protocol/mod.rs:85-100 | The same for every response, with any list of roles |
| `Wire.HeaderBodyRoundTrip` | crates/nux-core/src/protocol/mod.rs:40-49 | The same for the body of a tunnel header |
| `Wire.MessageOctets` | crates/nux-core/src/protocol/mod.rs:65-100 | The octets of every message: its tag and its fields in their order |
| `Wire.RolesOctets` | crates/nux-core/src/protocol/mod.rs:94-97 | The octets of a grant with any number of roles |
| `Wire.VarintOctets` | crates/nux-core/src/protocol/codec.rs:23-27 | The octets of an integer: its width by its size, least significant first |
| `Wire.ResponseShrinks` | crates/nux-core/src/protocol/codec.rs:36-42 | Rewriting an accepted response is never longer than what was read |
| `Wire.EncodeThenDecode` | crates/nux-core/src/protocol/codec.rs:29-42 | Encoding fails exactly above the limit; whatever is encoded decodes to the same value |
| `Wire.DecodeThenEncode` | fuzz/fuzz_targets/decode_request.rs:10-16 | Any accepted octets re-encode within their own length and decode to the same value again |
| `Wire.WireRoundTrips` | crates/nux-core/src/protocol/codec.rs:23-42 | Both laws at once for every request, response and header, within the 64 KiB limit |
| `Wire.NonCanonicalFormsAreAccepted` | crates/nux-core/src/protocol/codec.rs:23-42 | Decoding is not injective: two different inputs are read as the same request |
| `Whitelists.VectorRefinesMap` | crates/nux-core/src/auth/whitelist.rs:13-45 | After any sequence of operations the vector lists each peer once and stands for the map those operations describe |
| `Whitelists.AllowRefines` | crates/nux-core/src/auth/whitelist.rs:26-40 | Replacing the first entry or appending keeps peers distinct and is a map update |
| `Whitelists.RevokeRefines` | crates/nux-core/src/auth/whitelist.rs:43-45 | Filtering the vector keeps peers distinct and removes the peer from the map, and only it |
| `Whitelists.Whitelist.Allow` | crates/nux-core/src/auth/whitelist.rs:26-40 | The in-place update is the map update, and keeps the order of the entries |
| `Whitelists.Whitelist.Revoke` | crates/nux-core/src/auth/whitelist.rs:43-45 | The in-place filter is the removal, and keeps the order of the other entries |
| `Whitelists.Whitelist.Lookup` | crates/nux-core/src/auth/whitelist.rs:49-60 | The full scan that keeps the last match is the lookup in the map |
| `Tunnels.HeaderRoundTrip` | crates/nux-core/src/tunnel/mod.rs:192-229 | A header is written exactly when it fits; reading it back in front of any octets returns it and leaves those octets |
| `Tunnels.FrameOctets` | crates/nux-core/src/tunnel/mod.rs:193-211 | A frame is the length of the header on two octets, most significant first, then the header; nothing beyond 1024 octets |
| `Tunnels.ReadHeaderBounded` | crates/nux-core/src/tunnel/mod.rs:213-229 | On any input at most 2 + 1024 octets are taken off the front, and an accepted header fits in a frame again |
| `Tunnels.CutShort` | crates/nux-core/src/tunnel/mod.rs:215-229 | Whatever front of a written header arrives, if it is not all of it, is no header |
| `Tunnels.CheckRole` | crates/nux-core/src/tunnel/mod.rs:177-190 | The scan without early exit grants exactly when no role is required or the required one is among the roles held |
| `Tunnels.HonestOpen` | crates/nux-core/src/tunnel/mod.rs:239-271 | Client and Guard composed: the client gets a tunnel exactly when it is authorised and the service reachable, else a bare refusal |
| `Tunnels.ByteStream.SendHeader` | crates/nux-core/src/tunnel/mod.rs:193-211 | Sends exactly the frame, its front when the stream breaks on the way, nothing when the header is too long; succeeds exactly when all was written and flushed |
| `Tunnels.ByteStream.ReceiveHeader` | crates/nux-core/src/tunnel/mod.rs:215-229 | Returns the header at the front of the stream and consumes no more than its frame |
| `Tunnels.ReadBounded` | crates/nux-core/src/protocol/codec.rs:49-64 | Returns the whole message or refuses it, and never takes more than one octet beyond the limit |
| `Tunnels.ServeIo` | crates/nux-core/src/tunnel/mod.rs:502-581 | The sequence of early returns emits one acknowledgement exactly when a header came in time and reads, its service is in the registry, the role this requires, if any, is among the roles, the fingerprint expected of the peer, if any, is that of the header, the target is reachable and the stream writable; nothing is sent before that, at most 2 + 1024 octets are taken off the front, and the outcome is served exactly when the octet also left |
| `Tunnels.Open` | crates/nux-core/src/tunnel/mod.rs:239-271 | The client sends the frame; it gets the tunnel exactly when the next octet is 1, a denial exactly when the stream ends, and leaves what follows that octet |
| `Auth.ReloadExact` | crates/nux-core/src/node.rs:847-868 | After a reload the list is the new one, sessions are the old ones it keeps, with its roles, and exactly the dropped sessions lose their pending challenge |
| `Auth.GuardAuthenticator.IssueAt` | crates/nux-core/src/auth/mod.rs:90-108 | A challenge is issued exactly to a whitelisted peer and replaces the one pending |
| `Auth.GuardAuthenticator.VerifyAt` | crates/nux-core/src/auth/mod.rs:117-155 | The pending challenge is consumed in every case; the outcome is the grant of the listed roles, and a session with them, exactly when a challenge was pending for at most 5 s, the timestamp is within 5 s, the peer is listed, and its key accepts the signature on nonce and timestamp |
| `Auth.GuardAuthenticator.CurrentRoles` | crates/nux-core/src/auth/mod.rs:168-175 | Roles of a peer with a session are those of the whitelist now |
| `Auth.GuardAuthenticator.RevokePeer` | crates/nux-core/src/auth/mod.rs:183-191 | The peer leaves list, challenges and sessions, nobody else does, and the result tells whether it had a session |
| `Auth.GuardAuthenticator.CloseSession` | crates/nux-core/src/auth/mod.rs:195-200 | Challenge and session of the peer go, its whitelist entry stays |
| `Guards.InclusionStep` | crates/nux-core/src/node.rs:748-754 | Every step keeps: semaphores only for sessions, sessions only for whitelisted and connected peers |
| `Guards.PermitsStep` | crates/nux-core/src/node.rs:790-816 | Every step of the loop or of a task keeps all permit accounts balanced, also when the second reservation fails |
| `Guards.OwnershipStep` | crates/nux-core/src/node.rs:790-794 | Every step keeps: a semaphore serves one peer for ever, although the table forgets it |
| `Guards.TaskEventsFrame` | crates/nux-core/src/node.rs:810-816 | No task step touches sessions, tables, deadline or authentication counters |
| `Guards.Invariants` | crates/nux-core/src/node.rs:742-889 | The three invariants hold in every state of every run |
| `GuardRuns.PendingSince` | crates/nux-core/src/auth/mod.rs:62-72 | A pending challenge was issued to that peer earlier and has been the pending one ever since |
| `GuardRuns.SessionSince` | crates/nux-core/src/auth/mod.rs:153-154 | A session was granted earlier by an acceptable answer and never closed since |
| `GuardRuns.GrantNeedsFreshIssue` | crates/nux-core/src/auth/mod.rs:124-129 | Between any answer of a peer, right or wrong, and a later grant lies the issue of the challenge that grant consumes: one grant per challenge |
| `GuardRuns.SupersededAnswerRejected` | crates/nux-core/src/auth/mod.rs:65-67 | With fresh nonces, once a newer challenge is out no answer signed for the older one is granted |
| `GuardRuns.NoReplay` | crates/nux-core/src/auth/mod.rs:124-129 | With fresh nonces, no signature is granted twice in a run |
| `GuardRuns.GrantTiming` | crates/nux-core/src/auth/mod.rs:130-137 | With a monotone clock a grant comes within 5 s of its challenge and its timestamp lies from 5 s before to 10 s after it |
| `GuardExact.GrantExact` | crates/nux-core/src/auth/mod.rs:117-155 | An answer is granted, with the whitelist roles, if and only if the challenge of some event is still pending, the peer is listed, both 5 s limits hold and its key accepts the signature on that nonce and timestamp; else the silence |
| `GuardExact.HelloExact` | crates/nux-core/src/node.rs:980-999 | A first request gets a challenge exactly outside a shutdown from a listed peer, else the silence |
| `GuardExact.PendingExact` | crates/nux-core/src/auth/mod.rs:90-155 | Over any event: a challenge is pending exactly when this event issued it or it was and this event did not take it away |
| `GuardExact.SessionExact` | crates/nux-core/src/auth/mod.rs:153-200 | Over any event: a session is open exactly when this event granted it or it was and this event neither closed the last connection nor took the access away |
| `GuardExact.SessionHistory` | crates/nux-core/src/auth/mod.rs:153-200 | After any run a peer has a session if and only if it was granted one and since then no last close and no loss of access came |
| `GuardExact.WhitelistExact` | crates/nux-core/src/node.rs:835-870 | Over any event: only the three commands change the whitelist, each as it says |
| `GuardExact.SemaphoreExact` | crates/nux-core/src/node.rs:765-794 | Over any event: a peer has a semaphore exactly when this stream gave it one or it had one and kept its session |
| `GuardRuns.TaskSince` | crates/nux-core/src/node.rs:771-816 | Every live task serves a stream accepted outside a shutdown from a peer with a session, with the whitelist roles of that moment; the loop went from that acceptance straight to the global permit that started this task, which has been serving the same stream since |
| `GuardRuns.AuthorizationChain` | crates/nux-core/src/node.rs:771-816 | Every octet sent to the peer of a task is one acknowledgement preceded by: a challenge to that peer, a grant consuming it with a signature on exactly that nonce and timestamp, list entry and session kept without a gap until the very stream of this task was accepted, both its permits taken, and at its acceptance roles and fingerprint that satisfy the named service |
| `GuardRuns.AcknowledgedExactly` | crates/nux-core/src/tunnel/mod.rs:502-561 | A served task is acknowledged if and only if a header in time names a service of the registry, the whitelist gave its peer the required role when its own stream was accepted, an expected fingerprint matches, the target is reachable and the octet can be written |
| `GuardRuns.OnlyServeSends` | crates/nux-core/src/tunnel/mod.rs:499-560 | No other event of the machine sends tunnel octets, to anyone |
| `GuardRuns.RelayingWasServed` | crates/nux-core/src/tunnel/mod.rs:544-562 | A relaying tunnel was acknowledged earlier and relays to the address of the service its header named |
| `GuardExact.ServeExact` | crates/nux-core/src/tunnel/mod.rs:544-562 | A served task relays to the address of its service exactly when its tunnel is established, else it is over and its stream dropped |
| `GuardExact.RelayEndExact` | crates/nux-core/src/tunnel/mod.rs:562-580 | The end of a relay drops the stream; after an error it counts as served, with no octets |
| `GuardShutdown.StoppingRun` | crates/nux-core/src/node.rs:771-779 | From the moment a deadline is set: it stays set, live tasks only become fewer, a loop that returned stays returned |
| `GuardShutdown.NoChallenge` | crates/nux-core/src/node.rs:981-988 | From that moment no challenge is issued or sent to anyone |
| `GuardShutdown.LateGrant` | crates/nux-core/src/node.rs:1000-1011 | A later grant consumes a challenge pending when the shutdown began, at most 5 s old, and is the first answer of its peer since: late grants inject into the challenges pending then |
| `GuardShutdown.LateGrantExact` | crates/nux-core/src/node.rs:52-58 | An answer during a shutdown is granted if and only if its peer had a challenge pending when the shutdown began, nothing took it away since, the peer is on the whitelist now, and the answer is timely for that challenge and signed on it |
| `GuardScenarios.LateGrantHappens` | crates/nux-core/src/node.rs:1000-1011 | A run in which a session is granted after the shutdown was ordered |
| `GuardExact.DeadlineExact` | crates/nux-core/src/node.rs:827-834 | After any run there is a deadline if and only if a shutdown was ordered, and it lies the grace period of the last order after that order |
| `GuardExact.ShutdownEffect` | crates/nux-core/src/node.rs:827-834 | The order sets this deadline, does nothing else and sends nothing |
| `GuardExact.LoopReturns` | crates/nux-core/src/node.rs:875-886 | The loop returns exactly at a drain tick that finds no live task or comes no earlier than the grace period of the last order after that order; a tick changes nothing else |
| `GuardExact.ClosedForGood` | crates/nux-core/src/node.rs:871-872 | After the control channel was found closed no command follows |
| `GuardSilence.OutsiderSees` | crates/nux-core/src/node.rs:1020-1027 | What a peer outside the whitelist sees is a function of its own inputs and the shutdown flag |
| `GuardSilence.RadioSilence` | crates/nux-core/src/node.rs:780-789 | Two Guards with different registries, keys, lists, sessions and traffic look the same to a peer on neither list that treats them alike, and never send it an octet |
| `GuardSilence.ShutdownVisible` | crates/nux-core/src/node.rs:771-789 | Two runs of any two Guards with a peer on neither list and the same inputs from it look different to it if and only if some stream of it met different shutdown flags |
| `GuardScenarios.ShutdownSeen` | crates/nux-core/src/node.rs:772-779 | Two such runs that the peer tells apart by a single stream |
| `GuardSilence.ServeSeen` | crates/nux-core/src/tunnel/mod.rs:499-560 | Of a served stream its peer sees nothing but the end exactly when the attempt did not reach the acknowledgement; otherwise it sees that octet |
| `GuardSilence.RefusalsAlike` | crates/nux-core/src/tunnel/mod.rs:466-476 | Under any two configurations and states, a refused attempt looks like another attempt if and only if that one is refused too, whatever the reasons |
| `GuardAccounts.EventAccounting` | crates/nux-core/src/metrics.rs:32-63 | In every state streams received are opened, denied, active, being reserved for or between a task's two counter writes; requests are granted, denied or challenged; the gauge is exact, never negative, never above the global cap |
| `GuardAccounts.CountersExact` | crates/nux-core/src/metrics.rs:32-63 | The counters of grants and opened tunnels count exactly the grants and established tunnels of the run |
| `GuardAccounts.BytesExact` | crates/nux-core/src/metrics.rs:48-59 | The octets relays reported, in each direction, are counted or still owed by a finished task |
| `GuardAccounts.AcknowledgedExact` | crates/nux-core/src/tunnel/mod.rs:557-560 | Established tunnels are at most those acknowledged, and equal to them if and only if no acknowledgement failed to be flushed |
| `GuardScenarios.AcknowledgedButDenied` | crates/nux-core/src/tunnel/mod.rs:557-560 | A run in which one octet is sent and the only tunnel ends up counted as denied, none as opened |
| `GuardAccounts.ConnectionsExact` | crates/nux-core/src/node.rs:910-915 | A peer with a session has an open connection; the number of connections kept is the number open |
| `GuardAccounts.AdmissionExact` | crates/nux-core/src/node.rs:771-800 | A stream passes the first half exactly outside a shutdown, with a session and fewer live tasks on the peer's semaphore than the cap; it is dropped otherwise, and its peer cut off exactly for want of a session outside a shutdown |
| `GuardAccounts.ReservationExact` | crates/nux-core/src/node.rs:801-816 | A reserved stream becomes a task exactly when live tasks are below the global cap; otherwise nothing but the refusal remains |
| `GuardAccounts.TablesIncluded` | crates/nux-core/src/node.rs:748-754 | In every state the table of semaphores is no larger than the whitelist, as its comment claims |
| `GuardAccounts.PermitConservation` | crates/nux-core/src/node.rs:751-816 | In every state free global permits and live tasks make up the global cap, and every semaphore ever created accounts for all its permits |
| `GuardAccounts.OneSemaphore` | crates/nux-core/src/node.rs:765-768 | All live streams a peer had accepted since its last reset draw on the semaphore it has in the table |
| `GuardAccounts.PeerCapSinceReset` | crates/nux-core/src/node.rs:790-800 | Streams of a peer accepted since its last full disconnection or loss of access never exceed the cap together |
| `GuardAccounts.PeerCapExact` | crates/nux-core/src/node.rs:790-816 | On accepting a stream, all live streams of the peer are within the cap if and only if those older than its present semaphore fit in what that semaphore has left |
| `GuardScenarios.ReconnectionEvadesCap` | crates/nux-core/src/node.rs:765-768 | For every number up to the global cap there is a run, with fresh nonces and a monotone clock, in which that many tasks of one peer still hold permits, whatever the positive cap per peer |
| `GuardAdmin.ReloadEffect` | crates/nux-core/src/node.rs:847-870 | In any run a reload keeps exactly the sessions on the new list, cuts and deprives of its semaphore exactly each other authenticated peer, and changes nothing else |
| `GuardAdmin.AuthorisationEffect` | crates/nux-core/src/node.rs:843-846 | New roles apply at once to a session under way; nobody is cut off and nothing else changes |
| `GuardAdmin.RevocationEffect` | crates/nux-core/src/node.rs:835-842 | The peer leaves all tables at once and is cut off exactly when it had a session; every table stays as it is for every other peer, and nothing else changes |
| `GuardAdmin.RevocationHolds` | crates/nux-core/src/auth/mod.rs:157-167 | Until readmitted it gets no challenge, no session and no new tunnel: every task serving it was serving it at the revocation, and octets reach it from these only |
| `GuardAdmin.PendingConnected` | crates/nux-core/src/auth/mod.rs:65-72 | In every state only connected peers have a challenge pending, so there are no more of these than connected peers |
| `GuardAdmin.StaleExact` | crates/nux-core/src/auth/mod.rs:65-67 | A peer off the list has a challenge pending if and only if a reload left it out while it had one and no session, and nothing has taken the challenge away or put the peer back since |
| `GuardScenarios.ChallengeOutlivesEntry` | crates/nux-core/src/node.rs:847-870 | A run with one challenge pending and an empty whitelist |
| `GuardMetrics.Metrics.RecordTunnelFinished` | crates/nux-core/src/metrics.rs:48-63 | Every 64-bit counter, the gauge and both octet counters included, shows the exact count modulo 2 to the power 64; the exact counts change by this outcome, in the order of the source |
| `GuardMetrics.WrappedSum` | crates/nux-core/src/metrics.rs:32-46 | Atomic additions and subtractions that wrap lose nothing but multiples of 2 to the power 64, and below that a counter is exact |
| `GuardLoops.SettledEnd` | crates/nux-core/src/node.rs:811-815 | The settling steps of a task in a row count its outcome once, give both permits back and end it, after a refusal and after a relay |
| `GuardLoops.GuardLoop.HandleConnectionClosed` | crates/nux-core/src/node.rs:764-770 | Only the last connection of a peer takes semaphore, challenge and session with it |
| `GuardLoops.GuardLoop.HandleAuthRequest` | crates/nux-core/src/node.rs:973-1018 | State, counters and outputs are those of the machine's step in all branches |
| `GuardLoops.GuardLoop.HandleStream` | crates/nux-core/src/node.rs:771-800 | The first half of a stream, with its three refusals, is the machine's step |
| `GuardLoops.GuardLoop.ReserveGlobalPermit` | crates/nux-core/src/node.rs:801-816 | The second half is the machine's step, and gives the peer permit back on failure |
| `GuardLoops.GuardLoop.HandleShutdown` | crates/nux-core/src/node.rs:827-834 | The deadline becomes the instant plus the grace period and nothing else changes |
| `GuardLoops.GuardLoop.HandleRevoke` | crates/nux-core/src/node.rs:835-842 | Removing the semaphore only when there was a session is the machine's step |
| `GuardLoops.GuardLoop.HandleAllow` | crates/nux-core/src/node.rs:843-846 | Updates the whitelist in place and nothing else |
| `GuardLoops.GuardLoop.ToRevoke` | crates/nux-core/src/node.rs:851-854 | Collects exactly the authenticated peers the new list leaves out |
| `GuardLoops.GuardLoop.HandleReload` | crates/nux-core/src/node.rs:847-870 | Replacing the list and revoking peer by peer is the one-step reload; the loop removes nothing from the new list |
| `GuardLoops.GuardLoop.HandleDrainTick` | crates/nux-core/src/node.rs:875-886 | The two exits of the loop are the machine's |
| `GuardLoops.GuardLoop.Finish` | crates/nux-core/src/node.rs:811-815 | The end of a task is the machine's settling steps in a row |
| `GuardLoops.GuardLoop.RunTask` | crates/nux-core/src/node.rs:810-816 | A whole task run alone, `ServeIo` on a stream included, is the machine's task steps, and writes to its stream only what the machine emits |
| `Clients.Authenticate` | crates/nux-core/src/node.rs:442-492 | On any sequence of events the loop returns roles if and only if those events hold a challenge it could sign and then the grant of those roles, each the first event about its request; what it sends and all its other results are those of the client machine |
| `Clients.AcceptedExact` | crates/nux-core/src/node.rs:444-492 | On any sequence of events the client returns roles if and only if the first event about its first request was a challenge it could sign and the next about its answer granted those roles; it then sent exactly these two requests |
| `Clients.FailureExact` | crates/nux-core/src/node.rs:470-488 | A lost connection or request and a denial end it as denied, a failing signer as that, a reply out of turn as a protocol error; with one request sent before a challenge, with two after |
| `Clients.DoneStays` | crates/nux-core/src/node.rs:470-488 | After it has returned no event changes the result or sends a request |
| `Clients.ClientAnswers` | crates/nux-core/src/auth/mod.rs:222-232 | An issued challenge reaches the client through the codec and its signed answer survives the way back |
| `Clients.ReplyVerdict` | crates/nux-core/src/node.rs:1000-1016 | A delivered reply to an answer ends the client as accepted with exactly the whitelist roles if and only if the Guard granted and they fit in one message, else as denied |
| `Clients.AcceptedMeansGranted` | crates/nux-core/src/node.rs:456-485 | On any sequence of events, with replies lost, delayed or reordered but not forged, roles are returned only after a grant in the Guard run, and they are those of the whitelist at that grant |
| `Clients.HonestHandshake` | crates/nux-core/src/node.rs:425-493 | An honest whitelisted client, undisturbed at the Guard while anything else goes on, with any unrelated events before and between the replies and any events after, gets exactly its current whitelist roles if and only if both 5 s checks hold and the roles fit in one message, else a denial; it sends just the two requests |
| `Clients.OversizedRoles` | crates/nux-core/src/protocol/mod.rs:94-97 | There are roles, one role suffices, that no message can carry |
| `RateLimits.PruneExact` | crates/nux-core/src/rate_limit.rs:111-118 | On instants in order pruning keeps exactly those within the window |
| `RateLimits.LimiterMatchesNaive` | crates/nux-core/src/rate_limit.rs:84-130 | After any calls it decides as a limiter that forgets nothing, except that an untracked address is refused when enough addresses are active in the window: if and only if |
| `RateLimits.ExemptAlwaysAdmitted` | crates/nux-core/src/rate_limit.rs:71-87 | From the call that exempts an address on, and only then, every attempt of it is admitted and leaves table and log as they were |
| `RateLimits.SlidingWindowSafety` | crates/nux-core/src/rate_limit.rs:58-69 | In any run, any closed interval of one window accepts at most the maximum per address, despite sweeps, forgetting and re-insertion |
| `RateLimits.MemoryBound` | crates/nux-core/src/rate_limit.rs:42-45 | In any run the table has at most its maximum of addresses, each with few instants in order, none older than two windows after a counted attempt |
| `RateLimits.RateLimiter.Allow` | crates/nux-core/src/rate_limit.rs:84-109 | An exempt address is admitted and changes nothing; otherwise the in-place code with its sweeps and early returns is the table function the results are about |
| `RateLimits.RateLimiter.PruneHits` | crates/nux-core/src/rate_limit.rs:111-118 | The popping loop is the pruning function |
| `RateLimits.RateLimiter.SweepAll` | crates/nux-core/src/rate_limit.rs:122-129 | Visiting addresses in any order prunes all of them and forgets exactly the empty ones |
| `RateLimits.RateLimiter.AddExemption` | crates/nux-core/src/rate_limit.rs:74-77 | Exempts the address and leaves the table alone |
| `WindowLimiters.CountExact` | nux_gateway/src/rate_limit.rs:59-67 | Under every interleaving, admissions since the counter was last zero are the counter up to the cap; a caller is refused exactly after a whole cap of them |
| `WindowLimiters.CounterWidth` | nux_gateway/src/rate_limit.rs:37-42 | Under every interleaving an addition adds one, except at the largest 32-bit value, which becomes zero |
| `WindowLimiters.InterleavedBound` | nux_gateway/src/rate_limit.rs:59-67 | Under every interleaving, admissions are at most one cap more than the zeroings of the counter, times the cap |
| `WindowLimiters.RaceReachesBound` | nux_gateway/src/rate_limit.rs:54-67 | For every number of racing callers there is a run that admits that many whole caps in one window and, with the window before, reaches the bound on interleavings |
| `WindowLimiters.ExcessExact` | nux_gateway/src/rate_limit.rs:54-67 | A caller is admitted beyond a whole cap of its window if and only if the counter was zeroed after the window's start was stored and the admissions before that zeroing make up, with the counter, a whole cap; a window not zeroed again keeps its cap |
| `WindowLimiters.RefusalExact` | nux_gateway/src/rate_limit.rs:54-58 | A refused caller saw a whole cap admitted in its window if and only if the counter was zeroed since the window's start was stored, or was zero then, or the cap is zero |
| `WindowLimiters.RefusedOnOldCount` | nux_gateway/src/rate_limit.rs:63-66 | A concrete run in which a caller between the two stores is refused although its window admitted nobody |
| `WindowLimiters.UninterruptedSteps` | nux_gateway/src/rate_limit.rs:59-67 | The atomic steps of one caller in a row are the sequential function |
| `WindowLimiters.SequentialBound` | nux_gateway/src/rate_limit.rs:54-67 | Sequentially, any half-open interval of one window admits at most twice the cap |
| `WindowLimiters.DoubleBurst` | nux_gateway/src/rate_limit.rs:54-67 | Twice the cap is reached, for every positive cap and window of at least two seconds |
| `WindowLimiters.WindowLimiter.Allow` | nux_gateway/src/rate_limit.rs:59-67 | The in-place code run alone is the sequential function |
| `Gateways.CollectRoles` | nux_gateway/src/roles.rs:27-47 | The Guard with both roles, then each readable allowed peer in order with the client role |
| `Gateways.GivesExact` | nux_gateway/src/roles.rs:22-47 | Applied in order, one configuration leaves a peer it lets in with the client role only, otherwise its Guard with both |
| `Gateways.ValidateInput` | nux_gateway/src/handlers/configs.rs:15-46 | Accepts exactly a positive rate window, readable exempt addresses and allowed peers, and checksums with a readable peer and a digest of 32 octets |
| `Gateways.RebuildWhitelist` | nux_gateway/src/main.rs:116-135 | The nested loops build the map of all mentions in row order |
| `Gateways.RebuiltLast` | nux_gateway/src/main.rs:128-133 | Rebuilt, a peer has the roles the last row naming it gives |
| `Gateways.LiveLast` | nux_gateway/src/handlers/configs.rs:89-99 | Live, a peer has the roles of its last mention in the start rows and the accepted PUTs |
| `Gateways.UpsertExact` | nux_gateway/src/handlers/configs.rs:74-79 | On rows with distinct uuids a write leaves its row as the only one of its uuid, and every other row where it was |
| `Gateways.StoredExact` | nux_gateway/src/handlers/configs.rs:71-87 | After a start and any PUTs the stored row of a uuid is that of the last accepted PUT for it, or else that of the start, one for each uuid |
| `Gateways.RoleNames` | nux_gateway/src/roles.rs:19-20 | The octets of the two role names |
| `Gateways.AgreementExact` | nux_gateway/src/main.rs:112-135 | Rebuilding gives a peer its live roles in every row order if and only if every stored row naming it gives it those roles |
| `Gateways.LiveAgreesWithRebuilt` | nux_gateway/src/handlers/configs.rs:48-51 | When no peer is both a Guard and let in, live agrees with rebuilt on every rebuilt peer after any start and PUTs and in any row order; they are equal if and only if no PUT dropped a peer for good |
| `Gateways.SharedPeerDisagrees` | nux_gateway/src/roles.rs:1-7 | For a Guard let in by another, a restart can give back the Guard role it lacks live |
| `Gateways.Gateway.PutConfig` | nux_gateway/src/handlers/configs.rs:52-102 | A refused configuration and a failed write change nothing; otherwise the row is the only one stored for its uuid, the rows of other uuids are kept and, while the node runs, its mentions are sent in order; stored rows stay those of the saved PUTs, and so does what the live whitelist will be once the channel is empty |
| `Gateways.Gateway.StoreRow` | nux_gateway/src/handlers/configs.rs:74-79 | The row is then the only one of its uuid, and the rows of other uuids are kept |
| `Gateways.Gateway.Deliver` | crates/nux-core/src/node.rs:843-846 | Handling one command between PUTs keeps that agreement, with commands still in the channel |
| `Gateways.Gateway.Drain` | nux_gateway/src/main.rs:108-110 | Once every command is handled the live whitelist is exactly the one the results about PUTs speak of, however PUTs and commands alternated |
| `GatewayRaces.ConcurrentPutsAgree` | nux_gateway/src/handlers/configs.rs:71-99 | However the row writes and single sends of concurrent PUTs and the node's handling interleave: when no peer is both a Guard and let in, at any quiet moment live agrees with rebuilt on every rebuilt peer in any row order, and they are equal if and only if every peer served live is still named by a stored row |
| `GatewayRaces.ConcurrentRowsExact` | nux_gateway/src/handlers/configs.rs:71-87 | However handlers interleave, the stored row of a uuid is the last one written for it, or that of the start |
| `GatewayRaces.OrderOfSendsDecides` | nux_gateway/src/handlers/configs.rs:89-99 | Otherwise, with the same rows written in the same order, a Guard let in by another ends up with one or two roles depending on whose commands are sent first |
| `GatewayRaces.AloneIsOnePut` | nux_gateway/src/handlers/configs.rs:52-102 | The steps of one handler in a row are one uninterrupted PUT |

## Left out

- libp2p, Noise, Yamux, QUIC, relays, DCUtR and rendezvous: only the events the Guard's loop sees.
- Cryptography, random numbers and clocks: an arbitrary signature predicate and parameters.
- Constant-time execution of the scans: timing is not expressible; their results are proved.
- The relay itself (`copy_bidirectional`), TCP and Unix sockets, peer user ids, forward listeners: a relay ends with some outcome.
- The waiting for a connection at the start of `authenticate`, reconnection and backoff: waiting for network events.
- Liveness: no fairness is assumed, so that a tunnel does end is not claimed, only what holds when the loop returns.
- A tunnel task that panics or is aborted, and a loop started again on a node that is shutting down.
- Tunnels.ServeIo: the local connection and the relay are parameters.
- GuardLoops.GuardLoop.HandleStream: semaphores are numbered permit counts in a map of the loop, not shared objects with reference counts.
- GuardLoops.GuardLoop.RunTask: one task run without interruption; interleavings are in the step machine.
- Gateways.Gateway.PutConfig: one PUT at a time; handlers that interleave are in `GatewayRaces`, where a node that stops is not modelled.
- WindowLimiters.InterleavedBound: counts a wrap-around of the 32-bit counter as a zeroing rather than excluding it.
- The builder methods of the tunnel registry: the registry is a value, unchanged while the loop runs.
- The connection-limiter plumbing of libp2p around `RateLimiter`, with its branch for addresses without an IP: only easy members.
- Parsing of peer identities, IP addresses and hexadecimal digests: arbitrary functions. The conversion of rows to and from JSON is taken to round-trip.
- Command line, TOML, `sync-config`, HTTP handlers, SQLite, key files, process hardening, binary hashing, Prometheus text, the relay daemon's counters.
