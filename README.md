# Raft node consensus core, in Dafny

This project models the per-node state machine of the ns-3 Raft simulation in
`raft/model/raft-node.cc`. Each node:

- starts an election when its randomised election timer fires (`sendVote`);
- grants at most one vote while `has_voted` is clear;
- counts VOTE_RES answers and becomes leader on `vote_success + 1 > N / 2`;
- as leader, broadcasts heartbeats every 20 ms (`sendHeartBeat`);
- ten seconds after winning, attaches a proposal (its own id) to the next heartbeat (`setProposal`);
- counts HEARTBEAT_RES answers in rounds of `N - 2`. The handler has no `is_leader`
  guard, so the model counts them at whichever node receives one, leader or not.

Followers re-arm their election timer on a normal heartbeat. On a proposal heartbeat they
adopt the carried value and cancel the timer; only a later normal heartbeat re-arms it.

Every message is three octets. Each written octet is `'0' + d` for a small integer `d`
(`intToChar`), read back as `c - '0'` (`charToInt`). The receiver rebuilds its text from
the per-sender buffer followed by the payload read as a C string (`getPacketContent`).

Layout:

- `codec.dfy` (module `Codec`): the digit codec and the packet reassembly.
- `protocol.dfy` (module `Protocol`): the node's fields as a value (`NodeState`), and one
  function per handler and per timer callback.
  - Timers are flags: `electionArmed`, `heartbeatArmed`, and `proposalScheduled` for the
    one-shot `setProposal`.
  - Everything handed to `Send` is appended to an `outbox` as a destination (the sender or
    every peer) and the three slots transmitted.
  - The slot the source never writes (`data[2]` of a vote request and of a normal
    heartbeat) is `Unset`.
  - The header constants (VOTE_REQ, VOTE_RES, HEARTBEAT, HEARTBEAT_RES, HEART_BEAT,
    PROPOSAL, SUCCESS, FAILED) and `N` are parameters of a `Config`. Each code is a digit,
    the four `switch` labels are distinct, SUCCESS differs from FAILED, and `N >= 1`.
- `node.dfy` (module `Node`): the `RaftNode` object, with fields updated in place by
  methods that follow the source statement by statement.
  - Each method is proved to leave the object in the state the `Protocol` function computes
    from the old one.
  - `HandleRead` loops over the packets with a loop invariant.
  - `Send` copies the first three slots of a local array into the outbox.
- `properties.dfy` (module `Properties`):
  - what each `switch` case does;
  - the majority arithmetic;
  - an invariant every step keeps;
  - how a message one node sends is handled by the node that receives it.
- `runs.dfy` (module `Runs`): a node's life as a sequence of events (packet deliveries and
  timer fires). Its lemmas hold over every such run: the invariant, leadership that is
  never lost, at most one vote granted per release, and the silence of a node whose
  election timer is cancelled.
- `scenarios.dfy` (module `Scenarios`): the tallies over several answers. This covers the
  HEARTBEAT_RES round, clusters too small for it ever to complete, and a five-node election
  that the loss test ends early.

The `Protocol` handler functions (`OnVoteRequest`, `OnHeartbeat`, `OnVoteResponse`,
`OnHeartbeatResponse`, `Dispatch`, `Receive` (one pass of the `HandleRead` loop), `ReadAll`,
`SendVote`, `SendHeartBeat`, `SetProposal`, `Start`), their helpers (`Wins`, the majority
test of :197 and :230; `IsProposalAck`, the test of :224; `VoteReply` and
`HeartbeatReply`, the replies built at :148-157 and :163-180; `Initial`, the node before
`StartApplication`) and `Codec.PacketContent` carry no contracts of their own. What they promise is stated by the methods and
lemmas in the table below.

## Model

| member | source | states |
|---|---|---|
| Codec.IntToChar | raft/model/raft-node.cc:50-52 | a digit 0..9 is sent as one of the characters '0'..'9' |
| Codec.SignedChar | raft/model/raft-node.cc:54-56 | an octet read through a signed `char` lies in -128..127 and is congruent to the octet modulo 256 |
| Codec.CharToInt | raft/model/raft-node.cc:54-56 | every octet decodes to a value in -176..79 that `intToChar` turns back into the same octet |
| Codec.DigitRoundTrip | raft/model/raft-node.cc:50-56 | `charToInt(intToChar(a)) == a` exactly when -176 <= a < 80, so for every digit |
| Codec.IntToCharInjective | raft/model/raft-node.cc:50-52 | distinct values in the carried range are sent as distinct octets |
| Codec.CString | raft/model/raft-node.cc:261-268 | the text a NUL-terminated buffer holds is a prefix of the payload without NUL, ending at the first NUL or at the end |
| Codec.PacketContentLayout | raft/model/raft-node.cc:259-272 | the rebuilt text starts with the sender's buffered bytes; with no NUL in the payload it is buffer + payload, and with nothing buffered it is the payload |
| Protocol.Half | raft/model/raft-node.cc:197 | `N / 2` truncates toward zero: `2h <= N < 2h + 2` for N >= 0 |
| Node.RaftNode.constructor | raft/model/raft-node.cc:41-43 | a new node has no timer pending, has sent nothing and is not leader |
| Node.RaftNode.StartApplication | raft/model/raft-node.cc:72-110 | value, tallies, `has_voted` and `add_change_value` are reset; the proposal is `intToChar(m_id)`; the election timer is armed; leadership and outbox are untouched |
| Node.RaftNode.Send | raft/model/raft-node.cc:281-321 | exactly the first three slots of the buffer are appended to the outbox, with the destination |
| Node.RaftNode.SendVote | raft/model/raft-node.cc:325-334 | the node votes for itself, broadcasts VOTE_REQ with its id and re-arms the election timer |
| Node.RaftNode.SendHeartBeat | raft/model/raft-node.cc:338-357 | with the proposal flag, a proposal heartbeat (kind 1, carrying `m_id`) is broadcast, `m_value` becomes `m_id` and the heartbeat loop stops; otherwise a normal heartbeat (kind 0) is broadcast and the loop re-armed; either way `has_voted` is set |
| Node.RaftNode.SetProposal | raft/model/raft-node.cc:361-363 | sets the proposal flag and nothing else |
| Node.RaftNode.HandleMessage | raft/model/raft-node.cc:143-251 | the switch on the first character leaves the node in the state `Dispatch` computes |
| Node.RaftNode.HandleVoteRequest | raft/model/raft-node.cc:145-159 | case VOTE_REQ matches `OnVoteRequest` |
| Node.RaftNode.HandleHeartbeat | raft/model/raft-node.cc:161-182 | case HEARTBEAT matches `OnHeartbeat` |
| Node.RaftNode.HandleVoteResponse | raft/model/raft-node.cc:184-219 | case VOTE_RES, including the nested `sendHeartBeat` call, matches `OnVoteResponse` |
| Node.RaftNode.HandleHeartbeatResponse | raft/model/raft-node.cc:221-244 | case HEARTBEAT_RES matches `OnHeartbeatResponse` |
| Node.RaftNode.HandleRead | raft/model/raft-node.cc:119-255 | the loop handles the packets in order, up to the first empty one, each rebuilt and dispatched; the result equals `ReadAll` |
| Properties.MajorityTest | raft/model/raft-node.cc:197 | `vote_success + 1 > N / 2` holds exactly when own vote plus grants are a strict majority of N |
| Properties.VoteRequestHandling | raft/model/raft-node.cc:145-159 | a node that has not voted grants and becomes bound; one that has voted denies; only `has_voted` and the outbox change |
| Properties.SecondVoteRequestDenied | raft/model/raft-node.cc:148-156 | of two vote requests in a row, from any candidates, the second is denied |
| Properties.HeartbeatHandling | raft/model/raft-node.cc:161-182 | a heartbeat is answered with HEARTBEAT_RES, reply kind and SUCCESS; a normal one re-arms the election timer; any other kind sets `m_value` to the carried digit and cancels the timer |
| Properties.VoteResponseHandling | raft/model/raft-node.cc:184-219 | a leader ignores VOTE_RES; otherwise one tally grows; a strict majority makes the node leader with tallies reset, election timer cancelled, proposal scheduled and one heartbeat broadcast; `vote_failed >= N / 2` resets the tallies and releases the vote; else only the tallies change |
| Properties.HeartbeatResponseHandling | raft/model/raft-node.cc:221-244 | one tally grows, except when N - 2 answers are in: then both reset and the heartbeat timer is cancelled on a majority only; nothing else changes |
| Properties.UnknownTypeIgnored | raft/model/raft-node.cc:246-250 | a type digit naming no message changes nothing and sends nothing |
| Properties.EmptyTextIgnored | raft/model/raft-node.cc:125-131 | an empty packet ends the read loop with the state unchanged; with nothing buffered from the sender, a packet starting with NUL decodes to empty text and is ignored |
| Properties.StartEstablishesInv | raft/model/raft-node.cc:72-110 | after `StartApplication` the node is a follower with the election timer armed, and the invariant holds |
| Properties.DispatchKeepsInv | raft/model/raft-node.cc:143-251 | every switch case keeps the invariant: tallies >= 0, proposal scheduled iff leader, proposal flag only once scheduled, a leader has voted, and a leader of N >= 3 nodes keeps its tallies below N - 2 |
| Properties.RequestsKeepInv | raft/model/raft-node.cc:145-182 | VOTE_REQ and HEARTBEAT keep the invariant |
| Properties.VoteResponseKeepsInv | raft/model/raft-node.cc:184-219 | VOTE_RES keeps the invariant, including on winning |
| Properties.HeartbeatResponseKeepsInv | raft/model/raft-node.cc:221-244 | HEARTBEAT_RES keeps the invariant: the round resets the tallies when they reach N - 2 |
| Properties.TimersKeepInv | raft/model/raft-node.cc:325-363 | `sendVote`, `sendHeartBeat` (at any node) and a scheduled `setProposal` keep the invariant |
| Properties.ValueOnlyFromProposal | raft/model/raft-node.cc:172-174 | under the invariant, `m_value` changes on a delivery only through a heartbeat of a non-normal kind, and then to the digit it carries |
| Properties.OthersKeepValue | raft/model/raft-node.cc:145-244 | under the invariant VOTE_REQ, VOTE_RES (winning included) and HEARTBEAT_RES keep `m_value` |
| Properties.LeaderDeniesVotes | raft/model/raft-node.cc:145-159 | under the invariant a leader denies every vote request and changes nothing but its outbox |
| Properties.OnWire | raft/model/raft-node.cc:281-284 | the octets a receiver gets keep every written slot; an unwritten slot holds whatever the buffer held |
| Properties.VoteRequestOnWire | raft/model/raft-node.cc:325-331 | every peer handles the request `sendVote` broadcasts as VOTE_REQ, whatever fills the unwritten slot |
| Properties.ProposalOnWire | raft/model/raft-node.cc:341-346 | for `m_id` < 80, a follower receiving the proposal heartbeat adopts the leader's id and cancels its election timer, exactly when HEART_BEAT is not 1 |
| Properties.NormalHeartbeatOnWire | raft/model/raft-node.cc:350-353 | a normal heartbeat re-arms the follower's election timer exactly when HEART_BEAT is 0 |
| Properties.HeartbeatReplyOnWire | raft/model/raft-node.cc:221-226 | a follower's heartbeat reply counts as an acknowledgement at the leader exactly when PROPOSAL equals the reply kind written |
| Properties.HeartbeatReplyRead | raft/model/raft-node.cc:163-180 | a heartbeat reply is read back as HEARTBEAT_RES with the written kind and SUCCESS, and is an acknowledgement exactly when PROPOSAL equals that kind |
| Properties.VoteReplyOnWire | raft/model/raft-node.cc:184-191 | a vote reply counts as a grant at the candidate exactly when the voter had not voted |
| Properties.VoteReplyRead | raft/model/raft-node.cc:147-156 | a vote reply is read back as VOTE_RES with the written status, and that status is SUCCESS exactly for a grant |
| Runs.Run | raft/model/raft-node.cc:125-254 | over any sequence of deliveries and armed timer fires, nothing already sent is taken back |
| Runs.StepMonotone | raft/model/raft-node.cc:119-363 | a step sends at most one message, keeps earlier ones and never takes leadership away |
| Runs.DispatchMonotone | raft/model/raft-node.cc:143-251 | each switch case sends at most one message and keeps leadership |
| Runs.RequestsMonotone | raft/model/raft-node.cc:145-182 | VOTE_REQ and HEARTBEAT each keep leadership and earlier messages and append exactly one reply |
| Runs.VoteResponseMonotone | raft/model/raft-node.cc:184-219 | VOTE_RES keeps leadership and sends at most one message; when it sends one, a non-leader has just become leader and the message is a HEARTBEAT |
| Runs.HeartbeatResponseMonotone | raft/model/raft-node.cc:221-244 | HEARTBEAT_RES keeps leadership and leaves the outbox exactly as it was |
| Runs.Deliveries | raft/model/raft-node.cc:125-131 | a read handles its packets in order, all of them or up to (not including) the first empty one |
| Runs.ReadAllIsRun | raft/model/raft-node.cc:119-255 | one `HandleRead` call equals the run of its deliveries |
| Runs.StepKeepsInv | raft/model/raft-node.cc:119-363 | each delivery or armed timer fire keeps the invariant |
| Runs.RunKeepsInv | raft/model/raft-node.cc:72-363 | the invariant holds after any run from a state satisfying it, in particular after start-up |
| Runs.LeaderStaysLeader | raft/model/raft-node.cc:184-219 | once leader, always leader |
| Runs.RepliesThatAreNotGrants | raft/model/raft-node.cc:145-182 | a denial and a heartbeat reply are never granting vote replies |
| Runs.DispatchPotential | raft/model/raft-node.cc:143-251 | a switch case grants a vote only while the vote is free, and the grant binds it |
| Runs.VoteRequestPotential | raft/model/raft-node.cc:145-159 | VOTE_REQ grants at most once per free vote |
| Runs.HeartbeatPotential | raft/model/raft-node.cc:161-182 | HEARTBEAT grants no vote: the grant count of the outbox is unchanged |
| Runs.VoteResponsePotential | raft/model/raft-node.cc:184-219 | VOTE_RES grants no vote: the grant count of the outbox is unchanged (a loss may release the vote, and a win binds it again through `sendHeartBeat`) |
| Runs.HeartbeatResponsePotential | raft/model/raft-node.cc:221-244 | HEARTBEAT_RES grants no vote: the grant count of the outbox is unchanged |
| Runs.HeartbeatIsNoGrant | raft/model/raft-node.cc:338-357 | `sendHeartBeat` binds the vote and grants nothing |
| Runs.StepPotential | raft/model/raft-node.cc:119-363 | a step grants at most one vote, and only if the vote was free or the step released it |
| Runs.GrantsBoundedByReleases | raft/model/raft-node.cc:145-159 | over any run, grants are at most the releases of the vote, plus one if it was free at the start |
| Runs.CancelledElectionStaysSilent | raft/model/raft-node.cc:171-175 | a node with a cancelled election timer broadcasts no vote request and keeps the timer cancelled until a normal heartbeat arrives |
| Runs.StepStaysSilent | raft/model/raft-node.cc:119-363 | one step of the above |
| Runs.VoteRequestStaysSilent | raft/model/raft-node.cc:145-159 | VOTE_REQ leaves the election timer alone and broadcasts nothing: every message it adds goes back to the candidate |
| Runs.ProposalBeatStaysSilent | raft/model/raft-node.cc:171-175 | a non-normal heartbeat cancels the election timer and broadcasts nothing: every message it adds goes back to the leader |
| Runs.VoteResponseStaysSilent | raft/model/raft-node.cc:184-219 | VOTE_RES never arms the election timer and never sends a vote request |
| Runs.HeartbeatResponseStaysSilent | raft/model/raft-node.cc:221-244 | HEARTBEAT_RES touches neither the election timer nor the outbox |
| Runs.HeartbeatIsNoVoteRequest | raft/model/raft-node.cc:338-357 | no heartbeat is a vote request, and `sendHeartBeat` leaves the election timer alone |
| Scenarios.AnswerStep | raft/model/raft-node.cc:221-244 | within an open round a HEARTBEAT_RES adds one to the count, or resets both tallies on the last answer; the heartbeat timer is only ever cancelled |
| Scenarios.HeartbeatRoundCompletes | raft/model/raft-node.cc:229-242 | a leader below N - 2 answers is back at zero after exactly the missing answers, whatever they say; only tallies and the heartbeat timer change |
| Scenarios.SmallClusterNeverCompletes | raft/model/raft-node.cc:229 | with N <= 2 every answer only adds to the tallies, and the heartbeat loop is never stopped |
| Scenarios.LossBeforeAllAnswers | raft/model/raft-node.cc:197-216 | with N = 5, two grants win, but grant, deny, deny, grant returns the candidate to follower with its vote released, although 3 of 5 voted for it |

## Left out

- The ns-3 application plumbing is not modelled: sockets, binding and peer connections (:85-107), the socket `Send` creates and caches for an unknown sender (:290-296), `TypeId` lookups, and `StopApplication` with its logging. All `NS_LOG_INFO` output is also left out.
- The echo `socket->SendTo(packet, 0, from)` at :127 is left out. It returns every packet to its sender and touches no protocol state.
- `InetSocketAddress::IsMatchingType (from)` is taken as true. Addresses are plain identities.
- `socket->GetSockName (localAddress)` is left out, since it has no effect on the node.
- Random delays, the random election timeout and the float `heartbeat_timeout` are left out. Timers are flags and the scheduler is the order of events in a run. A timer event fires only while armed.
- Which peers a broadcast reaches, and any multi-node interleaving, are left out. A broadcast is one outbox entry. The `*OnWire` lemmas follow single messages from node to node.
- `proposal` is written at start-up and never read. It is kept as a field.
- `m_bufferedData` is never written, so it is a constant of the node. The `std::map` entry that `operator[]` inserts for a new sender is left out, since it is always empty.
- The memory leak of the `new char[]` in `getPacketContent` is left out.
- `At`: reading `msg[i]` past the end of the text is defined only up to the terminator in C++. The model reads NUL at every index from the end on.
- Codec.CharToInt: assumes a signed `char`, as on x86. Where `char` is unsigned (Linux on aarch64, for instance), octets of 128 and above decode 256 higher; digits and every octet the node itself sends are unaffected.
- Node.RaftNode.constructor: `is_leader` is taken to start false. `StartApplication` declares a local `int is_leader = 0` (:82) that shadows the member, so raft-node.cc never initialises it; raft-node.h is not part of this model.
- Protocol.OnVoteResponse: `vote_success` and `vote_failed` are unbounded integers. A 32-bit `int` would overflow only after more than two billion answers without a reset, so overflow is not modelled.
- Protocol.Half: only the C++ truncation of `N / 2` is modelled. The header's value of `N` is a parameter.
- The header `raft-node.h` is not part of this model. Its constants are parameters constrained only to be distinct digits.
- `proposalScheduled` is never cleared, because the source keeps no handle for the `setProposal` event. Once it fires, later `ProposalDue` events set the flag again, which changes nothing.
