/** The per-node consensus state machine of raft/model/raft-node.cc as functions on a
    value-level snapshot of the node. The class in node.dfy runs the same steps in place
    and is proved to agree with these functions; the lemmas in properties.dfy and runs.dfy
    are stated over them.

    Timers are flags: `electionArmed` for `m_nextElection`, `heartbeatArmed` for
    `m_nextHeartbeat`, `proposalScheduled` for the one-shot call to `setProposal` that a
    new leader registers (its handle is not kept, so nothing ever cancels it). Sends are
    appended to `outbox`: the three octets handed to the transport, where a slot the
    source never writes is `Unset`. */
module Protocol {
  import opened Codec

  /** The message, kind and status codes of raft-node.h (which is not part of this model):
      `voteReq`, `voteRes`, `heartbeat`, `heartbeatRes` are VOTE_REQ, VOTE_RES, HEARTBEAT,
      HEARTBEAT_RES; `normalBeat` and `proposal` are the heartbeat kinds HEART_BEAT and
      PROPOSAL; `success` and `failed` are SUCCESS and FAILED. */
  datatype Codes = Codes(
    voteReq: int, voteRes: int, heartbeat: int, heartbeatRes: int,
    normalBeat: int, proposal: int, success: int, failed: int)
  {
    /** Each code is one digit; the four `switch` labels are distinct (a C++ requirement)
        and SUCCESS differs from FAILED. */
    predicate Valid() {
      0 <= voteReq <= 9 && 0 <= voteRes <= 9 && 0 <= heartbeat <= 9 && 0 <= heartbeatRes <= 9 &&
      0 <= normalBeat <= 9 && 0 <= proposal <= 9 && 0 <= success <= 9 && 0 <= failed <= 9 &&
      voteReq != voteRes && voteReq != heartbeat && voteReq != heartbeatRes &&
      voteRes != heartbeat && voteRes != heartbeatRes && heartbeat != heartbeatRes &&
      success != failed
    }
  }

  /** The node's configuration: `m_id`, the cluster size `N` and the codes. */
  datatype Config = Config(id: nat, n: int, codes: Codes)
  {
    predicate Valid() { n >= 1 && codes.Valid() }
  }

  /** One slot of an outgoing three-octet message. */
  datatype Slot = Known(b: byte) | Unset

  /** `Send(data, from)` answers the sender; `Send(data)` goes to every peer. */
  datatype Dest = ReplyTo(peer: Address) | Broadcast

  datatype Outgoing = Outgoing(dest: Dest, data: seq<Slot>)

  /** The node's fields. */
  datatype NodeState = NodeState(
    value: int,                 // m_value
    proposal: byte,             // proposal (written at start, read nowhere in this file)
    hasVoted: bool,             // has_voted
    voteSuccess: int,           // vote_success
    voteFailed: int,            // vote_failed
    addChangeValue: bool,       // add_change_value
    isLeader: bool,             // is_leader
    electionArmed: bool,        // m_nextElection is pending
    heartbeatArmed: bool,       // m_nextHeartbeat is pending
    proposalScheduled: bool,    // a call to setProposal has been registered
    outbox: seq<Outgoing>)      // everything handed to Send, oldest first

  /** One packet as `RecvFrom` returns it. */
  datatype Received = Received(from: Address, payload: seq<byte>)

  /** A message of the three octets `Send` transmits, the first two being codes. */
  function Message(first: int, second: int, third: Slot): seq<Slot>
  {
    [Known(IntToChar(first)), Known(IntToChar(second)), third]
  }

  /** `N / 2` with C++ `int` division, which truncates toward zero. */
  function Half(n: int): (h: int)
    ensures n >= 0 ==> 0 <= h && 2 * h <= n < 2 * h + 2
    ensures n < 0 ==> h <= 0 && n < 2 * h + 2 && 2 * h - 2 < n
  {
    if n >= 0 then n / 2 else -((-n) / 2)
  }

  /** The leadership test `vote_success + 1 > N / 2`; the `+ 1` is the node's own vote. */
  predicate Wins(n: int, success: int)
  {
    success + 1 > Half(n)
  }

  /** The node object before `StartApplication`; `is_leader` is taken to start false
      (the member is set nowhere in this file before the first election is won). */
  function Initial(): NodeState
  {
    NodeState(0, 0, false, 0, 0, false, false, false, false, false, [])
  }

  /** `StartApplication`: the protocol parameters and the first election timer. */
  function Start(c: Config, s: NodeState): NodeState
  {
    s.(value := 0, proposal := IntToChar(c.id), voteSuccess := 0, voteFailed := 0,
       hasVoted := false, addChangeValue := false, electionArmed := true)
  }

  /** `sendVote`: vote for oneself, ask every peer, and arm the next election timer. */
  function SendVote(c: Config, s: NodeState): NodeState
  {
    s.(hasVoted := true,
       outbox := s.outbox + [Outgoing(Broadcast, Message(c.codes.voteReq, c.id, Unset))],
       electionArmed := true)
  }

  /** `sendHeartBeat`: a proposal heartbeat (kind 1, carrying `m_id`) when the proposal
      flag is set, which also adopts `m_id` and stops the heartbeat loop; otherwise a
      normal heartbeat (kind 0) and the next heartbeat timer. */
  function SendHeartBeat(c: Config, s: NodeState): NodeState
  {
    var withProposal := s.addChangeValue;
    s.(hasVoted := true,
       value := if withProposal then c.id else s.value,
       heartbeatArmed := !withProposal,
       outbox := s.outbox + [Outgoing(Broadcast, HeartbeatMessage(c, withProposal))])
  }

  /** The heartbeat broadcast: kind 1 with `m_id` in the third slot, or kind 0 with the
      third slot unwritten. */
  function HeartbeatMessage(c: Config, withProposal: bool): seq<Slot>
  {
    if withProposal then Message(c.codes.heartbeat, 1, Known(IntToChar(c.id)))
    else Message(c.codes.heartbeat, 0, Unset)
  }

  /** `setProposal`. */
  function SetProposal(s: NodeState): NodeState
  {
    s.(addChangeValue := true)
  }

  /** The reply a vote request gets: VOTE_RES with SUCCESS or FAILED. */
  function VoteReply(c: Config, from: Address, granted: bool): Outgoing
  {
    Outgoing(ReplyTo(from), Message(c.codes.voteRes, if granted then c.codes.success else c.codes.failed, Unset))
  }

  /** The reply a heartbeat gets: HEARTBEAT_RES, the reply kind (0 normal, 1 proposal), SUCCESS. */
  function HeartbeatReply(c: Config, from: Address, proposalKind: bool): Outgoing
  {
    Outgoing(ReplyTo(from),
             Message(c.codes.heartbeatRes, if proposalKind then 1 else 0, Known(IntToChar(c.codes.success))))
  }

  /** Case VOTE_REQ: grant when this node has not voted yet; either way it has voted
      afterwards. */
  function OnVoteRequest(c: Config, s: NodeState, from: Address): NodeState
  {
    s.(hasVoted := true, outbox := s.outbox + [VoteReply(c, from, !s.hasVoted)])
  }

  /** Case HEARTBEAT: a normal heartbeat re-arms the election timer; any other kind
      commits the carried value and cancels the election timer, which only a later
      normal heartbeat re-arms. */
  function OnHeartbeat(c: Config, s: NodeState, from: Address, kind: byte, carried: byte): NodeState
  {
    var normal := CharToInt(kind) == c.codes.normalBeat;
    s.(value := if normal then s.value else CharToInt(carried),
       electionArmed := normal,
       outbox := s.outbox + [HeartbeatReply(c, from, !normal)])
  }

  /** Case VOTE_RES: tally while not leader, then either win, lose (reset the tallies and
      release the vote), or wait. */
  function OnVoteResponse(c: Config, s: NodeState, status: byte): NodeState
  {
    if s.isLeader then s
    else
      var granted := CharToInt(status) == c.codes.success;
      var success := if granted then s.voteSuccess + 1 else s.voteSuccess;
      var failed := if granted then s.voteFailed else s.voteFailed + 1;
      if Wins(c.n, success) then
        SendHeartBeat(c, s.(voteSuccess := 0, voteFailed := 0, electionArmed := false,
                            proposalScheduled := true)).(isLeader := true)
      else
        var lost := failed >= Half(c.n);
        s.(voteSuccess := if lost then 0 else success,
           voteFailed := if lost then 0 else failed,
           hasVoted := s.hasVoted && !lost)
  }

  /** Whether a HEARTBEAT_RES counts as an acknowledgement of the proposal. */
  predicate IsProposalAck(c: Config, kind: byte, status: byte)
  {
    CharToInt(kind) == c.codes.proposal && CharToInt(status) == c.codes.success
  }

  /** Case HEARTBEAT_RES: tally, and once N - 2 answers are in, reset the tallies; on a
      majority also stop the heartbeat loop. */
  function OnHeartbeatResponse(c: Config, s: NodeState, kind: byte, status: byte): NodeState
  {
    var ack := IsProposalAck(c, kind, status);
    var success := if ack then s.voteSuccess + 1 else s.voteSuccess;
    var failed := if ack then s.voteFailed else s.voteFailed + 1;
    var roundDone := success + failed == c.n - 2;
    s.(voteSuccess := if roundDone then 0 else success,
       voteFailed := if roundDone then 0 else failed,
       heartbeatArmed := s.heartbeatArmed && !(roundDone && Wins(c.n, success)))
  }

  /** The `switch` of `HandleRead` on the decoded text of one packet. */
  function Dispatch(c: Config, s: NodeState, from: Address, msg: seq<byte>): NodeState
  {
    var t := CharToInt(At(msg, 0));
    if t == c.codes.voteReq then OnVoteRequest(c, s, from)
    else if t == c.codes.heartbeat then OnHeartbeat(c, s, from, At(msg, 1), At(msg, 2))
    else if t == c.codes.voteRes then OnVoteResponse(c, s, At(msg, 1))
    else if t == c.codes.heartbeatRes then OnHeartbeatResponse(c, s, At(msg, 1), At(msg, 2))
    else s
  }

  /** One non-empty packet: reassemble it and dispatch it. */
  function Receive(c: Config, buffered: map<Address, seq<byte>>, s: NodeState, p: Received): NodeState
  {
    Dispatch(c, s, p.from, PacketContent(buffered, p.from, p.payload))
  }

  /** The `while` loop of `HandleRead`: packets in order, stopping at the first empty one. */
  function ReadAll(c: Config, buffered: map<Address, seq<byte>>, s: NodeState, packets: seq<Received>): NodeState
    decreases |packets|
  {
    if packets == [] || packets[0].payload == [] then s
    else ReadAll(c, buffered, Receive(c, buffered, s, packets[0]), packets[1..])
  }
}
