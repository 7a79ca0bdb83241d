/** What the handlers of raft/model/raft-node.cc guarantee, one delivery or timer fire
    at a time: the behaviour of each `switch` case, the majority arithmetic, an invariant
    every step keeps, and how a message one node sends is read by the node receiving it. */
module Properties {
  import opened Codec
  import opened Protocol

  /** The type digit of a decoded packet, as the `switch` reads it. */
  function TypeOf(msg: seq<byte>): int
  {
    CharToInt(At(msg, 0))
  }

  /** The leadership test `vote_success + 1 > N / 2` holds exactly when the candidate's
      own vote and `vote_success` grants form a strict majority of the N nodes. */
  lemma MajorityTest(n: int, success: int)
    requires n >= 0
    ensures Wins(n, success) <==> 2 * (success + 1) > n
  {
  }

  /** VOTE_REQ: a node that has not voted grants and is then bound; a node that has voted
      denies and changes nothing but its outbox. */
  lemma VoteRequestHandling(c: Config, s: NodeState, from: Address, msg: seq<byte>)
    requires TypeOf(msg) == c.codes.voteReq
    ensures var r := Dispatch(c, s, from, msg);
      r.hasVoted &&
      (!s.hasVoted ==> r == s.(hasVoted := true, outbox := s.outbox + [VoteReply(c, from, true)])) &&
      (s.hasVoted ==> r == s.(outbox := s.outbox + [VoteReply(c, from, false)]))
  {
  }

  /** Two vote requests in a row, from any candidates: the second is always denied. */
  lemma SecondVoteRequestDenied(c: Config, s: NodeState, a: Address, b: Address, m1: seq<byte>, m2: seq<byte>)
    requires TypeOf(m1) == c.codes.voteReq && TypeOf(m2) == c.codes.voteReq
    ensures var r := Dispatch(c, Dispatch(c, s, a, m1), b, m2);
      r.outbox[|r.outbox| - 1] == VoteReply(c, b, false)
  {
  }

  /** HEARTBEAT: always answered with HEARTBEAT_RES carrying SUCCESS in the third slot. A
      normal heartbeat re-arms the election timer and keeps `m_value`; any other kind sets
      `m_value` to the carried digit and leaves the election timer cancelled. */
  lemma HeartbeatHandling(c: Config, s: NodeState, from: Address, msg: seq<byte>)
    requires c.Valid() && TypeOf(msg) == c.codes.heartbeat
    ensures var r := Dispatch(c, s, from, msg);
      var normal := CharToInt(At(msg, 1)) == c.codes.normalBeat;
      r.outbox == s.outbox + [HeartbeatReply(c, from, !normal)] &&
      r.outbox[|s.outbox|].data[2] == Known(IntToChar(c.codes.success)) &&
      (normal ==> r == s.(electionArmed := true, outbox := r.outbox)) &&
      (!normal ==> r == s.(value := CharToInt(At(msg, 2)), electionArmed := false, outbox := r.outbox))
  {
  }

  /** VOTE_RES: ignored by a leader. Otherwise exactly one tally grows by one; then a
      strict majority makes the node leader (tallies reset, election timer cancelled,
      proposal scheduled, one heartbeat broadcast), `vote_failed >= N / 2` resets the
      tallies and releases the vote without touching leadership or timers, and anything
      else only keeps the new tallies. */
  lemma VoteResponseHandling(c: Config, s: NodeState, from: Address, msg: seq<byte>)
    requires c.Valid() && TypeOf(msg) == c.codes.voteRes
    ensures var r := Dispatch(c, s, from, msg);
      var granted := CharToInt(At(msg, 1)) == c.codes.success;
      var success := if granted then s.voteSuccess + 1 else s.voteSuccess;
      var failed := if granted then s.voteFailed else s.voteFailed + 1;
      (s.isLeader ==> r == s) &&
      (!s.isLeader && 2 * (success + 1) > c.n ==>
        r.isLeader && r.voteSuccess == 0 && r.voteFailed == 0 && r.hasVoted &&
        !r.electionArmed && r.proposalScheduled &&
        |r.outbox| == |s.outbox| + 1 && r.outbox[..|s.outbox|] == s.outbox &&
        r.outbox[|s.outbox|].dest == Broadcast &&
        r.outbox[|s.outbox|].data[0] == Known(IntToChar(c.codes.heartbeat)) &&
        (!s.addChangeValue ==> r.heartbeatArmed && r.value == s.value)) &&
      (!s.isLeader && 2 * (success + 1) <= c.n && failed >= Half(c.n) ==>
        r == s.(voteSuccess := 0, voteFailed := 0, hasVoted := false)) &&
      (!s.isLeader && 2 * (success + 1) <= c.n && failed < Half(c.n) ==>
        r == s.(voteSuccess := success, voteFailed := failed))
  {
  }

  /** HEARTBEAT_RES: exactly one tally grows by one unless N - 2 answers are now in, in
      which case both tallies go back to 0 whatever the outcome, and the heartbeat timer
      is cancelled on a majority only. Nothing else changes. */
  lemma HeartbeatResponseHandling(c: Config, s: NodeState, from: Address, msg: seq<byte>)
    requires c.Valid() && TypeOf(msg) == c.codes.heartbeatRes
    ensures var r := Dispatch(c, s, from, msg);
      var ack := IsProposalAck(c, At(msg, 1), At(msg, 2));
      var success := if ack then s.voteSuccess + 1 else s.voteSuccess;
      var failed := if ack then s.voteFailed else s.voteFailed + 1;
      r.(voteSuccess := s.voteSuccess, voteFailed := s.voteFailed, heartbeatArmed := s.heartbeatArmed) == s &&
      (success + failed == c.n - 2 ==>
        r.voteSuccess == 0 && r.voteFailed == 0 &&
        r.heartbeatArmed == (s.heartbeatArmed && 2 * (success + 1) <= c.n)) &&
      (success + failed != c.n - 2 ==>
        r.voteSuccess == success && r.voteFailed == failed && r.heartbeatArmed == s.heartbeatArmed)
  {
    assert Dispatch(c, s, from, msg) == OnHeartbeatResponse(c, s, At(msg, 1), At(msg, 2));
  }

  /** The `default` case: a type digit that names no message changes nothing and sends nothing. */
  lemma UnknownTypeIgnored(c: Config, s: NodeState, from: Address, msg: seq<byte>)
    requires TypeOf(msg) !in {c.codes.voteReq, c.codes.heartbeat, c.codes.voteRes, c.codes.heartbeatRes}
    ensures Dispatch(c, s, from, msg) == s
  {
  }

  /** A packet whose first octet is NUL decodes, with nothing buffered, to empty text whose
      type digit is no code at all: it is ignored. An empty packet stops the read loop. */
  lemma EmptyTextIgnored(c: Config, s: NodeState, p: Received, rest: seq<Received>)
    requires c.Valid()
    ensures p.payload != [] && p.payload[0] == NUL ==> Receive(c, map[], s, p) == s
    ensures p.payload == [] ==> ReadAll(c, map[], s, [p] + rest) == s
  {
  }

  /** The state every step keeps: tallies are never negative; the proposal is scheduled
      exactly by the step that makes the node leader and armed only after it is
      scheduled; a leader has voted; and while leading a cluster of three or more its
      tallies stay below N - 2, so the HEARTBEAT_RES count always comes round. */
  ghost predicate Inv(c: Config, s: NodeState)
  {
    s.voteSuccess >= 0 && s.voteFailed >= 0 &&
    (s.proposalScheduled <==> s.isLeader) &&
    (s.addChangeValue ==> s.proposalScheduled) &&
    (s.isLeader ==> s.hasVoted) &&
    (s.isLeader && c.n >= 3 ==> s.voteSuccess + s.voteFailed < c.n - 2)
  }

  /** `StartApplication` on a fresh node establishes the invariant. */
  lemma StartEstablishesInv(c: Config)
    ensures Inv(c, Start(c, Initial()))
    ensures !Start(c, Initial()).isLeader && Start(c, Initial()).electionArmed
  {
  }

  /** Every `switch` case keeps the invariant. */
  lemma DispatchKeepsInv(c: Config, s: NodeState, from: Address, msg: seq<byte>)
    requires Inv(c, s)
    ensures Inv(c, Dispatch(c, s, from, msg))
  {
    var t := TypeOf(msg);
    if t == c.codes.voteReq {
      RequestsKeepInv(c, s, from, At(msg, 1), At(msg, 2));
    } else if t == c.codes.heartbeat {
      RequestsKeepInv(c, s, from, At(msg, 1), At(msg, 2));
    } else if t == c.codes.voteRes {
      VoteResponseKeepsInv(c, s, At(msg, 1));
    } else if t == c.codes.heartbeatRes {
      HeartbeatResponseKeepsInv(c, s, At(msg, 1), At(msg, 2));
    }
  }

  /** VOTE_REQ and HEARTBEAT touch neither tallies nor leadership. */
  lemma RequestsKeepInv(c: Config, s: NodeState, from: Address, kind: byte, carried: byte)
    requires Inv(c, s)
    ensures Inv(c, OnVoteRequest(c, s, from))
    ensures Inv(c, OnHeartbeat(c, s, from, kind, carried))
  {
  }

  /** A candidate's tallies grow or reset; on winning, both are reset and the proposal is
      scheduled together with leadership. */
  lemma VoteResponseKeepsInv(c: Config, s: NodeState, status: byte)
    requires Inv(c, s)
    ensures Inv(c, OnVoteResponse(c, s, status))
  {
  }

  /** A leader's tallies grow by one per answer and are reset when they reach N - 2. */
  lemma HeartbeatResponseKeepsInv(c: Config, s: NodeState, kind: byte, status: byte)
    requires Inv(c, s)
    ensures Inv(c, OnHeartbeatResponse(c, s, kind, status))
  {
  }

  /** `sendVote`, `sendHeartBeat` and (once scheduled) `setProposal` keep the invariant. */
  lemma TimersKeepInv(c: Config, s: NodeState)
    requires Inv(c, s)
    ensures Inv(c, Protocol.SendVote(c, s))
    ensures Inv(c, Protocol.SendHeartBeat(c, s))
    ensures s.proposalScheduled ==> Inv(c, Protocol.SetProposal(s))
  {
  }

  /** With the invariant, `m_value` changes only through a heartbeat of the proposal kind,
      and then to the digit it carries. */
  lemma ValueOnlyFromProposal(c: Config, s: NodeState, from: Address, msg: seq<byte>)
    requires Inv(c, s)
    ensures var r := Dispatch(c, s, from, msg);
      r.value != s.value ==>
        TypeOf(msg) == c.codes.heartbeat && CharToInt(At(msg, 1)) != c.codes.normalBeat &&
        r.value == CharToInt(At(msg, 2))
  {
    var t := TypeOf(msg);
    if t == c.codes.voteReq {
      OthersKeepValue(c, s, from, At(msg, 1), At(msg, 2));
    } else if t == c.codes.heartbeat {
      assert Dispatch(c, s, from, msg) == OnHeartbeat(c, s, from, At(msg, 1), At(msg, 2));
    } else {
      OthersKeepValue(c, s, from, At(msg, 1), At(msg, 2));
    }
  }

  /** VOTE_REQ, HEARTBEAT_RES and, under the invariant, VOTE_RES keep `m_value`: a node
      that wins an election has not had `setProposal` run yet, so its first heartbeat is
      a normal one. */
  lemma OthersKeepValue(c: Config, s: NodeState, from: Address, a: byte, b: byte)
    requires Inv(c, s)
    ensures OnVoteRequest(c, s, from).value == s.value
    ensures OnVoteResponse(c, s, a).value == s.value
    ensures OnHeartbeatResponse(c, s, a, b).value == s.value
  {
  }

  /** With the invariant, a leader denies every vote request. */
  lemma LeaderDeniesVotes(c: Config, s: NodeState, from: Address, msg: seq<byte>)
    requires Inv(c, s) && s.isLeader && TypeOf(msg) == c.codes.voteReq
    ensures Dispatch(c, s, from, msg) == s.(outbox := s.outbox + [VoteReply(c, from, false)])
  {
  }

  /** The octets a receiver gets for an outgoing message: each slot the sender never wrote
      holds whatever `fill` the buffer happened to contain. */
  function OnWire(data: seq<Slot>, fill: byte): (w: seq<byte>)
    ensures |w| == |data|
    ensures forall i :: 0 <= i < |data| && data[i].Known? ==> w[i] == data[i].b
  {
    if data == [] then []
    else [if data[0].Known? then data[0].b else fill] + OnWire(data[1..], fill)
  }

  /** Shorthand for a peer receiving `o` with nothing buffered for the sender. */
  function ReceiveOnWire(c: Config, s: NodeState, from: Address, o: Outgoing, fill: byte): NodeState
  {
    Receive(c, map[], s, Received(from, OnWire(o.data, fill)))
  }

  /** The request `sendVote` broadcasts is handled as VOTE_REQ by every peer, whatever
      octet fills its unwritten slot. */
  lemma VoteRequestOnWire(c: Config, t: NodeState, s: NodeState, from: Address, fill: byte)
    requires c.Valid()
    ensures var o := Protocol.SendVote(c, t).outbox[|t.outbox|];
      ReceiveOnWire(c, s, from, o, fill) == OnVoteRequest(c, s, from)
  {
    var o := Protocol.SendVote(c, t).outbox[|t.outbox|];
    var w := OnWire(o.data, fill);
    assert w[0] == IntToChar(c.codes.voteReq) != NUL;
    var msg := PacketContent(map[], from, w);
    assert At(msg, 0) == IntToChar(c.codes.voteReq);
    DigitRoundTrip(c.codes.voteReq);
  }

  /** The proposal heartbeat carries the leader's id to every follower: provided the id
      fits a signed `char` and HEART_BEAT is not 1 (the proposal kind the sender writes),
      the follower adopts the leader's value and cancels its election timer. With
      HEART_BEAT equal to 1 the follower would take it for a normal heartbeat. */
  lemma ProposalOnWire(c: Config, t: NodeState, s: NodeState, from: Address, fill: byte)
    requires c.Valid() && t.addChangeValue && c.id < 128 - ZERO
    ensures var leader := Protocol.SendHeartBeat(c, t);
      var r := ReceiveOnWire(c, s, from, leader.outbox[|t.outbox|], fill);
      leader.value == c.id &&
      (r.electionArmed <==> c.codes.normalBeat == 1) &&
      (c.codes.normalBeat != 1 ==> r.value == leader.value)
  {
    var o := Protocol.SendHeartBeat(c, t).outbox[|t.outbox|];
    var w := OnWire(o.data, fill);
    DigitRoundTrip(c.codes.heartbeat);
    DigitRoundTrip(1);
    DigitRoundTrip(c.id);
    assert w == [IntToChar(c.codes.heartbeat), IntToChar(1), IntToChar(c.id)];
    PacketContentLayout(map[], from, w);
    assert PacketContent(map[], from, w) == w;
  }

  /** A normal heartbeat re-arms the follower's election timer and keeps its value exactly
      when HEART_BEAT is 0, the kind the sender writes; the unwritten third slot does not
      matter. */
  lemma NormalHeartbeatOnWire(c: Config, t: NodeState, s: NodeState, from: Address, fill: byte)
    requires c.Valid() && !t.addChangeValue
    ensures var r := ReceiveOnWire(c, s, from, Protocol.SendHeartBeat(c, t).outbox[|t.outbox|], fill);
      (r.electionArmed <==> c.codes.normalBeat == 0) &&
      (c.codes.normalBeat == 0 ==> r.value == s.value)
  {
    var o := Protocol.SendHeartBeat(c, t).outbox[|t.outbox|];
    var w := OnWire(o.data, fill);
    DigitRoundTrip(c.codes.heartbeat);
    DigitRoundTrip(0);
    var msg := PacketContent(map[], from, w);
    assert msg[..2] == w[..2] == [IntToChar(c.codes.heartbeat), IntToChar(0)];
    assert At(msg, 0) == IntToChar(c.codes.heartbeat) && At(msg, 1) == IntToChar(0);
  }

  /** A follower's reply to a heartbeat, read by the leader, is counted as an
      acknowledgement exactly when PROPOSAL equals the reply kind the follower writes
      (1 for a proposal heartbeat, 0 for a normal one). */
  lemma HeartbeatReplyOnWire(c: Config, s: NodeState, t: NodeState, leader: Address, follower: Address,
                             msg: seq<byte>, fill: byte)
    requires c.Valid() && TypeOf(msg) == c.codes.heartbeat
    ensures var reply := Dispatch(c, s, leader, msg).outbox[|s.outbox|];
      var kind := if CharToInt(At(msg, 1)) == c.codes.normalBeat then 0 else 1;
      ReceiveOnWire(c, t, follower, reply, fill)
        == OnHeartbeatResponse(c, t, IntToChar(kind), IntToChar(c.codes.success)) &&
      (IsProposalAck(c, IntToChar(kind), IntToChar(c.codes.success)) <==> c.codes.proposal == kind)
  {
    HeartbeatHandling(c, s, leader, msg);
    HeartbeatReplyRead(c, t, leader, follower, CharToInt(At(msg, 1)) != c.codes.normalBeat, fill);
  }

  /** The leader reads a heartbeat reply as HEARTBEAT_RES with the kind and SUCCESS the
      follower wrote. */
  lemma HeartbeatReplyRead(c: Config, t: NodeState, leader: Address, follower: Address,
                           proposalKind: bool, fill: byte)
    requires c.Valid()
    ensures var kind := if proposalKind then 1 else 0;
      ReceiveOnWire(c, t, follower, HeartbeatReply(c, leader, proposalKind), fill)
        == OnHeartbeatResponse(c, t, IntToChar(kind), IntToChar(c.codes.success)) &&
      (IsProposalAck(c, IntToChar(kind), IntToChar(c.codes.success)) <==> c.codes.proposal == kind)
  {
    var kind := if proposalKind then 1 else 0;
    var w := OnWire(HeartbeatReply(c, leader, proposalKind).data, fill);
    DigitRoundTrip(c.codes.heartbeatRes);
    DigitRoundTrip(kind);
    DigitRoundTrip(c.codes.success);
    assert w == [IntToChar(c.codes.heartbeatRes), IntToChar(kind), IntToChar(c.codes.success)];
    PacketContentLayout(map[], follower, w);
    assert PacketContent(map[], follower, w) == w;
  }

  /** A vote reply, read by the candidate, is counted as a grant exactly when the voter
      had not voted yet. */
  lemma VoteReplyOnWire(c: Config, s: NodeState, t: NodeState, candidate: Address, voter: Address,
                        msg: seq<byte>, fill: byte)
    requires c.Valid() && TypeOf(msg) == c.codes.voteReq
    ensures var reply := Dispatch(c, s, candidate, msg).outbox[|s.outbox|];
      var status := if s.hasVoted then c.codes.failed else c.codes.success;
      ReceiveOnWire(c, t, voter, reply, fill) == OnVoteResponse(c, t, IntToChar(status)) &&
      (CharToInt(IntToChar(status)) == c.codes.success <==> !s.hasVoted)
  {
    VoteRequestHandling(c, s, candidate, msg);
    VoteReplyRead(c, t, candidate, voter, !s.hasVoted, fill);
  }

  /** The candidate reads a vote reply as VOTE_RES with the status the voter wrote, and
      that status is SUCCESS exactly for a grant. */
  lemma VoteReplyRead(c: Config, t: NodeState, candidate: Address, voter: Address, granted: bool, fill: byte)
    requires c.Valid()
    ensures var status := if granted then c.codes.success else c.codes.failed;
      ReceiveOnWire(c, t, voter, VoteReply(c, candidate, granted), fill) == OnVoteResponse(c, t, IntToChar(status)) &&
      (CharToInt(IntToChar(status)) == c.codes.success <==> granted)
  {
    var status := if granted then c.codes.success else c.codes.failed;
    var w := OnWire(VoteReply(c, candidate, granted).data, fill);
    DigitRoundTrip(c.codes.voteRes);
    DigitRoundTrip(status);
    var text := PacketContent(map[], voter, w);
    assert text[..2] == w[..2] == [IntToChar(c.codes.voteRes), IntToChar(status)];
    assert At(text, 0) == IntToChar(c.codes.voteRes) && At(text, 1) == IntToChar(status);
  }
}
