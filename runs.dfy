/** A node's life as a sequence of events: packets delivered by the socket, and the
    scheduler firing a pending timer. Timers fire only while armed (a cancelled or spent
    event never runs); a delivered packet is one iteration of the `HandleRead` loop. The
    lemmas here follow a node through any such sequence. */
module Runs {
  import opened Codec
  import opened Protocol
  import opened Properties

  datatype Event =
    | Deliver(packet: Received)   // one packet returned by RecvFrom
    | ElectionTimeout             // m_nextElection fires: sendVote
    | HeartbeatTimeout            // m_nextHeartbeat fires: sendHeartBeat
    | ProposalDue                 // the 10 s call registered on winning: setProposal

  function Step(c: Config, buffered: map<Address, seq<byte>>, s: NodeState, e: Event): NodeState
  {
    match e
    case Deliver(p) => if p.payload == [] then s else Receive(c, buffered, s, p)
    case ElectionTimeout => if s.electionArmed then Protocol.SendVote(c, s) else s
    case HeartbeatTimeout => if s.heartbeatArmed then Protocol.SendHeartBeat(c, s) else s
    case ProposalDue => if s.proposalScheduled then Protocol.SetProposal(s) else s
  }

  /** The state after the events, in order. What was sent is never taken back. */
  function Run(c: Config, buffered: map<Address, seq<byte>>, s: NodeState, es: seq<Event>): (r: NodeState)
    ensures s.outbox <= r.outbox
    decreases |es|
  {
    if es == [] then s
    else
      StepMonotone(c, buffered, s, es[0]);
      Run(c, buffered, Step(c, buffered, s, es[0]), es[1..])
  }

  /** A step sends at most one message, keeps what was sent before, and never takes
      leadership away. */
  lemma StepMonotone(c: Config, buffered: map<Address, seq<byte>>, s: NodeState, e: Event)
    ensures var r := Step(c, buffered, s, e);
      Monotone(s, r)
  {
    if e.Deliver? && e.packet.payload != [] {
      DispatchMonotone(c, s, e.packet.from, PacketContent(buffered, e.packet.from, e.packet.payload));
    }
  }

  /** What no step undoes: leadership and the messages already sent; and at most one
      message is added. */
  predicate Monotone(s: NodeState, r: NodeState)
  {
    (s.isLeader ==> r.isLeader) && s.outbox <= r.outbox && |r.outbox| <= |s.outbox| + 1
  }

  lemma DispatchMonotone(c: Config, s: NodeState, from: Address, msg: seq<byte>)
    ensures Monotone(s, Dispatch(c, s, from, msg))
  {
    var t := TypeOf(msg);
    if t == c.codes.voteReq {
      RequestsMonotone(c, s, from, At(msg, 1), At(msg, 2));
    } else if t == c.codes.heartbeat {
      RequestsMonotone(c, s, from, At(msg, 1), At(msg, 2));
    } else if t == c.codes.voteRes {
      VoteResponseMonotone(c, s, At(msg, 1));
    } else if t == c.codes.heartbeatRes {
      HeartbeatResponseMonotone(c, s, At(msg, 1), At(msg, 2));
    }
  }

  /** Both requests are answered: exactly one reply is appended. */
  lemma RequestsMonotone(c: Config, s: NodeState, from: Address, kind: byte, carried: byte)
    ensures Monotone(s, OnVoteRequest(c, s, from))
    ensures Monotone(s, OnHeartbeat(c, s, from, kind, carried))
    ensures |OnVoteRequest(c, s, from).outbox| == |s.outbox| + 1
    ensures |OnHeartbeat(c, s, from, kind, carried).outbox| == |s.outbox| + 1
  {
  }

  /** A VOTE_RES sends something only when it makes a candidate leader, and then it is
      the first HEARTBEAT. */
  lemma VoteResponseMonotone(c: Config, s: NodeState, status: byte)
    ensures Monotone(s, OnVoteResponse(c, s, status))
    ensures var r := OnVoteResponse(c, s, status);
      r.outbox != s.outbox ==>
        !s.isLeader && r.isLeader && |r.outbox| == |s.outbox| + 1 &&
        r.outbox[|s.outbox|].data[0] == Known(IntToChar(c.codes.heartbeat))
  {
  }

  /** A HEARTBEAT_RES is only counted: nothing is sent. */
  lemma HeartbeatResponseMonotone(c: Config, s: NodeState, kind: byte, status: byte)
    ensures Monotone(s, OnHeartbeatResponse(c, s, kind, status))
    ensures OnHeartbeatResponse(c, s, kind, status).outbox == s.outbox
  {
  }

  /** The deliveries one `HandleRead` call performs: its packets up to the first empty one. */
  function Deliveries(packets: seq<Received>): (es: seq<Event>)
    ensures |es| <= |packets|
    ensures |es| == |packets| || packets[|es|].payload == []
    ensures forall i :: 0 <= i < |es| ==> es[i] == Deliver(packets[i]) && packets[i].payload != []
  {
    if packets == [] || packets[0].payload == [] then []
    else [Deliver(packets[0])] + Deliveries(packets[1..])
  }

  /** `HandleRead` is the run of its deliveries, so every lemma below applies to it. */
  lemma {:induction false} ReadAllIsRun(c: Config, buffered: map<Address, seq<byte>>, s: NodeState, packets: seq<Received>)
    ensures ReadAll(c, buffered, s, packets) == Run(c, buffered, s, Deliveries(packets))
    decreases |packets|
  {
    if packets != [] && packets[0].payload != [] {
      var es := Deliveries(packets);
      assert es[1..] == Deliveries(packets[1..]);
      ReadAllIsRun(c, buffered, Receive(c, buffered, s, packets[0]), packets[1..]);
    }
  }

  lemma StepKeepsInv(c: Config, buffered: map<Address, seq<byte>>, s: NodeState, e: Event)
    requires Inv(c, s)
    ensures Inv(c, Step(c, buffered, s, e))
  {
    match e
    case Deliver(p) =>
      if p.payload != [] {
        DispatchKeepsInv(c, s, p.from, PacketContent(buffered, p.from, p.payload));
      }
    case _ =>
      TimersKeepInv(c, s);
  }

  /** The invariant of module Properties holds throughout every run that starts in it,
      in particular every run after `StartApplication`. */
  lemma {:induction false} RunKeepsInv(c: Config, buffered: map<Address, seq<byte>>, s: NodeState, es: seq<Event>)
    requires Inv(c, s)
    ensures Inv(c, Run(c, buffered, s, es))
    decreases |es|
  {
    if es != [] {
      StepKeepsInv(c, buffered, s, es[0]);
      RunKeepsInv(c, buffered, Step(c, buffered, s, es[0]), es[1..]);
    }
  }

  /** No event ever takes leadership away. */
  lemma {:induction false} LeaderStaysLeader(c: Config, buffered: map<Address, seq<byte>>, s: NodeState, es: seq<Event>)
    requires s.isLeader
    ensures Run(c, buffered, s, es).isLeader
    decreases |es|
  {
    if es != [] {
      StepMonotone(c, buffered, s, es[0]);
      LeaderStaysLeader(c, buffered, Step(c, buffered, s, es[0]), es[1..]);
    }
  }

  /** An outgoing message that grants a vote. */
  predicate IsGrant(c: Config, o: Outgoing)
  {
    o.dest.ReplyTo? && o.data == Message(c.codes.voteRes, c.codes.success, Unset)
  }

  /** How many votes an outbox grants. */
  function Grants(c: Config, out: seq<Outgoing>): nat
  {
    if out == [] then 0
    else Grants(c, out[..|out| - 1]) + (if IsGrant(c, out[|out| - 1]) then 1 else 0)
  }

  lemma GrantsAppend(c: Config, out: seq<Outgoing>, o: Outgoing)
    ensures Grants(c, out + [o]) == Grants(c, out) + (if IsGrant(c, o) then 1 else 0)
  {
  }

  /** Grants given so far, plus one while the vote is still free. */
  function Potential(c: Config, s: NodeState): nat
  {
    Grants(c, s.outbox) + (if s.hasVoted then 0 else 1)
  }

  /** Whether a step releases the vote (`has_voted` goes from 1 to 0). */
  predicate Releases(s: NodeState, r: NodeState)
  {
    s.hasVoted && !r.hasVoted
  }

  /** How many steps of a run release the vote. */
  function ReleaseCount(c: Config, buffered: map<Address, seq<byte>>, s: NodeState, es: seq<Event>): nat
    decreases |es|
  {
    if es == [] then 0
    else
      var next := Step(c, buffered, s, es[0]);
      (if Releases(s, next) then 1 else 0) + ReleaseCount(c, buffered, next, es[1..])
  }

  /** No reply but a granting VOTE_RES counts as a grant. */
  lemma RepliesThatAreNotGrants(c: Config, from: Address, proposalKind: bool)
    requires c.Valid()
    ensures !IsGrant(c, VoteReply(c, from, false))
    ensures !IsGrant(c, HeartbeatReply(c, from, proposalKind))
  {
  }

  /** One switch case grants a vote only when the vote was free, and binds it. */
  lemma DispatchPotential(c: Config, s: NodeState, from: Address, msg: seq<byte>)
    requires c.Valid()
    ensures var r := Dispatch(c, s, from, msg);
      Potential(c, r) <= Potential(c, s) + (if Releases(s, r) then 1 else 0)
  {
    var t := TypeOf(msg);
    if t == c.codes.voteReq {
      VoteRequestPotential(c, s, from);
    } else if t == c.codes.heartbeat {
      HeartbeatPotential(c, s, from, At(msg, 1), At(msg, 2));
    } else if t == c.codes.voteRes {
      VoteResponsePotential(c, s, At(msg, 1));
    } else if t == c.codes.heartbeatRes {
      HeartbeatResponsePotential(c, s, At(msg, 1), At(msg, 2));
    }
  }

  lemma VoteRequestPotential(c: Config, s: NodeState, from: Address)
    requires c.Valid()
    ensures var r := OnVoteRequest(c, s, from);
      Potential(c, r) <= Potential(c, s) + (if Releases(s, r) then 1 else 0)
  {
  }

  /** HEARTBEAT grants no vote. */
  lemma HeartbeatPotential(c: Config, s: NodeState, from: Address, kind: byte, carried: byte)
    requires c.Valid()
    ensures var r := OnHeartbeat(c, s, from, kind, carried);
      Potential(c, r) <= Potential(c, s) + (if Releases(s, r) then 1 else 0)
    ensures Grants(c, OnHeartbeat(c, s, from, kind, carried).outbox) == Grants(c, s.outbox)
  {
  }

  /** VOTE_RES grants no vote: a loss may release the vote, and a win binds it again
      through the nested `sendHeartBeat`. */
  lemma VoteResponsePotential(c: Config, s: NodeState, status: byte)
    ensures var r := OnVoteResponse(c, s, status);
      Potential(c, r) <= Potential(c, s) + (if Releases(s, r) then 1 else 0)
    ensures Grants(c, OnVoteResponse(c, s, status).outbox) == Grants(c, s.outbox)
  {
  }

  /** HEARTBEAT_RES sends nothing, so it grants no vote. */
  lemma HeartbeatResponsePotential(c: Config, s: NodeState, kind: byte, status: byte)
    ensures var r := OnHeartbeatResponse(c, s, kind, status);
      Potential(c, r) <= Potential(c, s) + (if Releases(s, r) then 1 else 0)
    ensures Grants(c, OnHeartbeatResponse(c, s, kind, status).outbox) == Grants(c, s.outbox)
  {
  }

  /** `sendHeartBeat` binds the vote and grants none. */
  lemma HeartbeatIsNoGrant(c: Config, s: NodeState)
    ensures var r := Protocol.SendHeartBeat(c, s);
      r.hasVoted && Grants(c, r.outbox) == Grants(c, s.outbox)
  {
  }

  lemma StepPotential(c: Config, buffered: map<Address, seq<byte>>, s: NodeState, e: Event)
    requires c.Valid()
    ensures var r := Step(c, buffered, s, e);
      Potential(c, r) <= Potential(c, s) + (if Releases(s, r) then 1 else 0)
  {
    match e
    case Deliver(p) =>
      if p.payload != [] {
        DispatchPotential(c, s, p.from, PacketContent(buffered, p.from, p.payload));
      }
    case ElectionTimeout =>
      var r := Protocol.SendVote(c, s);
      GrantsAppend(c, s.outbox, r.outbox[|s.outbox|]);
    case HeartbeatTimeout =>
      HeartbeatIsNoGrant(c, s);
    case ProposalDue =>
  }

  /** A node grants at most one vote between two releases of its vote: over any run, the
      votes granted number at most the releases, plus one if the vote was free at the
      start. With no release, a node that has voted grants nothing more. */
  lemma {:induction false} GrantsBoundedByReleases(c: Config, buffered: map<Address, seq<byte>>, s: NodeState, es: seq<Event>)
    requires c.Valid()
    ensures var r := Run(c, buffered, s, es);
      Grants(c, r.outbox) + (if r.hasVoted then 0 else 1)
        <= Grants(c, s.outbox) + (if s.hasVoted then 0 else 1) + ReleaseCount(c, buffered, s, es)
    decreases |es|
  {
    if es != [] {
      StepPotential(c, buffered, s, es[0]);
      GrantsBoundedByReleases(c, buffered, Step(c, buffered, s, es[0]), es[1..]);
    }
  }

  /** Whether a delivery is a HEARTBEAT of the normal kind, the one message that re-arms
      the election timer. */
  predicate IsNormalHeartbeat(c: Config, buffered: map<Address, seq<byte>>, e: Event)
  {
    e.Deliver? && e.packet.payload != [] &&
    var msg := PacketContent(buffered, e.packet.from, e.packet.payload);
    TypeOf(msg) == c.codes.heartbeat && CharToInt(At(msg, 1)) == c.codes.normalBeat
  }

  /** Whether an outgoing message is a vote request. */
  predicate IsVoteRequest(c: Config, o: Outgoing)
  {
    o.dest == Broadcast && |o.data| > 0 && o.data[0] == Known(IntToChar(c.codes.voteReq))
  }

  /** No message `r` has sent beyond those `s` had sent is a vote request. */
  predicate NoNewVoteRequest(c: Config, s: NodeState, r: NodeState)
  {
    forall k :: |s.outbox| <= k < |r.outbox| ==> !IsVoteRequest(c, r.outbox[k])
  }

  /** A node whose election timer is cancelled (it won, or it committed a proposal) stays
      out of elections: until a normal heartbeat re-arms the timer it never broadcasts a
      vote request again. */
  lemma {:induction false} CancelledElectionStaysSilent(c: Config, buffered: map<Address, seq<byte>>, s: NodeState, es: seq<Event>)
    requires c.Valid() && !s.electionArmed
    requires forall i :: 0 <= i < |es| ==> !IsNormalHeartbeat(c, buffered, es[i])
    ensures var r := Run(c, buffered, s, es);
      !r.electionArmed && NoNewVoteRequest(c, s, r)
    decreases |es|
  {
    if es != [] {
      var next := Step(c, buffered, s, es[0]);
      StepStaysSilent(c, buffered, s, es[0]);
      CancelledElectionStaysSilent(c, buffered, next, es[1..]);
      var r := Run(c, buffered, next, es[1..]);
      assert r == Run(c, buffered, s, es);
      forall k | |s.outbox| <= k < |r.outbox|
        ensures !IsVoteRequest(c, r.outbox[k])
      {
        if k < |next.outbox| {
          assert next.outbox <= r.outbox;
          assert r.outbox[k] == next.outbox[k];
        }
      }
    }
  }

  /** One step of the lemma above. */
  lemma StepStaysSilent(c: Config, buffered: map<Address, seq<byte>>, s: NodeState, e: Event)
    requires c.Valid() && !s.electionArmed && !IsNormalHeartbeat(c, buffered, e)
    ensures var r := Step(c, buffered, s, e);
      !r.electionArmed && NoNewVoteRequest(c, s, r)
  {
    match e
    case Deliver(p) =>
      if p.payload != [] {
        var msg := PacketContent(buffered, p.from, p.payload);
        var t := TypeOf(msg);
        if t == c.codes.voteReq {
          VoteRequestStaysSilent(c, s, p.from);
        } else if t == c.codes.heartbeat {
          ProposalBeatStaysSilent(c, s, p.from, At(msg, 1), At(msg, 2));
        } else if t == c.codes.voteRes {
          VoteResponseStaysSilent(c, s, At(msg, 1));
        } else if t == c.codes.heartbeatRes {
          HeartbeatResponseStaysSilent(c, s, At(msg, 1), At(msg, 2));
        }
      }
    case ElectionTimeout =>
    case HeartbeatTimeout =>
      HeartbeatIsNoVoteRequest(c, s);
    case ProposalDue =>
  }

  /** VOTE_REQ leaves the election timer alone and only replies to the candidate. */
  lemma VoteRequestStaysSilent(c: Config, s: NodeState, from: Address)
    ensures var r := OnVoteRequest(c, s, from);
      r.electionArmed == s.electionArmed && NoNewVoteRequest(c, s, r) &&
      forall k :: |s.outbox| <= k < |r.outbox| ==> r.outbox[k].dest != Broadcast
  {
  }

  /** A non-normal heartbeat cancels the election timer and only replies to the leader. */
  lemma ProposalBeatStaysSilent(c: Config, s: NodeState, from: Address, kind: byte, carried: byte)
    requires CharToInt(kind) != c.codes.normalBeat
    ensures var r := OnHeartbeat(c, s, from, kind, carried);
      !r.electionArmed && NoNewVoteRequest(c, s, r) &&
      forall k :: |s.outbox| <= k < |r.outbox| ==> r.outbox[k].dest != Broadcast
  {
  }

  lemma VoteResponseStaysSilent(c: Config, s: NodeState, status: byte)
    requires c.Valid() && !s.electionArmed
    ensures var r := OnVoteResponse(c, s, status);
      !r.electionArmed && NoNewVoteRequest(c, s, r)
  {
    HeartbeatIsNoVoteRequest(c, s.(voteSuccess := 0, voteFailed := 0, electionArmed := false,
                                    proposalScheduled := true));
  }

  lemma HeartbeatResponseStaysSilent(c: Config, s: NodeState, kind: byte, status: byte)
    ensures var r := OnHeartbeatResponse(c, s, kind, status);
      r.electionArmed == s.electionArmed && r.outbox == s.outbox
  {
  }

  /** A heartbeat is never taken for a vote request: HEARTBEAT and VOTE_REQ are distinct
      digits, so their characters differ. */
  lemma HeartbeatIsNoVoteRequest(c: Config, s: NodeState)
    requires c.Valid()
    ensures var r := Protocol.SendHeartBeat(c, s);
      r.electionArmed == s.electionArmed && NoNewVoteRequest(c, s, r)
  {
  }
}
