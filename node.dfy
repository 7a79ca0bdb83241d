/** The RaftNode application object of raft/model/raft-node.cc: its fields are updated in
    place by the socket callback (`HandleRead`) and by the timer callbacks (`sendVote`,
    `sendHeartBeat`, `setProposal`). Each method is proved to leave the object in the
    state the corresponding function of module Protocol computes from the old state. */
module Node {
  import opened Codec
  import opened Protocol

  class RaftNode {
    /** `m_id`, `N` and the header's codes. */
    const cfg: Config
    /** `m_bufferedData`: read by `getPacketContent`, written nowhere. */
    const bufferedData: map<Address, seq<byte>>

    var value: int
    var proposal: byte
    var hasVoted: bool
    var voteSuccess: int
    var voteFailed: int
    var addChangeValue: bool
    var isLeader: bool
    var electionArmed: bool
    var heartbeatArmed: bool
    var proposalScheduled: bool
    var outbox: seq<Outgoing>

    /** The node's fields as a value. */
    function State(): NodeState
      reads this
    {
      NodeState(value, proposal, hasVoted, voteSuccess, voteFailed, addChangeValue,
                isLeader, electionArmed, heartbeatArmed, proposalScheduled, outbox)
    }

    /** A node that has not started: no timer pending, nothing sent, not leader. */
    constructor (c: Config)
      requires c.Valid()
      ensures cfg == c && bufferedData == map[]
      ensures State() == Initial()
    {
      cfg := c;
      bufferedData := map[];
      value, proposal, hasVoted := 0, 0, false;
      voteSuccess, voteFailed := 0, 0;
      addChangeValue, isLeader := false, false;
      electionArmed, heartbeatArmed, proposalScheduled := false, false, false;
      outbox := [];
    }

    /** The protocol part of `StartApplication`. */
    method StartApplication()
      modifies this
      ensures State() == Start(cfg, old(State()))
      ensures value == 0 && voteSuccess == 0 && voteFailed == 0
      ensures !hasVoted && !addChangeValue && electionArmed
      ensures isLeader == old(isLeader) && outbox == old(outbox)
    {
      value := 0;
      proposal := IntToChar(cfg.id);
      voteSuccess := 0;
      voteFailed := 0;
      hasVoted := false;
      addChangeValue := false;
      electionArmed := true;   // m_nextElection = Schedule(election timeout, sendVote)
    }

    /** `Send(data, from)` and `Send(data)`: the first three octets of `data` go out. */
    method Send(data: array<Slot>, dest: Dest)
      requires data.Length >= 3
      modifies this`outbox
      ensures outbox == old(outbox) + [Outgoing(dest, data[..3])]
    {
      outbox := outbox + [Outgoing(dest, data[..3])];
    }

    /** `sendVote`, run when the election timer fires. */
    method SendVote()
      modifies this
      ensures State() == Protocol.SendVote(cfg, old(State()))
      ensures hasVoted && electionArmed
      ensures outbox == old(outbox) + [Outgoing(Broadcast, Message(cfg.codes.voteReq, cfg.id, Unset))]
    {
      hasVoted := true;
      var data := new Slot[3](_ => Unset);
      data[0] := Known(IntToChar(cfg.codes.voteReq));
      data[1] := Known(IntToChar(cfg.id));
      assert data[..3] == Message(cfg.codes.voteReq, cfg.id, Unset);
      Send(data, Broadcast);
      electionArmed := true;   // m_nextElection = Schedule(election timeout, sendVote)
    }

    /** `sendHeartBeat`, run by the heartbeat timer and once on winning an election. */
    method SendHeartBeat()
      modifies this
      ensures State() == Protocol.SendHeartBeat(cfg, old(State()))
      ensures hasVoted && heartbeatArmed == !old(addChangeValue)
      ensures value == if old(addChangeValue) then cfg.id else old(value)
    {
      hasVoted := true;
      var data := new Slot[4](_ => Unset);
      data[0] := Known(IntToChar(cfg.codes.heartbeat));
      if addChangeValue {
        data[1] := Known(IntToChar(1));
        data[2] := Known(IntToChar(cfg.id));
        value := cfg.id;
        heartbeatArmed := false;   // Cancel(m_nextHeartbeat)
        assert data[..3] == Message(cfg.codes.heartbeat, 1, Known(IntToChar(cfg.id)));
      } else {
        data[1] := Known(IntToChar(0));
        heartbeatArmed := true;    // m_nextHeartbeat = Schedule(20 ms, sendHeartBeat)
        assert data[..3] == Message(cfg.codes.heartbeat, 0, Unset);
      }
      Send(data, Broadcast);
    }

    /** `setProposal`, run ten seconds after winning. */
    method SetProposal()
      modifies this
      ensures State() == Protocol.SetProposal(old(State()))
      ensures addChangeValue
    {
      addChangeValue := true;
    }

    /** The `switch` of `HandleRead` on the decoded text of one packet from `from`. */
    method HandleMessage(from: Address, msg: seq<byte>)
      modifies this
      ensures State() == Dispatch(cfg, old(State()), from, msg)
    {
      var t := CharToInt(At(msg, 0));
      if t == cfg.codes.voteReq {
        HandleVoteRequest(from);
      } else if t == cfg.codes.heartbeat {
        HandleHeartbeat(from, msg);
      } else if t == cfg.codes.voteRes {
        HandleVoteResponse(msg);
      } else if t == cfg.codes.heartbeatRes {
        HandleHeartbeatResponse(msg);
      }
    }

    /** Case VOTE_REQ. */
    method HandleVoteRequest(from: Address)
      modifies this
      ensures State() == OnVoteRequest(cfg, old(State()), from)
    {
      var data := new Slot[4](_ => Unset);
      data[0] := Known(IntToChar(cfg.codes.voteRes));
      if !hasVoted {
        data[1] := Known(IntToChar(cfg.codes.success));
        hasVoted := true;
      } else {
        data[1] := Known(IntToChar(cfg.codes.failed));
      }
      assert data[..3] == VoteReply(cfg, from, !old(hasVoted)).data;
      Send(data, ReplyTo(from));
    }

    /** Case HEARTBEAT. */
    method HandleHeartbeat(from: Address, msg: seq<byte>)
      modifies this
      ensures State() == OnHeartbeat(cfg, old(State()), from, At(msg, 1), At(msg, 2))
    {
      var data := new Slot[4](_ => Unset);
      data[0] := Known(IntToChar(cfg.codes.heartbeatRes));
      var kind := CharToInt(At(msg, 1));
      if kind == cfg.codes.normalBeat {
        data[1] := Known(IntToChar(0));
        electionArmed := true;   // Cancel(m_nextElection), then schedule it afresh
      } else {
        data[1] := Known(IntToChar(1));
        value := CharToInt(At(msg, 2));
        electionArmed := false;  // Cancel(m_nextElection)
      }
      data[2] := Known(IntToChar(cfg.codes.success));
      assert data[..3] == HeartbeatReply(cfg, from, kind != cfg.codes.normalBeat).data;
      Send(data, ReplyTo(from));
    }

    /** Case VOTE_RES. */
    method HandleVoteResponse(msg: seq<byte>)
      modifies this
      ensures State() == OnVoteResponse(cfg, old(State()), At(msg, 1))
    {
      if !isLeader {
        var state := CharToInt(At(msg, 1));
        if state == cfg.codes.success {
          voteSuccess := voteSuccess + 1;
        } else {
          voteFailed := voteFailed + 1;
        }
        if voteSuccess + 1 > Half(cfg.n) {
          voteSuccess := 0;
          voteFailed := 0;
          electionArmed := false;     // Cancel(m_nextElection)
          proposalScheduled := true;  // Schedule(10 s, setProposal)
          ghost var won := State();
          SendHeartBeat();
          isLeader := true;
          assert State() == Protocol.SendHeartBeat(cfg, won).(isLeader := true);
        } else if voteFailed >= Half(cfg.n) {
          voteSuccess := 0;
          voteFailed := 0;
          hasVoted := false;
        }
      }
    }

    /** Case HEARTBEAT_RES. */
    method HandleHeartbeatResponse(msg: seq<byte>)
      modifies this
      ensures State() == OnHeartbeatResponse(cfg, old(State()), At(msg, 1), At(msg, 2))
    {
      var kind := CharToInt(At(msg, 1));
      if kind == cfg.codes.proposal && CharToInt(At(msg, 2)) == cfg.codes.success {
        voteSuccess := voteSuccess + 1;
      } else {
        voteFailed := voteFailed + 1;
      }
      if voteSuccess + voteFailed == cfg.n - 2 {
        if voteSuccess + 1 > Half(cfg.n) {
          voteSuccess := 0;
          voteFailed := 0;
          heartbeatArmed := false;    // Cancel(m_nextHeartbeat)
        } else {
          voteSuccess := 0;
          voteFailed := 0;
        }
      }
    }

    /** `HandleRead`: the packets the socket yields, in order, up to the first empty one
        (end of file). Each is reassembled with what is buffered for its sender and
        dispatched; the buffer is left as it was. */
    method HandleRead(packets: seq<Received>)
      modifies this
      ensures State() == ReadAll(cfg, bufferedData, old(State()), packets)
    {
      var i := 0;
      while i < |packets|
        invariant 0 <= i <= |packets|
        invariant ReadAll(cfg, bufferedData, State(), packets[i..])
               == ReadAll(cfg, bufferedData, old(State()), packets)
      {
        var p := packets[i];
        if p.payload == [] {
          break;
        }
        var msg := PacketContent(bufferedData, p.from, p.payload);
        HandleMessage(p.from, msg);
        assert packets[i..][1..] == packets[i + 1..];
        i := i + 1;
      }
    }
  }
}
