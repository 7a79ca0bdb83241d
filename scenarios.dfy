/** How the two tallies of raft/model/raft-node.cc behave over several answers: the
    HEARTBEAT_RES round of a leader, and the VOTE_RES count of a candidate. */
module Scenarios {
  import opened Codec
  import opened Protocol

  /** One answer to a heartbeat: the reply kind and the status octet. */
  datatype Answer = Answer(kind: byte, status: byte)

  /** A leader's state after reading the HEARTBEAT_RES answers in order. */
  function Answers(c: Config, s: NodeState, xs: seq<Answer>): NodeState
    decreases |xs|
  {
    if xs == [] then s
    else Answers(c, OnHeartbeatResponse(c, s, xs[0].kind, xs[0].status), xs[1..])
  }

  /** One answer while the round is open: the tallies grow by one, or go back to zero
      when this was the last answer of the round; the heartbeat timer can only be
      cancelled; nothing else changes. */
  lemma AnswerStep(c: Config, s: NodeState, x: Answer)
    requires s.voteSuccess >= 0 && s.voteFailed >= 0 && s.voteSuccess + s.voteFailed < c.n - 2
    ensures var r := OnHeartbeatResponse(c, s, x.kind, x.status);
      r.voteSuccess >= 0 && r.voteFailed >= 0 &&
      (s.voteSuccess + s.voteFailed + 1 == c.n - 2 ==> r.voteSuccess == 0 && r.voteFailed == 0) &&
      (s.voteSuccess + s.voteFailed + 1 < c.n - 2 ==> r.voteSuccess + r.voteFailed == s.voteSuccess + s.voteFailed + 1) &&
      (r.heartbeatArmed ==> s.heartbeatArmed) &&
      r.(voteSuccess := s.voteSuccess, voteFailed := s.voteFailed, heartbeatArmed := s.heartbeatArmed) == s
  {
  }

  /** A leader whose tallies are below N - 2 is back at zero after exactly the answers
      still missing from the round, whatever they say; nothing but the tallies and the
      heartbeat timer has changed, and the timer is only ever cancelled, never armed. */
  lemma {:induction false} HeartbeatRoundCompletes(c: Config, s: NodeState, xs: seq<Answer>)
    requires s.voteSuccess >= 0 && s.voteFailed >= 0 && s.voteSuccess + s.voteFailed < c.n - 2
    requires |xs| == c.n - 2 - (s.voteSuccess + s.voteFailed)
    ensures var r := Answers(c, s, xs);
      r.voteSuccess == 0 && r.voteFailed == 0 &&
      (r.heartbeatArmed ==> s.heartbeatArmed) &&
      r.(voteSuccess := s.voteSuccess, voteFailed := s.voteFailed, heartbeatArmed := s.heartbeatArmed) == s
    decreases |xs|
  {
    var next := OnHeartbeatResponse(c, s, xs[0].kind, xs[0].status);
    AnswerStep(c, s, xs[0]);
    if |xs| == 1 {
      assert Answers(c, s, xs) == Answers(c, next, []) == next;
    } else {
      HeartbeatRoundCompletes(c, next, xs[1..]);
    }
  }

  /** In a cluster of one or two nodes the round never completes: every answer only adds
      to the tallies, so a leader there never stops its heartbeat loop. */
  lemma {:induction false} SmallClusterNeverCompletes(c: Config, s: NodeState, xs: seq<Answer>)
    requires c.n <= 2 && s.voteSuccess >= 0 && s.voteFailed >= 0
    ensures var r := Answers(c, s, xs);
      r.voteSuccess + r.voteFailed == s.voteSuccess + s.voteFailed + |xs| &&
      r.heartbeatArmed == s.heartbeatArmed
    decreases |xs|
  {
    if xs != [] {
      SmallClusterNeverCompletes(c, OnHeartbeatResponse(c, s, xs[0].kind, xs[0].status), xs[1..]);
    }
  }

  /** A candidate's state after reading the VOTE_RES statuses in order. */
  function Votes(c: Config, s: NodeState, statuses: seq<byte>): NodeState
    decreases |statuses|
  {
    if statuses == [] then s
    else Votes(c, OnVoteResponse(c, s, statuses[0]), statuses[1..])
  }

  /** The candidate's state right after its own `sendVote`, with no answer counted yet. */
  function Candidate(c: Config): NodeState
  {
    Protocol.SendVote(c, Start(c, Initial()))
  }

  /** In a cluster of five, two grants win at once, but two denials end the count before
      all four peers have answered: grant, deny, deny, grant leaves the candidate a
      follower again, with its vote released, although three of the five nodes voted for
      it. Its tallies then hold only the last grant. */
  lemma LossBeforeAllAnswers(id: nat, codes: Codes)
    requires Config(id, 5, codes).Valid()
    ensures var c := Config(id, 5, codes);
      var grant := IntToChar(codes.success);
      var deny := IntToChar(codes.failed);
      Votes(c, Candidate(c), [grant, grant]).isLeader &&
      var r := Votes(c, Candidate(c), [grant, deny, deny, grant]);
      !r.isLeader && !r.hasVoted && r.voteSuccess == 1 && r.voteFailed == 0
  {
    var c := Config(id, 5, codes);
    var grant := IntToChar(codes.success);
    var deny := IntToChar(codes.failed);
    DigitRoundTrip(codes.success);
    DigitRoundTrip(codes.failed);
    assert Votes(c, Candidate(c), [grant, grant]) == Votes(c, OnVoteResponse(c, OnVoteResponse(c, Candidate(c), grant), grant), []);
    var s1 := OnVoteResponse(c, Candidate(c), grant);
    assert s1.voteSuccess == 1 && s1.voteFailed == 0 && !s1.isLeader;
    var s2 := OnVoteResponse(c, s1, deny);
    assert s2.voteSuccess == 1 && s2.voteFailed == 1 && !s2.isLeader;
    var s3 := OnVoteResponse(c, s2, deny);
    assert s3.voteSuccess == 0 && s3.voteFailed == 0 && !s3.hasVoted && !s3.isLeader;
    var s4 := OnVoteResponse(c, s3, grant);
    var xs := [grant, deny, deny, grant];
    assert xs[1..][1..][1..][1..] == [];
    assert Votes(c, Candidate(c), xs) == Votes(c, s1, xs[1..]) == Votes(c, s2, xs[1..][1..])
        == Votes(c, s3, xs[1..][1..][1..]) == Votes(c, s4, []);
  }
}
