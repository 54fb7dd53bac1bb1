/** The simulation's basic scenario: one proposer, three acceptors, and no
    message lost in either direction, played out on the step functions that
    the proposer's and the acceptors' methods are proved to follow.
 */
module Scenario {
  import opened Messages
  import opened Acceptors
  import opened Proposers

  /** Both phases win three accepts out of three, the proposer keeps the value
      it started with, and every acceptor ends up holding that value. */
  method LosslessSingleProposer() returns (prepareAgreed: bool, acceptAgreed: bool,
                                           learned: Option<Value>, held: seq<Option<Value>>)
    ensures prepareAgreed && acceptAgreed
    ensures learned == Some(Catalog[0])
    ensures held == [learned, learned, learned]
  {
    var s := Initial.(status := Prepare, value := Some(Catalog[0]));

    // prepare phase: every acceptor is reached and every reply arrives
    s := s.(acceptCount := 0, rejectCount := 0, liveAcceptorCount := 3);
    var req := Request(s.status, ProposalId(s.round, 0), s.value, 0);
    var p0, p1, p2 := Decide(Fresh, req, 0), Decide(Fresh, req, 1), Decide(Fresh, req, 2);
    var promises := [p0.response, p1.response, p2.response];
    UnanimousAccepts(s, promises);
    NoCandidateKeepsValue(s, promises);
    s := ReceiveAll(s, promises);
    var summary := Conclude(s, 3);
    prepareAgreed, s := summary.agreed, summary.next;

    // accept phase
    s := s.(acceptCount := 0, rejectCount := 0, liveAcceptorCount := 3);
    req := Request(s.status, ProposalId(s.round, 0), s.value, 0);
    var a0, a1, a2 := Decide(p0.next, req, 0), Decide(p1.next, req, 1), Decide(p2.next, req, 2);
    var votes := [a0.response, a1.response, a2.response];
    UnanimousAccepts(s, votes);
    NoCandidateKeepsValue(s, votes);
    s := ReceiveAll(s, votes);
    summary := Conclude(s, 3);
    acceptAgreed, s := summary.agreed, summary.next;

    learned := s.value;
    held := [a0.next.value, a1.next.value, a2.next.value];
  }
}
