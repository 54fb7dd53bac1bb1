/** A corrected adoption test for the proposer: an echoed id counts whenever
    it is present, 0 included, and a proposer that has adopted nothing yet
    compares against an id below every proposal id. Together with the
    corrected acceptor rule, a value accepted under proposal 0 is then passed
    on to the next proposer instead of being dropped.
 */
module ProposerFix {
  import opened Messages
  import opened Acceptors
  import opened AcceptorFix
  import opened Proposers

  /** The best id of a proposer that has adopted no value: below every
      proposal id, since those are never negative. */
  const NoneAdopted: int := -1

  /** A newly created proposer under the corrected test. */
  const InitialFixed: ProposerState := Initial.(maxProposalId := NoneAdopted)

  /** A promise that carries a value accepted under some id, whatever the id. */
  predicate CandidateFixed(r: Response) {
    r.kind == Prepare && r.result == Some(Accepted) &&
    IsTruthyValue(r.value) && r.proposalId.Some?
  }

  predicate AdoptsFixed(s: ProposerState, r: Response) {
    s.status == Prepare && CandidateFixed(r) && r.proposalId.value > s.maxProposalId
  }

  /** One reply under the corrected test: the tally is counted as before, and
      the rule differs from `Receive` only for a reply that echoes id 0. */
  function ReceiveFixed(s: ProposerState, r: Response): (t: ProposerState)
    ensures r.proposalId != Some(0) ==> t == Receive(s, r)
    ensures t.acceptCount == Receive(s, r).acceptCount && t.rejectCount == Receive(s, r).rejectCount
    ensures AdoptsFixed(s, r) ==> t.value == r.value && t.maxProposalId == r.proposalId.value
    ensures !AdoptsFixed(s, r) ==> t.value == s.value && t.maxProposalId == s.maxProposalId
    ensures t.status == s.status && t.round == s.round && t.liveAcceptorCount == s.liveAcceptorCount
  {
    var u := Receive(s, r);
    if AdoptsFixed(s, r) then u.(maxProposalId := r.proposalId.value, value := r.value) else u
  }

  /** A sequence of replies, received in order, under the corrected test. */
  function ReceiveAllFixed(s: ProposerState, rs: seq<Response>): (t: ProposerState)
    ensures t.status == s.status && t.round == s.round && t.liveAcceptorCount == s.liveAcceptorCount
    ensures t.maxProposalId >= s.maxProposalId
    decreases |rs|
  {
    if rs == [] then s else ReceiveFixed(ReceiveAllFixed(s, rs[..|rs| - 1]), rs[|rs| - 1])
  }

  /** After a prepare phase's replies the proposer's best id bounds every
      candidate's id, and as soon as one candidate beats the id it started
      with, it holds the value of a candidate with the highest id. */
  lemma {:induction false} AdoptsHighestFixed(s: ProposerState, rs: seq<Response>)
    requires s.status == Prepare
    ensures var t := ReceiveAllFixed(s, rs);
            (forall i :: 0 <= i < |rs| && CandidateFixed(rs[i]) ==> rs[i].proposalId.value <= t.maxProposalId) &&
            ((t.maxProposalId == s.maxProposalId && t.value == s.value) ||
             (exists i :: 0 <= i < |rs| && CandidateFixed(rs[i]) &&
                          rs[i].proposalId == Some(t.maxProposalId) && t.value == rs[i].value))
    ensures var t := ReceiveAllFixed(s, rs);
            (exists i :: 0 <= i < |rs| && CandidateFixed(rs[i]) && rs[i].proposalId.value > s.maxProposalId) ==>
            (exists i :: 0 <= i < |rs| && CandidateFixed(rs[i]) &&
                         rs[i].proposalId == Some(t.maxProposalId) && t.value == rs[i].value)
    decreases |rs|
  {
    var t := ReceiveAllFixed(s, rs);
    if rs != [] {
      var n := |rs| - 1;
      var front := rs[..n];
      AdoptsHighestFixed(s, front);
      var u := ReceiveAllFixed(s, front);
      assert t == ReceiveFixed(u, rs[n]);
      forall i | 0 <= i < |rs| && CandidateFixed(rs[i])
        ensures rs[i].proposalId.value <= t.maxProposalId
      {
        if i < n {
          assert rs[i] == front[i];
        }
      }
      if !(t.maxProposalId == s.maxProposalId && t.value == s.value) {
        if AdoptsFixed(u, rs[n]) {
          assert CandidateFixed(rs[n]) && rs[n].proposalId == Some(t.maxProposalId) && t.value == rs[n].value;
        } else {
          var i :| 0 <= i < |front| && CandidateFixed(front[i]) &&
                   front[i].proposalId == Some(u.maxProposalId) && u.value == front[i].value;
          assert rs[i] == front[i];
        }
      }
    }
  }

  /** A proposer that has adopted nothing takes over a value from the first
      reply that carries one, whatever its echoed id. */
  lemma FreshProposerAdoptsAnyEcho(s: ProposerState, rs: seq<Response>, i: nat)
    requires s.status == Prepare && s.maxProposalId == NoneAdopted
    requires i < |rs| && CandidateFixed(rs[i]) && rs[i].proposalId.value >= 0
    ensures var t := ReceiveAllFixed(s, rs);
            t.maxProposalId >= rs[i].proposalId.value &&
            exists k :: 0 <= k < |rs| && CandidateFixed(rs[k]) &&
                        rs[k].proposalId == Some(t.maxProposalId) && t.value == rs[k].value
  {
    AdoptsHighestFixed(s, rs);
  }

  /** As written: even under the corrected acceptor, whose promise to
      proposer 1 echoes (0, "A"), proposer 1 keeps its own value "B", because
      the id 0 is not truthy and is not above its starting `max_proposal_id`. */
  lemma ZeroIdNotAdopted()
    ensures var a := RunFixed(Fresh, [Request(Prepare, 0, None, 0), Request(Accept, 0, Some("A"), 0)], 0);
            var r := DecideFixed(a, Request(Prepare, 1, None, 1), 0).response;
            r.result == Some(Accepted) && r.proposalId == Some(0) && r.value == Some("A") &&
            Receive(Initial.(status := Prepare, value := Some("B")), r).value == Some("B")
  {
  }

  /** Corrected: the same promise makes proposer 1 adopt "A". */
  lemma ZeroIdAdopted()
    ensures var a := RunFixed(Fresh, [Request(Prepare, 0, None, 0), Request(Accept, 0, Some("A"), 0)], 0);
            var r := DecideFixed(a, Request(Prepare, 1, None, 1), 0).response;
            ReceiveFixed(InitialFixed.(status := Prepare, value := Some("B")), r).value == Some("A")
  {
  }
}
