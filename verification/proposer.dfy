/** A proposer's per-round bookkeeping: sending a proposal to the acceptors
    it reaches, tallying their replies, adopting an already-accepted value,
    and deciding whether the phase succeeded.
 */
module Proposers {
  import opened Messages
  import opened Quorums

  /** The fields a proposer updates while it runs. `round` is the source's N;
      `maxProposalId` is the highest echoed id it has adopted a value from,
      which is never reset between rounds. */
  datatype ProposerState = ProposerState(
    status: Stage,
    round: nat,
    value: Option<Value>,
    maxProposalId: int,
    acceptCount: nat,
    rejectCount: nat,
    liveAcceptorCount: nat)

  /** The state of a newly created proposer, before it starts running. */
  const Initial: ProposerState := ProposerState(Unset, 0, None, 0, 0, 0, 0)

  /** A reply is counted only when it is of the phase the proposer is in. */
  predicate Counts(status: Stage, r: Response) {
    status != Unset && r.kind == status
  }

  /** A promise that carries a value accepted under some id. */
  predicate Candidate(r: Response) {
    r.kind == Prepare && r.result == Some(Accepted) &&
    IsTruthyValue(r.value) && IsTruthyId(r.proposalId)
  }

  /** The proposer takes over the value of a promise whose echoed id beats
      every id it has adopted from so far. */
  predicate Adopts(s: ProposerState, r: Response) {
    s.status == Prepare && Candidate(r) && r.proposalId.value > s.maxProposalId
  }

  /** Every reply has been received: the tally equals the number of acceptors reached. */
  predicate Tallied(s: ProposerState) {
    s.acceptCount + s.rejectCount == s.liveAcceptorCount
  }

  /** The effect of one reply on the proposer. */
  function Receive(s: ProposerState, r: Response): (t: ProposerState)
    ensures !Counts(s.status, r) || r.result.None? ==> t == s
    ensures Counts(s.status, r) && r.result == Some(Accepted) ==>
              t.acceptCount == s.acceptCount + 1 && t.rejectCount == s.rejectCount
    ensures Counts(s.status, r) && r.result == Some(Rejected) ==>
              t.rejectCount == s.rejectCount + 1 && t.acceptCount == s.acceptCount
    ensures Adopts(s, r) ==> t.value == r.value && t.maxProposalId == r.proposalId.value
    ensures !Adopts(s, r) ==> t.value == s.value && t.maxProposalId == s.maxProposalId
    ensures t.maxProposalId >= s.maxProposalId
    ensures t.status == s.status && t.round == s.round && t.liveAcceptorCount == s.liveAcceptorCount
  {
    if s.status == Prepare && r.kind == Prepare then
      match r.result
      case Some(Rejected) => s.(rejectCount := s.rejectCount + 1)
      case Some(Accepted) =>
        var t := s.(acceptCount := s.acceptCount + 1);
        if IsTruthyValue(r.value) && IsTruthyId(r.proposalId) && r.proposalId.value > s.maxProposalId then
          t.(maxProposalId := r.proposalId.value, value := r.value)
        else
          t
      case None => s
    else if s.status == Accept && r.kind == Accept then
      match r.result
      case Some(Rejected) => s.(rejectCount := s.rejectCount + 1)
      case Some(Accepted) => s.(acceptCount := s.acceptCount + 1)
      case None => s
    else
      s
  }

  /** The effect of a sequence of replies, received in order. */
  function ReceiveAll(s: ProposerState, rs: seq<Response>): (t: ProposerState)
    ensures t.status == s.status && t.round == s.round && t.liveAcceptorCount == s.liveAcceptorCount
    ensures t.maxProposalId >= s.maxProposalId
    ensures s.acceptCount + s.rejectCount <= t.acceptCount + t.rejectCount <= s.acceptCount + s.rejectCount + |rs|
    decreases |rs|
  {
    if rs == [] then s else Receive(ReceiveAll(s, rs[..|rs| - 1]), rs[|rs| - 1])
  }

  lemma ReceiveAllStep(s: ProposerState, rs: seq<Response>, k: nat)
    requires k < |rs|
    ensures ReceiveAll(s, rs[..k + 1]) == Receive(ReceiveAll(s, rs[..k]), rs[k])
  {
    assert rs[..k + 1][..k] == rs[..k];
  }

  /** After a prepare phase's replies the proposer holds the value of the
      candidate with the highest echoed id, unless none beat what it had. */
  lemma {:induction false} AdoptsHighest(s: ProposerState, rs: seq<Response>)
    requires s.status == Prepare
    ensures var t := ReceiveAll(s, rs);
            (forall i :: 0 <= i < |rs| && Candidate(rs[i]) ==> rs[i].proposalId.value <= t.maxProposalId) &&
            ((t.maxProposalId == s.maxProposalId && t.value == s.value) ||
             (exists i :: 0 <= i < |rs| && Candidate(rs[i]) &&
                          rs[i].proposalId == Some(t.maxProposalId) && t.value == rs[i].value))
    decreases |rs|
  {
    if rs != [] {
      var n := |rs| - 1;
      var front := rs[..n];
      AdoptsHighest(s, front);
      var u := ReceiveAll(s, front);
      var t := ReceiveAll(s, rs);
      assert t == Receive(u, rs[n]);
      forall i | 0 <= i < |rs| && Candidate(rs[i])
        ensures rs[i].proposalId.value <= t.maxProposalId
      {
        if i < n {
          assert rs[i] == front[i];
        }
      }
      if !(t.maxProposalId == s.maxProposalId && t.value == s.value) {
        if Adopts(u, rs[n]) {
          assert Candidate(rs[n]) && rs[n].proposalId == Some(t.maxProposalId) && t.value == rs[n].value;
        } else {
          var i :| 0 <= i < |front| && Candidate(front[i]) &&
                   front[i].proposalId == Some(u.maxProposalId) && u.value == front[i].value;
          assert rs[i] == front[i];
        }
      }
    }
  }

  /** Replies that all accept the current phase add one accept each. */
  lemma {:induction false} UnanimousAccepts(s: ProposerState, rs: seq<Response>)
    requires forall i :: 0 <= i < |rs| ==> Counts(s.status, rs[i]) && rs[i].result == Some(Accepted)
    ensures ReceiveAll(s, rs).acceptCount == s.acceptCount + |rs|
    ensures ReceiveAll(s, rs).rejectCount == s.rejectCount
    decreases |rs|
  {
    if rs != [] {
      UnanimousAccepts(s, rs[..|rs| - 1]);
    }
  }

  /** Without a candidate among the replies the proposer keeps its value. */
  lemma {:induction false} NoCandidateKeepsValue(s: ProposerState, rs: seq<Response>)
    requires forall i :: 0 <= i < |rs| ==> !Candidate(rs[i])
    ensures ReceiveAll(s, rs).value == s.value
    decreases |rs|
  {
    if rs != [] {
      NoCandidateKeepsValue(s, rs[..|rs| - 1]);
    }
  }

  /** Promises echoing (5, A), (9, B) and (3, C) leave the proposer with B. */
  lemma AdoptionExample(s: ProposerState)
    requires s.status == Prepare && s.maxProposalId < 9
    ensures ReceiveAll(s, [Response(Prepare, 0, Some(Accepted), Some(5), Some("A")),
                           Response(Prepare, 1, Some(Accepted), Some(9), Some("B")),
                           Response(Prepare, 2, Some(Accepted), Some(3), Some("C"))]).value == Some("B")
  {
    var rs := [Response(Prepare, 0, Some(Accepted), Some(5), Some("A")),
               Response(Prepare, 1, Some(Accepted), Some(9), Some("B")),
               Response(Prepare, 2, Some(Accepted), Some(3), Some("C"))];
    AdoptsHighest(s, rs);
    assert Candidate(rs[1]);
  }

  /** The outcome of summarizing a phase. */
  datatype Summary = Summary(next: ProposerState, agreed: bool)

  /** A majority moves the proposer to the other phase in the same round;
      anything less starts a new prepare round with the same value. */
  function Conclude(s: ProposerState, acceptorCount: nat): (out: Summary)
    ensures out.agreed <==> 2 * s.acceptCount > acceptorCount
    ensures out.agreed ==>
              out.next == s.(status := if s.status == Prepare then Accept else Prepare)
    ensures !out.agreed ==> out.next == s.(round := s.round + 1, status := Prepare)
  {
    MajorityIsStrict(s.acceptCount, acceptorCount);
    if IsMajority(s.acceptCount, acceptorCount) then
      Summary(s.(status := if s.status == Prepare then Accept else Prepare), true)
    else
      Summary(s.(round := s.round + 1, status := Prepare), false)
  }

  /** With three acceptors a phase needs two accepts, and one is not enough. */
  lemma QuorumOfThree(s: ProposerState)
    ensures Conclude(s, 3).agreed <==> s.acceptCount >= 2
  {
  }

  /** Over any series of summaries the round number only moves up, one step per failure. */
  lemma {:induction false} RoundsOnlyIncrease(s: ProposerState, acceptorCount: nat, n: nat)
    ensures s.round <= Repeat(s, acceptorCount, n).round <= s.round + n
  {
    if n > 0 {
      RoundsOnlyIncrease(s, acceptorCount, n - 1);
    }
  }

  /** `n` summaries in a row, each of the state the previous one left. */
  function Repeat(s: ProposerState, acceptorCount: nat, n: nat): ProposerState
  {
    if n == 0 then s else Conclude(Repeat(s, acceptorCount, n - 1), acceptorCount).next
  }

  /** A set of acceptor positions picked out by `reach`, in increasing order. */
  predicate IsSelection(reach: seq<bool>, ids: seq<nat>) {
    && (forall k :: 0 <= k < |ids| ==> ids[k] < |reach| && reach[ids[k]])
    && (forall k, l :: 0 <= k < l < |ids| ==> ids[k] < ids[l])
    && (forall i :: 0 <= i < |reach| && reach[i] ==> i in ids)
  }

  /** How many acceptors `reach` marks as reachable. */
  function CountTrue(bs: seq<bool>): (n: nat)
    ensures n <= |bs|
    decreases |bs|
  {
    if bs == [] then 0 else CountTrue(bs[..|bs| - 1]) + (if bs[|bs| - 1] then 1 else 0)
  }

  class Proposer {
    const id: int
    const acceptorCount: nat
    const sendQueues: seq<Channel<Request>>
    var status: Stage
    var round: nat
    var value: Option<Value>
    var maxProposalId: int
    var acceptCount: nat
    var rejectCount: nat
    var liveAcceptorCount: nat

    /** Each acceptor has its own queue. */
    ghost predicate Valid() {
      forall i, j :: 0 <= i < j < |sendQueues| ==> sendQueues[i] != sendQueues[j]
    }

    ghost function State(): ProposerState
      reads this
    {
      ProposerState(status, round, value, maxProposalId, acceptCount, rejectCount, liveAcceptorCount)
    }

    constructor (id: int, sendQueues: seq<Channel<Request>>, acceptorCount: nat)
      requires forall i, j :: 0 <= i < j < |sendQueues| ==> sendQueues[i] != sendQueues[j]
      ensures Valid() && State() == Initial
      ensures this.id == id && this.sendQueues == sendQueues && this.acceptorCount == acceptorCount
    {
      this.id := id;
      this.sendQueues := sendQueues;
      this.acceptorCount := acceptorCount;
      status := Unset;
      round := 0;
      value := None;
      maxProposalId := 0;
      acceptCount := 0;
      rejectCount := 0;
      liveAcceptorCount := 0;
    }

    /** Enters the prepare phase with the catalog value at `choice`. */
    method Start(choice: nat)
      requires choice < |Catalog|
      modifies this
      ensures State() == old(State()).(status := Prepare, value := Some(Catalog[choice]))
    {
      status := Prepare;
      value := Some(Catalog[choice]);
    }

    /** Tallies one reply. */
    method ProcessMsg(r: Response)
      modifies this
      ensures State() == Receive(old(State()), r)
    {
      if status == Prepare && r.kind == Prepare {
        if r.result == Some(Rejected) {
          rejectCount := rejectCount + 1;
        } else if r.result == Some(Accepted) {
          acceptCount := acceptCount + 1;
          if IsTruthyValue(r.value) && IsTruthyId(r.proposalId) && r.proposalId.value > maxProposalId {
            maxProposalId := r.proposalId.value;
            value := r.value;
          }
        }
      } else if status == Accept && r.kind == Accept {
        if r.result == Some(Rejected) {
          rejectCount := rejectCount + 1;
        } else if r.result == Some(Accepted) {
          acceptCount := acceptCount + 1;
        }
      }
    }

    /** Resets the tally and puts the same request on the queue of every
        acceptor that `reach` marks as reachable. */
    method SendPropose(reach: seq<bool>) returns (body: Request, selectedIds: seq<nat>)
      requires Valid() && |reach| == |sendQueues|
      modifies this, sendQueues
      ensures body == Request(status, ProposalId(round, id), value, id)
      ensures IsSelection(reach, selectedIds) && |selectedIds| == CountTrue(reach)
      ensures State() == old(State()).(acceptCount := 0, rejectCount := 0, liveAcceptorCount := |selectedIds|)
      ensures forall i :: 0 <= i < |sendQueues| ==>
                sendQueues[i].items == old(sendQueues[i].items) + (if reach[i] then [body] else [])
    {
      rejectCount := 0;
      acceptCount := 0;
      body := Request(status, ProposalId(round, id), value, id);

      var selected: seq<Channel<Request>> := [];
      selectedIds := [];
      var i := 0;
      while i < |sendQueues|
        invariant 0 <= i <= |sendQueues|
        invariant |selected| == |selectedIds| <= i
        invariant forall k :: 0 <= k < |selectedIds| ==>
                    selectedIds[k] < i && reach[selectedIds[k]] && selected[k] == sendQueues[selectedIds[k]]
        invariant forall k, l :: 0 <= k < l < |selectedIds| ==> selectedIds[k] < selectedIds[l]
        invariant forall j :: 0 <= j < i && reach[j] ==> j in selectedIds
        invariant |selectedIds| == CountTrue(reach[..i])
        modifies {}
      {
        assert reach[..i + 1][..i] == reach[..i];
        if reach[i] {
          selected := selected + [sendQueues[i]];
          selectedIds := selectedIds + [i];
        }
        i := i + 1;
      }
      assert reach[..i] == reach;
      liveAcceptorCount := |selected|;

      var k := 0;
      while k < |selected|
        invariant 0 <= k <= |selected|
        invariant forall j :: 0 <= j < |sendQueues| ==>
                    sendQueues[j].items == old(sendQueues[j].items) + (if j in selectedIds[..k] then [body] else [])
        modifies sendQueues
      {
        assert selectedIds[..k + 1] == selectedIds[..k] + [selectedIds[k]];
        selected[k].Put(body);
        k := k + 1;
      }
      assert selectedIds[..k] == selectedIds;
    }

    /** Applies the majority test and moves to the next phase or round. */
    method Summarize() returns (agreed: bool)
      modifies this
      ensures Summary(State(), agreed) == Conclude(old(State()), acceptorCount)
    {
      agreed := true;
      if IsMajority(acceptCount, acceptorCount) {
        if status == Prepare {
          status := Accept;
        } else {
          status := Prepare;
        }
      } else {
        round := round + 1;
        agreed := false;
        status := Prepare;
      }
    }

    /** Takes replies off `delivered` in order until every reached acceptor
        has answered; running out of replies stands for the timeout. */
    method Collect(delivered: seq<Response>) returns (consumed: nat)
      modifies this
      ensures consumed <= |delivered|
      ensures State() == ReceiveAll(old(State()), delivered[..consumed])
      ensures consumed == |delivered| || (0 < consumed && Tallied(State()))
      ensures forall k :: 0 < k < consumed ==> !Tallied(ReceiveAll(old(State()), delivered[..k]))
    {
      consumed := 0;
      while consumed < |delivered|
        invariant consumed <= |delivered|
        invariant State() == ReceiveAll(old(State()), delivered[..consumed])
        invariant forall k :: 0 < k <= consumed ==> !Tallied(ReceiveAll(old(State()), delivered[..k]))
      {
        ReceiveAllStep(old(State()), delivered, consumed);
        ProcessMsg(delivered[consumed]);
        consumed := consumed + 1;
        if acceptCount + rejectCount == liveAcceptorCount {
          break;
        }
      }
    }
  }
}
