/** A corrected acceptor rule: the promise is tested for absence rather than
    for falsiness, and accepting a proposal also raises the promise to it.
    With these two changes an acceptor never forgets, and never lowers, what
    it has accepted, which is what a proposer's value adoption relies on.
 */
module AcceptorFix {
  import opened Messages
  import opened Acceptors

  /** Whatever has been accepted is covered by the promise. */
  predicate FixedInv(s: AcceptorState) {
    s.acceptedId.Some? ==> s.promised.Some? && s.acceptedId.value <= s.promised.value
  }

  function DecideFixed(s: AcceptorState, req: Request, acceptor: int): (d: Decision)
    ensures d.response.kind == req.kind && d.response.acceptor == acceptor
    ensures d.ignore <==> d.response.result == Some(Rejected)
    ensures d.ignore ==> d.next == s
    ensures req.kind == Prepare ==>
              (d.ignore <==> s.promised.Some? && s.promised.value >= req.proposalId)
    ensures req.kind == Accept ==> (d.ignore <==> PromisedAbove(s.promised, req.proposalId))
    ensures req.kind == Accept && !d.ignore ==>
              d.next == AcceptorState(Some(req.proposalId), Some(req.proposalId), req.value)
    ensures FixedInv(s) ==> FixedInv(d.next)
    ensures FixedInv(s) ==> AtMost(s.acceptedId, d.next.acceptedId)
    ensures FixedInv(s) ==> ReportsAccepted(s, d.response)
  {
    var base := Response(req.kind, acceptor, None, None, None);
    match req.kind
    case Prepare =>
      if s.promised.None? then
        Decision(s.(promised := Some(req.proposalId)), false,
                 base.(result := Some(Accepted), proposalId := Some(req.proposalId)))
      else if s.promised.value >= req.proposalId then
        Decision(s, true, base.(result := Some(Rejected)))
      else
        Decision(s.(promised := Some(req.proposalId)), false,
                 base.(result := Some(Accepted), proposalId := s.acceptedId, value := s.value))
    case Accept =>
      if PromisedAbove(s.promised, req.proposalId) then
        Decision(s, true, base.(result := Some(Rejected)))
      else
        Decision(AcceptorState(Some(req.proposalId), Some(req.proposalId), req.value), false,
                 base.(result := Some(Accepted)))
    case Unset =>
      Decision(s, false, base)
  }

  /** The state after handling `reqs` in order under the corrected rule. */
  function RunFixed(s: AcceptorState, reqs: seq<Request>, acceptor: int): AcceptorState
    decreases |reqs|
  {
    if reqs == [] then s
    else DecideFixed(RunFixed(s, reqs[..|reqs| - 1], acceptor), reqs[|reqs| - 1], acceptor).next
  }

  lemma RunFixedStep(s: AcceptorState, reqs: seq<Request>, acceptor: int, k: nat)
    requires k < |reqs|
    ensures RunFixed(s, reqs[..k + 1], acceptor) ==
            DecideFixed(RunFixed(s, reqs[..k], acceptor), reqs[k], acceptor).next
  {
    assert reqs[..k + 1][..k] == reqs[..k];
  }

  /** Every state reached from a fresh acceptor satisfies the invariant. */
  lemma {:induction false} FixedInvHolds(reqs: seq<Request>, acceptor: int, k: nat)
    requires k <= |reqs|
    ensures FixedInv(RunFixed(Fresh, reqs[..k], acceptor))
  {
    if k > 0 {
      FixedInvHolds(reqs, acceptor, k - 1);
      RunFixedStep(Fresh, reqs, acceptor, k - 1);
    }
  }

  /** Once the request at step `j` has been accepted, every later state
      records an accepted id at least as high. */
  lemma {:induction false} FixedKeepsAccepted(reqs: seq<Request>, acceptor: int, j: nat, k: nat)
    requires j < k <= |reqs|
    requires reqs[j].kind == Accept
    requires DecideFixed(RunFixed(Fresh, reqs[..j], acceptor), reqs[j], acceptor).response.result == Some(Accepted)
    ensures var a := RunFixed(Fresh, reqs[..k], acceptor).acceptedId;
            a.Some? && a.value >= reqs[j].proposalId
  {
    if k == j + 1 {
      RunFixedStep(Fresh, reqs, acceptor, j);
    } else {
      FixedKeepsAccepted(reqs, acceptor, j, k - 1);
      FixedInvHolds(reqs, acceptor, k - 1);
      RunFixedStep(Fresh, reqs, acceptor, k - 1);
    }
  }

  /** No overwrite: after an acceptor has accepted proposal p, every promise it
      grants reports an accepted id of at least p together with the value it
      holds for that id. */
  lemma FixedNoOverwrite(reqs: seq<Request>, acceptor: int, j: nat, k: nat)
    requires j < k < |reqs|
    requires reqs[j].kind == Accept
    requires DecideFixed(RunFixed(Fresh, reqs[..j], acceptor), reqs[j], acceptor).response.result == Some(Accepted)
    requires reqs[k].kind == Prepare
    requires DecideFixed(RunFixed(Fresh, reqs[..k], acceptor), reqs[k], acceptor).response.result == Some(Accepted)
    ensures var s := RunFixed(Fresh, reqs[..k], acceptor);
            var r := DecideFixed(s, reqs[k], acceptor).response;
            r.proposalId.Some? && r.proposalId.value >= reqs[j].proposalId && r.value == s.value
  {
    FixedKeepsAccepted(reqs, acceptor, j, k);
    FixedInvHolds(reqs, acceptor, k);
  }
}
