/** The acceptor's decision rule, exactly as the simulation implements it,
    and the acceptor object that applies it to the requests it receives.
 */
module Acceptors {
  import opened Messages

  /** The three fields an acceptor updates: the highest id it has promised
      in a prepare, the id it last accepted, and the value of that accept. */
  datatype AcceptorState = AcceptorState(promised: Option<int>, acceptedId: Option<int>, value: Option<Value>)

  /** The state of a newly created acceptor. */
  const Fresh: AcceptorState := AcceptorState(None, None, None)

  /** The outcome of handling one request: the new state, whether the reply
      may be suppressed, and the reply. */
  datatype Decision = Decision(next: AcceptorState, ignore: bool, response: Response)

  /** `not promised` in Python: no promise at all, or a promise of 0. */
  predicate Unpromised(p: Option<int>) {
    p.None? || p.value == 0
  }

  /** `promised > n` in Python 2, where None compares below every integer. */
  predicate PromisedAbove(p: Option<int>, n: int) {
    p.Some? && p.value > n
  }

  /** Order on optional ids in which "nothing yet" is below every id. */
  predicate AtMost(a: Option<int>, b: Option<int>) {
    a.None? || (b.Some? && a.value <= b.value)
  }

  /** What a prepare reply must carry once the acceptor has accepted
      something: the accepted id and value, so the proposer can adopt them. */
  predicate ReportsAccepted(s: AcceptorState, r: Response) {
    r.kind == Prepare && r.result == Some(Accepted) && s.acceptedId.Some? ==>
      r.proposalId == s.acceptedId && r.value == s.value
  }

  /** The acceptor decision rule as the code implements it. */
  function Decide(s: AcceptorState, req: Request, acceptor: int): (d: Decision)
    ensures d.response.kind == req.kind && d.response.acceptor == acceptor
    ensures d.ignore <==> d.response.result == Some(Rejected)
    ensures d.ignore ==> d.next == s && d.response.proposalId.None? && d.response.value.None?
    ensures req.kind == Unset ==> d.next == s && d.response.result.None?
    ensures req.kind != Unset ==> d.response.result.Some?
    // prepare: reject exactly when a (non-zero) promise is at least the id
    ensures req.kind == Prepare ==>
              (d.ignore <==> !Unpromised(s.promised) && s.promised.value >= req.proposalId)
    ensures req.kind == Prepare && !d.ignore ==> d.next == s.(promised := Some(req.proposalId))
    ensures req.kind == Prepare && !d.ignore && Unpromised(s.promised) ==>
              d.response.proposalId == Some(req.proposalId) && d.response.value.None?
    ensures req.kind == Prepare && !d.ignore && !Unpromised(s.promised) ==>
              d.response.proposalId == s.acceptedId && d.response.value == s.value
    // accept: reject exactly when the promise is above the id; never touch the promise
    ensures req.kind == Accept ==> d.next.promised == s.promised
    ensures req.kind == Accept ==> (d.ignore <==> PromisedAbove(s.promised, req.proposalId))
    ensures req.kind == Accept && !d.ignore ==>
              d.next == s.(acceptedId := Some(req.proposalId), value := req.value) &&
              d.response.proposalId.None? && d.response.value.None?
  {
    var base := Response(req.kind, acceptor, None, None, None);
    match req.kind
    case Prepare =>
      if Unpromised(s.promised) then
        Decision(s.(promised := Some(req.proposalId)), false,
                 base.(result := Some(Accepted), proposalId := Some(req.proposalId)))
      else if s.promised.value > req.proposalId then
        Decision(s, true, base.(result := Some(Rejected)))
      else if s.promised.value == req.proposalId then
        Decision(s, true, base.(result := Some(Rejected)))
      else
        Decision(s.(promised := Some(req.proposalId)), false,
                 base.(result := Some(Accepted), proposalId := s.acceptedId, value := s.value))
    case Accept =>
      if PromisedAbove(s.promised, req.proposalId) then
        Decision(s, true, base.(result := Some(Rejected)))
      else
        Decision(s.(acceptedId := Some(req.proposalId), value := req.value), false,
                 base.(result := Some(Accepted)))
    case Unset =>
      Decision(s, false, base)
  }

  /** The state after handling `reqs` in order, starting from `s`. */
  function Run(s: AcceptorState, reqs: seq<Request>, acceptor: int): AcceptorState
    decreases |reqs|
  {
    if reqs == [] then s
    else Decide(Run(s, reqs[..|reqs| - 1], acceptor), reqs[|reqs| - 1], acceptor).next
  }

  /** Handling one more request is one more `Decide` step. */
  lemma RunStep(s: AcceptorState, reqs: seq<Request>, acceptor: int, k: nat)
    requires k < |reqs|
    ensures Run(s, reqs[..k + 1], acceptor) == Decide(Run(s, reqs[..k], acceptor), reqs[k], acceptor).next
  {
    assert reqs[..k + 1][..k] == reqs[..k];
  }

  /** With non-negative ids the promise never goes down, over any stretch of a run. */
  lemma {:induction false} PromiseNeverDecreases(s: AcceptorState, reqs: seq<Request>, acceptor: int, j: nat, k: nat)
    requires j <= k <= |reqs|
    requires forall i :: 0 <= i < |reqs| ==> reqs[i].proposalId >= 0
    ensures AtMost(Run(s, reqs[..j], acceptor).promised, Run(s, reqs[..k], acceptor).promised)
  {
    if j < k {
      PromiseNeverDecreases(s, reqs, acceptor, j, k - 1);
      RunStep(s, reqs, acceptor, k - 1);
    }
  }

  /** A stretch of accept requests leaves the promise where it was. */
  lemma {:induction false} AcceptsKeepPromise(s: AcceptorState, reqs: seq<Request>, acceptor: int)
    requires forall i :: 0 <= i < |reqs| ==> reqs[i].kind == Accept
    ensures Run(s, reqs, acceptor).promised == s.promised
  {
    if reqs != [] {
      AcceptsKeepPromise(s, reqs[..|reqs| - 1], acceptor);
    }
  }

  /** A promise of 0 (proposer 0's first prepare) counts as no promise: after
      accepting proposal 0 with "A", the acceptor answers prepare 1 as if it had
      accepted nothing. */
  lemma ZeroPromiseForgetsAccepted()
    ensures var s := Run(Fresh, [Request(Prepare, 0, None, 0), Request(Accept, 0, Some("A"), 0)], 0);
            var r := Decide(s, Request(Prepare, 1, None, 1), 0).response;
            s.acceptedId == Some(0) && s.value == Some("A") &&
            r.result == Some(Accepted) && r.value.None? && !ReportsAccepted(s, r)
  {
  }

  /** An accept reaching an acceptor whose prepare was lost leaves the promise
      unset: after proposer 1's accept (21, "B"), proposer 0's prepare 40 is
      answered as if nothing had been accepted. */
  lemma UnpromisedAcceptIsForgotten()
    ensures var s := Run(Fresh, [Request(Accept, 21, Some("B"), 1)], 0);
            var r := Decide(s, Request(Prepare, 40, None, 0), 0).response;
            s.acceptedId == Some(21) &&
            r.result == Some(Accepted) && r.proposalId == Some(40) && r.value.None? &&
            !ReportsAccepted(s, r)
  {
  }

  /** The accepted id can go down: with promise 20, accepting proposer 1's 41
      and then proposer 2's 22 leaves 22 recorded, and prepare 60 is told
      about 22, not 41. */
  lemma LowerAcceptOverwritesHigher()
    ensures var reqs := [Request(Prepare, 20, None, 0), Request(Accept, 41, Some("A"), 1),
                         Request(Accept, 22, Some("B"), 2)];
            var r := Decide(Run(Fresh, reqs, 0), Request(Prepare, 60, None, 0), 0).response;
            Run(Fresh, reqs[..2], 0).acceptedId == Some(41) &&
            Run(Fresh, reqs, 0).acceptedId == Some(22) &&
            r.result == Some(Accepted) && r.proposalId == Some(22) && r.value == Some("B")
  {
    var reqs := [Request(Prepare, 20, None, 0), Request(Accept, 41, Some("A"), 1),
                 Request(Accept, 22, Some("B"), 2)];
    assert reqs[..1] == [reqs[0]];
    assert reqs[..2][..1] == reqs[..1];
    assert reqs[..2] == reqs[..1] + [reqs[1]];
    assert Run(Fresh, reqs[..1], 0) == AcceptorState(Some(20), None, None);
    assert Run(Fresh, reqs[..2], 0) == AcceptorState(Some(20), Some(41), Some("A"));
  }

  /** One acceptor thread's state; its inbound queue is left to the caller. */
  class Acceptor {
    const id: int
    var promised: Option<int>
    var acceptedId: Option<int>
    var value: Option<Value>

    ghost function State(): AcceptorState
      reads this
    {
      AcceptorState(promised, acceptedId, value)
    }

    constructor (id: int)
      ensures this.id == id && State() == Fresh
    {
      this.id := id;
      promised := None;
      acceptedId := None;
      value := None;
    }

    /** Handles one request and returns whether its reply may be suppressed, and the reply. */
    method ProcessPropose(req: Request) returns (ignore: bool, res: Response)
      modifies this
      ensures Decision(State(), ignore, res) == Decide(old(State()), req, id)
    {
      ignore := false;
      res := Response(req.kind, id, None, None, None);
      if req.kind == Prepare {
        if Unpromised(promised) {
          promised := Some(req.proposalId);
          res := res.(result := Some(Accepted), proposalId := Some(req.proposalId));
        } else if promised.value > req.proposalId {
          res := res.(result := Some(Rejected));
          ignore := true;
        } else if promised.value == req.proposalId {
          res := res.(result := Some(Rejected));
          ignore := true;
        } else {
          res := res.(result := Some(Accepted), proposalId := acceptedId, value := value);
          promised := Some(req.proposalId);
        }
      } else if req.kind == Accept {
        if PromisedAbove(promised, req.proposalId) {
          res := res.(result := Some(Rejected));
          ignore := true;
        } else {
          res := res.(result := Some(Accepted));
          acceptedId := Some(req.proposalId);
          value := req.value;
        }
      }
    }

    /** Handles one request taken off the inbound queue and, unless the reply
        is suppressed or lost (`delivered` is false), puts it on the queue of
        the proposer that sent the request. */
    method Serve(req: Request, delivered: bool, replyQueues: seq<Channel<Response>>)
      requires 0 <= req.proposer < |replyQueues|
      modifies this, replyQueues[req.proposer]
      ensures State() == Decide(old(State()), req, id).next
      ensures var d := Decide(old(State()), req, id);
              replyQueues[req.proposer].items ==
                old(replyQueues[req.proposer].items) +
                (if delivered && !(d.ignore && AcceptorCanIgnore) then [d.response] else [])
    {
      var ignore, resp := ProcessPropose(req);
      if ignore && AcceptorCanIgnore {
        return;
      }
      if delivered {
        replyQueues[req.proposer].Put(resp);
      }
    }
  }
}
