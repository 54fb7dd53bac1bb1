/** Message shapes, constants and queues shared by proposers and acceptors.

    The source passes Python dictionaries between threads; a key that is
    absent and a key whose value is None both read as `None` through
    `dict.get`, so both are modelled by `Option.None`.
 */
module Messages {

  datatype Option<T> = None | Some(value: T)

  /** An opaque payload; the simulation uses operation names. */
  type Value = string

  /** The values a proposer picks its initial proposal from. */
  const Catalog: seq<Value> := [
    "[Operation A]", "[Operation B]", "[Operation C]",
    "[Operation D]", "[Operation E]", "[Operation F]"
  ]

  /** Size of the per-round id space: ids are round * MaxProposerNum + proposer. */
  const MaxProposerNum: int := 20

  /** Whether a rejecting acceptor suppresses its reply. */
  const AcceptorCanIgnore: bool := false

  /** A proposer's status, and the "type" a message carries.
      `Unset` is the status a proposer has before it starts running. */
  datatype Stage = Unset | Prepare | Accept

  datatype Verdict = Accepted | Rejected

  /** A proposer's message body: type, proposal id, value and sender. */
  datatype Request = Request(kind: Stage, proposalId: int, value: Option<Value>, proposer: int)

  /** An acceptor's reply. `result`, `proposalId` and `value` are the keys
      that the acceptor may or may not have filled in. */
  datatype Response = Response(
    kind: Stage,
    acceptor: int,
    result: Option<Verdict>,
    proposalId: Option<int>,
    value: Option<Value>)

  /** Python truthiness of an optional string: present and non-empty. */
  predicate IsTruthyValue(v: Option<Value>) {
    v.Some? && v.value != ""
  }

  /** Python truthiness of an optional integer: present and non-zero. */
  predicate IsTruthyId(p: Option<int>) {
    p.Some? && p.value != 0
  }

  /** The globally unique proposal id of a proposer in a given round.
      For a proposer id inside the id space, the round and the proposer
      can be read back from the id. */
  function ProposalId(round: int, proposer: int): (pid: int)
    ensures 0 <= proposer < MaxProposerNum ==>
              pid / MaxProposerNum == round && pid % MaxProposerNum == proposer
  {
    round * MaxProposerNum + proposer
  }

  /** Two proposals collide only if they come from the same proposer in the same round. */
  lemma ProposalIdInjective(r1: int, p1: int, r2: int, p2: int)
    requires 0 <= p1 < MaxProposerNum && 0 <= p2 < MaxProposerNum
    ensures ProposalId(r1, p1) == ProposalId(r2, p2) <==> r1 == r2 && p1 == p2
  {
  }

  /** A fixed proposer's ids strictly increase with its round number. */
  lemma ProposalIdIncreasesWithRound(r1: int, r2: int, p: int)
    requires r1 < r2
    ensures ProposalId(r1, p) < ProposalId(r2, p)
  {
  }

  /** A first-in first-out queue that one actor puts messages on. */
  class Channel<T> {
    var items: seq<T>

    constructor ()
      ensures items == []
    {
      items := [];
    }

    method Put(x: T)
      modifies this
      ensures items == old(items) + [x]
    {
      items := items + [x];
    }
  }
}
