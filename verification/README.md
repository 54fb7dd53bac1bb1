# Single-decree Paxos engine of a threaded simulation, in Dafny

The simulation runs proposer threads and acceptor threads that send each
other dictionaries over lossy queues. This project models the protocol
engine inside them:

- the acceptor decision rule (`Acceptor.processPropose`), with the three
  fields it updates: the promise, the accepted id and the accepted value;
- the proposer's per-round bookkeeping: resetting the tally and sending one
  request to the acceptors it reaches (`sendPropose`), tallying replies and
  adopting an already-accepted value (`processMsg`), collecting replies until
  every reached acceptor has answered or the wait runs out, and the majority
  test with its phase or round transition (`summarize`);
- the proposal id `N * 20 + id`.

Each object whose fields the source updates is a Dafny class:
`Acceptors.Acceptor`, `Proposers.Proposer` and the queue
`Messages.Channel`. The methods that apply the protocol rules are proved
against pure step functions: `ProcessPropose` and `Serve` against `Decide`,
`ProcessMsg` and `Collect` against `Receive` and `ReceiveAll`, and `Summarize`
against `Conclude`. The properties of the protocol are proved about those
functions. `Start`, `SendPropose` and `Channel.Put` state their new state
directly in their contracts.

Modules: `Messages` (message shapes, constants, proposal ids, queues),
`Acceptors` (the rule as written, and the acceptor object), `AcceptorFix`
(the corrected rule, see Findings), `Quorums` (the majority test),
`Proposers` (the proposer object and its step functions), `ProposerFix` (the
corrected adoption test, see Findings), and `Scenario` (the lossless
one-proposer run).

How the Python is modelled:

- A Python `None`, and a key missing from a dictionary, are both `None` of
  `Option`. Values are strings. A value is truthy when it is present and
  non-empty, and an id when it is present and non-zero.
- A proposer's `status` of `None` (before `run` starts) is `Stage.Unset`.
  Message types use the same `Stage` datatype.
- Both Python quirks of the acceptor are kept:
  - `not promised` also holds for a promise of 0 (`Unpromised`).
  - `None > p` is false (`PromisedAbove`), so an acceptor with no promise
    accepts.
- The accept branch never touches the promise. So the accepted id can go
  down; `LowerAcceptOverwritesHigher` shows an example.
- `m_acceptor_num / 2` is Python 2 floor division. Dafny's `/` by 2 gives
  the same result for every integer.
- Points where the code differs from the textbook protocol ("Paxos Made
  Simple") or from its own comments; the model follows the code:
  - The acceptor treats a promise of 0 as no promise, although the comment at
    cfPaxos.py:250 reads the branch as "never seen a proposal".
  - `max_proposal_id` starts at 0 when the proposer is created (cfPaxos.py:76)
    and is never reset between rounds. In "Paxos Made Simple" the proposer
    picks the highest-numbered proposal among the promises of the current
    round only.
- Two further behaviours of the code that the model keeps: after a failed
  round the proposer keeps whatever value it adopted, and a successful accept
  phase sets `status` back to `"prepare"` before `run` stops.

## Model

| member | source | states |
|---|---|---|
| Messages.ProposalId | cfPaxos.py:166 | for a proposer id in 0..19, the round is `pid / 20` and the proposer is `pid % 20`, so the id decodes back to both |
| Messages.ProposalIdInjective | cfPaxos.py:33 | two ids with proposer ids in 0..19 are equal exactly when their rounds and proposers are equal |
| Messages.ProposalIdIncreasesWithRound | cfPaxos.py:166 | for a fixed proposer, a later round gives a strictly larger id |
| Messages.Channel.Put | cfPaxos.py:184 | putting a message appends it to the end of the queue |
| Acceptors.Decide | cfPaxos.py:244-282 | prepare is rejected exactly when the promise is non-zero and at least p; a rejection is flagged ignorable and changes nothing; a granted prepare sets the promise to p; it echoes (p, no value) when the promise was absent or 0, and the accepted id and value otherwise; accept is rejected exactly when the promise is above p; a granted accept records (p, v) and never changes the promise; an unknown type changes nothing and carries no result |
| Acceptors.Acceptor.constructor | cfPaxos.py:208-217 | a new acceptor has no promise, no accepted id and no value |
| Acceptors.Acceptor.ProcessPropose | cfPaxos.py:244-282 | the new fields, the ignore flag and the reply are those `Decide` gives for the old fields |
| Acceptors.Acceptor.Serve | cfPaxos.py:222-235 | the acceptor handles the request; the reply goes onto the sender's queue unless it is suppressed or lost, and nothing else is added there |
| Acceptors.PromiseNeverDecreases | cfPaxos.py:248-281 | with non-negative ids, the promise at any later point of a run is at least the promise at any earlier point |
| Acceptors.AcceptsKeepPromise | cfPaxos.py:270-281 | any sequence of accept requests leaves the promise unchanged |
| Acceptors.ZeroPromiseForgetsAccepted | cfPaxos.py:249-253 | after prepare 0 and accept (0, "A"), prepare 1 is granted with no value, although "A" is accepted |
| Acceptors.UnpromisedAcceptIsForgotten | cfPaxos.py:249-281 | after accept (21, "B") on a fresh acceptor, prepare 40 is granted echoing (40, no value) |
| Acceptors.LowerAcceptOverwritesHigher | cfPaxos.py:270-281 | with promise 20, accepting 41 then 22 leaves 22 recorded, and prepare 60 is told (22, "B") |
| AcceptorFix.DecideFixed | cfPaxos.py:244-282 | the corrected rule keeps "whatever is accepted is covered by the promise"; under that invariant the accepted id never goes down, and every granted prepare echoes the accepted id and value |
| AcceptorFix.FixedInvHolds | cfPaxos.py:244-282 | every state the corrected rule reaches from a fresh acceptor satisfies the invariant |
| AcceptorFix.FixedKeepsAccepted | cfPaxos.py:270-281 | under the corrected rule, once proposal p is accepted, every later state records an accepted id of at least p |
| AcceptorFix.FixedNoOverwrite | cfPaxos.py:244-282 | under the corrected rule, once p is accepted, every later granted prepare echoes an accepted id of at least p with the value held for it |
| Quorums.MajorityIsStrict | cfPaxos.py:191 | `accept > m / 2` holds exactly when `2 * accept > m` (a strict majority) |
| Quorums.MajoritiesIntersect | cfPaxos.py:191 | two sets of acceptor indices below m that each pass the majority test share an acceptor |
| Proposers.Receive | cfPaxos.py:139-156 | a reply of the wrong type, or with no result, changes nothing; otherwise exactly one of accept or reject goes up by one; value and `max_proposal_id` change exactly when the reply is a granted prepare with a truthy value and a truthy id above `max_proposal_id`; `max_proposal_id` never decreases |
| Proposers.ReceiveAll | cfPaxos.py:96-106 | over a sequence of replies, status, round and reached count are kept; `max_proposal_id` does not decrease; the tally grows by at most one per reply |
| Proposers.AdoptsHighest | cfPaxos.py:145-151 | after a prepare phase's replies, `max_proposal_id` is at least every candidate's echoed id; the value is either unchanged or that of a candidate whose echoed id equals `max_proposal_id` |
| Proposers.UnanimousAccepts | cfPaxos.py:139-156 | replies that all grant the current phase raise the accept count by their number and leave rejects unchanged |
| Proposers.NoCandidateKeepsValue | cfPaxos.py:148-151 | replies that carry no accepted value leave the proposer's value unchanged |
| Proposers.AdoptionExample | cfPaxos.py:148-151 | in a prepare phase with `max_proposal_id` below 9, echoes (5, A), (9, B), (3, C) leave the value B |
| Proposers.Conclude | cfPaxos.py:188-203 | agreement holds exactly when `2 * accept > m`; on agreement the phase flips prepare to accept, or anything else to prepare, and N is kept; otherwise N goes up by one and the status becomes prepare; the value and the tally are untouched either way |
| Proposers.QuorumOfThree | cfPaxos.py:191 | with three acceptors a phase succeeds exactly when it has at least two accepts |
| Proposers.RoundsOnlyIncrease | cfPaxos.py:197-201 | over n summaries, N never goes down and rises by at most n |
| Proposers.Proposer.constructor | cfPaxos.py:66-84 | a new proposer has no status, round 0, no value, `max_proposal_id` 0 and all counts 0 |
| Proposers.Proposer.Start | cfPaxos.py:89-90 | the proposer enters prepare with the catalog value it drew; nothing else changes |
| Proposers.Proposer.ProcessMsg | cfPaxos.py:139-156 | the new fields are `Receive` of the old fields and the reply |
| Proposers.Proposer.SendPropose | cfPaxos.py:159-184 | the tally is reset; the body is (status, N*20+id, value, id); the selection lists, in increasing order, exactly the reachable acceptors; the reached count is that number; each reachable queue gets the body appended, and the other queues are unchanged |
| Proposers.Proposer.Summarize | cfPaxos.py:188-203 | the new fields and the result are what `Conclude` gives for the old fields |
| Proposers.Proposer.Collect | cfPaxos.py:96-106 | replies are taken in order; it stops at the first reply after which accept plus reject equals the reached count, or at the end of the input (the timeout); the new fields are `ReceiveAll` of the replies taken |
| ProposerFix.ReceiveFixed | cfPaxos.py:139-156 | the corrected test counts the tally exactly as `Receive` does and adopts exactly when a granted prepare carries a truthy value and any present id above the best id so far; for every reply that does not echo id 0 it agrees with `Receive` |
| ProposerFix.AdoptsHighestFixed | cfPaxos.py:145-151 | under the corrected test, the best id bounds every candidate's id; the value is unchanged or that of a candidate with the best id, and it is the latter as soon as one candidate beats the starting id |
| ProposerFix.FreshProposerAdoptsAnyEcho | cfPaxos.py:76 | a proposer that has adopted nothing, hearing any candidate with a non-negative id, ends with a best id at least that high and the value of a candidate holding the best id |
| ProposerFix.ZeroIdNotAdopted | cfPaxos.py:148 | even under the corrected acceptor, prepare 0, accept (0, "A"), prepare 1 echoes (0, "A"), and proposer 1 still keeps "B" |
| ProposerFix.ZeroIdAdopted | cfPaxos.py:148 | under the corrected acceptor and the corrected test, that same echo makes proposer 1 adopt "A" |
| Scenario.LosslessSingleProposer | cfPaxos.py:87-136 | with one proposer, three acceptors and no loss, both phases agree, the proposer keeps its starting value and all three acceptors hold it |

## Findings

Each of the three acceptor defects can make two proposers choose different
values. Take proposer 0 first, whose round-0 id is 0. It gets "A" accepted
by every acceptor, so "A" is chosen. Under the first defect, proposer 1's
prepare 1 is then granted with no value by all of them. Proposer 1 proposes
its own value, and that value is chosen too. The `Acceptors.Acceptor` class
models the code as written. The corrected rule is `AcceptorFix.DecideFixed`,
and the no-overwrite property is proved about it in
`AcceptorFix.FixedNoOverwrite`.

The corrected acceptor alone does not rescue this example. Its promise to
proposer 1 now echoes (0, "A"). But the proposer's adoption test also
treats id 0 as absent: it needs a truthy `proposal_id` above
`max_proposal_id`, which starts at 0. So proposer 1 still keeps its own
value. That is the fourth row. The corrected test is `ProposerFix.ReceiveFixed`.
The `Proposers.Proposer` class models the code as written.

| source | as written | input that shows it | evidently intended | confidence | as-written member | corrected member |
|---|---|---|---|---|---|---|
| cfPaxos.py:249 | `not promised` is also true for a promise of 0, so that branch answers as if nothing had been accepted | prepare 0, accept (0, "A"), prepare 1: granted with no value | only a missing promise means no proposal was seen | not executed; high | Acceptors.ZeroPromiseForgetsAccepted | AcceptorFix.DecideFixed |
| cfPaxos.py:276-281 | an accept does not record a promise, so an acceptor whose prepare was lost can accept and then answer the next prepare with no value | accept (21, "B") on a fresh acceptor, then prepare 40: granted as (40, no value) | accepting p also promises p, so the accepted value is always echoed | not executed; high | Acceptors.UnpromisedAcceptIsForgotten | AcceptorFix.FixedNoOverwrite |
| cfPaxos.py:271-281 | an accept below the last accepted id overwrites it, so the acceptor forgets its highest accepted proposal | prepare 20, accept (41, "A"), accept (22, "B"), prepare 60: echoes (22, "B") | an acceptor keeps its highest accepted proposal, and a lower accept is rejected | not executed; high | Acceptors.LowerAcceptOverwritesHigher | AcceptorFix.FixedKeepsAccepted |
| cfPaxos.py:148 | the adoption test needs a truthy `proposal_id` above `max_proposal_id`, which starts at 0 (line 76), so a value echoed with id 0 is never adopted | under the corrected acceptor, prepare 0, accept (0, "A"), prepare 1: the promise echoes (0, "A"), and proposer 1 keeps "B" | any echoed id counts, and a proposer that has adopted nothing takes the first echoed value | not executed; high | ProposerFix.ZeroIdNotAdopted | ProposerFix.AdoptsHighestFixed |

## Left out

- Threads, `Queue.get` with its 4- and 1-second timeouts, and the `time.sleep` jitter are not modelled. `Proposer.Collect` reads a given sequence of delivered replies, and reaching its end stands for the timeout.
- The random 10% message loss is an input: the `reach` mask of `SendPropose` and the `delivered` flag of `Acceptor.Serve`. The random initial value is an input too: the `choice` index of `Start`.
- The `mutex`, the live-proposer and live-acceptor counters, the acceptor's shutdown polling and the acceptor's endless `run` loop are not modelled. `Acceptor.Serve` models one pass through that loop's body.
- `printStr` and `debug_level` are not modelled; they only produce output.
- The `__main__` wiring is not modelled.
- The proposer's `while True` loop in `run` is not modelled as one method, because it has no bound and may never end. Its steps are: `Start`, `SendPropose`, `Collect` and `Summarize`. `Scenario.LosslessSingleProposer` plays one lossless run on the step functions that these methods follow.
- Safety of the whole system across interleaved actors is not modelled. The model proves three of its ingredients: the per-acceptor no-overwrite property of the corrected acceptor, the adoption of the highest echoed value under the corrected proposer test, and the overlap of majorities. These hold for the corrected definitions only. As the Findings show, the code as written breaks the first two.
- Proposers.Receive: a reply of the current phase without a `result` makes the source raise `KeyError`. The model counts such a reply as nothing. `Acceptors.Decide` shows the acceptor always fills in `result` for prepare and accept.
- Acceptors.Acceptor.Serve: requires the sender id to index the reply queues. Python would also accept a negative index.
- Proposers.Proposer.constructor: requires distinct acceptor queues, as the wiring in `__main__` provides. `Channel` has no `get`. The consumer's side is the input sequence of `Collect`.
