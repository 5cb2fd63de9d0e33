# Longjing in Dafny

A model of the Longjing gateway and of the arithmetic it stands on, with proofs of what the design promises.
A note is deposited with an amount D. Each request at an index i proves that `(i + 1) C_MAX <= D + R`, and shows the
gateway one RLN point (N, x, y). The gateway records it, calls the provider, and signs the next refund accumulator
`A' = A_pub + v G + J`. An exit at a claimed index n pays `D + R - n C_MAX`.

## What is modelled

- **The protocol** (`Protocol`, `ProtocolInvariant`, `ProtocolSteps`, `ProtocolTheorems`, `ExitRaces`, `Retries`). A
  transition system: deposits, the handler of a request cut at its awaits (record, call the provider, price, sign, remember and answer), handlers that
  die anywhere, restarts, response cleanup, exits, and their ingestion. The client is adversarial: it presents any witness
  the circuits accept, forks, replays and holds back accumulators. Results are stated for every run. What is *recorded* and
  what is *signed* are separate, since the handler can fail between the two.
- **The honest client** (`NoteClient`, `HonestRuns`, `Answers`): the note file, the product of its runs with everyone else's,
  and the answers it takes.
- **The services** (`GatewayState`, `NullifierStores`, `Gateway`, `RateLimit`): classes that update the store in place, one
  method for each stretch of code between two awaits. They are proved equal to the functions the protocol steps by.
- **The circuits' amounts** (`Circuits`): the constraints modulo p, and when they are the integer relations.
- **The arithmetic** (`Modular`, `Primes`, `Field`, `SquareRoots`, `Edwards`, `Group`, `CurvePoints`, `Accumulator`,
  `Slashing`): from Fermat's little theorem to Tonelli-Shanks, the completeness and closure of the addition law,
  hash-to-curve, the accumulator's homomorphism and RLN key recovery.
- **Around it** (`Merkle`, `Rtmr`, `ReportData`, `Bytes`, `FieldElements`, `EstimateCaches`): the Merkle path, the replay of
  the TDX event log, the report data, the text forms of field elements, the cache of estimates.
- **Instances** (`Witnesses`): a curve and a protocol that meet the hypotheses, with a run whose exit stands, one whose exit
  is slashed, and one in which a request follows the slashed exit.

## Hypotheses

Each is a named predicate or a `requires`, except the two on public signals and on signatures, which are built into the
transition system.

- `Ideal`: p is prime; no two keys of the run share a commitment, and no two of its (key, index) pairs share a nullifier;
  `rerandomize` and `applyRefund` act on commitments as on openings. The last two laws are proved of the curve's own
  arithmetic (`CurveMeetsLaws`), from an associative addition and an H of the given order.
- `Binds`: an opening a client comes up with for a signed point agrees with what was signed. It is asked of each opening as
  it is presented, since no commitment into a finite group is injective. `NextBinds` asks it of the accumulators a note's
  next request can be proved with.
- Public signals are reduced: the transition system stores a nullifier and a signal as the field elements they are.
  `parseFieldElement` does not reduce modulo p, and the format of a request admits N + p, so this rests on the verifier's
  refusal of a public signal of p or more.
- Only the gateway signs: an accumulator other than genesis opens only if it is in the log of signatures.
- `exitX` separates the x of exits from the x of requests: both are hashes, of different inputs. There is one deposit for each
  commitment, and one exit for each note, as the contract enforces.
- The honest client proves one exit, for at least every index it used, and no new request after it. The exit may be mined at
  any later time, by anyone, or never. `FairRun`: the answers it accepts carry refunds in [0, C_MAX]. Only the results about
  what its file is worth ask for this; that it is never slashed does not.
- Hashes (Poseidon, SHA-256, SHA-384) are parameters. Where a result needs that they do not collide, it asks this of the
  strings it hashes and of no others.
- Curves are any `Valid` ones: p an odd prime, a a square, d a non-residue by the Euler criterion. For Baby Jubjub the first
  and the last are all it takes (`DeployedCurveIsValid`). Associativity of the addition law is assumed where a lemma says
  so, and nowhere else.
- The clock does not go back, where a result says `Monotone`.

## Where the code falls short of its description

- `receive` puts no bound on the refund of a response. An accepted answer leaves a good file exactly when its refund lies in
  [0, C_MAX], a check the client could make before it folds the answer in: `AcceptedFile`. Both ways out of the range occur.
  `mulPoint` returns the identity for a negative scalar, so refund -1 is accepted with the point and signature of refund 0:
  `NegativeRefundAccepted`, for a request that costs C_MAX or more: `FullCostAcceptsNegative`. Refunds count modulo the order of
  G on the curve, so v plus that order is accepted with the point and signature of v: `SubgroupOrderAccepted`. Either way
  neither a request nor an exit can be proved from the file that is left.
- `proveWithdrawal` leaves the file as it is. A client that proves an exit, does not have it mined, and then proves a request
  gives up its key exactly when the exit claimed the request's index, as it does by default: `RequestAfterShownExit`.
- The design rules out requests above the index n of an exit (docs/SETTLEMENT.md:184). That fails of an exit that understates
  the usage, for as long as the gateway accepts a root from before the exit. `ReopenedRun` is such a run. `ExitClosesIndices` gives the exact
  condition: some continuation records another request at n or above if and only if a request took n before the exit was
  stored, so that the note was slashed, and the note can still go on. It can go on when its last request is signed or has a
  handler still at work, and the refunds that leaves it with pay for one more.
- The format of a request allows a negative signal y, and the verifier reduces it, but `parseFieldElement` throws on it when
  the signal is recorded. Of the texts the format admits, exactly those without a minus are read: `AdmittedRead`.
- "Bare hex" is read as hex only if it has a letter, or at most one digit that counts: `BareHexRead`. Any other run of digits
  is decimal.

## Model

| member | source | states |
|---|---|---|
| ProtocolTheorems.EconomicSafety | docs/SETTLEMENT.md:173-180 | In every run with slashing on, an ingested exit had slash called with that note's own k, or pays at most D less the charges of its answered requests less C_MAX for an unanswered one |
| ProtocolTheorems.ClaimCoversUsage | docs/SETTLEMENT.md:158 | An ingested exit that was not slashed claims at least every index ever recorded |
| ProtocolTheorems.IndicesFormPrefix | docs/SETTLEMENT.md:128-130 | In every run the indices a note's requests recorded are exactly 0, ..., t - 1 |
| ProtocolTheorems.OnlyLastUnanswered | src/longjing/longjing.service.ts:124-202 | Every recorded index but at most the last has a signature, which refunds C_MAX less what the note is charged for it; no other index has one |
| ProtocolTheorems.OneSignaturePerIndex | src/longjing/longjing.service.ts:205-216 | Two signatures for one note and one index are the same entry of the log |
| ProtocolTheorems.AccumulatorOpensToHistory | circuits/README.md:13-18 | Whatever opening a client proves for index m holds exactly the sum of the first m refunds of its note |
| ProtocolTheorems.SignaturesOpenToHistory | docs/SETTLEMENT.md:115 | What is signed for index i commits to the refunds of the requests up to i, whatever points were published |
| ProtocolTheorems.NoFraming | src/longjing/slashing.service.ts:69-88 | slash is only ever called with a key whose holder presented two signals at one index |
| ExitRaces.ExitClosesIndices | docs/SETTLEMENT.md:184 | After an ingested exit at n, some continuation records another request at n or above if and only if a request came first at n, so the note was slashed, and the note can go on: its last request signed or in the hands of a handler, and one more paid for |
| ExitRaces.FirstExitIsFinal | src/longjing/exit-watcher.service.ts:6-12 | An exit stored before any request at its index closes it and all later ones in every continuation |
| ExitRaces.MoreNeedsFunds | docs/SETTLEMENT.md:138 | A run that records more requests of a note starts where the note can go on: a handler that is gone, or too few refunds, ends it for good |
| ExitRaces.ReadyReaches | docs/SETTLEMENT.md:98-105 | Conversely a note that can go on, and whose next index is unspent, has a run to one more recorded request |
| ExitRaces.RequestsGoOn | docs/SETTLEMENT.md:128-138 | For every note whose next index is unspent, from genesis on: some run records a request there if and only if the note can go on |
| ExitRaces.DepositCoversOne | contracts/src/LongjingCredits.sol:221-228 | In every reachable state a note with no request yet can go on |
| Witnesses.ReopenedRun | docs/SETTLEMENT.md:184 | An instance has a run in which a request at index 1 is recorded after an exit at index 0 was ingested and slashed |
| ProtocolTheorems.ExitAfterRequest | src/longjing/exit-watcher.service.ts:47-50 | An exit at an index a request recorded slashes the true key |
| ProtocolTheorems.RequestAfterExit | src/longjing/longjing.service.ts:131-141 | A request at the index of an ingested exit slashes the true key and is not served |
| ProtocolTheorems.ExitAndRequestCommute | src/longjing/nullifier-store.service.ts:174-183 | In either order, the second of an exit and a request at one index slashes the true key |
| ProtocolTheorems.AtMostOncePerNullifier | src/longjing/longjing.service.ts:129-166 | Over every interleaving, a nullifier leads to at most one provider call and one signature |
| ProtocolTheorems.OneAnswerPerNullifier | src/longjing/longjing.service.ts:143-149 | All answers ever given under one nullifier are one and the same |
| ProtocolTheorems.CacheMatchesStore | src/longjing/nullifier-store.service.ts:189-208 | A kept response carries the stored (x, y) and is what was signed for it |
| ProtocolTheorems.RetryIsFree | docs/SETTLEMENT.md:137 | A second signal under a spent nullifier gets the signed answer or a refusal: no call, no signature, no index used |
| Retries.LostAnswerComesBack | docs/SETTLEMENT.md:137 | Whatever runs after an answer, save a restart or a late cleanup, a retry of its nullifier and x within ten minutes appends that very answer, and a later one none |
| Retries.AnsweredIsKept | src/longjing/longjing.service.ts:194-202 | A finished handler's answer goes out and is kept for ten minutes, with nobody left to replace it |
| Retries.RestartForgets | src/longjing/nullifier-store.service.ts:38-39 | A restart keeps every nullifier and no answer: a retry after it is refused |
| GatewayState.RetryWithinTtl | src/longjing/nullifier-store.service.ts:201-208 | A retry of a kept signal is answered before 600000 ms have passed and refused from then on |
| GatewayState.OtherYRefused | src/longjing/nullifier-store.service.ts:204-206 | The same x with another y is refused |
| GatewayState.VerdictWithoutAnswer | src/longjing/longjing.service.ts:129-150 | Fresh, double spend or already used, by whether the nullifier is stored and under which x |
| GatewayState.CleanupKeepsRecall | src/longjing/nullifier-store.service.ts:287-292 | A cleanup changes no recall at its time or later |
| GatewayState.ChargeIsMinimum | src/longjing/longjing.service.ts:157-181 | A served request is charged the lesser of its cost and C_MAX, a failed one nothing |
| ProtocolTheorems.RelationsAreConstraints | circuits/README.md:49 | In every reachable state the circuits' field constraints are the integer relations, and the payout signal is the integer payout |
| ProtocolTheorems.CurveMeetsLaws | src/longjing/accumulator.ts:153-180 | The curve's commit, rerandomize and applyRefund satisfy the laws the protocol assumes |
| ProtocolSteps.ReachableInv | src/longjing/longjing.service.ts:124-202 | Every run keeps the invariant that ties store, handlers, signatures, cache, exits and slashes to the notes' histories |
| ProtocolSteps.RunFromKeeps | src/longjing/nullifier-store.service.ts:32-40 | From any good state, every run keeps the invariant and takes back nothing recorded |
| ProtocolSteps.OpeningIsHistory | docs/SETTLEMENT.md:98-105 | An accepted opening is one the note's own history produced |
| ProtocolSteps.FreshIndexIsNext | docs/SETTLEMENT.md:130 | A witness whose nullifier is unspent is at the note's next index, with all refunds so far |
| Witnesses.SlashedRun | docs/SETTLEMENT.md:177 | An instance meeting all hypotheses has a run whose exit claims too little and is slashed |
| Witnesses.StandingRun | docs/SETTLEMENT.md:158 | It also has a run in which a request is served and the exit that covers it stands |
| Witnesses.ValidCurveExists | src/longjing/accumulator.ts:14-15 | The hypotheses on curves are met by a curve over seven elements |
| Protocol.DoubleSignalReveals | circuits/templates/rln.circom:5-26 | Two signals of one note at one index with different x give up exactly its key |
| Protocol.SignalOnSlope | circuits/templates/rln.circom:5-26 | The a = Poseidon(k, i) that the nullifier hashes is the slope of the line y = k + a x the signal lies on |
| Protocol.RevealsAcrossIndices | circuits/templates/rln.circom:5-26 | Signals at any two indices give up the key if and only if (a_i - a_j) x x' is 0 modulo p |
| Protocol.IndicesHideKey | docs/SETTLEMENT.md:123 | With reduced slopes and x other than 0, signals at different indices do not |
| ProtocolInvariant.RefundsAndCharges | src/longjing/longjing.service.ts:180-181 | Refunds and charges of the answered requests add up to C_MAX for each of them |
| HonestRuns.HonestNeverSlashed | scripts/client/note.ts:183 | Over any run with lost, late and repeated answers, whatever refunds they carry, and replays by others, a note whose one exit covers every used index never has slash called with its key |
| HonestRuns.SignalsRunKeeps | scripts/client/note.ts:178-183 | Over any such run at most one x is emitted at an index, and neither it nor the exit that was shown is ever replaced |
| HonestRuns.HonestSignalsHide | docs/SETTLEMENT.md:123 | Over any run, any two signals the client let out, its exit included, give up its key exactly when their x differ and (a_i - a_j) x x' is 0, which reduced slopes and x other than 0 rule out |
| HonestRuns.RetryIsSameRequest | scripts/client/note.ts:174-183 | While a request is pending it is proved again as it was, in any state and with any payload |
| HonestRuns.HonestRunKeeps | scripts/client/note.ts:291-308 | With refunds in [0, C_MAX] the file stays good too: it opens a genesis or signed accumulator to the note's own history |
| HonestRuns.UnderclaimRevealsKey | scripts/client/note.ts:323-327 | A claim repeats a used nullifier with another x if and only if it leaves out a used index, such as a pending one |
| HonestRuns.RequestAfterShownExit | scripts/client/note.ts:316-368 | With an exit shown and not mined, the next request repeats its nullifier if and only if the exit claimed that index, and the two then give up the key |
| HonestRuns.HonestCanExit | scripts/client/note.ts:311-315 | A good file can always prove its exit, with every operand in the circuit's range, a payout in [0, D], and the circuit's payout constraint and signal holding for that integer |
| HonestRuns.HonestCanRequest | scripts/client/note.ts:178-217 | A good file with nothing pending can prove a request if and only if deposit and refunds pay for one more |
| HonestRuns.HonestClaims | scripts/client/note.ts:323-327 | It can prove an exit for exactly the claims that cover its accumulator and leave a payout |
| HonestRuns.HonestPaysItsCosts | src/longjing/longjing.service.ts:180-181 | With nothing pending the payout is D less exactly what the answered requests cost |
| Answers.ServedRequestIsAccepted | scripts/client/note.ts:261-271 | The next index of a good file that has shown no exit is unspent, the gateway accepts its request, and what it signs for any outcome is what receive expects |
| HonestRuns.AcceptedFile | scripts/client/note.ts:252-309 | An answer receive accepts leaves a good file if and only if its refund lies in [0, C_MAX] |
| Answers.NegativeRefundAccepted | scripts/client/note.ts:259-264 | Whenever refund 0 is accepted so is -1 with the same point and signature, and then no request and no exit can be proved from the file |
| Answers.OversizedRefundAccepted | scripts/client/note.ts:259-271 | Whenever refund v is accepted so is v plus anything commitments wrap at, with the same point and signature; the file is then not good and its opening does not bind |
| Answers.SubgroupOrderAccepted | src/longjing/accumulator.ts:84-92 | On the curve the order of G is such a wrap, and no request and no exit can then be proved from the file |
| Accumulator.RefundsWrap | src/longjing/accumulator.ts:153-166 | Adding the order of G to the refunds of an opening leaves its commitment as it was |
| Accumulator.GenesisIs | src/longjing/accumulator.ts:168-170 | The genesis accumulator of c is c K |
| Accumulator.CommitRefunds | src/longjing/accumulator.ts:153-166 | R alone commits to R G |
| Accumulator.CommitIndex | src/longjing/accumulator.ts:153-166 | m alone commits to m J |
| Accumulator.CommitBlinding | src/longjing/accumulator.ts:153-166 | s alone commits to s H |
| Accumulator.CommitAdds | src/longjing/accumulator.ts:153-166 | The commitment of a sum of openings is the sum of their commitments |
| Answers.FullCostAcceptsNegative | src/longjing/longjing.service.ts:180-181 | A request that costs C_MAX or more is answered with refund 0, so refund -1 is accepted in its place |
| Circuits.SolvencyIsInteger | circuits/request.circom:75-88 | The solvency constraint modulo p holds if and only if (i + 1) C_MAX <= D + R over the integers |
| Circuits.PayoutIsInteger | circuits/settlement.circom:73-86 | The payout fits 129 bits if and only if it is not negative, and is then the integer one |
| Circuits.FieldIsLargeEnough | src/longjing/utils/payload-signal.util.ts:16-18 | Both hold for the deployed scalar field |
| NullifierStores.NullifierStore.CheckAndSet | src/longjing/nullifier-store.service.ts:174-183 | The stored signal if there is one and no change, else the signal is recorded: write-once |
| NullifierStores.NullifierStore.RecallResponse | src/longjing/nullifier-store.service.ts:201-208 | A kept response if and only if it has the same x and y and has not expired |
| NullifierStores.NullifierStore.RememberResponse | src/longjing/nullifier-store.service.ts:189-195 | Keeps the response with its signal for ten minutes and changes nothing else |
| NullifierStores.NullifierStore.CheckRateLimit | src/longjing/nullifier-store.service.ts:233-260 | Answers and updates as the window functions do, whose answers CheckAnswer gives; past 1000 nullifiers only attempts of the last minute are left |
| NullifierStores.NullifierStore.CleanupRateLimitMap | src/longjing/nullifier-store.service.ts:265-285 | Whatever order the entries come in, exactly the live attempts are left, none a minute old |
| NullifierStores.NullifierStore.CleanupResponses | src/longjing/nullifier-store.service.ts:287-292 | Exactly the responses that have not expired are left, unchanged |
| NullifierStores.NullifierStore.GetRemainingAttempts | src/longjing/nullifier-store.service.ts:297-304 | The count by the map's live attempts, which LimiterRefinesLog shows to be the full log's |
| RateLimit.LimiterRefinesLog | src/longjing/nullifier-store.service.ts:233-304 | Over every run with a clock that does not go back, grants, refusals and remaining counts are those of a log of all grants |
| RateLimit.CheckAnswer | src/longjing/nullifier-store.service.ts:233-260 | A check is granted if and only if the third grant from the end, if any, is at least 60000 ms old; a grant is then logged |
| RateLimit.AskAnswer | src/longjing/nullifier-store.service.ts:297-304 | The count left is 3 less the grants of the last 60000 ms |
| RateLimit.AtMostThreePerWindow | src/longjing/nullifier-store.service.ts:48-49 | Any two grants of a nullifier less than a window apart are among three consecutive ones |
| RateLimit.CleanupIsInvisible | src/longjing/nullifier-store.service.ts:262-285 | Dropping the cleanups from a run changes no other answer |
| Gateway.ExitWatcherService.Ingest | src/longjing/exit-watcher.service.ts:41-51 | The store and slash log become those of the protocol's recording step |
| Gateway.LongjingService.Admit | src/longjing/longjing.service.ts:87-92 | Forwards to CheckRateLimit and keeps its contract |
| Gateway.LongjingService.CoversWorstCase | src/longjing/longjing.service.ts:101-108 | Lets a request through if and only if C_MAX could charge its worst case in full |
| Gateway.LongjingService.RecordSignal | src/longjing/longjing.service.ts:124-150 | Verdict, store and slash log are those of the protocol's recording step |
| Gateway.LongjingService.RefundFor | src/longjing/longjing.service.ts:157-181 | v lies in [0, C_MAX] and v plus what the request is charged is C_MAX |
| Gateway.LongjingService.Finish | src/longjing/longjing.service.ts:194-202 | Forwards to RememberResponse, as the protocol's last step |
| Gateway.SlashingService.SlashRevealed | src/longjing/slashing.service.ts:69-88 | Calls slash with the recovered key, and not at all when disabled or when the signals share x |
| Gateway.RequestThenExit | src/longjing/exit-watcher.service.ts:47-50 | On the classes: a request and then an exit with another x call slash once, with what the two reveal |
| Gateway.ExitThenRequest | src/longjing/longjing.service.ts:131-141 | On the classes: in the other order the request is a double spend and the same key is slashed |
| Slashing.RecoverSecretKey | src/longjing/slashing.service.ts:46-63 | The loop computes the inverse, and the key as Recover has it |
| Slashing.RecoverSolves | src/longjing/slashing.service.ts:43-44 | r is recovered if and only if it is the residue with r (x2 - x1) = y1 x2 - y2 x1 |
| Slashing.RecoveryExact | src/longjing/slashing.service.ts:43-62 | Two points of one line over the key k < p, with x that differ modulo p, give k |
| Slashing.RecoveryFailsOnSharedX | src/longjing/slashing.service.ts:52-55 | It throws if and only if the signals share x modulo p |
| Slashing.RecoverySymmetric | src/longjing/slashing.service.ts:46-63 | The order of the signals does not matter |
| Slashing.RecoveryRespectsResidues | src/longjing/slashing.service.ts:51 | Only the residues of the coordinates matter |
| Primes.Fermat | src/longjing/accumulator.ts:37 | b^(p-1) = 1 for every prime p and every b it does not divide |
| Field.PowMod | src/longjing/accumulator.ts:25-35 | Square-and-multiply returns base^exp mod p for every natural exponent |
| Field.InvCancels | src/longjing/accumulator.ts:37 | inv(x) x = 1 for every x that p does not divide |
| Field.NonResidueIsNoSquare | src/longjing/accumulator.ts:43 | An element the Euler criterion rejects has no root |
| Field.EulerOfSquare | src/longjing/accumulator.ts:43 | Every nonzero square passes the Euler criterion |
| SquareRoots.Sqrt | src/longjing/accumulator.ts:40-72 | Returns a root if and only if there is one, for every odd prime with a non-residue, and always stops |
| SquareRoots.FindNonResidue | src/longjing/accumulator.ts:51-52 | The search for z stops at a non-residue, at the latest at a known one |
| SquareRoots.Round | src/longjing/accumulator.ts:58-70 | A round keeps r^2 = t n and the orders of t and c, and lowers m |
| SquareRoots.LeastOrder | src/longjing/accumulator.ts:59-64 | The inner loop stops below m at the order of t |
| Witnesses.DeployedCurveIsValid | src/longjing/accumulator.ts:14-15 | A = 168700 is a square, so with p prime and D^((p-1)/2) = -1 the deployed curve meets every hypothesis on curves |
| Edwards.Complete | src/longjing/accumulator.ts:77-81 | For any two points on the curve neither denominator of their sum is 0 |
| Edwards.AdditionLaw | src/longjing/accumulator.ts:74-82 | For points of the curve the sum is the one reduced solution of x3 (1 + kappa) = x1 y2 + y1 x2 and y3 (1 - kappa) = y1 y2 - A x1 x2, kappa = D x1 x2 y1 y2 |
| Edwards.Closed | src/longjing/accumulator.ts:74-82 | The sum of two points is a point on the curve, with reduced coordinates |
| Edwards.Commutative | src/longjing/accumulator.ts:74-82 | The order of the summands does not matter |
| Edwards.IdentityLaw | src/longjing/accumulator.ts:20 | Adding IDENTITY returns the point |
| Edwards.InverseLaw | src/longjing/accumulator.ts:74-97 | The point with the opposite x is on the curve and adds up with the point to IDENTITY |
| Group.MultipleIsTimes | src/longjing/accumulator.ts:84-92 | Double-and-add is repeated addition, in any commutative monoid |
| CurvePoints.MulPoint | src/longjing/accumulator.ts:84-92 | Never leaves the curve, and is repeated addition when addition is associative |
| CurvePoints.RootsAreOnCurve | src/longjing/accumulator.ts:113-118 | y is a root of (1 - A x^2) / (1 - D x^2) if and only if (x, y) is on the curve; the denominator is never 0 |
| CurvePoints.TryX | src/longjing/accumulator.ts:113-120 | Finds the point an x yields, with the smaller y and the cofactor cleared, if and only if it yields one |
| CurvePoints.HashToCurve | src/longjing/accumulator.ts:106-122 | The first counter that yields a point gives it; the point is on the curve and is not the identity |
| CurvePoints.LiftIsSmaller | src/longjing/accumulator.ts:116-117 | Of the y over x that are on the curve the smaller is taken |
| CurvePoints.YieldsInSubgroup | src/longjing/accumulator.ts:99-120 | On a curve of 8 l points, l kills what hash-to-curve returns |
| Accumulator.RerandomizeOpens | src/longjing/accumulator.ts:172-174 | A_pub opens to the same contents with the blindings added |
| Accumulator.ApplyRefundOpens | src/longjing/accumulator.ts:176-180 | A' opens to (R + v, i + 1, c, s) |
| Accumulator.RunOpens | scripts/client/note.ts:261-300 | From genesis, any run of rerandomize and applyRefund opens to the sums of refunds, requests and blindings mod the order of H |
| CurveAccumulator.CurveRunOpens | src/longjing/accumulator.ts:153-180 | The same of the curve's own arithmetic |
| Merkle.SelectorIsBit | circuits/templates/merkle_tree.circom:26 | The selector constraint admits 0 and 1 and nothing else in a prime field |
| Merkle.OneLevel | circuits/templates/merkle_tree.circom:23-39 | Selector 0 hashes (leaf, sibling) and selector 1 (sibling, leaf) |
| Merkle.PathIffMember | circuits/templates/merkle_tree.circom:10-43 | The output is a tree's root if and only if leaf and siblings are those at the position of the selectors, for every depth |
| Merkle.PathClimbsToRoot | circuits/templates/merkle_tree.circom:23-42 | The path taken from a tree is accepted, whatever the hash |
| Merkle.SelectorsSpellPosition | circuits/templates/merkle_tree.circom:24-26 | That position is the number the selectors write in binary, lowest level first |
| Rtmr.ReplayRtmrs | src/attestation/tdx-quote.ts:57-89 | The four registers are the folds of the log's projections, or the fault is that of the first faulty event |
| Rtmr.ExtendByOne | src/attestation/tdx-quote.ts:76-83 | One more event extends its own register as SHA-384(RTMR, padded digest) and no other |
| Rtmr.PaddedLayout | src/attestation/tdx-quote.ts:76-79 | A padded digest is the digest and zeros up to 48 bytes |
| Rtmr.EmptyRegister | src/attestation/tdx-quote.ts:50 | A register no event extends is 48 zero bytes |
| Rtmr.FaultsExact | src/attestation/tdx-quote.ts:62-75 | Which events are refused, and which fault comes first |
| Rtmr.RuntimeInputLayout | src/attestation/tdx-quote.ts:112-122 | A runtime digest covers the type in four little-endian bytes, the name and the payload, each of the two after a colon |
| Rtmr.ReplayUnique | src/attestation/tdx-quote.ts:57-89 | A log has one replay |
| Rtmr.ReorderInvisible | src/attestation/tdx-quote.ts:50-51 | Logs with the same events in each register replay alike |
| Rtmr.SwapKeepsRegisters | src/attestation/tdx-quote.ts:80-83 | Swapping neighbours of different registers keeps each register's events |
| Rtmr.RegisterPinsDigests | src/attestation/tdx-quote.ts:76-83 | Equal registers have equal padded digest sequences, unless the hash collides on what was hashed or reaches the start value |
| Rtmr.VerifyEventLog | src/attestation/tdx-quote.ts:95-110 | No failed check if and only if the log replays to the quote; else exactly the registers that differ, or the first fault |
| Rtmr.QuotePinsLog | src/attestation/tdx-quote.ts:91-94 | Two logs accepted for one quote extend each register as often, and with digests that agree one by one up to trailing zeros, full digests exactly |
| Rtmr.OffsetsAre | src/attestation/tdx-quote.ts:4-10 | The RTMRs are the 48-byte fields at bytes 376, 424, 472 and 520 |
| Rtmr.RuntimePayloadPinned | src/attestation/tdx-quote.ts:51-53 | One runtime digest gives one payload for each name, and one name where names have no colon |
| ReportData.EncodeRoundTrip | src/attestation/report-data.ts:88-92 | Reading length-prefixed terms inverts writing them, whatever follows |
| ReportData.PrefixIsBigEndian | src/attestation/report-data.ts:88-92 | The prefix is the length in four big-endian bytes, and the term follows it |
| ReportData.ReportLayout | src/attestation/report-data.ts:21-30 | The first 32 bytes hash the label, ek, identity key, signer key and certificate hash in that order; the last 32 are the nonce or zeros |
| ReportData.LabelText | src/attestation/report-data.ts:3 | The label's bytes are its text |
| ReportData.ReportRefusals | src/attestation/report-data.ts:35-37 | Refused exactly for a nonce that is not 32 bytes, or a key of 2^32 bytes or more |
| ReportData.SignerKeyLayout | src/attestation/report-data.ts:55-86 | x big-endian in 32 bytes and then y, refused unless both are 1 to 64 hex digits |
| ReportData.NonceCases | src/attestation/report-data.ts:65-78 | Unsent if absent or empty, else exactly 64 hex digits after an optional 0x are read |
| Bytes.HexDigitValues | src/attestation/report-data.ts:74-77 | Hex digits are read by their place, in either case |
| Bytes.FromHexStops | src/attestation/tdx-quote.ts:66 | Decoding stops at the first pair that is not hex and drops an odd digit |
| ReportData.ReportPinsInputs | src/attestation/report-data.ts:31-53 | Equal report data if and only if equal keys, certificates and nonces, an absent key counting as empty and an absent nonce as zeros |
| ReportData.SignerKeyFaithful | src/attestation/report-data.ts:58-63 | Two keys encode alike if and only if their coordinates write the same numbers |
| ReportData.ParsedNonceAccepted | src/attestation/report-data.ts:69-78 | A parsed nonce is never refused for its length and writes the number that was sent |
| FieldElements.DecimalRead | src/longjing/utils/payload-signal.util.ts:23-27 | Decimal text is read as its number, with any blanks around it |
| FieldElements.SpacesAre | src/longjing/utils/payload-signal.util.ts:24 | Blanks include space, tab and line breaks, and nothing a number is written with |
| FieldElements.PrefixedRead | src/longjing/utils/payload-signal.util.ts:23-27 | So is 0x-prefixed hex text in either case |
| FieldElements.CanonicalRoundTrip | src/longjing/longjing.service.ts:84-85 | The stored form parses back, and two elements have one stored form if and only if they are equal |
| FieldElements.CanonicalLead | src/longjing/longjing.service.ts:84-85 | The stored form has no leading zeros |
| FieldElements.BareHexRead | src/longjing/utils/payload-signal.util.ts:23-29 | Bare hex is read as hex if and only if it has a letter or at most one digit that counts |
| FieldElements.NegativeNotRead | src/longjing/utils/payload-signal.util.ts:23-29 | Negative decimal text is refused |
| FieldElements.AdmittedForms | src/longjing/dto/field-element.ts:4-12 | The admitted texts are up to 78 digits with or without a minus, and up to 64 hex digits with or without 0x |
| FieldElements.AdmittedRead | src/longjing/dto/field-element.ts:11-12 | Of the texts the request format admits, exactly those without a minus are read |
| EstimateCaches.EstimateCache.CacheEstimate | src/longjing/cost-estimation.service.ts:107-117 | Deleting while iterating leaves what Stored says, with distinct keys and within the cap |
| EstimateCaches.EstimateCache.Lookup | src/longjing/cost-estimation.service.ts:38-43 | A hit is an entry of the key that has not expired |
| EstimateCaches.InsertEvictsOldest | src/longjing/cost-estimation.service.ts:103-106 | No expired entry survives an insert; at most the oldest live one is evicted, and only from a full cache |
| EstimateCaches.CapHolds | src/longjing/cost-estimation.service.ts:21-22 | Over every run the cap holds and keys are distinct, whatever the clock does |
| EstimateCaches.OrderHolds | src/longjing/cost-estimation.service.ts:105 | With a clock that does not go back, insertion order is expiry order and nothing expired is left |
| EstimateCaches.HitIsLatest | src/longjing/cost-estimation.service.ts:38-43 | A hit is the last estimate stored for its key, less than one lifetime ago |
| EstimateCaches.RecentIsHit | src/longjing/cost-estimation.service.ts:107-117 | Each of the last cap inserts is a hit until it expires or its key is stored again |

## Left out

- Poseidon, SHA-256, SHA-384, EdDSA and Groth16: parameters and relations. circomlib and circomlibjs are not part of this model, except LessEqThan, whose constraint `Circuits` spells out.
- The primality of the BN254 scalar field, the order of H, the non-residuosity of D and associativity of Edwards addition: hypotheses.
- HashToCurve: counters are bounded by their four bytes; the method returns None where the source throws on a larger one.
- LongjingCredits.sol beyond one deposit for each commitment, one exit for each note and a payout of at most D: bounties, windows, pausing and finalisation.
- The history of accepted roots and a note's status on chain: a request may use any note ever deposited, even one that has exited or was slashed, so the results cover more runs than there are.
- Changes of the gateway's refund key: one key signs everything.
- The outcome of a slashing transaction: the model logs that slash was called, and with which key.
- Pricing, quantisation, padding and the ETH rate oracle: the actual cost of a request is any natural number.
- The rate limit and the check of C_MAX in front of a request: proved of the services, and not a condition on the protocol's runs.
- Gateway.SlashingService.SlashRevealed: the calls follow each other as in one stretch of code, though the source awaits the transaction.
- The SQLite table is a map, and its migration and clear are not modelled; a restart keeps the table and loses the handlers and the kept responses.
- RateLimit.LimiterRefinesLog: each call reads the clock once, and a cleanup inside a call uses the time of that call.
- NoteClient: files with amounts that are negative from the start, negative points in responses, and key files that were edited by hand.
- Rtmr.ReplayRtmrs: the log is taken as parsed JSON; event names stand as their UTF-8 bytes, and registers that are not integers are refused like those out of range.
- Buffer sizes: a term of 2^32 bytes or more fails as writeUInt32BE fails.
- payloadSignalX and signalXMatchesRequest: their hash would be a parameter, and no result here depends on more than that x is a field element.
- EstimateCaches.EstimateCache.Lookup: computing an estimate on a miss is left to the providers.
- Controllers, guards, logging, configuration, the enclave and its key derivation.
