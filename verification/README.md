# Power Governor: a verified model

Power Governor books watts against a tree of budgets, drives reservations over that tree, fences
messages of distributed workers, classifies thermal state, decides how much power a request may have,
and saves and recovers all of it. This project models those parts in Dafny and proves what they keep.

The methods follow the program statement by statement: a class per stateful object, a loop where the
program has a loop. Each is proved against a function of the old state, and the theorems are about those
functions: over every sequence of calls, every message history, every byte string, every sample trace.

| file | part |
|---|---|
| `Tree`, `Ledger`, `Reservations`, `Index`, `Governor` | the budget ledger, the reservation life cycle, the index, and the locked entry points |
| `Lifecycle` | what every call is answered and what every entry and list shows, said of the calls before |
| `Conservation`, `Reparent`, `Safety` | what runs of governor calls keep: tree conservation, caps, releases, the index |
| `Hierarchy` | validation of a budget hierarchy |
| `Crc`, `Polynomial` | the checksum, and which one it is |
| `Codec`, `Envelope`, `Wire`, `Messages`, `Layout` | little-endian codecs, the saved record, frames and typed messages, and their bytes place by place |
| `StateCodec`, `Recovery`, `Rebuild`, `Persistence` | the saved state, its decoder, what recovery gives back, and the way through the file |
| `Fencing`, `Authority` | the coordinator's fences and the authority gate |
| `Thermal`, `Windows`, `PowerWindow` | the thermal automaton, the burst and energy windows, the power window |
| `Failures` | runs of a new governor that end where a documented promise fails |
| `Decisions`, `Pipeline`, `Verdicts` | the decision engine, the way from a sample to a verdict, and every verdict said of the history alone |
| `Basics`, `Bytes` | shared vocabulary |

`dafny verify dfyconfig.toml` checks the whole project.

## Modelling decisions

- **Units.** The ledger counts integer milliwatts, as the wire and the disk do; on that lattice the
  `1e-9` tolerances of the ledger are exact comparisons. Decisions, thermal state and windows use real
  watts, joules and degrees and keep their tolerances. Time is integer nanoseconds.
- **Concurrency.** Every governor mutator holds one exclusive lock and every touch of the coordinator's
  record one mutex, so an execution is a sequence of atomic steps in any order. Registration is two such
  steps: the record is updated in one, the epoch for the reply is read in another.
- **Fences, not effects.** `Fencing` decides which messages pass. What a message that passed does to the
  governor comes after the coordinator's mutex is released (tools/distributed.cpp:202-236), and a RESERVE does it
  in two calls, so it may take effect after a roll, or after a restart of its worker, that came in between. The
  theorems on governor calls hold for every order in which those effects arrive.
- **Cap.** The cap is `reserved + used <= hard_max`. `accounting_consistent` (budget.hpp:255) is not its
  definition: its tolerance is on the strict side, so it is false for an exactly full budget.
- **Conservation** counts EXPIRED holders: expiry in `admit` and `activate` gives nothing back.
- **Exceptions** that end a call are a `None` or a refusal; the state they leave is modelled where it
  differs from the state before (`Pipeline.Ingested`).
- **`GovernorCore`** holds the device state of `governor.hpp` (sample, thermal, burst, power window,
  engine) as the class `Governor` holds its ledger state; in the program they are one class.
- **A caller's clock.** Nothing assumes that time moves forward unless a lemma says so: an elapsed time
  is never negative in the program.

## Where the code and its documentation differ

Each of these follows the code. The first lemma named gives the exact extent, the second an input or a run of
a new governor on the failing side.

- A budget's maximum bounds what is reserved on it, except for a budget under the invalid id 0, which `install`
  accepts: its chain is empty, so it admits anything, reports its whole maximum and books nothing
  (`Ledger.QueryAgreesExactly`, `Ledger.InvalidIdAdmitsAnything`).
- Hierarchies are validated at recovery only: `install` checks neither cycles, nor a changed parent, nor a
  lowered maximum. A self-parented budget can be overbooked (`Ledger.AdmissionSafeExactly`,
  `Ledger.CyclicBudgetOverbooks`); giving another parent to a budget that is fewer than 64 links above
  anything held breaks conservation in any forest (`Reparent.ReissueSoundExactly`, `Failures.MovedLoad`), further
  up it does not (`Failures.DistantBudgetMoves`); lowering a maximum breaks the cap
  (`Safety.InstallKeepsCaps`, `Failures.LoweredMaximum`).
- `chain` stops after 65 budgets, the hierarchy validation only after 256 hops, so an accepted deeper tree
  leaves its upper budgets unbooked and unasked (`Ledger.AncestorBookedExactly`, `Failures.TopUnbooked`), and
  there children can hold more than their parent (`Safety.ChildrenWithinParent`, `Failures.ChildOutgrowsParent`).
- The comment in `release` speaks of activated reservations; the code also runs the deactivate for RESERVED
  and ADMITTED ones and then takes away usage of others (`Conservation.ReleaseUsage`,
  `Failures.ReleaseTakesUsageOfOthers`).
- A release is refused when its budget was moved, empty, under a parent that is not installed, even if there is
  nothing to give back; and what was admitted or activated under the null generation can never be released
  (`Safety.ReleaseSucceedsExactly`, `Failures.ZeroWattsStuck`, `Failures.NullGenerationStuck`).
- Recovery silently drops claims of older generations and EXPIRED holders, and, because every claim is admitted
  again, claims of the current generation that no longer fit under a lowered maximum
  (`Rebuild.RecoveryRebuilds`, `Rebuild.RecoveryExact`, `Failures.OlderClaimLost`, `Failures.ExpiredHolderLost`,
  `Failures.CurrentClaimLost`). It replays what was reserved, not what was used
  (`Rebuild.RecoveredUsage`, `Failures.UsageLost`). After that the over-release branch, unreachable otherwise,
  is reachable (`Rebuild.RecoveredReleaseExactly`, `Failures.OlderClaimLost`).
- The encoder writes counts the decoder refuses, and a decoder that fails leaves what it had installed
  (`StateCodec.StateRoundTrip`, `Recovery.DecodeState`, `Failures.FailedLoadLeavesBudgets`).
- "A worker restarted with a fresh boot id fences every report and reservation from the prior incarnation"
  holds for reports (`Fencing.RestartFencesReports`), but for reservations only when no other worker shares
  the old boot id, and every worker's boot id defaults to 1 (`Fencing.RestartFencesExactly`,
  `Fencing.SharedBootSurvivesRestart`).
- "The surviving worker remains valid" after a roll only once it has registered again: its own stamps are
  stale like everybody's (`Fencing.ToldEpochStaysCurrentUntilRoll`, `Fencing.SurvivorMustRegisterAgain`).
- "Bounded hysteresis": a held verdict stamps the timer again, so the hold has no bound under steady polling
  (`Decisions.PollingHolds`, `Decisions.HoldOutlastsAnyTime`).
- A frame carries one checksum over all of it, but the length that says where the checksum lies is checked by
  nothing else: a damaged length field can make the parser accept a shorter frame
  (`Wire.LengthDamageAcceptedExactly`, `Wire.ShorterFrameInside`).
- A burst budget "never overruns": each grant may overrun by the tolerance, though not on whole thousandths of
  a joule (`Windows.GrantedWithinRate`, `Windows.ToleranceAccumulates`).
- The decision input leaves `energy_window_used` at zero, so in a governor the energy window never fills
  (`Pipeline.EnergyWindowNeverFills`). Nothing enables the burst budget of a device, so no burst is ever
  granted (`Pipeline.GovernorNeverOscillates` is about exactly that case).
- A decision asks neither whether a budget is authoritative nor whether its chain is closed, so an ALLOW
  against an informational budget can never be reserved (`Pipeline.AllowedIsReservable`).
- A power sample that goes back in time is refused by the power window with an exception, after the latest
  sample and its time were already replaced: it counts as fresh and its temperature sets the ceiling, while
  the thermal state and the power limit never see it (`Pipeline.RevalidationExactly`,
  `Pipeline.BackInTimeSampleHalfKept`).
- The index is not told of an expiry, so its phase list keeps the phase before it
  (`Index.LookupsAreFilters`, `Lifecycle.IndexInOrder`, `Failures.ExpiredStaysListed`).
- Hotter could permit more power: nothing checks that the constrained reduction is at most one
  (`Thermal.CeilingAntitoneExactly`).

The table below leaves out members that a reader would not look up although they are modelled with contracts
of their own: writers and readers of single fields, setters, resets, first passes and enumerations.

## Model

| member | source | states |
|---|---|---|
| `Ledger.BudgetManager.Install` | include/powergovernor/budget.hpp:118-131 | a new id starts with empty books; a known id is refused unless the generation is newer, and a re-issue keeps its books |
| `Ledger.BudgetManager.ComputeChain` | include/powergovernor/budget.hpp:133-145 | the loop with its guard and its stop at a missing parent computes the chain of the parent graph |
| `Ledger.BudgetManager.ChainHasCapacity` | include/powergovernor/budget.hpp:147-154 | true exactly when every budget of the chain is installed and has that much free |
| `Ledger.BudgetManager.Reserve` | include/powergovernor/budget.hpp:156-169 | succeeds exactly on a known id, the current generation, an authoritative budget, a non-negative amount and room on the whole chain; then the books carry the amount once per chain position, else they are untouched |
| `Ledger.BudgetManager.Release` | include/powergovernor/budget.hpp:171-189 | the same for giving back: all of the chain must hold the amount, both passes or neither |
| `Ledger.BudgetManager.Activate` | include/powergovernor/budget.hpp:191-203 | the same for usage, against the same free capacity |
| `Ledger.BudgetManager.Deactivate` | include/powergovernor/budget.hpp:205-221 | the same for giving usage back |
| `Ledger.BudgetManager.QueryAvailable` | include/powergovernor/budget.hpp:223-237 | the least free capacity on the chain, zero when an ancestor is missing |
| `Ledger.BudgetManager.Book` | include/powergovernor/budget.hpp:164-168 | the second pass: the bookings, one per position, add up to the load of the chain on each budget |
| `Ledger.PostTouchesExactlyChain` | include/powergovernor/budget.hpp:156-189 | a booking along a duplicate-free chain changes every budget of the chain by exactly the amount and no other budget |
| `Ledger.QueryAgreesWithAdmission` | include/powergovernor/budget.hpp:156-237 | for every id and amount: reserve succeeds exactly when the id is current and authoritative, the chain is closed and the amount is between zero and what `available` reports; under id 0 any non-negative amount is admitted; of a budget or an ancestor that is not installed `available` reports zero |
| `Ledger.QueryAgreesExactly` | include/powergovernor/budget.hpp:156-237 | query and admission agree on all amounts exactly when the id is valid or nothing can be reserved on it |
| `Ledger.InvalidIdAdmitsAnything` | include/powergovernor/budget.hpp:118-169 | a budget installed under id 0 admits more than its maximum and more than it reports, and books nothing |
| `Ledger.AdmissionSafeExactly` | include/powergovernor/budget.hpp:133-169 | on any parent graph, admission can never overbook exactly when each chain budget has room for the largest admissible amount as often as the chain visits it |
| `Ledger.CyclicBudgetOverbooks` | include/powergovernor/budget.hpp:118-131 | a budget installed as its own parent admits a reservation of its whole maximum and is then booked beyond it |
| `Ledger.AncestorBookedExactly` | include/powergovernor/budget.hpp:133-145 | on a path that ends, the k-th ancestor is booked exactly when k is below 65 |
| `Tree.ChainIsPath` | include/powergovernor/budget.hpp:133-145 | when all paths end within the guard, a chain is the duplicate-free path to the root, position by position |
| `Reservations.ReservationManager.Plan` | include/powergovernor/reservation.hpp:158-183 | a fresh id becomes PLANNED holding nothing; a used id is refused |
| `Reservations.ReservationManager.Validate` | include/powergovernor/reservation.hpp:185-191 | PLANNED with the planned policy generation becomes VALIDATED, anything else is refused unchanged |
| `Reservations.ReservationManager.Reserve` | include/powergovernor/reservation.hpp:193-206 | state, expiry and ledger admission decide; success books the requested power and records the generation, expiry marks EXPIRED and gives nothing back |
| `Reservations.ReservationManager.Admit` | include/powergovernor/reservation.hpp:208-214 | RESERVED becomes ADMITTED, or EXPIRED when its time has passed, keeping what it holds |
| `Reservations.ReservationManager.Activate` | include/powergovernor/reservation.hpp:216-231 | RESERVED or ADMITTED becomes ACTIVE and draws its power, under the generation it was booked with |
| `Reservations.ReservationManager.Release` | include/powergovernor/reservation.hpp:245-266 | gives back what is held, and runs the deactivate for RESERVED, ADMITTED and ACTIVE alike |
| `Reservations.ReservationManager.Restore` | include/powergovernor/reservation.hpp:118-122 | puts a decoded reservation back unless its id is taken |
| `Lifecycle.EntryIsStory` | include/powergovernor/reservation.hpp:118-266 | after any calls on a new governor, an id is in the table exactly when it was planned, and every field of its entry is what its calls and their answers say: what was asked for, the phase of the last call that took it anywhere, the generation of the last successful reserve, the times of activation and release |
| `Lifecycle.PlanExactly` | include/powergovernor/reservation.hpp:158-183 | a plan is refused exactly when its id was planned before |
| `Lifecycle.UnknownExactly` | include/powergovernor/reservation.hpp:185-266 | a call is answered as unknown exactly when its id was never planned |
| `Lifecycle.ValidateExactly` | include/powergovernor/reservation.hpp:185-191 | a validation succeeds exactly when the last call left it PLANNED and the policy generation is the planned one; each refusal has its exact cause |
| `Lifecycle.ReserveExactly` | include/powergovernor/reservation.hpp:193-206 | a reserve succeeds exactly when it was not reserved before, its time has not passed, the generation is that of the newest definition of its budget ever offered, an authoritative one, and every budget of the chain stays within its maximum; an expiry and the wrong phase have their exact causes |
| `Lifecycle.AdmitExactly` | include/powergovernor/reservation.hpp:208-214 | an admission succeeds exactly when it is RESERVED and in time, and expires exactly when it is not in time |
| `Lifecycle.ActivateExactly` | include/powergovernor/reservation.hpp:216-231 | an activation succeeds exactly when it is RESERVED or ADMITTED and in time, under the generation of its last successful reserve, which still is the newest offered for its budget, and with room on the chain; each refusal before the ledger is asked has its exact cause |
| `Lifecycle.ActivationIsFenced` | include/powergovernor/reservation.hpp:216-231 | when an activation succeeds, the last successful reserve named the same generation, and no definition of the budget was taken in between |
| `Lifecycle.ReleaseExactly` | include/powergovernor/reservation.hpp:245-266 | a release succeeds exactly when it has neither ended nor been admitted under the null generation, under the newest generation offered for its budget, and with what it holds on the whole chain |
| `Lifecycle.InstallExactly` | include/powergovernor/budget.hpp:118-131 | a definition is taken exactly when its generation is greater than all offered for its id before, refused ones included |
| `Lifecycle.HoldsGreatestOffer` | include/powergovernor/budget.hpp:118-131 | after any calls the books hold for every id the first definition of the greatest generation ever offered |
| `Governor.Governor.InstallBudget` | include/powergovernor/governor.hpp:106-111 | the locked entry point is the install step on books, table and index together |
| `Governor.Governor.PlanReservation` | include/powergovernor/governor.hpp:116-128 | plan and index entry in one step, or neither |
| `Governor.Governor.ValidateReservation` | include/powergovernor/governor.hpp:130-136 | validate, then refile in the index on success only |
| `Governor.Governor.ReserveReservation` | include/powergovernor/governor.hpp:137-142 | reserve, then refile on success only; an expiry is not refiled |
| `Governor.Governor.AdmitReservation` | include/powergovernor/governor.hpp:143-148 | admit, then refile on success only |
| `Governor.Governor.ActivateReservation` | include/powergovernor/governor.hpp:149-154 | activate, then refile on success only |
| `Governor.Governor.ReleaseReservation` | include/powergovernor/governor.hpp:155-160 | release, then refile on success only |
| `Conservation.StepConserves` | include/powergovernor/reservation.hpp:158-266 | every call, refused ones included, that does not give another parent to a budget that bears something (one that lies on the chain of a reservation holding power, before its 65th place) keeps `reserved` of every budget equal to what the non-RELEASED reservations below it hold; usage stays conserved exactly when the call is not a release that gives back usage of others |
| `Conservation.RunConserves` | include/powergovernor/reservation.hpp:158-266 | the same over every sequence of calls from every conserved state, as long as no install gives another parent to a budget that bears something |
| `Conservation.ReachableIsSound` | include/powergovernor/governor.hpp:106-160 | every state a new governor reaches without moving a load is conserved, and its usage too unless a release gave back usage of others |
| `Conservation.ReleaseUsage` | include/powergovernor/reservation.hpp:245-266 | after a release, usage is conserved exactly when the release gave back only usage of its own: it was ACTIVE, or its deactivate had no effect |
| `Conservation.InstallConserves` | include/powergovernor/budget.hpp:118-131 | install keeps conservation when the budget is new, keeps its parent, or bears nothing, whatever the shape of the graph |
| `Conservation.EmptyBearsNothing` | include/powergovernor/budget.hpp:118-131 | a budget whose books are empty bears nothing, so it may be moved |
| `Reparent.ReissueSoundExactly` | include/powergovernor/budget.hpp:118-131 | on a forest of any depth, any install at all keeps the books sound exactly when it gives no other parent to a budget that some reservation holding power has fewer than 64 links above it |
| `Reparent.LostAncestorCarriesLess` | include/powergovernor/budget.hpp:133-145 | on any two graphs that differ in one link: the parent that the budget has lost is owed strictly less than its books say, once anything held goes on through the budget |
| `Safety.InstallKeepsCaps` | include/powergovernor/budget.hpp:118-131 | a re-issue keeps every cap exactly when the new maximum covers what is booked |
| `Safety.StepKeepsCaps` | include/powergovernor/governor.hpp:106-160 | every call keeps reserved plus used within the maximum of every budget, conserved or not, in a forest of any depth, provided an install leaves a forest and does not lower a maximum below what is booked |
| `Safety.RunKeepsCaps` | include/powergovernor/governor.hpp:106-160 | the same over every interleaving of calls whose installs do so |
| `Safety.ReachableIsCapped` | include/powergovernor/governor.hpp:106-160 | so every state a new governor reaches through such installs is within its caps |
| `Safety.RefusedCallKeepsBooks` | include/powergovernor/governor.hpp:106-160 | no refused call changes any budget |
| `Safety.ChildrenBalance` | include/powergovernor/budget.hpp:133-189 | in every sound state, on any graph, cyclic ones included: what all children of a budget carry plus what is held on the budget itself is what the budget carries plus what is held exactly 65 links below it |
| `Safety.ChildrenWithinParent` | include/powergovernor/budget.hpp:133-189 | so in every sound state no set of children holds more than the budget exactly when no more is held 65 links below the budget than on it |
| `Safety.ShortBranchesWithinParent` | include/powergovernor/budget.hpp:133-189 | in particular whenever no installed budget lies exactly 65 links below it |
| `Safety.ReleaseSucceedsExactly` | include/powergovernor/reservation.hpp:245-266 | in a sound state a release succeeds exactly when the reservation has not ended, is not one admitted under the null generation, and the generation is current and the chain closed; the chain of what holds power is always closed, and the over-release branch is never met |
| `Safety.RunKeepsIndex` | include/powergovernor/index.hpp:16-59 | over every run the index agrees with the table: same members, right budget and workload, right phase unless EXPIRED |
| `Safety.ReachableAgrees` | include/powergovernor/index.hpp:16-59 | so in every state a new governor reaches |
| `Index.ReservationIndex.Add` | include/powergovernor/index.hpp:16-22 | the entry is pushed on its budget, workload and phase lists and recorded |
| `Index.ReservationIndex.SetState` | include/powergovernor/index.hpp:24-32 | an entry is taken off its old lists and pushed on the new ones; an unknown id is added |
| `Index.ReservationIndex.Remove` | include/powergovernor/index.hpp:34-39 | an entry disappears from all lists |
| `Index.AddedConsistent` | include/powergovernor/index.hpp:16-22 | adding keeps every list duplicate-free and equal to the members filed under its key |
| `Index.RemovedConsistent` | include/powergovernor/index.hpp:34-39 | removing keeps it too |
| `Index.UpdatedConsistent` | include/powergovernor/index.hpp:24-32 | changing keeps it too |
| `Lifecycle.IndexInOrder` | include/powergovernor/index.hpp:16-43 | over every run each list of the index, by budget, workload or phase, is in the order of the last successful calls, and the phase listed is the one that call led to |
| `Index.LookupsAreFilters` | include/powergovernor/index.hpp:41-43 | lookups by budget and by workload are exactly the filters of the table, and by phase too for what is not EXPIRED; each reservation is on exactly one phase list |
| `Hierarchy.ValidateBudgetHierarchy` | include/powergovernor/governor.hpp:607-625 | the two nested loops accept exactly the graphs in which every live parent is installed and every walk from a parent ends within 256 hops |
| `Hierarchy.AcceptedIsForest` | include/powergovernor/governor.hpp:607-625 | what is accepted is closed and no budget is its own ancestor at any distance |
| `Hierarchy.AcceptsExactlyForests` | include/powergovernor/governor.hpp:607-625 | accepted exactly when closed, acyclic, and no budget has more than 256 ancestors |
| `Hierarchy.AcceptedChainIsExact` | include/powergovernor/budget.hpp:133-145 | in an accepted hierarchy, a path of at most 65 budgets is returned whole, without repetition, down to its root |
| `Crc.UpdateByte` | include/powergovernor/util.hpp:30-36 | one turn of the outer loop feeds one byte, eight conditional shifts |
| `Crc.Update` | include/powergovernor/util.hpp:30-36 | the loops feed the bytes in order |
| `Crc.Compute` | include/powergovernor/util.hpp:37-39 | the checksum with its initial and final inversion |
| `Crc.FeedConcat` | include/powergovernor/util.hpp:30-36 | feeding two pieces one after the other is feeding them joined |
| `Crc.ByteInjective` | include/powergovernor/util.hpp:30-36 | one byte step is injective in the state and in the byte |
| `Crc.FeedInjective` | include/powergovernor/util.hpp:30-36 | feeding the same bytes never merges two different states |
| `Crc.ResidueCharacterizes` | include/powergovernor/util.hpp:30-39 | four trailing bytes are the stored checksum of what precedes them exactly when the whole feeds to the fixed residue |
| `Crc.BurstDetected` | include/powergovernor/util.hpp:30-39 | two byte strings that differ within four consecutive bytes only, and do differ, feed to different states |
| `Crc.CheckValue` | include/powergovernor/util.hpp:30-39 | the published check value: the checksum of the digits 1 to 9 is CBF43926 |
| `Crc.ResidueValue` | include/powergovernor/util.hpp:30-39 | the published residue: DEBB20E3 |
| `Polynomial.BitMultiplies` | include/powergovernor/util.hpp:33-33 | one turn of the inner loop multiplies the register, as a polynomial, by x and reduces it by the generator x^32 + x^26 + x^23 + x^22 + x^16 + x^12 + x^11 + x^10 + x^8 + x^7 + x^5 + x^4 + x^2 + x + 1 |
| `Polynomial.FeedDivides` | include/powergovernor/util.hpp:30-36 | the register after any message is congruent, modulo that generator, to its start value followed by the message |
| `Polynomial.ChecksumIsRemainder` | include/powergovernor/util.hpp:30-39 | the checksum is the complement of the remainder, on division by the generator, of the message with its first 32 bits complemented, and of no other polynomial below degree 32 |
| `Codec.Writer.PutU64` | include/powergovernor/persistence.hpp:40-40 | the shift loop appends the eight bytes, low first, of the next field of the record |
| `Codec.Writer.PutStr` | include/powergovernor/persistence.hpp:44-48 | length, then bytes |
| `Codec.Reader.Take` | include/powergovernor/persistence.hpp:63-66 | the byte loop reads a little-endian number, or fails at the end of the data |
| `Codec.Reader.GetStr` | include/powergovernor/persistence.hpp:70-75 | reads what PutStr wrote; fails when the length passes the end |
| `Codec.RoundTrip` | include/powergovernor/persistence.hpp:35-90 | whatever list of fields was written is read back, with exactly the bytes that followed it left over |
| `Codec.EncodeAllInjective` | include/powergovernor/persistence.hpp:35-56 | records of the same shape with the same bytes are the same record |
| `Layout.LowByteFirst` | include/powergovernor/persistence.hpp:38-40 | byte k of an encoded number is its value shifted right by 8 k, low byte first |
| `Envelope.EncodeEnvelope` | include/powergovernor/persistence.hpp:98-110 | fails exactly on a blob over the limit, else yields header, blob and checksum |
| `Envelope.DecodeEnvelope` | include/powergovernor/persistence.hpp:118-138 | the cascade of tests gives the specified answer, in the order of the tests |
| `Envelope.EnvelopeRoundTrip` | include/powergovernor/persistence.hpp:98-138 | a record opens to the blob that was saved exactly under the supported schema |
| `Envelope.OpensOnlyRecords` | include/powergovernor/persistence.hpp:118-138 | the decoder opens a byte string exactly when it is the encoder output for the blob it returns |
| `Envelope.BurstRejected` | include/powergovernor/persistence.hpp:98-138 | a record changed anywhere within four consecutive bytes is rejected |
| `Envelope.FlippedByteRejected` | include/powergovernor/persistence.hpp:98-138 | a record with any one byte changed, header and checksum included, is rejected |
| `Envelope.TruncatedOrExtendedRejected` | include/powergovernor/persistence.hpp:118-138 | every proper prefix and every proper extension of a record is rejected |
| `Layout.RecordLayout` | include/powergovernor/persistence.hpp:98-110 | a record: the letters PGPS, schema, length, blob, checksum, each at its place |
| `Layout.RecordRefusedExactly` | include/powergovernor/persistence.hpp:118-138 | for every byte string: each of the seven errors, and success, with its exact cause in the bytes |
| `Wire.Serialize` | include/powergovernor/protocol.hpp:124-139 | fails exactly on an oversized payload, else yields header, payload and checksum |
| `Wire.Deserialize` | include/powergovernor/protocol.hpp:141-164 | the cascade of tests gives the specified answer |
| `Wire.ParsesExactly` | include/powergovernor/protocol.hpp:141-164 | a frame is returned exactly when the input begins with its serialization, and exactly that is consumed |
| `Wire.StreamRoundTrip` | include/powergovernor/protocol.hpp:124-164 | parsing a concatenation by advancing by `consumed` returns exactly the frames sent |
| `Wire.ParseStreamSound` | include/powergovernor/protocol.hpp:141-164 | whatever is parsed from any input, its serializations and the unparsed rest make up the input |
| `Wire.DamagedFrameRejected` | include/powergovernor/protocol.hpp:141-164 | a frame damaged within four consecutive bytes is rejected, or its length field was hit and a strictly shorter frame is accepted |
| `Wire.DamageAcceptedExactly` | include/powergovernor/protocol.hpp:141-164 | for every frame and every four consecutive bytes, some damage within them is accepted exactly when there is a shorter frame whose bytes differ from the beginning of this one there only |
| `Wire.LengthDamageAcceptedExactly` | include/powergovernor/protocol.hpp:124-164 | some damage of the length field is accepted exactly when some proper prefix of the payload is followed, in the bytes of the frame, by the checksum it would have as a frame of its own |
| `Wire.ShorterFrameInside` | include/powergovernor/protocol.hpp:141-164 | there are such frames: one that wraps a shorter payload and its checksum, damaged in its length field alone, is taken for the shorter frame |
| `Layout.FrameLayout` | include/powergovernor/protocol.hpp:124-139 | a frame: the letters PGTC, version, type, length, payload, checksum, each at its place |
| `Layout.FrameRefusedExactly` | include/powergovernor/protocol.hpp:141-164 | for every byte string: each of the seven errors, and success, with its exact cause in the bytes |
| `Messages.DecodeRegister` | include/powergovernor/protocol.hpp:216-223 | accepts exactly the payloads that read as such a message to their end, enumerations in range |
| `Messages.RegisterRoundTrip` | include/powergovernor/protocol.hpp:212-223 | what one side encodes the other decodes |
| `Layout.RegisterLayout` | include/powergovernor/protocol.hpp:212-214 | every field of the payload at its place in the bytes, with its width and sign |
| `Messages.DecodePowerObs` | include/powergovernor/protocol.hpp:238-254 | accepts exactly the payloads that read as such a message to their end, enumerations in range |
| `Messages.PowerObsRoundTrip` | include/powergovernor/protocol.hpp:226-254 | what one side encodes the other decodes |
| `Layout.PowerObsLayout` | include/powergovernor/protocol.hpp:226-236 | every field of the payload at its place in the bytes, with its width and sign |
| `Messages.DecodeThermalObs` | include/powergovernor/protocol.hpp:264-277 | accepts exactly the payloads that read as such a message to their end, enumerations in range |
| `Messages.ThermalObsRoundTrip` | include/powergovernor/protocol.hpp:257-277 | what one side encodes the other decodes |
| `Layout.ThermalObsLayout` | include/powergovernor/protocol.hpp:257-262 | every field of the payload at its place in the bytes, with its width and sign |
| `Messages.DecodeBudget` | include/powergovernor/protocol.hpp:289-302 | accepts exactly the payloads that read as such a message to their end, enumerations in range |
| `Messages.BudgetRoundTrip` | include/powergovernor/protocol.hpp:280-302 | what one side encodes the other decodes |
| `Layout.BudgetLayout` | include/powergovernor/protocol.hpp:280-287 | every field of the payload at its place in the bytes, with its width and sign |
| `Messages.DecodeReserve` | include/powergovernor/protocol.hpp:315-333 | accepts exactly the payloads that read as such a message to their end, enumerations in range |
| `Messages.ReserveRoundTrip` | include/powergovernor/protocol.hpp:305-333 | what one side encodes the other decodes |
| `Layout.ReserveLayout` | include/powergovernor/protocol.hpp:305-313 | every field of the payload at its place in the bytes, with its width and sign |
| `Messages.DecodeAction` | include/powergovernor/protocol.hpp:342-350 | accepts exactly the payloads that read as such a message to their end, enumerations in range |
| `Messages.ActionRoundTrip` | include/powergovernor/protocol.hpp:336-350 | what one side encodes the other decodes |
| `Layout.ActionLayout` | include/powergovernor/protocol.hpp:336-340 | every field of the payload at its place in the bytes, with its width and sign |
| `Messages.DecodeAck` | include/powergovernor/protocol.hpp:357-362 | accepts exactly the payloads that read as such a message to their end, enumerations in range |
| `Messages.AckRoundTrip` | include/powergovernor/protocol.hpp:353-362 | what one side encodes the other decodes |
| `Layout.AckLayout` | include/powergovernor/protocol.hpp:353-355 | every field of the payload at its place in the bytes, with its width and sign |
| `StateCodec.EncodeState` | include/powergovernor/governor.hpp:433-497 | the loops write header, budgets, reservations and meters as the specified bytes |
| `StateCodec.GetHeader` | include/powergovernor/governor.hpp:500-520 | reads exactly what parses as a header, else fails |
| `StateCodec.GetBudget` | include/powergovernor/governor.hpp:527-542 | reads exactly what parses as a budget with no negative amount, else fails |
| `StateCodec.GetReservation` | include/powergovernor/governor.hpp:550-582 | reads exactly what parses as a reservation with valid enumerations and no negative amount, else fails |
| `StateCodec.StateRoundTrip` | include/powergovernor/governor.hpp:433-605 | parsing the bytes of a state gives that state without the fields that are not stored, or nothing when a count exceeds what the decoder accepts |
| `StateCodec.AcceptedFits` | include/powergovernor/governor.hpp:499-605 | whatever blob is accepted reads as a state that could have been saved, all amounts, durations and enumerations in range, and saving that gives a blob that reads as the same |
| `Layout.IdentityLayout` | include/powergovernor/governor.hpp:435-439 | the fields at the head of a saved state, place by place |
| `Layout.StateLayout` | include/powergovernor/governor.hpp:433-497 | the order of header, caps, counts and lists in a saved state |
| `Layout.StoredBudgetLayout` | include/powergovernor/governor.hpp:453-468 | the thirteen fields of a stored budget, place by place |
| `Layout.StoredReservationLayout` | include/powergovernor/governor.hpp:472-489 | the sixteen fields of a stored reservation, place by place |
| `Layout.CountReadExactly` | include/powergovernor/governor.hpp:524-526 | a count is read exactly when it is at most a hundred thousand |
| `Recovery.DecodeBudgets` | include/powergovernor/governor.hpp:524-543 | parsing and installing in one loop is parsing all, then installing all |
| `Recovery.DecodeReservations` | include/powergovernor/governor.hpp:547-591 | parsing, restoring, indexing and replaying in one loop is parsing all, then restoring all |
| `Recovery.RestoreInto` | include/powergovernor/governor.hpp:583-591 | restore, index and replay one reservation; a duplicate id fails |
| `Recovery.DecodeMeters` | include/powergovernor/governor.hpp:593-600 | parsing and assigning in one loop is parsing all, later totals replacing earlier ones |
| `Recovery.DecodeState` | include/powergovernor/governor.hpp:499-605 | the decoder succeeds exactly when the blob parses, installs, validates and restores, and then its state is the rebuilt one; and what it leaves behind when it fails half way |
| `Recovery.BudgetsLeftExactly` | include/powergovernor/governor.hpp:524-543 | what the budget loop leaves, whether it succeeds or not, is the longest run of definitions that read and install |
| `Recovery.ReservationsLeftExactly` | include/powergovernor/governor.hpp:547-591 | and the reservation loop the longest run of reservations that read and are new |
| `Recovery.MetersExactly` | include/powergovernor/governor.hpp:593-600 | the meter table shows the last total of each workload that has one and keeps the others |
| `Rebuild.ClaimFits` | include/powergovernor/budget.hpp:156-169 | when all current claims together fit their budgets, a replayed claim goes through exactly when its generation is current |
| `Rebuild.RecoveryRebuilds` | include/powergovernor/governor.hpp:499-605 | decoding a snapshot of any sound governor fails only on its hierarchy; what is rebuilt is within every maximum and never more than what was reserved less what was lost, and exactly that if and only if on every budget the current claims come to no more than its maximum |
| `Rebuild.RecoveryExact` | include/powergovernor/governor.hpp:585-590 | the rebuilt `reserved` is never larger, and equal for every budget exactly when nothing that holds power is EXPIRED or of an older generation and no budget was reserved beyond its maximum |
| `Rebuild.RecoveredIsSound` | include/powergovernor/governor.hpp:499-605 | a recovered governor is within its caps even if the saved one was not, and it is sound exactly when every budget carries what it did |
| `Rebuild.RecoveredReleaseExactly` | include/powergovernor/reservation.hpp:245-266 | after a recovery a release succeeds exactly when, besides what a sound state asks, its generation is current and all current claims fitted, or its chain carries that much anyway |
| `Rebuild.RunAfterRecoveryKeepsCaps` | include/powergovernor/governor.hpp:499-605 | the caps hold over every run that follows a recovery of any sound state, lossy or not, whose installs leave a forest and do not lower a maximum below what is booked |
| `Rebuild.RecoveredUsage` | include/powergovernor/governor.hpp:585-590 | after a recovery usage is conserved exactly when nothing was ACTIVE with a positive amount |
| `Rebuild.SaveState` | include/powergovernor/governor.hpp:433-497 | the blob of a save is the bytes of a snapshot that captures the governor |
| `Rebuild.SaveThenLoad` | include/powergovernor/governor.hpp:237-263 | decoding the bytes of a snapshot is rebuilding the snapshot |
| `Persistence.Save` | include/powergovernor/governor.hpp:237-250 | fails exactly on a state too large for a file, else yields the record of the bytes of a snapshot |
| `Persistence.Load` | include/powergovernor/governor.hpp:252-263 | a file that does not open changes nothing; one that does is decoded |
| `Persistence.SaveAndRecover` | include/powergovernor/governor.hpp:237-263 | save, then load into a new governor: succeeds exactly on a state that fits a file, an acceptable hierarchy and loadable counts; the copy is within every maximum, and carries every current claim exactly when they fit |
| `Persistence.DamagedFileNeverLoads` | include/powergovernor/persistence.hpp:118-138 | a saved file damaged within four consecutive bytes, cut short or extended never loads, into whatever governor |
| `Fencing.CoordShared.HandleRegister` | tools/distributed.cpp:186-190 | a registration replaces the boot of the worker and clears its mark |
| `Fencing.CoordShared.HandleObservation` | tools/distributed.cpp:200-204 | fence and mark in one critical section |
| `Fencing.CoordShared.HandleAction` | tools/distributed.cpp:173-178 | the loop over all workers answers as specified and changes nothing |
| `Fencing.ObservationPassesExactly` | tools/distributed.cpp:163-171 | over every history an observation passes exactly when it is stamped with one more than the rolls so far, its worker last registered with its boot, and no observation accepted since is newer; each refusal has its exact cause |
| `Fencing.ActionPassesExactly` | tools/distributed.cpp:173-178 | over every history an action passes exactly when its epoch is current and some worker last registered with its boot |
| `Fencing.AcceptedGenerationsNeverDecrease` | tools/distributed.cpp:163-171 | between two registrations of a worker accepted generations never go back |
| `Fencing.RolledEpochIsDead` | tools/distributed.cpp:163-178 | after a roll nothing stamped with an epoch from before passes either fence |
| `Fencing.ToldEpochStaysCurrentUntilRoll` | tools/distributed.cpp:192-192 | the epoch a worker is told is current exactly until the next roll, a surviving worker included |
| `Fencing.SurvivorMustRegisterAgain` | tools/distributed.cpp:163-192 | a history: a worker with nothing wrong but the epoch it was told is refused after a roll and accepted once registered again |
| `Fencing.BootFencedExactly` | tools/distributed.cpp:173-178 | a boot is refused in every continuation in which nobody registers it exactly when no worker holds it |
| `Fencing.RestartFencesExactly` | tools/distributed.cpp:173-189 | a restart fences the prior incarnation exactly when no other worker shares its boot |
| `Fencing.SharedBootSurvivesRestart` | tools/distributed.cpp:173-189 | two workers with the default boot: an action of the dead incarnation of one still passes |
| `Fencing.RestartFencesReports` | tools/distributed.cpp:163-171 | observations of a prior incarnation are fenced without any condition |
| `Fencing.SurvivorUnaffected` | tools/distributed.cpp:163-224 | each registration, reply and observation of a worker is answered as if all other workers had been struck from the history |
| `Fencing.ActionUnaffectedExactly` | tools/distributed.cpp:173-178 | an action is answered as if a worker were alone unless its epoch is current and somebody else, but not that worker, holds its boot |
| `Authority.AuthorityGate.Adopt` | include/powergovernor/authority.hpp:83-90 | each mark becomes the greater of itself and what is carried |
| `Authority.AcceptedExactly` | include/powergovernor/authority.hpp:69-81 | the cascade accepts exactly an envelope with epoch and boot, both current, that carries nothing behind a mark |
| `Authority.AcceptedAfterRunExactly` | include/powergovernor/authority.hpp:69-99 | after any run of adopted messages a message is accepted exactly when it was before and it carries nothing older than any of them |
| `Authority.AdoptOrderIrrelevant` | include/powergovernor/authority.hpp:83-90 | any two orders of the same messages leave the same marks |
| `Authority.RefusedExactly` | include/powergovernor/authority.hpp:69-81 | each refusal has its exact cause: the first of validity, epoch, boot and the six domains, in their order, that is not current |
| `Thermal.ThermalGovernor.Observe` | include/powergovernor/thermal.hpp:79-119 | the branches take the automaton, the last temperature and the generation to their specified successors |
| `Thermal.ConstrainedExactly` | include/powergovernor/thermal.hpp:79-119 | constrained exactly when enough consecutive samples were hot and none has cooled since |
| `Thermal.RecoveringExactly` | include/powergovernor/thermal.hpp:79-119 | recovering exactly when not constrained, a sample cooled while constrained, and none since was at or below the warm threshold |
| `Thermal.BandExactly` | include/powergovernor/thermal.hpp:79-119 | when neither constrained nor recovering it shows the band of the last sample that was not hot, normal when that one ended a recovery, and unknown when there was none |
| `Thermal.OrderedThresholds` | include/powergovernor/thermal.hpp:155-161 | with ordered thresholds and a non-negative margin, hot is at or above hot_max and cooled is below it less the margin |
| `Thermal.StateWithGapsExactly` | include/powergovernor/thermal.hpp:79-119 | over every history with any number of missing samples, constrained and recovering are what the trace of the samples that still matter says: all since the last gap, and the hot ones being counted at it |
| `Thermal.CeilingAntitoneExactly` | include/powergovernor/thermal.hpp:122-140 | hotter never permits more power exactly when the reduction is at most one |
| `Thermal.CeilingWithinCap` | include/powergovernor/thermal.hpp:122-140 | the ceiling lies between the reduced cap and the cap |
| `Thermal.CeilingExactly` | include/powergovernor/thermal.hpp:122-140 | the ceiling: the cap up to the normal threshold, the reduced cap from the hot one on, and the straight line between them; none without a temperature |
| `Windows.BurstBudget.Consume` | include/powergovernor/burst.hpp:39-45 | refill, test and spend as specified; a disabled budget grants nothing and does not move |
| `Windows.BurstBudget.CanBurst` | include/powergovernor/burst.hpp:33-36 | the answer, and the refill that asking causes |
| `Windows.BurstBudget.Available` | include/powergovernor/burst.hpp:26-31 | what is left after the refill that asking causes |
| `Windows.EnergyWindowAccount.CanConsume` | include/powergovernor/energy.hpp:155-158 | on an enforced account it answers exactly what consume would |
| `Windows.EnergyWindowAccount.Consume` | include/powergovernor/energy.hpp:162-175 | refill, test and spend as specified when enforced; unenforced it always grants |
| `Windows.EnergyWindowAccount.Remaining` | include/powergovernor/energy.hpp:148-153 | an elapsed window reads as full without being refilled |
| `Windows.GrantedWithinRate` | include/powergovernor/burst.hpp:39-70 | for the burst budget, and for the enforced energy window, which takes the same steps: over every run of queries and attempts the total granted is at most one capacity per window begun, plus a tolerance per grant; with no tolerance at all on whole thousandths of a joule |
| `Windows.GrantedExactly` | include/powergovernor/burst.hpp:26-70 | over every run: an attempt is granted exactly when it asks for no less than nothing and, but for the tolerance, no more than the capacity less everything granted since the current window was opened |
| `Windows.CapacityInJoules` | include/powergovernor/burst.hpp:22-24 | the capacity is the allowance in watts for the seconds of the window |
| `Windows.RateAttained` | include/powergovernor/burst.hpp:39-70 | the bound is attained for every number of windows, all at one instant when the window is zero |
| `Windows.ToleranceAccumulates` | include/powergovernor/burst.hpp:33-36 | off the lattice an empty budget grants the tolerance again and again |
| `PowerWindow.PowerWindow.Record` | include/powergovernor/energy.hpp:80-89 | a negative or out-of-order sample is refused unchanged; else it is appended, the peak raised and the window trimmed |
| `PowerWindow.PowerWindow.Trim` | include/powergovernor/energy.hpp:123-127 | the loop drops old samples from the front while more than two remain |
| `PowerWindow.PowerWindow.IntegratedEnergy` | include/powergovernor/energy.hpp:108-117 | the loop adds up one trapezoid per pair |
| `PowerWindow.PowerWindow.AveragePower` | include/powergovernor/energy.hpp:96-102 | energy over span, with the answers for none, one and simultaneous samples |
| `PowerWindow.KeptExactly` | include/powergovernor/energy.hpp:80-89 | over every history an attempt is kept exactly when its power is not negative and none kept before is later |
| `PowerWindow.WindowIsOneTrim` | include/powergovernor/energy.hpp:80-127 | after every history of attempts the window is the accepted samples trimmed once |
| `PowerWindow.PeakIsGreatest` | include/powergovernor/energy.hpp:80-89 | the peak is the greatest power ever accepted |
| `PowerWindow.RetainedSuffix` | include/powergovernor/energy.hpp:123-127 | what remains is a time-sorted suffix spanning at most the capacity when more than two remain, and what was dropped last is older than the capacity |
| `PowerWindow.AverageWithinRetained` | include/powergovernor/energy.hpp:96-117 | the average lies between the least and the greatest retained power and never exceeds the peak |
| `PowerWindow.AverageExactly` | include/powergovernor/energy.hpp:96-117 | the average for the span gives the energy; over no time it is the last power, over nothing zero |
| `PowerWindow.AverageOfParts` | include/powergovernor/energy.hpp:96-117 | the average of a window cut in two at any sample is the mean of the parts weighted by their spans |
| `PowerWindow.RampAverage` | include/powergovernor/energy.hpp:96-117 | on a linear ramp the average is the mean of the ends, and the energy is that power for the span in seconds |
| `PowerWindow.InterpolatedSampleAddsNothing` | include/powergovernor/energy.hpp:108-117 | a sample on the straight line between its neighbours can be added anywhere without changing the energy |
| `Decisions.DecisionEngine.Evaluate` | include/powergovernor/decision_engine.hpp:162-284 | the nine steps give the specified decision, and it is what the hysteresis remembers |
| `Decisions.VerdictExactly` | include/powergovernor/decision_engine.hpp:162-284 | for each of the six verdicts the exact condition on the fields of the input and the last verdict: freshness, thermal state, the three caps, soft target, burst, energy window, and a restrictive verdict still held |
| `Decisions.AllowExactly` | include/powergovernor/decision_engine.hpp:162-284 | ALLOW exactly on current telemetry, no thermal restriction, a request within every cap, and either a covered burst above the soft target or, below it, room in the energy window and no restrictive verdict still held |
| `Decisions.LimitWithinCaps` | include/powergovernor/decision_engine.hpp:185-284 | any recommended limit, with any verdict and history, is within every cap |
| `Decisions.BindingIsReal` | include/powergovernor/decision_engine.hpp:185-284 | the recommended limit is the value of the cap the decision names as binding, the least of the three and the first of equal ones; a decision that names none had no cap to meet; telemetry is named exactly when it is not current |
| `Decisions.SoftTargetExactly` | include/powergovernor/decision_engine.hpp:241-284 | the soft target is recommended exactly when a request above it within the caps finds no burst budget, or an earlier limit is held and there is no cap |
| `Decisions.HysteresisActsExactly` | include/powergovernor/decision_engine.hpp:270-281 | hysteresis changes a decision exactly when the input alone would be allowed by default and a restrictive verdict is still fresh; it never loosens |
| `Decisions.EarlyAllowIsBurst` | include/powergovernor/decision_engine.hpp:241-284 | directly after a restrictive verdict, an ALLOW within the stable duration is exactly a burst grant |
| `Decisions.NoOscillation` | include/powergovernor/decision_engine.hpp:270-284 | over every run, an ALLOW without a burst grant before it comes at least the stable duration after every earlier restrictive verdict |
| `Decisions.QuietGapForgets` | include/powergovernor/decision_engine.hpp:270-281 | after a quiet gap of the stable duration the decision is the memoryless one |
| `Decisions.PollingHolds` | include/powergovernor/decision_engine.hpp:270-284 | under polling without such a gap a restrictive verdict stays, however often the input alone would be allowed |
| `Decisions.HoldOutlastsAnyTime` | include/powergovernor/decision_engine.hpp:270-284 | for every span of time there is a run in which it is still held after that time |
| `Pipeline.GovernorCore.Ingest` | include/powergovernor/governor.hpp:306-336 | a sample updates the device as specified; a power record that throws leaves the latest sample and its time assigned |
| `Pipeline.GovernorCore.InvalidateLiveTelemetry` | include/powergovernor/governor.hpp:632-637 | the latest sample, its time and the thermal state go; the hardware cap and the power window stay |
| `Pipeline.GovernorCore.Decide` | include/powergovernor/governor.hpp:339-405 | the input is assembled from policy, device and ledger and evaluated; only the burst window and the hysteresis move |
| `Verdicts.DeviceIsHistory` | include/powergovernor/governor.hpp:306-336 | after every history the thermal state is that of the trace of the accepted temperatures since the last recovery, and the backend cap is the one that came with the last power recorded |
| `Verdicts.WindowWithinTwoSeconds` | include/powergovernor/governor.hpp:306-336 | the power window of a device spans at most two seconds once it holds more than two samples |
| `Verdicts.FreshnessExactly` | include/powergovernor/governor.hpp:421-425 | each freshness exactly by the first of the three ages of the policy that the sample is younger than |
| `Verdicts.AnswerExactly` | include/powergovernor/governor.hpp:339-405 | over every history of samples, decisions, recoveries and resets, and for each of the six verdicts, the exact condition in terms of the history: the age of the last power sample, the confirmed or recovering trace of accepted temperatures, the least of the policy and backend caps, what the ledger has free, the ceiling at the temperature, the policy, and the last answer |
| `Verdicts.LimitExactly` | include/powergovernor/governor.hpp:339-405 | and the limit recommended is the cap of the history that the decision names |
| `Verdicts.NoPowerNoVerdict` | include/powergovernor/governor.hpp:421-425 | without a power sample since the last recovery every decision calls for revalidation |
| `Pipeline.EndToEndCap` | include/powergovernor/governor.hpp:339-405 | for every state and history, ALLOW means the request, and any recommended limit, is within the fleet, node, device and backend caps, the thermal ceiling, and what is free at every budget of the chain, which is at most 65 long |
| `Pipeline.AllowWithinAncestor` | include/powergovernor/governor.hpp:390-397 | so every ancestor fewer than 65 links up bounds an allowed request |
| `Pipeline.AllowWithinThermalCeiling` | include/powergovernor/governor.hpp:376-380 | with a temperature at hand an ALLOW is within a ceiling between the reduced cap and the cap, and equal to the cap while not above the normal threshold, to the reduced cap when hot, and on the straight line in between |
| `Pipeline.AllowedIsReservable` | include/powergovernor/governor.hpp:390-397 | an allowed request in whole milliwatts would be reserved by the ledger at that moment exactly when the budget is authoritative and its chain closed |
| `Pipeline.RevalidationExactly` | include/powergovernor/governor.hpp:421-425 | over every history, revalidation is called for exactly when no power sample has come since the last recovery, or the last one is stamped zero or too old |
| `Pipeline.GovernorNeverOscillates` | include/powergovernor/governor.hpp:339-405 | the burst budget of a governor is never enabled, so over every history of samples, decisions, recoveries and resets with a steady policy and clock no ALLOW comes sooner than the stable duration after a restrictive verdict since the last reset of the hysteresis |
| `Pipeline.ResetForgets` | include/powergovernor/governor.hpp:265-268 | over every history the first decision after a reset is the memoryless one |
| `Pipeline.BackInTimeSampleHalfKept` | include/powergovernor/governor.hpp:306-336 | a sample that goes back in time: latest, its time and the temperature of the ceiling are new, thermal state, window and backend cap are old |
| `Pipeline.EnergyWindowNeverFills` | include/powergovernor/governor.hpp:342-352 | a history: any number of requests, each for the whole energy window at the same instant, are all allowed |
| `Failures.LoweredMaximum` | include/powergovernor/budget.hpp:118-131 | a run from a new governor: a re-issue with a lower maximum leaves a budget booked beyond it |
| `Failures.MovedLoad` | include/powergovernor/budget.hpp:118-131 | a run: a budget that carries something is re-issued under another, whose books then no longer add up |
| `Failures.TowerAcceptedExactly` | include/powergovernor/governor.hpp:607-625 | a tower of budgets is an acceptable hierarchy exactly up to 257 of them |
| `Failures.TopUnbooked` | include/powergovernor/budget.hpp:133-169 | a run: an accepted hierarchy of 66 budgets takes a reservation at the bottom although the top has a maximum of zero, and the top is not booked |
| `Failures.RingHidesMove` | include/powergovernor/budget.hpp:118-145 | a run in which two budgets are installed under one another: a budget below them that bears a load moves from one to the other and the books stay sound |
| `Failures.ChildOutgrowsParent` | include/powergovernor/budget.hpp:133-169 | the same hierarchy after that: a sound state in which the child of the top carries 5 and the top carries nothing |
| `Failures.DistantBudgetMoves` | include/powergovernor/budget.hpp:118-145 | there that child, although it carries 5, can be re-issued as a root and the books stay sound |
| `Failures.ReleaseTakesUsageOfOthers` | include/powergovernor/reservation.hpp:258-262 | a run: releasing a reservation that was never activated takes the usage of one that is |
| `Failures.NullGenerationStuck` | include/powergovernor/reservation.hpp:245-266 | a run: a reservation activated under the null generation can never be released |
| `Failures.ZeroWattsStuck` | include/powergovernor/reservation.hpp:245-266 | a run: a sound state in which the release of a reservation of nothing is refused under the current generation |
| `Failures.OlderClaimLost` | include/powergovernor/governor.hpp:585-590 | a run, a save and a recovery: a claim of an older generation is lost, the state is not sound, and its release is an over-release |
| `Failures.ExpiredHolderLost` | include/powergovernor/governor.hpp:585-590 | a run, a save and a recovery: what an EXPIRED reservation holds is dropped |
| `Failures.CurrentClaimLost` | include/powergovernor/governor.hpp:585-590 | a run, a save and a recovery: after an ancestor was re-issued with a lower maximum a claim of the current generation is turned down, and the state is not sound |
| `Failures.UsageLost` | include/powergovernor/governor.hpp:585-590 | a run, a save and a recovery: a reservation is ACTIVE and its budget shows no usage |
| `Failures.ExpiredStaysListed` | include/powergovernor/reservation.hpp:208-214 | a run: an EXPIRED reservation stays on the list of its last phase |
| `Failures.FailedLoadLeavesBudgets` | include/powergovernor/governor.hpp:499-605 | a state with more meters than the decoder takes: the load fails, and the budgets it had read stay installed |

## Left out

- IEEE-754 rounding, NaN and infinities, and the truncation of `double` to fixed point on disk and wire: amounts are exact integers or reals here.
- 64-bit wrap-around of generations, identities and sums: they are naturals; fresh identities come from the caller, as from `allocate`, and `Safety.RunKeepsIndex` assumes only that they are not the invalid one.
- Sockets, threads, stdin commands, clocks, process control and the foreign backends: a sample or a message is an input value.
- File reading, writing and atomic replacement.
- JSON, explanation texts, digests, the change history, UUID text, and the enum-to-text pairs.
- `account_energy` of the reservation manager and the provenance meters of `EnergyMeter`: sums of their inputs. `Recovery` keeps one total per workload.
- Power domains, capability structures, performance states and workload class rules; the priority of a rule, which no verdict depends on.
- Oversubscription, degraded modes, minimum reserves and the `refill` of burst limits: policy fields the modelled code never reads.
- `DecisionEngine.effective_state`, which is a function of the verdict and the class asked for, and the verdicts DRAIN_RECOMMENDED and UNKNOWN, which `evaluate` never gives.
- In a reservation, the authority fields other than epoch and boot, its own generation and the request class, which no modelled step reads and no save stores.
- Policy and authority fields that `decode_state` assigns are returned as the header it read.
- Setters of the authority gate that may lower a mark (`set_policy` and the like), and `reset_epoch`.
- Rejected frames of a connection and which connection a message came on: the fences do not look at it.
- Safety.RunKeepsCaps: asks that installs keep every walk ending and do not lower a maximum below what is booked; `Safety.InstallKeepsCaps` and `Ledger.AdmissionSafeExactly` say what happens otherwise.
- Conservation.RunConserves: asks that no budget that bears something is given another parent; `Reparent.ReissueSoundExactly` shows that this is exact for every install on a forest, of any depth.
- Reparent.ReissueSoundExactly: asks for a forest before the install, not after it; on a ring a moved load need not show (`Failures.RingHidesMove`), and only the direction of `Conservation.StepConserves` holds.
- Pipeline.GovernorNeverOscillates: asks for a steady policy, a clock that does not go back, and no reset of the hysteresis between the two decisions; `Pipeline.ResetForgets` says what a reset does.
- The effects of messages that passed a fence, and their order: see "Fences, not effects".
