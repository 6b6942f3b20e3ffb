# Agent authority protocol: a verified model

The system lets a person sign a mandate for an agent, lets the agent pass a
narrower mandate on, and lets a verifier decide whether a concrete action is
covered by the whole chain. Everything fails closed. This project models the
parts where that decision is hard and proves what they promise for every input,
every chain and every run.

| files | what they model |
|---|---|
| `Sums`, `Flow`, `Grids`, `Levels`, `EdmondsKarp`, `CartMatching`, `Checkout` | line items of a checkout as a maximum-flow problem: the algorithm on a residual matrix, max-flow/min-cut, how many augmentations it takes, and what acceptance of a cart means |
| `Json`, `Strings`, `Splitting`, `Pointer`, `Processing`, `Walker`, `SdTree`, `Walk`, `Landing` | the processing rules of section 7.1 of RFC 9901 and JSON Pointers (RFC 6901) |
| `Grafting`, `Placing`, `Conceal`, `Builder`, `RoundTrip`, `Issuing`, `Minting`, `Concealing`, `SdOrder` | issuance (section 4.2 of RFC 9901): processing inverts it, and what it conceals is not said |
| `Restriction`, `Selection`, `Minimality`, `Cutting` | a holder's choice of disclosures (section 7.2 of RFC 9901): it is closed, faithful and the least one, and withholding cuts places out of the claims |
| `ClearClaims`, `ClearDelegates`, `ShownLimits`, `WithheldBudget` | what no choice of disclosures can hide, and so which limits of a mandate always bind |
| `Presentations`, `Verification`, `Acceptance`, `HashChain` | compact serialization and verification of delegate chains (draft-gco-oauth-delegate-sd-jwt) |
| `TimeWindows`, `Constraints`, `Strictness`, `MandateParsing`, `Mandates`, `Meaning`, `Narrowing`, `Ledger`, `Authorization` | constraints and what they allow, narrowing, cumulative evaluation, budgets over time, the authorization decision |
| `Deciding`, `Guarantees`, `SpendingPerJwt` | the decision on a presentation text, what it takes to be authorized, and what is spent over every run of decisions |
| `Nonces`, `NonceTable`, `DeviceCounter`, `RateLimiting` | stateful protocols as runs of atomic steps |
| `Scopes`, `DelegationChains` | the v0 verifier |

How the proofs are built:

- **Processing.** A payload and its disclosures are explained by a *tree*
  (`SdTree`) in which every digest is either a revealed value or a gap. The walker
  succeeds exactly when such a tree exists (`ProcessExact`), and issuance and
  selection are proved on trees: issuance keeps a tree that reads as the claims
  through every step, selection restricts a tree.
- **Matching.** `MaxFlow` keeps a residual matrix that describes a flow; when no
  augmenting path is left the discovered nodes are a saturated cut. A full flow is
  an assignment of units, and an assignment is a full flow. Breadth-first levels
  never fall and every augmentation empties an edge, which bounds their number.
- **Meaning.** The tests are specified by functions that the code refines, and those
  functions are characterized in terms of claims, amounts, clocks and texts, without
  naming any of them (`Meaning`, `Acceptance`, `Guarantees`, `Cutting`).
- **Runs.** Each protocol is a fold over a sequence of atomic steps with arbitrary
  interleaving; theorems quantify over all sequences.
- **In-place code.** Where the code updates things step by step there is a class or
  a loop whose contract equals the specification function the theorems are about.

Cryptography, base64, serde_json and calendars are function-valued parameters.
Collision-freedom of hashes is a hypothesis wherever it is used: `Minting.Ideal` for
issuance, `HashChain.Injective` for the hash chain.

What the code does at the edges, where a reader might expect something else:

- A top-level `_sd_alg` is cut out of the processed claims, so a disclosure that
  lands there has a path that leads nowhere (`Landing.PathsResolve`,
  `Landing.SdAlgVanishes`).
- A token names element i of an array if and only if it is the decimal form of i or a
  `+` followed by any digits of value i, so `+007` names element 7, which RFC 6901 does
  not allow (`Pointer.StepExact`, `Pointer.PlusAndZeros`).
- Narrowing compares depths with a saturating addition: a mandate that
  allows 4294967295 levels narrows itself (`Mandates.NarrowsItself`).
- An agent's nonce is forgotten in the second in which it expires, and a key binding
  of that age is still fresh. In every run a key binding presented again while fresh
  is accepted if and only if that is this second (`Nonces.ReplayExactlyAtExpiry`).
- A device that has not asserted yet has a null digest, which counts as different
  from every digest, so an assertion with counter 0 flags it. In every run a flag comes
  from counter 0 if and only if nothing was accepted, and otherwise from a second digest
  under the last accepted counter (`DeviceCounter.ConflictExact`,
  `DeviceCounter.FlagsExactly`).
- The key under which uses are counted is the hash of the JWT and does not change with
  the disclosures. A user-signed mandate whose budget is concealed verifies with the
  budget and without it (`WithheldBudget.BothVerify`), and a holder who withholds it the
  second time spends it twice (`WithheldBudget.OneJwtOverspends`). A JWT that reads as a
  mandate with nothing disclosed inside shows a limit in every use of every run if and
  only if every element it opens to carries the limit in the clear
  (`ShownLimits.AlwaysCarriedExact`), and then the limit holds over every run
  (`SpendingPerJwt.SpendingHolds`).
- Limits are counted per JWT text. Whether one signed content can have two valid texts
  depends on the signature scheme, which is not part of this model.
- Narrowing ignores the counters: a parent whose budget is spent rejects what its child
  accepts (`Mandates.CountersBreakSoundness`, on mandates that claims can carry,
  `MandateParsing.CountersBreakOnParsed`).
- The second freshness test and the test for a missing mandate never fail after
  verification (`Deciding.FreshAgain`, `Deciding.AuthorizedExactly`).
- v0 narrowing says nothing about amounts when the parent has no ceiling, and compares
  hours and minutes in turn where matching compares minutes since midnight, so that
  9:120 counts as before 10:00 (`Scopes.OddTimesEscape`). What a narrower scope matches
  at whatever instant the wider one matches if and only if the narrower never opens, or
  its windows are covered minute by minute and it brings no ceiling the wider one lacks
  (`Scopes.NarrowsSoundExactly`, and `DelegationChains.WholeChainExact` for a chain).
  The windows are always covered when minutes are below 60 and hours do not overflow 32
  bits, times of day among them (`Scopes.OrdinaryTimesCover`).

## Model

| member | source | states |
|---|---|---|
| `EdmondsKarp.Bfs` | crates/authority/src/constraint/ap2.rs:508-519 | parent pointers form a tree of shortest paths that leads back to the source along edges with capacity left, and nothing leads from a discovered node to an undiscovered one |
| `EdmondsKarp.Bottleneck` | crates/authority/src/constraint/ap2.rs:523-529 | the smallest residual capacity on the path from the source to the sink: every edge has room for it, and one has no more |
| `EdmondsKarp.Augment` | crates/authority/src/constraint/ap2.rs:530-536 | pushing it keeps `cap[u][v] + cap[v][u]` for every pair, moves exactly that much net flow from sink to source and none at inner nodes, and empties an edge without shortening any distance |
| `EdmondsKarp.MaxFlow` | crates/authority/src/constraint/ap2.rs:504-538 | terminates with a total that is both the value of a flow and the capacity of a cut, opposite capacities conserved, every inner node balanced, no overflow of u128, and a number of augmentations bounded by the cube of the number of nodes, whatever the quantities |
| `Levels.LevelGrows` | crates/authority/src/constraint/ap2.rs:506-519 | distances from the source never decrease from one search to the next |
| `Levels.PushCounted` | crates/authority/src/constraint/ap2.rs:530-536 | between two emptyings of an edge its distance grows by two |
| `Levels.TotalAtMost` | crates/authority/src/constraint/ap2.rs:440-442 | so all edges together are emptied at most n * n * ((n + 1) / 2) times |
| `Flow.FlowCut` | crates/authority/src/constraint/ap2.rs:504-538 | no flow exceeds a cut, and a saturated cut is met exactly |
| `Flow.MaxFlowBounds` | crates/authority/src/constraint/ap2.rs:504-538 | such a total bounds every flow from above and every cut from below |
| `CartMatching.BuildGraph` | crates/authority/src/constraint/ap2.rs:480-494 | the matrix holds exactly the capacities of the line-item graph |
| `CartMatching.FlowAssigns` | crates/authority/src/constraint/ap2.rs:446-448 | a flow that fills the graph is an assignment of every unit |
| `CartMatching.AssignmentFlows` | crates/authority/src/constraint/ap2.rs:446-448 | an assignment of every unit is a flow on the graph |
| `CartMatching.MaxFlowDecides` | crates/authority/src/constraint/ap2.rs:495-501 | the greatest flow equals the wanted total if and only if the units can be assigned |
| `CartMatching.LineItems` | crates/authority/src/constraint/ap2.rs:449-501 | fulfilled if and only if there is a trusted checkout, it is not empty, requirements and items are at most 512 and every unit can be assigned; unresolved if and only if there is no trusted checkout, or all its items are acceptable and they are too many |
| `CartMatching.VerdictMeaning` | crates/authority/src/constraint/ap2.rs:446-501 | the same of the verdict that the other theorems speak about |
| `Checkout.Parse` | crates/authority/src/mandate.rs:419-439 | succeeds if and only if every quantity is positive and every total fits 64 bits; the items are then the distinct ids in order of first appearance with exactly the totals of the raw lines |
| `Checkout.CheckCart` | crates/authority/src/constraint/ap2.rs:449-501 | from raw lines to the decision: accepted if and only if the lines merge, are not empty, are at most 512 with the requirements, and the merged units can be assigned |
| `Pointer.ResolveInSteps` | crates/sdjwt/src/pointer.rs:21-51 | the loop over tokens computes the resolution the other theorems speak about |
| `Pointer.ResolveRender` | crates/sdjwt/src/pointer.rs:21-59 | every place in a document has a pointer that resolves back to exactly that place |
| `Pointer.StepExact` | crates/sdjwt/src/pointer.rs:37-46 | exactly which tokens name element i of an array |
| `Pointer.PlusAndZeros` | crates/sdjwt/src/pointer.rs:39-42 | `+007` names element 7 although `007` names none |
| `Walker.Walker.Lookup` | crates/sdjwt/src/process.rs:70-75 | a digest is taken once; a second time is an error |
| `Walker.Walker.Object` | crates/sdjwt/src/process.rs:85-121 | in-place walk of an object equals the specification, path stack restored |
| `Walker.Walker.Array` | crates/sdjwt/src/process.rs:123-145 | the same for arrays, where undisclosed elements are dropped and later ones move up |
| `Walker.ProcessPayload` | crates/sdjwt/src/process.rs:34-60 | the whole of `process`, errors included, equals the specification; it terminates for every payload and disclosure set |
| `Processing.TabulateExact` | crates/sdjwt/src/process.rs:39-44 | the digest index exists if and only if no two disclosures share a digest, and finds each of them |
| `Walk.AcceptsObject` | crates/sdjwt/src/process.rs:85-121 | the wire form of a well-formed tree is walked to its plain reading, consuming exactly its digests and recording exactly its places |
| `Walk.TreeOfObject` | crates/sdjwt/src/process.rs:85-145 | conversely, whatever the walker accepts is the wire form of a well-formed tree |
| `Landing.ProcessExact` | crates/sdjwt/src/process.rs:34-60 | processing succeeds if and only if payload and disclosures have an unambiguous reading that uses every disclosure exactly once |
| `Landing.ProcessReads` | crates/sdjwt/src/process.rs:34-60 | claims and paths are those of the reading |
| `Landing.PathsResolve` | crates/sdjwt/src/process.rs:26-32 | `paths[i]` leads, in the claims, to the processed value of disclosure i, except through a top-level `_sd_alg` |
| `Landing.SdAlgVanishes` | crates/sdjwt/src/process.rs:26-32 | the input that reaches the exception: a disclosure named `_sd_alg` processes, its path is `_sd_alg` and the claims are empty |
| `Builder.Builder.ConcealAt` | crates/sdjwt/src/conceal.rs:142-160 | one concealment in place: member or element replaced by its digest, disclosure appended |
| `Builder.Builder.AddDecoys` | crates/sdjwt/src/conceal.rs:176-190 | a container gets `count` decoys |
| `Builder.BuildPayload` | crates/sdjwt/src/conceal.rs:63-109 | pointers resolved, operations sorted and applied to one document in place: equals the specification, errors included |
| `Conceal.ReservedFound` | crates/sdjwt/src/conceal.rs:113-126 | a reserved name is reported if and only if one occurs anywhere in the claims |
| `Conceal.BuildExact` | crates/sdjwt/src/conceal.rs:63-96 | `build` succeeds if and only if no reserved name occurs, the pointers resolve to distinct places and every decoy target is a container |
| `RoundTrip.RunKeeps` | crates/sdjwt/src/conceal.rs:98-104 | no operation panics, and after each the document with its disclosures still reads as the original claims |
| `Issuing.ConcealThenProcess` | crates/sdjwt/src/conceal.rs:63-190 | for whatever `build` accepts, with distinct digests, no `expect` or `unreachable` is hit and processing the output with all disclosures returns the original claims |
| `Issuing.SignedThenProcess` | crates/sdjwt/src/sdjwt.rs:167-185 | the same for the signed payload, to which `_sd_alg` was added |
| `Minting.MintedDistinct` | crates/sdjwt/src/conceal.rs:142-190 | with fresh salts, texts that determine their salt and a hash without collisions no two digests coincide |
| `Minting.IdealRoundTrip` | crates/sdjwt/src/conceal.rs:63-190 | the round trip from those assumptions alone |
| `Concealing.OneDisclosureEach` | crates/sdjwt/src/conceal.rs:142-160 | one disclosure for each concealed pointer, named after the place it leads to and carrying the value there; each lands on a place of its own; one digest for each of them and for each decoy |
| `Concealing.ConcealedIsCut` | crates/sdjwt/src/conceal.rs:98-104 | with nothing disclosed, the payload processes to exactly the claims with every concealed place cut out |
| `Concealing.SaidInTheClear` | crates/sdjwt/src/conceal.rs:98-104 | a place of the claims is said in the clear, with array indices closed up, if and only if no concealed pointer leads to it or to a place above it |
| `Concealing.PresentedIsCut` | crates/sdjwt/src/process.rs:40-150 | with any disclosures that process, the payload says the claims with the places of all other disclosures cut out |
| `Concealing.IdealConceals` | crates/sdjwt/src/conceal.rs:63-190 | the cut from the assumptions on salts, texts and the hash alone |
| `Concealing.DecoysPlaced` | crates/sdjwt/src/conceal.rs:176-190 | every container has exactly as many digests without a disclosure as decoys were asked for there |
| `SdOrder.BuildSorts` | crates/sdjwt/src/conceal.rs:162-174 | every `_sd` list, in the payload and inside every disclosure, is sorted |
| `Selection.SelectionReads` | crates/sdjwt/src/sdjwt.rs:85-107 | the kept disclosures read as the full tree with the rest withheld |
| `Selection.SelectCloses` | crates/sdjwt/src/sdjwt.rs:85-107 | a token that processes still processes after any selection of existing claims |
| `Selection.SelectFaithful` | crates/sdjwt/src/sdjwt.rs:77-107 | every wanted claim has the value it had with everything disclosed, at its path with array indices closed up |
| `Minimality.SelectLeast` | crates/sdjwt/src/sdjwt.rs:77-107 | disclosures of the token that still process show every wanted claim, in its own place and with its value, if and only if they contain all that `select` keeps |
| `Cutting.WithholdingCuts` | crates/sdjwt/src/process.rs:40-150 | for any token that processes and any part of its disclosures that does: withholding the rest cuts exactly their places out of the claims |
| `Cutting.NothingDisclosed` | crates/sdjwt/src/process.rs:40-150 | a token that processes still does with no disclosure at all |
| `Cutting.CutFinds` | crates/sdjwt/src/process.rs:123-145 | what is not cut is found at its place with array indices closed up |
| `Cutting.CutComes` | crates/sdjwt/src/process.rs:123-145 | and whatever is found comes from a place that is not cut |
| `Selection.ShiftKeepsOrder` | crates/sdjwt/src/process.rs:123-145 | the index shift keeps the order of the elements that stay |
| `ClearClaims.ClearListed` | crates/sdjwt/src/process.rs:123-145 | an item carried in the clear is in the claims for every set of disclosures that processes |
| `ClearClaims.AlwaysListedExact` | crates/sdjwt/src/process.rs:123-145 | for lists of the signed payload, of clear items and digests: an item is listed whatever is disclosed if and only if it is carried in the clear |
| `ClearDelegates.OpensBare` | crates/sdjwt/src/verify.rs:485-536 | whatever Delegate Payload a JWT opens to with some disclosures, it opens to with that element's own disclosure alone |
| `ClearDelegates.LinkLists` | crates/sdjwt/src/verify.rs:407-410 | what every element a JWT opens to carries in the clear is in the Delegate Payload that is read, for every choice of disclosures |
| `ClearDelegates.LinkListsExact` | crates/sdjwt/src/verify.rs:407-410 | for lists of clear items and digests inside a Delegate Payload: listed for every choice of disclosures that opens the JWT if and only if carried in the clear by every element it opens to |
| `Presentations.Parse` | crates/sdjwt/src/presentation.rs:44-95 | accepts only texts of well-formed presentations, and every text of a well-formed presentation parses to exactly that presentation |
| `Presentations.Unambiguous` | crates/sdjwt/src/presentation.rs:1-17 | two well-formed presentations with the same text are equal, for any number of links and disclosures |
| `Presentations.SerializeElement` | crates/sdjwt/src/sdjwt.rs:67-75 | the appended text is the components of one element joined by `~` |
| `Presentations.Serialize` | crates/sdjwt/src/presentation.rs:192-202 | the appended text is the components of the presentation joined by `~`, for all four shapes |
| `Verification.Verify` | crates/sdjwt/src/verify.rs:278-341 | succeeds with exactly the chain in which the shape fits the policy and every element verifies against the verified one before it; otherwise reports the first test that fails and the element it is about |
| `Acceptance.RootExact` | crates/sdjwt/src/verify.rs:343-376 | a root is accepted if and only if its type, signature, algorithm, claims, key and times fit: not expired and already valid within the leeway, and with an expiry when one is required |
| `Acceptance.LinkExact` | crates/sdjwt/src/verify.rs:378-456 | a link is accepted if and only if its type fits its position, the key named before it signed it, it is bound to the element before it in exactly one of two ways, it carries one Delegate Payload, and key and times fit |
| `Acceptance.BindingExact` | crates/sdjwt/src/verify.rs:458-483 | a KB-JWT is accepted if and only if its type, signature, hash, audience, nonce, age and times fit |
| `Acceptance.AcceptedExact` | crates/sdjwt/src/verify.rs:278-341 | a presentation verifies to a chain if and only if its shape, its root, every link and its KB-JWT fit |
| `Acceptance.ValidityErrors` | crates/sdjwt/src/verify.rs:580-600 | expired, without a required expiry, not yet valid or not a number: the error names what is wrong |
| `Acceptance.AcceptedInTime` | crates/sdjwt/src/verify.rs:578-600 | so in an accepted presentation everything is in time, roots and delegations have an expiry when required, and what binds it at the end is made for this verifier and transaction |
| `HashChain.AcceptedTied` | crates/sdjwt/src/verify.rs:343-483 | the root is signed by the issuer, each link and the KB-JWT by the key the verified element before it names, each bound to that element by hash |
| `HashChain.BindingDetects` | crates/sdjwt/src/verify.rs:541-556 | a link bound by `sd_hash` fits exactly the element and disclosures it was made for; one bound by `issuer_jwt_hash` exactly those with the same JWT |
| `HashChain.Commits` | crates/sdjwt/src/verify.rs:378-456 | sharing the JWT of any element fixes its position and every JWT before it, and the disclosures wherever the next link is bound by `sd_hash` |
| `HashChain.LastCommits` | crates/sdjwt/src/verify.rs:303-319 | two tied chains of elements with the same last JWT have the same length and the same earlier elements, disclosures included |
| `HashChain.LastJwtCommits` | crates/sdjwt/src/verify.rs:278-341 | the same for two verified presentations, whoever verified them and under whichever policies |
| `HashChain.KeyBindingCommits` | crates/sdjwt/src/verify.rs:458-483 | a shared KB-JWT fixes the whole presentation |
| `TimeWindows.Intervals` | crates/authority/src/time_window.rs:76-91 | the half-open intervals, split over midnight, cover exactly the window's minutes of the week |
| `TimeWindows.CoversExact` | crates/authority/src/time_window.rs:76-91 | a window covers a minute of the week if and only if, around the week, less than its length has passed since it opened on one of its days |
| `TimeWindows.Contains` | crates/authority/src/time_window.rs:95-102 | true exactly when the local minute is one the window covers |
| `TimeWindows.Merge` | crates/authority/src/time_window.rs:112-119 | merging sorted intervals keeps the covered minutes and leaves gaps between what remains |
| `TimeWindows.GappedExact` | crates/authority/src/time_window.rs:120-123 | in such a union, covered minute by minute is the same as inside one interval |
| `TimeWindows.CheckCovered` | crates/authority/src/time_window.rs:106-124 | true if and only if every minute of the child is covered by some parent in the same zone |
| `TimeWindows.CoveredContains` | crates/authority/src/time_window.rs:104-105 | whenever the child is open, some parent is |
| `Constraints.StrictensSound` | crates/authority/src/constraint/mod.rs:244-276 | what a constraint at least as strict accepts, the other accepts, for all seventeen types |
| `Constraints.StrictensTransitive` | crates/authority/src/constraint/mod.rs:247-276 | "at least as strict" is transitive |
| `Strictness.StrictensExact` | crates/authority/src/constraint/mod.rs:244-276 | for twelve types of constraint, and for ranges that contain an amount, "at least as strict" holds if and only if the other accepts all that it accepts |
| `Narrowing.CheckStrictens` | crates/authority/src/constraint/mod.rs:244-276 | `covers` as run, time windows by merged intervals, decides that relation |
| `MandateParsing.DepthOf` | crates/authority/src/mandate.rs:173-181 | the smallest delegation depth carried, 0 if there is none |
| `MandateParsing.Parse` | crates/authority/src/mandate.rs:126-194 | succeeds exactly on claims that read as an open mandate (known type, constraints of its family with their companions, presets the claims that are not structural), and otherwise names the first rule they break |
| `MandateParsing.ReadsExact` | crates/authority/src/mandate.rs:126-194 | claims read as a mandate if and only if they say it: type, constraints of its family, companions, depth and pre-set claims, name by name |
| `Narrowing.CheckNarrows` | crates/authority/src/evaluate.rs:104-138 | the loops decide narrowing |
| `Mandates.EvaluateChainMeaning` | crates/authority/src/evaluate.rs:81-93 | the chain is accepted if and only if every mandate accepts, and otherwise the first that rejects is reported with its cause |
| `Meaning.ObeysExact` | crates/authority/src/constraint/mod.rs:194-242 | a constraint accepts if and only if it is obeyed: amounts at or below the cap in its currency, names on their lists, counterparties not denied, the local minute in a window, payments in range, in budget, after the pause of the recurrence, on the date and for the checkout named |
| `Meaning.UnresolvedExact` | crates/authority/src/constraint/mod.rs:194-242 | it answers "unresolved" if and only if the verifier cannot know |
| `Meaning.ChainExact` | crates/authority/src/evaluate.rs:45-93 | a chain accepts if and only if for every mandate the action is of its family, keeps its pre-set claims, has its ceiling if it has an amount, and obeys every constraint |
| `Meaning.RejectionExplained` | crates/authority/src/evaluate.rs:45-78 | a rejection names a family that differs, a pre-set claim that is not kept, a missing ceiling or the first constraint that is not obeyed |
| `Mandates.NarrowsExact` | crates/authority/src/evaluate.rs:95-138 | once a narrower child accepts, the parent accepts if and only if its own budgets and recurrences do |
| `Mandates.NarrowsSound` | crates/authority/src/evaluate.rs:97-103 | everything the child accepts the parent accepts, for stateless parents or equal usage |
| `Mandates.CountersBreakSoundness` | crates/authority/src/evaluate.rs:98-99 | with separate counters that is false: a budget delegated once, spent at the parent, is still accepted by the child |
| `MandateParsing.CountersBreakOnParsed` | crates/authority/src/mandate.rs:126-194 | the two mandates of that input are what claims with these constraints are read as |
| `Mandates.NarrowsTransitive` | crates/authority/src/evaluate.rs:104-138 | narrowing is transitive |
| `Mandates.NarrowsItself` | crates/authority/src/evaluate.rs:105-105 | a mandate narrows itself if and only if its depth is the largest 32-bit number |
| `Mandates.ChainDepth` | crates/authority/src/verifier.rs:457-468 | a chain of at most 2^32 mandates that narrows step by step passes the depth rule |
| `Mandates.EndlessChain` | crates/authority/src/evaluate.rs:105-105 | repeating such a mandate narrows at any length and passes the depth rule exactly up to 2^32 links |
| `Mandates.LastDecides` | crates/authority/src/evaluate.rs:83-93 | in such a chain the last mandate accepts if and only if the whole chain does |
| `Mandates.AppendOnlyRestricts` | crates/authority/src/evaluate.rs:3-7 | appending any mandate never lets through what the chain before it rejects |
| `Ledger.RunLawful` | crates/authority/src/verifier.rs:483-516 | in every run every accepted use respected every budget, occurrence limit and interval of every mandate above it, measured on the log of accepted uses |
| `Ledger.BudgetHolds` | crates/authority/src/constraint/ap2.rs:184-207 | the amounts accepted under a ledger key (one JWT text), through whichever sub-delegations, never exceed a budget that every mandate shown under the key carries |
| `Ledger.OccurrencesHold` | crates/authority/src/constraint/ap2.rs:273-285 | nor do the uses exceed a maximum that every one of them carries |
| `Ledger.WithheldBudgetOverspends` | crates/authority/src/verifier.rs:556-561 | shown once and withheld once, a budget is spent twice under one ledger key |
| `WithheldBudget.BothVerify` | crates/sdjwt/src/verify.rs:343-376 | a user-signed mandate with one concealed constraint verifies as a root with the constraint and without it |
| `WithheldBudget.OneJwtOverspends` | crates/authority/src/verifier.rs:556-561 | read both ways from one JWT, under one ledger key, it spends a concealed budget twice |
| `ShownLimits.ClearAlwaysCarried` | crates/authority/src/verifier.rs:556-561 | a constraint that every element a JWT opens to carries in the clear is in every mandate read from the JWT |
| `ShownLimits.AlwaysCarriedExact` | crates/authority/src/verifier.rs:556-561 | for a JWT that reads as a mandate with nothing disclosed inside: every mandate of every run read from it carries the limit if and only if the limit is in the clear in every element it opens to |
| `ShownLimits.ClearBudgetHolds` | crates/authority/src/constraint/ap2.rs:184-207 | a budget in the clear is never exceeded in any run under one JWT text, whatever is disclosed |
| `ShownLimits.ClearOccurrencesHold` | crates/authority/src/constraint/ap2.rs:273-285 | nor is a maximum number of occurrences |
| `Ledger.ConsecutiveUsesApart` | crates/authority/src/constraint/ap2.rs:237-297 | if the later of two consecutive uses shows a recurrence, it comes at least the interval after the earlier |
| `Ledger.RunExact` | crates/authority/src/context.rs:57-67 | with one key per mandate the ledger holds exactly what was accepted |
| `Authorization.CheckConstraint` | crates/authority/src/constraint/mod.rs:194-242 | one constraint against one closed mandate as the code runs it, line items through the flow algorithm: decides what `Meaning.ObeysExact` characterizes |
| `Authorization.CheckMandate` | crates/authority/src/evaluate.rs:45-78 | family, the first pre-set claim that changed, amount without ceiling, then the type of the first constraint that fails and why |
| `Authorization.BindTrusts` | crates/authority/src/mandate.rs:349-392 | constraints read a checkout if and only if it is the one the mandate hashes and the verifier expects, and is the verifier's own or signed by the merchant |
| `Authorization.DeniedOrPasses` | crates/authority/src/verifier.rs:405-492 | a chain that fails a test passes with no mandates |
| `Authorization.CheckChain` | crates/authority/src/evaluate.rs:83-93 | the first mandate, root first, that rejects |
| `Authorization.CheckDepth` | crates/authority/src/verifier.rs:457-468 | passes exactly when no mandate is followed by more mandates than it allows |
| `Authorization.Judge` | crates/authority/src/verifier.rs:405-492 | passes exactly chains with an accepted root, valid status throughout, revocable or short-lived mandates, depth, transaction binding and cumulative acceptance, and otherwise names the first test that fails |
| `Authorization.Authorize` | crates/authority/src/verifier.rs:397-517 | the whole answer for every input: principal, closed mandate and ledger keys, or the first reason against it; only presentations that get past everything else touch the nonce store |
| `Deciding.FreshAgain` | crates/authority/src/verifier.rs:536-554 | on a chain accepted with a terminal link the freshness test that authorization repeats never fails |
| `Deciding.Decide` | crates/authority/src/verifier.rs:342-395 | on every text: if it is a presentation that verifies under the options the policy calls for to a chain whose mandates allow the action, the answer and the store are those of an allowed action, a replay or a missing store; otherwise it is refused for the first thing wrong and the store is left alone |
| `Deciding.AuthorizedExactly` | crates/authority/src/verifier.rs:342-517 | authorized are exactly the texts of presentations that verify to a chain whose mandates allow the action, with a free nonce where the agent picks it; a missing mandate or the repeated freshness test is never the reason for a refusal |
| `Guarantees.PassesExact` | crates/authority/src/verifier.rs:405-492 | a chain passes if and only if its root is listed, nothing in it is revoked, every open mandate has a status or expires soon, none is followed by more than it allows, the transaction is the one settled, and every mandate allows its leaf |
| `Guarantees.SettlesExact` | crates/authority/src/mandate.rs:349-392 | the transaction binding answers if and only if a payment names the transaction settled, or a checkout is the one agreed and hashed, and with the cart that is trusted |
| `Guarantees.AuthorizedExact` | crates/authority/src/verifier.rs:342-517 | a text is authorized if and only if it is a presentation that fits the policy, whose mandates allow its leaf, with a nonce not used before |
| `Guarantees.AuthorizedBound` | crates/authority/src/verifier.rs:352-378 | whatever is authorized has no links and the policy's leave for that, or its last element names this verifier's audience, the challenge or a fresh nonce, and a time within the window |
| `Guarantees.UnboundExact` | crates/authority/src/verifier.rs:352-378 | refused as unbound if and only if there are no links and no leave; for want of a nonce if and only if the last element names none |
| `Guarantees.PermittedInTime` | crates/sdjwt/src/verify.rs:578-600 | everything in a permitted presentation is in time, and its root has an expiry |
| `Guarantees.AnswerRead` | crates/authority/src/verifier.rs:405-420 | the answer names the subject of the credential root or the signer of the root mandate, the leaf, and the key of every mandate |
| `Guarantees.LineItemsTrusted` | crates/authority/src/constraint/ap2.rs:449-501 | a checkout that passes under line items is trusted, and its units can be assigned to them |
| `SpendingPerJwt.KeyNamesJwt` | crates/authority/src/verifier.rs:556-561 | each mandate of a verified presentation is read from its own JWT and disclosures and counted under the hash of that JWT |
| `SpendingPerJwt.SpendingHolds` | crates/authority/src/verifier.rs:483-516 | when hashes do not collide, over every run of requests whose mandates come from verified presentations the amount spent under a mandate JWT stays within a budget the JWT shows in the clear |
| `SpendingPerJwt.UsesHold` | crates/authority/src/verifier.rs:483-516 | and the number of uses within a maximum it shows in the clear |
| `Nonces.MemoryNonceStore.CheckAndInsert` | crates/authority/src/nonce.rs:35-51 | prunes what has expired, then accepts and records a nonce unless it is recorded |
| `Nonces.NotAgainBefore` | crates/authority/src/nonce.rs:15-26 | in every run with a nondecreasing clock a nonce recorded until e is not accepted again before e |
| `Nonces.Bounded` | crates/authority/src/verifier.rs:536-553 | every stored entry expires no later than now + max_age + max_future |
| `Nonces.ReplayOnlyAtExpiry` | crates/authority/src/nonce.rs:45-45 | one key binding is accepted twice only in the second in which its nonce expires |
| `Nonces.ReplayExactlyAtExpiry` | crates/authority/src/verifier.rs:494-508 | in every run, presented again while fresh it is accepted if and only if that is the second in which its nonce expires |
| `Nonces.SecondPresentation` | crates/authority/src/nonce.rs:42-51 | the shortest such run |
| `NonceTable.Table.Precheck` | crates/verifier-service/src/db.rs:104-126 | records the pair if absent and answers whether it was there |
| `NonceTable.Table.Prune` | crates/verifier-service/src/db.rs:177-190 | keeps exactly the rows within retention |
| `NonceTable.AcceptedOnce` | crates/verifier-service/src/main.rs:127-133 | with a nondecreasing clock and at most 60 s from recording to verification, no schedule of prunes lets one signed message be accepted twice |
| `NonceTable.LateVerificationRepeats` | crates/verifier-service/src/db.rs:161-164 | the margin is needed: for every longer delay there is a run that accepts a message twice |
| `DeviceCounter.Device.Advance` | crates/issuer-service/src/service.rs:440-453 | moves the counter exactly when the device is active and the counter is larger |
| `DeviceCounter.Device.Flag` | crates/issuer-service/src/service.rs:477-494 | flags exactly when the device is active, the counter is the accepted one and the digest differs |
| `DeviceCounter.RunKeeps` | crates/issuer-service/src/service.rs:383-525 | in every interleaving the row shows the last accepted assertion, counters accepted so far increase, and a flag is backed by evidence |
| `DeviceCounter.NeverBack` | crates/issuer-service/src/service.rs:440-475 | the counter never decreases and nothing is accepted after flagging or revocation |
| `DeviceCounter.AcceptedOnce` | crates/issuer-service/src/service.rs:440-475 | each counter value is accepted at most once |
| `DeviceCounter.OneWinner` | crates/issuer-service/src/service.rs:440-475 | of concurrent requests with one counter at most one is answered "verified" |
| `DeviceCounter.FlagHasCause` | crates/issuer-service/src/service.rs:477-497 | a flagged device presented two digests under one counter, or counter 0 |
| `DeviceCounter.HonestNeverFlagged` | crates/issuer-service/src/service.rs:477-481 | a key that signs counters from 1 on and one digest per counter is never flagged, whatever is replayed |
| `DeviceCounter.ConflictExact` | crates/issuer-service/src/service.rs:477-497 | in every run the conflict of a flagged device has counter 0 if and only if nothing was accepted, and is otherwise a second digest under the last accepted counter |
| `DeviceCounter.FlagsExactly` | crates/issuer-service/src/service.rs:440-497 | after every run that leaves the device active, an assertion carried through flags it if and only if it is such a conflict |
| `DeviceCounter.AnswersExactly` | crates/issuer-service/src/service.rs:440-497 | after every run that leaves the device active, an assertion carried through is verified if and only if its counter is larger than every one accepted, and otherwise a conflict or a replay |
| `RateLimiting.KeyIsPrefix` | crates/issuer-service/src/ratelimit.rs:19-30 | two IPv6 addresses share a limit if and only if they share their first eight octets |
| `RateLimiting.RateLimiter.CheckAt` | crates/issuer-service/src/ratelimit.rs:45-63 | evicts when full, opens or continues a window, counts and decides, in place |
| `RateLimiting.TableBounded` | crates/issuer-service/src/ratelimit.rs:45-53 | never more than 50000 entries |
| `RateLimiting.WindowBound` | crates/issuer-service/src/ratelimit.rs:54-62 | at most `limit` requests of a client per fixed window, across evictions and full-table rejections |
| `RateLimiting.IntervalBound` | crates/issuer-service/src/ratelimit.rs:45-63 | at most twice `limit` in any interval of length WINDOW |
| `RateLimiting.AllowedExact` | crates/issuer-service/src/ratelimit.rs:45-63 | in every run a request is let through if and only if there is room and its window has not yet seen the limit |
| `RateLimiting.BelowLimitPasses` | crates/issuer-service/src/ratelimit.rs:45-63 | with room, a client let through fewer than `limit` times in the last minute is let through |
| `Scopes.ContainedExact` | crates/core/src/scope.rs:193-206 | containment of windows as narrowing tests it is containment at every instant if and only if the child never opens or the minutes since midnight nest |
| `Scopes.NarrowsExact` | crates/core/src/scope.rs:136-215 | with covered windows, a request the narrower scope matches is matched by the wider one if and only if the wider has a ceiling or the narrower has none |
| `Scopes.NarrowsSoundExactly` | crates/core/src/scope.rs:128-135 | narrowing keeps its promise at every instant if and only if the narrower scope never opens, or its windows are covered and its ceiling is inherited |
| `Scopes.OrdinaryTimesCover` | crates/core/src/scope.rs:187-212 | with minutes below 60 and hours that do not overflow, narrowing covers the windows |
| `Scopes.OddTimesEscape` | crates/core/src/scope.rs:199-206 | two scopes, a request and an instant at which the narrower matches and the wider does not |
| `Scopes.MatchesExact` | crates/core/src/scope.rs:64-126 | a scope matches a request if and only if every list it has names what the request brings, the amount is within the ceiling and a window is open |
| `Scopes.NarrowsItself` | crates/core/src/scope.rs:136-215 | a scope narrows itself if and only if its ceiling is an amount and its windows can be read |
| `DelegationChains.VerifyLink` | crates/core/src/verifier.rs:127-162 | a link passes exactly when signed by its parent's agent key (the principal's for the root), valid now and not revoked |
| `DelegationChains.CheckPair` | crates/core/src/verifier.rs:165-201 | a pair passes exactly when linked, same principal, nested validity, delegable, within depth and narrowed |
| `DelegationChains.Verify` | crates/core/src/verifier.rs:115-241 | accepts exactly when every link, every pair and the message pass, and otherwise names what the first of them gets wrong |
| `DelegationChains.EveryAncestor` | crates/core/src/verifier.rs:165-201 | every link names the principal of every ancestor, is valid only while the ancestor is, and the ancestor permits delegation |
| `DelegationChains.DepthHolds` | crates/core/src/verifier.rs:193-197 | no delegation has more links below it than it allows |
| `DelegationChains.WholeChainMatches` | crates/core/src/verifier.rs:233-235 | with the leaf's windows covered, a request the leaf matches is matched by every ancestor if and only if the root has a ceiling or the leaf has none |
| `DelegationChains.WholeChainExact` | crates/core/src/verifier.rs:233-235 | matching the leaf alone speaks for the whole chain at every instant if and only if the leaf never opens, or its windows are covered by every ancestor's and its ceiling is the root's |
| `DelegationChains.OrdinaryLeafCovered` | crates/core/src/scope.rs:187-212 | with ordinary times throughout the windows of the leaf are covered |
| `DelegationChains.CeilingFromNowhere` | crates/core/src/scope.rs:150-160 | the input for which it is not |
| `DelegationChains.ChainSigned` | crates/core/src/verifier.rs:127-162 | in an accepted chain each link is signed under its verified parent's agent key and the root under its principal's key, all for the root's principal and valid now |

## Left out

- Ed25519, P-256, SHA-2, base64, JSON text, CBOR and X.509: parameters of the model; a signature part that is not base64 counts as a bad signature.
- JSON numbers are reals: rounding of 64-bit floats in dates and amounts is not modelled, non-finite v0 amounts are.
- Presentations.Parse: which error a malformed text gets is not part of the contract, only that it is rejected.
- Verification.Verify: which error each single test gives is stated by the test itself; acceptance is characterized independently of the tests, rejections by their first failing test and its position.
- Strictness.StrictensExact: line items, counterparties, recurrences and dates are outside the exact statement; there the test may answer "no" although nothing more is accepted.
- MandateParsing.Parse: reading a constraint's own fields (`schema.rs`) is a parameter.
- ShownLimits.AlwaysCarriedExact: a constraint that is partly concealed inside, neither clear nor a digest, is outside the exact statement, as is a JWT that is no mandate until something inside is disclosed; `ShownLimits.ClearBudgetHolds` has no such condition.
- Deciding.Decide: receipts are not modelled, and which error a malformed text gets is not part of the contract.
- Authorization.Authorize: reading a closed mandate and a checkout object and the status service are parameters; receipts are not modelled.
- DelegationChains.Verify: the nonce store is an answer, its table is in `NonceTable`.
- Ledger.Run: recording is the caller's, done under every returned key before the next decision; a ledger total that leaves 64 bits is only excluded by the budget test itself.
- EdmondsKarp.MaxFlow: the bound is on augmentations; the work of one search is its loops over the matrix.
- Scopes.NarrowsSoundExactly: clocks answer each time zone on its own, so instants at which windows of two zones coincide are not told apart from others; 32-bit arithmetic wraps as in a release build.
- Link and KB-JWT signing beyond the binding hash, and the Delegate Payload form of a root at issuance: straight-line code around modelled parts.
- Calendar months, time zones and RFC 3339 dates: functions of the environment; fixed-day frequencies are exact.
- Database connections, transactions and isolation: each SQL statement is one atomic step on one device row or one table; enrollment, App Attest attestation and configuration checks of a request are not modelled.
- HTTP services, command lines, key stores, WASM bindings and the web page.
