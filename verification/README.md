# Proofs about the craft-ec node

A Dafny model of six parts of the node, and proofs of what each is for:

- **Erasure coding** (`Bits`, `Galois`, `Linear`, `RowOps`, `Coder`, `Decoder`, `VTags`, `TagStrength`). The
  log/exp tables are built by the source's loop and proved to be multiplication of polynomials modulo 0x11D.
  Encoding, recoding and the progressive Gauss-Jordan decoder are methods on byte buffers. The end result: pieces that
  were encoded and recoded to any depth, offered in any order with any repetition, decode to exactly the
  sources once the decoder is complete, and it is complete exactly when k independent pieces were offered.
- **Quorums, sequencing, chains and registries** (`Messages`, `Quorums`, `Sequencer`, `Committee`, `Chains`,
  `Forks`, `Search`, `SortedVec`, `Names`, `Registry`). Fork freedom over whole runs with equivocating members,
  and that its bound is exact: one more equivocator can always fork. Chains of approvals that amend their own
  quorum, with the exact number of double signers that can fork one. The head registry, a sorted vector edited by
  binary search, refines a last-writer-wins map, with the exact condition for replicas to converge.
- **Membership** (`Swim`, `Gossip`, `Convergence`, `Suspicion`, `Refutation`). Gossip converges over whole runs;
  when an accused node refutes, across restarts; a node declares another Dead only after holding it Suspect,
  unbroken, for the timeout; delta gossip drains.
- **The egress economy** (`Subscription`, `Entitlement`, `Cheques`, `ChequeNet`, `Settlement`). Oldest-first
  spending of expiring grants is optimal among all legal ways of spending; cheques over a lossy, reordering,
  duplicating channel, between nodes that restart, never overstate, and exactly when they catch up; settlement of
  a quota conserves.
- **The hybrid logical clock** (`Hlc`). Any interleaving of compare-and-swap loops keeps timestamps unique and
  increasing and bounds the drift a remote can cause.
- **The Kademlia overlay** (`Keys`, `Routing`, `Lookup`, `Reach`, `LastPlace`). Byte-wise distance and bucket
  numbers against the numeric XOR metric, table invariants, termination of the iterative lookup, that it ends at
  the nearest of the whole network whatever the asker itself knows, and eviction.

`Common` and `Sorting` hold shared arithmetic, finite sums and a stable sort.

The pattern throughout: what the source does in place is a class or a method on arrays, proved equal to a
function of the old state; the theorems are about that function, over every input or every run.

Modelling conventions. Signatures are ideal: a signature is the fact that a key signed a message, and each
domain tag with its encoding is one constructor of `Messages.Msg`. Identities are 32-byte keys read as
big-endian numbers, except in `Keys`, which works on the bytes. Clock readings, random draws, hash values and
network answers are parameters. Integers are unbounded; where the source's width matters (saturating additions,
the packed clock word, the 32-bit source count of a tag set, 64-bit incarnations) it is written out, and a
premise that a total stays in 64 bits is a `requires`.

Ten properties turned out not to hold as documented. Each has a concrete input and the exact condition under
which the code does meet it:

- A governed shortening of the subscription window leaves an expired grant behind a live one, and it is spent
  (`Entitlement.ShorterWindowSpendsExpired`, `Entitlement.ExactIff`).
- A purchase whose floor price does not fit in 64 bits is cut, not saturated, and buys less than was paid for
  (`Entitlement.PriceIsCut`, `Entitlement.PriceIsFloorIff`).
- Every new cheque of a pair is documented to be strictly above the earlier ones. A consumer that restarts counts
  from zero, and the provider's book stays above it until it has fetched as much again
  (`ChequeNet.RestartFallsBehind`, `ChequeNet.SupersedesIff`, `ChequeNet.BookCatchesUpIff`).
- Registry merge commutes only when no key is held at one version with two different rows, and replicas offered
  the same rows converge only when no key has two different newest ones
  (`Registry.TiesDoNotCommute`, `Registry.MergeCommutesIff`, `Registry.RunsConvergeIff`).
- Equal member digests do not give equal censuses, because the census also looks at local freshness
  (`Gossip.DigestIsNotCensus`, `Gossip.SameDigestSameCensusIff`).
- An accusation at the largest 64-bit incarnation cannot be refuted
  (`Refutation.OneEntrySilences`, `Refutation.RefutationBeatsIff`).
- A refutation is documented to override the suspicion everywhere. A restarted node that answers a stale accusation
  stays below what it has not been told of (`Refutation.RestartFallsShort`, `Refutation.RefutationWins`).
- A lookup run by a node with a poor table can put that node itself in the last place, where another belongs; no
  other place is ever wrong (`LastPlace.AskerStandsLast`, `Reach.LookupIsExact`).
- Governance chains are called free of forks; two can fork
  (`Forks.GovernanceForks`, `Forks.ChainsAgree`, `Forks.ForkBeyondTolerance`).
- Passing the tags is called equivalent to being a valid combination, which needs tags that span the piece
  (`TagStrength.LongPiecesAreNotDecided`, `TagStrength.AcceptedIsHonestIff`).

## Model

| member | source | states |
|---|---|---|
| `Galois.BuildTables` | crates/erasure/src/gf.rs:9-30 | the builder fills both tables with the powers and logarithms of x; no index leaves them and no entry is overwritten |
| `Galois.XPowDistinct` | crates/erasure/src/gf.rs:12-22 | x has order 255: the 255 powers are pairwise different |
| `Galois.LogInRange` | crates/erasure/src/gf.rs:42-55 | every non-zero byte has a logarithm below 255 that the exponential table takes back |
| `Galois.MulIsPolyMul` | crates/erasure/src/gf.rs:42-48 | table multiplication is shift-and-add polynomial multiplication modulo 0x11D, for all bytes |
| `Galois.MulAssoc` | crates/erasure/src/gf.rs:42-48 | multiplication is associative |
| `Galois.MulComm` | crates/erasure/src/gf.rs:42-48 | multiplication is commutative |
| `Galois.MulAdd` | crates/erasure/src/gf.rs:37-48 | multiplication distributes over XOR |
| `Galois.MulNonZero` | crates/erasure/src/gf.rs:42-48 | no zero divisors |
| `Galois.MulInv` | crates/erasure/src/gf.rs:52-55 | `inv` is the multiplicative inverse of every non-zero byte |
| `RowOps.MulTable` | crates/erasure/src/gf.rs:59-71 | the 256-entry table of a coefficient holds its product with every byte |
| `RowOps.AxpyInPlace` | crates/erasure/src/gf.rs:74-89 | the in-place row operation, with its shortcuts for 0 and 1, adds the multiple byte by byte |
| `RowOps.ScaleInPlace` | crates/erasure/src/gf.rs:92-100 | in-place scaling multiplies every byte |
| `RowOps.DotProduct` | crates/erasure/src/gf.rs:103-110 | the loop computes the inner product |
| `Coder.CheckSources` | crates/erasure/src/lib.rs:59-67 | accepts exactly non-empty sets of equally long non-empty pieces |
| `Coder.Encode` | crates/erasure/src/lib.rs:70-89 | fails exactly on bad sources; otherwise the vector is the first draw that is not all zero, and the data the combination of the sources by it |
| `Coder.EncodeMany` | crates/erasure/src/lib.rs:91-98 | one such piece per stream of draws; asked for none, no error even on bad sources |
| `Coder.Recode` | crates/erasure/src/lib.rs:102-136 | error cases; nothing exactly while no draw gives a useful vector; otherwise vector and data combine the held ones by the first draw that does, and from honest pieces an honest piece, for whatever sources they were honest about |
| `Coder.UsefulDrawIff` | crates/erasure/src/lib.rs:117-130 | some draw gives a useful vector if and only if some held vector is not zero |
| `Coder.MadeHonest` | crates/erasure/src/lib.rs:70-136 | encodings, recodings and recodings of recodings to any depth are honest |
| `Decoder.RunSound` | crates/erasure/src/lib.rs:168-208 | after any pieces in any order the rows are reduced, honest if the pieces were, and span exactly the offered vectors |
| `Decoder.RankRises` | crates/erasure/src/lib.rs:168-208 | the rank rises by one exactly when the new vector is outside the span of the earlier ones |
| `Decoder.RankIsDimension` | crates/erasure/src/lib.rs:159-165 | the rank is at most k and no independent set in the offered span is larger |
| `Decoder.CompleteIff` | crates/erasure/src/lib.rs:159-208 | complete exactly when k independent vectors are among those offered |
| `Decoder.DecodeExact` | crates/erasure/src/lib.rs:211-225 | a complete decoder fed honest pieces yields exactly the sources, in order |
| `Decoder.EndToEnd` | crates/erasure/src/lib.rs:70-225 | whatever mix of encodings and recodings was fed, a complete decoder yields the sources |
| `Decoder.IndependentDecodes` | crates/erasure/src/lib.rs:159-225 | as many honest pieces as sources with independent vectors complete the decoder and decode to the sources |
| `Decoder.RoundTrip` | crates/erasure/src/lib.rs:70-225 | encode once per source, feed a fresh decoder, decode: if the first useful draws are independent, the result is the sources |
| `Decoder.Eliminate` | crates/erasure/src/lib.rs:178-188 | reducing in place row after row gives the residual over the current rows |
| `Decoder.Decoder.AddPiece` | crates/erasure/src/lib.rs:168-208 | shape error without effect; otherwise true exactly when the vector is outside the span of the earlier offers |
| `Decoder.Decoder.Join` | crates/erasure/src/lib.rs:190-207 | the reduced piece is normalised, cleared from the other rows, and pushed with its pivot |
| `Decoder.Decoder.IsComplete` | crates/erasure/src/lib.rs:163-165 | true exactly when k independent vectors are among those offered |
| `Decoder.Decoder.Decode` | crates/erasure/src/lib.rs:211-225 | Incomplete with the rank, or exactly the sources of any honest run |
| `VTags.HonestPasses` | crates/erasure/src/vtags.rs:65-104 | every honest piece passes whatever the seeds, if and only if the source count fits in 32 bits |
| `VTags.AcceptedClosed` | crates/erasure/src/vtags.rs:92-104 | the accepted pieces are closed under linear combination |
| `VTags.CorruptionPassesIff` | crates/erasure/src/vtags.rs:92-104 | changing one data byte of an accepted piece passes exactly when every tag is zero there |
| `TagStrength.AcceptedIsHonestIff` | crates/erasure/src/vtags.rs:90-104 | acceptance means being a combination of the sources, for every piece, if and only if the eight expanded tags span every vector of the piece length |
| `TagStrength.AcceptedIff` | crates/erasure/src/vtags.rs:90-104 | a piece is accepted exactly when the tags are of scheme 1, it has the shape of the sources, and its error is orthogonal to every expanded tag |
| `TagStrength.LongPiecesAreNotDecided` | crates/erasure/src/vtags.rs:90-104 | for pieces longer than eight bytes some accepted piece is not a combination of the sources, whatever the seeds |
| `Search.SearchCorrect` | crates/com/src/registry.rs:143-146 | binary search on a partitioned sequence finds an equal element or the one insertion point |
| `Quorums.GenesisCorrect` | crates/com/src/attestation.rs:112-122 | genesis is strictly sorted with exactly the listed members, and its threshold is the one asked for, one below that, all members above it |
| `Quorums.IsMemberCorrect` | crates/com/src/attestation.rs:124-126 | the binary search decides membership |
| `Quorums.CountSigners` | crates/com/src/attestation.rs:167-180 | the loop counts the distinct members with a valid signature, ignoring duplicates, strangers and junk |
| `Quorums.AdvanceCorrect` | crates/com/src/attestation.rs:185-205 | every step keeps the quorum well formed, raises the sequence number by one, and changes members and threshold as its action says: the asked threshold as far as the members allow, a removal lowering it only to the members left, an addition leaving it |
| `Sequencer.CheckAuthorizes` | crates/com/src/sequencer.rs:142-146 | authorised exactly when owner-signed, intersection-sized and signed by a threshold of distinct members |
| `Sequencer.SequencerMember.Sign` | crates/com/src/sequencer.rs:246-258 | signs exactly what the owner authorised, unless another write holds that account and nonce; re-signing the same write is allowed |
| `Sequencer.RunNonEquivocating` | crates/com/src/sequencer.rs:225-258 | in every run an honest member's ordering signatures are exactly the writes in its table, both ways |
| `Sequencer.SignsIff` | crates/com/src/sequencer.rs:214-258 | after any run an honest member that is offered a write has signed it exactly if the owner authorised it and the member signed no other write of that account and nonce |
| `Sequencer.NoFork` | crates/com/src/sequencer.rs:19-24 | in every run with at most 2k-n-1 equivocating members no two different writes at one slot are both authorised |
| `Sequencer.AccountSequence.Append` | crates/com/src/sequencer.rs:176-186 | appends exactly the authorised commit at the account's next nonce, and keeps the sequence verifying |
| `Sequencer.AccountSequence.Verify` | crates/com/src/sequencer.rs:191-195 | true exactly when every commit extends the sequence at its position |
| `Sequencer.SequencesAgree` | crates/com/src/sequencer.rs:155-195 | two sequences of one account that verify agree write for write on their common prefix |
| `Sequencer.ForkBeyondTolerance` | crates/com/src/sequencer.rs:306-351 | with one equivocator more than tolerated, whichever they are, some run forks any given slot |
| `Committee.CommitteeIsSafe` | crates/noded/src/epoch_committee.rs:75-92 | every committee is a well-formed, intersection-sized quorum of at most four eligible ids; none exactly on an empty census |
| `Committee.CommitteeIsLowest` | crates/noded/src/epoch_committee.rs:71-92 | the committee is the min(4, census) lowest-ranked ids, with threshold three of four, or all of fewer |
| `Committee.CommitteeIsAgreed` | crates/noded/src/epoch_committee.rs:75-92 | the same census in any order gives the same committee |
| `Chains.CheckApply` | crates/com/src/attestation.rs:225-235 | an approval applies exactly when it carries the next sequence number and a threshold signed it |
| `Chains.QuorumChain.Fold` | crates/com/src/attestation.rs:274-280 | the fold yields the final quorum, or nothing as soon as one approval does not extend the chain |
| `Chains.QuorumChain.Append` | crates/com/src/attestation.rs:283-291 | appends exactly when the extended chain folds |
| `Chains.QuorumChain.AuthorizedStatements` | crates/com/src/attestation.rs:295-308 | collects the statements of the longest folding prefix |
| `Chains.QuorumChain.IsAuthorized` | crates/com/src/attestation.rs:312-314 | a statement is authorised exactly when the folding prefix states it |
| `Chains.FoldSound` | crates/com/src/attestation.rs:267-280 | a folding chain ends in a well-formed quorum whose sequence number is genesis plus the approvals |
| `Chains.ApprovalAt` | crates/com/src/attestation.rs:225-235 | every approval in a folding chain was signed by a threshold of the members then in office and carries its own position |
| `Chains.NoReplay` | crates/com/src/attestation.rs:225-291 | no approval applies twice: it cannot be appended again nor sit in the chain twice |
| `Chains.InOfficeIff` | crates/com/src/attestation.rs:185-235 | over a folding chain, in office is exactly who was added and not removed since, or was there at genesis and never removed |
| `Chains.ThresholdInOffice` | crates/com/src/attestation.rs:185-235 | over a folding chain, the threshold is the one set last, as far as the members of its time allowed, or genesis'; lowered since only to what a removal left |
| `Forks.ChainsAgree` | crates/com/src/gov.rs:116-121 | two chains that fold from one genesis agree proposal for proposal on their common prefix, if wherever they approve differently the quorum then in office is intersection-sized and at most its tolerance signed both |
| `Forks.HonestChainsAgree` | crates/com/src/gov.rs:116-121 | the same over what was signed: if whoever is not Byzantine signs one proposal per sequence number, chains of issued signatures agree, provided wherever they approve differently the quorum in office is intersection-sized and holds at most its tolerance of Byzantine members |
| `Forks.QuorumsAgree` | crates/com/src/gov.rs:154-160 | and have the same quorum in office all along |
| `Forks.SharedSigners` | crates/com/src/attestation.rs:128-150 | two approvals of one position share at least 2k-n signers |
| `Forks.ForkBeyondTolerance` | crates/com/src/gov.rs:116-121 | and any one member more than tolerated, or none where the quorum is not intersection-sized, let any two proposals both extend any folding chain |
| `Forks.GovernanceForks` | crates/com/src/gov.rs:116-121 | two governors with threshold one, each honest: two folding chains that differ at the first position |
| `Chains.StatementsAre` | crates/com/src/attestation.rs:295-308 | the collected statements are exactly the Statement payloads |
| `Chains.StatementsInOrder` | crates/com/src/attestation.rs:295-308 | and they come in the order of the chain |
| `Chains.QuorumChain.DerivedRegistry` | crates/com/src/gov.rs:181-213 | the replay loop, for programs and for configuration alike |
| `Chains.QuorumChain.ProgramRegistry` | crates/com/src/gov.rs:181-193 | the replay of the SetProgram approvals |
| `Chains.QuorumChain.ConfigRegistry` | crates/com/src/gov.rs:201-213 | the replay of the SetConfig approvals |
| `Chains.SetEntryCorrect` | crates/com/src/registry.rs:311-331 | a setting with a fresh version goes in and changes its own name only |
| `Chains.SetEntryIff` | crates/com/src/registry.rs:311-331 | a setting is refused exactly when the name is held at that version or a later one |
| `Chains.DeriveIsLastSet` | crates/com/src/gov.rs:181-213 | a derived registry holds for every name exactly what the chain set last, at that position |
| `Chains.ProgramIs` | crates/com/src/gov.rs:181-193 | a program resolves to a cid exactly when a SetProgram of that name and cid was the last one of the name, versioned by its position |
| `Chains.ConfigIs` | crates/com/src/gov.rs:201-213 | and a configuration key to a value likewise |
| `SortedVec.LookupCorrect` | crates/com/src/registry.rs:143-156 | lookup finds exactly the element that carries the key |
| `SortedVec.PutCorrect` | crates/com/src/registry.rs:162-185 | insert-or-replace keeps the vector strictly sorted and changes one key |
| `Registry.RegistryState.MergeEntries` | crates/com/src/registry.rs:215-230 | the in-place loop over rows is the row-by-row merge |
| `Registry.ApplyIff` | crates/com/src/registry.rs:162-185 | a submission is refused exactly for a bad signature, or else a version not above the held one; otherwise its key resolves to it and no other key changes |
| `Registry.RowsInOrder` | crates/com/src/registry.rs:143-146 | rows are kept by owner, then by name |
| `Names.TextLess` | crates/com/src/registry.rs:143-146 | a name is before another exactly when it is a proper prefix or smaller at the first differing character |
| `Registry.MergeAllCorrect` | crates/com/src/registry.rs:193-230 | merging any rows is, key by key, the newer of held and newest signed row |
| `Registry.RunIsLastWriterWins` | crates/com/src/registry.rs:162-230 | after any mix of submissions and merges the vector is sorted and signed, and a key resolves to the first of the newest signed rows ever offered for it, or to nothing exactly when none was |
| `Registry.VersionsNeverFall` | crates/com/src/registry.rs:162-230 | no operation lowers a version or drops a key |
| `Registry.MergeIdempotent` | crates/com/src/registry.rs:193-210 | merging a state with itself changes nothing |
| `Registry.MergeAssociative` | crates/com/src/registry.rs:193-210 | merge is associative |
| `Registry.MergeCommutesIff` | crates/com/src/registry.rs:193-210 | merge commutes if and only if no key is held at one version with two different rows |
| `Registry.TiesDoNotCommute` | crates/com/src/registry.rs:193-210 | a concrete pair of states for which merge does not commute |
| `Registry.RunsConvergeIff` | crates/com/src/registry.rs:187-192 | replicas offered the same rows, in any order, grouping and repetition, end in equal states if and only if no key has two different newest signed rows |
| `Swim.Membership.MergeOneEntry` | crates/membership/src/lib.rs:1515-1552 | one entry in place: liveness and freshness merge independently; reports a change exactly when the member is new or its incarnation or state moved |
| `Swim.Membership.MergeMembers` | crates/membership/src/lib.rs:1105-1146 | the loop over entries, the bumped incarnation and the re-asserted own record |
| `Swim.Membership.PromoteSuspects` | crates/membership/src/lib.rs:715-734 | exactly the members Suspect for the timeout become Dead |
| `Swim.Membership.EpidemicPush` | crates/membership/src/lib.rs:504-534 | sends the queued members' entries and steps every counter down, retiring those at zero |
| `Gossip.JoinAbove` | crates/membership/src/lib.rs:1515-1552 | everything merged is below the result in (incarnation, rank) and in freshness |
| `Gossip.JoinAttained` | crates/membership/src/lib.rs:1515-1552 | the result's liveness, and its freshness with its address, each come from what was held or merged |
| `Gossip.AddressIsFreshest` | crates/membership/src/lib.rs:1530-1533 | after any merges the address held is one that came with the freshest evidence there was |
| `Gossip.LearnedAsSent` | crates/membership/src/lib.rs:1500-1552 | a member learned from another node's entry has its address, freshness, incarnation and state |
| `Convergence.GossipConverges` | crates/membership/src/lib.rs:1105-1146 | nodes that agree about a third member and are delivered the same entries about it, each in its own batches, times, order and repetitions, agree afterwards |
| `Convergence.SyncAgrees` | crates/membership/src/lib.rs:560-570 | after one two-way exchange two nodes agree about every third member, whatever they held before |
| `Gossip.MembersDigest` | crates/membership/src/lib.rs:461-477 | the hashed rows are one per member not Dead, sorted |
| `Gossip.DigestsAgree` | crates/membership/src/lib.rs:461-477 | digests are equal exactly when both maps hold the same members not Dead at the same incarnations and states |
| `Convergence.ConvergedRows` | crates/membership/src/lib.rs:461-477 | converged nodes hash the same digest row for every third member |
| `Gossip.SameDigestSameCensusIff` | crates/membership/src/lib.rs:1211-1233 | equal digests give equal censuses if and only if both nodes find the same listed members fresh |
| `Gossip.DigestIsNotCensus` | crates/membership/src/lib.rs:457-460 | two nodes with equal digests and different censuses |
| `Suspicion.ClockIffSuspect` | crates/membership/src/lib.rs:180-187 | in every run a member has a suspicion clock exactly while it is Suspect |
| `Suspicion.ClockIsStart` | crates/membership/src/lib.rs:180-187 | the clock reads the time of an event since which the member has been Suspect in every state |
| `Suspicion.SuspicionKeepsClock` | crates/membership/src/lib.rs:180-187 | being suspected again, at whatever incarnation, does not restart the clock |
| `Suspicion.DeadOnlyAfterTimeout` | crates/membership/src/lib.rs:699-746 | a node itself declares Dead only by promotion and only what it held Suspect, unbroken, for at least the timeout |
| `Suspicion.DeadIffTimeout` | crates/membership/src/lib.rs:715-746 | after any run, promotion declares a Suspect member Dead if and only if the timeout has passed since the event from which on it was held Suspect |
| `Suspicion.LivenessNeverFalls` | crates/membership/src/lib.rs:929-947 | no step lowers the (incarnation, state) held for another member, except a probe answer clearing this node's suspicion; Dead stays Dead until a higher incarnation |
| `Suspicion.LocalSteps` | crates/membership/src/lib.rs:699-746 | exactly what a node does to another record on its own: suspect an Alive one, clear its suspicion on a probe answer, promote an overdue one, note evidence and address, learn on first-hand evidence at incarnation zero, forget a silent one; never a change of incarnation |
| `Suspicion.OwnRecordStays` | crates/membership/src/lib.rs:1070-1090 | a node never loses its own record, and a push or a refresh makes it Alive, current and addressed |
| `Suspicion.EvidenceLasts` | crates/membership/src/lib.rs:1170-1201 | whoever a node had first-hand evidence of stays known, with evidence at least that recent, until a pruning that long after, and in the census unless held Dead |
| `Suspicion.AnswerSetsAddress` | crates/membership/src/lib.rs:929-947 | where a member answered is its address until something fresher comes |
| `Suspicion.ChangesAreQueued` | crates/membership/src/lib.rs:1105-1146 | on the maps before and after any step but a push: another member that is new or moved in incarnation or state is queued for six pushes, and nothing else is, but for a suspicion the node takes back itself |
| `Suspicion.AccusedIsQueued` | crates/membership/src/lib.rs:1112-1146 | the own record is queued for six pushes exactly when it was accused |
| `Suspicion.LearnedIsSent` | crates/membership/src/lib.rs:504-534 | whatever a merge newly learned or moved goes out with the next six pushes and none after, while nothing else changes |
| `Suspicion.RunCounting` | crates/membership/src/lib.rs:504-534 | in every run every gossip counter is between one and six |
| `Suspicion.CountsDown` | crates/membership/src/lib.rs:504-534 | while nothing changes, every push steps a queued member's counter down by one and retires it at zero |
| `Suspicion.SentExactly` | crates/membership/src/lib.rs:504-534 | while nothing changes, a member queued with count c, the node itself included, is sent with its record as it stands by the next c pushes and by none after |
| `Suspicion.SixPushesDrain` | crates/membership/src/lib.rs:504-534 | after the last change, six pushes empty the queue, after any run |
| `Refutation.NobodyIsAhead` | crates/membership/src/lib.rs:1105-1146 | in every run of honest nodes, with restarts, no record and no entry in flight about a node exceeds the highest incarnation it ever had |
| `Refutation.PeakIsNow` | crates/membership/src/lib.rs:241-244 | which is its present one unless it restarted |
| `Refutation.RefutationWins` | crates/membership/src/lib.rs:1103-1146 | after any run in which a node merges an accusation, its new record turns another's record Alive if and only if that was Alive or at a lower incarnation; if the node never restarted or merged that incarnation, always but for one not Alive at the largest |
| `Refutation.RefutationOutlasts` | crates/membership/src/lib.rs:1103-1146 | the same for the entries in flight: exactly which ones override the new record, and with the same proviso none but one not Alive at the largest incarnation |
| `Refutation.ToldRefutes` | crates/membership/src/lib.rs:1904-1939 | a node, restarted or not, that is sent the record another holds of it turns that record Alive, if and only if it is below the largest incarnation |
| `Refutation.RestartFallsShort` | crates/membership/src/lib.rs:284 | a run of two nodes in which a restarted node refutes a stale accusation and the other still holds it Suspect |
| `Refutation.RefutationBeatsIff` | crates/membership/src/lib.rs:1112-1126 | whoever sent the accusations, the refutation turns a record up to the largest incarnation merged or held Alive if and only if the record is below the largest 64-bit number |
| `Refutation.OneAccusation` | crates/membership/src/lib.rs:1115-1126 | one accusation raises the incarnation to one above the larger of the two, saturating |
| `Refutation.OneEntrySilences` | crates/membership/src/lib.rs:1115-1123 | one accusing entry at the largest 64-bit incarnation, to any node: its refutation loses to that very entry |
| `Subscription.SubscriptionLedger.Purchase` | crates/economy-egress/src/subscription.rs:170-191 | a purchase queues one grant of its floor-priced bytes that expires a window later, or nothing when they are zero; other accounts are untouched |
| `Entitlement.PriceIsFloorIff` | crates/economy-egress/src/subscription.rs:178-183 | a purchase never grants an unpaid byte, and grants every paid one if and only if the floor price fits in 64 bits |
| `Entitlement.PriceIsCut` | crates/economy-egress/src/subscription.rs:178-183 | a payment whose floor price is 2^64 bytes buys nothing |
| `Subscription.SubscriptionLedger.RestoreSeedingEligibility` | crates/economy-egress/src/subscription.rs:156-161 | the loop over a snapshot's rows, account by account |
| `Entitlement.RestoreIsLatest` | crates/economy-egress/src/subscription.rs:154-161 | the latest of the held epoch and the account's rows wins, so a stale row never brings a seeding forward |
| `Subscription.SubscriptionLedger.ExpireFor` | crates/economy-egress/src/subscription.rs:196-205 | drops the expired grants at the front of one account |
| `Subscription.SubscriptionLedger.Allocate` | crates/economy-egress/src/subscription.rs:209-251 | expire, seed if due, consume from the front; a seeding puts the next one off by one window; other accounts are untouched |
| `Entitlement.ExpireCorrect` | crates/economy-egress/src/subscription.rs:196-205 | expiry drops nothing live, and on an ordered queue everything that is not |
| `Entitlement.SpendExact` | crates/economy-egress/src/subscription.rs:209-251 | on an ordered queue a demand is served exactly min(bytes, live entitlement plus a seeding now due) |
| `Entitlement.SeedingRenews` | crates/economy-egress/src/subscription.rs:213-234 | in every run a demand is served from what is live and one allowance more, if and only if no seeded demand lies less than a window back and no restored record puts it off, stated on the events |
| `Entitlement.ZeroWindowIsOne` | crates/economy-egress/src/subscription.rs:218-222 | a seeding window of zero acts as one epoch |
| `Entitlement.ExactIff` | crates/economy-egress/src/subscription.rs:193-251 | exact for every demand if and only if no grant with bytes left has expired behind a live one |
| `Entitlement.ShorterWindowSpendsExpired` | crates/economy-egress/src/subscription.rs:193-205 | two purchases, the second under a shorter window, after which an expired grant is spent |
| `Entitlement.OldestFirstIsOptimal` | crates/economy-egress/src/subscription.rs:170-251 | in every run oldest-first has served at least as much as any rival who spends the same expiring grants in any legal way; the books balance |
| `Entitlement.LifetimeBounds` | crates/economy-egress/src/subscription.rs:156-251 | by epoch E at most floor(E/W)+1 seedings, across restores, and never more served than bought and seeded |
| `Cheques.ChequeService.OnBytesReceived` | crates/noded/src/cheque.rs:326-355 | acknowledged plus pending grows by exactly the bytes with less than four MiB pending, other providers are untouched, the paid meter alone counts them for a consumer that paid and the free meter alone otherwise, and a valid cheque for the new total comes out exactly when the band is crossed |
| `Cheques.ChequeBook.RecordCheque` | crates/cheque/src/lib.rs:178-189 | accepts exactly a cheque for this server, signed by its consumer over all of it, strictly above the consumer's last |
| `ChequeNet.RunAcknowledges` | crates/noded/src/cheque.rs:326-355 | in every run, with restarts, acknowledged plus pending is what was fetched from that provider since the consumer last restarted, with less than a band pending |
| `ChequeNet.RunMeters` | crates/noded/src/cheque.rs:326-340 | in every run the paid meter is what was fetched from all providers while the consumer had paid, and the free meter what was fetched while it had not, since the last restart |
| `ChequeNet.FetchedSplits` | crates/noded/src/cheque.rs:333-337 | which together are everything fetched since |
| `ChequeNet.RunSound` | crates/cheque/src/lib.rs:132-189 | in every run every cheque verifies, a newest one of each acknowledged pair exists, and books hold only real cheques for their own server |
| `ChequeNet.ChequesAreTruthful` | crates/cheque/src/lib.rs:132-143 | in every run no cheque acknowledges more than its consumer ever fetched; nor more than it acknowledges now, unless it restarted |
| `ChequeNet.SupersedesIff` | crates/cheque/src/lib.rs:49-51 | a new cheque is above an earlier one of its pair if and only if more was fetched since the last restart than that one acknowledged; without a restart always |
| `ChequeNet.BookNeverExceeds` | crates/cheque/src/lib.rs:178-189 | in every run, whoever restarted, a book never exceeds what was ever served; nor what the consumer acknowledges, unless that consumer restarted |
| `ChequeNet.NewestExists` | crates/cheque/src/lib.rs:132-143 | once anything is acknowledged there is a cheque for exactly that |
| `ChequeNet.BookCatchesUpIff` | crates/cheque/src/lib.rs:178-189 | delivery of a newest cheque alone makes the book exact if and only if it was not above the consumer's total before, which it never is without a restart; and at most a band short of what was served since |
| `ChequeNet.RestartFallsBehind` | crates/noded/src/cheque.rs:117-128 | two bands fetched and delivered, a restart, one band fetched: the book holds two, the consumer's total is one, and delivering its newest cheque changes nothing |
| `ChequeNet.RecordAllIsBest` | crates/cheque/src/lib.rs:167-189 | a rebuilt book holds for each consumer the largest valid cheque |
| `ChequeNet.RecordedIff` | crates/cheque/src/lib.rs:167-189 | a consumer is on a rebuilt book exactly when one of its cheques was valid |
| `ChequeNet.BooksAgree` | crates/cheque/src/lib.rs:167-189 | books rebuilt from the same cheques in any order and with repetition list the same consumers and totals, and are equal when no consumer signed one total twice |
| `Settlement.AllocateQuota` | crates/cheque/src/lib.rs:217-228 | the settlement loop with its running remainder |
| `Settlement.SettlementCovers` | crates/cheque/src/lib.rs:217-228 | for distinct servers, paid plus subsidy is each cumulative, and only cheques are settled |
| `Settlement.SettlementConserves` | crates/cheque/src/lib.rs:217-228 | total paid is min(quota, total owed) |
| `Settlement.SettlementIsFirstCome` | crates/cheque/src/lib.rs:217-228 | a cheque is paid anything only if every one earlier by timestamp, then by server id, is paid in full |
| `Settlement.SettlementIsAgreed` | crates/cheque/src/lib.rs:217-228 | the result does not depend on the order of the cheques |
| `Hlc.PackRoundTrip` | crates/core/src/hlc.rs:22-36 | packing 48 bits of milliseconds over 16 bits of counter loses nothing |
| `Hlc.PackOrder` | crates/core/src/hlc.rs:22-36 | packed timestamps are ordered by milliseconds, then by counter |
| `Hlc.CandidateBounds` | crates/core/src/hlc.rs:70-110 | both operations advance the clock, stay under the drift ceiling, and a merge passes the remote if that is at most 500 ms ahead of the wall, and wall plus 500 ms otherwise |
| `Hlc.Clock.Now` | crates/core/src/hlc.rs:66-82 | strictly above the old value, at least the wall time, and no larger than one of the two asks |
| `Hlc.Clock.MergeRemote` | crates/core/src/hlc.rs:84-110 | above the old value, above the remote or above wall plus 500 ms if that is less, at least the wall time, and no larger than one of these asks; with the exact skew and clamp it reports |
| `Hlc.ClockSafe` | crates/core/src/hlc.rs:70-110 | in every interleaving of threads returned timestamps increase in swap order, every merge passes its remote or wall plus 500 ms if that is less, and after m events with wall time at most W the clock is at most ((W+501)<<16)+m |
| `Hlc.CallsReturn` | crates/core/src/hlc.rs:70-110 | a started call ends only by returning its swapped value; a failed swap tries again |
| `Keys.LexIsValue` | crates/dht/src/table.rs:50-52 | comparing distances as bytes compares them as numbers |
| `Keys.DistanceIsMetric` | crates/dht/src/table.rs:27-33 | distance is zero only to oneself, symmetric, and differs from one target to different keys |
| `Keys.DistanceVia` | crates/dht/src/table.rs:27-33 | the distance of two keys is the exclusive-or of their distances to any target |
| `Keys.FindBucket` | crates/dht/src/table.rs:38-47 | the byte loop with leading zeros finds the highest bit of the numeric distance |
| `Keys.BucketIndexCorrect` | crates/dht/src/table.rs:35-47 | a key is in bucket i exactly when 2^i <= distance < 2^(i+1) |
| `Routing.InsertKeepsFiled` | crates/dht/src/table.rs:72-87 | insertion keeps right buckets, unique ids and at most twenty per bucket |
| `Routing.InsertedMembers` | crates/dht/src/table.rs:72-87 | insertion displaces nobody and takes exactly when there is room, with the new address |
| `Routing.TouchOrder` | crates/dht/src/table.rs:69-87 | whoever is taken in stands last and the others keep their order |
| `Routing.RemovedMembers` | crates/dht/src/table.rs:92-96 | removal takes out exactly that id |
| `Routing.AllDistinct` | crates/dht/src/table.rs:72-104 | ids are unique over the whole table |
| `Routing.RoutingTable.Insert` | crates/dht/src/table.rs:72-87 | the in-place edit of the bucket vector |
| `Routing.RoutingTable.Remove` | crates/dht/src/table.rs:92-96 | the in-place removal |
| `Routing.RoutingTable.Closest` | crates/dht/src/table.rs:99-104 | exactly the nearest contacts of the table, nearest first |
| `Lookup.DhtNode.FindNearest` | crates/dht/src/node.rs:334-367 | terminates whatever the network answers; asks one to three contacts a round; returns the twenty nearest of exactly the contacts reached, all of them asked; the table has learned exactly the answers |
| `Reach.LookupIsExact` | crates/dht/src/node.rs:334-367 | where everyone but the asker has a table whose buckets are full or know everyone who belongs in them, and the asker answers any real contacts or none, a lookup from any start ends at exactly the twenty nearest of the whole network if and only if the asker is not in the last place without being one of them, every other place being right even then; a self-lookup always exactly there |
| `Reach.StockedAskerIsExact` | crates/dht/src/node.rs:334-367 | and an asker whose own table is such a one gets exactly them for every target |
| `Reach.LookupIn` | crates/dht/src/node.rs:334-380 | so the lookup method run by any node that knows someone: exact but for itself in the last place, and exact outright when it looks itself up or its table is stocked |
| `LastPlace.AskerStandsLast` | crates/dht/src/node.rs:361-365 | a network of forty contacts and a lookup that ends with the asker in the last place, where the twentieth nearest belongs |
| `Reach.MeetingStocks` | crates/dht/src/table.rs:72-87 | a table that met everyone once, in any order, is such a table |
| `Lookup.DhtNode.LearnAll` | crates/dht/src/node.rs:190-199 | contacts are folded in, except oneself and live tombstones |
| `Lookup.LearnMembers` | crates/dht/src/node.rs:190-199 | a taught contact that is not oneself and not under a live tombstone is held as taught last, or its bucket is full; every other id is left as it was |
| `Lookup.DhtNode.NoteFailure` | crates/dht/src/node.rs:76-94 | counts failures of non-seeds and evicts with a tombstone at the third |
| `Lookup.RunFiled` | crates/dht/src/node.rs:76-199 | in every run the table keeps its invariants |
| `Lookup.EvictedIff` | crates/dht/src/node.rs:66-94 | after any run a held contact that is no seed leaves the table exactly at its third failure since it last answered |
| `Lookup.SeedsStay` | crates/dht/src/node.rs:72-82 | a seed that is held stays held through every run |
| `Lookup.TaughtAgain` | crates/dht/src/node.rs:96-199 | after any run, ten minutes after its last failure a taught contact is held again, or its bucket is full |
| `Lookup.EvictedStaysOut` | crates/dht/src/node.rs:98-199 | and for ten minutes nothing other nodes teach brings it back |
| `Lookup.ThreeFailuresEvict` | crates/dht/src/node.rs:66-199 | after any run, three failures of a non-seed with no answer between put it out at one of them, and for ten minutes nothing brings it back |

## Left out

- Transport, asynchronous tasks and locks: handlers are atomic steps; the clock's compare-and-swap loops are the exception, interleaved thread by thread.
- Ed25519, BLAKE3 and the encodings: ideal signatures, injective encodings; the tag expander and the committee's rendezvous hash are parameters.
- Probabilistic claims: the chance that a random vector is independent, and the forgery bound of the tags.
- `target_pieces`, and the gates `reciprocity_admits`, `pin_admits` and `should_serve`: single comparisons.
- `total_earned`, `available` and `balances`: sums over state that is modelled.
- Decoder.Decoder.Join: rows are values that are replaced; that the source reuses the row buffers in place is not captured.
- Hlc.Clock.Now: the sequential class has no interference; interference is in `Hlc.ClockSafe`.
- ChequeNet.RunMeters: the two meters are unbounded; wrap-around of the source's 64-bit counters is not modelled.
- ChequeNet.RunAcknowledges: totals stay in 64 bits; beyond that the issuer saturates.
- Reach.LookupIsExact: contacts other than the asker that do not answer, or whose tables miss somebody in a bucket with room, are outside its premise.
- Convergence.GossipConverges: for runs of merges, refreshes and pushes; a node's own probes may move its record of a member in between.
- Suspicion.DeadOnlyAfterTimeout: promotion of all overdue members is one step, and each step reads the clock once.
- Lookup.ThreeFailuresEvict: the clock does not run backwards during the ten minutes.
- `get` and the record store: the same loop as the lookup, with a maximum per publisher.
- Hand-over from one epoch committee to the next: fork freedom is for one quorum.
- HyParView views, RTT statistics, isolation recovery and the endpoint watchdog.
- The membership steps for a failed probe, a probe answer, an inbound message and pruning: as functions on values, not in place.
- The verification board, the WASM runtime and capabilities, persistence, token fold, settlement store and rewards, dashboards and control.
