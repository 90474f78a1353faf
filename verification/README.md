# sn_routing in Dafny

A model of the state each node of an sn_routing network keeps to know which sections exist, who is in
its own section, who governs it, and whether other nodes agree, with proofs about it. Every statement
holds for all inputs, all runs or all interleavings of the model.

* **Names and prefixes** (`Prefixes`): names are bit strings of 256 bits, a prefix stands for the names
  that start with it, and "covered by" is both the recursive test and its meaning over names.
* **Network knowledge** (`PrefixMaps`, `PrefixMapLaws`, `NetworkModel`, `ElderCounts`): the map of other
  sections keyed by prefix, merging and updating it, and the estimate of the network's size.
* **Our section** (`SectionPeersModel`, `SectionModel`, `SectionLaws`, `ElderSelection`, `Promotion`): members
  and their transitions, merging sections, the choice of elders, promotion and splits.
* **Agreements on elders** (`SplitBarrierModel`, `OurElders`, `OurEldersLaws`, `OurEldersAhead`, `OurEldersRuns`,
  `ForkFreeRuns`, `OurEldersGaps`): the barrier that pairs the two sides of a split, what an agreement does to
  section and network and how much of it can be told beforehand, and what runs of agreements lead to.
* **Distributed key generation** (`DkgFailures`, `DkgSession`, `DkgSessionLaws`, `DkgSessionAnswers`,
  `BacklogModel`, `DkgVoterModel`,
  `DkgVoterLaws`, `DkgLifetimes`, `Quorum`): failure reports, sessions with their nested broadcasts, the
  backlog, the voter and the sessions it owns.
* **Relocation, cache, sending** (`Relocation`, `CacheModel`, `CacheInterleaving`, `Send`): the relocation check,
  the cache alone and under interleaved calls, and the failover loop that sends to a group.

`Wrappers`, `Sequences`, `Sorting`, `Steps`, `Runs` and `Messaging` hold shared vocabulary.

Objects the program updates in place are classes. Their methods are tied to functions on values
(`Insert` to `Inserted`, `Merge` to `Merged`, and so on), and the laws are proved about those functions. A
function without a row below is one of these; the rows of its method and of the lemmas about it state
what it means.

What the proofs take as given:

* The chain of section keys is a parameter, `ChainRules`. `Lawful` says: inserting under a known parent
  adds the key and leaves the last key or makes the new key last; a new key under the last key becomes
  last; a merge unites the keys, is commutative and keeps one of the two last keys.
  `LargerKeyWinsIsLawful` shows that such rules exist.
* Signatures are symbolic: each verifies for exactly the key and message it was made for. Hashes of DKG
  keys and failure reports are injective, and a participant's public key stands for its name.
* A DKG message carries the finite tree of responses its key generator gives, and the clock, timer
  tokens and random choices are parameters.

Where the program and its description differ, the model follows the program:

* The integration tests expect the sections an elder knows to cover the address space; they exempt nodes
  that are not elders. An elder has a gap after a split by two levels at once, after a split whose
  sibling was refused because a section below it is known, and after a demotion and a promotion, since
  the demotion resets the network. `OurEldersGaps` gives the runs, and `ElderCoverageOverRuns` the exact
  condition, in terms of the state before each step. It is about runs in which our last key signs what
  is for our side; which of several forks wins otherwise is up to the chain, and `CoverageOverRuns`
  covers that case with a condition on the prefix that results.
* The count of elders is described as exact when the known prefixes cover the address space. With a
  section known beside one above it, which happens while only half of a neighbour's split is known,
  the estimate falls below the number of elders known. `EstimateIsEnoughIff` gives the exact condition.
* `insert` on failure reports answers that a signer already present was not added. It still replaces an
  empty set of non-participants, so one candidate can make an agreement fail verification.
* The cache promises to remove the oldest item. Items without expiry carry no time, so in a cache
  bounded by capacity alone they tie and the item just set may be the one removed.
* The relocation check is described as a modulus. It is, except for a zero signature shorter than the
  age in bits.
* `process_failure` does not look at `complete` and the reports are emptied when an agreement is handed
  over, so a session may command more than one failure agreement; what is proved is that each is proper.
* `src/network/prefix_map.rs` is not compiled into the crate, which takes the type of the same name from
  sn_messaging. The text in the repository is what is modelled.

## Model

| member | source | states |
|---|---|---|
| `Prefixes.IsCoveredByMeansCovers` | src/network/prefix_map.rs:121-135 | the bit-tree test for "covered by" holds exactly when every name under the prefix is under some member of the set |
| `PrefixMaps.PrefixMap.Insert` | src/network/prefix_map.rs:56-66 | an entry with a known descendant is refused and handed back; otherwise it replaces its predecessor, which is returned, and exactly the ancestors now covered by their descendants go |
| `PrefixMaps.PrefixMap.Prune` | src/network/prefix_map.rs:121-135 | the walk to the root, which tests each ancestor against the already shrunk map, removes exactly the ancestors that are redundant in the map it started from |
| `PrefixMaps.PrefixMap.GetEqualOrAncestor` | src/network/prefix_map.rs:75-88 | the shrinking-prefix loop returns the entry at the prefix or its closest stored ancestor |
| `PrefixMaps.LongerMatchSurvives` | src/network/prefix_map.rs:121-135 | whatever set of covered entries is removed, a name that was matched keeps a match at least as long |
| `PrefixMaps.RemovingRedundantKeepsCoverage` | src/network/prefix_map.rs:121-135 | removing covered entries does not change which prefixes are covered by their descendants |
| `PrefixMapLaws.LongestMatchAfterInsert` | src/network/prefix_map.rs:56-66 | an accepted insert becomes the longest match of exactly the names under it, whatever it prunes |
| `PrefixMapLaws.LookupAfterInsert` | src/network/prefix_map.rs:56-99 | one insert changes the answer of a lookup only for names under the inserted prefix, and for those only if nothing more specific is known |
| `PrefixMapLaws.RefusedIffLongerMatch` | src/network/prefix_map.rs:57-60 | whether an insert is refused can be observed through lookups alone |
| `PrefixMapLaws.PruningIsInvisible` | src/network/prefix_map.rs:50-135 | after every sequence of inserts, every name has the same longest match and the same answer as in a map that never prunes |
| `PrefixMapLaws.MatchesNeverShrink` | src/network/prefix_map.rs:56-66 | no insert loses a name's match or makes it less specific |
| `PrefixMapLaws.InsertKeepsIrreducible` | src/network/prefix_map.rs:50-66 | an insert keeps it that no entry is covered by its own descendants |
| `PrefixMapLaws.ReachableIsIrreducible` | src/network/prefix_map.rs:27-30 | no reachable map stores an entry that its own descendants cover |
| `PrefixMapLaws.WalkFindsLongest` | src/network/prefix_map.rs:73-88 | the walk up finds the longest stored prefix of its argument, and nothing only if there is none |
| `PrefixMapLaws.MatchingIsWalkUp` | src/network/prefix_map.rs:75-99 | looking up a name by filtering for the longest match is walking up from the whole name |
| `SectionPeersModel.SectionPeers.Update` | src/section/section_peers.rs:145-170 | the transition table; the result is true exactly when the rank joined, relocated, left rises |
| `SectionPeersModel.SectionPeers.PruneNotMatching` | src/section/section_peers.rs:173-178 | exactly the members under the prefix stay, unchanged |
| `SectionPeersModel.UpdateRaisesRank` | src/section/section_peers.rs:145-170 | an update goes through exactly when it raises the rank; the joined-to-older-joined transition never fires, because age is a function of the name |
| `SectionPeersModel.RankIsHighestOffered` | src/section/section_peers.rs:153-157 | after any updates every name's rank is the highest ever offered for it |
| `SectionPeersModel.UpdatesConverge` | src/section/section_peers.rs:153-157 | updates in any order and multiplicity lead to the same members when no two entries share name and rank |
| `SectionModel.Section.New` | src/section/mod.rs:123-140 | a section is created exactly when its authority is signed with the last key of the chain, and starts without members |
| `SectionModel.Section.UpdateMember` | src/section/mod.rs:250-257 | an update that does not verify changes nothing; the result is true exactly when a verified update raises the rank |
| `SectionModel.Section.Merge` | src/section/mod.rs:181-206 | the whole new state of a merge, or no change at all when the other section is rejected |
| `SectionModel.Section.UpdateElders` | src/section/mod.rs:209-247 | the whole new state of an agreement on elders, or no change at all when it is rejected |
| `SectionLaws.MergeKeepsWellFormed` | src/section/mod.rs:181-206 | a merge leaves the authority signed by the last key, the members signed by keys of the chain and under the prefix |
| `SectionLaws.UpdateEldersKeepsWellFormed` | src/section/mod.rs:209-247 | so does an update of the elders, and the prefix only ever gets longer |
| `SectionLaws.MemberUpdateKeepsWellFormedIff` | src/section/mod.rs:250-257 | a member update, which does not look at the prefix, keeps this exactly when the name is under the prefix or the update does not verify |
| `SectionLaws.RunsKeepWellFormed` | src/section/mod.rs:181-257 | over every run of merges, elder updates and member updates the authority stays signed by the last key and the members by keys of the chain; and the members stay under the prefix exactly when every verified member update is for a name under it |
| `SectionLaws.EldersAcceptedIff` | src/section/mod.rs:209-236 | new elders are accepted exactly when they are for our prefix or one below it, their authority verifies and a key of our chain signed their key |
| `SectionLaws.MergeAcceptedIff` | src/section/mod.rs:181-193 | another section is accepted exactly when its authority verifies and is signed with its last key and the chains can be merged |
| `SectionLaws.MembersSurviveElders` | src/section/mod.rs:238-246 | accepted elders lose exactly the members outside the prefix, change none of the others, and their key joins the chain |
| `SectionLaws.RanksNeverDrop` | src/section/mod.rs:181-257 | over any run of merges, new elders and member updates the rank of a name never drops while the name stays under our prefix |
| `SectionLaws.MergedRank` | src/section/mod.rs:198-203 | after a merge each name under the prefix has the higher of the two sides' ranks and every other name is gone |
| `SectionLaws.SectionsConverge` | src/section/mod.rs:179-206 | two nodes that merge each other's sections both succeed or both fail, and end with the same chain, authority and ranks, and in the same state when entries are consistent |
| `ElderSelection.CompareIsTotalPreorder` | src/section/section_peers.rs:211-250 | among members who have not left the comparison is a total preorder in which only equal signatures tie |
| `ElderSelection.LeftMembersAreNotOrdered` | src/section/section_peers.rs:244-249 | two members who left each compare less than the other |
| `ElderSelection.PoolsHoldNoneWhoLeft` | src/section/section_peers.rs:102-133 | no member who left ever reaches the comparison |
| `ElderSelection.BestIsTop` | src/section/section_peers.rs:194-208 | the chosen are as many as asked for or all, distinct, and none left out beats one of them |
| `ElderSelection.BestIgnoresListingOrder` | src/section/section_peers.rs:194-230 | with different signatures the same candidates are chosen, in the same order, whatever order the members are iterated in |
| `ElderSelection.RelocatingElderIsLastResort` | src/section/section_peers.rs:232-250 | a relocating elder is chosen only if every reachable joined member is |
| `ElderSelection.OlderThenElderFirst` | src/section/section_peers.rs:211-250 | nobody is chosen over a candidate in a better state, an older one, or, unless an elder, over an elder of the same state and age; among the rest the smaller signature decides |
| `Messaging.AgeIsLastByte` | src/peer.rs:60-62 | the age is the number that the last eight bits of the name stand for |
| `Promotion.ChoosingAgain` | src/section/section_peers.rs:194-230 | choosing again, with the chosen as current elders, from any part of the pool that holds them all, chooses the same |
| `Promotion.PromotesIff` | src/section/mod.rs:301-320 | when no split is due, seven or fewer eligible members that nobody left out beats are proposed, with their addresses, exactly when they are not the current elders and number at least a supermajority of them; otherwise nothing is |
| `Promotion.PromotesTheTop` | src/section/mod.rs:301-320 | with different signatures those are the only such members |
| `Promotion.FewAreAllProposed` | src/section/mod.rs:301-320 | up to seven eligible members are all proposed if they are not the elders already and not too few |
| `Promotion.PromotionSettles` | src/section/mod.rs:301-320 | when one set of candidates is proposed and becomes the authority with the members unchanged, no member proposes anything next |
| `Promotion.SplitSettles` | src/section/mod.rs:301-320 | after a split each half, with the members it keeps and its proposed elders, proposes nothing unless it can split again |
| `Promotion.SplitsIff` | src/section/mod.rs:373-399 | a section splits exactly when a bit is left and both sides have at least fourteen mature joined members |
| `Promotion.SplitProposesTops` | src/section/mod.rs:396-417 | when a split is due, each half, ours first, is proposed seven or fewer of the reachable joined members under its prefix that nobody left out beats, with their addresses |
| `Promotion.SplitIsCommonKnowledge` | src/section/mod.rs:373-418 | two nodes with the same listing compute the same split up to which half comes first |
| `Promotion.SplitAgreement` | src/section/mod.rs:373-418 | so do two nodes that iterate the same members in different orders |
| `Promotion.SplitHalvesAreSound` | src/section/mod.rs:401-417 | the halves are siblings right below the prefix, ours holds our name, elders are under their half's prefix and no elder is in both |
| `Promotion.SplitHalvesAreFull` | src/section/mod.rs:396-414 | when members are under the prefix and joined ones reachable, each half gets exactly seven elders |
| `NetworkModel.Network.UpdateSection` | src/network/mod.rs:154-176 | the new map; the result is true exactly when the known authorities changed |
| `NetworkModel.Network.Merge` | src/network/mod.rs:135-143 | the loop inserts, in order, exactly the entries that verify |
| `NetworkModel.UpdateStoresIff` | src/network/mod.rs:154-176 | an update stores a section exactly when a key of our chain vouches for it and nothing below it is known, or it was stored already |
| `NetworkModel.NewIsVouched` | src/network/mod.rs:254-264 | what an update stores anew has an authority that verifies and a key of our chain that signed its key or, without such a signature, is its key |
| `NetworkModel.MergedIsVouched` | src/network/mod.rs:135-143 | what a merge stores anew came with it and is vouched for in the same way |
| `NetworkModel.MergeKeepsVouched` | src/network/mod.rs:135-143 | merging keeps it that keys of our chain vouch for every known section, also as the chain grows |
| `NetworkModel.AuthoritiesChange` | src/network/mod.rs:169-175 | an insert leaves the authorities alone exactly when it is refused or repeats the stored one |
| `NetworkModel.SettledStays` | src/network/mod.rs:135-143 | an entry that would change nothing if inserted again stays so while other prefixes are inserted |
| `NetworkModel.MergeIsIdempotent` | src/network/mod.rs:132-143 | merging a network again, in any order and even in part, changes nothing |
| `NetworkModel.MergeIsNotCommutative` | src/network/mod.rs:136-136 | any two verified authorities for one prefix merge to different maps in the two orders |
| `ElderCounts.KraftLaw` | src/network/mod.rs:235-241 | fractions of different prefixes that cover the address space add up to at least 1, of those that do not overlap to at most 1, and of either to just 1 exactly when they do both |
| `ElderCounts.EstimateIsEnoughIff` | src/network/mod.rs:229-247 | for any known sections, overlapping or not, the estimated total is at least the known count exactly when the known elders but one, scaled by the fraction, are fewer than the known elders |
| `ElderCounts.EstimateIsSound` | src/network/mod.rs:229-247 | for sections that do not overlap the estimated total is never below the known count, and equals it exactly when the count is exact or zero |
| `ElderCounts.OverlapUnderestimates` | src/network/mod.rs:229-247 | whenever different known prefixes cover the address space, one of them is below another and the known elders outnumber the prefixes of its length, the count claims to be exact and the estimate is below the known count |
| `OurEldersGaps.HalfLearnedSplitUnderestimates` | src/network/mod.rs:229-247 | so it is for an elder, in the run from genesis that splits once and then learns one half of its neighbour's split |
| `OurEldersGaps.HalfLearnedSplitHappens` | src/network/mod.rs:229-247 | every first node has such a run, whatever the rules for forks and whoever the neighbour's four elders or more are |
| `SplitBarrierModel.SplitBarrier.Process` | src/routing/split_barrier.rs:32-61 | what is released and what stays cached, in order |
| `SplitBarrierModel.BarrierConserves` | src/routing/split_barrier.rs:32-61 | every entry is either released or still cached, once |
| `SplitBarrierModel.BarrierConservesOverRuns` | src/routing/split_barrier.rs:32-61 | over any run, while the prefix changes, no entry is lost or duplicated |
| `SplitBarrierModel.NoSiblingsOverRuns` | src/routing/split_barrier.rs:43-60 | over any run two sides of one split are never both cached |
| `SplitBarrierModel.SplitNeedsBothSides` | src/routing/split_barrier.rs:26-31 | a split is released exactly when the other side is cached, with the new entry last and only the other side before it |
| `OurElders.Core.HandleOurEldersAgreement` | src/routing/core/messaging/handling/agreement.rs:268-295 | the whole new state after an agreement, with the network reset of a demoted elder (src/routing/core/mod.rs, lines 159-238) |
| `OurEldersLaws.PrefixChangeIsSplit` | src/routing/core/messaging/handling/agreement.rs:268-295 | our prefix only changes to an extension of itself, through a batch that consists of the two sides of one split |
| `OurEldersRuns.KnownAreVouchedThroughout` | src/routing/core/messaging/handling/agreement.rs:268-295 | over any run from genesis a key of our chain vouches for every known section |
| `OurEldersLaws.BatchMatches` | src/routing/core/messaging/handling/agreement.rs:282-292 | after a split batch the network matches what it matched before and, exactly if it verified and was not refused, the other side |
| `OurEldersLaws.PathCondition` | tests/utils/mod.rs:212-225 | moving our prefix down leaves no gap exactly when every side branch on the way is known |
| `OurEldersLaws.SplitCondition` | src/routing/core/messaging/handling/agreement.rs:268-295 | a split leaves no gap exactly when each skipped level's other half is known and the sibling lands or is known |
| `OurEldersLaws.CoverageStep` | src/routing/core/messaging/handling/agreement.rs:268-295 | however the chain resolves forks, one agreement keeps the address space covered exactly when the prefix it results in stays or is reached without a gap, or is empty after a demotion |
| `OurEldersAhead.AheadIsRight` | src/routing/core/messaging/handling/agreement.rs:268-295 | when our last key signed what is for our side, the new prefix, a demotion and whether we are an elder are what the state and the batch told beforehand |
| `OurEldersAhead.CoveredAheadIsRight` | src/routing/core/messaging/handling/agreement.rs:268-295 | then, from any state, the address space is covered afterwards exactly when the told prefix, the known sections and the told newcomers cover it, or after a told demotion the prefix is empty |
| `OurEldersAhead.SafeAheadIsRight` | src/routing/core/messaging/handling/agreement.rs:268-295 | then, from a covered address space, it stays covered exactly when each skipped level's other half is known and the sibling is known or enters, because some entry for it verifies and nothing below it is known |
| `OurEldersAhead.SignedSplitIsSafeIff` | src/routing/core/messaging/handling/agreement.rs:268-295 | a split with any number of entries a side, all signed by our last key, that demotes nobody keeps it covered exactly when each skipped level's other half is known and nothing below the sibling is known unless it covers the sibling |
| `OurEldersRuns.CoverageOverRuns` | src/routing/core/messaging/handling/agreement.rs:268-295 | however the chain resolves forks, from genesis the address space is covered throughout a run exactly when every step of the run is safe |
| `OurEldersRuns.CoverageOverRegularRuns` | src/routing/core/messaging/handling/agreement.rs:268-295 | where our last key signs what is for our side, it is covered throughout exactly when before every step it could be told to stay so |
| `OurEldersRuns.ElderCoverageOverRuns` | tests/utils/mod.rs:165-225 | over such runs, demotions and promotions included, the node is never an elder with a gap exactly when before every step that leaves it an elder the address space could be told to be covered |
| `OurEldersRuns.ElderCoverageWithoutDemotion` | tests/utils/mod.rs:165-225 | over such runs of an elder without demotions, there is never a gap exactly when no split leaves one on the way to the new prefix |
| `ForkFreeRuns.SidesTakeEffect` | src/routing/core/messaging/handling/agreement.rs:282-292 | two properly signed sides of a split take effect in either order: our authority, our chain and the network afterwards |
| `ForkFreeRuns.ForkFreeRunsKnowThePath` | tests/utils/mod.rs:171-225 | in every fork-free run from genesis the known sections are exactly the other halves of the splits on the way to our prefix, so they cover the address space and no two known prefixes are compatible |
| `ForkFreeRuns.ForkFreeCountsAreExact` | src/network/mod.rs:229-247 | so in such runs the count of elders, ours and those of every known authority, is exact |
| `OurEldersGaps.SkippedLevelLeavesGap` | tests/utils/mod.rs:165-225 | an elder of the first section whose split goes down two levels or more at once is an elder with a gap afterwards |
| `OurEldersGaps.SkippedLevelHappens` | tests/utils/mod.rs:165-225 | every first node has such a run |
| `OurEldersGaps.RefusedSiblingLeavesGap` | tests/utils/mod.rs:165-225 | so is an elder of the first section who learned one of two sections below its future sibling, because then the sibling is refused |
| `OurEldersGaps.RefusedSiblingHappens` | tests/utils/mod.rs:165-225 | every first node has such a run |
| `OurEldersGaps.RepromotedElderHasGap` | tests/utils/mod.rs:165-225 | so is, after any run from genesis, an elder below the empty prefix who is demoted and promoted again |
| `OurEldersGaps.RepromotionHappens` | tests/utils/mod.rs:165-225 | every first node has such a run |
| `Quorum.SupermajoritiesOverlap` | src/lib.rs:113-117 | two supermajorities of a group share more than a third of it |
| `Quorum.SupermajorityIsLeast` | src/lib.rs:113-117 | the supermajority is the least number above two thirds, and no more than the group |
| `DkgFailures.DkgFailureSignedSet.Insert` | src/dkg/dkg_msgs_utils.rs:73-87 | each signer counts once, the first named non-participants stay, and the result tells whether the signer is new |
| `DkgFailures.AgreementBlocksSupermajority` | src/dkg/dkg_msgs_utils.rs:115-120 | a failure agreement shares a candidate with every supermajority of the candidates |
| `DkgFailures.FewerReportsDoNotBlock` | src/dkg/dkg_msgs_utils.rs:115-120 | one report fewer leaves a disjoint supermajority, so the threshold is tight |
| `DkgFailures.AgreementVerifiesIff` | src/dkg/dkg_msgs_utils.rs:95-112 | an agreement of valid reports passes verification exactly when all reporters named the non-participants the set carries |
| `DkgFailures.VerifiesIffEnoughCount` | src/dkg/dkg_msgs_utils.rs:95-120 | any set of reports passes verification exactly when those by candidates that are valid for the session and the non-participants carried are more than all candidates but a supermajority |
| `DkgFailures.KeysDiffer` | src/dkg/dkg_msgs_utils.rs:25-38 | two sessions have one key exactly when they agree on candidates, prefix and generation |
| `DkgFailures.OtherSessionsRefuse` | src/dkg/dkg_msgs_utils.rs:95-112 | reports made for one session never pass verification for another |
| `DkgSession.Session.ProcessMessage` | src/dkg/session.rs:54-80 | new state and commands, through the nested broadcasts |
| `DkgSession.Session.BroadcastMessage` | src/dkg/session.rs:92-112 | new state and commands: sent unless there is no recipient, then processed |
| `DkgSession.Session.HandleTimeout` | src/dkg/session.rs:114-140 | new state and commands of a timed transition, of its failure, and of a complete session |
| `DkgSession.Session.Check` | src/dkg/session.rs:143-220 | new state and commands in every case of finalisation, participation and key share |
| `DkgSession.Session.ReportFailure` | src/dkg/session.rs:222-243 | new state and commands; a second report of our own is silent |
| `DkgSession.Session.ProcessFailure` | src/dkg/session.rs:245-268 | new state and commands; outsiders, invalid and repeated reports are ignored |
| `DkgSession.Session.CheckFailureAgreement` | src/dkg/session.rs:270-280 | with enough reports the session completes, hands them over and starts over with none |
| `DkgSessionLaws.MessageIsActs` | src/dkg/session.rs:54-112 | the mutual recursion of processing and broadcasting equals performing one flat sequence of acts |
| `DkgSessionLaws.EventIsActs` | src/dkg/session.rs:54-140 | so does handling any event |
| `DkgSessionLaws.RunsAreOrderly` | src/dkg/session.rs:54-280 | over any run at most one outcome is commanded and none after a failure agreement, the session completes only with one of the two, and a complete session stays complete |
| `DkgSessionAnswers.RunOutcomeIff` | src/dkg/session.rs:143-220 | a run yields an outcome exactly when some check of an open session finds all elders taking part and a matching share, and the outcome is the key set found |
| `DkgSessionAnswers.ReportedIff` | src/dkg/session.rs:143-243 | a session tells all others of a failure exactly when it finds one and has not reported before, and its report names those who did not take part |
| `DkgSessionAnswers.ReportsArrive` | src/dkg/session.rs:222-268 | what one session reports, every other session of the same DKG is told and takes in |
| `DkgSessionAnswers.EventAnswers` | src/dkg/session.rs:54-140 | every message the key generator answers with is sent once, in order and to all others, through all nesting; the timeout waited for stays scheduled; and a complete session does no more than that |
| `DkgSessionAnswers.TimeoutIsScheduled` | src/dkg/session.rs:66-76 | over any run the timeout a session waits for is its first one or has been scheduled |
| `DkgSessionLaws.RunsCommandProperAgreements` | src/dkg/session.rs:222-280 | over any run every failure agreement has exactly n - supermajority(n) + 1 valid reports of different candidates and meets every supermajority |
| `DkgSessionLaws.CommandedVerifiesIff` | src/dkg/dkg_msgs_utils.rs:95-112 | a failure agreement that a run commands passes verification at an elder with the same candidates and generation exactly when each of its reports names the non-participants it carries |
| `DkgSessionLaws.AgreementsVerifyElsewhere` | src/dkg/dkg_msgs_utils.rs:95-112 | so it passes if all reports of the run that are valid and from candidates, our own included, name the same non-participants |
| `DkgSessionLaws.RepeatedReportSpoilsAgreement` | src/dkg/dkg_msgs_utils.rs:73-87 | wherever more than one report is needed, a candidate that reports again, naming someone, makes the session command an agreement of which every report names nobody and which does not pass verification |
| `BacklogModel.Backlog.Push` | src/dkg/session.rs:298-304 | a full queue loses its oldest message first |
| `BacklogModel.Backlog.Take` | src/dkg/session.rs:306-321 | one rotation takes out exactly the messages of the key, in order, and keeps the others in order |
| `BacklogModel.Backlog.Prune` | src/dkg/session.rs:323-326 | exactly the messages of older generations go |
| `DkgVoterLaws.StartKeepsIff` | src/dkg/voter.rs:116-131 | a start that creates a session keeps exactly the waiting messages that are for other sessions and not of an older generation |
| `BacklogModel.PushConserves` | src/dkg/session.rs:298-304 | a push loses at most the evicted message and keeps the order |
| `DkgVoterModel.DkgVoter.Start` | src/dkg/voter.rs:61-141 | new state and commands in every case of a start |
| `DkgVoterModel.DkgVoter.Launch` | src/dkg/voter.rs:102-132 | a new session object broadcasts, replays what waited for it in order and joins the others, of which the older go, as do older messages |
| `DkgVoterModel.Replay` | src/dkg/voter.rs:118-123 | the session processes the waiting messages in order |
| `DkgVoterModel.DkgVoter.HandleTimeout` | src/dkg/voter.rs:144-154 | new state and commands: some session with the token moves on, and nothing happens exactly if there is none |
| `DkgVoterModel.DkgVoter.ProcessMessage` | src/dkg/voter.rs:157-169 | a message goes to its session or waits for it |
| `DkgVoterModel.DkgVoter.ProcessFailure` | src/dkg/voter.rs:171-180 | new state and commands; a report without a session is ignored |
| `DkgVoterLaws.VoterRunsKeepTrack` | src/dkg/voter.rs:61-169 | over any run no message waits for a live session, each received message is in exactly one of delivered, waiting, evicted or pruned, the waiting ones are in arrival order and arrived after all evicted ones, and the pruned ones are older than a session started |
| `DkgVoterLaws.QueueStaysBounded` | src/dkg/session.rs:291-304 | over any run the queue stays within its capacity |
| `DkgVoterLaws.StartReplaysWaiting` | src/dkg/voter.rs:116-124 | a start replays exactly the waiting messages of its key in arrival order, after its first broadcast, as if they had arrived then |
| `DkgLifetimes.VoterSessionsBehave` | src/dkg/voter.rs:61-180 | over any run every command belongs to a session or to someone alone, each with a start of its own, and every session ever started yields at most one outcome, none after a failure agreement, and only proper agreements |
| `DkgLifetimes.VoterRunsCommandProperAgreements` | src/dkg/voter.rs:61-180 | over any run of a voter every failure agreement is a proper one of a session that run started |
| `Relocation.TrailingZeros` | src/relocation.rs:256-269 | the reverse scan counts the largest power of two, up to all bits, that divides the big-endian value |
| `Relocation.CheckIsModulus` | src/relocation.rs:243-247 | the check is the documented modulus formula exactly unless the signature is zero and the age exceeds its bits |
| `Relocation.CheckIsModulusForAges` | src/relocation.rs:243-247 | so it is the formula for every 8-bit age and every signature of at least 32 bytes |
| `Relocation.ActionsAreOldestDivisors` | src/relocation.rs:28-58 | a churn event relocates exactly the joined members of the greatest age whose power of two divides the signature |
| `Relocation.ActionsAreOfTheRightKind` | src/relocation.rs:212-223 | a relocated elder is told to relocate later, anyone else relocates at once and a year older, to the destination of its own name |
| `Relocation.ActionsAt` | src/relocation.rs:48-57 | exactly the candidates of the given age get an action, delayed for elders and immediate with one more year of age for others |
| `CacheModel.Cache.Get` | src/cache/mod.rs:82-94 | a value is found exactly when it is stored and not expired |
| `CacheModel.Cache.Set` | src/cache/mod.rs:100-116 | the whole new contents, within capacity, and the replaced value unless it had expired |
| `CacheModel.Cache.RemoveExpired` | src/cache/mod.rs:119-133 | exactly the expired items go |
| `CacheModel.Cache.DropExcess` | src/cache/mod.rs:136-155 | the excess goes, in the order of a sort that measures all items at one instant |
| `CacheModel.Cache.Remove` | src/cache/mod.rs:158-163 | the item goes and its value is returned, expired or not |
| `CacheModel.Cache.Clear` | src/cache/mod.rs:166-168 | nothing is left |
| `CacheModel.EvictionIsOldestFirst` | src/cache/mod.rs:135-155 | as many items as fit are kept, unchanged, and no kept one has been in longer than a dropped one |
| `CacheModel.EarlierIsDroppedFirst` | src/cache/mod.rs:135-155 | of two timed items the one set earlier by a millisecond or more is dropped first |
| `CacheModel.FreshUntilExpiry` | src/cache/item.rs:16-31 | an item lives until its duration is over, and for good without one |
| `CacheModel.UnexpiredStayIff` | src/cache/mod.rs:119-133 | removing what expired keeps exactly the items without an expiry or not past it |
| `CacheModel.TimelessDropsSmallest` | src/cache/item.rs:16-38 | without expiry all items tie, so what is dropped depends on key order, not on age |
| `CacheModel.FreshItemSurvivesIff` | src/cache/mod.rs:95-99 | in a full cache without expiry the item just set survives exactly when a smaller key was there |
| `CacheInterleaving.StepBounded` | src/cache/mod.rs:100-168 | every step under one lock keeps the bound on what tasks in flight have yet to remove |
| `CacheInterleaving.CapacityHoldsBetweenSets` | src/cache/mod.rs:100-168 | however calls interleave, without a task that is dropping its excess the capacity is exceeded by at most the sets that have not read the length, and not at all when no set is in flight |
| `CacheInterleaving.SetAloneIsSet` | src/cache/mod.rs:100-155 | a set that nobody interleaves with leaves exactly what the sequential one leaves |
| `CacheInterleaving.PurgeAloneIsRemoveExpired` | src/cache/mod.rs:119-133 | so does a removal of expired items |
| `Send.SendToGroup` | src/routing/comm.rs:174-277 | for every completion order exactly the first needed recipients are tried, each once, and how sending to them ends decides the result |
| `Send.Drain` | src/routing/comm.rs:231-255 | the loop ends with a whole group sent, or fewer and every recipient tried, or a local close among the needed ones |
| `Send.CompletionStep` | src/routing/comm.rs:235-254 | each completion keeps launched recipients split into in flight, sent and lost, and brings in a recipient only when it is needed |
| `Send.SuccessesAreMaximal` | src/routing/comm.rs:164-168 | the number of successes is the group size or, if smaller, the number of recipients that can be reached |

## Left out

- QUIC endpoints, reachability probes, channels, tokio tasks, the dispatcher, event streams and logging: input and output only.
- BLS, ed25519, SHA3, serialisation, the key generator, the signature aggregator and the linked list behind the chain: code of other crates, replaced by the contracts above.
- Join and relocation bootstrap, resource proof, anti-entropy and the trust decisions on messages: message plumbing around the state modelled here.
- Delivery groups, the end-user registry, the key cache, the message filter, statistics printing and event differences: they would only add easy members.
- `first_node`, `extend_chain`, `adults`, `live_adults` and other plain queries of the section: easy members.
- Commands and messages that `update_state` sends after an agreement: only its reset of a demoted node's network matters to the state modelled.
- The demoted node's key share provider and message filter, which the same step resets.
- ElderCounts.EstimateIsEnoughIff: 64-bit floats are reals and the cast to `u64` does not saturate, because rounding is not the point of the estimate.
- BacklogModel.Backlog.Push: the capacity is a parameter of at least 100, because `with_capacity` only promises a lower bound.
- DkgFailures.AgreementVerifiesIff: an empty candidate set, for which the unsigned subtraction in the threshold underflows, has no agreement and no session.
- CacheModel.Cache.DropExcess: one instant serves the whole sort, although the program reads the clock at every comparison.
- CacheModel.Cache.Set: a start later than the clock reading counts as no time elapsed.
- Relocation.ActionsAreOldestDivisors: the destination hash is a parameter and the destination's key in the relocation details is not part of the model.
- Send.SendToGroup: recipients are positions in the list, and a failure to serialise the message is not part of the model.
- ForkFreeRuns.ForkFreeRunsKnowThePath: a fork-free run excludes demotion, splits by several levels or with more than one entry a side, and outside sections that do not hang off the path; `CoverageOverRuns` is about all runs.
- OurEldersRuns.ElderCoverageOverRuns: an agreement for our side signed by an older key of the chain is excluded, and so are forks of our side that disagree on whether we are an elder, because there the outcome is the chain's choice between forks and cannot be told from the state; `CoverageOverRuns` includes them.
